/**
 * The keyword detector: lower-cases the text, scans a fixed table of categories for keywords
 * by plain substring containment, scales the largest matched severity by a context
 * multiplier, caps it at 1.0 and reports the text as toxic when some keyword matched and the
 * adjusted severity reaches the confidence threshold.
 */
module ToxicityAnalyzer {
  import opened Wrappers
  import opened Text

  /** One entry of the keyword table: a category name, its keywords and the severity they share. */
  datatype Category = Category(name: string, keywords: seq<string>, severity: real)

  /** The keyword table, in the order the detector scans it. */
  const Patterns: seq<Category> := [
    Category("hate_speech", ["hate", "despise", "detest", "loathe"], 0.9),
    Category("insults", ["stupid", "idiot", "dumb", "moron", "fool", "imbecile"], 0.7),
    Category("profanity", ["damn", "hell", "crap"], 0.5),
    Category("aggressive", ["shut up", "get lost", "go away"], 0.8),
    Category("derogatory", ["loser", "pathetic", "worthless", "useless", "garbage", "trash"], 0.8),
    Category("offensive", ["disgusting", "ugly", "freak", "weird", "creep"], 0.7)
  ]

  /** Context multiplier for a character repeated three or more times in a row. */
  const RepeatedCharsFactor: real := 1.2
  /** Context multiplier for text longer than ten characters written all in capitals. */
  const AllCapsFactor: real := 1.3
  /** Context multiplier for two or more exclamation marks. */
  const MultipleExclamationFactor: real := 1.2

  /** The configured confidence threshold: the least adjusted severity that counts as toxic. */
  const ConfidenceThreshold: real := 0.6

  /** The advice attached to a detected category, in the order it is emitted. */
  const Advice: seq<(string, string)> := [
    ("hate_speech", "Consider expressing disagreement without using hateful language"),
    ("insults", "Try focusing on the issue rather than personal attacks"),
    ("aggressive", "A calmer tone might lead to better communication"),
    ("derogatory", "Respectful language helps maintain positive relationships")
  ]

  /**
   * The analysis of one text. Keywords and categories are sets: the detector passes both
   * lists through `set` before returning them. `originalText` is absent from the verdict
   * returned for blank text.
   */
  datatype Verdict = Verdict(
    isToxic: bool,
    confidence: real,
    severity: real,
    keywords: set<string>,
    categories: set<string>,
    suggestions: seq<string>,
    originalText: Option<string>)

  /** The verdict for empty or whitespace-only text. */
  const BlankVerdict: Verdict := Verdict(false, 0.0, 0.0, {}, {}, [], None)

  function Min(a: real, b: real): real { if a <= b then a else b }

  function Max(a: real, b: real): real { if a >= b then a else b }

  // ---------------------------------------------------------------------------------------
  // The keyword scan, specified on the first `n` categories of the table

  /** Some keyword of `kws` occurs in `lower`. */
  predicate SomeHit(lower: string, kws: seq<string>) {
    exists kw :: kw in kws && Contains(lower, kw)
  }

  /** Category `i` of the table has a keyword occurring in `lower`. */
  predicate CategoryHit(lower: string, i: nat)
    requires i < |Patterns|
  {
    SomeHit(lower, Patterns[i].keywords)
  }

  /** The keywords of `kws` that occur in `lower`. */
  function HitsAmong(lower: string, kws: seq<string>): set<string> {
    set kw | kw in kws && Contains(lower, kw)
  }

  /** The keywords of the first `n` categories that occur in `lower`. */
  function KeywordsUpTo(lower: string, n: nat): set<string>
    requires n <= |Patterns|
  {
    set i, kw | 0 <= i < n && kw in Patterns[i].keywords && Contains(lower, kw) :: kw
  }

  /** The names of the first `n` categories that have a keyword occurring in `lower`. */
  function CategoriesUpTo(lower: string, n: nat): set<string>
    requires n <= |Patterns|
  {
    set i | 0 <= i < n && CategoryHit(lower, i) :: Patterns[i].name
  }

  /** The largest severity among the first `n` categories that have a hit, or 0.0 if none has. */
  function MaxSeverityUpTo(lower: string, n: nat): (m: real)
    requires n <= |Patterns|
    ensures 0.0 <= m
    ensures forall i :: 0 <= i < n && CategoryHit(lower, i) ==> Patterns[i].severity <= m
    ensures m == 0.0 || exists i :: 0 <= i < n && CategoryHit(lower, i) && m == Patterns[i].severity
  {
    if n == 0 then 0.0
    else
      var m := MaxSeverityUpTo(lower, n - 1);
      if CategoryHit(lower, n - 1) then Max(m, Patterns[n - 1].severity) else m
  }

  // ---------------------------------------------------------------------------------------
  // The context multiplier

  /** The regular expression `(.)\1{2,}` finds a match: some character other than a line feed three times in a row. */
  predicate HasRepeatedChar(text: string) {
    exists i :: 0 <= i < |text| - 2 && text[i] != '\n' && text[i + 1] == text[i] && text[i + 2] == text[i]
  }

  /** `text.count('!') >= 2`. */
  predicate HasMultipleExclamations(text: string) {
    multiset(text)['!'] >= 2
  }

  function Factor(applies: bool, f: real): real { if applies then f else 1.0 }

  /** The product of the factors whose conditions hold of `text`. */
  function ContextMultiplier(text: string): real {
    Factor(HasRepeatedChar(text), RepeatedCharsFactor)
    * Factor(IsLongAllCaps(text), AllCapsFactor)
    * Factor(HasMultipleExclamations(text), MultipleExclamationFactor)
  }

  /**
   * The multiplier lies between 1 and the product of all three factors; it is 1 exactly when no
   * condition holds, and otherwise at least 1.2.
   */
  lemma MultiplierRange(text: string)
    ensures var m := ContextMultiplier(text);
      && 1.0 <= m <= RepeatedCharsFactor * AllCapsFactor * MultipleExclamationFactor
      && (m == 1.0 <==> !HasRepeatedChar(text) && !IsLongAllCaps(text) && !HasMultipleExclamations(text))
      && (m == 1.0 || m >= MultipleExclamationFactor)
  {
  }

  /** `_analyze_context`: starts from 1.0 and multiplies in each factor whose condition holds. */
  method AnalyzeContext(text: string) returns (multiplier: real)
    ensures multiplier == ContextMultiplier(text)
  {
    multiplier := 1.0;
    if HasRepeatedChar(text) {
      multiplier := multiplier * RepeatedCharsFactor;
    }
    if |text| > 10 && IsUpper(text) {
      multiplier := multiplier * AllCapsFactor;
    }
    if multiset(text)['!'] >= 2 {
      multiplier := multiplier * MultipleExclamationFactor;
    }
  }

  // ---------------------------------------------------------------------------------------
  // Suggestions

  /** The advice of the first `n` entries of `Advice` whose category is in `cats`, in table order. */
  function AdviceUpTo(cats: set<string>, n: nat): seq<string>
    requires n <= |Advice|
  {
    if n == 0 then []
    else AdviceUpTo(cats, n - 1) + (if Advice[n - 1].0 in cats then [Advice[n - 1].1] else [])
  }

  /** The suggestions for a set of detected categories. */
  function Suggestions(cats: set<string>): seq<string> {
    AdviceUpTo(cats, |Advice|)
  }

  /** `_generate_suggestions`: appends one fixed piece of advice per category it recognises. */
  method GenerateSuggestions(categories: seq<string>) returns (suggestions: seq<string>)
    ensures suggestions == Suggestions(ToSet(categories))
  {
    ghost var cats := ToSet(categories);
    suggestions := [];
    if "hate_speech" in categories {
      suggestions := suggestions + ["Consider expressing disagreement without using hateful language"];
    }
    assert suggestions == AdviceUpTo(cats, 1);
    if "insults" in categories {
      suggestions := suggestions + ["Try focusing on the issue rather than personal attacks"];
    }
    assert suggestions == AdviceUpTo(cats, 2);
    if "aggressive" in categories {
      suggestions := suggestions + ["A calmer tone might lead to better communication"];
    }
    assert suggestions == AdviceUpTo(cats, 3);
    if "derogatory" in categories {
      suggestions := suggestions + ["Respectful language helps maintain positive relationships"];
    }
  }

  // ---------------------------------------------------------------------------------------
  // The analysis

  /** The largest matched severity scaled by the context multiplier, capped at 1.0. */
  function Adjusted(maxSeverity: real, multiplier: real): real {
    Min(maxSeverity * multiplier, 1.0)
  }

  /** The verdict `analyze` returns for `text`. */
  function Analysis(text: string): Verdict {
    if IsBlank(text) then BlankVerdict
    else
      var lower := Lower(text);
      var severity := Adjusted(MaxSeverityUpTo(lower, |Patterns|), ContextMultiplier(text));
      var keywords := KeywordsUpTo(lower, |Patterns|);
      var categories := CategoriesUpTo(lower, |Patterns|);
      var isToxic := keywords != {} && severity >= ConfidenceThreshold;
      Verdict(isToxic, severity, severity, keywords, categories,
              if isToxic then Suggestions(categories) else [], Some(text))
  }

  /** Scanning category `i` in full adds its hits to the keywords and its name, if it has a hit, to the categories. */
  lemma ScanStep(lower: string, i: nat)
    requires i < |Patterns|
    ensures KeywordsUpTo(lower, i + 1) == KeywordsUpTo(lower, i) + HitsAmong(lower, Patterns[i].keywords)
    ensures CategoriesUpTo(lower, i + 1)
            == CategoriesUpTo(lower, i) + (if CategoryHit(lower, i) then {Patterns[i].name} else {})
  {
  }

  /** Testing keyword `j` of a keyword list extends the hits among the keywords before it. */
  lemma KeywordStep(lower: string, kws: seq<string>, j: nat)
    requires j < |kws|
    ensures HitsAmong(lower, kws[..j + 1])
            == HitsAmong(lower, kws[..j]) + (if Contains(lower, kws[j]) then {kws[j]} else {})
    ensures SomeHit(lower, kws[..j + 1]) <==> SomeHit(lower, kws[..j]) || Contains(lower, kws[j])
  {
    assert kws[..j + 1] == kws[..j] + [kws[j]];
  }

  /**
   * The state of the scan once the first `j` keywords of `category` have been tested, starting
   * from the keywords `k`, the category names `c` and the maximum `m` of the categories before it.
   */
  ghost predicate Scanned(lower: string, category: Category, j: nat, found: seq<string>, cats: seq<string>,
                          maxSeverity: real, k: set<string>, c: set<string>, m: real)
    requires j <= |category.keywords|
  {
    var kws := category.keywords[..j];
    && ToSet(found) == k + HitsAmong(lower, kws)
    && ToSet(cats) == c + (if SomeHit(lower, kws) then {category.name} else {})
    && maxSeverity == (if SomeHit(lower, kws) then Max(m, category.severity) else m)
  }

  /** Testing keyword `j`: a hit appends the keyword and the category name and raises the maximum. */
  lemma ScannedStep(lower: string, category: Category, j: nat, found: seq<string>, cats: seq<string>,
                    maxSeverity: real, k: set<string>, c: set<string>, m: real)
    requires j < |category.keywords|
    requires Scanned(lower, category, j, found, cats, maxSeverity, k, c, m)
    ensures var kw := category.keywords[j];
      if Contains(lower, kw)
      then Scanned(lower, category, j + 1, found + [kw], cats + [category.name],
                   Max(maxSeverity, category.severity), k, c, m)
      else Scanned(lower, category, j + 1, found, cats, maxSeverity, k, c, m)
  {
    var kws := category.keywords;
    KeywordStep(lower, kws, j);
    ToSetAppend(found, kws[j]);
    ToSetAppend(cats, category.name);
  }

  /** Before any keyword of `category` has been tested, the scan state is the one it started from. */
  lemma ScannedStart(lower: string, category: Category, found: seq<string>, cats: seq<string>,
                     maxSeverity: real, k: set<string>, c: set<string>, m: real)
    requires ToSet(found) == k && ToSet(cats) == c && maxSeverity == m
    ensures Scanned(lower, category, 0, found, cats, maxSeverity, k, c, m)
  {
    assert category.keywords[..0] == [];
  }

  /** Category `i` tested in full: the scan state is that of the first `i + 1` categories. */
  lemma ScannedCategory(lower: string, i: nat, found: seq<string>, cats: seq<string>, maxSeverity: real)
    requires i < |Patterns|
    requires Scanned(lower, Patterns[i], |Patterns[i].keywords|, found, cats, maxSeverity,
                     KeywordsUpTo(lower, i), CategoriesUpTo(lower, i), MaxSeverityUpTo(lower, i))
    ensures ToSet(found) == KeywordsUpTo(lower, i + 1) && ToSet(cats) == CategoriesUpTo(lower, i + 1)
    ensures maxSeverity == MaxSeverityUpTo(lower, i + 1)
  {
    assert Patterns[i].keywords[..|Patterns[i].keywords|] == Patterns[i].keywords;
    ScanStep(lower, i);
  }

  /** `analyze`: scans the table category by category and keyword by keyword. */
  method Analyze(text: string) returns (v: Verdict)
    ensures v == Analysis(text)
  {
    if IsBlank(text) {
      return BlankVerdict;
    }
    var lower := Lower(text);
    var foundKeywords: seq<string> := [];
    var categories: seq<string> := [];
    var maxSeverity := 0.0;
    for i := 0 to |Patterns|
      invariant ToSet(foundKeywords) == KeywordsUpTo(lower, i)
      invariant ToSet(categories) == CategoriesUpTo(lower, i)
      invariant maxSeverity == MaxSeverityUpTo(lower, i)
    {
      var category := Patterns[i];
      ghost var k, c, m := KeywordsUpTo(lower, i), CategoriesUpTo(lower, i), MaxSeverityUpTo(lower, i);
      ScannedStart(lower, category, foundKeywords, categories, maxSeverity, k, c, m);
      for j := 0 to |category.keywords|
        invariant Scanned(lower, category, j, foundKeywords, categories, maxSeverity, k, c, m)
      {
        var keyword := category.keywords[j];
        ScannedStep(lower, category, j, foundKeywords, categories, maxSeverity, k, c, m);
        if Contains(lower, keyword) {
          foundKeywords := foundKeywords + [keyword];
          categories := categories + [category.name];
          maxSeverity := Max(maxSeverity, category.severity);
        }
      }
      ScannedCategory(lower, i, foundKeywords, categories, maxSeverity);
    }
    var contextScore := AnalyzeContext(text);
    var adjustedSeverity := Adjusted(maxSeverity, contextScore);
    var isToxic := |foundKeywords| > 0 && adjustedSeverity >= ConfidenceThreshold;
    ToSetEmpty(foundKeywords);
    var suggestions := [];
    if isToxic {
      suggestions := GenerateSuggestions(categories);
    }
    v := Verdict(isToxic, adjustedSeverity, adjustedSeverity,
                 ToSet(foundKeywords), ToSet(categories), suggestions, Some(text));
  }

  /** `batch_analyze`: one verdict per text, in order. */
  function BatchAnalyze(texts: seq<string>): (verdicts: seq<Verdict>)
    ensures |verdicts| == |texts|
    ensures forall i :: 0 <= i < |texts| ==> verdicts[i] == Analysis(texts[i])
  {
    seq(|texts|, i requires 0 <= i < |texts| => Analysis(texts[i]))
  }

  /** `get_toxicity_score`: the severity of the verdict, a number between 0 and 1. */
  function ToxicityScore(text: string): (score: real)
    ensures score == Analysis(text).severity
    ensures 0.0 <= score <= 1.0
  {
    VerdictConsistency(text);
    Analysis(text).severity
  }

  // ---------------------------------------------------------------------------------------
  // Properties of the verdict

  /** `kw` is one of the keywords of the table. */
  predicate InTable(kw: string) {
    exists i :: 0 <= i < |Patterns| && kw in Patterns[i].keywords
  }

  lemma AdjustedBounds(maxSeverity: real, multiplier: real)
    requires 0.0 <= maxSeverity && 1.0 <= multiplier
    ensures 0.0 <= Adjusted(maxSeverity, multiplier) <= 1.0
    ensures maxSeverity == 0.0 ==> Adjusted(maxSeverity, multiplier) == 0.0
    ensures maxSeverity <= Adjusted(maxSeverity, multiplier) || Adjusted(maxSeverity, multiplier) == 1.0
  {
    assert maxSeverity <= maxSeverity * multiplier;
  }

  /** A category with a hit contributes its keyword to the reported keywords. */
  lemma HitReported(lower: string, i: nat)
    requires i < |Patterns| && CategoryHit(lower, i)
    ensures KeywordsUpTo(lower, |Patterns|) != {}
  {
    var kw :| kw in Patterns[i].keywords && Contains(lower, kw);
    assert kw in KeywordsUpTo(lower, |Patterns|);
  }

  /**
   * The verdict is consistent: confidence equals severity, which lies in [0, 1] and is 0 when
   * nothing matched; the text is toxic exactly when some keyword matched and the severity
   * reaches the threshold; suggestions appear only for toxic text.
   */
  lemma VerdictConsistency(text: string)
    ensures var v := Analysis(text);
      && v.confidence == v.severity
      && 0.0 <= v.severity <= 1.0
      && (v.isToxic <==> v.keywords != {} && v.severity >= ConfidenceThreshold)
      && (v.keywords == {} ==> v.severity == 0.0 && v.categories == {})
      && (!v.isToxic ==> v.suggestions == [])
  {
    if !IsBlank(text) {
      var lower := Lower(text);
      var m := MaxSeverityUpTo(lower, |Patterns|);
      MultiplierRange(text);
      AdjustedBounds(m, ContextMultiplier(text));
      if KeywordsUpTo(lower, |Patterns|) == {} {
        if m != 0.0 {
          var i :| 0 <= i < |Patterns| && CategoryHit(lower, i) && m == Patterns[i].severity;
          HitReported(lower, i);
        }
        if c :| c in CategoriesUpTo(lower, |Patterns|) {
          var i :| 0 <= i < |Patterns| && CategoryHit(lower, i) && Patterns[i].name == c;
          HitReported(lower, i);
        }
      }
    }
  }

  /**
   * Empty or whitespace-only text, and only such text, gets the verdict without `originalText`:
   * not toxic, both scores 0, and no keywords, categories or suggestions.
   */
  lemma BlankAnalysis(text: string)
    ensures Analysis(text).originalText.None? <==> IsBlank(text)
    ensures IsBlank(text) ==> var v := Analysis(text);
      !v.isToxic && v.confidence == 0.0 && v.severity == 0.0 &&
      v.keywords == {} && v.categories == {} && v.suggestions == []
  {
  }

  /** The reported keywords are exactly the table keywords that occur in the lower-cased text. */
  lemma KeywordsAreSubstrings(text: string, kw: string)
    requires !IsBlank(text)
    ensures kw in Analysis(text).keywords <==> InTable(kw) && Contains(Lower(text), kw)
  {
    if InTable(kw) && Contains(Lower(text), kw) {
      var i :| 0 <= i < |Patterns| && kw in Patterns[i].keywords;
      assert kw in KeywordsUpTo(Lower(text), |Patterns|);
    }
  }

  /**
   * Every reported category owns a reported keyword, and the category of every reported
   * keyword is reported.
   */
  lemma CategoriesMatchKeywords(text: string)
    ensures var v := Analysis(text);
      && (forall c :: c in v.categories ==>
            exists i, kw :: 0 <= i < |Patterns| && Patterns[i].name == c && kw in Patterns[i].keywords && kw in v.keywords)
      && (forall i, kw :: 0 <= i < |Patterns| && kw in Patterns[i].keywords && kw in v.keywords ==>
            Patterns[i].name in v.categories)
  {
    var v := Analysis(text);
    if !IsBlank(text) {
      var lower := Lower(text);
      forall c | c in v.categories
        ensures exists i, kw :: 0 <= i < |Patterns| && Patterns[i].name == c && kw in Patterns[i].keywords && kw in v.keywords
      {
        var i :| 0 <= i < |Patterns| && CategoryHit(lower, i) && Patterns[i].name == c;
        var kw :| kw in Patterns[i].keywords && Contains(lower, kw);
        assert kw in v.keywords;
      }
      forall i, kw | 0 <= i < |Patterns| && kw in Patterns[i].keywords && kw in v.keywords
        ensures Patterns[i].name in v.categories
      {
        KeywordsAreSubstrings(text, kw);
        assert CategoryHit(lower, i);
      }
    }
  }

  /** A hit in a category whose severity reaches the threshold makes the text toxic, whatever its context. */
  lemma SevereHitIsToxic(text: string, i: nat)
    requires !IsBlank(text) && i < |Patterns| && CategoryHit(Lower(text), i)
    requires Patterns[i].severity >= ConfidenceThreshold
    ensures Analysis(text).isToxic
  {
    var lower := Lower(text);
    MultiplierRange(text);
    AdjustedBounds(MaxSeverityUpTo(lower, |Patterns|), ContextMultiplier(text));
    HitReported(lower, i);
  }

  /** The category names of the table are pairwise distinct. */
  lemma NamesDistinct()
    ensures forall i, j :: 0 <= i < |Patterns| && 0 <= j < |Patterns| && Patterns[i].name == Patterns[j].name ==> i == j
  {
    forall i, j | 0 <= i < |Patterns| && 0 <= j < |Patterns| && Patterns[i].name == Patterns[j].name
      ensures i == j
    {
      assert i in {0, 1, 2, 3, 4, 5} && j in {0, 1, 2, 3, 4, 5};
    }
  }

  /** When a single category is reported, the largest matched severity is that category's. */
  lemma SingleCategory(lower: string, i0: nat)
    requires i0 < |Patterns|
    requires CategoriesUpTo(lower, |Patterns|) == {Patterns[i0].name}
    ensures CategoryHit(lower, i0)
    ensures MaxSeverityUpTo(lower, |Patterns|) == Patterns[i0].severity
  {
    NamesDistinct();
    assert Patterns[i0].name in CategoriesUpTo(lower, |Patterns|);
    var m := MaxSeverityUpTo(lower, |Patterns|);
    assert m >= Patterns[i0].severity > 0.0;
    var j :| 0 <= j < |Patterns| && CategoryHit(lower, j) && m == Patterns[j].severity;
    assert Patterns[j].name in CategoriesUpTo(lower, |Patterns|);
  }

  /**
   * When profanity is the only category hit, the severity is its 0.5 scaled by the context
   * multiplier, and the text is toxic exactly when some context factor applies.
   */
  lemma ProfanityAlone(text: string)
    requires !IsBlank(text)
    requires Analysis(text).categories == {"profanity"}
    ensures Analysis(text).severity == 0.5 * ContextMultiplier(text)
    ensures Analysis(text).isToxic <==> ContextMultiplier(text) != 1.0
  {
    var lower := Lower(text);
    SingleCategory(lower, 2);
    MultiplierRange(text);
    HalfAdjusted(ContextMultiplier(text));
    HitReported(lower, 2);
  }

  lemma HalfAdjusted(multiplier: real)
    requires 1.0 <= multiplier <= RepeatedCharsFactor * AllCapsFactor * MultipleExclamationFactor
    requires multiplier == 1.0 || multiplier >= MultipleExclamationFactor
    ensures Adjusted(0.5, multiplier) == 0.5 * multiplier
    ensures Adjusted(0.5, multiplier) >= ConfidenceThreshold <==> multiplier != 1.0
  {
  }

  lemma {:induction false} AdviceUpToMembers(cats: set<string>, n: nat)
    requires n <= |Advice|
    ensures forall t :: t in AdviceUpTo(cats, n) <==> exists j :: 0 <= j < n && Advice[j].0 in cats && Advice[j].1 == t
    ensures |AdviceUpTo(cats, n)| <= n
    ensures AdviceUpTo(cats, n) == AdviceUpTo(cats - {"profanity", "offensive"}, n)
  {
    if n > 0 {
      AdviceUpToMembers(cats, n - 1);
      assert n - 1 in {0, 1, 2, 3};
    }
  }

  /**
   * There is one suggestion per detected category among hate_speech, insults, aggressive and
   * derogatory; profanity and offensive never add one.
   */
  lemma SuggestionsFollowCategories(cats: set<string>)
    ensures forall j :: 0 <= j < |Advice| ==> (Advice[j].1 in Suggestions(cats) <==> Advice[j].0 in cats)
    ensures Suggestions(cats) == Suggestions(cats - {"profanity", "offensive"})
    ensures |Suggestions(cats)| <= |Advice|
  {
    AdviceUpToMembers(cats, |Advice|);
    forall j | 0 <= j < |Advice|
      ensures Advice[j].1 in Suggestions(cats) <==> Advice[j].0 in cats
    {
      if Advice[j].1 in Suggestions(cats) {
        var k :| 0 <= k < |Advice| && Advice[k].0 in cats && Advice[k].1 == Advice[j].1;
        assert j in {0, 1, 2, 3} && k in {0, 1, 2, 3};
      }
    }
  }

  /**
   * When exactly one keyword of the table occurs in the lower-cased text, that keyword is
   * reported, with its category and that category's severity.
   */
  lemma SingleHit(lower: string, i0: nat, kw0: string)
    requires i0 < |Patterns| && kw0 in Patterns[i0].keywords
    requires forall i, kw :: 0 <= i < |Patterns| && kw in Patterns[i].keywords ==>
               (Contains(lower, kw) <==> i == i0 && kw == kw0)
    ensures KeywordsUpTo(lower, |Patterns|) == {kw0}
    ensures CategoriesUpTo(lower, |Patterns|) == {Patterns[i0].name}
    ensures MaxSeverityUpTo(lower, |Patterns|) == Patterns[i0].severity
  {
    assert Contains(lower, kw0);
    assert kw0 in KeywordsUpTo(lower, |Patterns|);
    assert CategoryHit(lower, i0);
    forall i | 0 <= i < |Patterns| && CategoryHit(lower, i)
      ensures i == i0
    {
      var kw :| kw in Patterns[i].keywords && Contains(lower, kw);
    }
  }

  /**
   * The verdict for a text in which exactly one keyword of the table occurs: that keyword, its
   * category, and that category's severity scaled by the context.
   */
  lemma SingleHitVerdict(text: string, i0: nat, kw0: string)
    requires !IsBlank(text)
    requires i0 < |Patterns| && kw0 in Patterns[i0].keywords
    requires forall i, kw :: 0 <= i < |Patterns| && kw in Patterns[i].keywords ==>
               (Contains(Lower(text), kw) <==> i == i0 && kw == kw0)
    ensures var severity := Adjusted(Patterns[i0].severity, ContextMultiplier(text));
      var isToxic := severity >= ConfidenceThreshold;
      Analysis(text) == Verdict(isToxic, severity, severity, {kw0}, {Patterns[i0].name},
                                if isToxic then Suggestions({Patterns[i0].name}) else [], Some(text))
  {
    SingleHit(Lower(text), i0, kw0);
  }

  // ---------------------------------------------------------------------------------------
  // Worked examples

  /** Without repeated characters, capitals or exclamation marks the context multiplier is 1. */
  lemma QuietContext(text: string)
    requires !HasRepeatedChar(text) && !IsUpper(text) && '!' !in text
    ensures ContextMultiplier(text) == 1.0
  {
    MultiplierRange(text);
  }
  /** The keywords of hate_speech that occur in "you are stupid". */
  lemma InsultScan0()
    ensures !Contains("you are stupid", "hate")
    ensures !Contains("you are stupid", "despise")
    ensures !Contains("you are stupid", "detest")
    ensures !Contains("you are stupid", "loathe")
  {
    var lower := "you are stupid";
    NotContainedByWindow(lower, "hate", 0);
    NotContainedByWindow(lower, "despise", 0);
    NotContainedByWindow(lower, "detest", 0);
    NotContainedByWindow(lower, "loathe", 0);
  }

  /** The keywords of insults that occur in "you are stupid". */
  lemma InsultScan1()
    ensures Contains("you are stupid", "stupid")
    ensures !Contains("you are stupid", "idiot")
    ensures !Contains("you are stupid", "dumb")
    ensures !Contains("you are stupid", "moron")
    ensures !Contains("you are stupid", "fool")
    ensures !Contains("you are stupid", "imbecile")
  {
    var lower := "you are stupid";
    assert OccursAt(lower, "stupid", 8);
    NotContainedByWindow(lower, "idiot", 0);
    NotContainedByWindow(lower, "dumb", 0);
    NotContainedByWindow(lower, "moron", 0);
    NotContainedByWindow(lower, "fool", 0);
    NotContainedByWindow(lower, "imbecile", 0);
  }

  /** The keywords of profanity that occur in "you are stupid". */
  lemma InsultScan2()
    ensures !Contains("you are stupid", "damn")
    ensures !Contains("you are stupid", "hell")
    ensures !Contains("you are stupid", "crap")
  {
    var lower := "you are stupid";
    NotContainedByWindow(lower, "damn", 0);
    NotContainedByWindow(lower, "hell", 0);
    NotContainedByWindow(lower, "crap", 0);
  }

  /** The keywords of aggressive that occur in "you are stupid". */
  lemma InsultScan3()
    ensures !Contains("you are stupid", "shut up")
    ensures !Contains("you are stupid", "get lost")
    ensures !Contains("you are stupid", "go away")
  {
    var lower := "you are stupid";
    NotContainedByWindow(lower, "shut up", 0);
    NotContainedByWindow(lower, "get lost", 0);
    NotContainedByWindow(lower, "go away", 0);
  }

  /** The keywords of derogatory that occur in "you are stupid". */
  lemma InsultScan4()
    ensures !Contains("you are stupid", "loser")
    ensures !Contains("you are stupid", "pathetic")
    ensures !Contains("you are stupid", "worthless")
    ensures !Contains("you are stupid", "useless")
    ensures !Contains("you are stupid", "garbage")
    ensures !Contains("you are stupid", "trash")
  {
    var lower := "you are stupid";
    NotContainedByWindow(lower, "loser", 0);
    NotContainedByWindow(lower, "pathetic", 0);
    NotContainedByWindow(lower, "worthless", 0);
    NotContainedByWindow(lower, "useless", 3);
    NotContainedByWindow(lower, "garbage", 0);
    NotContainedByWindow(lower, "trash", 4);
  }

  /** The keywords of offensive that occur in "you are stupid". */
  lemma InsultScan5()
    ensures !Contains("you are stupid", "disgusting")
    ensures !Contains("you are stupid", "ugly")
    ensures !Contains("you are stupid", "freak")
    ensures !Contains("you are stupid", "weird")
    ensures !Contains("you are stupid", "creep")
  {
    var lower := "you are stupid";
    NotContainedByWindow(lower, "disgusting", 0);
    NotContainedByWindow(lower, "ugly", 1);
    NotContainedByWindow(lower, "freak", 0);
    NotContainedByWindow(lower, "weird", 0);
    NotContainedByWindow(lower, "creep", 0);
  }

  /** Of all the keywords, only "stupid" occurs in "you are stupid". */
  lemma InsultKeywords()
    ensures forall i, kw :: 0 <= i < |Patterns| && kw in Patterns[i].keywords ==>
              (Contains("you are stupid", kw) <==> i == 1 && kw == "stupid")
  {
    InsultScan0();
    InsultScan1();
    InsultScan2();
    InsultScan3();
    InsultScan4();
    InsultScan5();
    forall i, kw | 0 <= i < |Patterns| && kw in Patterns[i].keywords
      ensures Contains("you are stupid", kw) <==> i == 1 && kw == "stupid"
    {
      assert i in {0, 1, 2, 3, 4, 5};
    }
  }

  lemma InsultNoRepeat()
    ensures !HasRepeatedChar("you are stupid")
  {
    var text := "you are stupid";
    forall i | 0 <= i < |text| - 2
      ensures !(text[i + 1] == text[i] && text[i + 2] == text[i])
    {
      assert i in {0, 1, 2, 3, 4, 5, 6, 7, 8, 9, 10, 11};
    }
  }

  lemma InsultContext()
    ensures ContextMultiplier("you are stupid") == 1.0
  {
    var text := "you are stupid";
    InsultNoRepeat();
    assert IsAsciiLower(text[0]);
    QuietContext(text);
  }

  lemma InsultAdvice()
    ensures Suggestions({"insults"}) == ["Try focusing on the issue rather than personal attacks"]
  {
    var cats := {"insults"};
    assert AdviceUpTo(cats, 1) == [];
    assert AdviceUpTo(cats, 2) == ["Try focusing on the issue rather than personal attacks"];
    assert AdviceUpTo(cats, 3) == AdviceUpTo(cats, 2);
  }

  /** A single insult is toxic at the insult severity and draws the advice against personal attacks. */
  lemma InsultExample()
    ensures Analysis("you are stupid")
         == Verdict(true, 0.7, 0.7, {"stupid"}, {"insults"},
                    ["Try focusing on the issue rather than personal attacks"], Some("you are stupid"))
  {
    var text := "you are stupid";
    assert !IsSpace(text[0]);
    LowerWithoutCapitals(text);
    InsultKeywords();
    SingleHitVerdict(text, 1, "stupid");
    InsultContext();
    assert Adjusted(0.7, 1.0) == 0.7;
    InsultAdvice();
  }

  /** The keywords of hate_speech that occur in "hello, how are you?". */
  lemma GreetingScan0()
    ensures !Contains("hello, how are you?", "hate")
    ensures !Contains("hello, how are you?", "despise")
    ensures !Contains("hello, how are you?", "detest")
    ensures !Contains("hello, how are you?", "loathe")
  {
    var lower := "hello, how are you?";
    NotContainedByWindow(lower, "hate", 2);
    NotContainedByWindow(lower, "despise", 0);
    NotContainedByWindow(lower, "detest", 0);
    NotContainedByWindow(lower, "loathe", 3);
  }

  /** The keywords of insults that occur in "hello, how are you?". */
  lemma GreetingScan1()
    ensures !Contains("hello, how are you?", "stupid")
    ensures !Contains("hello, how are you?", "idiot")
    ensures !Contains("hello, how are you?", "dumb")
    ensures !Contains("hello, how are you?", "moron")
    ensures !Contains("hello, how are you?", "fool")
    ensures !Contains("hello, how are you?", "imbecile")
  {
    var lower := "hello, how are you?";
    NotContainedByWindow(lower, "stupid", 0);
    NotContainedByWindow(lower, "idiot", 0);
    NotContainedByWindow(lower, "dumb", 0);
    NotContainedByWindow(lower, "moron", 0);
    NotContainedByWindow(lower, "fool", 0);
    NotContainedByWindow(lower, "imbecile", 0);
  }

  /** The keywords of profanity that occur in "hello, how are you?". */
  lemma GreetingScan2()
    ensures !Contains("hello, how are you?", "damn")
    ensures Contains("hello, how are you?", "hell")
    ensures !Contains("hello, how are you?", "crap")
  {
    var lower := "hello, how are you?";
    NotContainedByWindow(lower, "damn", 0);
    assert OccursAt(lower, "hell", 0);
    NotContainedByWindow(lower, "crap", 0);
  }

  /** The keywords of aggressive that occur in "hello, how are you?". */
  lemma GreetingScan3()
    ensures !Contains("hello, how are you?", "shut up")
    ensures !Contains("hello, how are you?", "get lost")
    ensures !Contains("hello, how are you?", "go away")
  {
    var lower := "hello, how are you?";
    NotContainedByWindow(lower, "shut up", 0);
    NotContainedByWindow(lower, "get lost", 0);
    NotContainedByWindow(lower, "go away", 0);
  }

  /** The keywords of derogatory that occur in "hello, how are you?". */
  lemma GreetingScan4()
    ensures !Contains("hello, how are you?", "loser")
    ensures !Contains("hello, how are you?", "pathetic")
    ensures !Contains("hello, how are you?", "worthless")
    ensures !Contains("hello, how are you?", "useless")
    ensures !Contains("hello, how are you?", "garbage")
    ensures !Contains("hello, how are you?", "trash")
  {
    var lower := "hello, how are you?";
    NotContainedByWindow(lower, "loser", 2);
    NotContainedByWindow(lower, "pathetic", 0);
    NotContainedByWindow(lower, "worthless", 3);
    NotContainedByWindow(lower, "useless", 0);
    NotContainedByWindow(lower, "garbage", 0);
    NotContainedByWindow(lower, "trash", 0);
  }

  /** The keywords of offensive that occur in "hello, how are you?". */
  lemma GreetingScan5()
    ensures !Contains("hello, how are you?", "disgusting")
    ensures !Contains("hello, how are you?", "ugly")
    ensures !Contains("hello, how are you?", "freak")
    ensures !Contains("hello, how are you?", "weird")
    ensures !Contains("hello, how are you?", "creep")
  {
    var lower := "hello, how are you?";
    NotContainedByWindow(lower, "disgusting", 0);
    NotContainedByWindow(lower, "ugly", 0);
    NotContainedByWindow(lower, "freak", 0);
    NotContainedByWindow(lower, "weird", 2);
    NotContainedByWindow(lower, "creep", 0);
  }

  /** Of all the keywords, only "hell" occurs in "hello, how are you?", inside "hello". */
  lemma GreetingKeywords()
    ensures forall i, kw :: 0 <= i < |Patterns| && kw in Patterns[i].keywords ==>
              (Contains("hello, how are you?", kw) <==> i == 2 && kw == "hell")
  {
    GreetingScan0();
    GreetingScan1();
    GreetingScan2();
    GreetingScan3();
    GreetingScan4();
    GreetingScan5();
    forall i, kw | 0 <= i < |Patterns| && kw in Patterns[i].keywords
      ensures Contains("hello, how are you?", kw) <==> i == 2 && kw == "hell"
    {
      assert i in {0, 1, 2, 3, 4, 5};
    }
  }

  lemma GreetingNoRepeat()
    ensures !HasRepeatedChar("Hello, how are you?")
  {
    var text := "Hello, how are you?";
    forall i | 0 <= i < |text| - 2
      ensures !(text[i + 1] == text[i] && text[i + 2] == text[i])
    {
      assert i in {0, 1, 2, 3, 4, 5, 6, 7, 8, 9, 10, 11, 12, 13, 14, 15, 16};
    }
  }

  lemma GreetingContext()
    ensures ContextMultiplier("Hello, how are you?") == 1.0
  {
    var text := "Hello, how are you?";
    GreetingNoRepeat();
    assert IsAsciiLower(text[1]);
    QuietContext(text);
  }

  lemma GreetingLower()
    ensures Lower("Hello, how are you?") == "hello, how are you?"
  {
  }

  /**
   * Keywords match as plain substrings: "hello" contains the profanity "hell", which is reported,
   * but its severity stays under the threshold, so the greeting is not toxic.
   */
  lemma GreetingExample()
    ensures Analysis("Hello, how are you?")
         == Verdict(false, 0.5, 0.5, {"hell"}, {"profanity"}, [], Some("Hello, how are you?"))
  {
    var text := "Hello, how are you?";
    assert !IsSpace(text[0]);
    GreetingLower();
    GreetingKeywords();
    SingleHitVerdict(text, 2, "hell");
    GreetingContext();
    assert Adjusted(0.5, 1.0) == 0.5;
  }

  /** The keywords of hate_speech, insults, profanity that occur in "damn!!". */
  lemma ExclaimedScan012()
    ensures !Contains("damn!!", "hate")
    ensures !Contains("damn!!", "despise")
    ensures !Contains("damn!!", "detest")
    ensures !Contains("damn!!", "loathe")
    ensures !Contains("damn!!", "stupid")
    ensures !Contains("damn!!", "idiot")
    ensures !Contains("damn!!", "dumb")
    ensures !Contains("damn!!", "moron")
    ensures !Contains("damn!!", "fool")
    ensures !Contains("damn!!", "imbecile")
    ensures Contains("damn!!", "damn")
    ensures !Contains("damn!!", "hell")
    ensures !Contains("damn!!", "crap")
  {
    var lower := "damn!!";
    NotContainedByWindow(lower, "hate", 0);
    NotContainedByWindow(lower, "detest", 1);
    NotContainedByWindow(lower, "loathe", 0);
    NotContainedByWindow(lower, "stupid", 0);
    NotContainedByWindow(lower, "idiot", 0);
    NotContainedByWindow(lower, "dumb", 1);
    NotContainedByWindow(lower, "moron", 0);
    NotContainedByWindow(lower, "fool", 0);
    assert OccursAt(lower, "damn", 0);
    NotContainedByWindow(lower, "hell", 0);
    NotContainedByWindow(lower, "crap", 0);
  }

  /** The keywords of aggressive, derogatory, offensive that occur in "damn!!". */
  lemma ExclaimedScan345()
    ensures !Contains("damn!!", "shut up")
    ensures !Contains("damn!!", "get lost")
    ensures !Contains("damn!!", "go away")
    ensures !Contains("damn!!", "loser")
    ensures !Contains("damn!!", "pathetic")
    ensures !Contains("damn!!", "worthless")
    ensures !Contains("damn!!", "useless")
    ensures !Contains("damn!!", "garbage")
    ensures !Contains("damn!!", "trash")
    ensures !Contains("damn!!", "disgusting")
    ensures !Contains("damn!!", "ugly")
    ensures !Contains("damn!!", "freak")
    ensures !Contains("damn!!", "weird")
    ensures !Contains("damn!!", "creep")
  {
    var lower := "damn!!";
    NotContainedByWindow(lower, "loser", 0);
    NotContainedByWindow(lower, "trash", 0);
    NotContainedByWindow(lower, "ugly", 0);
    NotContainedByWindow(lower, "freak", 0);
    NotContainedByWindow(lower, "weird", 0);
    NotContainedByWindow(lower, "creep", 0);
  }

  /** Of all the keywords, only "damn" occurs in "damn!!". */
  lemma ExclaimedKeywords()
    ensures forall i, kw :: 0 <= i < |Patterns| && kw in Patterns[i].keywords ==>
              (Contains("damn!!", kw) <==> i == 2 && kw == "damn")
  {
    ExclaimedScan012();
    ExclaimedScan345();
    forall i, kw | 0 <= i < |Patterns| && kw in Patterns[i].keywords
      ensures Contains("damn!!", kw) <==> i == 2 && kw == "damn"
    {
      assert i in {0, 1, 2, 3, 4, 5};
    }
  }

  lemma ExclaimedNoRepeat()
    ensures !HasRepeatedChar("damn!!")
  {
    var text := "damn!!";
    forall i | 0 <= i < |text| - 2
      ensures !(text[i + 1] == text[i] && text[i + 2] == text[i])
    {
      assert i in {0, 1, 2, 3};
    }
  }

  lemma ExclaimedMarks()
    ensures HasMultipleExclamations("damn!!")
  {
    assert "damn!!" == "damn" + "!!";
  }

  lemma ExclaimedContext()
    ensures ContextMultiplier("damn!!") == MultipleExclamationFactor
  {
    ExclaimedNoRepeat();
    ExclaimedMarks();
    MultiplierRange("damn!!");
  }

  lemma ProfanityAdvice()
    ensures Suggestions({"profanity"}) == []
  {
    var cats := {"profanity"};
    assert AdviceUpTo(cats, 2) == [];
    assert AdviceUpTo(cats, 3) == [];
  }

  /**
   * Two exclamation marks lift a profanity from 0.5 to exactly the threshold 0.6, so the text is
   * toxic; profanity has no advice, so no suggestion is given.
   */
  lemma ExclaimedExample()
    ensures Analysis("damn!!") == Verdict(true, 0.6, 0.6, {"damn"}, {"profanity"}, [], Some("damn!!"))
  {
    var text := "damn!!";
    assert !IsSpace(text[0]);
    LowerWithoutCapitals(text);
    ExclaimedKeywords();
    SingleHitVerdict(text, 2, "damn");
    ExclaimedContext();
    assert Adjusted(0.5, 1.2) == 0.6;
    ProfanityAdvice();
  }
}

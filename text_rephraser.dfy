/**
 * The rule-based rewriter: tries an ordered table of case-insensitive whole-phrase rules, each
 * once and on the text as rewritten so far, replacing every occurrence of a rule that matches;
 * when no rule fired and keywords were supplied it softens the text instead (collapses runs of
 * exclamation marks, re-cases long all-caps text, hedges a leading you/this/that). A word-set
 * change ratio serves as the confidence of the rewrite.
 */
module TextRephraser {
  import opened Wrappers
  import opened Text

  /**
   * One rewriting rule. The source writes each pattern as a regular expression whose only
   * variation is an optional apostrophe (`'?`) or an optional letter (`n?`) between two word
   * boundaries; `phrases` lists its lower-case literal alternatives.
   */
  datatype Rule = Rule(phrases: seq<string>, replacement: string)

  /** The rule table, in the order the rewriter tries it. */
  const PhraseRules: seq<Rule> := [
    YouAreStupid, YoureStupid, ShutUp, YoureAnIdiot, YouAreAnIdiot, IHateYou, YoureDumb,
    YouAreDumb, YoureALoser, YourePathetic, YoureWorthless, YoureUseless, ThatsGarbage, ThatsTrash,
    YoureDisgusting, Moron, Stupid, Idiot, Dumb, Hate
  ]

  const YouAreStupid := Rule(["you are stupid"], "I disagree with your approach")
  const YoureStupid := Rule(["you're stupid", "youre stupid"], "I see things differently")
  const ShutUp := Rule(["shut up"], "I'd prefer if we could discuss this calmly")
  const YoureAnIdiot := Rule(
    ["you're a idiot", "you're an idiot", "youre a idiot", "youre an idiot"],
    "I think there might be a misunderstanding")
  const YouAreAnIdiot :=
    Rule(["you are a idiot", "you are an idiot"], "I think there might be a misunderstanding")
  const IHateYou := Rule(["i hate you"], "I'm frustrated with this situation")
  const YoureDumb :=
    Rule(["you're dumb", "youre dumb"], "I believe there's a better way to think about this")
  const YouAreDumb := Rule(["you are dumb"], "I believe there's a better way to think about this")
  const YoureALoser :=
    Rule(["you're a loser", "youre a loser"], "I'm disappointed with how things turned out")
  const YourePathetic := Rule(["you're pathetic", "youre pathetic"], "I expected better from this situation")
  const YoureWorthless := Rule(["you're worthless", "youre worthless"], "I don't think this is working out")
  const YoureUseless := Rule(["you're useless", "youre useless"], "I think we need a different approach")
  const ThatsGarbage := Rule(["that's garbage", "thats garbage"], "I don't think that's the best solution")
  const ThatsTrash := Rule(["that's trash", "thats trash"], "I believe we can do better")
  const YoureDisgusting :=
    Rule(["you're disgusting", "youre disgusting"], "I'm uncomfortable with this behavior")
  const Moron := Rule(["moron"], "person with a different viewpoint")
  const Stupid := Rule(["stupid"], "unclear")
  const Idiot := Rule(["idiot"], "someone I disagree with")
  const Dumb := Rule(["dumb"], "not well thought out")
  const Hate := Rule(["hate"], "strongly dislike")

  /** The words that draw the hedging prefix when the text opens with one of them. */
  const HedgeWords: seq<string> := ["you", "this", "that"]

  /** The prefix put before text that opens with a hedge word. */
  const HedgePrefix: string := "Perhaps "

  /** The text of the reason that precedes the list of keywords in a suggestion. */
  const ReasonPrefix: string := "Contains potentially harmful language: "

  // ---------------------------------------------------------------------------------------
  // Matching and replacing one rule

  /**
   * The (non-empty) phrase `p` matches `s` at index `i`: it occurs there ignoring ASCII case,
   * with a word boundary on either side.
   */
  predicate PhraseAt(s: string, p: string, i: nat) {
    p != [] && i + |p| <= |s| && Boundary(s, i) && Lower(s[i..i + |p|]) == p && Boundary(s, i + |p|)
  }

  /** Some alternative of `phrases` matches `s` at index `i`. */
  predicate MatchesAt(s: string, phrases: seq<string>, i: nat) {
    exists p :: p in phrases && PhraseAt(s, p, i)
  }

  /** `re.search`: the rule matches somewhere in `s`. */
  predicate Matches(s: string, rule: Rule) {
    exists i :: 0 <= i <= |s| && MatchesAt(s, rule.phrases, i)
  }

  /** The length of the first alternative of `phrases` that matches `s` at index `i`, if any. */
  function MatchLength(s: string, phrases: seq<string>, i: nat): (n: Option<nat>)
    ensures n.Some? <==> MatchesAt(s, phrases, i)
    ensures n.Some? ==> 0 < n.value && i + n.value <= |s|
  {
    if phrases == [] then None
    else if PhraseAt(s, phrases[0], i) then Some(|phrases[0]|)
    else
      var n := MatchLength(s, phrases[1..], i);
      assert MatchesAt(s, phrases, i) ==> MatchesAt(s, phrases[1..], i) by {
        if p :| p in phrases && PhraseAt(s, p, i) {
          assert p != phrases[0];
          assert p in phrases[1..];
        }
      }
      n
  }

  /** The length `MatchLength` reports is the length of an alternative that matches there. */
  lemma {:induction false} MatchLengthIsPhraseLength(s: string, phrases: seq<string>, i: nat)
    ensures MatchLength(s, phrases, i).Some? ==>
      exists p :: p in phrases && PhraseAt(s, p, i) && |p| == MatchLength(s, phrases, i).value
  {
    if phrases != [] && !PhraseAt(s, phrases[0], i) {
      MatchLengthIsPhraseLength(s, phrases[1..], i);
    }
  }

  /** Two phrases that differ at a position both of them reach: neither is a prefix of the other. */
  predicate Diverge(p: string, q: string) {
    exists d :: 0 <= d < |p| && d < |q| && p[d] != q[d]
  }

  /** Any two alternatives of the list diverge. */
  predicate Unambiguous(phrases: seq<string>) {
    forall j, k :: 0 <= j < k < |phrases| ==> Diverge(phrases[j], phrases[k])
  }

  /** Two phrases that both match at one index agree wherever both reach. */
  lemma PhrasesAgree(s: string, p: string, q: string, i: nat)
    requires PhraseAt(s, p, i) && PhraseAt(s, q, i)
    ensures !Diverge(p, q) && !Diverge(q, p)
  {
    forall d | 0 <= d < |p| && d < |q|
      ensures p[d] == q[d]
    {
      assert p[d] == Lower(s[i..i + |p|])[d] == LowerChar(s[i + d]);
      assert q[d] == Lower(s[i..i + |q|])[d] == LowerChar(s[i + d]);
    }
  }

  /**
   * In a list whose alternatives diverge, at most one alternative matches at an index, so the
   * length `MatchLength` reports is that of any alternative that matches there.
   */
  lemma MatchLengthOfAny(s: string, phrases: seq<string>, i: nat, p: string)
    requires Unambiguous(phrases) && p in phrases && PhraseAt(s, p, i)
    ensures MatchLength(s, phrases, i) == Some(|p|)
  {
    var n := MatchLength(s, phrases, i);
    MatchLengthIsPhraseLength(s, phrases, i);
    var q :| q in phrases && PhraseAt(s, q, i) && |q| == n.value;
    PhrasesAgree(s, p, q, i);
  }

  /** The alternatives of each rule of group 1 of the table diverge. */
  lemma UnambiguousGroup1()
    ensures forall r :: r in [YouAreStupid, YoureStupid, ShutUp, YoureAnIdiot] ==> Unambiguous(r.phrases)
  {
    assert Unambiguous(YoureStupid.phrases) by {
      assert YoureStupid.phrases[0][3] != YoureStupid.phrases[1][3];
    }
    assert Unambiguous(YoureAnIdiot.phrases) by {
      assert YoureAnIdiot.phrases[0][8] != YoureAnIdiot.phrases[1][8];
      assert YoureAnIdiot.phrases[0][3] != YoureAnIdiot.phrases[2][3];
      assert YoureAnIdiot.phrases[0][3] != YoureAnIdiot.phrases[3][3];
      assert YoureAnIdiot.phrases[1][3] != YoureAnIdiot.phrases[2][3];
      assert YoureAnIdiot.phrases[1][3] != YoureAnIdiot.phrases[3][3];
      assert YoureAnIdiot.phrases[2][7] != YoureAnIdiot.phrases[3][7];
    }
  }

  /** The alternatives of each rule of group 2 of the table diverge. */
  lemma UnambiguousGroup2()
    ensures forall r :: r in [YouAreAnIdiot, IHateYou, YoureDumb, YouAreDumb] ==> Unambiguous(r.phrases)
  {
    assert Unambiguous(YouAreAnIdiot.phrases) by {
      assert YouAreAnIdiot.phrases[0][9] != YouAreAnIdiot.phrases[1][9];
    }
    assert Unambiguous(YoureDumb.phrases) by {
      assert YoureDumb.phrases[0][3] != YoureDumb.phrases[1][3];
    }
  }

  /** The alternatives of each rule of group 3 of the table diverge. */
  lemma UnambiguousGroup3()
    ensures forall r :: r in [YoureALoser, YourePathetic, YoureWorthless, YoureUseless] ==> Unambiguous(r.phrases)
  {
    assert Unambiguous(YoureALoser.phrases) by {
      assert YoureALoser.phrases[0][3] != YoureALoser.phrases[1][3];
    }
    assert Unambiguous(YourePathetic.phrases) by {
      assert YourePathetic.phrases[0][3] != YourePathetic.phrases[1][3];
    }
    assert Unambiguous(YoureWorthless.phrases) by {
      assert YoureWorthless.phrases[0][3] != YoureWorthless.phrases[1][3];
    }
    assert Unambiguous(YoureUseless.phrases) by {
      assert YoureUseless.phrases[0][3] != YoureUseless.phrases[1][3];
    }
  }

  /** The alternatives of each rule of group 4 of the table diverge. */
  lemma UnambiguousGroup4()
    ensures forall r :: r in [ThatsGarbage, ThatsTrash, YoureDisgusting, Moron] ==> Unambiguous(r.phrases)
  {
    assert Unambiguous(ThatsGarbage.phrases) by {
      assert ThatsGarbage.phrases[0][4] != ThatsGarbage.phrases[1][4];
    }
    assert Unambiguous(ThatsTrash.phrases) by {
      assert ThatsTrash.phrases[0][4] != ThatsTrash.phrases[1][4];
    }
    assert Unambiguous(YoureDisgusting.phrases) by {
      assert YoureDisgusting.phrases[0][3] != YoureDisgusting.phrases[1][3];
    }
  }

  /** The alternatives of each rule of group 5 of the table diverge. */
  lemma UnambiguousGroup5()
    ensures forall r :: r in [Stupid, Idiot, Dumb, Hate] ==> Unambiguous(r.phrases)
  {

  }

  /** Within every rule of the table the alternatives diverge, so which one the regex picks does not matter. */
  lemma TableUnambiguous()
    ensures forall r :: r in PhraseRules ==> Unambiguous(r.phrases)
  {
    TableGroups();
    UnambiguousGroup1();
    UnambiguousGroup2();
    UnambiguousGroup3();
    UnambiguousGroup4();
    UnambiguousGroup5();
  }

  /** For a rule of the table, the length `MatchLength` reports is that of whichever alternative matches. */
  lemma TableMatchLength(s: string, rule: Rule, i: nat, p: string)
    requires rule in PhraseRules && p in rule.phrases && PhraseAt(s, p, i)
    ensures MatchLength(s, rule.phrases, i) == Some(|p|)
  {
    TableUnambiguous();
    MatchLengthOfAny(s, rule.phrases, i, p);
  }

  /**
   * `re.sub` from index `i` on: scanning left to right, every match is replaced and scanning
   * resumes after it; characters outside matches are copied.
   */
  function SubFrom(s: string, rule: Rule, i: nat): string
    requires i <= |s|
    decreases |s| - i
  {
    if i == |s| then []
    else
      match MatchLength(s, rule.phrases, i)
      case Some(n) =>
        // a match lies inside `s` and is non-empty
        rule.replacement + SubFrom(s, rule, i + n)
      case None => [s[i]] + SubFrom(s, rule, i + 1)
  }

  /** `re.sub`: every non-overlapping match of the rule, leftmost first, replaced. */
  function Sub(s: string, rule: Rule): string {
    SubFrom(s, rule, 0)
  }

  /** Where the rule matches nowhere from index `i` on, replacing copies the rest of the text. */
  lemma {:induction false} SubFromWithoutMatch(s: string, rule: Rule, i: nat)
    requires i <= |s|
    requires forall j :: i <= j <= |s| ==> !MatchesAt(s, rule.phrases, j)
    ensures SubFrom(s, rule, i) == s[i..]
    decreases |s| - i
  {
    if i < |s| {
      SubFromWithoutMatch(s, rule, i + 1);
      assert s[i..] == [s[i]] + s[i + 1..];
    }
  }

  /** A rule that does not match leaves the text unchanged. */
  lemma SubWithoutMatch(s: string, rule: Rule)
    requires !Matches(s, rule)
    ensures Sub(s, rule) == s
  {
    SubFromWithoutMatch(s, rule, 0);
  }

  /** The first index from `i` on where `phrases` match `s`, if there is one. */
  function FirstMatch(s: string, phrases: seq<string>, i: nat): (k: Option<nat>)
    requires i <= |s|
    ensures k.Some? ==> i <= k.value < |s| && MatchesAt(s, phrases, k.value)
    ensures k.Some? ==> forall j :: i <= j < k.value ==> !MatchesAt(s, phrases, j)
    ensures k.None? ==> forall j :: i <= j <= |s| ==> !MatchesAt(s, phrases, j)
    decreases |s| - i
  {
    if i == |s| then
      assert !MatchesAt(s, phrases, i) by {
        if MatchLength(s, phrases, i).Some? { }
      }
      None
    else if MatchLength(s, phrases, i).Some? then Some(i)
    else FirstMatch(s, phrases, i + 1)
  }

  lemma AppendAssociates(a: string, b: string, c: string)
    ensures a + (b + c) == (a + b) + c
  {
  }

  /** Where no phrase matches, replacing copies the character and moves on. */
  lemma SubFromSkips(s: string, rule: Rule, i: nat)
    requires i < |s| && !MatchesAt(s, rule.phrases, i)
    ensures SubFrom(s, rule, i) == [s[i]] + SubFrom(s, rule, i + 1)
  {
    assert MatchLength(s, rule.phrases, i).None?;
  }

  /** Up to the next match, replacing copies the text. */
  lemma {:induction false} SubFromCopies(s: string, rule: Rule, i: nat, k: nat)
    requires i <= k <= |s|
    requires forall j :: i <= j < k ==> !MatchesAt(s, rule.phrases, j)
    ensures SubFrom(s, rule, i) == s[i..k] + SubFrom(s, rule, k)
    decreases k - i
  {
    if i < k {
      SubFromSkips(s, rule, i);
      SubFromCopies(s, rule, i + 1, k);
      assert s[i..k] == [s[i]] + s[i + 1..k];
      AppendAssociates([s[i]], s[i + 1..k], SubFrom(s, rule, k));
    }
  }

  /** At a match, replacing emits the replacement and resumes after the match. */
  lemma SubFromAtMatch(s: string, rule: Rule, k: nat, n: nat)
    requires k < |s| && MatchLength(s, rule.phrases, k) == Some(n)
    ensures k + n <= |s|
    ensures SubFrom(s, rule, k) == rule.replacement + SubFrom(s, rule, k + n)
  {
  }

  /**
   * A rule that matches rewrites the text from its leftmost match on: the text before that
   * match is kept and the replacement follows it.
   */
  lemma SubWithMatch(s: string, rule: Rule)
    requires Matches(s, rule)
    ensures FirstMatch(s, rule.phrases, 0).Some?
    ensures var k := FirstMatch(s, rule.phrases, 0).value;
      OccursAt(Sub(s, rule), s[..k], 0) && OccursAt(Sub(s, rule), rule.replacement, k)
  {
    var k0 :| 0 <= k0 <= |s| && MatchesAt(s, rule.phrases, k0);
    var k := FirstMatch(s, rule.phrases, 0).value;
    SubFromCopies(s, rule, 0, k);
    var n := MatchLength(s, rule.phrases, k).value;
    SubFromAtMatch(s, rule, k, n);
    AppendAssociates(s[..k], rule.replacement, SubFrom(s, rule, k + n));
    OccursInConcat(s[..k], rule.replacement, SubFrom(s, rule, k + n));
  }

  // ---------------------------------------------------------------------------------------
  // The rule pass

  /** One rule of the pass: replaced throughout if it matches, otherwise nothing changes. */
  function Step(s: string, rule: Rule): string {
    if Matches(s, rule) then Sub(s, rule) else s
  }

  /** The text after trying `rules` in order, each on the output of the ones before it. */
  function ApplyRules(s: string, rules: seq<Rule>): string
    decreases |rules|
  {
    if rules == [] then s else Step(ApplyRules(s, rules[..|rules| - 1]), rules[|rules| - 1])
  }

  /** Some rule of `rules` matched the text it was tried on. */
  predicate AnyFired(s: string, rules: seq<Rule>)
    decreases |rules|
  {
    rules != [] &&
    (AnyFired(s, rules[..|rules| - 1]) || Matches(ApplyRules(s, rules[..|rules| - 1]), rules[|rules| - 1]))
  }

  /** Trying `rules` and then `more` is trying `rules + more`. */
  lemma {:induction false} ApplyRulesAppend(s: string, rules: seq<Rule>, more: seq<Rule>)
    ensures ApplyRules(s, rules + more) == ApplyRules(ApplyRules(s, rules), more)
    ensures AnyFired(s, rules + more) <==> AnyFired(s, rules) || AnyFired(ApplyRules(s, rules), more)
    decreases |more|
  {
    if more == [] {
      assert rules + more == rules;
    } else {
      var last := |more| - 1;
      assert (rules + more)[..|rules + more| - 1] == rules + more[..last];
      ApplyRulesAppend(s, rules, more[..last]);
    }
  }

  /** Extending the pass by the next rule of a table tries that rule on the text so far. */
  lemma PassStep(s: string, rules: seq<Rule>, i: nat)
    requires i < |rules|
    ensures ApplyRules(s, rules[..i + 1]) == Step(ApplyRules(s, rules[..i]), rules[i])
    ensures AnyFired(s, rules[..i + 1]) <==> AnyFired(s, rules[..i]) || Matches(ApplyRules(s, rules[..i]), rules[i])
  {
    assert rules[..i + 1][..i] == rules[..i];
  }

  /** When no rule fires, the pass leaves the text as it was. */
  lemma {:induction false} NoneFiredIsIdentity(s: string, rules: seq<Rule>)
    requires !AnyFired(s, rules)
    ensures ApplyRules(s, rules) == s
    decreases |rules|
  {
    if rules != [] {
      NoneFiredIsIdentity(s, rules[..|rules| - 1]);
    }
  }

  /** The pass changes the text only if some rule fired. */
  lemma {:induction false} ChangedOnlyIfFired(s: string, rules: seq<Rule>)
    ensures ApplyRules(s, rules) != s ==> AnyFired(s, rules)
    decreases |rules|
  {
    if rules != [] && !AnyFired(s, rules) {
      NoneFiredIsIdentity(s, rules);
    }
  }

  /** A single rule tried alone fires exactly when it matches. */
  lemma OneRule(s: string, rule: Rule)
    ensures ApplyRules(s, [rule]) == Step(s, rule)
    ensures AnyFired(s, [rule]) <==> Matches(s, rule)
  {
    assert [rule][..0] == [];
  }

  // ---------------------------------------------------------------------------------------
  // General softening

  /** Length of the run of `!` that `s` starts with. */
  function BangRun(s: string): (n: nat)
    ensures n <= |s|
    ensures forall i :: 0 <= i < n ==> s[i] == '!'
    ensures n == |s| || s[n] != '!'
  {
    if s == [] || s[0] != '!' then 0 else 1 + BangRun(s[1..])
  }

  /** `re.sub(r'!{2,}', '.', s)`: every maximal run of two or more `!` becomes a single `.`. */
  function Collapse(s: string): string
    decreases |s|
  {
    if s == [] then []
    else if BangRun(s) >= 2 then "." + Collapse(s[BangRun(s)..])
    else [s[0]] + Collapse(s[1..])
  }

  /** No two consecutive exclamation marks. */
  predicate NoDoubleBang(s: string) {
    forall i :: 0 <= i < |s| - 1 ==> !(s[i] == '!' && s[i + 1] == '!')
  }

  /** Long all-caps text is capitalised; other text is left alone. */
  function Recase(s: string): string {
    if IsLongAllCaps(s) then Capitalize(s) else s
  }

  /**
   * `re.match(r'^(you|this|that)\b', s, re.IGNORECASE)`: the text opens with a hedge word
   * standing as a whole word. Every hedge word starts with a letter, so the word boundary in
   * front of it, which `MatchesAt` also asks for, holds whenever the word is there.
   */
  predicate OpensWithHedgeWord(s: string) {
    MatchesAt(s, HedgeWords, 0)
  }

  /** Text opening with a hedge word gets the hedging prefix and its first letter lower-cased. */
  function Hedge(s: string): string {
    if OpensWithHedgeWord(s) then HedgePrefix + [LowerChar(s[0])] + s[1..] else s
  }

  /** The outcome of the three softening stages, in the order the rewriter runs them. */
  function Softened(text: string): string {
    Hedge(Recase(Collapse(text)))
  }

  /** `_general_softening`: the three stages, each reassigning the text. */
  method GeneralSoftening(text: string) returns (softened: string)
    ensures softened == Softened(text)
  {
    softened := text;
    softened := Collapse(softened);
    if |softened| > 10 && IsUpper(softened) {
      softened := Capitalize(softened);
    }
    if OpensWithHedgeWord(softened) {
      softened := HedgePrefix + [LowerChar(softened[0])] + softened[1..];
    }
  }

  /** What `Collapse` starts with: `.` for a run of marks, otherwise the first character. */
  lemma CollapseHead(s: string)
    requires s != []
    ensures Collapse(s) != []
    ensures Collapse(s)[0] == if BangRun(s) >= 2 then '.' else s[0]
  {
  }

  /** After collapsing, no two exclamation marks are adjacent. */
  lemma {:induction false} CollapseNoDoubleBang(s: string)
    ensures NoDoubleBang(Collapse(s))
    decreases |s|
  {
    if s != [] {
      var n := BangRun(s);
      if n >= 2 {
        CollapseNoDoubleBang(s[n..]);
      } else {
        CollapseNoDoubleBang(s[1..]);
        if |s| > 1 {
          CollapseHead(s[1..]);
          assert BangRun(s[1..]) < 2 || s[0] != '!';
        }
      }
    }
  }

  /** Text without a double exclamation mark is left exactly as it is. */
  lemma {:induction false} CollapseKeeps(s: string)
    requires NoDoubleBang(s)
    ensures Collapse(s) == s
    decreases |s|
  {
    if s != [] {
      assert BangRun(s) < 2;
      assert NoDoubleBang(s[1..]);
      CollapseKeeps(s[1..]);
      assert s == [s[0]] + s[1..];
    }
  }

  /** Collapsing changes the text exactly when it holds a double exclamation mark. */
  lemma CollapseChangesIffDoubleBang(s: string)
    ensures Collapse(s) == s <==> NoDoubleBang(s)
  {
    CollapseNoDoubleBang(s);
    if NoDoubleBang(s) {
      CollapseKeeps(s);
    }
  }

  /** Collapsing twice is collapsing once. */
  lemma CollapseIdempotent(s: string)
    ensures Collapse(Collapse(s)) == Collapse(s)
  {
    CollapseNoDoubleBang(s);
    CollapseKeeps(Collapse(s));
  }

  /** Exclamation marks have no case, so only the case-blind form of a text decides whether it has two in a row. */
  lemma NoDoubleBangIgnoresCase(a: string, b: string)
    requires Lower(a) == Lower(b)
    ensures NoDoubleBang(a) <==> NoDoubleBang(b)
  {
    assert forall i :: 0 <= i < |a| ==> (a[i] == '!' <==> LowerChar(a[i]) == '!');
    assert forall i :: 0 <= i < |b| ==> (b[i] == '!' <==> LowerChar(b[i]) == '!');
  }

  /** Gluing two texts free of double marks creates none when the first does not end in a mark. */
  lemma NoDoubleBangAppend(a: string, b: string)
    requires NoDoubleBang(a) && NoDoubleBang(b)
    requires a == [] || a[|a| - 1] != '!'
    ensures NoDoubleBang(a + b)
  {
    forall i | 0 <= i < |a + b| - 1
      ensures !((a + b)[i] == '!' && (a + b)[i + 1] == '!')
    {
      if i + 1 < |a| {
      } else if i >= |a| {
        assert (a + b)[i] == b[i - |a|] && (a + b)[i + 1] == b[i + 1 - |a|];
      }
    }
  }

  /** The hedging prefix: a capital P and no other capital letter, no exclamation mark. */
  lemma HedgePrefixLetters()
    ensures Lower(HedgePrefix) == "perhaps "
    ensures forall i :: 1 <= i < |HedgePrefix| ==> !IsAsciiUpper(HedgePrefix[i])
    ensures NoDoubleBang(HedgePrefix) && HedgePrefix[|HedgePrefix| - 1] != '!'
  {
    forall i | 1 <= i < |HedgePrefix|
      ensures !IsAsciiUpper(HedgePrefix[i])
    {
      assert i in {1, 2, 3, 4, 5, 6, 7};
    }
  }

  /** Hedging prepends the prefix, lower-cases the first character and keeps the rest as it is. */
  lemma HedgeLower(s: string)
    requires OpensWithHedgeWord(s)
    ensures Lower(Hedge(s)) == Lower(HedgePrefix) + Lower(s)
    ensures OccursAt(Hedge(s), HedgePrefix, 0)
    ensures |Hedge(s)| == |HedgePrefix| + |s|
    ensures Hedge(s)[|HedgePrefix|] == LowerChar(s[0]) && Hedge(s)[|HedgePrefix| + 1..] == s[1..]
  {
    var head := [LowerChar(s[0])];
    assert Hedge(s) == HedgePrefix + (head + s[1..]);
    LowerAppend(HedgePrefix, head + s[1..]);
    LowerAppend(head, s[1..]);
    LowerAppend([s[0]], s[1..]);
    assert [s[0]] + s[1..] == s;
    assert Lower(head) == Lower([s[0]]);
    assert Hedge(s)[..|HedgePrefix|] == HedgePrefix;
  }

  /** Softened text never holds two exclamation marks in a row. */
  lemma SoftenedNoDoubleBang(text: string)
    ensures NoDoubleBang(Softened(text))
  {
    var c := Collapse(text);
    var r := Recase(c);
    CollapseNoDoubleBang(text);
    NoDoubleBangIgnoresCase(r, c);
    if OpensWithHedgeWord(r) {
      HedgeLower(r);
      LowerAppend(HedgePrefix, r);
      HedgePrefixLetters();
      NoDoubleBangAppend(HedgePrefix, r);
      NoDoubleBangIgnoresCase(Hedge(r), HedgePrefix + r);
    }
  }

  /**
   * Apart from collapsing the marks, softening changes letters' case only and, when the text
   * opens with a hedge word, puts the prefix in front.
   */
  lemma SoftenedLetters(text: string)
    ensures OpensWithHedgeWord(Recase(Collapse(text))) ==>
      OccursAt(Softened(text), HedgePrefix, 0) && Lower(Softened(text)) == "perhaps " + Lower(Collapse(text))
    ensures !OpensWithHedgeWord(Recase(Collapse(text))) ==> Lower(Softened(text)) == Lower(Collapse(text))
  {
    var r := Recase(Collapse(text));
    if OpensWithHedgeWord(r) {
      HedgeLower(r);
      HedgePrefixLetters();
    }
  }

  /**
   * Long all-caps text comes out with a first character that is not a small letter and no
   * capital letter after it.
   */
  lemma SoftenedRecased(text: string)
    requires IsLongAllCaps(Collapse(text))
    ensures Softened(text) != [] && !IsAsciiLower(Softened(text)[0])
    ensures forall i :: 1 <= i < |Softened(text)| ==> !IsAsciiUpper(Softened(text)[i])
  {
    var r := Recase(Collapse(text));
    assert forall i :: 1 <= i < |r| ==> !IsAsciiUpper(r[i]);
    assert r[0] == UpperChar(Collapse(text)[0]);
    if OpensWithHedgeWord(r) {
      HedgePrefixLetters();
      var out := Softened(text);
      assert out == HedgePrefix + [LowerChar(r[0])] + r[1..];
      forall i | 1 <= i < |out|
        ensures !IsAsciiUpper(out[i])
      {
        if i < |HedgePrefix| {
          assert out[i] == HedgePrefix[i];
        } else if i > |HedgePrefix| {
          assert out[i] == r[i - |HedgePrefix|];
        }
      }
    }
  }

  /** Collapsing leaves a stretch free of exclamation marks as it is. */
  lemma {:induction false} CollapseWithoutBang(a: string, b: string)
    requires forall i :: 0 <= i < |a| ==> a[i] != '!'
    ensures Collapse(a + b) == a + Collapse(b)
    decreases |a|
  {
    if a == [] {
      assert a + b == b;
    } else {
      assert (a + b)[0] == a[0] != '!';
      assert BangRun(a + b) == 0;
      assert (a + b)[1..] == a[1..] + b;
      CollapseWithoutBang(a[1..], b);
      assert a == [a[0]] + a[1..];
    }
  }

  /** Text with no double mark, not long and all-caps, and not opening with a hedge word is left alone. */
  lemma SoftenedUnchanged(text: string)
    requires NoDoubleBang(text) && !IsLongAllCaps(text) && !OpensWithHedgeWord(text)
    ensures Softened(text) == text
  {
    CollapseKeeps(text);
  }

  // ---------------------------------------------------------------------------------------
  // Confidence

  /** `max(len(words), 1)`: the denominator of the change ratio. */
  function AtLeastOne(n: nat): (d: nat)
    ensures d >= 1 && d >= n
  {
    if n > 1 then n else 1
  }

  /**
   * `min(lost / max(total, 1) * 2, 1.0)`: twice the share of `total` words that were lost,
   * capped at one.
   */
  function ChangeScore(lost: nat, total: nat): (c: real)
    ensures 0.0 <= c <= 1.0
    ensures c == 0.0 <==> lost == 0
    ensures c == 1.0 <==> 2 * lost >= AtLeastOne(total)
  {
    var d := AtLeastOne(total) as real;
    var ratio := lost as real / d;
    assert ratio * d == lost as real;
    assert ratio >= 0.0;
    assert ratio * 2.0 >= 1.0 <==> 2.0 * (lost as real) >= d by {
      if ratio * 2.0 >= 1.0 {
        assert (ratio * 2.0) * d >= 1.0 * d;
      } else {
        assert (ratio * 2.0) * d < 1.0 * d;
      }
    }
    if ratio * 2.0 <= 1.0 then ratio * 2.0 else 1.0
  }

  /**
   * `_calculate_confidence`: zero for unchanged text; otherwise the change score of the
   * original's distinct lower-cased words that the rewrite lost.
   */
  function Confidence(original: string, rephrased: string): (c: real)
    ensures 0.0 <= c <= 1.0
    ensures original == rephrased ==> c == 0.0
  {
    if original == rephrased then 0.0
    else ChangeScore(|Words(original) - Words(rephrased)|, |Words(original)|)
  }

  /** The confidence is zero exactly when the text is unchanged or the rewrite lost none of its words. */
  lemma ConfidenceZero(original: string, rephrased: string)
    ensures Confidence(original, rephrased) == 0.0 <==>
      original == rephrased || Words(original) <= Words(rephrased)
  {
    NothingLost(Words(original), Words(rephrased));
  }

  lemma NothingLost(a: set<string>, b: set<string>)
    ensures |a - b| == 0 <==> a <= b
  {
    if a - b != {} {
      var w :| w in a - b;
      assert w in a && w !in b;
    } else {
      assert forall x :: x in a ==> x !in a - b;
    }
  }

  /** The confidence is one exactly when the text changed and it lost at least half its words. */
  lemma ConfidenceFull(original: string, rephrased: string)
    ensures Confidence(original, rephrased) == 1.0 <==>
      original != rephrased &&
      2 * |Words(original) - Words(rephrased)| >= AtLeastOne(|Words(original)|)
  {
  }

  // ---------------------------------------------------------------------------------------
  // Rephrasing

  /**
   * What `rephrase` returns. `keywords` is `None` for blank text, whose result carries no
   * `keywords` entry, and otherwise the keywords passed in (an absent list read as empty).
   */
  datatype RephraseResult = RephraseResult(
    original: string,
    rephrased: string,
    modified: bool,
    confidence: real,
    keywords: Option<seq<string>>)

  /** `keywords or []`. */
  function KeywordList(keywords: Option<seq<string>>): seq<string> {
    if keywords.Some? then keywords.value else []
  }

  /** Softening takes over when no rule fired and some keywords were supplied. */
  predicate Softens(text: string, keywords: Option<seq<string>>) {
    !AnyFired(text, PhraseRules) && KeywordList(keywords) != []
  }

  /** What `rephrase` computes for `text` and `keywords`. */
  function Rephrasing(text: string, keywords: Option<seq<string>>): RephraseResult {
    if IsBlank(text) then RephraseResult(text, text, false, 0.0, None)
    else
      var rephrased := if Softens(text, keywords) then Softened(text) else ApplyRules(text, PhraseRules);
      var modified := if Softens(text, keywords) then rephrased != text else AnyFired(text, PhraseRules);
      RephraseResult(text, rephrased, modified, Confidence(text, rephrased), Some(KeywordList(keywords)))
  }

  /** `rephrase`: the rule pass over the table, then softening if no rule fired and keywords were given. */
  method Rephrase(text: string, keywords: Option<seq<string>>) returns (r: RephraseResult)
    ensures r == Rephrasing(text, keywords)
  {
    if IsBlank(text) {
      return RephraseResult(text, text, false, 0.0, None);
    }
    var rephrased := text;
    var modified := false;
    for i := 0 to |PhraseRules|
      invariant rephrased == ApplyRules(text, PhraseRules[..i])
      invariant modified == AnyFired(text, PhraseRules[..i])
    {
      var rule := PhraseRules[i];
      PassStep(text, PhraseRules, i);
      if Matches(rephrased, rule) {
        rephrased := Sub(rephrased, rule);
        modified := true;
      }
    }
    assert PhraseRules[..|PhraseRules|] == PhraseRules;
    var kws := KeywordList(keywords);
    if !modified && kws != [] {
      rephrased := GeneralSoftening(text);
      modified := rephrased != text;
    }
    var confidence := Confidence(text, rephrased);
    r := RephraseResult(text, rephrased, modified, confidence, Some(kws));
  }

  /** Blank text comes back as it is, unmodified and with confidence zero. */
  lemma RephraseBlank(text: string, keywords: Option<seq<string>>)
    requires IsBlank(text)
    ensures var r := Rephrasing(text, keywords);
      r.original == text && r.rephrased == text && !r.modified && r.confidence == 0.0
  {
  }

  /** When no rule matches and no keywords are given, nothing changes and the confidence is zero. */
  lemma RephraseNothingToDo(text: string, keywords: Option<seq<string>>)
    requires !AnyFired(text, PhraseRules) && KeywordList(keywords) == []
    ensures var r := Rephrasing(text, keywords);
      r.rephrased == text && !r.modified && r.confidence == 0.0
  {
    NoneFiredIsIdentity(text, PhraseRules);
  }

  /**
   * A changed text is always reported as modified, and where softening ran the converse holds
   * too; the confidence lies in [0, 1] and is zero for unchanged text.
   */
  lemma RephraseReportsChange(text: string, keywords: Option<seq<string>>)
    ensures var r := Rephrasing(text, keywords);
      (r.rephrased != text ==> r.modified) &&
      (Softens(text, keywords) ==> (r.modified <==> r.rephrased != text)) &&
      0.0 <= r.confidence <= 1.0 && (r.rephrased == text ==> r.confidence == 0.0)
  {
    ChangedOnlyIfFired(text, PhraseRules);
  }

  /** Softening, where it runs, leaves no double exclamation mark in the result. */
  lemma RephraseSoftens(text: string, keywords: Option<seq<string>>)
    requires !IsBlank(text) && Softens(text, keywords)
    ensures NoDoubleBang(Rephrasing(text, keywords).rephrased)
  {
    SoftenedNoDoubleBang(text);
  }

  /** `batch_rephrase`: one result per text, in order, each rephrased without keywords. */
  function BatchRephrase(texts: seq<string>): (results: seq<RephraseResult>)
    ensures |results| == |texts|
    ensures forall i :: 0 <= i < |texts| ==> results[i] == Rephrasing(texts[i], None)
  {
    seq(|texts|, i requires 0 <= i < |texts| => Rephrasing(texts[i], None))
  }

  /** Without keywords softening never applies: a batch result is the rule pass alone. */
  lemma BatchNeverSoftens(texts: seq<string>, i: nat)
    requires i < |texts|
    ensures var r := BatchRephrase(texts)[i];
      r.rephrased == (if IsBlank(texts[i]) then texts[i] else ApplyRules(texts[i], PhraseRules)) &&
      (r.modified <==> !IsBlank(texts[i]) && AnyFired(texts[i], PhraseRules))
  {
  }

  // ---------------------------------------------------------------------------------------
  // Suggestions

  /** The parts of an analysis verdict that a suggestion reads; either entry may be missing. */
  datatype ToxicityInfo = ToxicityInfo(keywords: Option<seq<string>>, categories: Option<seq<string>>)

  /** What `get_suggestion` returns. */
  datatype Suggestion = Suggestion(
    original: string,
    rephrased: string,
    reason: string,
    confidence: real,
    keywords: seq<string>,
    categories: seq<string>)

  /** `sep.join(ws)`. */
  function Join(ws: seq<string>, sep: string): string {
    if ws == [] then []
    else if |ws| == 1 then ws[0]
    else ws[0] + sep + Join(ws[1..], sep)
  }

  /** The first index from `i` on where `sep` occurs in `s`, if there is one. */
  function FindFrom(s: string, sep: string, i: nat): (k: Option<nat>)
    requires i <= |s|
    ensures k.Some? ==> i <= k.value && OccursAt(s, sep, k.value)
    ensures k.Some? ==> forall j :: i <= j < k.value ==> !OccursAt(s, sep, j)
    ensures k.None? ==> forall j :: i <= j <= |s| ==> !OccursAt(s, sep, j)
    decreases |s| - i
  {
    if OccursAt(s, sep, i) then Some(i)
    else if i == |s| then None
    else FindFrom(s, sep, i + 1)
  }

  /** `s.split(sep)`: the pieces between the occurrences of `sep`, found left to right. */
  function SplitOn(s: string, sep: string): seq<string>
    requires sep != []
    decreases |s|
  {
    match FindFrom(s, sep, 0)
    case None => [s]
    case Some(k) => [s[..k]] + SplitOn(s[k + |sep|..], sep)
  }

  /** A separator whose first character appears in no piece splits the joined text back into the pieces. */
  lemma {:induction false} SplitJoin(ws: seq<string>, sep: string)
    requires ws != [] && sep != []
    requires forall w :: w in ws ==> sep[0] !in w
    ensures SplitOn(Join(ws, sep), sep) == ws
    decreases |ws|
  {
    var w := ws[0];
    assert w in ws;
    assert |w| <= |Join(ws, sep)| && Join(ws, sep)[..|w|] == w;
    forall j | 0 <= j < |w|
      ensures !OccursAt(Join(ws, sep), sep, j)
    {
      assert Join(ws, sep)[..|w|][j] == w[j];
    }
    if |ws| == 1 {
      assert !OccursAt(w, sep, |w|);
      assert FindFrom(w, sep, 0).None?;
    } else {
      var s := Join(ws, sep);
      var rest := Join(ws[1..], sep);
      assert s == w + sep + rest;
      assert OccursAt(s, sep, |w|) by {
        assert s[|w|..|w| + |sep|] == sep;
      }
      match FindFrom(s, sep, 0)
      case None =>
      case Some(k) =>
        assert k == |w|;
        assert s[..k] == w;
        assert s[k + |sep|..] == rest;
        SplitJoin(ws[1..], sep);
        assert ws == [w] + ws[1..];
    }
  }

  /** `dict.get(key, [])`. */
  function ListOrEmpty(entry: Option<seq<string>>): seq<string> {
    if entry.Some? then entry.value else []
  }

  /**
   * `get_suggestion`: the original text, the rewrite and its confidence, a reason naming the
   * keywords, and the keywords and categories as given.
   */
  function GetSuggestion(text: string, info: ToxicityInfo): (sg: Suggestion)
    ensures sg.original == text
    ensures sg.keywords == ListOrEmpty(info.keywords) && sg.categories == ListOrEmpty(info.categories)
    ensures sg.rephrased == Rephrasing(text, info.keywords).rephrased
    ensures sg.confidence == Rephrasing(text, info.keywords).confidence
    ensures OccursAt(sg.reason, ReasonPrefix, 0)
  {
    var keywords := ListOrEmpty(info.keywords);
    var r := Rephrasing(text, Some(keywords));
    var reason := ReasonPrefix + Join(keywords, ", ");
    assert reason[..|ReasonPrefix|] == ReasonPrefix;
    Suggestion(text, r.rephrased, reason, r.confidence, keywords, ListOrEmpty(info.categories))
  }

  /** The reason names exactly the keywords: after the prefix, splitting at ", " gives them back. */
  lemma SuggestionReason(text: string, info: ToxicityInfo)
    requires forall w :: w in ListOrEmpty(info.keywords) ==> ',' !in w
    ensures var sg := GetSuggestion(text, info);
      if sg.keywords == [] then sg.reason == ReasonPrefix
      else SplitOn(sg.reason[|ReasonPrefix|..], ", ") == sg.keywords
  {
    var keywords := ListOrEmpty(info.keywords);
    var reason := ReasonPrefix + Join(keywords, ", ");
    assert reason[|ReasonPrefix|..] == Join(keywords, ", ");
    if keywords != [] {
      SplitJoin(keywords, ", ");
    }
  }

  // ---------------------------------------------------------------------------------------
  // Worked examples

  /** A phrase matches only where it occurs in the lower-cased text. */
  lemma PhraseNeedsOccurrence(s: string, p: string, i: nat)
    requires PhraseAt(s, p, i)
    ensures OccursAt(Lower(s), p, i)
  {
    assert Lower(s)[i..i + |p|] == Lower(s[i..i + |p|]);
  }

  /** `i` starts a word: a word character not preceded by one. */
  predicate WordStart(s: string, i: nat) {
    i < |s| && IsWordChar(s[i]) && (i == 0 || !IsWordChar(s[i - 1]))
  }

  /**
   * Every phrase starts with a letter, so a phrase matches only at a word start; a rule none
   * of whose phrases occurs at any word start of the lower-cased text does not match.
   */
  lemma RuleMissesStarts(s: string, lower: string, rule: Rule, starts: seq<nat>)
    requires lower == Lower(s)
    requires forall i :: WordStart(lower, i) ==> i in starts
    requires forall k :: k in rule.phrases ==> k != [] && IsWordChar(k[0])
    requires forall k, p :: k in rule.phrases && p in starts ==> !OccursAt(lower, k, p)
    ensures !Matches(s, rule)
  {
    forall i: nat, k | k in rule.phrases && PhraseAt(s, k, i)
      ensures false
    {
      PhraseNeedsOccurrence(s, k, i);
      assert lower[i] == k[0];
      assert WordStart(lower, i);
    }
  }

  /** Phrases that all start with `c` occur at no position holding another character. */
  lemma FirstLetterMisses(lower: string, phrases: seq<string>, c: char, starts: seq<nat>)
    requires forall k :: k in phrases ==> k != [] && k[0] == c
    requires forall p :: p in starts ==> p >= |lower| || lower[p] != c
    ensures forall k, p :: k in phrases && p in starts ==> !OccursAt(lower, k, p)
  {
    forall k, p | k in phrases && p in starts && OccursAt(lower, k, p)
      ensures false
    {
    }
  }

  /** A pass in which no rule matches the text leaves it alone and reports nothing fired. */
  lemma {:induction false} NoRuleMatches(s: string, rules: seq<Rule>)
    requires forall r :: r in rules ==> !Matches(s, r)
    ensures !AnyFired(s, rules) && ApplyRules(s, rules) == s
    decreases |rules|
  {
    if rules != [] {
      var init := rules[..|rules| - 1];
      assert forall r :: r in init ==> r in rules;
      NoRuleMatches(s, init);
      assert rules[|rules| - 1] in rules;
    }
  }


  /** The first rule rewrites "you are stupid" as a whole. */
  lemma StupidFirstRule()
    ensures Matches("you are stupid", YouAreStupid)
    ensures Sub("you are stupid", YouAreStupid) == "I disagree with your approach"
  {
    var text := "you are stupid";
    var rule := YouAreStupid;
    LowerWithoutCapitals(text);
    assert text[0..14] == text;
    assert PhraseAt(text, "you are stupid", 0);
    assert MatchesAt(text, rule.phrases, 0);
    assert MatchLength(text, rule.phrases, 0) == Some(14);
    SubFromAtMatch(text, rule, 0, 14);
  }

  /** The characters of "i disagree with your approach". */
  predicate ApproachText(t: string) {
    |t| == 29 && ApproachHead(t) && ApproachTail(t)
  }

  predicate ApproachHead(t: string)
    requires |t| == 29
  {
    t[0] == 'i' && t[1] == ' ' && t[2] == 'd' && t[3] == 'i' && t[4] == 's' && t[5] == 'a' && t[6] == 'g' && t[7] == 'r' && t[8] == 'e' && t[9] == 'e' && t[10] == ' ' && t[11] == 'w' && t[12] == 'i' && t[13] == 't' && t[14] == 'h'
  }

  predicate ApproachTail(t: string)
    requires |t| == 29
  {
    t[15] == ' ' && t[16] == 'y' && t[17] == 'o' && t[18] == 'u' && t[19] == 'r' && t[20] == ' ' && t[21] == 'a' && t[22] == 'p' && t[23] == 'p' && t[24] == 'r' && t[25] == 'o' && t[26] == 'a' && t[27] == 'c' && t[28] == 'h'
  }

  lemma ApproachLowerHead()
    ensures |Lower("I disagree with your approach")| == 29
    ensures ApproachHead(Lower("I disagree with your approach"))
  {
  }

  lemma ApproachLowerTail()
    ensures |Lower("I disagree with your approach")| == 29
    ensures ApproachTail(Lower("I disagree with your approach"))
  {
  }

  lemma ApproachLower()
    ensures ApproachText(Lower("I disagree with your approach"))
  {
    ApproachLowerHead();
    ApproachLowerTail();
  }

  /** The word starts of the text. */
  lemma ApproachStarts(t: string)
    requires ApproachText(t)
    ensures forall i :: WordStart(t, i) ==> i in [0, 2, 11, 16, 21]
  {
    forall i | WordStart(t, i)
      ensures i in [0, 2, 11, 16, 21]
    {
      assert i in {0, 1, 2, 3, 4, 5, 6, 7, 8, 9, 10, 11, 12, 13, 14, 15, 16, 17, 18, 19, 20, 21, 22, 23, 24, 25, 26, 27, 28};
    }
  }

  /** YoureStupid does not match "I disagree with your approach". */
  lemma ApproachMissesYoureStupid(s: string)
    requires ApproachText(Lower(s))
    ensures !Matches(s, YoureStupid)
  {
    var lower := Lower(s);
    var starts := [0, 2, 11, 16, 21];
    ApproachStarts(lower);
    FirstLetterMisses(lower, YoureStupid.phrases, 'y', [0, 2, 11, 21]);
    Differs(lower, "you're stupid", 16, 3);
    Differs(lower, "youre stupid", 16, 4);
    RuleMissesStarts(s, lower, YoureStupid, starts);
  }

  /** ShutUp does not match "I disagree with your approach". */
  lemma ApproachMissesShutUp(s: string)
    requires ApproachText(Lower(s))
    ensures !Matches(s, ShutUp)
  {
    var lower := Lower(s);
    var starts := [0, 2, 11, 16, 21];
    ApproachStarts(lower);
    FirstLetterMisses(lower, ShutUp.phrases, 's', [0, 2, 11, 16, 21]);
    RuleMissesStarts(s, lower, ShutUp, starts);
  }

  /** YoureAnIdiot does not match "I disagree with your approach". */
  lemma ApproachMissesYoureAnIdiot(s: string)
    requires ApproachText(Lower(s))
    ensures !Matches(s, YoureAnIdiot)
  {
    var lower := Lower(s);
    var starts := [0, 2, 11, 16, 21];
    ApproachStarts(lower);
    FirstLetterMisses(lower, YoureAnIdiot.phrases, 'y', [0, 2, 11, 21]);
    Differs(lower, "you're a idiot", 16, 3);
    Differs(lower, "you're an idiot", 16, 3);
    Differs(lower, "youre a idiot", 16, 4);
    Differs(lower, "youre an idiot", 16, 4);
    RuleMissesStarts(s, lower, YoureAnIdiot, starts);
  }

  /** YouAreAnIdiot does not match "I disagree with your approach". */
  lemma ApproachMissesYouAreAnIdiot(s: string)
    requires ApproachText(Lower(s))
    ensures !Matches(s, YouAreAnIdiot)
  {
    var lower := Lower(s);
    var starts := [0, 2, 11, 16, 21];
    ApproachStarts(lower);
    FirstLetterMisses(lower, YouAreAnIdiot.phrases, 'y', [0, 2, 11, 21]);
    Differs(lower, "you are a idiot", 16, 3);
    Differs(lower, "you are an idiot", 16, 3);
    RuleMissesStarts(s, lower, YouAreAnIdiot, starts);
  }

  /** IHateYou does not match "I disagree with your approach". */
  lemma ApproachMissesIHateYou(s: string)
    requires ApproachText(Lower(s))
    ensures !Matches(s, IHateYou)
  {
    var lower := Lower(s);
    var starts := [0, 2, 11, 16, 21];
    ApproachStarts(lower);
    FirstLetterMisses(lower, IHateYou.phrases, 'i', [2, 11, 16, 21]);
    Differs(lower, "i hate you", 0, 2);
    RuleMissesStarts(s, lower, IHateYou, starts);
  }

  /** YoureDumb does not match "I disagree with your approach". */
  lemma ApproachMissesYoureDumb(s: string)
    requires ApproachText(Lower(s))
    ensures !Matches(s, YoureDumb)
  {
    var lower := Lower(s);
    var starts := [0, 2, 11, 16, 21];
    ApproachStarts(lower);
    FirstLetterMisses(lower, YoureDumb.phrases, 'y', [0, 2, 11, 21]);
    Differs(lower, "you're dumb", 16, 3);
    Differs(lower, "youre dumb", 16, 4);
    RuleMissesStarts(s, lower, YoureDumb, starts);
  }

  /** YouAreDumb does not match "I disagree with your approach". */
  lemma ApproachMissesYouAreDumb(s: string)
    requires ApproachText(Lower(s))
    ensures !Matches(s, YouAreDumb)
  {
    var lower := Lower(s);
    var starts := [0, 2, 11, 16, 21];
    ApproachStarts(lower);
    FirstLetterMisses(lower, YouAreDumb.phrases, 'y', [0, 2, 11, 21]);
    Differs(lower, "you are dumb", 16, 3);
    RuleMissesStarts(s, lower, YouAreDumb, starts);
  }

  /** YoureALoser does not match "I disagree with your approach". */
  lemma ApproachMissesYoureALoser(s: string)
    requires ApproachText(Lower(s))
    ensures !Matches(s, YoureALoser)
  {
    var lower := Lower(s);
    var starts := [0, 2, 11, 16, 21];
    ApproachStarts(lower);
    FirstLetterMisses(lower, YoureALoser.phrases, 'y', [0, 2, 11, 21]);
    Differs(lower, "you're a loser", 16, 3);
    Differs(lower, "youre a loser", 16, 4);
    RuleMissesStarts(s, lower, YoureALoser, starts);
  }

  /** YourePathetic does not match "I disagree with your approach". */
  lemma ApproachMissesYourePathetic(s: string)
    requires ApproachText(Lower(s))
    ensures !Matches(s, YourePathetic)
  {
    var lower := Lower(s);
    var starts := [0, 2, 11, 16, 21];
    ApproachStarts(lower);
    FirstLetterMisses(lower, YourePathetic.phrases, 'y', [0, 2, 11, 21]);
    Differs(lower, "you're pathetic", 16, 3);
    Differs(lower, "youre pathetic", 16, 4);
    RuleMissesStarts(s, lower, YourePathetic, starts);
  }

  /** YoureWorthless does not match "I disagree with your approach". */
  lemma ApproachMissesYoureWorthless(s: string)
    requires ApproachText(Lower(s))
    ensures !Matches(s, YoureWorthless)
  {
    var lower := Lower(s);
    var starts := [0, 2, 11, 16, 21];
    ApproachStarts(lower);
    FirstLetterMisses(lower, YoureWorthless.phrases, 'y', [0, 2, 11, 21]);
    Differs(lower, "you're worthless", 16, 3);
    Differs(lower, "youre worthless", 16, 4);
    RuleMissesStarts(s, lower, YoureWorthless, starts);
  }

  /** YoureUseless does not match "I disagree with your approach". */
  lemma ApproachMissesYoureUseless(s: string)
    requires ApproachText(Lower(s))
    ensures !Matches(s, YoureUseless)
  {
    var lower := Lower(s);
    var starts := [0, 2, 11, 16, 21];
    ApproachStarts(lower);
    FirstLetterMisses(lower, YoureUseless.phrases, 'y', [0, 2, 11, 21]);
    Differs(lower, "you're useless", 16, 3);
    Differs(lower, "youre useless", 16, 4);
    RuleMissesStarts(s, lower, YoureUseless, starts);
  }

  /** ThatsGarbage does not match "I disagree with your approach". */
  lemma ApproachMissesThatsGarbage(s: string)
    requires ApproachText(Lower(s))
    ensures !Matches(s, ThatsGarbage)
  {
    var lower := Lower(s);
    var starts := [0, 2, 11, 16, 21];
    ApproachStarts(lower);
    FirstLetterMisses(lower, ThatsGarbage.phrases, 't', [0, 2, 11, 16, 21]);
    RuleMissesStarts(s, lower, ThatsGarbage, starts);
  }

  /** ThatsTrash does not match "I disagree with your approach". */
  lemma ApproachMissesThatsTrash(s: string)
    requires ApproachText(Lower(s))
    ensures !Matches(s, ThatsTrash)
  {
    var lower := Lower(s);
    var starts := [0, 2, 11, 16, 21];
    ApproachStarts(lower);
    FirstLetterMisses(lower, ThatsTrash.phrases, 't', [0, 2, 11, 16, 21]);
    RuleMissesStarts(s, lower, ThatsTrash, starts);
  }

  /** YoureDisgusting does not match "I disagree with your approach". */
  lemma ApproachMissesYoureDisgusting(s: string)
    requires ApproachText(Lower(s))
    ensures !Matches(s, YoureDisgusting)
  {
    var lower := Lower(s);
    var starts := [0, 2, 11, 16, 21];
    ApproachStarts(lower);
    FirstLetterMisses(lower, YoureDisgusting.phrases, 'y', [0, 2, 11, 21]);
    Differs(lower, "you're disgusting", 16, 3);
    Differs(lower, "youre disgusting", 16, 4);
    RuleMissesStarts(s, lower, YoureDisgusting, starts);
  }

  /** Moron does not match "I disagree with your approach". */
  lemma ApproachMissesMoron(s: string)
    requires ApproachText(Lower(s))
    ensures !Matches(s, Moron)
  {
    var lower := Lower(s);
    var starts := [0, 2, 11, 16, 21];
    ApproachStarts(lower);
    FirstLetterMisses(lower, Moron.phrases, 'm', [0, 2, 11, 16, 21]);
    RuleMissesStarts(s, lower, Moron, starts);
  }

  /** Stupid does not match "I disagree with your approach". */
  lemma ApproachMissesStupid(s: string)
    requires ApproachText(Lower(s))
    ensures !Matches(s, Stupid)
  {
    var lower := Lower(s);
    var starts := [0, 2, 11, 16, 21];
    ApproachStarts(lower);
    FirstLetterMisses(lower, Stupid.phrases, 's', [0, 2, 11, 16, 21]);
    RuleMissesStarts(s, lower, Stupid, starts);
  }

  /** Idiot does not match "I disagree with your approach". */
  lemma ApproachMissesIdiot(s: string)
    requires ApproachText(Lower(s))
    ensures !Matches(s, Idiot)
  {
    var lower := Lower(s);
    var starts := [0, 2, 11, 16, 21];
    ApproachStarts(lower);
    FirstLetterMisses(lower, Idiot.phrases, 'i', [2, 11, 16, 21]);
    Differs(lower, "idiot", 0, 1);
    RuleMissesStarts(s, lower, Idiot, starts);
  }

  /** Dumb does not match "I disagree with your approach". */
  lemma ApproachMissesDumb(s: string)
    requires ApproachText(Lower(s))
    ensures !Matches(s, Dumb)
  {
    var lower := Lower(s);
    var starts := [0, 2, 11, 16, 21];
    ApproachStarts(lower);
    FirstLetterMisses(lower, Dumb.phrases, 'd', [0, 11, 16, 21]);
    Differs(lower, "dumb", 2, 1);
    RuleMissesStarts(s, lower, Dumb, starts);
  }

  /** Hate does not match "I disagree with your approach". */
  lemma ApproachMissesHate(s: string)
    requires ApproachText(Lower(s))
    ensures !Matches(s, Hate)
  {
    var lower := Lower(s);
    var starts := [0, 2, 11, 16, 21];
    ApproachStarts(lower);
    FirstLetterMisses(lower, Hate.phrases, 'h', [0, 2, 11, 16, 21]);
    RuleMissesStarts(s, lower, Hate, starts);
  }

  /** The rule table from its second rule on, in groups of four. */
  lemma TableTail()
    ensures PhraseRules[1..] == [YoureStupid, ShutUp, YoureAnIdiot, YouAreAnIdiot] + [IHateYou, YoureDumb, YouAreDumb, YoureALoser] + [YourePathetic, YoureWorthless, YoureUseless, ThatsGarbage] + [ThatsTrash, YoureDisgusting, Moron, Stupid] + [Idiot, Dumb, Hate]
  {
  }

  /** No rule of group 1 of the table tail matches "I disagree with your approach". */
  lemma ApproachMissesGroup1(s: string)
    requires ApproachText(Lower(s))
    ensures forall r :: r in [YoureStupid, ShutUp, YoureAnIdiot, YouAreAnIdiot] ==> !Matches(s, r)
  {
    ApproachMissesYoureStupid(s);
    ApproachMissesShutUp(s);
    ApproachMissesYoureAnIdiot(s);
    ApproachMissesYouAreAnIdiot(s);
  }

  /** No rule of group 2 of the table tail matches "I disagree with your approach". */
  lemma ApproachMissesGroup2(s: string)
    requires ApproachText(Lower(s))
    ensures forall r :: r in [IHateYou, YoureDumb, YouAreDumb, YoureALoser] ==> !Matches(s, r)
  {
    ApproachMissesIHateYou(s);
    ApproachMissesYoureDumb(s);
    ApproachMissesYouAreDumb(s);
    ApproachMissesYoureALoser(s);
  }

  /** No rule of group 3 of the table tail matches "I disagree with your approach". */
  lemma ApproachMissesGroup3(s: string)
    requires ApproachText(Lower(s))
    ensures forall r :: r in [YourePathetic, YoureWorthless, YoureUseless, ThatsGarbage] ==> !Matches(s, r)
  {
    ApproachMissesYourePathetic(s);
    ApproachMissesYoureWorthless(s);
    ApproachMissesYoureUseless(s);
    ApproachMissesThatsGarbage(s);
  }

  /** No rule of group 4 of the table tail matches "I disagree with your approach". */
  lemma ApproachMissesGroup4(s: string)
    requires ApproachText(Lower(s))
    ensures forall r :: r in [ThatsTrash, YoureDisgusting, Moron, Stupid] ==> !Matches(s, r)
  {
    ApproachMissesThatsTrash(s);
    ApproachMissesYoureDisgusting(s);
    ApproachMissesMoron(s);
    ApproachMissesStupid(s);
  }

  /** No rule of group 5 of the table tail matches "I disagree with your approach". */
  lemma ApproachMissesGroup5(s: string)
    requires ApproachText(Lower(s))
    ensures forall r :: r in [Idiot, Dumb, Hate] ==> !Matches(s, r)
  {
    ApproachMissesIdiot(s);
    ApproachMissesDumb(s);
    ApproachMissesHate(s);
  }

  /** No rule after the first matches "I disagree with your approach". */
  lemma ApproachMissesAll(s: string)
    requires ApproachText(Lower(s))
    ensures forall r :: r in PhraseRules[1..] ==> !Matches(s, r)
  {
    ApproachMissesGroup1(s);
    ApproachMissesGroup2(s);
    ApproachMissesGroup3(s);
    ApproachMissesGroup4(s);
    ApproachMissesGroup5(s);
    TableTail();
  }

  /** Once the first rule has fired, no later rule of the pass touches its replacement. */
  lemma ApproachUntouched(n: nat)
    requires 1 <= n <= |PhraseRules|
    ensures ApplyRules("I disagree with your approach", PhraseRules[1..n]) == "I disagree with your approach"
    ensures !AnyFired("I disagree with your approach", PhraseRules[1..n])
  {
    var t := "I disagree with your approach";
    ApproachLower();
    ApproachMissesAll(t);
    forall r | r in PhraseRules[1..n]
      ensures !Matches(t, r)
    {
      assert r in PhraseRules[1..];
    }
    NoRuleMatches(t, PhraseRules[1..n]);
  }

  /** After the first rule, "you are stupid" reads "I disagree with your approach". */
  lemma StupidAfterFirst()
    ensures ApplyRules("you are stupid", PhraseRules[..1]) == "I disagree with your approach"
    ensures AnyFired("you are stupid", PhraseRules[..1])
  {
    StupidFirstRule();
    assert PhraseRules[..1] == [YouAreStupid];
    OneRule("you are stupid", YouAreStupid);
  }

  /** The text that the first `n` rules of the pass leave of "you are stupid". */
  lemma StupidAfter(n: nat)
    requires 1 <= n <= |PhraseRules|
    ensures ApplyRules("you are stupid", PhraseRules[..n]) == "I disagree with your approach"
    ensures AnyFired("you are stupid", PhraseRules[..n])
  {
    var text := "you are stupid";
    StupidAfterFirst();
    ApproachUntouched(n);
    ApplyRulesAppend(text, PhraseRules[..1], PhraseRules[1..n]);
    assert PhraseRules[..1] + PhraseRules[1..n] == PhraseRules[..n];
  }

  /**
   * "you are stupid" is rewritten by the first rule, and every later rule, the `stupid` rule
   * among them, then sees "I disagree with your approach" and no longer matches.
   */
  lemma StupidPass()
    ensures ApplyRules("you are stupid", PhraseRules) == "I disagree with your approach"
    ensures AnyFired("you are stupid", PhraseRules)
    ensures PhraseRules[16] == Stupid
    ensures ApplyRules("you are stupid", PhraseRules[..16]) == "I disagree with your approach"
    ensures !Matches("I disagree with your approach", Stupid)
  {
    StupidAfter(16);
    StupidAfter(20);
    assert PhraseRules[..20] == PhraseRules;
    ApproachLower();
    ApproachMissesStupid("I disagree with your approach");
  }

  /** "you are stupid" with the keyword "stupid" becomes exactly "I disagree with your approach". */
  lemma StupidExample()
    ensures Rephrasing("you are stupid", Some(["stupid"])).rephrased == "I disagree with your approach"
    ensures Rephrasing("you are stupid", Some(["stupid"])).modified
  {
    var text := "you are stupid";
    assert !IsSpace(text[0]);
    StupidPass();
  }

  /** The characters of "this is trash!!!". */
  predicate ShoutText(t: string) {
    |t| == 16 && t[0] == 't' && t[1] == 'h' && t[2] == 'i' && t[3] == 's' && t[4] == ' ' &&
    t[5] == 'i' && t[6] == 's' && t[7] == ' ' && t[8] == 't' && t[9] == 'r' && t[10] == 'a' &&
    t[11] == 's' && t[12] == 'h' && t[13] == '!' && t[14] == '!' && t[15] == '!'
  }

  lemma ShoutLower()
    ensures ShoutText(Lower("THIS IS TRASH!!!"))
  {
  }

  /** The word starts of the text. */
  lemma ShoutStarts(t: string)
    requires ShoutText(t)
    ensures forall i :: WordStart(t, i) ==> i in [0, 5, 8]
  {
    forall i | WordStart(t, i)
      ensures i in [0, 5, 8]
    {
      assert i in {0, 1, 2, 3, 4, 5, 6, 7, 8, 9, 10, 11, 12, 13, 14, 15};
    }
  }

  /** YouAreStupid does not match "THIS IS TRASH!!!". */
  lemma ShoutMissesYouAreStupid(s: string)
    requires ShoutText(Lower(s))
    ensures !Matches(s, YouAreStupid)
  {
    var lower := Lower(s);
    var starts := [0, 5, 8];
    ShoutStarts(lower);
    FirstLetterMisses(lower, YouAreStupid.phrases, 'y', [0, 5, 8]);
    RuleMissesStarts(s, lower, YouAreStupid, starts);
  }

  /** YoureStupid does not match "THIS IS TRASH!!!". */
  lemma ShoutMissesYoureStupid(s: string)
    requires ShoutText(Lower(s))
    ensures !Matches(s, YoureStupid)
  {
    var lower := Lower(s);
    var starts := [0, 5, 8];
    ShoutStarts(lower);
    FirstLetterMisses(lower, YoureStupid.phrases, 'y', [0, 5, 8]);
    RuleMissesStarts(s, lower, YoureStupid, starts);
  }

  /** ShutUp does not match "THIS IS TRASH!!!". */
  lemma ShoutMissesShutUp(s: string)
    requires ShoutText(Lower(s))
    ensures !Matches(s, ShutUp)
  {
    var lower := Lower(s);
    var starts := [0, 5, 8];
    ShoutStarts(lower);
    FirstLetterMisses(lower, ShutUp.phrases, 's', [0, 5, 8]);
    RuleMissesStarts(s, lower, ShutUp, starts);
  }

  /** YoureAnIdiot does not match "THIS IS TRASH!!!". */
  lemma ShoutMissesYoureAnIdiot(s: string)
    requires ShoutText(Lower(s))
    ensures !Matches(s, YoureAnIdiot)
  {
    var lower := Lower(s);
    var starts := [0, 5, 8];
    ShoutStarts(lower);
    FirstLetterMisses(lower, YoureAnIdiot.phrases, 'y', [0, 5, 8]);
    RuleMissesStarts(s, lower, YoureAnIdiot, starts);
  }

  /** YouAreAnIdiot does not match "THIS IS TRASH!!!". */
  lemma ShoutMissesYouAreAnIdiot(s: string)
    requires ShoutText(Lower(s))
    ensures !Matches(s, YouAreAnIdiot)
  {
    var lower := Lower(s);
    var starts := [0, 5, 8];
    ShoutStarts(lower);
    FirstLetterMisses(lower, YouAreAnIdiot.phrases, 'y', [0, 5, 8]);
    RuleMissesStarts(s, lower, YouAreAnIdiot, starts);
  }

  /** IHateYou does not match "THIS IS TRASH!!!". */
  lemma ShoutMissesIHateYou(s: string)
    requires ShoutText(Lower(s))
    ensures !Matches(s, IHateYou)
  {
    var lower := Lower(s);
    var starts := [0, 5, 8];
    ShoutStarts(lower);
    FirstLetterMisses(lower, IHateYou.phrases, 'i', [0, 8]);
    Differs(lower, "i hate you", 5, 1);
    RuleMissesStarts(s, lower, IHateYou, starts);
  }

  /** YoureDumb does not match "THIS IS TRASH!!!". */
  lemma ShoutMissesYoureDumb(s: string)
    requires ShoutText(Lower(s))
    ensures !Matches(s, YoureDumb)
  {
    var lower := Lower(s);
    var starts := [0, 5, 8];
    ShoutStarts(lower);
    FirstLetterMisses(lower, YoureDumb.phrases, 'y', [0, 5, 8]);
    RuleMissesStarts(s, lower, YoureDumb, starts);
  }

  /** YouAreDumb does not match "THIS IS TRASH!!!". */
  lemma ShoutMissesYouAreDumb(s: string)
    requires ShoutText(Lower(s))
    ensures !Matches(s, YouAreDumb)
  {
    var lower := Lower(s);
    var starts := [0, 5, 8];
    ShoutStarts(lower);
    FirstLetterMisses(lower, YouAreDumb.phrases, 'y', [0, 5, 8]);
    RuleMissesStarts(s, lower, YouAreDumb, starts);
  }

  /** YoureALoser does not match "THIS IS TRASH!!!". */
  lemma ShoutMissesYoureALoser(s: string)
    requires ShoutText(Lower(s))
    ensures !Matches(s, YoureALoser)
  {
    var lower := Lower(s);
    var starts := [0, 5, 8];
    ShoutStarts(lower);
    FirstLetterMisses(lower, YoureALoser.phrases, 'y', [0, 5, 8]);
    RuleMissesStarts(s, lower, YoureALoser, starts);
  }

  /** YourePathetic does not match "THIS IS TRASH!!!". */
  lemma ShoutMissesYourePathetic(s: string)
    requires ShoutText(Lower(s))
    ensures !Matches(s, YourePathetic)
  {
    var lower := Lower(s);
    var starts := [0, 5, 8];
    ShoutStarts(lower);
    FirstLetterMisses(lower, YourePathetic.phrases, 'y', [0, 5, 8]);
    RuleMissesStarts(s, lower, YourePathetic, starts);
  }

  /** YoureWorthless does not match "THIS IS TRASH!!!". */
  lemma ShoutMissesYoureWorthless(s: string)
    requires ShoutText(Lower(s))
    ensures !Matches(s, YoureWorthless)
  {
    var lower := Lower(s);
    var starts := [0, 5, 8];
    ShoutStarts(lower);
    FirstLetterMisses(lower, YoureWorthless.phrases, 'y', [0, 5, 8]);
    RuleMissesStarts(s, lower, YoureWorthless, starts);
  }

  /** YoureUseless does not match "THIS IS TRASH!!!". */
  lemma ShoutMissesYoureUseless(s: string)
    requires ShoutText(Lower(s))
    ensures !Matches(s, YoureUseless)
  {
    var lower := Lower(s);
    var starts := [0, 5, 8];
    ShoutStarts(lower);
    FirstLetterMisses(lower, YoureUseless.phrases, 'y', [0, 5, 8]);
    RuleMissesStarts(s, lower, YoureUseless, starts);
  }

  /** ThatsGarbage does not match "THIS IS TRASH!!!". */
  lemma ShoutMissesThatsGarbage(s: string)
    requires ShoutText(Lower(s))
    ensures !Matches(s, ThatsGarbage)
  {
    var lower := Lower(s);
    var starts := [0, 5, 8];
    ShoutStarts(lower);
    FirstLetterMisses(lower, ThatsGarbage.phrases, 't', [5]);
    Differs(lower, "that's garbage", 0, 2);
    Differs(lower, "thats garbage", 0, 2);
    Differs(lower, "that's garbage", 8, 1);
    Differs(lower, "thats garbage", 8, 1);
    RuleMissesStarts(s, lower, ThatsGarbage, starts);
  }

  /** ThatsTrash does not match "THIS IS TRASH!!!". */
  lemma ShoutMissesThatsTrash(s: string)
    requires ShoutText(Lower(s))
    ensures !Matches(s, ThatsTrash)
  {
    var lower := Lower(s);
    var starts := [0, 5, 8];
    ShoutStarts(lower);
    FirstLetterMisses(lower, ThatsTrash.phrases, 't', [5]);
    Differs(lower, "that's trash", 0, 2);
    Differs(lower, "thats trash", 0, 2);
    Differs(lower, "that's trash", 8, 1);
    Differs(lower, "thats trash", 8, 1);
    RuleMissesStarts(s, lower, ThatsTrash, starts);
  }

  /** YoureDisgusting does not match "THIS IS TRASH!!!". */
  lemma ShoutMissesYoureDisgusting(s: string)
    requires ShoutText(Lower(s))
    ensures !Matches(s, YoureDisgusting)
  {
    var lower := Lower(s);
    var starts := [0, 5, 8];
    ShoutStarts(lower);
    FirstLetterMisses(lower, YoureDisgusting.phrases, 'y', [0, 5, 8]);
    RuleMissesStarts(s, lower, YoureDisgusting, starts);
  }

  /** Moron does not match "THIS IS TRASH!!!". */
  lemma ShoutMissesMoron(s: string)
    requires ShoutText(Lower(s))
    ensures !Matches(s, Moron)
  {
    var lower := Lower(s);
    var starts := [0, 5, 8];
    ShoutStarts(lower);
    FirstLetterMisses(lower, Moron.phrases, 'm', [0, 5, 8]);
    RuleMissesStarts(s, lower, Moron, starts);
  }

  /** Stupid does not match "THIS IS TRASH!!!". */
  lemma ShoutMissesStupid(s: string)
    requires ShoutText(Lower(s))
    ensures !Matches(s, Stupid)
  {
    var lower := Lower(s);
    var starts := [0, 5, 8];
    ShoutStarts(lower);
    FirstLetterMisses(lower, Stupid.phrases, 's', [0, 5, 8]);
    RuleMissesStarts(s, lower, Stupid, starts);
  }

  /** Idiot does not match "THIS IS TRASH!!!". */
  lemma ShoutMissesIdiot(s: string)
    requires ShoutText(Lower(s))
    ensures !Matches(s, Idiot)
  {
    var lower := Lower(s);
    var starts := [0, 5, 8];
    ShoutStarts(lower);
    FirstLetterMisses(lower, Idiot.phrases, 'i', [0, 8]);
    Differs(lower, "idiot", 5, 1);
    RuleMissesStarts(s, lower, Idiot, starts);
  }

  /** Dumb does not match "THIS IS TRASH!!!". */
  lemma ShoutMissesDumb(s: string)
    requires ShoutText(Lower(s))
    ensures !Matches(s, Dumb)
  {
    var lower := Lower(s);
    var starts := [0, 5, 8];
    ShoutStarts(lower);
    FirstLetterMisses(lower, Dumb.phrases, 'd', [0, 5, 8]);
    RuleMissesStarts(s, lower, Dumb, starts);
  }

  /** Hate does not match "THIS IS TRASH!!!". */
  lemma ShoutMissesHate(s: string)
    requires ShoutText(Lower(s))
    ensures !Matches(s, Hate)
  {
    var lower := Lower(s);
    var starts := [0, 5, 8];
    ShoutStarts(lower);
    FirstLetterMisses(lower, Hate.phrases, 'h', [0, 5, 8]);
    RuleMissesStarts(s, lower, Hate, starts);
  }

  /** The rule table in groups of four. */
  lemma TableGroups()
    ensures PhraseRules == [YouAreStupid, YoureStupid, ShutUp, YoureAnIdiot] + [YouAreAnIdiot, IHateYou, YoureDumb, YouAreDumb] + [YoureALoser, YourePathetic, YoureWorthless, YoureUseless] + [ThatsGarbage, ThatsTrash, YoureDisgusting, Moron] + [Stupid, Idiot, Dumb, Hate]
  {
  }

  /** No rule of group 1 of the table matches "THIS IS TRASH!!!". */
  lemma ShoutMissesGroup1(s: string)
    requires ShoutText(Lower(s))
    ensures forall r :: r in [YouAreStupid, YoureStupid, ShutUp, YoureAnIdiot] ==> !Matches(s, r)
  {
    ShoutMissesYouAreStupid(s);
    ShoutMissesYoureStupid(s);
    ShoutMissesShutUp(s);
    ShoutMissesYoureAnIdiot(s);
  }

  /** No rule of group 2 of the table matches "THIS IS TRASH!!!". */
  lemma ShoutMissesGroup2(s: string)
    requires ShoutText(Lower(s))
    ensures forall r :: r in [YouAreAnIdiot, IHateYou, YoureDumb, YouAreDumb] ==> !Matches(s, r)
  {
    ShoutMissesYouAreAnIdiot(s);
    ShoutMissesIHateYou(s);
    ShoutMissesYoureDumb(s);
    ShoutMissesYouAreDumb(s);
  }

  /** No rule of group 3 of the table matches "THIS IS TRASH!!!". */
  lemma ShoutMissesGroup3(s: string)
    requires ShoutText(Lower(s))
    ensures forall r :: r in [YoureALoser, YourePathetic, YoureWorthless, YoureUseless] ==> !Matches(s, r)
  {
    ShoutMissesYoureALoser(s);
    ShoutMissesYourePathetic(s);
    ShoutMissesYoureWorthless(s);
    ShoutMissesYoureUseless(s);
  }

  /** No rule of group 4 of the table matches "THIS IS TRASH!!!". */
  lemma ShoutMissesGroup4(s: string)
    requires ShoutText(Lower(s))
    ensures forall r :: r in [ThatsGarbage, ThatsTrash, YoureDisgusting, Moron] ==> !Matches(s, r)
  {
    ShoutMissesThatsGarbage(s);
    ShoutMissesThatsTrash(s);
    ShoutMissesYoureDisgusting(s);
    ShoutMissesMoron(s);
  }

  /** No rule of group 5 of the table matches "THIS IS TRASH!!!". */
  lemma ShoutMissesGroup5(s: string)
    requires ShoutText(Lower(s))
    ensures forall r :: r in [Stupid, Idiot, Dumb, Hate] ==> !Matches(s, r)
  {
    ShoutMissesStupid(s);
    ShoutMissesIdiot(s);
    ShoutMissesDumb(s);
    ShoutMissesHate(s);
  }

  /** No rule of the table matches "THIS IS TRASH!!!", so the pass leaves it alone. */
  lemma ShoutNoRuleFires()
    ensures !AnyFired("THIS IS TRASH!!!", PhraseRules)
    ensures ApplyRules("THIS IS TRASH!!!", PhraseRules) == "THIS IS TRASH!!!"
  {
    var s := "THIS IS TRASH!!!";
    ShoutLower();
    ShoutMissesGroup1(s);
    ShoutMissesGroup2(s);
    ShoutMissesGroup3(s);
    ShoutMissesGroup4(s);
    ShoutMissesGroup5(s);
    TableGroups();
    NoRuleMatches(s, PhraseRules);
  }

  /** "THIS IS TRASH!!!" is a stretch free of exclamation marks followed by three of them. */
  lemma ShoutParts()
    ensures "THIS IS TRASH!!!" == "THIS IS TRASH" + "!!!"
    ensures forall i :: 0 <= i < |"THIS IS TRASH"| ==> "THIS IS TRASH"[i] != '!'
  {
    var a := "THIS IS TRASH";
    forall i | 0 <= i < |a|
      ensures a[i] != '!'
    {
      assert i in [0, 1, 2, 3, 4, 5, 6, 7, 8, 9, 10, 11, 12];
    }
  }

  lemma CollapseThreeMarks()
    ensures Collapse("!!!") == "."
  {
    assert BangRun("!!!") == 3;
  }

  /** The run of three marks that ends "THIS IS TRASH!!!" becomes one full stop. */
  lemma ShoutCollapse()
    ensures Collapse("THIS IS TRASH!!!") == "THIS IS TRASH."
  {
    ShoutParts();
    CollapseWithoutBang("THIS IS TRASH", "!!!");
    CollapseThreeMarks();
  }

  /** "THIS IS TRASH." is longer than ten characters and all-caps. */
  lemma ShoutAllCaps()
    ensures IsLongAllCaps("THIS IS TRASH.")
  {
    var c := "THIS IS TRASH.";
    assert IsAsciiUpper(c[0]);
    forall i | 0 <= i < |c|
      ensures !IsAsciiLower(c[i])
    {
      assert i in [0, 1, 2, 3, 4, 5, 6, 7, 8, 9, 10, 11, 12, 13];
    }
  }

  lemma ShoutHeads()
    ensures "THIS IS TRASH." == ['T'] + "HIS IS TRASH."
    ensures "This is trash." == ['T'] + "his is trash."
  {
  }

  lemma ShoutTailLower()
    ensures Lower("HIS IS TRASH.") == "his is trash."
  {
  }

  lemma ShoutCapitalize()
    ensures Capitalize("THIS IS TRASH.") == "This is trash."
  {
    ShoutHeads();
    ShoutTailLower();
    CapitalizeCons('T', "HIS IS TRASH.");
  }

  /** "THIS IS TRASH." is long and all-caps, so it is capitalised. */
  lemma ShoutRecase()
    ensures Recase("THIS IS TRASH.") == "This is trash."
  {
    ShoutAllCaps();
    ShoutCapitalize();
  }

  /** "This is trash." opens with the hedge word "this". */
  lemma ShoutHedge()
    ensures Hedge("This is trash.") == "Perhaps this is trash."
  {
    var r := "This is trash.";
    assert Lower(r[0..4]) == "this";
    assert PhraseAt(r, HedgeWords[1], 0);
    assert OpensWithHedgeWord(r);
  }

  /** "THIS IS TRASH!!!" with the keyword "trash" is softened to exactly "Perhaps this is trash.". */
  lemma ShoutExample()
    ensures Rephrasing("THIS IS TRASH!!!", Some(["trash"])).rephrased == "Perhaps this is trash."
    ensures Rephrasing("THIS IS TRASH!!!", Some(["trash"])).modified
  {
    var text := "THIS IS TRASH!!!";
    assert !IsSpace(text[0]);
    ShoutNoRuleFires();
    ShoutCollapse();
    ShoutRecase();
    ShoutHedge();
    assert Softened(text) == "Perhaps this is trash.";
  }
}

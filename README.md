# Toxicity detector and rule-based rephraser

A Dafny model of the two deterministic text components of the SafeSpeakAI backend, together
with proofs about them.

- **The keyword detector** (`ToxicityAnalyzer`, in `toxicity_analyzer.dfy`):
  - lower-cases the text;
  - scans a fixed table of six categories for keywords by plain substring containment;
  - scales the largest matched severity by a context multiplier (a character repeated three
    times, long all-caps text, two or more `!`) and caps it at 1.0;
  - reports the text as toxic when some keyword matched and the result reaches the
    confidence threshold 0.6 (`ConfidenceThreshold`);
  - reports keywords and categories as sets, and maps categories to fixed advice.
- **The rephraser** (`TextRephraser`, in `text_rephraser.dfy`):
  - tries a table of 20 case-insensitive whole-phrase rules in order, each once, on the text as
    rewritten so far; a rule that matches replaces all its matches, leftmost first, without
    overlaps;
  - when no rule fired and keywords were supplied, softens the text instead: collapses runs
    of `!`, capitalises long all-caps text, and hedges a leading you/this/that with "Perhaps ";
  - scores the change by the share of words lost;
  - wraps the result into a suggestion whose reason lists the keywords.
- `Text` (`text.dfy`) models the Python string operations both use, on ASCII: `lower`,
  `isupper`, `capitalize`, `strip`-blankness, `split`, substring containment and the regular
  expression word boundary `\b`. `Wrappers` (`wrappers.dfy`) holds `Option`.

Loops and step-by-step updates in the source are methods here (`Analyze`, `AnalyzeContext`, `GenerateSuggestions`,
`Rephrase`, `GeneralSoftening`). Each is proved equal to a function (`Analysis`,
`ContextMultiplier`, `Suggestions`, `Rephrasing`, `Softened`), and the lemmas state what the
source promises about those functions. Both tables are built once and never changed, so they
are constants. Severities, multipliers and confidences are exact reals.

The regular expressions of the rephraser are modelled, not interpreted:
- each rule pattern is a literal phrase whose only variation is an optional apostrophe or an
  optional `n`, so a rule is the list of its lower-case literal alternatives (`Rule.phrases`);
- a phrase matches where it occurs ignoring ASCII case, with a word boundary on both sides
  (`PhraseAt`);
- `re.sub` is a left-to-right scan that replaces each match and resumes after it (`SubFrom`).

The substring test finds "hell" inside "hello", so "Hello, how are you?" gets keywords
{"hell"}, category {"profanity"}, severity and confidence 0.5, and is not toxic
(`GreetingExample`).

## Model

| member | source | states |
|---|---|---|
| Text.IsSpace | backend/text_rephraser.py:208-209 | definition: the ASCII characters `str.isspace` accepts (space, tab to carriage return, \x1c-\x1f); `Split`, `SplitWord` and `SplitAtSpace` separate words at them |
| Text.IsBlank | backend/toxicity_analyzer.py:60 | definition: `not text or not text.strip()`, i.e. every character is whitespace; `BlankAnalysis` and `RephraseBlank` (backend/text_rephraser.py:131) state what it decides |
| Text.IsUpper | backend/toxicity_analyzer.py:116 | definition: `str.isupper` on ASCII, some capital and no small letter; used through `IsLongAllCaps` by `QuietContext`, `MultiplierRange`, `SoftenedRecased` and `ShoutRecase` |
| Text.IsLongAllCaps | backend/text_rephraser.py:184 | definition: `len(text) > 10 and text.isupper()`, the test both components use; `MultiplierRange`, `SoftenedRecased` and `ShoutRecase` use it |
| Text.Contains | backend/toxicity_analyzer.py:78 | definition: `keyword in text_lower`, an occurrence at some index; `KeywordsAreSubstrings` states that the scan reports exactly the contained keywords |
| Text.Boundary | backend/text_rephraser.py:18 | definition: `\b`, a word character on exactly one side of the index; `PhraseAt` requires it at both ends of a phrase, which `MatchLength`, `FirstMatch` and `PhrasesAgree` build on |
| Text.ToSet | backend/toxicity_analyzer.py:93-94 | definition: `set(xs)`, the elements of the list; `ToSetAppend` and `ToSetEmpty` state its laws, and `Analyze` reports its keyword and category lists through it |
| Text.Words | backend/text_rephraser.py:208-209 | definition: `set(x.lower().split())`; `ConfidenceZero` and `ConfidenceFull` state the confidence in terms of it |
| Text.Lower | backend/toxicity_analyzer.py:70 | lower-casing keeps the length and maps every character to its lower-case form |
| Text.Capitalize | backend/text_rephraser.py:185 | the result has the same length and the same lower-cased form as the input, its first character is the upper-case form of the input's first character, and no capital follows it |
| Text.Split | backend/text_rephraser.py:208-209 | every word is non-empty and free of whitespace |
| Text.SplitWord | backend/text_rephraser.py:208-209 | a non-empty text without whitespace is exactly one word, itself |
| Text.SplitAtSpace | backend/text_rephraser.py:208-209 | a whitespace character separates: the words of `a + c + b` are the words of `a` followed by the words of `b`; with `SplitWord` this determines `split` completely |
| Text.SplitKeepsText | backend/text_rephraser.py:208-209 | the words glued back together are exactly the non-whitespace characters of the text, in order |
| ToxicityAnalyzer.Patterns | backend/toxicity_analyzer.py:16-41 | definition: the six categories with their keywords and severities; `NamesDistinct`, `MaxSeverityUpTo`, `KeywordsAreSubstrings`, `CategoriesMatchKeywords` and `SingleHit` state what the scan makes of it |
| ToxicityAnalyzer.HasRepeatedChar | backend/toxicity_analyzer.py:112 | definition: some character other than a newline followed by two copies of itself, the test of `(.)\1{2,}`; used by `ContextMultiplier`, whose properties `MultiplierRange` and `QuietContext` state |
| ToxicityAnalyzer.HasMultipleExclamations | backend/toxicity_analyzer.py:120 | definition: at least two `!` anywhere in the text; used by `ContextMultiplier` (`MultiplierRange`, `QuietContext`, `ExclaimedExample`) |
| ToxicityAnalyzer.MaxSeverityUpTo | backend/toxicity_analyzer.py:73-81 | the result bounds the severity of every category with a hit, and is 0 or the severity of one such category |
| ToxicityAnalyzer.MultiplierRange | backend/toxicity_analyzer.py:109-123 | the multiplier lies between 1 and 1.2·1.3·1.2; it is 1 exactly when no condition holds, and otherwise at least 1.2 |
| ToxicityAnalyzer.AnalyzeContext | backend/toxicity_analyzer.py:99-123 | the step-by-step product equals the product of the factors whose conditions hold (`ContextMultiplier`) |
| ToxicityAnalyzer.QuietContext | backend/toxicity_analyzer.py:109-123 | with no triple character, no capitals and no `!`, the multiplier is 1 |
| ToxicityAnalyzer.GenerateSuggestions | backend/toxicity_analyzer.py:125-149 | the appended advice equals `Suggestions` of the set of categories passed in |
| ToxicityAnalyzer.AdviceUpToMembers | backend/toxicity_analyzer.py:135-149 | a piece of advice is emitted exactly when its category is present; profanity and offensive change nothing |
| ToxicityAnalyzer.SuggestionsFollowCategories | backend/toxicity_analyzer.py:135-149 | one fixed piece of advice per detected category among hate_speech, insults, aggressive and derogatory; profanity and offensive never add one; at most four pieces |
| ToxicityAnalyzer.Analyze | backend/toxicity_analyzer.py:50-97 | the nested scan loops, the context step and the suggestion step produce exactly the verdict `Analysis(text)` |
| ToxicityAnalyzer.BlankAnalysis | backend/toxicity_analyzer.py:60-68 | blank text, and only blank text, gets the verdict without `originalText`: not toxic, scores 0, nothing reported |
| ToxicityAnalyzer.AdjustedBounds | backend/toxicity_analyzer.py:85 | the capped product lies in [0, 1], is 0 when nothing matched, and is never below the raw severity unless capped at 1 |
| ToxicityAnalyzer.VerdictConsistency | backend/toxicity_analyzer.py:84-95 | confidence equals severity and lies in [0, 1]; toxic iff some keyword matched and severity ≥ 0.6; no keyword means severity 0 and no category; suggestions only for toxic text |
| ToxicityAnalyzer.KeywordsAreSubstrings | backend/toxicity_analyzer.py:70-81 | a word is reported iff it is a table keyword occurring as a substring of the lower-cased text |
| ToxicityAnalyzer.CategoriesMatchKeywords | backend/toxicity_analyzer.py:76-80 | every reported category owns a reported keyword, and the category of every reported keyword is reported |
| ToxicityAnalyzer.SevereHitIsToxic | backend/toxicity_analyzer.py:81-87 | a hit in a category of severity ≥ 0.6 makes the text toxic whatever its context |
| ToxicityAnalyzer.NamesDistinct | backend/toxicity_analyzer.py:16-41 | the category names of the table are pairwise distinct |
| ToxicityAnalyzer.SingleHit | backend/toxicity_analyzer.py:76-81 | when exactly one table keyword occurs, the scan reports that keyword, its category and that category's severity |
| ToxicityAnalyzer.SingleHitVerdict | backend/toxicity_analyzer.py:70-97 | the whole verdict for a text with exactly one keyword hit |
| ToxicityAnalyzer.SingleCategory | backend/toxicity_analyzer.py:76-81 | when a single category is reported, the largest matched severity is that category's |
| ToxicityAnalyzer.ProfanityAlone | backend/toxicity_analyzer.py:84-87 | a profanity-only match has severity 0.5 × multiplier and is toxic exactly when some context factor applies |
| ToxicityAnalyzer.HalfAdjusted | backend/toxicity_analyzer.py:85-87 | 0.5 scaled by any attainable multiplier is not capped, and reaches 0.6 exactly when the multiplier is not 1 |
| ToxicityAnalyzer.InsultExample | backend/toxicity_analyzer.py:50-97 | "you are stupid" is toxic with confidence 0.7, keywords {"stupid"}, categories {"insults"} and the advice against personal attacks |
| ToxicityAnalyzer.GreetingExample | backend/toxicity_analyzer.py:50-97 | "Hello, how are you?" reports {"hell"} in profanity at severity 0.5 and is not toxic |
| ToxicityAnalyzer.ExclaimedExample | backend/toxicity_analyzer.py:84-87 | "damn!!" scores 0.5 × 1.2 = 0.6 and is toxic, with no advice |
| ToxicityAnalyzer.BatchAnalyze | backend/toxicity_analyzer.py:151-161 | one verdict per text, in order, each equal to the verdict of that text alone |
| ToxicityAnalyzer.ToxicityScore | backend/toxicity_analyzer.py:163-174 | the score is the verdict's severity and lies in [0, 1] |
| TextRephraser.PhraseRules | backend/text_rephraser.py:15-118 | definition: the 20 rules in table order, each as its lower-case literal alternatives and its replacement; `PassStep`, `StupidFirstRule`, `ApproachUntouched`, `StupidPass` and `ShoutNoRuleFires` state what the pass does with it |
| TextRephraser.Matches | backend/text_rephraser.py:148 | definition: `re.search` with the rule's pattern, i.e. some alternative matches at some index; `FirstMatch`, `OneRule` and `NoRuleMatches` state its properties |
| TextRephraser.Sub | backend/text_rephraser.py:149 | definition: `re.sub` as the left-to-right scan `SubFrom` from index 0; `SubWithoutMatch` and `SubWithMatch` state its properties |
| TextRephraser.MatchLength | backend/text_rephraser.py:148-149 | there is a result exactly when some alternative of the rule matches at the index, and the match is non-empty and inside the text |
| TextRephraser.MatchLengthIsPhraseLength | backend/text_rephraser.py:148-149 | the reported length is the length of an alternative that matches at the index, so `re.sub` resumes right after the matched phrase |
| TextRephraser.PhrasesAgree | backend/text_rephraser.py:148-149 | two phrases matching at the same index agree on every position both reach |
| TextRephraser.MatchLengthOfAny | backend/text_rephraser.py:148-149 | when the alternatives of a rule pairwise diverge, the reported length is that of any alternative that matches at the index |
| TextRephraser.TableUnambiguous | backend/text_rephraser.py:15-118 | in every rule of the table the alternatives pairwise diverge (none is a prefix of another) |
| TextRephraser.TableMatchLength | backend/text_rephraser.py:143-149 | for a table rule, the reported match length is that of whichever alternative matches, so the order of the alternatives does not change what `re.sub` replaces |
| TextRephraser.FirstMatch | backend/text_rephraser.py:148-149 | the result is the leftmost index where the rule matches, or none when it matches nowhere |
| TextRephraser.SubWithoutMatch | backend/text_rephraser.py:149 | replacing with a rule that matches nowhere leaves the text unchanged |
| TextRephraser.SubWithMatch | backend/text_rephraser.py:149 | replacing keeps the text before the leftmost match and puts the replacement right after it |
| TextRephraser.ApplyRulesAppend | backend/text_rephraser.py:143-150 | trying one list of rules and then another is trying their concatenation; a rule fired in the whole pass iff it fired in one part |
| TextRephraser.PassStep | backend/text_rephraser.py:143-150 | each rule of the table is tried once, in order, on the output of the rules before it |
| TextRephraser.NoneFiredIsIdentity | backend/text_rephraser.py:139-150 | a pass in which no rule fired returns the text unchanged |
| TextRephraser.ChangedOnlyIfFired | backend/text_rephraser.py:139-150 | the pass changes the text only if some rule fired |
| TextRephraser.OneRule | backend/text_rephraser.py:148-150 | a single rule fires exactly when it matches |
| TextRephraser.NoRuleMatches | backend/text_rephraser.py:143-150 | when no rule of a list matches the text, none fires and the text is unchanged |
| TextRephraser.GeneralSoftening | backend/text_rephraser.py:168-191 | the three reassignments compute `Softened(text)` |
| TextRephraser.Collapse | backend/text_rephraser.py:181 | definition: every maximal run of two or more `!` becomes one `.`; `CollapseNoDoubleBang`, `CollapseKeeps`, `CollapseChangesIffDoubleBang`, `CollapseIdempotent` and `CollapseWithoutBang` state its properties |
| TextRephraser.Recase | backend/text_rephraser.py:184-185 | definition: long all-caps text is capitalised, other text kept; `SoftenedRecased`, `SoftenedLetters` and `ShoutRecase` state its properties |
| TextRephraser.OpensWithHedgeWord | backend/text_rephraser.py:188 | definition: the text opens with you, this or that, ignoring case, followed by a word boundary; `SoftenedLetters`, `SoftenedUnchanged` and `ShoutHedge` use it |
| TextRephraser.Hedge | backend/text_rephraser.py:188-189 | definition: the hedging step; `HedgeLower` states what it does |
| TextRephraser.CollapseNoDoubleBang | backend/text_rephraser.py:181 | after collapsing, no two `!` are adjacent |
| TextRephraser.CollapseKeeps | backend/text_rephraser.py:181 | text without two adjacent `!` is left exactly as it is |
| TextRephraser.CollapseChangesIffDoubleBang | backend/text_rephraser.py:181 | collapsing changes the text iff it holds two adjacent `!` |
| TextRephraser.CollapseIdempotent | backend/text_rephraser.py:181 | collapsing twice is collapsing once |
| TextRephraser.CollapseWithoutBang | backend/text_rephraser.py:181 | a stretch without `!` passes through collapsing unchanged |
| TextRephraser.HedgeLower | backend/text_rephraser.py:188-189 | hedging puts "Perhaps " in front, follows it with the lower-case form of the first character and then the rest of the text unchanged; the case-blind form is "perhaps " followed by the text's |
| TextRephraser.SoftenedNoDoubleBang | backend/text_rephraser.py:178-191 | softened text never holds two adjacent `!` |
| TextRephraser.SoftenedLetters | backend/text_rephraser.py:178-191 | apart from collapsing, softening changes only case, and adds the prefix exactly when the re-cased text opens with a hedge word |
| TextRephraser.SoftenedRecased | backend/text_rephraser.py:183-189 | long all-caps text comes out non-empty, with a first character that is not a small letter and no capital after it |
| TextRephraser.SoftenedUnchanged | backend/text_rephraser.py:178-191 | text with no double `!`, not long and all-caps, and not opening with a hedge word is left alone |
| TextRephraser.ChangeScore | backend/text_rephraser.py:211-213 | the score lies in [0, 1]; it is 0 iff no word was lost, and 1 iff at least half of the words were lost |
| TextRephraser.Confidence | backend/text_rephraser.py:204-213 | the confidence lies in [0, 1] and is 0 for unchanged text |
| TextRephraser.ConfidenceZero | backend/text_rephraser.py:204-211 | the confidence is 0 iff the text is unchanged or the rewrite lost none of its words |
| TextRephraser.ConfidenceFull | backend/text_rephraser.py:208-213 | the confidence is 1 iff the text changed and lost at least half of its words |
| TextRephraser.Rephrase | backend/text_rephraser.py:120-166 | the rule loop and the softening step produce exactly `Rephrasing(text, keywords)` |
| TextRephraser.RephraseBlank | backend/text_rephraser.py:131-137 | blank text comes back as it is, unmodified, with confidence 0 |
| TextRephraser.RephraseNothingToDo | backend/text_rephraser.py:153-158 | with no rule matching and no keywords, the text is unchanged, unmodified, with confidence 0 |
| TextRephraser.RephraseReportsChange | backend/text_rephraser.py:148-158 | a changed text is reported modified; where softening ran, modified iff changed; confidence in [0, 1] and 0 for unchanged text |
| TextRephraser.RephraseSoftens | backend/text_rephraser.py:153-154 | where softening runs, the result holds no two adjacent `!` |
| TextRephraser.StupidFirstRule | backend/text_rephraser.py:17-21 | the first rule matches "you are stupid" and rewrites it to "I disagree with your approach" |
| TextRephraser.ApproachUntouched | backend/text_rephraser.py:143-150 | no rule after the first matches "I disagree with your approach", so the rest of the pass leaves it alone |
| TextRephraser.StupidPass | backend/text_rephraser.py:143-150 | the pass turns "you are stupid" into "I disagree with your approach"; the `stupid` rule, tried later, sees that text and does not match |
| TextRephraser.StupidExample | backend/text_rephraser.py:120-166 | "you are stupid" with keywords ["stupid"] becomes exactly "I disagree with your approach" and is reported modified |
| TextRephraser.ShoutNoRuleFires | backend/text_rephraser.py:143-150 | no rule of the table matches "THIS IS TRASH!!!" |
| TextRephraser.ShoutCollapse | backend/text_rephraser.py:181 | "THIS IS TRASH!!!" collapses to "THIS IS TRASH." |
| TextRephraser.ShoutRecase | backend/text_rephraser.py:184-185 | "THIS IS TRASH." is long and all-caps and is capitalised to "This is trash." |
| TextRephraser.ShoutHedge | backend/text_rephraser.py:188-189 | "This is trash." opens with "this" and becomes "Perhaps this is trash." |
| TextRephraser.ShoutExample | backend/text_rephraser.py:153-155 | "THIS IS TRASH!!!" with keywords ["trash"] is softened to exactly "Perhaps this is trash." and reported modified |
| TextRephraser.BatchRephrase | backend/text_rephraser.py:237-247 | one result per text, in order, each equal to rephrasing that text without keywords |
| TextRephraser.BatchNeverSoftens | backend/text_rephraser.py:247 | a batch result is the rule pass alone: softening never applies |
| TextRephraser.Join | backend/text_rephraser.py:231 | definition: `sep.join(ws)`; `SplitJoin` and `SuggestionReason` state that it can be split back |
| TextRephraser.SplitJoin | backend/text_rephraser.py:231 | when no keyword holds the separator's first character, splitting the joined list at the separator gives the list back |
| TextRephraser.GetSuggestion | backend/text_rephraser.py:215-235 | the original text, the rewrite and confidence of `rephrase`, the keywords and categories as given (missing means empty), and a reason starting with the fixed prefix |
| TextRephraser.SuggestionReason | backend/text_rephraser.py:231 | the reason is the prefix alone for no keywords, and otherwise splits back into exactly the keywords |

## Left out

- Unicode: `lower`, `isupper`, `capitalize`, `isspace`, `split`, `\w`/`\b` and the case-blind
  matching of `re.IGNORECASE` are modelled on ASCII only. Non-ASCII letters, non-ASCII
  whitespace and Unicode case folding are not modelled.
- Floating point: severities, multipliers and confidences are exact reals. The boundary case
  0.5 × 1.2 = 0.6 ("damn!!") is toxic both in exact arithmetic and in IEEE doubles.
- General regular expressions: only the literal rule phrases with their optional apostrophe
  or `n`, `!{2,}`, `(.)\1{2,}` and `^(you|this|that)\b` are modelled.
- Text that is not a string (`None` for `text`, or a `keywords` value that is not a list) is
  not modelled.
- Python dictionaries are datatypes (`Verdict`, `RephraseResult`, `Suggestion`,
  `ToxicityInfo`). A missing dictionary entry is `None`.
- TextRephraser.GetSuggestion: a `toxicity_info` whose `keywords` entry is present but null
  is not modelled; the source's `', '.join` fails on it. `ToxicityInfo.keywords == None`
  stands for a missing entry only.
- TextRephraser.SuggestionReason: the round trip is stated only for keywords without a comma,
  since a keyword that holds ", " cannot be told apart from two keywords once joined.
- TextRephraser.StupidExample and TextRephraser.ShoutExample: the confidence of the two
  examples is not computed; the general confidence lemmas apply to them.
- The order of keywords and categories coming out of `analyze` is not modelled: the source
  passes both lists through `set`, so the model returns sets.
- `AIRephraser` (backend/text_rephraser.py:251-303) and `PerspectiveAPIAnalyzer`
  (backend/toxicity_analyzer.py:178-231): calls to external services.
- backend/app.py (HTTP routes, request validation), backend/scraper.py (network I/O, HTML
  parsing) and the constants of backend/config.py other than the confidence threshold.
- The browser-side controller and its request-staleness logic are not part of this model.

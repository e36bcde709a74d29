/**
 * ASCII models of the Python string operations that the detector and the rephraser
 * use: `strip`, `lower`, `isupper`, `capitalize`, `split`, `count`, the `in` operator
 * on strings, and the regular-expression word boundary `\b`.
 */
module Text {

  /** `str.isspace` on ASCII: space, tab, line feed, \v, \f, carriage return and \x1c-\x1f. */
  predicate IsSpace(c: char) {
    c == ' ' || 9 <= c as int <= 13 || 28 <= c as int <= 31
  }

  /** `not text or not text.strip()`: the text is empty or made of whitespace only. */
  predicate IsBlank(s: string) {
    forall i :: 0 <= i < |s| ==> IsSpace(s[i])
  }

  predicate IsAsciiUpper(c: char) { 'A' <= c <= 'Z' }

  predicate IsAsciiLower(c: char) { 'a' <= c <= 'z' }

  /** A character of the regular-expression class `\w` (ASCII letters, digits, underscore). */
  predicate IsWordChar(c: char) {
    IsAsciiLower(c) || IsAsciiUpper(c) || '0' <= c <= '9' || c == '_'
  }

  function LowerChar(c: char): char {
    if IsAsciiUpper(c) then (c as int + 32) as char else c
  }

  function UpperChar(c: char): char {
    if IsAsciiLower(c) then (c as int - 32) as char else c
  }

  /** `str.lower()`. */
  function Lower(s: string): (r: string)
    ensures |r| == |s|
    ensures forall i :: 0 <= i < |s| ==> r[i] == LowerChar(s[i])
  {
    seq(|s|, i requires 0 <= i < |s| => LowerChar(s[i]))
  }

  /** Lower-casing leaves text without capital letters unchanged. */
  lemma LowerWithoutCapitals(s: string)
    requires forall i :: 0 <= i < |s| ==> !IsAsciiUpper(s[i])
    ensures Lower(s) == s
  {
  }

  /** Lower-casing works character by character, so it distributes over concatenation. */
  lemma LowerAppend(a: string, b: string)
    ensures Lower(a + b) == Lower(a) + Lower(b)
  {
  }

  /** `str.isupper()`: some character is upper-case and none is lower-case. */
  predicate IsUpper(s: string) {
    (exists i :: 0 <= i < |s| && IsAsciiUpper(s[i])) &&
    forall i :: 0 <= i < |s| ==> !IsAsciiLower(s[i])
  }

  /** Longer than ten characters and `isupper()`: the all-caps test both components use. */
  predicate IsLongAllCaps(s: string) {
    |s| > 10 && IsUpper(s)
  }

  /** `str.capitalize()`: the first character upper-cased, the rest lower-cased. */
  function Capitalize(s: string): (r: string)
    ensures |r| == |s|
    ensures Lower(r) == Lower(s)
    ensures s != [] ==> r[0] == UpperChar(s[0])
    ensures forall i :: 1 <= i < |r| ==> !IsAsciiUpper(r[i])
  {
    if s == [] then [] else [UpperChar(s[0])] + Lower(s[1..])
  }

  lemma CapitalizeCons(c: char, rest: string)
    ensures Capitalize([c] + rest) == [UpperChar(c)] + Lower(rest)
  {
    assert ([c] + rest)[1..] == rest;
  }

  /** `k` occurs in `s` starting at index `p`. */
  predicate OccursAt(s: string, k: string, p: nat) {
    p + |k| <= |s| && s[p..p + |k|] == k
  }

  /** In `a + b + c`, `a` occurs at the start and `b` right after it. */
  lemma OccursInConcat(a: string, b: string, c: string)
    ensures OccursAt(a + b + c, a, 0) && OccursAt(a + b + c, b, |a|)
  {
    assert (a + b + c)[..|a|] == a;
    assert (a + b + c)[|a|..|a| + |b|] == b;
  }

  /** Python's `k in s` on strings: plain substring containment. */
  predicate Contains(s: string, k: string) {
    exists p :: 0 <= p <= |s| - |k| && OccursAt(s, k, p)
  }

  /**
   * A keyword cannot occur in `s` when its `j`-th character is absent from every
   * position where that character would have to sit.
   */
  lemma NotContainedByWindow(s: string, k: string, j: nat)
    requires j < |k| <= |s|
    requires k[j] !in s[j..|s| - |k| + j + 1]
    ensures !Contains(s, k)
  {
    forall p | 0 <= p <= |s| - |k|
      ensures !OccursAt(s, k, p)
    {
      assert s[j..|s| - |k| + j + 1][p] == s[p + j];
      assert s[p..p + |k|][j] == s[p + j] != k[j];
    }
  }

  /** `k` does not occur at `p` when its `j`-th character differs from the text's. */
  lemma Differs(s: string, k: string, p: nat, j: nat)
    requires j < |k| && p + j < |s| && s[p + j] != k[j]
    ensures !OccursAt(s, k, p)
  {
    if p + |k| <= |s| {
      assert s[p..p + |k|][j] == s[p + j];
    }
  }

  /** Python's `\b` at index `k`: exactly one of the characters around `k` is a word character. */
  predicate Boundary(s: string, k: nat)
    requires k <= |s|
  {
    (k > 0 && IsWordChar(s[k - 1])) != (k < |s| && IsWordChar(s[k]))
  }

  /** Length of the run of non-whitespace characters that `s` starts with. */
  function WordLength(s: string): (n: nat)
    ensures n <= |s|
    ensures forall i :: 0 <= i < n ==> !IsSpace(s[i])
    ensures n == |s| || IsSpace(s[n])
  {
    if s == [] || IsSpace(s[0]) then 0 else 1 + WordLength(s[1..])
  }

  /** `str.split()` without a separator: the maximal runs of non-whitespace characters, in order. */
  function Split(s: string): (ws: seq<string>)
    ensures forall w :: w in ws ==> w != [] && forall i :: 0 <= i < |w| ==> !IsSpace(w[i])
    decreases |s|
  {
    if s == [] then []
    else if IsSpace(s[0]) then Split(s[1..])
    else
      var n := WordLength(s);
      [s[..n]] + Split(s[n..])
  }

  /** A run that stops inside `a`, or at a whitespace character right after it, is unaffected by what follows `a`. */
  lemma {:induction false} WordLengthPrefix(a: string, t: string)
    requires WordLength(a) < |a| || (t != [] && IsSpace(t[0]))
    ensures WordLength(a + t) == WordLength(a)
    decreases |a|
  {
    if a == [] {
      assert a + t == t;
    } else if !IsSpace(a[0]) {
      assert (a + t)[1..] == a[1..] + t;
      WordLengthPrefix(a[1..], t);
    }
  }

  /** A non-empty stretch without whitespace is a single word. */
  lemma SplitWord(w: string)
    requires w != [] && forall i :: 0 <= i < |w| ==> !IsSpace(w[i])
    ensures Split(w) == [w]
  {
    assert WordLength(w) == |w|;
    assert w[..|w|] == w && w[|w|..] == [];
  }

  /** `Split` on text that starts with a word: that word, then the words of the rest. */
  lemma SplitHeadWord(s: string, n: nat)
    requires s != [] && !IsSpace(s[0]) && n == WordLength(s)
    ensures Split(s) == [s[..n]] + Split(s[n..])
  {
  }

  /** `Split` on text that starts with whitespace: the words of the rest. */
  lemma SplitHeadSpace(s: string)
    requires s != [] && IsSpace(s[0])
    ensures Split(s) == Split(s[1..])
  {
  }

  lemma AppendAt(a: string, t: string, n: nat)
    requires n <= |a|
    ensures (a + t)[..n] == a[..n] && (a + t)[n..] == a[n..] + t
  {
  }

  /** A word at the head of `a` that ends inside `a`, or right before whitespace that follows `a`, is the first word of `a + t`. */
  lemma SplitWordThen(a: string, t: string, n: nat)
    requires a != [] && !IsSpace(a[0]) && n == WordLength(a)
    requires n < |a| || (t != [] && IsSpace(t[0]))
    ensures Split(a + t) == [a[..n]] + Split(a[n..] + t)
  {
    WordLengthPrefix(a, t);
    AppendAt(a, t, n);
    SplitHeadWord(a + t, n);
  }

  lemma ConsAssoc(w: string, x: seq<string>, y: seq<string>)
    ensures [w] + (x + y) == [w] + x + y
  {
  }

  /** Text followed by whitespace and more text splits as the two texts do separately. */
  lemma {:induction false} SplitBeforeSpace(a: string, t: string)
    requires t != [] && IsSpace(t[0])
    ensures Split(a + t) == Split(a) + Split(t[1..])
    decreases |a|
  {
    if a == [] {
      assert a + t == t;
      SplitHeadSpace(t);
    } else if IsSpace(a[0]) {
      assert (a + t)[1..] == a[1..] + t;
      SplitBeforeSpace(a[1..], t);
    } else {
      var n := WordLength(a);
      SplitWordThen(a, t, n);
      SplitHeadWord(a, n);
      SplitBeforeSpace(a[n..], t);
      ConsAssoc(a[..n], Split(a[n..]), Split(t[1..]));
    }
  }

  /** Splitting at a whitespace character splits the text on either side of it separately. */
  lemma SplitAtSpace(a: string, c: char, b: string)
    requires IsSpace(c)
    ensures Split(a + [c] + b) == Split(a) + Split(b)
  {
    assert a + [c] + b == a + ([c] + b) && ([c] + b)[1..] == b;
    SplitBeforeSpace(a, [c] + b);
  }

  function Concat(ws: seq<string>): string {
    if ws == [] then [] else ws[0] + Concat(ws[1..])
  }

  /** The characters of `s` that are not whitespace, in order. */
  function NonSpace(s: string): string {
    if s == [] then [] else (if IsSpace(s[0]) then [] else [s[0]]) + NonSpace(s[1..])
  }

  lemma {:induction false} NonSpaceAppend(a: string, b: string)
    ensures NonSpace(a + b) == NonSpace(a) + NonSpace(b)
  {
    if a != [] {
      var head := if IsSpace(a[0]) then [] else [a[0]];
      assert (a + b)[0] == a[0] && (a + b)[1..] == a[1..] + b;
      NonSpaceAppend(a[1..], b);
      calc {
        NonSpace(a + b);
        head + NonSpace(a[1..] + b);
        head + (NonSpace(a[1..]) + NonSpace(b));
        (head + NonSpace(a[1..])) + NonSpace(b);
      }
    } else {
      assert a + b == b;
    }
  }

  lemma {:induction false} NonSpaceOfWord(w: string)
    requires forall i :: 0 <= i < |w| ==> !IsSpace(w[i])
    ensures NonSpace(w) == w
  {
    if w != [] {
      NonSpaceOfWord(w[1..]);
    }
  }

  /** Splitting loses only whitespace: the words, glued back together, are the non-whitespace characters. */
  lemma {:induction false} SplitKeepsText(s: string)
    ensures Concat(Split(s)) == NonSpace(s)
    decreases |s|
  {
    if s == [] {
    } else if IsSpace(s[0]) {
      SplitKeepsText(s[1..]);
    } else {
      var n := WordLength(s);
      SplitKeepsText(s[n..]);
      assert ([s[..n]] + Split(s[n..]))[1..] == Split(s[n..]);
      assert s == s[..n] + s[n..];
      NonSpaceAppend(s[..n], s[n..]);
      NonSpaceOfWord(s[..n]);
    }
  }

  /** `set(xs)`: the distinct elements of a list. */
  function ToSet(xs: seq<string>): set<string> {
    set x | x in xs
  }

  lemma ToSetAppend(xs: seq<string>, x: string)
    ensures ToSet(xs + [x]) == ToSet(xs) + {x}
  {
  }

  /** A list is empty exactly when the set of its elements is. */
  lemma ToSetEmpty(xs: seq<string>)
    ensures ToSet(xs) == {} <==> xs == []
  {
    if xs != [] {
      assert xs[0] in ToSet(xs);
    }
  }

  /** `set(s.lower().split())`: the distinct lower-cased words of `s`. */
  function Words(s: string): set<string> {
    ToSet(Split(Lower(s)))
  }
}

/** The six regular expressions of the parser all have the shape
    `Label:\s*(C+)` for a literal label and a character class C. This module
    models `re.search(pattern, s).group(1)` for that shape: the leftmost
    position where the label occurs and the rest matches, with `\s*` greedy
    and giving back characters one at a time when `C+` cannot start. */
module Regex {
  import opened Strings
  import opened Whitespace

  /** `\s`, `\d`, `[\d.]`, `[^,]` and `[a-fA-F0-9]`. */
  datatype CharClass = Space | Digit | DigitOrDot | NotComma | HexDigit

  predicate InClass(c: char, cls: CharClass)
  {
    match cls
    case Space => IsSpace(c, Python)
    case Digit => '0' <= c <= '9'
    case DigitOrDot => ('0' <= c <= '9') || c == '.'
    case NotComma => c != ','
    case HexDigit => ('0' <= c <= '9') || ('a' <= c <= 'f') || ('A' <= c <= 'F')
  }

  /** The classes that share no character with `\s`. */
  predicate ExcludesSpace(cls: CharClass)
  {
    cls.Digit? || cls.DigitOrDot? || cls.HexDigit?
  }

  predicate AllIn(s: string, cls: CharClass)
  {
    forall k | 0 <= k < |s| :: InClass(s[k], cls)
  }

  /** How many characters a greedy `C*` consumes at the start of `s`. */
  function RunLength(s: string, cls: CharClass): (n: nat)
    decreases |s|
    ensures n <= |s|
    ensures AllIn(s[..n], cls)
    ensures n == |s| || !InClass(s[n], cls)
  {
    if s != [] && InClass(s[0], cls) then
      var n := 1 + RunLength(s[1..], cls);
      assert forall k | 1 <= k < n :: s[..n][k] == s[1..][..n - 1][k - 1];
      n
    else 0
  }

  /** `\s*` has consumed `t[..j]`; try the group `(C+)` at `j`, and on failure
      give back one character of `\s*` and try again. */
  function Backtrack(t: string, j: nat, cls: CharClass): (r: Option<string>)
    requires j <= |t|
    decreases j
    ensures r.Some? ==> r.value != [] && AllIn(r.value, cls)
  {
    if j < |t| && InClass(t[j], cls) then
      var n := RunLength(t[j..], cls);
      assert t[j..j + n] == t[j..][..n];
      Some(t[j..j + n])
    else if j == 0 then None
    else Backtrack(t, j - 1, cls)
  }

  /** The pattern `label\s*(C+)` anchored at the start of `s`: the group, or
      None when it does not match there. */
  function MatchAt(s: string, tag: string, cls: CharClass): (r: Option<string>)
    ensures r.Some? ==> StartsWith(s, tag) && r.value != [] && AllIn(r.value, cls)
  {
    if StartsWith(s, tag) then
      var t := s[|tag|..];
      Backtrack(t, RunLength(t, Space), cls)
    else None
  }

  /** `re.search`: the group of the match at the leftmost position where the
      pattern matches, or None. */
  function Search(s: string, tag: string, cls: CharClass): (r: Option<string>)
    decreases |s|
    ensures r.Some? ==> r.value != [] && AllIn(r.value, cls)
  {
    match MatchAt(s, tag, cls)
    case Some(g) => Some(g)
    case None => if s == [] then None else Search(s[1..], tag, cls)
  }

  // ---------------------------------------------------------------------
  // What the patterns capture.

  lemma {:induction false} RunLengthAtLeast(s: string, k: nat, cls: CharClass)
    requires k <= |s| && AllIn(s[..k], cls)
    decreases k
    ensures RunLength(s, cls) >= k
  {
    if k > 0 {
      assert s[0] == s[..k][0];
      assert forall i | 1 <= i < k :: s[..k][i] == s[1..][..k - 1][i - 1];
      RunLengthAtLeast(s[1..], k - 1, cls);
    }
  }

  /** The run is exactly `k` long when its first `k` characters are in the
      class and the next one is not. */
  lemma RunLengthExact(s: string, k: nat, cls: CharClass)
    requires k <= |s| && AllIn(s[..k], cls) && (k == |s| || !InClass(s[k], cls))
    ensures RunLength(s, cls) == k
  {
    RunLengthAtLeast(s, k, cls);
  }

  lemma {:induction false} RunLengthDrop(s: string, k: nat, cls: CharClass)
    requires k <= RunLength(s, cls)
    decreases k
    ensures RunLength(s[k..], cls) == RunLength(s, cls) - k
  {
    if k > 0 {
      assert s[1..][k - 1..] == s[k..];
      RunLengthDrop(s[1..], k - 1, cls);
    }
  }

  lemma SpaceOutsideClass(c: char, cls: CharClass)
    requires ExcludesSpace(cls) && InClass(c, Space)
    ensures !InClass(c, cls)
  {
  }

  lemma {:induction false} BacktrackSpaceFree(t: string, j: nat, cls: CharClass)
    requires j <= |t| && AllIn(t[..j], Space) && ExcludesSpace(cls)
    decreases j
    ensures Backtrack(t, j, cls) ==
      if j < |t| && InClass(t[j], cls) then Some(t[j..j + RunLength(t[j..], cls)]) else None
  {
    if !(j < |t| && InClass(t[j], cls)) && j > 0 {
      assert t[..j - 1] == t[..j][..j - 1];
      assert t[j - 1] == t[..j][j - 1];
      SpaceOutsideClass(t[j - 1], cls);
      BacktrackSpaceFree(t, j - 1, cls);
    }
  }

  /** `\s*(C+)` without backtracking: skip the whitespace, then take the
      longest run of the class, if there is any. */
  function Greedy(t: string, cls: CharClass): Option<string>
  {
    var k := RunLength(t, Space);
    if k < |t| && InClass(t[k], cls) then Some(t[k..k + RunLength(t[k..], cls)]) else None
  }

  lemma {:induction false} MatchAtTag(tag: string, t: string, cls: CharClass)
    ensures MatchAt(tag + t, tag, cls) == Backtrack(t, RunLength(t, Space), cls)
  {
    var s := tag + t;
    assert s[..|tag|] == tag;
    assert s[|tag|..] == t;
  }

  /** For `\d`, `[\d.]` and the hex class the match never backtracks: after
      the label and any whitespace, the group is the longest run of the
      class, and there is no match when that run is empty. */
  lemma MatchSpaceFreeClass(tag: string, t: string, cls: CharClass)
    requires ExcludesSpace(cls)
    ensures MatchAt(tag + t, tag, cls) == Greedy(t, cls)
  {
    MatchAtTag(tag, t, cls);
    BacktrackSpaceFree(t, RunLength(t, Space), cls);
  }

  /** The text before the first comma (all of `t` when there is none). */
  function UpToComma(t: string): string
  {
    t[..RunLength(t, NotComma)]
  }

  lemma {:induction false} SpaceIsNotComma(t: string)
    ensures RunLength(t, Space) <= RunLength(t, NotComma)
  {
    var k := RunLength(t, Space);
    assert AllIn(t[..k], NotComma) by {
      assert AllIn(t[..k], Space);
    }
    RunLengthAtLeast(t, k, NotComma);
  }

  /** `\s*` stopped before the comma: the group is the rest up to it. */
  lemma {:induction false} BacktrackNotCommaDirect(t: string)
    requires RunLength(t, Space) < RunLength(t, NotComma)
    ensures Backtrack(t, RunLength(t, Space), NotComma).Some?
    ensures Trim(Backtrack(t, RunLength(t, Space), NotComma).value, Python) == Trim(UpToComma(t), Python)
  {
    var k := RunLength(t, Space);
    var e := RunLength(t, NotComma);
    RunLengthDrop(t, k, NotComma);
    var g := t[k..e];
    assert Backtrack(t, k, NotComma) == Some(g);
    assert t[..e] == t[..k] + g + [];
    TrimPadded(t[..k], g, [], Python);
    assert g + [] == g;
  }

  /** `\s*` reached the comma (or the end): it gives back one whitespace
      character, which becomes the whole group and strips to nothing. */
  lemma {:induction false} BacktrackNotCommaGiveBack(t: string)
    requires 0 < RunLength(t, Space) == RunLength(t, NotComma)
    ensures Backtrack(t, RunLength(t, Space), NotComma).Some?
    ensures Trim(Backtrack(t, RunLength(t, Space), NotComma).value, Python) == Trim(UpToComma(t), Python)
  {
    var k := RunLength(t, Space);
    RunLengthDrop(t, k - 1, NotComma);
    assert t[k - 1] == t[..k][k - 1];
    var g := t[k - 1..k];
    assert Backtrack(t, k, NotComma) == Backtrack(t, k - 1, NotComma);
    assert Backtrack(t, k - 1, NotComma) == Some(g);
    assert AllSpace(g, Python);
    assert AllSpace(t[..k], Python);
    TrimPadded(g, [], [], Python);
    TrimPadded(t[..k], [], [], Python);
    assert g + [] + [] == g;
    assert t[..k] + [] + [] == t[..k];
  }

  /** For `[^,]`, followed by `.strip()`: the pattern matches exactly when
      some character other than a comma follows the label, and the stripped
      group is the stripped text up to the next comma. */
  lemma MatchNotComma(tag: string, t: string)
    ensures MatchAt(tag + t, tag, NotComma).Some? <==> UpToComma(t) != []
    ensures MatchAt(tag + t, tag, NotComma).Some? ==>
      Trim(MatchAt(tag + t, tag, NotComma).value, Python) == Trim(UpToComma(t), Python)
  {
    MatchAtTag(tag, t, NotComma);
    SpaceIsNotComma(t);
    var k := RunLength(t, Space);
    var e := RunLength(t, NotComma);
    if k < e {
      BacktrackNotCommaDirect(t);
    } else if k > 0 {
      BacktrackNotCommaGiveBack(t);
    }
  }

  // ---------------------------------------------------------------------
  // Where the leftmost match is.

  /** Text in which the label cannot start does not affect the search. */
  lemma {:induction false} SearchSkip(a: string, b: string, tag: string, cls: CharClass)
    requires NoStartIn(a, b, tag)
    ensures Search(a + b, tag, cls) == Search(b, tag, cls)
  {
    if a == [] {
      assert a + b == b;
    } else {
      assert (a + b)[1..] == a[1..] + b;
      SearchSkip(a[1..], b, tag, cls);
    }
  }

  /** Without the label there is no match. */
  lemma {:induction false} SearchAbsent(s: string, tag: string, cls: CharClass)
    requires !Contains(s, tag)
    decreases |s|
    ensures Search(s, tag, cls) == None
  {
    if s != [] {
      SearchAbsent(s[1..], tag, cls);
    }
  }

  /** Stripping keeps a text inside its class. */
  lemma {:induction false} TrimKeepsClass(s: string, conv: Convention, cls: CharClass)
    requires AllIn(s, cls)
    ensures AllIn(Trim(s, conv), cls)
  {
    TrimSpec(s, conv);
    var i := |s| - |TrimStart(s, conv)|;
    AllInSlice(s, i, i + |Trim(s, conv)|, cls);
  }

  lemma AllInSlice(s: string, i: nat, j: nat, cls: CharClass)
    requires i <= j <= |s| && AllIn(s, cls)
    ensures AllIn(s[i..j], cls)
  {
  }

  /** A text made only of characters of a class that the label's first
      character is not in cannot contain the label. */
  lemma {:induction false} ClassExcludesLabel(s: string, cls: CharClass, tag: string)
    requires AllIn(s, cls) && tag != [] && !InClass(tag[0], cls)
    decreases |s|
    ensures !Contains(s, tag)
  {
    if s != [] {
      ClassExcludesLabel(s[1..], cls, tag);
    }
  }

  // ---------------------------------------------------------------------
  // Values written as "label: value" and read back.

  /** After text in which the label cannot start, the search reports the
      match at the label. */
  lemma SearchFound(pre: string, tag: string, t: string, cls: CharClass)
    requires Clear(pre, tag)
    requires MatchAt(tag + t, tag, cls).Some?
    ensures Search(pre + (tag + t), tag, cls) == MatchAt(tag + t, tag, cls)
  {
    ClearNoStart(pre, tag + t, tag);
    SearchSkip(pre, tag + t, tag, cls);
  }

  /** One space, a non-empty run of a class without whitespace, then
      nothing of the class: the run is the group. */
  lemma GreedyValue(v: string, r: string, cls: CharClass)
    requires ExcludesSpace(cls) && v != [] && AllIn(v, cls)
    requires r == [] || !InClass(r[0], cls)
    ensures Greedy(" " + v + r, cls) == Some(v)
  {
    var t := " " + v + r;
    assert t[..1] == " ";
    assert t[1] == v[0] && InClass(v[0], cls);
    if InClass(t[1], Space) {
      SpaceOutsideClass(t[1], cls);
    }
    RunLengthExact(t, 1, Space);
    assert t[1..] == v + r;
    assert (v + r)[..|v|] == v;
    RunLengthExact(v + r, |v|, cls);
    assert t[1..1 + |v|] == v;
  }

  /** One space and a comma-free text, then a comma or the end: that is
      the text up to the comma. */
  lemma UpToCommaValue(v: string, r: string)
    requires AllIn(v, NotComma)
    requires r == [] || r[0] == ','
    ensures UpToComma(" " + v + r) == " " + v
  {
    var t := " " + v + r;
    assert t[..1 + |v|] == " " + v;
    RunLengthExact(t, 1 + |v|, NotComma);
  }
}

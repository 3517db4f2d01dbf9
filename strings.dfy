/** Text primitives the parser, composer and writer are built from: Python's
    `in`, `str.find`, `str.split`, `str.join` and `str.replace`, plus the
    reasoning tools used to show where a label can and cannot occur in a
    concatenation. */
module Strings {

  datatype Option<+T> = None | Some(value: T)

  /** `s` begins with `p`. */
  predicate StartsWith(s: string, p: string)
  {
    |p| <= |s| && s[..|p|] == p
  }

  /** Python's `p in s`: some suffix of `s` begins with `p`. */
  predicate Contains(s: string, p: string)
    decreases |s|
  {
    StartsWith(s, p) || (s != [] && Contains(s[1..], p))
  }

  lemma {:induction false} ContainsAt(s: string, p: string, i: nat)
    requires i <= |s| && StartsWith(s[i..], p)
    ensures Contains(s, p)
  {
    if i > 0 {
      assert s[1..][i - 1..] == s[i..];
      ContainsAt(s[1..], p, i - 1);
    }
  }

  /** No occurrence of `p` starts before index `n` of `s`. */
  predicate NoStartBefore(s: string, p: string, n: nat)
  {
    forall j | 0 <= j < n && j <= |s| :: !StartsWith(s[j..], p)
  }

  /** Python's `s.find(p)`: the index of the first occurrence of `p`, or -1. */
  function Find(s: string, p: string): (r: int)
    decreases |s|
    ensures -1 <= r <= |s|
    ensures r == -1 <==> !Contains(s, p)
    ensures r >= 0 ==> StartsWith(s[r..], p)
    ensures r >= 0 ==> NoStartBefore(s, p, r)
  {
    if StartsWith(s, p) then 0
    else if s == [] then -1
    else
      var r := Find(s[1..], p);
      assert forall j | 1 <= j <= |s| :: s[j..] == s[1..][j - 1..];
      if r == -1 then -1 else r + 1
  }

  /** A text begins with every prefix of what it begins with. */
  lemma StartsWithPrefix(s: string, a: string, b: string)
    requires StartsWith(s, a + b)
    ensures StartsWith(s, a)
  {
    assert s[..|a|] == (a + b)[..|a|];
  }

  lemma StartsWithConcat(a: string, b: string)
    ensures StartsWith(a + b, a)
  {
    assert (a + b)[..|a|] == a;
  }

  lemma ConcatAssoc(x: string, y: string, z: string)
    ensures x + y + z == x + (y + z)
  {
  }

  /** A text that begins with `p` is `p` followed by the rest. */
  lemma StartsWithSplit(s: string, p: string)
    requires StartsWith(s, p)
    ensures s == p + s[|p|..]
  {
    assert s == s[..|p|] + s[|p|..];
  }

  lemma StartsWithTrans(s: string, a: string, b: string)
    requires StartsWith(s, a) && StartsWith(a, b)
    ensures StartsWith(s, b)
  {
    assert s[..|b|] == s[..|a|][..|b|];
  }

  /** Extending a prefix by the character that follows it. */
  lemma StartsWithNext(s: string, p: string)
    requires StartsWith(s, p) && |p| < |s|
    ensures StartsWith(s, p + [s[|p|]])
  {
    assert s[..|p| + 1] == s[..|p|] + [s[|p|]];
  }

  /** Python's `sep.join(parts)`. */
  function Join(parts: seq<string>, sep: string): string
  {
    if |parts| == 0 then ""
    else if |parts| == 1 then parts[0]
    else parts[0] + sep + Join(parts[1..], sep)
  }

  /** Python's `s.split(sep)` for a non-empty separator: cut at every
      occurrence, scanning left to right. */
  function Split(s: string, sep: string): (parts: seq<string>)
    requires sep != []
    decreases |s|
    ensures |parts| >= 1
  {
    var i := Find(s, sep);
    if i < 0 then [s] else [s[..i]] + Split(s[i + |sep|..], sep)
  }

  /** Python's `s.replace(pat, rep)` for a non-empty pattern: left to right,
      non-overlapping. */
  function Replace(s: string, pat: string, rep: string): (r: string)
    requires pat != []
    decreases |s|
    ensures |rep| <= |pat| ==> |r| <= |s|
  {
    if StartsWith(s, pat) then rep + Replace(s[|pat|..], pat, rep)
    else if s == [] then []
    else [s[0]] + Replace(s[1..], pat, rep)
  }

  /** A text in which the pattern does not occur is left as it is. */
  lemma {:induction false} ReplaceWithout(s: string, pat: string, rep: string)
    requires pat != [] && !Contains(s, pat)
    decreases |s|
    ensures Replace(s, pat, rep) == s
  {
    if s != [] {
      ReplaceWithout(s[1..], pat, rep);
    }
  }

  /** The first occurrence of the pattern is replaced: the text before it
      is kept, and the text after it is replaced in turn. */
  lemma {:induction false} ReplaceAt(a: string, pat: string, rep: string, b: string)
    requires pat != [] && NoStartIn(a, pat + b, pat)
    decreases |a|
    ensures Replace(a + (pat + b), pat, rep) == a + (rep + Replace(b, pat, rep))
  {
    var x := rep + Replace(b, pat, rep);
    if a == [] {
      ReplaceHere(pat, rep, b);
      assert a + (pat + b) == pat + b && a + x == x;
    } else {
      ReplaceAt(a[1..], pat, rep, b);
      ReplaceStep(a, pat + b, pat, rep, a[1..] + x);
      assert [a[0]] + (a[1..] + x) == a + x;
    }
  }

  /** One step of the replacement past a character where the pattern does
      not start. */
  lemma ReplaceStep(a: string, t: string, pat: string, rep: string, r: string)
    requires a != [] && pat != [] && !StartsWith(a + t, pat)
    requires Replace(a[1..] + t, pat, rep) == r
    ensures Replace(a + t, pat, rep) == [a[0]] + r
  {
    assert a + t == [a[0]] + (a[1..] + t);
    ReplaceKeeps(a[0], a[1..] + t, pat, rep);
  }

  /** A text that starts with the pattern: the pattern is replaced. */
  lemma ReplaceHere(pat: string, rep: string, b: string)
    requires pat != []
    ensures Replace(pat + b, pat, rep) == rep + Replace(b, pat, rep)
  {
    StartsWithConcat(pat, b);
    assert (pat + b)[|pat|..] == b;
  }

  /** A character where the pattern does not start is kept. */
  lemma ReplaceKeeps(c: char, u: string, pat: string, rep: string)
    requires pat != [] && !StartsWith([c] + u, pat)
    ensures Replace([c] + u, pat, rep) == [c] + Replace(u, pat, rep)
  {
    assert ([c] + u)[1..] == u;
  }

  /** Splitting and joining again gives back the text, and no part holds the
      separator. */
  lemma {:induction false} SplitJoin(s: string, sep: string)
    requires sep != []
    decreases |s|
    ensures Join(Split(s, sep), sep) == s
    ensures forall k | 0 <= k < |Split(s, sep)| :: !Contains(Split(s, sep)[k], sep)
  {
    var i := Find(s, sep);
    if i >= 0 {
      var tail := s[i + |sep|..];
      var parts := Split(s, sep);
      var rest := Split(tail, sep);
      SplitJoin(tail, sep);
      assert parts == [s[..i]] + rest;
      assert parts[1..] == rest;
      assert Join(parts, sep) == s[..i] + sep + Join(rest, sep);
      assert s == s[..i] + sep + tail by {
        assert s[i..][..|sep|] == sep;
      }
      NoStartBeforeNotContains(s, sep, i);
      forall k | 0 <= k < |parts|
        ensures !Contains(parts[k], sep)
      {
        if k > 0 {
          assert parts[k] == rest[k - 1];
        }
      }
    }
  }

  lemma {:induction false} NoStartBeforeNotContains(s: string, p: string, i: nat)
    requires i <= |s|
    requires NoStartBefore(s, p, i)
    requires p != []
    ensures !Contains(s[..i], p)
  {
    if i > 0 {
      assert s[0..] == s;
      assert !StartsWith(s[..i], p) by {
        assert |p| <= i ==> s[..i][..|p|] == s[..|p|];
      }
      assert NoStartBefore(s[1..], p, i - 1) by {
        forall j | 0 <= j < i - 1 ensures !StartsWith(s[1..][j..], p) {
          assert s[1..][j..] == s[j + 1..];
        }
      }
      NoStartBeforeNotContains(s[1..], p, i - 1);
      assert s[..i][1..] == s[1..][..i - 1];
    }
  }

  /** There are at least two parts exactly when the separator occurs. */
  lemma SplitHasTwoParts(s: string, sep: string)
    requires sep != []
    ensures |Split(s, sep)| >= 2 <==> Contains(s, sep)
    ensures Contains(s, sep) ==> Split(s, sep)[0] == s[..Find(s, sep)]
  {
  }

  // ---------------------------------------------------------------------
  // Where an occurrence can start in a concatenation.

  /** No occurrence of `p` starts inside `a` when `a` is followed by `b`. */
  predicate NoStartIn(a: string, b: string, p: string)
    decreases |a|
  {
    a == [] || (!StartsWith(a + b, p) && NoStartIn(a[1..], b, p))
  }

  lemma {:induction false} ContainsSkip(a: string, b: string, p: string)
    requires NoStartIn(a, b, p)
    ensures Contains(a + b, p) <==> Contains(b, p)
  {
    if a == [] {
      assert a + b == b;
    } else {
      assert (a + b)[1..] == a[1..] + b;
      ContainsSkip(a[1..], b, p);
    }
  }

  /** Where `p` cannot start in `a`, no occurrence in `a + b` starts
      before `b`. */
  lemma {:induction false} NoStartInPrefix(a: string, b: string, p: string)
    requires NoStartIn(a, b, p)
    ensures NoStartBefore(a + b, p, |a|)
  {
    if a != [] {
      NoStartInPrefix(a[1..], b, p);
      forall j | 0 <= j < |a| ensures !StartsWith((a + b)[j..], p) {
        if j == 0 {
          assert (a + b)[0..] == a + b;
        } else {
          assert (a + b)[j..] == (a[1..] + b)[j - 1..];
        }
      }
    }
  }

  lemma {:induction false} FindSkip(a: string, b: string, p: string)
    requires NoStartIn(a, b, p)
    ensures Find(a + b, p) == if Find(b, p) == -1 then -1 else |a| + Find(b, p)
  {
    if a == [] {
      assert a + b == b;
    } else {
      assert (a + b)[1..] == a[1..] + b;
      FindSkip(a[1..], b, p);
    }
  }

  /** When the last character of `p` occurs nowhere else in `p`, an
      occurrence cannot straddle a text that lacks `p` and a following copy
      of `p`. */
  lemma {:induction false} NoStartBeforeLabel(a: string, p: string, r: string)
    requires p != [] && forall k | 0 <= k < |p| - 1 :: p[k] != p[|p| - 1]
    requires !Contains(a, p)
    ensures NoStartIn(a, p + r, p)
  {
    if a != [] {
      assert !StartsWith(a + (p + r), p) by {
        if |a| >= |p| {
          assert (a + (p + r))[..|p|] == a[..|p|];
        } else {
          assert (a + (p + r))[|p| - 1] == p[|p| - 1 - |a|];
        }
      }
      NoStartBeforeLabel(a[1..], p, r);
    }
  }

  /** `a` and `p` agree on their common prefix, so an occurrence of `p` could
      start at `a[0]` for a suitable continuation. */
  predicate Clash(a: string, p: string)
    decreases |a|
  {
    a == [] || p == [] || (a[0] == p[0] && Clash(a[1..], p[1..]))
  }

  /** No occurrence of `p` can start inside `a`, whatever follows `a`. */
  predicate Clear(a: string, p: string)
    decreases |a|
  {
    a == [] || (!Clash(a, p) && Clear(a[1..], p))
  }

  lemma {:induction false} ClashAgree(x: string, p: string, k: nat)
    requires Clash(x, p) && k < |x| && k < |p|
    ensures x[k] == p[k]
  {
    if k > 0 {
      ClashAgree(x[1..], p[1..], k - 1);
    }
  }

  lemma {:induction false} StartsWithClash(a: string, b: string, p: string)
    requires StartsWith(a + b, p)
    ensures Clash(a, p)
  {
    if a != [] && p != [] {
      assert (a + b)[0] == p[0];
      assert (a + b)[1..] == a[1..] + b;
      assert (a + b)[1..][..|p| - 1] == p[1..];
      StartsWithClash(a[1..], b, p[1..]);
    }
  }

  lemma {:induction false} ClashPrefix(a: string, b: string, p: string)
    requires a != [] && Clash(a + b, p)
    ensures Clash(a, p)
  {
    if p != [] && |a| > 1 {
      assert (a + b)[1..] == a[1..] + b;
      ClashPrefix(a[1..], b, p[1..]);
    }
  }

  /** A clear text lets no occurrence start inside it. */
  lemma {:induction false} ClearNoStart(a: string, b: string, p: string)
    requires Clear(a, p)
    ensures NoStartIn(a, b, p)
  {
    if a != [] {
      if StartsWith(a + b, p) {
        StartsWithClash(a, b, p);
      }
      ClearNoStart(a[1..], b, p);
    }
  }

  lemma {:induction false} ClearConcat(a: string, b: string, p: string)
    requires Clear(a, p) && Clear(b, p)
    ensures Clear(a + b, p)
  {
    if a == [] {
      assert a + b == b;
    } else {
      if Clash(a + b, p) {
        ClashPrefix(a, b, p);
      }
      assert (a + b)[1..] == a[1..] + b;
      ClearConcat(a[1..], b, p);
    }
  }

  /** A free-text field that does not contain `p`, followed by a separator
      whose first character `p` never uses, lets no occurrence of `p` start
      inside it. */
  lemma {:induction false} ClearField(f: string, sep: string, p: string)
    requires !Contains(f, p)
    requires sep != [] && sep[0] !in p
    requires Clear(sep, p)
    ensures Clear(f + sep, p)
  {
    if f == [] {
      assert f + sep == sep;
    } else {
      assert !Clash(f + sep, p) by {
        if Clash(f + sep, p) {
          if |p| <= |f| {
            forall k | 0 <= k < |p| ensures f[k] == p[k] {
              ClashAgree(f + sep, p, k);
            }
          } else {
            ClashAgree(f + sep, p, |f|);
          }
        }
      }
      assert (f + sep)[1..] == f[1..] + sep;
      ClearField(f[1..], sep, p);
    }
  }

  lemma {:induction false} ClearNotContains(a: string, p: string)
    requires Clear(a, p) && p != []
    ensures !Contains(a, p)
  {
    if a != [] {
      if StartsWith(a, p) {
        assert a + [] == a;
        StartsWithClash(a, [], p);
      }
      ClearNotContains(a[1..], p);
    }
  }

  // ---------------------------------------------------------------------
  // Clearness by first characters.

  /** A text in which the first character of `p` does not occur is clear
      of `p`. */
  lemma {:induction false} ClearWithout(a: string, p: string, c: char)
    requires p != [] && p[0] == c && c !in a
    ensures Clear(a, p)
  {
    if a != [] {
      assert a[0] in a;
      assert forall k | 0 <= k < |a| - 1 :: a[1..][k] == a[k + 1];
      ClearWithout(a[1..], p, c);
    }
  }

  /** Texts that differ at index `k` do not clash. */
  lemma {:induction false} ClashMismatch(a: string, p: string, k: nat)
    requires k < |a| && k < |p| && a[k] != p[k]
    ensures !Clash(a, p)
  {
    if k > 0 && Clash(a, p) {
      ClashMismatch(a[1..], p[1..], k - 1);
    }
  }

  /** `c + q + x` is clear of `c + q + y` when `x` and `y` part at their
      first character and `c` does not occur again before the end. */
  lemma ClearSharedStart(c: char, q: string, x: string, y: string)
    requires x != [] && y != [] && x[0] != y[0] && c !in q + x
    ensures Clear([c] + q + x, [c] + q + y)
  {
    var a := [c] + q + x;
    var p := [c] + q + y;
    assert a[1 + |q|] == x[0] && p[1 + |q|] == y[0];
    ClashMismatch(a, p, 1 + |q|);
    assert a[1..] == q + x;
    ClearWithout(q + x, p, c);
  }

  // ---------------------------------------------------------------------
  // Joined texts.

  /** What follows the part at index `i` in the joined text. */
  function JoinTail(parts: seq<string>, i: nat, sep: string): string
    requires i < |parts|
  {
    if i + 1 < |parts| then sep + Join(parts[i + 1..], sep) else ""
  }

  /** The joined text, cut just before the part at index `i`. */
  lemma {:induction false} JoinAt(parts: seq<string>, i: nat, sep: string)
    requires i < |parts|
    ensures i == 0 ==> Join(parts, sep) == parts[0] + JoinTail(parts, 0, sep)
    ensures 0 < i ==> Join(parts, sep) == (Join(parts[..i], sep) + sep) + (parts[i] + JoinTail(parts, i, sep))
  {
    if i == 0 {
      if |parts| == 1 {
        assert parts[0] + "" == parts[0];
      } else {
        ConcatAssoc(parts[0], sep, Join(parts[1..], sep));
      }
    } else {
      var tail := parts[1..];
      assert tail[i - 1..][1..] == parts[i + 1..];
      assert JoinTail(tail, i - 1, sep) == JoinTail(parts, i, sep);
      JoinAt(tail, i - 1, sep);
      var a := parts[0] + sep;
      var x := parts[i] + JoinTail(parts, i, sep);
      if i == 1 {
        assert Join(parts[..1], sep) == parts[0];
      } else {
        var j := Join(tail[..i - 1], sep);
        assert parts[..i][1..] == tail[..i - 1];
        assert Join(parts[..i], sep) == a + j;
        ConcatAssoc(a, j + sep, x);
        ConcatAssoc(a, j, sep);
      }
    }
  }

  /** A separator-terminated join of parts in which `p` can never start. */
  lemma {:induction false} ClearJoin(parts: seq<string>, sep: string, p: string)
    requires parts != []
    requires forall k | 0 <= k < |parts| :: Clear(parts[k] + sep, p)
    ensures Clear(Join(parts, sep) + sep, p)
  {
    if |parts| > 1 {
      var j := Join(parts[1..], sep);
      ClearJoin(parts[1..], sep, p);
      ClearConcat(parts[0] + sep, j + sep, p);
      ConcatAssoc(parts[0] + sep, j, sep);
    }
  }

  /** A joined text lacks `p` when every part, with its separator, is
      clear of it. */
  lemma {:induction false} NotContainsJoin(parts: seq<string>, sep: string, p: string)
    requires parts != [] && p != []
    requires forall k | 0 <= k < |parts| :: Clear(parts[k] + sep, p)
    ensures !Contains(Join(parts, sep), p)
  {
    var n := |parts| - 1;
    ClearNotContains(parts[n] + sep, p);
    NotContainsPrefix(parts[n], sep, p);
    if n > 0 {
      JoinAt(parts, n, sep);
      var pre := Join(parts[..n], sep) + sep;
      assert parts[n] + JoinTail(parts, n, sep) == parts[n];
      ClearJoin(parts[..n], sep, p);
      ClearNoStart(pre, parts[n], p);
      ContainsSkip(pre, parts[n], p);
    }
  }

  /** Text that lacks `p` lacks every extension of it. */
  lemma {:induction false} NotContainsExtension(s: string, p: string, q: string)
    requires !Contains(s, p)
    decreases |s|
    ensures !Contains(s, p + q)
  {
    if StartsWith(s, p + q) {
      StartsWithPrefix(s, p, q);
    }
    if s != [] {
      NotContainsExtension(s[1..], p, q);
    }
  }

  /** Text that lacks `p` has no prefix that contains it. */
  lemma {:induction false} NotContainsPrefix(a: string, b: string, p: string)
    requires !Contains(a + b, p)
    decreases |a|
    ensures !Contains(a, p)
  {
    if a != [] {
      assert (a + b)[1..] == a[1..] + b;
      NotContainsPrefix(a[1..], b, p);
    }
  }
}

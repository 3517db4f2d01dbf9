/** The two whitespace conventions the system mixes: Python's `str.isspace`
    (used by `str.strip()` and by the `\s` class of `re` on text) and the
    WhiteSpace and LineTerminator characters JavaScript's
    `String.prototype.trim` removes. */
module Whitespace {

  datatype Convention = Python | JavaScript

  predicate IsSpace(c: char, conv: Convention)
  {
    match conv
    case Python =>
      ('\t' <= c <= '\r') || ('\U{1c}' <= c <= ' ') || c == '\U{85}' || c == '\U{a0}'
      || c == '\U{1680}' || ('\U{2000}' <= c <= '\U{200a}') || c == '\U{2028}' || c == '\U{2029}'
      || c == '\U{202f}' || c == '\U{205f}' || c == '\U{3000}'
    case JavaScript =>
      ('\t' <= c <= '\r') || c == ' ' || c == '\U{a0}'
      || c == '\U{1680}' || ('\U{2000}' <= c <= '\U{200a}') || c == '\U{2028}' || c == '\U{2029}'
      || c == '\U{202f}' || c == '\U{205f}' || c == '\U{3000}' || c == '\U{feff}'
  }

  predicate AllSpace(s: string, conv: Convention)
  {
    forall k | 0 <= k < |s| :: IsSpace(s[k], conv)
  }

  /** Neither end of `s` is whitespace. */
  predicate Trimmed(s: string, conv: Convention)
  {
    s == [] || (!IsSpace(s[0], conv) && !IsSpace(s[|s| - 1], conv))
  }

  /** Removes leading whitespace (see `TrimStartSpec`). */
  function TrimStart(s: string, conv: Convention): (r: string)
    decreases |s|
    ensures |r| <= |s|
  {
    if s != [] && IsSpace(s[0], conv) then TrimStart(s[1..], conv) else s
  }

  /** Removes trailing whitespace (see `TrimEndSpec`). */
  function TrimEnd(s: string, conv: Convention): (r: string)
    decreases |s|
    ensures |r| <= |s|
  {
    if s != [] && IsSpace(s[|s| - 1], conv) then TrimEnd(s[..|s| - 1], conv) else s
  }

  /** Python's `s.strip()` (conv = Python) and JavaScript's `s.trim()`
      (conv = JavaScript); see `TrimSpec`. */
  function Trim(s: string, conv: Convention): (r: string)
    ensures |r| <= |s|
  {
    TrimEnd(TrimStart(s, conv), conv)
  }

  /** Leading trimming keeps a suffix, drops only whitespace, and stops at
      the first character that is not whitespace. */
  lemma {:induction false} TrimStartSpec(s: string, conv: Convention)
    decreases |s|
    ensures var r := TrimStart(s, conv);
      && r == s[|s| - |r|..]
      && AllSpace(s[..|s| - |r|], conv)
      && (r == [] || !IsSpace(r[0], conv))
  {
    if s != [] && IsSpace(s[0], conv) {
      TrimStartSpec(s[1..], conv);
      var r := TrimStart(s, conv);
      assert s[1..][..|s| - 1 - |r|] == s[1..|s| - |r|];
    }
  }

  /** Trailing trimming keeps a prefix, drops only whitespace, and stops at
      the last character that is not whitespace. */
  lemma {:induction false} TrimEndSpec(s: string, conv: Convention)
    decreases |s|
    ensures var r := TrimEnd(s, conv);
      && r == s[..|r|]
      && AllSpace(s[|r|..], conv)
      && (r == [] || !IsSpace(r[|r| - 1], conv))
  {
    if s != [] && IsSpace(s[|s| - 1], conv) {
      var t := s[..|s| - 1];
      TrimEndSpec(t, conv);
      var r := TrimEnd(s, conv);
      assert r == TrimEnd(t, conv);
      assert r == t[..|r|] == s[..|r|];
      forall k | 0 <= k < |s| - |r|
        ensures IsSpace(s[|r|..][k], conv)
      {
        if |r| + k < |t| {
          assert s[|r|..][k] == t[|r|..][k];
        }
      }
    }
  }

  /** Trimming keeps a slice of the text, everything dropped on either side
      is whitespace, and neither end of the result is whitespace. */
  lemma TrimSpec(s: string, conv: Convention)
    ensures var r := Trim(s, conv);
      var i := |s| - |TrimStart(s, conv)|;
      && i + |r| <= |s|
      && r == s[i..i + |r|]
      && AllSpace(s[..i], conv)
      && AllSpace(s[i + |r|..], conv)
      && Trimmed(r, conv)
  {
    var t := TrimStart(s, conv);
    var r := Trim(s, conv);
    var i := |s| - |t|;
    TrimStartSpec(s, conv);
    TrimEndSpec(t, conv);
    assert s[i + |r|..] == t[|r|..];
    if r != [] {
      assert r[0] == t[0];
    }
  }

  /** A text that does not begin with whitespace is left alone by leading
      trimming. */
  lemma {:induction false} TrimStartOfTrimmed(s: string, conv: Convention)
    requires s == [] || !IsSpace(s[0], conv)
    ensures TrimStart(s, conv) == s
  {
  }

  /** A text whose ends are not whitespace is left unchanged. */
  lemma {:induction false} TrimOfTrimmed(s: string, conv: Convention)
    requires Trimmed(s, conv)
    ensures Trim(s, conv) == s
  {
    TrimStartOfTrimmed(s, conv);
  }

  /** Trimming twice is trimming once. */
  lemma {:induction false} TrimIdempotent(s: string, conv: Convention)
    ensures Trim(Trim(s, conv), conv) == Trim(s, conv)
  {
    TrimSpec(s, conv);
    TrimOfTrimmed(Trim(s, conv), conv);
  }

  lemma {:induction false} TrimStartSkipsSpace(a: string, s: string, conv: Convention)
    requires AllSpace(a, conv)
    decreases |a|
    ensures TrimStart(a + s, conv) == TrimStart(s, conv)
  {
    if a == [] {
      assert a + s == s;
    } else {
      assert (a + s)[0] == a[0];
      assert (a + s)[1..] == a[1..] + s;
      TrimStartSkipsSpace(a[1..], s, conv);
    }
  }

  lemma {:induction false} TrimEndSkipsSpace(s: string, b: string, conv: Convention)
    requires AllSpace(b, conv)
    decreases |b|
    ensures TrimEnd(s + b, conv) == TrimEnd(s, conv)
  {
    if b == [] {
      assert s + b == s;
    } else {
      var b' := b[..|b| - 1];
      assert (s + b)[|s + b| - 1] == b[|b| - 1];
      assert (s + b)[..|s + b| - 1] == s + b';
      TrimEndSkipsSpace(s, b', conv);
    }
  }

  lemma {:induction false} TrimStartAppendSpace(s: string, b: string, conv: Convention)
    requires AllSpace(b, conv)
    decreases |s|
    ensures TrimStart(s + b, conv) == if TrimStart(s, conv) == [] then [] else TrimStart(s, conv) + b
  {
    if s == [] {
      assert s + b == b;
      assert b + [] == b;
      TrimStartSkipsSpace(b, [], conv);
    } else if IsSpace(s[0], conv) {
      assert (s + b)[0] == s[0];
      assert (s + b)[1..] == s[1..] + b;
      TrimStartAppendSpace(s[1..], b, conv);
    } else {
      assert (s + b)[0] == s[0];
      assert TrimStart(s, conv) == s;
      assert TrimStart(s + b, conv) == s + b;
    }
  }

  /** Whitespace after a text does not change what trimming gives. */
  lemma {:induction false} TrimSpaceSuffix(s: string, b: string, conv: Convention)
    requires AllSpace(b, conv)
    ensures Trim(s + b, conv) == Trim(s, conv)
  {
    var t := TrimStart(s, conv);
    TrimStartAppendSpace(s, b, conv);
    if t != [] {
      TrimEndSkipsSpace(t, b, conv);
    }
  }

  /** Whitespace around a text does not change what trimming gives. */
  lemma {:induction false} TrimPadded(a: string, s: string, b: string, conv: Convention)
    requires AllSpace(a, conv) && AllSpace(b, conv)
    ensures Trim(a + s + b, conv) == Trim(s, conv)
  {
    assert a + s + b == a + (s + b);
    TrimStartSkipsSpace(a, s + b, conv);
    TrimSpaceSuffix(s, b, conv);
  }

  /** The characters Python treats as whitespace but JavaScript's `trim`
      keeps. */
  predicate PythonOnlySpace(c: char)
  {
    IsSpace(c, Python) && !IsSpace(c, JavaScript)
  }

  /** A JavaScript-trimmed text is also Python-trimmed unless it holds one of
      the few characters the two conventions disagree on. */
  lemma {:induction false} JsTrimIsPyTrimmed(s: string)
    requires forall k | 0 <= k < |s| :: !PythonOnlySpace(s[k])
    ensures Trimmed(Trim(s, JavaScript), Python)
  {
    TrimSpec(s, JavaScript);
    var r := Trim(s, JavaScript);
    var i := |s| - |TrimStart(s, JavaScript)|;
    if r != [] {
      assert r[0] == s[i];
      assert r[|r| - 1] == s[i + |r| - 1];
    }
  }
}

/** What `save_image` prepares before the image is encoded: the parameters
    text with its `\n` escapes decoded, the colour mode the image is
    converted to, and the ordered list of text chunks written into the
    PNG. */
module Writer {
  import opened Strings
  import opened Images

  /** The key the parameters text is stored under. */
  const ParametersKey := "parameters"

  /** The two characters backslash and `n`. */
  const EscapedNewline := "\\n"

  // ---------------------------------------------------------------------
  // Escape decoding.

  /** `parameters.replace('\\n', '\n')`: every backslash-`n` pair, left to
      right, becomes a newline. */
  function Unescape(s: string): (r: string)
    ensures |r| <= |s|
  {
    Replace(s, EscapedNewline, "\n")
  }

  /** Python's `p in c + t`: at the head, or further on. */
  lemma ContainsCons(c: char, t: string, p: string)
    ensures Contains([c] + t, p) <==> StartsWith([c] + t, p) || Contains(t, p)
  {
    assert ([c] + t)[1..] == t;
  }

  /** The decoded text starts with a newline or with the text's own first
      character. */
  lemma UnescapeHead(s: string)
    requires s != []
    ensures Unescape(s) != [] && (Unescape(s)[0] == '\n' || Unescape(s)[0] == s[0])
  {
  }

  /** No backslash-`n` pair is left after decoding: a newline never starts
      one, and a backslash that was kept was not followed by `n`. */
  lemma {:induction false} UnescapeLeavesNoPair(s: string)
    decreases |s|
    ensures !Contains(Unescape(s), EscapedNewline)
  {
    if StartsWith(s, EscapedNewline) {
      UnescapeLeavesNoPair(s[2..]);
      ContainsCons('\n', Unescape(s[2..]), EscapedNewline);
    } else if s != [] {
      var t := Unescape(s[1..]);
      UnescapeLeavesNoPair(s[1..]);
      ContainsCons(s[0], t, EscapedNewline);
      if s[0] == '\\' && t != [] {
        UnescapeHead(s[1..]);
        assert s[..2] == [s[0], s[1]];
      }
    }
  }

  /** A text without a pair is left as it is. */
  lemma UnescapeWithoutPair(s: string)
    requires !Contains(s, EscapedNewline)
    ensures Unescape(s) == s
  {
    ReplaceWithout(s, EscapedNewline, "\n");
  }

  /** The first pair becomes a newline: the text before it is kept and the
      text after it is decoded in turn. With `UnescapeWithoutPair` this
      determines the decoding of every text. */
  lemma UnescapeAtPair(a: string, b: string)
    requires !Contains(a, EscapedNewline)
    ensures Unescape(a + (EscapedNewline + b)) == a + ("\n" + Unescape(b))
  {
    PairNoStart(a, b);
    ReplaceAt(a, EscapedNewline, "\n", b);
  }

  /** A pair cannot start inside a text that holds none, even where it
      meets a following pair: the pair's second character is not a
      backslash. */
  lemma {:induction false} PairNoStart(a: string, b: string)
    requires !Contains(a, EscapedNewline)
    decreases |a|
    ensures NoStartIn(a, EscapedNewline + b, EscapedNewline)
  {
    if a != [] {
      var s := a + (EscapedNewline + b);
      assert !StartsWith(a, EscapedNewline);
      assert !StartsWith(s, EscapedNewline) by {
        if |a| >= 2 {
          assert s[..2] == a[..2];
        } else {
          assert s[1] == '\\';
        }
      }
      assert a[1..] + (EscapedNewline + b) == s[1..];
      PairNoStart(a[1..], b);
    }
  }

  /** Decoding changes a text exactly when it holds a pair. */
  lemma UnescapeFixedPoints(s: string)
    ensures Unescape(s) == s <==> !Contains(s, EscapedNewline)
  {
    UnescapeLeavesNoPair(s);
    if !Contains(s, EscapedNewline) {
      UnescapeWithoutPair(s);
    }
  }

  /** Decoding twice is decoding once. */
  lemma UnescapeIdempotent(s: string)
    ensures Unescape(Unescape(s)) == Unescape(s)
  {
    UnescapeLeavesNoPair(s);
    UnescapeWithoutPair(Unescape(s));
  }

  // ---------------------------------------------------------------------
  // Colour mode.

  /** The mode the image is saved in: "RGB" and "RGBA" are kept; any other
      mode becomes "RGBA" when its name holds the letter `A` and "RGB"
      otherwise. */
  function TargetMode(mode: string): (r: string)
    ensures r == "RGB" || r == "RGBA"
    ensures 'A' in r <==> 'A' in mode
    ensures (mode == "RGB" || mode == "RGBA") ==> r == mode
  {
    if mode == "RGB" || mode == "RGBA" then mode
    else if 'A' in mode then "RGBA"
    else "RGB"
  }

  /** Normalising a normalised mode changes nothing. */
  lemma TargetModeIdempotent(mode: string)
    ensures TargetMode(TargetMode(mode)) == TargetMode(mode)
  {
  }

  // ---------------------------------------------------------------------
  // Text chunks.

  /** The entries the loop carries over: those whose key is not
      "parameters" and whose value is a string, in their original order. */
  function Carried(info: Info): (r: seq<(string, string)>)
    ensures |r| <= |info|
  {
    if info == [] then []
    else
      var rest := Carried(info[1..]);
      if info[0].0 != ParametersKey && info[0].1.Text? then [(info[0].0, info[0].1.text)] + rest
      else rest
  }

  /** The chunk list `save_image` writes for a parameters text: never
      empty, and at most one chunk more than the image has entries. */
  function Chunks(parameters: string, info: Info): (r: seq<(string, string)>)
    ensures 1 <= |r| <= |info| + 1
  {
    [(ParametersKey, parameters)] + Carried(info)
  }

  /** PIL's `PngInfo`: the text chunks added so far, in order. */
  class PngInfo {
    var chunks: seq<(string, string)>

    constructor()
      ensures chunks == []
    {
      chunks := [];
    }

    /** `add_text(key, value)`. */
    method AddText(key: string, value: string)
      modifies this
      ensures chunks == old(chunks) + [(key, value)]
    {
      chunks := chunks + [(key, value)];
    }
  }

  /** `save_image` up to the encoder: decodes the escapes, picks the mode
      and fills a fresh `PngInfo`, the parameters first and then every
      other string entry of the image's `info`. */
  method SaveImage(img: Image, raw: string) returns (mode: string, pnginfo: PngInfo)
    ensures fresh(pnginfo)
    ensures mode == TargetMode(img.mode)
    ensures pnginfo.chunks == Chunks(Unescape(raw), img.info)
  {
    var parameters := Unescape(raw);
    mode := TargetMode(img.mode);
    pnginfo := new PngInfo();
    pnginfo.AddText(ParametersKey, parameters);
    var i := 0;
    while i < |img.info|
      invariant 0 <= i <= |img.info|
      invariant pnginfo.chunks == [(ParametersKey, parameters)] + Carried(img.info[..i])
    {
      var (key, value) := img.info[i];
      CarriedConcat(img.info[..i], [img.info[i]]);
      assert img.info[..i + 1] == img.info[..i] + [img.info[i]];
      if key != ParametersKey && value.Text? {
        pnginfo.AddText(key, value.text);
      }
      i := i + 1;
    }
    assert img.info[..i] == img.info;
  }

  /** Carrying over a concatenation carries each part, in order. */
  lemma {:induction false} CarriedConcat(a: Info, b: Info)
    decreases |a|
    ensures Carried(a + b) == Carried(a) + Carried(b)
  {
    if a != [] {
      assert (a + b)[0] == a[0] && (a + b)[1..] == a[1..] + b;
      CarriedConcat(a[1..], b);
    } else {
      assert a + b == b;
    }
  }

  /** A chunk is carried over exactly when the image has an entry with that
      key and that string value, and the key is not "parameters". */
  lemma {:induction false} CarriedMember(info: Info, key: string, value: string)
    decreases |info|
    ensures (key, value) in Carried(info) <==> key != ParametersKey && (key, Text(value)) in info
  {
    if info != [] {
      CarriedMember(info[1..], key, value);
      assert info == [info[0]] + info[1..];
    }
  }

  /** Only the first chunk is keyed "parameters", and it holds the decoded
      text. */
  lemma ParametersChunkFirst(parameters: string, info: Info)
    ensures Chunks(parameters, info)[0] == (ParametersKey, parameters)
    ensures forall k | 1 <= k < |Chunks(parameters, info)| :: Chunks(parameters, info)[k].0 != ParametersKey
  {
    var r := Chunks(parameters, info);
    forall k | 1 <= k < |r|
      ensures r[k].0 != ParametersKey
    {
      assert r[k] in Carried(info);
      CarriedMember(info, r[k].0, r[k].1);
    }
  }

  /** Carrying over what was carried over changes nothing. */
  lemma {:induction false} CarriedOfCarried(info: Info)
    decreases |info|
    ensures Carried(FromChunks(Carried(info))) == Carried(info)
  {
    if info != [] {
      CarriedOfCarried(info[1..]);
      var rest := Carried(info[1..]);
      if info[0].0 != ParametersKey && info[0].1.Text? {
        var head := (info[0].0, info[0].1.text);
        assert ([head] + rest)[1..] == rest;
      }
    }
  }

  /** Saving an image that was itself saved this way writes the same chunks
      after the new parameters text: the old parameters chunk is replaced
      and nothing else is lost or repeated. */
  lemma ResaveKeepsChunks(parameters: string, earlier: string, info: Info)
    ensures Chunks(parameters, FromChunks(Chunks(earlier, info))) == Chunks(parameters, info)
  {
    var saved := Chunks(earlier, info);
    assert FromChunks(saved) == [(ParametersKey, Text(earlier))] + FromChunks(Carried(info));
    CarriedConcat([(ParametersKey, Text(earlier))], FromChunks(Carried(info)));
    CarriedOfCarried(info);
  }
}

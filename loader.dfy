/** What `load_image` reports about an uploaded image: its size, a text
    dump of its string metadata with long values cut short, and the
    parameters text parsed into fields. */
module Loader {
  import opened Strings
  import opened Images
  import opened Parser
  import opened Composer
  import opened RoundTrip
  import opened Writer

  /** How many characters of a value the dump shows before cutting it. */
  const DisplayLimit := 1000

  const Ellipsis := "..."

  /** The text shown for one value: the value itself when it is at most
      1000 characters long, otherwise its first 1000 characters and "...". */
  function Display(value: string): (r: string)
    ensures |r| <= DisplayLimit + |Ellipsis|
    ensures |value| <= DisplayLimit ==> r == value
    ensures |value| > DisplayLimit ==> StartsWith(r, value[..DisplayLimit]) && |r| == DisplayLimit + |Ellipsis|
    ensures |value| > DisplayLimit ==> r[DisplayLimit..] == Ellipsis
  {
    if |value| > DisplayLimit then value[..DisplayLimit] + Ellipsis else value
  }

  /** Cutting a value that was already cut gives the same text. */
  lemma DisplayIdempotent(value: string)
    ensures Display(Display(value)) == Display(value)
  {
    if |value| > DisplayLimit {
      var r := Display(value);
      assert r[..DisplayLimit] == value[..DisplayLimit];
    }
  }

  /** A value is shown unchanged exactly when it is short, or when it is
      1000 characters followed by "..." already. */
  lemma DisplayUnchanged(value: string)
    ensures Display(value) == value <==>
      |value| <= DisplayLimit || (|value| == DisplayLimit + |Ellipsis| && value[DisplayLimit..] == Ellipsis)
  {
    if |value| > DisplayLimit && Display(value) == value {
      assert value[DisplayLimit..] == Display(value)[DisplayLimit..];
    }
    if |value| == DisplayLimit + |Ellipsis| && value[DisplayLimit..] == Ellipsis {
      assert value == value[..DisplayLimit] + value[DisplayLimit..];
    }
  }

  /** One line of the dump: `f"{key}: {display}"`. */
  function Line(key: string, value: string): string
  {
    key + ": " + Display(value)
  }

  /** The `metadata_parts` list: a line for each string entry, in order. */
  function DumpParts(info: Info): (parts: seq<string>)
    ensures |parts| <= |info|
  {
    if info == [] then []
    else
      var rest := DumpParts(info[1..]);
      if info[0].1.Text? then [Line(info[0].0, info[0].1.text)] + rest else rest
  }

  /** `'\n\n'.join(metadata_parts)`. */
  function Dump(info: Info): string
  {
    Join(DumpParts(info), "\n\n")
  }

  /** The `parsed` field: the parameters entry parsed when there is one.
      A value that is not a string makes the parser fail, and its failure
      handler leaves the dictionary empty. */
  function ParsedOf(info: Info): (r: Params)
    ensures r.prompt.Some? <==> Lookup(info, ParametersKey).Some? && Lookup(info, ParametersKey).value.Text?
    ensures r.prompt.None? ==> r == NoParams
  {
    match Lookup(info, ParametersKey)
    case Some(Text(t)) => Parse(t)
    case Some(NonText) => NoParams
    case None => NoParams
  }

  /** The response body. */
  datatype Loaded = Loaded(width: nat, height: nat, metadata: string, parsed: Params)

  /** `load_image` after decoding: builds the dump line by line and parses
      the parameters entry. */
  method LoadImage(img: Image) returns (result: Loaded)
    ensures result.width == img.width && result.height == img.height
    ensures result.metadata == Dump(img.info)
    ensures result.parsed == ParsedOf(img.info)
  {
    result := Loaded(img.width, img.height, "", NoParams);
    if img.info != [] {
      var parts: seq<string> := [];
      var i := 0;
      while i < |img.info|
        invariant 0 <= i <= |img.info|
        invariant parts == DumpParts(img.info[..i])
      {
        var (key, value) := img.info[i];
        DumpPartsConcat(img.info[..i], [img.info[i]]);
        assert img.info[..i + 1] == img.info[..i] + [img.info[i]];
        if value.Text? {
          parts := parts + [Line(key, value.text)];
        }
        i := i + 1;
      }
      assert img.info[..i] == img.info;
      result := result.(metadata := Join(parts, "\n\n"));
      var found := Lookup(img.info, ParametersKey);
      if found.Some? {
        result := result.(parsed := if found.value.Text? then Parse(found.value.text) else NoParams);
      }
    }
  }

  /** The dump of a concatenation lists the lines of each part, in order. */
  lemma {:induction false} DumpPartsConcat(a: Info, b: Info)
    decreases |a|
    ensures DumpParts(a + b) == DumpParts(a) + DumpParts(b)
  {
    if a != [] {
      assert (a + b)[0] == a[0] && (a + b)[1..] == a[1..] + b;
      DumpPartsConcat(a[1..], b);
    } else {
      assert a + b == b;
    }
  }

  /** Each line of the dump comes from a string entry, and each string
      entry has its line. */
  lemma {:induction false} DumpPartsMember(info: Info, key: string, value: string)
    decreases |info|
    ensures (key, Text(value)) in info ==> Line(key, value) in DumpParts(info)
    ensures forall p | p in DumpParts(info) :: exists k | 0 <= k < |info| ::
      info[k].1.Text? && p == Line(info[k].0, info[k].1.text)
  {
    if info != [] {
      DumpPartsMember(info[1..], key, value);
      assert info == [info[0]] + info[1..];
      forall p | p in DumpParts(info)
        ensures exists k | 0 <= k < |info| :: info[k].1.Text? && p == Line(info[k].0, info[k].1.text)
      {
        if p in DumpParts(info[1..]) {
          var k :| 0 <= k < |info[1..]| && info[1..][k].1.Text? && p == Line(info[1..][k].0, info[1..][k].1.text);
          assert info[k + 1] == info[1..][k];
        } else {
          assert info[0].1.Text? && p == Line(info[0].0, info[0].1.text);
        }
      }
    }
  }

  /** Loading an image saved with a parameters text parses that text. */
  lemma SaveThenLoad(parameters: string, info: Info)
    ensures ParsedOf(FromChunks(Chunks(parameters, info))) == Parse(parameters)
  {
    var saved := FromChunks(Chunks(parameters, info));
    assert saved[0] == (ParametersKey, Text(parameters));
  }

  /** The editor's whole cycle: the form's text is composed, sent, decoded,
      saved, and loaded again; the fields the round trip recovers come
      back, provided the composed text holds no backslash-`n` pair for the
      decoding to change. */
  lemma ComposeSaveLoad(f: Form, info: Info)
    requires Recoverable(ReadForm(f))
    requires !Contains(Compose(f), EscapedNewline)
    ensures ParsedOf(FromChunks(Chunks(Unescape(Compose(f)), info))) == Recovered(ReadForm(f))
  {
    UnescapeWithoutPair(Compose(f));
    SaveThenLoad(Compose(f), info);
    ComposeThenParse(f);
  }
}

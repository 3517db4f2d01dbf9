/** `parse_a1111_params`: reading the "generation parameters" text
    convention back into its fields. The text is cut at the first
    "Negative prompt:" label; what follows it is cut again at the earliest
    settings marker; each setting is then looked up by its own regular
    expression over the settings tail. */
module Parser {
  import opened Strings
  import opened Whitespace
  import opened Regex

  /** The `parsed` dictionary: each of its eight keys present (Some) or
      absent (None). No other key is ever written. */
  datatype Params = Params(
    prompt: Option<string>,
    negative: Option<string>,
    steps: Option<string>,
    sampler: Option<string>,
    cfg: Option<string>,
    seed: Option<string>,
    model: Option<string>,
    modelHash: Option<string>)

  /** The empty dictionary `{}`. */
  const NoParams := Params(None, None, None, None, None, None, None, None)

  const NegativeLabel := "Negative prompt:"

  /** `settings_markers`, in the order the loop visits them. */
  const SettingsMarkers := ["Steps:", "Sampler:", "CFG"]

  /** Python's `str.strip()`. */
  function Strip(s: string): string
  {
    Trim(s, Python)
  }

  function StripOption(m: Option<string>): Option<string>
  {
    match m
    case Some(g) => Some(Strip(g))
    case None => None
  }

  /** The smallest position at which one of `markers` occurs in `rest`, or
      `len(rest)` when none does, folded over the markers from first to last
      as the source loop does. */
  function EarliestMarker(rest: string, markers: seq<string>): (start: nat)
    ensures start <= |rest|
  {
    if markers == [] then |rest|
    else
      var start := EarliestMarker(rest, markers[..|markers| - 1]);
      var pos := Find(rest, markers[|markers| - 1]);
      if pos != -1 && pos < start then pos else start
  }

  function SettingsStart(rest: string): (start: nat)
    ensures start <= |rest|
  {
    EarliestMarker(rest, SettingsMarkers)
  }

  /** The body of `if settings:` — the six independent searches. */
  function ExtractSettings(settings: string, p: Params): (r: Params)
    ensures r.prompt == p.prompt && r.negative == p.negative
  {
    if settings == [] then p
    else
      p.(steps := Search(settings, "Steps:", Digit),
         sampler := StripOption(Search(settings, "Sampler:", NotComma)),
         cfg := Search(settings, "CFG scale:", DigitOrDot),
         seed := Search(settings, "Seed:", Digit),
         model := StripOption(Search(settings, "Model:", NotComma)),
         modelHash := Search(settings, "Model hash:", HexDigit))
  }

  /** What the text gives when the label occurs: the trimmed text before it
      is the prompt, the text after it (up to any further label) holds the
      negative prompt and then the settings. */
  function ParseLabelled(before: string, rest: string): (r: Params)
    ensures r.prompt.Some? && r.negative.Some?
  {
    var start := SettingsStart(rest);
    ExtractSettings(rest[start..],
      NoParams.(prompt := Some(Strip(before)), negative := Some(Strip(rest[..start]))))
  }

  /** `parse_a1111_params` on a string. */
  function Parse(text: string): Params
  {
    var parts := Split(text, NegativeLabel);
    if |parts| >= 2 then ParseLabelled(parts[0], parts[1])
    else NoParams.(prompt := Some(Strip(text)))
  }

  // ---------------------------------------------------------------------
  // The source's own step-by-step form.

  /** The loop that lowers `settings_start` to the earliest marker. */
  method FindSettingsStart(rest: string) returns (start: nat)
    ensures start == SettingsStart(rest)
    ensures start <= |rest|
  {
    start := |rest|;
    for i := 0 to |SettingsMarkers|
      invariant start == EarliestMarker(rest, SettingsMarkers[..i])
    {
      ghost var prefix := SettingsMarkers[..i + 1];
      assert prefix[..|prefix| - 1] == SettingsMarkers[..i];
      assert prefix[|prefix| - 1] == SettingsMarkers[i];
      var pos := Find(rest, SettingsMarkers[i]);
      if pos != -1 && pos < start {
        start := pos;
      }
      assert start == EarliestMarker(rest, prefix);
    }
    assert SettingsMarkers[..|SettingsMarkers|] == SettingsMarkers;
  }

  /** `parse_a1111_params`, filling the dictionary one key at a time. */
  method ParseParams(text: string) returns (parsed: Params)
    ensures parsed == Parse(text)
  {
    parsed := NoParams;
    var parts := Split(text, NegativeLabel);
    var settings: string;
    if |parts| >= 2 {
      parsed := parsed.(prompt := Some(Strip(parts[0])));
      var rest := parts[1];
      var start := FindSettingsStart(rest);
      parsed := parsed.(negative := Some(Strip(rest[..start])));
      settings := rest[start..];
    } else {
      parsed := parsed.(prompt := Some(Strip(text)));
      settings := "";
    }
    if settings != [] {
      var steps := Search(settings, "Steps:", Digit);
      if steps.Some? { parsed := parsed.(steps := steps); }
      var sampler := Search(settings, "Sampler:", NotComma);
      if sampler.Some? { parsed := parsed.(sampler := Some(Strip(sampler.value))); }
      var cfg := Search(settings, "CFG scale:", DigitOrDot);
      if cfg.Some? { parsed := parsed.(cfg := cfg); }
      var seed := Search(settings, "Seed:", Digit);
      if seed.Some? { parsed := parsed.(seed := seed); }
      var model := Search(settings, "Model:", NotComma);
      if model.Some? { parsed := parsed.(model := Some(Strip(model.value))); }
      var hash := Search(settings, "Model hash:", HexDigit);
      if hash.Some? { parsed := parsed.(modelHash := hash); }
    }
  }

  // ---------------------------------------------------------------------
  // Properties.

  /** The fold finds the earliest marker: none of them starts before it ... */
  lemma {:induction false} EarliestMarkerIsEarliest(rest: string, markers: seq<string>)
    ensures forall i | 0 <= i < |markers| :: NoStartBefore(rest, markers[i], EarliestMarker(rest, markers))
  {
    if markers != [] {
      var init := markers[..|markers| - 1];
      var m := markers[|markers| - 1];
      EarliestMarkerIsEarliest(rest, init);
      var start := EarliestMarker(rest, init);
      var start' := EarliestMarker(rest, markers);
      var pos := Find(rest, m);
      assert start' <= start;
      forall i | 0 <= i < |markers|
        ensures NoStartBefore(rest, markers[i], start')
      {
        if i < |init| {
          assert markers[i] == init[i];
          assert NoStartBefore(rest, init[i], start);
        } else if pos == -1 {
          forall j | 0 <= j < start' && j <= |rest| ensures !StartsWith(rest[j..], m) {
            if StartsWith(rest[j..], m) {
              ContainsAt(rest, m, j);
            }
          }
        }
      }
    }
  }

  /** ... and, unless it is the end of `rest`, one of them starts there. */
  lemma {:induction false} EarliestMarkerFound(rest: string, markers: seq<string>)
    ensures var start := EarliestMarker(rest, markers);
      start < |rest| ==> exists i | 0 <= i < |markers| :: StartsWith(rest[start..], markers[i])
  {
    if markers != [] {
      var init := markers[..|markers| - 1];
      var m := markers[|markers| - 1];
      EarliestMarkerFound(rest, init);
      var start := EarliestMarker(rest, init);
      var start' := EarliestMarker(rest, markers);
      var pos := Find(rest, m);
      if pos != -1 && pos < start {
        assert StartsWith(rest[start'..], markers[|markers| - 1]);
      } else if start' < |rest| {
        var i :| 0 <= i < |init| && StartsWith(rest[start..], init[i]);
        assert markers[i] == init[i];
      }
    }
  }

  /** ... so it is the end of `rest` exactly when no marker occurs. */
  lemma EarliestMarkerAtEnd(rest: string, markers: seq<string>)
    requires forall i | 0 <= i < |markers| :: markers[i] != []
    ensures EarliestMarker(rest, markers) == |rest| <==>
      forall i | 0 <= i < |markers| :: !Contains(rest, markers[i])
  {
    var start := EarliestMarker(rest, markers);
    EarliestMarkerIsEarliest(rest, markers);
    EarliestMarkerFound(rest, markers);
    if start < |rest| {
      var i :| 0 <= i < |markers| && StartsWith(rest[start..], markers[i]);
      ContainsAt(rest, markers[i], start);
    } else {
      forall i | 0 <= i < |markers|
        ensures !Contains(rest, markers[i])
      {
        NoStartBeforeNotContains(rest, markers[i], |rest|);
        assert rest[..|rest|] == rest;
      }
    }
  }

  /** `negative` ends and the settings tail begins at the earliest of
      "Steps:", "Sampler:" and "CFG": none of them starts before it, ... */
  lemma {:induction false} SettingsStartIsEarliest(rest: string)
    ensures var start := SettingsStart(rest);
      && NoStartBefore(rest, "Steps:", start)
      && NoStartBefore(rest, "Sampler:", start)
      && NoStartBefore(rest, "CFG", start)
  {
    var ms := SettingsMarkers;
    EarliestMarkerIsEarliest(rest, ms);
    assert NoStartBefore(rest, ms[0], SettingsStart(rest));
    assert NoStartBefore(rest, ms[1], SettingsStart(rest));
    assert NoStartBefore(rest, ms[2], SettingsStart(rest));
  }

  /** ... it is the end of `rest` exactly when none of them occurs ... */
  lemma {:induction false} SettingsStartAtEnd(rest: string)
    ensures SettingsStart(rest) == |rest| <==>
      !Contains(rest, "Steps:") && !Contains(rest, "Sampler:") && !Contains(rest, "CFG")
  {
    var ms := SettingsMarkers;
    EarliestMarkerAtEnd(rest, ms);
    if SettingsStart(rest) == |rest| {
      assert !Contains(rest, ms[0]) && !Contains(rest, ms[1]) && !Contains(rest, ms[2]);
    } else {
      var i :| 0 <= i < |ms| && Contains(rest, ms[i]);
      assert i == 0 || i == 1 || i == 2;
    }
  }

  /** ... and otherwise one of them starts at it. */
  lemma {:induction false} SettingsStartIsAMarker(rest: string)
    requires SettingsStart(rest) < |rest|
    ensures var start := SettingsStart(rest);
      StartsWith(rest[start..], "Steps:") || StartsWith(rest[start..], "Sampler:")
      || StartsWith(rest[start..], "CFG")
  {
    var ms := SettingsMarkers;
    EarliestMarkerFound(rest, ms);
    var i :| 0 <= i < |ms| && StartsWith(rest[SettingsStart(rest)..], ms[i]);
    assert i == 0 || i == 1 || i == 2;
  }

  /** Without the label the whole trimmed text is the prompt and nothing
      else is extracted, even when "Steps:" and the other settings occur. */
  lemma ParseWithoutLabel(text: string)
    requires !Contains(text, NegativeLabel)
    ensures Parse(text) == NoParams.(prompt := Some(Strip(text)))
  {
    SplitHasTwoParts(text, NegativeLabel);
  }

  /** A prompt is always produced, and a negative prompt exactly when the
      label occurs. */
  lemma NegativeIffLabel(text: string)
    ensures Parse(text).prompt.Some?
    ensures Parse(text).negative.Some? <==> Contains(text, NegativeLabel)
  {
    SplitHasTwoParts(text, NegativeLabel);
  }

  /** Splitting on the label at its first occurrence. */
  lemma SplitAtFirstLabel(a: string, r: string)
    requires !Contains(a, NegativeLabel)
    ensures Split(a + NegativeLabel + r, NegativeLabel) == [a] + Split(r, NegativeLabel)
  {
    var L := NegativeLabel;
    ConcatAssoc(a, L, r);
    StartsWithConcat(L, r);
    NoStartBeforeLabel(a, L, r);
    FindSkip(a, L + r, L);
    assert (a + (L + r))[|a| + |L|..] == r;
    assert (a + (L + r))[..|a|] == a;
  }

  /** With the label present, the prompt is the trimmed text before its first
      occurrence, and everything else comes from the text between it and
      the next occurrence (or the end). */
  lemma ParseWithLabel(a: string, b: string, c: string)
    requires !Contains(a, NegativeLabel) && !Contains(b, NegativeLabel)
    requires c == [] || StartsWith(c, NegativeLabel)
    ensures Parse(a + NegativeLabel + b + c) == ParseLabelled(a, b)
  {
    var L := NegativeLabel;
    ConcatAssoc(a + L, b, c);
    SplitAtFirstLabel(a, b + c);
    if c == [] {
      assert b + c == b;
      SplitHasTwoParts(b, L);
    } else {
      StartsWithSplit(c, L);
      ConcatAssoc(b, L, c[|L|..]);
      SplitAtFirstLabel(b, c[|L|..]);
    }
  }

  /** The prompt and the negative prompt of a labelled text: the trimmed
      text before the label, and the trimmed text after it up to the
      earliest settings marker. */
  lemma ParseLabelledFields(before: string, rest: string)
    ensures ParseLabelled(before, rest).prompt == Some(Strip(before))
    ensures ParseLabelled(before, rest).negative == Some(Strip(rest[..SettingsStart(rest)]))
  {
  }

  /** Anything after a second "Negative prompt:" is ignored. */
  lemma ParseIgnoresAfterSecondLabel(a: string, b: string, c: string)
    requires !Contains(a, NegativeLabel) && !Contains(b, NegativeLabel)
    ensures Parse(a + NegativeLabel + b + NegativeLabel + c) == Parse(a + NegativeLabel + b)
  {
    var L := NegativeLabel;
    assert a + L + b + L + c == a + L + b + (L + c);
    assert a + L + b == a + L + b + [];
    StartsWithConcat(L, c);
    ParseWithLabel(a, b, L + c);
    ParseWithLabel(a, b, []);
  }

  /** What each extracted field looks like: `steps` and `seed` are non-empty
      digit strings, `cfg` non-empty digits and dots, `model_hash` non-empty
      hex, `sampler` and `model` stripped and free of commas, `prompt` and
      `negative` stripped. */
  lemma ParsedFieldShapes(text: string)
    ensures var p := Parse(text);
      && p.prompt.Some? && Trimmed(p.prompt.value, Python)
      && (p.negative.Some? ==> Trimmed(p.negative.value, Python))
      && (p.steps.Some? ==> p.steps.value != [] && AllIn(p.steps.value, Digit))
      && (p.seed.Some? ==> p.seed.value != [] && AllIn(p.seed.value, Digit))
      && (p.cfg.Some? ==> p.cfg.value != [] && AllIn(p.cfg.value, DigitOrDot))
      && (p.modelHash.Some? ==> p.modelHash.value != [] && AllIn(p.modelHash.value, HexDigit))
      && (p.sampler.Some? ==> Trimmed(p.sampler.value, Python) && AllIn(p.sampler.value, NotComma))
      && (p.model.Some? ==> Trimmed(p.model.value, Python) && AllIn(p.model.value, NotComma))
  {
    var parts := Split(text, NegativeLabel);
    if |parts| >= 2 {
      var rest := parts[1];
      var start := SettingsStart(rest);
      TrimSpec(parts[0], Python);
      TrimSpec(rest[..start], Python);
      var settings := rest[start..];
      if settings != [] {
        var sampler := Search(settings, "Sampler:", NotComma);
        if sampler.Some? {
          TrimSpec(sampler.value, Python);
          TrimKeepsClass(sampler.value, Python, NotComma);
        }
        var model := Search(settings, "Model:", NotComma);
        if model.Some? {
          TrimSpec(model.value, Python);
          TrimKeepsClass(model.value, Python, NotComma);
        }
      }
    } else {
      TrimSpec(text, Python);
    }
  }

  /** A signed number after "Seed:" is not captured: `\d+` cannot start at
      the minus sign, so "Seed: -1" gives no match at that position. */
  lemma SignedSeedNotMatched(w: string, digits: string)
    requires AllSpace(w, Python)
    ensures MatchAt("Seed:" + w + "-" + digits, "Seed:", Digit) == None
  {
    var t := w + "-" + digits;
    ConcatAssoc("Seed:", w, "-");
    ConcatAssoc("Seed:", w + "-", digits);
    MatchSpaceFreeClass("Seed:", t, Digit);
    assert t[..|w|] == w;
    assert t[|w|] == '-';
    RunLengthExact(t, |w|, Space);
  }
}

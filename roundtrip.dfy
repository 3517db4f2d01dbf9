/** Reading back what the page writes: for which forms `parse_a1111_params`
    recovers, field for field, the text `buildMetadata` composes. */
module RoundTrip {
  import opened Strings
  import opened Whitespace
  import opened Regex
  import opened Parser
  import opened Composer

  /** Neither the "Negative prompt:" label nor any of the three markers
      that end the negative prompt occurs in the text. */
  predicate MarkerFree(s: string)
  {
    !Contains(s, NegativeLabel) && !Contains(s, "Steps:") && !Contains(s, "Sampler:") && !Contains(s, "CFG")
  }

  /** None of the labels the parser looks for occurs in the text. ("CFG"
      also rules out "CFG scale:".) */
  predicate LabelFree(s: string)
  {
    MarkerFree(s) && !Contains(s, "Seed:") && !Contains(s, "Model:") && !Contains(s, "Model hash:")
  }

  /** Values read from the form whose text reads back unchanged: a
      non-empty negative prompt; prompt, negative prompt, sampler and model
      without whitespace at their ends; numbers the regular expressions
      take whole; no comma in the two fields read up to a comma; no label
      inside the fields of the settings line; and, in the negative prompt,
      neither the label nor a marker that would end it early. */
  predicate Recoverable(v: Form)
  {
    && v.negative != []
    && Trimmed(v.prompt, Python) && Trimmed(v.negative, Python)
    && Trimmed(v.sampler, Python) && Trimmed(v.model, Python)
    && v.steps != [] && AllIn(v.steps, Digit)
    && v.cfg != [] && AllIn(v.cfg, DigitOrDot)
    && v.seed != [] && AllIn(v.seed, Digit)
    && AllIn(v.modelHash, HexDigit)
    && AllIn(v.sampler, NotComma) && AllIn(v.model, NotComma)
    && !Contains(v.prompt, NegativeLabel)
    && MarkerFree(v.negative) && LabelFree(v.sampler) && LabelFree(v.width)
    && LabelFree(v.height) && LabelFree(v.model) && LabelFree(v.clipSkip)
  }

  /** The dictionary the parser gives back for such values: every field
      written, with the optional model name and hash present exactly when
      they were written. Width, height and clip skip are not read back. */
  function Recovered(v: Form): Params
  {
    Params(Some(v.prompt), Some(v.negative), Some(v.steps), Some(v.sampler),
      Some(v.cfg), Some(v.seed),
      if v.model != [] then Some(v.model) else None,
      if v.modelHash != [] then Some(v.modelHash) else None)
  }

  /** The settings line. */
  function Settings(v: Form): string
  {
    Join(Segments(v), ", ")
  }

  /** The position of the "Model hash" segment. */
  function HashIndex(v: Form): nat
  {
    if v.model != [] then 6 else 5
  }

  /** The position of the "Clip skip" segment. */
  function ClipIndex(v: Form): nat
  {
    if v.modelHash != [] then HashIndex(v) + 1 else HashIndex(v)
  }

  // ---------------------------------------------------------------------
  // The layout of the settings.

  /** Where each segment is: the fixed five, then the optional ones in
      their order, each present only with its value. */
  lemma SegmentLayout(v: Form)
    ensures var segs := Segments(v);
      && |segs| >= 5 && segs[..5] == FixedSegments(v)
      && HashIndex(v) == (if v.model != [] then 6 else 5)
      && (v.model != [] ==> segs[5] == "Model: " + v.model)
      && (v.modelHash != [] ==> HashIndex(v) < |segs| && segs[HashIndex(v)] == "Model hash: " + v.modelHash)
      && (v.clipSkip != "1" ==> ClipIndex(v) < |segs| && segs[ClipIndex(v)] == "Clip skip: " + v.clipSkip)
      && |segs| == (if v.clipSkip != "1" then ClipIndex(v) + 1 else ClipIndex(v))
  {
  }

  // ---------------------------------------------------------------------
  // Where a label cannot start.

  /** The first character of each label the parser looks for. */
  lemma LabelInitials()
    ensures NegativeLabel[0] == 'N' && "Steps:"[0] == 'S' && "Sampler:"[0] == 'S'
    ensures "CFG"[0] == 'C' && "CFG scale:"[0] == 'C' && "Seed:"[0] == 'S'
    ensures "Model:"[0] == 'M' && "Model hash:"[0] == 'M'
  {
  }

  /** A segment "literal, field" followed by the separator, where the
      label's first character `c` is not in the literal and the field lacks
      the label. */
  lemma SegmentClear(lit: string, field: string, tag: string, c: char)
    requires tag != [] && tag[0] == c && c !in lit && c != ',' && c != ' ' && ',' !in tag
    requires !Contains(field, tag)
    ensures Clear(lit + field + ", ", tag)
  {
    ClearWithout(lit, tag, c);
    ClearWithout(", ", tag, c);
    ClearField(field, ", ", tag);
    ClearConcat(lit, field + ", ", tag);
    ConcatAssoc(lit, field, ", ");
  }

  /** The same for a literal `c + q + x` and a label `c + q + y` that part
      after their shared start. */
  lemma SegmentClearSharedStart(c: char, q: string, x: string, y: string, field: string)
    requires x != [] && y != [] && x[0] != y[0] && c !in q + x
    requires c != ',' && c != ' ' && ',' !in q + y
    requires !Contains(field, [c] + q + y)
    ensures Clear([c] + q + x + field + ", ", [c] + q + y)
  {
    var lit := [c] + q + x;
    var tag := [c] + q + y;
    ClearSharedStart(c, q, x, y);
    ClearWithout(", ", tag, c);
    ClearField(field, ", ", tag);
    ClearConcat(lit, field + ", ", tag);
    ConcatAssoc(lit, field, ", ");
  }

  /** "Size: " + width + "x" + height, then the separator. */
  lemma SizeSegmentClear(width: string, height: string, tag: string, c: char)
    requires tag != [] && tag[0] == c && c !in "Size: " && c != 'x' && c != ',' && c != ' '
    requires 'x' !in tag && ',' !in tag
    requires !Contains(width, tag) && !Contains(height, tag)
    ensures Clear("Size: " + width + "x" + height + ", ", tag)
  {
    var lit := "Size: ";
    ClearWithout(lit, tag, c);
    ClearWithout("x", tag, c);
    ClearWithout(", ", tag, c);
    ClearField(width, "x", tag);
    ClearField(height, ", ", tag);
    ClearConcat(width + "x", height + ", ", tag);
    ClearConcat(lit, (width + "x") + (height + ", "), tag);
    ConcatAssoc(lit, width, "x");
    ConcatAssoc(lit + (width + "x"), height, ", ");
    ConcatAssoc(lit, width + "x", height + ", ");
  }

  /** The label-free fields also lack "CFG scale:". */
  lemma LabelFreeLacks(s: string)
    requires LabelFree(s)
    ensures !Contains(s, "CFG scale:")
  {
    NotContainsExtension(s, "CFG", " scale:");
    assert "CFG" + " scale:" == "CFG scale:";
  }

  /** No segment before the `n`-th, with its separator, lets the label
      start. */
  predicate ClearBefore(segs: seq<string>, n: nat, tag: string)
  {
    n <= |segs| && forall k | 0 <= k < n :: Clear(segs[k] + ", ", tag)
  }

  lemma ClearBeforeNext(segs: seq<string>, n: nat, tag: string)
    requires ClearBefore(segs, n, tag) && n < |segs| && Clear(segs[n] + ", ", tag)
    ensures ClearBefore(segs, n + 1, tag)
  {
  }

  /** Each label can start neither in the segments written before its own
      nor, for the model name and hash, anywhere when it is not written. */
  lemma StepsSegmentClearShared(steps: string)
    requires AllIn(steps, Digit)
    ensures Clear("Steps: " + steps + ", ", "Sampler:") && Clear("Steps: " + steps + ", ", "Seed:")
  {
    assert "Steps: " == ['S'] + "" + "teps: ";
    assert "Sampler:" == ['S'] + "" + "ampler:" && "Seed:" == ['S'] + "" + "eed:";
    ClassExcludesLabel(steps, Digit, "Sampler:");
    ClassExcludesLabel(steps, Digit, "Seed:");
    SegmentClearSharedStart('S', "", "teps: ", "ampler:", steps);
    SegmentClearSharedStart('S', "", "teps: ", "eed:", steps);
  }

  lemma SamplerSegmentClearShared(sampler: string)
    requires LabelFree(sampler)
    ensures Clear("Sampler: " + sampler + ", ", "Seed:")
  {
    assert "Sampler: " == ['S'] + "" + "ampler: " && "Seed:" == ['S'] + "" + "eed:";
    SegmentClearSharedStart('S', "", "ampler: ", "eed:", sampler);
  }

  lemma ClearBeforeSampler(v: Form)
    requires Recoverable(v)
    ensures ClearBefore(Segments(v), 1, "Sampler:")
  {
    FixedSegmentsFirst(v);
    StepsSegmentClearShared(v.steps);
    ClearBeforeNext(Segments(v), 0, "Sampler:");
  }

  lemma ClearBeforeCfg(v: Form)
    requires Recoverable(v)
    ensures ClearBefore(Segments(v), 2, "CFG scale:")
  {
    var segs := Segments(v);
    var tag := "CFG scale:";
    FixedSegmentsFirst(v);
    LabelInitials();
    ClassExcludesLabel(v.steps, Digit, tag);
    SegmentClear("Steps: ", v.steps, tag, 'C');
    ClearBeforeNext(segs, 0, tag);
    LabelFreeLacks(v.sampler);
    SegmentClear("Sampler: ", v.sampler, tag, 'C');
    ClearBeforeNext(segs, 1, tag);
  }

  lemma ClearBeforeSeed(v: Form)
    requires Recoverable(v)
    ensures ClearBefore(Segments(v), 3, "Seed:")
  {
    var segs := Segments(v);
    var tag := "Seed:";
    FixedSegmentsFirst(v);
    LabelInitials();
    StepsSegmentClearShared(v.steps);
    ClearBeforeNext(segs, 0, tag);
    SamplerSegmentClearShared(v.sampler);
    ClearBeforeNext(segs, 1, tag);
    ClassExcludesLabel(v.cfg, DigitOrDot, tag);
    SegmentClear("CFG scale: ", v.cfg, tag, 'S');
    ClearBeforeNext(segs, 2, tag);
  }

  /** The labels that come after all fixed segments, with their first
      characters. */
  predicate LaterLabel(tag: string, c: char)
  {
    || (tag == NegativeLabel && c == 'N')
    || (tag == "Model:" && c == 'M')
    || (tag == "Model hash:" && c == 'M')
  }

  /** What the segments need of such a label: its first character occurs
      in none of the fixed literals, no separator character occurs in it,
      and neither numbers nor label-free fields contain it. */
  lemma LaterLabelFacts(tag: string, c: char)
    requires LaterLabel(tag, c)
    ensures tag != [] && tag[0] == c && ',' !in tag && 'x' !in tag && '\n' !in tag
    ensures c != ',' && c != ' ' && c != 'x' && c != '\n'
    ensures !InClass(c, Digit) && !InClass(c, DigitOrDot) && !InClass(c, HexDigit)
    ensures c !in "Steps: " && c !in "Sampler: " && c !in "CFG scale: " && c !in "Seed: " && c !in "Size: "
    ensures c !in "Clip skip: " && (tag == NegativeLabel ==> c !in "Model: " && c !in "Model hash: ")
  {
    LaterLabelShape(tag, c);
    LaterLabelInitial(c);
  }

  lemma LaterLabelInitial(c: char)
    requires c == 'N' || c == 'M'
    ensures c != ',' && c != ' ' && c != 'x' && c != '\n'
    ensures !InClass(c, Digit) && !InClass(c, DigitOrDot) && !InClass(c, HexDigit)
    ensures c !in "Steps: " && c !in "Sampler: " && c !in "CFG scale: " && c !in "Seed: " && c !in "Size: "
    ensures c !in "Clip skip: " && (c == 'N' ==> c !in "Model: " && c !in "Model hash: ")
  {
  }

  lemma LaterLabelShape(tag: string, c: char)
    requires LaterLabel(tag, c)
    ensures tag != [] && tag[0] == c && ',' !in tag && 'x' !in tag && '\n' !in tag
  {
    if tag == NegativeLabel {
      LabelInitials();
    } else if tag == "Model:" {
    } else {
    }
  }

  /** A label-free field lacks each such label. */
  lemma LabelFreeLacksLater(s: string, tag: string, c: char)
    requires LabelFree(s) && LaterLabel(tag, c)
    ensures !Contains(s, tag)
  {
  }

  /** The fixed segments, for those labels. */
  lemma ClearBeforeFive(v: Form, tag: string, c: char)
    requires Recoverable(v) && LaterLabel(tag, c)
    ensures ClearBefore(Segments(v), 5, tag)
  {
    var segs := Segments(v);
    FixedSegmentsFirst(v);
    LaterLabelFacts(tag, c);
    LabelFreeLacksLater(v.sampler, tag, c);
    LabelFreeLacksLater(v.width, tag, c);
    LabelFreeLacksLater(v.height, tag, c);
    ClassExcludesLabel(v.steps, Digit, tag);
    ClassExcludesLabel(v.cfg, DigitOrDot, tag);
    ClassExcludesLabel(v.seed, Digit, tag);
    SegmentClear("Steps: ", v.steps, tag, c);
    ClearBeforeNext(segs, 0, tag);
    SegmentClear("Sampler: ", v.sampler, tag, c);
    ClearBeforeNext(segs, 1, tag);
    SegmentClear("CFG scale: ", v.cfg, tag, c);
    ClearBeforeNext(segs, 2, tag);
    SegmentClear("Seed: ", v.seed, tag, c);
    ClearBeforeNext(segs, 3, tag);
    SizeSegmentClear(v.width, v.height, tag, c);
    ClearBeforeNext(segs, 4, tag);
  }

  /** The "Model hash" segment, for the "Model" label. */
  lemma HashSegmentClear(hash: string)
    requires AllIn(hash, HexDigit)
    ensures Clear("Model hash: " + hash + ", ", "Model:")
  {
    assert "Model hash: " == ['M'] + "odel" + " hash: " && "Model:" == ['M'] + "odel" + ":";
    ClassExcludesLabel(hash, HexDigit, "Model:");
    SegmentClearSharedStart('M', "odel", " hash: ", ":", hash);
  }

  /** The optional segments too, for the labels they do not carry. */
  lemma ClearBeforeAll(v: Form, tag: string, c: char)
    requires Recoverable(v) && LaterLabel(tag, c)
    requires tag == "Model:" ==> v.model == []
    requires tag == "Model hash:" ==> v.modelHash == []
    ensures ClearBefore(Segments(v), |Segments(v)|, tag)
  {
    var segs := Segments(v);
    SegmentLayout(v);
    ClearBeforeFive(v, tag, c);
    LaterLabelFacts(tag, c);
    LabelFreeLacksLater(v.model, tag, c);
    LabelFreeLacksLater(v.clipSkip, tag, c);
    if v.model != [] {
      if tag == NegativeLabel {
        SegmentClear("Model: ", v.model, tag, c);
      } else {
        assert "Model: " == ['M'] + "odel" + ": " && "Model hash:" == ['M'] + "odel" + " hash:";
        SegmentClearSharedStart('M', "odel", ": ", " hash:", v.model);
      }
      ClearBeforeNext(segs, 5, tag);
    }
    if v.modelHash != [] {
      if tag == NegativeLabel {
        ClassExcludesLabel(v.modelHash, HexDigit, tag);
        SegmentClear("Model hash: ", v.modelHash, tag, c);
      } else {
        HashSegmentClear(v.modelHash);
      }
      ClearBeforeNext(segs, HashIndex(v), tag);
    }
    if v.clipSkip != "1" {
      SegmentClear("Clip skip: ", v.clipSkip, tag, c);
      ClearBeforeNext(segs, ClipIndex(v), tag);
    }
  }

  /** Every segment, for those labels. */
  lemma ClearEverywhere(v: Form, tag: string, c: char)
    requires Recoverable(v) && LaterLabel(tag, c)
    requires tag == "Model:" ==> v.model == []
    requires tag == "Model hash:" ==> v.modelHash == []
    ensures !Contains(Settings(v), tag)
  {
    ClearBeforeAll(v, tag, c);
    NotContainsJoin(Segments(v), ", ", tag);
  }

  // ---------------------------------------------------------------------
  // What each search finds.

  /** A search over the joined segments for the label of segment `i`,
      when the label cannot start in any earlier segment. */
  lemma FoundAt(segs: seq<string>, i: nat, tag: string, val: string, cls: CharClass)
    requires i < |segs| && segs[i] == tag + " " + val
    requires ClearBefore(segs, i, tag)
    requires MatchAt(tag + (" " + val + JoinTail(segs, i, ", ")), tag, cls).Some?
    ensures Search(Join(segs, ", "), tag, cls) == MatchAt(tag + (" " + val + JoinTail(segs, i, ", ")), tag, cls)
  {
    var tail := JoinTail(segs, i, ", ");
    var t := " " + val + tail;
    JoinAt(segs, i, ", ");
    ConcatAssoc(tag, " ", val);
    ConcatAssoc(tag, " " + val, tail);
    assert segs[i] + tail == tag + t;
    if i == 0 {
      assert Join(segs, ", ") == tag + t;
    } else {
      ClearJoin(segs[..i], ", ", tag);
      SearchFound(Join(segs[..i], ", ") + ", ", tag, t, cls);
    }
  }

  /** What follows a segment is nothing or a comma. */
  lemma JoinTailStart(segs: seq<string>, i: nat)
    requires i < |segs|
    ensures var tail := JoinTail(segs, i, ", "); tail == [] || tail[0] == ','
  {
  }

  /** A number written after its label is read back whole. */
  lemma NumberValue(tag: string, val: string, tail: string, cls: CharClass)
    requires ExcludesSpace(cls) && val != [] && AllIn(val, cls)
    requires tail == [] || tail[0] == ','
    ensures MatchAt(tag + (" " + val + tail), tag, cls) == Some(val)
  {
    MatchSpaceFreeClass(tag, " " + val + tail, cls);
    GreedyValue(val, tail, cls);
  }

  /** A comma-free, trimmed text written after its label is read back
      whole once stripped. */
  lemma TextValue(tag: string, val: string, tail: string)
    requires AllIn(val, NotComma) && Trimmed(val, Python)
    requires tail == [] || tail[0] == ','
    ensures MatchAt(tag + (" " + val + tail), tag, NotComma).Some?
    ensures Strip(MatchAt(tag + (" " + val + tail), tag, NotComma).value) == val
  {
    MatchNotComma(tag, " " + val + tail);
    UpToCommaValue(val, tail);
    TrimPadded(" ", val, [], Python);
    assert " " + val + [] == " " + val;
    TrimOfTrimmed(val, Python);
  }

  /** The number in segment `i`, under its label. */
  lemma SearchNumber(segs: seq<string>, i: nat, tag: string, val: string, cls: CharClass)
    requires i < |segs| && segs[i] == tag + " " + val && ClearBefore(segs, i, tag)
    requires ExcludesSpace(cls) && val != [] && AllIn(val, cls)
    ensures Search(Join(segs, ", "), tag, cls) == Some(val)
  {
    JoinTailStart(segs, i);
    NumberValue(tag, val, JoinTail(segs, i, ", "), cls);
    FoundAt(segs, i, tag, val, cls);
  }

  /** The text in segment `i`, under its label, once stripped. */
  lemma SearchText(segs: seq<string>, i: nat, tag: string, val: string)
    requires i < |segs| && segs[i] == tag + " " + val && ClearBefore(segs, i, tag)
    requires AllIn(val, NotComma) && Trimmed(val, Python)
    ensures StripOption(Search(Join(segs, ", "), tag, NotComma)) == Some(val)
  {
    JoinTailStart(segs, i);
    TextValue(tag, val, JoinTail(segs, i, ", "));
    FoundAt(segs, i, tag, val, NotComma);
  }

  lemma SearchSteps(v: Form)
    requires Recoverable(v)
    ensures Search(Settings(v), "Steps:", Digit) == Some(v.steps)
  {
    FixedSegmentsFirst(v);
    assert Segments(v)[0] == "Steps:" + " " + v.steps;
    SearchNumber(Segments(v), 0, "Steps:", v.steps, Digit);
  }

  lemma SearchSampler(v: Form)
    requires Recoverable(v)
    ensures StripOption(Search(Settings(v), "Sampler:", NotComma)) == Some(v.sampler)
  {
    FixedSegmentsFirst(v);
    assert Segments(v)[1] == "Sampler:" + " " + v.sampler;
    ClearBeforeSampler(v);
    SearchText(Segments(v), 1, "Sampler:", v.sampler);
  }

  lemma SearchCfg(v: Form)
    requires Recoverable(v)
    ensures Search(Settings(v), "CFG scale:", DigitOrDot) == Some(v.cfg)
  {
    FixedSegmentsFirst(v);
    assert Segments(v)[2] == "CFG scale:" + " " + v.cfg;
    ClearBeforeCfg(v);
    SearchNumber(Segments(v), 2, "CFG scale:", v.cfg, DigitOrDot);
  }

  lemma SearchSeed(v: Form)
    requires Recoverable(v)
    ensures Search(Settings(v), "Seed:", Digit) == Some(v.seed)
  {
    FixedSegmentsFirst(v);
    assert Segments(v)[3] == "Seed:" + " " + v.seed;
    ClearBeforeSeed(v);
    SearchNumber(Segments(v), 3, "Seed:", v.seed, Digit);
  }

  lemma SearchModel(v: Form)
    requires Recoverable(v)
    ensures StripOption(Search(Settings(v), "Model:", NotComma)) ==
      if v.model != [] then Some(v.model) else None
  {
    if v.model != [] {
      SegmentLayout(v);
      assert Segments(v)[5] == "Model:" + " " + v.model;
      ClearBeforeFive(v, "Model:", 'M');
      SearchText(Segments(v), 5, "Model:", v.model);
    } else {
      ClearEverywhere(v, "Model:", 'M');
      SearchAbsent(Settings(v), "Model:", NotComma);
    }
  }

  lemma SearchModelHash(v: Form)
    requires Recoverable(v)
    ensures Search(Settings(v), "Model hash:", HexDigit) ==
      if v.modelHash != [] then Some(v.modelHash) else None
  {
    if v.modelHash != [] {
      var segs := Segments(v);
      var i := HashIndex(v);
      SegmentLayout(v);
      assert segs[i] == "Model hash:" + " " + v.modelHash;
      ClearBeforeFive(v, "Model hash:", 'M');
      if v.model != [] {
        assert "Model: " == ['M'] + "odel" + ": " && "Model hash:" == ['M'] + "odel" + " hash:";
        SegmentClearSharedStart('M', "odel", ": ", " hash:", v.model);
        ClearBeforeNext(segs, 5, "Model hash:");
      }
      SearchNumber(segs, i, "Model hash:", v.modelHash, HexDigit);
    } else {
      ClearEverywhere(v, "Model hash:", 'M');
      SearchAbsent(Settings(v), "Model hash:", HexDigit);
    }
  }

  /** The settings line read back: the six searches give the written
      values. */
  lemma SettingsRead(v: Form, base: Params)
    requires Recoverable(v)
    ensures ExtractSettings(Settings(v), base) ==
      base.(steps := Some(v.steps), sampler := Some(v.sampler), cfg := Some(v.cfg),
            seed := Some(v.seed),
            model := if v.model != [] then Some(v.model) else None,
            modelHash := if v.modelHash != [] then Some(v.modelHash) else None)
  {
    FixedSegmentsFirst(v);
    JoinAt(Segments(v), 0, ", ");
    assert Settings(v) != [];
    SearchSteps(v);
    SearchSampler(v);
    SearchCfg(v);
    SearchSeed(v);
    SearchModel(v);
    SearchModelHash(v);
  }

  // ---------------------------------------------------------------------
  // The text as a whole.

  /** " " + text + line break, where the label cannot start. */
  lemma PaddedClear(n: string, tag: string, c: char)
    requires tag != [] && tag[0] == c && c != ' ' && c != '\n' && '\n' !in tag
    requires !Contains(n, tag)
    ensures Clear(" " + n + "\n", tag)
  {
    ClearWithout(" ", tag, c);
    ClearWithout("\n", tag, c);
    ClearField(n, "\n", tag);
    ClearConcat(" ", n + "\n", tag);
    ConcatAssoc(" ", n, "\n");
  }

  /** A line lacks the label when its text does. */
  lemma LineLacks(p: string, tag: string, c: char)
    requires tag != [] && tag[0] == c && c != '\n' && '\n' !in tag
    requires !Contains(p, tag)
    ensures !Contains(p + "\n", tag)
  {
    ClearWithout("\n", tag, c);
    ClearField(p, "\n", tag);
    ClearNotContains(p + "\n", tag);
  }

  lemma Regroup(p: string, x: string, y: string, z: string, n: string, e: string, s: string)
    ensures p + (x + y + z) + n + e + s == p + x + y + (z + n + e + s) + []
  {
  }

  /** The whole text, cut at the "Negative prompt:" label. */
  lemma TextAtLabel(v: Form)
    requires v.negative != []
    ensures Write(v) == v.prompt + "\n" + NegativeLabel + (" " + v.negative + "\n" + Settings(v)) + []
  {
    assert "\nNegative prompt: " == "\n" + NegativeLabel + " ";
    Regroup(v.prompt, "\n", NegativeLabel, " ", v.negative, "\n", Settings(v));
  }

  /** The label occurs once: the prompt comes before it and the negative
      prompt and the settings after it. */
  lemma LabelledText(v: Form)
    requires Recoverable(v)
    ensures Parse(Write(v)) == ParseLabelled(v.prompt + "\n", " " + v.negative + "\n" + Settings(v))
  {
    TextAtLabel(v);
    LaterLabelFacts(NegativeLabel, 'N');
    LineLacks(v.prompt, NegativeLabel, 'N');
    LabelOnlyOnce(v);
    ParseWithLabel(v.prompt + "\n", " " + v.negative + "\n" + Settings(v), []);
  }

  /** The label does not occur again after the negative prompt. */
  lemma LabelOnlyOnce(v: Form)
    requires Recoverable(v)
    ensures !Contains(" " + v.negative + "\n" + Settings(v), NegativeLabel)
  {
    var pre := " " + v.negative + "\n";
    LaterLabelFacts(NegativeLabel, 'N');
    PaddedClear(v.negative, NegativeLabel, 'N');
    ClearEverywhere(v, NegativeLabel, 'N');
    ClearNoStart(pre, Settings(v), NegativeLabel);
    ContainsSkip(pre, Settings(v), NegativeLabel);
  }

  /** The settings line begins with "Steps:". */
  lemma SettingsBegin(v: Form)
    ensures StartsWith(Settings(v), "Steps:")
  {
    FixedSegmentsFirst(v);
    JoinAt(Segments(v), 0, ", ");
    StartsWithConcat("Steps:", " " + v.steps);
    ConcatAssoc("Steps:", " ", v.steps);
    assert Segments(v)[0] == "Steps:" + (" " + v.steps);
    StartsWithConcat(Segments(v)[0], JoinTail(Segments(v), 0, ", "));
    StartsWithTrans(Settings(v), Segments(v)[0], "Steps:");
  }

  /** After the label, the negative prompt runs up to the settings line. */
  lemma SettingsAfterNegative(n: string, s: string)
    requires MarkerFree(n) && StartsWith(s, "Steps:")
    ensures SettingsStart(" " + n + "\n" + s) == |" " + n + "\n"|
  {
    var pre := " " + n + "\n";
    var b := pre + s;
    LabelInitials();
    PaddedClear(n, "Steps:", 'S');
    PaddedClear(n, "Sampler:", 'S');
    PaddedClear(n, "CFG", 'C');
    ClearNoStart(pre, s, "Steps:");
    ClearNoStart(pre, s, "Sampler:");
    ClearNoStart(pre, s, "CFG");
    NoStartInPrefix(pre, s, "Steps:");
    NoStartInPrefix(pre, s, "Sampler:");
    NoStartInPrefix(pre, s, "CFG");
    var start := SettingsStart(b);
    SettingsStartIsEarliest(b);
    assert b[|pre|..] == s;
    assert start <= |pre|;
    SettingsStartIsAMarker(b);
  }

  /** So the text after the label splits into the padded negative prompt
      and the settings line. */
  lemma NegativeThenSettings(n: string, s: string)
    requires MarkerFree(n) && StartsWith(s, "Steps:")
    ensures var b := " " + n + "\n" + s;
      b[..SettingsStart(b)] == " " + n + "\n" && b[SettingsStart(b)..] == s
  {
    var pre := " " + n + "\n";
    var b := pre + s;
    SettingsAfterNegative(n, s);
    assert b[..|pre|] == pre && b[|pre|..] == s;
  }

  /** The prompt and the negative prompt come back from between the
      labels, stripped. */
  lemma FreeTextRead(v: Form)
    requires Recoverable(v)
    ensures var b := " " + v.negative + "\n" + Settings(v);
      var start := SettingsStart(b);
      && Strip(v.prompt + "\n") == v.prompt
      && Strip(b[..start]) == v.negative && b[start..] == Settings(v)
  {
    SettingsBegin(v);
    TextRead(v.prompt, v.negative, Settings(v));
  }

  /** The same, for any settings line that begins with "Steps:". */
  lemma TextRead(p: string, n: string, s: string)
    requires Trimmed(p, Python) && Trimmed(n, Python) && MarkerFree(n) && StartsWith(s, "Steps:")
    ensures var b := " " + n + "\n" + s;
      var start := SettingsStart(b);
      && Strip(p + "\n") == p
      && Strip(b[..start]) == n && b[start..] == s
  {
    NegativeThenSettings(n, s);
    StripPadded([], p, "\n");
    assert [] + p + "\n" == p + "\n";
    StripPadded(" ", n, "\n");
  }

  /** Stripping a trimmed text padded with whitespace gives it back. */
  lemma StripPadded(a: string, s: string, b: string)
    requires AllSpace(a, Python) && AllSpace(b, Python) && Trimmed(s, Python)
    ensures Strip(a + s + b) == s
  {
    TrimPadded(a, s, b, Python);
    TrimOfTrimmed(s, Python);
  }

  /** Parsing the composed text recovers every field that was written:
      the prompt and the negative prompt, steps, sampler, CFG scale and
      seed, and the model name and hash exactly when they are non-empty. */
  lemma ComposeThenParse(f: Form)
    requires Recoverable(ReadForm(f))
    ensures Parse(Compose(f)) == Recovered(ReadForm(f))
  {
    var v := ReadForm(f);
    LabelledText(v);
    FreeTextRead(v);
    SettingsRead(v, NoParams.(prompt := Some(v.prompt), negative := Some(v.negative)));
  }
}

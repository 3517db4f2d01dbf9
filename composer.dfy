/** The browser-side `buildMetadata`: writing the form's fields out in the
    "generation parameters" text convention. */
module Composer {
  import opened Strings
  import opened Whitespace

  /** The values of the form's input elements, as the strings the page
      reads from them. */
  datatype Form = Form(
    prompt: string,
    negative: string,
    steps: string,
    sampler: string,
    cfg: string,
    seed: string,
    width: string,
    height: string,
    model: string,
    modelHash: string,
    clipSkip: string)

  /** JavaScript's `String.prototype.trim`. */
  function JsTrim(s: string): string
  {
    Trim(s, JavaScript)
  }

  /** The values `buildMetadata` works with: the prompt, the negative
      prompt, the model name and the model hash are trimmed, the other
      fields are taken as they are. */
  function ReadForm(f: Form): (v: Form)
    ensures Trimmed(v.prompt, JavaScript) && Trimmed(v.negative, JavaScript)
    ensures Trimmed(v.model, JavaScript) && Trimmed(v.modelHash, JavaScript)
    ensures v.steps == f.steps && v.sampler == f.sampler && v.cfg == f.cfg && v.seed == f.seed
    ensures v.width == f.width && v.height == f.height && v.clipSkip == f.clipSkip
  {
    TrimSpec(f.prompt, JavaScript);
    TrimSpec(f.negative, JavaScript);
    TrimSpec(f.model, JavaScript);
    TrimSpec(f.modelHash, JavaScript);
    f.(prompt := JsTrim(f.prompt), negative := JsTrim(f.negative),
       model := JsTrim(f.model), modelHash := JsTrim(f.modelHash))
  }

  /** The first line or lines: the prompt, then the negative prompt on a
      line of its own when it is non-empty. */
  function Head(v: Form): string
  {
    if v.negative != [] then v.prompt + "\nNegative prompt: " + v.negative else v.prompt
  }

  /** The five settings always written, in their fixed order. */
  function FixedSegments(v: Form): seq<string>
  {
    ["Steps: " + v.steps, "Sampler: " + v.sampler, "CFG scale: " + v.cfg,
     "Seed: " + v.seed, "Size: " + v.width + "x" + v.height]
  }

  /** `settings.push(segment)` when the condition holds. */
  function PushIf(settings: seq<string>, condition: bool, segment: string): seq<string>
  {
    if condition then settings + [segment] else settings
  }

  /** The fixed settings, then "Model", "Model hash" and "Clip skip" when
      they carry something. */
  function Segments(v: Form): (segs: seq<string>)
    ensures 5 <= |segs| <= 8
  {
    var withModel := PushIf(FixedSegments(v), v.model != [], "Model: " + v.model);
    var withHash := PushIf(withModel, v.modelHash != [], "Model hash: " + v.modelHash);
    PushIf(withHash, v.clipSkip != "1", "Clip skip: " + v.clipSkip)
  }

  /** The text built from values already read from the form. The page is
      served from a Python string literal, so the `\\n` in its source
      reaches the browser as `\n`, and the template literal turns that into
      a newline character. */
  function Write(v: Form): string
  {
    Head(v) + "\n" + Join(Segments(v), ", ")
  }

  /** `buildMetadata`'s result. */
  function Compose(f: Form): string
  {
    Write(ReadForm(f))
  }

  /** `buildMetadata` as the page runs it: the fields are read first, then
      `params` is reassigned and `settings` grows by `push`. */
  method BuildMetadata(f: Form) returns (params: string)
    ensures params == Compose(f)
  {
    var v := ReadForm(f);
    params := v.prompt;
    if v.negative != [] {
      params := params + "\nNegative prompt: " + v.negative;
    }
    var settings := ["Steps: " + v.steps, "Sampler: " + v.sampler, "CFG scale: " + v.cfg,
                     "Seed: " + v.seed, "Size: " + v.width + "x" + v.height];
    if v.model != [] {
      settings := settings + ["Model: " + v.model];
    }
    if v.modelHash != [] {
      settings := settings + ["Model hash: " + v.modelHash];
    }
    if v.clipSkip != "1" {
      settings := settings + ["Clip skip: " + v.clipSkip];
    }
    params := params + "\n" + Join(settings, ", ");
  }

  // ---------------------------------------------------------------------
  // Properties.

  /** A segment written under the given label (its name, a colon and a
      space). */
  predicate HasSegment(v: Form, tag: string)
  {
    exists i | 0 <= i < |Segments(v)| :: StartsWith(Segments(v)[i], tag)
  }

  /** The text begins with the prompt and a line break; the negative prompt
      line comes next if and only if the negative prompt is non-empty, and
      otherwise the settings line follows the prompt directly. */
  lemma WriteBegins(v: Form)
    ensures StartsWith(Write(v), v.prompt + "\n")
    ensures v.negative != [] ==> StartsWith(Write(v), v.prompt + "\nNegative prompt: " + v.negative + "\n")
    ensures v.negative == [] ==> Write(v) == v.prompt + "\n" + Join(Segments(v), ", ")
  {
    var p := v.prompt;
    var body := Join(Segments(v), ", ");
    StartsWithConcat(Head(v) + "\n", body);
    if v.negative != [] {
      var nl := "\nNegative prompt: ";
      StartsWithConcat(p, nl);
      StartsWithConcat(p + nl, v.negative);
      StartsWithConcat(p + nl + v.negative, "\n");
      StartsWithTrans(Write(v), p + nl + v.negative + "\n", p + nl + v.negative);
      StartsWithTrans(Write(v), p + nl + v.negative, p + nl);
      StartsWithTrans(Write(v), p + nl, p);
      assert Write(v)[|p|] == '\n';
      StartsWithNext(Write(v), p);
    } else {
      StartsWithConcat(p + "\n", body);
    }
  }

  /** The segments start with "Steps", "Sampler", "CFG scale", "Seed" and
      "Size", in that order, each followed by its field. */
  lemma FixedSegmentsFirst(v: Form)
    ensures |Segments(v)| >= 5
    ensures Segments(v)[0] == "Steps: " + v.steps && Segments(v)[1] == "Sampler: " + v.sampler
    ensures Segments(v)[2] == "CFG scale: " + v.cfg && Segments(v)[3] == "Seed: " + v.seed
    ensures Segments(v)[4] == "Size: " + v.width + "x" + v.height
  {
  }

  /** There is a "Model" segment exactly when the model name is non-empty,
      and then it comes right after the fixed ones. */
  lemma ModelSegment(v: Form)
    ensures HasSegment(v, "Model: ") <==> v.model != []
    ensures v.model != [] ==> Segments(v)[5] == "Model: " + v.model
  {
    var segs := Segments(v);
    if v.model != [] {
      assert segs[5] == "Model: " + v.model;
      StartsWithConcat("Model: ", v.model);
      assert StartsWith(segs[5], "Model: ");
    }
    if HasSegment(v, "Model: ") {
      var i :| 0 <= i < |segs| && StartsWith(segs[i], "Model: ");
      OptionalLabels(v, i);
    }
  }

  /** There is a "Model hash" segment exactly when the hash is non-empty. */
  lemma ModelHashSegment(v: Form)
    ensures HasSegment(v, "Model hash: ") <==> v.modelHash != []
  {
    var segs := Segments(v);
    if v.modelHash != [] {
      var k := if v.model != [] then 6 else 5;
      assert segs[k] == "Model hash: " + v.modelHash;
      StartsWithConcat("Model hash: ", v.modelHash);
      assert StartsWith(segs[k], "Model hash: ");
    }
    if HasSegment(v, "Model hash: ") {
      var i :| 0 <= i < |segs| && StartsWith(segs[i], "Model hash: ");
      OptionalLabels(v, i);
    }
  }

  /** There is a "Clip skip" segment exactly when the clip skip field is
      anything but "1", and then it is the last one. */
  lemma ClipSkipSegment(v: Form)
    ensures HasSegment(v, "Clip skip: ") <==> v.clipSkip != "1"
    ensures v.clipSkip != "1" ==> Segments(v)[|Segments(v)| - 1] == "Clip skip: " + v.clipSkip
  {
    var segs := Segments(v);
    if v.clipSkip != "1" {
      assert segs[|segs| - 1] == "Clip skip: " + v.clipSkip;
      StartsWithConcat("Clip skip: ", v.clipSkip);
      assert StartsWith(segs[|segs| - 1], "Clip skip: ");
    }
    if HasSegment(v, "Clip skip: ") {
      var i :| 0 <= i < |segs| && StartsWith(segs[i], "Clip skip: ");
      OptionalLabels(v, i);
    }
  }

  /** What a segment headed by an optional label says about the form: each
      of them is written only when its value is present. */
  lemma OptionalLabels(v: Form, i: nat)
    requires i < |Segments(v)|
    ensures var s := Segments(v)[i];
      && (StartsWith(s, "Model: ") ==> v.model != [])
      && (StartsWith(s, "Model hash: ") ==> v.modelHash != [])
      && (StartsWith(s, "Clip skip: ") ==> v.clipSkip != "1")
  {
    var s := Segments(v)[i];
    if i < 5 {
      assert s == FixedSegments(v)[i];
      FixedHeads(s);
    } else {
      assert || (s == "Model: " + v.model && v.model != [])
             || (s == "Model hash: " + v.modelHash && v.modelHash != [])
             || (s == "Clip skip: " + v.clipSkip && v.clipSkip != "1");
      OptionalHeads(s);
    }
  }

  /** A fixed segment, headed by "S" or "CF", starts with none of the
      optional labels. */
  lemma FixedHeads(s: string)
    requires s != [] && (s[0] == 'S' || (|s| > 1 && s[0] == 'C' && s[1] == 'F'))
    ensures !StartsWith(s, "Model: ") && !StartsWith(s, "Model hash: ") && !StartsWith(s, "Clip skip: ")
  {
    if |s| >= 7 {
      assert s[..7][0] == s[0];
    }
    if |s| >= 11 {
      assert s[..11][0] == s[0] && s[..11][1] == s[1];
    }
  }

  /** The three optional labels do not start with one another. */
  lemma OptionalHeads(s: string)
    ensures StartsWith(s, "Model hash: ") ==> !StartsWith(s, "Model: ")
    ensures StartsWith(s, "Model: ") ==> !StartsWith(s, "Model hash: ") && !StartsWith(s, "Clip skip: ")
  {
    if |s| >= 7 {
      assert s[..7][5] == s[5] && s[..7][0] == s[0];
    }
    if |s| >= 12 {
      assert s[..12][5] == s[5];
    }
  }

  /** The form the page starts from, with a prompt of "x": the fixed
      settings only, and no negative prompt line. */
  lemma DefaultFormText()
    ensures Compose(Form("x", "", "20", "DPM++ 2M Karras", "7", "-1", "512", "512", "", "", "1"))
      == "x" + "\n" + ("Steps: 20" + ", " + "Sampler: DPM++ 2M Karras" + ", " + "CFG scale: 7" + ", "
                       + "Seed: -1" + ", " + "Size: 512x512")
  {
    var f := Form("x", "", "20", "DPM++ 2M Karras", "7", "-1", "512", "512", "", "", "1");
    DefaultFormRead(f);
    DefaultSegments(f);
    JoinFive("Steps: 20", "Sampler: DPM++ 2M Karras", "CFG scale: 7", "Seed: -1", "Size: 512x512", ", ");
  }

  lemma DefaultFormRead(f: Form)
    requires f == Form("x", "", "20", "DPM++ 2M Karras", "7", "-1", "512", "512", "", "", "1")
    ensures ReadForm(f) == f
  {
    assert JsTrim("x") == "x" by {
      TrimOfTrimmed("x", JavaScript);
    }
    assert JsTrim("") == "";
  }

  lemma DefaultSegments(v: Form)
    requires v == Form("x", "", "20", "DPM++ 2M Karras", "7", "-1", "512", "512", "", "", "1")
    ensures Segments(v) == ["Steps: 20", "Sampler: DPM++ 2M Karras", "CFG scale: 7", "Seed: -1", "Size: 512x512"]
    ensures Head(v) == "x"
  {
    assert "Steps: " + "20" == "Steps: 20";
    assert "Sampler: " + "DPM++ 2M Karras" == "Sampler: DPM++ 2M Karras";
    assert "CFG scale: " + "7" == "CFG scale: 7";
    assert "Seed: " + "-1" == "Seed: -1";
    assert "Size: " + "512" + "x" + "512" == "Size: 512x512";
  }

  lemma JoinFive(p0: string, p1: string, p2: string, p3: string, p4: string, sep: string)
    ensures Join([p0, p1, p2, p3, p4], sep) == p0 + sep + p1 + sep + p2 + sep + p3 + sep + p4
  {
    var parts := [p0, p1, p2, p3, p4];
    assert parts[1..] == [p1, p2, p3, p4];
    assert parts[1..][1..] == [p2, p3, p4];
    assert parts[1..][1..][1..] == [p3, p4];
    assert parts[1..][1..][1..][1..] == [p4];
    var j3 := p3 + sep + p4;
    var j2 := p2 + sep + j3;
    var j1 := p1 + sep + j2;
    assert Join(parts[1..][1..][1..], sep) == j3;
    assert Join(parts[1..][1..], sep) == j2;
    assert Join(parts[1..], sep) == j1;
    assert p0 + sep + j1 == p0 + sep + p1 + sep + p2 + sep + p3 + sep + p4;
  }
}

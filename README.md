# Civitai metadata fixer — a Dafny model of its metadata text handling

The civitai metadata fixer is a small local web tool. It lets a user edit the
"generation parameters" text that Stable Diffusion front ends store in a PNG
under the `parameters` key, and write that text back into the image. This
project models the parts of `civitai_metadata_fixer.py` that do the text work,
and proves properties of them:

- **Parser** (`parser.dfy`, with `strings.dfy`, `whitespace.dfy` and
  `regex.dfy`): `parse_a1111_params`. It does the following:
  - It splits the text on `"Negative prompt:"`.
  - It finds the earliest of the markers `"Steps:"`, `"Sampler:"` and `"CFG"`.
  - It pulls up to six settings out of the tail with `re.search`.

  Each search `Label:\s*(C+)` is modelled exactly, apart from `\d` (see
  "Left out"), including Python's leftmost match and the backtracking of `\s*`
  into the group. The result dictionary is a record of eight `Option`s.
  `Parse` is the functional specification. `ParseParams` and
  `FindSettingsStart` are the step-by-step code, proved equal to it.
- **Composer** (`composer.dfy`): the page's JavaScript `buildMetadata`. It
  writes the form's fields out in the same convention:
  - the prompt;
  - an optional negative prompt line;
  - the settings line: five fixed segments joined by `", "`, then `Model`,
    `Model hash` and `Clip skip` when each has a value.
- **Round trip** (`roundtrip.dfy`): a sufficient condition under which parsing
  the composed text gives back the prompt, negative prompt, steps, sampler,
  cfg, seed, model and hash. Size and clip skip are written but never read
  back: the parser has no search for them.
- **Save** (`images.dfy`, `writer.dfy`): the part of `save_image` that runs
  before encoding:
  - decoding backslash-`n` escapes;
  - choosing the colour mode;
  - the ordered text-chunk list: `parameters` first, then every other
    string-valued `info` entry.

  `PngInfo` is a class whose chunk list `AddText` extends in place.
- **Load** (`loader.dfy`): the part of `load_image` that runs after decoding:
  - the metadata dump, where values longer than 1000 characters are cut and
    followed by `...`, and entries are joined by blank lines;
  - the parsing of the `parameters` entry.

  It also covers the editor's whole cycle of compose, save and load.

The image is abstract: a mode string, a size, and the `info` entries in
dictionary order, each value either a string or something else.

Notes on how the code behaves, as modelled:

- The page is served from a Python string literal (not a raw one). The `\\n` in
  the JavaScript source therefore reaches the browser as `\n`, so
  `buildMetadata` joins its lines with real newline characters.
- Parsing the composed text gives back its fields when all of these hold
  (`RoundTrip.Recoverable`). This is a sufficient condition, not a necessary
  one:
  - the negative prompt is non-empty, because otherwise the whole text is the
    prompt;
  - the prompt does not contain `Negative prompt:`;
  - the negative prompt contains neither `Negative prompt:` nor any of the
    markers `Steps:`, `Sampler:` and `CFG`, each of which would end it early.
    Other labels, such as `Seed:`, may occur in it: the searches only look at
    the text from the earliest marker on;
  - sampler, width, height, model and clip skip contain none of the labels
    `Negative prompt:`, `Steps:`, `Sampler:`, `CFG`, `Seed:`, `Model:` or
    `Model hash:`. Each search takes the leftmost occurrence of its label, so
    a label inside a field written before that label's own segment would be
    found first;
  - steps and seed are digits, cfg is digits and dots, and the hash is hex;
  - sampler and model hold no comma;
  - the prompt, negative, sampler and model have no Python whitespace at their
    ends. JavaScript's `trim` leaves a few characters that Python's `strip`
    removes (`Whitespace.JsTrimIsPyTrimmed`).

  An empty sampler still reads back as the empty string, because `\s*` gives
  its space back to `[^,]+`.
- The page's default seed `-1` is never read back: `\d+` cannot start at the
  minus sign (`Parser.SignedSeedNotMatched`).
- The mode rule tests for the letter `A` in the mode's name. So `LA` and `PA`
  become `RGBA`, a `P` image with a transparency entry becomes `RGB`, and `LAB`
  becomes `RGBA`.
- When the `parameters` entry is not a string, the parser's `except` catches
  the failure and the parsed dictionary stays empty (`Loader.ParsedOf`).

## Model

| member | source | states |
|---|---|---|
| Strings.Find | civitai_metadata_fixer.py:469 | `str.find`: -1 exactly when the pattern does not occur; otherwise the pattern starts at the result and at no earlier index |
| Strings.Split | civitai_metadata_fixer.py:461 | `str.split` always gives at least one piece; `Strings.SplitJoin` and `Strings.SplitHasTwoParts` state what the pieces are |
| Strings.Replace | civitai_metadata_fixer.py:508 | `str.replace` with a replacement no longer than the pattern never lengthens the text; `Strings.ReplaceWithout` and `Strings.ReplaceAt` state what it does |
| Strings.ReplaceWithout | civitai_metadata_fixer.py:508 | a text in which the pattern does not occur is left as it is |
| Strings.ReplaceAt | civitai_metadata_fixer.py:508 | the first occurrence of the pattern becomes the replacement, the text before it is kept, and the text after it is replaced in turn |
| Strings.SplitJoin | civitai_metadata_fixer.py:461 | joining the pieces of `split` with the separator gives the text back, and no piece holds the separator |
| Strings.SplitHasTwoParts | civitai_metadata_fixer.py:461-462 | `len(parts) >= 2` exactly when the label occurs, and then `parts[0]` is the text before its first occurrence |
| Whitespace.TrimSpec | civitai_metadata_fixer.py:463 | `strip`/`trim` keep a slice of the text, drop only whitespace on either side, and leave no whitespace at either end |
| Whitespace.Trim | civitai_metadata_fixer.py:463 | `strip`/`trim` never lengthen the text; `Whitespace.TrimSpec` states what they keep and drop |
| Whitespace.TrimIdempotent | civitai_metadata_fixer.py:463 | stripping twice is stripping once |
| Whitespace.TrimPadded | civitai_metadata_fixer.py:473 | whitespace around a text does not change what stripping gives |
| Whitespace.JsTrimIsPyTrimmed | civitai_metadata_fixer.py:323-332 | a JavaScript-trimmed value holding none of the Python-only whitespace characters is also Python-stripped |
| Regex.RunLength | civitai_metadata_fixer.py:481 | a greedy `C*` consumes a run of class characters and stops at the first character outside the class |
| Regex.MatchAt | civitai_metadata_fixer.py:481 | a match of `Label\s*(C+)` at a position begins with the label, and its group is non-empty and inside the class |
| Regex.Search | civitai_metadata_fixer.py:481-497 | every group `re.search` reports is non-empty and inside the class |
| Regex.MatchSpaceFreeClass | civitai_metadata_fixer.py:481-491 | for `\d`, `[\d.]` and hex, `\s*` never gives back: the group is the longest class run after the whitespace, and there is no match when that run is empty |
| Regex.MatchNotComma | civitai_metadata_fixer.py:484-485 | `[^,]+` after the label matches exactly when some non-comma character follows, and the stripped group is the stripped text up to the next comma |
| Regex.SearchAbsent | civitai_metadata_fixer.py:480-497 | a setting whose label does not occur is not found |
| Regex.SearchSkip | civitai_metadata_fixer.py:480-497 | text in which the label cannot start does not change what the search finds |
| Parser.EarliestMarkerIsEarliest | civitai_metadata_fixer.py:466-471 | no marker occurs before the position the loop settles on |
| Parser.EarliestMarkerAtEnd | civitai_metadata_fixer.py:466-471 | the loop ends at `len(rest)` exactly when no marker occurs |
| Parser.SettingsStartIsEarliest | civitai_metadata_fixer.py:466-474 | none of "Steps:", "Sampler:", "CFG" starts before the settings start |
| Parser.SettingsStartAtEnd | civitai_metadata_fixer.py:466-474 | the settings start is the end of the text after the label exactly when none of the three markers occurs |
| Parser.SettingsStartIsAMarker | civitai_metadata_fixer.py:466-474 | otherwise one of the three markers starts at it |
| Parser.ExtractSettings | civitai_metadata_fixer.py:480-497 | the six searches leave prompt and negative prompt as they were; `Parser.ParsedFieldShapes` states the shape of what they find |
| Parser.ParseLabelled | civitai_metadata_fixer.py:463-497 | with the label present, both a prompt and a negative prompt are in the result; `Parser.ParseLabelledFields` states their values |
| Parser.Parse | civitai_metadata_fixer.py:457-502 | the specification of `parse_a1111_params`; its behaviour is stated by `Parser.NegativeIffLabel`, `Parser.ParseWithoutLabel`, `Parser.ParseWithLabel` and `Parser.ParsedFieldShapes` |
| Parser.FindSettingsStart | civitai_metadata_fixer.py:466-471 | the loop that lowers `settings_start` computes the earliest marker position |
| Parser.ParseParams | civitai_metadata_fixer.py:457-502 | filling the dictionary key by key gives `Parse` of the text |
| Parser.ParseWithoutLabel | civitai_metadata_fixer.py:475-477 | without "Negative prompt:" the result is exactly `{prompt: strip(text)}`, even when settings labels occur |
| Parser.NegativeIffLabel | civitai_metadata_fixer.py:461-477 | a prompt is always present, and a negative prompt exactly when the label occurs |
| Parser.SplitAtFirstLabel | civitai_metadata_fixer.py:461 | the split cuts at the first occurrence of the label |
| Parser.ParseWithLabel | civitai_metadata_fixer.py:461-474 | with the label present, the result is built from the text before its first occurrence and the text up to the next one |
| Parser.ParseLabelledFields | civitai_metadata_fixer.py:463-474 | prompt is the stripped text before the label; negative is the stripped text after it up to the settings start |
| Parser.ParseIgnoresAfterSecondLabel | civitai_metadata_fixer.py:461-464 | text after a second "Negative prompt:" changes nothing in the result |
| Parser.ParsedFieldShapes | civitai_metadata_fixer.py:481-497 | steps and seed are non-empty digit strings; cfg is non-empty digits and dots; the hash is non-empty hex; sampler and model are stripped and comma-free; prompt and negative are stripped |
| Parser.SignedSeedNotMatched | civitai_metadata_fixer.py:490-491 | "Seed:" followed by whitespace and a minus sign yields no seed match there |
| Composer.BuildMetadata | civitai_metadata_fixer.py:322-351 | reassigning `params` and pushing onto `settings` builds the composed text |
| Composer.ReadForm | civitai_metadata_fixer.py:323-332 | prompt, negative, model and hash are read trimmed of JavaScript whitespace at both ends; the other fields are read as they are |
| Composer.Segments | civitai_metadata_fixer.py:338-347 | the settings line has the five fixed segments and up to three optional ones |
| Composer.Compose | civitai_metadata_fixer.py:322-351 | the specification of `buildMetadata`; its layout is stated by `Composer.WriteBegins`, `Composer.FixedSegmentsFirst`, `Composer.ModelSegment`, `Composer.ModelHashSegment` and `Composer.ClipSkipSegment` |
| Composer.WriteBegins | civitai_metadata_fixer.py:335-336 | the text begins with the trimmed prompt and a newline; it has the negative prompt line when the trimmed negative is non-empty, and otherwise goes straight to the settings |
| Composer.FixedSegmentsFirst | civitai_metadata_fixer.py:338-344 | Steps, Sampler, CFG scale, Seed and Size are the first five segments, in that order |
| Composer.ModelSegment | civitai_metadata_fixer.py:345 | a Model segment is written exactly when the trimmed model is non-empty, and it comes sixth |
| Composer.ModelHashSegment | civitai_metadata_fixer.py:346 | a Model hash segment is written exactly when the trimmed hash is non-empty |
| Composer.ClipSkipSegment | civitai_metadata_fixer.py:347 | a Clip skip segment is written exactly when clip skip is not "1", and it comes last |
| Composer.OptionalLabels | civitai_metadata_fixer.py:345-347 | a segment with an optional label implies that its value was present |
| Composer.DefaultFormText | civitai_metadata_fixer.py:193-241 | the page's default form, with a one-letter prompt, composes to the prompt and the five fixed settings |
| RoundTrip.SegmentLayout | civitai_metadata_fixer.py:338-347 | the position of each segment: the fixed five, then Model, Model hash and Clip skip, each present only with its value |
| RoundTrip.SearchSteps | civitai_metadata_fixer.py:481-482 | the steps search over the composed settings line finds the written steps |
| RoundTrip.SearchSampler | civitai_metadata_fixer.py:484-485 | the stripped sampler search finds the written sampler |
| RoundTrip.SearchCfg | civitai_metadata_fixer.py:487-488 | the CFG scale search finds the written cfg |
| RoundTrip.SearchSeed | civitai_metadata_fixer.py:490-491 | the seed search finds the written seed |
| RoundTrip.SearchModel | civitai_metadata_fixer.py:493-494 | the stripped model search finds the model when one was written, and nothing otherwise |
| RoundTrip.SearchModelHash | civitai_metadata_fixer.py:496-497 | the hash search finds the hash when one was written, and nothing otherwise |
| RoundTrip.SettingsRead | civitai_metadata_fixer.py:480-497 | the six searches over the composed settings line give back the written settings |
| RoundTrip.LabelledText | civitai_metadata_fixer.py:461-464 | the composed text splits at its only "Negative prompt:" label |
| RoundTrip.FreeTextRead | civitai_metadata_fixer.py:463-474 | prompt and negative come back stripped, and the settings tail starts exactly at "Steps:" |
| RoundTrip.ComposeThenParse | civitai_metadata_fixer.py:457-502 | for a recoverable form, parsing the composed text gives back prompt, negative, steps, sampler, cfg, seed, and the model and hash exactly when written |
| Images.Lookup | civitai_metadata_fixer.py:452-453 | `info[key]` is present exactly when the key is, and is the value of an entry with that key |
| Writer.Unescape | civitai_metadata_fixer.py:508 | decoding never lengthens the text; `Writer.UnescapeAtPair` and `Writer.UnescapeWithoutPair` together determine it on every text |
| Writer.UnescapeAtPair | civitai_metadata_fixer.py:508 | the first backslash-`n` pair becomes a newline, the text before it is kept, and the text after it is decoded in turn |
| Writer.UnescapeLeavesNoPair | civitai_metadata_fixer.py:508 | no backslash-`n` pair is left after decoding |
| Writer.UnescapeWithoutPair | civitai_metadata_fixer.py:508 | a text with no pair is left unchanged |
| Writer.UnescapeFixedPoints | civitai_metadata_fixer.py:508 | decoding changes a text exactly when it holds a pair |
| Writer.UnescapeIdempotent | civitai_metadata_fixer.py:508 | decoding twice is decoding once |
| Writer.TargetMode | civitai_metadata_fixer.py:516-517 | the mode saved is RGB or RGBA; RGB and RGBA are kept; the result has the letter A exactly when the original mode did |
| Writer.TargetModeIdempotent | civitai_metadata_fixer.py:516-517 | normalising a normalised mode changes nothing |
| Writer.PngInfo.constructor | civitai_metadata_fixer.py:520 | a new `PngInfo` holds no chunk |
| Writer.PngInfo.AddText | civitai_metadata_fixer.py:521 | `add_text` appends one chunk and keeps the earlier ones |
| Writer.SaveImage | civitai_metadata_fixer.py:505-527 | the mode is the normalised mode; the chunk list is ("parameters", decoded text) followed by the carried entries |
| Writer.Carried | civitai_metadata_fixer.py:524-527 | no more entries are carried than the image has; `Writer.CarriedMember` states which |
| Writer.Chunks | civitai_metadata_fixer.py:520-527 | the chunk list is never empty and has at most one chunk more than the image has entries; `Writer.ParametersChunkFirst` states its head |
| Writer.CarriedConcat | civitai_metadata_fixer.py:524-527 | the carried entries keep the original order |
| Writer.CarriedMember | civitai_metadata_fixer.py:524-527 | a (key, value) chunk is carried exactly when the image has that string entry and the key is not "parameters" |
| Writer.ParametersChunkFirst | civitai_metadata_fixer.py:520-527 | the first chunk is ("parameters", text) and no later chunk uses that key |
| Writer.CarriedOfCarried | civitai_metadata_fixer.py:524-527 | carrying over entries that were carried already changes nothing |
| Writer.ResaveKeepsChunks | civitai_metadata_fixer.py:520-527 | saving a saved image again replaces the parameters chunk and keeps every other chunk once, in order |
| Loader.Display | civitai_metadata_fixer.py:447 | a shown value is at most 1003 characters; a short value is shown whole; a long one is its first 1000 characters followed by "..." |
| Loader.DisplayIdempotent | civitai_metadata_fixer.py:447 | cutting a cut value changes nothing |
| Loader.DisplayUnchanged | civitai_metadata_fixer.py:447 | a value is shown unchanged exactly when it is at most 1000 characters, or 1000 characters followed by "..." |
| Loader.LoadImage | civitai_metadata_fixer.py:435-453 | the response holds the size, the dump of the string entries, and the parsed parameters entry (empty when it is missing or not a string) |
| Loader.DumpParts | civitai_metadata_fixer.py:444-448 | there are no more dump lines than entries; `Loader.DumpPartsMember` states which lines there are |
| Loader.Dump | civitai_metadata_fixer.py:449 | the lines joined by blank lines; the lines are stated by `Loader.DumpPartsConcat` and `Loader.DumpPartsMember` |
| Loader.ParsedOf | civitai_metadata_fixer.py:452-453 | the parsed dictionary has a prompt exactly when the `parameters` entry is present and is a string, and is empty otherwise |
| Loader.DumpPartsConcat | civitai_metadata_fixer.py:444-448 | the dump lines follow the entries' order |
| Loader.DumpPartsMember | civitai_metadata_fixer.py:444-448 | every string entry has its line, and every line comes from a string entry |
| Loader.SaveThenLoad | civitai_metadata_fixer.py:452-453 | loading an image saved with a parameters text parses that text |
| Loader.ComposeSaveLoad | civitai_metadata_fixer.py:508 | compose, decode, save and load give back the recoverable fields, when the composed text has no backslash-`n` pair |

## Left out

- Flask routes, request JSON, `jsonify` and `send_file`: HTTP plumbing. The
  handlers' inputs are parameters of `SaveImage` and `LoadImage`.
- Data-URI splitting, base64 decoding, and PIL's `Image.open`, `convert` and
  `save`: foreign library code. The image is an abstract record. Conversion
  is assumed to keep the `info` entries.
- Reading the saved PNG back is not part of this model. `Images.FromChunks`
  states the assumption used: each text chunk becomes one string entry, in
  order.
- The `info` dictionary is a sequence of entries in iteration order. Its keys
  are taken to be distinct, as a dictionary's are. `Lookup` takes the first
  entry with the key.
- The browser DOM, event handlers, the preview alert, `autoFillMetadata`
  (DOM plus `Math.random`), `open_browser`, the timer thread and `app.run`:
  UI, randomness and process startup.
- `print` in the parser's exception handler: console output.
- Regex.Search: `\d` is modelled as the ASCII digits. Python's `\d` on `str`
  also matches other Unicode decimal digits. `\s` and `strip` use Python's
  whitespace set, written out in `Whitespace.IsSpace`.
- Strings.Replace is `str.replace` for a non-empty pattern only. Escape
  decoding always uses the two-character pattern.
- Loader.Display counts characters as Unicode scalar values, as Python's
  `len` counts code points (lone surrogates aside).

# stcg in Dafny: template slicing and program assembly

stcg (Scripted Template Content Generator) turns a text template into the
source of a small JavaScript program. Four configurable markers are
involved:

- code-begin `[!` and code-end `!]` enclose statements;
- output-begin `[>` and output-end `<]` enclose an expression whose value is written out;
- everything else is literal text.

This project models the part of `src/index.ts` that runs before any
JavaScript is executed. It has five modules.

- **`StcgBase`** (`base.dfy`): the error kinds the generator throws, with
  their exact messages (`Message`), and `String.prototype.slice` on
  integer bounds (`JsSlice`).
- **`Slices`** (`slices.dfy`): the three slice classes as one datatype.
  - Text turns each `\r?\n` into the two characters `\` and `n`.
  - Code turns each `\r?\n` into a space.
  - Output is kept as it is.
  - Also here: the `isValid` tests (with `trim` spelled out), `toCode`, and
    `trimLeading`.
- **`MarkerTrie`** (`trie.dfy`): the marker detector.
  - The trie's states are numbered in the order the constructor creates
    them (`TrieLabels`, `Grow`).
  - The detector runs with reset-to-root (`Step`, `DState`).
- **`TemplateSlicer`** (`slicer.dfy`): the `StcgTemplateSlicer`
  constructor and `slice()`.
  - The constructor's nested loops are imperative: `InsertWord`,
    `AddMarker`, `BuildDetector`, `FindBlocking`, `NewEmitter` and
    `NewSlicer`.
  - `slice()` is the method `SliceTemplate`, with one round of its loop in
    `Round`. Both are proved against the functions `ScanStep`, `ScanAfter`
    and `Sliced`.
  - Then the slicer's guarantees are proved: detection is sound, the
    markers alternate, the slices rebuild the template, and each error
    arises exactly as stated.
- **`Generator`** (`generator.dfy`): the `Stcg` constructor.
  - Option defaulting writes into the caller's object (`StcgOptions`).
  - The `lastCode` filter (`Assemble`, specified by `Kept`) and the
    `reduce` into the program text (`Program`).
  - `global` (`Stcg.Global`) and the order in which `run()` merges its
    bindings (`Scope`).

The model follows the code where the code is surprising.

- `options.trimAfterCode || true` is always `true`, so trimming after a
  Code slice cannot be switched off. `Resolve` states this. `Assemble` also
  takes the flag as a parameter, so the filter is modelled for both values.
- `debugLen` is 6 when no options object is passed. With an options
  object, a value of 0 or an absent value becomes 5. Only a negative value
  fails, with `debugLen option must be >= 1`.
- The detector returns to the root when a character cannot extend the
  current path. It does not fall back to the longest marker prefix that
  still matches. So it can miss an occurrence: `MissedOverlap` shows
  `aab` going undetected in `aaab`. The guarantees are therefore
  soundness only. Every marker the slicer acts on really ends where it is
  reported.
- A Text slice is trimmed when the slice before it in the unfiltered
  sequence is a Code slice, even when that Code slice is then dropped as
  invalid (`Adjusted`).

## Model

| member | source | states |
|---|---|---|
| StcgBase.JsSlice | src/index.ts:216-218 | `s.slice(start, end)`: within bounds it is exactly the characters from `start` to `end`; with crossed bounds it is empty |
| Slices.ReplaceRemovesNewlines | src/index.ts:42 | replacing every `\r?\n` by a text without line feeds leaves no line feed |
| Slices.ReplaceIdentity | src/index.ts:64 | a payload without line feeds is unchanged by the replacement |
| Slices.ReplaceAppend | src/index.ts:42 | the replacement works piece by piece, unless the cut separates `\r` from the `\n` after it |
| Slices.Trim | src/index.ts:53 | `trim()`: the result sits in the input with only JavaScript white space around it, and neither starts nor ends with white space |
| Slices.MakeText | src/index.ts:63-65 | a Text slice is flattened (no line feed in its payload); a payload without line feeds is kept as it is |
| Slices.MakeCode | src/index.ts:41-43 | a Code slice is flattened (no line feed in its payload); a payload without line feeds is kept as it is |
| Slices.MakeSlice | src/index.ts:194-197 | each of the three factories makes its own variant, Text and Code always flattened; Output keeps its payload unchanged |
| Slices.IsValidMeans | src/index.ts:52-107 | Code is valid iff its body holds a character that is not white space; Text and Output are valid iff not empty |
| Slices.TrimLeadingMeans | src/index.ts:84-86 | a run of spaces followed by the escaped line break at the very start is removed with it; without one, the body is unchanged |
| Slices.Render | src/index.ts:48-99 | every fragment ends in a line feed; the fragment of a flattened Text or Code slice has no other line feed |
| MarkerTrie.GrowProperties | src/index.ts:162-170 | inserting a word keeps the old states, adds exactly its missing prefixes, and the labels stay distinct and prefix-closed |
| MarkerTrie.TrieLabelsProperties | src/index.ts:160-171 | the states of the trie are labelled by exactly the empty string and the prefixes of the markers, without repeats |
| MarkerTrie.WalkReachesLabel | src/index.ts:162-164 | following a string from the root reaches the state labelled by that string, and every label is reached |
| MarkerTrie.AddChild | src/index.ts:166-169 | creating a state for a new character keeps the table a trie of the labels grown by one |
| MarkerTrie.DetectorSpellsSuffix | src/index.ts:233-243 | after any input the detector's state spells a suffix of that input: detection is sound |
| MarkerTrie.StepSpellsSuffix | src/index.ts:233-243 | one detector step keeps the spelled label a suffix of the input read |
| MarkerTrie.HasTransitionIffStrictPrefix | src/index.ts:183 | a state has outgoing transitions iff its label is a strict prefix of a marker |
| MarkerTrie.AabLabels | src/index.ts:160-171 | inserting `aab` creates states 1, 2, 3 for `a`, `aa`, `aab` |
| MarkerTrie.DefaultLabels | src/index.ts:160-171 | inserting the default markers `[!`, `!]`, `[>`, `<]` in order creates the states `[`, `[!`, `!`, `!]`, `[>`, `<`, `<]`, numbered 1 to 7 |
| MarkerTrie.MissedOverlap | src/index.ts:233-243 | in a trie for `aab`, the input `aaab` ends in `aab` but the detector ends at the root: detection is not complete |
| TemplateSlicer.Next | src/index.ts:193-197 | only four moves exist: code-begin and output-begin leave text mode and close a Text slice; code-end and output-end return to text and close Code and Output respectively |
| TemplateSlicer.NewEmitter | src/index.ts:193-197 | the emitter table holds exactly the moves of `Next` |
| TemplateSlicer.FirstRepeat | src/index.ts:160-179 | no repeat iff the markers are distinct; otherwise the first marker equal to an earlier one, with the markers before it distinct |
| TemplateSlicer.ClashIsFirstRepeat | src/index.ts:174-175 | a marker already among distinct earlier ones is the first repeat |
| TemplateSlicer.InsertWord | src/index.ts:161-171 | the inner loop grows the trie by exactly the missing prefixes of the marker, numbered in order, and stops on the state labelled by the marker |
| TemplateSlicer.AddMarker | src/index.ts:160-179 | one outer round: a clash iff the marker was inserted before; otherwise the tables are the detector for one more marker |
| TemplateSlicer.BuildDetector | src/index.ts:157-179 | the reported clash is the first repeat; without one the tables are the trie and output table of all four markers |
| TemplateSlicer.FirstBlocking | src/index.ts:182-185 | the lowest state whose label is a marker and a strict prefix of a marker, or none when no state is so |
| TemplateSlicer.BlockingIffStrictPrefix | src/index.ts:182-185 | some state blocks iff one marker is a strict prefix of another |
| TemplateSlicer.BlockingState | src/index.ts:183-184 | a state records a marker and has transitions iff its label blocks |
| TemplateSlicer.FindBlocking | src/index.ts:182-186 | the blocking check finds the lowest blocking state; finding none, every state recording a marker has no way out |
| TemplateSlicer.NewSlicer | src/index.ts:144-198 | a clash is reported first, naming the first repeated marker; then a block, naming the lowest blocking state's marker; otherwise the tables are built as `Built` describes |
| TemplateSlicer.MarkersReachOutputs | src/index.ts:160-178 | on a built slicer, each marker followed from the root reaches the state that records it |
| TemplateSlicer.ErrLocClipped | src/index.ts:209-220 | `errLoc` is up to `debugLen` characters before the marker plus ` >>> ` (only when some exist), the marker itself, then ` <<< ` plus up to `debugLen` characters after it (only when some exist) |
| TemplateSlicer.LeadClipped | src/index.ts:211-216 | the leading context is clipped at the start of the template and present iff the marker does not start it |
| TemplateSlicer.TrailClipped | src/index.ts:214-218 | the trailing context is clipped at the end of the template and present iff the marker does not end it |
| TemplateSlicer.ErrLocExamples | src/index.ts:209-220 | the context for a marker at the start, in the middle and filling the whole template |
| TemplateSlicer.MarkerInsideBlock | src/index.ts:233-265 | on a slicer built from the default markers, a template of an opening marker followed by a marker that is no move of the mode it opens fails with `Unexpected` naming the second marker, ending at index 4 |
| TemplateSlicer.UnclosedBlock | src/index.ts:233-272 | on a slicer built from the default markers, a template that is only an opening marker fails with `Marker not closed` around that marker |
| TemplateSlicer.StrayMarker | src/index.ts:233-265 | on a slicer built from the default markers, a closing marker after nothing but line breaks and spaces fails with `Unexpected` naming it, ending where it ends |
| TemplateSlicer.SliceCodeStartAfterOutputStart | src/__tests__/Stcg.test.ts:127-131 | on a slicer built from the default markers, `[>[!` fails with `Unexpected` on `[!` ending at index 4; with `debugLen` 6 the message is the exact text the test expects |
| TemplateSlicer.SliceOutputStartAfterCodeStart | src/__tests__/Stcg.test.ts:133-137 | `[![>` fails with `Unexpected` on `[>` ending at index 4, with the message the test expects |
| TemplateSlicer.SliceCodeEndAfterOutputStart | src/__tests__/Stcg.test.ts:139-143 | `[>!]` fails with `Unexpected` on `!]` ending at index 4, with the message the test expects |
| TemplateSlicer.SliceOutputEndAfterCodeStart | src/__tests__/Stcg.test.ts:145-149 | `[!<]` fails with `Unexpected` on `<]` ending at index 4, with the message the test expects |
| TemplateSlicer.SliceUnclosedCode | src/__tests__/Stcg.test.ts:151-155 | `[!` fails with `Marker not closed` around `[!` (index 2, length 2), with the message the test expects |
| TemplateSlicer.SliceUnclosedOutput | src/__tests__/Stcg.test.ts:157-161 | `[>` fails with `Marker not closed` around `[>`, with the message the test expects |
| TemplateSlicer.SliceUnopenedCode | src/__tests__/Stcg.test.ts:163-167 | `!]` fails with `Unexpected` on `!]` ending at index 2, with the message the test expects |
| TemplateSlicer.SliceUnopenedOutput | src/__tests__/Stcg.test.ts:169-173 | `<]` fails with `Unexpected` on `<]` ending at index 2, with the message the test expects |
| TemplateSlicer.SliceUnopenedOutputOnOtherLine | src/__tests__/Stcg.test.ts:175-179 | two line breaks and two spaces then `<]` fail with `Unexpected` on `<]` ending at index 6; the message, from `StcgBase.Message` on the error thrown at src/index.ts:264, shows the four blank characters before the arrow, as the test expects |
| TemplateSlicer.ClashMessages | src/__tests__/Stcg.test.ts:183-202 | for the markers `m1 m4 m2 m2` and `m1 m1 m2 m3` the clash names the first repeated marker, in the exact text the suite expects |
| TemplateSlicer.BlockMessageOnCodeBegin | src/__tests__/Stcg.test.ts:227-235 | for the markers `a ab abc abcd` there is no clash, the lowest blocking state is labelled `a`, and the message is the text the suite expects |
| TemplateSlicer.BlockMessageOnCodeEnd | src/__tests__/Stcg.test.ts:238-246 | for `a1 ab abc abcd` there is no clash, the lowest blocking state is labelled `ab`, and the message is the text the suite expects |
| TemplateSlicer.BlockMessageOnOutputBegin | src/__tests__/Stcg.test.ts:249-257 | for `a1 a2 abc abcd` there is no clash, the lowest blocking state is labelled `abc`, and the message is the text the suite expects |
| TemplateSlicer.BlockMessageOnOutputEnd | src/__tests__/Stcg.test.ts:260-268 | for `a1 a2 abcd abc` the lowest blocking state is `abc`, created while inserting the later marker `abcd`, and the message is the text the suite expects |
| TemplateSlicer.DebugLenMessage | src/index.ts:310 | the exact text of the error for a negative `debugLen` |
| TemplateSlicer.NextAlternates | src/index.ts:252-260 | a marker is a legal move iff it continues the alternation open/matching close; the move enters the predicted mode with the predicted factory |
| TemplateSlicer.CutStep | src/index.ts:252-261 | a move turns the text since the last move into the next slice and keeps the template equal to pieces and markers joined |
| TemplateSlicer.MarkerEndsHere | src/index.ts:243-249 | a state that records a marker is reached only right after that marker in the input |
| TemplateSlicer.DetectStep | src/index.ts:233-249 | a detector step gives the state for the longer input, and a recorded marker ends exactly at the current index |
| TemplateSlicer.ScanStep | src/index.ts:229-266 | one round of the loop keeps the detector within its table, and can only fail with `Unexpected` |
| TemplateSlicer.ScanAfter | src/index.ts:222-267 | after any number of rounds the loop is still within the table, or has failed with `Unexpected` |
| TemplateSlicer.FailureSticks | src/index.ts:264 | once the loop has thrown, the outcome does not change with more input |
| TemplateSlicer.Round | src/index.ts:229-266 | the loop body, with its reset, its step, its move or its `Unexpected` error, computes exactly one `ScanStep` |
| TemplateSlicer.Sliced | src/index.ts:204-279 | `slice()` fails only with `Unexpected` or `Marker not closed` |
| TemplateSlicer.SliceTemplate | src/index.ts:204-279 | the scanning loop and the last slice compute exactly `Sliced` |
| TemplateSlicer.MoveStep | src/index.ts:252-261 | a round that makes a move keeps the loop's invariant `Progress` |
| TemplateSlicer.MoveMarks | src/index.ts:243-261 | a move is made on the first marker the detector records since the last move, so the moves stay exactly where markers are recorded and none is recorded since |
| TemplateSlicer.QuietMarks | src/index.ts:233-249 | a round in which the detector records no marker makes no move and keeps the record of where moves were made |
| TemplateSlicer.StuckStep | src/index.ts:262-265 | a round on a marker that is not a move fails naming that marker, the first one recorded since the last move, which ends there, with `errLoc` around it |
| TemplateSlicer.StepKeepsProgress | src/index.ts:228-266 | each round keeps `Progress` and `Marks` (moves exactly where markers were recorded, none since) or stops as `UnexpectedAt` describes |
| TemplateSlicer.ScanReachesEnd | src/index.ts:222-267 | on a built slicer, `Progress` or the described failure holds after the whole template |
| TemplateSlicer.FinishClosed | src/index.ts:275 | ending in text mode, the last Text slice completes the template, and the cuts are where the detector recorded markers |
| TemplateSlicer.FinishOpen | src/index.ts:271-272 | ending inside a region gives `Marker not closed` with `errLoc` around the last opening marker |
| TemplateSlicer.SlicedOutcomes | src/index.ts:204-279 | on a built slicer, success gives an odd number of slices alternating Text and Code/Output whose pieces and markers rebuild the template exactly, cut where the detector records a marker and nowhere else; `Unexpected` names the first marker recorded after the last move, which is not a move; `Marker not closed` comes with no marker recorded after the last move |
| TemplateSlicer.SpellsCuts | src/index.ts:233-261 | in a successful slicing the detector records a marker at a position iff a closing marker of the cut ends there, and it is that marker |
| TemplateSlicer.UnexpectedCuts | src/index.ts:233-265 | before the offending marker the detector records markers exactly at the ends of the moves' markers, and it records the offending marker where it ends |
| TemplateSlicer.SlicedWhenQuiet | src/index.ts:233-276 | a template in which the detector records no marker becomes one Text slice of the whole template, even when a marker the detector misses occurs in it |
| TemplateSlicer.OneSliceMeansQuiet | src/index.ts:233-276 | conversely, a slicing into one slice means the detector recorded no marker |
| TemplateSlicer.SlicedWithoutMarkers | src/index.ts:269-276 | a template with no marker in it becomes one Text slice of the whole template |
| Generator.OrString | src/index.ts:301-304 | `s \|\| d`: an absent or empty string takes the default, any other string stays |
| Generator.OrBool | src/index.ts:305 | `b \|\| d`: with a true default the result is always true |
| Generator.OrNumber | src/index.ts:306 | `n \|\| d`: an absent or zero number takes the default, any other stays |
| Generator.Defaulted | src/index.ts:301-306 | after defaulting every marker is present and non-empty, `trimAfterCode` is true and `debugLen` is present |
| Generator.DefaultedIdempotent | src/index.ts:301-306 | defaulting a second time changes nothing |
| Generator.StcgOptions.ApplyDefaults | src/index.ts:301-306 | the six assignments write exactly the defaulted options into the caller's object |
| Generator.Resolve | src/index.ts:291-311 | no options: the default markers, trimming on, `debugLen` 6; with options: a missing or empty marker takes its default, `debugLen` 0 or absent becomes 5; failure iff `debugLen` is negative, with `BadDebugLen`; trimming always on |
| Generator.Adjusted | src/index.ts:326-333 | a slice keeps its variant and a flattened slice stays flattened; only a Text slice right after a Code slice (unfiltered) can change |
| Generator.KeptExactly | src/index.ts:325-339 | by value: a slice is among the kept ones iff it is valid and is the adjusted form of one of the slices |
| Generator.KeptSound | src/index.ts:325-339 | every kept slice is valid and the adjusted form of a given slice |
| Generator.KeptComplete | src/index.ts:325-339 | by value: every valid adjusted slice is among the kept ones |
| Generator.KeptPositions | src/index.ts:325-339 | by position: the kept slices are the valid adjusted slices at increasing positions, in order, and a position is kept iff its adjusted slice is valid, so each valid slice is kept once even when an equal one is kept too |
| Generator.KeptBounds | src/index.ts:325-339 | the filter keeps at most as many slices as it is given, and flattened slices stay flattened |
| Generator.Assemble | src/index.ts:322-339 | the filter loop with its `lastCode` flag computes exactly `Kept` |
| Generator.Program | src/index.ts:342-344 | the program is at least one character per slice and ends in a line feed when there are slices |
| Generator.ProgramAppend | src/index.ts:342-344 | the program of two runs of slices is their two programs joined |
| Generator.ProgramLines | src/index.ts:342-344 | a program from Text and Code slices without line feeds has exactly one line per slice |
| Generator.TemplateWithoutMarkers | src/index.ts:322-344 | a template in which the detector records no marker (in particular one without markers) becomes one `__out__('…')` call with escaped line breaks, or the empty program when the template is empty |
| Generator.Scope | src/index.ts:372 | `run()`'s bindings: per-run data overrides globals, and `__out__` overrides both |
| Generator.Stcg.Global | src/index.ts:355-358 | adds the symbol, replacing one of the same name, and leaves the program as it was |
| Generator.Stcg.Create | src/index.ts:289-347 | the constructor: defaults written into the caller's options; `debugLen` checked first, then clash and block errors as `NewSlicer` states, then `slice()` errors; on success the program is `Program(Kept(slices))` with no globals |

## Left out

- Running the program: `new VMScript`, `new VM()`, `vm.freeze` and `vm.run` (src/index.ts:347, 363-383) belong to the vm2 sandbox and JavaScript itself. The model stops at the program text. `Scope` gives only the binding order of `run()`.
- The `StcgError` class and the wrapping of run-time errors (src/index.ts:6, 378-380): an error is a `Failure` value, and `Message` renders its text.
- `src/cli.ts` is not part of this model: argument parsing, file I/O and schema validation.
- Unicode: the template is a sequence of characters, one unit each. The difference between `for...of` (code points) and `slice` (UTF-16 units) for characters outside the Basic Multilingual Plane is not modelled.
- `debugLen` is an integer. NaN, fractional values and non-numbers are not modelled.
- Markers that name properties of `Object.prototype` (such as `constructor`, `toString` or `__proto__`): the source's `in` tests and table writes then reach inherited properties. The same holds for a global named `__proto__` given to `global`, since the store into a plain object (src/index.ts:357) sets its prototype instead and the spread at line 372 then drops it. The model's tables and scopes are plain maps.
- Whether the generated program is valid JavaScript: Text fragments do not escape `'` or `\`, and an Output slice of white space counts as valid.
- The last slice's factory is chosen with `Object.values(...)[0]`, which depends on property order. `SliceTemplate` takes any move of text mode. `TextMoves` shows that every such move makes a Text slice, so the result is the same.
- `trimLeading` changes the slice object in place. Here slices are values, and the filter puts the trimmed slice in place of the old one. Nothing else refers to a slice object, so no aliasing is lost.
- The scan loop's variables (`dState`, `cState`, `lIndex`, `lastLen`, `rVal`) are kept in one `Scan` record. `cIndex` is the loop counter. The record also carries the pieces cut so far and the markers that closed them. The source does not keep these; they exist to state what the slices rebuild.
- TemplateSlicer.NewSlicer: requires non-empty markers and `debugLen >= 1`. Its only caller guarantees both (src/index.ts:301-311). Empty markers, which defaulting makes impossible, are not modelled.
- TemplateSlicer.ErrLocClipped: stated for `len <= ind <= |template|` and `debugLen >= 1`, the only arguments `slice()` passes. `ErrLoc` itself is defined for all integers through `JsSlice`.
- MarkerTrie.MissedOverlap: stated for any table that is a trie of the labels `""`, `"a"`, `"aa"`, `"aab"`, the states inserting `aab` creates. It shows the detector's reset rule, not a run of the full constructor on four markers.
- The detector keeps the source's reset-to-root rule. No failure-function matching is added, so no claim is made that every occurrence of a marker is found.

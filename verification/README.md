# Verified models of the allocator, streaming and text algorithms in `common/`

This project models, in Dafny, the parts of the `common` library whose correctness rests on invariants that no single
function shows, and proves them for all inputs, all runs and, where memory is measured, all measurements.

- **Fitting a model to device memory** (`FitLayers`, `FitContext`, `FitFill`, `FitSteps`, `FitSearch`, `FitConvert`,
  `FitOverrides`, `Fit`, `FitRunsPast`).
  The memory measurement is an arbitrary function from layers per device and overflow buffers to one number per device;
  nothing is assumed about it, not even that more layers need more memory. The context is reduced by interpolation, the
  devices are filled back to front by false position, dense-only layers of a mixture-of-experts model are converted to
  full layers front to back, and the override table is written. The modules prove what every search keeps, that each
  ends, how far each search goes, and what the table holds also when writing it fails.
- **Streaming tool calls** (`JsonText`, `QuoteNormalizer`, `QuotePrefix`, `QuoteMeaning`, `QuoteValues`, `QuoteWords`,
  `ToolMapper`, `MapperLaws`, `ChatMessage`, `Streaming`, `StreamedCalls`, `TaggedArgs`, `MixedArgs`, `ToolOrder`,
  `JsonReader`, `GemmaTree`, `GemmaJson`, `GemmaPartial`). The mapper is a class that visits the syntax tree, and its
  every event refines one step of a specification. Messages of trees that are cut along their right spine only grow,
  so no delta computation fails, pinned ids never change and a client that adds up all deltas holds the final message.
  The quote normaliser keeps the meaning of Python values, keeps the brace count and, with an exact condition, only
  extends its output when its input is extended. The Gemma printer writes JSON for the value of its tree and a
  beginning of it for a truncated tree.
- **The line editor** (`Utf8`, `Utf8Text`, `Utf8Lines`, `LineEditor`). Byte buffer, width vector and both cursors stay
  in step with an abstract sequence of characters over any run of edits.
- **Text algorithms** (`Glob`, `CommonSubstring`, `PartialStop`, `CsvRow`), each against a meaning that does not
  mention the algorithm.
- **Marker segmentation and the two-ended comparison** (`Markers`, `DiffSplit`, `DiffEnds`).
- **Base64** (`Base64`): sections 4 and 5 of RFC 4648.

Loops over fields, arrays and flags are methods and classes proved against specification functions; what the code
promises is proved about those functions. `dafny verify dfyconfig.toml` checks the whole project.

## Where the code does not do what one might expect

Each of these is stated by a lemma or by the outcome of a method.

- If the search on the last device first accepts single layers, the count of its partial layers starts late and several
  full layers stay there (common/fit.cpp:611); `FitFill.LastDeviceFull` says how many. The conversion that follows counts
  those layers in its upper bound but no test converts them (common/fit.cpp:663-693): a test that converts everything else
  may be accepted while the bounds are still apart. `FitSearch.RunsPastIff` says that some measurement leads there exactly
  when the last device has more than one full layer and there is something to convert, or it has more than two. The
  distance that is then left is the number of those layers, less one (`FitSearch.SearchEnds`), and no test closes it
  (`FitSearch.NothingChanges`): if it is larger than one, the search at common/fit.cpp:675 does not end; if it is one,
  line 721 uses an index past the last device. `FitRunsPast.TwoSingleStepsRunPast` follows one measurement, a plain sum over the
  layers, through fill and conversion to that point, and `FitRunsPast.RunsPastLastDevice` through the whole assignment.
- If a device without layers already uses more than its target, the divisor at common/fit.cpp:604 may be zero.
  `FitFill.FillBackToFront` never divides by zero when empty devices fit; it does when the last device uses the same with
  all layers, above its target, and `FitFill.FillDividesIff` says that for all targets some measurement leads there unless
  there is no layer or no device. The same holds of the divisor at common/fit.cpp:676: some measurement makes it zero
  exactly when at least two layers lie between the bounds (`FitSearch.DividesIff`).
- The test for one more layer looks at `n_layer` but takes from `n_part` (common/fit.cpp:721-725): when only full layers
  are left on the last device, `n_part` wraps to its largest value. The wrapped allocation is measured like any other: in
  32-bit arithmetic its slice has no override at all (common/fit.cpp:478-479), unless assertions are compiled in. If it is
  refused, the conversion goes on from the state before. `FitConvert.TryExtraLayer` reports a wrapped allocation that is
  accepted and says exactly when that happens; `FitConvert.ExtraLayerBreaksCounts` is an instance of the wrap.
- Partial layers are the last ones of a device's slice, and the last index of the last slice is that of the output
  layer. That index gets an override as soon as the last device has any partial layer
  (`FitOverrides.OutputIndexEmittedIff`).
- The flush of a named pending call after a parse (common/chat-peg-parser.cpp:251-260) never has anything to do: a call
  that gets a name stops being pending at once.
- After an unnamed call was closed, the mapper's pointer leads nowhere; events that would use it are not defined
  (`ToolMapper.Defined`).
- A call delta that renames a call to the empty name or id, and text that is taken back, are not errors, but a client
  cannot follow them: `ChatMessage.DiffsRebuildIff` says exactly when the deltas carry everything.
- A double-quoted Python string with an escaped single quote is passed through and becomes no JSON string
  (`QuoteMeaning.StringKeepsTextIff`).
- An empty later piece of a string argument opens a new quote, so cutting such a piece down to nothing does not give a
  beginning (`Streaming.CutStringIff`).
- Extending the input does not always extend the output of the normaliser: not when the cut fell between a backslash
  and a quote, nor when a word outside strings looked like the beginning of True, False or None and then did not go on
  like it (`QuotePrefix.NormalizePrefixIff`).
- The comparison takes a segment twice when the loop has already consumed one side whose last segment matches again
  (common/chat-auto-parser-helpers.cpp:114-165). Then a difference may go unnoticed; `DiffSplit.SplitRebuildsIff` gives
  the exact condition and `DiffSplit.RepeatedMarkerExample` an instance.
- A line that is not well-formed UTF-8 leaves the editor with more or other characters than its buffer holds
  (`LineEditor.Editor.SetLineContents`); `Utf8Lines.WellFormedIff` says which lines do.
- A class `[!]` in a glob pattern accepts every character, since the bracket after the exclamation mark closes it.

## Model

| member | source | states |
|---|---|---|
| `FitLayers.StepSize` | common/fit.cpp:604-606 | whatever the measurements are, also when the quotient is negative and wraps, the step lies in [1, delta - 1] |
| `FitLayers.StepSizeInterpolates` | common/fit.cpp:604-606 | between a state that fits and one that does not, the step is the largest one under the straight line, unless it is clamped |
| `FitLayers.StepSizeAboveTarget` | common/fit.cpp:604-606 | when both states are above the target the quotient is too large, or negative and wraps, so the step is the largest one, unless the quotient is truncated to zero |
| `FitContext.DecideContext` | common/fit.cpp:228-373 | exactly when nothing changes, when the context alone suffices, when the host is too small and when the layer count divides by zero; which context results |
| `FitContext.RoundDown` | common/fit.cpp:342 | the largest multiple of 256 not above the guess, but never below the minimum context |
| `FitContext.InterpolateInRange` | common/fit.cpp:338-342 | the context lies between minimum and training context, is the minimum or a multiple of 256, and stays under the line through both measurements |
| `FitContext.InterpolationFits` | common/fit.cpp:338-342 | if memory use is on or under the chord, use at the chosen context is at most the target |
| `FitContext.ConvexIsUnderChord` | common/fit.cpp:338-342 | convex memory use is under the chord |
| `FitContext.InterpolationIsLargest` | common/fit.cpp:338-342 | if memory use is affine, every larger multiple of 256 exceeds the target |
| `FitContext.TargetBelowUse` | common/fit.cpp:299-326 | a negative surplus makes the target smaller than the full use, so that the divisor of the interpolation is positive |
| `FitContext.HeldBack` | common/fit.cpp:318-325 | with several devices the whole part of (nd + 1) / 2 layers of a dense model or (nd + 1) / 6 layers of a mixture of experts is held back, at the whole part of the model's size per layer |
| `FitContext.DeviceLayers` | common/fit.cpp:323 | the smaller of the number of layers asked for, as an unsigned number, and the number there are |
| `FitContext.TwoDevices` | common/fit.cpp:299-342 | an instance with all targets and contexts, for a dense model and for a mixture of experts |
| `FitFill.FillDevice` | common/fit.cpp:592-632 | the search ends for any measurement; the device takes all unassigned layers or one layer less than an allocation of the same shape measured not to fit; the state always carries its own measurement; layers are those of the accepted steps; the loop is the search that the lemmas are about; it divides by zero only above the target with at least two layers, and does so if all layers use the same as none |
| `FitFill.FirstTestDecides` | common/fit.cpp:604-630 | the first test is the interpolated step: if it is within the target the device gets at least as many layers, and otherwise fewer |
| `FitFill.UnassignedLayers` | common/fit.cpp:586-590 | what the later devices left, never negative |
| `FitFill.FillBackToFront` | common/fit.cpp:585-639 | total layers stay at most hp_ngl + 1; every device was settled while the earlier ones were empty; no division by zero if empty devices fit, and one if the last device uses the same, above its target, with all layers as without |
| `FitFill.FillDividesIff` | common/fit.cpp:585-604 | for all targets, some measurement makes the fill divide by zero iff there is a device and a layer besides the output layer |
| `FitFill.PlacedDependsOnTail` | common/fit.cpp:585-639 | that a device is settled depends on it and the later devices only, so filling earlier ones keeps it |
| `FitFill.LastDeviceFull` | common/fit.cpp:608-613 | on the last device every single layer that is accepted first stays full, and one layer of the first larger step |
| `FitFill.LastDeviceKeepsOneFull` | common/fit.cpp:608-613 | exactly one full layer stays iff one step was accepted or the first of several was larger than 1 |
| `FitSteps.ConvertEffect` | common/fit.cpp:684-687 | moving partial layers keeps the total and partial-at-most-all, and makes exactly that many layers full on the device |
| `FitSteps.MoveAll` | common/fit.cpp:661-669 | the loop computes the upper bound, which keeps the total, leaves no dense-only layers and one layer on the last device |
| `FitSteps.ConvertSteps` | common/fit.cpp:680-693 | the loop computes the test that the lemmas are about |
| `FitSteps.StepsEffect` | common/fit.cpp:680-693 | a test keeps all layers and converts exactly as many as asked, or all there are; only then the index runs past the last device; other devices keep their full layers |
| `FitSteps.StepsCompose` | common/fit.cpp:680-693 | two tests in a row are one test of the sum |
| `FitSteps.UpperBoundIsTest` | common/fit.cpp:661-693 | with one full layer on the last device the upper bound is the test that converts everything |
| `FitSearch.TestSearching` | common/fit.cpp:679-702 | after an accepted test devices behind the conversion point are dense-only, and the last one has as many full layers as before |
| `FitSearch.SearchEnds` | common/fit.cpp:675-710 | every search between a state and a refused allocation ends exactly one layer below a refused one, or past the last device with the uncounted layers left between the bounds |
| `FitSearch.SearchDevice` | common/fit.cpp:660-718 | the loop is the search; layers are conserved, every accepted test is within the target and of this device; it ends with everything converted, or with one more layer measured not to fit, or with nothing to convert; it divides by zero only with two layers between the bounds, and does so if both are measured the same above the target |
| `FitSearch.FirstTestDecides` | common/fit.cpp:676-710 | the first test converts the interpolated number of layers: if it is within the target the device gets at least as many full layers, and otherwise fewer, unless it runs past the last device |
| `FitSearch.DividesIff` | common/fit.cpp:660-676 | some measurement and target make the search divide by zero iff at least two layers lie between the bounds |
| `FitSearch.RunsPastIff` | common/fit.cpp:660-710 | some measurement and target lead the search past the last device iff it has more than one full layer and there is something to convert, or it has more than two |
| `FitSearch.FirstTestRunsPast` | common/fit.cpp:660-702 | then the first test does, for a measurement that refuses only the upper bound |
| `FitSearch.NothingChanges` | common/fit.cpp:675-702 | past the last device no test changes anything, so the search repeats itself |
| `FitSearch.RunsPastExample` | common/fit.cpp:660-702 | two devices of two layers each, the last one with full layers |
| `FitConvert.ExtraLayerWellFormedIff` | common/fit.cpp:724-727 | in 32-bit arithmetic, partial layers stay at most the layers iff there was a partial one to take or giver and receiver are the same |
| `FitConvert.ExtraLayerBreaksCounts` | common/fit.cpp:721-727 | two devices, only the output layer left on the last one: its partial layers wrap |
| `FitConvert.ExtraLayerEffect` | common/fit.cpp:724-727 | otherwise exactly one layer goes from giver to receiver, and the total and all numbers of full layers stay |
| `FitConvert.ChooseFraction` | common/fit.cpp:731-768 | which fraction is kept, and that nothing else changes: each choice is measured strictly below the targets of the device and of the next one; if up is kept, gate was measured not to be, if attention is kept, up was not, and if nothing is kept, neither was |
| `FitConvert.ExtraMeaning` | common/fit.cpp:720-769 | exactly when an extra layer is taken and which fraction of it is kept, by which allocations were measured not to fit; what buffers, memory and the first dense-only device are then |
| `FitConvert.OverflowToNext` | common/fit.cpp:733-735 | the overflow goes to the next device if there is one, and the other buffers stay |
| `FitConvert.TryExtraLayer` | common/fit.cpp:720-769 | conserves layers and numbers of full layers, sends the overflow to the next device, stays within both targets; a wrapped count is reported iff there is no partial layer to take and the test fits |
| `FitConvert.DenseStart` | common/fit.cpp:650-658 | the first of the devices at the end that all have layers |
| `FitConvert.ConvertFrontToBack` | common/fit.cpp:660-776 | over the whole conversion: total layers never change, the output layer stays full, the memory is that of the allocation, every accepted test was within the targets of its device, device after device; every device served ended with everything converted or just below an allocation measured not to fit, and keeps these full layers; each failure is what the search or the extra layer of the next device gives |
| `FitOverrides.SlicesTile` | common/fit.cpp:464-495 | every block given to devices lies in the slice of exactly one device, and slices are as long as the devices' layers |
| `FitOverrides.OverridesIncrease` | common/fit.cpp:476-495 | emitted block indices strictly increase, stay in their slices and number the partial layers |
| `FitOverrides.EmittedIff` | common/fit.cpp:476-495 | a block is emitted iff it is in the tail of some slice that holds the partial layers |
| `FitOverrides.PartialBlockIff` | common/fit.cpp:470-479 | in numbers, which blocks of a slice are partial |
| `FitOverrides.SlotOfBlock` | common/fit.cpp:488-489 | the first partial block of a device is written with the device's fraction and buffer, all other partial blocks with experts on the CPU |
| `FitOverrides.OutputIndexEmittedIff` | common/fit.cpp:472-495 | the output layer's index is emitted iff the last device has a partial layer |
| `FitOverrides.WriteDevice` | common/fit.cpp:478-494 | the next slots of the table are this device's overrides, the first with its own fraction and buffer; what the table holds when the bound or the largest block is hit |
| `FitOverrides.WriteTable` | common/fit.cpp:476-498 | all overrides in order and the terminator, below the bound; nothing else is written; the same for both ways to fail |
| `FitOverrides.SetLayers` | common/fit.cpp:460-498 | the split gets the layers of each device, the result their sum, and the table is as above |
| `FitOverrides.SmallModelsFit` | common/fit.cpp:460-498 | below 1000 blocks and with room for all layers no override is refused |
| `Fit.AssignLayers` | common/fit.cpp:570-781 | fill, conversion and table together: what is assigned keeps the layers of a settled fill and follows from it by accepted tests, the output layer stays full, every device ends as full as its search left it, which is everything or just below an allocation measured not to fit, and the table describes the assignment; each failure is that of the fill or of the next device of the conversion, with its measurement |
| `FitRunsPast.TwoSingleStepsRunPast` | common/fit.cpp:608-702 | with one measurement, a sum over the layers, the fill accepts two single layers on the last device and the conversion that follows runs past it |
| `FitRunsPast.RunsPastLastDevice` | common/fit.cpp:570-781 | with that measurement the whole assignment runs past the last device, whatever the table and the split |
| `JsonText.UnescapeEscape` | common/chat-peg-parser.cpp:70-81 | decoding the escaped inside of a string gives the string |
| `JsonText.EscapeTable` | common/chat-peg-parser.cpp:70-81 | which characters are escaped, and how (section 7 of RFC 8259) |
| `JsonText.EscapeMonotone` | common/chat-peg-parser.cpp:70-81 | escaping more text only adds to the escaped text |
| `JsonText.ParseEscaped` | common/chat-peg-parser.cpp:70-81 | between quotes, the escaped text is read back and reading stops at its closing quote |
| `JsonText.JsonBraceDepth` | common/chat-peg-parser.cpp:41-67 | the loop counts braces outside strings |
| `JsonText.ScanEscaped` | common/chat-peg-parser.cpp:41-81 | escaped text never changes the scanner's state inside a string |
| `JsonText.ClosingIff` | common/chat-peg-parser.cpp:405-409 | appending one brace per unclosed one closes the text iff it does not end inside a string |
| `QuoteNormalizer.ConvertUnit` | common/chat-peg-parser.cpp:92-182 | one round of the loop appends and consumes one unit and never is in both kinds of quotes |
| `QuoteNormalizer.NormalizeQuotesToJson` | common/chat-peg-parser.cpp:83-185 | the loop computes the conversion that the lemmas are about |
| `QuoteNormalizer.UnitSimulates` | common/chat-peg-parser.cpp:41-182 | after each unit the brace scanner of the output is where a scanner of Python text is in the input |
| `QuoteNormalizer.ConvertSimulates` | common/chat-peg-parser.cpp:41-182 | the same for whole texts, from any state |
| `QuoteNormalizer.NormalizeKeepsBraces` | common/chat-peg-parser.cpp:41-185 | the brace count of the output is the count of unclosed braces outside single- and double-quoted strings of the input |
| `QuoteNormalizer.AppendedValueKeepsBraces` | common/chat-peg-parser.cpp:380-409 | a converted value appended outside strings adds its own unclosed braces to the count |
| `QuoteWords.OnlyLiteralsChange` | common/chat-peg-parser.cpp:127-178 | text without quotes keeps its length, and only whole words that begin True, False or None change, character by character |
| `QuotePrefix.NormalizePrefixIff` | common/chat-peg-parser.cpp:83-185 | converting a beginning of the input gives a beginning of the whole conversion iff the cut splits neither an escaped quote nor a misleading word |
| `QuotePrefix.CutLiteral` | common/chat-peg-parser.cpp:146-175 | a word cut short converts to a beginning of its conversion iff the whole word is still a beginning of a literal |
| `QuotePrefix.OutsideUnitSame` | common/chat-peg-parser.cpp:127-178 | outside strings, any other cut leaves the units before it as they are |
| `QuoteMeaning.InsideKeepsMeaning` | common/chat-peg-parser.cpp:95-126 | the inside of a single-quoted string means the same text before and after conversion |
| `QuoteMeaning.DoubleQuotedIff` | common/chat-peg-parser.cpp:119-125 | the inside of a double-quoted string is a JSON string of the same text iff no single quote is escaped in it |
| `QuoteMeaning.QuotedString` | common/chat-peg-parser.cpp:95-144 | a string in either kind of quotes becomes one in double quotes with the converted inside, and conversion goes on outside strings |
| `QuoteMeaning.StringKeepsTextIff` | common/chat-peg-parser.cpp:95-144 | exactly which strings keep their text |
| `QuoteValues.NormalizeConvertsValues` | common/chat-peg-parser.cpp:83-185 | nested lists, dicts, strings in either quotes, numbers and literals in Python's notation become the JSON notation of the same value |
| `QuoteValues.NormalizeKeepsMeaning` | common/chat-peg-parser.cpp:83-185 | a JSON reader reads the converted text as the value that the Python text stands for |
| `ToolMapper.Step` | common/chat-peg-parser.cpp:277-417 | every event keeps pointer, pending call and finished calls consistent; a pending call is never named |
| `ToolMapper.RunTexts` | common/chat-peg-parser.cpp:279-290 | over any run, the content is the texts of the content events and the reasoning those of the reasoning events, in order |
| `MapperLaws.MessageHeads` | common/chat-peg-parser.cpp:304-335 | the calls of a message are those that were named, in order, each with its last name and its last id, trimmed and unquoted |
| `MapperLaws.CloseClosesString` | common/chat-peg-parser.cpp:388-404 | closing a call closes an open string as closing the argument would |
| `MapperLaws.OpenForgetsString` | common/chat-peg-parser.cpp:346-348 | opening an argument forgets an open string without closing it |
| `MapperLaws.RenameKeepsArguments` | common/chat-peg-parser.cpp:320-335 | a call named again keeps its arguments |
| `MapperLaws.CloseBalances` | common/chat-peg-parser.cpp:405-409 | closing a call balances its braces, however deep, outside strings |
| `ToolMapper.TrimMeaning` | common/chat-peg-parser.cpp:11-36 | all white space is removed at the end and at most one in front |
| `ToolMapper.UnquoteMeaning` | common/chat-peg-parser.cpp:312-317 | one pair of quotes around an id is removed |
| `ToolMapper.Mapper.NameTool` | common/chat-peg-parser.cpp:320-336 | the name moves the buffered arguments to the call and the call to the result |
| `ToolMapper.Mapper.NameArg` | common/chat-peg-parser.cpp:350-363 | appends separator and escaped name to the right target, opening the object first |
| `ToolMapper.Mapper.AddValue` | common/chat-peg-parser.cpp:365-386 | appends the escaped or converted value with one opening quote |
| `ToolMapper.Mapper.CloseTool` | common/chat-peg-parser.cpp:395-416 | closes string and braces, and drops a call without a name |
| `ToolMapper.Mapper.MapTool` | common/chat-peg-parser.cpp:312-416 | every tool event does what the step says |
| `ToolMapper.Mapper.Map` | common/chat-peg-parser.cpp:277-417 | every event does what the step says |
| `ToolMapper.Mapper.Visit` | common/peg-parser.cpp:291-300 | a node is mapped before its children, in order |
| `ToolMapper.Mapper.FromAst` | common/chat-peg-parser.cpp:246-275 | the message of a whole tree visited in pre-order, its content and reasoning the texts of the content and reasoning nodes in order, with white-space-only reasoning discarded and nothing left to flush |
| `ChatMessage.ComputeDiffs` | common/chat.cpp:212-278 | the deltas, and the first error, as specified |
| `ChatMessage.ApplyCallDelta` | common/chat.cpp:248-270 | a call delta changes only the last call and gives the new one iff the call was extended |
| `ChatMessage.DiffsRebuildIff` | common/chat.cpp:54-67 | deltas exist and rebuild the new message iff the new message extends the old one |
| `ChatMessage.StringDiffMeaning` | common/chat.cpp:54-67 | added text is the delta, text taken back is none, other changes are errors |
| `ChatMessage.DiffsErrorIff` | common/chat.cpp:212-278 | exactly when the deltas fail, and with which error first |
| `ChatMessage.DiffsCount` | common/chat.cpp:222-275 | one delta for each text that differs, for the last call if it changed, and for each new call |
| `ChatMessage.DiffsOrder` | common/chat.cpp:222-275 | reasoning, content, the last call and the new calls, in this order |
| `ChatMessage.PinnedMeaning` | common/chat.h:108-120 | only the ids change, to the pinned ones in order |
| `ChatMessage.SetToolCallIds` | common/chat.h:108-120 | ids once pinned stay, new calls are pinned to their own id or a new one |
| `Streaming.TrimEndMonotone` | common/chat-peg-parser.cpp:11-21 | trimming a beginning gives a beginning of the trimmed text |
| `Streaming.CutStringIff` | common/chat-peg-parser.cpp:365-383 | a piece of a string argument cut short gives a beginning iff it is not a later piece cut down to nothing |
| `Streaming.StepGrows` | common/chat-peg-parser.cpp:277-417 | every event in order only lets the message grow |
| `Streaming.CutStepGrows` | common/chat-peg-parser.cpp:277-417 | an event cut short gives a beginning of what the whole event gives |
| `Streaming.RunGrows` | common/chat-peg-parser.cpp:246-418 | so does every run of events |
| `Streaming.MessageGrows` | common/chat-peg-parser.cpp:246-418 | if the events of an earlier parse do the same as those of a later one up to a node that is cut, the earlier message is a beginning of the later one, field by field; texts of enclosing nodes may grow |
| `Streaming.TruncatedIsPartial` | common/peg-parser.cpp:291-306 | visiting a tree cut along its right spine gives the events of an earlier parse |
| `Streaming.TreeGrows` | common/chat-peg-parser.cpp:246-418 | the message of a tree cut along its right spine is a beginning of the message of the whole tree |
| `Streaming.TreesStream` | common/chat.cpp:212-278 | parses whose trees are cut along their right spines make up a stream |
| `Streaming.PinnedExtends` | common/chat.h:108-120 | messages that grow, with ids pinned, extend each other, and the ids agree |
| `Streaming.DeltasRebuild` | common/chat.cpp:212-278 | if each message extends the one before, all deltas together rebuild the last one |
| `Streaming.StreamRebuilds` | common/chat.cpp:212-278 | over a whole stream of parses no delta fails, pinned ids never change, and adding up all deltas gives the final message |
| `Streaming.StreamDeltas` | common/chat.cpp:212-278 | the loop that maps each parse, pins its ids and computes its deltas never fails and rebuilds the last message |
| `StreamedCalls.JsonCallTruncates` | common/chat.cpp:1011-1016 | however much of a JSON object has arrived, the call's tree is in order and cut as above |
| `StreamedCalls.TaggedCallTruncates` | common/chat-auto-parser-generator.cpp:394-401 | however many tagged string arguments are complete and however much of the next value has arrived, so is the call's tree |
| `TaggedArgs.RunArg` | common/chat-peg-parser.cpp:346-393 | the events of one string argument append exactly one entry |
| `TaggedArgs.RunArgs` | common/chat-peg-parser.cpp:346-393 | the events of a list of arguments append their entries, separated by commas |
| `TaggedArgs.TaggedCallRoundTrip` | common/chat-peg-parser.cpp:304-417 | for every list of string arguments the events give one call whose closed JSON object decodes to that list, names trimmed |
| `MixedArgs.MixedCallRoundTrip` | common/chat-peg-parser.cpp:304-417 | for every list of arguments, strings or Python values of any nesting, the events give one call with balanced braces, and a JSON reader reads its arguments as the object of these names and values |
| `ToolOrder.NameCommutesIff` | common/chat-peg-parser.cpp:320-393 | naming a call commutes with an event inside it iff arguments have been started or the event appends nothing |
| `ToolOrder.NameBeforeOrAfter` | common/chat-peg-parser.cpp:320-393 | a block of argument events gives the same call before and after the name |
| `ToolOrder.ObjectBeforeOrAfterName` | common/chat-peg-parser.cpp:238-344 | a whole JSON object gives the same call before and after the name |
| `ToolOrder.TaggedMayPrecedeName` | common/chat-peg-parser.cpp:346-393 | tagged string arguments may come before the name |
| `GemmaTree.PrintCommaSeparated` | common/chat-peg-parser.cpp:952-963 | the loop over children puts commas between them only |
| `GemmaTree.ToJsonGrows` | common/chat-peg-parser.cpp:926-1019 | a tree truncated along its right spine prints a beginning of what the full tree prints, for any nesting; only nodes that print a closing quote or bracket need to be marked partial |
| `GemmaPartial.PrintsUpToClosers` | common/chat-peg-parser.cpp:926-1019 | a tree that is still growing prints what it prints with all nodes complete, short of exactly the closers of its open nodes |
| `GemmaJson.TreeWrites` | common/chat-peg-parser.cpp:926-1019 | a complete tree prints the text of a JSON document that means its value |
| `GemmaJson.PrintsTheValue` | common/chat-peg-parser.cpp:926-1019 | a JSON reader reads the printed text as the value of the tree |
| `Utf8.EncodeShape` | common/console.cpp:411-430 | an encoding is one leading byte and up to three continuation bytes |
| `Utf8.DecodeEncoded` | common/console.cpp:365-430 | decoding what was encoded gives the code point and its length |
| `Utf8.EncodeExamples` | common/console.cpp:411-430 | the examples of section 7 of RFC 3629 and the largest code points of each length |
| `Utf8.DecodeMalformed` | common/console.cpp:365-409 | complete encodings are taken as a whole, any other byte is replaced alone |
| `Utf8.PrevUtf8CharPos` | common/console.cpp:432-439 | steps back over continuation bytes |
| `Utf8.NextUtf8CharPos` | common/console.cpp:441-448 | steps forward over continuation bytes, at most to the end |
| `Utf8Text.NextIsOffset` | common/console.cpp:441-448 | from the beginning of a character the next position is the beginning of the next one |
| `Utf8Text.PrevIsOffset` | common/console.cpp:432-439 | and the previous position that of the previous one |
| `Utf8Lines.DecodeAllEncoded` | common/console.cpp:365-430 | decoding a whole encoded text gives the text |
| `Utf8Lines.WellFormedIff` | common/console.cpp:365-430 | a line encodes some text iff what it decodes to is valid and encodes to the line again |
| `Utf8Text.EncodeInjective` | common/console.cpp:411-430 | a buffer holds only one text |
| `LineEditor.Editor.Insert` | common/console.cpp:958-996 | inserts one character at the cursor, at the end or in the middle, and stays in step; a number that is no code point adds a width only, and breaks the step |
| `LineEditor.Editor.Backspace` | common/console.cpp:928-957 | removes the character before the cursor and stays in step |
| `LineEditor.Editor.DeleteAtCursor` | common/console.cpp:456-495 | removes the character at the cursor and stays in step |
| `LineEditor.Editor.MoveLeft` | common/console.cpp:896-902 | one character to the left, in both cursors |
| `LineEditor.Editor.MoveRight` | common/console.cpp:903-909 | one character to the right, in both cursors |
| `LineEditor.Editor.MoveToLineStart` | common/console.cpp:529-537 | both cursors to the beginning |
| `LineEditor.Editor.MoveToLineEnd` | common/console.cpp:539-547 | both cursors to the end |
| `LineEditor.Editor.SkipLeft` | common/console.cpp:590-612 | the beginning of a run of spaces, or of other characters |
| `LineEditor.Editor.MoveWordLeft` | common/console.cpp:581-617 | both cursors to the word to the left |
| `LineEditor.Editor.SkipRight` | common/console.cpp:627-659 | the end of a run of spaces, or of other characters |
| `LineEditor.Editor.MoveWordRight` | common/console.cpp:619-664 | both cursors past the next word and the spaces after it |
| `LineEditor.Editor.SetLineContents` | common/console.cpp:497-527 | for any bytes, one width per decoded piece, and the cursor after the pieces that end within the given bytes; the editor is in step iff the line is well formed |
| `LineEditor.LoadedText` | common/console.cpp:497-527 | loading an encoded text shows the text |
| `LineEditor.Perform` | common/console.cpp:835-996 | an edit keeps the editor in step iff its characters are code points and its lines well formed, and then does to the document what it should |
| `LineEditor.PerformAll` | common/console.cpp:835-996 | every run of such edits does |
| `LineEditor.InsertUndone` | common/console.cpp:928-996 | backspace, or left and delete, undoes an insertion, which leaves the cursor after the character |
| `LineEditor.DeleteUndone` | common/console.cpp:456-996 | inserting the character again undoes a deletion; right and backspace is delete |
| `LineEditor.MovesUndone` | common/console.cpp:529-547 | left and right undo each other and stop at the ends, where backspace and delete do nothing |
| `LineEditor.TypingInserts` | common/console.cpp:958-996 | typing a text puts it where the cursor is and the cursor after it |
| `LineEditor.TypingShowsText` | common/console.cpp:958-996 | typed into an empty line, the text is what the line shows |
| `LineEditor.WordLeftMeaning` | common/console.cpp:581-617 | a step to the left passes spaces and then a word, and stops where it begins |
| `LineEditor.WordRightMeaning` | common/console.cpp:619-664 | a step to the right passes spaces, a word and the spaces after it |
| `LineEditor.PiecesWithinMeaning` | common/console.cpp:519-524 | the cursor goes after the last piece that ends within the given bytes |
| `LineEditor.InsertInStepIff` | common/console.cpp:411-430 | inserting gives a buffer of one more character iff the number is a code point; a width is added in any case |
| `Glob.ClassMatch` | common/common.cpp:706-744 | the loop decides membership in the ranges of the class, or outside them, for signed and for unsigned characters |
| `Glob.FindClassEnd` | common/common.cpp:769-776 | where a class ends, with a first bracket or dash as an item |
| `Glob.Match` | common/common.cpp:747-791 | matching ends and accepts exactly the texts that split into consecutive pieces, one per token of the pattern |
| `Glob.MatchName` | common/common.cpp:757-763 | the loop for one star tries exactly the slash-free beginnings |
| `Glob.GlobMatch` | common/common.cpp:793-795 | the same for texts up to their first NUL |
| `Glob.AcceptsPath` | common/common.cpp:751-756 | two stars take nothing or one more character |
| `Glob.LiteralPattern` | common/common.cpp:787-790 | a pattern without special characters accepts itself only |
| `Glob.TextFirst` | common/common.cpp:787-790 | plain text in front of a pattern stands for itself |
| `Glob.QuestionFirst` | common/common.cpp:764-766 | a question mark stands for one character that is not a slash |
| `Glob.StarFirst` | common/common.cpp:757-763 | a star stands for any characters but slashes |
| `Glob.TwoStarsFirst` | common/common.cpp:751-756 | two stars stand for any characters |
| `Glob.ClassFirst` | common/common.cpp:767-781 | a class stands for one of its characters |
| `Glob.UnclosedClass` | common/common.cpp:781-786 | an opening bracket that is not closed stands for itself |
| `Glob.NegationComplements` | common/common.cpp:706-744 | an exclamation mark in front of items accepts the other characters |
| `Glob.SingleItems` | common/common.cpp:731-744 | single items accept exactly themselves |
| `Glob.RangeFirst` | common/common.cpp:723-730 | a range accepts what lies between its ends, and the items after it what they accept |
| `Glob.FirstStandsForItself` | common/common.cpp:715-721 | a bracket or dash in the first place accepts itself |
| `CommonSubstring.FillTable` | common/common.cpp:451-465 | every table entry is the longest common suffix length of the two prefixes |
| `CommonSubstring.SuffixLongest` | common/common.cpp:458-459 | no string that ends at both places is longer than the entry |
| `CommonSubstring.StringLcs` | common/common.cpp:448-467 | the result occurs in both inputs, no common substring is longer, and none as long ends earlier in the first |
| `PartialStop.FindPartialStop` | common/common.h:806-820 | the smallest position from which the rest is a non-empty beginning of the stop word, if there is one |
| `PartialStop.ContinuationIff` | common/common.h:806-820 | a stop word may begin at a position iff some continuation completes it there |
| `PartialStop.SafeIff` | common/common.h:806-820 | the position found is exactly how much may be passed on, whatever follows |
| `CsvRow.ParseCsvRow` | common/arg.cpp:957-999 | the loop over index, field and quote flag computes the parse that the lemmas are about |
| `CsvRow.ParseRow` | common/arg.cpp:957-999 | a row of bare, quoted and unclosed cells is parsed to the values of its cells |
| `CsvRow.EveryInputIsARow` | common/arg.cpp:957-999 | and every input is such a row |
| `CsvRow.FieldCount` | common/arg.cpp:981-998 | one more field than commas outside quotes |
| `CsvRow.QuotingRoundTrip` | common/arg.cpp:952-999 | fields that are quoted, with quotes doubled, and joined by commas are parsed back |
| `Markers.SegmentizeMarkers` | common/chat-auto-parser-helpers.cpp:269-299 | segments tile the text; markers run from an opener to its first closer; text has no opener except an unclosed one at the end |
| `Markers.SegmentationUnique` | common/chat-auto-parser-helpers.cpp:269-299 | these rules admit one segmentation only |
| `Markers.SegmentsFit` | common/chat-auto-parser-helpers.cpp:269-299 | and every text has one |
| `Markers.BracketsExample` | common/chat-auto-parser-helpers.cpp:269-299 | a marker is closed by its own kind of bracket only |
| `DiffSplit.CommonPrefixLen` | common/chat-auto-parser-helpers.cpp:69-76 | the longest common prefix |
| `DiffSplit.CommonSuffixLen` | common/chat-auto-parser-helpers.cpp:78-85 | the longest common suffix |
| `DiffSplit.PeelEnds` | common/chat-auto-parser-helpers.cpp:109-144 | the loop that moves four ends; it stops when a side is down to one segment or both ends differ |
| `DiffSplit.Peel` | common/chat-auto-parser-helpers.cpp:109-144 | if both sides have more than one segment left, both ends differ |
| `DiffSplit.PeelAccounts` | common/chat-auto-parser-helpers.cpp:109-144 | every round keeps prefix, remainder and suffix adding up to each input |
| `DiffSplit.CalculateDiffSplit` | common/chat-auto-parser-helpers.cpp:87-207 | the split that the lemmas are about |
| `DiffSplit.LeftTwiceLoses` | common/chat-auto-parser-helpers.cpp:146-154 | a left side consumed before is reported with its last segment twice, unless the right side goes on from it |
| `DiffSplit.RightTwiceLoses` | common/chat-auto-parser-helpers.cpp:155-163 | a right side consumed before is reported with a segment twice |
| `DiffSplit.OneTwiceLoses` | common/chat-auto-parser-helpers.cpp:164-168 | if one side only was consumed, a repeated marker is reported as no difference |
| `DiffSplit.SplitRebuildsIff` | common/chat-auto-parser-helpers.cpp:87-207 | prefix, left or right, and suffix rebuild the inputs iff no segment is taken twice; no difference is reported iff the inputs are equal or the repeated marker hides it |
| `DiffEnds.SplitCuts` | common/chat-auto-parser-helpers.cpp:109-187 | unless a segment is matched twice, prefix and suffix are whole shared segments, as many as there are, and shared characters next to them only where both sides have text, as many as there are |
| `DiffEnds.MarkersDiffer` | common/chat-auto-parser-helpers.cpp:169-187 | two different markers have nothing in common |
| `DiffSplit.EqualInputs` | common/chat-auto-parser-helpers.cpp:87-194 | equal inputs give no difference |
| `DiffSplit.PlainTextSplit` | common/chat-auto-parser-helpers.cpp:172-187 | between plain texts nothing shared stays at either end of both remainders |
| `DiffSplit.RepeatedMarkerUnnoticed` | common/chat-auto-parser-helpers.cpp:121-168 | any two markers with the second one repeated on the right side are reported as equal |
| `DiffSplit.RepeatedMarkerExample` | common/chat-auto-parser-helpers.cpp:121-168 | the instance with the tags a and b |
| `Base64.LetterInTable` | common/base64.hpp:84-86 | letters are those of the two tables |
| `Base64.ValueOfLetter` | common/base64.hpp:344-389 | every letter has its value in its alphabet and in automatic mode, which it settles only if it tells the alphabets apart |
| `Base64.ValueIff` | common/base64.hpp:344-389 | exactly the letters of the tables in question have a value |
| `Base64.Encode` | common/base64.hpp:80-144 | the letters of the 24-bit groups and the padding; the length is as the size formula says |
| `Base64.EncodedSize` | common/base64.hpp:338-341 | the formula for the encoded size is exact |
| `Base64.SizesFit` | common/base64.hpp:318-341 | the size for decoding is enough for what was encoded, with less than three bytes to spare |
| `Base64.DecodeLetters` | common/base64.hpp:204-231 | the bit collector gives the bytes of the groups of letters up to the first padding character, or fails iff one of them is no letter |
| `Base64.CheckPadding` | common/base64.hpp:233-243 | unless decoding is loose, only padding may follow |
| `Base64.Decode` | common/base64.hpp:200-246 | what decoding gives and when it fails; never more bytes than the size formula says |
| `Base64.DecodesIff` | common/base64.hpp:200-246 | decoding succeeds iff the bytes in front of the padding are all letters of one allowed alphabet and, unless it is loose, only padding follows |
| `Base64.GroupBytesNext` | common/base64.hpp:219-230 | one more letter adds at most one byte, joined from the pending bits |
| `Base64.DecodeLettersInPlace` | common/base64.hpp:294-298 | writes never pass reads, and bytes from the write position on are untouched |
| `Base64.DecodeInPlace` | common/base64.hpp:294-316 | decoding in place leaves at the beginning of the buffer what decoding elsewhere returns |
| `Base64.SixthsRoundTrip` | common/base64.hpp:80-244 | regrouping bytes into six bits and back is lossless |
| `Base64.DecodeEncoded` | common/base64.hpp:80-244 | decoding an encoding returns the bytes, whatever alphabet was asked for, with the one that was used or a detected one, strict or loose |
| `Base64.AutoDecodesEither` | common/base64.hpp:370-386 | automatic decoding succeeds exactly when standard or URL-safe decoding does, with that result |
| `Base64.AlphabetsAgree` | common/base64.hpp:344-389 | letters of both alphabets have the same values in both |

## Left out

- Device queries, model loading, logging and the text of exceptions in common/fit.cpp; the memory measurement is a parameter, and so are the measured surplus and the measurement at the minimum context.
- An exception thrown by the measurement itself when the override table overflows is not modelled in the searches; below 1000 blocks and with the library's 4096 slots (src/llama.cpp:61) `FitOverrides.SmallModelsFit` shows that it cannot happen.
- FitSearch.SearchDevice: does not model what follows once a test that ran past the last device was accepted; it reports that case, since the source then loops without end or reads past its arrays.
- FitConvert.TryExtraLayer: does not model what follows once an allocation with a wrapped number of partial layers was accepted; it reports that case with its measurement.
- FitLayers.StepSizeInterpolates: memory sizes and products are unbounded integers, because 64-bit overflow would need memory beyond any device; the step is truncated to 32 bits as in the source.
- The checks in common/fit.cpp:374-400 that refuse parameters set by the user: branches without state.
- Streaming.StreamRebuilds: requires events in order, that is one non-blank name per call and a whole JSON object only before other arguments, because otherwise names change or arguments are overwritten and messages do not grow; later pieces of a string argument are not cut down to nothing, as `Streaming.CutStringIff` shows necessary, Python values only where `QuotePrefix.NormalizePrefixIff` allows it, and nothing comes of the nodes inside a node that is cut.
- The grammar engine that produces trees, and the parser builders: that parses of a growing text are cut along the right spine, and that names are parsed as a whole (common/chat-peg-parser.h:80-88), is the hypothesis of `Streaming.TreesStream`; the visit of the tree is modelled.
- Python strings with escapes that JSON does not share (such as \x), and surrogate pairs written as two \u escapes, have no meaning in `QuoteMeaning`.
- Escaping of text that is not valid UTF-8: the JSON library throws on it (vendor/nlohmann/json.hpp:21313-21316); characters are code points here.
- The visit function of the Gemma mapper and the name and reasoning handling around the printed arguments.
- LineEditor.Perform: requires an editor in step, since one out of step has no document to compare with; when an edit leaves that state is stated exactly.
- LineEditor.PerformAll: requires edits that keep the editor in step, for the same reason.
- History, completion, key decoding, the trailing slash and backslash commands and all drawing in common/console.cpp; measured widths are arbitrary numbers.
- Option tables, downloads, templates, chat parameters, embeddings and sampling helpers: plumbing, network or floating point without an invariant of this kind.

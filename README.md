# Live edit and heap-snapshot output, modelled in Dafny

This project models two parts of the V8 JavaScript engine.

**LiveEdit** (`src/debug/liveedit.cc`) replaces the source of a running script.
It does four things:

- **It compares the old and new source.** A dynamic-programming differencer
  (`Comparator::CalculateDifference`) finds a minimal edit script. `LiveEdit::CompareStrings`
  runs it first on lines, with the common prefix and suffix set aside
  (`NarrowDownInput`), and then re-compares each short changed span of lines on
  characters. The result is an array of number triples.
- **It moves positions.** `TranslatePosition` translates a position of the old text to
  the new text. `PatchFunctionPositions` uses it to update a function's positions and
  source-position table.
- **It checks activations.** `CheckAndDropActivations` decides whether each function may
  be replaced:
  - it is blocked by an active generator, by a frame on another thread, or by a frame
    on the current stack that cannot be dropped;
  - otherwise it may be replaced, and the frames to restart are chosen.

  `RestartFrame` does the same for a single frame.
- **It lists function literals.** `LiveEditFunctionTracker` lists the function literals
  of a script in pre-order, each with the index of its enclosing function.

**OutputStreamWriter** (`src/profiler/output-stream-writer.h`) writes heap snapshots
as JSON. It collects characters in a fixed-size chunk and hands each full chunk to the
embedder's `v8::OutputStream`. It also writes decimal numbers (`utoa`) and escapes
strings as JSON string literals (`SerializeString`).

The modules follow the source:

| module | file | models |
|---|---|---|
| `EditScript` | edit_script.dfy | the chunks of an edit script; what it means for a script to describe two sequences (`Matches`); shifting scripts |
| `DiffSpec` | diff_spec.dfy | the differencer as functions: the cost table, the walk of `SaveResult`, `Diff`; optimality |
| `Differ` | differencer.dfy | the `Differencer` and `ResultWriter` classes, with the table as a two-dimensional array |
| `Lines` | line_ends.dfy | `LineEndsWrapper`: a string as the lines between its line ends (the newlines, for `SplitLines`) |
| `StringDiffSpec` | string_diff_spec.dfy | the two-level comparison of `CompareStrings` as functions; the triple encoding |
| `StringDiff` | string_diff.dfy | `CompareStrings` and its input and output classes |
| `PositionTranslation` | position_translation.dfy | `TranslatePosition`, `TranslateSourcePositionTable`, `PatchFunctionPositions` |
| `ActivationSpec` | activation_spec.dfy | what the stack walk of `DropActivationsInActiveThreadImpl` decides, as functions |
| `Activation` | activation.dfy | the activation check and frame restart as methods over explicit stacks, threads and generators |
| `FunctionTracking` | function_tracker.dfy | `LiveEditFunctionTracker` |
| `DecimalText` | decimal.dfy | `utoa_impl`, `utoa`, `MaxDecimalDigitsIn` |
| `JsonEscape` | json_escape.dfy | the text `SerializeString` produces, and its reading as a JSON string (section 7 of RFC 8259) |
| `OutputStreamWriting` | output_stream_writer.dfy | `OutputStreamWriter` as a class over a chunk array, and the stream it writes to |

The main results:

- **The differencer.** The script it computes describes the two sequences, its chunks
  are ordered and disjoint, and no script that describes them changes fewer elements
  (`DiffSpec.DiffIsOptimalScript`).
- **`CompareStrings`.** Its triples decode to a character-level script that describes
  the two strings (`StringDiff.CompareStrings`). Every character outside the reported
  changes is translated to an equal character of the new text
  (`PositionTranslation.TranslateStringPosition`).
- **The function tracker.** It lists every function literal once, and every parent
  index points to an earlier entry (`FunctionTracking.Collect`).
- **The writer.** Everything added reaches the stream in chunks of the stream's size,
  in order, until the stream aborts (`OutputStreamWriter.Valid`, `Finalize`).
- **Escaping.** The escaped text of any byte string is a valid JSON string body made
  of characters from U+0020 to U+007F; DEL is copied unescaped. It denotes the input's characters, with code points above U+FFFF cut
  to 16 bits (`JsonEscape.EscapeReadsBack`, `JsonEscape.EscapeIsSpaceToDel`).

## Model

| member | source | states |
|---|---|---|
| EditScript.Shift | src/debug/liveedit.cc:387-403 | moving a script by the span offsets keeps one chunk per chunk |
| EditScript.ScriptCostAppend | src/debug/liveedit.cc:123-159 | the number of changed elements of two scripts in a row is the sum of theirs |
| EditScript.MatchesExtendBack | src/debug/liveedit.cc:283-319 | a script for two suffixes also describes them with an equal stretch in front |
| EditScript.MatchesCons | src/debug/liveedit.cc:188-234 | a chunk preceded by an equal stretch, then a describing script, is a describing script |
| EditScript.MatchesUncons | src/debug/liveedit.cc:188-234 | the first chunk of a describing script lies inside both sequences, follows an equal stretch, and the rest describes what follows it |
| EditScript.MatchesShift | src/debug/liveedit.cc:387-403 | a script computed on two windows, moved to where the windows start, describes the whole sequences |
| EditScript.MatchesShiftStep | src/debug/liveedit.cc:387-403 | the inductive step of MatchesShift for a non-empty script |
| EditScript.MatchesShiftNil | src/debug/liveedit.cc:387-403 | the base case of MatchesShift: an empty window script, moved, describes the whole sequences |
| EditScript.MatchesShiftCons | src/debug/liveedit.cc:387-403 | a window chunk moved back, followed by a describing script, describes the whole sequences |
| EditScript.ShiftAppend | src/debug/liveedit.cc:387-403 | moving a script distributes over concatenation |
| EditScript.ShiftIndex | src/debug/liveedit.cc:394-396 | each moved chunk is the chunk with both positions offset and its lengths kept |
| EditScript.MatchesExtendGap | src/debug/liveedit.cc:283-319 | a script from (x, y) describes the sequences from (i, j) when the stretches between are equal |
| DiffSpec.ScriptStepEq | src/debug/liveedit.cc:65-104 | at an equal pair the walk flushes the open chunk and steps diagonally |
| DiffSpec.ScriptStepSkip1 | src/debug/liveedit.cc:65-104 | on a skip of sequence 1 the walk opens or extends a chunk and advances in sequence 1 |
| DiffSpec.ScriptStepSkip2 | src/debug/liveedit.cc:65-104 | on a skip of sequence 2, or a tie, the walk opens or extends a chunk and advances in sequence 2 |
| DiffSpec.ScriptTail | src/debug/liveedit.cc:92-103 | when one sequence is exhausted, the rest of the other becomes one final chunk |
| DiffSpec.EqStepOk | src/debug/liveedit.cc:65-104 | an equal pair followed by a describing script keeps the walk's output describing the sequences |
| DiffSpec.SkipStepOk | src/debug/liveedit.cc:65-104 | skipping inside an open chunk keeps the walk's output describing the sequences |
| DiffSpec.TailOk | src/debug/liveedit.cc:92-103 | the final chunk describes the rest of both sequences |
| DiffSpec.ScriptMatches | src/debug/liveedit.cc:65-104 | the chunks of the walk describe the rest of both sequences |
| DiffSpec.ScriptCostIsCost | src/debug/liveedit.cc:123-159 | the chunks of the walk change exactly the number of elements the cost table gives |
| DiffSpec.EqStepCanon | src/debug/liveedit.cc:188-234 | flushing at an equal pair keeps the chunks non-empty, ordered and separated |
| DiffSpec.SkipStepCanon | src/debug/liveedit.cc:188-234 | skipping keeps the chunks non-empty, ordered and separated |
| DiffSpec.ScriptCanonical | src/debug/liveedit.cc:188-234 | the walk emits non-empty chunks in strictly ascending, disjoint order |
| DiffSpec.CanonicalCons | src/debug/liveedit.cc:188-234 | a non-empty chunk ending before a canonical script starts makes a canonical script |
| DiffSpec.CanonicalFrom | src/debug/liveedit.cc:188-234 | in a canonical script every chunk starts at or after the first |
| DiffSpec.CostSteps | src/debug/liveedit.cc:123-159 | dropping one element of either sequence changes the cost by at most one |
| DiffSpec.CostZeroIffEqual | src/debug/liveedit.cc:123-159 | the cost is zero exactly when the two suffixes are equal |
| DiffSpec.MatchesDropEqual | src/debug/liveedit.cc:123-159 | an equal pair in front of the first chunk can be stepped over |
| DiffSpec.MatchesDropDeleted | src/debug/liveedit.cc:123-159 | a first chunk deleting the current element shrinks to a script one cheaper |
| DiffSpec.MatchesDropInserted | src/debug/liveedit.cc:123-159 | a first chunk inserting the current element shrinks to a script one cheaper |
| DiffSpec.MatchesDropEmpty | src/debug/liveedit.cc:123-159 | an empty first chunk can be dropped at no cost |
| DiffSpec.CostIsMinimal | src/debug/liveedit.cc:123-159 | no script describing the two suffixes changes fewer elements than the table cost |
| DiffSpec.DiffMatches | src/debug/liveedit.cc:238-245 | the script for the whole sequences describes them |
| DiffSpec.DiffIsOptimalScript | src/debug/liveedit.cc:238-245 | the script describes the sequences, is canonical, costs the table cost, and no describing script costs less |
| DiffSpec.DiffEmptyIffEqual | src/debug/liveedit.cc:238-245 | the script is empty exactly when the sequences are equal |
| DiffSpec.DiffExample | src/debug/liveedit.cc:238-245 | "abc" against "axc" gives the single chunk (1, 1, 1, 1) |
| Differ.ResultWriter.Open | src/debug/liveedit.cc:188-234 | an open chunk begins at or before the cursor |
| Differ.ResultWriter.constructor | src/debug/liveedit.cc:190-193 | no chunk is open, no chunk emitted, cursor at (0, 0) |
| Differ.ResultWriter.Eq | src/debug/liveedit.cc:194-198 | flushes the open chunk and advances both cursors by one |
| Differ.ResultWriter.Skip1 | src/debug/liveedit.cc:199-202 | opens a chunk if none is open and advances cursor 1 |
| Differ.ResultWriter.Skip2 | src/debug/liveedit.cc:203-206 | opens a chunk if none is open and advances cursor 2 |
| Differ.ResultWriter.Close | src/debug/liveedit.cc:207-209 | flushes the open chunk |
| Differ.ResultWriter.StartChunk | src/debug/liveedit.cc:219-225 | opens a chunk at the cursor unless one is open |
| Differ.ResultWriter.FlushChunk | src/debug/liveedit.cc:227-233 | emits the open chunk, from its start to the cursor, and closes it |
| Differ.Differencer.constructor | src/debug/liveedit.cc:44-47 | allocates a table with one cell per pair of elements |
| Differ.Differencer.CostAt | src/debug/liveedit.cc:123-159 | a stored cell, or the remaining length at the table's edge, is the cost of that subproblem |
| Differ.Differencer.FillTable | src/debug/liveedit.cc:61-63 | after filling, every cell holds the cost and direction of its subproblem |
| Differ.Differencer.NewCell | src/debug/liveedit.cc:123-159 | a cell computed from its filled successors is the subproblem's cost and direction |
| Differ.Differencer.SaveResult | src/debug/liveedit.cc:65-104 | the walk over the filled table emits exactly the specified script |
| Differ.Differencer.Step | src/debug/liveedit.cc:70-91 | one step of the walk follows the cell's direction and keeps emitted-plus-remaining equal to the whole script |
| Differ.CalculateDifference | src/debug/liveedit.cc:238-245 | the result describes the sequences, is canonical, and no describing script changes fewer elements |
| Lines.LineBounds | src/debug/liveedit.cc:407-445 | each line starts where the previous ends and lies within the string |
| Lines.LineStartMonotone | src/debug/liveedit.cc:407-445 | line starts never decrease |
| Lines.Line | src/debug/liveedit.cc:407-445 | a line is the text from its start to its end |
| Lines.LinesFrom | src/debug/liveedit.cc:407-445 | there is one line per line index from the given one on |
| Lines.SplitLines | src/debug/liveedit.cc:407-445 | a string has one more line than it has newlines |
| Lines.LinesFromIndex | src/debug/liveedit.cc:407-445 | each element of the lines from i on is that line |
| Lines.SplitLinesIndex | src/debug/liveedit.cc:407-445 | element k of the lines is line k |
| Lines.LineShape | src/debug/liveedit.cc:407-445 | every line but the last ends with its newline, and no line has another newline |
| Lines.ConcatSnoc | src/debug/liveedit.cc:407-445 | joining lines up to k is joining them up to k-1, then line k-1 |
| Lines.SliceSplit | src/debug/liveedit.cc:407-445 | a slice of the string splits at any inner point |
| Lines.TextOfLines | src/debug/liveedit.cc:407-445 | the text between two line starts is the lines between them, joined |
| Lines.LinesTileString | src/debug/liveedit.cc:407-445 | the lines joined give back the string |
| Lines.EqualLinesEqualText | src/debug/liveedit.cc:463-477 | equal runs of lines cover equal text |
| StringDiffSpec.Triples | src/debug/liveedit.cc:333-347 | three numbers per chunk |
| StringDiffSpec.TriplesAppend | src/debug/liveedit.cc:333-347 | the triples of two scripts in a row are their triples in a row |
| StringDiffSpec.TriplesRoundTrip | src/debug/liveedit.cc:333-347 | a describing script is recovered from its triples |
| StringDiffSpec.CharSpan | src/debug/liveedit.cc:512-534 | the character span of a chunk of lines lies within both strings |
| StringDiffSpec.DiffDescribesAll | src/debug/liveedit.cc:358-385 | the character comparison of any two spans describes them |
| StringDiffSpec.RefineSpanNested | src/debug/liveedit.cc:520-530 | a span shorter than the limit is written as the character diff of its windows, moved back |
| StringDiffSpec.RefineCons | src/debug/liveedit.cc:512-534 | refining a script is refining its first chunk, then the rest |
| StringDiffSpec.RefineSingle | src/debug/liveedit.cc:512-534 | refining one chunk is that chunk's refinement |
| StringDiffSpec.RefineAppend | src/debug/liveedit.cc:512-534 | refining two scripts in a row is their refinements in a row |
| StringDiffSpec.InLinesAppend | src/debug/liveedit.cc:512-534 | two scripts within the lines stay within them when joined |
| StringDiffSpec.RefineSpanMatches | src/debug/liveedit.cc:512-534 | the chunks written for a span, followed by a describing script, describe the strings from the span on |
| StringDiffSpec.WindowMatches | src/debug/liveedit.cc:387-403 | a window script moved to the windows' start, followed by a describing script, describes the strings |
| StringDiffSpec.RefineStep | src/debug/liveedit.cc:512-534 | one chunk of lines preceded by equal lines refines to a describing character script |
| StringDiffSpec.RefineMatches | src/debug/liveedit.cc:512-534 | a line script that describes the lines refines to a character script that describes the strings |
| StringDiffSpec.SuffixStep | src/debug/liveedit.cc:299-306 | the suffix count goes on while the elements before the suffix are equal |
| StringDiffSpec.SuffixStop | src/debug/liveedit.cc:299-306 | the suffix count stops at the prefix or at the first unequal pair |
| StringDiffSpec.PrefixFromIsCommonPrefix | src/debug/liveedit.cc:291-297 | the counted prefix is common to both sequences and cannot be extended |
| StringDiffSpec.SuffixFromIsCommonSuffix | src/debug/liveedit.cc:299-306 | the counted suffix is common, stays clear of the prefix, and cannot be extended |
| StringDiffSpec.NarrowedScriptIs | src/debug/liveedit.cc:283-319 | the narrowed script is the middle part's diff, moved past the prefix |
| StringDiffSpec.MiddleScriptMatches | src/debug/liveedit.cc:283-319 | the middle part's diff, moved past an equal prefix and before an equal suffix, describes the sequences |
| StringDiffSpec.NarrowedScriptMatches | src/debug/liveedit.cc:283-319 | setting the common prefix and suffix aside loses nothing: the narrowed script describes the sequences |
| StringDiffSpec.NarrowedScriptInBounds | src/debug/liveedit.cc:283-319 | the narrowed script stays within the sequences |
| StringDiffSpec.DiffInBounds | src/debug/liveedit.cc:238-245 | the diff of two sequences stays within them |
| StringDiffSpec.ShiftInLines | src/debug/liveedit.cc:535-540 | chunks within a window, moved by the window's offset, stay within the whole |
| StringDiffSpec.MatchesBounds | src/debug/liveedit.cc:238-245 | the chunks of a describing script lie inside the sequences |
| StringDiffSpec.StringScriptMatches | src/debug/liveedit.cc:559-575 | the strings differ only inside the chunks CompareStrings reports |
| StringDiffSpec.StringScriptDecodes | src/debug/liveedit.cc:559-575 | the returned triples decode to the character script, which describes the strings |
| StringDiff.CompareSubstrings | src/debug/liveedit.cc:247-255 | true exactly when the two substrings are equal |
| StringDiff.CompareOutputArrayWriter.constructor | src/debug/liveedit.cc:326-327 | the array starts empty |
| StringDiff.CompareOutputArrayWriter.WriteChunk | src/debug/liveedit.cc:333-347 | appends the chunk's start, its end in string 1 and its end in string 2 |
| StringDiff.TokensCompareOutput.constructor | src/debug/liveedit.cc:389-392 | keeps the writer and the span offsets |
| StringDiff.TokensCompareOutput.AddChunk | src/debug/liveedit.cc:394-396 | writes the chunk moved by the span offsets |
| StringDiff.TokensCompareOutput.AddChunks | src/debug/liveedit.cc:394-396 | writes every chunk of a script moved by the span offsets, in order |
| StringDiff.LineArrayCompareInput.Elements1 | src/debug/liveedit.cc:447-497 | the lines of string 1's sub-range, one per line index |
| StringDiff.LineArrayCompareInput.Elements2 | src/debug/liveedit.cc:447-497 | the lines of string 2's sub-range, one per line index |
| StringDiff.LineArrayCompareInput.constructor | src/debug/liveedit.cc:449-456 | the sub-ranges start as all lines of both strings |
| StringDiff.LineArrayCompareInput.Equals | src/debug/liveedit.cc:463-477 | true exactly when the two lines of the sub-ranges are equal |
| StringDiff.LineArrayCompareInput.SetSubrange1 | src/debug/liveedit.cc:479-482 | sets sub-range 1 and keeps sub-range 2 |
| StringDiff.LineArrayCompareInput.SetSubrange2 | src/debug/liveedit.cc:483-486 | sets sub-range 2 and keeps sub-range 1 |
| StringDiff.TokenizingLineArrayCompareOutput.constructor | src/debug/liveedit.cc:504-510 | a fresh empty array writer and zero offsets |
| StringDiff.TokenizingLineArrayCompareOutput.AddChunk | src/debug/liveedit.cc:512-534 | writes the chunk of lines, moved to the whole strings, refined to characters |
| StringDiff.TokenizingLineArrayCompareOutput.AddChunks | src/debug/liveedit.cc:512-534 | writes the refinement of every chunk of a line script, in order |
| StringDiff.TokenizingLineArrayCompareOutput.SetSubrange1 | src/debug/liveedit.cc:535-537 | records the line offset of string 1 |
| StringDiff.TokenizingLineArrayCompareOutput.SetSubrange2 | src/debug/liveedit.cc:538-540 | records the line offset of string 2 |
| StringDiff.ShiftedChunkInLines | src/debug/liveedit.cc:512-534 | a chunk of a sub-range script, moved back, lies within the lines |
| StringDiff.WriteLineChunk | src/debug/liveedit.cc:512-534 | writes the triples of one refined chunk of lines |
| StringDiff.WriteLineChunks | src/debug/liveedit.cc:512-534 | writes the triples of the refinement of a moved line script |
| StringDiff.AppendRefined | src/debug/liveedit.cc:512-534 | refining one more chunk appends that chunk's refinement |
| StringDiff.RefinedTriplesStep | src/debug/liveedit.cc:512-534 | the triples of one more refined chunk follow those already written |
| StringDiff.NarrowDownInput | src/debug/liveedit.cc:283-319 | counts the longest common prefix, then the longest common suffix of the rest, and narrows input and output to what lies between |
| StringDiff.NarrowTo | src/debug/liveedit.cc:309-318 | narrows both sub-ranges and the output offsets to what lies between prefix and suffix |
| StringDiff.CommonPrefixLen | src/debug/liveedit.cc:291-297 | the length of the longest common prefix of the lines |
| StringDiff.CommonSuffixLen | src/debug/liveedit.cc:299-306 | the length of the longest common suffix, short of the prefix |
| StringDiff.CalculateLineDifference | src/debug/liveedit.cc:238-245 | writes the refinement of the diff of the narrowed lines, moved back |
| StringDiff.CompareStrings | src/debug/liveedit.cc:559-575 | returns the triples of the character script, which decode to a script describing both strings |
| PositionTranslation.TranslatePosition | src/debug/liveedit.cc:922-952 | the position shifted by the changes before it; unchanged before the first change |
| PositionTranslation.TranslateKeepsText | src/debug/liveedit.cc:922-952 | a position outside the changes of a describing script maps to an equal element of the new sequence |
| PositionTranslation.TranslateStringPosition | src/debug/liveedit.cc:922-952 | every position of the old text outside the changes maps into the new text, onto the same character |
| PositionTranslation.TranslatedEntry | src/debug/liveedit.cc:954-975 | an entry keeps its code offset, statement flag and inlining id and gets its script offset translated |
| PositionTranslation.TranslateSourcePositionTable | src/debug/liveedit.cc:954-975 | the new table has one translated entry per entry, in order |
| PositionTranslation.SharedFunctionInfo.constructor | src/debug/liveedit.cc:978-1009 | a function record with the given positions, scope positions, table and break info |
| PositionTranslation.PatchFunctionPositions | src/debug/liveedit.cc:978-1009 | start, end and token positions translated; scope info set to the new start and end; table translated; break info cleared |
| ActivationSpec.FirstRunFrom | src/debug/liveedit.cc:1083-1109 | the first listed function from k on that the frame runs, or none |
| ActivationSpec.FirstRun | src/debug/liveedit.cc:1083-1109 | the first listed function the frame runs, or none |
| ActivationSpec.IndexOf | src/debug/liveedit.cc:1126-1163 | the first listed function that is the given one, or none |
| ActivationSpec.Substitute | src/debug/liveedit.cc:1165-1176 | each status equal to `from` becomes `to`; the others are kept |
| ActivationSpec.Matched | src/debug/liveedit.cc:1121-1124 | a frame that is not a target changes nothing; the statuses keep their number |
| ActivationSpec.NewTargetUse | src/debug/liveedit.cc:1126-1163 | a frame that does not use new.target changes nothing; the statuses keep their number |
| ActivationSpec.SetAllStatus | src/debug/liveedit.cc:1165-1176 | the statuses keep their number |
| ActivationSpec.FindBreakFrame | src/debug/liveedit.cc:1195-1214 | a found break frame is a frame with the break id; a target above it keeps the statuses' number |
| ActivationSpec.ScanDroppable | src/debug/liveedit.cc:1216-1242 | the walk down stops at the first frame that cannot be dropped, with that frame's reason, or at the bottom |
| ActivationSpec.CheckBeneath | src/debug/liveedit.cc:1244-1264 | with no result, no JavaScript frame below is a target |
| ActivationSpec.ScanTargets | src/debug/liveedit.cc:1216-1242 | when the walk finds a target, the lowest one it records is a target with no target between it and where the walk stops; when it finds none, it meets none and leaves the statuses as they were |
| ActivationSpec.DropSpec | src/debug/liveedit.cc:1188-1285 | the statuses keep their number |
| ActivationSpec.FindBreakFrameMarkup | src/debug/liveedit.cc:1195-1214 | the search fails with a target above exactly when a target frame lies above the first break frame |
| ActivationSpec.MarkupIffTargetAboveBreak | src/debug/liveedit.cc:1188-1285 | the message "Debugger mark-up on stack is not found" is reported exactly when a target frame lies above the break frame |
| ActivationSpec.FindBreakFrameNone | src/debug/liveedit.cc:1195-1214 | without a break frame and without targets the search finds nothing |
| ActivationSpec.NoBreakFrameNoTarget | src/debug/liveedit.cc:1188-1285 | without a break frame and without targets the walk changes nothing and schedules nothing |
| ActivationSpec.RestartOnlyBottomTarget | src/debug/liveedit.cc:1266-1285 | a restart is scheduled only when asked for and supported, at a target frame at or below the break frame, below which no JavaScript frame is a target |
| ActivationSpec.NoRestartUnderNonDroppable | src/debug/liveedit.cc:1244-1264 | a target below a frame that cannot be dropped prevents any restart |
| ActivationSpec.FindBreakFrameTop | src/debug/liveedit.cc:1195-1214 | the first frame with the break id is found, unless a target lies above it |
| ActivationSpec.ScanStopsAtNonDroppable | src/debug/liveedit.cc:1216-1242 | the walk down stops at or before any frame that cannot be dropped |
| ActivationSpec.AllAvailable | src/debug/liveedit.cc:1397-1401 | n statuses, all available for patch |
| ActivationSpec.Entries | src/debug/liveedit.cc:1391-1401 | one array element per status, in order |
| ActivationSpec.ScanSavedStatus | src/debug/liveedit.cc:1221-1242 | the saved status is the initial one or blocked-on-active-stack |
| ActivationSpec.RestartSavesActiveStatus | src/debug/liveedit.cc:1473-1488 | when a single frame is restarted, its saved status is not a block |
| Activation.CheckActivation | src/debug/liveedit.cc:1083-1109 | a JavaScript frame running a listed function gives the first such function the status; otherwise nothing changes |
| Activation.ActivationTarget.constructor | src/debug/liveedit.cc:1115-1120 | a target with the given statuses and an available saved status |
| Activation.ActivationTarget.MatchActivation | src/debug/liveedit.cc:1121-1124 | answers whether the frame is a target and records the status as specified |
| Activation.ActivationTarget.GetNotFoundMessage | src/debug/liveedit.cc:1125 | the message of the target kind |
| Activation.ActivationTarget.FrameUsesNewTarget | src/debug/liveedit.cc:1126-1163 | answers and updates the statuses as the new.target rule specifies |
| Activation.ActivationTarget.SetStatus | src/debug/liveedit.cc:1165-1176 | sets the statuses as specified |
| Activation.DropActivationsInActiveThreadImpl | src/debug/liveedit.cc:1188-1285 | the message, the statuses and the frame to restart are those of the specified walk |
| Activation.DropActivationsInActiveThread | src/debug/liveedit.cc:1290-1315 | the specified walk's outcome; without an error no function stays blocked on the active stack |
| Activation.ActiveGeneratorStep | src/debug/liveedit.cc:1318-1353 | one more generator adds exactly that generator's function, when it is not closed |
| Activation.FindActiveGenerators | src/debug/liveedit.cc:1318-1353 | reports whether a listed function has an open generator; every listed function run by a generator that is not closed gets BLOCKED_ACTIVE_GENERATOR, whatever its earlier status, and the others keep theirs |
| Activation.InactiveThreadActivationsChecker.constructor | src/debug/liveedit.cc:1358-1362 | no function blocked yet |
| Activation.InactiveThreadActivationsChecker.VisitThread | src/debug/liveedit.cc:1363-1369 | blocks every listed function a frame of the thread runs first, and records whether any was found |
| Activation.ThreadBlocksStep | src/debug/liveedit.cc:1363-1369 | one more frame blocks a function exactly when it runs one |
| Activation.RunsOnThreadStep | src/debug/liveedit.cc:1363-1369 | one more frame marks exactly the first listed function it runs |
| Activation.OtherThreadStep | src/debug/liveedit.cc:1356-1378 | one more thread adds exactly the functions it runs |
| Activation.IterateArchivedThreads | src/debug/liveedit.cc:1411-1418 | after all threads, each listed function run on any of them is blocked on another stack |
| Activation.CheckAndDropActivations | src/debug/liveedit.cc:1381-1430 | an active generator, another thread, or the current stack decides the statuses, and a message element is appended only on error |
| Activation.RestartFrame | src/debug/liveedit.cc:1473-1488 | the single-frame walk's outcome; a restart is only the given frame, without message |
| FunctionTracking.Started | src/debug/liveedit.cc:1520-1529 | the new record has the current parent and the literal id, and no shared info yet |
| FunctionTracking.Done | src/debug/liveedit.cc:1533-1545 | the finished record carries its shared info |
| FunctionTracking.Size | src/debug/liveedit.cc:1509-1518 | a literal counts itself and the literals nested in it |
| FunctionTracking.FlatSize | src/debug/liveedit.cc:1509-1518 | the tracker adds one entry per literal |
| FunctionTracking.FlatUpToSize | src/debug/liveedit.cc:1509-1518 | the first k nested literals add one entry per literal |
| FunctionTracking.FlatParentsPrecede | src/debug/liveedit.cc:1509-1545 | the first entry has the given parent, every other entry an earlier one, and all have shared info |
| FunctionTracking.FlatUpToParents | src/debug/liveedit.cc:1509-1545 | the entries of nested literals have parents between the enclosing entry and themselves |
| FunctionTracking.LiveEditFunctionTracker.constructor | src/debug/liveedit.cc:1498-1507 | an empty list and no current parent |
| FunctionTracking.LiveEditFunctionTracker.FunctionStarted | src/debug/liveedit.cc:1520-1529 | appends the record with the current parent and makes it current |
| FunctionTracking.LiveEditFunctionTracker.FunctionDone | src/debug/liveedit.cc:1533-1545 | attaches the shared info to the current record and makes its parent current |
| FunctionTracking.LiveEditFunctionTracker.VisitFunctionLiteral | src/debug/liveedit.cc:1509-1518 | appends the entries of the whole subtree in pre-order and restores the current parent |
| FunctionTracking.Collect | src/debug/liveedit.cc:1490-1496 | one entry per literal in pre-order, the first with parent -1 and each other with an earlier entry as parent |
| DecimalText.DigitChar | src/profiler/output-stream-writer.h:55-56 | a digit character |
| DecimalText.Decimal | src/profiler/output-stream-writer.h:43-60 | at least one digit |
| DecimalText.Pow10 | src/profiler/output-stream-writer.h:16-24 | powers of ten are positive |
| DecimalText.DecimalRoundTrip | src/profiler/output-stream-writer.h:43-60 | the digits read back give the number, are all digits, and start with 0 only for 0 |
| DecimalText.DecimalLengthBound | src/profiler/output-stream-writer.h:16-24 | a number below 10^k has at most k digits |
| DecimalText.DecimalLength | src/profiler/output-stream-writer.h:46-50 | a number from 10^(k-1) to below 10^k has exactly k digits |
| DecimalText.DecimalFitsMaxDigits | src/profiler/output-stream-writer.h:16-24 | values of 4 bytes have at most 10 digits, of 8 bytes at most 20 |
| DecimalText.UtoaImpl | src/profiler/output-stream-writer.h:43-60 | writes the value's digits from the given position, returns the position after them, and changes nothing else |
| DecimalText.ToUnsigned | src/profiler/output-stream-writer.h:28-39 | the unsigned value of the same width congruent to the value |
| DecimalText.Utoa | src/profiler/output-stream-writer.h:62-67 | writes the digits of the value taken as unsigned |
| DecimalText.UtoaMinusOne | src/profiler/output-stream-writer.h:62-67 | -1 of 4 bytes is written as 4294967295, all ten digits |
| JsonEscape.HexChar | src/profiler/output-stream-writer.h:116 | an upper-case hexadecimal digit |
| JsonEscape.UCharEscape | src/profiler/output-stream-writer.h:115-122 | six characters |
| JsonEscape.WindowLength | src/profiler/output-stream-writer.h:157-169 | the byte and up to four following bytes |
| JsonEscape.Next | src/profiler/output-stream-writer.h:125-174 | the loop always advances, and never past the end |
| JsonEscape.Utf8Piece | src/profiler/output-stream-writer.h:157-169 | a decoded character is written as its escape and skips the bytes it used; a bad character is written as '?' and skips one byte |
| JsonEscape.Unescape | src/profiler/output-stream-writer.h:125-174 | reads a JSON string body as section 7 of RFC 8259 defines it |
| JsonEscape.UCharEscapeValue | src/profiler/output-stream-writer.h:115-122 | the four digits read back give bits 15..0 of the value |
| JsonEscape.HexCharValue | src/profiler/output-stream-writer.h:116 | a digit reads back as its value |
| JsonEscape.Low16 | src/profiler/output-stream-writer.h:118-121 | bits 15..0 are the four low hexadecimal digits |
| JsonEscape.ShortEscapeReadsBack | src/profiler/output-stream-writer.h:130-149 | a one-letter escape reads as its character |
| JsonEscape.UCharEscapeReadsBack | src/profiler/output-stream-writer.h:115-122 | a \u escape reads as bits 15..0 of the escaped value |
| JsonEscape.PlainReadsBack | src/profiler/output-stream-writer.h:151-152 | a character from U+0020 on, other than quote and backslash, reads as itself |
| JsonEscape.PieceReadsBack | src/profiler/output-stream-writer.h:125-174 | the text of one input character reads as that character's code unit |
| JsonEscape.AsciiText | src/profiler/output-stream-writer.h:129-155 | the text for an ASCII byte: a short escape, a backslashed quote or backslash, the byte itself, or a \u escape |
| JsonEscape.AsciiPieceReadsBack | src/profiler/output-stream-writer.h:129-155 | the text for an ASCII byte reads back as that byte |
| JsonEscape.UnitAt | src/profiler/output-stream-writer.h:125-174 | the code unit an input character stands for |
| JsonEscape.EscapeReadsBack | src/profiler/output-stream-writer.h:125-174 | the escaped text is a JSON string body denoting the input's characters |
| JsonEscape.UnitsStep | src/profiler/output-stream-writer.h:125-174 | the reference meaning advances over the input as the loop does |
| JsonEscape.AsciiRoundTrip | src/profiler/output-stream-writer.h:125-174 | for ASCII input the escaped text reads back as the input itself |
| JsonEscape.AsciiUnits | src/profiler/output-stream-writer.h:125-174 | the characters of an ASCII input are its bytes |
| JsonEscape.EscapeIsSpaceToDel | src/profiler/output-stream-writer.h:125-174 | every character of the escaped text lies in U+0020..U+007F: nothing below U+0020 is copied unescaped, while DEL (U+007F) is copied as it is |
| JsonEscape.PieceIsSpaceToDel | src/profiler/output-stream-writer.h:125-174 | the text of one input character lies in U+0020..U+007F |
| OutputStreamWriting.OutputStream.constructor | src/profiler/output-stream-writer.h:71-78 | a stream with the given chunk size that has received nothing |
| OutputStreamWriting.OutputStream.WriteAsciiChunk | src/profiler/output-stream-writer.h:204-206 | records the chunk |
| OutputStreamWriting.OutputStream.EndOfStream | src/profiler/output-stream-writer.h:112 | records the end of the stream |
| OutputStreamWriting.OutputStreamWriter.constructor | src/profiler/output-stream-writer.h:71-78 | an empty chunk of the stream's chunk size, nothing added, not aborted |
| OutputStreamWriting.OutputStreamWriter.AddCharacter | src/profiler/output-stream-writer.h:80-85 | appends the character, keeping the chunk invariant |
| OutputStreamWriting.OutputStreamWriter.AddString | src/profiler/output-stream-writer.h:86-90 | appends the characters of the string |
| OutputStreamWriting.OutputStreamWriter.AddSubstring | src/profiler/output-stream-writer.h:91-104 | appends the first n characters, nothing when n is not positive |
| OutputStreamWriting.OutputStreamWriter.CopyIntoChunk | src/profiler/output-stream-writer.h:99-101 | copies the characters into the chunk after what it holds |
| OutputStreamWriting.OutputStreamWriter.AddNumber | src/profiler/output-stream-writer.h:105 | appends the decimal digits of the number |
| OutputStreamWriting.OutputStreamWriter.AddNumberImpl | src/profiler/output-stream-writer.h:177-195 | appends the decimal digits on both the direct and the buffered path |
| OutputStreamWriting.OutputStreamWriter.AddUChar | src/profiler/output-stream-writer.h:115-122 | appends "\u" and four hexadecimal digits of the value |
| OutputStreamWriting.OutputStreamWriter.SerializeString | src/profiler/output-stream-writer.h:125-174 | appends a line break and the quoted escaped string |
| OutputStreamWriting.OutputStreamWriter.SerializeByte | src/profiler/output-stream-writer.h:128-170 | appends the text of one input character and returns the next index |
| OutputStreamWriting.OutputStreamWriter.SerializeAsciiByte | src/profiler/output-stream-writer.h:129-155 | appends the text for an ASCII byte |
| OutputStreamWriting.OutputStreamWriter.SerializeUtf8 | src/profiler/output-stream-writer.h:157-169 | appends the escape of the decoded character, or '?', and returns the next index |
| OutputStreamWriting.OutputStreamWriter.Finalize | src/profiler/output-stream-writer.h:106-113 | unless aborted, everything added has reached the stream and the stream is ended once; after an abort the stream is untouched |
| OutputStreamWriting.OutputStreamWriter.MaybeWriteChunk | src/profiler/output-stream-writer.h:196-201 | hands a full chunk over, leaving room in the chunk |
| OutputStreamWriting.OutputStreamWriter.WriteChunk | src/profiler/output-stream-writer.h:202-208 | hands the chunk over unless aborted, and always empties it |
| OutputStreamWriting.WriteChunkAsWritten | src/profiler/output-stream-writer.h:202-208 | as written: once aborted, the chunk position is left as it is |
| OutputStreamWriting.AddCharacterAsWritten | src/profiler/output-stream-writer.h:80-85 | as written: the writer aborts when the chunk fills and the stream answers abort |
| OutputStreamWriting.AbortedChunkStaysFull | src/profiler/output-stream-writer.h:202-208 | with one-character chunks and an abort on the first chunk, the second character leaves the chunk full |
| OutputStreamWriting.AbortedFillStaysFull | src/profiler/output-stream-writer.h:202-208 | after an abort, filling the chunk leaves it full |

## Left out

- The differencer fills its table bottom-up, not by the memoised recursion of `CompareUpToTail`. Costs are plain numbers; the packing of cost and direction into one `int` (cost × 4), `kEmptyCellValue` and overflow of large tables are not modelled.
- `CalculateLineEnds`, the heap `FixedArray`/`JSArray` wrappers, `GatherCompileInfo` and everything that compiles or parses: line ends and function literals are inputs.
- The feedback-vector fixer, the script and code setters and `SerializeFunctionScope` (liveedit.cc:814-1078) are not part of this model, and neither is `FindSharedFunctionInfo`; shared function infos are identities.
- StringDiffSpec: neither the minimality of the script after narrowing nor the canonical form of the character-level script is proved; what is proved is that they describe the strings.
- StringDiff.TokenizingLineArrayCompareOutput.AddChunks: the calls the differencer makes to the output are modelled as one call with the chunks of the finished script.
- Activation: heap iteration, thread iteration and stack frames are inputs (sequences of frames, generators and threads). `ScheduleFrameRestart` is the returned frame index, and `kFrameDropperSupported` is a parameter.
- Activation.CheckAndDropActivations: the result array is a sequence of status entries plus an optional message entry. The `!IsSmi()` branch of `set_status` cannot be reached in the model, because statuses are always numbers.
- DecimalText: `SNPrintF` with "%u" is modelled as writing the digits, specified through `UtoaImpl`'s function `Decimal`.
- JsonEscape: `unibrow::Utf8::CalculateValue` is a parameter, of which only the cursor bounds are assumed (`DecoderContract`).
- OutputStreamWriting.OutputStream.WriteAsciiChunk: the embedder's stream is a class that records the chunks; its reply is any value.
- OutputStreamWriting.OutputStreamWriter.AddString: a C string is the characters before its NUL; `strlen` is the sequence length.
- OutputStreamWriting.OutputStreamWriter: the `aborted()` getter is the `aborted` field. The integer widths of `chunk_pos_` and `n` are unbounded.
- FunctionTracking.LiveEditFunctionTracker.FunctionDone: the scope-info list built from the function's scope is not modelled; only the shared function info is attached.

## Findings

| source | as written | input that shows it | evidently intended | confidence | as-written member | corrected member |
|---|---|---|---|---|---|---|
| src/profiler/output-stream-writer.h:202-208 | `WriteChunk` returns before resetting `chunk_pos_` once the stream has aborted, so a chunk that fills after the abort stays full. The next `AddCharacter` writes past the chunk (the check at line 82 fails), and `AddSubstring` computes a copy size of 0 and loops forever. | chunk size 1; the stream answers kAbort to the first chunk; three calls to `AddCharacter` | the chunk is emptied even when aborted, so that `0 <= chunk_pos_ < chunk_size_` holds between calls | medium; not executed | OutputStreamWriting.AbortedChunkStaysFull | OutputStreamWriting.OutputStreamWriter.WriteChunk |

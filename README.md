# Steno drills: a verified model

plover-drills is a pair of typing drills for stenography. In each drill a
learner is shown a word, types it on a steno machine through Plover, and
sees a diagram of the outline (the strokes) when they go wrong. There are
two front ends:

- **Terminal drill** (Python, Textual), in `main.py` and the `drill/`
  package. It reads Typey Type lesson files (`word<TAB>S/TROE/KES`). It
  picks an outline for a word from Plover's reverse lookup and draws each
  stroke on the Lapwing template. The keys of the stroke are highlighted by
  bank (left, centre, right of the pivot column).
- **Web drill** (TypeScript, React), in `src/`. It keeps its progress in a
  reducer (`reduceDrillState`) and loads its lessons with `generateDrills`.
  Input is judged by each system's `matchWord`: a prefix test for Mejiro,
  or a lookup in a table that `gen/gen.py` generates for Lapwing. Strokes
  are drawn by scanning a fixed steno order of template cells
  (`collectKeyPress`).

The model follows the source file by file:

| Dafny file | module | models |
|---|---|---|
| `text.dfy` | `Text` | `strip`/`trim`, `split` on one character, `join`, `startswith`, the last path segment |
| `input_match.dfy` | `InputMatch` | `match_lesson_input` and the two `matchWord`s |
| `drill_reducer.dfy` | `DrillReducer` | `reduceDrillState`, `onChange` with its debounced handler, the item on screen |
| `drill_order.dfy` | `DrillOrder` | the presentation order of a drill (`range`, `random.shuffle`, `createDrillDataIndex`) |
| `lesson_file.dfy` | `LessonFile` | `Lesson.load_typey_type` |
| `drill_files.dfy` | `DrillFiles` | `generateDrills` and its two inline copies |
| `bank_layout.dfy` | `BankLayout` | `drill/types/layout.py`: key grouping, the coloured diagram, Lapwing |
| `early_layout.dfy` | `EarlyLayout` | `drill/layout.py`, the earlier diagram |
| `outlines.dfy` | `Outlines` | `select_outline`, `show_colored_outline`, the hint rows |
| `lesson_screen.dfy` | `LessonScreens` | `LessonScreen` as a class with its fields |
| `key_scan.dfy` | `KeyScan` | the scan loop shared by the three `collectKeyPress` |
| `uni_v4.dfy`, `uni_stroke.dfy`, `mejiro31.dfy` | `UniV4Stroke`, `UniStroke`, `Mejiro31Stroke` | each diagram's template, steno order and mirroring |
| `prefix_table.dfy` | `PrefixTable` | `gen/gen.py`'s `main`: word → translations of outline prefixes |

The code is followed wherever it differs from the design description:

- The web loader does not trim the word column (`src/system/utils.ts:14`).
  Only the comparison trims it (`src/Drill.tsx:144`).
- A line without a tab is not rejected when it is read. It throws a
  `TypeError` when the outline is split (`src/system/utils.ts:15`). The
  terminal loader raises `ValueError` for it (`main.py:130`).
- Selecting an outline takes the first element of the reverse lookup's
  result. That result is modelled as a sequence whose order is Plover's.

State that the source updates in place is kept imperative:

- `LessonScreen` is a class. Its position, hint flag, hint rows and input
  are fields, and `lesson_data_indices` is an array that the constructor
  shuffles in place.
- `collectKeyPress` fills a 2-D array.
- The `gen.py` loops are methods over maps and sets.

Everything else is functions and lemmas.

## Model

| member | source | states |
|---|---|---|
| Text.Strip | main.py:311 | `strip()`/`trim()` leaves no whitespace at either end and never lengthens the text (whitespace as in `Text.IsSpace`; see Left out) |
| Text.StripRemovesBlankEnds | main.py:311 | what stripping removes is whitespace at the two ends and nothing else: the result is a slice between two blank runs |
| Text.StripKeepsUnpadded | main.py:131-132 | a text without whitespace at its ends strips to itself |
| Text.StripDropsLineEnd | main.py:128-131 | the line end `for line in f` keeps is stripped from an outline column without whitespace at its ends |
| Text.StripIdempotent | main.py:311 | stripping twice equals stripping once |
| Text.StripEmptyIffBlank | main.py:122-123 | a line strips to nothing exactly when it is all whitespace (`is_comment`) |
| Text.FirstIndexOf | main.py:130 | the first position of a character, or none exactly when it does not occur |
| Text.Split | main.py:130 | `split` on one character gives at least one part, and no part holds the separator |
| Text.OnePartIffNoSeparator | main.py:130 | a text splits into a single part exactly when it has no separator |
| Text.FirstPart | src/system/utils.ts:12 | the first part starts the text; unless it is the whole text, a separator follows it and the other parts split the rest |
| Text.FirstTwoParts | src/system/utils.ts:12-15 | the first two parts, with the separator between them, start the text and are followed by a separator or the end |
| Text.JoinSplit | main.py:130-131 | joining the parts of a split with the separator gives the text back |
| Text.SplitJoin | main.py:130-131 | splitting a join of separator-free parts gives the parts back |
| Text.SplitAtSeparator | main.py:130 | a text with one separator after a separator-free head splits into that head and the split of the rest |
| Text.SplitNoSeparator | main.py:130 | a separator-free text splits into itself alone |
| Text.LastSegment | src/system/utils.ts:21 | `path.split('/').pop()` has no `/`, ends the path, and is the whole path or follows a `/` |
| Text.LastPartIsSuffix | src/system/utils.ts:21 | the last part of any split ends the text and is the whole text or follows the separator |
| InputMatch.StartsWith | main.py:180 | `startswith` holds exactly when the prefix is a prefix |
| InputMatch.MatchLessonInput | main.py:177-183 | `Complete` iff input equals the word; `Wip` iff it differs and is a prefix; `Wrong` iff it is not a prefix |
| InputMatch.WrongIffMismatchAt | main.py:177-183 | input is `Wrong` exactly when it is longer than the word or differs from it at some position |
| InputMatch.EmptyInputNeverWrong | main.py:177-183 | empty input is `Complete` for the empty word and `Wip` for any other word |
| InputMatch.JsSubstring | src/system/mejiro.tsx:9 | `substring(start, end)` is the slice between the two ends when both lie in the string, the swapped slice when they are reversed, clamps ends outside the string to it, is empty when both lie on one side, and is never longer than the string |
| InputMatch.PrefixMatchWord | src/system/mejiro.tsx:8-10 | the Mejiro `matchWord` (also `src/system/Mejiro.tsx:7-9`) accepts exactly the prefixes of the word |
| InputMatch.PrefixMatchBoundaries | src/system/mejiro.tsx:8-10 | empty input and the whole word are accepted; input longer than the word is rejected |
| InputMatch.PrefixMatchRejectsChangedChar | src/system/mejiro.tsx:8-10 | changing one character of an accepted input makes it rejected |
| InputMatch.SomeEqual | src/system/lapwing.tsx:15 | `prefixes.some(p => p === userInput)` holds exactly when the input is listed |
| InputMatch.TableMatchWord | src/system/lapwing.tsx:11-21 | the Lapwing `matchWord` (also its copies at `src/system/Lapwing.tsx:8-18` and `src/drill/Lapwing.tsx:6-16`) accepts exactly when the word is registered and the input is one of its listed translations; it throws `TypeError` exactly when the word is unregistered and names an inherited `Object.prototype` member, whose value passes the `undefined` test and has no `some` |
| InputMatch.TableMatchNeedsEntries | src/system/lapwing.tsx:12-19 | an unregistered word that is not an inherited `Object.prototype` name, or a registered word with no translations, is rejected without an error |
| InputMatch.InheritedNameThrows | src/system/lapwing.tsx:12-15 | an unregistered word such as `constructor` or `toString` finds the inherited member, and `prefixes.some` throws `TypeError` whatever was typed |
| InputMatch.TableMatchIsExact | src/system/lapwing.tsx:15 | the table test is whole-string equality: an unlisted proper prefix of a listed entry is rejected |
| DrillReducer.ReduceDrillState | src/Drill.tsx:35-76 | every action but `SET_TEXT` and `FAIL` clears the text and the hint; only `NEXT` can newly complete the drill; no action but `RESET` moves past the next item; `PREV` moves back at most one item and never completes |
| DrillReducer.ResetIsInitial | src/Drill.tsx:37-38 | `RESET` gives `initialDrillState` from any state |
| DrillReducer.SetTextAndFailAreLocal | src/Drill.tsx:40-44 | `SET_TEXT` changes only the text; `FAIL` changes only the hint flag |
| DrillReducer.NextAdvancesOrCompletes | src/Drill.tsx:46-53 | `NEXT` clears text and hint, steps forward unless at the last item, and completes exactly at the last item |
| DrillReducer.NextAtLastIsIdempotent | src/Drill.tsx:46-53 | at the last item `NEXT` gives the completed state, and a second `NEXT` changes nothing |
| DrillReducer.PrevStepsBack | src/Drill.tsx:55-69 | `PREV` clears text, hint and completion; it stays on the last item when completed, else steps back and stops at 0 |
| DrillReducer.ReducePreservesInDrill | src/Drill.tsx:35-76 | every action keeps the position inside the drill, and completion only at the last item |
| DrillReducer.ReduceAllStaysInDrill | src/Drill.tsx:35-76 | any run of actions keeps the position in `[0, n - 1]` |
| DrillReducer.RunFromInitialStaysInDrill | src/Drill.tsx:28-33 | a run from `initialDrillState` stays inside any non-empty drill |
| DrillReducer.InputAction | src/Drill.tsx:146-152 | the debounced handler dispatches `NEXT` iff the trimmed text is the word, `FAIL` iff it is not and `matchWord` rejects it, nothing iff `matchWord` accepts it, and lets the exception out iff `matchWord` throws |
| DrillReducer.OnChange | src/Drill.tsx:141-158 | a change records the raw text; against the trimmed word of the item on screen, the word advances as `NEXT` with the drill's length does, a rejected input raises the hint, and any other input, or a matcher that throws, changes only the text |
| DrillReducer.PrefixDrillAgreesWithLessonMatch | src/system/mejiro.tsx:8-10 | with the prefix matcher, the web drill advances on `Complete`, raises the hint on `Wrong` and only records text on `Wip` for the item on screen, as the terminal drill does |
| DrillReducer.InheritedNameNeverFails | src/system/lapwing.tsx:12-15 | with the Lapwing matcher, an item whose word is an unregistered inherited `Object.prototype` name never raises the hint: unless the word is typed, only the text changes |
| DrillReducer.CurrentItem | src/Drill.tsx:141-143 | the item on screen is one of the drill's items |
| DrillReducer.Expected | src/Drill.tsx:141-144 | the word the input is compared with is the item's word trimmed, so it has no whitespace at its ends |
| DrillOrder.Range | main.py:236 | `list(range(n))`, and `[...Array(n)].map((_, i) => i)` at `src/Drill.tsx:79`, has `n` entries and entry `k` is `k` |
| DrillOrder.RangeCountsOnce | main.py:236 | each position below `n` occurs exactly once in the identity order, and no other value occurs |
| DrillOrder.OrderVisitsEachOnce | main.py:236-238 | a presentation order has one entry per item, all in range, every item present and none repeated |
| DrillOrder.Shuffle | main.py:238 | `random.shuffle` only rearranges the list in place: its contents as a multiset are unchanged |
| DrillOrder.CreateDrillDataIndex | src/Drill.tsx:78-84 | the result is a permutation of `0..length-1`, and the identity when not shuffling |
| LessonFile.EntryLines | main.py:128-129 | the lines read are a subsequence of the file, none of them blank |
| LessonFile.EntryLinesAreTheNonBlankLines | main.py:122-129 | a line is read exactly when it is in the file and not blank |
| LessonFile.NoTabIsUnreadable | main.py:130 | a non-blank line without a tab cannot be unpacked |
| LessonFile.SecondTabIsUnreadable | main.py:130 | a line with two tabs or more cannot be unpacked either |
| LessonFile.OneTabIsRead | main.py:130-132 | a one-tab line reads as the stripped word and the stripped outline split at `/` |
| LessonFile.ReadAllPointwise | main.py:128-132 | the loop succeeds exactly when every kept line reads, and then gives each line's entry in order |
| LessonFile.LoadTypeyType | main.py:120-133 | `load_typey_type` gives the entries of the non-blank lines in order, or `ValueError` exactly when one of them does not have exactly two fields |
| LessonFile.UnreadableLineFails | main.py:128-130 | a single unreadable non-blank line makes the whole load fail |
| LessonFile.ParseLine | main.py:130-132 | a line without a tab cannot be unpacked; a line that reads gives a word without a tab or whitespace at its ends and an outline of at least one stroke |
| LessonFile.FormatThenRead | main.py:130-132 | a written entry's line reads back as that entry |
| LessonFile.FormatThenReadLine | main.py:128-132 | a written entry's line, with the line end `for line in f` keeps, reads back as that entry |
| LessonFile.FormattedLineIsKept | main.py:122-123 | a written entry's line, with or without its line end, is never taken for a blank line |
| LessonFile.LessonRoundTrip | main.py:120-133 | a file written one entry per line, each line ending in a newline except possibly the last, keeps every line and reads back as exactly those entries |
| LessonFile.NoBlankLinesKeepsAll | main.py:128-129 | a file without blank lines keeps every line |
| DrillFiles.ParseDrillLine | src/system/utils.ts:11-17 | a line fails, with `TypeError`, exactly when it has no tab |
| DrillFiles.ParsedLineLayout | src/system/utils.ts:12-15 | a line that reads is its untrimmed word, a tab, the outline joined with `/`, then the end or another tab; the outline has at least one stroke |
| DrillFiles.DrillLineRoundTrip | src/system/utils.ts:12-15 | a line written from a word and strokes without tab or `/` reads back as that item |
| DrillFiles.ExtraFieldsIgnored | src/system/utils.ts:12-15 | fields after the second are ignored |
| DrillFiles.MapAll | src/system/utils.ts:7-17 | `map` with a function that may throw gives every result in order exactly when no call throws, and otherwise the exception of the first call that throws |
| DrillFiles.ParseDrillLines | src/system/utils.ts:11-17 | the lines map to their items in order, or fail with `TypeError` exactly when some line has no tab |
| DrillFiles.TextLines | src/system/utils.ts:8-10 | the trimmed text splits into at least one line |
| DrillFiles.ParseDrillText | src/system/utils.ts:8-17 | a file that reads has one item per line of its trimmed text |
| DrillFiles.BlankTextThrows | src/system/utils.ts:8-17 | a file of whitespace only throws `TypeError` |
| DrillFiles.WrittenTextReads | src/system/utils.ts:8-17 | lines without blanks or tab-less lines, joined with newlines, read as one item each |
| DrillFiles.ParseDrillFile | src/system/utils.ts:7-24 | a file is named by the text after the last `/` of its path, and fails exactly when its text does |
| DrillFiles.ParseDrillFiles | src/system/utils.ts:6-24 | one file per entry in order, or failure exactly when some entry fails |
| DrillFiles.InsertByName | src/system/utils.ts:25-27 | insertion adds exactly the one file |
| DrillFiles.InsertKeepsSorted | src/system/utils.ts:25-27 | inserting into name-ordered files keeps them in name order |
| DrillFiles.SortByName | src/system/utils.ts:25-27 | the sort is a permutation of the files |
| DrillFiles.SortByNameSorts | src/system/utils.ts:25-27 | under a total collation the sorted files are in name order |
| DrillFiles.GenerateDrills | src/system/utils.ts:3-28 | `generateDrills` (and its inline copies at `src/system/Lapwing.tsx:25-46` and `src/drill/Lapwing.tsx:23-44`) succeeds exactly when every entry parses, and gives a permutation of the parsed files, one per entry |
| DrillFiles.GeneratedFilesComeFromEntries | src/system/utils.ts:3-28 | the files come out in name order, and each is named by the last segment of some entry's path and holds that entry's items |
| BankLayout.GroupMembership | drill/types/layout.py:27-36 | a name is in a bank's group exactly when some key of the stroke is in that bank and has that name |
| BankLayout.GroupKeys | drill/types/layout.py:27-36 | every key lands in exactly one group: the groups hold as many names as there are keys |
| BankLayout.AppendKey | drill/types/layout.py:27-36 | one more key appends its name to its own bank's group and leaves the other groups as they were |
| BankLayout.CollectStrokeKeys | drill/types/layout.py:23-37 | the loop, with list accumulators, gives the grouping of all keys in order |
| BankLayout.CollectStrokeKeysAsWritten | drill/types/layout.py:23-37 | with the `str` accumulators as written, the collector returns only for a stroke without keys |
| BankLayout.AsWrittenFailsOnAnyKey | drill/types/layout.py:24-30 | as written, every stroke with a key raises `AttributeError`, where the list version records every key |
| BankLayout.ProcessChar | drill/types/layout.py:49-57 | the template character is shown unchanged; it is marked only when it names a key of its column's bank, and never when that bank has no keys |
| BankLayout.RowsShowTemplate | drill/types/layout.py:45-62 | without its colour codes every rendered row is exactly its template row, for any stroke |
| BankLayout.HighlightIffKeyInBank | drill/types/layout.py:49-57 | a template character is highlighted exactly when a key of the stroke lies in its column's bank and is named by it |
| BankLayout.EmptyStrokeMarksNothing | drill/types/layout.py:49-57 | a stroke without keys highlights nothing |
| BankLayout.LapwingShape | drill/types/layout.py:66-73 | Lapwing has three rows of ten characters, and the pivot is the first `*` of row 0 |
| BankLayout.LapwingLeftKeysMarkLeftColumns | drill/types/layout.py:49-57 | `T-`, `P-`, `H-` mark columns 1 to 3 of row 0, and the right-hand `P` and `T` stay plain |
| BankLayout.LapwingRightKeyMarksRightColumn | drill/types/layout.py:49-57 | `-T` marks only the right-hand `T` (column 8), not the left-hand one |
| EarlyLayout.CollectFirstKey | drill/layout.py:22-36 | with the `return` inside the loop, only the first key is grouped, and a stroke without keys gives `None` |
| EarlyLayout.EarlyReturnDropsLaterKeys | drill/layout.py:36 | for `S-`, `T-` the early return keeps only `S`, where the full loop keeps `S` and `T` |
| EarlyLayout.SingleKeyStrokesAgree | drill/layout.py:22-36 | on strokes of one key the early return agrees with the full grouping |
| EarlyLayout.ShowStrokeIgnoresStroke | drill/layout.py:44-46 | `show_stroke` highlights nothing: any two strokes give the same rows |
| EarlyLayout.ShowStrokeText | drill/layout.py:59-66 | a stroke without keys raises `TypeError` on unpacking, and any other stroke gives `""` |
| Outlines.SelectOutline | main.py:36-49 | no outline exactly when the reverse lookup is empty, else its first outline (also `drill/runner.py:64-77`) |
| Outlines.SelectedOutlineTranslatesBack | main.py:43-48 | when every outline of the reverse lookup translates to the word, so does the selected one, and none is selected only for an empty lookup |
| Outlines.StrokeDiagram | main.py:52-54 | each stroke draws as three rows, and without colour codes they are the Lapwing template's rows |
| Outlines.MinRows | main.py:59 | `zip` stops at the shortest block: no longer than any block, and as long as one |
| Outlines.ShowColoredOutline | main.py:57-59 | an outline draws three rows, or none when it has no stroke (also `drill/runner.py:85-87`) |
| Outlines.SingleStrokeOutline | main.py:57-59 | a one-stroke outline draws as its stroke's diagram |
| Outlines.OutlineRowShowsTemplates | main.py:57-59 | without colour codes, row `r` shows template row `r` once per stroke, four spaces apart |
| Outlines.FillHintRows | main.py:322-328 | the hint has five rows: the outline's rows, each shifted by two spaces, then empty rows |
| Outlines.HintOfOutline | main.py:322-328 | a drawn outline fills rows 0 to 2 with shifted template rows and leaves rows 3 and 4 empty; an outline without strokes leaves all five empty |
| LessonScreens.Targets | main.py:250-255 | the `i`-th word asked for is the entry at position `order[i]` |
| LessonScreens.TargetsPermute | main.py:236-238 | presenting the same positions in another order presents the same entries in another order |
| LessonScreens.TargetsOfRange | main.py:236 | without shuffling the lesson is presented as it is |
| LessonScreens.PresentationCoversLesson | main.py:236-238 | in any presentation order each entry is asked for exactly as often as it occurs in the lesson |
| LessonScreens.LessonScreen.constructor | main.py:231-241 | positions in file order (shuffled in place when asked), position 0, the hint off and empty, the input empty |
| LessonScreens.LessonScreen.CurrentTarget | main.py:250-257 | the entry at the reached position in presentation order, and none exactly when the lesson is done |
| LessonScreens.LessonScreen.GotoNextLessonData | main.py:243-248 | one position on, the hint off and cleared, the input emptied, nothing else changed |
| LessonScreens.LessonScreen.ShowOutlineHint | main.py:322-328 | the hint rows show the outline's diagram shifted into five rows, nothing else changed |
| LessonScreens.LessonScreen.OnInputChanged | main.py:302-328 | when done nothing changes; `Complete` advances and clears; `Wrong` turns the hint on and shows the outline; `Wip` keeps the hint state |
| KeyScan.NextMatch | src/stroke/uniV4.tsx:65-71 | the inner loop stops at the first order index at or after the cursor whose cell shows the character, or at the end |
| KeyScan.Scan | src/stroke/uniV4.tsx:58-72 | every cell the scan presses lies on the template grid |
| KeyScan.DashOnlyMovesCursor | src/stroke/uniV4.tsx:61-64 | `-` presses nothing and moves the cursor to the right-hand start if it is behind it |
| KeyScan.ScanPressesNextMatch | src/stroke/uniV4.tsx:65-71 | any other character presses the cell the inner loop stops at, and the scan continues after that cell |
| KeyScan.EndIgnoresRest | src/stroke/uniV4.tsx:60 | once the cursor is at the end, the rest of the stroke presses nothing |
| KeyScan.ScanPressesOnlyMatchingCells | src/stroke/uniV4.tsx:58-72 | a pressed cell is in the steno order at or after the start, and its template text is one of the stroke's characters |
| KeyScan.ScanPressesAtMostOnePerChar | src/stroke/uniV4.tsx:58-72 | no more cells are pressed than the stroke has characters |
| KeyScan.ScanKeyPress | src/stroke/uniV4.tsx:46-72 | the loop (the same in `src/Stroke.tsx:49-75` and `src/stroke/mejiro31.tsx:34-61`) fills a fresh all-false grid of the template's shape and presses exactly the scan's cells |
| UniV4Stroke.UniV4WellFormed | src/stroke/uniV4.tsx:5-43 | the template is 3 × 12 and the steno order has 25 cells, each inside the template |
| UniV4Stroke.MirrorStarAndNumber | src/stroke/uniV4.tsx:74-81 | after the `|=` updates each cell is what the mirroring of the scanned cells gives |
| UniV4Stroke.CollectKeyPress | src/stroke/uniV4.tsx:45-84 | the scan's cells, mirrored: both `*` cells agree, the three `#` cells agree, and an empty or missing stroke presses nothing |
| UniV4Stroke.ScanNeverPressesRightStar | src/stroke/uniV4.tsx:17-43 | the scan alone never presses the right `*` cell, which is not in the steno order |
| UniV4Stroke.DashSelectsRightHand | src/stroke/uniV4.tsx:56-71 | `-T` presses only the right-hand `T`, and `T` only the left-hand one |
| UniV4Stroke.RightT | src/stroke/uniV4.tsx:39 | from the right-hand start the first `T` is order index 21, cell (0, 10) |
| UniV4Stroke.LeftT | src/stroke/uniV4.tsx:20 | from the start the first `T` is order index 2, cell (0, 1) |
| UniStroke.StrokeWellFormed | src/Stroke.tsx:15-46 | the 26-cell order fits the template and has `*` at index 8 (left) and 15 (right) |
| UniStroke.CollectKeyPress | src/Stroke.tsx:48-87 | the scan's cells, mirrored as in Uni V4; an empty or missing stroke presses nothing |
| UniStroke.SecondStarPressesRightCell | src/Stroke.tsx:62-75 | in this order `**` presses both `*` cells, and `-*` presses the right one |
| UniStroke.LeftStar | src/Stroke.tsx:15-46 | from the start the first `*` is the left cell (index 8) |
| UniStroke.RightStar | src/Stroke.tsx:15-46 | after the left `*`, the next `*` is the right cell (index 15) |
| Mejiro31Stroke.MejiroWellFormed | src/stroke/mejiro31.tsx:5-31 | the template is 4 × 13 and the 12-cell order lies in columns 0 to 5 |
| Mejiro31Stroke.ScanStaysLeft | src/stroke/mejiro31.tsx:18-31 | the scan presses only cells in the left half, columns 0 to 5 |
| Mejiro31Stroke.CollectKeyPress | src/stroke/mejiro31.tsx:33-66 | exactly the scan's cells, with no mirroring, never right of column 5; an empty or missing stroke presses nothing |
| PrefixTable.RStripNewlines | gen/gen.py:82 | `rstrip("\n")` removes only trailing newlines and leaves none at the end |
| PrefixTable.WordOfIsFirstColumn | gen/gen.py:82-84 | a line gives a word exactly when it has a tab, and the word is the text before the first tab |
| PrefixTable.WordsInLines | gen/gen.py:81-85 | a word is collected from a file exactly when one of its lines gives it |
| PrefixTable.WordsInAllFiles | gen/gen.py:78-85 | a word is collected exactly when one of the files gives it |
| PrefixTable.CollectFileWords | gen/gen.py:80-85 | one file's lines add exactly the words they give to the table's keys, and every word stays mapped to its reverse lookup |
| PrefixTable.CollectWordOutlines | gen/gen.py:77-85 | the first loop maps exactly the collected words, each to its reverse lookup |
| PrefixTable.PrefixCount | gen/gen.py:95-96 | an outline of `n` strokes has `n` distinct non-empty prefixes |
| PrefixTable.Translations | gen/gen.py:90-98 | the translation of every whole outline of a word is recorded |
| PrefixTable.TranslationsOfPrefixes | gen/gen.py:91-98 | a translation is recorded exactly when some non-empty prefix of some outline looks up to it |
| PrefixTable.CollectTranslations | gen/gen.py:89-98 | the inner loops record exactly the translations of all prefixes of all outlines |
| PrefixTable.WordToStrokes | gen/gen.py:87-99 | every collected word is mapped to the translations of its outlines' prefixes |
| PrefixTable.GenerateTable | gen/gen.py:71-100 | the table's words are exactly those of the lesson files, each mapped to the prefix translations of its reverse lookup |
| PrefixTable.TranslationsBoundaries | gen/gen.py:91-98 | a word without outlines gets nothing, and every first stroke's translation is recorded |

## Left out

- User interface: Textual widgets, React components, CSS, the progress bar, the header and footer, the numbering label, key bindings, the command palette and the lesson list. The model keeps only the state these widgets show.
- Plover is a parameter. `keysOf` stands for `Stroke.from_steno(s).keys()`, `reverseLookup` for `reverse_lookup` and `lookup` for `lookup`. Plover's setup, its configuration and dictionary loading are not modelled.
- File and glob I/O (`path.open`, `Path.glob`, `import.meta.glob`, the `json.dumps` output) is not modelled. A Python file is given as its sequence of lines, and a web lesson as its text.
- Randomness is an oracle `rand: nat -> nat` that drives a Fisher–Yates swap loop. Only "some permutation" is promised. The web drill sorts with a random comparator (`src/Drill.tsx:81`); it is modelled by the same swaps.
- `localeCompare` with numeric collation is the abstract order `le`. The JavaScript sort is modelled as a stable insertion sort. The result is sorted by name only when `le` is total.
- The order of `Object.entries`, of `Path.glob` and of `list(translations)` is not modelled. `PrefixTable.WordToStrokes` gives a set where the source gives a list in set order.
- Colour codes (`Fore.RED`, `Fore.RESET`) are modelled as `Piece` markers. `drill/types/layout.py` uses `Fore` without importing it; the model takes it to be colorama's.
- The phonetic hint (`fetchAccent` in `src/Drill.tsx:92-103`) uses the network and is not modelled.
- The 100 ms debounce delay is not modelled. `DrillReducer.OnChange` applies the debounced action right after `SET_TEXT`.
- Clearing the input (`main.py:248`) fires another `Changed` event, with the empty text. That event is not modelled as a second call.
- `show_lesson`, `run_lookup`, `print_colored_outline` and the runner's dictionary setup (`drill/runner.py:35-61`, `90-138`) only print or configure, and are not modelled.
- `main.py:9` imports `drill.layout`, which has no `show_colored_stroke`, so `main.py:54` would raise `AttributeError`. The model uses the intended `drill/types/layout.py` instead. `drill/runner.py:5` imports `types.layout`, which shadows the standard `types` module, and is not modelled.
- `src/system/Mejiro.tsx:12` globs the Lapwing drills and exports `lapwingSystem`. Only its `matchWord` is modelled. Its loader is `generateDrills` over whatever files it is given.
- Text.Strip: removes the whitespace `str.strip()` and `trim()` have in common (`Text.IsSpace`: tab, line feed, vertical tab, form feed, carriage return, space, no-break space, the Unicode space separators, and the line and paragraph separators). Python's `strip` also removes the ASCII separators `\x1c`–`\x1f` and `\x85`, which `trim` keeps; `trim` also removes `\ufeff`, which `strip` keeps. So `is_comment` and the field strips of `main.py:121-132` are not modelled for text holding those characters.
- Outlines.FillHintRows: requires at most five outline rows. The source would raise `IndexError` for more, but a Lapwing outline always has three.
- DrillReducer.CurrentItem: requires the position to be inside `drillDataIndex` and the index to be inside the drill. For an empty drill the source reads `undefined.word` and throws, which is not modelled.
- DrillReducer.Expected: requires the same of the item on screen, for the same reason.
- DrillReducer.OnChange: requires the same of the item on screen, for the same reason.
- KeyScan.ScanKeyPress: the source's rows are JavaScript arrays built from `chars[r].length`. The model uses one rectangular `array2`, which needs every template row to be `width` cells wide. All three templates are.
- The Mejiro diagram never presses a right-hand cell (`src/stroke/mejiro31.tsx:18-31`, `63`). This is modelled as written (`Mejiro31Stroke.ScanStaysLeft`).

## Findings

| source | as written | input that shows it | evidently intended | confidence | as-written member | corrected member |
|---|---|---|---|---|---|---|
| drill/types/layout.py:24-36 | the accumulators start as `""`, and `str` has no `append` | any stroke with a key, such as `S-` | list accumulators `[]`, one name appended per key | high; not executed | BankLayout.AsWrittenFailsOnAnyKey | BankLayout.CollectStrokeKeys |
| drill/layout.py:36 | `return [l, c, r]` is inside the `for` loop, so only the first key is grouped and a stroke without keys returns `None` | keys `S-`, `T-` give `[["S"], [], []]` | the `return` after the loop, which groups every key | high; not executed | EarlyLayout.EarlyReturnDropsLaterKeys | BankLayout.CollectStrokeKeys |

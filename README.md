# Lite analysis service: engine manager, defect merger and grade

This project models three parts of the JavaScript "lite" analysis service.

- **The engine manager** (`js/engine-manager.js`) keeps a queue of analysis targets and runs at most four at a time.
  - Each target's status moves from PENDING through ANALYZING to SUCCESS, TIMEOUT, STOP or FAIL. The moves are driven by the deadline timer, the engine's output lines and the process's `error`, `disconnect` and `close` events.
  - Each finished target is reported once through its done callback.
  - Each output line is classified. A finding line `[Impact][RULE] message (file:L:C-L:C)` yields an alarm with a code fragment cut out of the analysed file. A line `# File: total loc name` yields a file-size record. Two marker lines mark a type-analysis timeout and a normal end.
- **The historical defect merger** (`js/historical-defect-merger.js`) matches each alarm of a run against the branch's earlier defects, first fit.
  - A match updates the defect. No match creates a NEW defect.
  - Earlier defects that no alarm matched become FIXED.
  - Matching compares the rule, impact, message and file. It then compares the span, translated into the earlier file through a character diff. Last, it compares the code re-sliced from the stored fragments.
- **The grade** (`js/analyzer.js`, `gradeComputer` and `getGrade`) counts the open defects by impact. It turns each count into a density per thousand lines and grades the run POOR, NORMAL or GOOD against fixed thresholds.

Modules:

| module | file | what it holds |
|---|---|---|
| `JsStrings` | `js_strings.dfy` | The JavaScript string built-ins these files rely on, with their edge cases: `substring` clamps and swaps its arguments, `indexOf`, `lastIndexOf`, `split`, `join`, `String(n)`, `parseInt` and `Number` on a location component. |
| `EngineOutput` | `engine_output.dfy` | `getStartIndexOfPath`, the finding-line parser, `readCodeFragment` with its per-run file cache, the `# File:` line and the command lines. |
| `DefectCode` | `defect_code.dfy` | `getExtraCode` and `generateDefectCode`. |
| `EngineManager` | `engine_manager.dfy` | The scheduler. A `Target` class holds one analysis target's mutable fields; a `Manager` class holds the pending list, the active list and the id counter. Every method is proved equal to a pure transition function on a `TargetState` value. |
| `DefectLocation` | `defect_location.dfy` | `parseAlarmLocation`, `stringifyLocation` and the diff walk `getLastDetectedLocationByDiffChars`. |
| `DefectMerger` | `defect_merger.dfy` | `makeCode`, `isSameDefect`, the defect updates and the merge. |
| `Grade` | `grade.dfy` | `gradeComputer` and `getGrade`. |
| `SnippetRoundTrip` | `snippet_roundtrip.dfy` | How the two halves meet: the fragment the engine side cuts is the one the merger re-slices. |

The source's loops are modelled as Dafny loops with invariants, each proved equal to a specification function:

- `getStartIndexOfPath`;
- the middle lines of `generateDefectCode`;
- `makeCode`;
- the diff walk;
- the two passes of `mergeAlarmWithMergedDefects`;
- `mergeAlarms`;
- `stop`;
- `getStatus`.

Objects whose fields the source updates in place (the analysis target, the manager's lists) are classes.

Where the code and its description differ, the model follows the code:

- `start` never sets a target's timeout, so every analysis runs with the 20-minute default.
- A `# File:` line's name is the fifth token of the line split at runs of spaces, that is `tokens[4]`.
- `getGrade`'s sum of lines is NaN as soon as one file's `loc` is not a number, and NaN gives no grade.
- `getExtraCode` puts "..." before the context even when the context is the whole text before the column (column - 1 equal to the extra size). After the column it keeps extra + 1 characters before the "...".
- `parseInt` is called without a radix, so a size written `0x1F` reads as hexadecimal 31.

## Model

| member | source | states |
|---|---|---|
| JsStrings.Substring | js/engine-manager.js:72 | `substring` with both ends clamped to the string and swapped when reversed; the result is the slice itself for in-range ends |
| JsStrings.SubstringFrom | js/engine-manager.js:68 | `substring(start)`: the suffix from start; the whole string for a negative start, empty past the end |
| JsStrings.IndexOf | js/engine-manager.js:264 | `indexOf`: -1 exactly when the pattern occurs nowhere, otherwise its first occurrence |
| JsStrings.IndexOfAt | js/engine-manager.js:264 | an occurrence with none before it is what `indexOf` finds |
| JsStrings.FirstIndexOf | js/engine-manager.js:319 | `indexOf` of one character: -1 iff absent, otherwise a position holding it with none before |
| JsStrings.LastIndexOf | js/engine-manager.js:67 | `lastIndexOf`: -1 iff absent, otherwise a position holding it with none after |
| JsStrings.CountChar | js/engine-manager.js:73-74 | the number of occurrences; zero iff the character is absent |
| JsStrings.CountCharConcat | js/engine-manager.js:73-74 | occurrences add up over a concatenation |
| JsStrings.Split | js/engine-manager.js:73-74 | `split` at one character: one piece more than there are separators, and no piece contains the separator |
| JsStrings.SplitSep | js/engine-manager.js:73 | splitting at a separator occurrence splits the two sides independently |
| JsStrings.SplitPrefix | js/engine-manager.js:73 | a separator-free head before the first separator is the first piece |
| JsStrings.SplitJoin | js/engine-manager.js:375 | joining separator-free pieces and splitting again gives the pieces back |
| JsStrings.JoinSplit | js/engine-manager.js:375 | splitting and joining again gives the string back |
| JsStrings.JoinConcat | js/engine-manager.js:353 | joining two nonempty lists is joining each with a separator between |
| JsStrings.BeforeFirst | js/engine-manager.js:272-282 | `split(pat)[0]`: the whole string without the pattern, otherwise the text before its first occurrence |
| JsStrings.NatToString | js/historical-defect-merger.js:72-74 | `String(n)`: nonempty digits with no leading zero: it starts with 0 only for 0 |
| JsStrings.NatToStringValue | js/historical-defect-merger.js:72-74 | the rendered digits have value n |
| JsStrings.LeadingDigits | js/engine-manager.js:494-495 | the longest digit prefix, followed by a non-digit or the end |
| JsStrings.TrimStart | js/engine-manager.js:494-495 | the suffix of the text left once the leading white space `parseInt` skips is cut: all of the cut part is JavaScript white space (including U+00A0, U+FEFF, U+2028, U+2029) and what is left does not start with white space |
| JsStrings.TrimStartAfter | js/engine-manager.js:494-495 | white space before a text that does not start with white space is exactly what is cut |
| JsStrings.ParseInt | js/engine-manager.js:494-495 | `parseInt` without a radix: NaN for a blank text; a negative value only after a `-`; after `0x`/`0X` NaN iff no hexadecimal digit follows, otherwise NaN iff no decimal digit follows the sign |
| JsStrings.ParseIntSkipsWhitespace | js/engine-manager.js:494-495 | white space in front changes nothing |
| JsStrings.ParseIntOfTrimmed | js/engine-manager.js:494-495 | two texts equal once their leading white space is cut parse alike |
| JsStrings.ParseIntHexExample | js/engine-manager.js:494-495 | without a radix `0x1F` reads as 31 |
| JsStrings.ParseIntOfNatToString | js/engine-manager.js:494-495 | `parseInt` reads a rendered number back, whatever non-digit text follows, unless an `x` follows a lone 0 (then the text is hexadecimal) |
| JsStrings.DecimalNumber | js/engine-manager.js:225-228 | `Number` of a location component is a value iff the component is a nonempty run of digits |
| JsStrings.DecimalNumberOfNatToString | js/engine-manager.js:225-228 | `Number` reads a rendered number back |
| EngineOutput.NthLastIndex | js/engine-manager.js:80-83 | repeated `lastIndexOf` on the shrinking text: -1 or a position holding the character |
| EngineOutput.GetStartIndexOfPath | js/engine-manager.js:66-86 | getStartIndexOfPath's loop returns PathOpenIndex: the k-th last '(' where k counts the ')' after the last '(' |
| EngineOutput.StepBack | js/engine-manager.js:81-82 | one turn of the loop moves from the k-th last '(' to the (k+1)-th and cuts the text there |
| EngineOutput.OpensBackOf | js/engine-manager.js:67-74 | the count the source takes from the pieces after the last '(' is the number of ')' there, at least one |
| EngineOutput.NthLastIndexCount | js/engine-manager.js:80-83 | the k-th last '(' has exactly k '(' from it on; -1 iff there are fewer than k |
| EngineOutput.PathOpenIndexCount | js/engine-manager.js:66-86 | the opening found has as many '(' from it on as there are ')' after the last '(' |
| EngineOutput.PathOpenIndexLast | js/engine-manager.js:76-78 | with at most one ')' after the last '(' the path opens at the last '(' |
| EngineOutput.OpensAtLast | js/engine-manager.js:76-78 | a single ')' after the last '(' makes the path open there |
| EngineOutput.OpensOneBack | js/engine-manager.js:80-83 | two ')' after the last '(' make the path open at the '(' before it |
| EngineOutput.PlaceOf | js/engine-manager.js:298-327 | the cause is the text before the '(' getStartIndexOfPath finds, empty when it finds none; the file has no ':' |
| EngineOutput.FindingFieldsOf | js/engine-manager.js:270-291 | the fields of a finding line; None exactly when the text before the first "] " has no '[' and the source throws |
| EngineOutput.FindingFieldsOfShape | js/engine-manager.js:270-298 | a line `[impact][name] rest` with no bracket in impact or name gives that impact, that name and the place read from rest, whatever brackets rest holds |
| EngineOutput.HeadPieces | js/engine-manager.js:282-289 | `[impact][name` splits at '[' into an empty piece, `impact]` and the name |
| EngineOutput.FindingFieldsEvalExample | js/engine-manager.js:296-327 | `[Low][UNDEFINED] document.form1 is undefined (@eval(6):1:1-1:15)` gives impact Low, rule UNDEFINED, cause "document.form1 is undefined ", file "@eval(6)" and location "1:1-1:15" |
| EngineOutput.PlaceOfOpenAt | js/engine-manager.js:296-327 | once the path opens after the message, the rest splits at its first ':' into file and location |
| EngineOutput.PlaceInFile | js/engine-manager.js:319-327 | `file:location)` splits into the file and the location when the file has no ':' |
| EngineOutput.PlaceOfPlainFile | js/engine-manager.js:296-327 | `message (file:location)` with plain file and location is read back into its three parts |
| EngineOutput.PlaceOfGroupedFile | js/engine-manager.js:296-327 | the same for a file name with one parenthesised group, such as `@eval(6)` |
| EngineOutput.PlaceOfEvalExample | js/engine-manager.js:296-327 | the source's own example reads as message "document.form1 is undefined ", file "@eval(6)", location "1:1-1:15" |
| EngineOutput.ReadCodeFragment | js/engine-manager.js:218-249 | a location without '-' is the throw; a file in neither the cache nor the directory gives no fragment; otherwise the lines come from the cache or the split file, are cached, and the outcome is FragmentOf those lines at the span's numbers |
| EngineOutput.FragmentOf | js/engine-manager.js:225-248 | a throw exactly when a component is not a number or a span line is outside the file; otherwise the DefectCode fragment of those numbers |
| EngineOutput.CacheIsTransparent | js/engine-manager.js:230-245 | with a cache that agrees with the files, the outcome is the one read straight from the file, and the cache still agrees |
| EngineOutput.DropEmpty | js/engine-manager.js:491 | no empty piece is left, and every nonempty piece stays as often as it was there |
| EngineOutput.DropEmptyConcat | js/engine-manager.js:491 | dropping empty pieces works piece by piece, so the rest keep their order |
| EngineOutput.SplitSpaces | js/engine-manager.js:491 | `split(/[ ]+/)`: at least one piece, no piece with a space, only the first and last may be empty |
| EngineOutput.SplitLeadingSpaces | js/engine-manager.js:491 | a run of n spaces splits into n empty pieces before the pieces of what follows |
| EngineOutput.FileInfoOf | js/engine-manager.js:490-497 | the name is there iff the line has five tokens; lines of code need four and total lines three |
| EngineOutput.FileInfoOfSizeLine | js/engine-manager.js:490-497 | a `# File:` line gives name, lines of code and total lines from tokens 4, 3 and 2 |
| EngineOutput.AlarmOf | js/engine-manager.js:251-344 | a line whose impact cannot be read is the throw; otherwise the cache is readCodeFragment's, the handler throws iff readCodeFragment does, and the alarm has the line's impact, rule, cause, file and location, with the fragment read, or none when the file is missing |
| EngineOutput.AlarmOfMissingFile | js/engine-manager.js:218-249 | a finding on a file neither cached nor on disk gives its alarm without a code fragment and leaves the cache alone |
| EngineOutput.LineEffectOf | js/engine-manager.js:476-510 | the line handler's dispatch in order: finding, size line, type-analysis timeout, total time; only a finding touches the cache |
| EngineOutput.CreateLiteAnalysisCommand | js/engine-manager.js:369-378 | six arguments with the path fourth and `-rules` fifth; the joined rules split back into the rules |
| EngineOutput.CreateAnalysisCommand | js/engine-manager.js:347-367 | seven arguments, or nine with `-browser` and the joined browsers when browsers are given; the rules split back |
| DefectCode.GetExtraCode | js/engine-manager.js:102-131 | before the column: the whole text before it while the column is at most extra, otherwise "..." and the extra characters before it; after: the rest of the line while it ends within extra characters, otherwise extra + 1 characters and "..."; empty at the line's edge, bounded, with no line break the line lacks |
| DefectCode.ExtraBefore | js/engine-manager.js:105-116 | the context before a column, as GetExtraCode states it |
| DefectCode.ExtraAfter | js/engine-manager.js:117-129 | the context after a column, as GetExtraCode states it |
| DefectCode.RawCode | js/engine-manager.js:146-164 | the matched text runs over as many lines as the span: one line break fewer than span lines |
| DefectCode.MiddleLinesCount | js/engine-manager.js:154-160 | each middle line adds exactly one line break |
| DefectCode.Finish | js/engine-manager.js:166-216 | the code begins with the previous line if added, the context before, then the matched text; the span starts on line 2 iff the previous line was added, at the column after the context, with as many lines as the matched span and, on one line, as wide as the matched text |
| DefectCode.FinishCode | js/engine-manager.js:166-210 | the code begins with the previous line if added, the context before, then the matched text |
| DefectCode.DefectCode | js/engine-manager.js:133-216 | a fragment exactly when both span lines name lines of the file; None is the source's out-of-range throw |
| DefectCode.AccumulateRawCode | js/engine-manager.js:146-164 | the loop over first, middle and last lines builds exactly the matched text |
| DefectCode.GenerateDefectCode | js/engine-manager.js:133-216 | generateDefectCode returns the DefectCode fragment |
| DefectCode.AddShortContext | js/engine-manager.js:166-178 | around an oversized match, only ellipsis context is added and the columns are shifted |
| DefectCode.AddContext | js/engine-manager.js:179-210 | otherwise up to 300 characters of context, and the previous and next lines when the size allows |
| DefectCode.FragmentLines | js/engine-manager.js:135-197 | the fragment's span starts on line 2 iff the previous line was added (and it is then at the head of the code), otherwise on line 1, and has as many lines as the span |
| DefectCode.FragmentSize | js/engine-manager.js:166-210 | the fragment is the match plus at most 7 characters around an oversized match, otherwise bounded by 2000 + 303 + 304 |
| DefectCode.FragmentRows | js/engine-manager.js:146-210 | the fragment's lines: the previous line if added, the matched lines with their context, the next line if added |
| DefectCode.SingleLineSplit | js/engine-manager.js:146-210 | a one-line fragment's span sits on one line of the fragment |
| DefectCode.SingleLineRecovers | js/engine-manager.js:146-187 | slicing the fragment's span line at its own columns gives back exactly the matched text |
| EngineManager.Message | js/engine-manager.js:389-411 | the error texts of the done callback |
| EngineManager.TimeoutMessage | js/engine-manager.js:393-399 | the stop and timeout messages differ, and the timeout message carries the timeout in milliseconds |
| EngineManager.Finishing | js/engine-manager.js:381-413 | no error iff SUCCESS; STOP, TIMEOUT and ANALYZING give their own errors; any other status fails; typeAnalysisStatus becomes SUCCESS unless TIMEOUT, and FAIL on a failure |
| EngineManager.Admitted | js/engine-manager.js:426-463 | admission: ANALYZING, spawned process, start time, armed deadline, default timeout if unset, empty cache, started callback once; nothing else changes |
| EngineManager.TimerFired | js/engine-manager.js:449-456 | the deadline turns only a running analysis into TIMEOUT with a kill; anything else is untouched |
| EngineManager.ProcessFailed | js/engine-manager.js:534-546 | `error` and `disconnect` turn only a running analysis into FAIL |
| EngineManager.LineReceived | js/engine-manager.js:476-510 | no effect once not ANALYZING; otherwise the line's effect: one more alarm or file record, the timeout mark, SUCCESS, or the throw |
| EngineManager.Applied | js/engine-manager.js:481-509 | what a classified line does to the target; alarms and files only grow at the end, by one at most |
| EngineManager.Finished | js/engine-manager.js:381-413 | the verdict is applied and one report is appended, carrying a copy of the target |
| EngineManager.Closed | js/engine-manager.js:513-527 | `close` disarms the deadline and reports once, with no error iff SUCCESS |
| EngineManager.StoppedWhilePending | js/engine-manager.js:623-633 | a stopped pending target is STOP, reported once with the stop error, and never spawned |
| EngineManager.StoppedWhileActive | js/engine-manager.js:636-651 | a stopped running target is STOP with a kill when it has a process, and no report yet |
| EngineManager.NeverBackToPending | js/engine-manager.js:415-547 | no event brings a target back to PENDING |
| EngineManager.SettledStatus | js/engine-manager.js:449-546 | once SUCCESS, TIMEOUT, STOP or FAIL, timer, failures and lines change nothing, and finishing keeps the status |
| EngineManager.Target.constructor | js/engine-manager.js:571-578 | a new target is PENDING with no alarms, files, reports or process |
| EngineManager.Target.Admit | js/engine-manager.js:426-463 | the target's new state is Admitted of the old |
| EngineManager.Target.Spawn | js/engine-manager.js:430-441 | command, process and default timeout, as Spawned states |
| EngineManager.Target.Launch | js/engine-manager.js:442-463 | start time, ANALYZING, started callback, deadline and cache, as Launched states |
| EngineManager.Target.OnTimer | js/engine-manager.js:449-456 | the new state is TimerFired of the old |
| EngineManager.Target.OnProcessFailure | js/engine-manager.js:534-546 | the new state is ProcessFailed of the old |
| EngineManager.Target.OnLine | js/engine-manager.js:476-510 | the new state and the throw flag are LineReceived of the old state |
| EngineManager.Target.Apply | js/engine-manager.js:481-509 | the new state and the throw flag are Applied |
| EngineManager.Target.Finish | js/engine-manager.js:381-413 | finishingAnalysis: the new state is Finished of the old |
| EngineManager.FindId | js/engine-manager.js:658-663 | the first position with the id, -1 iff no target has it |
| EngineManager.Manager.constructor | js/engine-manager.js:12 | empty lists and the first id 100000 |
| EngineManager.Manager.GetUniqueTargetId | js/engine-manager.js:62-64 | returns the counter and increments it |
| EngineManager.Manager.CanStartAnalysis | js/engine-manager.js:54-60 | a start is allowed only while fewer than four are active |
| EngineManager.Manager.AnalyzePendingTarget | js/engine-manager.js:415-528 | with a pending target and fewer than four active, the oldest moves to the end of the active list and is admitted; otherwise nothing changes; at most four active, pending ones PENDING, ids distinct |
| EngineManager.Manager.Start | js/engine-manager.js:558-598 | no done callback: nothing; empty path: refused; otherwise the next id, and the stat error text, or a directory's new target queued: with four active it waits at the end of the pending list; otherwise it is admitted when nobody waited, or the oldest pending one is admitted and the new one waits; wherever admission does not run, the oldest pending target is untouched |
| EngineManager.Manager.Enqueue | js/engine-manager.js:587-589 | the new target joins the end of the pending list, then admission runs with its two outcomes |
| EngineManager.Manager.StopAnalysis | js/engine-manager.js:617-652 | a pending target with the id leaves the list and is STOP and reported; an active one is STOP with a kill; the manager stays valid |
| EngineManager.Manager.StopPending | js/engine-manager.js:623-633 | the pending loop of `stop` |
| EngineManager.Manager.StopPendingAt | js/engine-manager.js:623-633 | the pending target at a position leaves the list, is STOP and reported once; the manager stays valid |
| EngineManager.Manager.StopActive | js/engine-manager.js:636-651 | the active loop of `stop` |
| EngineManager.Manager.OnClose | js/engine-manager.js:513-527 | the target is Closed and leaves the active list, and the oldest pending target, if any, is admitted |
| EngineManager.Manager.Retire | js/engine-manager.js:514-523 | the target is Closed and taken out of the active list at its index |
| EngineManager.Manager.OnTimer | js/engine-manager.js:449-456 | the deadline of an active target, keeping the manager valid |
| EngineManager.Manager.OnProcessFailure | js/engine-manager.js:534-546 | `error` or `disconnect` of an active target, keeping the manager valid |
| EngineManager.Manager.OnLine | js/engine-manager.js:476-510 | an output line of an active target, keeping the manager valid |
| EngineManager.Manager.StatusOf | js/engine-manager.js:654-674 | PENDING iff some pending target has the id, ANALYZING iff none does and an active one has, none iff neither list has it |
| EngineManager.Manager.GetStatus | js/engine-manager.js:654-674 | getStatus's two loops answer StatusOf |
| EngineManager.InsertedKeepsIds | js/engine-manager.js:571-589 | a target with the next id joins without breaking distinct, bounded ids |
| EngineManager.RemovedKeepsIds | js/engine-manager.js:623-626 | removing a target keeps the ids distinct and bounded |
| EngineManager.OneList | js/engine-manager.js:617-652 | no id is both pending and active |
| EngineManager.IndexOfTarget | js/engine-manager.js:522-523 | `indexOf` of an active target is the position of its id |
| EngineManager.FiveSubmissions | js/engine-manager.js:558-598 | five directories submitted to a fresh manager: four active with the first four ids in order, the fifth PENDING with the next |
| EngineManager.Submit | js/engine-manager.js:558-598 | a directory submitted with nobody waiting and fewer than four active becomes active at the end with the next id |
| DefectLocation.DigitRuns | js/historical-defect-merger.js:61-62 | the matches of /[0-9]+/g are nonempty runs of digits (the two lemmas below say which) |
| DefectLocation.DigitRunsDigits | js/historical-defect-merger.js:61-62 | the runs one after the other are the digits of the text in order |
| DefectLocation.DigitRunsSeparated | js/historical-defect-merger.js:61-62 | a non-digit ends a run: the runs of `a c b` are those of a then those of b |
| DefectLocation.ParseAlarmLocation | js/historical-defect-merger.js:60-70 | a span iff there are four runs of digits, taken in order start line, start column, end line, end column |
| DefectLocation.StringifyLocation | js/historical-defect-merger.js:72-74 | no contract of its own: its text is described by StringifyHalves and StringifyRuns, and read back by ParseStringify |
| DefectLocation.StringifyRuns | js/historical-defect-merger.js:72-74 | the text of a span is the four runs of its numbers |
| DefectLocation.StringifyHalves | js/historical-defect-merger.js:72-74 | the text of a span with non-negative numbers splits at '-' into `startLine:startColumn` and `endLine:endColumn` |
| DefectLocation.ParseStringify | js/historical-defect-merger.js:60-74 | parseAlarmLocation reads back what stringifyLocation writes |
| DefectLocation.StringifyParse | js/historical-defect-merger.js:60-74 | on texts stringifyLocation writes, stringifyLocation gives back the parsed text |
| DefectLocation.RecordStart | js/historical-defect-merger.js:142-152 | when the span starts before the run's end, its earlier start line is the current one less the lines added plus those removed; its start column likewise on the current line, the column counts cleared otherwise; else nothing changes |
| DefectLocation.Step | js/historical-defect-merger.js:100-174 | removed text counts and stays put; added text over the start gives no location, else moves and counts; a kept run records the start and ends the walk iff the span ends in it, with the end moved like the start (line and column) |
| DefectLocation.Removed | js/historical-defect-merger.js:112-125 | a removed run leaves the position, adds its lines to the removed lines, and adds its width to the removed columns, or sets them to its last line's width after a line break |
| DefectLocation.Added | js/historical-defect-merger.js:126-139 | an added run gives no location iff the span starts in it, else moves past it and counts its lines and columns as added, the same way |
| DefectLocation.Kept | js/historical-defect-merger.js:140-172 | a kept run finds the earlier span iff the span ends in it, its start from RecordStart and its end moved the same way |
| DefectLocation.Walk | js/historical-defect-merger.js:100-177 | a span is found only in a kept run |
| DefectLocation.LastDetectedLocation | js/historical-defect-merger.js:84-178 | no earlier span without four numbers in the location, and none unless some run of the diff is kept |
| DefectLocation.GetLastDetectedLocationByDiffChars | js/historical-defect-merger.js:84-178 | the loop answers LastDetectedLocation |
| DefectLocation.RunStep | js/historical-defect-merger.js:100-174 | the loop body answers Step |
| DefectLocation.KeptWalk | js/historical-defect-merger.js:140-175 | over kept runs only the span found is the span itself, found once its end is reached |
| DefectLocation.KeptDiffKeepsLocation | js/historical-defect-merger.js:84-178 | an unchanged file gives back the span itself, or nothing when its end lies beyond the file |
| DefectLocation.RemovedRunStays | js/historical-defect-merger.js:112-125 | a removed run never moves the position |
| DefectLocation.ExampleAddedSpan | js/historical-defect-merger.js:126-131 | a span on added text has no earlier position |
| DefectLocation.ExampleLaterSpan | js/historical-defect-merger.js:126-165 | a span on a later line, after text added on an earlier line, keeps its numbers |
| DefectMerger.MakeCode | js/historical-defect-merger.js:35-58 | empty for a reversed span; a value iff the span's lines are in the fragment; one line: the column slice; several: tail of the first, middle lines, head of the last, with no line breaks |
| DefectMerger.MakeCodeLoop | js/historical-defect-merger.js:35-58 | makeCode's loop answers MakeCode |
| DefectMerger.AddLine | js/historical-defect-merger.js:46-55 | one turn of the loop appends the covered part of line i |
| DefectMerger.LastLocation | js/historical-defect-merger.js:205-218 | the span within the same run; across runs the span translated by the diff, or none |
| DefectMerger.CodeOf | js/historical-defect-merger.js:260-271 | no code for a missing or empty fragment; a code is what makeCode gives on the fragment's lines |
| DefectMerger.IsSameDefect | js/historical-defect-merger.js:229-286 | no contract of its own: SameDefectTests states when it holds |
| DefectMerger.SameDefectTests | js/historical-defect-merger.js:229-286 | differing fields never match; within a run: a match exactly when the fields, the span and the codes agree; across runs: a match exactly when the fields agree, the defect's earlier root is known, the diff is there, the span translated by it is the defect's and the codes agree; a match needs equal codes, so a finding with code never matches a defect without |
| DefectMerger.UpdateDefectToFixed | js/historical-defect-merger.js:345-349 | FIXED, eliminated by this run, nothing else changes |
| DefectMerger.UpdateDefectWithAlarm | js/historical-defect-merger.js:358-364 | span, fragment and last run from the alarm; the alarm id appended (a fresh list when there was none); nothing else changes |
| DefectMerger.CreateNewDefectFromAlarm | js/historical-defect-merger.js:373-389 | a NEW defect first and last seen in this run, with the alarm's fields and its id as only alarm |
| DefectMerger.CreatedDefectMatches | js/historical-defect-merger.js:373-389 | an alarm whose fragment re-slices matches, in the same run, the defect created from it |
| DefectMerger.UpdatedDefectMatches | js/historical-defect-merger.js:358-364 | the alarm matches again, in the same run, the defect it updated |
| DefectMerger.FirstSame | js/historical-defect-merger.js:411-417 | the first defect the alarm matches; -1 iff it matches none |
| DefectMerger.MergedAlarm | js/historical-defect-merger.js:402-434 | one alarm keeps the loaded list's size and creates at most one defect |
| DefectMerger.MergedAlarmFirstFit | js/historical-defect-merger.js:402-434 | when a loaded defect matches, the first one is updated and nothing else changes; otherwise the loaded list is untouched, and the first matching created defect is updated, or one NEW defect created from the alarm is appended iff none matches |
| DefectMerger.ClaimFirst | js/historical-defect-merger.js:411-427 | each pass's loop updates exactly the first matching defect and stops testing |
| DefectMerger.MergeAlarmWithMergedDefects | js/historical-defect-merger.js:402-434 | the two passes and the push answer MergedAlarm |
| DefectMerger.MergedAlarms | js/historical-defect-merger.js:451-452 | the alarms in order keep the loaded list's size and create at most one defect each |
| DefectMerger.FixUnseen | js/historical-defect-merger.js:455-470 | each loaded defect last seen in this run is kept, every other one is FIXED by this run |
| DefectMerger.MergeAlarms | js/historical-defect-merger.js:442-484 | mergeAlarms returns MergeResult: the loaded defects, hit or FIXED, then the created ones |
| DefectMerger.Filter | js/historical-defect-merger.js:455-463 | exactly the defects whose last run is, or is not, this one, each as often as in the list |
| DefectMerger.FilterSizes | js/historical-defect-merger.js:476-478 | the two filters share out the loaded defects, so the "Wrong update" error never fires |
| DefectMerger.MergedAlarmKeeps | js/historical-defect-merger.js:402-434 | one alarm keeps the loaded defects' identity and only creates NEW defects of this run |
| DefectMerger.MergedAlarmsKeep | js/historical-defect-merger.js:451-452 | the same over all the alarms |
| DefectMerger.MergeClassifiesAll | js/historical-defect-merger.js:442-484 | the result is the loaded defects in order with their identity, each seen in this run or FIXED by it, then no more NEW defects of this run than alarms |
| DefectMerger.NoAlarmsFixAll | js/historical-defect-merger.js:442-484 | with no alarm every loaded defect not seen in this run is FIXED and nothing is created |
| DefectMerger.UnchangedDefectUpdated | js/historical-defect-merger.js:229-484 | an earlier defect found again with its span untouched by the diff is updated, neither duplicated nor FIXED |
| DefectMerger.UnchangedSpanLocated | js/historical-defect-merger.js:205-218 | a span untouched by the diff translates to itself |
| DefectMerger.MatchedDefectUpdated | js/historical-defect-merger.js:402-484 | one alarm matching the one loaded defect updates it and creates nothing |
| SnippetRoundTrip.SingleLineCodeRecovered | js/historical-defect-merger.js:35-58 | makeCode on the fragment the engine side cut for a one-line span gives the span's text, as makeCode on the file does |
| SnippetRoundTrip.SameTextCodesMatch | js/historical-defect-merger.js:250-279 | two one-line findings covering the same text, in any versions of the file and at any line, have matching codes |
| Grade.ImpactKey | js/analyzer.js:66-78 | High, Medium and Low count as themselves, everything else as Others |
| Grade.CountImpact | js/analyzer.js:66-78 | a count never exceeds the defects |
| Grade.ImpactCountsCover | js/analyzer.js:66-78 | the four counts share out the defects |
| Grade.CountImpactAppend | js/analyzer.js:66-78 | one more defect adds one to its own count only |
| Grade.Density | js/analyzer.js:57-63 | density times lines is a thousand times the count; zero for no defect |
| Grade.DensityAtLeast | js/analyzer.js:57-63 | over positive lines a density reaches a threshold iff the count per thousand lines does |
| Grade.Compute | js/analyzer.js:80-109 | no grade iff the lines are NaN or zero |
| Grade.GradeByCounts | js/analyzer.js:80-109 | POOR iff a high or medium defect per thousand lines or ten low ones, GOOD iff not POOR and under five low ones, NORMAL iff not POOR and from five; always GOOD over negative lines |
| Grade.MoreDefectsNoBetter | js/analyzer.js:80-109 | one more defect never makes the grade better |
| Grade.OpenDefects | js/analyzer.js:400-402 | the NEW and TRIAGED defects, each as often as in the list, and nothing else |
| Grade.OpenDefectsAppend | js/analyzer.js:400-402 | one more defect at the end is kept exactly when it is open |
| Grade.TotalLoc | js/analyzer.js:405-406 | NaN iff some file's lines are not a number |
| Grade.ClosedDefectIgnored | js/analyzer.js:399-408 | a DISMISSED or FIXED defect does not change the grade |
| Grade.GetGrade | js/analyzer.js:399-408 | no grade iff a file's lines are not a number or the run has no line |

## Left out

- Spawning the engine under `nice`, killing the process group and writing `bugda.log` are not performed. The process id and the clock are parameters. A kill is recorded in `killRequested`, and a callback call is recorded in `startedCalls` or `reports`.
- `stopAllAnalyses` and `getEngineInfo` are not modelled. They only signal processes and read the engine's version from a child process.
- `readline` and the output stream are left out: each line is an `OnLine` call. The `exit` handler only logs and is left out. The list of process ids is left out.
- `fs.stat` in `start` is its outcome, given as a parameter. Its callback runs at once inside `Start`, not later.
- `fs.readFileSync` is a map from path to file text. `path.join` of the root and the reported file is the reported file itself.
- The timer is the `OnTimer` event. Its delay is not modelled.
- The order of events under Node's event loop is left out. Each handler runs atomically.
- The diff worker, `diffCharsOfFile`, is the `diffOf` parameter. Its failure is None.
- The database loaders `getBranchDefects`, `getBranchOutstandingDefects` and `getMergeableTargetDefects` are not modelled. The loaded defects, with their earlier source roots, are an input to `MergeAlarms`.
- Promise ordering and the resolve-once behaviour of `isSameDefect` are left out. A throw inside it is the `CodeThrew` outcome, which never matches.
- `JSON.parse` of the stored fragment location is modelled in its parsed form, an optional `SnippetLocation`.
- Floating point is left out. Densities are exact reals. Strings are character sequences without UTF-16 code-unit counting.
- DecimalNumber: `Number` of a location component is a value only for a nonempty run of digits. JavaScript also reads "" as 0, and " 5", "+5", "5.0" or "0x5" as numbers; the model treats those as not a number.
- FragmentOf: a component that is not a number, and a span line outside the file, both give Threw. The source throws only on the line outside the file. With a NaN column it goes on: `substring` takes NaN as 0 and getExtraCode's comparisons with NaN fail, so it still builds a fragment.
- ParseInt: values are exact integers. JavaScript rounds values beyond 2^53 to the nearest double.
- Impact names, grade labels and statuses are taken as constants. The constants module is not part of this model.
- `view-navigator.js`, `test-file.js` and `test-file2.js` are not part of this model.
- ParseAlarmLocation: fewer than four runs of digits give None. With no run at all the source throws, as the model's None also stands for. With one to three runs the source reads NaN for the missing numbers. Its walk can then still return a text such as "2:1-3:NaN", where the model gives no earlier location (LastDetectedLocation).
- TotalLoc: a file's `loc` that is not a number makes the sum NaN, modelled as None.
- DefectMerger.MakeCodeLoop: it returns None at the first line outside the fragment. The source appends "undefined" for a missing middle line and throws on the last line, so both give no code.
- EngineManager.Manager.Start: the refusals are returned, not passed to a callback. On a refusal the lists and the targets are unchanged; after a failed or non-directory stat the id counter has moved on, as in the source.
- EngineManager.LineReceived, EngineManager.Applied, EngineManager.Target.OnLine and EngineManager.Manager.OnLine: a throw while reading a finding line is returned as a flag, and the model goes on with later events. In the source the readline `line` handler has no try/catch, so the exception is uncaught and ends the Node process.
- DefectMerger.LastLocation: a loaded defect of an earlier run without `lastDetectedAnalysisFsPath` gives no match here. In the source `path.join` throws on the missing root inside the diff's promise, which rejects, so `isSameDefect` never resolves and the merge stalls.
- EngineManager.Message: the status name in "analysis failed (...)" is a parameter.
- EngineManager.Manager.OnClose requires the target to be active. The source's `close` fires only for a target it made active.
- DefectMerger.Defect: defects are values in lists, not shared objects. The source updates each defect in place and never shares one between the two lists.
- DefectMerger.CreateNewDefectFromAlarm: the created defect has no earlier source root. The source leaves that field unset.


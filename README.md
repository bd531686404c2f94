# testrunner — a verified model of its result handling

testrunner is an Electron desktop application that runs a user's Python scripts
against a table of test cases. The renderer window keeps a registry of scripts
(display name to path) and an editor of test rows. "Run Tests" sends the
function name, the test map and the registry to the main process. The main
process writes this request to a temporary JSON file and spawns the Python
harness `test.py` once per script. The harness prints one JSON record per test.
`runPythonTests` turns that printed text into a report, and the main process
sends the collected reports back to the renderer, which shows a summary on each
script item. Beside this sits `scanPythonScript`: it runs the static detector
`detection_script.py` on a script and turns the detector's printed report into
a verdict.

This project models that core in Dafny, one module per source file:

| module | source | form |
|---|---|---|
| `Tester` | `src/tester.js` | the seven-step rewrite chain as string functions; the record fold as a method with a loop; the close handler; the stdout buffer and one-shot promise as a class |
| `Orchestrator` | `src/main.js` | `runTests` as a method over a `FileSystem` class (write, loop, unlink); the `run-tests` reply; the editor command; `select-script` |
| `Scan` | `src/scanPythonScript.js` | the buffer and promise as a class; the `Warning:` classifier |
| `Harness` | `src/python_scripts/test.py` | Python values as a datatype; `parse_arg`, `run_function` and `parse_expected` as functions; the loop of `check_test_in_file` as a method; the `__main__` block |
| `Detector` | `src/python_scripts/detection_script.py` | the obfuscated-string regular expressions as predicates; the two passes of `scan_script` as a method with two loops, each returning at the first finding |
| `Renderer` | `src/ui/renderer.js` | `scriptPaths` as a class whose methods update it; the test map built by a loop; the loader; `updateTestSummary` in place on an array of script items |

The modules share some definitions:

- `Process` holds the events a spawned process delivers (stdout and stderr chunks, close, spawn error) and the handler state they drive.
- `Json` holds the JSON values, the two serialisers (`JSON.stringify` and Python's `json.dumps`), a recursive-descent `JSON.parse`, and the dictionary an object becomes in either language.
- `Dict` models JavaScript objects as insertion-ordered dictionaries.
- `Text` holds substring search and global replacement.

The verified facts tie the pieces together:

- When the script under test prints nothing of its own, what the harness prints parses back to what it serialised (`Harness.PrintedParses`).
- Printed records reach the runner unchanged when the rewrite chain leaves the text as it is (`Harness.ReportReachesRunner`).
- An `==` that raises while the results are compared stops the harness with no output and exit code 1 (`Harness.RaisingComparisonSilent`).
- The renderer's request carries the test map the harness iterates (`Renderer.RequestReachesHarness`).
- A saved request loads back as the same rows and registry, for the rows the editor can show (`Renderer.LoadRoundTrip`), and loading any file gives rows that load back unchanged (`Renderer.LoadStable`).

## Model

| member | source | states |
|---|---|---|
| Tester.NoApostropheAfterSwap | src/tester.js:27 | after the first rewrite no apostrophe is left anywhere, including inside string contents |
| Tester.KeywordsGone | src/tester.js:28-30 | after the keyword rewrites no `None`, `True` or `False` remains, not even inside a longer word, and no apostrophe reappears |
| Tester.KeywordInsideWord | src/tester.js:28 | the rewrite reaches into identifiers: `NoneType` becomes `nullType` |
| Tester.LazyGroupNearest | src/tester.js:31 | the lazy group `(.*?)` ends at the nearest closer after the opener when no line terminator comes first |
| Tester.LazyGroupNone | src/tester.js:31 | without a closer before the next line terminator or the end, an opener starts no match |
| Tester.BracketsAtParen | src/tester.js:31 | a `(` whose nearest `)` is on the same line becomes `[`, the enclosed text is kept unchanged, and the `)` becomes `]` |
| Tester.BracketsUnclosedParen | src/tester.js:31 | a `(` with no `)` later on its line is kept as it is |
| Tester.BracketsShape | src/tester.js:31 | the parenthesis step keeps the length and changes only `(` to `[` and `)` to `]` |
| Tester.BracketsIdentity | src/tester.js:31 | text without `(` is left unchanged by the parenthesis step |
| Tester.DelimitedIdentity | src/tester.js:32-34 | a delimited replacement that rebuilds each match from its group changes nothing |
| Tester.KeyQuotingIsIdentity | src/tester.js:32-34 | the key-quoting step is the identity on every text |
| Tester.DropTrailingCommasIdentity | src/tester.js:35 | text with no comma followed by white space and `}` or `]` is left unchanged by the comma step |
| Tester.DropTrailingCommasDeletesCommas | src/tester.js:35 | the comma step only deletes commas; every other character is kept, in order |
| Tester.DoubleCommaKeepsOne | src/tester.js:35 | of two commas before a bracket only the one next to the bracket is removed |
| Tester.SanitizeIdentity | src/tester.js:26-35 | the whole chain is the identity on text with no `'`, no `None`/`True`/`False`, no `(` and no trailing comma |
| Tester.RecordMeaning | src/tester.js:53-58 | a record copies `test` and `passed`; its error is null when passed and the harness's error otherwise; `received` is present exactly when the harness gave one, and it parses back to that value |
| Tester.Summary | src/tester.js:43-67 | total equals the number of results, passed + failed equals total, and record i is built from result i |
| Tester.Fold | src/tester.js:52-67 | the fold fails exactly when a result is null; otherwise it gives the report `Summary` describes |
| Tester.CloseResolvesIff | src/tester.js:37-69 | the run resolves exactly when the rewritten output parses as an array with no null, and then with that array's summary |
| Tester.CloseRejectionReasons | src/tester.js:37-72 | every rejection starts with `Error: ` or the parse-failure prefix; a truthy top-level `error` always rejects with `Error: ` |
| Tester.Conclude | src/tester.js:24-73 | the close handler settles the promise as `CloseOutcome` of the buffered output |
| Tester.PythonTestRun.Deliver | src/tester.js:18-83 | stdout is appended, stderr leaves the state alone, close and spawn errors settle only a pending promise |
| Tester.RunPythonTests | src/tester.js:6-85 | the promise after a sequence of process events is the replay of those events through the handlers |
| Tester.RunMeaning | src/tester.js:15-83 | the text parsed is the stdout chunks before the first close, joined in order; a spawn error first rejects with its message; later events change nothing |
| Process.ReplayMeaning | src/scanPythonScript.js:15-40 | the buffer is exactly the stdout chunks in arrival order, and the promise is what the first close or spawn error decided, or pending without one |
| Process.ExitCodeIgnored | src/tester.js:23 | the close handler's effect does not depend on the exit code |
| Scan.ScanClose | src/scanPythonScript.js:23-30 | rejects exactly when the output contains `Warning:`, with the issues header followed by the whole output; otherwise resolves true |
| Scan.ScanRun.constructor | src/scanPythonScript.js:15 | a scan starts with an empty buffer and a pending promise |
| Scan.ScanRun.Deliver | src/scanPythonScript.js:18-40 | stdout is appended, stderr is only logged, close and spawn errors settle only a pending promise |
| Scan.ScanPythonScript | src/scanPythonScript.js:6-42 | the verdict after a sequence of detector events is the replay of those events |
| Scan.ScanMeaning | src/scanPythonScript.js:15-40 | the first close classifies the stdout before it (stderr excluded); a spawn error first rejects with the detection-process prefix; before either the verdict is pending |
| Scan.FindingRejects | src/scanPythonScript.js:25-26 | whenever a detector rule fires, the scan's report is rejected |
| Scan.CrashIsAccepted | src/python_scripts/detection_script.py:56-58 | the detector's own error line has no `Warning:`, so a scan that raised is accepted as clean |
| Scan.CleanReportAccepted | src/python_scripts/detection_script.py:53-54 | the all-clear line is accepted when the path holds no marker |
| Scan.VerdictOnReport | src/scanPythonScript.js:23-30 | for such a path, the verdict on the detector's report is a rejection exactly when a detector rule fired |
| Scan.SecondPassNeverCrashes | src/python_scripts/detection_script.py:46-51 | the import pass never raises |
| Orchestrator.MessageOf | src/main.js:69 | `error.message` is undefined exactly for a plain-string rejection |
| Orchestrator.EntryMeaning | src/main.js:63-70 | a success entry is the runner's value unchanged; a failure entry carries a message only for an Error object, so every rejection of the test runner gives `error: undefined` |
| Orchestrator.TempName | src/main.js:52 | the temporary file is named `temp_testjson_`, then decimal digits that read back as `Date.now()`, then `.json` |
| Orchestrator.TempNameInjective | src/main.js:52 | runs started at different times write different files |
| Orchestrator.FileSystem.WriteFileSync | src/main.js:56 | the write succeeds exactly where writing is allowed and then stores the text; the attempt is logged either way |
| Orchestrator.FileSystem.UnlinkSync | src/main.js:74 | the file is removed and nothing else changes |
| Orchestrator.Outcomes | src/main.js:62-71 | one entry per registered script, under the same names |
| Orchestrator.CollectMeaning | src/main.js:62-71 | the results hold one entry per script in `Object.entries` order, each the outcome of that script's own run, so a failing script does not affect the others |
| Orchestrator.RunTests | src/main.js:47-81 | the request is written once to the temporary path; when that write throws no script runs and nothing changes; otherwise every script runs, the file is unlinked once, and the results are returned |
| Orchestrator.HandleRunTests | src/main.js:84-95 | the reply is the results, or `{error: 'Failed to run tests'}` when the write threw |
| Orchestrator.EditCommandMeaning | src/main.js:100-110 | exactly win32, darwin and linux get a command: the platform's program, a space and the quoted path, from which the path reads back |
| Orchestrator.PyEntries | src/main.js:134-137 | the kept entries are exactly the listed names ending in `.py` |
| Orchestrator.PyEntriesConcat | src/main.js:134-137 | the filter keeps listing order |
| Orchestrator.SelectScript | src/main.js:126-141 | null when the dialog is cancelled or empty; for a directory its `.py` entries joined to it in listing order; for a file a singleton |
| Harness.Unpack2 | src/python_scripts/test.py:35 | a two-item list or tuple unpacks to its items; None, booleans and integers raise |
| Harness.ParseArgPassThrough | src/python_scripts/test.py:33-56 | `str` and every unlisted type name give the value back unchanged; `NoneType` gives None whatever the value |
| Harness.ParseArgBool | src/python_scripts/test.py:42-43 | `bool` is the lower-cased text compared with "true"; bytes give False and other non-strings raise |
| Harness.ParseArgBoolExamples | src/python_scripts/test.py:42-43 | "TRUE" gives True; "yes" and "False" give False |
| Harness.ParseArgNeedsPair | src/python_scripts/test.py:35 | an argument that is not a pair raises |
| Harness.ParseArgsMeaning | src/python_scripts/test.py:27 | the arguments parse exactly when each one does, in order; otherwise the error is the first failing argument's |
| Harness.RunFunction | src/python_scripts/test.py:24-31 | a failed run carries the text of the first stage that raised: `literal_eval`, iterating its value, parsing the arguments, or the call; a run whose stages all succeed passes with the returned value |
| Harness.RunFunctionMeaning | src/python_scripts/test.py:24-31 | a run passes exactly when the parameters evaluate, every argument parses and the call returns, and then carries the returned value; when an argument fails, the run carries the text of the first argument that fails |
| Harness.ExpectedType | src/python_scripts/test.py:88-98 | the type name is always one of the mapping's; any other name maps to `str` |
| Harness.ExpectedBool | src/python_scripts/test.py:84-103 | `bool` is truthiness: any non-empty string, "False" included, gives True |
| Harness.ExpectedFallsBackToStr | src/python_scripts/test.py:98-101 | a type name outside the mapping converts with `str` |
| Harness.ExpectedFailure | src/python_scripts/test.py:86-103 | when unpacking or the conversion raises, the whole expected value comes back typed `str` |
| Harness.ExpectedNoneTypeIsThePair | src/python_scripts/test.py:95-103 | an expected value typed `NoneType` is always the whole pair, never None |
| Harness.TestEntriesOfObject | src/python_scripts/test.py:72 | the items of the dict `json.load` builds: each parameter text once, with the last value the file gives it, every text of the file present; the members themselves, in file order, when no text repeats |
| Harness.TestEntriesRepeated | src/python_scripts/test.py:72 | a parameter text given twice is run once, with its second expected value |
| Harness.RecordsShape | src/python_scripts/test.py:58-82 | a missing or falsy `testfunc` gives the single "Invalid function name" record; an unloadable function gives the single "Function not found." record carrying the name as `json.load` read it; otherwise the loop's outcome over the entries of `tests` |
| Harness.RecordMeaning | src/python_scripts/test.py:73-80 | `==` is applied only when the run passed, and an exception it raises escapes the loop with its text; otherwise the label is "<param> => <expected>", passed holds exactly when the run passed and `==` gave True, and the error is present exactly when the run raised, so a wrong value gives no error |
| Harness.RecordsInOrder | src/python_scripts/test.py:72-82 | the record list is returned exactly when no comparison raises, and then it has one record per entry of `tests`, record i being entry i's |
| Harness.RecordsMeaning | src/python_scripts/test.py:72-82 | the loop completes exactly when every entry's comparison completes, and then gives each entry's record in order |
| Harness.RecordsFirstError | src/python_scripts/test.py:72-80 | the loop ends with the exception of the first entry whose comparison raises |
| Harness.CollectMeaning | src/python_scripts/test.py:72-82 | a sequence of steps completes exactly when no step raises, and then yields every step's value in order |
| Harness.CollectErrorFirst | src/python_scripts/test.py:72-82 | a sequence of steps that fails carries the exception of a step before which none raised |
| Harness.CollectFirstError | src/python_scripts/test.py:72-82 | a sequence of steps ends with the exception of its first raising step |
| Harness.RaisingComparisonSilent | src/python_scripts/test.py:77 | a comparison that raises escapes `check_test_in_file` and the main block, so nothing is printed and the exit code is 1 |
| Harness.RecordAll | src/python_scripts/test.py:72-82 | the loop appends exactly one record per entry, in order, and stops with the exception of the first comparison that raises |
| Harness.CheckTestInFile | src/python_scripts/test.py:58-82 | the two early returns and the loop give the records or the escaping exception `CheckTests` describes |
| Harness.ReloadedLast | src/python_scripts/test.py:10 | an object that `json.load` reads holds each name once, with the last value the text gives it |
| Harness.ReloadedCover | src/python_scripts/test.py:10 | every name of the object's text is among the names `json.load` keeps |
| Harness.ReloadedDistinct | src/python_scripts/test.py:10 | an object without a repeated name keeps its members in order |
| Harness.LastValueReloaded | src/python_scripts/test.py:10 | reading nested values leaves the last value of each name the read form of that value |
| Harness.NotFoundRepeated | src/python_scripts/test.py:69 | a function name object with a repeated key is printed with that key's last value only |
| Harness.NotFoundText | src/python_scripts/test.py:69 | a text function name is printed as it is, with the error "Function not found." |
| Harness.ResultsJson | src/python_scripts/test.py:121 | the printed list has one element per record |
| Harness.ExitMeaning | src/python_scripts/test.py:105-121 | a wrong argument count prints the usage error and exits 1; exit 0 happens exactly when the paths are files, the test file loads and `check_test_in_file` returns, and then the record list is printed |
| Harness.PrintedParses | src/python_scripts/test.py:105-121 | whatever the harness prints parses back, by `JSON.parse`, into the record list or the error object it serialised |
| Harness.ReportReachesRunner | src/python_scripts/test.py:117-121 | when the rewrite chain leaves the printed text alone, the runner resolves with exactly the printed records' summary, and an error object rejects with "Error: " and its message |
| Harness.CloseOnParsed | src/tester.js:26-38 | output the chain leaves alone is classified as the value it parses to |
| Harness.ClassifyRecords | src/tester.js:43-69 | a record list resolves with its summary |
| Harness.ClassifyErrorObject | src/tester.js:38-40 | an error object with a message rejects with "Error: " and the message |
| Detector.FullMatchMeaning | src/python_scripts/detection_script.py:19 | `^[class]{min,}$` matches exactly when the text, apart from one final newline, is at least min characters of the class |
| Detector.ObfuscatedMeaning | src/python_scripts/detection_script.py:16-22 | a string is flagged exactly when, apart from one final newline, it is 20 or more base-64 characters or one or more hex digits |
| Detector.EmptyNotObfuscated | src/python_scripts/detection_script.py:19 | the empty string and a lone newline are never flagged |
| Detector.ShortHexWordObfuscated | src/python_scripts/detection_script.py:19 | a short hex word is flagged with or without one final newline |
| Detector.TwoNewlinesNotObfuscated | src/python_scripts/detection_script.py:19 | a hex word followed by two newlines is not flagged |
| Detector.Base64LengthMatters | src/python_scripts/detection_script.py:19 | base-64 text that is not all hex is flagged exactly from twenty characters on |
| Detector.Take | src/python_scripts/detection_script.py:20 | `s[:30]` is the prefix of s of length min(30, len(s)) |
| Detector.Head | src/python_scripts/detection_script.py:49 | `split('.')[0]` is the prefix before the first dot |
| Detector.ScanScript | src/python_scripts/detection_script.py:24-58 | the two loops with early returns give the verdict and the printed text `ScanOutcome` describes |
| Detector.DetectorMain | src/python_scripts/detection_script.py:60-66 | a wrong argument count prints the usage line and exits 1; otherwise the exit status is 0 whatever the verdict |
| Detector.FirstPassIsFirst | src/python_scripts/detection_script.py:31-43 | the first pass's verdict is that of the first node on which a rule fires |
| Detector.FirstPassAllClean | src/python_scripts/detection_script.py:31-43 | the first pass is clean exactly when no rule fires on any node |
| Detector.SecondPassIsFirst | src/python_scripts/detection_script.py:46-51 | the import pass's verdict is that of the first import with a dangerous alias |
| Detector.SecondPassAllClean | src/python_scripts/detection_script.py:46-51 | the import pass is clean exactly when no import rule fires |
| Detector.AliasRuleMeaning | src/python_scripts/detection_script.py:48-51 | the alias loop never raises; it is clean exactly when no alias head is a dangerous module, and otherwise reports the first such alias |
| Detector.ScanSafeIff | src/python_scripts/detection_script.py:24-58 | a script is judged safe exactly when it parsed and no rule of either pass fires on any node; it then prints the "No dangerous" line |
| Detector.FirstFindingWins | src/python_scripts/detection_script.py:31-51 | the first call or string finding in walk order settles the scan, whatever any import says |
| Detector.ImportFindingWhenCallsClean | src/python_scripts/detection_script.py:45-51 | with a clean first pass, the first dangerous import decides and its warning is printed |
| Detector.DangerousCallRule | src/python_scripts/detection_script.py:33-35 | an attribute call is flagged exactly when `receiver.attr` is listed; the listed names without a dot never match |
| Detector.UnnamedReceiverCrashes | src/python_scripts/detection_script.py:33 | an attribute call on a receiver without an `id` ends the scan unsafe, with the error line |
| Detector.SuspiciousNames | src/python_scripts/detection_script.py:36-39 | on a name without `(`, a pattern is found exactly when the name contains `b64decode` or `hex` |
| Detector.BareCallPasses | src/python_scripts/detection_script.py:36-39 | a bare call whose name holds neither `b64decode` nor `hex` passes the scan |
| Detector.BareEvalPasses | src/python_scripts/detection_script.py:32-39 | bare calls of `eval`, `exec` and `open` pass the scan |
| Detector.ImportRule | src/python_scripts/detection_script.py:47-51 | only the first dotted component of each alias counts, `from X import Y` ignores X, and the listed `http.client` can never match |
| Detector.FindingTexts | src/python_scripts/detection_script.py:20-50 | every finding's text starts with "Warning:", and an encoded string prints two such lines |
| Renderer.StripSlashes | src/ui/renderer.js:413 | trailing slashes are dropped and nothing else: a prefix ending in a non-slash (or empty), followed in the input only by slashes |
| Renderer.Basename | src/ui/renderer.js:413 | the base name holds no slash and is the end of the path without its trailing slashes, preceded there by a slash or by nothing |
| Renderer.BasenameOfJoin | src/ui/renderer.js:413 | the base name of a file name joined to a directory is that file name |
| Renderer.SegmentAfterSlash | src/ui/renderer.js:413 | the part after the last slash of a text ending in a slash and a slash-free name is that name |
| Renderer.ShortenMeaning | src/ui/renderer.js:414-416 | a name of at most 64 characters is kept; a longer one becomes its first 64 characters and "..."; never longer than 67 |
| Renderer.DisplayNameMeaning | src/ui/renderer.js:413-416 | the display name is the base name, shortened that way, and holds no slash |
| Renderer.LongNamesCollide | src/ui/renderer.js:413-419 | two long names agreeing on their first 64 characters share a display name, so the second replaces the first |
| Renderer.ScriptRegistry.constructor | src/ui/renderer.js:22 | the registry starts empty |
| Renderer.ScriptRegistry.AddScriptItem | src/ui/renderer.js:402-419 | a path already registered under any name leaves the registry unchanged; otherwise it is assigned under its display name, overwriting that name and keeping every other key |
| Renderer.ScriptRegistry.RemoveScript | src/ui/renderer.js:432-435 | the item's own key is deleted |
| Renderer.ScriptRegistry.RemoveAllScripts | src/ui/renderer.js:518-520 | deleting every key in turn leaves the registry empty |
| Renderer.ScriptRegistry.LoadTests | src/ui/renderer.js:339-350 | a file without truthy `testfunc` and `tests` changes nothing; otherwise the saved paths are merged in and the rows are rebuilt in entry order |
| Renderer.ScriptRegistry.RunTestsClick | src/ui/renderer.js:364-391 | the request holds the function name, the test map of the shown rows and the registry |
| Renderer.RebuildRows | src/ui/renderer.js:347-350 | one row per saved entry, in order, each as `Renderer.DecodeRow` fills it, stopping at the first entry whose key or value cannot be destructured |
| Renderer.CollectTests | src/ui/renderer.js:368-381 | the loop builds the map of the rows assigned in order |
| Renderer.SaveRequest | src/ui/renderer.js:296-318 | the saved data is the run request, with an empty function name replaced by "function_name" |
| Renderer.RequestFields | src/ui/renderer.js:383-387 | `testfunc`, `tests` and `scriptPaths` read back as the name, the test map and the registry |
| Renderer.KeyRoundTrip | src/ui/renderer.js:311 | `JSON.parse` of a key gives back the JSON list of (value, type) pairs it was written from |
| Renderer.KeyInjective | src/ui/renderer.js:380 | two rows share a key exactly when their parameter lists are equal |
| Renderer.TestsOfKeys | src/ui/renderer.js:368-381 | the map holds exactly the rows' keys, each once, so never more entries than rows |
| Renderer.TestsOfLast | src/ui/renderer.js:380 | of rows with identical parameter lists the last one's expected output wins |
| Renderer.TestsOfDistinct | src/ui/renderer.js:368-381 | with distinct parameter lists every row adds its own entry, in row order |
| Renderer.EntriesOf | src/ui/renderer.js:347 | `Object.entries` never repeats a key |
| Renderer.SavedPaths | src/ui/renderer.js:344 | the saved paths, or an empty object when there are none, never repeat a key |
| Renderer.ObjectOfDistinct | src/ui/renderer.js:337 | an object with distinct member names parses to the dictionary it shows |
| Renderer.EntriesOfDict | src/ui/renderer.js:347 | the entries of such an object are its own pairs |
| Renderer.Items | src/ui/renderer.js:347 | destructuring `[a, b] = v` works exactly on arrays and strings |
| Renderer.InputText | src/ui/renderer.js:78-85 | an input shows a string value with its line feeds and carriage returns removed, is empty for null or a missing item, and never holds a line break |
| Renderer.StripLineBreaks | src/ui/renderer.js:85 | setting a text input's value leaves no line break and never lengthens the text |
| Renderer.StripLineBreaksKeeps | src/ui/renderer.js:85 | a text without a line break is kept as it is |
| Renderer.StripConcat | src/ui/renderer.js:85 | removal goes character by character: the parts of a joined text are stripped separately |
| Renderer.StripExample | src/ui/renderer.js:195 | the text `a`, line feed, `b` shows as `ab` |
| Renderer.SelectValue | src/ui/renderer.js:78-95 | a missing type selects `any`; a value naming an option selects it; any other leaves the select reading "" |
| Renderer.Field | src/ui/renderer.js:132-134 | a NoneType select clears its input; any other type keeps it |
| Renderer.DecodeField | src/ui/renderer.js:186 | filling an input and a select from `[value, type]` succeeds exactly on arrays and strings, and always gives a pair the editor can show, whose value holds no line break |
| Renderer.DecodePair | src/ui/renderer.js:186 | a pair the editor can show (a value without line breaks, a known or empty type, an empty NoneType value) comes back unchanged from its JSON form |
| Renderer.DecodeFields | src/ui/renderer.js:186 | the parameter rows are the fields of the items in order, or the loop throws at an item that cannot be destructured |
| Renderer.DecodeParams | src/ui/renderer.js:186 | only an array has `forEach`; its rows are pairs the editor can show |
| Renderer.DecodeParamsJson | src/ui/renderer.js:186 | parameter lists the editor can show come back from their JSON form unchanged |
| Renderer.DecodeRow | src/ui/renderer.js:347-349 | an entry gives a row exactly when its value can be destructured, its key parses and is an array of destructurable items; the row is one the editor can show, so no input of it holds a line break |
| Renderer.DecodeRowOfKey | src/ui/renderer.js:347-349 | under the key of shown parameters, the row has those parameters and the expected field of the value |
| Renderer.DecodeOutputOnly | src/ui/renderer.js:347-349 | an entry value holding only the output loads with type `any` and the output without its line breaks; items past the second are ignored |
| Renderer.DecodeLineBreak | src/ui/renderer.js:192-195 | an expected output saved with a line break loads without it |
| Renderer.DecodeNoneType | src/ui/renderer.js:132-134 | a NoneType parameter loads with its value cleared |
| Renderer.NoneTypeParamCleared | src/ui/renderer.js:132-134 | the NoneType parameter's value is cleared in the parameter rows |
| Renderer.DecodeNumber | src/ui/renderer.js:195-205 | a number loads as its decimal text, and a type no option names selects nothing |
| Renderer.DecodeShowableRow | src/ui/renderer.js:347-349 | a row the editor can show decodes from its own entry |
| Renderer.LoadRowsOfTests | src/ui/renderer.js:347-350 | the entries of rows the editor can show rebuild exactly those rows, and every entry decodes |
| Renderer.LoadRowsShown | src/ui/renderer.js:347-350 | every row a load rebuilds is one the editor can show |
| Renderer.LoadStable | src/ui/renderer.js:347-350 | rows loaded from any file load back unchanged from their own entries |
| Renderer.LoadTestsOf | src/ui/renderer.js:347-350 | for rows the editor can show with distinct parameter lists, a saved test map loads back as the rows it was built from |
| Renderer.LoadFields | src/ui/renderer.js:339-350 | the three fields of a request are truthy and read back as rows the editor can show and as the registry |
| Renderer.LoadRoundTrip | src/ui/renderer.js:337-350 | loading a request with a non-empty name and rows the editor can show with distinct parameter lists gives back the name, the same rows in order and the same registry |
| Renderer.RequestReachesHarness | src/ui/renderer.js:383-390 | the harness reads the function name and iterates the test map in row order |
| Renderer.PassedShowsNoError | src/ui/renderer.js:491 | a passing record's detail line never shows an error |
| Renderer.UpdateTestSummary | src/ui/renderer.js:467-496 | every item whose shown name contains the display name takes the report; a missing summary throws at the first match and leaves the items unchanged |
| Renderer.OnTestResults | src/ui/renderer.js:499-503 | the listener applies the entries in turn and stops at the first throw |
| Renderer.ApplyAllMeaning | src/ui/renderer.js:499-503 | when every entry has a summary, each item shows the report of the last entry whose name its file name contains, and an item no name matches is unchanged |
| Renderer.SubstringMatches | src/ui/renderer.js:469-471 | results for "test.py" also reach "mytest.py" |
| Dict.PutLookup | src/ui/renderer.js:419 | after `d[k] = v`, k maps to v and every other key as before |
| Dict.RemoveLookup | src/ui/renderer.js:433 | after `delete d[k]`, k is gone and every other key maps as before |
| Dict.AssignMeaning | src/ui/renderer.js:344 | `Object.assign` gives keys of the source their source value, keeps every other key, and adds no duplicate |
| Dict.PutAllKeys | src/ui/renderer.js:380 | assigning pairs in order leaves exactly their keys, each once |
| Dict.PutAllLast | src/ui/renderer.js:380 | a pair whose key no later pair repeats keeps its value |
| Dict.PutAllDistinct | src/ui/renderer.js:380 | pairs with distinct keys are kept as they are, in order |
| Json.ParseSerialize | src/tester.js:37 | `JSON.parse` inverts both `JSON.stringify` and `json.dumps`, with or without trailing whitespace |
| Json.ValueRoundTrip | src/ui/renderer.js:311 | a serialised value followed by text that cannot extend a number parses back to the value, leaving that text unread |
| Json.EscapeRoundTrip | src/ui/renderer.js:311 | every string's escaped form decodes back to the string |
| Json.NumberRoundTrip | src/python_scripts/test.py:121 | every integer's decimal text parses back to it |
| Json.Get | src/tester.js:38 | a property is present exactly on an object with such a member, and then takes the last member's value |
| Json.ObjectOf | src/python_scripts/test.py:10 | the dictionary of an object has no key twice, no more pairs than members, and exactly the members' names |
| Json.ObjectOfLookup | src/python_scripts/test.py:10 | every name of the dictionary holds the value of the object's last member of that name |
| Json.ObjectOfUnique | src/python_scripts/test.py:10 | members with distinct names are kept as they are, in order |
| Json.ObjectOfRepeated | src/python_scripts/test.py:10 | a name given twice is kept once, with the second value |
| Json.ObjectMembersLast | src/python_scripts/test.py:72 | no name appears twice among the members of the dictionary an object parses to, and each carries the last value the object gives its name |
| Json.ObjectMembersCover | src/python_scripts/test.py:72 | every member name of the object appears in the dictionary |
| Json.ObjectMembersUnique | src/python_scripts/test.py:72 | when no name repeats, the dictionary holds the object's members themselves, in order |
| Dict.LookupAt | src/python_scripts/test.py:72 | in a dictionary without repeated keys each key holds its own pair's value |
| Text.ReplaceAllRemoves | src/tester.js:27-30 | a global replacement whose replacement text cannot rebuild the pattern leaves no occurrence of it |
| Text.ReplaceAllKeepsAbsent | src/tester.js:28-30 | a global replacement whose text cannot overlap another word creates no occurrence of that word |
| Text.ReplaceAllIdentity | src/tester.js:27-30 | a global replacement of a pattern the text lacks changes nothing |

## Left out

- The Electron window, menu, IPC transport and all DOM work (element creation, placeholder texts, disabling, theme, `localStorage`, tabs) are left out. The script items are values in an array, the editor rows are a sequence, and IPC messages are method parameters and results. What a loaded row's inputs and selects end up showing is modelled: the default arguments, the string form of a value, a select left empty by an unknown type, the input a NoneType select clears, and the line feeds and carriage returns a text input drops from its value.
- The `save-json-data` and `load-json-data` handlers (`src/main.js:144-183`) are dialogs and file I/O with no logic beyond `JSON.stringify` and `JSON.parse`, which the model has. They are not modelled.
- `child_process.spawn` and `exec` are not modelled. A process is the sequence of events it delivers, and the edit command is returned rather than executed.
- Dialogs, `statSync`, `readdirSync` and the clock are not modelled either. Their results are parameters: the dialog's answer, whether a path is a directory, the listing, and `Date.now()`.
- The runner is given the temporary file's text, not its path. The request written there is an abstract payload string: the pretty-printed `JSON.stringify(jsonData, null, 2)` layout is not modelled.
- The main process's `runTests` is modelled with a runner of any result type. The link between the file the main process writes and the file the harness reads goes through `Renderer.RequestReachesHarness`.
- Python's `importlib` loading, the function under test, `ast.literal_eval`, `json.loads`, `int()`, `set()`, `bytes()`, `str()` of a container and `==` are not modelled. They are the fields of the `Harness.Foreign` parameter. A raised exception is an error carrying the text `str(e)` would give. `==` is the only one of them that can raise outside a `try`: its exception escapes, and the harness then prints nothing and exits with 1.
- `float(...)` in `parse_arg` and `parse_expected` is not modelled, and neither are JSON numbers with a fraction or an exponent. Both are floating point. The JSON parser rejects non-integer numbers.
- The percentage and colour computation in `updateTestSummary` (`src/ui/renderer.js:475-485`) is not modelled. It uses float division and `toFixed`. An item shows the counts instead.
- Python's `ast` parser and walk order are not modelled. The scan takes the node sequence `ast.walk` would give. Only the node kinds the rules distinguish are modelled.
- Printing in the detector is modelled as the text the scan returns. Its `print` of a value's `str()` (`{e}`) is the message parameter.
- Regular expressions are not modelled in general, only the specific patterns the source uses. Each is written as a string function that matches that pattern exactly, including `$` matching before a final newline.
- Strings are sequences of Unicode scalar values. JavaScript's UTF-16 length and `slice` on characters above U+FFFF are not modelled. A lone surrogate in a JSON string escape is rejected by the parser.
- `Renderer.Basename`: POSIX `/` separators only, because Windows separators in `path.basename` are not modelled.
- `Orchestrator.JoinPath`: the directory and the name are joined with one `/`. `path.join`'s normalisation (dropping a repeated separator, as in `path.join("/", "a.py")`, and resolving `.` and `..`) and Windows separators are not modelled. The two agree for a normalised directory other than the root.
- `Harness.PrintedParses`: the stdout of the harness is modelled as its own `print` only. Text that the script under test prints while it is loaded (`src/python_scripts/test.py:18`) or called (`src/python_scripts/test.py:28`) comes before the JSON on the same stdout, and would make `JSON.parse` fail. The loader and `Callable` have no output, so this case is not modelled.
- `Harness.RecordFor`: `==` is modelled as giving a bool or raising. An `__eq__` that returns another object makes `passed` that object, which `json.dumps` may fail on; such results are not modelled.
- `Harness.ExitMeaning`: a `sys.exit()` in the script under test raises `SystemExit`, which `except Exception` does not catch, so the harness prints nothing and exits with the script's code. Neither this nor the script's own printing is modelled.
- `Harness.ReportReachesRunner`: it rests on `Harness.PrintedParses`, so it likewise assumes that the script under test prints nothing and does not exit.
- `Json.ParseSerialize`: numbers are unbounded integers. `JSON.parse` gives IEEE doubles, so an integer `json.dumps` prints beyond 2^53 in magnitude comes back rounded, and large values are written like `1e+21` by `${...}`.
- `Json.NumberRoundTrip`: it holds for the unbounded integers of the model only. With doubles, it holds for integers up to 2^53 in magnitude.
- `Json.Parse`: a rejected text gives the model's own error message, not V8's `SyntaxError` message, which names the offending token and its position. So the message after "Failed to parse Python output: " differs from the one the runner shows.
- `Tester.PythonTestRun.Deliver` and `Scan.ScanRun.Deliver`: a chunk arrives as text. `data.toString()` decodes each chunk on its own, so a UTF-8 character split across two chunks becomes U+FFFD. That effect is not modelled.
- JavaScript objects keep keys in insertion order. The engine's rule that array-index keys come first in ascending order is not modelled.
- `Renderer.ScriptRegistry.RunTestsClick`: the model reads the same fields for Save and Run. The Save button's slightly different expected-type selector (`src/ui/renderer.js:309` versus `378`) is not distinguished, because the DOM is not modelled.
- No decision gate between the scan and the test run is modelled: `scanPythonScript` is not called from `runTests`, and no shown code prompts the user.
- `Tester.RecordMeaning` says that `received` parses back to the harness's value, not its exact text. `JSON.stringify` of an absent field is undefined, and the harness never prints that field.

/** The main process (`main.js`): running every registered script against the
    current test set through a temporary JSON file, answering the renderer's
    request, choosing the editor command, and picking scripts from a dialog. */
module Orchestrator {
  import opened Wrappers
  import opened Text
  import opened Dict
  import Json
  import Process

  /** What a runner rejects with: a plain string (as the test runner always does)
      or an Error object carrying a message. */
  datatype RunError = PlainRejection(reason: string) | ErrorValue(message: string)

  /** One value of the results object: the resolved value itself, or
      `{error: e.message}`, where the message is undefined for a plain string. */
  datatype Entry<T> = Value(value: T) | Failure(error: Option<string>)

  /** `error.message`. */
  function MessageOf(e: RunError): (m: Option<string>)
    ensures m.None? <==> e.PlainRejection?
  {
    match e
    case PlainRejection(_) => None
    case ErrorValue(message) => Some(message)
  }

  function EntryOf<T>(r: Result<T, RunError>): Entry<T> {
    match r
    case Ok(v) => Value(v)
    case Err(e) => Failure(MessageOf(e))
  }

  /** A success entry is the runner's value unchanged; a failure keeps only the
      message, so every rejection of the test runner leaves `error` undefined. */
  lemma EntryMeaning<T>(r: Result<T, RunError>, s: Process.Settlement<T>)
    ensures r.Ok? ==> EntryOf(r) == Value(r.value)
    ensures r.Err? ==> EntryOf(r).Failure? && (EntryOf(r).error.Some? <==> r.error.ErrorValue?)
    ensures EntryOf(Settled(s)).Failure? ==> EntryOf(Settled(s)).error == None
  {
  }

  /** How the awaited promise of the test runner surfaces in the loop. */
  function Settled<T>(s: Process.Settlement<T>): Result<T, RunError> {
    match s
    case Resolved(v) => Ok(v)
    case Rejected(reason) => Err(PlainRejection(reason))
  }

  // ---------------------------------------------------------------------------
  // The temporary file

  /** `temp_testjson_<Date.now()>.json`: between the prefix and the suffix, the
      decimal digits of the time, which read back as that time. */
  function TempName(now: nat): (name: string)
    ensures StartsWith(name, "temp_testjson_") && EndsWith(name, ".json")
    ensures |name| > 19 && Json.AllDigits(name[14..|name| - 5]) && Json.DigitsValue(name[14..|name| - 5]) == now
  {
    var name := "temp_testjson_" + Json.Digits(now) + ".json";
    PrefixOf("temp_testjson_", Json.Digits(now) + ".json");
    assert name[|name| - 5..] == ".json";
    assert name[14..|name| - 5] == Json.Digits(now);
    Json.DigitsFacts(now);
    name
  }

  /** Runs started at different times use different temporary files. */
  lemma TempNameInjective(a: nat, b: nat)
    ensures TempName(a) == TempName(b) <==> a == b
  {
  }

  /** `path.join(dir, name)` for a directory and a plain file name. */
  function JoinPath(dir: string, name: string): string {
    dir + "/" + name
  }

  datatype FsOp = WriteOp(path: string, text: string) | UnlinkOp(path: string)

  /** The file system as far as the main process touches it: file contents by
      path, the paths it may not write, and the operations in the order made. */
  class FileSystem {
    var files: map<string, string>
    var log: seq<FsOp>
    const unwritable: set<string>

    constructor(files0: map<string, string>, unwritable0: set<string>)
      ensures files == files0 && unwritable == unwritable0 && log == []
    {
      files := files0;
      unwritable := unwritable0;
      log := [];
    }

    /** `fs.writeFileSync`, which throws where writing is not allowed. */
    method WriteFileSync(path: string, text: string) returns (ok: bool)
      modifies this
      ensures ok <==> path !in unwritable
      ensures files == if ok then old(files)[path := text] else old(files)
      ensures log == old(log) + [WriteOp(path, text)]
    {
      ok := path !in unwritable;
      if ok {
        files := files[path := text];
      }
      log := log + [WriteOp(path, text)];
    }

    /** `fs.unlinkSync` on a file that exists. */
    method UnlinkSync(path: string)
      requires path in files
      modifies this
      ensures files == old(files) - {path}
      ensures log == old(log) + [UnlinkOp(path)]
    {
      files := files - {path};
      log := log + [UnlinkOp(path)];
    }
  }

  // ---------------------------------------------------------------------------
  // runTests

  /** The results object after running each script in turn, the runner reading
      the temporary file's text. */
  function Collect<T>(scriptPaths: Dict<string>, run: (string, string) -> Result<T, RunError>,
                      text: string): Dict<Entry<T>>
    decreases |scriptPaths|
  {
    if |scriptPaths| == 0 then []
    else
      var n := |scriptPaths| - 1;
      Put(Collect(scriptPaths[..n], run, text), scriptPaths[n].0, EntryOf(run(text, scriptPaths[n].1)))
  }

  /** Each script's name paired with the entry its own run gives. */
  function Outcomes<T>(scriptPaths: Dict<string>, run: (string, string) -> Result<T, RunError>,
                       text: string): (r: Dict<Entry<T>>)
    ensures |r| == |scriptPaths| && Keys(r) == Keys(scriptPaths)
  {
    seq(|scriptPaths|, i requires 0 <= i < |scriptPaths| =>
      (scriptPaths[i].0, EntryOf(run(text, scriptPaths[i].1))))
  }

  /** For an object's entries (distinct names), the results hold exactly one entry
      per name, in the same order, each the outcome of that script alone: a
      failing script changes nothing for the others. */
  lemma {:induction false} CollectMeaning<T>(scriptPaths: Dict<string>,
                                             run: (string, string) -> Result<T, RunError>, text: string)
    requires UniqueKeys(scriptPaths)
    ensures Collect(scriptPaths, run, text) == Outcomes(scriptPaths, run, text)
    ensures UniqueKeys(Collect(scriptPaths, run, text))
    decreases |scriptPaths|
  {
    if |scriptPaths| > 0 {
      var n := |scriptPaths| - 1;
      var init := scriptPaths[..n];
      UniqueInit(scriptPaths);
      CollectMeaning(init, run, text);
      var want := Outcomes(scriptPaths, run, text);
      assert want[..n] == Outcomes(init, run, text);
      AppendStep(Outcomes(init, run, text), want, scriptPaths[n].0, EntryOf(run(text, scriptPaths[n].1)));
    }
  }

  /** `runTests`: write the request to a fresh temporary file, run each
      registered script against it, delete the file, and return the results. A
      write that throws aborts before any script runs. */
  method RunTests<T>(fs: FileSystem, tmpDir: string, now: nat, payload: string,
                     scriptPaths: Dict<string>, run: (string, string) -> Result<T, RunError>)
    returns (r: Option<Dict<Entry<T>>>)
    modifies fs
    ensures var p := JoinPath(tmpDir, TempName(now));
      if p in fs.unwritable then
        r == None && fs.files == old(fs.files) && fs.log == old(fs.log) + [WriteOp(p, payload)]
      else
        r == Some(Collect(scriptPaths, run, payload)) && fs.files == old(fs.files) - {p} &&
        fs.log == old(fs.log) + [WriteOp(p, payload), UnlinkOp(p)]
  {
    var p := JoinPath(tmpDir, TempName(now));
    var ok := fs.WriteFileSync(p, payload);
    if !ok {
      return None;
    }
    var alltests: Dict<Entry<T>> := [];
    var i := 0;
    while i < |scriptPaths|
      invariant 0 <= i <= |scriptPaths|
      invariant p in fs.files && fs.files[p] == payload
      invariant alltests == Collect(scriptPaths[..i], run, payload)
    {
      var (displayName, realPath) := scriptPaths[i];
      var outcome := run(fs.files[p], realPath);
      assert scriptPaths[..i + 1][..i] == scriptPaths[..i];
      alltests := Put(alltests, displayName, EntryOf(outcome));
      i := i + 1;
    }
    assert scriptPaths[..i] == scriptPaths;
    fs.UnlinkSync(p);
    assert fs.files == old(fs.files) - {p};
    return Some(alltests);
  }

  /** What the renderer receives on `test-results`. */
  datatype Reply<T> = Results(results: Dict<Entry<T>>) | ErrorReply(error: string)

  const RunFailure: string := "Failed to run tests"

  /** The `run-tests` handler: the results, or the fixed error when runTests threw. */
  method HandleRunTests<T>(fs: FileSystem, tmpDir: string, now: nat, payload: string,
                           scriptPaths: Dict<string>, run: (string, string) -> Result<T, RunError>)
    returns (reply: Reply<T>)
    modifies fs
    ensures reply == if JoinPath(tmpDir, TempName(now)) in fs.unwritable then ErrorReply(RunFailure)
                     else Results(Collect(scriptPaths, run, payload))
  {
    var r := RunTests(fs, tmpDir, now, payload, scriptPaths, run);
    if r.None? {
      reply := ErrorReply(RunFailure);
    } else {
      reply := Results(r.value);
    }
  }

  // ---------------------------------------------------------------------------
  // edit-file

  /** The program that opens a file on each supported platform. */
  function Editor(platform: string): Option<string> {
    if platform == "win32" then Some("notepad")
    else if platform == "darwin" then Some("open")
    else if platform == "linux" then Some("xdg-open")
    else None
  }

  /** The shell command run for `edit-file`, if the platform is supported. */
  function EditCommand(platform: string, file: string): Option<string> {
    match Editor(platform)
    case None => None
    case Some(program) => Some(program + " \"" + file + "\"")
  }

  /** Exactly win32, darwin and linux get a command; it is the platform's editor,
      a space, and the path between double quotes, from which the path reads back. */
  lemma EditCommandMeaning(platform: string, file: string)
    ensures EditCommand(platform, file).Some? <==> platform in {"win32", "darwin", "linux"}
    ensures EditCommand(platform, file).Some? ==>
      var c := EditCommand(platform, file).value;
      var program := Editor(platform).value;
      StartsWith(c, program + " \"") && c[|c| - 1] == '"' &&
      c[|program| + 2..|c| - 1] == file
  {
    if Editor(platform).Some? {
      var program := Editor(platform).value;
      var c := program + " \"" + file + "\"";
      assert c == (program + " \"") + file + "\"";
      PrefixOf(program + " \"", file + "\"");
      assert c[|program| + 2..|c| - 1] == file;
    }
  }

  // ---------------------------------------------------------------------------
  // select-script

  /** The directory entries whose names end in `.py`, in listing order. */
  function PyEntries(entries: seq<string>): (r: seq<string>)
    ensures forall x :: x in r <==> x in entries && EndsWith(x, ".py")
    decreases |entries|
  {
    if |entries| == 0 then []
    else
      assert forall x :: x in entries <==> x == entries[0] || x in entries[1..];
      (if EndsWith(entries[0], ".py") then [entries[0]] else []) + PyEntries(entries[1..])
  }

  /** The filter keeps listing order: it distributes over concatenation. */
  lemma {:induction false} PyEntriesConcat(a: seq<string>, b: seq<string>)
    ensures PyEntries(a + b) == PyEntries(a) + PyEntries(b)
    decreases |a|
  {
    if |a| == 0 {
      assert a + b == b;
    } else {
      var h := if EndsWith(a[0], ".py") then [a[0]] else [];
      PyEntriesConcat(a[1..], b);
      assert (a + b)[0] == a[0] && (a + b)[1..] == a[1..] + b;
      assert PyEntries(a + b) == h + PyEntries(a[1..] + b);
      assert PyEntries(a) == h + PyEntries(a[1..]);
      assert h + (PyEntries(a[1..]) + PyEntries(b)) == h + PyEntries(a[1..]) + PyEntries(b);
    }
  }

  /** `select-script`: nothing when the dialog was cancelled or returned no path;
      for a directory, its `.py` entries joined to it; for a file, just that file. */
  function SelectScript(canceled: bool, filePaths: seq<string>, isDirectory: bool,
                        listing: seq<string>): (r: Option<seq<string>>)
    ensures r.None? <==> canceled || |filePaths| == 0
    ensures r.Some? && !isDirectory ==> r.value == [filePaths[0]]
    ensures r.Some? && isDirectory ==>
      |r.value| == |PyEntries(listing)| &&
      forall i :: 0 <= i < |r.value| ==> r.value[i] == JoinPath(filePaths[0], PyEntries(listing)[i])
  {
    if canceled || |filePaths| == 0 then None
    else
      var selected := filePaths[0];
      if isDirectory then
        var py := PyEntries(listing);
        Some(seq(|py|, i requires 0 <= i < |py| => JoinPath(selected, py[i])))
      else Some([selected])
  }
}

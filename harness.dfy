/** `test.py`: the Python harness the runner spawns once per script. It reads the
    test file, loads the function named by `testfunc` from the script, runs it on
    every parameter list of `tests` and prints one JSON record per test.

    Python values are modelled by `PyValue`. What the harness hands to Python's
    own machinery (`ast.literal_eval`, `json.loads`, `int()`, `float()`, `set()`,
    `bytes()`, `str()` of a container, `==`, and the loaded function itself) is a
    parameter: a `Foreign` record of total functions, where a raised exception is
    an `Err` carrying the text `str(e)` would give. */
module Harness {
  import opened Wrappers
  import opened Json
  import opened Process
  import Dict
  import Tester

  /** A Python value. `PyObject` stands for every value the model does not look
      inside: floats, sets, bytes, and whatever the function under test returns. */
  datatype PyValue =
    | PyNone
    | PyBool(b: bool)
    | PyInt(i: int)
    | PyStr(s: string)
    | PyList(items: seq<PyValue>)
    | PyTuple(items: seq<PyValue>)
    | PyDict(entries: seq<(PyValue, PyValue)>)
    | PyObject(typeName: string, id: nat)

  /** Python's library, as far as the harness calls it. */
  datatype Foreign = Foreign(
    literalEval: string -> Result<PyValue, string>,        // ast.literal_eval
    loads: PyValue -> Result<PyValue, string>,             // json.loads
    toInt: PyValue -> Result<PyValue, string>,             // int(v)
    toFloat: PyValue -> Result<PyValue, string>,           // float(v)
    toSet: PyValue -> Result<PyValue, string>,             // set(v)
    toBytes: PyValue -> Result<PyValue, string>,           // bytes(v, encoding='utf-8')
    iterObject: PyValue -> Result<seq<PyValue>, string>,   // iter() of a PyObject
    truthObject: PyValue -> bool,                          // bool() of a PyObject
    show: PyValue -> string,                               // str() of a container or PyObject
    eq: (PyValue, PyValue) -> Result<bool, string>)        // ==, or what __eq__ raises

  /** A function loaded from the script under test: arguments to a result or an
      exception text. */
  type Callable = seq<PyValue> -> Result<PyValue, string>

  /* ---------- Python's built-in behaviour on the modelled values ---------- */

  function TypeName(v: PyValue): string {
    match v
    case PyNone => "NoneType"
    case PyBool(_) => "bool"
    case PyInt(_) => "int"
    case PyStr(_) => "str"
    case PyList(_) => "list"
    case PyTuple(_) => "tuple"
    case PyDict(_) => "dict"
    case PyObject(t, _) => t
  }

  /** What `json.load` makes of a JSON value: arrays become lists, objects dicts
      with string keys, where a repeated name keeps its first place and takes its
      last value. */
  function FromJson(j: Json): PyValue
    decreases j
  {
    match j
    case JNull => PyNone
    case JBool(b) => PyBool(b)
    case JNum(n) => PyInt(n)
    case JStr(s) => PyStr(s)
    case JArr(es) => PyList(seq(|es|, i requires 0 <= i < |es| => FromJson(es[i])))
    case JObj(ms) =>
      var d := Dict.PutAll(seq(|ms|, i requires 0 <= i < |ms| => (ms[i].key, FromJson(ms[i].value))));
      PyDict(seq(|d|, i requires 0 <= i < |d| => (PyStr(d[i].0), d[i].1)))
  }

  /** `bool(v)`: empty containers, zero, the empty string and None are false. */
  predicate Truth(v: PyValue, ff: Foreign) {
    match v
    case PyNone => false
    case PyBool(b) => b
    case PyInt(i) => i != 0
    case PyStr(s) => |s| > 0
    case PyList(items) => |items| > 0
    case PyTuple(items) => |items| > 0
    case PyDict(entries) => |entries| > 0
    case PyObject(_, _) => ff.truthObject(v)
  }

  /** `str(v)`. */
  function Str(v: PyValue, ff: Foreign): string {
    match v
    case PyNone => "None"
    case PyBool(b) => if b then "True" else "False"
    case PyInt(i) => IntText(i)
    case PyStr(s) => s
    case _ => ff.show(v)
  }

  /** `iter(v)` drained: the items of a list or tuple, the one-character strings
      of a string, the keys of a dict. */
  function Iterate(v: PyValue, ff: Foreign): Result<seq<PyValue>, string> {
    match v
    case PyList(items) => Ok(items)
    case PyTuple(items) => Ok(items)
    case PyStr(s) => Ok(seq(|s|, i requires 0 <= i < |s| => PyStr([s[i]])))
    case PyDict(entries) => Ok(seq(|entries|, i requires 0 <= i < |entries| => entries[i].0))
    case PyObject(_, _) => ff.iterObject(v)
    case _ => Err("'" + TypeName(v) + "' object is not iterable")
  }

  /** `a, b = v`, with CPython 3.12's messages. */
  function Unpack2(v: PyValue, ff: Foreign): (r: Result<(PyValue, PyValue), string>)
    ensures (v.PyList? || v.PyTuple?) && |v.items| == 2 ==> r == Ok((v.items[0], v.items[1]))
    ensures v.PyNone? || v.PyBool? || v.PyInt? ==> r.Err?
  {
    if v.PyNone? || v.PyBool? || v.PyInt? then
      Err("cannot unpack non-iterable " + TypeName(v) + " object")
    else
      match Iterate(v, ff)
      case Err(m) => Err(m)
      case Ok(xs) =>
        if |xs| == 2 then Ok((xs[0], xs[1]))
        else if |xs| < 2 then Err("not enough values to unpack (expected 2, got " + Digits(|xs|) + ")")
        else Err("too many values to unpack (expected 2)")
  }

  /** ASCII lower-casing. Python's `str.lower` also lowers other letters, but no
      letter outside ASCII lowers to one of t, r, u, e, so comparing the result
      with "true" comes out the same. */
  function LowerAscii(s: string): (r: string)
    ensures |r| == |s|
  {
    seq(|s|, i requires 0 <= i < |s| => if 'A' <= s[i] <= 'Z' then (s[i] as int + 32) as char else s[i])
  }

  /* ---------- parse_arg and run_function ---------- */

  /** `value.lower() == 'true'`: bytes have `lower` too but never equal a str;
      other values have no `lower`. */
  function LowerIsTrue(value: PyValue): Result<PyValue, string> {
    if value.PyStr? then Ok(PyBool(LowerAscii(value.s) == "true"))
    else if TypeName(value) == "bytes" then Ok(PyBool(false))
    else Err("'" + TypeName(value) + "' object has no attribute 'lower'")
  }

  /** The type names `parse_arg` converts for. */
  const ArgTypes: set<string> := {"int", "float", "str", "bool", "list", "dict", "tuple", "set", "NoneType", "bytes"}

  /** `parse_arg` after unpacking: the conversion the type name selects. */
  function ConvertArg(value: PyValue, t: PyValue, ff: Foreign): Result<PyValue, string> {
    if t == PyStr("int") then ff.toInt(value)
    else if t == PyStr("float") then ff.toFloat(value)
    else if t == PyStr("str") then Ok(value)
    else if t == PyStr("bool") then LowerIsTrue(value)
    else if t == PyStr("list") || t == PyStr("dict") then ff.loads(value)
    else if t == PyStr("tuple") then
      match ff.loads(value)
      case Err(m) => Err(m)
      case Ok(x) =>
        match Iterate(x, ff)
        case Err(m) => Err(m)
        case Ok(xs) => Ok(PyTuple(xs))
    else if t == PyStr("set") then
      match ff.loads(value)
      case Err(m) => Err(m)
      case Ok(x) => ff.toSet(x)
    else if t == PyStr("NoneType") then Ok(PyNone)
    else if t == PyStr("bytes") then ff.toBytes(value)
    else Ok(value)
  }

  /** `parse_arg(arg)`: one `[value, type]` pair to an argument. */
  function ParseArg(arg: PyValue, ff: Foreign): Result<PyValue, string> {
    match Unpack2(arg, ff)
    case Err(m) => Err(m)
    case Ok((value, t)) => ConvertArg(value, t, ff)
  }

  /** `[parse_arg(arg) for arg in args]`: stops at the first exception. */
  function ParseArgs(args: seq<PyValue>, ff: Foreign): Result<seq<PyValue>, string> {
    Collect(ArgResults(args, ff))
  }

  /** `parse_arg` of each argument, in order. */
  function ArgResults(args: seq<PyValue>, ff: Foreign): (rs: seq<Result<PyValue, string>>)
    ensures |rs| == |args| && forall i :: 0 <= i < |args| ==> rs[i] == ParseArg(args[i], ff)
  {
    seq(|args|, i requires 0 <= i < |args| => ParseArg(args[i], ff))
  }

  /** The dict `run_function` returns. */
  datatype Output = Output(result: PyValue, passed: bool)

  /** `run_function(func, params)`: a failed run carries the text of the
      exception of the first stage that raised: `literal_eval`, iterating its
      value, parsing the arguments, or the call. */
  function RunFunction(f: Callable, params: string, ff: Foreign): (r: Output)
    ensures !r.passed ==> r.result.PyStr?
    ensures ff.literalEval(params).Err? ==> r == Output(PyStr(ff.literalEval(params).error), false)
    ensures ff.literalEval(params).Ok? && Iterate(ff.literalEval(params).value, ff).Err? ==>
      r == Output(PyStr(Iterate(ff.literalEval(params).value, ff).error), false)
    ensures ff.literalEval(params).Ok? && Iterate(ff.literalEval(params).value, ff).Ok? ==>
      var args := Iterate(ff.literalEval(params).value, ff).value;
      && (ParseArgs(args, ff).Err? ==> r == Output(PyStr(ParseArgs(args, ff).error), false))
      && (ParseArgs(args, ff).Ok? && f(ParseArgs(args, ff).value).Err? ==>
            r == Output(PyStr(f(ParseArgs(args, ff).value).error), false))
      && (ParseArgs(args, ff).Ok? && f(ParseArgs(args, ff).value).Ok? ==>
            r == Output(f(ParseArgs(args, ff).value).value, true))
  {
    match ff.literalEval(params)
    case Err(m) => Output(PyStr(m), false)
    case Ok(lit) =>
      match Iterate(lit, ff)
      case Err(m) => Output(PyStr(m), false)
      case Ok(args) =>
        match ParseArgs(args, ff)
        case Err(m) => Output(PyStr(m), false)
        case Ok(values) =>
          match f(values)
          case Err(m) => Output(PyStr(m), false)
          case Ok(result) => Output(result, true)
  }

  /* ---------- parse_expected ---------- */

  /** The keys of `type_mapping`; any other name maps to `str`. */
  const ExpectedTypes: set<string> := {"int", "float", "str", "bool", "tuple", "set", "NoneType", "bytes"}

  /** Whether `hash(v)` succeeds. */
  predicate Hashable(v: PyValue) {
    match v
    case PyList(_) => false
    case PyDict(_) => false
    case PyTuple(items) => forall i :: 0 <= i < |items| ==> Hashable(items[i])
    case _ => true
  }

  /** `type_mapping.get(type_str, str)`, by name. */
  function ExpectedType(t: PyValue): (name: string)
    ensures name in ExpectedTypes
  {
    if t.PyStr? && t.s in ExpectedTypes then t.s else "str"
  }

  /** `expected_type(value)` for each type of the mapping except bytes. */
  function Construct(name: string, value: PyValue, ff: Foreign): Result<PyValue, string> {
    if name == "int" then ff.toInt(value)
    else if name == "float" then ff.toFloat(value)
    else if name == "bool" then Ok(PyBool(Truth(value, ff)))
    else if name == "tuple" then
      match Iterate(value, ff)
      case Err(m) => Err(m)
      case Ok(xs) => Ok(PyTuple(xs))
    else if name == "set" then ff.toSet(value)
    else if name == "NoneType" then Err("NoneType takes no arguments")
    else Ok(PyStr(Str(value, ff)))
  }

  /** `parse_expected(expected)`: the expected value and the name of its type; any
      exception gives back the whole JSON value and `str`. */
  function ParseExpected(expected: Json, ff: Foreign): (PyValue, string) {
    var whole := FromJson(expected);
    match Unpack2(whole, ff)
    case Err(_) => (whole, "str")
    case Ok((value, t)) =>
      if !Hashable(t) then (whole, "str")
      else if t == PyStr("bytes") then
        match ff.toBytes(value)
        case Err(_) => (whole, "str")
        case Ok(b) => (b, "bytes")
      else
        var name := ExpectedType(t);
        match Construct(name, value, ff)
        case Err(_) => (whole, "str")
        case Ok(x) => (x, name)
  }

  /* ---------- check_test_in_file ---------- */

  /** One printed record; the error is None or the exception text. */
  datatype TestRecord = TestRecord(test: Json, passed: bool, error: Option<string>)

  const InvalidName: TestRecord := TestRecord(JStr("Invalid function name"), false, Some("Missing 'testfunc' key."))

  /** The record for a name that loads no function: the name as `json.load`
      read it, which `json.dumps` writes back. */
  function NotFound(name: Json): TestRecord {
    TestRecord(Reloaded(name), false, Some("Function not found."))
  }

  /** A JSON value read by `json.load` and written back by `json.dumps`: every
      object keeps each name once, in the place of its first member, with the
      value of its last. */
  function Reloaded(j: Json): Json
    decreases j, 1
  {
    match j
    case JArr(es) => JArr(seq(|es|, i requires 0 <= i < |es| => Reloaded(es[i])))
    case JObj(ms) => DictJson(ObjectOf(ReloadedMembers(ms)))
    case _ => j
  }

  function ReloadedMembers(ms: seq<Member>): (rs: seq<Member>)
    ensures |rs| == |ms| && forall i :: 0 <= i < |ms| ==> rs[i].key == ms[i].key
    decreases ms, 0
  {
    seq(|ms|, i requires 0 <= i < |ms| => Member(ms[i].key, Reloaded(ms[i].value)))
  }

  /** The last value a name takes among reloaded members is the reloaded last value. */
  lemma {:induction false} LastValueReloaded(ms: seq<Member>, k: string)
    ensures LastValue(ReloadedMembers(ms), k) ==
      if LastValue(ms, k).None? then None else Some(Reloaded(LastValue(ms, k).value))
    decreases |ms|
  {
    if |ms| > 0 {
      var n := |ms| - 1;
      assert ReloadedMembers(ms)[..n] == ReloadedMembers(ms[..n]);
      LastValueReloaded(ms[..n], k);
    }
  }

  /** A reloaded object holds each of its names once, each with its last value
      reloaded. */
  lemma ReloadedLast(ms: seq<Member>)
    ensures var es := Reloaded(JObj(ms)).members;
      && (forall i, j :: 0 <= i < j < |es| ==> es[i].key != es[j].key)
      && (forall i :: 0 <= i < |es| ==>
            LastValue(ms, es[i].key).Some? && es[i].value == Reloaded(LastValue(ms, es[i].key).value))
  {
    var rs := ReloadedMembers(ms);
    var es := Reloaded(JObj(ms)).members;
    assert es == DictJson(ObjectOf(rs)).members;
    ObjectMembersLast(rs);
    forall i | 0 <= i < |es|
      ensures LastValue(ms, es[i].key).Some? && es[i].value == Reloaded(LastValue(ms, es[i].key).value)
    {
      LastValueReloaded(ms, es[i].key);
    }
  }

  /** Every name of the object appears in its reloaded form. */
  lemma ReloadedCover(ms: seq<Member>)
    ensures var es := Reloaded(JObj(ms)).members;
      forall i :: 0 <= i < |ms| ==> exists j :: 0 <= j < |es| && es[j].key == ms[i].key
  {
    var rs := ReloadedMembers(ms);
    assert Reloaded(JObj(ms)).members == DictJson(ObjectOf(rs)).members;
    ObjectMembersCover(rs);
  }

  /** With no name repeated, the reloaded object keeps its members in order. */
  lemma ReloadedDistinct(ms: seq<Member>)
    requires forall i, j :: 0 <= i < j < |ms| ==> ms[i].key != ms[j].key
    ensures Reloaded(JObj(ms)).members == ReloadedMembers(ms)
  {
    var rs := ReloadedMembers(ms);
    assert Reloaded(JObj(ms)).members == DictJson(ObjectOf(rs)).members;
    ObjectMembersUnique(rs);
  }

  /** A name object with a repeated key is printed with its last value only. */
  lemma NotFoundRepeated(a: Json, b: Json)
    requires a == JNum(1) && b == JNum(2)
    ensures NotFound(JObj([Member("a", a), Member("a", b)])).test == JObj([Member("a", b)])
  {
    var ms := [Member("a", a), Member("a", b)];
    assert ReloadedMembers(ms) == ms;
    ObjectOfRepeated("a", a, b);
    assert DictJson([("a", b)]).members == [Member("a", b)];
  }

  /** A text name is printed as it is. */
  lemma NotFoundText(name: string)
    ensures NotFound(JStr(name)) == TestRecord(JStr(name), false, Some("Function not found."))
  {
  }

  /** `load_function_from_path`: a name that is not a string makes `getattr`
      raise, which gives None; otherwise the loader decides (a falsy attribute
      counts as not found). */
  function LoadFunction(scriptPath: string, name: Json, loader: (string, string) -> Option<Callable>): Option<Callable> {
    if name.JStr? then loader(scriptPath, name.s) else None
  }

  /** `tests.get("tests", {}).items()`, or the AttributeError it raises. */
  function TestEntries(tests: Json, ff: Foreign): Result<seq<Member>, string> {
    match Get(tests, "tests")
    case None => Ok([])
    case Some(JObj(ms)) => Ok(DictJson(ObjectOf(ms)).members)
    case Some(other) => Err("'" + TypeName(FromJson(other)) + "' object has no attribute 'items'")
  }

  /** The items of a parsed test map: each parameter text once, with the last
      value the file gives it, and no text the file does not hold; with no text
      repeated, the members themselves in file order. */
  lemma TestEntriesOfObject(tests: Json, ms: seq<Member>, ff: Foreign)
    requires Get(tests, "tests") == Some(JObj(ms))
    ensures TestEntries(tests, ff).Ok?
    ensures var es := TestEntries(tests, ff).value;
      && (forall i, j :: 0 <= i < j < |es| ==> es[i].key != es[j].key)
      && (forall i :: 0 <= i < |es| ==> LastValue(ms, es[i].key) == Some(es[i].value))
      && (forall i :: 0 <= i < |ms| ==> exists j :: 0 <= j < |es| && es[j].key == ms[i].key)
    ensures (forall i, j :: 0 <= i < j < |ms| ==> ms[i].key != ms[j].key) ==> TestEntries(tests, ff) == Ok(ms)
  {
    TestEntriesAre(tests, ms, ff);
    ObjectMembersLast(ms);
    ObjectMembersCover(ms);
    if forall i, j :: 0 <= i < j < |ms| ==> ms[i].key != ms[j].key {
      ObjectMembersUnique(ms);
    }
  }

  lemma TestEntriesAre(tests: Json, ms: seq<Member>, ff: Foreign)
    requires Get(tests, "tests") == Some(JObj(ms))
    ensures TestEntries(tests, ff) == Ok(DictJson(ObjectOf(ms)).members)
  {
  }

  /** A parameter text given twice is run once, with its second expected value. */
  lemma TestEntriesRepeated(tests: Json, k: string, a: Json, b: Json, ff: Foreign)
    requires Get(tests, "tests") == Some(JObj([Member(k, a), Member(k, b)]))
    ensures TestEntries(tests, ff) == Ok([Member(k, b)])
  {
    ObjectOfRepeated(k, a, b);
    assert DictJson([(k, b)]).members == [Member(k, b)];
  }

  /** The record of one test: its label, whether the call returned the expected
      value, and the exception text if it raised; or the exception a raising
      comparison lets escape, which no `try` around the loop catches. */
  function RecordFor(f: Callable, entry: Member, ff: Foreign): Result<TestRecord, string> {
    var (expectedValue, _) := ParseExpected(entry.value, ff);
    var output := RunFunction(f, entry.key, ff);
    var heading := JStr(entry.key + " => " + Str(expectedValue, ff));
    if !output.passed then Ok(TestRecord(heading, false, Some(output.result.s)))
    else
      match ff.eq(output.result, expectedValue)
      case Err(m) => Err(m)
      case Ok(same) => Ok(TestRecord(heading, same, None))
  }

  /** What the loop body gives for each entry, in entry order. */
  function RecordResults(f: Callable, entries: seq<Member>, ff: Foreign): (rs: seq<Result<TestRecord, string>>)
    ensures |rs| == |entries| && forall i :: 0 <= i < |entries| ==> rs[i] == RecordFor(f, entries[i], ff)
  {
    seq(|entries|, i requires 0 <= i < |entries| => RecordFor(f, entries[i], ff))
  }

  /** The values of a run of steps, in order, or the first exception, which ends
      the run. */
  function Collect<T>(rs: seq<Result<T, string>>): Result<seq<T>, string>
    decreases |rs|
  {
    if |rs| == 0 then Ok([])
    else
      match rs[0]
      case Err(m) => Err(m)
      case Ok(v) =>
        match Collect(rs[1..])
        case Err(m) => Err(m)
        case Ok(vs) => Ok([v] + vs)
  }

  /** The records of the loop over the entries, in order; the first escaping
      exception ends the loop. */
  function Records(f: Callable, entries: seq<Member>, ff: Foreign): Result<seq<TestRecord>, string> {
    Collect(RecordResults(f, entries, ff))
  }

  /** What `check_test_in_file` returns, or the exception that escapes it. */
  function CheckTests(scriptPath: string, tests: Json, loader: (string, string) -> Option<Callable>,
                      ff: Foreign): Result<seq<TestRecord>, string>
  {
    if !tests.JObj? then Err("'" + TypeName(FromJson(tests)) + "' object has no attribute 'get'")
    else
      var name := Get(tests, "testfunc");
      if name.None? || !Truth(FromJson(name.value), ff) then Ok([InvalidName])
      else
        match LoadFunction(scriptPath, name.value, loader)
        case None => Ok([NotFound(name.value)])
        case Some(f) =>
          match TestEntries(tests, ff)
          case Err(m) => Err(m)
          case Ok(entries) => Records(f, entries, ff)
  }

  /** The loop of `check_test_in_file`: one record appended per entry, until a
      comparison raises. */
  method RecordAll(f: Callable, entries: seq<Member>, ff: Foreign) returns (results: Result<seq<TestRecord>, string>)
    ensures results == Records(f, entries, ff)
  {
    ghost var rs := RecordResults(f, entries, ff);
    var done: seq<TestRecord> := [];
    var i := 0;
    assert rs[0..] == rs;
    PrecededEmpty(Collect(rs));
    while i < |entries|
      invariant 0 <= i <= |entries|
      invariant Collect(rs) == Preceded(done, Collect(rs[i..]))
    {
      var rec := RecordFor(f, entries[i], ff);
      assert rec == rs[i] == rs[i..][0];
      CollectStep(rs[i..]);
      assert rs[i..][1..] == rs[i + 1..];
      if rec.Err? {
        return Err(rec.error);
      }
      PrecededCons(done, rec.value, Collect(rs[i + 1..]));
      done := done + [rec.value];
      i := i + 1;
    }
    assert rs[i..] == [];
    assert done + [] == done;
    return Ok(done);
  }

  /** The values made so far ahead of what the rest of a run gives. */
  function Preceded<T>(done: seq<T>, r: Result<seq<T>, string>): Result<seq<T>, string> {
    if r.Err? then r else Ok(done + r.value)
  }

  lemma PrecededEmpty<T>(r: Result<seq<T>, string>)
    ensures Preceded([], r) == r
  {
    if r.Ok? {
      assert [] + r.value == r.value;
    }
  }

  lemma PrecededCons<T>(done: seq<T>, v: T, r: Result<seq<T>, string>)
    ensures Preceded(done, if r.Err? then r else Ok([v] + r.value)) == Preceded(done + [v], r)
  {
    if r.Ok? {
      assert done + ([v] + r.value) == (done + [v]) + r.value;
    }
  }

  lemma CollectStep<T>(rs: seq<Result<T, string>>)
    requires |rs| > 0
    ensures Collect(rs) ==
      if rs[0].Err? then Err(rs[0].error)
      else if Collect(rs[1..]).Err? then Collect(rs[1..])
      else Ok([rs[0].value] + Collect(rs[1..]).value)
  {
  }

  /** A run completes exactly when no step raised, with each step's value in order. */
  lemma {:induction false} CollectMeaning<T>(rs: seq<Result<T, string>>)
    ensures Collect(rs).Ok? <==> forall i :: 0 <= i < |rs| ==> rs[i].Ok?
    ensures Collect(rs).Ok? ==> |Collect(rs).value| == |rs| && forall i :: 0 <= i < |rs| ==> Collect(rs).value[i] == rs[i].value
    decreases |rs|
  {
    if |rs| > 0 {
      CollectStep(rs);
      CollectMeaning(rs[1..]);
      assert forall i :: 0 < i < |rs| ==> rs[1..][i - 1] == rs[i];
    }
  }

  /** A run that fails carries the exception of a step before which none raised. */
  lemma {:induction false} CollectErrorFirst<T>(rs: seq<Result<T, string>>)
    ensures Collect(rs).Err? ==>
      exists i :: 0 <= i < |rs| && rs[i] == Err(Collect(rs).error) && forall k :: 0 <= k < i ==> rs[k].Ok?
    decreases |rs|
  {
    if |rs| > 0 && Collect(rs).Err? {
      CollectStep(rs);
      if rs[0].Ok? {
        CollectErrorFirst(rs[1..]);
        var j :| 0 <= j < |rs[1..]| && rs[1..][j] == Err(Collect(rs[1..]).error) && forall k :: 0 <= k < j ==> rs[1..][k].Ok?;
        assert rs[j + 1] == Err(Collect(rs).error);
        forall k | 0 <= k < j + 1 ensures rs[k].Ok? {
          if k > 0 { assert rs[k] == rs[1..][k - 1]; }
        }
      }
    }
  }

  /** A run ends with the exception of its first raising step. */
  lemma {:induction false} CollectFirstError<T>(rs: seq<Result<T, string>>, i: nat)
    requires i < |rs| && rs[i].Err? && forall k :: 0 <= k < i ==> rs[k].Ok?
    ensures Collect(rs) == Err(rs[i].error)
    decreases i
  {
    CollectStep(rs);
    if i > 0 {
      assert rs[1..][i - 1] == rs[i];
      assert forall k :: 0 <= k < i - 1 ==> rs[1..][k] == rs[k + 1];
      CollectFirstError(rs[1..], i - 1);
    }
  }

  /** The loop completes exactly when no comparison raises, with one record per
      entry, in order. */
  lemma RecordsMeaning(f: Callable, entries: seq<Member>, ff: Foreign)
    ensures var r := Records(f, entries, ff);
      r.Ok? <==> forall i :: 0 <= i < |entries| ==> RecordFor(f, entries[i], ff).Ok?
    ensures var r := Records(f, entries, ff);
      r.Ok? ==> |r.value| == |entries| && forall i :: 0 <= i < |entries| ==> r.value[i] == RecordFor(f, entries[i], ff).value
  {
    CollectMeaning(RecordResults(f, entries, ff));
  }

  /** The loop stops at the first entry whose comparison raises, with its exception. */
  lemma RecordsFirstError(f: Callable, entries: seq<Member>, ff: Foreign, i: nat)
    requires i < |entries| && RecordFor(f, entries[i], ff).Err?
    requires forall k :: 0 <= k < i ==> RecordFor(f, entries[k], ff).Ok?
    ensures Records(f, entries, ff) == Err(RecordFor(f, entries[i], ff).error)
  {
    CollectFirstError(RecordResults(f, entries, ff), i);
  }

  /** `check_test_in_file`: the two early returns, then the loop over `tests`. */
  method CheckTestInFile(scriptPath: string, tests: Json, loader: (string, string) -> Option<Callable>,
                         ff: Foreign) returns (r: Result<seq<TestRecord>, string>)
    ensures r == CheckTests(scriptPath, tests, loader, ff)
  {
    if !tests.JObj? {
      return Err("'" + TypeName(FromJson(tests)) + "' object has no attribute 'get'");
    }
    var name := Get(tests, "testfunc");
    if name.None? || !Truth(FromJson(name.value), ff) {
      return Ok([InvalidName]);
    }
    var f := LoadFunction(scriptPath, name.value, loader);
    if f.None? {
      return Ok([NotFound(name.value)]);
    }
    var entries := TestEntries(tests, ff);
    if entries.Err? {
      return Err(entries.error);
    }
    r := RecordAll(f.value, entries.value, ff);
  }

  /* ---------- the script's entry point ---------- */

  datatype Exit = Exit(stdout: string, code: int)

  const UsageMessage: string := "Usage: python test.py <json_path> <script_path>"
  const PathsMessage: string := "Invalid file paths. Please provide valid JSON and Python script paths."

  function ErrorObject(message: string): Json {
    JObj([Member("error", JStr(message))])
  }

  function RecordJson(r: TestRecord): Json {
    JObj([Member("test", r.test), Member("passed", JBool(r.passed)),
          Member("error", match r.error case None => JNull case Some(m) => JStr(m))])
  }

  function ResultsJson(rs: seq<TestRecord>): (j: Json)
    ensures j.JArr? && |j.elems| == |rs|
  {
    JArr(seq(|rs|, i requires 0 <= i < |rs| => RecordJson(rs[i])))
  }

  /** `print(json.dumps(v))`. */
  function Printed(v: Json): string {
    Serialize(v, Py) + "\n"
  }

  /** The harness run as a process: argv (the script name first), which paths are
      files, and the parsed test file. An exception that escapes prints only a
      traceback to stderr and exits with 1. */
  function Run(argv: seq<string>, isFile: string -> bool, readTests: string -> Result<Json, string>,
               loader: (string, string) -> Option<Callable>, ff: Foreign): Exit
  {
    if |argv| != 3 then Exit(Printed(ErrorObject(UsageMessage)), 1)
    else if !isFile(argv[1]) || !isFile(argv[2]) then Exit(Printed(ErrorObject(PathsMessage)), 1)
    else
      match readTests(argv[1])
      case Err(_) => Exit("", 1)
      case Ok(data) =>
        match CheckTests(argv[2], data, loader, ff)
        case Err(_) => Exit("", 1)
        case Ok(records) => Exit(Printed(ResultsJson(records)), 0)
  }

  /* ---------- properties ---------- */

  /** `str` and every type name `parse_arg` does not list give the value back
      unchanged; `NoneType` gives None whatever the value. */
  lemma ParseArgPassThrough(value: PyValue, t: PyValue, ff: Foreign)
    ensures t == PyStr("str") || !(t.PyStr? && t.s in ArgTypes) ==>
      ParseArg(PyList([value, t]), ff) == Ok(value)
    ensures ParseArg(PyList([value, PyStr("NoneType")]), ff) == Ok(PyNone)
  {
  }

  /** `bool` compares the lower-cased text with "true"; bytes give False and any
      other value, having no `lower`, raises. */
  lemma ParseArgBool(value: PyValue, ff: Foreign)
    ensures value.PyStr? ==> ParseArg(PyList([value, PyStr("bool")]), ff) == Ok(PyBool(LowerAscii(value.s) == "true"))
    ensures !value.PyStr? && TypeName(value) == "bytes" ==> ParseArg(PyList([value, PyStr("bool")]), ff) == Ok(PyBool(false))
    ensures !value.PyStr? && TypeName(value) != "bytes" ==>
      ParseArg(PyList([value, PyStr("bool")]), ff) == Err("'" + TypeName(value) + "' object has no attribute 'lower'")
  {
  }

  /** "TRUE" gives True; "yes" and "False" give False. */
  lemma ParseArgBoolExamples(ff: Foreign)
    ensures ParseArg(PyList([PyStr("TRUE"), PyStr("bool")]), ff) == Ok(PyBool(true))
    ensures ParseArg(PyList([PyStr("yes"), PyStr("bool")]), ff) == Ok(PyBool(false))
    ensures ParseArg(PyList([PyStr("False"), PyStr("bool")]), ff) == Ok(PyBool(false))
  {
    ParseArgBool(PyStr("TRUE"), ff);
    ParseArgBool(PyStr("yes"), ff);
    ParseArgBool(PyStr("False"), ff);
    assert LowerAscii("TRUE") == "true";
    assert LowerAscii("yes")[0] == 'y';
    assert LowerAscii("False")[0] == 'f';
  }

  /** An argument that is not a pair raises before any conversion. */
  lemma ParseArgNeedsPair(arg: PyValue, ff: Foreign)
    requires (arg.PyList? || arg.PyTuple?) && |arg.items| != 2
    ensures ParseArg(arg, ff).Err?
  {
  }

  /** The argument list parses exactly when every argument does, and then holds
      their values in order; otherwise the error is the first argument's that fails. */
  lemma ParseArgsMeaning(args: seq<PyValue>, ff: Foreign)
    ensures ParseArgs(args, ff).Ok? <==> forall i :: 0 <= i < |args| ==> ParseArg(args[i], ff).Ok?
    ensures ParseArgs(args, ff).Ok? ==>
      |ParseArgs(args, ff).value| == |args| &&
      forall i :: 0 <= i < |args| ==> ParseArgs(args, ff).value[i] == ParseArg(args[i], ff).value
    ensures ParseArgs(args, ff).Err? ==>
      exists i :: 0 <= i < |args| && ParseArg(args[i], ff) == Err(ParseArgs(args, ff).error) &&
                  forall j :: 0 <= j < i ==> ParseArg(args[j], ff).Ok?
  {
    var rs := ArgResults(args, ff);
    CollectMeaning(rs);
    CollectErrorFirst(rs);
  }


  /** A run passes exactly when the parameter text evaluates to an iterable whose
      items all parse and the function returns on them, and then carries the
      returned value; otherwise it carries the text of the first exception. */
  lemma RunFunctionMeaning(f: Callable, params: string, ff: Foreign)
    ensures var r := RunFunction(f, params, ff);
      r.passed <==>
        ff.literalEval(params).Ok? && Iterate(ff.literalEval(params).value, ff).Ok? &&
        (forall i :: 0 <= i < |Iterate(ff.literalEval(params).value, ff).value| ==>
           ParseArg(Iterate(ff.literalEval(params).value, ff).value[i], ff).Ok?) &&
        ParseArgs(Iterate(ff.literalEval(params).value, ff).value, ff).Ok? &&
        f(ParseArgs(Iterate(ff.literalEval(params).value, ff).value, ff).value).Ok?
    ensures var r := RunFunction(f, params, ff);
      r.passed ==> r.result == f(ParseArgs(Iterate(ff.literalEval(params).value, ff).value, ff).value).value
    ensures var r := RunFunction(f, params, ff);
      ff.literalEval(params).Ok? && Iterate(ff.literalEval(params).value, ff).Ok? ==>
        var args := Iterate(ff.literalEval(params).value, ff).value;
        forall i :: 0 <= i < |args| && ParseArg(args[i], ff).Err? && (forall j :: 0 <= j < i ==> ParseArg(args[j], ff).Ok?) ==>
          r == Output(PyStr(ParseArg(args[i], ff).error), false)
  {
    if ff.literalEval(params).Ok? && Iterate(ff.literalEval(params).value, ff).Ok? {
      ParseArgsMeaning(Iterate(ff.literalEval(params).value, ff).value, ff);
    }
  }

  lemma FromJsonPair(a: Json, b: Json)
    ensures FromJson(JArr([a, b])) == PyList([FromJson(a), FromJson(b)])
  {
    assert FromJson(JArr([a, b])).items == [FromJson(a), FromJson(b)];
  }

  /** `bool(value)`: any non-empty string is True, "False" included. */
  lemma ExpectedBool(s: string, ff: Foreign)
    ensures ParseExpected(JArr([JStr(s), JStr("bool")]), ff) == (PyBool(|s| > 0), "bool")
    ensures ParseExpected(JArr([JStr("False"), JStr("bool")]), ff) == (PyBool(true), "bool")
  {
    FromJsonPair(JStr(s), JStr("bool"));
    FromJsonPair(JStr("False"), JStr("bool"));
  }

  /** A type name outside the mapping (such as "list", "dict" or "any") falls back
      to `str`. */
  lemma ExpectedFallsBackToStr(value: Json, t: string, ff: Foreign)
    requires t !in ExpectedTypes
    ensures ParseExpected(JArr([value, JStr(t)]), ff) == (PyStr(Str(FromJson(value), ff)), "str")
  {
    FromJsonPair(value, JStr(t));
  }

  /** When unpacking or the conversion raises, the whole expected JSON value comes
      back, typed `str`. */
  lemma ExpectedFailure(expected: Json, ff: Foreign)
    ensures Unpack2(FromJson(expected), ff).Err? ==> ParseExpected(expected, ff) == (FromJson(expected), "str")
    ensures forall value: Json, t: string ::
      (t in {"int", "float", "set"} && expected == JArr([value, JStr(t)]) && Construct(t, FromJson(value), ff).Err?) ==>
        ParseExpected(expected, ff) == (FromJson(expected), "str")
    ensures forall value: Json :: expected == JArr([value, JStr("bytes")]) && ff.toBytes(FromJson(value)).Err? ==>
      ParseExpected(expected, ff) == (FromJson(expected), "str")
  {
  }

  /** `NoneType` cannot be called with an argument, so an expected value typed
      `NoneType` is always the whole `[value, "NoneType"]` list, never None. */
  lemma ExpectedNoneTypeIsThePair(value: Json, ff: Foreign)
    ensures ParseExpected(JArr([value, JStr("NoneType")]), ff) ==
      (PyList([FromJson(value), PyStr("NoneType")]), "str")
  {
    FromJsonPair(value, JStr("NoneType"));
  }

  /** The shape of the record list: a missing or falsy `testfunc` gives the single
      "Invalid function name" record; a function that does not load gives the
      single "Function not found." record; otherwise the records of the entries
      of `tests`, or the exception that escapes. */
  lemma RecordsShape(scriptPath: string, tests: Json, loader: (string, string) -> Option<Callable>, ff: Foreign)
    requires tests.JObj?
    ensures var name := Get(tests, "testfunc");
      (name.None? || !Truth(FromJson(name.value), ff)) ==> CheckTests(scriptPath, tests, loader, ff) == Ok([InvalidName])
    ensures var name := Get(tests, "testfunc");
      (name.Some? && Truth(FromJson(name.value), ff) && LoadFunction(scriptPath, name.value, loader).None?) ==>
        CheckTests(scriptPath, tests, loader, ff) == Ok([NotFound(name.value)])
    ensures var name := Get(tests, "testfunc");
      (name.Some? && Truth(FromJson(name.value), ff) && LoadFunction(scriptPath, name.value, loader).Some?) ==>
        var es := TestEntries(tests, ff);
        && (es.Err? ==> CheckTests(scriptPath, tests, loader, ff) == Err(es.error))
        && (es.Ok? ==> CheckTests(scriptPath, tests, loader, ff) == Records(LoadFunction(scriptPath, name.value, loader).value, es.value, ff))
  {
  }

  /** Each per-test record is labelled "<param> => <expected value>"; a run that
      raised gives a failing record carrying its text, with no comparison made; a
      run that returned is compared with the expected value, which passes the
      record when equal, fails it without error when not, and lets the exception
      escape when the comparison raises. */
  lemma RecordMeaning(f: Callable, entry: Member, ff: Foreign)
    ensures var rec := RecordFor(f, entry, ff);
      var expected := ParseExpected(entry.value, ff).0;
      var output := RunFunction(f, entry.key, ff);
      && (rec.Err? <==> output.passed && ff.eq(output.result, expected).Err?)
      && (rec.Err? ==> rec.error == ff.eq(output.result, expected).error)
      && (rec.Ok? ==> rec.value.test == JStr(entry.key + " => " + Str(expected, ff)))
      && (rec.Ok? ==> (rec.value.passed <==> output.passed && ff.eq(output.result, expected) == Ok(true)))
      && (rec.Ok? ==> (rec.value.error.Some? <==> !output.passed))
      && (!output.passed ==> rec.Ok? && PyStr(rec.value.error.value) == output.result)
      && (output.passed && ff.eq(output.result, expected) == Ok(false) ==> rec.Ok? && !rec.value.passed && rec.value.error == None)
  {
  }

  /** The record list for a loadable function lists the entries of `tests` in
      order, one record each, unless a comparison raises: then the first such
      exception escapes. */
  lemma RecordsInOrder(scriptPath: string, tests: Json, loader: (string, string) -> Option<Callable>,
                       ff: Foreign, i: nat)
    requires tests.JObj? && Get(tests, "testfunc").Some? && Truth(FromJson(Get(tests, "testfunc").value), ff)
    requires LoadFunction(scriptPath, Get(tests, "testfunc").value, loader).Some?
    requires TestEntries(tests, ff).Ok? && i < |TestEntries(tests, ff).value|
    ensures var f := LoadFunction(scriptPath, Get(tests, "testfunc").value, loader).value;
      var es := TestEntries(tests, ff).value;
      CheckTests(scriptPath, tests, loader, ff).Ok? <==> forall k :: 0 <= k < |es| ==> RecordFor(f, es[k], ff).Ok?
    ensures CheckTests(scriptPath, tests, loader, ff).Ok? ==>
      |CheckTests(scriptPath, tests, loader, ff).value| == |TestEntries(tests, ff).value|
    ensures CheckTests(scriptPath, tests, loader, ff).Ok? ==>
      CheckTests(scriptPath, tests, loader, ff).value[i] ==
        RecordFor(LoadFunction(scriptPath, Get(tests, "testfunc").value, loader).value, TestEntries(tests, ff).value[i], ff).value
  {
    RecordsMeaning(LoadFunction(scriptPath, Get(tests, "testfunc").value, loader).value, TestEntries(tests, ff).value, ff);
  }

  /** A comparison that raises on a loaded function's entry, after the entries
      before it compared cleanly, leaves the harness silent with exit code 1. */
  lemma RaisingComparisonSilent(argv: seq<string>, isFile: string -> bool, readTests: string -> Result<Json, string>,
                                loader: (string, string) -> Option<Callable>, ff: Foreign, i: nat)
    requires |argv| == 3 && isFile(argv[1]) && isFile(argv[2]) && readTests(argv[1]).Ok?
    requires var tests := readTests(argv[1]).value;
      && tests.JObj? && Get(tests, "testfunc").Some? && Truth(FromJson(Get(tests, "testfunc").value), ff)
      && LoadFunction(argv[2], Get(tests, "testfunc").value, loader).Some?
      && TestEntries(tests, ff).Ok? && i < |TestEntries(tests, ff).value|
      && RecordFor(LoadFunction(argv[2], Get(tests, "testfunc").value, loader).value, TestEntries(tests, ff).value[i], ff).Err?
    ensures Run(argv, isFile, readTests, loader, ff) == Exit("", 1)
  {
    var tests := readTests(argv[1]).value;
    var f := LoadFunction(argv[2], Get(tests, "testfunc").value, loader).value;
    RecordsMeaning(f, TestEntries(tests, ff).value, ff);
    assert CheckTests(argv[2], tests, loader, ff) == Records(f, TestEntries(tests, ff).value, ff);
  }

  /** A wrong argument count prints the usage error object and exits with 1;
      exit code 0 means the record list was printed. */
  lemma ExitMeaning(argv: seq<string>, isFile: string -> bool, readTests: string -> Result<Json, string>,
                    loader: (string, string) -> Option<Callable>, ff: Foreign)
    ensures var e := Run(argv, isFile, readTests, loader, ff);
      |argv| != 3 ==> e == Exit(Printed(ErrorObject(UsageMessage)), 1)
    ensures var e := Run(argv, isFile, readTests, loader, ff);
      e.code == 0 <==>
        |argv| == 3 && isFile(argv[1]) && isFile(argv[2]) && readTests(argv[1]).Ok? &&
        CheckTests(argv[2], readTests(argv[1]).value, loader, ff).Ok?
    ensures var e := Run(argv, isFile, readTests, loader, ff);
      e.code == 0 ==> e.stdout == Printed(ResultsJson(CheckTests(argv[2], readTests(argv[1]).value, loader, ff).value))
  {
  }

  /** What the harness prints parses back, by JSON.parse, into exactly the value
      it serialised: the error object or the record list. */
  lemma PrintedParses(argv: seq<string>, isFile: string -> bool, readTests: string -> Result<Json, string>,
                      loader: (string, string) -> Option<Callable>, ff: Foreign)
    ensures var e := Run(argv, isFile, readTests, loader, ff);
      e.stdout != "" ==>
        Parse(e.stdout) == Ok(if e.code == 0 then ResultsJson(CheckTests(argv[2], readTests(argv[1]).value, loader, ff).value)
                              else ErrorObject(if |argv| != 3 then UsageMessage else PathsMessage))
  {
    var e := Run(argv, isFile, readTests, loader, ff);
    if e.stdout != "" {
      assert forall i :: 0 <= i < |"\n"| ==> IsWs("\n"[i]);
      if |argv| != 3 {
        ParseSerialize(ErrorObject(UsageMessage), Py, "\n");
      } else if !isFile(argv[1]) || !isFile(argv[2]) {
        ParseSerialize(ErrorObject(PathsMessage), Py, "\n");
      } else {
        ParseSerialize(ResultsJson(CheckTests(argv[2], readTests(argv[1]).value, loader, ff).value), Py, "\n");
      }
    }
  }

  /** When the runner's rewriting leaves the printed text as it is, the runner
      reports exactly the printed records, and an error object as "Error: " and
      its message. */
  lemma ReportReachesRunner(argv: seq<string>, isFile: string -> bool, readTests: string -> Result<Json, string>,
                            loader: (string, string) -> Option<Callable>, ff: Foreign)
    requires Tester.Sanitize(Run(argv, isFile, readTests, loader, ff).stdout) == Run(argv, isFile, readTests, loader, ff).stdout
    ensures var e := Run(argv, isFile, readTests, loader, ff);
      e.code == 0 ==>
        Tester.CloseOutcome(e.stdout) ==
          Resolved(Tester.Summary(ResultsJson(CheckTests(argv[2], readTests(argv[1]).value, loader, ff).value).elems))
    ensures var e := Run(argv, isFile, readTests, loader, ff);
      e.code != 0 && e.stdout != "" ==>
        Tester.CloseOutcome(e.stdout) == Rejected("Error: " + (if |argv| != 3 then UsageMessage else PathsMessage))
  {
    PrintedParses(argv, isFile, readTests, loader, ff);
    var e := Run(argv, isFile, readTests, loader, ff);
    if e.code == 0 {
      var recs := CheckTests(argv[2], readTests(argv[1]).value, loader, ff).value;
      CloseOnParsed(e.stdout, ResultsJson(recs));
      ClassifyRecords(recs);
    } else if e.stdout != "" {
      var m := if |argv| != 3 then UsageMessage else PathsMessage;
      CloseOnParsed(e.stdout, ErrorObject(m));
      ClassifyErrorObject(m);
    }
  }

  /** Output the rewriting leaves alone is classified as the value it parses to. */
  lemma CloseOnParsed(output: string, v: Json)
    requires Tester.Sanitize(output) == output && Parse(output) == Ok(v)
    ensures Tester.CloseOutcome(output) == Tester.Classify(v)
  {
  }

  /** A record list resolves the run with its summary. */
  lemma ClassifyRecords(recs: seq<TestRecord>)
    ensures Tester.Classify(ResultsJson(recs)) == Resolved(Tester.Summary(ResultsJson(recs).elems))
  {
    var rs := ResultsJson(recs);
    assert JNull !in rs.elems by {
      forall k | 0 <= k < |rs.elems| ensures rs.elems[k].JObj? { }
    }
  }

  /** An error object with a message rejects the run with "Error: " and the message. */
  lemma ClassifyErrorObject(m: string)
    requires m != ""
    ensures Tester.Classify(ErrorObject(m)) == Rejected("Error: " + m)
  {
    assert LastValue(ErrorObject(m).members, "error") == Some(JStr(m));
  }
}

/** The renderer's state and the data it sends and receives: the registry of
    script paths keyed by display name, the test map built from the editor rows,
    the loader that rebuilds rows and merges saved paths, and the summary shown
    on each script item when results arrive. DOM work is left out; the editor
    rows and the script items are given as values. */
module Renderer {
  import opened Wrappers
  import opened Text
  import opened Json
  import opened Dict
  import Tester
  import Orchestrator
  import Harness

  /* ---------- display names ---------- */

  /** The text without its trailing slashes. */
  function StripSlashes(s: string): (r: string)
    ensures |r| <= |s| && r == s[..|r|] && (|r| == 0 || r[|r| - 1] != '/')
    ensures forall i :: |r| <= i < |s| ==> s[i] == '/'
    decreases |s|
  {
    if |s| > 0 && s[|s| - 1] == '/' then StripSlashes(s[..|s| - 1]) else s
  }

  /** The text after the last slash. */
  function LastSegment(s: string): (r: string)
    ensures |r| <= |s| && r == s[|s| - |r|..]
    ensures forall i :: 0 <= i < |r| ==> r[i] != '/'
    ensures |r| < |s| ==> s[|s| - |r| - 1] == '/'
    decreases |s|
  {
    if |s| == 0 || s[|s| - 1] == '/' then ""
    else
      var r := LastSegment(s[..|s| - 1]) + [s[|s| - 1]];
      assert s[..|s| - 1][|s| - |r|..] == s[|s| - |r|..|s| - 1];
      r
  }

  /** `path.basename` with POSIX separators: with the trailing slashes dropped,
      the part after the last remaining slash, or all of it when none remains. */
  function Basename(p: string): (b: string)
    ensures forall i :: 0 <= i < |b| ==> b[i] != '/'
    ensures var q := StripSlashes(p);
      |b| <= |q| && b == q[|q| - |b|..] && (|b| < |q| ==> q[|q| - |b| - 1] == '/')
  {
    LastSegment(StripSlashes(p))
  }

  /** The base name of a file joined to a directory is the file's name. */
  lemma BasenameOfJoin(dir: string, name: string)
    requires name != "" && forall i :: 0 <= i < |name| ==> name[i] != '/'
    ensures Basename(Orchestrator.JoinPath(dir, name)) == name
  {
    var p := Orchestrator.JoinPath(dir, name);
    assert p[|p| - 1] == name[|name| - 1];
    assert StripSlashes(p) == p;
    SegmentAfterSlash(dir, name);
  }

  /** What follows the last slash is the slash-free text after it. */
  lemma {:induction false} SegmentAfterSlash(pre: string, name: string)
    requires forall i :: 0 <= i < |name| ==> name[i] != '/'
    ensures LastSegment(pre + "/" + name) == name
    decreases |name|
  {
    var p := pre + "/" + name;
    if |name| > 0 {
      var n := |name| - 1;
      assert p[..|p| - 1] == pre + "/" + name[..n];
      assert p[|p| - 1] == name[n];
      SegmentAfterSlash(pre, name[..n]);
      assert name[..n] + [name[n]] == name;
    }
  }

  const MaxShown: nat := 64

  /** The shown form of a name: cut to 64 characters with "..." when longer. */
  function Shorten(b: string): string {
    if |b| > MaxShown then b[..MaxShown] + "..." else b
  }

  /** The text shown for a script, which is also its key in the registry. */
  function DisplayName(filePath: string): string {
    Shorten(Basename(filePath))
  }

  /** A name is kept when it has at most 64 characters and becomes its first 64
      characters and "..." otherwise, so never longer than 67; no slash appears. */
  lemma ShortenMeaning(b: string)
    ensures var r := Shorten(b);
      && |r| <= MaxShown + 3
      && (|b| <= MaxShown ==> r == b)
      && (|b| > MaxShown ==> |r| == MaxShown + 3 && r[..MaxShown] == b[..MaxShown] && r[MaxShown..] == "...")
      && ((forall i :: 0 <= i < |b| ==> b[i] != '/') ==> forall i :: 0 <= i < |r| ==> r[i] != '/')
  {
    if |b| > MaxShown {
      var r := Shorten(b);
      assert r[..MaxShown] == b[..MaxShown];
      assert forall i :: 0 <= i < MaxShown ==> r[i] == b[i];
      assert forall i :: MaxShown <= i < |r| ==> r[i] == '.';
    }
  }

  /** The display name is the base name when that has at most 64 characters and
      its first 64 characters and "..." otherwise; it holds no slash. */
  lemma DisplayNameMeaning(filePath: string)
    ensures var b := Basename(filePath); var r := DisplayName(filePath);
      && |r| <= MaxShown + 3
      && (|b| <= MaxShown ==> r == b)
      && (|b| > MaxShown ==> |r| == MaxShown + 3 && r[..MaxShown] == b[..MaxShown] && r[MaxShown..] == "...")
      && (forall i :: 0 <= i < |r| ==> r[i] != '/')
  {
    ShortenMeaning(Basename(filePath));
  }

  /** Two long names that agree on their first 64 characters share a display
      name, so the second added replaces the first in the registry. */
  lemma LongNamesCollide(p: string, q: string)
    requires |Basename(p)| > MaxShown && |Basename(q)| > MaxShown
    requires Basename(p)[..MaxShown] == Basename(q)[..MaxShown]
    ensures DisplayName(p) == DisplayName(q)
  {
  }

  /* ---------- the script registry ---------- */

  function Values(d: Dict<Json>): (vs: seq<Json>)
    ensures |vs| == |d| && forall i :: 0 <= i < |d| ==> vs[i] == d[i].1
  {
    seq(|d|, i requires 0 <= i < |d| => d[i].1)
  }

  /** `scriptPaths`: display name to path. Paths added from the dialog are
      strings; a loaded file may bring any JSON value. */
  class ScriptRegistry {
    var paths: Dict<Json>

    predicate Valid()
      reads this
    {
      UniqueKeys(paths)
    }

    constructor()
      ensures Valid() && paths == []
    {
      paths := [];
    }

    /** `addScriptItem`: a path already registered under any name is refused;
        otherwise it is stored under its display name, replacing what that name
        held. */
    method AddScriptItem(filePath: string) returns (added: bool)
      requires Valid()
      modifies this
      ensures Valid()
      ensures added <==> JStr(filePath) !in Values(old(paths))
      ensures paths == if added then Put(old(paths), DisplayName(filePath), JStr(filePath)) else old(paths)
    {
      if JStr(filePath) in Values(paths) {
        return false;
      }
      PutUnique(paths, DisplayName(filePath), JStr(filePath));
      paths := Put(paths, DisplayName(filePath), JStr(filePath));
      return true;
    }

    /** The Remove button of one item: `delete scriptPaths[name]`. */
    method RemoveScript(name: string)
      requires Valid()
      modifies this
      ensures Valid() && paths == Remove(old(paths), name)
    {
      RemoveUnique(paths, name);
      paths := Remove(paths, name);
    }

    /** Remove All: `for (const key in scriptPaths) delete scriptPaths[key]`. */
    method RemoveAllScripts()
      requires Valid()
      modifies this
      ensures Valid() && paths == []
    {
      var start := paths;
      var ks := Keys(paths);
      var i := 0;
      while i < |ks|
        invariant 0 <= i <= |ks| == |start|
        invariant paths == start[i..]
      {
        assert Keys(start[i + 1..]) == Keys(start)[i + 1..];
        assert Keys(start)[i] !in Keys(start)[i + 1..];
        RemoveHead(start[i..]);
        assert start[i..][1..] == start[i + 1..];
        paths := Remove(paths, ks[i]);
        i := i + 1;
      }
    }

    /** The Load Tests handler on a parsed file: a file without a truthy
        `testfunc` and `tests` changes nothing; otherwise the saved paths are
        merged into the registry, and one editor row is rebuilt per entry of
        `tests` until an entry cannot be decoded, which ends the handler. */
    method LoadTests(data: Json) returns (functionName: Option<string>, rows: seq<TestRow>, complete: bool)
      requires Valid()
      modifies this
      ensures Valid()
      ensures !Accepted(data) ==> functionName == None && rows == [] && !complete && paths == old(paths)
      ensures Accepted(data) ==>
        && functionName == Some(ToJsString(Get(data, "testfunc").value))
        && paths == Assign(old(paths), SavedPaths(data))
        && (rows, complete) == LoadRows(EntriesOf(Get(data, "tests").value))
    {
      if !Accepted(data) {
        return None, [], false;
      }
      functionName := Some(ToJsString(Get(data, "testfunc").value));
      AssignMeaning(paths, SavedPaths(data));
      paths := Assign(paths, SavedPaths(data));
      rows, complete := RebuildRows(EntriesOf(Get(data, "tests").value));
    }

    /** The Run Tests button: the request sent to the main process. */
    method RunTestsClick(functionName: string, rowsShown: seq<TestRow>) returns (request: Json)
      ensures request == Request(functionName, rowsShown, paths)
    {
      var tests := CollectTests(rowsShown);
      request := JObj([Member("testfunc", JStr(functionName)), Member("tests", DictJson(tests)),
                       Member("scriptPaths", DictJson(paths))]);
    }
  }

  /** The `forEach` over the saved entries calling `addTestCase`; an entry that
      does not decode throws and ends the loop. */
  method RebuildRows(entries: Dict<Json>) returns (rows: seq<TestRow>, complete: bool)
    ensures (rows, complete) == LoadRows(entries)
  {
    rows := [];
    var i := 0;
    assert entries[0..] == entries;
    assert [] + LoadRows(entries).0 == LoadRows(entries).0;
    while i < |entries|
      invariant 0 <= i <= |entries|
      invariant LoadRows(entries) == (rows + LoadRows(entries[i..]).0, LoadRows(entries[i..]).1)
    {
      var row := DecodeRow(entries[i]);
      LoadRowsStep(entries[i..]);
      assert entries[i..][1..] == entries[i + 1..];
      if row.None? {
        assert rows + [] == rows;
        return rows, false;
      }
      assert (rows + [row.value]) + LoadRows(entries[i + 1..]).0 == rows + ([row.value] + LoadRows(entries[i + 1..]).0);
      rows := rows + [row.value];
      i := i + 1;
    }
    assert entries[i..] == [];
    assert rows + [] == rows;
    complete := true;
  }

  lemma LoadRowsStep(entries: Dict<Json>)
    requires |entries| > 0
    ensures LoadRows(entries) ==
      if DecodeRow(entries[0]).None? then ([], false)
      else ([DecodeRow(entries[0]).value] + LoadRows(entries[1..]).0, LoadRows(entries[1..]).1)
  {
  }

  /** Deleting the first key of a dictionary in which it appears once leaves the rest. */
  lemma RemoveHead(d: Dict<Json>)
    requires |d| > 0 && d[0].0 !in Keys(d[1..])
    ensures Remove(d, d[0].0) == d[1..]
  {
    RemoveAbsent(d[1..], d[0].0);
  }

  lemma {:induction false} RemoveAbsent(d: Dict<Json>, k: string)
    requires k !in Keys(d)
    ensures Remove(d, k) == d
    decreases |d|
  {
    if |d| > 0 {
      KeysCons(d);
      RemoveAbsent(d[1..], k);
    }
  }

  /* ---------- the test map ---------- */

  /** One editor row: its parameter (value, type) pairs in order, and the
      expected output with its type. */
  datatype TestRow = TestRow(params: seq<(string, string)>, expected: string, expectedType: string)

  function PairJson(p: (string, string)): Json {
    JArr([JStr(p.0), JStr(p.1)])
  }

  function ParamsJson(ps: seq<(string, string)>): Json {
    JArr(seq(|ps|, i requires 0 <= i < |ps| => PairJson(ps[i])))
  }

  /** The key of a row in the test map: `JSON.stringify(params)`. */
  function Key(ps: seq<(string, string)>): string {
    Serialize(ParamsJson(ps), Js)
  }

  function ExpectedJson(row: TestRow): Json {
    PairJson((row.expected, row.expectedType))
  }

  /** One entry per row, in row order, each under its own key. */
  function RowEntries(rows: seq<TestRow>): (d: Dict<Json>)
    ensures |d| == |rows|
  {
    seq(|rows|, i requires 0 <= i < |rows| => (Key(rows[i].params), ExpectedJson(rows[i])))
  }

  /** The test map after the rows were assigned in order. */
  function TestsOf(rows: seq<TestRow>): Dict<Json> {
    PutAll(RowEntries(rows))
  }

  /** The `forEach` over the editor rows filling `tests`. */
  method CollectTests(rows: seq<TestRow>) returns (tests: Dict<Json>)
    ensures tests == TestsOf(rows)
  {
    tests := [];
    var i := 0;
    while i < |rows|
      invariant 0 <= i <= |rows|
      invariant tests == TestsOf(rows[..i])
    {
      var es := RowEntries(rows[..i + 1]);
      assert es[..i] == RowEntries(rows[..i]);
      PutAllUnfold(es);
      tests := Put(tests, Key(rows[i].params), ExpectedJson(rows[i]));
      i := i + 1;
    }
    assert rows[..i] == rows;
  }

  /** The request of the Run Tests button. */
  function Request(functionName: string, rows: seq<TestRow>, paths: Dict<Json>): Json {
    JObj([Member("testfunc", JStr(functionName)), Member("tests", DictJson(TestsOf(rows))),
          Member("scriptPaths", DictJson(paths))])
  }

  /** The data `saveTests` sends: the same, with an empty function name replaced
      by "function_name". */
  function SaveRequest(functionName: string, rows: seq<TestRow>, paths: Dict<Json>): (r: Json)
    ensures functionName != "" ==> r == Request(functionName, rows, paths)
    ensures Get(r, "testfunc") == Some(JStr(if functionName == "" then "function_name" else functionName))
  {
    RequestFields(if functionName == "" then "function_name" else functionName, rows, paths);
    Request(if functionName == "" then "function_name" else functionName, rows, paths)
  }

  /** The three properties of a request, read back. */
  lemma RequestFields(functionName: string, rows: seq<TestRow>, paths: Dict<Json>)
    ensures var data := Request(functionName, rows, paths);
      && Get(data, "testfunc") == Some(JStr(functionName))
      && Get(data, "tests") == Some(DictJson(TestsOf(rows)))
      && Get(data, "scriptPaths") == Some(DictJson(paths))
  {
    var ms := Request(functionName, rows, paths).members;
    assert LastValue(ms, "scriptPaths") == Some(DictJson(paths));
    assert LastValue(ms, "tests") == LastValue(ms[..2], "tests") == Some(DictJson(TestsOf(rows)));
    assert LastValue(ms, "testfunc") == LastValue(ms[..2], "testfunc") == LastValue(ms[..1], "testfunc");
  }

  /** `JSON.parse` of a key gives back the list of (value, type) pairs. */
  lemma KeyRoundTrip(ps: seq<(string, string)>)
    ensures Parse(Key(ps)) == Ok(ParamsJson(ps))
  {
    ParseSerialize(ParamsJson(ps), Js, []);
    assert Key(ps) + [] == Key(ps);
  }

  /** Rows share a key exactly when their parameter lists are equal. */
  lemma KeyInjective(a: seq<(string, string)>, b: seq<(string, string)>)
    ensures Key(a) == Key(b) <==> a == b
  {
    KeyRoundTrip(a);
    KeyRoundTrip(b);
    if ParamsJson(a) == ParamsJson(b) {
      assert |a| == |ParamsJson(a).elems| == |b|;
      forall i | 0 <= i < |a| ensures a[i] == b[i] {
        assert PairJson(a[i]) == ParamsJson(a).elems[i] == PairJson(b[i]);
      }
    }
  }

  /** The keys of the rows, in row order. */
  function RowKeys(rows: seq<TestRow>): (ks: seq<string>)
    ensures |ks| == |rows| && forall i :: 0 <= i < |rows| ==> ks[i] == Key(rows[i].params)
  {
    seq(|rows|, i requires 0 <= i < |rows| => Key(rows[i].params))
  }

  /** The map holds exactly the keys of the rows, no key twice, and so never more
      entries than rows. */
  lemma TestsOfKeys(rows: seq<TestRow>)
    ensures UniqueKeys(TestsOf(rows)) && |TestsOf(rows)| <= |rows|
    ensures forall k :: k in Keys(TestsOf(rows)) <==> k in RowKeys(rows)
  {
    PutAllKeys(RowEntries(rows));
    assert Keys(RowEntries(rows)) == RowKeys(rows);
  }

  /** A row whose parameter list no later row repeats keeps its expected output
      in the map: the last of several identical lists wins. */
  lemma TestsOfLast(rows: seq<TestRow>, i: nat)
    requires i < |rows| && forall j :: i < j < |rows| ==> rows[j].params != rows[i].params
    ensures Lookup(TestsOf(rows), Key(rows[i].params)) == Some(ExpectedJson(rows[i]))
  {
    var es := RowEntries(rows);
    forall j | i < j < |es| ensures es[j].0 != es[i].0 {
      KeyInjective(rows[j].params, rows[i].params);
    }
    PutAllLast(es, i);
  }

  /** With distinct parameter lists, every row adds its own entry, in order. */
  lemma TestsOfDistinct(rows: seq<TestRow>)
    requires forall i, j :: 0 <= i < j < |rows| ==> rows[i].params != rows[j].params
    ensures TestsOf(rows) == RowEntries(rows)
  {
    var es := RowEntries(rows);
    forall i, j | 0 <= i < j < |es| ensures Keys(es)[i] != Keys(es)[j] {
      KeyInjective(rows[i].params, rows[j].params);
    }
    PutAllDistinct(es);
  }

  /* ---------- loading a saved file ---------- */

  /** `data.testfunc && data.tests`. */
  predicate Accepted(data: Json) {
    Truthy(Get(data, "testfunc")) && Truthy(Get(data, "tests"))
  }

  /** Index keys "0", "1", ... for the items of an array or a string. */
  function Indexed(vs: seq<Json>): (r: Dict<Json>)
    ensures UniqueKeys(r)
  {
    var r := seq(|vs|, i requires 0 <= i < |vs| => (Digits(i), vs[i]));
    forall i, j | 0 <= i < j < |r| ensures Keys(r)[i] != Keys(r)[j] {
      DigitsFacts(i);
      DigitsFacts(j);
    }
    r
  }

  /** `Object.entries(v)`, also what `Object.assign` copies from v: an object's
      own members, an array's or a string's items under index keys, nothing for
      other values. */
  function EntriesOf(v: Json): (r: Dict<Json>)
    ensures UniqueKeys(r)
  {
    match v
    case JObj(ms) => ObjectOf(ms)
    case JArr(es) => Indexed(es)
    case JStr(s) => Indexed(seq(|s|, i requires 0 <= i < |s| => JStr([s[i]])))
    case _ => []
  }

  /** `data.scriptPaths || {}`. */
  function SavedPaths(data: Json): (r: Dict<Json>)
    ensures UniqueKeys(r)
  {
    if Truthy(Get(data, "scriptPaths")) then EntriesOf(Get(data, "scriptPaths").value) else []
  }

  /** The options of every type select of the editor. */
  const Types: seq<string> := ["any", "int", "float", "str", "list", "dict", "tuple", "bool", "set", "NoneType", "bytes", "error"]

  /** What destructuring `[a, b] = v` walks through: an array's elements or a
      string's characters; None for any other value, on which it throws. */
  function Items(v: Json): (r: Option<seq<Json>>)
    ensures r.Some? <==> v.JArr? || v.JStr?
  {
    match v
    case JArr(es) => Some(es)
    case JStr(s) => Some(seq(|s|, i requires 0 <= i < |s| => JStr([s[i]])))
    case _ => None
  }

  /** The i-th destructured item; None, undefined, past the end. */
  function Item(items: seq<Json>, i: nat): Option<Json> {
    if i < |items| then Some(items[i]) else None
  }

  /** Whether c ends a line: a text input's value cannot hold one. */
  predicate IsLineBreak(c: char) {
    c == '\n' || c == '\r'
  }

  predicate NoLineBreaks(s: string) {
    forall i :: 0 <= i < |s| ==> !IsLineBreak(s[i])
  }

  /** The value sanitisation of a text input: every line feed and carriage
      return removed, the other characters kept in order. */
  function StripLineBreaks(s: string): (r: string)
    ensures |r| <= |s|
    ensures NoLineBreaks(r)
    decreases |s|
  {
    if |s| == 0 then []
    else (if IsLineBreak(s[0]) then [] else [s[0]]) + StripLineBreaks(s[1..])
  }

  /** A text with no line break is kept as it is. */
  lemma {:induction false} StripLineBreaksKeeps(s: string)
    requires NoLineBreaks(s)
    ensures StripLineBreaks(s) == s
    decreases |s|
  {
    if |s| > 0 {
      StripLineBreaksKeeps(s[1..]);
      assert [s[0]] + s[1..] == s;
    }
  }

  /** A text input after `input.value = v`, v defaulting to '': null empties
      it, any other value shows as its string without line breaks. */
  function InputText(v: Option<Json>): (text: string)
    ensures v.Some? && v.value.JStr? ==> text == StripLineBreaks(v.value.s)
    ensures v.None? || v.value.JNull? ==> text == ""
    ensures NoLineBreaks(text)
  {
    if v.None? || v.value.JNull? then "" else StripLineBreaks(ToJsString(v.value))
  }

  /** A type select after `select.value = v`, v defaulting to 'any': a value
      naming one of its options selects it, any other leaves nothing selected,
      which reads back as "". */
  function SelectValue(v: Option<Json>): (t: string)
    ensures v.None? ==> t == "any"
    ensures v.Some? ==> (t == ToJsString(v.value) <==> ToJsString(v.value) in Types || ToJsString(v.value) == "")
    ensures v.Some? && t != ToJsString(v.value) ==> t == ""
    ensures t == "" || t in Types
  {
    if v.None? then "any"
    else if ToJsString(v.value) in Types then ToJsString(v.value) else ""
  }

  /** An input next to its type select once the placeholder was updated: a
      select showing NoneType clears the input. */
  function Field(text: string, t: string): (f: (string, string))
    ensures f.1 == t && (f.0 == "" || f.0 == text)
    ensures f.0 == text <==> t != "NoneType" || text == ""
  {
    (if t == "NoneType" then "" else text, t)
  }

  /** A (value, type) pair as the editor can show it: the value has no line
      break, the type is one of the options or nothing, and a NoneType value is
      empty. */
  predicate Showable(f: (string, string)) {
    NoLineBreaks(f.0) &&
    (f.1 == "" || f.1 in Types) && (f.1 == "NoneType" ==> f.0 == "")
  }

  predicate ShowableRow(row: TestRow) {
    (forall i :: 0 <= i < |row.params| ==> Showable(row.params[i])) && Showable((row.expected, row.expectedType))
  }

  /** The input and select filled from `[value, type] = v`; None where the
      destructuring throws. */
  function DecodeField(v: Json): (r: Option<(string, string)>)
    ensures r.Some? <==> v.JArr? || v.JStr?
    ensures r.Some? ==> Showable(r.value)
  {
    match Items(v)
    case None => None
    case Some(items) => Some(Field(InputText(Item(items, 0)), SelectValue(Item(items, 1))))
  }

  /** A pair the editor shows is what filling a field from its JSON form gives. */
  lemma DecodePair(f: (string, string))
    requires Showable(f)
    ensures DecodeField(PairJson(f)) == Some(f)
  {
    var items := [JStr(f.0), JStr(f.1)];
    assert Items(PairJson(f)) == Some(items);
    assert Item(items, 1) == Some(JStr(f.1));
    assert SelectValue(Item(items, 1)) == f.1;
    StripLineBreaksKeeps(f.0);
  }

  /** `params.forEach(([paramValue, paramType]) => addParameterRow(...))`. */
  function DecodeFields(vs: seq<Json>): (r: Option<seq<(string, string)>>)
    ensures r.Some? ==> |r.value| == |vs| && forall i :: 0 <= i < |vs| ==> DecodeField(vs[i]) == Some(r.value[i])
    ensures r.None? ==> exists i :: 0 <= i < |vs| && DecodeField(vs[i]).None?
    decreases |vs|
  {
    if |vs| == 0 then Some([])
    else
      match DecodeField(vs[0])
      case None => None
      case Some(f) =>
        match DecodeFields(vs[1..])
        case None => None
        case Some(fs) => Some([f] + fs)
  }

  /** The parameter rows of a parsed key: only an array has `forEach`. */
  function DecodeParams(p: Json): (r: Option<seq<(string, string)>>)
    ensures r.Some? ==> p.JArr? && forall i :: 0 <= i < |r.value| ==> Showable(r.value[i])
  {
    if p.JArr? then DecodeFields(p.elems) else None
  }

  /** Parameter lists the editor shows come back from their JSON form unchanged. */
  lemma {:induction false} DecodeParamsJson(ps: seq<(string, string)>)
    requires forall i :: 0 <= i < |ps| ==> Showable(ps[i])
    ensures DecodeParams(ParamsJson(ps)) == Some(ps)
    decreases |ps|
  {
    var vs := ParamsJson(ps).elems;
    if |ps| == 0 {
      assert vs == [];
    } else {
      var ws := ParamsJson(ps[1..]).elems;
      assert vs[0] == PairJson(ps[0]) && vs[1..] == ws;
      DecodePair(ps[0]);
      DecodeParamsJson(ps[1..]);
      DecodeFieldsCons(vs, ps[0], ps[1..]);
      assert [ps[0]] + ps[1..] == ps;
    }
  }

  lemma DecodeFieldsCons(vs: seq<Json>, f: (string, string), fs: seq<(string, string)>)
    requires |vs| > 0 && DecodeField(vs[0]) == Some(f) && DecodeFields(vs[1..]) == Some(fs)
    ensures DecodeFields(vs) == Some([f] + fs)
  {
  }

  /** The row `addTestCase(params, output, type)` builds from one entry
      `[paramStr, [output, type]]` of the saved test map; None where the entry
      throws: a value that cannot be destructured, a key that is not JSON, a
      key that is not an array, a parameter that cannot be destructured. */
  function DecodeRow(entry: (string, Json)): (r: Option<TestRow>)
    ensures r.Some? ==> ShowableRow(r.value)
    ensures r.Some? <==> DecodeField(entry.1).Some? && Parse(entry.0).Ok? && DecodeParams(Parse(entry.0).value).Some?
  {
    match DecodeField(entry.1)
    case None => None
    case Some(e) =>
      match Parse(entry.0)
      case Err(_) => None
      case Ok(p) =>
        match DecodeParams(p)
        case None => None
        case Some(ps) => Some(TestRow(ps, e.0, e.1))
  }

  /** An entry under the key of parameters the editor shows: the parameters come
      back unchanged, and the value gives the expected output and its type. */
  lemma DecodeRowOfKey(ps: seq<(string, string)>, v: Json)
    requires forall i :: 0 <= i < |ps| ==> Showable(ps[i])
    ensures DecodeRow((Key(ps), v)) ==
      if DecodeField(v).None? then None else Some(TestRow(ps, DecodeField(v).value.0, DecodeField(v).value.1))
  {
    KeyRoundTrip(ps);
    DecodeParamsJson(ps);
  }

  /** An entry whose value holds only the expected output: the type defaults to
      'any', and a value with more than two items has the rest ignored. */
  lemma DecodeOutputOnly(ps: seq<(string, string)>, output: string, extra: Json)
    requires ps == []
    ensures DecodeRow((Key(ps), JArr([JStr(output)]))) == Some(TestRow([], StripLineBreaks(output), "any"))
    ensures DecodeRow((Key(ps), JArr([JStr(output), JStr("int"), extra]))) == Some(TestRow([], StripLineBreaks(output), "int"))
  {
    var v1, v3 := JArr([JStr(output)]), JArr([JStr(output), JStr("int"), extra]);
    FieldDefaults(output, extra);
    DecodeRowOfKey(ps, v1);
    DecodeRowOfKey(ps, v3);
  }

  /** A missing type is "any", and items past the second are ignored. */
  lemma FieldDefaults(output: string, extra: Json)
    ensures DecodeField(JArr([JStr(output)])) == Some((StripLineBreaks(output), "any"))
    ensures DecodeField(JArr([JStr(output), JStr("int"), extra])) == Some((StripLineBreaks(output), "int"))
  {
    FieldOutputOnly(output);
    FieldExtraItems([JStr(output), JStr("int"), extra], output);
  }

  lemma FieldOutputOnly(output: string)
    ensures DecodeField(JArr([JStr(output)])) == Some((StripLineBreaks(output), "any"))
  {
    var items := [JStr(output)];
    assert Items(JArr(items)) == Some(items);
    var text, t := InputText(Item(items, 0)), SelectValue(Item(items, 1));
    assert Item(items, 0) == Some(JStr(output)) && Item(items, 1) == None;
    assert text == StripLineBreaks(output) && t == "any";
    assert Field(text, t) == (text, t);
  }

  /** Only the first two items count, however many follow. */
  lemma FieldExtraItems(items: seq<Json>, output: string)
    requires |items| >= 2 && items[0] == JStr(output) && items[1] == JStr("int")
    ensures DecodeField(JArr(items)) == Some((StripLineBreaks(output), "int"))
  {
    assert Items(JArr(items)) == Some(items);
    assert Item(items, 0) == Some(JStr(output)) && Item(items, 1) == Some(JStr("int"));
    var text, t := InputText(Item(items, 0)), SelectValue(Item(items, 1));
    assert "int" in Types;
    assert text == StripLineBreaks(output) && t == "int";
    assert Field(text, t) == (text, t);
  }



  /** A saved value with a line break shows without it. */
  lemma DecodeLineBreak(ps: seq<(string, string)>)
    requires ps == []
    ensures DecodeRow((Key(ps), JArr([JStr("a\nb"), JStr("str")]))) == Some(TestRow([], "ab", "str"))
  {
    FieldLineBreak();
    DecodeRowOfKey(ps, JArr([JStr("a\nb"), JStr("str")]));
  }

  lemma FieldLineBreak()
    ensures DecodeField(JArr([JStr("a\nb"), JStr("str")])) == Some(("ab", "str"))
  {
    var items := [JStr("a\nb"), JStr("str")];
    assert Items(JArr(items)) == Some(items);
    StripExample();
    assert "str" in Types;
    assert SelectValue(Some(JStr("str"))) == "str";
  }

  /** The line break of "a\nb" is dropped. */
  lemma StripExample()
    ensures StripLineBreaks("a\nb") == "ab"
  {
    var s := "a\nb";
    assert s[1..] == "\nb" && s[1..][1..] == "b" && "b"[1..] == [];
    assert StripLineBreaks("b") == "b";
    assert StripLineBreaks("\nb") == "b";
  }

  lemma {:induction false} StripConcat(x: string, y: string)
    ensures StripLineBreaks(x + y) == StripLineBreaks(x) + StripLineBreaks(y)
    decreases |x|
  {
    if |x| > 0 {
      assert (x + y)[1..] == x[1..] + y;
      StripConcat(x[1..], y);
    } else {
      assert x + y == y;
    }
  }


  /** A NoneType parameter loads with its value cleared. */
  lemma DecodeNoneType(value: string, v: Json)
    requires v == JArr([JStr(""), JStr("str")])
    ensures DecodeRow((Key([(value, "NoneType")]), v)) == Some(TestRow([("", "NoneType")], "", "str"))
  {
    var ps := [(value, "NoneType")];
    assert DecodeField(v) == Some(("", "str"));
    NoneTypeParamCleared(value);
    KeyRoundTrip(ps);
  }

  lemma NoneTypeParamCleared(value: string)
    ensures DecodeParams(ParamsJson([(value, "NoneType")])) == Some([("", "NoneType")])
  {
    var vs := ParamsJson([(value, "NoneType")]).elems;
    var items := [JStr(value), JStr("NoneType")];
    assert vs == [JArr(items)];
    assert Items(JArr(items)) == Some(items);
    assert SelectValue(Item(items, 1)) == "NoneType";
    assert DecodeField(vs[0]) == Some(("", "NoneType"));
    assert vs[1..] == [];
    assert DecodeFields(vs[1..]) == Some([]);
    assert [("", "NoneType")] + [] == [("", "NoneType")];
  }

  /** A number shows as its decimal text; a type no option names selects nothing. */
  lemma DecodeNumber(ps: seq<(string, string)>, n: nat)
    requires ps == []
    ensures DecodeRow((Key(ps), JArr([JNum(n), JStr("integer")]))) == Some(TestRow([], Digits(n), ""))
  {
    FieldNumber(n);
    DecodeRowOfKey(ps, JArr([JNum(n), JStr("integer")]));
  }

  lemma FieldNumber(n: nat)
    ensures DecodeField(JArr([JNum(n), JStr("integer")])) == Some((Digits(n), ""))
  {
    var items := [JNum(n), JStr("integer")];
    assert Items(JArr(items)) == Some(items);
    assert "integer" !in Types;
    assert SelectValue(Some(JStr("integer"))) == "";
    DigitsNoLineBreaks(n);
    StripLineBreaksKeeps(Digits(n));
  }

  /** Decimal digits hold no line break. */
  lemma DigitsNoLineBreaks(n: nat)
    ensures NoLineBreaks(Digits(n))
  {
    DigitsFacts(n);
  }


  /** The rows rebuilt in order, and whether every entry decoded. */
  function LoadRows(entries: Dict<Json>): (seq<TestRow>, bool)
    decreases |entries|
  {
    if |entries| == 0 then ([], true)
    else
      match DecodeRow(entries[0])
      case None => ([], false)
      case Some(row) =>
        var rest := LoadRows(entries[1..]);
        ([row] + rest.0, rest.1)
  }

  /** An object with distinct member names keeps its members as they are. */
  lemma ObjectOfDistinct(d: Dict<Json>)
    requires UniqueKeys(d)
    ensures ObjectOf(DictJson(d).members) == d
  {
    var ms := DictJson(d).members;
    assert forall i :: 0 <= i < |ms| ==> ms[i].key == Keys(d)[i];
    ObjectOfUnique(ms);
  }


  /** The entries of rows the editor shows rebuild exactly those rows, and every
      entry decodes. */
  lemma LoadRowsOfTests(rows: seq<TestRow>)
    requires forall i :: 0 <= i < |rows| ==> ShowableRow(rows[i])
    ensures LoadRows(RowEntries(rows)) == (rows, true)
  {
    var es := RowEntries(rows);
    forall i | 0 <= i < |rows| ensures DecodeRow(es[i]) == Some(rows[i]) {
      DecodeShowableRow(rows[i]);
    }
    LoadRowsAll(es, rows);
  }

  /** Entries that each decode rebuild their rows, in order. */
  lemma {:induction false} LoadRowsAll(entries: Dict<Json>, rows: seq<TestRow>)
    requires |entries| == |rows| && forall i :: 0 <= i < |rows| ==> DecodeRow(entries[i]) == Some(rows[i])
    ensures LoadRows(entries) == (rows, true)
    decreases |rows|
  {
    if |rows| > 0 {
      assert DecodeRow(entries[0]) == Some(rows[0]);
      LoadRowsStep(entries);
      LoadRowsAll(entries[1..], rows[1..]);
      assert rows == [rows[0]] + rows[1..];
    }
  }

  /** A row the editor shows decodes from its own entry. */
  lemma DecodeShowableRow(row: TestRow)
    requires ShowableRow(row)
    ensures DecodeRow((Key(row.params), ExpectedJson(row))) == Some(row)
  {
    DecodePair((row.expected, row.expectedType));
    DecodeRowOfKey(row.params, ExpectedJson(row));
  }

  /** Every row a load rebuilds is one the editor can show. */
  lemma {:induction false} LoadRowsShown(entries: Dict<Json>)
    ensures forall i :: 0 <= i < |LoadRows(entries).0| ==> ShowableRow(LoadRows(entries).0[i])
    decreases |entries|
  {
    if |entries| > 0 && DecodeRow(entries[0]).Some? {
      LoadRowsShown(entries[1..]);
    }
  }

  /** Rows loaded from any entries load back unchanged from their own entries:
      after one load, saving and loading again changes nothing. */
  lemma LoadStable(entries: Dict<Json>)
    ensures LoadRows(RowEntries(LoadRows(entries).0)) == (LoadRows(entries).0, true)
  {
    LoadRowsShown(entries);
    LoadRowsOfTests(LoadRows(entries).0);
  }

  /** Loading what Run Tests or Save sends gives back the rows and the paths: with
      distinct parameter lists and a non-empty function name, the same rows in
      the same order and the same registry. */
  lemma LoadRoundTrip(functionName: string, rows: seq<TestRow>, paths: Dict<Json>)
    requires functionName != "" && UniqueKeys(paths)
    requires forall i :: 0 <= i < |rows| ==> ShowableRow(rows[i])
    requires forall i, j :: 0 <= i < j < |rows| ==> rows[i].params != rows[j].params
    ensures var data := Request(functionName, rows, paths);
      && Accepted(data)
      && ToJsString(Get(data, "testfunc").value) == functionName
      && LoadRows(EntriesOf(Get(data, "tests").value)) == (rows, true)
      && SavedPaths(data) == paths
  {
    RequestFields(functionName, rows, paths);
    LoadFields(functionName, rows, paths);
  }

  /** The three fields of a request, as the loader reads them back. */
  lemma LoadFields(functionName: string, rows: seq<TestRow>, paths: Dict<Json>)
    requires functionName != "" && UniqueKeys(paths)
    requires forall i :: 0 <= i < |rows| ==> ShowableRow(rows[i])
    requires forall i, j :: 0 <= i < j < |rows| ==> rows[i].params != rows[j].params
    ensures Truthy(Some(JStr(functionName))) && Truthy(Some(DictJson(TestsOf(rows)))) && Truthy(Some(DictJson(paths)))
    ensures LoadRows(EntriesOf(DictJson(TestsOf(rows)))) == (rows, true)
    ensures EntriesOf(DictJson(paths)) == paths
  {
    LoadTestsOf(rows);
    EntriesOfDict(paths);
  }

  /** The saved test map reads back as the rows it was built from. */
  lemma LoadTestsOf(rows: seq<TestRow>)
    requires forall i :: 0 <= i < |rows| ==> ShowableRow(rows[i])
    requires forall i, j :: 0 <= i < j < |rows| ==> rows[i].params != rows[j].params
    ensures LoadRows(EntriesOf(DictJson(TestsOf(rows)))) == (rows, true)
  {
    var tests := TestsOf(rows);
    assert UniqueKeys(tests) by { TestsOfKeys(rows); }
    EntriesOfDict(tests);
    TestsOfDistinct(rows);
    LoadRowsOfTests(rows);
  }

  /** An object with distinct member names reads back as the dictionary it shows. */
  lemma EntriesOfDict(d: Dict<Json>)
    requires UniqueKeys(d)
    ensures EntriesOf(DictJson(d)) == d
  {
    ObjectOfDistinct(d);
  }

  /** The harness reads back the function name and the test map in row order. */
  lemma RequestReachesHarness(functionName: string, rows: seq<TestRow>, paths: Dict<Json>, ff: Harness.Foreign)
    ensures var data := Request(functionName, rows, paths);
      && Get(data, "testfunc") == Some(JStr(functionName))
      && Harness.TestEntries(data, ff) == Ok(DictJson(TestsOf(rows)).members)
  {
    RequestFields(functionName, rows, paths);
    var tests := DictJson(TestsOf(rows));
    TestsOfKeys(rows);
    assert forall i :: 0 <= i < |tests.members| ==> tests.members[i].key == Keys(TestsOf(rows))[i];
    Harness.TestEntriesOfObject(Request(functionName, rows, paths), tests.members, ff);
  }

  /* ---------- showing results ---------- */

  /** `${x}` of a property that may be undefined. */
  function JsText(v: Option<Json>): string {
    match v
    case None => "undefined"
    case Some(j) => ToJsString(j)
  }

  /** The line shown for one record of a report. */
  function DetailLine(r: Tester.Record): string {
    "Test: " + JsText(r.test) + " - " + (if Truthy(r.passed) then "Passed" else "Failed") +
    (if Truthy(r.error) then " (" + JsText(r.error) + ")" else "")
  }

  /** A passing record never shows an error, whatever the harness printed. */
  lemma PassedShowsNoError(result: Json)
    requires Truthy(Get(result, "passed"))
    ensures DetailLine(Tester.RecordOf(result)) == "Test: " + JsText(Get(result, "test")) + " - Passed"
  {
    Tester.RecordMeaning(result);
  }

  /** A script item: its shown file name, the counts shown (None before any
      results), and the detail lines. */
  datatype ItemView = ItemView(filename: string, counts: Option<(nat, nat)>, details: seq<string>)

  function Shown(item: ItemView, report: Tester.Report): ItemView {
    ItemView(item.filename, Some((report.passed, report.total)),
             seq(|report.results|, i requires 0 <= i < |report.results| => DetailLine(report.results[i])))
  }

  predicate AnyMatch(views: seq<ItemView>, displayName: string) {
    exists i :: 0 <= i < |views| && Contains(views[i].filename, displayName)
  }

  /** The items after `updateTestSummary`; None when it throws, which happens at
      the first matching item when the result carries no summary. */
  function SummaryUpdate(views: seq<ItemView>, displayName: string, summary: Option<Tester.Report>): Option<seq<ItemView>> {
    if summary.None? then (if AnyMatch(views, displayName) then None else Some(views))
    else Some(seq(|views|, i requires 0 <= i < |views| =>
                  if Contains(views[i].filename, displayName) then Shown(views[i], summary.value) else views[i]))
  }

  /** `updateTestSummary`: every item whose shown file name contains the display
      name takes the report. */
  method UpdateTestSummary(items: array<ItemView>, displayName: string, summary: Option<Tester.Report>)
      returns (crashed: bool)
    modifies items
    ensures crashed <==> SummaryUpdate(old(items[..]), displayName, summary).None?
    ensures crashed ==> items[..] == old(items[..])
    ensures !crashed ==> items[..] == SummaryUpdate(old(items[..]), displayName, summary).value
  {
    var i := 0;
    while i < items.Length
      invariant 0 <= i <= items.Length
      invariant items[i..] == old(items[i..])
      invariant summary.None? ==> items[..] == old(items[..]) && !AnyMatch(old(items[..i]), displayName)
      invariant summary.Some? ==> forall k :: 0 <= k < i ==>
        items[k] == if Contains(old(items[k]).filename, displayName) then Shown(old(items[k]), summary.value) else old(items[k])
    {
      assert old(items[..i + 1]) == old(items[..i]) + [old(items[i])];
      if Contains(items[i].filename, displayName) {
        if summary.None? {
          assert Contains(old(items[..])[i].filename, displayName);
          return true;
        }
        items[i] := Shown(items[i], summary.value);
      }
      assert items[i + 1..] == old(items[i + 1..]) by {
        assert forall k :: i + 1 <= k < items.Length ==> items[k] == old(items[k]);
      }
      i := i + 1;
    }
    assert old(items[..i]) == old(items[..]);
    return false;
  }

  /** `result.summary` of one entry of the results object. */
  function SummaryOf(e: Orchestrator.Entry<Tester.Report>): Option<Tester.Report> {
    match e
    case Value(report) => Some(report)
    case Failure(_) => None
  }

  /** The entries the `test-results` listener walks: each script with its
      summary, or the single `error` property of a failed run, which has none. */
  function ReplyEntries(reply: Orchestrator.Reply<Tester.Report>): seq<(string, Option<Tester.Report>)> {
    match reply
    case Results(d) => seq(|d|, i requires 0 <= i < |d| => (d[i].0, SummaryOf(d[i].1)))
    case ErrorReply(_) => [("error", None)]
  }

  /** The items after each entry in turn, and whether the listener threw. */
  function ApplyAll(views: seq<ItemView>, entries: seq<(string, Option<Tester.Report>)>): (seq<ItemView>, bool)
    decreases |entries|
  {
    if |entries| == 0 then (views, false)
    else
      match SummaryUpdate(views, entries[0].0, entries[0].1)
      case None => (views, true)
      case Some(next) => ApplyAll(next, entries[1..])
  }

  /** The `test-results` listener. */
  method OnTestResults(items: array<ItemView>, reply: Orchestrator.Reply<Tester.Report>) returns (crashed: bool)
    modifies items
    ensures (items[..], crashed) == ApplyAll(old(items[..]), ReplyEntries(reply))
  {
    var entries := ReplyEntries(reply);
    var i := 0;
    while i < |entries|
      invariant 0 <= i <= |entries|
      invariant ApplyAll(old(items[..]), entries) == ApplyAll(items[..], entries[i..])
    {
      assert entries[i..][1..] == entries[i + 1..];
      crashed := UpdateTestSummary(items, entries[i].0, entries[i].1);
      if crashed {
        return;
      }
      i := i + 1;
    }
    crashed := false;
  }

  /** The report that an item shows in the end: that of the last entry whose name
      its file name contains. */
  function LastMatch(entries: seq<(string, Option<Tester.Report>)>, filename: string): Option<Tester.Report>
    decreases |entries|
  {
    if |entries| == 0 then None
    else if Contains(filename, entries[|entries| - 1].0) then entries[|entries| - 1].1
    else LastMatch(entries[..|entries| - 1], filename)
  }

  /** When every entry carries a summary, each item ends up showing the report
      of the last entry whose display name its file name contains, and an item
      no name matches keeps what it showed. */
  lemma {:induction false} ApplyAllMeaning(views: seq<ItemView>, entries: seq<(string, Option<Tester.Report>)>)
    requires forall k :: 0 <= k < |entries| ==> entries[k].1.Some?
    ensures !ApplyAll(views, entries).1 && |ApplyAll(views, entries).0| == |views|
    ensures forall i :: 0 <= i < |views| ==>
      ApplyAll(views, entries).0[i] ==
        match LastMatch(entries, views[i].filename)
        case None => views[i]
        case Some(r) => Shown(views[i], r)
    decreases |entries|
  {
    if |entries| > 0 {
      var n := |entries| - 1;
      ApplyAllMeaning(views, entries[..n]);
      ApplyAllSnoc(views, entries[..n], entries[n]);
      assert entries[..n] + [entries[n]] == entries;
      var mid := ApplyAll(views, entries[..n]).0;
      forall i | 0 <= i < |views|
        ensures ApplyAll(views, entries).0[i] ==
          match LastMatch(entries, views[i].filename) case None => views[i] case Some(r) => Shown(views[i], r)
      {
        assert mid[i].filename == views[i].filename;
      }
    }
  }

  /** One more entry applies to the items left by the earlier ones. */
  lemma {:induction false} ApplyAllSnoc(views: seq<ItemView>, entries: seq<(string, Option<Tester.Report>)>,
                                        last: (string, Option<Tester.Report>))
    requires !ApplyAll(views, entries).1
    ensures ApplyAll(views, entries + [last]) ==
      match SummaryUpdate(ApplyAll(views, entries).0, last.0, last.1)
      case None => (ApplyAll(views, entries).0, true)
      case Some(next) => (next, false)
    decreases |entries|
  {
    if |entries| > 0 {
      assert (entries + [last])[1..] == entries[1..] + [last];
      var next := SummaryUpdate(views, entries[0].0, entries[0].1).value;
      ApplyAllSnoc(next, entries[1..], last);
    }
  }

  /** An item is updated by any display name its file name contains, not only an
      equal one: results for "test.py" also reach "mytest.py". */
  lemma SubstringMatches(report: Tester.Report)
    ensures var views := [ItemView("test.py", None, []), ItemView("mytest.py", None, [])];
      SummaryUpdate(views, "test.py", Some(report)) ==
        Some([Shown(views[0], report), Shown(views[1], report)])
  {
    var views := [ItemView("test.py", None, []), ItemView("mytest.py", None, [])];
    assert StartsWith("mytest.py"[2..], "test.py");
    ContainsIff("mytest.py", "test.py");
    assert StartsWith("test.py", "test.py");
    assert Contains(views[1].filename, "test.py");
    assert Contains(views[0].filename, "test.py");
    var r := SummaryUpdate(views, "test.py", Some(report)).value;
    assert |r| == 2;
    assert r[0] == Shown(views[0], report) && r[1] == Shown(views[1], report);
    assert r == [Shown(views[0], report), Shown(views[1], report)];
  }
}

/** The static safety scan run on a user's Python script before it is trusted
    (`detection_script.py`). The script's syntax tree, in the order `ast.walk`
    visits it, is taken as a sequence of nodes; the scan makes one pass over it
    for dangerous calls, suspicious call names and encoded strings, a second pass
    for dangerous imports, and stops at the first finding. What it prints is its
    result as far as the caller is concerned. */
module Detector {
  import opened Wrappers
  import opened Text
  import Json

  /** Calls flagged by the name `receiver.attribute` (`DANGEROUS_CALLS`). */
  const DangerousCalls: set<string> := {
    "os.remove", "os.rmdir", "shutil.rmtree", "subprocess.call", "subprocess.Popen", "eval", "exec",
    "compile", "requests.get", "requests.post", "urllib.request", "http.client", "socket", "ftplib",
    "open", "getattr"
  }

  /** Modules flagged by the first component of an imported name (`DANGEROUS_IMPORTS`). */
  const DangerousImports: set<string> := {
    "os", "shutil", "subprocess", "requests", "urllib", "http.client", "socket", "ftplib", "eval",
    "exec", "cryptography", "base64", "codecs", "zlib"
  }

  /** The patterns searched for in a bare call name (`SUSPICIOUS_PATTERNS`); none
      of them has a metacharacter other than an escaped parenthesis, so each is
      the literal text written here. */
  const SuspiciousPatterns: seq<string> := ["b64decode", "hex", "decode(", "getattr(", "exec(", "eval("]

  // ---------------------------------------------------------------------------
  // Encoded strings: `^[A-Za-z0-9+/=]{20,}$` and `^[0-9A-Fa-f]+$` under re.match

  datatype CharClass = Base64 | Hex

  predicate InClass(c: char, k: CharClass) {
    match k
    case Base64 => 'A' <= c <= 'Z' || 'a' <= c <= 'z' || '0' <= c <= '9' || c == '+' || c == '/' || c == '='
    case Hex => '0' <= c <= '9' || 'A' <= c <= 'F' || 'a' <= c <= 'f'
  }

  predicate AllIn(s: string, k: CharClass) {
    forall i :: 0 <= i < |s| ==> InClass(s[i], k)
  }

  /** How many characters of the class the greedy repetition takes from the start. */
  function RunLength(s: string, k: CharClass): (n: nat)
    ensures n <= |s| && AllIn(s[..n], k)
    ensures n < |s| ==> !InClass(s[n], k)
    decreases |s|
  {
    if |s| > 0 && InClass(s[0], k) then
      var n := 1 + RunLength(s[1..], k);
      assert forall i :: 1 <= i < n ==> s[..n][i] == s[1..][..n - 1][i - 1];
      n
    else 0
  }

  /** The regular expression `^[class]{min,}$` matched from the start: the greedy
      run must be long enough and be followed by the end of the text, or by one
      final newline, which `$` also accepts. Giving characters back cannot help,
      as `$` never matches just before a character of the class. */
  predicate FullMatch(s: string, k: CharClass, min: nat) {
    var n := RunLength(s, k);
    n >= min && (n == |s| || (n == |s| - 1 && s[n] == '\n'))
  }

  /** The text the match has to cover: s without one trailing newline. */
  function Body(s: string): (b: string)
    ensures StartsWith(s, b) && |s| - 1 <= |b|
  {
    if |s| > 0 && s[|s| - 1] == '\n' then s[..|s| - 1] else s
  }

  /** `detect_obfuscated_strings` on a string constant. */
  predicate Obfuscated(s: string) {
    FullMatch(s, Base64, 20) || FullMatch(s, Hex, 1)
  }

  lemma FullMatchMeaning(s: string, k: CharClass, min: nat)
    ensures FullMatch(s, k, min) <==> |Body(s)| >= min && AllIn(Body(s), k)
  {
    var n := RunLength(s, k);
    var b := Body(s);
    assert s[..n] == b[..n] by {
      assert StartsWith(s, b);
      if n <= |b| {
        assert s[..n] == s[..|b|][..n];
      }
    }
    if FullMatch(s, k, min) {
      if n == |s| {
        assert |s| == 0 || InClass(s[|s| - 1], k);
        assert b == s[..n];
      } else {
        assert b == s[..n];
      }
    }
    if |b| >= min && AllIn(b, k) {
      assert s[..|b|] == b;
      RunCovers(s, k, |b|);
      assert !InClass('\n', k);
    }
  }

  /** The greedy run takes at least any prefix made of class characters. */
  lemma {:induction false} RunCovers(s: string, k: CharClass, m: nat)
    requires m <= |s| && AllIn(s[..m], k)
    ensures RunLength(s, k) >= m
    decreases m
  {
    if m > 0 {
      assert s[..m][0] == s[0];
      assert s[1..][..m - 1] == s[..m][1..];
      RunCovers(s[1..], k, m - 1);
    }
  }

  /** A string constant is flagged exactly when, apart from one final newline, it is
      twenty or more characters of the base-64 alphabet or one or more hex digits. */
  lemma ObfuscatedMeaning(s: string)
    ensures Obfuscated(s) <==>
      (|Body(s)| >= 20 && AllIn(Body(s), Base64)) || (|Body(s)| > 0 && AllIn(Body(s), Hex))
  {
    FullMatchMeaning(s, Base64, 20);
    FullMatchMeaning(s, Hex, 1);
  }

  /** The empty string and a lone newline are never flagged. */
  lemma EmptyNotObfuscated()
    ensures !Obfuscated("") && !Obfuscated("\n")
  {
    ObfuscatedMeaning("");
    ObfuscatedMeaning("\n");
  }

  /** Any short word spelt with hex letters is flagged, with or without one final
      newline, but not with two. */
  lemma ShortHexWordObfuscated()
    ensures Obfuscated("cafe") && Obfuscated("cafe\n") && !Obfuscated("cafe\n\n")
  {
    ObfuscatedMeaning("cafe");
    ObfuscatedMeaning("cafe\n");
    TwoNewlinesNotObfuscated();
  }

  lemma TwoNewlinesNotObfuscated()
    ensures !Obfuscated("cafe\n\n")
  {
    ObfuscatedMeaning("cafe\n\n");
    assert Body("cafe\n\n") == "cafe\n";
    assert !InClass(Body("cafe\n\n")[4], Hex) && !InClass(Body("cafe\n\n")[4], Base64);
  }

  /** Base-64 text that is not all hex is flagged only from twenty characters on. */
  lemma Base64LengthMatters(s: string)
    requires 0 < |s| && s[|s| - 1] != '\n' && AllIn(s, Base64) && !AllIn(s, Hex)
    ensures Obfuscated(s) <==> |s| >= 20
  {
    ObfuscatedMeaning(s);
  }

  // ---------------------------------------------------------------------------
  // Nodes and the messages the scan prints

  /** What a call's receiver is: a plain name has an `id`; anything else (an
      attribute chain, a literal, a call result) has none, and reading it raises an
      AttributeError naming the node's type. */
  datatype Receiver = Named(id: string) | Unnamed(kind: string)

  /** The `func` of a call node: an attribute `value.attr`, a bare name, or
      anything else (a subscript, a call, a lambda). */
  datatype Callee = Attribute(value: Receiver, attr: string) | Name(id: string) | OtherCallee

  /** The nodes of the walk the scan distinguishes; `names` of an import are the
      alias names as written. */
  datatype Node =
    | Call(callee: Callee, line: nat)
    | Str(s: string, line: nat)
    | Import(names: seq<string>, line: nat)
    | ImportFrom(source: string, names: seq<string>, line: nat)
    | Other

  /** What one rule decides: nothing, a finding with the text it prints, or an
      exception with its message. */
  datatype Verdict = Clean | Flag(text: string) | Crash(message: string)

  /** A line of the scan's report that the caller counts as a finding. */
  function Warn(rest: string): (w: string)
    ensures StartsWith(w, "Warning:")
  {
    PrefixOf("Warning:", rest);
    "Warning:" + rest
  }

  function At(path: string, line: nat): string {
    " " + path + " at line " + Json.Digits(line) + "\n"
  }

  function CallKey(receiver: string, attr: string): string {
    receiver + "." + attr
  }

  function DangerousCallText(key: string, path: string, line: nat): string {
    Warn(" Dangerous function '" + key + "' found in" + At(path, line))
  }

  function SuspiciousCallText(id: string, path: string, line: nat): string {
    Warn(" Suspicious function '" + id + "' detected in" + At(path, line))
  }

  /** The first n characters, as `s[:n]` gives them: all of s when it is no
      longer than n. */
  function Take(s: string, n: nat): (t: string)
    ensures |t| <= n && StartsWith(s, t)
    ensures |t| == if |s| <= n then |s| else n
  {
    if |s| <= n then s else s[..n]
  }

  /** The two lines printed for an encoded string. */
  function EncodedStringText(s: string, path: string, line: nat): string {
    Warn(" Suspicious encoded string detected: '" + Take(s, 30) + "...'\n") +
    Warn(" Obfuscated string detected in" + At(path, line))
  }

  function ImportText(alias: string, path: string, line: nat): string {
    Warn(" Dangerous or suspicious import '" + alias + "' found in" + At(path, line))
  }

  function ErrorText(path: string, message: string): string {
    "Error scanning " + path + ": " + message + "\n"
  }

  const CleanLead: string := "No dangerous functions, obfuscation, " + "or imports detected in "

  function CleanText(path: string): string {
    CleanLead + path + ".\n"
  }

  function MissingId(kind: string): string {
    "'" + kind + "' object has no attribute 'id'"
  }

  const Usage: string := "Usage: python detection_script.py <script_path>\n"

  // ---------------------------------------------------------------------------
  // The rules

  /** `re.search(pattern, id)` for some suspicious pattern. */
  predicate Suspicious(id: string) {
    exists p :: p in SuspiciousPatterns && Contains(id, p)
  }

  /** The first pass on one node: the dangerous-call test on attribute calls, the
      pattern search on bare call names, then the encoded-string test. */
  function FirstPassRule(path: string, n: Node): Verdict {
    match n
    case Call(Attribute(Named(r), attr), line) =>
      if CallKey(r, attr) in DangerousCalls then Flag(DangerousCallText(CallKey(r, attr), path, line))
      else Clean
    case Call(Attribute(Unnamed(kind), _), _) => Crash(MissingId(kind))
    case Call(Name(id), line) =>
      if Suspicious(id) then Flag(SuspiciousCallText(id, path, line)) else Clean
    case Call(OtherCallee, _) => Clean
    case Str(s, line) => if Obfuscated(s) then Flag(EncodedStringText(s, path, line)) else Clean
    case _ => Clean
  }

  /** `alias.name.split('.')[0]`: the text before the first dot. */
  function Head(name: string): (h: string)
    ensures StartsWith(name, h) && '.' !in h
    ensures h == name || name[|h|] == '.'
    decreases |name|
  {
    if |name| == 0 || name[0] == '.' then []
    else
      var h := [name[0]] + Head(name[1..]);
      assert name[..|h|] == [name[0]] + name[1..][..|h| - 1];
      h
  }

  /** The import test over the alias names of one import, first hit first. */
  function AliasRule(path: string, names: seq<string>, line: nat): Verdict
    decreases |names|
  {
    if |names| == 0 then Clean
    else if Head(names[0]) in DangerousImports then Flag(ImportText(names[0], path, line))
    else AliasRule(path, names[1..], line)
  }

  /** The second pass on one node; for `from X import Y` only the names Y count. */
  function SecondPassRule(path: string, n: Node): Verdict {
    match n
    case Import(names, line) => AliasRule(path, names, line)
    case ImportFrom(_, names, line) => AliasRule(path, names, line)
    case _ => Clean
  }

  /** The verdict of the first node in walk order on which a rule is not clean. */
  function FirstPass(path: string, nodes: seq<Node>): Verdict
    decreases |nodes|
  {
    if |nodes| == 0 then Clean
    else if !FirstPassRule(path, nodes[0]).Clean? then FirstPassRule(path, nodes[0])
    else FirstPass(path, nodes[1..])
  }

  function SecondPass(path: string, nodes: seq<Node>): Verdict
    decreases |nodes|
  {
    if |nodes| == 0 then Clean
    else if !SecondPassRule(path, nodes[0]).Clean? then SecondPassRule(path, nodes[0])
    else SecondPass(path, nodes[1..])
  }

  /** `scan_script`: whether the script is judged safe, and what it printed. The
      tree is what reading and parsing the file gave, or the exception that raised. */
  function ScanOutcome(path: string, tree: Result<seq<Node>, string>): (bool, string) {
    match tree
    case Err(message) => (false, ErrorText(path, message))
    case Ok(nodes) =>
      match FirstPass(path, nodes)
      case Flag(text) => (false, text)
      case Crash(message) => (false, ErrorText(path, message))
      case Clean =>
        match SecondPass(path, nodes)
        case Flag(text) => (false, text)
        case Crash(message) => (false, ErrorText(path, message))
        case Clean => (true, CleanText(path))
  }

  /** `scan_script` as the two loops it is, each returning at the first finding. */
  method ScanScript(path: string, tree: Result<seq<Node>, string>) returns (safe: bool, out: string)
    ensures (safe, out) == ScanOutcome(path, tree)
  {
    if tree.Err? {
      return false, ErrorText(path, tree.error);
    }
    var nodes := tree.value;
    var i := 0;
    while i < |nodes|
      invariant 0 <= i <= |nodes|
      invariant FirstPass(path, nodes) == FirstPass(path, nodes[i..])
    {
      assert nodes[i..][1..] == nodes[i + 1..];
      var v := FirstPassRule(path, nodes[i]);
      if v.Flag? {
        return false, v.text;
      } else if v.Crash? {
        return false, ErrorText(path, v.message);
      }
      i := i + 1;
    }
    i := 0;
    while i < |nodes|
      invariant 0 <= i <= |nodes|
      invariant SecondPass(path, nodes) == SecondPass(path, nodes[i..])
    {
      assert nodes[i..][1..] == nodes[i + 1..];
      var n := nodes[i];
      if n.Import? || n.ImportFrom? {
        var j := 0;
        while j < |n.names|
          invariant 0 <= j <= |n.names|
          invariant SecondPassRule(path, n) == AliasRule(path, n.names[j..], n.line)
        {
          assert n.names[j..][1..] == n.names[j + 1..];
          if Head(n.names[j]) in DangerousImports {
            return false, ImportText(n.names[j], path, n.line);
          }
          j := j + 1;
        }
      }
      i := i + 1;
    }
    return true, CleanText(path);
  }

  /** The `__main__` block: argv must be the program and one path, and the scan's
      result is discarded, so the exit status never reflects the verdict. */
  function DetectorMain(argv: seq<string>, tree: Result<seq<Node>, string>): (r: (string, int))
    ensures |argv| != 2 ==> r == (Usage, 1)
    ensures |argv| == 2 ==> r.1 == 0
  {
    if |argv| != 2 then (Usage, 1) else (ScanOutcome(argv[1], tree).1, 0)
  }

  // ---------------------------------------------------------------------------
  // Properties of the scan

  lemma {:induction false} FirstPassIsFirst(path: string, nodes: seq<Node>, k: nat)
    requires k < |nodes| && !FirstPassRule(path, nodes[k]).Clean?
    requires forall j :: 0 <= j < k ==> FirstPassRule(path, nodes[j]).Clean?
    ensures FirstPass(path, nodes) == FirstPassRule(path, nodes[k])
    decreases k
  {
    if k > 0 {
      FirstPassIsFirst(path, nodes[1..], k - 1);
    }
  }

  lemma {:induction false} FirstPassAllClean(path: string, nodes: seq<Node>)
    ensures FirstPass(path, nodes).Clean? <==> forall j :: 0 <= j < |nodes| ==> FirstPassRule(path, nodes[j]).Clean?
    decreases |nodes|
  {
    if |nodes| > 0 {
      FirstPassAllClean(path, nodes[1..]);
      assert forall j :: 1 <= j < |nodes| ==> nodes[j] == nodes[1..][j - 1];
    }
  }

  lemma {:induction false} SecondPassIsFirst(path: string, nodes: seq<Node>, k: nat)
    requires k < |nodes| && !SecondPassRule(path, nodes[k]).Clean?
    requires forall j :: 0 <= j < k ==> SecondPassRule(path, nodes[j]).Clean?
    ensures SecondPass(path, nodes) == SecondPassRule(path, nodes[k])
    decreases k
  {
    if k > 0 {
      SecondPassIsFirst(path, nodes[1..], k - 1);
    }
  }

  lemma {:induction false} SecondPassAllClean(path: string, nodes: seq<Node>)
    ensures SecondPass(path, nodes).Clean? <==> forall j :: 0 <= j < |nodes| ==> SecondPassRule(path, nodes[j]).Clean?
    decreases |nodes|
  {
    if |nodes| > 0 {
      SecondPassAllClean(path, nodes[1..]);
      assert forall j :: 1 <= j < |nodes| ==> nodes[j] == nodes[1..][j - 1];
    }
  }

  lemma {:induction false} AliasRuleMeaning(path: string, names: seq<string>, line: nat)
    ensures AliasRule(path, names, line).Crash? == false
    ensures AliasRule(path, names, line).Clean? <==>
      forall j :: 0 <= j < |names| ==> Head(names[j]) !in DangerousImports
    ensures AliasRule(path, names, line).Flag? ==>
      exists j :: 0 <= j < |names| && Head(names[j]) in DangerousImports &&
        AliasRule(path, names, line) == Flag(ImportText(names[j], path, line)) &&
        forall i :: 0 <= i < j ==> Head(names[i]) !in DangerousImports
    decreases |names|
  {
    if |names| > 0 {
      AliasRuleMeaning(path, names[1..], line);
      assert forall j :: 1 <= j < |names| ==> names[j] == names[1..][j - 1];
      if !(Head(names[0]) in DangerousImports) && AliasRule(path, names, line).Flag? {
        var j :| 0 <= j < |names[1..]| && Head(names[1..][j]) in DangerousImports &&
          AliasRule(path, names[1..], line) == Flag(ImportText(names[1..][j], path, line)) &&
          forall i :: 0 <= i < j ==> Head(names[1..][i]) !in DangerousImports;
        assert names[j + 1] == names[1..][j];
      }
    }
  }

  /** The scan judges a readable script safe exactly when no first-pass rule and no
      import rule fires on any node, and then it prints the "No dangerous" line;
      a file that cannot be read or parsed is never safe. */
  lemma ScanSafeIff(path: string, tree: Result<seq<Node>, string>)
    ensures ScanOutcome(path, tree).0 <==>
      tree.Ok? &&
      (forall j :: 0 <= j < |tree.value| ==> FirstPassRule(path, tree.value[j]).Clean?) &&
      (forall j :: 0 <= j < |tree.value| ==> SecondPassRule(path, tree.value[j]).Clean?)
    ensures ScanOutcome(path, tree).0 ==> ScanOutcome(path, tree).1 == CleanText(path)
  {
    if tree.Ok? {
      FirstPassAllClean(path, tree.value);
      SecondPassAllClean(path, tree.value);
    }
  }

  /** Walk order decides: the first node on which a first-pass rule fires settles
      the scan, whatever any import anywhere in the script would have said. */
  lemma FirstFindingWins(path: string, nodes: seq<Node>, k: nat)
    requires k < |nodes| && !FirstPassRule(path, nodes[k]).Clean?
    requires forall j :: 0 <= j < k ==> FirstPassRule(path, nodes[j]).Clean?
    ensures !ScanOutcome(path, Ok(nodes)).0
    ensures ScanOutcome(path, Ok(nodes)).1 ==
      match FirstPassRule(path, nodes[k])
      case Flag(text) => text
      case Crash(message) => ErrorText(path, message)
      case Clean => []
  {
    FirstPassIsFirst(path, nodes, k);
  }

  /** With a clean first pass, the first import with a dangerous alias decides. */
  lemma ImportFindingWhenCallsClean(path: string, nodes: seq<Node>, k: nat)
    requires forall j :: 0 <= j < |nodes| ==> FirstPassRule(path, nodes[j]).Clean?
    requires k < |nodes| && !SecondPassRule(path, nodes[k]).Clean?
    requires forall j :: 0 <= j < k ==> SecondPassRule(path, nodes[j]).Clean?
    ensures SecondPassRule(path, nodes[k]).Flag? && !ScanOutcome(path, Ok(nodes)).0
    ensures ScanOutcome(path, Ok(nodes)).1 == SecondPassRule(path, nodes[k]).text
  {
    FirstPassAllClean(path, nodes);
    SecondPassIsFirst(path, nodes, k);
    match nodes[k]
    case Import(names, line) => AliasRuleMeaning(path, names, line);
    case ImportFrom(_, names, line) => AliasRuleMeaning(path, names, line);
  }

  /** An attribute call is flagged exactly when `receiver.attr` is listed; every
      listed name without a dot (eval, exec, compile, socket, ftplib, open,
      getattr) therefore never matches an attribute call. */
  lemma DangerousCallRule(path: string, r: string, attr: string, line: nat, e: string)
    requires e in DangerousCalls && '.' !in e
    ensures FirstPassRule(path, Call(Attribute(Named(r), attr), line)).Flag? <==> CallKey(r, attr) in DangerousCalls
    ensures CallKey(r, attr) != e
  {
    assert CallKey(r, attr)[|r|] == '.';
  }

  /** A call whose receiver is not a plain name (`a.b.c()`, `"x".join()`) ends the
      scan with the AttributeError, reported on the error line. */
  lemma UnnamedReceiverCrashes(path: string, kind: string, attr: string, line: nat)
    ensures ScanOutcome(path, Ok([Call(Attribute(Unnamed(kind), attr), line)])) ==
      (false, ErrorText(path, MissingId(kind)))
  {
  }

  lemma {:induction false} ContainsChar(s: string, p: string, i: nat)
    requires i < |p| && Contains(s, p)
    ensures p[i] in s
    decreases |s|
  {
    if StartsWith(s, p) {
      assert s[i] == p[i];
    } else {
      ContainsChar(s[1..], p, i);
    }
  }

  /** A Python identifier has no parenthesis, so of the six patterns only
      `b64decode` and `hex` can ever fire on a bare call name. */
  lemma SuspiciousNames(id: string)
    requires '(' !in id
    ensures Suspicious(id) <==> Contains(id, "b64decode") || Contains(id, "hex")
  {
    if Suspicious(id) {
      var p :| p in SuspiciousPatterns && Contains(id, p);
      if p != "b64decode" && p != "hex" {
        ContainsChar(id, p, |p| - 1);
      }
    }
    if Contains(id, "b64decode") {
      assert SuspiciousPatterns[0] == "b64decode";
    }
    if Contains(id, "hex") {
      assert SuspiciousPatterns[1] == "hex";
    }
  }

  /** A bare call whose name holds neither `b64decode` nor `hex` passes the scan. */
  lemma BareCallPasses(path: string, id: string, line: nat)
    requires '(' !in id && !Contains(id, "b64decode") && !Contains(id, "hex")
    ensures ScanOutcome(path, Ok([Call(Name(id), line)])) == (true, CleanText(path))
  {
    SuspiciousNames(id);
    FirstPassAllClean(path, [Call(Name(id), line)]);
    SecondPassAllClean(path, [Call(Name(id), line)]);
  }

  /** Bare calls of eval, exec and open, listed as dangerous, pass the scan. */
  lemma BareEvalPasses(path: string, line: nat)
    ensures ScanOutcome(path, Ok([Call(Name("eval"), line)])).0
    ensures ScanOutcome(path, Ok([Call(Name("exec"), line)])).0
    ensures ScanOutcome(path, Ok([Call(Name("open"), line)])).0
  {
    ContainsNot("eval", "b64decode");
    MissingChar("eval", "hex", 0);
    BareCallPasses(path, "eval", line);
    ContainsNot("exec", "b64decode");
    MissingChar("exec", "hex", 0);
    BareCallPasses(path, "exec", line);
    ContainsNot("open", "b64decode");
    MissingChar("open", "hex", 0);
    BareCallPasses(path, "open", line);
  }

  /** A pattern with a character the text lacks cannot occur in it. */
  lemma MissingChar(s: string, p: string, i: nat)
    requires i < |p| && p[i] !in s
    ensures !Contains(s, p)
  {
    if Contains(s, p) {
      ContainsChar(s, p, i);
    }
  }

  /** A pattern longer than the text cannot occur in it. */
  lemma {:induction false} ContainsNot(s: string, p: string)
    requires |s| < |p|
    ensures !Contains(s, p)
    decreases |s|
  {
    if |s| > 0 {
      ContainsNot(s[1..], p);
    }
  }

  /** The import rule reads only the first dotted component of each alias, so the
      listed `http.client` never matches, and `from X import Y` never looks at X. */
  lemma ImportRule(path: string, m1: string, m2: string, names: seq<string>, line: nat)
    ensures SecondPassRule(path, ImportFrom(m1, names, line)) == SecondPassRule(path, ImportFrom(m2, names, line))
    ensures SecondPassRule(path, Import(names, line)) == SecondPassRule(path, ImportFrom(m1, names, line))
    ensures forall a :: a in names ==> Head(a) != "http.client"
  {
  }

  /** Every finding's text starts with "Warning:", and the encoded-string finding
      prints two such lines. */
  lemma FindingTexts(path: string, n: Node)
    ensures FirstPassRule(path, n).Flag? ==> StartsWith(FirstPassRule(path, n).text, "Warning:")
    ensures SecondPassRule(path, n).Flag? ==> StartsWith(SecondPassRule(path, n).text, "Warning:")
    ensures n.Str? && Obfuscated(n.s) ==>
      StartsWith(FirstPassRule(path, n).text[|Warn(" Suspicious encoded string detected: '" + Take(n.s, 30) + "...'\n")|..], "Warning:")
  {
    if n.Import? || n.ImportFrom? {
      AliasRuleMeaning(path, n.names, n.line);
    }
    if n.Str? && Obfuscated(n.s) {
      var first := Warn(" Suspicious encoded string detected: '" + Take(n.s, 30) + "...'\n");
      var second := Warn(" Obfuscated string detected in" + At(path, n.line));
      assert (first + second)[|first|..] == second;
    }
  }
}

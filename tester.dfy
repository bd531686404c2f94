/** The test runner's result handling: the captured stdout of the Python harness
    is rewritten by a fixed chain of seven global replacements into JSON text,
    parsed, checked for a top-level error, and folded into a report of records
    and a pass/fail summary. The spawned process itself is reduced to the events
    it delivers. */
module Tester {
  import opened Wrappers
  import opened Text
  import opened Json
  import opened Process

  /* ---------- the rewrite chain ---------- */

  /** What the regular-expression `.` does not match. */
  predicate IsLineTerminator(c: char) {
    c == '\n' || c == '\r' || c == '\U{2028}' || c == '\U{2029}'
  }

  predicate NoLineTerminator(s: string) {
    forall i :: 0 <= i < |s| ==> !IsLineTerminator(s[i])
  }

  /** JavaScript's `\s`. */
  predicate IsJsSpace(c: char) {
    c == ' ' || c == '\t' || c == '\n' || c == '\U{B}' || c == '\U{C}' || c == '\r' ||
    c == '\U{A0}' || c == '\U{1680}' || ('\U{2000}' <= c <= '\U{200A}') ||
    c == '\U{2028}' || c == '\U{2029}' || c == '\U{202F}' || c == '\U{205F}' ||
    c == '\U{3000}' || c == '\U{FEFF}'
  }

  /** The length of the shortest group `(.*?)` that close can follow: the distance
      to the first occurrence of close, if no line terminator comes before it. */
  function LazyGroup(s: string, close: string): (k: Option<nat>)
    requires |close| > 0
    ensures k.Some? ==> k.value + |close| <= |s| && StartsWith(s[k.value..], close) &&
                        NoLineTerminator(s[..k.value])
    decreases |s|
  {
    if StartsWith(s, close) then Some(0)
    else if |s| == 0 || IsLineTerminator(s[0]) then None
    else match LazyGroup(s[1..], close)
      case None => None
      case Some(k) =>
        assert s[1..][k..] == s[k + 1..];
        assert s[..k + 1] == [s[0]] + s[1..][..k];
        Some(k + 1)
  }

  /** `s.replace(/O(.*?)C/g, f)` for a one-character opener O and a literal closer
      C: at each position where O starts a match, the match is replaced by f of its
      group and the scan resumes after it; elsewhere the character is kept. */
  function ReplaceDelimited(s: string, open: char, close: string, f: string -> string): string
    requires |close| > 0
    decreases |s|
  {
    if |s| == 0 then []
    else if s[0] == open && LazyGroup(s[1..], close).Some? then
      var k := LazyGroup(s[1..], close).value;
      f(s[1..k + 1]) + ReplaceDelimited(s[k + 1 + |close|..], open, close, f)
    else [s[0]] + ReplaceDelimited(s[1..], open, close, f)
  }

  /** Step 1: every apostrophe becomes a double quote. */
  function SwapQuotes(s: string): string { ReplaceAll(s, "'", "\"") }

  /** Steps 2-4: Python's constants become JSON's, wherever the letters occur. */
  function RewriteKeywords(s: string): string {
    ReplaceAll(ReplaceAll(ReplaceAll(s, "None", "null"), "True", "true"), "False", "false")
  }

  /** Step 5: `/\((.*?)\)/g` to `[$1]`, turning tuples into arrays. */
  function Brackets(s: string): string {
    ReplaceDelimited(s, '(', ")", g => "[" + g + "]")
  }

  /** Step 6: each `{...}` match is passed through `/"(.*?)":/g` to `"$1":`. */
  function QuoteKeysInObjects(s: string): string {
    ReplaceDelimited(s, '{', "}", g => QuoteKeys("{" + g + "}"))
  }

  function QuoteKeys(m: string): string {
    ReplaceDelimited(m, '"', "\":", g => "\"" + g + "\":")
  }

  /** The number of JavaScript white-space characters s starts with. */
  function SpaceRun(s: string): (n: nat)
    ensures n <= |s| && (forall i :: 0 <= i < n ==> IsJsSpace(s[i])) && (n < |s| ==> !IsJsSpace(s[n]))
    decreases |s|
  {
    if |s| > 0 && IsJsSpace(s[0]) then 1 + SpaceRun(s[1..]) else 0
  }

  /** A comma that `/,(\s*[\}\]])/` matches: white space, then a closing bracket. */
  predicate TrailingCommaAt(s: string, i: int) {
    0 <= i < |s| && s[i] == ',' &&
    var n := SpaceRun(s[i + 1..]);
    i + 1 + n < |s| && (s[i + 1 + n] == '}' || s[i + 1 + n] == ']')
  }

  /** Step 7: `/,(\s*[\}\]])/g` to `$1`: such a comma is dropped, the white space
      and the bracket are kept, and the scan resumes after the bracket. */
  function DropTrailingCommas(s: string): string
    decreases |s|
  {
    if |s| == 0 then []
    else if TrailingCommaAt(s, 0) then
      var n := SpaceRun(s[1..]);
      s[1..n + 2] + DropTrailingCommas(s[n + 2..])
    else [s[0]] + DropTrailingCommas(s[1..])
  }

  /** The whole chain, in the order it is applied to the captured stdout. */
  function Sanitize(output: string): string {
    DropTrailingCommas(QuoteKeysInObjects(Brackets(RewriteKeywords(SwapQuotes(output)))))
  }

  /* ---------- what the rewrites do ---------- */

  /** After step 1 no apostrophe is left, including those inside string contents. */
  lemma NoApostropheAfterSwap(s: string)
    ensures !Contains(SwapQuotes(s), "'")
  {
    assert Unaligned("'", "\"") && Unaligned("\"", []);
    ReplaceAllRemoves(s, "'", "\"");
  }

  lemma NoneStep(s: string)
    requires !Contains(s, "'")
    ensures var t := ReplaceAll(s, "None", "null"); !Contains(t, "'") && !Contains(t, "None")
  {
    assert Unaligned("None", "null") && Unaligned("null", "one");
    assert Unaligned("'", "null") && Unaligned("null", "'");
    ReplaceAllRemoves(s, "None", "null");
    ReplaceAllKeepsAbsent(s, "None", "null", "'");
  }

  lemma TrueStep(s: string)
    requires !Contains(s, "'") && !Contains(s, "None")
    ensures var t := ReplaceAll(s, "True", "true"); !Contains(t, "'") && !Contains(t, "None") && !Contains(t, "True")
  {
    assert Unaligned("True", "true") && Unaligned("true", "rue");
    assert Unaligned("'", "true") && Unaligned("true", "'");
    assert Unaligned("None", "true") && Unaligned("true", "None");
    ReplaceAllRemoves(s, "True", "true");
    ReplaceAllKeepsAbsent(s, "True", "true", "'");
    ReplaceAllKeepsAbsent(s, "True", "true", "None");
  }

  lemma FalseStep(s: string)
    requires !Contains(s, "'") && !Contains(s, "None") && !Contains(s, "True")
    ensures var t := ReplaceAll(s, "False", "false");
      !Contains(t, "'") && !Contains(t, "None") && !Contains(t, "True") && !Contains(t, "False")
  {
    assert Unaligned("False", "false") && Unaligned("false", "alse");
    assert Unaligned("'", "false") && Unaligned("false", "'");
    assert Unaligned("None", "false") && Unaligned("false", "None");
    assert Unaligned("True", "false") && Unaligned("false", "True");
    ReplaceAllRemoves(s, "False", "false");
    ReplaceAllKeepsAbsent(s, "False", "false", "'");
    ReplaceAllKeepsAbsent(s, "False", "false", "None");
    ReplaceAllKeepsAbsent(s, "False", "false", "True");
  }

  /** After steps 2-4 none of `None`, `True`, `False` is left anywhere, not even
      inside a longer word, and step 1's work is not undone. */
  lemma KeywordsGone(s: string)
    ensures var t := RewriteKeywords(SwapQuotes(s));
      !Contains(t, "'") && !Contains(t, "None") && !Contains(t, "True") && !Contains(t, "False")
  {
    var s1 := SwapQuotes(s);
    NoApostropheAfterSwap(s);
    NoneStep(s1);
    TrueStep(ReplaceAll(s1, "None", "null"));
    FalseStep(ReplaceAll(ReplaceAll(s1, "None", "null"), "True", "true"));
  }

  /** The rewrite reaches into words: `NoneType` becomes `nullType`. */
  lemma KeywordInsideWord()
    ensures ReplaceAll("NoneType", "None", "null") == "nullType"
  {
    var s := "NoneType";
    assert StartsWith(s, "None");
    assert s[4..] == "Type";
    assert !StartsWith("Type", "None") && !StartsWith("ype", "None") && !StartsWith("pe", "None") && !StartsWith("e", "None");
    assert ReplaceAll("Type", "None", "null") == "Type";
  }

  /** The nearest closer after an opener, with no line terminator in between, is
      where LazyGroup stops. */
  lemma {:induction false} LazyGroupNearest(s: string, close: string, k: nat)
    requires |close| > 0 && k + |close| <= |s| && StartsWith(s[k..], close) && NoLineTerminator(s[..k])
    requires forall j :: 0 <= j < k ==> !StartsWith(s[j..], close)
    ensures LazyGroup(s, close) == Some(k)
    decreases k
  {
    assert s[0..] == s;
    if k > 0 {
      assert s[..k][0] == s[0];
      forall j | 0 <= j < k - 1
        ensures !StartsWith(s[1..][j..], close)
      {
        assert s[1..][j..] == s[j + 1..];
      }
      assert s[1..][k - 1..] == s[k..];
      assert s[1..][..k - 1] == s[..k][1..];
      LazyGroupNearest(s[1..], close, k - 1);
    }
  }

  /** Without a closer before the next line terminator (or the end), an opener
      starts no match. */
  lemma {:induction false} LazyGroupNone(s: string, close: string)
    requires |close| > 0
    requires forall j :: 0 <= j <= |s| && NoLineTerminator(s[..j]) ==> !StartsWith(s[j..], close)
    ensures LazyGroup(s, close) == None
    decreases |s|
  {
    assert s[..0] == [] && s[0..] == s;
    if |s| > 0 && !IsLineTerminator(s[0]) {
      forall j | 0 <= j <= |s[1..]| && NoLineTerminator(s[1..][..j])
        ensures !StartsWith(s[1..][j..], close)
      {
        assert s[..j + 1] == [s[0]] + s[1..][..j];
        assert s[1..][j..] == s[j + 1..];
      }
      LazyGroupNone(s[1..], close);
    }
  }

  /** Step 5 on an opening parenthesis: when a `)` follows on the same line, the
      text up to the nearest one is kept and wrapped in brackets; otherwise the
      parenthesis is kept. */
  lemma BracketsAtParen(s: string, k: nat)
    requires |s| > 0 && s[0] == '(' && k + 1 < |s| && s[k + 1] == ')'
    requires forall j :: 1 <= j <= k ==> s[j] != ')' && !IsLineTerminator(s[j])
    ensures Brackets(s) == "[" + s[1..k + 1] + "]" + Brackets(s[k + 2..])
  {
    var t := s[1..];
    forall j | 0 <= j < k
      ensures !StartsWith(t[j..], ")")
    {
      assert t[j..][0] == s[j + 1];
    }
    assert t[k..][..1] == ")";
    LazyGroupNearest(t, ")", k);
    assert s[1..][..k] == s[1..k + 1];
  }

  lemma BracketsUnclosedParen(s: string)
    requires |s| > 0 && s[0] == '('
    requires forall j :: 1 <= j < |s| && s[j] == ')' ==> !NoLineTerminator(s[1..j])
    ensures Brackets(s) == "(" + Brackets(s[1..])
  {
    var t := s[1..];
    forall j | 0 <= j <= |t| && NoLineTerminator(t[..j])
      ensures !StartsWith(t[j..], ")")
    {
      assert t[..j] == s[1..j + 1];
    }
    LazyGroupNone(t, ")");
  }

  /** Step 5 keeps the length and changes only parentheses, each to the matching
      bracket. */
  lemma {:induction false} BracketsShape(s: string)
    ensures |Brackets(s)| == |s|
    ensures forall i :: 0 <= i < |s| ==>
      Brackets(s)[i] == s[i] || (s[i] == '(' && Brackets(s)[i] == '[') || (s[i] == ')' && Brackets(s)[i] == ']')
    decreases |s|
  {
    if |s| > 0 {
      var r := Brackets(s);
      if s[0] == '(' && LazyGroup(s[1..], ")").Some? {
        var k := LazyGroup(s[1..], ")").value;
        var rest := s[k + 2..];
        BracketsShape(rest);
        assert s[1..][k..][0] == ')';
        assert r == "[" + s[1..k + 1] + "]" + Brackets(rest);
        forall i | 0 <= i < |s|
          ensures r[i] == s[i] || (s[i] == '(' && r[i] == '[') || (s[i] == ')' && r[i] == ']')
        {
          if i == 0 {
          } else if i <= k {
            assert r[i] == s[1..k + 1][i - 1];
          } else if i == k + 1 {
            assert s[i] == s[1..][k..][0];
          } else {
            assert r[i] == Brackets(rest)[i - k - 2];
            assert s[i] == rest[i - k - 2];
          }
        }
      } else {
        BracketsShape(s[1..]);
        assert r == [s[0]] + Brackets(s[1..]);
        forall i | 1 <= i < |s|
          ensures r[i] == s[i] || (s[i] == '(' && r[i] == '[') || (s[i] == ')' && r[i] == ']')
        {
          assert r[i] == Brackets(s[1..])[i - 1];
          assert s[i] == s[1..][i - 1];
        }
      }
    }
  }

  /** A match splits the text into opener, group, closer and the rest. */
  lemma MatchText(s: string, close: string, k: nat)
    requires |s| > 0 && k + 1 + |close| <= |s| && StartsWith(s[1..][k..], close)
    ensures s == [s[0]] + s[1..k + 1] + close + s[k + 1 + |close|..]
  {
    var e := k + 1 + |close|;
    assert s[k + 1..e] == close by {
      assert s[1..][k..][..|close|] == close;
      assert s[1..][k..][..|close|] == s[k + 1..e];
    }
    assert s == s[..e] + s[e..];
    assert s[..e] == s[..k + 1] + s[k + 1..e] by {
      assert s[..e][..k + 1] == s[..k + 1];
    }
    assert s[..k + 1] == [s[0]] + s[1..k + 1];
  }

  /** A replacement that gives back each match unchanged changes nothing. */
  lemma {:induction false} DelimitedIdentity(s: string, open: char, close: string, f: string -> string)
    requires |close| > 0
    requires forall g :: f(g) == [open] + g + close
    ensures ReplaceDelimited(s, open, close, f) == s
    decreases |s|
  {
    if |s| > 0 {
      if s[0] == open && LazyGroup(s[1..], close).Some? {
        var k := LazyGroup(s[1..], close).value;
        DelimitedIdentity(s[k + 1 + |close|..], open, close, f);
        MatchText(s, close, k);
      } else {
        DelimitedIdentity(s[1..], open, close, f);
        assert s == [s[0]] + s[1..];
      }
    }
  }

  /** Step 6 is the identity: `"$1":` rebuilds exactly the `"...":` it matched. */
  lemma KeyQuotingIsIdentity(s: string)
    ensures QuoteKeysInObjects(s) == s
  {
    var inner := (g: string) => "\"" + g + "\":";
    forall g: string
      ensures inner(g) == ['"'] + g + "\":"
    {
    }
    forall m: string
      ensures QuoteKeys(m) == m
    {
      DelimitedIdentity(m, '"', "\":", inner);
    }
    var outer := (g: string) => QuoteKeys("{" + g + "}");
    forall g: string
      ensures outer(g) == ['{'] + g + "}"
    {
    }
    DelimitedIdentity(s, '{', "}", outer);
  }

  /** Without a parenthesis, step 5 changes nothing. */
  lemma {:induction false} BracketsIdentity(s: string)
    requires forall i :: 0 <= i < |s| ==> s[i] != '('
    ensures Brackets(s) == s
  {
    BracketsShape(s);
    var r := Brackets(s);
    forall i | 0 <= i < |s|
      ensures r[i] == s[i]
    {
      if s[i] == ')' && r[i] == ']' {
        BracketsCloseKept(s, i);
      }
    }
  }

  /** Where no parenthesis opens, no `)` becomes `]`. */
  lemma {:induction false} BracketsCloseKept(s: string, i: nat)
    requires forall j :: 0 <= j < |s| ==> s[j] != '('
    requires i < |s|
    ensures |Brackets(s)| == |s| && Brackets(s)[i] == s[i]
    decreases |s|
  {
    BracketsShape(s);
    assert s[0] != '(';
    var r := Brackets(s);
    assert r == [s[0]] + Brackets(s[1..]);
    if i > 0 {
      BracketsCloseKept(s[1..], i - 1);
      assert r[i] == Brackets(s[1..])[i - 1];
    }
  }

  /** Step 7 on text where no comma is trailing changes nothing. */
  lemma {:induction false} DropTrailingCommasIdentity(s: string)
    requires forall i :: 0 <= i < |s| ==> !TrailingCommaAt(s, i)
    ensures DropTrailingCommas(s) == s
    decreases |s|
  {
    if |s| > 0 {
      assert !TrailingCommaAt(s, 0);
      forall i | 0 <= i < |s[1..]|
        ensures !TrailingCommaAt(s[1..], i)
      {
        assert !TrailingCommaAt(s, i + 1);
        assert s[1..][i + 1..] == s[i + 2..];
      }
      DropTrailingCommasIdentity(s[1..]);
      assert s == [s[0]] + s[1..];
    }
  }

  /** r is s with some occurrences of c removed and nothing else changed. */
  predicate DeletesOnly(c: char, s: string, r: string)
    decreases |s|
  {
    if |s| == 0 then r == []
    else (|r| > 0 && r[0] == s[0] && DeletesOnly(c, s[1..], r[1..])) || (s[0] == c && DeletesOnly(c, s[1..], r))
  }

  lemma {:induction false} DeletesOnlyPrefix(c: char, p: string, s: string, r: string)
    requires DeletesOnly(c, s, r)
    ensures DeletesOnly(c, p + s, p + r)
    decreases |p|
  {
    if |p| > 0 {
      DeletesOnlyPrefix(c, p[1..], s, r);
      assert (p + s)[1..] == p[1..] + s;
      assert (p + r)[1..] == p[1..] + r;
    } else {
      assert p + s == s && p + r == r;
    }
  }

  /** Step 7 only deletes commas. */
  lemma {:induction false} DropTrailingCommasDeletesCommas(s: string)
    ensures DeletesOnly(',', s, DropTrailingCommas(s))
    decreases |s|
  {
    if |s| > 0 {
      var r := DropTrailingCommas(s);
      if TrailingCommaAt(s, 0) {
        var n := SpaceRun(s[1..]);
        var rest := DropTrailingCommas(s[n + 2..]);
        assert r == s[1..n + 2] + rest;
        DropTrailingCommasDeletesCommas(s[n + 2..]);
        DropComma(s, n + 2, rest);
      } else {
        assert r == [s[0]] + DropTrailingCommas(s[1..]);
        DropTrailingCommasDeletesCommas(s[1..]);
        KeepHead(',', s, DropTrailingCommas(s[1..]));
      }
    }
  }

  /** Dropping a leading comma and keeping what follows up to k. */
  lemma DropComma(s: string, k: nat, rest: string)
    requires 0 < k <= |s| && s[0] == ',' && DeletesOnly(',', s[k..], rest)
    ensures DeletesOnly(',', s, s[1..k] + rest)
  {
    var t := s[1..];
    assert s[1..k] == t[..k - 1] && s[k..] == t[k - 1..];
    assert t[..k - 1] + t[k - 1..] == t;
    DeletesOnlyPrefix(',', s[1..k], s[k..], rest);
    DeleteHead(',', s, s[1..k] + rest);
  }

  lemma DeleteHead(c: char, s: string, r: string)
    requires |s| > 0 && s[0] == c && DeletesOnly(c, s[1..], r)
    ensures DeletesOnly(c, s, r)
  {
  }

  lemma KeepHead(c: char, s: string, r: string)
    requires |s| > 0 && DeletesOnly(c, s[1..], r)
    ensures DeletesOnly(c, s, [s[0]] + r)
  {
    assert ([s[0]] + r)[1..] == r;
  }

  /** The scan resumes after the bracket it kept, so of two commas in a row only
      the second, the one next to the bracket, is removed. */
  lemma DoubleCommaKeepsOne()
    ensures DropTrailingCommas(",,]") == ",]"
  {
    assert SpaceRun(",]") == 0;
    assert !TrailingCommaAt(",,]", 0);
    assert ",,]"[1..] == ",]";
    assert SpaceRun("]") == 0;
    assert TrailingCommaAt(",]", 0);
    assert ",]"[1..2] == "]" && ",]"[2..] == [];
  }

  /** The chain changes nothing on text that has no apostrophe, no `None`, `True`
      or `False`, no `(`, and no comma before white space and a closing bracket. */
  lemma SanitizeIdentity(s: string)
    requires !Contains(s, "'") && !Contains(s, "None") && !Contains(s, "True") && !Contains(s, "False")
    requires forall i :: 0 <= i < |s| ==> s[i] != '(' && !TrailingCommaAt(s, i)
    ensures Sanitize(s) == s
  {
    ReplaceAllIdentity(s, "'", "\"");
    ReplaceAllIdentity(s, "None", "null");
    ReplaceAllIdentity(s, "True", "true");
    ReplaceAllIdentity(s, "False", "false");
    BracketsIdentity(s);
    KeyQuotingIsIdentity(s);
    DropTrailingCommasIdentity(s);
  }

  /* ---------- the report ---------- */

  /** One output record; None stands for undefined. */
  datatype Record = Record(test: Option<Json>, passed: Option<Json>, received: Option<string>,
                           error: Option<Json>)

  datatype Report = Report(results: seq<Record>, total: nat, passed: nat, failed: nat)

  const ParseFailure: string := "Failed to parse Python output: "
  const SpawnFailure: string := "Failed to start Python process: "

  /** The record built from one harness result. */
  function RecordOf(result: Json): Record {
    var passed := Get(result, "passed");
    Record(
      Get(result, "test"),
      passed,
      match Get(result, "received") case None => None case Some(v) => Some(Serialize(v, Js)),
      if Truthy(passed) then Some(JNull) else Get(result, "error"))
  }

  /** The record's error is null when it passed and the harness's error otherwise;
      its received text, when present, parses back to the harness's value. */
  lemma RecordMeaning(result: Json)
    ensures RecordOf(result).test == Get(result, "test") && RecordOf(result).passed == Get(result, "passed")
    ensures Truthy(Get(result, "passed")) ==> RecordOf(result).error == Some(JNull)
    ensures !Truthy(Get(result, "passed")) ==> RecordOf(result).error == Get(result, "error")
    ensures RecordOf(result).received.Some? <==> Get(result, "received").Some?
    ensures RecordOf(result).received.Some? ==>
      Parse(RecordOf(result).received.value) == Ok(Get(result, "received").value)
  {
    if Get(result, "received").Some? {
      ParseSerialize(Get(result, "received").value, Js, []);
      assert Serialize(Get(result, "received").value, Js) + [] == Serialize(Get(result, "received").value, Js);
    }
  }

  /** The number of results whose `passed` is truthy. */
  function PassedCount(results: seq<Json>): (n: nat)
    ensures n <= |results|
    decreases |results|
  {
    if |results| == 0 then 0
    else PassedCount(results[..|results| - 1]) + (if Truthy(Get(results[|results| - 1], "passed")) then 1 else 0)
  }

  /** One record per result, in order. */
  function Records(results: seq<Json>): (r: seq<Record>)
    ensures |r| == |results| && forall i :: 0 <= i < |results| ==> r[i] == RecordOf(results[i])
    decreases |results|
  {
    if |results| == 0 then []
    else Records(results[..|results| - 1]) + [RecordOf(results[|results| - 1])]
  }

  /** The report for a list of results: its records and a summary that counts
      them. */
  function Summary(results: seq<Json>): (r: Report)
    ensures |r.results| == r.total == |results| && r.passed + r.failed == r.total
    ensures forall i :: 0 <= i < |results| ==> r.results[i] == RecordOf(results[i])
  {
    var n := PassedCount(results);
    Report(Records(results), |results|, n, |results| - n)
  }

  lemma PrefixStep(results: seq<Json>, i: nat)
    requires i < |results|
    ensures Records(results[..i + 1]) == Records(results[..i]) + [RecordOf(results[i])]
    ensures PassedCount(results[..i + 1]) ==
      PassedCount(results[..i]) + (if Truthy(Get(results[i], "passed")) then 1 else 0)
    ensures JNull !in results[..i] && results[i] != JNull ==> JNull !in results[..i + 1]
  {
    assert results[..i + 1][..i] == results[..i];
    assert results[..i + 1] == results[..i] + [results[i]];
  }

  /** The `forEach` over the parsed results. A null result makes the property
      access throw; everything before it is then discarded. */
  method Fold(results: seq<Json>) returns (r: Option<Report>)
    ensures r.None? <==> JNull in results
    ensures r.Some? ==> r.value == Summary(results)
  {
    var records: seq<Record> := [];
    var passed, failed := 0, 0;
    var i := 0;
    while i < |results|
      invariant 0 <= i <= |results|
      invariant JNull !in results[..i]
      invariant records == Records(results[..i])
      invariant passed == PassedCount(results[..i]) && passed + failed == i
    {
      if results[i].JNull? {
        assert JNull in results by {
          assert results[i] == JNull;
        }
        return None;
      }
      PrefixStep(results, i);
      var passedField := Get(results[i], "passed");
      if Truthy(passedField) {
        passed := passed + 1;
      } else {
        failed := failed + 1;
      }
      records := records + [RecordOf(results[i])];
      i := i + 1;
    }
    assert results[..i] == results;
    r := Some(Report(records, |results|, passed, failed));
  }

  /** What the close handler settles the promise with, given the whole output. */
  function CloseOutcome(output: string): Settlement<Report> {
    match Parse(Sanitize(output))
    case Err(message) => Rejected(ParseFailure + message)
    case Ok(results) => Classify(results)
  }

  /** The TypeError message for reading a property of null. */
  function NullError(property: string): string {
    "Cannot read properties of null (reading '" + property + "')"
  }

  /** The TypeError message for calling `forEach` on something that is not an array. */
  const NotIterable: string := "results.forEach is not a function"

  function Classify(results: Json): Settlement<Report> {
    if results.JNull? then Rejected(ParseFailure + NullError("error"))
    else if Truthy(Get(results, "error")) then Rejected("Error: " + ToJsString(Get(results, "error").value))
    else if !results.JArr? then Rejected(ParseFailure + NotIterable)
    else if JNull in results.elems then Rejected(ParseFailure + NullError("test"))
    else Resolved(Summary(results.elems))
  }

  /** The run resolves exactly when the rewritten output is a JSON array with no
      null in it, and then with the summary of that array. */
  lemma CloseResolvesIff(output: string)
    ensures CloseOutcome(output).Resolved? <==>
      exists items :: Parse(Sanitize(output)) == Ok(JArr(items)) && JNull !in items
    ensures CloseOutcome(output).Resolved? ==>
      CloseOutcome(output).value == Summary(Parse(Sanitize(output)).value.elems)
  {
    var parsed := Parse(Sanitize(output));
    if parsed.Ok? && parsed.value.JArr? && JNull !in parsed.value.elems {
      assert Get(parsed.value, "error") == None;
    }
  }

  /** A truthy top-level `error` rejects with "Error: " and no records; every other
      rejection carries the parse-failure prefix. */
  lemma CloseRejectionReasons(output: string)
    ensures CloseOutcome(output).Rejected? ==>
      StartsWith(CloseOutcome(output).reason, "Error: ") || StartsWith(CloseOutcome(output).reason, ParseFailure)
    ensures (Parse(Sanitize(output)).Ok? && Truthy(Get(Parse(Sanitize(output)).value, "error"))) ==>
      CloseOutcome(output).Rejected? && StartsWith(CloseOutcome(output).reason, "Error: ")
  {
    match Parse(Sanitize(output))
    case Err(message) => PrefixOf(ParseFailure, message);
    case Ok(v) =>
      if v.JNull? {
        PrefixOf(ParseFailure, NullError("error"));
      } else if Truthy(Get(v, "error")) {
        PrefixOf("Error: ", ToJsString(Get(v, "error").value));
      } else if !v.JArr? {
        PrefixOf(ParseFailure, NotIterable);
      } else if JNull in v.elems {
        PrefixOf(ParseFailure, NullError("test"));
      }
  }

  /** The close handler's work. */
  method Conclude(output: string) returns (r: Settlement<Report>)
    ensures r == CloseOutcome(output)
  {
    var parsed := Parse(Sanitize(output));
    if parsed.Err? {
      return Rejected(ParseFailure + parsed.error);
    }
    var results := parsed.value;
    if results.JNull? {
      return Rejected(ParseFailure + NullError("error"));
    }
    var error := Get(results, "error");
    if Truthy(error) {
      return Rejected("Error: " + ToJsString(error.value));
    }
    if !results.JArr? {
      return Rejected(ParseFailure + NotIterable);
    }
    var report := Fold(results.elems);
    if report.None? {
      return Rejected(ParseFailure + NullError("test"));
    }
    r := Resolved(report.value);
  }

  /** The handlers registered on one spawned harness process and the promise they
      settle. */
  class PythonTestRun {
    var output: string
    var outcome: Option<Settlement<Report>>

    constructor()
      ensures output == [] && outcome == None
    {
      output := [];
      outcome := None;
    }

    /** Deliver one event: stdout is appended; stderr is only logged; close and a
        spawn failure settle the promise unless it is already settled. */
    method Deliver(e: Event)
      modifies this
      ensures (output, outcome) == Step(old(output), old(outcome), e, CloseOutcome, SpawnFailure)
    {
      match e
      case Stdout(chunk) =>
        output := output + chunk;
      case Stderr(_) =>
      case Close(_) =>
        var r := Conclude(output);
        if outcome.None? {
          outcome := Some(r);
        }
      case SpawnError(message) =>
        if outcome.None? {
          outcome := Some(Rejected(SpawnFailure + message));
        }
    }
  }

  /** `runPythonTests`: the promise after the process delivered events. */
  method RunPythonTests(events: seq<Event>) returns (outcome: Option<Settlement<Report>>)
    ensures outcome == Replay(events, CloseOutcome, SpawnFailure).1
  {
    var run := new PythonTestRun();
    var i := 0;
    while i < |events|
      invariant 0 <= i <= |events|
      invariant (run.output, run.outcome) == Replay(events[..i], CloseOutcome, SpawnFailure)
    {
      assert events[..i + 1][..i] == events[..i];
      run.Deliver(events[i]);
      i := i + 1;
    }
    assert events[..i] == events;
    outcome := run.outcome;
  }

  /** The text that is parsed is the stdout chunks before the first close,
      concatenated in order; a spawn failure first rejects with its message; and
      nothing later changes the outcome. */
  lemma RunMeaning(events: seq<Event>)
    ensures var outcome := Replay(events, CloseOutcome, SpawnFailure).1;
      match FirstSettling(events)
      case None => outcome == None
      case Some(i) =>
        if events[i].Close? then outcome == Some(CloseOutcome(StdoutText(events[..i])))
        else outcome == Some(Rejected(SpawnFailure + events[i].message))
  {
    ReplayMeaning(events, CloseOutcome, SpawnFailure);
  }
}

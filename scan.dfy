/** `scanPythonScript`: runs the detector on a script and turns what it printed
    into a one-shot verdict. Any "Warning:" in the collected stdout rejects with
    the whole report; otherwise the script is accepted, whatever the exit code. */
module Scan {
  import opened Wrappers
  import opened Text
  import opened Process
  import Detector

  const SpawnFailure: string := "Failed to start detection process: "
  const IssuesHeader: string := "Detected potential issues:\n"
  const Marker: string := "Warning:"

  /** The close handler's decision on the collected stdout. */
  function ScanClose(output: string): (r: Settlement<bool>)
    ensures r.Rejected? <==> Contains(output, Marker)
    ensures r.Resolved? ==> r.value
    ensures r.Rejected? ==> StartsWith(r.reason, IssuesHeader) && r.reason[|IssuesHeader|..] == output
  {
    if Contains(output, Marker) then
      var reason := IssuesHeader + output;
      assert reason[..|IssuesHeader|] == IssuesHeader && reason[|IssuesHeader|..] == output;
      Rejected(reason)
    else Resolved(true)
  }

  /** The handler state of one scan: the stdout buffer and the promise. */
  class ScanRun {
    var output: string
    var outcome: Option<Settlement<bool>>

    constructor()
      ensures output == [] && outcome == None
    {
      output := [];
      outcome := None;
    }

    /** One event: stdout is appended, stderr only logged; close and a spawn
        failure settle the promise unless it is already settled. */
    method Deliver(e: Event)
      modifies this
      ensures (output, outcome) == Step(old(output), old(outcome), e, ScanClose, SpawnFailure)
    {
      match e
      case Stdout(chunk) =>
        output := output + chunk;
      case Stderr(_) =>
      case Close(_) =>
        if outcome.None? {
          if Contains(output, Marker) {
            outcome := Some(Rejected(IssuesHeader + output));
          } else {
            outcome := Some(Resolved(true));
          }
        }
      case SpawnError(message) =>
        if outcome.None? {
          outcome := Some(Rejected(SpawnFailure + message));
        }
    }
  }

  /** `scanPythonScript`: the promise after the detector process delivered events. */
  method ScanPythonScript(events: seq<Event>) returns (outcome: Option<Settlement<bool>>)
    ensures outcome == Replay(events, ScanClose, SpawnFailure).1
  {
    var run := new ScanRun();
    var i := 0;
    while i < |events|
      invariant 0 <= i <= |events|
      invariant (run.output, run.outcome) == Replay(events[..i], ScanClose, SpawnFailure)
    {
      assert events[..i + 1][..i] == events[..i];
      run.Deliver(events[i]);
      i := i + 1;
    }
    assert events[..i] == events;
    outcome := run.outcome;
  }

  /** The verdict is decided by the first close or spawn error: on close, by the
      stdout chunks before it in arrival order (stderr excluded); a spawn error
      rejects with its message; before either the promise is pending. */
  lemma ScanMeaning(events: seq<Event>)
    ensures var outcome := Replay(events, ScanClose, SpawnFailure).1;
      match FirstSettling(events)
      case None => outcome == None
      case Some(i) =>
        if events[i].Close? then
          outcome == Some(if Contains(StdoutText(events[..i]), Marker)
                          then Rejected(IssuesHeader + StdoutText(events[..i]))
                          else Resolved(true))
        else outcome == Some(Rejected(SpawnFailure + events[i].message))
  {
    ReplayMeaning(events, ScanClose, SpawnFailure);
  }

  // ---------------------------------------------------------------------------
  // What the verdict means for the detector's report

  lemma {:induction false} FirstPassFlagText(path: string, nodes: seq<Detector.Node>)
    ensures Detector.FirstPass(path, nodes).Flag? ==> StartsWith(Detector.FirstPass(path, nodes).text, Marker)
    decreases |nodes|
  {
    if |nodes| > 0 {
      Detector.FindingTexts(path, nodes[0]);
      FirstPassFlagText(path, nodes[1..]);
    }
  }

  lemma {:induction false} SecondPassFlagText(path: string, nodes: seq<Detector.Node>)
    ensures Detector.SecondPass(path, nodes).Flag? ==> StartsWith(Detector.SecondPass(path, nodes).text, Marker)
    decreases |nodes|
  {
    if |nodes| > 0 {
      Detector.FindingTexts(path, nodes[0]);
      SecondPassFlagText(path, nodes[1..]);
    }
  }

  /** Whenever a detector rule fires, the report is rejected. */
  lemma FindingRejects(path: string, nodes: seq<Detector.Node>)
    requires Detector.FirstPass(path, nodes).Flag? ||
             (Detector.FirstPass(path, nodes).Clean? && Detector.SecondPass(path, nodes).Flag?)
    ensures ScanClose(Detector.ScanOutcome(path, Ok(nodes)).1).Rejected?
  {
    FirstPassFlagText(path, nodes);
    SecondPassFlagText(path, nodes);
  }

  /** The detector's own failure line carries no "Warning:", so a scan that raised
      (an unreadable or unparsable file, a call on a receiver without a name) is
      accepted as clean, unless the path or the message themselves hold the marker. */
  lemma CrashIsAccepted(path: string, message: string)
    requires !Contains(path + ": " + message, Marker)
    ensures ScanClose(Detector.ErrorText(path, message)) == Resolved(true)
  {
    assert LacksFrom("Error scanning ", 'W', 0);
    LineAccepted("Error scanning ", path + ": " + message);
    assert Detector.ErrorText(path, message) == "Error scanning " + (path + ": " + message) + "\n";
  }

  /** The all-clear line is accepted, unless the path holds the marker. */
  lemma CleanReportAccepted(path: string)
    requires !Contains(path, Marker)
    ensures ScanClose(Detector.CleanText(path)) == Resolved(true)
  {
    AppendKeepsAbsent(path, '.', Marker);
    CleanLeadLacksMarker();
    LineAccepted(Detector.CleanLead, path + ".");
    assert Detector.CleanText(path) == Detector.CleanLead + (path + ".") + "\n";
  }

  lemma CleanLeadLacksMarker()
    ensures LacksFrom(Detector.CleanLead, 'W', 0)
  {
    FirstHalfLacksMarker();
    SecondHalfLacksMarker();
    LacksConcat("No dangerous functions, obfuscation, ", "or imports detected in ", 'W', 0);
  }

  lemma SecondHalfLacksMarker()
    ensures LacksFrom("or imports detected in ", 'W', 0)
  {
    assert LacksFrom("or imports ", 'W', 0) && LacksFrom("detected in ", 'W', 0);
    LacksConcat("or imports ", "detected in ", 'W', 0);
    assert "or imports " + "detected in " == "or imports detected in ";
  }

  lemma FirstHalfLacksMarker()
    ensures LacksFrom("No dangerous functions, obfuscation, ", 'W', 0)
  {
    assert LacksFrom("No dangerous ", 'W', 0) && LacksFrom("functions, ", 'W', 0);
    assert LacksFrom("obfuscation, ", 'W', 0);
    LacksConcat("No dangerous ", "functions, ", 'W', 0);
    assert "No dangerous " + "functions, " == "No dangerous functions, ";
    LacksConcat("No dangerous functions, ", "obfuscation, ", 'W', 0);
    assert "No dangerous functions, " + "obfuscation, " == "No dangerous functions, obfuscation, ";
  }

  /** A printed line made of a lead-in without a 'W' and a text without the marker. */
  lemma LineAccepted(lead: string, text: string)
    requires LacksFrom(lead, 'W', 0) && !Contains(text, Marker)
    ensures ScanClose(lead + text + "\n") == Resolved(true)
  {
    AppendKeepsAbsent(text, '\n', Marker);
    UnalignedWithoutHead(Marker, lead, 0);
    assert lead[0..] == lead;
    PrependKeepsAbsent(lead, text + "\n", Marker);
    Assoc(lead, text, "\n");
  }

  /** For a path without the marker, the verdict on the detector's report is a
      rejection exactly when a rule fired: a failed scan counts as a pass. */
  lemma VerdictOnReport(path: string, tree: Result<seq<Detector.Node>, string>)
    requires !Contains(path, Marker)
    requires tree.Err? ==> !Contains(path + ": " + tree.error, Marker)
    requires tree.Ok? && Detector.FirstPass(path, tree.value).Crash? ==>
      !Contains(path + ": " + Detector.FirstPass(path, tree.value).message, Marker)
    ensures ScanClose(Detector.ScanOutcome(path, tree).1).Rejected? <==>
      tree.Ok? && (Detector.FirstPass(path, tree.value).Flag? ||
                   (Detector.FirstPass(path, tree.value).Clean? && Detector.SecondPass(path, tree.value).Flag?))
  {
    match tree
    case Err(message) => CrashIsAccepted(path, message);
    case Ok(nodes) =>
      var first := Detector.FirstPass(path, nodes);
      if first.Flag? || (first.Clean? && Detector.SecondPass(path, nodes).Flag?) {
        FindingRejects(path, nodes);
      } else if first.Crash? {
        CrashIsAccepted(path, first.message);
      } else {
        SecondPassNeverCrashes(path, nodes);
        CleanReportAccepted(path);
      }
  }

  lemma {:induction false} SecondPassNeverCrashes(path: string, nodes: seq<Detector.Node>)
    ensures !Detector.SecondPass(path, nodes).Crash?
    decreases |nodes|
  {
    if |nodes| > 0 {
      SecondPassNeverCrashes(path, nodes[1..]);
      match nodes[0]
      case Import(names, line) => Detector.AliasRuleMeaning(path, names, line);
      case ImportFrom(_, names, line) => Detector.AliasRuleMeaning(path, names, line);
      case _ =>
    }
  }
}

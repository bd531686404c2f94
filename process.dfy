/** What a spawned child process delivers to the handlers the system registers on
    it (stdout and stderr chunks, the close event, a spawn failure), and the
    one-shot promise those handlers settle. Both the test runner and the
    detection scan are this shape; they differ in what they conclude on close. */
module Process {
  import opened Wrappers

  datatype Event =
    | Stdout(chunk: string)
    | Stderr(chunk: string)
    | Close(code: int)
    | SpawnError(message: string)

  datatype Settlement<T> = Resolved(value: T) | Rejected(reason: string)

  predicate Settles(e: Event) {
    e.Close? || e.SpawnError?
  }

  /** The stdout chunks, concatenated in arrival order. */
  function StdoutText(events: seq<Event>): string
    decreases |events|
  {
    if |events| == 0 then []
    else
      var last := events[|events| - 1];
      StdoutText(events[..|events| - 1]) + (if last.Stdout? then last.chunk else [])
  }

  /** The position of the first close or spawn-error event. */
  function FirstSettling(events: seq<Event>): (r: Option<nat>)
    ensures r.Some? ==> r.value < |events| && Settles(events[r.value]) &&
                        forall j :: 0 <= j < r.value ==> !Settles(events[j])
    ensures r.None? ==> forall j :: 0 <= j < |events| ==> !Settles(events[j])
    decreases |events|
  {
    if |events| == 0 then None
    else if Settles(events[0]) then Some(0)
    else match FirstSettling(events[1..])
      case None => None
      case Some(i) => Some(i + 1)
  }

  /** The handler state after one event: the output buffer and the promise. A
      resolve or reject after the first one has no effect. */
  function Step<T>(output: string, promise: Option<Settlement<T>>, e: Event,
                   onClose: string -> Settlement<T>, spawnPrefix: string): (string, Option<Settlement<T>>)
  {
    match e
    case Stdout(c) => (output + c, promise)
    case Stderr(_) => (output, promise)
    case Close(_) => (output, if promise.Some? then promise else Some(onClose(output)))
    case SpawnError(m) => (output, if promise.Some? then promise else Some(Rejected(spawnPrefix + m)))
  }

  /** The handler state after a whole sequence of events, from a fresh start. */
  function Replay<T>(events: seq<Event>, onClose: string -> Settlement<T>, spawnPrefix: string)
    : (string, Option<Settlement<T>>)
    decreases |events|
  {
    if |events| == 0 then ([], None)
    else
      var (output, promise) := Replay(events[..|events| - 1], onClose, spawnPrefix);
      Step(output, promise, events[|events| - 1], onClose, spawnPrefix)
  }

  /** How the promise is settled by the event at position i. */
  function SettlementAt<T>(events: seq<Event>, i: nat, onClose: string -> Settlement<T>,
                           spawnPrefix: string): Settlement<T>
    requires i < |events| && Settles(events[i])
  {
    if events[i].Close? then onClose(StdoutText(events[..i]))
    else Rejected(spawnPrefix + events[i].message)
  }

  /** The buffer holds exactly the stdout chunks in arrival order (stderr is never
      added), and the promise holds what the first close or spawn error decided;
      without either it is still pending. */
  lemma {:induction false} ReplayMeaning<T>(events: seq<Event>, onClose: string -> Settlement<T>,
                                           spawnPrefix: string)
    ensures Replay(events, onClose, spawnPrefix).0 == StdoutText(events)
    ensures Replay(events, onClose, spawnPrefix).1 ==
      match FirstSettling(events)
      case None => None
      case Some(i) => Some(SettlementAt(events, i, onClose, spawnPrefix))
    decreases |events|
  {
    if |events| > 0 {
      var n := |events| - 1;
      var init := events[..n];
      ReplayMeaning(init, onClose, spawnPrefix);
      FirstSettlingSnoc(init, events[n]);
      assert init + [events[n]] == events;
      match FirstSettling(init)
      case Some(i) =>
        assert events[..i] == init[..i];
      case None =>
        assert events[..n] == init;
    }
  }

  lemma {:induction false} FirstSettlingSnoc(init: seq<Event>, e: Event)
    ensures FirstSettling(init + [e]) ==
      match FirstSettling(init)
      case Some(i) => Some(i)
      case None => if Settles(e) then Some(|init|) else None
  {
    var all := init + [e];
    assert all[..|init|] == init;
    match FirstSettling(init)
    case Some(i) =>
      assert all[i] == init[i];
      FirstSettlingUnique(all, i);
    case None =>
      if Settles(e) {
        FirstSettlingUnique(all, |init|);
      } else {
        FirstSettlingNone(all);
      }
  }

  lemma FirstSettlingUnique(events: seq<Event>, i: nat)
    requires i < |events| && Settles(events[i]) && forall j :: 0 <= j < i ==> !Settles(events[j])
    ensures FirstSettling(events) == Some(i)
  {
  }

  lemma FirstSettlingNone(events: seq<Event>)
    requires forall j :: 0 <= j < |events| ==> !Settles(events[j])
    ensures FirstSettling(events) == None
  {
  }

  /** The close handler never looks at the exit code. */
  lemma ExitCodeIgnored<T>(output: string, promise: Option<Settlement<T>>, c1: int, c2: int,
                           onClose: string -> Settlement<T>, spawnPrefix: string)
    ensures Step(output, promise, Close(c1), onClose, spawnPrefix) ==
            Step(output, promise, Close(c2), onClose, spawnPrefix)
  {
  }
}

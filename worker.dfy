/**
 * The execution worker's job handler: look the target up, broadcast
 * `running`, relay every output of the runner, broadcast one terminal status,
 * and fail the job when the target is missing or the runner rejected.
 *
 * The broadcast channel is a log of the events sent on it. The runner is an
 * abstract trace: the callbacks it made, in order, and how its promise settled.
 */
module ExecutionWorker {
  import opened Wrappers
  import SshSession

  /** The status values of an execution. */
  datatype Status = Pending | Running | Success | Error

  /** `broadcast('status', {vmId, status})` and `broadcast('output', {vmId, data})`. */
  datatype Broadcast = StatusChange(vmId: string, status: Status) | OutputEvent(vmId: string, data: string)

  /** A callback the runner made: `onOutput(data)` or `onError(data)`. */
  datatype Callback = OnOutput(data: string) | OnError(data: string)

  /** What the runner did for one job: its callbacks, then its settlement. */
  datatype RunnerTrace = RunnerTrace(callbacks: seq<Callback>, outcome: SshSession.Settlement)

  /** How the job ends: completed, or failed with the error's message. */
  datatype JobOutcome = Completed | Failed(message: string)

  /** The process-wide broadcast channel, as the events sent on it. */
  class Channel {
    var sent: seq<Broadcast>

    constructor ()
      ensures sent == []
    {
      sent := [];
    }

    method Send(e: Broadcast)
      modifies this
      ensures sent == old(sent) + [e]
    {
      sent := sent + [e];
    }
  }

  function NotFoundMessage(vmId: string): string {
    "VM not found: " + vmId
  }

  /** Both callbacks become an `output` event with the target's id and the data;
      stdout and stderr are not told apart. */
  function Relay(id: string, callbacks: seq<Callback>): (r: seq<Broadcast>)
    ensures |r| == |callbacks|
    ensures forall i :: 0 <= i < |callbacks| ==> r[i] == OutputEvent(id, callbacks[i].data)
    decreases |callbacks|
  {
    if callbacks == [] then []
    else Relay(id, callbacks[..|callbacks| - 1]) + [OutputEvent(id, callbacks[|callbacks| - 1].data)]
  }

  /** `success` after the runner resolved, `error` after it rejected. */
  function TerminalStatus(outcome: SshSession.Settlement): (r: Status)
    ensures r == Success <==> outcome.Resolved?
    ensures r == Error <==> outcome.Rejected?
  {
    if outcome.Resolved? then Success else Error
  }

  /** The events one job broadcasts: none for a missing target, otherwise one
      per callback and two statuses. */
  function JobEvents(lookup: Option<SshSession.Vm>, run: RunnerTrace): (r: seq<Broadcast>)
    ensures r == [] <==> lookup.None?
    ensures lookup.Some? ==> |r| == |run.callbacks| + 2
  {
    match lookup
    case None => []
    case Some(vm) =>
      [StatusChange(vm.id, Running)] + Relay(vm.id, run.callbacks) + [StatusChange(vm.id, TerminalStatus(run.outcome))]
  }

  /** How the job ends: a missing target and a rejected runner both fail it;
      the rejection is rethrown unchanged. */
  function JobResult(vmId: string, lookup: Option<SshSession.Vm>, run: RunnerTrace): (r: JobOutcome)
    ensures r.Failed? <==> lookup.None? || run.outcome.Rejected?
    ensures lookup.None? ==> r == Failed(NotFoundMessage(vmId))
    ensures lookup.Some? && run.outcome.Rejected? ==> r.message == run.outcome.message
  {
    if lookup.None? then Failed(NotFoundMessage(vmId))
    else if run.outcome.Rejected? then Failed(run.outcome.message)
    else Completed
  }

  /**
   * The job handler for a job naming `vmId`: `lookup` is what the target store
   * returned for it and `run` is what the runner did once invoked.
   */
  method HandleJob(channel: Channel, vmId: string, lookup: Option<SshSession.Vm>, run: RunnerTrace)
    returns (outcome: JobOutcome)
    modifies channel
    ensures channel.sent == old(channel.sent) + JobEvents(lookup, run)
    ensures outcome == JobResult(vmId, lookup, run)
  {
    if lookup.None? {
      return Failed(NotFoundMessage(vmId));
    }
    var vm := lookup.value;
    channel.Send(StatusChange(vm.id, Running));
    // The runner invokes one of the two callbacks for each piece of output.
    ghost var before := channel.sent;
    var callbacks := run.callbacks;
    var i := 0;
    while i < |callbacks|
      invariant 0 <= i <= |callbacks|
      invariant channel.sent == before + Relay(vm.id, callbacks[..i])
    {
      assert callbacks[..i + 1][..i] == callbacks[..i];
      channel.Send(OutputEvent(vm.id, callbacks[i].data));
      i := i + 1;
    }
    assert callbacks[..i] == callbacks;
    channel.Send(StatusChange(vm.id, TerminalStatus(run.outcome)));
    outcome := if run.outcome.Resolved? then Completed else Failed(run.outcome.message);
  }

  // ---------------------------------------------------------------------
  // Properties of a job's events
  // ---------------------------------------------------------------------

  predicate IsTerminal(e: Broadcast) {
    e.StatusChange? && (e.status == Success || e.status == Error)
  }

  /** The order every job keeps on the channel: `running`, then outputs only,
      then one terminal status, all carrying the job's target id. */
  predicate WellOrdered(id: string, events: seq<Broadcast>) {
    && |events| >= 2
    && events[0] == StatusChange(id, Running)
    && (forall i :: 0 < i < |events| - 1 ==> events[i].OutputEvent? && events[i].vmId == id)
    && IsTerminal(events[|events| - 1]) && events[|events| - 1].vmId == id
  }

  /** A missing target broadcasts nothing, not even a status, and fails the job. */
  lemma NotFoundBroadcastsNothing(vmId: string, run: RunnerTrace)
    ensures JobEvents(None, run) == []
    ensures JobResult(vmId, None, run) == Failed("VM not found: " + vmId)
  {
  }

  /** A found target's events are well ordered: `running` comes before the
      runner's first output, and exactly one terminal status ends them. */
  lemma FoundJobWellOrdered(vm: SshSession.Vm, run: RunnerTrace)
    ensures WellOrdered(vm.id, JobEvents(Some(vm), run))
    ensures |JobEvents(Some(vm), run)| == |run.callbacks| + 2
  {
    var ev := JobEvents(Some(vm), run);
    var relay := Relay(vm.id, run.callbacks);
    forall i | 0 < i < |ev| - 1 ensures ev[i].OutputEvent? && ev[i].vmId == vm.id {
      assert ev[i] == relay[i - 1];
    }
  }

  /** Every callback is relayed, in order and unchanged, as the events between
      `running` and the terminal status. */
  lemma OutputsRelayed(vm: SshSession.Vm, run: RunnerTrace)
    ensures forall i :: 0 <= i < |run.callbacks| ==>
      JobEvents(Some(vm), run)[i + 1] == OutputEvent(vm.id, run.callbacks[i].data)
  {
    var relay := Relay(vm.id, run.callbacks);
    forall i | 0 <= i < |run.callbacks|
      ensures JobEvents(Some(vm), run)[i + 1] == OutputEvent(vm.id, run.callbacks[i].data)
    {
      assert JobEvents(Some(vm), run)[i + 1] == relay[i];
    }
  }

  /** Exactly one terminal status per found job, and it is the last event. */
  lemma ExactlyOneTerminal(vm: SshSession.Vm, run: RunnerTrace)
    ensures forall i :: 0 <= i < |JobEvents(Some(vm), run)| ==>
      (IsTerminal(JobEvents(Some(vm), run)[i]) <==> i == |JobEvents(Some(vm), run)| - 1)
  {
    FoundJobWellOrdered(vm, run);
  }

  /** The terminal status is `success` exactly when the runner resolved, and
      `error` exactly when it rejected. */
  lemma TerminalMatchesRunner(vm: SshSession.Vm, run: RunnerTrace)
    ensures var ev := JobEvents(Some(vm), run);
      (ev[|ev| - 1] == StatusChange(vm.id, Success) <==> run.outcome.Resolved?) &&
      (ev[|ev| - 1] == StatusChange(vm.id, Error) <==> run.outcome.Rejected?)
  {
  }

  /** The job fails exactly when its target was missing or its status is `error`. */
  lemma FailureIff(vmId: string, lookup: Option<SshSession.Vm>, run: RunnerTrace)
    ensures JobResult(vmId, lookup, run).Failed? <==>
      (lookup.None? || StatusChange(lookup.value.id, Error) in JobEvents(lookup, run))
  {
    if lookup.Some? {
      var vm := lookup.value;
      var ev := JobEvents(lookup, run);
      FoundJobWellOrdered(vm, run);
      if StatusChange(vm.id, Error) in ev {
        var i :| 0 <= i < |ev| && ev[i] == StatusChange(vm.id, Error);
        assert IsTerminal(ev[i]);
        assert i == |ev| - 1;
      }
    }
  }

  /** Every event of a job carries the fetched record's id. */
  lemma PayloadId(lookup: Option<SshSession.Vm>, run: RunnerTrace)
    ensures lookup.Some? ==> forall e :: e in JobEvents(lookup, run) ==> e.vmId == lookup.value.id
  {
    if lookup.Some? {
      FoundJobWellOrdered(lookup.value, run);
    }
  }

  // ---------------------------------------------------------------------
  // A session as the runner trace the worker sees
  // ---------------------------------------------------------------------

  /** The callbacks among a session's actions, in order: every `onOutput`
      and `onError` action becomes one callback, and nothing else does. */
  function CallbacksOf(log: seq<SshSession.Action>): (r: seq<Callback>)
    ensures |r| <= |log|
    ensures forall c :: c in r ==>
      (c.OnOutput? && SshSession.Output(c.data) in log) || (c.OnError? && SshSession.ErrorOutput(c.data) in log)
    ensures forall t :: SshSession.Output(t) in log ==> OnOutput(t) in r
    ensures forall t :: SshSession.ErrorOutput(t) in log ==> OnError(t) in r
    decreases |log|
  {
    if log == [] then []
    else
      match log[0]
      case Output(text) => [OnOutput(text)] + CallbacksOf(log[1..])
      case ErrorOutput(text) => [OnError(text)] + CallbacksOf(log[1..])
      case _ => CallbacksOf(log[1..])
  }

  /** The callbacks keep the actions' order: those of a concatenation are the
      first part's, then the second part's. */
  lemma {:induction false} CallbacksOfConcat(a: seq<SshSession.Action>, b: seq<SshSession.Action>)
    ensures CallbacksOf(a + b) == CallbacksOf(a) + CallbacksOf(b)
    decreases |a|
  {
    if a == [] {
      assert a + b == b;
    } else {
      assert (a + b)[0] == a[0];
      assert (a + b)[1..] == a[1..] + b;
      CallbacksOfConcat(a[1..], b);
    }
  }

  /** The events of a session up to and including the one that settles its promise. */
  function UpToSettlement(events: seq<SshSession.TransportEvent>): seq<SshSession.TransportEvent>
    decreases |events|
  {
    if events == [] then []
    else if SshSession.SettlementOf(events[0]).Some? then [events[0]]
    else [events[0]] + UpToSettlement(events[1..])
  }

  /** What the worker awaits: the session's callbacks until its promise settled, and the settlement. */
  function SessionRun(tag: string, command: string, events: seq<SshSession.TransportEvent>): RunnerTrace
    requires SshSession.FirstSettlement(events).Some?
  {
    RunnerTrace(CallbacksOf(SshSession.LogOf(tag, command, UpToSettlement(events))), SshSession.FirstSettlement(events).value)
  }

  /** End to end: when the connection comes up, the job's first output event
      is the session's connected line, right after `running`. */
  lemma ConnectedLineFollowsRunning(vm: SshSession.Vm, command: string, events: seq<SshSession.TransportEvent>)
    requires SshSession.Accepts(events) && SshSession.FirstSettlement(events).Some?
    requires !events[0].ConnectionError?
    ensures var ev := JobEvents(Some(vm), SessionRun(SshSession.Label(vm), command, events));
      ev[0] == StatusChange(vm.id, Running) &&
      ev[1] == OutputEvent(vm.id, SshSession.ConnectedLine(SshSession.Label(vm)))
  {
    var tag := SshSession.Label(vm);
    SshSession.ReadyIsFirstCallback(tag, command, events);
    var upTo := UpToSettlement(events);
    assert upTo == [SshSession.Ready] + UpToSettlement(events[1..]);
    assert upTo[0] == SshSession.Ready && upTo[1..] == UpToSettlement(events[1..]);
    var log := SshSession.LogOf(tag, command, upTo);
    assert log[0] == SshSession.Output(SshSession.ConnectedLine(tag));
    assert CallbacksOf(log)[0] == OnOutput(SshSession.ConnectedLine(tag));
    OutputsRelayed(vm, SessionRun(tag, command, events));
  }

  /** End to end: the job succeeds exactly when the session's first settling
      event is the stream's close; the exit code plays no part. */
  lemma {:induction false} SessionSuccessIffClosedFirst(events: seq<SshSession.TransportEvent>)
    requires SshSession.FirstSettlement(events).Some?
    ensures var last := UpToSettlement(events)[|UpToSettlement(events)| - 1];
      |UpToSettlement(events)| > 0 &&
      (SshSession.FirstSettlement(events) == Some(SshSession.Resolved) <==> last.StreamClosed?)
    decreases |events|
  {
    if SshSession.SettlementOf(events[0]).None? {
      SessionSuccessIffClosedFirst(events[1..]);
    }
  }

  /** A connection error can settle the promise while the stream is still
      open: the transport may still deliver a chunk and the close after it,
      and the session relays them, but the job's run has already ended. */
  lemma LateStreamAfterConnectionError(tag: string, command: string)
    ensures var t := LateStreamTrace();
      SshSession.Accepts(t) &&
      SshSession.FirstSettlement(t) == Some(SshSession.Rejected("reset")) &&
      UpToSettlement(t) == t[..3] &&
      OnOutput(SshSession.StdoutLine(tag, "y")) in CallbacksOf(SshSession.LogOf(tag, command, t)) &&
      OnOutput(SshSession.StdoutLine(tag, "y")) !in SessionRun(tag, command, t).callbacks
  {
    LateStreamSettles();
    LateStreamLogs(tag, command);
    var stdout := SshSession.StdoutLine(tag, "y");
    var upTo := SshSession.LogOf(tag, command, LateStreamTrace()[..3]);
    var connected := SshSession.ConnectedLine(tag);
    var reset := SshSession.ConnectionErrorLine(tag, "reset");
    CallbacksOfConnectedExecError(connected, command, reset);
    assert |stdout| != |connected|;
  }

  lemma CallbacksOfConnectedExecError(connected: string, command: string, failure: string)
    ensures CallbacksOf([SshSession.Output(connected), SshSession.Exec(command), SshSession.ErrorOutput(failure)])
      == [OnOutput(connected), OnError(failure)]
  {
    var log := [SshSession.Output(connected), SshSession.Exec(command), SshSession.ErrorOutput(failure)];
    assert log[1..][1..][1..] == [];
  }

  /** The trace `ready`, exec started, a connection error, a stdout chunk, close. */
  function LateStreamTrace(): seq<SshSession.TransportEvent> {
    [SshSession.Ready, SshSession.ExecStarted, SshSession.ConnectionError("reset"),
     SshSession.StdoutData("y"), SshSession.StreamClosed(0)]
  }

  lemma LateStreamSettles()
    ensures SshSession.Accepts(LateStreamTrace())
    ensures SshSession.FirstSettlement(LateStreamTrace()) == Some(SshSession.Rejected("reset"))
    ensures UpToSettlement(LateStreamTrace()) == LateStreamTrace()[..3]
  {
    var t := LateStreamTrace();
    assert t[..4][..3] == t[..3] && t[..3][..2] == t[..2] && t[..2][..1] == t[..1] && t[..1][..0] == [];
    assert t[..5] == t;
    assert SshSession.Accepts(t[..1]);
    assert SshSession.Accepts(t[..2]);
    assert SshSession.Accepts(t[..3]);
    assert SshSession.Accepts(t[..4]);
    assert t[1..][1..] == t[2..];
    assert UpToSettlement(t[2..]) == [t[2]];
  }

  lemma LateStreamLogs(tag: string, command: string)
    ensures SshSession.LogOf(tag, command, LateStreamTrace()[..3]) ==
      [SshSession.Output(SshSession.ConnectedLine(tag)), SshSession.Exec(command),
       SshSession.ErrorOutput(SshSession.ConnectionErrorLine(tag, "reset"))]
    ensures SshSession.Output(SshSession.StdoutLine(tag, "y")) in SshSession.LogOf(tag, command, LateStreamTrace())
  {
    var t := LateStreamTrace();
    var prefix := t[..3];
    assert prefix[1..][1..][1..] == [];
    assert t[1..][1..][1..] == t[3..];
    assert SshSession.LogOf(tag, command, t[3..])[0] == SshSession.Output(SshSession.StdoutLine(tag, "y"));
  }
}

/**
 * One remote-shell session of the runner: the callbacks registered on the
 * connection and on the command's stream, the lines they pass to `onOutput`
 * and `onError`, the calls they make on the connection, and the one-shot
 * promise they settle.
 *
 * The transport is abstract: each of its events is a method of `Session`,
 * and a method may be called only when the transport can deliver that event
 * (`Enabled`). A ghost trace of the delivered events ties the session's state
 * to three definitions over the trace: the phase reached (`PhaseAfter`), the
 * actions taken, which are the concatenation of what each event's handler does
 * (`LogOf`), and the promise's value, which is what the first settling event
 * gives it (`FirstSettlement`).
 */
module SshSession {
  import opened Wrappers
  import Render

  /** A target machine record, as the target store returns it. */
  datatype Vm = Vm(id: string, name: string, ip: string, username: string, password: Option<string>, port: int)

  /** `vm.name || vm.ip`: the prefix of every line of the session. An empty
      name falls back to the address, so the label is empty only when both are. */
  function Label(vm: Vm): (r: string)
    ensures vm.name != "" ==> r == vm.name
    ensures vm.name == "" ==> r == vm.ip
    ensures r == "" <==> vm.name == "" && vm.ip == ""
  {
    if vm.name != "" then vm.name else vm.ip
  }

  /** What a handler does, in order: a call of `onOutput`, a call of
      `onError`, `conn.exec(command)` or `conn.end()`. */
  datatype Action = Output(text: string) | ErrorOutput(text: string) | Exec(command: string) | EndConnection

  /** The value the promise settles to. */
  datatype Settlement = Resolved | Rejected(message: string)

  /** What the transport can deliver: the connection's `ready`, the callback
      of `exec` with or without an error, a stdout or stderr chunk, the
      stream's `close` with the exit code, and the connection's `error`. */
  datatype TransportEvent =
    | Ready
    | ExecStarted
    | ExecFailed(message: string)
    | StdoutData(chunk: string)
    | StderrData(chunk: string)
    | StreamClosed(code: int)
    | ConnectionError(message: string)

  /** Connecting: waiting for `ready`; AwaitingExec: `exec` issued, its
      callback pending; Streaming: the stream's handlers are registered;
      Finished: the exec failed or the stream closed. */
  datatype Phase = Connecting | AwaitingExec | Streaming | Finished

  // ---------------------------------------------------------------------
  // Decimal rendering of the exit code (`${code}`)
  // ---------------------------------------------------------------------

  function DigitChar(d: nat): char
    requires d < 10
  {
    ('0' as int + d) as char
  }

  function NatToDecimal(n: nat): (r: string)
    ensures |r| > 0 && forall k :: 0 <= k < |r| ==> '0' <= r[k] <= '9'
    ensures n > 0 ==> r[0] != '0'
    decreases n
  {
    if n < 10 then [DigitChar(n)] else NatToDecimal(n / 10) + [DigitChar(n % 10)]
  }

  /** How a JavaScript template literal writes an integral number; the
      number can be read back from it. */
  function IntToDecimal(n: int): (r: string)
    ensures |r| > 0 && ParseInt(r) == n
  {
    if n < 0 then
      NatDecimalRoundTrip(-n);
      assert ("-" + NatToDecimal(-n))[1..] == NatToDecimal(-n);
      "-" + NatToDecimal(-n)
    else
      NatDecimalRoundTrip(n);
      NatToDecimal(n)
  }

  /** The value of a string of decimal digits. */
  function ParseNat(s: string): int
    decreases |s|
  {
    if s == [] then 0 else ParseNat(s[..|s| - 1]) * 10 + (s[|s| - 1] as int - '0' as int)
  }

  /** The value of an optionally signed decimal numeral. */
  function ParseInt(s: string): int {
    if |s| > 0 && s[0] == '-' then -ParseNat(s[1..]) else ParseNat(s)
  }

  lemma {:induction false} NatDecimalRoundTrip(n: nat)
    ensures ParseNat(NatToDecimal(n)) == n
    decreases n
  {
    if n >= 10 {
      NatDecimalRoundTrip(n / 10);
      var s := NatToDecimal(n);
      assert s[..|s| - 1] == NatToDecimal(n / 10);
    }
  }

  // ---------------------------------------------------------------------
  // The lines the handlers emit
  // ---------------------------------------------------------------------

  function ConnectedLine(tag: string): string {
    "[" + tag + "] Connected.\n"
  }

  function ExecErrorLine(tag: string, message: string): string {
    "[" + tag + "] Error: " + message + "\n"
  }

  function StdoutLine(tag: string, chunk: string): string {
    "[" + tag + "] STDOUT: " + chunk
  }

  function StderrLine(tag: string, chunk: string): string {
    "[" + tag + "] STDERR: " + chunk
  }

  function ClosedLine(tag: string, code: int): string {
    "[" + tag + "] Connection closed (Code: " + IntToDecimal(code) + ").\n"
  }

  function ConnectionErrorLine(tag: string, message: string): string {
    "[" + tag + "] Connection Error: " + message + "\n"
  }

  lemma MiddlesEqual(a: string, m1: string, m2: string, b: string)
    requires a + m1 + b == a + m2 + b
    ensures m1 == m2
  {
    var s := a + m1 + b;
    assert |m1| == |m2|;
    assert m1 == s[|a|..|a| + |m1|];
    assert m2 == (a + m2 + b)[|a|..|a| + |m2|];
  }

  /** Different exit codes give different close lines: the line reports the code exactly. */
  lemma ClosedLineDeterminesCode(tag: string, c1: int, c2: int)
    requires ClosedLine(tag, c1) == ClosedLine(tag, c2)
    ensures c1 == c2
  {
    MiddlesEqual("[" + tag + "] Connection closed (Code: ", IntToDecimal(c1), IntToDecimal(c2), ").\n");
  }

  // ---------------------------------------------------------------------
  // The protocol, as definitions over the trace of delivered events
  // ---------------------------------------------------------------------

  /** The events the transport can deliver in each phase. The connection's
      `error` handler stays registered for the whole session. */
  predicate Enabled(p: Phase, e: TransportEvent) {
    match e
    case Ready => p == Connecting
    case ExecStarted => p == AwaitingExec
    case ExecFailed(_) => p == AwaitingExec
    case StdoutData(_) => p == Streaming
    case StderrData(_) => p == Streaming
    case StreamClosed(_) => p == Streaming
    case ConnectionError(_) => true
  }

  function NextPhase(p: Phase, e: TransportEvent): Phase {
    match e
    case Ready => AwaitingExec
    case ExecStarted => Streaming
    case ExecFailed(_) => Finished
    case StreamClosed(_) => Finished
    case _ => p
  }

  function PhaseAfter(events: seq<TransportEvent>): Phase
    decreases |events|
  {
    if events == [] then Connecting
    else NextPhase(PhaseAfter(events[..|events| - 1]), events[|events| - 1])
  }

  /** Every event of the trace was deliverable when it came. */
  predicate Accepts(events: seq<TransportEvent>)
    decreases |events|
  {
    events == [] ||
    (Accepts(events[..|events| - 1]) && Enabled(PhaseAfter(events[..|events| - 1]), events[|events| - 1]))
  }

  /** What the handler of one event does. Every handler but the exec
      callback's success path reports one line first; only `ready` runs the
      command; only a failed exec and a close end the connection; a rejecting
      handler reports on the error output. */
  function Emit(tag: string, command: string, e: TransportEvent): (r: seq<Action>)
    ensures r == [] <==> e.ExecStarted?
    ensures r != [] ==> r[0].Output? || r[0].ErrorOutput?
    ensures Exec(command) in r <==> e.Ready?
    ensures EndConnection in r <==> e.ExecFailed? || e.StreamClosed?
    ensures SettlementOf(e) == Some(Resolved) ==> r[0].Output?
    ensures SettlementOf(e).Some? && SettlementOf(e).value.Rejected? ==> r[0].ErrorOutput?
  {
    match e
    case Ready => [Output(ConnectedLine(tag)), Exec(command)]
    case ExecStarted => []
    case ExecFailed(m) => [ErrorOutput(ExecErrorLine(tag, m)), EndConnection]
    case StdoutData(c) => [Output(StdoutLine(tag, c))]
    case StderrData(c) => [ErrorOutput(StderrLine(tag, c))]
    case StreamClosed(code) => [Output(ClosedLine(tag, code)), EndConnection]
    case ConnectionError(m) => [ErrorOutput(ConnectionErrorLine(tag, m))]
  }

  /** The settlement a handler asks for, if any. */
  function SettlementOf(e: TransportEvent): Option<Settlement> {
    match e
    case ExecFailed(m) => Some(Rejected(m))
    case StreamClosed(_) => Some(Resolved)
    case ConnectionError(m) => Some(Rejected(m))
    case _ => None
  }

  /** Everything the handlers do over a trace: their actions, in arrival order. */
  function LogOf(tag: string, command: string, events: seq<TransportEvent>): seq<Action>
    decreases |events|
  {
    if events == [] then [] else Emit(tag, command, events[0]) + LogOf(tag, command, events[1..])
  }

  /** A promise settles once: the first settling event decides its value. */
  function FirstSettlement(events: seq<TransportEvent>): Option<Settlement>
    decreases |events|
  {
    if events == [] then None
    else if SettlementOf(events[0]).Some? then SettlementOf(events[0])
    else FirstSettlement(events[1..])
  }

  // ---------------------------------------------------------------------
  // The session
  // ---------------------------------------------------------------------

  class Session {
    /** `vm.name || vm.ip`. */
    const tag: string
    /** The rendered command. */
    const command: string
    var phase: Phase
    /** The handlers' actions so far. */
    var log: seq<Action>
    /** The promise: None while pending. */
    var settled: Option<Settlement>
    /** The events delivered so far. */
    ghost var events: seq<TransportEvent>

    ghost predicate Valid()
      reads this
    {
      && Accepts(events)
      && phase == PhaseAfter(events)
      && log == LogOf(tag, command, events)
      && settled == FirstSettlement(events)
    }

    /** Creating the promise renders the command and starts connecting;
        no handler has run yet. */
    constructor (vm: Vm, template: string)
      ensures Valid() && events == []
      ensures tag == Label(vm) && command == Render.RenderCommand(template, vm.password)
      ensures phase == Connecting && log == [] && settled == None
    {
      tag := Label(vm);
      command := Render.RenderCommand(template, vm.password);
      phase := Connecting;
      log := [];
      settled := None;
      events := [];
    }

    /** Records one more delivered event; the caller has updated every field. */
    ghost method Record(e: TransportEvent)
      requires Accepts(events) && Enabled(PhaseAfter(events), e)
      requires phase == NextPhase(PhaseAfter(events), e)
      requires log == LogOf(tag, command, events) + Emit(tag, command, e)
      requires settled == (if FirstSettlement(events).Some? then FirstSettlement(events) else SettlementOf(e))
      modifies this`events
      ensures Valid() && events == old(events) + [e]
    {
      LogOfAppend(tag, command, events, [e]);
      FirstSettlementAppend(events, e);
      assert (events + [e])[..|events|] == events;
      events := events + [e];
    }

    /** `conn.on('ready')`: report the connection, then issue the command. */
    method OnReady()
      requires Valid() && phase == Connecting
      modifies this
      ensures Valid() && events == old(events) + [Ready]
      ensures log == old(log) + [Output(ConnectedLine(tag)), Exec(command)]
      ensures phase == AwaitingExec && settled == old(settled)
    {
      log := log + [Output(ConnectedLine(tag))];
      log := log + [Exec(command)];
      phase := AwaitingExec;
      Record(Ready);
    }

    /** The `exec` callback without an error: the stream's handlers are registered. */
    method OnExecStarted()
      requires Valid() && phase == AwaitingExec
      modifies this
      ensures Valid() && events == old(events) + [ExecStarted]
      ensures log == old(log) && phase == Streaming && settled == old(settled)
    {
      phase := Streaming;
      Record(ExecStarted);
    }

    /** The `exec` callback with an error: report it, end the connection, reject. */
    method OnExecFailed(message: string)
      requires Valid() && phase == AwaitingExec
      modifies this
      ensures Valid() && events == old(events) + [ExecFailed(message)]
      ensures log == old(log) + [ErrorOutput(ExecErrorLine(tag, message)), EndConnection]
      ensures phase == Finished
      ensures settled == if old(settled).None? then Some(Rejected(message)) else old(settled)
    {
      log := log + [ErrorOutput(ExecErrorLine(tag, message))];
      log := log + [EndConnection];
      if settled.None? {
        settled := Some(Rejected(message));
      }
      phase := Finished;
      Record(ExecFailed(message));
    }

    /** The stream's `data`: a stdout chunk goes to `onOutput`. */
    method OnStdout(chunk: string)
      requires Valid() && phase == Streaming
      modifies this
      ensures Valid() && events == old(events) + [StdoutData(chunk)]
      ensures log == old(log) + [Output(StdoutLine(tag, chunk))]
      ensures phase == old(phase) && settled == old(settled)
    {
      log := log + [Output(StdoutLine(tag, chunk))];
      Record(StdoutData(chunk));
    }

    /** The stderr stream's `data`: a stderr chunk goes to `onError`. */
    method OnStderr(chunk: string)
      requires Valid() && phase == Streaming
      modifies this
      ensures Valid() && events == old(events) + [StderrData(chunk)]
      ensures log == old(log) + [ErrorOutput(StderrLine(tag, chunk))]
      ensures phase == old(phase) && settled == old(settled)
    {
      log := log + [ErrorOutput(StderrLine(tag, chunk))];
      Record(StderrData(chunk));
    }

    /** The stream's `close`: report the exit code, end the connection and
        resolve, whatever the code. */
    method OnClose(code: int)
      requires Valid() && phase == Streaming
      modifies this
      ensures Valid() && events == old(events) + [StreamClosed(code)]
      ensures log == old(log) + [Output(ClosedLine(tag, code)), EndConnection]
      ensures phase == Finished
      ensures settled == if old(settled).None? then Some(Resolved) else old(settled)
    {
      log := log + [Output(ClosedLine(tag, code))];
      log := log + [EndConnection];
      if settled.None? {
        settled := Some(Resolved);
      }
      phase := Finished;
      Record(StreamClosed(code));
    }

    /** The connection's `error`: report it and reject; nothing is retried
        and the connection is not ended. */
    method OnConnectionError(message: string)
      requires Valid()
      modifies this
      ensures Valid() && events == old(events) + [ConnectionError(message)]
      ensures log == old(log) + [ErrorOutput(ConnectionErrorLine(tag, message))]
      ensures phase == old(phase)
      ensures settled == if old(settled).None? then Some(Rejected(message)) else old(settled)
    {
      log := log + [ErrorOutput(ConnectionErrorLine(tag, message))];
      if settled.None? {
        settled := Some(Rejected(message));
      }
      Record(ConnectionError(message));
    }
  }

  // ---------------------------------------------------------------------
  // Properties of the protocol
  // ---------------------------------------------------------------------

  /** The handlers' actions over two pieces of a trace are those of the first
      piece followed by those of the second. */
  lemma {:induction false} LogOfAppend(tag: string, command: string, a: seq<TransportEvent>, b: seq<TransportEvent>)
    ensures LogOf(tag, command, a + b) == LogOf(tag, command, a) + LogOf(tag, command, b)
    decreases |a|
  {
    if a == [] {
      assert a + b == b;
    } else {
      assert (a + b)[0] == a[0];
      assert (a + b)[1..] == a[1..] + b;
      LogOfAppend(tag, command, a[1..], b);
    }
  }

  /** One more event settles the promise only if it is still pending. */
  lemma {:induction false} FirstSettlementAppend(events: seq<TransportEvent>, e: TransportEvent)
    ensures FirstSettlement(events + [e]) ==
      if FirstSettlement(events).Some? then FirstSettlement(events) else SettlementOf(e)
    decreases |events|
  {
    if events == [] {
      assert [] + [e] == [e];
      assert [e][1..] == [];
    } else {
      assert (events + [e])[0] == events[0];
      assert (events + [e])[1..] == events[1..] + [e];
      FirstSettlementAppend(events[1..], e);
    }
  }

  /** The first settlement wins: later events never change a settled promise. */
  lemma {:induction false} SettlesAtMostOnce(a: seq<TransportEvent>, b: seq<TransportEvent>)
    requires FirstSettlement(a).Some?
    ensures FirstSettlement(a + b) == FirstSettlement(a)
    decreases |a|
  {
    assert a != [];
    assert (a + b)[0] == a[0];
    if SettlementOf(a[0]).None? {
      assert (a + b)[1..] == a[1..] + b;
      SettlesAtMostOnce(a[1..], b);
    }
  }

  /** The promise is settled exactly when some delivered event settles it:
      an exec failure, a close or a connection error. */
  lemma {:induction false} SettledIff(events: seq<TransportEvent>)
    ensures FirstSettlement(events).Some? <==> exists k :: 0 <= k < |events| && SettlementOf(events[k]).Some?
    decreases |events|
  {
    if events != [] {
      SettledIff(events[1..]);
      if FirstSettlement(events).Some? && SettlementOf(events[0]).None? {
        var k :| 0 <= k < |events[1..]| && SettlementOf(events[1..][k]).Some?;
        assert SettlementOf(events[k + 1]).Some?;
      }
      if exists k :: 0 <= k < |events| && SettlementOf(events[k]).Some? {
        var k :| 0 <= k < |events| && SettlementOf(events[k]).Some?;
        if k > 0 {
          assert SettlementOf(events[1..][k - 1]).Some?;
        }
      }
    }
  }

  /** The settlement a trace reaches is decided at its first settling event:
      a close resolves (for every exit code), an exec failure or a connection
      error rejects with its message, unless an earlier event settled it. */
  lemma SettlementAt(events: seq<TransportEvent>, k: nat)
    requires k < |events| && SettlementOf(events[k]).Some?
    ensures FirstSettlement(events) ==
      if FirstSettlement(events[..k]).Some? then FirstSettlement(events[..k]) else SettlementOf(events[k])
  {
    FirstSettlementAppend(events[..k], events[k]);
    assert events[..k] + [events[k]] == events[..k + 1];
    SettlesAtMostOnce(events[..k + 1], events[k + 1..]);
    assert events[..k + 1] + events[k + 1..] == events;
  }

  /** Prefixes of an accepted trace are accepted. */
  lemma {:induction false} AcceptsPrefix(events: seq<TransportEvent>, n: nat)
    requires Accepts(events) && n <= |events|
    ensures Accepts(events[..n])
    decreases |events|
  {
    if n < |events| {
      AcceptsPrefix(events[..|events| - 1], n);
      assert events[..|events| - 1][..n] == events[..n];
    } else {
      assert events[..n] == events;
    }
  }

  /** Only `ready` leaves Connecting: every later phase has seen it. */
  lemma {:induction false} ReadySeen(events: seq<TransportEvent>)
    requires Accepts(events) && PhaseAfter(events) != Connecting
    ensures Ready in events
    decreases |events|
  {
    var pre := events[..|events| - 1];
    var last := events[|events| - 1];
    if last != Ready {
      assert PhaseAfter(pre) != Connecting;
      ReadySeen(pre);
      assert forall e :: e in pre ==> e in events;
    }
  }

  /** The first callback of a session is `onOutput("[tag] Connected.\n")`,
      unless the connection failed first. */
  lemma ReadyIsFirstCallback(tag: string, command: string, events: seq<TransportEvent>)
    requires Accepts(events) && |events| > 0 && !events[0].ConnectionError?
    ensures events[0] == Ready
    ensures LogOf(tag, command, events)[0] == Output(ConnectedLine(tag))
  {
    AcceptsPrefix(events, 1);
    assert events[..1] == [events[0]];
    assert events[..1][..0] == [];
  }

  /** A `ready` delivered in a trace puts the connected line in its actions. */
  lemma {:induction false} ReadyLogsConnected(tag: string, command: string, events: seq<TransportEvent>, j: nat)
    requires j < |events| && events[j] == Ready
    ensures Output(ConnectedLine(tag)) in LogOf(tag, command, events)
    decreases j
  {
    if j > 0 {
      ReadyLogsConnected(tag, command, events[1..], j - 1);
    }
  }

  /** Every exec outcome, chunk and close has a `ready` before it. */
  lemma ReadyBefore(events: seq<TransportEvent>, k: nat)
    requires Accepts(events) && k < |events| && !events[k].Ready? && !events[k].ConnectionError?
    ensures Ready in events[..k]
  {
    AcceptsPrefix(events, k + 1);
    assert events[..k + 1][..k] == events[..k];
    assert events[..k + 1][k] == events[k];
    ReadySeen(events[..k]);
  }

  /** Every stdout or stderr chunk, and the exec's outcome, come after the
      connected line: the actions before a stream event include it. */
  lemma ConnectedPrecedesStream(tag: string, command: string, events: seq<TransportEvent>, k: nat)
    requires Accepts(events) && k < |events| && !events[k].Ready? && !events[k].ConnectionError?
    ensures Ready in events[..k]
    ensures Output(ConnectedLine(tag)) in LogOf(tag, command, events[..k])
  {
    ReadyBefore(events, k);
    var j :| 0 <= j < k && events[..k][j] == Ready;
    ReadyLogsConnected(tag, command, events[..k], j);
  }

  /** Finished is absorbing: once the exec failed or the stream closed, only
      connection errors can follow. */
  lemma {:induction false} FinishedAbsorbs(events: seq<TransportEvent>, n: nat)
    requires Accepts(events) && n <= |events| && PhaseAfter(events[..n]) == Finished
    ensures PhaseAfter(events) == Finished
    ensures forall j :: n <= j < |events| ==> events[j].ConnectionError?
    decreases |events|
  {
    if n < |events| {
      var pre := events[..|events| - 1];
      assert pre[..n] == events[..n];
      FinishedAbsorbs(pre, n);
      assert forall j :: n <= j < |pre| ==> events[j] == pre[j];
    } else {
      assert events[..n] == events;
    }
  }

  /** After an exec failure or a close, no chunk, close line, exec outcome or
      `ready` is delivered: only connection errors can follow. */
  lemma NothingAfterFinish(events: seq<TransportEvent>, k: nat)
    requires Accepts(events) && k < |events| && (events[k].ExecFailed? || events[k].StreamClosed?)
    ensures forall j :: k < j < |events| ==> events[j].ConnectionError?
  {
    AcceptsPrefix(events, k + 1);
    assert events[..k + 1][..k] == events[..k];
    assert events[..k + 1][k] == events[k];
    assert PhaseAfter(events[..k + 1]) == Finished;
    FinishedAbsorbs(events, k + 1);
  }

  /** The relay of one chunk: stdout to `onOutput`, stderr to `onError`. */
  function ChunkAction(tag: string, e: TransportEvent): Action
    requires e.StdoutData? || e.StderrData?
  {
    if e.StdoutData? then Output(StdoutLine(tag, e.chunk)) else ErrorOutput(StderrLine(tag, e.chunk))
  }

  /** While the stream is open its chunks are relayed one action each, in
      arrival order: stdout to `onOutput`, stderr to `onError`. */
  lemma {:induction false} ChunksRelayedInOrder(tag: string, command: string, chunks: seq<TransportEvent>)
    requires forall i :: 0 <= i < |chunks| ==> chunks[i].StdoutData? || chunks[i].StderrData?
    ensures |LogOf(tag, command, chunks)| == |chunks|
    ensures forall i :: 0 <= i < |chunks| ==> LogOf(tag, command, chunks)[i] == ChunkAction(tag, chunks[i])
    decreases |chunks|
  {
    if chunks != [] {
      ChunksRelayedInOrder(tag, command, chunks[1..]);
      assert forall i :: 1 <= i < |chunks| ==> chunks[1..][i - 1] == chunks[i];
    }
  }

  /** `conn.end()` is called exactly when the exec failed or the stream
      closed; a connection error does not call it. */
  lemma {:induction false} EndIff(tag: string, command: string, events: seq<TransportEvent>)
    ensures EndConnection in LogOf(tag, command, events) <==>
      exists k :: 0 <= k < |events| && (events[k].ExecFailed? || events[k].StreamClosed?)
    decreases |events|
  {
    if events != [] {
      EndIff(tag, command, events[1..]);
      var head := Emit(tag, command, events[0]);
      var tail := LogOf(tag, command, events[1..]);
      assert EndConnection in head + tail <==> EndConnection in head || EndConnection in tail;
      assert EndConnection in head <==> events[0].ExecFailed? || events[0].StreamClosed?;
      if exists k :: 0 <= k < |events[1..]| && (events[1..][k].ExecFailed? || events[1..][k].StreamClosed?) {
        var k :| 0 <= k < |events[1..]| && (events[1..][k].ExecFailed? || events[1..][k].StreamClosed?);
        assert events[k + 1] == events[1..][k];
      }
      if exists k :: 0 <= k < |events| && (events[k].ExecFailed? || events[k].StreamClosed?) {
        var k :| 0 <= k < |events| && (events[k].ExecFailed? || events[k].StreamClosed?);
        if k > 0 {
          assert events[1..][k - 1] == events[k];
        }
      }
    }
  }

  /** A session that connects, runs its command, sees one stdout and one
      stderr chunk and closes: what its handlers did, and how it settled. */
  method ClosePathScenario(vm: Vm, template: string, out: string, err: string, code: int)
    returns (log: seq<Action>, settled: Option<Settlement>)
    ensures log == [
      Output(ConnectedLine(Label(vm))),
      Exec(Render.RenderCommand(template, vm.password)),
      Output(StdoutLine(Label(vm), out)),
      ErrorOutput(StderrLine(Label(vm), err)),
      Output(ClosedLine(Label(vm), code)),
      EndConnection]
    ensures settled == Some(Resolved)
  {
    var session := new Session(vm, template);
    ghost var a := Output(ConnectedLine(Label(vm)));
    ghost var b := Exec(Render.RenderCommand(template, vm.password));
    session.OnReady();
    assert session.log == [a, b];
    session.OnExecStarted();
    session.OnStdout(out);
    assert session.log == [a, b, Output(StdoutLine(Label(vm), out))];
    session.OnStderr(err);
    assert session.log == [a, b, Output(StdoutLine(Label(vm), out)), ErrorOutput(StderrLine(Label(vm), err))];
    session.OnClose(code);
    log, settled := session.log, session.settled;
  }

  /** A session whose command cannot start: one error line, the connection
      ended, the promise rejected with the exec's message; a connection error
      arriving afterwards is reported but changes nothing else. */
  method ExecFailurePathScenario(vm: Vm, template: string, message: string, late: string)
    returns (log: seq<Action>, settled: Option<Settlement>)
    ensures log == [
      Output(ConnectedLine(Label(vm))),
      Exec(Render.RenderCommand(template, vm.password)),
      ErrorOutput(ExecErrorLine(Label(vm), message)),
      EndConnection,
      ErrorOutput(ConnectionErrorLine(Label(vm), late))]
    ensures settled == Some(Rejected(message))
  {
    var session := new Session(vm, template);
    session.OnReady();
    session.OnExecFailed(message);
    session.OnConnectionError(late);
    log, settled := session.log, session.settled;
  }
}


/** The relay engine's threads: two acceptors, the workers they start, and `Start` and `Stop`. Every access under the
    mutex, and every test of the running flag, is one step; the steps of different threads interleave freely. */
module RelayEngine {
  import opened Common
  import opened Relay

  /** A listener thread: loading its receive function (UDP only), at the loop test, blocked, holding a client, done
      counting the worker it is about to start, or over. */
  datatype Acceptor = Preparing | Testing | Accepting | Holding | Counting | Exited

  /** Before the outbound connection, relaying, ending, gone. */
  datatype Stage = Connecting | Flowing | Leaving | Gone

  /** Where a copying loop is: waiting for bytes, having received some, having passed on a datagram, or over. A TCP loop
      counts what it has received and then sends it; a UDP session sends first, and counts only what it could send. */
  datatype Loop = Waiting | Got(count: nat) | Sent(count: nat) | Over

  /** One direction of a relay: its loop, and the bytes that were received, passed on (UDP only) and counted. */
  datatype Traffic = Traffic(loop: Loop, received: nat, sent: nat, counted: nat)

  /** A worker: the rule it relays for, its two directions, and the size of the packet that opened a UDP session. */
  datatype Worker = Worker(
    stage: Stage,
    rule: Option<string>,
    isTcp: bool,
    incoming: Traffic,
    outgoing: Traffic,
    first: nat)

  const NO_TRAFFIC := Traffic(Over, 0, 0, 0)

  function NewWorker(isTcp: bool): Worker
  {
    Worker(Connecting, None, isTcp, NO_TRAFFIC, NO_TRAFFIC, 0)
  }

  function Direction(w: Worker, inbound: bool): Traffic
  {
    if inbound then w.incoming else w.outgoing
  }

  function WithDirection(w: Worker, inbound: bool, traffic: Traffic): Worker
  {
    if inbound then w.(incoming := traffic) else w.(outgoing := traffic)
  }

  /** What is kept per rule. */
  datatype Metric = Metric(flows: nat, bytesIn: Counter, bytesOut: Counter)

  const NO_METRIC := Metric(0, 0, 0)

  /** Where a `Stop` that cleared the flag waits. */
  datatype Stopping = No | JoiningTcp | JoiningUdp | Draining

  datatype State = State(
    running: bool,
    tcp: Acceptor,
    udp: Acceptor,
    workers: seq<Worker>,
    activeWorkers: nat,
    metrics: map<string, Metric>,
    stopping: Stopping)

  function MetricOf(s: State, rule: string): Metric
  {
    if rule in s.metrics then s.metrics[rule] else NO_METRIC
  }

  const INITIAL := State(false, Exited, Exited, [], 0, map[], No)

  datatype Event =
    | EStart
    | EStop
    | EJoinTcp
    | EJoinUdp
    | EDrained
    | EConfigure(rules: set<string>)
    | EPrepare(ok: bool)
    | ETest(isTcp: bool)
    | EAccept(isTcp: bool, accepted: bool)
    | ECount(isTcp: bool)
    | ESpawn(isTcp: bool)
    | EConnect(worker: nat, rule: string, first: nat)
    | EReject(worker: nat)
    | EReceive(worker: nat, inbound: bool, count: nat)
    | ESend(worker: nat, inbound: bool, ok: bool)
    | ECountBytes(worker: nat, inbound: bool)
    | ELoopEnds(worker: nat, inbound: bool)
    | EFlowEnds(worker: nat)
    | ELeave(worker: nat)

  function AcceptorOf(s: State, isTcp: bool): Acceptor
  {
    if isTcp then s.tcp else s.udp
  }

  function WithAcceptor(s: State, isTcp: bool, a: Acceptor): State
  {
    if isTcp then s.(tcp := a) else s.(udp := a)
  }

  function WithWorker(s: State, i: nat, w: Worker): State
    requires i < |s.workers|
  {
    s.(workers := s.workers[i := w])
  }

  function WithMetric(s: State, rule: string, m: Metric): State
  {
    s.(metrics := s.metrics[rule := m])
  }

  /** Start finds the engine at rest; a Stop is not under way. */
  function Start(s: State): Option<State>
  {
    if s.running then Some(s)
    else if s.stopping != No then None
    else Some(s.(running := true, tcp := Testing, udp := Preparing))
  }

  /** Only the call that clears the flag goes on; any other one returns at once. */
  function Stop(s: State): State
  {
    if !s.running then s else s.(running := false, stopping := JoiningTcp)
  }

  /******* The steps of one worker *******/

  /** Both directions of a UDP session are one loop. */
  function Ended(w: Worker, inbound: bool): Worker
  {
    if w.isTcp then WithDirection(w, inbound, Direction(w, inbound).(loop := Over))
    else w.(incoming := w.incoming.(loop := Over), outgoing := w.outgoing.(loop := Over))
  }

  /** The loop can take its next bytes. */
  predicate Ready(w: Worker, inbound: bool)
  {
    Direction(w, inbound).loop == Waiting && (w.isTcp || Direction(w, !inbound).loop == Waiting)
  }

  /** The size of the packet that opens a flow; a TCP connection has none. */
  function Opening(w: Worker, first: nat): nat
  {
    if w.isTcp then 0 else first
  }

  function Received(w: Worker, inbound: bool, count: nat): Option<Worker>
  {
    var traffic := Direction(w, inbound);
    if !Ready(w, inbound) || count == 0 then None
    else Some(WithDirection(w, inbound, traffic.(loop := Got(count), received := traffic.received + count)))
  }

  /** A UDP session passes a datagram on; when that fails, it ends. */
  function PassedOn(w: Worker, inbound: bool, ok: bool): Option<Worker>
  {
    var traffic := Direction(w, inbound);
    if w.isTcp || !traffic.loop.Got? then None
    else if !ok then Some(Ended(w, inbound))
    else Some(WithDirection(w, inbound, traffic.(loop := Sent(traffic.loop.count),
                                                 sent := traffic.sent + traffic.loop.count)))
  }

  /** The bytes are to be counted now. */
  predicate Counts(w: Worker, inbound: bool)
  {
    if w.isTcp then Direction(w, inbound).loop.Got? else Direction(w, inbound).loop.Sent?
  }

  function CountedBytes(w: Worker, inbound: bool): Option<Worker>
  {
    var traffic := Direction(w, inbound);
    if !Counts(w, inbound) then None
    else Some(WithDirection(w, inbound, traffic.(loop := Waiting, counted := traffic.counted + traffic.loop.count)))
  }

  /** What an event makes of its worker. */
  function Moved(w: Worker, e: Event): Option<Worker>
  {
    if w.stage == Connecting then
      match e
      case EConnect(_, rule, first) =>
        var opening := Opening(w, first);
        Some(Worker(Flowing, Some(rule), w.isTcp, Traffic(Waiting, 0, 0, 0), Traffic(Waiting, 0, 0, opening), opening))
      case EReject(_) => Some(w.(stage := Leaving))
      case _ => None
    else if w.stage == Flowing then
      match e
      case EReceive(_, inbound, count) => Received(w, inbound, count)
      case ESend(_, inbound, ok) => PassedOn(w, inbound, ok)
      case ECountBytes(_, inbound) => CountedBytes(w, inbound)
      case ELoopEnds(_, inbound) => if Ready(w, inbound) then Some(Ended(w, inbound)) else None
      case EFlowEnds(_) =>
        if w.incoming.loop == w.outgoing.loop == Over then Some(w.(stage := Leaving)) else None
      case _ => None
    else if w.stage == Leaving && e.ELeave? then Some(w.(stage := Gone))
    else None
  }

  /** What it makes of the metric of the worker's rule, under the mutex. */
  function Metered(m: Metric, w: Worker, e: Event): Metric
  {
    match e
    case EConnect(_, _, first) => m.(flows := m.flows + 1, bytesOut := Counted(m.bytesOut, Opening(w, first)))
    case ECountBytes(_, inbound) =>
      var loop := Direction(w, inbound).loop;
      var count := if loop.Got? || loop.Sent? then loop.count else 0;
      if inbound then m.(bytesIn := Counted(m.bytesIn, count)) else m.(bytesOut := Counted(m.bytesOut, count))
    case EFlowEnds(_) => m.(flows := if m.flows > 0 then m.flows - 1 else 0)
    case _ => m
  }

  predicate IsWorkerEvent(e: Event)
  {
    e.EConnect? || e.EReject? || e.EReceive? || e.ESend? || e.ECountBytes? || e.ELoopEnds? || e.EFlowEnds? || e.ELeave?
  }

  predicate TouchesMetric(e: Event)
  {
    e.EConnect? || e.ECountBytes? || e.EFlowEnds?
  }

  function WorkerStep(s: State, e: Event): Option<State>
    requires IsWorkerEvent(e)
  {
    var i := e.worker;
    if i >= |s.workers| || Moved(s.workers[i], e).None? || (e.ELeave? && s.activeWorkers == 0) then None else
      var w := Moved(s.workers[i], e).value;
      var t := WithWorker(s, i, w).(activeWorkers := if e.ELeave? then s.activeWorkers - 1 else s.activeWorkers);
      if TouchesMetric(e) && w.rule.Some?
      then Some(WithMetric(t, w.rule.value, Metered(MetricOf(s, w.rule.value), s.workers[i], e)))
      else Some(t)
  }

  function Step(s: State, e: Event): Option<State>
  {
    match e
    case EStart => Start(s)
    case EStop => Some(Stop(s))
    case EJoinTcp => if s.stopping == JoiningTcp && s.tcp == Exited then Some(s.(stopping := JoiningUdp)) else None
    case EJoinUdp => if s.stopping == JoiningUdp && s.udp == Exited then Some(s.(stopping := Draining)) else None
    case EDrained => if s.stopping == Draining && s.activeWorkers == 0 then Some(s.(stopping := No)) else None
    case EConfigure(rules) =>
      Some(s.(metrics := map rule | rule in rules + s.metrics.Keys :: MetricOf(s, rule)))
    case EPrepare(ok) => if s.udp != Preparing then None else Some(s.(udp := if ok then Testing else Exited))
    case ETest(isTcp) =>
      if AcceptorOf(s, isTcp) != Testing then None
      else Some(WithAcceptor(s, isTcp, if s.running then Accepting else Exited))
    case EAccept(isTcp, accepted) =>
      if AcceptorOf(s, isTcp) != Accepting then None
      else Some(WithAcceptor(s, isTcp, if accepted then Holding else Testing))
    case ECount(isTcp) =>
      if AcceptorOf(s, isTcp) != Holding then None
      else Some(WithAcceptor(s.(activeWorkers := s.activeWorkers + 1), isTcp, Counting))
    case ESpawn(isTcp) =>
      if AcceptorOf(s, isTcp) != Counting then None
      else Some(WithAcceptor(s.(workers := s.workers + [NewWorker(isTcp)]), isTcp, Testing))
    case _ => WorkerStep(s, e)
  }

  function Run(s: State, events: seq<Event>): Option<State>
  {
    if events == [] then Some(s) else
      var before := Run(s, events[..|events| - 1]);
      if before.None? then None else Step(before.value, events[|events| - 1])
  }

  /******* Counting *******/

  function Total(workers: seq<Worker>, f: Worker -> nat): nat
  {
    if workers == [] then 0 else f(workers[0]) + Total(workers[1..], f)
  }

  lemma {:induction false} TotalAppend(workers: seq<Worker>, w: Worker, f: Worker -> nat)
    ensures Total(workers + [w], f) == Total(workers, f) + f(w)
  {
    if workers == [] {
      assert [w][1..] == [] && [] + [w] == [w];
    } else {
      assert (workers + [w])[1..] == workers[1..] + [w];
      TotalAppend(workers[1..], w, f);
    }
  }

  lemma {:induction false} TotalUpdate(workers: seq<Worker>, i: nat, w: Worker, f: Worker -> nat)
    requires i < |workers|
    ensures Total(workers[i := w], f) + f(workers[i]) == Total(workers, f) + f(w)
  {
    var updated := workers[i := w];
    if i == 0 {
      assert updated[1..] == workers[1..];
    } else {
      assert updated[1..] == workers[1..][i - 1 := w];
      TotalUpdate(workers[1..], i - 1, w, f);
    }
  }

  lemma {:induction false} TotalZero(workers: seq<Worker>, f: Worker -> nat, w: Worker)
    requires Total(workers, f) == 0 && w in workers
    ensures f(w) == 0
  {
    if w != workers[0] {
      assert w in workers[1..];
      TotalZero(workers[1..], f, w);
    }
  }

  lemma {:induction false} TotalOfZeros(workers: seq<Worker>, f: Worker -> nat)
    requires forall w | w in workers :: f(w) == 0
    ensures Total(workers, f) == 0
  {
    if workers != [] {
      assert forall w | w in workers[1..] :: w in workers;
      TotalOfZeros(workers[1..], f);
    }
  }

  /** Counts workers that are not gone. */
  function IsLive(): Worker -> nat
  {
    (w: Worker) => if w.stage == Gone then 0 else 1
  }

  /** Counts the relays of a rule that are in progress. */
  function IsRelay(rule: string): Worker -> nat
  {
    (w: Worker) => if w.stage == Flowing && w.rule == Some(rule) then 1 else 0
  }

  /** The bytes that relays of a rule, over or not, have counted in one direction. */
  function Tally(rule: string, inbound: bool): Worker -> nat
  {
    (w: Worker) => if w.rule == Some(rule) then Direction(w, inbound).counted else 0
  }

  function LiveRelays(s: State, rule: string): nat
  {
    Total(s.workers, IsRelay(rule))
  }

  /** The metric of a rule is right: its flows are the relays in progress, its counters the bytes counted, modulo
      2^64. */
  ghost predicate IsMetric(m: Metric, workers: seq<Worker>, rule: string)
  {
    && m.flows == Total(workers, IsRelay(rule))
    && m.bytesIn == Total(workers, Tally(rule, true)) % Relay.U64
    && m.bytesOut == Total(workers, Tally(rule, false)) % Relay.U64
  }

  ghost predicate Right(s: State, rule: string)
  {
    IsMetric(MetricOf(s, rule), s.workers, rule)
  }

  /** The bytes of a direction that are to be counted: of a TCP relay all it has received, of a UDP session all it has
      passed on, and the packet that opened it. */
  function Due(w: Worker, inbound: bool): nat
  {
    if w.isTcp then Direction(w, inbound).received else Direction(w, inbound).sent + (if inbound then 0 else w.first)
  }

  /** The bytes whose count is outstanding: the relay is between receiving or passing them on and counting them. */
  function Outstanding(w: Worker, inbound: bool): nat
  {
    if Counts(w, inbound) then Direction(w, inbound).loop.count else 0
  }

  /** One direction has counted what is due, but for what is outstanding, and passes on only what it received. */
  predicate FairIn(w: Worker, inbound: bool)
  {
    var traffic := Direction(w, inbound);
    && traffic.counted + Outstanding(w, inbound) == Due(w, inbound)
    && (w.isTcp ==> !traffic.loop.Sent?)
    && traffic.sent + (if traffic.loop.Got? then traffic.loop.count else 0) <= traffic.received
  }

  /** A UDP session is busy with at most one direction. */
  ghost predicate Fair(w: Worker)
  {
    && (forall inbound :: FairIn(w, inbound))
    && (w.stage != Flowing ==> w.incoming.loop == w.outgoing.loop == Over)
    && (w.stage == Connecting ==> w == NewWorker(w.isTcp))
    && (w.isTcp || w.incoming.loop == Waiting || w.outgoing.loop == Waiting
        || w.incoming.loop == w.outgoing.loop == Over)
  }

  /******* What holds in every run *******/

  function Announced(a: Acceptor): nat
  {
    if a == Counting then 1 else 0
  }

  /** A Stop that is under way has closed what it has passed. */
  predicate Closing(s: State)
  {
    && (s.stopping != No ==> !s.running)
    && (s.stopping == JoiningUdp || s.stopping == Draining ==> s.tcp == Exited)
    && (s.stopping == Draining ==> s.udp == Exited)
    && (!s.running && s.stopping == No ==> s.tcp == Exited && s.udp == Exited && s.activeWorkers == 0)
  }

  ghost predicate Inv(s: State)
  {
    && s.activeWorkers == Total(s.workers, IsLive()) + Announced(s.tcp) + Announced(s.udp)
    && Closing(s) && (forall rule :: Right(s, rule))
    && forall w | w in s.workers :: Fair(w)
  }

  /** Only the worker count, the acceptors and the flags changed. */
  lemma SameMetrics(s: State, t: State)
    requires (forall rule :: Right(s, rule)) && t.workers == s.workers
    requires forall rule :: MetricOf(t, rule) == MetricOf(s, rule)
    ensures forall rule :: Right(t, rule)
  {
    forall rule ensures Right(t, rule) {
      assert Right(s, rule);
    }
  }

  lemma ControlStepKeeps(s: State, e: Event)
    requires Inv(s) && Step(s, e).Some?
    requires e.EStart? || e.EStop? || e.EJoinTcp? || e.EJoinUdp? || e.EDrained? || e.EConfigure? || e.EPrepare?
    ensures Inv(Step(s, e).value)
  {
    SameMetrics(s, Step(s, e).value);
  }

  lemma AcceptorStepKeeps(s: State, e: Event)
    requires Inv(s) && Step(s, e).Some? && (e.ETest? || e.EAccept? || e.ECount?)
    ensures Inv(Step(s, e).value)
  {
    SameMetrics(s, Step(s, e).value);
  }

  lemma NewIsFair(isTcp: bool)
    ensures Fair(NewWorker(isTcp)) && IsLive()(NewWorker(isTcp)) == 1
  {
  }

  /** A worker without a flow shows in no metric. */
  predicate Idle(w: Worker)
  {
    w.rule == None
  }

  lemma IdleShows(w: Worker, rule: string)
    requires Idle(w)
    ensures IsRelay(rule)(w) == 0 && Tally(rule, true)(w) == 0 && Tally(rule, false)(w) == 0
  {
  }

  lemma IdleMetric(m: Metric, workers: seq<Worker>, w: Worker, rule: string)
    requires IsMetric(m, workers, rule) && Idle(w)
    ensures IsMetric(m, workers + [w], rule)
  {
    IdleShows(w, rule);
    TotalAppend(workers, w, IsRelay(rule));
    TotalAppend(workers, w, Tally(rule, true));
    TotalAppend(workers, w, Tally(rule, false));
  }

  lemma Spawned(s: State, isTcp: bool)
    requires Step(s, ESpawn(isTcp)).Some?
    ensures var t := Step(s, ESpawn(isTcp)).value;
            && t.workers == s.workers + [NewWorker(isTcp)] && t.metrics == s.metrics
            && t.activeWorkers == s.activeWorkers && t.running == s.running && t.stopping == s.stopping
            && Announced(t.tcp) + Announced(t.udp) + 1 == Announced(s.tcp) + Announced(s.udp)
            && (s.tcp == Exited ==> t.tcp == Exited) && (s.udp == Exited ==> t.udp == Exited)
            && (if isTcp then s.tcp == Counting else s.udp == Counting)
  {
  }

  lemma SpawnedFair(workers: seq<Worker>, w: Worker)
    requires Fair(w) && forall v | v in workers :: Fair(v)
    ensures forall v | v in workers + [w] :: Fair(v)
  {
  }

  lemma SpawnKeeps(s: State, isTcp: bool)
    requires Inv(s) && Step(s, ESpawn(isTcp)).Some?
    ensures Inv(Step(s, ESpawn(isTcp)).value)
  {
    var t, w := Step(s, ESpawn(isTcp)).value, NewWorker(isTcp);
    Spawned(s, isTcp);
    NewIsFair(isTcp);
    SpawnedFair(s.workers, w);
    TotalAppend(s.workers, w, IsLive());
    SpawnedRight(s, t, w);
  }

  lemma SpawnedRight(s: State, t: State, w: Worker)
    requires (forall rule :: Right(s, rule)) && Idle(w) && t.workers == s.workers + [w] && t.metrics == s.metrics
    ensures forall rule :: Right(t, rule)
  {
    forall rule ensures Right(t, rule) {
      assert Right(s, rule) && MetricOf(t, rule) == MetricOf(s, rule);
      IdleMetric(MetricOf(s, rule), s.workers, w, rule);
    }
  }

  /******* One worker's step *******/

  lemma ReceivedFair(w: Worker, inbound: bool, count: nat)
    requires Fair(w) && w.stage == Flowing && Received(w, inbound, count).Some?
    ensures Fair(Received(w, inbound, count).value)
  {
    assert FairIn(w, inbound) && FairIn(w, !inbound);
  }

  lemma PassedOnFair(w: Worker, inbound: bool, ok: bool)
    requires Fair(w) && w.stage == Flowing && PassedOn(w, inbound, ok).Some?
    ensures Fair(PassedOn(w, inbound, ok).value)
  {
    assert FairIn(w, inbound) && FairIn(w, !inbound);
  }

  lemma CountedFair(w: Worker, inbound: bool)
    requires Fair(w) && w.stage == Flowing && CountedBytes(w, inbound).Some?
    ensures Fair(CountedBytes(w, inbound).value)
  {
    assert FairIn(w, inbound) && FairIn(w, !inbound);
  }

  lemma EndedFair(w: Worker, inbound: bool)
    requires Fair(w) && w.stage == Flowing && Ready(w, inbound)
    ensures Fair(Ended(w, inbound))
  {
    assert FairIn(w, inbound) && FairIn(w, !inbound);
  }

  lemma ConnectedFair(w: Worker, e: Event)
    requires Fair(w) && w.stage == Connecting && Moved(w, e).Some?
    ensures Fair(Moved(w, e).value) && Moved(w, e).value.stage != Connecting
  {
  }

  lemma OverIsFair(w: Worker, stage: Stage)
    requires Fair(w) && stage != Connecting && w.incoming.loop == w.outgoing.loop == Over
    ensures Fair(w.(stage := stage))
  {
    assert FairIn(w, true) && FairIn(w, false);
    var v := w.(stage := stage);
    forall inbound ensures FairIn(v, inbound) {
      assert FairIn(w, inbound);
    }
  }

  /** Whatever a worker does, it stays fair. */
  lemma MovedFair(w: Worker, e: Event)
    requires Fair(w) && Moved(w, e).Some?
    ensures Fair(Moved(w, e).value) && Moved(w, e).value.stage != Connecting
  {
    if w.stage == Connecting {
      ConnectedFair(w, e);
    } else if w.stage == Leaving {
      OverIsFair(w, Gone);
    } else if e.EReceive? {
      ReceivedFair(w, e.inbound, e.count);
    } else if e.ESend? {
      PassedOnFair(w, e.inbound, e.ok);
    } else if e.ECountBytes? {
      CountedFair(w, e.inbound);
    } else if e.ELoopEnds? {
      EndedFair(w, e.inbound);
    } else {
      OverIsFair(w, Leaving);
    }
  }

  lemma NothingCounted(c: Counter)
    ensures Counted(c, 0) == c
  {
  }

  /** How a worker's step from `w` to `v` shows in the metric of a rule. */
  ghost predicate Shows(m: Metric, n: Metric, w: Worker, v: Worker, rule: string)
  {
    && n.flows + IsRelay(rule)(w) == m.flows + IsRelay(rule)(v)
    && Tally(rule, true)(w) <= Tally(rule, true)(v) && Tally(rule, false)(w) <= Tally(rule, false)(v)
    && n.bytesIn == Counted(m.bytesIn, Tally(rule, true)(v) - Tally(rule, true)(w))
    && n.bytesOut == Counted(m.bytesOut, Tally(rule, false)(v) - Tally(rule, false)(w))
  }

  /** A step that neither begins nor ends a flow nor counts. */
  lemma NothingShows(m: Metric, w: Worker, v: Worker, rule: string)
    requires IsRelay(rule)(w) == IsRelay(rule)(v)
    requires Tally(rule, true)(w) == Tally(rule, true)(v) && Tally(rule, false)(w) == Tally(rule, false)(v)
    ensures Shows(m, m, w, v, rule)
  {
    NothingCounted(m.bytesIn);
    NothingCounted(m.bytesOut);
  }

  lemma ConnectShows(m: Metric, w: Worker, e: Event, rule: string)
    requires Idle(w) && e.EConnect? && Moved(w, e).Some? && Moved(w, e).value.rule == Some(rule)
    ensures Shows(m, Metered(m, w, e), w, Moved(w, e).value, rule)
  {
    IdleShows(w, rule);
    NothingCounted(m.bytesIn);
  }

  lemma ConnectingIsIdle(w: Worker, e: Event)
    requires Fair(w) && e.EConnect? && Moved(w, e).Some?
    ensures Idle(w)
  {
  }

  lemma CountShows(m: Metric, w: Worker, e: Event, rule: string)
    requires e.ECountBytes? && Moved(w, e).Some? && Moved(w, e).value.rule == Some(rule)
    ensures Shows(m, Metered(m, w, e), w, Moved(w, e).value, rule)
  {
    NothingCounted(m.bytesIn);
    NothingCounted(m.bytesOut);
  }

  lemma FlowEndShows(m: Metric, w: Worker, e: Event, rule: string)
    requires e.EFlowEnds? && Moved(w, e).Some? && Moved(w, e).value.rule == Some(rule) && m.flows > 0
    ensures Shows(m, Metered(m, w, e), w, Moved(w, e).value, rule)
  {
    NothingCounted(m.bytesIn);
    NothingCounted(m.bytesOut);
  }

  lemma OtherShows(m: Metric, w: Worker, e: Event, rule: string)
    requires Fair(w) && IsWorkerEvent(e) && Moved(w, e).Some? && !TouchesMetric(e)
    ensures Shows(m, Metered(m, w, e), w, Moved(w, e).value, rule)
  {
    QuietStep(w, e, rule);
    NothingShows(m, w, Moved(w, e).value, rule);
    NotMetered(m, w, e);
  }

  lemma NotMetered(m: Metric, w: Worker, e: Event)
    requires !TouchesMetric(e)
    ensures Metered(m, w, e) == m
  {
  }

  lemma LoopSteps(w: Worker, e: Event)
    requires w.stage == Flowing && Moved(w, e).Some? && (e.EReceive? || e.ESend? || e.ELoopEnds?)
    ensures var v := Moved(w, e).value;
            && v.stage == w.stage && v.rule == w.rule
            && v.incoming.counted == w.incoming.counted && v.outgoing.counted == w.outgoing.counted
  {
  }

  /** How a worker's step shows in the metric of its rule. */
  lemma MovedShows(m: Metric, w: Worker, e: Event, rule: string)
    requires Fair(w) && IsWorkerEvent(e) && Moved(w, e).Some? && Moved(w, e).value.rule == Some(rule)
    requires e.EFlowEnds? ==> m.flows > 0
    ensures Shows(m, Metered(m, w, e), w, Moved(w, e).value, rule)
  {
    if e.EConnect? {
      ConnectingIsIdle(w, e);
      ConnectShows(m, w, e, rule);
    } else if e.ECountBytes? {
      CountShows(m, w, e, rule);
    } else if e.EFlowEnds? {
      FlowEndShows(m, w, e, rule);
    } else {
      OtherShows(m, w, e, rule);
    }
  }

  lemma QuietStep(w: Worker, e: Event, rule: string)
    requires Fair(w) && IsWorkerEvent(e) && Moved(w, e).Some? && !TouchesMetric(e)
    ensures var v := Moved(w, e).value;
            && IsRelay(rule)(w) == IsRelay(rule)(v)
            && Tally(rule, true)(w) == Tally(rule, true)(v) && Tally(rule, false)(w) == Tally(rule, false)(v)
  {
    RuleStays(w, e);
    if w.stage == Flowing {
      LoopSteps(w, e);
    }
  }

  /** A worker's step does not show in other metrics. */
  lemma MovedElsewhere(m: Metric, w: Worker, e: Event, rule: string)
    requires Fair(w) && IsWorkerEvent(e) && Moved(w, e).Some? && Moved(w, e).value.rule != Some(rule)
    ensures Shows(m, m, w, Moved(w, e).value, rule)
  {
    RuleStays(w, e);
    NothingShows(m, w, Moved(w, e).value, rule);
  }

  lemma RuleStays(w: Worker, e: Event)
    requires Fair(w) && Moved(w, e).Some?
    ensures w.stage == Connecting ==> w.rule == None
    ensures w.stage != Connecting ==> Moved(w, e).value.rule == w.rule
  {
  }

  lemma Wraps(total: nat, more: nat)
    ensures Counted(total % Relay.U64, more) == (total + more) % Relay.U64
  {
    ModuloTwice(total, more);
  }

  lemma IsMetricAfter(m: Metric, n: Metric, workers: seq<Worker>, i: nat, v: Worker, rule: string)
    requires i < |workers| && IsMetric(m, workers, rule) && Shows(m, n, workers[i], v, rule)
    ensures IsMetric(n, workers[i := v], rule)
  {
    var w := workers[i];
    TotalUpdate(workers, i, v, IsRelay(rule));
    TotalUpdate(workers, i, v, Tally(rule, true));
    TotalUpdate(workers, i, v, Tally(rule, false));
    Wraps(Total(workers, Tally(rule, true)), Tally(rule, true)(v) - Tally(rule, true)(w));
    Wraps(Total(workers, Tally(rule, false)), Tally(rule, false)(v) - Tally(rule, false)(w));
  }

  /** The state after a worker's step. */
  lemma WorkerMoves(s: State, e: Event)
    requires IsWorkerEvent(e) && Step(s, e).Some?
    ensures var t := Step(s, e).value;
            && e.worker < |s.workers| && Moved(s.workers[e.worker], e).Some?
            && t.workers == s.workers[e.worker := Moved(s.workers[e.worker], e).value]
            && t.tcp == s.tcp && t.udp == s.udp && t.running == s.running && t.stopping == s.stopping
            && t.activeWorkers == (if e.ELeave? then s.activeWorkers - 1 else s.activeWorkers)
  {
  }

  lemma MetricAfter(s: State, e: Event, rule: string)
    requires IsWorkerEvent(e) && Step(s, e).Some? && e.worker < |s.workers| && Moved(s.workers[e.worker], e).Some?
    ensures MetricOf(Step(s, e).value, rule)
            == if Moved(s.workers[e.worker], e).value.rule == Some(rule)
               then Metered(MetricOf(s, rule), s.workers[e.worker], e) else MetricOf(s, rule)
  {
  }

  lemma MetricKeeps(s: State, e: Event, rule: string)
    requires Right(s, rule) && Step(s, e).Some? && IsWorkerEvent(e)
    requires e.worker < |s.workers| ==> Fair(s.workers[e.worker])
    ensures Right(Step(s, e).value, rule)
  {
    WorkerMoves(s, e);
    MetricAfter(s, e, rule);
    var i, m := e.worker, MetricOf(s, rule);
    var w := s.workers[i];
    var v := Moved(w, e).value;
    if v.rule == Some(rule) {
      RuleStays(w, e);
      if w.stage == Flowing {
        FlowIsCounted(s, i, rule);
      }
      MovedShows(m, w, e, rule);
      IsMetricAfter(m, Metered(m, w, e), s.workers, i, v, rule);
    } else {
      MovedElsewhere(m, w, e, rule);
      IsMetricAfter(m, m, s.workers, i, v, rule);
    }
  }

  lemma LiveChange(w: Worker, e: Event)
    requires IsWorkerEvent(e) && Moved(w, e).Some?
    ensures IsLive()(w) == 1 && IsLive()(Moved(w, e).value) == if e.ELeave? then 0 else 1
  {
  }

  lemma WorkersCounted(s: State, e: Event)
    requires Inv(s) && Step(s, e).Some? && IsWorkerEvent(e)
    ensures var t := Step(s, e).value;
            && t.activeWorkers == Total(t.workers, IsLive()) + Announced(t.tcp) + Announced(t.udp)
            && Closing(t)
  {
    WorkerMoves(s, e);
    var w := s.workers[e.worker];
    LiveChange(w, e);
    TotalUpdate(s.workers, e.worker, Moved(w, e).value, IsLive());
    LiveWorker(s.workers, e.worker);
  }

  lemma WorkersStayFair(s: State, e: Event)
    requires Inv(s) && Step(s, e).Some? && IsWorkerEvent(e)
    ensures forall w | w in Step(s, e).value.workers :: Fair(w)
  {
    WorkerMoves(s, e);
    assert s.workers[e.worker] in s.workers;
    MovedFair(s.workers[e.worker], e);
  }

  lemma WorkerStepKeeps(s: State, e: Event)
    requires Inv(s) && Step(s, e).Some? && IsWorkerEvent(e)
    ensures Inv(Step(s, e).value)
  {
    WorkersCounted(s, e);
    WorkersStayFair(s, e);
    forall rule ensures Right(Step(s, e).value, rule) {
      assert Right(s, rule);
      assert e.worker < |s.workers| ==> s.workers[e.worker] in s.workers;
      MetricKeeps(s, e, rule);
    }
  }

  lemma LiveWorker(workers: seq<Worker>, i: nat)
    requires i < |workers|
    ensures workers[i].stage != Gone ==> Total(workers, IsLive()) > 0
  {
    if Total(workers, IsLive()) == 0 {
      TotalZero(workers, IsLive(), workers[i]);
    }
  }

  lemma FlowIsCounted(s: State, i: nat, rule: string)
    requires Right(s, rule) && i < |s.workers| && s.workers[i].stage == Flowing && s.workers[i].rule == Some(rule)
    ensures MetricOf(s, rule).flows > 0
  {
    if Total(s.workers, IsRelay(rule)) == 0 {
      TotalZero(s.workers, IsRelay(rule), s.workers[i]);
    }
  }

  lemma StepKeeps(s: State, e: Event)
    requires Inv(s) && Step(s, e).Some?
    ensures Inv(Step(s, e).value)
  {
    if e.ESpawn? {
      SpawnKeeps(s, e.isTcp);
    } else if e.ETest? || e.EAccept? || e.ECount? {
      AcceptorStepKeeps(s, e);
    } else if IsWorkerEvent(e) {
      WorkerStepKeeps(s, e);
    } else {
      ControlStepKeeps(s, e);
    }
  }

  lemma InitialInv()
    ensures Inv(INITIAL)
  {
    forall rule ensures Right(INITIAL, rule) {
      TotalOfZeros([], IsRelay(rule));
    }
  }

  lemma {:induction false} RunKeeps(s: State, events: seq<Event>)
    requires Inv(s) && Run(s, events).Some?
    ensures Inv(Run(s, events).value)
  {
    if events != [] {
      RunKeeps(s, events[..|events| - 1]);
      StepKeeps(Run(s, events[..|events| - 1]).value, events[|events| - 1]);
    }
  }

  /** Under every interleaving `active_flows` is the number of relays in progress, for every rule. */
  lemma FlowsAreLiveRelays(events: seq<Event>, rule: string)
    requires Run(INITIAL, events).Some?
    ensures var s := Run(INITIAL, events).value; MetricOf(s, rule).flows == LiveRelays(s, rule)
  {
    InitialInv();
    RunKeeps(INITIAL, events);
    assert Right(Run(INITIAL, events).value, rule);
  }

  function Dues(rule: string, inbound: bool): Worker -> nat
  {
    (w: Worker) => if w.rule == Some(rule) then Due(w, inbound) else 0
  }

  function OutstandingOf(rule: string, inbound: bool): Worker -> nat
  {
    (w: Worker) => if w.rule == Some(rule) then Outstanding(w, inbound) else 0
  }

  lemma {:induction false} FairTotals(workers: seq<Worker>, rule: string, inbound: bool)
    requires forall w | w in workers :: Fair(w)
    ensures Total(workers, Tally(rule, inbound)) + Total(workers, OutstandingOf(rule, inbound))
            == Total(workers, Dues(rule, inbound))
  {
    if workers != [] {
      assert Fair(workers[0]) && forall w | w in workers[1..] :: w in workers;
      assert FairIn(workers[0], inbound);
      FairTotals(workers[1..], rule, inbound);
    }
  }

  /** Under every interleaving, over all relays of a rule, in progress or over: its byte counters are the bytes counted,
      modulo 2^64; and the bytes counted are those that are due, but for those of relays that stand right before
      counting them. */
  lemma CountersAreBytesDue(events: seq<Event>, rule: string)
    requires Run(INITIAL, events).Some?
    ensures var s := Run(INITIAL, events).value;
            && MetricOf(s, rule).bytesIn == Total(s.workers, Tally(rule, true)) % Relay.U64
            && MetricOf(s, rule).bytesOut == Total(s.workers, Tally(rule, false)) % Relay.U64
            && forall inbound :: Total(s.workers, Tally(rule, inbound)) + Total(s.workers, OutstandingOf(rule, inbound))
                                 == Total(s.workers, Dues(rule, inbound))
  {
    InitialInv();
    RunKeeps(INITIAL, events);
    var s := Run(INITIAL, events).value;
    assert Right(s, rule);
    FairTotals(s.workers, rule, true);
    FairTotals(s.workers, rule, false);
  }

  /** For one relay: TCP has counted all bytes received and UDP all passed on, and the packet that opened the session,
      exactly when the relay does not stand right before counting some. */
  lemma RelayCountsExactly(events: seq<Event>, i: nat, inbound: bool)
    requires Run(INITIAL, events).Some? && i < |Run(INITIAL, events).value.workers|
    ensures var w := Run(INITIAL, events).value.workers[i];
            && Direction(w, inbound).counted <= Due(w, inbound)
            && (Direction(w, inbound).counted == Due(w, inbound) <==> Outstanding(w, inbound) == 0)
            && (w.isTcp ==> Due(w, inbound) == Direction(w, inbound).received)
            && (!w.isTcp ==> Due(w, inbound) <= Direction(w, inbound).received + (if inbound then 0 else w.first))
  {
    InitialInv();
    RunKeeps(INITIAL, events);
    var w := Run(INITIAL, events).value.workers[i];
    assert w in Run(INITIAL, events).value.workers;
    assert FairIn(w, inbound);
  }

  /******* Stop *******/

  /** No worker and no listener thread is left, and no flow is counted. */
  ghost predicate Quiet(s: State)
  {
    && (forall w | w in s.workers :: w.stage == Gone) && s.tcp == Exited && s.udp == Exited
    && forall rule :: MetricOf(s, rule).flows == 0
  }

  lemma StoppedIsQuiet(s: State)
    requires Inv(s) && s.activeWorkers == 0 && s.tcp == Exited && s.udp == Exited
    ensures Quiet(s)
  {
    forall w | w in s.workers ensures w.stage == Gone {
      TotalZero(s.workers, IsLive(), w);
    }
    forall rule ensures MetricOf(s, rule).flows == 0 {
      assert Right(s, rule);
      TotalOfZeros(s.workers, IsRelay(rule));
    }
  }

  /** When the Stop that cleared the running flag returns, no relay is in progress and no thread that could start one is
      left; the flow counters are zero. */
  lemma StopLeavesNothing(events: seq<Event>)
    requires Run(INITIAL, events).Some? && Step(Run(INITIAL, events).value, EDrained).Some?
    ensures Quiet(Step(Run(INITIAL, events).value, EDrained).value)
  {
    InitialInv();
    RunKeeps(INITIAL, events);
    DrainedIsQuiet(Run(INITIAL, events).value);
  }

  lemma DrainedIsQuiet(s: State)
    requires Inv(s) && s.stopping == Draining && s.activeWorkers == 0
    ensures Quiet(s.(stopping := No))
  {
    StoppedIsQuiet(s);
    forall rule ensures MetricOf(s.(stopping := No), rule).flows == 0 {
      assert MetricOf(s, rule).flows == 0;
    }
  }

  /** Nothing starts until the next Start either. */
  lemma {:induction false} StaysStopped(s: State, events: seq<Event>)
    requires Inv(s) && !s.running && s.stopping == No && Run(s, events).Some? && EStart !in events
    ensures var t := Run(s, events).value; !t.running && t.stopping == No && Quiet(t)
  {
    RunKeeps(s, events);
    if events != [] {
      StaysStopped(s, events[..|events| - 1]);
    }
    StoppedIsQuiet(Run(s, events).value);
  }

  lemma RunSnoc(s: State, events: seq<Event>, e: Event)
    requires Run(s, events).Some?
    ensures Run(s, events + [e]) == Step(Run(s, events).value, e)
  {
    assert (events + [e])[..|events + [e]| - 1] == events;
  }

  const RELAY := Worker(Flowing, Some("rule"), true, Traffic(Waiting, 0, 0, 0), Traffic(Waiting, 0, 0, 0), 0)

  /** A relay in progress while a Stop waits for the TCP thread, for the UDP thread, or for the workers. */
  lemma LeftoverWhileStopping(p: Stopping) returns (events: seq<Event>)
    requires p != No
    ensures Run(INITIAL, events).Some?
    ensures var s := Run(INITIAL, events).value;
            !s.running && s.stopping == p && s.workers == [RELAY]
  {
    var steps := [EStart, ETest(true), EAccept(true, true), ECount(true), ESpawn(true), EConnect(0, "rule", 0),
                  EStop];
    events := [];
    assert Run(INITIAL, events) == Some(INITIAL);
    for k := 0 to |steps|
      invariant Run(INITIAL, events) == Some(StateAfter(k))
    {
      RunSnoc(INITIAL, events, steps[k]);
      StepsOn(k, steps[k]);
      events := events + [steps[k]];
    }
    if p != JoiningTcp {
      events := AfterTcp(events);
    }
    if p == Draining {
      events := AfterUdp(events);
    }
  }

  /** A run goes on until the Stop has waited for the TCP thread. */
  lemma AfterTcp(before: seq<Event>) returns (events: seq<Event>)
    requires Run(INITIAL, before) == Some(StateAfter(7))
    ensures Run(INITIAL, events) == Some(StateAfter(7).(tcp := Exited, stopping := JoiningUdp))
  {
    RunSnoc(INITIAL, before, ETest(true));
    events := before + [ETest(true)];
    RunSnoc(INITIAL, events, EJoinTcp);
    events := events + [EJoinTcp];
  }

  lemma AfterUdp(before: seq<Event>) returns (events: seq<Event>)
    requires Run(INITIAL, before) == Some(StateAfter(7).(tcp := Exited, stopping := JoiningUdp))
    ensures Run(INITIAL, events) == Some(StateAfter(7).(tcp := Exited, udp := Exited, stopping := Draining))
  {
    RunSnoc(INITIAL, before, EPrepare(false));
    events := before + [EPrepare(false)];
    RunSnoc(INITIAL, events, EJoinUdp);
    events := events + [EJoinUdp];
  }

  /** The states of that run, up to its Stop. */
  function StateAfter(k: nat): State
    requires k <= 7
  {
    var one: map<string, Metric> := map["rule" := Metric(1, 0, 0)];
    match k
    case 0 => INITIAL
    case 1 => State(true, Testing, Preparing, [], 0, map[], No)
    case 2 => State(true, Accepting, Preparing, [], 0, map[], No)
    case 3 => State(true, Holding, Preparing, [], 0, map[], No)
    case 4 => State(true, Counting, Preparing, [], 1, map[], No)
    case 5 => State(true, Testing, Preparing, [NewWorker(true)], 1, map[], No)
    case 6 => State(true, Testing, Preparing, [RELAY], 1, one, No)
    case _ => State(false, Testing, Preparing, [RELAY], 1, one, JoiningTcp)
  }

  lemma StepsOn(k: nat, e: Event)
    requires k < 7
    requires e == [EStart, ETest(true), EAccept(true, true), ECount(true), ESpawn(true), EConnect(0, "rule", 0),
                   EStop][k]
    ensures Step(StateAfter(k), e) == Some(StateAfter(k + 1))
  {
    if k == 4 {
      assert [] + [NewWorker(true)] == [NewWorker(true)];
    } else if k == 5 {
      var metrics: map<string, Metric> := map[];
      assert metrics["rule" := Metric(1, 0, 0)] == map["rule" := Metric(1, 0, 0)];
      assert [NewWorker(true)][0 := RELAY] == [RELAY];
    }
  }

  lemma StoppedRunIsQuiet(events: seq<Event>)
    requires Run(INITIAL, events).Some?
    requires !Run(INITIAL, events).value.running && Run(INITIAL, events).value.stopping == No
    ensures Quiet(Stop(Run(INITIAL, events).value))
  {
    InitialInv();
    RunKeeps(INITIAL, events);
    StoppedIsQuiet(Run(INITIAL, events).value);
  }

  lemma BusyIsNotQuiet(s: State)
    requires !s.running && s.workers == [RELAY]
    ensures !Quiet(Stop(s))
  {
    assert s.workers[0] in s.workers && RELAY.stage != Gone;
  }

  /** A Stop that finds the flag cleared may find another one at this point. */
  ghost predicate Finds(events: seq<Event>, p: Stopping)
  {
    Run(INITIAL, events).Some? && !Run(INITIAL, events).value.running && Run(INITIAL, events).value.stopping == p
  }

  /** A Stop that finds the flag cleared returns at once. In all reachable states this means that nothing is left if and
      only if no other Stop is still under way; wherever another one waits, a relay may be in progress. */
  lemma ImmediateStopExactly(p: Stopping)
    ensures (forall events | Finds(events, p) :: Quiet(Stop(Run(INITIAL, events).value))) <==> p == No
  {
    if p == No {
      forall events | Finds(events, p) ensures Quiet(Stop(Run(INITIAL, events).value)) {
        StoppedRunIsQuiet(events);
      }
    } else {
      var events := LeftoverWhileStopping(p);
      BusyIsNotQuiet(Run(INITIAL, events).value);
      assert Finds(events, p);
    }
  }
}

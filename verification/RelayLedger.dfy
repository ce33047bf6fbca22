/** The relay's byte counters in terms of what happened: which bytes the events of a run received and passed on. */
module RelayLedger {
  import opened Common
  import opened RelayEngine

  /** The bytes that worker `i` receives in one direction in these events. */
  function ReceivedIn(events: seq<Event>, i: nat, inbound: bool): nat
  {
    if events == [] then 0 else
      var e := events[|events| - 1];
      ReceivedIn(events[..|events| - 1], i, inbound)
      + if e.EReceive? && e.worker == i && e.inbound == inbound then e.count else 0
  }

  /** The size of the packet with which worker `i` connects. */
  function OpenedIn(events: seq<Event>, i: nat): nat
  {
    if events == [] then 0 else
      var e := events[|events| - 1];
      OpenedIn(events[..|events| - 1], i) + if e.EConnect? && e.worker == i then e.first else 0
  }

  function ReceivedBy(s: State, i: nat, inbound: bool): nat
  {
    if i < |s.workers| then Direction(s.workers[i], inbound).received else 0
  }

  function OpenedBy(s: State, i: nat): nat
  {
    if i < |s.workers| then s.workers[i].first else 0
  }

  predicate IsSession(s: State, i: nat)
  {
    i < |s.workers| && !s.workers[i].isTcp
  }

  /** A session passes on each datagram before it takes the next one. */
  predicate PassesOn(w: Worker, inbound: bool)
  {
    var traffic := Direction(w, inbound);
    w.isTcp || traffic.loop == Over
    || traffic.sent + (if traffic.loop.Got? then traffic.loop.count else 0) == traffic.received
  }

  /******* One step *******/

  lemma MovedLedger(w: Worker, e: Event, inbound: bool)
    requires Fair(w) && Moved(w, e).Some?
    ensures var v := Moved(w, e).value;
            && v.isTcp == w.isTcp
            && Direction(v, inbound).received
               == Direction(w, inbound).received + (if e.EReceive? && e.inbound == inbound then e.count else 0)
            && v.first == w.first + (if e.EConnect? && !w.isTcp then e.first else 0)
            && (PassesOn(w, inbound) ==> PassesOn(v, inbound))
  {
  }

  lemma OthersLedger(s: State, e: Event)
    requires Step(s, e).Some? && !IsWorkerEvent(e)
    ensures var t := Step(s, e).value;
            t.workers == s.workers || exists isTcp :: t.workers == s.workers + [NewWorker(isTcp)]
  {
  }

  lemma StepLedger(s: State, e: Event, i: nat, inbound: bool)
    requires Inv(s) && Step(s, e).Some?
    ensures var t := Step(s, e).value;
            && ReceivedBy(t, i, inbound)
               == ReceivedBy(s, i, inbound)
                  + (if e.EReceive? && e.worker == i && e.inbound == inbound then e.count else 0)
            && OpenedBy(t, i)
               == OpenedBy(s, i) + (if e.EConnect? && e.worker == i && IsSession(s, i) then e.first else 0)
            && (IsSession(s, i) ==> IsSession(t, i))
            && (IsSession(t, i) ==> IsSession(s, i) || i >= |s.workers|)
            && (i < |s.workers| ==>
                  i < |t.workers| && (PassesOn(s.workers[i], inbound) ==> PassesOn(t.workers[i], inbound)))
            && (|s.workers| <= i < |t.workers| ==> PassesOn(t.workers[i], inbound))
  {
    if IsWorkerEvent(e) {
      WorkerMoves(s, e);
      assert s.workers[e.worker] in s.workers;
      MovedLedger(s.workers[e.worker], e, inbound);
    } else {
      OthersLedger(s, e);
    }
  }

  /** An event of a worker that has not begun cannot happen. */
  lemma NobodyConnects(s: State, e: Event)
    requires Step(s, e).Some? && e.EConnect?
    ensures e.worker < |s.workers|
  {
    WorkerMoves(s, e);
  }

  /******* Every run *******/

  ghost predicate IsLedger(s: State, events: seq<Event>, i: nat, inbound: bool)
  {
    && ReceivedBy(s, i, inbound) == ReceivedIn(events, i, inbound)
    && (IsSession(s, i) ==> OpenedBy(s, i) == OpenedIn(events, i))
    && (i < |s.workers| ==> PassesOn(s.workers[i], inbound))
    && (i >= |s.workers| ==> OpenedIn(events, i) == 0)
  }

  lemma {:induction false} RunLedger(events: seq<Event>, i: nat, inbound: bool)
    requires Run(INITIAL, events).Some?
    ensures IsLedger(Run(INITIAL, events).value, events, i, inbound)
  {
    if events != [] {
      var front, e := events[..|events| - 1], events[|events| - 1];
      RunLedger(front, i, inbound);
      InitialInv();
      RunKeeps(INITIAL, front);
      var s := Run(INITIAL, front).value;
      StepLedger(s, e, i, inbound);
      if e.EConnect? {
        NobodyConnects(s, e);
      }
    }
  }

  /** What a relay has counted in one direction, in terms of the run: a TCP relay all bytes received, but for the last
      ones while it stands right before counting them; a UDP session in progress the packet that opened it and all
      bytes received, but for those it has yet to pass on or to count. */
  lemma RelayCountsEvents(events: seq<Event>, i: nat, inbound: bool)
    requires Run(INITIAL, events).Some? && i < |Run(INITIAL, events).value.workers|
    ensures var w := Run(INITIAL, events).value.workers[i];
            var loop, counted := Direction(w, inbound).loop, Direction(w, inbound).counted;
            var waiting := if loop.Got? || loop.Sent? then loop.count else 0;
            && (w.isTcp ==> counted + waiting == ReceivedIn(events, i, inbound))
            && (!w.isTcp && loop != Over ==>
                  counted + waiting == ReceivedIn(events, i, inbound) + if inbound then 0 else OpenedIn(events, i))
            && (!w.isTcp && loop == Over ==>
                  counted <= ReceivedIn(events, i, inbound) + if inbound then 0 else OpenedIn(events, i))
  {
    RunLedger(events, i, inbound);
    InitialInv();
    RunKeeps(INITIAL, events);
    var w := Run(INITIAL, events).value.workers[i];
    assert w in Run(INITIAL, events).value.workers;
    assert FairIn(w, inbound);
  }

  /******* Listeners and metrics *******/

  /** While the flag is set a listener that gets to its test goes on to accept, and otherwise it ends. A client that it
      accepts is counted as a worker before the worker begins. */
  lemma ListenersFollowFlag(s: State, isTcp: bool)
    requires AcceptorOf(s, isTcp) == Testing
    ensures Step(s, ETest(isTcp)).Some?
    ensures AcceptorOf(Step(s, ETest(isTcp)).value, isTcp) == if s.running then Accepting else Exited
    ensures AcceptorOf(Step(s, ETest(isTcp)).value, !isTcp) == AcceptorOf(s, !isTcp)
  {
  }

  lemma ClientsAreServed(s: State, isTcp: bool)
    requires AcceptorOf(s, isTcp) == Accepting
    ensures var events := [EAccept(isTcp, true), ECount(isTcp)] + [ESpawn(isTcp)];
            && Run(s, events).Some?
            && var t := Run(s, events).value;
               && t.workers == s.workers + [NewWorker(isTcp)] && t.activeWorkers == s.activeWorkers + 1
               && AcceptorOf(t, isTcp) == Testing && AcceptorOf(t, !isTcp) == AcceptorOf(s, !isTcp)
  {
    var a := Step(s, EAccept(isTcp, true)).value;
    var b := Step(a, ECount(isTcp)).value;
    var one, two := [EAccept(isTcp, true)], [EAccept(isTcp, true), ECount(isTcp)];
    assert one[..0] == [] && Run(s, []) == Some(s);
    assert two[..1] == one && (two + [ESpawn(isTcp)])[..2] == two;
    assert Run(s, one) == Some(a) && Run(s, two) == Some(b);
  }

  /** New rules begin at zero; nobody's metrics are lost. */
  lemma ConfigureKeepsMetrics(s: State, rules: set<string>, rule: string)
    ensures var t := Step(s, EConfigure(rules)).value;
            && MetricOf(t, rule) == MetricOf(s, rule) && t == s.(metrics := t.metrics)
            && (rule in t.metrics <==> rule in rules || rule in s.metrics)
  {
  }
}

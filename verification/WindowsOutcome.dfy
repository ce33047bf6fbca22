/** What the answer to a route request says: the counts, the checks, the connection resets and the verdict. */
module WindowsOutcome {
  import opened Common
  import opened Ipv4
  import opened Protocol
  import opened WindowsRoutes

  /******* Removals *******/

  /** Of removals in this order, from native call `calls` on: those that go through. A text that does not parse takes no
      call, and its removal does not go through. */
  function Gone(native: Native, calls: nat, routes: seq<RouteSpec>): seq<RouteSpec>
    decreases |routes|
  {
    if routes == [] then []
    else if PopulateRow(native, routes[0]).None? then Gone(native, calls, routes[1..])
    else (if native.fails(calls) then [] else [routes[0]]) + Gone(native, calls + 1, routes[1..])
  }

  /** And those that do not. */
  function Stuck(native: Native, calls: nat, routes: seq<RouteSpec>): seq<RouteSpec>
    decreases |routes|
  {
    if routes == [] then []
    else if PopulateRow(native, routes[0]).None? then [routes[0]] + Stuck(native, calls, routes[1..])
    else (if native.fails(calls) then [routes[0]] else []) + Stuck(native, calls + 1, routes[1..])
  }

  function Destinations(routes: seq<RouteSpec>): set<string>
  {
    set r | r in routes :: r.destination
  }

  lemma DestinationsCons(r: RouteSpec, rest: seq<RouteSpec>)
    ensures Destinations([r] + rest) == {r.destination} + Destinations(rest)
  {
    assert forall x :: x in [r] + rest <==> x == r || x in rest;
  }

  function NotRemovedAll(routes: seq<RouteSpec>): seq<Problem>
  {
    if routes == [] then [] else [NotRemoved(routes[0].tag)] + NotRemovedAll(routes[1..])
  }

  /** What the removals change of the work, given which go through. */
  ghost predicate Removes(w: Work, v: Work, gone: seq<RouteSpec>, stuck: seq<RouteSpec>)
  {
    && v.next == w.next + stuck && v.removed == w.removed + |gone|
    && v.removedDestinations == w.removedDestinations + Destinations(gone)
    && v.added == w.added && v.checks == w.checks && v.addedDestinations == w.addedDestinations
    && v.errors == w.errors + NotRemovedAll(stuck)
  }

  lemma RemovesOneGone(native: Native, desired: seq<RouteSpec>, w: Work, r: RouteSpec, v: Work, gone: seq<RouteSpec>,
                       stuck: seq<RouteSpec>)
    requires r !in desired && Remove(native, w.kernel, r).0
    requires Removes(RemoveOne(native, desired, w, r), v, gone, stuck)
    ensures Removes(w, v, [r] + gone, stuck)
  {
    DestinationsCons(r, gone);
  }

  lemma RemovesOneStuck(native: Native, desired: seq<RouteSpec>, w: Work, r: RouteSpec, v: Work, gone: seq<RouteSpec>,
                        stuck: seq<RouteSpec>)
    requires r !in desired && !Remove(native, w.kernel, r).0
    requires Removes(RemoveOne(native, desired, w, r), v, gone, stuck)
    ensures Removes(w, v, gone, [r] + stuck)
  {
    Snoc(w.next, r, stuck);
    Snoc(w.errors, NotRemoved(r.tag), NotRemovedAll(stuck));
    assert ([r] + stuck)[1..] == stuck;
  }

  /** One removal, and the number of the next native call. */
  lemma RemovalCalls(native: Native, kernel: Kernel, r: RouteSpec)
    ensures var (removed, after) := Remove(native, kernel, r);
            && (removed <==> PopulateRow(native, r).Some? && !native.fails(kernel.calls))
            && after.calls == kernel.calls + (if PopulateRow(native, r).Some? then 1 else 0)
  {
  }

  lemma GoneCons(native: Native, calls: nat, r: RouteSpec, rest: seq<RouteSpec>)
    ensures var next := calls + (if PopulateRow(native, r).Some? then 1 else 0);
            var goes := PopulateRow(native, r).Some? && !native.fails(calls);
            && Gone(native, calls, [r] + rest) == (if goes then [r] else []) + Gone(native, next, rest)
            && Stuck(native, calls, [r] + rest) == (if goes then [] else [r]) + Stuck(native, next, rest)
  {
    assert ([r] + rest)[1..] == rest;
    assert [] + Gone(native, calls, rest) == Gone(native, calls, rest);
  }

  lemma {:induction false} RemovePhaseExactly(native: Native, desired: seq<RouteSpec>, w: Work, routes: seq<RouteSpec>)
    ensures var unwanted, v := Without(routes, desired), RemovePhase(native, desired, w, routes);
            Removes(w, v, Gone(native, w.kernel.calls, unwanted), Stuck(native, w.kernel.calls, unwanted))
    decreases |routes|
  {
    if routes == [] {
      assert w.next + [] == w.next && w.errors + [] == w.errors && Destinations([]) == {};
    } else {
      var r, rest := routes[0], Without(routes[1..], desired);
      RemovePhaseExactly(native, desired, RemoveOne(native, desired, w, r), routes[1..]);
      if r in desired {
        assert [] + rest == rest;
      } else {
        RemovalCalls(native, w.kernel, r);
        GoneCons(native, w.kernel.calls, r, rest);
        var next := Remove(native, w.kernel, r).1.calls;
        var gone, stuck := Gone(native, next, rest), Stuck(native, next, rest);
        assert [] + gone == gone && [] + stuck == stuck;
        if Remove(native, w.kernel, r).0 {
          RemovesOneGone(native, desired, w, r, RemovePhase(native, desired, w, routes), gone, stuck);
        } else {
          RemovesOneStuck(native, desired, w, r, RemovePhase(native, desired, w, routes), gone, stuck);
        }
      }
    }
  }

  /******* Requests *******/

  /** What becomes of one requested route: whether the inventory has it, whether a native add for it went through or a
      repair did not, and the check that is concluded. */
  datatype Turn = Lost | Kept(installed: bool, broken: bool, check: Check)

  /** Its turn: an unrecorded route is added; if that works, or it was recorded, it is inspected; a recorded one that is
      not there is added again and then inspected once more. */
  function TurnOf(native: Native, recorded: bool, kernel: Kernel, r: RouteSpec): (Turn, Kernel)
  {
    var (there, begun) := if recorded then (true, kernel) else Add(native, kernel, r);
    if !there then (Lost, begun) else
      var (first, seen) := Inspect(native, begun, r);
      if !recorded then (Kept(true, false, first), seen)
      else if first.exactPresent then (Kept(false, false, first), seen)
      else
        var (again, repaired) := Add(native, seen, r);
        if !again then (Kept(false, true, first), repaired) else
          var (second, last) := Inspect(native, repaired, r);
          (Kept(true, false, second), last)
  }

  function Turns(native: Native, managed: seq<RouteSpec>, kernel: Kernel, routes: seq<RouteSpec>): seq<Turn>
    decreases |routes|
  {
    if routes == [] then [] else
      var (turn, next) := TurnOf(native, routes[0] in managed, kernel, routes[0]);
      [turn] + Turns(native, managed, next, routes[1..])
  }

  lemma {:induction false} TurnsSize(native: Native, managed: seq<RouteSpec>, kernel: Kernel, routes: seq<RouteSpec>)
    ensures |Turns(native, managed, kernel, routes)| == |routes|
    decreases |routes|
  {
    if routes != [] {
      TurnsSize(native, managed, TurnOf(native, routes[0] in managed, kernel, routes[0]).1, routes[1..]);
    }
  }

  function KeptOf(turns: seq<Turn>, routes: seq<RouteSpec>): seq<RouteSpec>
    requires |turns| == |routes|
  {
    if turns == [] then [] else (if turns[0].Kept? then [routes[0]] else []) + KeptOf(turns[1..], routes[1..])
  }

  function InstalledOf(turns: seq<Turn>, routes: seq<RouteSpec>): seq<RouteSpec>
    requires |turns| == |routes|
  {
    if turns == [] then []
    else (if turns[0].Kept? && turns[0].installed then [routes[0]] else []) + InstalledOf(turns[1..], routes[1..])
  }

  function ChecksOf(turns: seq<Turn>): seq<Check>
  {
    if turns == [] then [] else (if turns[0].Kept? then [turns[0].check] else []) + ChecksOf(turns[1..])
  }

  /** What one turn reports. */
  function Reports(turn: Turn, r: RouteSpec): seq<Problem>
  {
    if turn.Lost? then [NotAdded(r.tag)]
    else (if turn.broken then [NotRepaired(r.destination)] else [])
         + (if turn.check.verified then [] else [NotVerified(r.destination)])
  }

  function ReportsOf(turns: seq<Turn>, routes: seq<RouteSpec>): seq<Problem>
    requires |turns| == |routes|
  {
    if turns == [] then [] else Reports(turns[0], routes[0]) + ReportsOf(turns[1..], routes[1..])
  }

  /** A repair that did not work leaves the check unverified, and a check is about its route. */
  predicate Sensible(turn: Turn, r: RouteSpec)
  {
    turn.Kept? ==> turn.check.destination == r.destination && (turn.broken ==> !turn.check.verified)
  }

  /** The turn went well. */
  predicate Fine(turn: Turn)
  {
    turn.Kept? && turn.check.verified
  }

  predicate AllSensible(turns: seq<Turn>, routes: seq<RouteSpec>)
    requires |turns| == |routes|
  {
    forall i | 0 <= i < |turns| :: Sensible(turns[i], routes[i])
  }

  predicate AllFine(turns: seq<Turn>)
  {
    forall t | t in turns :: Fine(t)
  }

  /** What the requests change of the work, given their turns. */
  ghost predicate Adds(w: Work, v: Work, turns: seq<Turn>, routes: seq<RouteSpec>)
    requires |turns| == |routes|
  {
    && v.next == w.next + KeptOf(turns, routes) && v.added == w.added + |InstalledOf(turns, routes)|
    && v.addedDestinations == w.addedDestinations + Destinations(InstalledOf(turns, routes))
    && v.checks == w.checks + ChecksOf(turns)
    && v.removed == w.removed && v.removedDestinations == w.removedDestinations
    && v.errors == w.errors + ReportsOf(turns, routes) && AllSensible(turns, routes)
  }

  /** One request changes the work as its turn says. */
  ghost predicate AddsOne(w: Work, v: Work, turn: Turn, r: RouteSpec)
  {
    && v.next == (if turn.Kept? then w.next + [r] else w.next)
    && v.added == w.added + (if turn.Kept? && turn.installed then 1 else 0)
    && v.addedDestinations == w.addedDestinations + (if turn.Kept? && turn.installed then {r.destination} else {})
    && v.checks == (if turn.Kept? then w.checks + [turn.check] else w.checks)
    && v.removed == w.removed && v.removedDestinations == w.removedDestinations
    && v.errors == w.errors + Reports(turn, r) && Sensible(turn, r)
  }

  lemma InspectedHere(native: Native, kernel: Kernel, r: RouteSpec)
    ensures !Inspect(native, kernel, r).0.exactPresent ==> !Inspect(native, kernel, r).0.verified
    ensures Inspect(native, kernel, r).0.destination == r.destination
  {
  }

  /** What concluding with a check changes, for a route that was installed, or whose repair is broken, or neither. */
  lemma ConcludedAdds(w: Work, kernel: Kernel, r: RouteSpec, installed: bool, broken: bool, check: Check)
    requires check.destination == r.destination && (broken ==> !installed && !check.verified)
    ensures var v := w.(kernel := kernel, next := w.next + [r], added := w.added + (if installed then 1 else 0),
                        addedDestinations := w.addedDestinations + (if installed then {r.destination} else {}),
                        errors := w.errors + (if broken then [NotRepaired(r.destination)] else []));
            AddsOne(w, Conclude(v, check), Kept(installed, broken, check), r)
  {
    if !check.verified {
      Concat(w.errors, if broken then [NotRepaired(r.destination)] else [], [NotVerified(r.destination)]);
    }
    assert w.errors + [] == w.errors && w.addedDestinations + {} == w.addedDestinations;
  }

  lemma PresentTurn(native: Native, managed: seq<RouteSpec>, w: Work, r: RouteSpec, first: Check, seen: Kernel)
    requires r in managed && (first, seen) == Inspect(native, w.kernel, r) && first.exactPresent
    ensures var (turn, next) := TurnOf(native, true, w.kernel, r);
            AddsOne(w, AddOne(native, managed, w, r), turn, r) && AddOne(native, managed, w, r).kernel == next
  {
    InspectedHere(native, w.kernel, r);
    ConcludedAdds(w, seen, r, false, false, first);
    assert w.errors + [] == w.errors && w.addedDestinations + {} == w.addedDestinations;
  }

  lemma BrokenTurn(native: Native, managed: seq<RouteSpec>, w: Work, r: RouteSpec, first: Check, seen: Kernel,
                   kernel: Kernel)
    requires r in managed && (first, seen) == Inspect(native, w.kernel, r) && !first.exactPresent
    requires Add(native, seen, r) == (false, kernel)
    ensures var (turn, next) := TurnOf(native, true, w.kernel, r);
            AddsOne(w, AddOne(native, managed, w, r), turn, r) && AddOne(native, managed, w, r).kernel == next
  {
    InspectedHere(native, w.kernel, r);
    ConcludedAdds(w, kernel, r, false, true, first);
    assert w.addedDestinations + {} == w.addedDestinations;
  }

  lemma RepairedTurn(native: Native, managed: seq<RouteSpec>, w: Work, r: RouteSpec, first: Check, seen: Kernel,
                     kernel: Kernel, second: Check, last: Kernel)
    requires r in managed && (first, seen) == Inspect(native, w.kernel, r) && !first.exactPresent
    requires Add(native, seen, r) == (true, kernel) && (second, last) == Inspect(native, kernel, r)
    ensures var (turn, next) := TurnOf(native, true, w.kernel, r);
            AddsOne(w, AddOne(native, managed, w, r), turn, r) && AddOne(native, managed, w, r).kernel == next
  {
    InspectedHere(native, kernel, r);
    ConcludedAdds(w, last, r, true, false, second);
    assert w.errors + [] == w.errors;
  }

  lemma RecordedTurn(native: Native, managed: seq<RouteSpec>, w: Work, r: RouteSpec)
    requires r in managed
    ensures var (turn, next) := TurnOf(native, true, w.kernel, r);
            AddsOne(w, AddOne(native, managed, w, r), turn, r) && AddOne(native, managed, w, r).kernel == next
  {
    var (first, seen) := Inspect(native, w.kernel, r);
    if first.exactPresent {
      PresentTurn(native, managed, w, r, first, seen);
    } else {
      var (added, kernel) := Add(native, seen, r);
      if added {
        var (second, last) := Inspect(native, kernel, r);
        RepairedTurn(native, managed, w, r, first, seen, kernel, second, last);
      } else {
        BrokenTurn(native, managed, w, r, first, seen, kernel);
      }
    }
  }

  lemma LostTurn(native: Native, managed: seq<RouteSpec>, w: Work, r: RouteSpec)
    requires r !in managed && !Add(native, w.kernel, r).0
    ensures var (turn, next) := TurnOf(native, false, w.kernel, r);
            AddsOne(w, AddOne(native, managed, w, r), turn, r) && AddOne(native, managed, w, r).kernel == next
  {
  }

  lemma NewTurn(native: Native, managed: seq<RouteSpec>, w: Work, r: RouteSpec, kernel: Kernel, check: Check,
                seen: Kernel)
    requires r !in managed && Add(native, w.kernel, r) == (true, kernel) && (check, seen) == Inspect(native, kernel, r)
    ensures var (turn, next) := TurnOf(native, false, w.kernel, r);
            AddsOne(w, AddOne(native, managed, w, r), turn, r) && AddOne(native, managed, w, r).kernel == next
  {
    InspectedHere(native, kernel, r);
    ConcludedAdds(w, seen, r, true, false, check);
    assert w.errors + [] == w.errors;
  }

  lemma UnrecordedTurn(native: Native, managed: seq<RouteSpec>, w: Work, r: RouteSpec)
    requires r !in managed
    ensures var (turn, next) := TurnOf(native, false, w.kernel, r);
            AddsOne(w, AddOne(native, managed, w, r), turn, r) && AddOne(native, managed, w, r).kernel == next
  {
    var (added, kernel) := Add(native, w.kernel, r);
    if added {
      var (check, seen) := Inspect(native, kernel, r);
      NewTurn(native, managed, w, r, kernel, check, seen);
    } else {
      LostTurn(native, managed, w, r);
    }
  }

  lemma ListsOfTurns(turn: Turn, turns: seq<Turn>, r: RouteSpec, routes: seq<RouteSpec>)
    requires |turns| == |routes|
    ensures var ts, rs := [turn] + turns, [r] + routes;
            && KeptOf(ts, rs) == (if turn.Kept? then [r] else []) + KeptOf(turns, routes)
            && InstalledOf(ts, rs) == (if turn.Kept? && turn.installed then [r] else []) + InstalledOf(turns, routes)
            && ChecksOf(ts) == (if turn.Kept? then [turn.check] else []) + ChecksOf(turns)
            && ReportsOf(ts, rs) == Reports(turn, r) + ReportsOf(turns, routes)
  {
    assert ([turn] + turns)[1..] == turns && ([r] + routes)[1..] == routes;
  }

  lemma SensibleTurns(turn: Turn, turns: seq<Turn>, r: RouteSpec, routes: seq<RouteSpec>)
    requires |turns| == |routes| && Sensible(turn, r) && AllSensible(turns, routes)
    ensures AllSensible([turn] + turns, [r] + routes)
  {
    var ts, rs := [turn] + turns, [r] + routes;
    forall i | 0 <= i < |ts| ensures Sensible(ts[i], rs[i]) {
      if i > 0 {
        assert ts[i] == turns[i - 1] && rs[i] == routes[i - 1];
      }
    }
  }

  lemma AddsMore(w: Work, u: Work, v: Work, turn: Turn, turns: seq<Turn>, r: RouteSpec, routes: seq<RouteSpec>)
    requires |turns| == |routes| && AddsOne(w, u, turn, r) && Adds(u, v, turns, routes)
    ensures Adds(w, v, [turn] + turns, [r] + routes)
  {
    var kept, installed, checks := KeptOf(turns, routes), InstalledOf(turns, routes), ChecksOf(turns);
    ListsOfTurns(turn, turns, r, routes);
    SensibleTurns(turn, turns, r, routes);
    assert [] + kept == kept && [] + installed == installed && [] + checks == checks;
    DestinationsCons(r, installed);
    if turn.Kept? {
      Snoc(w.next, r, kept);
      Snoc(w.checks, turn.check, checks);
    }
    Concat(w.errors, Reports(turn, r), ReportsOf(turns, routes));
  }

  lemma {:induction false} AddPhaseExactly(native: Native, managed: seq<RouteSpec>, w: Work, routes: seq<RouteSpec>)
    ensures |Turns(native, managed, w.kernel, routes)| == |routes|
    ensures Adds(w, AddPhase(native, managed, w, routes), Turns(native, managed, w.kernel, routes), routes)
    decreases |routes|
  {
    TurnsSize(native, managed, w.kernel, routes);
    if routes == [] {
      assert w.next + [] == w.next && w.checks + [] == w.checks && w.errors + [] == w.errors && Destinations([]) == {};
    } else {
      var r, rest := routes[0], routes[1..];
      var u := AddOne(native, managed, w, r);
      if r in managed {
        RecordedTurn(native, managed, w, r);
      } else {
        UnrecordedTurn(native, managed, w, r);
      }
      AddPhaseExactly(native, managed, u, rest);
      AddsMore(w, u, AddPhase(native, managed, u, rest), TurnOf(native, r in managed, w.kernel, r).0,
               Turns(native, managed, u.kernel, rest), r, rest);
      assert [r] + rest == routes;
    }
  }

  /******* The answer *******/

  /** The answer, by what became of removals and requests. */
  ghost predicate Answers(outcome: Outcome, gone: seq<RouteSpec>, stuck: seq<RouteSpec>, turns: seq<Turn>,
                          desired: seq<RouteSpec>)
    requires |turns| == |desired|
  {
    && outcome.removed == |gone| && outcome.added == |InstalledOf(turns, desired)|
    && outcome.checks == ChecksOf(turns)
    && outcome.errors == NotRemovedAll(stuck) + ReportsOf(turns, desired)
    && (outcome.ok <==> stuck == [] && AllFine(turns))
    && (forall d :: d in outcome.resets
          <==> d in Destinations(gone)
               || (d in Destinations(InstalledOf(turns, desired)) && d in Verified(ChecksOf(turns))))
  }

  /** The removal loop leaves the kernel as a cleanup of the unwanted entries would. */
  lemma {:induction false} RemovalsCleanUp(native: Native, desired: seq<RouteSpec>, w: Work, routes: seq<RouteSpec>)
    ensures RemovePhase(native, desired, w, routes).kernel == CleanupSpec(native, w.kernel, Without(routes, desired))
    decreases |routes|
  {
    if routes != [] {
      var r, rest := routes[0], Without(routes[1..], desired);
      RemovalsCleanUp(native, desired, RemoveOne(native, desired, w, r), routes[1..]);
      if r in desired {
        assert [] + rest == rest;
      } else {
        assert ([r] + rest)[1..] == rest;
      }
    }
  }

  /** Whatever fails: the answer counts the removals that went through and the native adds, it holds one check for each
      requested route that is kept, in order, it is "ok" exactly when nothing is stuck and every request is kept and
      verified, and connections are reset exactly for destinations of removed routes, and of routes that were added and
      have a verified check. The inventory is what is stuck and what is kept. */
  lemma AnswerExactly(native: Native, managed: seq<RouteSpec>, kernel: Kernel, desired: seq<RouteSpec>)
    requires forall r | r in desired :: IsValidRoute(r)
    ensures var unwanted := Without(managed, desired);
            var gone, stuck := Gone(native, kernel.calls, unwanted), Stuck(native, kernel.calls, unwanted);
            var turns := Turns(native, managed, CleanupSpec(native, kernel, unwanted), desired);
            var (inventory, after, outcome) := ReconcileSpec(native, managed, kernel, desired);
            && |turns| == |desired| && Answers(outcome, gone, stuck, turns, desired)
            && inventory == stuck + KeptOf(turns, desired)
  {
    var removed := RemovePhase(native, desired, Start(kernel), managed);
    RemovePhaseExactly(native, desired, Start(kernel), managed);
    RemovalsCleanUp(native, desired, Start(kernel), managed);
    AddPhaseExactly(native, managed, removed, desired);
    ReconcileIsPhases(native, managed, kernel, desired);
    var unwanted := Without(managed, desired);
    FinishedAnswer(Start(kernel), removed, AddPhase(native, managed, removed, desired),
                   Gone(native, kernel.calls, unwanted), Stuck(native, kernel.calls, unwanted),
                   Turns(native, managed, removed.kernel, desired), desired);
  }

  lemma FinishedAnswer(start: Work, removed: Work, w: Work, gone: seq<RouteSpec>, stuck: seq<RouteSpec>,
                       turns: seq<Turn>, desired: seq<RouteSpec>)
    requires |turns| == |desired| && start == Start(start.kernel)
    requires Removes(start, removed, gone, stuck) && Adds(removed, w, turns, desired)
    ensures Answers(Finish(w), gone, stuck, turns, desired) && w.next == stuck + KeptOf(turns, desired)
  {
    assert [] + stuck == stuck && [] + ChecksOf(turns) == ChecksOf(turns);
    assert {} + Destinations(gone) == Destinations(gone);
    assert [] + NotRemovedAll(stuck) == NotRemovedAll(stuck);
    FineReportsNothing(turns, desired);
  }

  lemma {:induction false} FineReportsNothing(turns: seq<Turn>, routes: seq<RouteSpec>)
    requires |turns| == |routes| && AllSensible(turns, routes)
    ensures ReportsOf(turns, routes) == [] <==> AllFine(turns)
  {
    if turns != [] {
      FineReportsNothing(turns[1..], routes[1..]);
      assert forall t :: t in turns <==> t == turns[0] || t in turns[1..];
      assert Reports(turns[0], routes[0]) == [] <==> Fine(turns[0]);
    }
  }

  /******* What a check, a row and a refusal say *******/

  /** A check finds the row if the table can be read and has it. It verifies the route if, besides, the system sends
      traffic for it over its adapter and, where it has a gateway, over that gateway. */
  lemma InspectExactly(native: Native, kernel: Kernel, r: RouteSpec)
    ensures var (check, after) := Inspect(native, kernel, r);
            var row, best := PopulateRow(native, r), native.best(kernel.calls + 1);
            && check.destination == r.destination && after.rows == kernel.rows && after.owned == kernel.owned
            && (check.exactPresent <==> row.Some? && row.value in kernel.rows && native.readable(kernel.calls))
            && (check.verified
                <==> check.exactPresent && best.Some? && best.value.0 == row.value.luid
                     && (r.gateway != "" ==> best.value.1 != ZERO && native.inetNtop(best.value.1) == r.gateway))
  {
  }

  /** A route has a row if its four texts parse, the adapter number into 64 bits; the row has the masked address. */
  lemma RowExactly(native: Native, r: RouteSpec, row: Row)
    ensures PopulateRow(native, r) == Some(row)
            <==> var address, length := native.inetPton(Before(r.destination, '/')), After(r.destination, '/');
                 && address.Some? && IsLengthText(length) && ToNat(length) == row.length
                 && row.network == Network(address.value, row.length)
                 && r.interfaceLuid != "" && AllDigits(r.interfaceLuid) && ToNat(r.interfaceLuid) == row.luid
                 && row.luid < 0x1_0000_0000_0000_0000
                 && (if r.gateway == "" then row.nextHop == ZERO else native.inetPton(r.gateway) == Some(row.nextHop))
  {
  }

  function Refused(desired: seq<RouteSpec>): seq<RouteSpec>
  {
    if desired == [] then [] else (if IsValidRoute(desired[0]) then [] else [desired[0]]) + Refused(desired[1..])
  }

  function InvalidAll(routes: seq<RouteSpec>): seq<Problem>
  {
    if routes == [] then [] else [Invalid(routes[0].tag)] + InvalidAll(routes[1..])
  }

  lemma {:induction false} RefusedSnoc(front: seq<RouteSpec>, last: RouteSpec)
    ensures InvalidAll(Refused(front + [last]))
            == InvalidAll(Refused(front)) + (if IsValidRoute(last) then [] else [Invalid(last.tag)])
  {
    if front == [] {
      assert [] + [last] == [last] && [last][1..] == [];
      assert [] + InvalidAll(Refused([])) == [];
    } else {
      assert (front + [last])[1..] == front[1..] + [last];
      RefusedSnoc(front[1..], last);
      var rest, more := Refused(front[1..]), Refused(front[1..] + [last]);
      assert ([front[0]] + rest)[1..] == rest && ([front[0]] + more)[1..] == more;
      assert [] + rest == rest && [] + more == more;
    }
  }

  lemma {:induction false} RefusedInOrder(desired: seq<RouteSpec>)
    ensures InvalidRoutes(desired) == InvalidAll(Refused(desired))
  {
    if desired != [] {
      var front, last := desired[..|desired| - 1], desired[|desired| - 1];
      RefusedInOrder(front);
      RefusedSnoc(front, last);
      assert front + [last] == desired;
    }
  }

  /** A request with an unacceptable route does nothing, and the answer names the tag of each such route, in order. */
  lemma RefusedExactly(native: Native, managed: seq<RouteSpec>, kernel: Kernel, desired: seq<RouteSpec>)
    requires exists r :: r in desired && !IsValidRoute(r)
    ensures ReconcileSpec(native, managed, kernel, desired)
            == (managed, kernel, Outcome(false, 0, 0, InvalidAll(Refused(desired)), [], {}))
  {
    RefusedInOrder(desired);
  }

  /******* Without failures *******/

  /** The requested routes that are unrecorded, or whose row is missing when their turn comes. */
  function Installs(native: Native, managed: seq<RouteSpec>, rows: set<Row>, routes: seq<RouteSpec>): seq<RouteSpec>
    requires Parsable(native, routes)
    decreases |routes|
  {
    if routes == [] then [] else
      var row := PopulateRow(native, routes[0]).value;
      (if routes[0] in managed && row in rows then [] else [routes[0]])
      + Installs(native, managed, rows + {row}, routes[1..])
  }

  lemma {:induction false} AllGone(native: Native, calls: nat, routes: seq<RouteSpec>)
    requires NoFailures(native) && Parsable(native, routes)
    ensures Gone(native, calls, routes) == routes
    decreases |routes|
  {
    if routes != [] {
      var rest := Gone(native, calls + 1, routes[1..]);
      assert routes[0] in routes;
      AllGone(native, calls + 1, routes[1..]);
      assert Gone(native, calls, routes) == [routes[0]] + rest;
    }
  }

  lemma {:induction false} NothingStuck(native: Native, calls: nat, routes: seq<RouteSpec>)
    requires NoFailures(native) && Parsable(native, routes)
    ensures Stuck(native, calls, routes) == []
    decreases |routes|
  {
    if routes != [] {
      assert routes[0] in routes;
      NothingStuck(native, calls + 1, routes[1..]);
    }
  }

  /** A turn without failures. */
  lemma TurnWithoutFailures(native: Native, recorded: bool, kernel: Kernel, r: RouteSpec)
    requires NoFailures(native) && PopulateRow(native, r).Some?
    ensures var (turn, next) := TurnOf(native, recorded, kernel, r);
            var row := PopulateRow(native, r).value;
            && turn.Kept? && turn.installed == !(recorded && row in kernel.rows)
            && turn.check.destination == r.destination && turn.check.exactPresent
            && next.rows == kernel.rows + {row}
  {
  }

  lemma {:induction false} TurnsWithoutFailures(native: Native, managed: seq<RouteSpec>, kernel: Kernel,
                                                routes: seq<RouteSpec>)
    requires NoFailures(native) && Parsable(native, routes)
    ensures var turns := Turns(native, managed, kernel, routes);
            && |turns| == |routes| && InstalledOf(turns, routes) == Installs(native, managed, kernel.rows, routes)
            && |ChecksOf(turns)| == |routes|
            && forall i | 0 <= i < |routes| ::
                 ChecksOf(turns)[i].destination == routes[i].destination && ChecksOf(turns)[i].exactPresent
    decreases |routes|
  {
    TurnsSize(native, managed, kernel, routes);
    if routes != [] {
      var (turn, next) := TurnOf(native, routes[0] in managed, kernel, routes[0]);
      assert routes[0] in routes;
      TurnWithoutFailures(native, routes[0] in managed, kernel, routes[0]);
      TurnsWithoutFailures(native, managed, next, routes[1..]);
      var turns, rest := Turns(native, managed, kernel, routes), Turns(native, managed, next, routes[1..]);
      ListsOfTurns(turn, rest, routes[0], routes[1..]);
      assert turns == [turn] + rest && routes == [routes[0]] + routes[1..];
      ChecksInOrder(turn.check, ChecksOf(rest), routes);
    }
  }

  lemma ChecksInOrder(check: Check, rest: seq<Check>, routes: seq<RouteSpec>)
    requires routes != [] && |rest| == |routes[1..]|
    requires check.destination == routes[0].destination && check.exactPresent
    requires forall i | 0 <= i < |rest| :: rest[i].destination == routes[1..][i].destination && rest[i].exactPresent
    ensures forall i | 0 <= i < |routes| ::
              ([check] + rest)[i].destination == routes[i].destination && ([check] + rest)[i].exactPresent
  {
    forall i | 0 <= i < |routes|
      ensures ([check] + rest)[i].destination == routes[i].destination && ([check] + rest)[i].exactPresent {
      if i > 0 {
        assert ([check] + rest)[i] == rest[i - 1] && routes[i] == routes[1..][i - 1];
      }
    }
  }

  /** Without failures: every entry no longer wanted counts as removed, every request that is unrecorded or whose row is
      missing when its turn comes as added, there is one check for each request, in order, that finds the row, and
      connections are reset for the destinations removed and, where a check verifies them, for those added. */
  lemma AnswerWithoutFailures(native: Native, managed: seq<RouteSpec>, kernel: Kernel, desired: seq<RouteSpec>)
    requires NoFailures(native) && Parsable(native, managed) && Parsable(native, desired)
    requires forall r | r in desired :: IsValidRoute(r)
    ensures var unwanted := Without(managed, desired);
            var installs := Installs(native, managed, kernel.rows - RowsOf(native, unwanted), desired);
            var outcome := ReconcileSpec(native, managed, kernel, desired).2;
            && outcome.removed == |unwanted| && outcome.added == |installs|
            && |outcome.checks| == |desired|
            && (forall i | 0 <= i < |desired| ::
                  outcome.checks[i].destination == desired[i].destination && outcome.checks[i].exactPresent)
            && (forall d :: d in outcome.resets
                  <==> d in Destinations(unwanted) || (d in Destinations(installs) && d in Verified(outcome.checks)))
  {
    var unwanted := Without(managed, desired);
    AnswerExactly(native, managed, kernel, desired);
    AllGone(native, kernel.calls, unwanted);
    NothingStuck(native, kernel.calls, unwanted);
    RemovalsCleanUp(native, desired, Start(kernel), managed);
    RemovePhaseConverges(native, desired, Start(kernel), managed);
    TurnsWithoutFailures(native, managed, CleanupSpec(native, kernel, unwanted), desired);
  }
}

/** The privileged Windows route inventory against a volatile kernel table. */
module WindowsRoutes {
  import opened Common
  import opened Ipv4
  import opened Protocol

  datatype Row = Row(network: Word, length: PrefixLength, luid: nat, nextHop: Word)

  /** What the operating system decides: its address parser and printer, and for the n-th native call whether
      it fails, whether the table can be read and which best route is reported. */
  datatype Native = Native(
    inetPton: string -> Option<Word>,
    inetNtop: Word -> string,
    fails: nat -> bool,
    readable: nat -> bool,
    best: nat -> Option<(nat, Word)>)

  /** Kernel rows; `owned` are the rows that a successful create call of ours made and nobody deleted since. */
  datatype Kernel = Kernel(rows: set<Row>, owned: set<Row>, calls: nat)

  datatype Problem =
    | Invalid(tag: string)
    | NotRemoved(tag: string)
    | NotAdded(tag: string)
    | NotRepaired(destination: string)
    | NotVerified(destination: string)

  datatype Check = Check(destination: string, exactPresent: bool, verified: bool)

  datatype Outcome = Outcome(
    ok: bool,
    added: nat,
    removed: nat,
    errors: seq<Problem>,
    checks: seq<Check>,
    resets: set<string>)

  /** The locals of one call. */
  datatype Work = Work(
    kernel: Kernel,
    next: seq<RouteSpec>,
    added: nat,
    removed: nat,
    errors: seq<Problem>,
    checks: seq<Check>,
    removedDestinations: set<string>,
    addedDestinations: set<string>)

  /******* Native steps *******/

  const TWO_64: nat := 0x1_0000_0000_0000_0000

  /** `std::stoull` on an accepted LUID: out of range is caught and reported. */
  function Stoull(digits: string): Option<nat>
  {
    if digits != "" && AllDigits(digits) && ToNat(digits) < TWO_64 then Some(ToNat(digits)) else None
  }

  function LengthOf(text: string): Option<PrefixLength>
  {
    if IsLengthText(text) then LengthTextInRange(text); Some(ToNat(text)) else None
  }

  /** The row a specification stands for, or None when a text does not parse. */
  function PopulateRow(native: Native, route: RouteSpec): Option<Row>
  {
    var luid := Stoull(route.interfaceLuid);
    var length := LengthOf(After(route.destination, '/'));
    var address := native.inetPton(Before(route.destination, '/'));
    var hop := if route.gateway == "" then Some(ZERO) else native.inetPton(route.gateway);
    if luid.None? || length.None? || address.None? || hop.None? then None
    else Some(Row(Network(address.value, length.value), length.value, luid.value, hop.value))
  }

  /** CreateIpForwardEntry2; "already exists" counts as success and creates nothing. */
  function Add(native: Native, kernel: Kernel, route: RouteSpec): (bool, Kernel)
  {
    var row := PopulateRow(native, route);
    if row.None? then (false, kernel)
    else if native.fails(kernel.calls) then (false, kernel.(calls := kernel.calls + 1))
    else if row.value in kernel.rows then (true, kernel.(calls := kernel.calls + 1))
    else (true, Kernel(kernel.rows + {row.value}, kernel.owned + {row.value}, kernel.calls + 1))
  }

  /** DeleteIpForwardEntry2; "not found" counts as success. */
  function Remove(native: Native, kernel: Kernel, route: RouteSpec): (bool, Kernel)
  {
    var row := PopulateRow(native, route);
    if row.None? then (false, kernel)
    else if native.fails(kernel.calls) then (false, kernel.(calls := kernel.calls + 1))
    else (true, Kernel(kernel.rows - {row.value}, kernel.owned - {row.value}, kernel.calls + 1))
  }

  function Inspect(native: Native, kernel: Kernel, route: RouteSpec): (Check, Kernel)
  {
    var expected := PopulateRow(native, route);
    if expected.None? then (Check(route.destination, false, false), kernel)
    else
      var exact := native.readable(kernel.calls) && expected.value in kernel.rows;
      var best := native.best(kernel.calls + 1);
      var verified := exact && best.Some? && best.value.0 == expected.value.luid
        && (route.gateway == "" || (best.value.1 != ZERO && native.inetNtop(best.value.1) == route.gateway));
      (Check(route.destination, exact, verified), kernel.(calls := kernel.calls + 2))
  }

  /******* One call as a function *******/

  function RemoveOne(native: Native, desired: seq<RouteSpec>, w: Work, route: RouteSpec): Work
  {
    if route in desired then w else
      var (removed, kernel) := Remove(native, w.kernel, route);
      if removed then
        w.(kernel := kernel, removed := w.removed + 1,
           removedDestinations := w.removedDestinations + {route.destination})
      else
        w.(kernel := kernel, errors := w.errors + [NotRemoved(route.tag)], next := w.next + [route])
  }

  function RemovePhase(native: Native, desired: seq<RouteSpec>, w: Work, routes: seq<RouteSpec>): Work
    decreases |routes|
  {
    if routes == [] then w
    else RemovePhase(native, desired, RemoveOne(native, desired, w, routes[0]), routes[1..])
  }

  /** Inspect a recorded or freshly added route, and repair it when the table lost it. */
  function CheckOne(native: Native, recorded: bool, w: Work, route: RouteSpec): Work
  {
    var (check, seen) := Inspect(native, w.kernel, route);
    var inspected := w.(kernel := seen);
    if !check.exactPresent && recorded then
      var (added, kernel) := Add(native, seen, route);
      if added then
        var (again, last) := Inspect(native, kernel, route);
        Conclude(inspected.(kernel := last, added := w.added + 1,
                            addedDestinations := w.addedDestinations + {route.destination}), again)
      else
        Conclude(inspected.(kernel := kernel, errors := w.errors + [NotRepaired(route.destination)]), check)
    else
      Conclude(inspected, check)
  }

  function Conclude(w: Work, check: Check): Work
  {
    w.(errors := if check.verified then w.errors else w.errors + [NotVerified(check.destination)],
       checks := w.checks + [check])
  }

  function AddOne(native: Native, managed: seq<RouteSpec>, w: Work, route: RouteSpec): Work
  {
    if route in managed then
      CheckOne(native, true, w.(next := w.next + [route]), route)
    else
      var (added, kernel) := Add(native, w.kernel, route);
      if added then
        CheckOne(native, false,
                 w.(kernel := kernel, next := w.next + [route], added := w.added + 1,
                    addedDestinations := w.addedDestinations + {route.destination}), route)
      else
        w.(kernel := kernel, errors := w.errors + [NotAdded(route.tag)])
  }

  function AddPhase(native: Native, managed: seq<RouteSpec>, w: Work, routes: seq<RouteSpec>): Work
    decreases |routes|
  {
    if routes == [] then w
    else AddPhase(native, managed, AddOne(native, managed, w, routes[0]), routes[1..])
  }

  function InvalidRoutes(desired: seq<RouteSpec>): (errors: seq<Problem>)
    ensures errors == [] <==> forall r | r in desired :: IsValidRoute(r)
  {
    if desired == [] then [] else
      var last := desired[|desired| - 1];
      InvalidRoutes(desired[..|desired| - 1]) + (if IsValidRoute(last) then [] else [Invalid(last.tag)])
  }

  function Verified(checks: seq<Check>): set<string>
  {
    set c | c in checks && c.verified :: c.destination
  }

  function Start(kernel: Kernel): Work
  {
    Work(kernel, [], 0, 0, [], [], {}, {})
  }

  function Finish(w: Work): Outcome
  {
    Outcome(w.errors == [], w.added, w.removed, w.errors, w.checks,
            w.removedDestinations + (w.addedDestinations * Verified(w.checks)))
  }

  function Phases(native: Native, managed: seq<RouteSpec>, kernel: Kernel, desired: seq<RouteSpec>): Work
  {
    AddPhase(native, managed, RemovePhase(native, desired, Start(kernel), managed), desired)
  }

  /** The new inventory, the new kernel and the answer. */
  function ReconcileSpec(native: Native, managed: seq<RouteSpec>, kernel: Kernel, desired: seq<RouteSpec>)
    : (seq<RouteSpec>, Kernel, Outcome)
  {
    if InvalidRoutes(desired) != [] then
      (managed, kernel, Outcome(false, 0, 0, InvalidRoutes(desired), [], {}))
    else
      var w := Phases(native, managed, kernel, desired);
      (w.next, w.kernel, Finish(w))
  }

  /******* Cleanup *******/

  /** Removes every entry and ignores what fails. */
  function CleanupSpec(native: Native, kernel: Kernel, routes: seq<RouteSpec>): Kernel
    decreases |routes|
  {
    if routes == [] then kernel else CleanupSpec(native, Remove(native, kernel, routes[0]).1, routes[1..])
  }

  /** The row of each entry, None where a text does not parse. */
  function Populated(native: Native, routes: seq<RouteSpec>): seq<Option<Row>>
  {
    if routes == [] then [] else [PopulateRow(native, routes[0])] + Populated(native, routes[1..])
  }

  /** The native calls that removing the entries takes: one for each that parses. */
  function Calls(entries: seq<Option<Row>>): nat
  {
    if entries == [] then 0 else (if entries[0].Some? then 1 else 0) + Calls(entries[1..])
  }

  /** Entry `i` stands for the row, and the native call that removes this entry does not fail. */
  predicate Clears(fails: nat -> bool, calls: nat, entries: seq<Option<Row>>, i: nat, row: Row)
  {
    i < |entries| && entries[i] == Some(row) && !fails(calls + Calls(entries[..i]))
  }

  ghost predicate ClearedBy(fails: nat -> bool, calls: nat, entries: seq<Option<Row>>, row: Row)
  {
    exists i: nat :: Clears(fails, calls, entries, i, row)
  }

  /** A cleanup of these entries removes the row: the removal of one that stands for it goes through. */
  ghost predicate Cleared(native: Native, kernel: Kernel, routes: seq<RouteSpec>, row: Row)
  {
    ClearedBy(native.fails, kernel.calls, Populated(native, routes), row)
  }

  /******* The service object *******/

  class RouteManager {
    const native: Native
    var managed: seq<RouteSpec>
    /** The kernel table this service writes to. */
    var kernel: Kernel

    /** Entries come from Save or from validated requests, so their destinations have the form of a prefix. */
    ghost predicate Valid()
      reads this
    {
      forall r | r in managed :: IsCidrText(r.destination)
    }

    constructor (native: Native, loaded: seq<RouteSpec>, kernel: Kernel)
      requires forall r | r in loaded :: IsCidrText(r.destination)
      ensures Valid() && this.native == native && managed == loaded && this.kernel == kernel
    {
      this.native, this.managed, this.kernel := native, loaded, kernel;
    }

    method AddRoute(route: RouteSpec) returns (ok: bool)
      modifies this`kernel
      ensures (ok, kernel) == Add(native, old(kernel), route)
    {
      var row := PopulateRow(native, route);
      if row.None? {
        return false;
      }
      var failed := native.fails(kernel.calls);
      kernel := kernel.(calls := kernel.calls + 1);
      if failed {
        return false;
      }
      if row.value !in kernel.rows {
        kernel := kernel.(rows := kernel.rows + {row.value}, owned := kernel.owned + {row.value});
      }
      return true;
    }

    method RemoveRoute(route: RouteSpec) returns (ok: bool)
      modifies this`kernel
      ensures (ok, kernel) == Remove(native, old(kernel), route)
    {
      var row := PopulateRow(native, route);
      if row.None? {
        return false;
      }
      ok := !native.fails(kernel.calls);
      kernel := kernel.(calls := kernel.calls + 1);
      if ok {
        kernel := kernel.(rows := kernel.rows - {row.value}, owned := kernel.owned - {row.value});
      }
    }

    method InspectRoute(route: RouteSpec) returns (check: Check)
      modifies this`kernel
      ensures (check, kernel) == Inspect(native, old(kernel), route)
    {
      var (c, k) := Inspect(native, kernel, route);
      check, kernel := c, k;
    }

    /** One turn of the first loop: delete a managed route that is no longer wanted, keep it if that fails. */
    method RemoveUnwanted(desired: seq<RouteSpec>, w: Work, route: RouteSpec) returns (work: Work)
      requires kernel == w.kernel
      modifies this`kernel
      ensures work == RemoveOne(native, desired, w, route) && kernel == work.kernel
    {
      if route in desired {
        return w;
      }
      var ok := RemoveRoute(route);
      work := w.(kernel := kernel);
      if ok {
        work := work.(removed := work.removed + 1,
                      removedDestinations := work.removedDestinations + {route.destination});
      } else {
        work := work.(errors := work.errors + [NotRemoved(route.tag)], next := work.next + [route]);
      }
    }

    /** Inspect a route and, when it was recorded but the table lost it, add it again. */
    method CheckAndRepair(recorded: bool, w: Work, route: RouteSpec) returns (work: Work)
      requires kernel == w.kernel
      modifies this`kernel
      ensures work == CheckOne(native, recorded, w, route) && kernel == work.kernel
    {
      work := w;
      var check := InspectRoute(route);
      if !check.exactPresent && recorded {
        var ok := AddRoute(route);
        if ok {
          work := work.(added := work.added + 1, addedDestinations := work.addedDestinations + {route.destination});
          check := InspectRoute(route);
        } else {
          work := work.(errors := work.errors + [NotRepaired(route.destination)]);
        }
      }
      if !check.verified {
        work := work.(errors := work.errors + [NotVerified(check.destination)]);
      }
      work := work.(kernel := kernel, checks := work.checks + [check]);
    }

    /** One turn of the second loop: add the route unless it is recorded, then check it. */
    method AddWanted(w: Work, route: RouteSpec) returns (work: Work)
      requires kernel == w.kernel
      modifies this`kernel
      ensures work == AddOne(native, managed, w, route) && kernel == work.kernel
    {
      var recorded := route in managed;
      work := w;
      if !recorded {
        var ok := AddRoute(route);
        if !ok {
          return w.(kernel := kernel, errors := w.errors + [NotAdded(route.tag)]);
        }
        work := work.(kernel := kernel, added := work.added + 1,
                      addedDestinations := work.addedDestinations + {route.destination});
      }
      work := work.(next := work.next + [route]);
      work := CheckAndRepair(recorded, work, route);
    }

    method Validate(desired: seq<RouteSpec>) returns (errors: seq<Problem>)
      ensures errors == InvalidRoutes(desired)
    {
      errors := [];
      for i := 0 to |desired|
        invariant errors == InvalidRoutes(desired[..i])
      {
        assert desired[..i + 1][..i] == desired[..i];
        if !IsValidRoute(desired[i]) {
          errors := errors + [Invalid(desired[i].tag)];
        }
      }
      assert desired[..|desired|] == desired;
    }

    method RemoveAllUnwanted(desired: seq<RouteSpec>) returns (work: Work)
      modifies this`kernel
      ensures work == RemovePhase(native, desired, Start(old(kernel)), managed) && kernel == work.kernel
    {
      work := Start(kernel);
      for i := 0 to |managed|
        invariant kernel == work.kernel
        invariant RemovePhase(native, desired, work, managed[i..])
               == RemovePhase(native, desired, Start(old(kernel)), managed)
      {
        assert managed[i..][1..] == managed[i + 1..];
        work := RemoveUnwanted(desired, work, managed[i]);
      }
    }

    method AddAllWanted(w: Work, desired: seq<RouteSpec>) returns (work: Work)
      requires kernel == w.kernel
      modifies this`kernel
      ensures work == AddPhase(native, managed, w, desired) && kernel == work.kernel
    {
      work := w;
      for i := 0 to |desired|
        invariant kernel == work.kernel
        invariant AddPhase(native, managed, work, desired[i..]) == AddPhase(native, managed, w, desired)
      {
        assert desired[i..][1..] == desired[i + 1..];
        work := AddWanted(work, desired[i]);
      }
    }

    method Reconcile(desired: seq<RouteSpec>) returns (result: Outcome)
      requires Valid()
      modifies this
      ensures Valid()
      ensures (managed, kernel, result) == ReconcileSpec(native, old(managed), old(kernel), desired)
    {
      var errors := Validate(desired);
      if errors != [] {
        return Outcome(false, 0, 0, errors, [], {});
      }
      var removed := RemoveAllUnwanted(desired);
      var work := AddAllWanted(removed, desired);
      RemovePhaseNext(native, desired, Start(old(kernel)), managed);
      AddPhaseNext(native, managed, removed, desired);
      managed := work.next;
      result := Finish(work);
    }

    /** Removes every entry, whatever fails, and forgets them all. */
    method Cleanup()
      requires Valid()
      modifies this
      ensures Valid() && managed == [] && kernel == CleanupSpec(native, old(kernel), old(managed))
    {
      for i := 0 to |managed|
        invariant managed == old(managed)
        invariant CleanupSpec(native, kernel, managed[i..]) == CleanupSpec(native, old(kernel), old(managed))
      {
        assert managed[i..][1..] == managed[i + 1..];
        var _ := RemoveRoute(managed[i]);
      }
      managed := [];
    }
  }

  /** What is left after a cleanup: the rows that no successful removal was for. */
  lemma CleanupExactly(native: Native, kernel: Kernel, routes: seq<RouteSpec>, row: Row)
    ensures var after := CleanupSpec(native, kernel, routes);
            && (row in after.rows <==> row in kernel.rows && !Cleared(native, kernel, routes, row))
            && (row in after.owned <==> row in kernel.owned && !Cleared(native, kernel, routes, row))
  {
    CleanupByRows(native, kernel, routes);
    CleanedExactly(native.fails, kernel, Populated(native, routes), row);
  }

  function RemoveRow(fails: nat -> bool, kernel: Kernel, entry: Option<Row>): Kernel
  {
    if entry.None? then kernel
    else if fails(kernel.calls) then kernel.(calls := kernel.calls + 1)
    else Kernel(kernel.rows - {entry.value}, kernel.owned - {entry.value}, kernel.calls + 1)
  }

  function Cleaned(fails: nat -> bool, kernel: Kernel, entries: seq<Option<Row>>): Kernel
    decreases |entries|
  {
    if entries == [] then kernel else Cleaned(fails, RemoveRow(fails, kernel, entries[0]), entries[1..])
  }

  /** A cleanup is decided by the rows of the entries. */
  lemma {:induction false} CleanupByRows(native: Native, kernel: Kernel, routes: seq<RouteSpec>)
    ensures CleanupSpec(native, kernel, routes) == Cleaned(native.fails, kernel, Populated(native, routes))
    decreases |routes|
  {
    if routes != [] {
      RemoveByRow(native, kernel, routes[0]);
      CleanupByRows(native, Remove(native, kernel, routes[0]).1, routes[1..]);
      assert Populated(native, routes)[1..] == Populated(native, routes[1..]);
    }
  }

  lemma RemoveByRow(native: Native, kernel: Kernel, route: RouteSpec)
    ensures Remove(native, kernel, route).1 == RemoveRow(native.fails, kernel, PopulateRow(native, route))
  {
  }

  lemma {:induction false} CleanedExactly(fails: nat -> bool, kernel: Kernel, entries: seq<Option<Row>>, row: Row)
    ensures var after := Cleaned(fails, kernel, entries);
            && (row in after.rows <==> row in kernel.rows && !ClearedBy(fails, kernel.calls, entries, row))
            && (row in after.owned <==> row in kernel.owned && !ClearedBy(fails, kernel.calls, entries, row))
    decreases |entries|
  {
    if entries == [] {
      assert !ClearedBy(fails, kernel.calls, entries, row);
    } else {
      assert entries == [entries[0]] + entries[1..];
      CleanedExactly(fails, RemoveRow(fails, kernel, entries[0]), entries[1..], row);
      ClearedCons(fails, kernel.calls, entries[0], entries[1..], row);
    }
  }

  function Tried(entry: Option<Row>): nat
  {
    if entry.Some? then 1 else 0
  }

  lemma CallsCons(entry: Option<Row>, rest: seq<Option<Row>>)
    ensures Calls([entry] + rest) == Tried(entry) + Calls(rest)
  {
    assert ([entry] + rest)[1..] == rest;
  }

  lemma ClearsCons(fails: nat -> bool, calls: nat, entry: Option<Row>, rest: seq<Option<Row>>, i: nat, row: Row)
    requires i < |rest|
    ensures Clears(fails, calls, [entry] + rest, i + 1, row) <==> Clears(fails, calls + Tried(entry), rest, i, row)
  {
    CallsCons(entry, rest[..i]);
    assert ([entry] + rest)[..i + 1] == [entry] + rest[..i];
  }

  lemma ClearedCons(fails: nat -> bool, calls: nat, entry: Option<Row>, rest: seq<Option<Row>>, row: Row)
    ensures ClearedBy(fails, calls, [entry] + rest, row)
            <==> (entry == Some(row) && !fails(calls)) || ClearedBy(fails, calls + Tried(entry), rest, row)
  {
    var entries, after := [entry] + rest, calls + Tried(entry);
    assert entries[..0] == [];
    if i: nat :| Clears(fails, calls, entries, i, row) {
      if i > 0 {
        ClearsCons(fails, calls, entry, rest, i - 1, row);
      }
    }
    if i: nat :| Clears(fails, after, rest, i, row) {
      ClearsCons(fails, calls, entry, rest, i, row);
    }
    if entry == Some(row) && !fails(calls) {
      assert Clears(fails, calls, entries, 0, row);
    }
  }

  lemma {:induction false} RemovePhaseNext(native: Native, desired: seq<RouteSpec>, w: Work, routes: seq<RouteSpec>)
    ensures forall r | r in RemovePhase(native, desired, w, routes).next :: r in w.next || r in routes
    decreases |routes|
  {
    if routes != [] {
      RemovePhaseNext(native, desired, RemoveOne(native, desired, w, routes[0]), routes[1..]);
    }
  }

  lemma {:induction false} AddPhaseNext(native: Native, managed: seq<RouteSpec>, w: Work, routes: seq<RouteSpec>)
    ensures forall r | r in AddPhase(native, managed, w, routes).next :: r in w.next || r in routes
    decreases |routes|
  {
    if routes != [] {
      AddOneNext(native, managed, w, routes[0]);
      AddPhaseNext(native, managed, AddOne(native, managed, w, routes[0]), routes[1..]);
    }
  }

  lemma AddOneNext(native: Native, managed: seq<RouteSpec>, w: Work, r: RouteSpec)
    ensures AddOne(native, managed, w, r).next == w.next || AddOne(native, managed, w, r).next == w.next + [r]
  {
  }

  /******* Rows of an inventory *******/

  ghost function RowsOf(native: Native, routes: seq<RouteSpec>): set<Row>
  {
    set r | r in routes && PopulateRow(native, r).Some? :: PopulateRow(native, r).value
  }

  ghost predicate Parsable(native: Native, routes: seq<RouteSpec>)
  {
    forall r | r in routes :: PopulateRow(native, r).Some?
  }

  ghost predicate NoFailures(native: Native)
  {
    forall n :: !native.fails(n) && native.readable(n)
  }

  lemma RowsOfCons(native: Native, r: RouteSpec, rest: seq<RouteSpec>)
    ensures PopulateRow(native, r).Some? ==>
              RowsOf(native, [r] + rest) == {PopulateRow(native, r).value} + RowsOf(native, rest)
    ensures PopulateRow(native, r).None? ==> RowsOf(native, [r] + rest) == RowsOf(native, rest)
  {
    assert forall x :: x in [r] + rest <==> x == r || x in rest;
  }

  lemma RowsOfSnoc(native: Native, front: seq<RouteSpec>, r: RouteSpec)
    ensures PopulateRow(native, r).Some? ==>
              RowsOf(native, front + [r]) == RowsOf(native, front) + {PopulateRow(native, r).value}
    ensures PopulateRow(native, r).None? ==> RowsOf(native, front + [r]) == RowsOf(native, front)
  {
    assert forall x :: x in front + [r] <==> x == r || x in front;
  }

  ghost function Without(routes: seq<RouteSpec>, keep: seq<RouteSpec>): (r: seq<RouteSpec>)
    ensures forall x :: x in r <==> x in routes && x !in keep
  {
    if routes == [] then [] else (if routes[0] in keep then [] else [routes[0]]) + Without(routes[1..], keep)
  }

  /******* No route is forgotten *******/

  lemma RemoveOneAccounts(native: Native, desired: seq<RouteSpec>, w: Work, r: RouteSpec, rest: set<Row>)
    requires w.kernel.owned <= RowsOf(native, w.next + [r]) + rest
    requires r in desired && PopulateRow(native, r).Some? ==> PopulateRow(native, r).value in rest
    ensures var v := RemoveOne(native, desired, w, r); v.kernel.owned <= RowsOf(native, v.next) + rest
  {
    RowsOfSnoc(native, w.next, r);
  }

  lemma {:induction false} RemovePhaseAccounts(native: Native, desired: seq<RouteSpec>, w: Work, routes: seq<RouteSpec>,
                                               kept: set<Row>)
    requires w.kernel.owned <= RowsOf(native, w.next) + RowsOf(native, routes) + kept
    requires forall r | r in routes && r in desired && PopulateRow(native, r).Some? ::
      PopulateRow(native, r).value in kept
    ensures var v := RemovePhase(native, desired, w, routes);
            v.kernel.owned <= RowsOf(native, v.next) + kept
    decreases |routes|
  {
    if routes != [] {
      var r, rest := routes[0], routes[1..];
      assert routes == [r] + rest;
      RowsOfCons(native, r, rest);
      RowsOfSnoc(native, w.next, r);
      RemoveOneAccounts(native, desired, w, r, RowsOf(native, rest) + kept);
      RemovePhaseAccounts(native, desired, RemoveOne(native, desired, w, r), rest, kept);
    } else {
      assert RowsOf(native, routes) == {};
    }
  }

  /** Rows of the recorded routes still to come. */
  ghost function Pending(native: Native, managed: seq<RouteSpec>, routes: seq<RouteSpec>): set<Row>
  {
    set r | r in routes && r in managed && PopulateRow(native, r).Some? :: PopulateRow(native, r).value
  }

  lemma PendingCons(native: Native, managed: seq<RouteSpec>, r: RouteSpec, rest: seq<RouteSpec>)
    ensures Pending(native, managed, [r] + rest) ==
            (if r in managed && PopulateRow(native, r).Some? then {PopulateRow(native, r).value} else {})
            + Pending(native, managed, rest)
  {
    assert forall x :: x in [r] + rest <==> x == r || x in rest;
  }

  lemma CheckOneOwned(native: Native, recorded: bool, w: Work, r: RouteSpec)
    ensures var v := CheckOne(native, recorded, w, r);
            && v.next == w.next
            && v.kernel.owned <= w.kernel.owned
                 + (if recorded && PopulateRow(native, r).Some? then {PopulateRow(native, r).value} else {})
  {
    var (check, seen) := Inspect(native, w.kernel, r);
    InspectKeeps(native, w.kernel, r);
    AddOwned(native, seen, r);
    InspectKeeps(native, Add(native, seen, r).1, r);
  }

  lemma InspectKeeps(native: Native, kernel: Kernel, r: RouteSpec)
    ensures var (check, after) := Inspect(native, kernel, r); after.rows == kernel.rows && after.owned == kernel.owned
  {
  }

  lemma RecordedAccounts(native: Native, managed: seq<RouteSpec>, w: Work, r: RouteSpec, rest: set<Row>)
    requires r in managed
    requires w.kernel.owned <= RowsOf(native, w.next + [r]) + rest
    ensures var v := AddOne(native, managed, w, r); v.kernel.owned <= RowsOf(native, v.next) + rest
  {
    CheckOneOwned(native, true, w.(next := w.next + [r]), r);
    RowsOfSnoc(native, w.next, r);
  }

  lemma UnrecordedAccounts(native: Native, managed: seq<RouteSpec>, w: Work, r: RouteSpec, rest: set<Row>)
    requires r !in managed
    requires w.kernel.owned <= RowsOf(native, w.next) + rest
    ensures var v := AddOne(native, managed, w, r); v.kernel.owned <= RowsOf(native, v.next) + rest
  {
    UnrecordedOwned(native, managed, w, r);
    RowsOfSnoc(native, w.next, r);
  }

  /** A route that is not recorded: nothing of ours is new, or its row may be, and then it is in the inventory. */
  lemma UnrecordedOwned(native: Native, managed: seq<RouteSpec>, w: Work, r: RouteSpec)
    requires r !in managed
    ensures var v := AddOne(native, managed, w, r);
            || (v.next == w.next && v.kernel.owned == w.kernel.owned)
            || (&& v.next == w.next + [r] && PopulateRow(native, r).Some?
                && v.kernel.owned <= w.kernel.owned + {PopulateRow(native, r).value})
  {
    var (added, kernel) := Add(native, w.kernel, r);
    AddOwned(native, w.kernel, r);
    if added {
      CheckOneOwned(native, false,
                    w.(kernel := kernel, next := w.next + [r], added := w.added + 1,
                       addedDestinations := w.addedDestinations + {r.destination}), r);
    }
  }

  lemma AddOwned(native: Native, kernel: Kernel, r: RouteSpec)
    ensures var (added, after) := Add(native, kernel, r);
            && (!added ==> after.owned == kernel.owned)
            && (added ==> PopulateRow(native, r).Some?
                          && after.owned <= kernel.owned + {PopulateRow(native, r).value})
  {
  }

  lemma {:induction false} AddPhaseAccounts(native: Native, managed: seq<RouteSpec>, w: Work, routes: seq<RouteSpec>)
    requires w.kernel.owned <= RowsOf(native, w.next) + Pending(native, managed, routes)
    ensures var v := AddPhase(native, managed, w, routes);
            v.kernel.owned <= RowsOf(native, v.next)
    decreases |routes|
  {
    if routes != [] {
      var r, rest := routes[0], routes[1..];
      assert routes == [r] + rest;
      PendingCons(native, managed, r, rest);
      if r in managed {
        RowsOfSnoc(native, w.next, r);
        RecordedAccounts(native, managed, w, r, Pending(native, managed, rest));
      } else {
        UnrecordedAccounts(native, managed, w, r, Pending(native, managed, rest));
      }
      AddPhaseAccounts(native, managed, AddOne(native, managed, w, r), rest);
    } else {
      assert Pending(native, managed, routes) == {};
    }
  }

  /** One call, whatever fails in it, leaves every row we created in the inventory. */
  lemma ReconcileForgetsNothing(native: Native, managed: seq<RouteSpec>, kernel: Kernel, desired: seq<RouteSpec>)
    requires kernel.owned <= RowsOf(native, managed)
    ensures var (inventory, after, _) := ReconcileSpec(native, managed, kernel, desired);
            after.owned <= RowsOf(native, inventory)
  {
    var kept := Pending(native, managed, desired);
    RemovePhaseAccounts(native, desired, Start(kernel), managed, kept);
    AddPhaseAccounts(native, managed, RemovePhase(native, desired, Start(kernel), managed), desired);
  }

  /******* Truthful answers *******/

  lemma {:induction false} RemovePhaseErrors(native: Native, desired: seq<RouteSpec>, w: Work, routes: seq<RouteSpec>)
    ensures var v := RemovePhase(native, desired, w, routes);
            && w.errors <= v.errors
            && (v.errors == w.errors ==> v.next == w.next)
    decreases |routes|
  {
    if routes != [] {
      RemovePhaseErrors(native, desired, RemoveOne(native, desired, w, routes[0]), routes[1..]);
    }
  }

  lemma CheckOneFacts(native: Native, recorded: bool, w: Work, route: RouteSpec)
    ensures var v := CheckOne(native, recorded, w, route);
            && w.errors <= v.errors && v.next == w.next
            && w.kernel.rows <= v.kernel.rows
            && (v.errors == w.errors ==>
                  PopulateRow(native, route).Some? && PopulateRow(native, route).value in v.kernel.rows)
  {
  }

  lemma AddOneTruth(native: Native, managed: seq<RouteSpec>, w: Work, r: RouteSpec)
    ensures var v := AddOne(native, managed, w, r);
            && w.errors <= v.errors
            && w.kernel.rows <= v.kernel.rows
            && (v.errors == w.errors ==>
                  && v.next == w.next + [r]
                  && PopulateRow(native, r).Some? && PopulateRow(native, r).value in v.kernel.rows)
  {
    if r in managed {
      CheckOneFacts(native, true, w.(next := w.next + [r]), r);
    } else {
      var (_, kernel) := Add(native, w.kernel, r);
      CheckOneFacts(native, false,
                    w.(kernel := kernel, next := w.next + [r], added := w.added + 1,
                       addedDestinations := w.addedDestinations + {r.destination}), r);
    }
  }

  lemma {:induction false} AddPhaseTruth(native: Native, managed: seq<RouteSpec>, w: Work, routes: seq<RouteSpec>)
    ensures var v := AddPhase(native, managed, w, routes);
            && w.errors <= v.errors
            && w.kernel.rows <= v.kernel.rows
            && (v.errors == w.errors ==>
                  && v.next == w.next + routes
                  && Parsable(native, routes)
                  && RowsOf(native, routes) <= v.kernel.rows)
    decreases |routes|
  {
    if routes != [] {
      var r, rest := routes[0], routes[1..];
      assert routes == [r] + rest;
      RowsOfCons(native, r, rest);
      AddOneTruth(native, managed, w, r);
      AddPhaseTruth(native, managed, AddOne(native, managed, w, r), rest);
      Regroup(w.next, routes);
    }
  }

  /** "ok" is never a lie: the inventory is the request and every requested row is in the table. */
  lemma OkIsTruthful(native: Native, managed: seq<RouteSpec>, kernel: Kernel, desired: seq<RouteSpec>)
    ensures var (inventory, after, outcome) := ReconcileSpec(native, managed, kernel, desired);
            outcome.ok ==>
              && inventory == desired
              && Parsable(native, desired)
              && RowsOf(native, desired) <= after.rows
  {
    RemovePhaseErrors(native, desired, Start(kernel), managed);
    AddPhaseTruth(native, managed, RemovePhase(native, desired, Start(kernel), managed), desired);
  }

  /******* Convergence from any table *******/

  lemma RemoveOneConverges(native: Native, desired: seq<RouteSpec>, w: Work, r: RouteSpec)
    requires NoFailures(native) && PopulateRow(native, r).Some?
    ensures var v := RemoveOne(native, desired, w, r);
            && v.kernel.rows == w.kernel.rows - (if r in desired then {} else {PopulateRow(native, r).value})
            && v.next == w.next && v.errors == w.errors && v.added == w.added
            && v.removed == w.removed + (if r in desired then 0 else 1)
  {
  }

  lemma {:induction false} RemovePhaseConverges(native: Native, desired: seq<RouteSpec>, w: Work,
      routes: seq<RouteSpec>)
    requires NoFailures(native) && Parsable(native, routes)
    ensures var v := RemovePhase(native, desired, w, routes);
            && v.kernel.rows == w.kernel.rows - RowsOf(native, Without(routes, desired))
            && v.next == w.next && v.added == w.added
            && v.removed == w.removed + |Without(routes, desired)|
    decreases |routes|
  {
    if routes != [] {
      var r, rest := routes[0], routes[1..];
      var unwanted := Without(rest, desired);
      RowsOfCons(native, r, unwanted);
      assert Without(routes, desired) == if r in desired then unwanted else [r] + unwanted;
      RemoveOneConverges(native, desired, w, r);
      RemovePhaseConverges(native, desired, RemoveOne(native, desired, w, r), rest);
    } else {
      assert RowsOf(native, []) == {};
    }
  }

  lemma CheckOneConverges(native: Native, recorded: bool, w: Work, r: RouteSpec)
    requires NoFailures(native) && PopulateRow(native, r).Some?
    ensures var v, row := CheckOne(native, recorded, w, r), PopulateRow(native, r).value;
            && v.kernel.rows == (if recorded then w.kernel.rows + {row} else w.kernel.rows)
            && v.next == w.next && v.removed == w.removed && (row in w.kernel.rows ==> v.added == w.added)
  {
  }

  lemma AddOneConverges(native: Native, managed: seq<RouteSpec>, w: Work, r: RouteSpec)
    requires NoFailures(native) && PopulateRow(native, r).Some?
    ensures var v := AddOne(native, managed, w, r);
            && v.kernel.rows == w.kernel.rows + {PopulateRow(native, r).value}
            && v.next == w.next + [r] && v.removed == w.removed
            && (r in managed && PopulateRow(native, r).value in w.kernel.rows ==> v.added == w.added)
  {
    if r in managed {
      CheckOneConverges(native, true, w.(next := w.next + [r]), r);
    } else {
      var (added, kernel) := Add(native, w.kernel, r);
      CheckOneConverges(native, false,
                        w.(kernel := kernel, next := w.next + [r], added := w.added + 1,
                           addedDestinations := w.addedDestinations + {r.destination}), r);
    }
  }

  lemma {:induction false} AddPhaseRows(native: Native, managed: seq<RouteSpec>, w: Work, routes: seq<RouteSpec>)
    requires NoFailures(native) && Parsable(native, routes)
    ensures AddPhase(native, managed, w, routes).kernel.rows == w.kernel.rows + RowsOf(native, routes)
    decreases |routes|
  {
    if routes == [] {
      assert RowsOf(native, routes) == {};
    } else {
      var r, rest := routes[0], routes[1..];
      assert routes == [r] + rest;
      RowsOfCons(native, r, rest);
      AddOneConverges(native, managed, w, r);
      AddPhaseRows(native, managed, AddOne(native, managed, w, r), rest);
      UnionGroups(w.kernel.rows, {PopulateRow(native, r).value}, RowsOf(native, rest));
    }
  }

  lemma UnionGroups<T>(a: set<T>, b: set<T>, c: set<T>)
    ensures a + b + c == a + (b + c)
  {
  }

  lemma {:induction false} AddPhaseInventory(native: Native, managed: seq<RouteSpec>, w: Work, routes: seq<RouteSpec>)
    requires NoFailures(native) && Parsable(native, routes)
    ensures AddPhase(native, managed, w, routes).next == w.next + routes
    ensures AddPhase(native, managed, w, routes).removed == w.removed
    decreases |routes|
  {
    if routes != [] {
      AddOneConverges(native, managed, w, routes[0]);
      Regroup(w.next, routes);
      AddPhaseInventory(native, managed, AddOne(native, managed, w, routes[0]), routes[1..]);
    }
  }

  lemma {:induction false} AddPhaseSettled(native: Native, managed: seq<RouteSpec>, w: Work, routes: seq<RouteSpec>)
    requires NoFailures(native) && Parsable(native, routes)
    requires (forall r | r in routes :: r in managed) && RowsOf(native, routes) <= w.kernel.rows
    ensures AddPhase(native, managed, w, routes).added == w.added
    decreases |routes|
  {
    if routes != [] {
      var r, rest := routes[0], routes[1..];
      assert routes == [r] + rest;
      RowsOfCons(native, r, rest);
      AddOneConverges(native, managed, w, r);
      AddPhaseSettled(native, managed, AddOne(native, managed, w, r), rest);
    }
  }

  /** Without native failures one call turns any table into: what it held, minus the rows of the entries no longer
      wanted, plus the rows wanted. A row shared by a removed and a retained entry survives: the repair restores it. */
  lemma ReconcileConverges(native: Native, managed: seq<RouteSpec>, kernel: Kernel, desired: seq<RouteSpec>)
    requires NoFailures(native) && Parsable(native, managed) && Parsable(native, desired)
    requires forall r | r in desired :: IsValidRoute(r)
    ensures var (inventory, after, _) := ReconcileSpec(native, managed, kernel, desired);
            && inventory == desired
            && after.rows == (kernel.rows - RowsOf(native, Without(managed, desired))) + RowsOf(native, desired)
  {
    PhasesConverge(native, managed, kernel, desired);
    ReconcileIsPhases(native, managed, kernel, desired);
  }

  lemma PhasesConverge(native: Native, managed: seq<RouteSpec>, kernel: Kernel, desired: seq<RouteSpec>)
    requires NoFailures(native) && Parsable(native, managed) && Parsable(native, desired)
    ensures var w := Phases(native, managed, kernel, desired);
            && w.next == desired
            && w.kernel.rows == (kernel.rows - RowsOf(native, Without(managed, desired))) + RowsOf(native, desired)
  {
    var removed := RemovePhase(native, desired, Start(kernel), managed);
    RemovePhaseConverges(native, desired, Start(kernel), managed);
    AddPhaseRows(native, managed, removed, desired);
    AddPhaseInventory(native, managed, removed, desired);
    assert [] + desired == desired;
  }

  lemma ReconcileIsPhases(native: Native, managed: seq<RouteSpec>, kernel: Kernel, desired: seq<RouteSpec>)
    requires forall r | r in desired :: IsValidRoute(r)
    ensures var w := Phases(native, managed, kernel, desired);
            ReconcileSpec(native, managed, kernel, desired) == (w.next, w.kernel, Finish(w))
  {
  }

  lemma {:induction false} NothingWithout(routes: seq<RouteSpec>, keep: seq<RouteSpec>)
    requires forall r | r in routes :: r in keep
    ensures Without(routes, keep) == []
  {
    if routes != [] {
      NothingWithout(routes[1..], keep);
    }
  }

  /** Asking again for the same routes adds nothing, removes nothing and leaves the table alone. */
  lemma ReconcileTwice(native: Native, managed: seq<RouteSpec>, kernel: Kernel, desired: seq<RouteSpec>)
    requires NoFailures(native) && Parsable(native, managed) && Parsable(native, desired)
    requires forall r | r in desired :: IsValidRoute(r)
    ensures var (inventory, after, _) := ReconcileSpec(native, managed, kernel, desired);
            var (again, settled, outcome) := ReconcileSpec(native, inventory, after, desired);
            again == inventory && settled.rows == after.rows && outcome.added == 0 && outcome.removed == 0
  {
    ReconcileConverges(native, managed, kernel, desired);
    var (inventory, after, _) := ReconcileSpec(native, managed, kernel, desired);
    NothingWithout(desired, desired);
    assert RowsOf(native, []) == {};
    RemovePhaseConverges(native, desired, Start(after), desired);
    AddPhaseSettled(native, desired, RemovePhase(native, desired, Start(after), desired), desired);
    AddPhaseInventory(native, desired, RemovePhase(native, desired, Start(after), desired), desired);
    ReconcileConverges(native, inventory, after, desired);
  }

  /******* Whole runs *******/

  /** A request, or an edit of the table by somebody else (a reboot erases it). */
  datatype Event = Request(desired: seq<RouteSpec>) | External(rows: set<Row>)

  datatype Service = Service(managed: seq<RouteSpec>, kernel: Kernel)

  function StepService(native: Native, s: Service, e: Event): Service
  {
    match e
    case Request(desired) =>
      var (inventory, after, _) := ReconcileSpec(native, s.managed, s.kernel, desired);
      Service(inventory, after)
    case External(rows) =>
      s.(kernel := s.kernel.(rows := rows, owned := s.kernel.owned * rows))
  }

  function RunService(native: Native, s: Service, events: seq<Event>): Service
    decreases |events|
  {
    if events == [] then s else RunService(native, StepService(native, s, events[0]), events[1..])
  }

  /** Over any run, with any failures and any outside edits, every row the service created and that is still its
      own belongs to an inventory entry, so a later request can remove it. */
  lemma {:induction false} NoForgottenRoute(native: Native, s: Service, events: seq<Event>)
    requires s.kernel.owned <= RowsOf(native, s.managed)
    ensures var t := RunService(native, s, events);
            t.kernel.owned <= RowsOf(native, t.managed)
    decreases |events|
  {
    if events != [] {
      match events[0] {
        case Request(desired) => ReconcileForgetsNothing(native, s.managed, s.kernel, desired);
        case External(rows) =>
      }
      NoForgottenRoute(native, StepService(native, s, events[0]), events[1..]);
    }
  }
}

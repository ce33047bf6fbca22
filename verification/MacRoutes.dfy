/** The macOS twin of the route inventory: `route add` and `route delete` commands and a persisted list. */
module MacRoutes {
  import opened Common

  datatype RouteSpec = RouteSpec(destination: string, gateway: Option<string>, interfaceName: string, tag: string)

  datatype Problem = NotDeleted(destination: string) | NotAdded(destination: string)
    | NotRepaired(destination: string) | NotVerified(message: string)

  datatype Check = Check(destination: string, verified: bool)

  /** What the system decides: the table row a command line denotes, which of the numbered commands fail, which
      inspections find the route in force, and the message about one that does not. */
  datatype System<!Row> = System(
    row: RouteSpec -> Row,
    fails: nat -> bool,
    inForce: nat -> bool,
    message: (nat, RouteSpec) -> string)

  /** Inventory, table, the rows an add command of ours created and nobody deleted since, and the answer so far. */
  datatype State<Row> = State(
    managed: seq<RouteSpec>,
    rows: set<Row>,
    owned: set<Row>,
    commands: nat,
    added: nat,
    removed: nat,
    errors: seq<Problem>,
    checks: seq<Check>,
    removedDestinations: set<string>,
    addedDestinations: set<string>)

  function Drop(specs: seq<RouteSpec>, spec: RouteSpec): (r: seq<RouteSpec>)
    ensures forall x :: x in r <==> x in specs && x != spec
  {
    if specs == [] then [] else (if specs[0] == spec then [] else [specs[0]]) + Drop(specs[1..], spec)
  }

  function Filter(specs: seq<RouteSpec>, exclude: seq<RouteSpec>): (r: seq<RouteSpec>)
    ensures forall x :: x in r <==> x in specs && x !in exclude
  {
    if specs == [] then [] else (if specs[0] in exclude then [] else [specs[0]]) + Filter(specs[1..], exclude)
  }

  /** A failing delete keeps the entry; "not in table" drops it like a successful one. */
  function DeleteStep<Row>(sys: System<Row>, s: State<Row>, spec: RouteSpec): State<Row>
  {
    if sys.fails(s.commands) then
      s.(commands := s.commands + 1, errors := s.errors + [NotDeleted(spec.destination)])
    else
      s.(managed := Drop(s.managed, spec), rows := s.rows - {sys.row(spec)}, owned := s.owned - {sys.row(spec)},
         commands := s.commands + 1, removed := s.removed + 1,
         removedDestinations := s.removedDestinations + {spec.destination})
  }

  function Install<Row>(sys: System<Row>, s: State<Row>, spec: RouteSpec): State<Row>
  {
    var row := sys.row(spec);
    s.(rows := s.rows + {row}, owned := if row in s.rows then s.owned else s.owned + {row},
       commands := s.commands + 1, added := s.added + 1,
       addedDestinations := s.addedDestinations + {spec.destination})
  }

  function AddStep<Row>(sys: System<Row>, s: State<Row>, spec: RouteSpec): State<Row>
  {
    if sys.fails(s.commands) then
      s.(commands := s.commands + 1, errors := s.errors + [NotAdded(spec.destination)])
    else
      Install(sys, s, spec).(managed := s.managed + [spec])
  }

  function Report<Row>(sys: System<Row>, s: State<Row>, spec: RouteSpec): State<Row>
  {
    var warning := NotVerified(sys.message(s.commands, spec));
    s.(commands := s.commands + 1,
       checks := s.checks + [Check(spec.destination, sys.inForce(s.commands))],
       errors := if sys.inForce(s.commands) || warning in s.errors then s.errors else s.errors + [warning])
  }

  /** Inspect a desired route; re-add it when it was only recorded. */
  function RepairStep<Row>(sys: System<Row>, recorded: seq<RouteSpec>, s: State<Row>, spec: RouteSpec): State<Row>
  {
    if sys.inForce(s.commands) || spec !in recorded then Report(sys, s, spec)
    else
      var inspected := s.(commands := s.commands + 1);
      if sys.fails(inspected.commands) then
        inspected.(commands := inspected.commands + 1, errors := s.errors + [NotRepaired(spec.destination)],
                   checks := s.checks + [Check(spec.destination, false)])
      else
        Report(sys, Install(sys, inspected, spec), spec)
  }

  function DeleteAll<Row>(sys: System<Row>, s: State<Row>, specs: seq<RouteSpec>): State<Row>
    decreases |specs|
  {
    if specs == [] then s else DeleteAll(sys, DeleteStep(sys, s, specs[0]), specs[1..])
  }

  function AddAll<Row>(sys: System<Row>, s: State<Row>, specs: seq<RouteSpec>): State<Row>
    decreases |specs|
  {
    if specs == [] then s else AddAll(sys, AddStep(sys, s, specs[0]), specs[1..])
  }

  function RepairAll<Row>(sys: System<Row>, recorded: seq<RouteSpec>, s: State<Row>, specs: seq<RouteSpec>): State<Row>
    decreases |specs|
  {
    if specs == [] then s else RepairAll(sys, recorded, RepairStep(sys, recorded, s, specs[0]), specs[1..])
  }

  /** The answer is empty when a call begins. */
  function Begun<Row>(s: State<Row>): State<Row>
  {
    s.(added := 0, removed := 0, errors := [], checks := [], removedDestinations := {}, addedDestinations := {})
  }

  function Verified(checks: seq<Check>): set<string>
  {
    set c | c in checks && c.verified :: c.destination
  }

  /** The destinations whose connections the answer resets. */
  function ResetsOf<Row>(s: State<Row>): set<string>
  {
    s.removedDestinations + s.addedDestinations * Verified(s.checks)
  }

  function ReconcileSpec<Row>(sys: System<Row>, s: State<Row>, desired: seq<RouteSpec>): State<Row>
  {
    var begun := Begun(s);
    var deleted := DeleteAll(sys, begun, Filter(s.managed, desired));
    var added := AddAll(sys, deleted, Filter(desired, s.managed));
    RepairAll(sys, s.managed, added, desired)
  }

  class RouteManager<!Row(==)> {
    const sys: System<Row>
    var state: State<Row>

    constructor (sys: System<Row>, state: State<Row>)
      ensures this.sys == sys && this.state == state
    {
      this.sys, this.state := sys, state;
    }

    method Reconcile(desired: seq<RouteSpec>) returns (resets: set<string>)
      modifies this
      ensures state == ReconcileSpec(sys, old(state), desired) && resets == ResetsOf(state)
    {
      var recorded := state.managed;
      var toAdd, toRemove := Filter(desired, recorded), Filter(recorded, desired);
      state := Begun(state);
      ghost var begun := state;
      for i := 0 to |toRemove|
        invariant DeleteAll(sys, state, toRemove[i..]) == DeleteAll(sys, begun, toRemove)
      {
        assert toRemove[i..][1..] == toRemove[i + 1..];
        state := DeleteStep(sys, state, toRemove[i]);
      }
      ghost var deleted := state;
      for i := 0 to |toAdd|
        invariant AddAll(sys, state, toAdd[i..]) == AddAll(sys, deleted, toAdd)
      {
        assert toAdd[i..][1..] == toAdd[i + 1..];
        state := AddStep(sys, state, toAdd[i]);
      }
      ghost var added := state;
      for i := 0 to |desired|
        invariant RepairAll(sys, recorded, state, desired[i..]) == RepairAll(sys, recorded, added, desired)
      {
        assert desired[i..][1..] == desired[i + 1..];
        state := RepairStep(sys, recorded, state, desired[i]);
      }
      var verified := set c | c in state.checks && c.verified :: c.destination;
      resets := state.removedDestinations + (state.addedDestinations * verified);
    }
  }

  ghost function RowsOf<Row>(sys: System<Row>, specs: seq<RouteSpec>): set<Row>
  {
    set s | s in specs :: sys.row(s)
  }

  /** Every row we created and still own belongs to an entry, and is in the table. */
  ghost predicate Accounted<Row>(sys: System<Row>, s: State<Row>)
  {
    s.owned <= s.rows && s.owned <= RowsOf(sys, s.managed)
  }

  lemma {:induction false} DeleteAllAccounts<Row>(sys: System<Row>, s: State<Row>, specs: seq<RouteSpec>)
    requires Accounted(sys, s)
    ensures var t := DeleteAll(sys, s, specs);
            Accounted(sys, t) && forall x | x in s.managed && x !in specs :: x in t.managed
    decreases |specs|
  {
    if specs != [] {
      var t := DeleteStep(sys, s, specs[0]);
      forall row | row in t.owned ensures row in RowsOf(sys, t.managed) {
        var m :| m in s.managed && sys.row(m) == row;
        assert m in t.managed;
      }
      DeleteAllAccounts(sys, t, specs[1..]);
    }
  }

  lemma {:induction false} AddAllAccounts<Row>(sys: System<Row>, s: State<Row>, specs: seq<RouteSpec>)
    requires Accounted(sys, s)
    ensures var t := AddAll(sys, s, specs); Accounted(sys, t) && s.managed <= t.managed
    decreases |specs|
  {
    if specs != [] {
      var t := AddStep(sys, s, specs[0]);
      if t.managed != s.managed {
        assert t.managed == s.managed + [specs[0]];
        assert forall x :: x in t.managed <==> x in s.managed || x == specs[0];
        assert RowsOf(sys, t.managed) == RowsOf(sys, s.managed) + {sys.row(specs[0])};
      }
      AddAllAccounts(sys, t, specs[1..]);
    }
  }

  lemma {:induction false} RepairAllAccounts<Row>(sys: System<Row>, recorded: seq<RouteSpec>, s: State<Row>,
      specs: seq<RouteSpec>)
    requires Accounted(sys, s)
    requires forall x | x in specs && x in recorded :: x in s.managed
    ensures Accounted(sys, RepairAll(sys, recorded, s, specs))
    decreases |specs|
  {
    if specs != [] {
      var t := RepairStep(sys, recorded, s, specs[0]);
      assert t.managed == s.managed;
      assert t.owned <= s.owned + (if specs[0] in recorded then {sys.row(specs[0])} else {});
      RepairAllAccounts(sys, recorded, t, specs[1..]);
    }
  }

  lemma ReconcileAccounts<Row>(sys: System<Row>, s: State<Row>, desired: seq<RouteSpec>)
    requires Accounted(sys, s)
    ensures Accounted(sys, ReconcileSpec(sys, s, desired))
  {
    var begun := Begun(s);
    var unwanted := Filter(s.managed, desired);
    var missing := Filter(desired, s.managed);
    DeleteAllAccounts(sys, begun, unwanted);
    var deleted := DeleteAll(sys, begun, unwanted);
    AddAllAccounts(sys, deleted, missing);
    var added := AddAll(sys, deleted, missing);
    forall x | x in desired && x in s.managed ensures x in added.managed {
      assert x !in unwanted;
      assert x in deleted.managed;
    }
    RepairAllAccounts(sys, s.managed, added, desired);
  }

  /******* What one call does, exactly *******/

  /** Of commands with consecutive numbers from `c` on: the specifications whose command goes through. */
  function Through(fails: nat -> bool, c: nat, specs: seq<RouteSpec>): seq<RouteSpec>
    decreases |specs|
  {
    if specs == [] then [] else (if fails(c) then [] else [specs[0]]) + Through(fails, c + 1, specs[1..])
  }

  /** And those whose command fails. */
  function Failing(fails: nat -> bool, c: nat, specs: seq<RouteSpec>): seq<RouteSpec>
    decreases |specs|
  {
    if specs == [] then [] else (if fails(c) then [specs[0]] else []) + Failing(fails, c + 1, specs[1..])
  }

  lemma {:induction false} ThroughOrFailing(fails: nat -> bool, c: nat, specs: seq<RouteSpec>, x: RouteSpec)
    ensures x in specs <==> x in Through(fails, c, specs) || x in Failing(fails, c, specs)
    decreases |specs|
  {
    if specs != [] {
      ThroughOrFailing(fails, c + 1, specs[1..], x);
    }
  }

  lemma {:induction false} NothingFails(fails: nat -> bool, c: nat, specs: seq<RouteSpec>)
    requires forall n :: !fails(n)
    ensures Through(fails, c, specs) == specs && Failing(fails, c, specs) == []
    decreases |specs|
  {
    if specs != [] {
      NothingFails(fails, c + 1, specs[1..]);
      assert specs == [specs[0]] + specs[1..];
    }
  }

  /** The requested routes that the verification loop adds again: recorded ones that an inspection does not find in
      force and whose command goes through. A route that is in force, or new, takes one command, a failing repair two, a
      repair three. */
  function Restored<Row>(sys: System<Row>, recorded: seq<RouteSpec>, c: nat, specs: seq<RouteSpec>): seq<RouteSpec>
    decreases |specs|
  {
    if specs == [] then []
    else if sys.inForce(c) || specs[0] !in recorded then Restored(sys, recorded, c + 1, specs[1..])
    else if sys.fails(c + 1) then Restored(sys, recorded, c + 2, specs[1..])
    else [specs[0]] + Restored(sys, recorded, c + 3, specs[1..])
  }

  function Without(specs: seq<RouteSpec>, gone: seq<RouteSpec>): (r: seq<RouteSpec>)
  {
    if specs == [] then [] else (if specs[0] in gone then [] else [specs[0]]) + Without(specs[1..], gone)
  }

  lemma {:induction false} WithoutAgain(specs: seq<RouteSpec>, x: RouteSpec, gone: seq<RouteSpec>)
    ensures Without(Drop(specs, x), gone) == Without(specs, [x] + gone)
  {
    if specs != [] {
      var rest := Drop(specs[1..], x);
      WithoutAgain(specs[1..], x, gone);
      assert specs[0] in [x] + gone <==> specs[0] == x || specs[0] in gone;
      if specs[0] == x {
        assert [] + rest == rest;
        assert [] + Without(specs[1..], [x] + gone) == Without(specs[1..], [x] + gone);
      } else {
        assert ([specs[0]] + rest)[1..] == rest;
      }
    }
  }

  lemma {:induction false} WithoutNone(specs: seq<RouteSpec>)
    ensures Without(specs, []) == specs
  {
    if specs != [] {
      WithoutNone(specs[1..]);
    }
  }

  lemma RowsOfCons<Row>(sys: System<Row>, x: RouteSpec, rest: seq<RouteSpec>)
    ensures RowsOf(sys, [x] + rest) == {sys.row(x)} + RowsOf(sys, rest)
  {
    assert forall y :: y in [x] + rest <==> y == x || y in rest;
  }

  function NotDeletedAll(specs: seq<RouteSpec>): seq<Problem>
  {
    if specs == [] then [] else [NotDeleted(specs[0].destination)] + NotDeletedAll(specs[1..])
  }

  function NotAddedAll(specs: seq<RouteSpec>): seq<Problem>
  {
    if specs == [] then [] else [NotAdded(specs[0].destination)] + NotAddedAll(specs[1..])
  }

  /** What deleting does, given which commands go through and which fail. */
  ghost predicate Deletes<Row>(sys: System<Row>, s: State<Row>, t: State<Row>, gone: seq<RouteSpec>,
                               failing: seq<RouteSpec>)
  {
    && t.managed == Without(s.managed, gone) && t.rows == s.rows - RowsOf(sys, gone)
    && t.added == s.added && t.removed == s.removed + |gone|
    && t.errors == s.errors + NotDeletedAll(failing)
  }

  lemma DeletesMore<Row>(sys: System<Row>, s: State<Row>, t: State<Row>, x: RouteSpec, gone: seq<RouteSpec>,
                         failing: seq<RouteSpec>)
    requires Deletes(sys, DeleteStep(sys, s, x), t, gone, failing)
    ensures sys.fails(s.commands) ==> Deletes(sys, s, t, gone, [x] + failing)
    ensures !sys.fails(s.commands) ==> Deletes(sys, s, t, [x] + gone, failing)
  {
    if sys.fails(s.commands) {
      FirstError(s.errors, NotDeleted(x.destination), NotDeletedAll(failing));
      assert ([x] + failing)[1..] == failing;
    } else {
      WithoutAgain(s.managed, x, gone);
      RowsOfCons(sys, x, gone);
    }
  }

  lemma ThroughHead(fails: nat -> bool, c: nat, specs: seq<RouteSpec>, through: seq<RouteSpec>,
                    failing: seq<RouteSpec>)
    requires specs != []
    requires through == Through(fails, c + 1, specs[1..]) && failing == Failing(fails, c + 1, specs[1..])
    ensures Through(fails, c, specs) == if fails(c) then through else [specs[0]] + through
    ensures Failing(fails, c, specs) == if fails(c) then [specs[0]] + failing else failing
  {
    assert [] + through == through && [] + failing == failing;
  }

  lemma {:induction false} DeleteAllExactly<Row>(sys: System<Row>, s: State<Row>, specs: seq<RouteSpec>)
    ensures DeleteAll(sys, s, specs).commands == s.commands + |specs|
    ensures Deletes(sys, s, DeleteAll(sys, s, specs), Through(sys.fails, s.commands, specs),
                    Failing(sys.fails, s.commands, specs))
    decreases |specs|
  {
    if specs == [] {
      WithoutNone(s.managed);
      assert RowsOf(sys, []) == {} && s.errors + [] == s.errors;
    } else {
      var x, rest := specs[0], specs[1..];
      var gone, failing := Through(sys.fails, s.commands + 1, rest), Failing(sys.fails, s.commands + 1, rest);
      ThroughHead(sys.fails, s.commands, specs, gone, failing);
      DeleteAllExactly(sys, DeleteStep(sys, s, x), rest);
      DeletesMore(sys, s, DeleteAll(sys, s, specs), x, gone, failing);
    }
  }

  lemma FirstError(errors: seq<Problem>, first: Problem, rest: seq<Problem>)
    ensures (errors + [first]) + rest == errors + ([first] + rest)
  {
  }

  /** And adding. */
  ghost predicate Adds<Row>(sys: System<Row>, s: State<Row>, t: State<Row>, created: seq<RouteSpec>,
                            failing: seq<RouteSpec>)
  {
    && t.managed == s.managed + created && t.rows == s.rows + RowsOf(sys, created)
    && t.added == s.added + |created| && t.removed == s.removed
    && t.errors == s.errors + NotAddedAll(failing)
  }

  lemma AddsMore<Row>(sys: System<Row>, s: State<Row>, t: State<Row>, x: RouteSpec, created: seq<RouteSpec>,
                      failing: seq<RouteSpec>)
    requires Adds(sys, AddStep(sys, s, x), t, created, failing)
    ensures sys.fails(s.commands) ==> Adds(sys, s, t, created, [x] + failing)
    ensures !sys.fails(s.commands) ==> Adds(sys, s, t, [x] + created, failing)
  {
    if sys.fails(s.commands) {
      FirstError(s.errors, NotAdded(x.destination), NotAddedAll(failing));
      assert ([x] + failing)[1..] == failing;
    } else {
      Snoc(s.managed, x, created);
      RowsOfCons(sys, x, created);
    }
  }

  lemma {:induction false} AddAllExactly<Row>(sys: System<Row>, s: State<Row>, specs: seq<RouteSpec>)
    ensures AddAll(sys, s, specs).commands == s.commands + |specs|
    ensures Adds(sys, s, AddAll(sys, s, specs), Through(sys.fails, s.commands, specs),
                 Failing(sys.fails, s.commands, specs))
    decreases |specs|
  {
    if specs == [] {
      assert s.managed + [] == s.managed && RowsOf(sys, []) == {} && s.errors + [] == s.errors;
    } else {
      var x, rest := specs[0], specs[1..];
      var created, failing := Through(sys.fails, s.commands + 1, rest), Failing(sys.fails, s.commands + 1, rest);
      ThroughHead(sys.fails, s.commands, specs, created, failing);
      AddAllExactly(sys, AddStep(sys, s, x), rest);
      AddsMore(sys, s, AddAll(sys, s, specs), x, created, failing);
    }
  }

  /** And verifying. */
  ghost predicate Restores<Row>(sys: System<Row>, s: State<Row>, t: State<Row>, again: seq<RouteSpec>)
  {
    && t.managed == s.managed && t.rows == s.rows + RowsOf(sys, again)
    && t.added == s.added + |again| && t.removed == s.removed && s.errors <= t.errors
  }

  lemma RestoresMore<Row>(sys: System<Row>, recorded: seq<RouteSpec>, s: State<Row>, t: State<Row>, x: RouteSpec,
                          again: seq<RouteSpec>)
    requires Restores(sys, RepairStep(sys, recorded, s, x), t, again)
    ensures Restores(sys, s, t, if sys.inForce(s.commands) || x !in recorded || sys.fails(s.commands + 1) then again
                                else [x] + again)
  {
    RowsOfCons(sys, x, again);
  }

  lemma {:induction false} RepairAllExactly<Row>(sys: System<Row>, recorded: seq<RouteSpec>, s: State<Row>,
      specs: seq<RouteSpec>)
    ensures Restores(sys, s, RepairAll(sys, recorded, s, specs), Restored(sys, recorded, s.commands, specs))
    decreases |specs|
  {
    if specs == [] {
      assert RowsOf(sys, []) == {};
    } else {
      var t := RepairStep(sys, recorded, s, specs[0]);
      RepairAllExactly(sys, recorded, t, specs[1..]);
      RestoresMore(sys, recorded, s, RepairAll(sys, recorded, s, specs), specs[0],
                   Restored(sys, recorded, t.commands, specs[1..]));
    }
  }

  /** The commands of one call, by what becomes of them. */
  datatype Commands = Commands(
    dropped: seq<RouteSpec>,
    kept: seq<RouteSpec>,      // no longer wanted, but the delete failed
    created: seq<RouteSpec>,
    missed: seq<RouteSpec>,    // new, but the add failed
    restored: seq<RouteSpec>)

  function CommandsOf<Row>(sys: System<Row>, s: State<Row>, desired: seq<RouteSpec>): Commands
  {
    var unwanted, missing := Filter(s.managed, desired), Filter(desired, s.managed);
    var c := s.commands + |unwanted|;
    Commands(Through(sys.fails, s.commands, unwanted), Failing(sys.fails, s.commands, unwanted),
             Through(sys.fails, c, missing), Failing(sys.fails, c, missing),
             Restored(sys, s.managed, c + |missing|, desired))
  }

  /** The state and the answer that these commands lead to. */
  ghost predicate Results<Row>(sys: System<Row>, s: State<Row>, t: State<Row>, cs: Commands)
  {
    && t.managed == Without(s.managed, cs.dropped) + cs.created
    && t.rows == (s.rows - RowsOf(sys, cs.dropped)) + RowsOf(sys, cs.created) + RowsOf(sys, cs.restored)
    && t.removed == |cs.dropped| && t.added == |cs.created| + |cs.restored|
    && NotDeletedAll(cs.kept) + NotAddedAll(cs.missed) <= t.errors
  }

  /** What one call does, whatever fails: of the entries no longer wanted those are dropped, and of the new ones those
      recorded, whose command goes through, in the order of the commands; and recorded routes are restored that an
      inspection does not find in force. */
  lemma ReconcileExactly<Row>(sys: System<Row>, s: State<Row>, desired: seq<RouteSpec>)
    ensures Results(sys, s, ReconcileSpec(sys, s, desired), CommandsOf(sys, s, desired))
  {
    var begun := Begun(s);
    var unwanted, missing := Filter(s.managed, desired), Filter(desired, s.managed);
    var deleted := DeleteAll(sys, begun, unwanted);
    var added := AddAll(sys, deleted, missing);
    var cs := CommandsOf(sys, s, desired);
    DeletesBy(sys, begun, unwanted, deleted, cs);
    AddsBy(sys, deleted, missing, added, cs);
    RepairsBy(sys, s.managed, added, desired, cs);
    ResultsOfPhases(sys, begun, deleted, added, ReconcileSpec(sys, s, desired), cs);
    SameStart(sys, begun, s, ReconcileSpec(sys, s, desired), cs);
  }

  lemma DeletesBy<Row>(sys: System<Row>, s: State<Row>, specs: seq<RouteSpec>, t: State<Row>, cs: Commands)
    requires t == DeleteAll(sys, s, specs)
    requires cs.dropped == Through(sys.fails, s.commands, specs) && cs.kept == Failing(sys.fails, s.commands, specs)
    ensures Deletes(sys, s, t, cs.dropped, cs.kept) && t.commands == s.commands + |specs|
  {
    DeleteAllExactly(sys, s, specs);
  }

  lemma AddsBy<Row>(sys: System<Row>, s: State<Row>, specs: seq<RouteSpec>, t: State<Row>, cs: Commands)
    requires t == AddAll(sys, s, specs)
    requires cs.created == Through(sys.fails, s.commands, specs) && cs.missed == Failing(sys.fails, s.commands, specs)
    ensures Adds(sys, s, t, cs.created, cs.missed) && t.commands == s.commands + |specs|
  {
    AddAllExactly(sys, s, specs);
  }

  lemma RepairsBy<Row>(sys: System<Row>, recorded: seq<RouteSpec>, s: State<Row>, specs: seq<RouteSpec>, cs: Commands)
    requires cs.restored == Restored(sys, recorded, s.commands, specs)
    ensures Restores(sys, s, RepairAll(sys, recorded, s, specs), cs.restored)
  {
    RepairAllExactly(sys, recorded, s, specs);
  }

  lemma SameStart<Row>(sys: System<Row>, begun: State<Row>, s: State<Row>, t: State<Row>, cs: Commands)
    requires Results(sys, begun, t, cs) && begun.managed == s.managed && begun.rows == s.rows
    ensures Results(sys, s, t, cs)
  {
  }

  lemma ResultsOfPhases<Row>(sys: System<Row>, begun: State<Row>, deleted: State<Row>, added: State<Row>, t: State<Row>,
                             cs: Commands)
    requires begun.added == begun.removed == 0 && begun.errors == []
    requires Deletes(sys, begun, deleted, cs.dropped, cs.kept) && Adds(sys, deleted, added, cs.created, cs.missed)
    requires Restores(sys, added, t, cs.restored)
    ensures Results(sys, begun, t, cs)
  {
    assert [] + NotDeletedAll(cs.kept) == NotDeletedAll(cs.kept);
  }

  lemma {:induction false} WithoutMembers(specs: seq<RouteSpec>, gone: seq<RouteSpec>)
    ensures forall x :: x in Without(specs, gone) <==> x in specs && x !in gone
  {
    if specs != [] {
      WithoutMembers(specs[1..], gone);
    }
  }

  /** Without failing commands: the inventory as a set is the request, each new route's row is in the table, and a row
      is in the table if and only if it was and no dropped entry has it, or a new or a restored route has it. */
  lemma ReconcileWithoutFailures<Row>(sys: System<Row>, s: State<Row>, desired: seq<RouteSpec>)
    requires forall n :: !sys.fails(n)
    ensures var unwanted, missing := Filter(s.managed, desired), Filter(desired, s.managed);
            var again, t := CommandsOf(sys, s, desired).restored, ReconcileSpec(sys, s, desired);
            && (forall x :: x in t.managed <==> x in desired)
            && RowsOf(sys, missing) <= t.rows
            && t.rows == (s.rows - RowsOf(sys, unwanted)) + RowsOf(sys, missing) + RowsOf(sys, again)
            && t.removed == |unwanted| && t.added == |missing| + |again|
  {
    ReconcileExactly(sys, s, desired);
    NothingFailing(sys, s, desired);
    WithoutMembers(s.managed, Filter(s.managed, desired));
  }

  lemma CommandsAre<Row>(sys: System<Row>, s: State<Row>, desired: seq<RouteSpec>, c: nat)
    requires c == s.commands + |Filter(s.managed, desired)|
    ensures var cs := CommandsOf(sys, s, desired);
            && cs.dropped == Through(sys.fails, s.commands, Filter(s.managed, desired))
            && cs.created == Through(sys.fails, c, Filter(desired, s.managed))
  {
  }

  lemma NothingFailing<Row>(sys: System<Row>, s: State<Row>, desired: seq<RouteSpec>)
    requires forall n :: !sys.fails(n)
    ensures CommandsOf(sys, s, desired).dropped == Filter(s.managed, desired)
    ensures CommandsOf(sys, s, desired).created == Filter(desired, s.managed)
  {
    var c := s.commands + |Filter(s.managed, desired)|;
    CommandsAre(sys, s, desired, c);
    NothingFails(sys.fails, s.commands, Filter(s.managed, desired));
    NothingFails(sys.fails, c, Filter(desired, s.managed));
  }

  lemma {:induction false} FailingAreReported(specs: seq<RouteSpec>, x: RouteSpec)
    requires x in specs
    ensures NotAdded(x.destination) in NotAddedAll(specs)
  {
    if specs[0] != x {
      FailingAreReported(specs[1..], x);
    }
  }

  lemma CreatedIsThere<Row>(sys: System<Row>, s: State<Row>, t: State<Row>, cs: Commands, x: RouteSpec)
    requires Results(sys, s, t, cs)
    ensures x in cs.created ==> x in t.managed && sys.row(x) in t.rows
    ensures x in cs.missed ==> NotAdded(x.destination) in t.errors
  {
    if x in cs.missed {
      FailingAreReported(cs.missed, x);
      var reported := NotDeletedAll(cs.kept) + NotAddedAll(cs.missed);
      assert NotAdded(x.destination) in reported;
      assert t.errors == reported + t.errors[|reported|..];
    }
  }

  lemma NewIsTried<Row>(sys: System<Row>, s: State<Row>, desired: seq<RouteSpec>, x: RouteSpec)
    requires x in desired && x !in s.managed
    ensures x in CommandsOf(sys, s, desired).created || x in CommandsOf(sys, s, desired).missed
  {
    ThroughOrFailing(sys.fails, s.commands + |Filter(s.managed, desired)|, Filter(desired, s.managed), x);
  }

  /** Whatever fails, every requested route that was not recorded is recorded with its row in the table, or reported. */
  lemma NewRoutesAreKeptOrReported<Row>(sys: System<Row>, s: State<Row>, desired: seq<RouteSpec>, x: RouteSpec)
    requires x in desired && x !in s.managed
    ensures var t := ReconcileSpec(sys, s, desired);
            (x in t.managed && sys.row(x) in t.rows) || NotAdded(x.destination) in t.errors
  {
    ReconcileExactly(sys, s, desired);
    NewIsTried(sys, s, desired, x);
    CreatedIsThere(sys, s, ReconcileSpec(sys, s, desired), CommandsOf(sys, s, desired), x);
  }

  /******* What one call reports *******/

  /** What the verification loop reports: recorded routes that are not in force and whose command fails, and each
      message of an inspection, behind the repair if there was one, that does not find its route in force. */
  function Reported<Row>(sys: System<Row>, recorded: seq<RouteSpec>, c: nat, specs: seq<RouteSpec>): set<Problem>
    decreases |specs|
  {
    if specs == [] then {}
    else if sys.inForce(c) then Reported(sys, recorded, c + 1, specs[1..])
    else if specs[0] !in recorded then
      {NotVerified(sys.message(c, specs[0]))} + Reported(sys, recorded, c + 1, specs[1..])
    else if sys.fails(c + 1) then {NotRepaired(specs[0].destination)} + Reported(sys, recorded, c + 2, specs[1..])
    else (if sys.inForce(c + 2) then {} else {NotVerified(sys.message(c + 2, specs[0]))})
         + Reported(sys, recorded, c + 3, specs[1..])
  }

  lemma StepReports<Row>(sys: System<Row>, recorded: seq<RouteSpec>, s: State<Row>, spec: RouteSpec, p: Problem)
    ensures p in RepairStep(sys, recorded, s, spec).errors
            <==> p in s.errors || p in Reported(sys, recorded, s.commands, [spec])
  {
    var t, c := RepairStep(sys, recorded, s, spec), s.commands;
    assert Reported(sys, recorded, c + 1, [spec][1..]) == {};
    assert Reported(sys, recorded, c + 2, [spec][1..]) == {};
    assert Reported(sys, recorded, c + 3, [spec][1..]) == {};
    assert t.errors == s.errors || t.errors == s.errors + [t.errors[|s.errors|]];
  }

  lemma ReportedCons<Row>(sys: System<Row>, recorded: seq<RouteSpec>, s: State<Row>, x: RouteSpec,
                          rest: seq<RouteSpec>)
    ensures Reported(sys, recorded, s.commands, [x] + rest)
            == Reported(sys, recorded, s.commands, [x])
               + Reported(sys, recorded, RepairStep(sys, recorded, s, x).commands, rest)
  {
    var c := s.commands;
    assert ([x] + rest)[1..] == rest && [x][1..] == [];
    assert Reported(sys, recorded, c + 1, []) == Reported(sys, recorded, c + 2, []) == {};
    assert Reported(sys, recorded, c + 3, []) == {};
  }

  lemma {:induction false} RepairAllReports<Row>(sys: System<Row>, recorded: seq<RouteSpec>, s: State<Row>,
      specs: seq<RouteSpec>, p: Problem)
    ensures p in RepairAll(sys, recorded, s, specs).errors
            <==> p in s.errors || p in Reported(sys, recorded, s.commands, specs)
    decreases |specs|
  {
    if specs != [] {
      var x, rest := specs[0], specs[1..];
      assert specs == [x] + rest;
      StepReports(sys, recorded, s, x, p);
      ReportedCons(sys, recorded, s, x, rest);
      RepairAllReports(sys, recorded, RepairStep(sys, recorded, s, x), rest, p);
    }
  }

  /** The errors in the answer, whatever fails: one for each failing delete and each failing add, one for each repair
      that fails, and the message of each inspection that does not find its route in force. */
  lemma ErrorsExactly<Row>(sys: System<Row>, s: State<Row>, desired: seq<RouteSpec>, p: Problem)
    ensures var cs, c := CommandsOf(sys, s, desired), RepairsFrom(s, desired);
            p in ReconcileSpec(sys, s, desired).errors
            <==> p in NotDeletedAll(cs.kept) || p in NotAddedAll(cs.missed)
                 || p in Reported(sys, s.managed, c, desired)
  {
    var added := BeforeRepairs(sys, s, desired);
    RepairAllReports(sys, s.managed, added, desired, p);
  }

  /** The number of the first inspection. */
  function RepairsFrom<Row>(s: State<Row>, desired: seq<RouteSpec>): nat
  {
    s.commands + |Filter(s.managed, desired)| + |Filter(desired, s.managed)|
  }

  lemma BeforeRepairs<Row>(sys: System<Row>, s: State<Row>, desired: seq<RouteSpec>) returns (added: State<Row>)
    ensures var cs := CommandsOf(sys, s, desired); added.errors == NotDeletedAll(cs.kept) + NotAddedAll(cs.missed)
    ensures added.commands == RepairsFrom(s, desired)
    ensures ReconcileSpec(sys, s, desired) == RepairAll(sys, s.managed, added, desired)
  {
    var unwanted, missing := Filter(s.managed, desired), Filter(desired, s.managed);
    var begun := Begun(s);
    var deleted := DeleteAll(sys, begun, unwanted);
    added := AddAll(sys, deleted, missing);
    var cs := CommandsOf(sys, s, desired);
    DeletesBy(sys, begun, unwanted, deleted, cs);
    AddsBy(sys, deleted, missing, added, cs);
    assert [] + NotDeletedAll(cs.kept) == NotDeletedAll(cs.kept);
  }

  predicate WarnsOnce(errors: seq<Problem>)
  {
    forall i, j | 0 <= i < j < |errors| && errors[i].NotVerified? :: errors[i] != errors[j]
  }

  lemma {:induction false} RepairAllWarnsOnce<Row>(sys: System<Row>, recorded: seq<RouteSpec>, s: State<Row>,
      specs: seq<RouteSpec>)
    requires WarnsOnce(s.errors)
    ensures WarnsOnce(RepairAll(sys, recorded, s, specs).errors)
    decreases |specs|
  {
    if specs != [] {
      var t := RepairStep(sys, recorded, s, specs[0]);
      assert t.errors == s.errors || t.errors == s.errors + [t.errors[|s.errors|]];
      RepairAllWarnsOnce(sys, recorded, t, specs[1..]);
    }
  }

  lemma {:induction false} NoWarnings(specs: seq<RouteSpec>)
    ensures forall p | p in NotDeletedAll(specs) :: p.NotDeleted?
    ensures forall p | p in NotAddedAll(specs) :: p.NotAdded?
  {
    if specs != [] {
      NoWarnings(specs[1..]);
    }
  }

  /** The answer gives no warning twice. */
  lemma WarningsOnce<Row>(sys: System<Row>, s: State<Row>, desired: seq<RouteSpec>)
    ensures WarnsOnce(ReconcileSpec(sys, s, desired).errors)
  {
    var cs := CommandsOf(sys, s, desired);
    var added := BeforeRepairs(sys, s, desired);
    NoWarnings(cs.kept);
    NoWarnings(cs.missed);
    assert forall p | p in added.errors :: !p.NotVerified?;
    assert forall i | 0 <= i < |added.errors| :: added.errors[i] in added.errors;
    RepairAllWarnsOnce(sys, s.managed, added, desired);
  }

  /******* The checks and the connections to reset *******/

  function DestinationsOf(specs: seq<RouteSpec>): set<string>
  {
    set spec | spec in specs :: spec.destination
  }

  lemma DestinationsCons(x: RouteSpec, rest: seq<RouteSpec>)
    ensures DestinationsOf([x] + rest) == {x.destination} + DestinationsOf(rest)
  {
    assert forall y :: y in [x] + rest <==> y == x || y in rest;
  }

  /** One check for each requested route, in order: whether the last inspection finds it in force; not if its repair
      failed. */
  function Conclusions<Row>(sys: System<Row>, recorded: seq<RouteSpec>, c: nat, specs: seq<RouteSpec>): seq<Check>
    decreases |specs|
  {
    if specs == [] then []
    else if sys.inForce(c) then [Check(specs[0].destination, true)] + Conclusions(sys, recorded, c + 1, specs[1..])
    else if specs[0] !in recorded then
      [Check(specs[0].destination, false)] + Conclusions(sys, recorded, c + 1, specs[1..])
    else if sys.fails(c + 1) then
      [Check(specs[0].destination, false)] + Conclusions(sys, recorded, c + 2, specs[1..])
    else [Check(specs[0].destination, sys.inForce(c + 2))] + Conclusions(sys, recorded, c + 3, specs[1..])
  }

  lemma {:induction false} DeleteAllResets<Row>(sys: System<Row>, s: State<Row>, specs: seq<RouteSpec>)
    ensures var t := DeleteAll(sys, s, specs);
            && t.removedDestinations == s.removedDestinations + DestinationsOf(Through(sys.fails, s.commands, specs))
            && t.addedDestinations == s.addedDestinations && t.checks == s.checks
    decreases |specs|
  {
    if specs != [] {
      var x, through := specs[0], Through(sys.fails, s.commands + 1, specs[1..]);
      ThroughHead(sys.fails, s.commands, specs, through, Failing(sys.fails, s.commands + 1, specs[1..]));
      DestinationsCons(x, through);
      DeleteAllResets(sys, DeleteStep(sys, s, x), specs[1..]);
    }
  }

  lemma {:induction false} AddAllResets<Row>(sys: System<Row>, s: State<Row>, specs: seq<RouteSpec>)
    ensures var t := AddAll(sys, s, specs);
            && t.addedDestinations == s.addedDestinations + DestinationsOf(Through(sys.fails, s.commands, specs))
            && t.removedDestinations == s.removedDestinations && t.checks == s.checks
    decreases |specs|
  {
    if specs != [] {
      var x, through := specs[0], Through(sys.fails, s.commands + 1, specs[1..]);
      ThroughHead(sys.fails, s.commands, specs, through, Failing(sys.fails, s.commands + 1, specs[1..]));
      DestinationsCons(x, through);
      AddAllResets(sys, AddStep(sys, s, x), specs[1..]);
    }
  }

  /** The recorded route is not found in force, and its command goes through. */
  predicate IsRestored<Row>(sys: System<Row>, recorded: seq<RouteSpec>, c: nat, x: RouteSpec)
  {
    !sys.inForce(c) && x in recorded && !sys.fails(c + 1)
  }

  function Conclusion<Row>(sys: System<Row>, recorded: seq<RouteSpec>, c: nat, x: RouteSpec): Check
  {
    Check(x.destination, sys.inForce(c) || (IsRestored(sys, recorded, c, x) && sys.inForce(c + 2)))
  }

  /** The number of the command behind those for one route. */
  function NextCommand<Row>(sys: System<Row>, recorded: seq<RouteSpec>, c: nat, x: RouteSpec): nat
  {
    if sys.inForce(c) || x !in recorded then c + 1 else if sys.fails(c + 1) then c + 2 else c + 3
  }

  lemma StepConcludes<Row>(sys: System<Row>, recorded: seq<RouteSpec>, s: State<Row>, x: RouteSpec)
    ensures var u := RepairStep(sys, recorded, s, x);
            && u.checks == s.checks + [Conclusion(sys, recorded, s.commands, x)]
            && u.addedDestinations
               == s.addedDestinations + (if IsRestored(sys, recorded, s.commands, x) then {x.destination} else {})
            && u.removedDestinations == s.removedDestinations
            && u.commands == NextCommand(sys, recorded, s.commands, x)
  {
  }

  lemma ConclusionsHead<Row>(sys: System<Row>, recorded: seq<RouteSpec>, c: nat, specs: seq<RouteSpec>)
    requires specs != []
    ensures Conclusions(sys, recorded, c, specs)
            == [Conclusion(sys, recorded, c, specs[0])]
               + Conclusions(sys, recorded, NextCommand(sys, recorded, c, specs[0]), specs[1..])
  {
  }

  lemma RestoredHead<Row>(sys: System<Row>, recorded: seq<RouteSpec>, c: nat, specs: seq<RouteSpec>)
    requires specs != []
    ensures Restored(sys, recorded, c, specs)
            == (if IsRestored(sys, recorded, c, specs[0]) then [specs[0]] else [])
               + Restored(sys, recorded, NextCommand(sys, recorded, c, specs[0]), specs[1..])
  {
    var rest := Restored(sys, recorded, NextCommand(sys, recorded, c, specs[0]), specs[1..]);
    assert [] + rest == rest;
  }

  lemma DestinationsBehind(head: seq<RouteSpec>, rest: seq<RouteSpec>)
    ensures DestinationsOf(head + rest) == DestinationsOf(head) + DestinationsOf(rest)
  {
    assert forall y :: y in head + rest <==> y in head || y in rest;
  }

  lemma {:induction false} RepairAllConcludes<Row>(sys: System<Row>, recorded: seq<RouteSpec>, s: State<Row>,
      specs: seq<RouteSpec>)
    ensures RepairAll(sys, recorded, s, specs).checks == s.checks + Conclusions(sys, recorded, s.commands, specs)
    decreases |specs|
  {
    if specs != [] {
      var u := RepairStep(sys, recorded, s, specs[0]);
      StepConcludes(sys, recorded, s, specs[0]);
      ConclusionsHead(sys, recorded, s.commands, specs);
      RepairAllConcludes(sys, recorded, u, specs[1..]);
      Snoc(s.checks, Conclusion(sys, recorded, s.commands, specs[0]),
           Conclusions(sys, recorded, u.commands, specs[1..]));
    }
  }

  lemma {:induction false} RepairAllResets<Row>(sys: System<Row>, recorded: seq<RouteSpec>, s: State<Row>,
      specs: seq<RouteSpec>)
    ensures var t := RepairAll(sys, recorded, s, specs);
            && t.addedDestinations
               == s.addedDestinations + DestinationsOf(Restored(sys, recorded, s.commands, specs))
            && t.removedDestinations == s.removedDestinations
    decreases |specs|
  {
    if specs != [] {
      var u := RepairStep(sys, recorded, s, specs[0]);
      var head := if IsRestored(sys, recorded, s.commands, specs[0]) then [specs[0]] else [];
      StepConcludes(sys, recorded, s, specs[0]);
      RestoredHead(sys, recorded, s.commands, specs);
      RepairAllResets(sys, recorded, u, specs[1..]);
      DestinationsBehind(head, Restored(sys, recorded, u.commands, specs[1..]));
      assert DestinationsOf(head) == if head == [] then {} else {specs[0].destination};
    }
  }

  /** What the answer says about connections before the verification loop. */
  lemma ResetsBeforeRepairs<Row>(sys: System<Row>, s: State<Row>, desired: seq<RouteSpec>)
    returns (added: State<Row>)
    ensures var cs := CommandsOf(sys, s, desired);
            && added.removedDestinations == DestinationsOf(cs.dropped)
            && added.addedDestinations == DestinationsOf(cs.created) && added.checks == []
    ensures added.commands == RepairsFrom(s, desired)
    ensures ReconcileSpec(sys, s, desired) == RepairAll(sys, s.managed, added, desired)
  {
    var unwanted, missing := Filter(s.managed, desired), Filter(desired, s.managed);
    CommandsAre(sys, s, desired, s.commands + |unwanted|);
    added := ResetsOfPhases(sys, Begun(s), unwanted, missing, CommandsOf(sys, s, desired));
  }

  lemma ResetsOfPhases<Row>(sys: System<Row>, begun: State<Row>, unwanted: seq<RouteSpec>, missing: seq<RouteSpec>,
                            cs: Commands) returns (added: State<Row>)
    requires begun.removedDestinations == begun.addedDestinations == {} && begun.checks == []
    requires cs.dropped == Through(sys.fails, begun.commands, unwanted)
    requires cs.created == Through(sys.fails, begun.commands + |unwanted|, missing)
    ensures added == AddAll(sys, DeleteAll(sys, begun, unwanted), missing)
    ensures added.removedDestinations == DestinationsOf(cs.dropped)
    ensures added.addedDestinations == DestinationsOf(cs.created) && added.checks == []
    ensures added.commands == begun.commands + |unwanted| + |missing|
  {
    var deleted := DeleteAll(sys, begun, unwanted);
    added := AddAll(sys, deleted, missing);
    DeletesCounted(sys, begun, unwanted);
    AddsCounted(sys, deleted, missing);
    DeleteAllResets(sys, begun, unwanted);
    AddAllResets(sys, deleted, missing);
  }

  lemma {:induction false} DeletesCounted<Row>(sys: System<Row>, s: State<Row>, specs: seq<RouteSpec>)
    ensures DeleteAll(sys, s, specs).commands == s.commands + |specs|
    decreases |specs|
  {
    if specs != [] {
      DeletesCounted(sys, DeleteStep(sys, s, specs[0]), specs[1..]);
    }
  }

  lemma {:induction false} AddsCounted<Row>(sys: System<Row>, s: State<Row>, specs: seq<RouteSpec>)
    ensures AddAll(sys, s, specs).commands == s.commands + |specs|
    decreases |specs|
  {
    if specs != [] {
      AddsCounted(sys, AddStep(sys, s, specs[0]), specs[1..]);
    }
  }

  lemma RestoredAre<Row>(sys: System<Row>, s: State<Row>, desired: seq<RouteSpec>, c: nat)
    requires c == RepairsFrom(s, desired)
    ensures CommandsOf(sys, s, desired).restored == Restored(sys, s.managed, c, desired)
  {
  }

  /** There is one check for each requested route, in order, whatever fails. */
  lemma ChecksExactly<Row>(sys: System<Row>, s: State<Row>, desired: seq<RouteSpec>)
    ensures ReconcileSpec(sys, s, desired).checks == Conclusions(sys, s.managed, RepairsFrom(s, desired), desired)
  {
    var added := ResetsBeforeRepairs(sys, s, desired);
    RepairAllConcludes(sys, s.managed, added, desired);
    var all := Conclusions(sys, s.managed, added.commands, desired);
    assert [] + all == all;
  }

  /** Connections are reset exactly for the destinations of dropped entries, and of created and restored routes that a
      check verifies. */
  lemma ResetsExactly<Row>(sys: System<Row>, s: State<Row>, desired: seq<RouteSpec>, d: string)
    ensures var t, cs := ReconcileSpec(sys, s, desired), CommandsOf(sys, s, desired);
            d in ResetsOf(t)
            <==> d in DestinationsOf(cs.dropped)
                 || (d in DestinationsOf(cs.created) + DestinationsOf(cs.restored)
                     && exists c :: c in t.checks && c.destination == d && c.verified)
  {
    var added := ResetsBeforeRepairs(sys, s, desired);
    RepairAllResets(sys, s.managed, added, desired);
    RestoredAre(sys, s, desired, added.commands);
    ResetsAre(ReconcileSpec(sys, s, desired), CommandsOf(sys, s, desired), d);
  }

  lemma ResetsAre<Row>(t: State<Row>, cs: Commands, d: string)
    requires t.removedDestinations == DestinationsOf(cs.dropped)
    requires t.addedDestinations == DestinationsOf(cs.created) + DestinationsOf(cs.restored)
    ensures d in ResetsOf(t)
            <==> d in DestinationsOf(cs.dropped)
                 || (d in DestinationsOf(cs.created) + DestinationsOf(cs.restored)
                     && exists c :: c in t.checks && c.destination == d && c.verified)
  {
  }

  const RECORDED := RouteSpec("10.0.0.0/8", None, "en0", "netpilot:a")

  /** An inspection asks which way one address goes, so it can find a route in force whose row the table lost: recorded,
      requested again, answered without an error, and not there. */
  lemma InForceIsNotPresence<Row>(sys: System<Row>)
    requires (forall n :: !sys.fails(n) && sys.inForce(n))
    ensures var t := ReconcileSpec(sys, State([RECORDED], {}, {}, 0, 0, 0, [], [], {}, {}), [RECORDED]);
            t.managed == [RECORDED] && t.rows == {} && t.errors == []
  {
    var s := State([RECORDED], {}, {}, 0, 0, 0, [], [], {}, {});
    assert Filter([RECORDED], [RECORDED]) == [];
    var t := RepairStep(sys, [RECORDED], s, RECORDED);
    assert [RECORDED][1..] == [];
    assert RepairAll(sys, [RECORDED], s, [RECORDED]) == RepairAll(sys, [RECORDED], t, []) == t;
  }

  datatype Event<Row> = Request(desired: seq<RouteSpec>) | External(rows: set<Row>)

  function Step<Row>(sys: System<Row>, s: State<Row>, e: Event<Row>): State<Row>
  {
    match e
    case Request(desired) => ReconcileSpec(sys, s, desired)
    case External(rows) => s.(rows := rows, owned := s.owned * rows)
  }

  function Run<Row>(sys: System<Row>, s: State<Row>, events: seq<Event<Row>>): State<Row>
    decreases |events|
  {
    if events == [] then s else Run(sys, Step(sys, s, events[0]), events[1..])
  }

  /** Over any run, with any failures and any outside edits, no created route is forgotten. */
  lemma {:induction false} NoForgottenRoute<Row>(sys: System<Row>, s: State<Row>, events: seq<Event<Row>>)
    requires Accounted(sys, s)
    ensures Accounted(sys, Run(sys, s, events))
    decreases |events|
  {
    if events != [] {
      match events[0] {
        case Request(desired) => ReconcileAccounts(sys, s, desired);
        case External(rows) =>
      }
      NoForgottenRoute(sys, Step(sys, s, events[0]), events[1..]);
    }
  }
}

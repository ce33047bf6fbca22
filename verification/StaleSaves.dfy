/** What overlapping saves, deletions and toggles may do to each other's rules. */
module StaleSaves {
  import opened Common
  import opened Planner
  import opened Controller

  /** The operation an event continues. */
  function Continues(e: Event): Option<nat>
  {
    if e.EBeginUpsert? || e.EDelete? || e.ESetRule? || e.ESetSubRule? || e.ESetMode? || e.EImport? || e.ERefresh?
       || e.EInterfacesChanged? || e.EInstall? || IsApplyEvent(e) then None else Some(e.op)
  }

  /** Tokens belong to operations that have begun, and ids in use have been handed out. */
  predicate Ordered(s: State)
  {
    && (forall id | id in s.tokens :: s.tokens[id] < |s.ops|)
    && Ids(s.rules) <= s.used
    && s.tokens.Keys <= s.used
    && forall k | 0 <= k < |s.ops| :: Hoard(s.ops[k]) <= s.used
  }

  /** The ids in a rule list an operation holds on to. */
  function Hoard(op: Op): set<string>
  {
    match op
    case Refreshing(snapshot) => Ids(snapshot)
    case SavingImport(next) => Ids(next)
    case _ => {}
  }

  /******* How lists change *******/

  lemma IdsCons(rules: seq<Rule>)
    requires rules != []
    ensures Ids(rules) == {rules[0].id} + Ids(rules[1..])
  {
    assert forall r :: r in rules <==> r == rules[0] || r in rules[1..];
  }

  lemma IdsConcat(a: seq<Rule>, b: seq<Rule>)
    ensures Ids(a + b) == Ids(a) + Ids(b)
  {
    assert forall r :: r in a + b <==> r in a || r in b;
  }

  lemma {:induction false} ReplaceIds(rules: seq<Rule>, rule: Rule)
    ensures Ids(Replace(rules, rule)) == Ids(rules) + {rule.id}
  {
    if rules == [] {
    } else if rules[0].id == rule.id {
      IdsCons(rules);
      IdsCons([rule] + rules[1..]);
      assert ([rule] + rules[1..])[1..] == rules[1..];
    } else {
      ReplaceIds(rules[1..], rule);
      IdsCons(rules);
      IdsCons(Replace(rules, rule));
    }
  }

  lemma {:induction false} WithoutIds(rules: seq<Rule>, id: string)
    ensures Ids(Without(rules, id)) == Ids(rules) - {id}
  {
    if rules != [] {
      WithoutIds(rules[1..], id);
      IdsCons(rules);
      if rules[0].id != id {
        IdsCons(Without(rules, id));
      }
    }
  }

  lemma {:induction false} FoundIds(rules: seq<Rule>, id: string)
    ensures Present(rules, id) <==> id in Ids(rules)
    ensures Present(rules, id) ==> Find(rules, id).value.id == id
  {
    if rules != [] {
      IdsCons(rules);
      FoundIds(rules[1..], id);
    }
  }

  lemma RefreshedIds(was: seq<Rule>, rules: seq<Rule>)
    requires AllRefreshed(was, rules)
    ensures Ids(rules) == Ids(was)
  {
    forall k | 0 <= k < |was| ensures was[k].id == rules[k].id && was[k].id in Ids(rules) && rules[k].id in Ids(was) {
      assert IsRefreshed(was[k], rules[k]);
      assert was[k] in was && rules[k] in rules;
    }
  }

  lemma {:induction false} NotDuplicatedIds(rules: seq<Rule>, additions: seq<Rule>)
    ensures Ids(NotDuplicated(rules, additions)) <= Ids(additions)
  {
    if additions != [] {
      NotDuplicatedIds(rules, additions[1..]);
      IdsCons(additions);
      var head := if Duplicates(rules, additions[0]) then [] else [additions[0]];
      IdsConcat(head, NotDuplicated(rules, additions[1..]));
    }
  }

  /******* What one step does to rules and tokens *******/

  /** The rule a step writes, and the save that owns it. */
  ghost predicate SaveWrites(s: State, t: State, i: nat)
  {
    && i < |t.ops| && t.ops[i].Upsert? && IsCurrent(t, i)
    && (i < |s.ops| ==> s.ops[i].Upsert? && s.ops[i].id == t.ops[i].id && IsCurrent(s, i))
    && exists rule: Rule :: rule.id == t.ops[i].id && (t.rules == Replace(s.rules, rule) || t.rules == s.rules + [rule])
  }

  /** Operation `i` took a step: no other operation, no token and no used id changed; a save stays the same save until
      it ends. */
  ghost predicate Moved(s: State, t: State, i: nat)
  {
    && t.tokens == s.tokens && |t.ops| == |s.ops| && i < |s.ops|
    && (forall k | 0 <= k < |s.ops| && k != i :: t.ops[k] == s.ops[k])
    && (s.ops[i].Upsert? ==> t.ops[i].Finished? || (t.ops[i].Upsert? && t.ops[i].id == s.ops[i].id))
  }

  /** A step of save `i`, which may write its own rule. */
  ghost predicate SaveMoved(s: State, t: State, i: nat)
  {
    Moved(s, t, i) && t.used == s.used && s.ops[i].Upsert? && (t.rules == s.rules || SaveWrites(s, t, i))
  }

  lemma WriteParentMoves(s: State, i: nat, ips: seq<string>)
    requires i < |s.ops| && s.ops[i].Upsert?
    ensures SaveMoved(s, WriteParent(s, i, ips), i)
  {
    var rule := ParentRule(s, s.ops[i], ips);
    assert rule.id == s.ops[i].id;
  }

  lemma WriteChildrenMoves(s: State, i: nat, children: seq<SubRule>, caught: bool)
    requires i < |s.ops| && s.ops[i].Upsert?
    ensures SaveMoved(s, WriteChildren(s, i, children, caught), i)
  {
    var id := s.ops[i].id;
    FoundIds(s.rules, id);
    if Present(s.rules, id) {
      var rule := Find(s.rules, id).value.(subRules := children);
      assert rule.id == id;
    }
  }

  lemma HostsDoneMoves(s: State, i: nat, ok: bool)
    requires HostsDone(s, i, ok).Some?
    ensures SaveMoved(s, HostsDone(s, i, ok).value, i)
  {
    if s.ops[i].at.Restoring? {
      WriteParentMoves(s, i, s.ops[i].at.ips);
    }
  }

  lemma LookupDoneMoves(s: State, i: nat, ips: Option<seq<string>>)
    requires LookupDone(s, i, ips).Some?
    ensures SaveMoved(s, LookupDone(s, i, ips).value, i)
  {
    if ips.Some? {
      WriteParentMoves(s, i, ips.value);
    }
  }

  predicate IsSaveEvent(e: Event)
  {
    e.EHostsDone? || e.ELookupDone? || e.EApplyDone? || e.EScanDone? || e.EChildrenDone? || e.EScanFailed?
  }

  lemma SaveEventMoves(s: State, e: Event)
    requires IsSaveEvent(e) && Step(s, e).Some?
    ensures SaveMoved(s, Step(s, e).value, e.op)
  {
    if e.EHostsDone? {
      HostsDoneMoves(s, e.op, e.ok);
    } else if e.ELookupDone? {
      LookupDoneMoves(s, e.op, e.ips);
    } else if e.EChildrenDone? {
      WriteChildrenMoves(s, e.op, e.children, false);
    } else if e.EScanFailed? {
      WriteChildrenMoves(s, e.op, [], true);
    }
  }

  lemma SaveFailedMoves(s: State, i: nat)
    requires SaveFailed(s, i).Some?
    ensures var t := SaveFailed(s, i).value; Moved(s, t, i) && t.used == s.used && !s.ops[i].Finished?
    ensures var t := SaveFailed(s, i).value; t.rules == s.rules || SaveWrites(s, t, i)
  {
    if s.ops[i].Upsert? {
      WriteChildrenMoves(s, i, [], true);
    }
  }

  lemma SaveDoneMoves(s: State, i: nat)
    requires SaveDone(s, i).Some?
    ensures var t := SaveDone(s, i).value;
            && Moved(s, t, i) && t.used == s.used && !s.ops[i].Finished?
            && t.rules == if s.ops[i].SavingImport? then s.ops[i].next else s.rules
  {
  }

  /** Continuing an operation moves it alone. */
  lemma StepMoves(s: State, e: Event)
    requires Continues(e).Some? && Step(s, e).Some?
    ensures Moved(s, Step(s, e).value, e.op) && !s.ops[e.op].Finished?
  {
    if IsSaveEvent(e) {
      SaveEventMoves(s, e);
    } else if e.ESaveFailed? {
      SaveFailedMoves(s, e.op);
    } else if e.ESaveDone? {
      SaveDoneMoves(s, e.op);
    }
  }

  lemma FirstStretchMoves(s: State, i: nat)
    requires i < |s.ops| && s.ops[i].Upsert?
    ensures SaveMoved(s, FirstStretch(s, i), i)
  {
    var draft := s.ops[i].draft;
    WriteParentMoves(s, i, if draft.pin.Some? then [draft.pin.value]
                           else if draft.kind == Ipv4 then [draft.destination] else []);
  }

  lemma BeginMoves(s: State, id: string, isNew: bool, draft: Draft)
    requires MayBegin(s, id, isNew, draft)
    ensures SaveMoved(Opened(s, id, isNew, draft), BeginUpsert(s, id, isNew, draft), |s.ops|)
  {
    FirstStretchMoves(Opened(s, id, isNew, draft), |s.ops|);
  }

  /******* Tokens over a run *******/

  lemma MovedOrdered(s: State, t: State, i: nat)
    requires Ordered(s) && Moved(s, t, i) && t.used == s.used && Ids(t.rules) <= s.used && Hoard(t.ops[i]) <= s.used
    ensures Ordered(t)
  {
  }

  lemma WrittenIds(s: State, t: State, i: nat)
    requires Ordered(s) && SaveWrites(s, t, i)
    ensures Ids(t.rules) <= s.used + {t.ops[i].id}
  {
    var rule: Rule :| rule.id == t.ops[i].id && (t.rules == Replace(s.rules, rule) || t.rules == s.rules + [rule]);
    ReplaceIds(s.rules, rule);
    IdsConcat(s.rules, [rule]);
    assert Ids([rule]) == {rule.id};
  }

  lemma WriteOrdered(s: State, t: State, i: nat)
    requires Ordered(s) && Moved(s, t, i) && t.used == s.used && Hoard(t.ops[i]) <= s.used
    requires t.rules == s.rules || SaveWrites(s, t, i)
    ensures Ordered(t)
  {
    if t.rules != s.rules {
      assert t.ops[i].id in t.tokens;
      WrittenIds(s, t, i);
    }
    MovedOrdered(s, t, i);
  }

  lemma BeginOrdered(s: State, id: string, isNew: bool, draft: Draft)
    requires Ordered(s) && MayBegin(s, id, isNew, draft)
    ensures Ordered(BeginUpsert(s, id, isNew, draft))
  {
    var started := Opened(s, id, isNew, draft);
    BeginMoves(s, id, isNew, draft);
    WriteOrdered(started, BeginUpsert(s, id, isNew, draft), |s.ops|);
  }

  lemma MutationOrdered(s: State, e: Event)
    requires Ordered(s) && Step(s, e).Some? && (e.EDelete? || e.ESetRule? || e.ESetSubRule?)
    ensures Ordered(Step(s, e).value)
  {
    WithoutIds(s.rules, e.id);
    FoundIds(s.rules, e.id);
    if e.ESetRule? && Present(s.rules, e.id) {
      ReplaceIds(s.rules, Find(s.rules, e.id).value.(enabled := e.enabled));
    }
    if e.ESetSubRule? && Present(s.rules, e.id) {
      var rule := Find(s.rules, e.id).value;
      ReplaceIds(s.rules, rule.(subRules := SwitchChildren(rule.subRules, e.childId, e.enabled)));
    }
  }

  lemma ImportReadyOrdered(s: State, i: nat, additions: seq<Rule>)
    requires Ordered(s) && ImportReady(s, i, additions).Some?
    ensures Ordered(ImportReady(s, i, additions).value)
  {
    NotDuplicatedIds(s.rules, additions);
    IdsConcat(s.rules, NotDuplicated(s.rules, additions));
    var t := ImportReady(s, i, additions).value;
    assert Hoard(t.ops[i]) <= t.used;
  }

  lemma RefreshDoneOrdered(s: State, i: nat, next: seq<Rule>)
    requires Ordered(s) && RefreshDone(s, i, next).Some?
    ensures Ordered(RefreshDone(s, i, next).value)
  {
    RefreshedIds(s.ops[i].snapshot, next);
    assert Hoard(s.ops[i]) == Ids(s.ops[i].snapshot);
    MovedOrdered(s, RefreshDone(s, i, next).value, i);
  }

  lemma SaveDoneOrdered(s: State, i: nat)
    requires Ordered(s) && SaveDone(s, i).Some?
    ensures Ordered(SaveDone(s, i).value)
  {
    SaveDoneMoves(s, i);
    var t := SaveDone(s, i).value;
    assert s.ops[i].SavingImport? ==> Hoard(s.ops[i]) == Ids(t.rules);
    assert Hoard(t.ops[i]) == {};
    MovedOrdered(s, t, i);
  }

  lemma StepOrdered(s: State, e: Event)
    requires Ordered(s) && Step(s, e).Some?
    ensures Ordered(Step(s, e).value)
  {
    if e.EBeginUpsert? {
      BeginOrdered(s, e.id, e.isNew, e.draft);
    } else if e.EDelete? || e.ESetRule? || e.ESetSubRule? {
      MutationOrdered(s, e);
    } else if e.EImportReady? {
      ImportReadyOrdered(s, e.op, e.additions);
    } else if e.ERefreshDone? {
      RefreshDoneOrdered(s, e.op, e.next);
    } else if e.ESaveDone? {
      SaveDoneOrdered(s, e.op);
    } else if IsSaveEvent(e) {
      SaveEventMoves(s, e);
      WriteOrdered(s, Step(s, e).value, e.op);
    } else if e.ESaveFailed? {
      SaveFailedMoves(s, e.op);
      WriteOrdered(s, Step(s, e).value, e.op);
    } else if IsApplyEvent(e) {
      ApplyTouches(s, e);
    } else if Continues(e).Some? {
      StepMoves(s, e);
      MovedOrdered(s, Step(s, e).value, e.op);
    } else {
      BegunOrdered(s, e);
    }
  }

  predicate IsApplyEvent(e: Event)
  {
    e.EApplyStart? || e.EApplyHelper? || e.EApplyHosts? || e.EApplyRoutes? || e.EApplySaved?
  }

  /** A step of the apply chain changes no rule, token or operation. */
  lemma ApplyTouches(s: State, e: Event)
    requires IsApplyEvent(e) && Step(s, e).Some?
    ensures var t := Step(s, e).value;
            t.ops == s.ops && t.rules == s.rules && t.tokens == s.tokens && t.used == s.used
  {
    if e.EApplyHosts? {
      assert ApplyHosts(s, e.ok, e.plan).Some?;
    } else if e.EApplyHelper? {
      assert ApplyHelper(s, e.answer).Some?;
    }
  }

  lemma BegunOrdered(s: State, e: Event)
    requires Ordered(s) && Step(s, e).Some?
    requires e.ESetMode? || e.EImport? || e.ERefresh? || e.EInterfacesChanged? || e.EInstall?
    ensures Ordered(Step(s, e).value)
  {
    var t := Step(s, e).value;
    assert t == s || (t == Begin(s, t.ops[|s.ops|]) && Hoard(t.ops[|s.ops|]) <= s.used);
  }

  lemma {:induction false} RunOrdered(s: State, events: seq<Event>)
    requires Ordered(s) && Run(s, events).Some?
    ensures Ordered(Run(s, events).value)
  {
    if events != [] {
      RunOrdered(s, events[..|events| - 1]);
      StepOrdered(Run(s, events[..|events| - 1]).value, events[|events| - 1]);
    }
  }

  /******* Stale saves are inert *******/

  /** Operation `i` is a save whose token was replaced or removed, or an operation that has ended. */
  predicate Stale(s: State, i: nat)
  {
    i < |s.ops| && (s.ops[i].Finished? || (s.ops[i].Upsert? && !IsCurrent(s, i)))
  }

  /** Beginning another save of the same rule, or deleting it, makes a save stale. */
  lemma ReplacedIsStale(s: State, i: nat, e: Event)
    requires Ordered(s) && i < |s.ops| && s.ops[i].Upsert? && Step(s, e).Some?
    requires (e.EBeginUpsert? || e.EDelete?) && e.id == s.ops[i].id
    ensures Stale(Step(s, e).value, i)
  {
    if e.EBeginUpsert? {
      BeginMoves(s, e.id, e.isNew, e.draft);
    }
  }

  lemma MovedStaysStale(s: State, t: State, i: nat, k: nat)
    requires Stale(s, i) && Moved(s, t, k) && !s.ops[k].Finished?
    ensures Stale(t, i)
  {
  }

  /** A new operation changes no token but the one it takes itself. */
  lemma BeginStaysStale(s: State, i: nat, e: Event)
    requires Ordered(s) && Stale(s, i) && Step(s, e).Some? && Continues(e).None? && !e.EBeginUpsert? && !IsApplyEvent(e)
    ensures Stale(Step(s, e).value, i)
  {
  }

  /** Once stale, always stale. */
  lemma StaleStays(s: State, i: nat, e: Event)
    requires Ordered(s) && Stale(s, i) && Step(s, e).Some?
    ensures Stale(Step(s, e).value, i)
  {
    if e.EBeginUpsert? {
      BeginMoves(s, e.id, e.isNew, e.draft);
    } else if Continues(e).Some? {
      StepMoves(s, e);
      MovedStaysStale(s, Step(s, e).value, i, e.op);
    } else if IsApplyEvent(e) {
      ApplyTouches(s, e);
    } else {
      BeginStaysStale(s, i, e);
    }
  }

  lemma StaleStepInert(s: State, i: nat, e: Event)
    requires Stale(s, i) && Continues(e) == Some(i) && Step(s, e).Some?
    ensures var t := Step(s, e).value; t.rules == s.rules && t.saved == s.saved && t.pending == s.pending
  {
    StepMoves(s, e);
    if e.EHostsDone? || e.ELookupDone? {
      StaleRequestInert(s, i, e);
    }
  }

  lemma StaleRequestInert(s: State, i: nat, e: Event)
    requires Stale(s, i) && (e.EHostsDone? || e.ELookupDone?) && e.op == i && Step(s, e).Some?
    ensures var t := Step(s, e).value; t.rules == s.rules && t.saved == s.saved && t.pending == s.pending
  {
  }

  lemma {:induction false} RunStale(s: State, i: nat, events: seq<Event>)
    requires Ordered(s) && Stale(s, i) && Run(s, events).Some?
    ensures Ordered(Run(s, events).value) && Stale(Run(s, events).value, i)
  {
    RunOrdered(s, events);
    if events != [] {
      RunStale(s, i, events[..|events| - 1]);
      StaleStays(Run(s, events[..|events| - 1]).value, i, events[|events| - 1]);
    }
  }

  lemma {:induction false} StartedOrdered(rules: seq<Rule>, mode: RoutingMode, interfaces: seq<Interface>,
      helper: bool, hosts: bool, events: seq<Event>)
    requires Run(Started(rules, mode, interfaces, helper, hosts), events).Some?
    ensures Ordered(Run(Started(rules, mode, interfaces, helper, hosts), events).value)
  {
    RunOrdered(Started(rules, mode, interfaces, helper, hosts), events);
  }

  /** However the rest of the run goes, a save that another save of the rule or its deletion overtook changes no rule,
      saves nothing and starts no apply when it continues. */
  lemma OvertakenSaveIsInert(s: State, i: nat, overtaking: Event, events: seq<Event>, later: Event)
    requires Ordered(s) && i < |s.ops| && s.ops[i].Upsert? && Step(s, overtaking).Some?
    requires (overtaking.EBeginUpsert? || overtaking.EDelete?) && overtaking.id == s.ops[i].id
    requires Run(Step(s, overtaking).value, events).Some? && Continues(later) == Some(i)
    requires Step(Run(Step(s, overtaking).value, events).value, later).Some?
    ensures var before := Run(Step(s, overtaking).value, events).value;
            var after := Step(before, later).value;
            after.rules == before.rules && after.saved == before.saved && after.pending == before.pending
  {
    ReplacedIsStale(s, i, overtaking);
    StepOrdered(s, overtaking);
    RunStale(Step(s, overtaking).value, i, events);
    StaleStepInert(Run(Step(s, overtaking).value, events).value, i, later);
  }

  /******* A deleted rule *******/

  /** An operation holds on to an older list with this id. */
  ghost predicate Hoarded(s: State, id: string)
  {
    exists k :: 0 <= k < |s.ops| && id in Hoard(s.ops[k])
  }

  /** The id has been handed out, and no rule and no list an operation holds has it. */
  ghost predicate Absent(s: State, id: string)
  {
    Ordered(s) && id in s.used && id !in Ids(s.rules) && !Hoarded(s, id)
  }

  ghost predicate Gone(s: State, id: string)
  {
    Absent(s, id) && id !in s.tokens
  }

  /** The event begins a save of the rule or continues the one that owns it. */
  predicate IsOwner(s: State, e: Event, id: string)
  {
    || (e.EBeginUpsert? && e.id == id)
    || (Continues(e).Some? && e.op < |s.ops| && s.ops[e.op].Upsert? && s.ops[e.op].id == id && IsCurrent(s, e.op))
  }

  lemma MovedAbsent(s: State, t: State, i: nat, id: string)
    requires Absent(s, id) && Ordered(t) && Moved(s, t, i) && s.used <= t.used
    requires id !in Ids(t.rules) && id !in Hoard(t.ops[i])
    ensures Absent(t, id)
  {
    forall k | 0 <= k < |t.ops| ensures id !in Hoard(t.ops[k]) {
    }
  }

  lemma WrittenAbsent(s: State, t: State, i: nat, id: string)
    requires id !in Ids(s.rules) && (t.rules == s.rules || (SaveWrites(s, t, i) && t.ops[i].id != id))
    ensures id !in Ids(t.rules)
  {
    if t.rules != s.rules {
      var rule: Rule :| rule.id == t.ops[i].id && (t.rules == Replace(s.rules, rule) || t.rules == s.rules + [rule]);
      ReplaceIds(s.rules, rule);
      IdsConcat(s.rules, [rule]);
      assert Ids([rule]) == {rule.id};
    }
  }

  lemma BeginAbsent(s: State, id: string, other: string, isNew: bool, draft: Draft)
    requires Absent(s, id) && other != id && MayBegin(s, other, isNew, draft)
    ensures Absent(BeginUpsert(s, other, isNew, draft), id)
  {
    var started, t := Opened(s, other, isNew, draft), BeginUpsert(s, other, isNew, draft);
    BeginOrdered(s, other, isNew, draft);
    BeginMoves(s, other, isNew, draft);
    WrittenAbsent(started, t, |s.ops|, id);
    forall k | 0 <= k < |t.ops| ensures id !in Hoard(t.ops[k]) {
      assert k < |s.ops| ==> t.ops[k] == s.ops[k];
    }
  }

  lemma MutationAbsent(s: State, e: Event, id: string)
    requires Absent(s, id) && Step(s, e).Some? && (e.EDelete? || e.ESetRule? || e.ESetSubRule?)
    ensures Absent(Step(s, e).value, id)
  {
    var t := Step(s, e).value;
    MutationOrdered(s, e);
    WithoutIds(s.rules, e.id);
    FoundIds(s.rules, e.id);
    if e.ESetRule? && Present(s.rules, e.id) {
      ReplaceIds(s.rules, Find(s.rules, e.id).value.(enabled := e.enabled));
    }
    if e.ESetSubRule? && Present(s.rules, e.id) {
      var rule := Find(s.rules, e.id).value;
      ReplaceIds(s.rules, rule.(subRules := SwitchChildren(rule.subRules, e.childId, e.enabled)));
    }
    assert id !in Ids(t.rules);
    forall k | 0 <= k < |t.ops| ensures id !in Hoard(t.ops[k]) {
      assert k < |s.ops| ==> t.ops[k] == s.ops[k];
    }
  }

  lemma BegunAbsent(s: State, e: Event, id: string)
    requires Absent(s, id) && Step(s, e).Some?
    requires e.ESetMode? || e.EImport? || e.ERefresh? || e.EInterfacesChanged? || e.EInstall?
    ensures Absent(Step(s, e).value, id)
  {
    BegunOrdered(s, e);
    var t := Step(s, e).value;
    assert t == s || (t == Begin(s, t.ops[|s.ops|]) && id !in Hoard(t.ops[|s.ops|]));
    forall k | 0 <= k < |t.ops| ensures id !in Hoard(t.ops[k]) {
      assert k < |s.ops| ==> t.ops[k] == s.ops[k];
    }
  }

  lemma ListStepAbsent(s: State, e: Event, id: string)
    requires Absent(s, id) && Step(s, e).Some? && (e.EImportReady? || e.ERefreshDone? || e.ESaveDone?)
    ensures Absent(Step(s, e).value, id)
  {
    StepOrdered(s, e);
    StepMoves(s, e);
    var t, i := Step(s, e).value, e.op;
    assert id !in Hoard(s.ops[i]);
    if e.EImportReady? {
      ImportReadyAbsent(s, i, e.additions, id);
    } else if e.ERefreshDone? {
      RefreshedIds(s.ops[i].snapshot, e.next);
      MovedAbsent(s, t, i, id);
    } else {
      SaveDoneMoves(s, i);
      assert Hoard(t.ops[i]) == {};
      MovedAbsent(s, t, i, id);
    }
  }

  lemma ImportReadyAbsent(s: State, i: nat, additions: seq<Rule>, id: string)
    requires Absent(s, id) && ImportReady(s, i, additions).Some?
    ensures Absent(ImportReady(s, i, additions).value, id)
  {
    var t := ImportReady(s, i, additions).value;
    ImportReadyOrdered(s, i, additions);
    NotDuplicatedIds(s.rules, additions);
    IdsConcat(s.rules, NotDuplicated(s.rules, additions));
    assert id !in Hoard(t.ops[i]);
    MovedAbsent(s, t, i, id);
  }

  lemma StepAbsent(s: State, e: Event, id: string)
    requires Absent(s, id) && Step(s, e).Some? && !IsOwner(s, e, id)
    ensures Absent(Step(s, e).value, id)
  {
    if e.EBeginUpsert? {
      BeginAbsent(s, id, e.id, e.isNew, e.draft);
    } else if e.EDelete? || e.ESetRule? || e.ESetSubRule? {
      MutationAbsent(s, e, id);
    } else if e.EImportReady? || e.ERefreshDone? || e.ESaveDone? {
      ListStepAbsent(s, e, id);
    } else if IsApplyEvent(e) {
      ApplyTouches(s, e);
    } else if Continues(e).None? {
      BegunAbsent(s, e, id);
    } else {
      OtherStepAbsent(s, e, id);
    }
  }

  lemma OtherStepAbsent(s: State, e: Event, id: string)
    requires Absent(s, id) && Step(s, e).Some? && Continues(e).Some? && !IsOwner(s, e, id)
    requires !e.EImportReady? && !e.ERefreshDone? && !e.ESaveDone?
    ensures Absent(Step(s, e).value, id)
  {
    var t := Step(s, e).value;
    StepOrdered(s, e);
    StepMoves(s, e);
    if IsSaveEvent(e) {
      SaveEventMoves(s, e);
      WrittenAbsent(s, t, e.op, id);
    } else if e.ESaveFailed? {
      SaveFailedMoves(s, e.op);
      WrittenAbsent(s, t, e.op, id);
    }
    assert Hoard(t.ops[e.op]) == {};
    MovedAbsent(s, t, e.op, id);
  }

  /** Only the beginning of a save hands out the token of its rule. */
  lemma NoNewToken(s: State, e: Event, id: string)
    requires Step(s, e).Some? && id !in s.tokens && !(e.EBeginUpsert? && e.id == id)
    ensures id !in Step(s, e).value.tokens
  {
    if e.EBeginUpsert? {
      BeginMoves(s, e.id, e.isNew, e.draft);
    } else if Continues(e).Some? {
      StepMoves(s, e);
    } else if IsApplyEvent(e) {
      ApplyTouches(s, e);
    }
  }

  lemma StepGone(s: State, e: Event, id: string)
    requires Gone(s, id) && Step(s, e).Some? && !(e.EBeginUpsert? && e.id == id)
    ensures Gone(Step(s, e).value, id)
  {
    NoNewToken(s, e, id);
    StepAbsent(s, e, id);
  }

  ghost predicate SavesAgain(events: seq<Event>, id: string)
  {
    exists e :: e in events && e.EBeginUpsert? && e.id == id
  }

  lemma {:induction false} RunGone(s: State, events: seq<Event>, id: string)
    requires Gone(s, id) && Run(s, events).Some? && !SavesAgain(events, id)
    ensures Gone(Run(s, events).value, id)
  {
    if events != [] {
      var front := events[..|events| - 1];
      assert forall e | e in front :: e in events;
      RunGone(s, front, id);
      StepGone(Run(s, front).value, events[|events| - 1], id);
    }
  }

  /** Some run without another save of this id brings it back. */
  ghost predicate MayReturn(s: State, id: string)
  {
    exists events :: Run(s, events).Some? && !SavesAgain(events, id) && id in Ids(Run(s, events).value.rules)
  }

  /** Every list can be refreshed: each lookup finds what it found before. */
  function RefreshChild(child: SubRule): SubRule
  {
    if child.kind == Ipv4 then child.(resolvedIps := [child.destination]) else child
  }

  function RefreshRule(rule: Rule): Rule
  {
    rule.(resolvedIps := if rule.hostIpv4.Some? then [rule.hostIpv4.value] else rule.resolvedIps,
          subRules := seq(|rule.subRules|, k requires 0 <= k < |rule.subRules| => RefreshChild(rule.subRules[k])))
  }

  lemma CanRefresh(snapshot: seq<Rule>) returns (next: seq<Rule>)
    ensures AllRefreshed(snapshot, next)
  {
    next := seq(|snapshot|, k requires 0 <= k < |snapshot| => RefreshRule(snapshot[k]));
    forall k | 0 <= k < |snapshot| ensures IsRefreshed(snapshot[k], next[k]) {
      assert next[k] == RefreshRule(snapshot[k]);
    }
  }

  lemma RunOne(s: State, e: Event)
    ensures Run(s, [e]) == Step(s, e)
  {
    assert [e][..0] == [];
    assert Run(s, []) == Some(s);
  }

  lemma HoardReturns(s: State, k: nat, id: string)
    requires k < |s.ops| && id in Hoard(s.ops[k])
    ensures MayReturn(s, id)
  {
    var e: Event;
    if s.ops[k].Refreshing? {
      var next := CanRefresh(s.ops[k].snapshot);
      RefreshedIds(s.ops[k].snapshot, next);
      e := ERefreshDone(k, next);
    } else {
      e := ESaveDone(k);
    }
    RunOne(s, e);
    assert !SavesAgain([e], id);
  }

  /** A deleted rule stays deleted until it is saved again, whatever else happens, exactly when no refresh is under way
      that started with it and no import is waiting for the save of a list with it. Saves that began earlier never bring
      it back. */
  lemma DeletionLasts(s: State, id: string)
    requires Ordered(s) && Present(s.rules, id)
    ensures !MayReturn(Delete(s, id), id) <==> !Hoarded(s, id)
  {
    var t := Delete(s, id);
    FoundIds(s.rules, id);
    WithoutIds(s.rules, id);
    MutationOrdered(s, EDelete(id));
    if k :| 0 <= k < |s.ops| && id in Hoard(s.ops[k]) {
      assert t.ops[k] == s.ops[k];
      HoardReturns(t, k, id);
    } else {
      forall k | 0 <= k < |t.ops| ensures id !in Hoard(t.ops[k]) {
        assert k < |s.ops| ==> t.ops[k] == s.ops[k];
      }
      assert Gone(t, id);
      forall events | Run(t, events).Some? && !SavesAgain(events, id) ensures id !in Ids(Run(t, events).value.rules) {
        RunGone(t, events, id);
      }
    }
  }
}

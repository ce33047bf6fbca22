/** Whatever the interleaving, once nothing is pending the last requests and the saved file match the rules. */
module Convergence {
  import opened Common
  import opened Planner
  import opened HostMappings
  import opened Controller

  /** The environment does its part: saves, host requests and applies succeed, and the helper is enabled. Lookups, list
      calls and installations may fail. */
  predicate Succeeds(e: Event)
  {
    match e
    case EHostsDone(_, ok) => ok
    case ESaveFailed(_) => false
    case EInstallDone(_, helper) => helper
    case EApplyHelper(answer) => answer == Some(true)
    case EApplyHosts(ok, _) => ok
    case EApplyRoutes(threw) => !threw
    case _ => true
  }

  /** Operation `i` owes an apply. A save owes one for what it has written itself; one that has written nothing yet owes
      one only if it is among `debts`: it took the token of a save that owed an apply. */
  predicate WillApply(s: State, debts: set<nat>, i: nat)
    requires i < |s.ops|
  {
    var op := s.ops[i];
    || op.Saving? || op.SavingImport? || op.Listed?
    || (i in debts && op.Upsert? && (op.at.Excluding? || op.at.Resolving? || op.at.Restoring?)
        && IsCurrent(s, i) && (op.initial.None? || Present(s.rules, op.id)))
    || (op.Upsert? && (op.at.SavingParent? || op.at.SavingChildren?) && IsLive(s, i))
  }

  /** The save that holds the token of the rule owes an apply. */
  predicate HolderOwes(s: State, debts: set<nat>, id: string)
  {
    id in s.tokens && s.tokens[id] < |s.ops| && IsSaveOf(s.ops[s.tokens[id]], id) && WillApply(s, debts, s.tokens[id])
  }

  predicate IsSaveOf(op: Op, id: string)
  {
    op.Upsert? && op.id == id
  }

  /** A save that takes the token from a save that owes an apply takes over the debt. */
  function NextDebts(s: State, debts: set<nat>, e: Event): set<nat>
  {
    if e.EBeginUpsert? && HolderOwes(s, debts, e.id) then debts + {|s.ops|} else debts
  }

  /** The saves that have taken over a debt in a run. */
  ghost function Debts(s: State, events: seq<Event>): set<nat>
  {
    if events == [] then {} else
      var before := Run(s, events[..|events| - 1]);
      var debts := Debts(s, events[..|events| - 1]);
      if before.None? then debts else NextDebts(before.value, debts, events[|events| - 1])
  }

  /** A failing lookup ends the newest save of a rule while it owes an apply. */
  predicate Strands(s: State, debts: set<nat>, e: Event)
  {
    e.ELookupDone? && e.ips.None? && e.op < |s.ops| && WillApply(s, debts, e.op)
  }

  /** Every event of the run that strands an apply happens while another apply is owed or will plan, or is followed by a
      time at which one is. */
  ghost predicate Harmless(s: State, events: seq<Event>)
    requires Run(s, events).Some?
  {
    events == []
    || Owed(Run(s, events).value, Debts(s, events)) || WillPlan(Run(s, events).value)
    || var prefix := events[..|events| - 1];
       Harmless(s, prefix) && !Strands(Run(s, prefix).value, Debts(s, prefix), events[|events| - 1])
  }

  /** Operation `i` has taken its own mapping out and will send the full mappings before it ends. */
  predicate WillRestore(s: State, i: nat)
    requires i < |s.ops|
  {
    var op := s.ops[i];
    op.Upsert? && (op.at.Excluding? || op.at == Resolving(true))
  }

  /** An apply is waiting or has sent nothing yet, or an operation owes one. */
  ghost predicate Owed(s: State, debts: set<nat>)
  {
    s.pending > 0 || (s.phase == AwaitHelper && s.mode == Custom)
    || exists i :: 0 <= i < |s.ops| && WillApply(s, debts, i)
  }

  /** The running apply has sent the current mappings and has yet to plan. */
  ghost predicate WillPlan(s: State)
  {
    s.phase == AwaitHosts && s.mode == Custom && HostsPublished(s)
  }

  ghost predicate RoutesMatch(s: State)
  {
    s.routes.Some? && if s.mode == SystemDefault then s.routes.value == [] else IsRouteList(Asked(s), s.routes.value)
  }

  ghost predicate RoutesPublished(s: State)
  {
    match s.phase
    case AwaitHelper => s.mode == Custom
    case AwaitHosts => s.mode == Custom
    case CleanupHosts => s.mode == SystemDefault
    case _ => RoutesMatch(s)
  }

  ghost predicate HostsPublished(s: State)
  {
    || !s.hostsSupported || s.phase == AwaitHelper || s.hosts == DesiredHosts(s, None)
    || exists i :: 0 <= i < |s.ops| && WillRestore(s, i)
  }

  predicate FilePublished(s: State)
  {
    s.saved == s.rules || !(s.phase.Idle? || s.phase.AwaitSave?)
  }

  /** Out of date implies that an apply is still owed. */
  ghost predicate Inv(s: State, debts: set<nat>)
  {
    s.helperEnabled
    && (Owed(s, debts) || HostsThrow(s, None) || (RoutesPublished(s) && HostsPublished(s) && FilePublished(s)))
  }

  /******* Steps that leave everything but the operations alone *******/

  /** Only operation `i` differs, and it still owes what it owed. */
  ghost predicate Neutral(s: State, debts: set<nat>, t: State, i: nat)
  {
    && t == s.(ops := t.ops) && |t.ops| == |s.ops| && i < |s.ops|
    && (forall k | 0 <= k < |s.ops| && k != i :: t.ops[k] == s.ops[k])
    && (WillApply(s, debts, i) ==> WillApply(t, debts, i))
    && (WillRestore(s, i) ==> WillRestore(t, i))
  }

  lemma OthersOwe(s: State, debts: set<nat>, t: State, i: nat, k: nat)
    requires t.rules == s.rules && t.tokens == s.tokens && |t.ops| >= |s.ops| && k < |s.ops| && k != i
    requires t.ops[k] == s.ops[k]
    ensures WillApply(t, debts, k) == WillApply(s, debts, k) && WillRestore(t, k) == WillRestore(s, k)
  {
  }

  lemma NeutralKeeps(s: State, debts: set<nat>, t: State, i: nat)
    requires Inv(s, debts) && Neutral(s, debts, t, i)
    ensures Inv(t, debts)
  {
    if k :| 0 <= k < |s.ops| && WillApply(s, debts, k) {
      if k != i {
        OthersOwe(s, debts, t, i, k);
      }
      assert WillApply(t, debts, k);
    }
    if k :| 0 <= k < |s.ops| && WillRestore(s, k) {
      if k != i {
        OthersOwe(s, debts, t, i, k);
      }
      assert WillRestore(t, k);
    }
    assert Asked(t) == Asked(s);
  }

  lemma BeginKeeps(s: State, debts: set<nat>, op: Op)
    requires Inv(s, debts)
    ensures Inv(Begin(s, op), debts)
  {
    var t := Begin(s, op);
    if k :| 0 <= k < |s.ops| && WillApply(s, debts, k) {
      OthersOwe(s, debts, t, |s.ops|, k);
    }
    if k :| 0 <= k < |s.ops| && WillRestore(s, k) {
      OthersOwe(s, debts, t, |s.ops|, k);
    }
    assert Asked(t) == Asked(s);
  }

  /** Only the host request and operation `i` differ, and the request is the full one. */
  lemma RestoredKeeps(s: State, debts: set<nat>, t: State, i: nat)
    requires Inv(s, debts) && i < |s.ops|
    requires t == SendHosts(s, None).(ops := t.ops) && |t.ops| == |s.ops|
    requires forall k | 0 <= k < |s.ops| && k != i :: t.ops[k] == s.ops[k]
    requires WillApply(s, debts, i) ==> WillApply(t, debts, i)
    ensures Inv(t, debts)
  {
    if k :| 0 <= k < |s.ops| && WillApply(s, debts, k) {
      if k != i {
        OthersOwe(s, debts, t, i, k);
      }
      assert WillApply(t, debts, k);
    }
    assert Asked(t) == Asked(s);
    assert HostsThrow(t, None) == HostsThrow(s, None);
  }

  lemma OwedBy(s: State, debts: set<nat>, i: nat)
    requires s.helperEnabled && i < |s.ops| && WillApply(s, debts, i)
    ensures Inv(s, debts)
  {
  }

  /******* Saves *******/

  lemma {:induction false} ReplacedIsPresent(rules: seq<Rule>, rule: Rule)
    ensures Find(Replace(rules, rule), rule.id) == Some(rule)
  {
    if rules != [] && rules[0].id != rule.id {
      ReplacedIsPresent(rules[1..], rule);
    }
  }

  lemma {:induction false} AppendedIsPresent(rules: seq<Rule>, rule: Rule)
    ensures Present(rules + [rule], rule.id)
  {
    if rules != [] {
      assert (rules + [rule])[1..] == rules[1..] + [rule];
      AppendedIsPresent(rules[1..], rule);
    }
  }

  lemma WriteParentKeeps(s: State, debts: set<nat>, i: nat, ips: seq<string>)
    requires i < |s.ops| && s.ops[i].Upsert? && s.helperEnabled
    requires Inv(s, debts) || (IsCurrent(s, i) && (s.ops[i].initial.None? || Present(s.rules, s.ops[i].id)))
    requires !WillRestore(s, i)
    requires s.ops[i].at.Excluding? || s.ops[i].at.Resolving? || s.ops[i].at.Restoring?
    ensures Inv(WriteParent(s, i, ips), debts)
  {
    var t := WriteParent(s, i, ips);
    if t.ops[i].Finished? {
      NeutralKeeps(s, debts, t, i);
    } else {
      var rule := ParentRule(s, s.ops[i], ips);
      ReplacedIsPresent(s.rules, rule);
      AppendedIsPresent(s.rules, rule);
      OwedBy(t, debts, i);
    }
  }

  lemma WriteChildrenKeeps(s: State, debts: set<nat>, i: nat, children: seq<SubRule>, caught: bool)
    requires i < |s.ops| && s.ops[i].Upsert? && Inv(s, debts)
    requires s.ops[i].at.Scanning? || s.ops[i].at.ResolvingChildren?
    ensures Inv(WriteChildren(s, i, children, caught), debts)
  {
    var t := WriteChildren(s, i, children, caught);
    if t.ops[i].Finished? {
      NeutralKeeps(s, debts, t, i);
    } else {
      var live := Find(s.rules, s.ops[i].id).value;
      FoundId(s.rules, s.ops[i].id);
      ReplacedIsPresent(s.rules, live.(subRules := children));
      OwedBy(t, debts, i);
    }
  }

  lemma {:induction false} FoundId(rules: seq<Rule>, id: string)
    requires Present(rules, id)
    ensures Find(rules, id).value in rules && Find(rules, id).value.id == id
  {
    if rules[0].id != id {
      FoundId(rules[1..], id);
    }
  }

  /** Leaving one rule's mappings out throws only when the full request throws. */
  lemma ExclusionThrows(s: State, id: string)
    requires s.helperEnabled && s.hostsSupported && HostsThrow(s, Some(id))
    ensures HostsThrow(s, None)
  {
    if !HostsThrow(s, None) {
      ExcludingKeepsCompatible(s.rules, id);
    }
  }

  /** Taking the token leaves every debt but that of the former holder. */
  lemma OpenedOwes(s: State, debts: set<nat>, t: State, id: string, k: nat)
    requires t.rules == s.rules && t.tokens == s.tokens[id := |s.ops|] && |t.ops| > |s.ops| && k < |s.ops|
    requires t.ops[k] == s.ops[k] && !HolderOwes(s, debts, id)
    ensures WillApply(s, debts, k) ==> WillApply(t, debts, k)
  {
  }

  /** A save begins by waiting, and nobody has owed an apply for its rule. */
  lemma OpenedKeeps(s: State, debts: set<nat>, t: State, id: string)
    requires Inv(s, debts) && !HolderOwes(s, debts, id)
    requires |t.ops| == |s.ops| + 1 && forall k | 0 <= k < |s.ops| :: t.ops[k] == s.ops[k]
    requires t == s.(tokens := s.tokens[id := |s.ops|], used := t.used, ops := t.ops, hosts := t.hosts)
    requires t.hosts == s.hosts || WillRestore(t, |s.ops|)
    ensures Inv(t, debts)
  {
    if k :| 0 <= k < |s.ops| && WillApply(s, debts, k) {
      OpenedOwes(s, debts, t, id, k);
      assert WillApply(t, debts, k);
    }
    if k :| 0 <= k < |s.ops| && WillRestore(s, k) {
      assert WillRestore(t, k);
    }
    assert Asked(t) == Asked(s);
    assert HostsThrow(t, None) == HostsThrow(s, None);
  }

  /** A save begins by waiting: it takes over a debt, or there is none. */
  lemma WaitingKeeps(s: State, debts: set<nat>, t: State, e: Event)
    requires Inv(s, debts) && e.EBeginUpsert?
    requires |t.ops| == |s.ops| + 1 && forall k | 0 <= k < |s.ops| :: t.ops[k] == s.ops[k]
    requires t == s.(tokens := s.tokens[e.id := |s.ops|], used := t.used, ops := t.ops, hosts := t.hosts)
    requires t.hosts == s.hosts || WillRestore(t, |s.ops|)
    requires IsSaveOf(t.ops[|s.ops|], e.id) && t.ops[|s.ops|].initial == Find(s.rules, e.id)
    requires t.ops[|s.ops|].at.Excluding? || t.ops[|s.ops|].at.Resolving?
    ensures Inv(t, NextDebts(s, debts, e))
  {
    if HolderOwes(s, debts, e.id) {
      OwedBy(t, NextDebts(s, debts, e), |s.ops|);
    } else {
      OpenedKeeps(s, debts, t, e.id);
    }
  }

  lemma BeginUpsertKeeps(s: State, debts: set<nat>, e: Event)
    requires Inv(s, debts) && e.EBeginUpsert? && MayBegin(s, e.id, e.isNew, e.draft)
    ensures Inv(BeginUpsert(s, e.id, e.isNew, e.draft), NextDebts(s, debts, e))
  {
    var i, initial, draft := |s.ops|, Find(s.rules, e.id), e.draft;
    var started := Opened(s, e.id, e.isNew, draft);
    var t := BeginUpsert(s, e.id, e.isNew, draft);
    assert IsCurrent(started, i);
    if draft.pin.None? && (draft.kind == Hostname || draft.kind == Url) {
      if RefreshesPin(s, initial, draft) && HostsThrow(started, Some(e.id)) {
        ExclusionThrows(started, e.id);
        assert HostsThrow(t, None);
      } else {
        WaitingKeeps(s, debts, t, e);
      }
    } else {
      var ips := if draft.pin.Some? then [draft.pin.value] else if draft.kind == Ipv4 then [draft.destination] else [];
      BeginWrites(s, NextDebts(s, debts, e), started, i, ips);
    }
  }

  lemma BeginWrites(s: State, debts: set<nat>, started: State, i: nat, ips: seq<string>)
    requires s.helperEnabled && i == |s.ops| && |started.ops| == i + 1 && started.ops == s.ops + [started.ops[i]]
    requires started.helperEnabled && started.ops[i].Upsert? && IsCurrent(started, i)
    requires started.ops[i].initial == Find(started.rules, started.ops[i].id)
    ensures Inv(WriteParent(started, i, ips), debts)
  {
    var t := WriteParent(started, i, ips);
    var rule := ParentRule(started, started.ops[i], ips);
    ReplacedIsPresent(started.rules, rule);
    AppendedIsPresent(started.rules, rule);
    OwedBy(t, debts, i);
  }

  lemma HostsDoneKeeps(s: State, debts: set<nat>, i: nat)
    requires Inv(s, debts) && HostsDone(s, i, true).Some?
    ensures Inv(HostsDone(s, i, true).value, debts)
  {
    var t := HostsDone(s, i, true).value;
    if s.ops[i].at.Restoring? {
      WriteParentKeeps(s, debts, i, s.ops[i].at.ips);
    } else if IsCurrent(s, i) {
      NeutralKeeps(s, debts, t, i);
    } else {
      RestoredKeeps(s, debts, t, i);
    }
  }

  lemma LookupDoneKeeps(s: State, debts: set<nat>, e: Event)
    requires Inv(s, debts) && e.ELookupDone? && LookupDone(s, e.op, e.ips).Some? && !Strands(s, debts, e)
    ensures Inv(LookupDone(s, e.op, e.ips).value, debts)
  {
    var t := LookupDone(s, e.op, e.ips).value;
    if !s.ops[e.op].at.refreshing {
      if e.ips.None? {
        NeutralKeeps(s, debts, t, e.op);
      } else {
        WriteParentKeeps(s, debts, e.op, e.ips.value);
      }
    } else if HostsThrow(s, None) {
      assert HostsThrow(t, None);
    } else {
      RestoredKeeps(s, debts, t, e.op);
    }
  }

  lemma ApplyDoneKeeps(s: State, debts: set<nat>, i: nat, applied: bool)
    requires Inv(s, debts) && ApplyDone(s, i, applied).Some?
    ensures Inv(ApplyDone(s, i, applied).value, debts)
  {
    var t := ApplyDone(s, i, applied).value;
    var moved := s.(ops := t.ops);
    NeutralKeeps(s, debts, moved, i);
    if t != moved {
      ResavedKeeps(moved, debts);
    }
  }

  lemma ResavedKeeps(s: State, debts: set<nat>)
    requires Inv(s, debts)
    ensures Inv(s.(saved := s.rules), debts)
  {
    var t := s.(saved := s.rules);
    SameOps(s, debts, t);
    assert Asked(t) == Asked(s);
  }

  lemma SaveDoneKeeps(s: State, debts: set<nat>, i: nat)
    requires Inv(s, debts) && SaveDone(s, i).Some?
    ensures Inv(SaveDone(s, i).value, debts)
  {
    var t := SaveDone(s, i).value;
    if t.pending > s.pending {
      assert Owed(t, debts);
    } else {
      NeutralKeeps(s, debts, t, i);
    }
  }

  /** The save-related steps. */
  lemma SaveStepKeeps(s: State, debts: set<nat>, e: Event)
    requires Inv(s, debts) && Succeeds(e) && Step(s, e).Some? && !Strands(s, debts, e)
    requires e.EBeginUpsert? || e.EHostsDone? || e.ELookupDone? || e.EApplyDone? || e.EScanDone? || e.EChildrenDone?
             || e.EScanFailed?
    ensures Inv(Step(s, e).value, NextDebts(s, debts, e))
  {
    if e.EBeginUpsert? {
      BeginUpsertKeeps(s, debts, e);
    } else if e.EHostsDone? {
      HostsDoneKeeps(s, debts, e.op);
    } else if e.ELookupDone? {
      LookupDoneKeeps(s, debts, e);
    } else if e.EApplyDone? {
      ApplyDoneKeeps(s, debts, e.op, e.applied);
    } else if e.EScanDone? {
      NeutralKeeps(s, debts, ScanDone(s, e.op).value, e.op);
    } else if e.EChildrenDone? {
      WriteChildrenKeeps(s, debts, e.op, e.children, false);
    } else {
      WriteChildrenKeeps(s, debts, e.op, [], true);
    }
  }

  /******* The other operations *******/

  lemma OtherStepKeeps(s: State, debts: set<nat>, e: Event)
    requires Inv(s, debts) && Succeeds(e) && Step(s, e).Some?
    requires e.EDelete? || e.ESetRule? || e.ESetSubRule? || e.ESetMode? || e.EImport? || e.ERefresh?
             || e.EInterfacesChanged? || e.EInstall?
    ensures Inv(Step(s, e).value, debts)
  {
    var t := Step(s, e).value;
    if e.EDelete? || e.ESetRule? || e.ESetSubRule? {
      if t != s {
        assert t.ops[|s.ops|].Saving?;
        OwedBy(t, debts, |s.ops|);
      }
    } else if t != s {
      BeginKeeps(s, debts, t.ops[|s.ops|]);
    }
  }

  lemma ContinuationKeeps(s: State, debts: set<nat>, e: Event)
    requires Inv(s, debts) && Succeeds(e) && Step(s, e).Some?
    requires e.EImportReady? || e.ERefreshDone? || e.ESaveDone? || e.EListDone? || e.EListContinues? || e.EInstallDone?
    ensures Inv(Step(s, e).value, debts)
  {
    var t := Step(s, e).value;
    if e.ESaveDone? {
      SaveDoneKeeps(s, debts, e.op);
    } else if e.EListContinues? || e.EInstallDone? {
      assert Owed(t, debts);
    } else if t.ops[e.op].Finished? {
      NeutralKeeps(s, debts, t, e.op);
    } else {
      OwedBy(t, debts, e.op);
    }
  }

  /******* The apply chain *******/

  /** A step of the apply chain changes no operation. */
  lemma SameOps(s: State, debts: set<nat>, t: State)
    requires t.ops == s.ops && t.rules == s.rules && t.tokens == s.tokens
    ensures forall k | 0 <= k < |s.ops| ::
      WillApply(t, debts, k) == WillApply(s, debts, k) && WillRestore(t, k) == WillRestore(s, k)
  {
  }

  lemma ApplyStartKeeps(s: State, debts: set<nat>)
    requires Inv(s, debts) && ApplyStart(s).Some?
    ensures Inv(ApplyStart(s).value, debts)
  {
  }

  lemma ApplyHelperKeeps(s: State, debts: set<nat>)
    requires Inv(s, debts) && ApplyHelper(s, Some(true)).Some?
    ensures Inv(ApplyHelper(s, Some(true)).value, debts)
  {
    var t := ApplyHelper(s, Some(true)).value;
    SameOps(s, debts, t);
    assert Asked(t) == Asked(s);
  }

  lemma ApplyHostsKeeps(s: State, debts: set<nat>, plan: Plan)
    requires Inv(s, debts) && ApplyHosts(s, true, plan).Some?
    ensures Inv(ApplyHosts(s, true, plan).value, debts)
  {
    var t := ApplyHosts(s, true, plan).value;
    SameOps(s, debts, t);
    assert Asked(t) == Asked(s);
  }

  lemma ApplyRoutesKeeps(s: State, debts: set<nat>)
    requires Inv(s, debts) && ApplyRoutes(s, false).Some?
    ensures Inv(ApplyRoutes(s, false).value, debts)
  {
    var t := ApplyRoutes(s, false).value;
    SameOps(s, debts, t);
    assert Asked(t) == Asked(s);
  }

  lemma ApplySavedKeeps(s: State, debts: set<nat>)
    requires Inv(s, debts) && ApplySaved(s).Some?
    ensures Inv(ApplySaved(s).value, debts)
  {
    var t := ApplySaved(s).value;
    SameOps(s, debts, t);
    assert Asked(t) == Asked(s);
  }

  lemma StepKeeps(s: State, debts: set<nat>, e: Event)
    requires Inv(s, debts) && Succeeds(e) && Step(s, e).Some? && !Strands(s, debts, e)
    ensures Inv(Step(s, e).value, NextDebts(s, debts, e))
  {
    if e.EApplyStart? {
      ApplyStartKeeps(s, debts);
    } else if e.EApplyHelper? {
      ApplyHelperKeeps(s, debts);
    } else if e.EApplyHosts? {
      ApplyHostsKeeps(s, debts, e.plan);
    } else if e.EApplyRoutes? {
      ApplyRoutesKeeps(s, debts);
    } else if e.EApplySaved? {
      ApplySavedKeeps(s, debts);
    } else if e.EDelete? || e.ESetRule? || e.ESetSubRule? || e.ESetMode? || e.EImport? || e.ERefresh?
              || e.EInterfacesChanged? || e.EInstall? {
      OtherStepKeeps(s, debts, e);
    } else if e.EImportReady? || e.ERefreshDone? || e.ESaveDone? || e.EListDone? || e.EListContinues?
              || e.EInstallDone? {
      ContinuationKeeps(s, debts, e);
    } else if e.EFails? {
      NeutralKeeps(s, debts, Step(s, e).value, e.op);
    } else {
      SaveStepKeeps(s, debts, e);
    }
  }

  lemma HelperStays(s: State, e: Event)
    requires s.helperEnabled && Succeeds(e) && Step(s, e).Some?
    ensures Step(s, e).value.helperEnabled
  {
  }

  lemma {:induction false} RunKeeps(s: State, events: seq<Event>)
    requires Inv(s, {}) && Run(s, events).Some? && forall e | e in events :: Succeeds(e)
    ensures Run(s, events).value.helperEnabled
    ensures Harmless(s, events) ==> Inv(Run(s, events).value, Debts(s, events))
  {
    if events != [] {
      var prefix, e := events[..|events| - 1], events[|events| - 1];
      var before, debts := Run(s, prefix).value, Debts(s, prefix);
      RunKeeps(s, prefix);
      HelperStays(before, e);
      if Harmless(s, prefix) && !Strands(before, debts, e) {
        StepKeeps(before, debts, e);
      }
    }
  }

  /******* The theorem *******/

  /** No operation and no apply is under way. */
  predicate Quiescent(s: State)
  {
    s.pending == 0 && s.phase == Idle && forall i | 0 <= i < |s.ops| :: s.ops[i].Finished?
  }

  /** The mappings to publish conflict nowhere, and the platform can publish them. */
  ghost predicate MappingsAllowed(s: State)
  {
    s.mode == SystemDefault
    || (Compatible(s.rules, None) && (s.hostsSupported || forall pin :: !HostMappings.Asks(s.rules, None, pin)))
  }

  lemma AllowedDoesNotThrow(s: State)
    requires s.helperEnabled
    ensures MappingsAllowed(s) <==> !HostsThrow(s, None)
  {
    CollectedExactly(s.rules, None);
    if s.mode == Custom && Compatible(s.rules, None) {
      var m := Collected(s.rules, None).value;
      if m == map[] {
        forall pin ensures !HostMappings.Asks(s.rules, None, pin) {
          assert pin == Pin(pin.host, pin.ipv4);
        }
      } else {
        var h :| h in m;
        assert HostMappings.Asks(s.rules, None, Pin(h, m[h]));
      }
    }
  }

  /** For every interleaving, with lookups that may fail as long as each that ends a newest save owing an apply is made
      up for by a later operation: when nothing is pending, the last route request is the plan of the current rules, or
      empty in System Default; the last host request holds exactly the mappings the current rules ask for; and the file
      holds the current rules. Only the final rules need be free of conflicts. */
  lemma QuiescentConvergence(rules: seq<Rule>, mode: RoutingMode, interfaces: seq<Interface>, hostsSupported: bool,
                             events: seq<Event>, plan: Plan)
    requires var end := Run(Started(rules, mode, interfaces, true, hostsSupported), events);
             end.Some? && Quiescent(end.value) && MappingsAllowed(end.value) && IsPlan(Asked(end.value), plan)
    requires forall e | e in events :: Succeeds(e)
    requires Harmless(Started(rules, mode, interfaces, true, hostsSupported), events)
    ensures var s := Run(Started(rules, mode, interfaces, true, hostsSupported), events).value;
            && s.routes == Some(if s.mode == SystemDefault then [] else plan.routes)
            && s.saved == s.rules
            && (s.hostsSupported ==>
                  (s.hosts.Some?
                   && if s.mode == SystemDefault then s.hosts.value == map[]
                      else Answers(s.hosts.value, s.rules, None)))
  {
    var start := Started(rules, mode, interfaces, true, hostsSupported);
    RunKeeps(start, events);
    var s := Run(start, events).value;
    AllowedDoesNotThrow(s);
    CollectedExactly(s.rules, None);
    if s.mode == Custom {
      RouteListUnique(Asked(s), s.routes.value, plan.routes);
    }
  }

  /** Runs without failing lookups are harmless. */
  lemma {:induction false} AnsweredIsHarmless(s: State, events: seq<Event>)
    requires Run(s, events).Some? && forall e | e in events :: e.ELookupDone? ==> e.ips.Some?
    ensures Harmless(s, events)
  {
    if events != [] {
      assert events[|events| - 1] in events;
      AnsweredIsHarmless(s, events[..|events| - 1]);
    }
  }

  /******* A failing lookup that strands an apply *******/

  lemma OneEvent(s: State, e: Event)
    ensures Run(s, [e]) == Step(s, e)
  {
    assert [e][..0] == [];
  }

  lemma TwoEvents(s: State, d: Event, t: State, e: Event, u: State)
    requires Step(s, d) == Some(t) && Step(t, e) == Some(u)
    ensures Run(s, [d, e]) == Some(u)
  {
    OneEvent(s, d);
    assert [d, e][..1] == [d];
  }

  const NOTHING := Plan([], map[], map[])

  /** The first apply of a program without rules, with its requests answered. */
  function FirstApply(): seq<Event>
  {
    [EApplyStart, EApplyHelper(Some(true))] + ([EApplyHosts(true, NOTHING)] + [EApplyRoutes(false), EApplySaved])
  }

  function Fresh(): State
  {
    Started([], Custom, [], true, true)
  }

  function Settled(): State
  {
    Fresh().(pending := 0, hosts := Some(map[]), routes := Some([]))
  }

  lemma NothingToApply()
    ensures Asked(Fresh()) == {} && IsPlan({}, NOTHING) && DesiredHosts(Fresh(), None) == Some(map[])
  {
  }

  lemma FirstApplySteps() returns (a: State, b: State, c: State, d: State)
    ensures ApplyStart(Fresh()) == Some(a) && ApplyHelper(a, Some(true)) == Some(b)
    ensures ApplyHosts(b, true, NOTHING) == Some(c)
    ensures ApplyRoutes(c, false) == Some(d) && ApplySaved(d) == Some(Settled())
  {
    NothingToApply();
    a := Fresh().(pending := 0, phase := AwaitHelper);
    b := Settled().(phase := AwaitHosts, routes := None);
    c := Settled().(phase := AwaitRoutes);
    d := Settled().(phase := AwaitSave);
    assert Asked(b) == Asked(Fresh());
  }

  lemma FirstApplyBegins(s: State, a: State, b: State)
    requires ApplyStart(s) == Some(a) && ApplyHelper(a, Some(true)) == Some(b)
    ensures Run(s, [EApplyStart, EApplyHelper(Some(true))]) == Some(b)
  {
    TwoEvents(s, EApplyStart, a, EApplyHelper(Some(true)), b);
  }

  lemma FirstApplyEnds(c: State, d: State, t: State)
    requires ApplyRoutes(c, false) == Some(d) && ApplySaved(d) == Some(t)
    ensures Run(c, [EApplyRoutes(false), EApplySaved]) == Some(t)
  {
    TwoEvents(c, EApplyRoutes(false), d, EApplySaved, t);
  }

  lemma FirstApplyPlans(b: State, c: State)
    requires ApplyHosts(b, true, NOTHING) == Some(c)
    ensures Run(b, [EApplyHosts(true, NOTHING)]) == Some(c)
  {
    OneEvent(b, EApplyHosts(true, NOTHING));
    HostsStep(b, true, NOTHING);
  }

  lemma HostsStep(s: State, ok: bool, plan: Plan)
    ensures Step(s, EApplyHosts(ok, plan)) == ApplyHosts(s, ok, plan)
  {
  }

  lemma FirstApplySettles()
    ensures Run(Fresh(), FirstApply()) == Some(Settled())
  {
    var a, b, c, d := FirstApplySteps();
    FirstApplyBegins(Fresh(), a, b);
    FirstApplyPlans(b, c);
    FirstApplyEnds(c, d, Settled());
    RunAppend(b, [EApplyHosts(true, NOTHING)], [EApplyRoutes(false), EApplySaved]);
    RunAppend(Fresh(), [EApplyStart, EApplyHelper(Some(true))],
              [EApplyHosts(true, NOTHING)] + [EApplyRoutes(false), EApplySaved]);
  }

  /** Save a rule for an address, edit it to a name before the first save is written, and let the lookup fail. */
  function Overtake(id: string, address: Draft, name: Draft): seq<Event>
  {
    [EBeginUpsert(id, true, address), EBeginUpsert(id, false, name)] + [ESaveDone(0), ELookupDone(1, None)]
  }

  function AddressRule(id: string, address: Draft): Rule
  {
    Rule(id, Ipv4, address.destination, address.interfaceId, address.enabled, [address.destination], None, [])
  }

  /** Both saves are under way, and the second owns the rule. */
  function BothSaving(id: string, address: Draft, name: Draft, last: Op): State
  {
    var rules := [AddressRule(id, address)];
    Settled().(rules := rules, saved := rules, tokens := map[id := 1], used := {id},
               ops := [Upsert(id, true, None, address, SavingParent(false)), last])
  }

  lemma OvertakeBegins(id: string, address: Draft, name: Draft)
    requires address.kind == Ipv4 && address.pin.None? && name.kind == Hostname && name.pin.None?
    ensures var one := BeginUpsert(Settled(), id, true, address);
            && BeginUpsert(one, id, false, name)
               == BothSaving(id, address, name,
                             Upsert(id, false, Some(AddressRule(id, address)), name, Resolving(false)))
  {
    var one := BeginUpsert(Settled(), id, true, address);
    FirstSaveWrites(id, address);
    var two := BeginUpsert(one, id, false, name);
    assert Find(one.rules, id) == Some(AddressRule(id, address));
    assert one.tokens[id := 1] == map[id := 1] && one.used + {id} == {id};
  }

  lemma FirstSaveWrites(id: string, address: Draft)
    requires address.kind == Ipv4 && address.pin.None?
    ensures var rules := [AddressRule(id, address)];
            BeginUpsert(Settled(), id, true, address)
            == Settled().(rules := rules, saved := rules, tokens := map[id := 0], used := {id},
                          ops := [Upsert(id, true, None, address, SavingParent(false))])
  {
  }

  lemma OvertakeEnds(id: string, address: Draft, name: Draft, last: Op)
    requires last.Upsert? && last.id == id && last.at == Resolving(false)
    ensures var two := BothSaving(id, address, name, last);
            && SaveDone(two, 0) == Some(two.(ops := [Finished, last]))
            && LookupDone(two.(ops := [Finished, last]), 1, None) == Some(two.(ops := [Finished, Finished]))
  {
    var two := BothSaving(id, address, name, last);
    assert two.ops[0 := Finished] == [Finished, last];
    assert [Finished, last][1 := Finished] == [Finished, Finished];
  }

  lemma OvertakeBeginsRun(id: string, address: Draft, name: Draft, s: State, one: State, two: State)
    requires MayBegin(s, id, true, address) && BeginUpsert(s, id, true, address) == one
    requires MayBegin(one, id, false, name) && BeginUpsert(one, id, false, name) == two
    ensures Run(s, [EBeginUpsert(id, true, address), EBeginUpsert(id, false, name)]) == Some(two)
  {
    TwoEvents(s, EBeginUpsert(id, true, address), one, EBeginUpsert(id, false, name), two);
  }

  lemma OvertakeEndsRun(two: State, three: State, t: State)
    requires SaveDone(two, 0) == Some(three) && LookupDone(three, 1, None) == Some(t)
    ensures Run(two, [ESaveDone(0), ELookupDone(1, None)]) == Some(t)
  {
    TwoEvents(two, ESaveDone(0), three, ELookupDone(1, None), t);
  }

  lemma OvertakeStrands(id: string, address: Draft, name: Draft)
    requires address.kind == Ipv4 && address.pin.None? && name.kind == Hostname && name.pin.None?
    ensures Run(Settled(), Overtake(id, address, name))
            == Some(BothSaving(id, address, name, Finished).(ops := [Finished, Finished]))
  {
    var last := Upsert(id, false, Some(AddressRule(id, address)), name, Resolving(false));
    var one, two := BeginUpsert(Settled(), id, true, address), BothSaving(id, address, name, last);
    OvertakeBegins(id, address, name);
    OvertakeEnds(id, address, name, last);
    OvertakeBeginsRun(id, address, name, Settled(), one, two);
    OvertakeEndsRun(two, two.(ops := [Finished, last]), two.(ops := [Finished, Finished]));
    RunAppend(Settled(), [EBeginUpsert(id, true, address), EBeginUpsert(id, false, name)],
              [ESaveDone(0), ELookupDone(1, None)]);
  }

  lemma {:induction false} RunAppend(s: State, first: seq<Event>, events: seq<Event>)
    requires Run(s, first).Some?
    ensures Run(s, first + events) == Run(Run(s, first).value, events)
  {
    if events == [] {
      assert first + events == first;
    } else {
      var prefix := events[..|events| - 1];
      RunAppend(s, first, prefix);
      assert (first + events)[..|first + events| - 1] == first + prefix;
    }
  }

  /** Without the condition on lookups the last route request can be out of date for good: everything else succeeds,
      nothing is pending, and the enabled rule has no route. */
  lemma FailingLookupStrands(id: string, address: Draft, name: Draft)
    requires address.kind == Ipv4 && address.enabled && address.pin.None? && name.kind == Hostname && name.pin.None?
    ensures var events := FirstApply() + Overtake(id, address, name);
            var end := Run(Fresh(), events);
            && (forall e | e in events :: Succeeds(e))
            && end.Some? && Quiescent(end.value) && MappingsAllowed(end.value)
            && end.value.routes == Some([])
            && (forall plan | IsPlan(Asked(end.value), plan) :: plan.routes != [])
  {
    FirstApplySettles();
    OvertakeStrands(id, address, name);
    RunAppend(Fresh(), FirstApply(), Overtake(id, address, name));
    FirstApplySucceeds();
    OvertakeSucceeds(id, address, name);
    LeftUnrouted(BothSaving(id, address, name, Finished).(ops := [Finished, Finished]), AddressRule(id, address));
  }

  lemma FirstApplySucceeds()
    ensures forall e | e in FirstApply() :: Succeeds(e)
  {
  }

  lemma OvertakeSucceeds(id: string, address: Draft, name: Draft)
    ensures forall e | e in Overtake(id, address, name) :: Succeeds(e)
  {
  }

  /** A state with one enabled rule for an address: its mappings are allowed, and its plan is not empty. */
  lemma LeftUnrouted(end: State, rule: Rule)
    requires end.rules == [rule] && end.mode == Custom && end.hostsSupported
    requires rule.kind == Ipv4 && rule.enabled && rule.subRules == [] && rule.hostIpv4.None?
    ensures MappingsAllowed(end) && forall plan | IsPlan(Asked(end), plan) :: plan.routes != []
  {
    forall plan | IsPlan(Asked(end), plan) ensures plan.routes != [] {
      OneRuleIsRouted(rule, Gateways(end.interfaces), plan);
    }
  }

  /** One enabled rule for an address always gets its route. */
  lemma OneRuleIsRouted(rule: Rule, gatewayFor: Rule -> string, plan: Plan)
    requires rule.kind == Ipv4 && rule.enabled && rule.subRules == []
    requires IsPlan(CandidateSet([rule], gatewayFor), plan)
    ensures plan.routes != []
  {
    var d := rule.destination + "/32";
    assert Planner.Asks(rule, None, d);
    assert AsksAmong([rule], rule, None, d);
    PlanRoutesExactly([rule], gatewayFor, plan, d);
  }
}

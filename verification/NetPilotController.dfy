/** The controller's object: its fields, and methods for the stretches of code between two awaits. `Perform` does what
    the state machine's step does, whatever the event, so the theorems about runs are theorems about the object. */
module NetPilotController {
  import opened Common
  import opened Planner
  import opened HostMappings
  import opened Controller
  import C = Controller

  lemma {:induction false} FirstIndex(rules: seq<Rule>, i: nat, id: string)
    requires i < |rules| && rules[i].id == id && forall k | 0 <= k < i :: rules[k].id != id
    ensures Find(rules, id) == Some(rules[i])
    ensures forall rule: Rule | rule.id == id :: Replace(rules, rule) == rules[i := rule]
  {
    if i > 0 {
      FirstIndex(rules[1..], i - 1, id);
      forall rule: Rule | rule.id == id ensures Replace(rules, rule) == rules[i := rule] {
        assert [rules[0]] + rules[1..][i - 1 := rule] == rules[i := rule];
      }
    } else {
      forall rule: Rule | rule.id == id ensures Replace(rules, rule) == rules[0 := rule] {
        assert [rule] + rules[1..] == rules[0 := rule];
      }
    }
  }

  lemma {:induction false} NoIndex(rules: seq<Rule>, id: string)
    requires forall k | 0 <= k < |rules| :: rules[k].id != id
    ensures Find(rules, id) == None
    ensures forall rule: Rule | rule.id == id :: Replace(rules, rule) == rules + [rule]
  {
    if rules != [] {
      NoIndex(rules[1..], id);
      forall rule: Rule | rule.id == id ensures Replace(rules, rule) == rules + [rule] {
        assert [rules[0]] + (rules[1..] + [rule]) == rules + [rule];
      }
    }
  }

  lemma {:induction false} WithoutConcat(a: seq<Rule>, b: seq<Rule>, id: string)
    ensures Without(a + b, id) == Without(a, id) + Without(b, id)
  {
    if a == [] {
      assert a + b == b;
    } else {
      assert (a + b)[1..] == a[1..] + b;
      WithoutConcat(a[1..], b, id);
    }
  }

  lemma {:induction false} RunPrefix(s: State, events: seq<Event>, i: nat)
    requires Run(s, events).Some? && i <= |events|
    ensures Run(s, events[..i]).Some?
  {
    if i < |events| {
      var prefix := events[..|events| - 1];
      RunPrefix(s, prefix, i);
      assert prefix[..i] == events[..i];
    } else {
      assert events[..i] == events;
    }
  }

  class NetPilotController {
    var rules: seq<Rule>
    var mode: RoutingMode
    var interfaces: seq<Interface>
    var helperEnabled: bool
    const hostsSupported: bool
    var tokens: map<string, nat>
    var used: set<string>
    var ops: seq<Op>
    var pending: nat
    var phase: Phase
    var hosts: Option<map<string, string>>
    var routes: Option<seq<Route>>
    var saved: seq<Rule>

    function Now(): State
      reads this
    {
      State(rules, mode, interfaces, helperEnabled, hostsSupported, tokens, used, ops, pending, phase, hosts, routes,
          saved)
    }

    constructor (loaded: seq<Rule>, mode: RoutingMode, interfaces: seq<Interface>, helperEnabled: bool,
        hostsSupported: bool)
      ensures Now() == Started(loaded, mode, interfaces, helperEnabled, hostsSupported)
    {
      this.rules, this.mode, this.interfaces := loaded, mode, interfaces;
      this.helperEnabled, this.hostsSupported := helperEnabled, hostsSupported;
      tokens, used, ops, pending, phase, hosts, routes, saved := map[], Ids(loaded), [], 1, Idle, None, None, loaded;
    }

    /******* Helpers of several stretches *******/

    method IndexOf(id: string) returns (index: int)
      ensures -1 <= index < |rules|
      ensures index >= 0 ==> rules[index].id == id && forall k | 0 <= k < index :: rules[k].id != id
      ensures index < 0 ==> forall k | 0 <= k < |rules| :: rules[k].id != id
    {
      for i := 0 to |rules|
        invariant forall k | 0 <= k < i :: rules[k].id != id
      {
        if rules[i].id == id {
          return i;
        }
      }
      index := -1;
    }

    method Current(id: string) returns (rule: Option<Rule>)
      ensures rule == Find(rules, id)
    {
      var index := IndexOf(id);
      if index < 0 {
        NoIndex(rules, id);
        return None;
      }
      FirstIndex(rules, index, id);
      rule := Some(rules[index]);
    }

    /** Puts the rule in place of the one with its id, or at the end, and sends the list to the repository. */
    method ReplaceRule(rule: Rule)
      modifies this
      ensures Now() == WithRules(old(Now()), Replace(old(rules), rule))
    {
      var index := IndexOf(rule.id);
      if index >= 0 {
        FirstIndex(rules, index, rule.id);
        rules := rules[index := rule];
      } else {
        NoIndex(rules, rule.id);
        rules := rules + [rule];
      }
      saved := rules;
    }

    method ReconcileHosts(excluding: Option<string>) returns (threw: bool)
      modifies this
      ensures threw == HostsThrow(old(Now()), excluding) && Now() == SendHosts(old(Now()), excluding)
    {
      var desired: Option<map<string, string>> := Some(map[]);
      if mode != SystemDefault {
        desired := DesiredHostMappings(rules, excluding);
      }
      if desired.None? {
        return true;
      }
      if !hostsSupported {
        return desired.value != map[];
      }
      if !helperEnabled && desired.value != map[] {
        return true;
      }
      hosts := desired;
      threw := false;
    }

    /** `applyAll`: one more apply in the chain. */
    method Chain()
      modifies this
      ensures Now() == ApplyAll(old(Now()))
    {
      pending := pending + 1;
    }

    method Wait(i: nat, op: Op)
      requires i < |ops|
      modifies this
      ensures Now() == Set(old(Now()), i, op)
    {
      ops := ops[i := op];
    }

    /******* Saving a rule *******/

    method UpsertRule(id: string, isNew: bool, draft: Draft)
      requires MayBegin(Now(), id, isNew, draft)
      modifies this
      ensures Now() == BeginUpsert(old(Now()), id, isNew, draft)
    {
      var i := |ops|;
      var initial := Current(id);
      tokens := tokens[id := i];
      used := used + {id};
      var op := Upsert(id, isNew, initial, draft, Excluding);
      ops := ops + [op];
      if draft.pin.Some? {
        SaveParent(i, [draft.pin.value]);
      } else if draft.kind == Hostname || draft.kind == Url {
        if draft.manage && hostsSupported && initial.Some? && initial.value.hostIpv4.Some? {
          var threw := ReconcileHosts(Some(id));
          if threw {
            LeaveRefresh(i);
          }
        } else {
          Wait(i, op.(at := Resolving(false)));
        }
      } else {
        SaveParent(i, if draft.kind == Ipv4 then [draft.destination] else []);
      }
    }

    /** The `finally` block of a pin refresh that ends the save. */
    method LeaveRefresh(i: nat)
      requires i < |ops|
      modifies this
      ensures Now() == GiveUp(old(Now()), i)
    {
      var _ := ReconcileHosts(None);
      Wait(i, Finished);
    }

    method SaveParent(i: nat, ips: seq<string>)
      requires i < |ops| && ops[i].Upsert?
      modifies this
      ensures Now() == WriteParent(old(Now()), i, ips)
    {
      var op := ops[i];
      var live := Current(op.id);
      if !IsCurrent(Now(), i) || (op.initial.Some? && live.None?) {
        Wait(i, Finished);
        return;
      }
      var rule := Rule(op.id, op.draft.kind, op.draft.destination, op.draft.interfaceId,
                       EnabledFor(Now(), op), ips, PinFor(Now(), op.draft, ips), []);
      if op.isNew {
        rules := rules + [rule];
        saved := rules;
      } else {
        ReplaceRule(rule);
      }
      Wait(i, op.(at := SavingParent(op.draft.kind == Url && ips != [])));
    }

    method SaveChildren(i: nat, children: seq<SubRule>, caught: bool)
      requires i < |ops| && ops[i].Upsert?
      modifies this
      ensures Now() == WriteChildren(old(Now()), i, children, caught)
    {
      var op := ops[i];
      var live := Current(op.id);
      if !IsCurrent(Now(), i) || live.None? {
        Wait(i, Finished);
        return;
      }
      ReplaceRule(live.value.(subRules := children));
      Wait(i, op.(at := SavingChildren(caught)));
    }

    method HostsAnswered(i: nat, ok: bool)
      requires HostsDone(Now(), i, ok).Some?
      modifies this
      ensures Some(Now()) == HostsDone(old(Now()), i, ok)
    {
      if ops[i].at.Restoring? {
        if ok {
          SaveParent(i, ops[i].at.ips);
        } else {
          Wait(i, Finished);
        }
      } else if ok && IsCurrent(Now(), i) {
        Wait(i, ops[i].(at := Resolving(true)));
      } else {
        LeaveRefresh(i);
      }
    }

    method LookupAnswered(i: nat, ips: Option<seq<string>>)
      requires LookupDone(Now(), i, ips).Some?
      modifies this
      ensures Some(Now()) == LookupDone(old(Now()), i, ips)
    {
      if ops[i].at.refreshing {
        var threw := ReconcileHosts(None);
        if ips.None? || threw {
          Wait(i, Finished);
        } else {
          Wait(i, ops[i].(at := Restoring(ips.value)));
        }
      } else if ips.None? {
        Wait(i, Finished);
      } else {
        SaveParent(i, ips.value);
      }
    }

    method ParentApplied(i: nat, applied: bool)
      requires ApplyDone(Now(), i, applied).Some?
      modifies this
      ensures Some(Now()) == ApplyDone(old(Now()), i, applied)
    {
      if !ops[i].at.scans || !IsLive(Now(), i) {
        Wait(i, Finished);
      } else if applied {
        Wait(i, ops[i].(at := Scanning));
      } else {
        saved := rules;
        Wait(i, ops[i].(at := SavingStatus));
      }
    }

    method Scanned(i: nat)
      requires ScanDone(Now(), i).Some?
      modifies this
      ensures Some(Now()) == ScanDone(old(Now()), i)
    {
      Wait(i, if IsLive(Now(), i) then ops[i].(at := ResolvingChildren) else Finished);
    }

    method ScanThrew(i: nat)
      requires ScanFailed(Now(), i).Some?
      modifies this
      ensures Some(Now()) == ScanFailed(old(Now()), i)
    {
      SaveChildren(i, [], true);
    }

    /******* The other operations *******/

    method DeleteRule(id: string)
      modifies this
      ensures Now() == Delete(old(Now()), id)
    {
      tokens := tokens - {id};
      var kept: seq<Rule> := [];
      for i := 0 to |rules|
        invariant rules == old(rules) && kept == Without(rules[..i], id)
        invariant Now() == old(Now()).(tokens := old(tokens) - {id})
      {
        assert rules[..i + 1] == rules[..i] + [rules[i]];
        WithoutConcat(rules[..i], [rules[i]], id);
        if rules[i].id != id {
          kept := kept + [rules[i]];
        }
      }
      assert rules[..|rules|] == rules;
      rules := kept;
      saved := rules;
      ops := ops + [Saving];
    }

    method ToggleRule(id: string, enabled: bool)
      modifies this
      ensures Now() == SetRuleEnabled(old(Now()), id, enabled)
    {
      var index := IndexOf(id);
      if index < 0 {
        NoIndex(rules, id);
        return;
      }
      FirstIndex(rules, index, id);
      rules := rules[index := rules[index].(enabled := enabled)];
      saved := rules;
      ops := ops + [Saving];
    }

    method ToggleSubRule(id: string, childId: string, enabled: bool)
      modifies this
      ensures Now() == SetSubRuleEnabled(old(Now()), id, childId, enabled)
    {
      var index := IndexOf(id);
      if index < 0 {
        NoIndex(rules, id);
        return;
      }
      FirstIndex(rules, index, id);
      var rule := rules[index];
      rules := rules[index := rule.(subRules := SwitchChildren(rule.subRules, childId, enabled))];
      saved := rules;
      ops := ops + [Saving];
    }

    method ImportLookedUp(i: nat, additions: seq<Rule>)
      requires ImportReady(Now(), i, additions).Some?
      modifies this
      ensures Some(Now()) == ImportReady(old(Now()), i, additions)
    {
      var added: seq<Rule> := [];
      for k := 0 to |additions|
        invariant added + NotDuplicated(rules, additions[k..]) == NotDuplicated(rules, additions)
        invariant Now() == old(Now())
      {
        ghost var rest := NotDuplicated(rules, additions[k + 1..]);
        assert additions[k..][1..] == additions[k + 1..];
        if !Duplicates(rules, additions[k]) {
          Snoc(added, additions[k], rest);
          added := added + [additions[k]];
        } else {
          assert [] + rest == rest;
        }
      }
      assert NotDuplicated(rules, additions[|additions|..]) == [];
      assert added == NotDuplicated(rules, additions);
      if added == [] {
        Wait(i, Finished);
      } else {
        saved := rules + added;
        used := used + Ids(additions);
        Wait(i, SavingImport(rules + added));
        assert Some(Now()) == ImportReady(old(Now()), i, additions);
      }
    }

    method Refreshed(i: nat, next: seq<Rule>)
      requires RefreshDone(Now(), i, next).Some?
      modifies this
      ensures Some(Now()) == RefreshDone(old(Now()), i, next)
    {
      rules := next;
      saved := rules;
      Wait(i, Saving);
    }

    method SaveAnswered(i: nat)
      requires SaveDone(Now(), i).Some?
      modifies this
      ensures Some(Now()) == SaveDone(old(Now()), i)
    {
      var op := ops[i];
      var next := Finished;
      if op.Upsert? {
        var live := IsLive(Now(), i);
        if live && !op.at.SavingStatus? {
          Chain();
        }
        if live && op.at.SavingParent? {
          next := op.(at := ApplyingParent(op.at.scans));
        }
      } else {
        if op.SavingMode? {
          mode := op.mode;
        } else if op.SavingImport? {
          rules := op.next;
        }
        Chain();
      }
      Wait(i, next);
    }

    method SaveThrew(i: nat)
      requires SaveFailed(Now(), i).Some?
      modifies this
      ensures Some(Now()) == SaveFailed(old(Now()), i)
    {
      if ops[i].Upsert? && ops[i].at.SavingChildren? && !ops[i].at.caught {
        SaveChildren(i, [], true);
      } else {
        Wait(i, Finished);
      }
    }

    method ListAnswered(i: nat, found: seq<Interface>)
      requires ListDone(Now(), i, found).Some?
      modifies this
      ensures Some(Now()) == ListDone(old(Now()), i, found)
    {
      interfaces := found;
      Wait(i, Listed);
    }

    method ListHandled(i: nat)
      requires ListContinues(Now(), i).Some?
      modifies this
      ensures Some(Now()) == ListContinues(old(Now()), i)
    {
      Chain();
      Wait(i, Finished);
    }

    method InstallAnswered(i: nat, enabled: bool)
      requires InstallDone(Now(), i, enabled).Some?
      modifies this
      ensures Some(Now()) == InstallDone(old(Now()), i, enabled)
    {
      helperEnabled := enabled;
      if enabled {
        Chain();
      }
      Wait(i, Finished);
    }

    /******* The apply chain *******/

    method StartApply()
      requires ApplyStart(Now()).Some?
      modifies this
      ensures Some(Now()) == ApplyStart(old(Now()))
    {
      pending := pending - 1;
      if mode == SystemDefault {
        phase := CleanupHosts;
        var _ := ReconcileHosts(None);
      } else {
        phase := AwaitHelper;
      }
    }

    method HelperAnswered(enabled: Option<bool>)
      requires ApplyHelper(Now(), enabled).Some?
      modifies this
      ensures Some(Now()) == ApplyHelper(old(Now()), enabled)
    {
      if enabled.None? {
        phase := Idle;
        return;
      }
      helperEnabled := enabled.value;
      var threw := ReconcileHosts(None);
      phase := if threw then Idle else AwaitHosts;
    }

    /** The host request is answered: plan the rules as they are now, and send the routes. */
    method ApplyHostsAnswered(ok: bool) returns (ghost plan: Plan)
      requires phase == AwaitHosts || phase == CleanupHosts
      modifies this
      ensures Some(Now()) == ApplyHosts(old(Now()), ok, plan)
    {
      var planned := PlanFromRules(rules, Gateways(interfaces));
      plan := planned;
      if phase == CleanupHosts {
        phase, routes := CleanupRoutes, Some([]);
      } else if !ok || (!helperEnabled && planned.routes != []) {
        phase := Idle;
      } else {
        phase, routes := AwaitRoutes, Some(planned.routes);
      }
    }

    method RoutesAnswered(threw: bool)
      requires ApplyRoutes(Now(), threw).Some?
      modifies this
      ensures Some(Now()) == ApplyRoutes(old(Now()), threw)
    {
      if phase == AwaitRoutes && threw {
        phase := Idle;
      } else {
        phase, saved := AwaitSave, rules;
      }
    }

    /** The last save of an apply is answered. */
    method ApplySavedAnswered()
      requires ApplySaved(Now()).Some?
      modifies this
      ensures Some(Now()) == ApplySaved(old(Now()))
    {
      phase := Idle;
    }

    /******* Every event *******/

    method Open(op: Op)
      modifies this
      ensures Now() == Begin(old(Now()), op)
    {
      ops := ops + [op];
    }

    /** What the user or the system asks for. */
    method PerformRequest(e: Event)
      requires Step(Now(), e).Some?
      requires e.EBeginUpsert? || e.EDelete? || e.ESetRule? || e.ESetSubRule? || e.ESetMode? || e.EImport?
               || e.ERefresh? || e.EInterfacesChanged? || e.EInstall?
      modifies this
      ensures Some(Now()) == Step(old(Now()), e)
    {
      if e.EBeginUpsert? {
        UpsertRule(e.id, e.isNew, e.draft);
      } else if e.EDelete? {
        DeleteRule(e.id);
      } else if e.ESetRule? {
        ToggleRule(e.id, e.enabled);
      } else if e.ESetSubRule? {
        ToggleSubRule(e.id, e.childId, e.enabled);
      } else if e.ESetMode? {
        if mode != e.mode {
          Open(SavingMode(e.mode));
        }
      } else if e.EImport? {
        Open(Importing);
      } else if e.ERefresh? {
        Open(Refreshing(rules));
      } else {
        Open(if e.EInterfacesChanged? then Listing else Installing);
      }
    }

    /** What a save of a rule waited for. */
    method PerformSaveAnswer(e: Event)
      requires Step(Now(), e).Some?
      requires e.EHostsDone? || e.ELookupDone? || e.EApplyDone? || e.EScanDone? || e.EChildrenDone? || e.EScanFailed?
      modifies this
      ensures Some(Now()) == Step(old(Now()), e)
    {
      if e.EHostsDone? {
        HostsAnswered(e.op, e.ok);
      } else if e.ELookupDone? {
        LookupAnswered(e.op, e.ips);
      } else if e.EApplyDone? {
        ParentApplied(e.op, e.applied);
      } else if e.EScanDone? {
        Scanned(e.op);
      } else if e.EChildrenDone? {
        SaveChildren(e.op, e.children, false);
      } else {
        ScanThrew(e.op);
      }
    }

    /** What an import or a refresh waited for, or the repository's answer. */
    method PerformAnswer(e: Event)
      requires Step(Now(), e).Some?
      requires e.EImportReady? || e.ERefreshDone? || e.ESaveDone? || e.ESaveFailed?
      modifies this
      ensures Some(Now()) == Step(old(Now()), e)
    {
      if e.EImportReady? {
        ImportLookedUp(e.op, e.additions);
      } else if e.ERefreshDone? {
        Refreshed(e.op, e.next);
      } else if e.ESaveDone? {
        SaveAnswered(e.op);
      } else {
        SaveThrew(e.op);
      }
    }

    /** The answer of a list call or an installation; lookups of an import or a refresh that threw. */
    method PerformPlatformAnswer(e: Event)
      requires Step(Now(), e).Some?
      requires e.EListDone? || e.EListContinues? || e.EInstallDone? || e.EFails?
      modifies this
      ensures Some(Now()) == Step(old(Now()), e)
    {
      if e.EListDone? {
        ListAnswered(e.op, e.interfaces);
      } else if e.EListContinues? {
        ListHandled(e.op);
      } else if e.EInstallDone? {
        InstallAnswered(e.op, e.helper);
      } else {
        Wait(e.op, Finished);
      }
    }

    /** A stretch of the running apply. The plan of an event can only be the one that the planner finds. */
    method PerformApply(e: Event)
      requires Step(Now(), e).Some?
      requires e.EApplyStart? || e.EApplyHelper? || e.EApplyHosts? || e.EApplyRoutes? || e.EApplySaved?
      modifies this
      ensures Some(Now()) == Step(old(Now()), e)
    {
      if e.EApplyStart? {
        StartApply();
      } else if e.EApplyHelper? {
        HelperAnswered(e.answer);
      } else if e.EApplyHosts? {
        ghost var before := Now();
        ghost var plan := ApplyHostsAnswered(e.ok);
        if before.phase == AwaitHosts {
          RouteListUnique(Asked(before), plan.routes, e.plan.routes);
        }
      } else if e.EApplyRoutes? {
        RoutesAnswered(e.threw);
      } else {
        ApplySavedAnswered();
      }
    }

    /** Whatever happens next, the object goes where the state machine goes. */
    method Perform(e: Event)
      requires Step(Now(), e).Some?
      modifies this
      ensures Some(Now()) == Step(old(Now()), e)
    {
      if e.EBeginUpsert? || e.EDelete? || e.ESetRule? || e.ESetSubRule? || e.ESetMode? || e.EImport? || e.ERefresh?
         || e.EInterfacesChanged? || e.EInstall? {
        PerformRequest(e);
      } else if e.EHostsDone? || e.ELookupDone? || e.EApplyDone? || e.EScanDone? || e.EChildrenDone? || e.EScanFailed? {
        PerformSaveAnswer(e);
      } else if e.EApplyStart? || e.EApplyHelper? || e.EApplyHosts? || e.EApplyRoutes? || e.EApplySaved? {
        PerformApply(e);
      } else if e.EImportReady? || e.ERefreshDone? || e.ESaveDone? || e.ESaveFailed? {
        PerformAnswer(e);
      } else {
        PerformPlatformAnswer(e);
      }
    }

    /** The object after any run of events is the state that the theorems speak of. */
    method PerformAll(events: seq<Event>)
      requires Run(Now(), events).Some?
      modifies this
      ensures Some(Now()) == Run(old(Now()), events)
    {
      for i := 0 to |events|
        invariant Some(Now()) == Run(old(Now()), events[..i])
      {
        RunPrefix(old(Now()), events, i + 1);
        assert events[..i + 1][..i] == events[..i];
        Perform(events[i]);
      }
      assert events[..|events|] == events;
    }
  }
}

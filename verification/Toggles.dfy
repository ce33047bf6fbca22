/** When a rule's enabled flag, switched while a save or a scan of the rule is under way, survives. */
module Toggles {
  import opened Common
  import opened Planner
  import opened Controller
  import opened StaleSaves

  function FlagOf(rules: seq<Rule>, id: string): Option<bool>
  {
    var rule := Find(rules, id);
    if rule.None? then None else Some(rule.value.enabled)
  }

  /******* How lists change *******/

  lemma {:induction false} FindReplaced(rules: seq<Rule>, rule: Rule, id: string)
    ensures Find(Replace(rules, rule), id) == if rule.id == id then Some(rule) else Find(rules, id)
  {
    if rules == [] {
      assert [rule][1..] == [];
    } else if rules[0].id == rule.id {
      assert ([rule] + rules[1..])[1..] == rules[1..];
    } else {
      FindReplaced(rules[1..], rule, id);
    }
  }

  lemma {:induction false} FindAppended(rules: seq<Rule>, more: seq<Rule>, id: string)
    requires Present(rules, id)
    ensures Find(rules + more, id) == Find(rules, id)
  {
    assert (rules + more)[1..] == rules[1..] + more;
    if rules[0].id != id {
      FindAppended(rules[1..], more, id);
    }
  }

  lemma {:induction false} FindWithout(rules: seq<Rule>, other: string, id: string)
    requires other != id
    ensures Find(Without(rules, other), id) == Find(rules, id)
  {
    if rules != [] {
      FindWithout(rules[1..], other, id);
    }
  }

  lemma {:induction false} FlagRefreshed(was: seq<Rule>, rules: seq<Rule>, id: string)
    requires AllRefreshed(was, rules)
    ensures FlagOf(rules, id) == FlagOf(was, id)
  {
    if was != [] {
      assert IsRefreshed(was[0], rules[0]);
      assert forall k | 0 <= k < |was[1..]| :: was[1..][k] == was[k + 1] && rules[1..][k] == rules[k + 1];
      FlagRefreshed(was[1..], rules[1..], id);
    }
  }

  /******* What threatens a flag *******/

  /** An operation that holds on to an older list has the flag there. */
  predicate ListAgrees(op: Op, id: string, flag: bool)
  {
    match op
    case Refreshing(snapshot) => FlagOf(snapshot, id) == Some(flag)
    case SavingImport(next) => FlagOf(next, id) == Some(flag)
    case _ => true
  }

  /** A save that has not written its rule yet. */
  predicate IsWaiting(op: Op)
  {
    op.Upsert? && (op.at.Excluding? || op.at.Resolving? || op.at.Restoring?)
  }

  /** The save will find the flag changed since it began, or sets it to the same value itself, or adds a rule. */
  predicate WillKeep(op: Op, flag: bool)
    requires op.Upsert?
  {
    op.isNew || (op.initial.Some? && op.initial.value.enabled != flag) || op.draft.enabled == flag
  }

  ghost predicate Safe(s: State, id: string, flag: bool)
  {
    && (forall k | 0 <= k < |s.ops| :: ListAgrees(s.ops[k], id, flag))
    && (forall k | 0 <= k < |s.ops| ::
          IsCurrent(s, k) && s.ops[k].id == id && IsWaiting(s.ops[k]) ==> WillKeep(s.ops[k], flag))
  }

  ghost predicate Kept(s: State, id: string, flag: bool)
  {
    FlagOf(s.rules, id) == Some(flag) && Safe(s, id, flag)
  }

  /** Events that are meant to change the flag of this rule. */
  predicate Meant(e: Event, id: string)
  {
    (e.EBeginUpsert? || e.EDelete? || e.ESetRule?) && e.id == id
  }

  /******* Safe flags stay *******/

  lemma WriteParentFlag(s: State, i: nat, ips: seq<string>, id: string, flag: bool)
    requires i < |s.ops| && s.ops[i].Upsert? && FlagOf(s.rules, id) == Some(flag)
    requires IsCurrent(s, i) && s.ops[i].id == id ==> WillKeep(s.ops[i], flag)
    ensures FlagOf(WriteParent(s, i, ips).rules, id) == Some(flag)
  {
    var rule := ParentRule(s, s.ops[i], ips);
    FindReplaced(s.rules, rule, id);
    FindAppended(s.rules, [rule], id);
  }

  lemma WriteChildrenFlag(s: State, i: nat, children: seq<SubRule>, caught: bool, id: string, flag: bool)
    requires i < |s.ops| && s.ops[i].Upsert? && FlagOf(s.rules, id) == Some(flag)
    ensures FlagOf(WriteChildren(s, i, children, caught).rules, id) == Some(flag)
  {
    var own := s.ops[i].id;
    FoundIds(s.rules, own);
    if Present(s.rules, own) {
      FindReplaced(s.rules, Find(s.rules, own).value.(subRules := children), id);
    }
  }

  /** A waiting save stays the same save. */
  predicate StillWaits(s: State, t: State, i: nat)
  {
    i < |s.ops| && i < |t.ops|
    && (IsWaiting(t.ops[i]) ==> IsWaiting(s.ops[i]) && s.ops[i].Upsert? && t.ops[i] == s.ops[i].(at := t.ops[i].at))
  }

  lemma MovedKept(s: State, t: State, i: nat, id: string, flag: bool)
    requires Kept(s, id, flag) && Moved(s, t, i) && StillWaits(s, t, i)
    requires FlagOf(t.rules, id) == Some(flag) && ListAgrees(t.ops[i], id, flag)
    ensures Kept(t, id, flag)
  {
    forall k | 0 <= k < |t.ops|
      ensures ListAgrees(t.ops[k], id, flag)
      ensures IsCurrent(t, k) && t.ops[k].id == id && IsWaiting(t.ops[k]) ==> WillKeep(t.ops[k], flag) {
      if k != i {
        assert IsCurrent(t, k) == IsCurrent(s, k);
      } else if IsCurrent(t, k) && t.ops[k].id == id && IsWaiting(t.ops[k]) {
        assert IsCurrent(s, k);
      }
    }
  }

  lemma HostsDoneKept(s: State, i: nat, ok: bool, id: string, flag: bool)
    requires Kept(s, id, flag) && HostsDone(s, i, ok).Some?
    ensures Kept(HostsDone(s, i, ok).value, id, flag)
  {
    var t := HostsDone(s, i, ok).value;
    HostsDoneMoves(s, i, ok);
    if s.ops[i].at.Restoring? {
      WriteParentFlag(s, i, s.ops[i].at.ips, id, flag);
    }
    MovedKept(s, t, i, id, flag);
  }

  lemma LookupDoneKept(s: State, i: nat, ips: Option<seq<string>>, id: string, flag: bool)
    requires Kept(s, id, flag) && LookupDone(s, i, ips).Some?
    ensures Kept(LookupDone(s, i, ips).value, id, flag)
  {
    var t := LookupDone(s, i, ips).value;
    LookupDoneMoves(s, i, ips);
    if ips.Some? {
      WriteParentFlag(s, i, ips.value, id, flag);
    }
    MovedKept(s, t, i, id, flag);
  }

  lemma ScanKept(s: State, e: Event, id: string, flag: bool)
    requires Kept(s, id, flag) && Step(s, e).Some? && (e.EChildrenDone? || e.EScanFailed?)
    ensures Kept(Step(s, e).value, id, flag)
  {
    var t, i := Step(s, e).value, e.op;
    StepMoves(s, e);
    WriteChildrenFlag(s, i, if e.EChildrenDone? then e.children else [], e.EScanFailed?, id, flag);
    assert !IsWaiting(t.ops[i]) && ListAgrees(t.ops[i], id, flag);
    MovedKept(s, t, i, id, flag);
  }

  lemma SaveFailedKept(s: State, i: nat, id: string, flag: bool)
    requires Kept(s, id, flag) && SaveFailed(s, i).Some?
    ensures Kept(SaveFailed(s, i).value, id, flag)
  {
    var t := SaveFailed(s, i).value;
    SaveFailedMoves(s, i);
    if s.ops[i].Upsert? {
      WriteChildrenFlag(s, i, [], true, id, flag);
    }
    assert !IsWaiting(t.ops[i]) && ListAgrees(t.ops[i], id, flag);
    MovedKept(s, t, i, id, flag);
  }

  lemma SaveDoneKept(s: State, i: nat, id: string, flag: bool)
    requires Kept(s, id, flag) && SaveDone(s, i).Some?
    ensures Kept(SaveDone(s, i).value, id, flag)
  {
    SaveDoneMoves(s, i);
    assert ListAgrees(s.ops[i], id, flag);
    MovedKept(s, SaveDone(s, i).value, i, id, flag);
  }

  lemma RefreshDoneKept(s: State, i: nat, next: seq<Rule>, id: string, flag: bool)
    requires Kept(s, id, flag) && RefreshDone(s, i, next).Some?
    ensures Kept(RefreshDone(s, i, next).value, id, flag)
  {
    assert ListAgrees(s.ops[i], id, flag);
    FlagRefreshed(s.ops[i].snapshot, next, id);
    MovedKept(s, RefreshDone(s, i, next).value, i, id, flag);
  }

  lemma ImportReadyKept(s: State, i: nat, additions: seq<Rule>, id: string, flag: bool)
    requires Kept(s, id, flag) && ImportReady(s, i, additions).Some?
    ensures Kept(ImportReady(s, i, additions).value, id, flag)
  {
    FindAppended(s.rules, NotDuplicated(s.rules, additions), id);
    MovedKept(s, ImportReady(s, i, additions).value, i, id, flag);
  }

  /** A new operation that writes no other flag. */
  lemma AddedKept(s: State, t: State, id: string, flag: bool)
    requires Kept(s, id, flag) && |t.ops| == |s.ops| + 1 && t.ops[..|s.ops|] == s.ops
    requires forall k | 0 <= k < |s.ops| && IsCurrent(t, k) && s.ops[k].id == id :: IsCurrent(s, k)
    requires FlagOf(t.rules, id) == Some(flag) && ListAgrees(t.ops[|s.ops|], id, flag)
    requires t.ops[|s.ops|].Upsert? ==> t.ops[|s.ops|].id != id
    ensures Kept(t, id, flag)
  {
    forall k | 0 <= k < |t.ops|
      ensures ListAgrees(t.ops[k], id, flag)
      ensures IsCurrent(t, k) && t.ops[k].id == id && IsWaiting(t.ops[k]) ==> WillKeep(t.ops[k], flag) {
      if k < |s.ops| {
        assert t.ops[..|s.ops|][k] == t.ops[k];
      }
    }
  }

  lemma BeginKept(s: State, other: string, isNew: bool, draft: Draft, id: string, flag: bool)
    requires Kept(s, id, flag) && other != id && MayBegin(s, other, isNew, draft)
    ensures Kept(BeginUpsert(s, other, isNew, draft), id, flag)
  {
    var started, t, i := Opened(s, other, isNew, draft), BeginUpsert(s, other, isNew, draft), |s.ops|;
    BeginMoves(s, other, isNew, draft);
    WriteParentFlag(started, i, if draft.pin.Some? then [draft.pin.value]
                                else if draft.kind == Ipv4 then [draft.destination] else [], id, flag);
    assert t.ops[..i] == s.ops by {
      assert forall k | 0 <= k < i :: t.ops[k] == started.ops[k] == s.ops[k];
    }
    AddedKept(s, t, id, flag);
  }

  lemma MutationKept(s: State, e: Event, id: string, flag: bool)
    requires Kept(s, id, flag) && Step(s, e).Some? && !Meant(e, id) && (e.EDelete? || e.ESetRule? || e.ESetSubRule?)
    ensures Kept(Step(s, e).value, id, flag)
  {
    var t := Step(s, e).value;
    FoundIds(s.rules, e.id);
    if e.EDelete? {
      FindWithout(s.rules, e.id, id);
    } else if Present(s.rules, e.id) {
      var rule := Find(s.rules, e.id).value;
      FindReplaced(s.rules, if e.ESetRule? then rule.(enabled := e.enabled)
        else rule.(subRules := SwitchChildren(rule.subRules, e.childId, e.enabled)), id);
    }
    if t != s {
      AddedKept(s, t, id, flag);
    }
  }

  lemma SameKept(s: State, t: State, id: string, flag: bool)
    requires Kept(s, id, flag) && t.rules == s.rules && t.tokens == s.tokens && t.ops == s.ops
    ensures Kept(t, id, flag)
  {
    assert forall k | 0 <= k < |s.ops| :: IsCurrent(t, k) == IsCurrent(s, k);
  }

  lemma BegunKept(s: State, e: Event, id: string, flag: bool)
    requires Kept(s, id, flag) && Step(s, e).Some?
    requires e.ESetMode? || e.EImport? || e.ERefresh? || e.EInterfacesChanged? || e.EInstall?
    ensures Kept(Step(s, e).value, id, flag)
  {
    var t := Step(s, e).value;
    if t != s {
      AddedKept(s, t, id, flag);
    }
  }

  lemma ScanMovesKept(s: State, e: Event, id: string, flag: bool)
    requires Kept(s, id, flag) && Step(s, e).Some? && (e.EApplyDone? || e.EScanDone?)
    ensures Kept(Step(s, e).value, id, flag)
  {
    var t, i := Step(s, e).value, e.op;
    StepMoves(s, e);
    assert t.rules == s.rules && !IsWaiting(t.ops[i]) && ListAgrees(t.ops[i], id, flag);
    MovedKept(s, t, i, id, flag);
  }

  lemma QuietKept(s: State, e: Event, id: string, flag: bool)
    requires Kept(s, id, flag) && Step(s, e).Some?
    requires e.EListDone? || e.EListContinues? || e.EInstallDone? || e.EFails?
    ensures Kept(Step(s, e).value, id, flag)
  {
    var t, i := Step(s, e).value, e.op;
    StepMoves(s, e);
    assert t.rules == s.rules && (t.ops[i].Finished? || t.ops[i].Listed?);
    MovedKept(s, t, i, id, flag);
  }

  lemma StepKept(s: State, e: Event, id: string, flag: bool)
    requires Kept(s, id, flag) && Step(s, e).Some? && !Meant(e, id)
    ensures Kept(Step(s, e).value, id, flag)
  {
    if e.EBeginUpsert? {
      BeginKept(s, e.id, e.isNew, e.draft, id, flag);
    } else if e.EDelete? || e.ESetRule? || e.ESetSubRule? {
      MutationKept(s, e, id, flag);
    } else if e.EHostsDone? {
      HostsDoneKept(s, e.op, e.ok, id, flag);
    } else if e.ELookupDone? {
      LookupDoneKept(s, e.op, e.ips, id, flag);
    } else if e.EChildrenDone? || e.EScanFailed? {
      ScanKept(s, e, id, flag);
    } else if e.ESaveFailed? {
      SaveFailedKept(s, e.op, id, flag);
    } else if e.ESaveDone? {
      SaveDoneKept(s, e.op, id, flag);
    } else if e.ERefreshDone? {
      RefreshDoneKept(s, e.op, e.next, id, flag);
    } else if e.EImportReady? {
      ImportReadyKept(s, e.op, e.additions, id, flag);
    } else if IsApplyEvent(e) {
      ApplyTouches(s, e);
      SameKept(s, Step(s, e).value, id, flag);
    } else if Continues(e).None? {
      BegunKept(s, e, id, flag);
    } else if e.EApplyDone? || e.EScanDone? {
      ScanMovesKept(s, e, id, flag);
    } else {
      QuietKept(s, e, id, flag);
    }
  }

  ghost predicate NoneMeant(events: seq<Event>, id: string)
  {
    forall e | e in events :: !Meant(e, id)
  }

  lemma {:induction false} RunKept(s: State, events: seq<Event>, id: string, flag: bool)
    requires Kept(s, id, flag) && Run(s, events).Some? && NoneMeant(events, id)
    ensures Kept(Run(s, events).value, id, flag)
  {
    if events != [] {
      var front := events[..|events| - 1];
      assert forall e | e in front :: e in events;
      RunKept(s, front, id, flag);
      StepKept(Run(s, front).value, events[|events| - 1], id, flag);
    }
  }

  /******* Unsafe flags can be lost *******/

  /** Some run of events that are not meant to change the flag does change it. */
  ghost predicate MayLose(s: State, id: string, flag: bool)
  {
    exists events :: Run(s, events).Some? && NoneMeant(events, id) && FlagOf(Run(s, events).value.rules,
        id) != Some(flag)
  }

  lemma {:induction false} RunCons(s: State, e: Event, events: seq<Event>)
    requires Step(s, e).Some?
    ensures Run(s, [e] + events) == Run(Step(s, e).value, events)
  {
    var all := [e] + events;
    if events == [] {
      assert all == [e] && all[..0] == [];
      RunOne(s, e);
    } else {
      assert all[..|all| - 1] == [e] + events[..|events| - 1];
      RunCons(s, e, events[..|events| - 1]);
    }
  }

  lemma LoseLater(s: State, e: Event, id: string, flag: bool)
    requires Step(s, e).Some? && !Meant(e, id) && MayLose(Step(s, e).value, id, flag)
    ensures MayLose(s, id, flag)
  {
    var t := Step(s, e).value;
    var events :| Run(t, events).Some? && NoneMeant(events, id) && FlagOf(Run(t, events).value.rules, id) != Some(flag);
    RunCons(s, e, events);
    assert NoneMeant([e] + events, id);
  }

  lemma LoseNow(s: State, e: Event, id: string, flag: bool)
    requires Step(s, e).Some? && !Meant(e, id) && FlagOf(Step(s, e).value.rules, id) != Some(flag)
    ensures MayLose(s, id, flag)
  {
    RunOne(s, e);
    assert NoneMeant([e], id);
  }

  lemma HoarderLoses(s: State, k: nat, id: string, flag: bool)
    requires k < |s.ops| && !ListAgrees(s.ops[k], id, flag)
    ensures MayLose(s, id, flag)
  {
    if s.ops[k].Refreshing? {
      var next := CanRefresh(s.ops[k].snapshot);
      FlagRefreshed(s.ops[k].snapshot, next, id);
      LoseNow(s, ERefreshDone(k, next), id, flag);
    } else {
      LoseNow(s, ESaveDone(k), id, flag);
    }
  }

  /** The save finds the flag as it was at its beginning, and writes its own. */
  ghost predicate Careless(s: State, k: nat, id: string, flag: bool)
  {
    && k < |s.ops| && IsCurrent(s, k) && s.ops[k].id == id && !WillKeep(s.ops[k], flag)
    && FlagOf(s.rules, id) == Some(flag)
  }

  lemma WriteLoses(s: State, k: nat, ips: seq<string>, id: string, flag: bool)
    requires Careless(s, k, id, flag)
    ensures FlagOf(WriteParent(s, k, ips).rules, id) != Some(flag)
  {
    var rule := ParentRule(s, s.ops[k], ips);
    FindReplaced(s.rules, rule, id);
  }

  lemma ResolvingLoses(s: State, k: nat, id: string, flag: bool)
    requires Careless(s, k, id, flag) && (s.ops[k].at == Resolving(false) || s.ops[k].at.Restoring?)
    ensures MayLose(s, id, flag)
  {
    if s.ops[k].at.Restoring? {
      WriteLoses(s, k, s.ops[k].at.ips, id, flag);
      LoseNow(s, EHostsDone(k, true), id, flag);
    } else {
      WriteLoses(s, k, [], id, flag);
      LoseNow(s, ELookupDone(k, Some([])), id, flag);
    }
  }

  lemma RefreshingLoses(s: State, k: nat, id: string, flag: bool)
    requires Careless(s, k, id, flag) && s.ops[k].at == Resolving(true) && s.mode == SystemDefault
    ensures MayLose(s, id, flag)
  {
    var e := ELookupDone(k, Some([]));
    assert !HostsThrow(s, None);
    var t := Step(s, e).value;
    assert t.rules == s.rules && t.tokens == s.tokens;
    ResolvingLoses(t, k, id, flag);
    LoseLater(s, e, id, flag);
  }

  lemma ExcludingLoses(s: State, k: nat, id: string, flag: bool)
    requires Careless(s, k, id, flag) && (s.ops[k].at.Excluding? || s.ops[k].at == Resolving(true)) && s.mode
        == SystemDefault
    ensures MayLose(s, id, flag)
  {
    if s.ops[k].at.Excluding? {
      var e := EHostsDone(k, true);
      var t := Step(s, e).value;
      assert t.rules == s.rules && t.tokens == s.tokens;
      RefreshingLoses(t, k, id, flag);
      LoseLater(s, e, id, flag);
    } else {
      RefreshingLoses(s, k, id, flag);
    }
  }

  /** In System Default no mapping can be refused, so the save gets to its write. */
  lemma WaitingLoses(s: State, k: nat, id: string, flag: bool)
    requires Careless(s, k, id, flag) && IsWaiting(s.ops[k])
    ensures MayLose(s, id, flag)
  {
    if s.ops[k].at == Resolving(false) || s.ops[k].at.Restoring? {
      ResolvingLoses(s, k, id, flag);
    } else if s.mode == SystemDefault {
      ExcludingLoses(s, k, id, flag);
    } else {
      var m := |s.ops|;
      var t := Begin(s, SavingMode(SystemDefault));
      var u := Step(t, ESaveDone(m)).value;
      assert u.ops[k] == s.ops[k] && u.rules == s.rules && u.tokens == s.tokens && u.mode == SystemDefault;
      ExcludingLoses(u, k, id, flag);
      LoseLater(t, ESaveDone(m), id, flag);
      LoseLater(s, ESetMode(SystemDefault), id, flag);
    }
  }

  /** A flag switched while saves, scans, imports and refreshes are under way survives whatever follows, until it is
      meant to change, exactly when no operation holds on to a list with the other value and the save that owns the rule
      and has not written it yet began with the other value or sets this one itself. */
  lemma ToggleLasts(s: State, id: string, flag: bool)
    requires Present(s.rules, id)
    ensures !MayLose(SetRuleEnabled(s, id, flag), id, flag) <==> Safe(s, id, flag)
  {
    var t := SetRuleEnabled(s, id, flag);
    FoundIds(s.rules, id);
    FindReplaced(s.rules, Find(s.rules, id).value.(enabled := flag), id);
    assert |t.ops| == |s.ops| + 1 && t.ops[|s.ops|].Saving?;
    assert forall k | 0 <= k < |s.ops| :: t.ops[k] == s.ops[k] && IsCurrent(t, k) == IsCurrent(s, k);
    if Safe(s, id, flag) {
      assert Kept(t, id, flag);
      forall events | Run(t, events).Some? && NoneMeant(events, id) ensures FlagOf(Run(t, events).value.rules, id)
          == Some(flag) {
        RunKept(t, events, id, flag);
      }
    } else if k :| 0 <= k < |s.ops| && !ListAgrees(s.ops[k], id, flag) {
      HoarderLoses(t, k, id, flag);
    } else {
      var k :| 0 <= k < |s.ops| && IsCurrent(s, k) && s.ops[k].id == id && IsWaiting(s.ops[k]) && !WillKeep(s.ops[k],
          flag);
      WaitingLoses(t, k, id, flag);
    }
  }
}

/** What the controller sends: the host requests, the route requests, and the stages a save goes through. */
module Requests {
  import opened Common
  import opened Planner
  import opened HostMappings
  import opened Controller
  import opened StaleSaves
  import opened NetPilotController
  import opened SavedRules

  /** A host request holds what the rules ask for, nothing in System Default, and mappings are sent only where the
      platform has them and the helper is enabled. */
  ghost predicate IsHostRequest(s: State, excluding: Option<string>, mappings: map<string, string>)
  {
    && s.hostsSupported
    && (if s.mode == SystemDefault then mappings == map[] else Answers(mappings, s.rules, excluding))
    && (mappings != map[] ==> s.helperEnabled)
  }

  /** A request can be made: no two rules map a host differently, and if a rule maps one, the platform has mappings and
      the helper is enabled. */
  ghost predicate CanAsk(s: State, excluding: Option<string>)
  {
    s.mode == SystemDefault
    || (Compatible(s.rules, excluding)
        && ((s.hostsSupported && s.helperEnabled) || forall pin :: !HostMappings.Asks(s.rules, excluding, pin)))
  }

  lemma ThrowsExactly(s: State, excluding: Option<string>)
    ensures HostsThrow(s, excluding) <==> !CanAsk(s, excluding)
    ensures var t := SendHosts(s, excluding);
            if s.hostsSupported && CanAsk(s, excluding)
            then t.hosts.Some? && IsHostRequest(s, excluding, t.hosts.value) else t == s
  {
    CollectedExactly(s.rules, excluding);
    var mappings := DesiredHosts(s, excluding);
    if s.mode == Custom && mappings.Some? {
      EmptyExactly(s.rules, excluding, mappings.value);
    }
  }

  lemma EmptyExactly(rules: seq<Rule>, excluding: Option<string>, mappings: map<string, string>)
    requires Answers(mappings, rules, excluding)
    ensures mappings == map[] <==> forall pin :: !HostMappings.Asks(rules, excluding, pin)
  {
    if mappings == map[] {
      forall pin ensures !HostMappings.Asks(rules, excluding, pin) {
        assert pin == Pin(pin.host, pin.ipv4);
      }
    } else {
      var h :| h in mappings;
      assert HostMappings.Asks(rules, excluding, Pin(h, mappings[h]));
    }
  }

  /** The step sends the host request, where the platform has mappings. */
  ghost predicate AsksHosts(s: State, t: State, excluding: Option<string>)
  {
    if s.hostsSupported then t.hosts.Some? && IsHostRequest(s, excluding, t.hosts.value) else t.hosts == s.hosts
  }

  /******* The requests of an apply *******/

  /** The helper has answered: the mappings are sent if they can be, and otherwise the apply ends without a request. */
  lemma ApplyAsksHosts(s: State, enabled: bool)
    requires Step(s, EApplyHelper(Some(enabled))).Some?
    ensures var t := Step(s, EApplyHelper(Some(enabled))).value;
            && t.helperEnabled == enabled && t.routes == s.routes && t.rules == s.rules
            && if CanAsk(t, None) then t.phase == AwaitHosts && AsksHosts(t.(hosts := s.hosts), t, None)
               else t.phase == Idle && t.hosts == s.hosts
  {
    ThrowsExactly(s.(helperEnabled := enabled), None);
    ThrowsExactly(s.(helperEnabled := enabled, phase := AwaitHosts), None);
  }

  /** In System Default the apply withdraws all mappings and then all routes. */
  lemma ApplyWithdraws(s: State)
    requires Step(s, EApplyStart).Some?
    ensures var t := Step(s, EApplyStart).value;
            && t.routes == s.routes && t.pending == s.pending - 1
            && if s.mode == SystemDefault then t.phase == CleanupHosts && (s.hostsSupported ==> t.hosts == Some(map[]))
               else t.phase == AwaitHelper && t.hosts == s.hosts
  {
  }

  /** A save that begins sends no routes and leaves mode, adapters and helper alone. */
  lemma StretchSendsNoRoutes(s: State, i: nat)
    requires i < |s.ops| && s.ops[i].Upsert?
    ensures Elsewhere(s, FirstStretch(s, i))
  {
    var draft := s.ops[i].draft;
    WriteSendsNoRoutes(s, i, if draft.pin.Some? then [draft.pin.value]
                             else if draft.kind == Ipv4 then [draft.destination] else []);
  }

  /** Routes, apply phase, mode, adapters and helper status are as before. */
  predicate Elsewhere(s: State, t: State)
  {
    && t.routes == s.routes && t.phase == s.phase && t.mode == s.mode && t.interfaces == s.interfaces
    && t.helperEnabled == s.helperEnabled && t.hostsSupported == s.hostsSupported
  }

  lemma WriteSendsNoRoutes(s: State, i: nat, ips: seq<string>)
    requires i < |s.ops| && s.ops[i].Upsert?
    ensures Elsewhere(s, WriteParent(s, i, ips))
  {
  }

  lemma LookupSendsNoRoutes(s: State, i: nat, ips: Option<seq<string>>)
    requires LookupDone(s, i, ips).Some?
    ensures Elsewhere(s, LookupDone(s, i, ips).value)
  {
    if ips.Some? {
      WriteSendsNoRoutes(s, i, ips.value);
    }
  }

  lemma AnswerSendsNoRoutes(s: State, i: nat, ok: bool)
    requires HostsDone(s, i, ok).Some?
    ensures Elsewhere(s, HostsDone(s, i, ok).value)
  {
    if s.ops[i].at.Restoring? {
      WriteSendsNoRoutes(s, i, s.ops[i].at.ips);
    }
  }

  /** A save leaves them alone. */
  lemma SavesSendNoRoutes(s: State, e: Event)
    requires Step(s, e).Some? && (e.EBeginUpsert? || IsSaveEvent(e))
    ensures Elsewhere(s, Step(s, e).value)
  {
    if e.EBeginUpsert? {
      StretchSendsNoRoutes(Opened(s, e.id, e.isNew, e.draft), |s.ops|);
    } else if e.EHostsDone? {
      AnswerSendsNoRoutes(s, e.op, e.ok);
    } else if e.ELookupDone? {
      LookupSendsNoRoutes(s, e.op, e.ips);
    }
  }

  lemma DoneSendsNoRoutes(s: State, i: nat)
    requires SaveDone(s, i).Some?
    ensures var t := SaveDone(s, i).value;
            Elsewhere(s, t.(mode := s.mode)) && t.mode == if s.ops[i].SavingMode? then s.ops[i].mode else s.mode
  {
  }

  lemma FailedSendsNoRoutes(s: State, i: nat)
    requires SaveFailed(s, i).Some?
    ensures Elsewhere(s, SaveFailed(s, i).value)
  {
  }

  /** Outside the apply chain no routes are sent. The mode changes when its save is done, the adapters when they are
      listed, and the helper status when the installation is over; nothing else changes them. */
  lemma OthersSendNoRoutes(s: State, e: Event)
    requires Step(s, e).Some? && !IsApplyEvent(e)
    ensures var t := Step(s, e).value;
            && t.routes == s.routes && t.phase == s.phase && t.hostsSupported == s.hostsSupported
            && t.mode == (if e.ESaveDone? && s.ops[e.op].SavingMode? then s.ops[e.op].mode else s.mode)
            && t.interfaces == (if e.EListDone? then e.interfaces else s.interfaces)
            && t.helperEnabled == (if e.EInstallDone? then e.helper else s.helperEnabled)
  {
    if e.EBeginUpsert? || IsSaveEvent(e) {
      SavesSendNoRoutes(s, e);
    } else if e.ESaveDone? {
      DoneSendsNoRoutes(s, e.op);
    } else if e.ESaveFailed? {
      FailedSendsNoRoutes(s, e.op);
    }
  }

  /** The only step that sends routes: the answer to the host request. A plan is sent only behind an accepted host
      request, and one with routes only to an enabled helper; it plans the rules and adapters of that moment. */
  lemma RoutesAreSentExactly(s: State, e: Event)
    requires Step(s, e).Some?
    ensures var t := Step(s, e).value;
            && (e.EApplyHosts? && s.phase == CleanupHosts ==> t.routes == Some([]) && t.phase == CleanupRoutes)
            && (e.EApplyHosts? && s.phase == AwaitHosts && e.ok && (s.helperEnabled || e.plan.routes == []) ==>
                  t.routes == Some(e.plan.routes) && t.phase == AwaitRoutes
                  && IsPlan(CandidateSet(s.rules, Gateways(s.interfaces)), e.plan))
            && (!(e.EApplyHosts? && (s.phase == CleanupHosts || (e.ok && (s.helperEnabled || e.plan.routes == [])))) ==>
                  t.routes == s.routes)
            && (e.EApplyHosts? && s.phase == AwaitHosts && t.routes != Some(e.plan.routes) ==> t.phase == Idle)
  {
    if !IsApplyEvent(e) {
      OthersSendNoRoutes(s, e);
    }
  }

  /** An answered route request is followed by the save of the rules, and so is one of System Default that failed; a
      plan that could not be applied ends the apply. */
  lemma ApplySaves(s: State, threw: bool)
    requires Step(s, EApplyRoutes(threw)).Some?
    ensures var t := Step(s, EApplyRoutes(threw)).value;
            && t.rules == s.rules && t.routes == s.routes && t.hosts == s.hosts
            && if s.phase == AwaitRoutes && threw then t.phase == Idle && t.saved == s.saved
               else t.phase == AwaitSave && t.saved == s.rules
  {
  }

  /******* The requests of a save that refreshes its pin *******/

  /** A save that asks for a fresh answer to a pinned name. */
  predicate Refreshes(s: State, id: string, draft: Draft)
  {
    && draft.pin.None? && (draft.kind == Hostname || draft.kind == Url) && draft.manage && s.hostsSupported
    && Present(s.rules, id) && Find(s.rules, id).value.hostIpv4.Some?
  }

  /** Its own mapping is left out of the host request while it looks the name up; if that cannot be asked for, the save
      ends and everybody's mappings are asked for again. The lookup of any other name begins at once, without one. */
  lemma NameBegins(s: State, id: string, isNew: bool, draft: Draft)
    requires Step(s, EBeginUpsert(id, isNew, draft)).Some?
    requires draft.pin.None? && (draft.kind == Hostname || draft.kind == Url)
    ensures var t := Step(s, EBeginUpsert(id, isNew, draft)).value;
            && t.rules == s.rules && t.saved == s.saved && |t.ops| == |s.ops| + 1
            && var op := t.ops[|s.ops|];
               if !Refreshes(s, id, draft) then t.hosts == s.hosts && op.Upsert? && op.at == Resolving(false)
               else if CanAsk(s, Some(id)) then AsksHosts(s, t, Some(id)) && op.Upsert? && op.at == Excluding
               else op.Finished? && (if CanAsk(s, None) then AsksHosts(s, t, None) else t.hosts == s.hosts)
  {
    var started := Opened(s, id, isNew, draft);
    ThrowsExactly(started, Some(id));
    ThrowsExactly(started, None);
    SameAsk(s, started, Some(id));
    SameAsk(s, started, None);
  }

  lemma SameAsk(s: State, t: State, excluding: Option<string>)
    requires t.rules == s.rules && t.mode == s.mode
    requires t.hostsSupported == s.hostsSupported && t.helperEnabled == s.helperEnabled
    ensures CanAsk(t, excluding) == CanAsk(s, excluding)
    ensures forall mappings :: IsHostRequest(t, excluding, mappings) == IsHostRequest(s, excluding, mappings)
  {
  }

  /** The lookup begins when the request is accepted and the save is still the newest; otherwise the save ends and
      everybody's mappings are asked for again. */
  lemma RefreshLooksUp(s: State, i: nat, ok: bool)
    requires Step(s, EHostsDone(i, ok)).Some? && i < |s.ops| && s.ops[i].Upsert? && s.ops[i].at == Excluding
    ensures var t := Step(s, EHostsDone(i, ok)).value;
            && t.rules == s.rules && |t.ops| == |s.ops|
            && if ok && IsCurrent(s, i) then t.hosts == s.hosts && t.ops[i] == s.ops[i].(at := Resolving(true))
               else t.ops[i].Finished? && (if CanAsk(s, None) then AsksHosts(s, t, None) else t.hosts == s.hosts)
  {
    ThrowsExactly(s, None);
  }

  /** Behind the lookup everybody's mappings are asked for again, whatever it brought; the save goes on with its
      addresses if that can be asked for. */
  lemma RefreshRestores(s: State, i: nat, ips: Option<seq<string>>)
    requires Step(s, ELookupDone(i, ips)).Some?
    requires i < |s.ops| && s.ops[i].Upsert? && s.ops[i].at == Resolving(true)
    ensures var t := Step(s, ELookupDone(i, ips)).value;
            && t.rules == s.rules && |t.ops| == |s.ops|
            && (if CanAsk(s, None) then AsksHosts(s, t, None) else t.hosts == s.hosts)
            && if ips.Some? && CanAsk(s, None) then t.ops[i] == s.ops[i].(at := Restoring(ips.value))
               else t.ops[i].Finished?
  {
    ThrowsExactly(s, None);
  }

  /** Events that can send a host request. */
  predicate MayAskHosts(e: Event)
  {
    e.EBeginUpsert? || e.EHostsDone? || e.ELookupDone? || e.EApplyStart? || e.EApplyHelper?
  }

  /** A write of the rule sends none. */
  lemma WritesAskNothing(s: State, e: Event)
    requires Step(s, e).Some? && Arrives(s, e).Arrival?
    ensures Step(s, e).value.hosts == s.hosts
  {
  }

  lemma OthersAskNothing(s: State, e: Event)
    requires Step(s, e).Some? && !MayAskHosts(e)
    ensures Step(s, e).value.hosts == s.hosts
  {
  }

  /** A lookup or a request that fails ends the save without a trace. */
  lemma FailedSaveEnds(s: State, e: Event)
    requires Step(s, e).Some?
    requires (e.ELookupDone? && e.ips.None?) || (e.EHostsDone? && !e.ok)
    ensures var t := Step(s, e).value; t.rules == s.rules && t.saved == s.saved && t.ops[e.op].Finished?
  {
  }

  /******* The stages behind the write *******/

  /** Where a save whose rule is still its own goes next; None when it is over. */
  function NextStage(at: SavePoint, e: Event): Option<SavePoint>
  {
    match at
    case SavingParent(scans) => if e.ESaveDone? then Some(ApplyingParent(scans)) else None
    case ApplyingParent(scans) =>
      if e.EApplyDone? && scans then Some(if e.applied then Scanning else SavingStatus) else None
    case Scanning =>
      if e.EScanDone? then Some(ResolvingChildren) else if e.EScanFailed? then Some(SavingChildren(true)) else None
    case ResolvingChildren =>
      if e.EChildrenDone? then Some(SavingChildren(false))
      else if e.EScanFailed? then Some(SavingChildren(true)) else None
    case SavingChildren(caught) => if e.ESaveFailed? && !caught then Some(SavingChildren(true)) else None
    case _ => None
  }

  predicate HasWritten(at: SavePoint)
  {
    !at.Excluding? && !at.Resolving? && !at.Restoring?
  }

  /** The step took save `i` to its next stage, or to its end when the rule is not its own any more or no stage is
      left. What it has saved is applied. */
  predicate Progressed(s: State, t: State, e: Event, i: nat)
    requires i < |s.ops| && s.ops[i].Upsert?
  {
    && i < |t.ops|
    && (if IsLive(s, i) && NextStage(s.ops[i].at, e).Some?
        then t.ops[i] == s.ops[i].(at := NextStage(s.ops[i].at, e).value) else t.ops[i].Finished?)
    && t.pending == s.pending + if e.ESaveDone? && !s.ops[i].at.SavingStatus? && IsLive(s, i) then 1 else 0
  }

  lemma SavedProgresses(s: State, i: nat)
    requires SaveDone(s, i).Some? && s.ops[i].Upsert?
    ensures Progressed(s, SaveDone(s, i).value, ESaveDone(i), i)
  {
  }

  lemma UnsavedProgresses(s: State, i: nat)
    requires SaveFailed(s, i).Some? && s.ops[i].Upsert?
    ensures Progressed(s, SaveFailed(s, i).value, ESaveFailed(i), i)
  {
  }

  lemma AppliedProgresses(s: State, i: nat, applied: bool)
    requires ApplyDone(s, i, applied).Some?
    ensures Progressed(s, ApplyDone(s, i, applied).value, EApplyDone(i, applied), i)
  {
  }

  lemma ScanProgresses(s: State, e: Event)
    requires Step(s, e).Some? && (e.EScanDone? || e.EChildrenDone? || e.EScanFailed?)
    ensures Progressed(s, Step(s, e).value, e, e.op)
  {
  }

  /** A save behind its write goes through the stages as long as the rule is its own. */
  lemma StagesExactly(s: State, e: Event)
    requires Continues(e).Some? && Step(s, e).Some? && e.op < |s.ops| && s.ops[e.op].Upsert?
    requires HasWritten(s.ops[e.op].at)
    ensures Progressed(s, Step(s, e).value, e, e.op)
  {
    if e.ESaveDone? {
      SavedProgresses(s, e.op);
    } else if e.ESaveFailed? {
      UnsavedProgresses(s, e.op);
    } else if e.EApplyDone? {
      AppliedProgresses(s, e.op, e.applied);
    } else if e.EScanDone? || e.EChildrenDone? || e.EScanFailed? {
      ScanProgresses(s, e);
    }
  }
}

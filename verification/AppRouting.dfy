/** The application routing controller: edits, applies, and the pause and resume of System Default mode. Every stretch
    between two awaits is one step. The configuration hash is taken to be injective, so the model keeps what is
    hashed. */
module AppRouting {
  import opened Common

  datatype Policy = Block | Fallback

  /** The part of a rule that the provider sees. */
  datatype AppRule = AppRule(id: string, app: string, interfaceId: string, enabled: bool, failurePolicy: Policy)

  /** What the hash covers: the master flag and the rules, sorted by id before hashing. */
  datatype Fingerprint = Fingerprint(masterEnabled: bool, rules: multiset<AppRule>)

  datatype Proxy = Stopped | Running | Reconnecting

  datatype Status = Status(proxy: Proxy, engineReady: bool, appliedHash: Option<Fingerprint>)

  datatype Origin = FromPause | FromResume | FromApply

  /** A request to stop, start or restart the proxy. */
  datatype Command = Command(origin: Origin, masterEnabled: bool, rules: seq<AppRule>, hash: Fingerprint)

  datatype Configuration = Configuration(masterEnabled: bool, rules: seq<AppRule>)

  datatype State = State(
    rules: seq<AppRule>,
    masterEnabled: bool,
    globalEnabled: bool,
    resumeAfterPause: bool,
    hashBeforePause: Option<Fingerprint>,
    pendingBeforePause: bool,
    status: Status,
    saved: Configuration,
    pausing: nat,      // pauses, resumes and applies waiting for the platform
    resuming: nat,
    applying: nat,
    reporting: nat)    // applies waiting for diagnostics

  function HashOf(masterEnabled: bool, rules: seq<AppRule>): Fingerprint
  {
    Fingerprint(masterEnabled, multiset(rules))
  }

  function Hash(s: State): Fingerprint
  {
    HashOf(s.masterEnabled, s.rules)
  }

  function HasPendingChanges(s: State): bool
  {
    if s.globalEnabled then s.status.appliedHash != Some(Hash(s))
    else s.pendingBeforePause || s.hashBeforePause != Some(Hash(s))
  }

  /******* Edits *******/

  function IndexOf(rules: seq<AppRule>, id: string): (i: nat)
    ensures i <= |rules|
    ensures i < |rules| ==> rules[i].id == id
  {
    if rules == [] || rules[0].id == id then 0 else 1 + IndexOf(rules[1..], id)
  }

  function Persist(s: State): State
  {
    s.(saved := Configuration(s.masterEnabled, s.rules))
  }

  function Upsert(s: State, isNew: bool, rule: AppRule): State
  {
    var i := if isNew then |s.rules| else IndexOf(s.rules, rule.id);
    Persist(s.(rules := if i < |s.rules| then s.rules[i := rule] else s.rules + [rule]))
  }

  function Update(s: State, rule: AppRule): State
  {
    var i := IndexOf(s.rules, rule.id);
    if i == |s.rules| then s else Persist(s.(rules := s.rules[i := rule]))
  }

  function SetRuleEnabled(s: State, id: string, enabled: bool): State
  {
    var i := IndexOf(s.rules, id);
    if i == |s.rules| then s else Persist(s.(rules := s.rules[i := s.rules[i].(enabled := enabled)]))
  }

  function Without(rules: seq<AppRule>, id: string): seq<AppRule>
  {
    if rules == [] then [] else (if rules[0].id == id then [] else [rules[0]]) + Without(rules[1..], id)
  }

  /******* Pause and resume *******/

  predicate IsActive(proxy: Proxy)
  {
    proxy == Running || proxy == Reconnecting
  }

  /** The bookkeeping of a pause; the proxy is stopped only if there is something to stop. */
  function BeginPause(s: State): (r: (State, Option<Command>))
  {
    if !s.globalEnabled then (s, None) else
      var t := s.(pendingBeforePause := HasPendingChanges(s),
                  hashBeforePause := Some(Hash(s)),
                  resumeAfterPause :=
                    s.masterEnabled && (IsActive(s.status.proxy) || s.status.appliedHash == Some(Hash(s))),
                  globalEnabled := false);
      if s.status.engineReady || IsActive(s.status.proxy)
      then (t.(pausing := t.pausing + 1), Some(Command(FromPause, false, s.rules, HashOf(false, s.rules))))
      else (t, None)
  }

  /** The platform answered, or threw. A proxy that is still active is an error too. */
  function EndPause(s: State, answer: Option<Status>): State
    requires s.pausing > 0
  {
    var t := s.(pausing := s.pausing - 1, status := if answer.Some? then answer.value else s.status);
    if answer.None? || IsActive(answer.value.proxy) then t.(globalEnabled := true) else t
  }

  function Cleared(s: State): State
  {
    s.(resumeAfterPause := false, hashBeforePause := None, pendingBeforePause := false)
  }

  function CanResume(s: State): bool
  {
    s.resumeAfterPause && !s.pendingBeforePause && s.hashBeforePause == Some(Hash(s))
  }

  function BeginResume(s: State): (r: (State, Option<Command>))
  {
    if s.globalEnabled then (s, None)
    else if CanResume(s)
    then (s.(globalEnabled := true, resuming := s.resuming + 1),
          Some(Command(FromResume, s.masterEnabled, s.rules, Hash(s))))
    else (Cleared(s.(globalEnabled := true)), None)
  }

  function EndResume(s: State, answer: Option<Status>): State
    requires s.resuming > 0
  {
    var t := s.(resuming := s.resuming - 1);
    if answer.None? then t.(globalEnabled := false) else Cleared(t.(status := answer.value))
  }

  /******* Apply *******/

  /** `valid` is the outcome of the checks on rules and interfaces. */
  function BeginApply(s: State, valid: bool): (r: (State, Option<Command>))
  {
    if !s.globalEnabled || !valid then (s, None)
    else (s.(applying := s.applying + 1), Some(Command(FromApply, s.masterEnabled, s.rules, Hash(s))))
  }

  function EndApply(s: State, answer: Option<Status>): State
    requires s.applying > 0
  {
    var t := s.(applying := s.applying - 1);
    if answer.None? then t else t.(status := answer.value, reporting := s.reporting + 1)
  }

  function EndReport(s: State, ok: bool): State
    requires s.reporting > 0
  {
    var t := s.(reporting := s.reporting - 1);
    if ok then Persist(t) else t
  }

  /******* Runs *******/

  datatype Event =
    | EUpsert(isNew: bool, rule: AppRule)
    | EUpdate(rule: AppRule)
    | ESetRule(id: string, enabled: bool)
    | EDelete(id: string)
    | ESetMaster(enabled: bool)
    | EPause
    | EPauseEnds(answer: Option<Status>)
    | EResume
    | EResumeEnds(answer: Option<Status>)
    | EApply(valid: bool)
    | EApplyEnds(answer: Option<Status>)
    | EReportEnds(ok: bool)
    | EStatus(status: Status)   // a refresh, an event of the platform, or an installed extension

  predicate Possible(s: State, e: Event)
  {
    (e.EPauseEnds? ==> s.pausing > 0) && (e.EResumeEnds? ==> s.resuming > 0)
    && (e.EApplyEnds? ==> s.applying > 0) && (e.EReportEnds? ==> s.reporting > 0)
  }

  function Next(s: State, e: Event): State
    requires Possible(s, e)
  {
    match e
    case EUpsert(isNew, rule) => Upsert(s, isNew, rule)
    case EUpdate(rule) => Update(s, rule)
    case ESetRule(id, enabled) => SetRuleEnabled(s, id, enabled)
    case EDelete(id) => Persist(s.(rules := Without(s.rules, id)))
    case ESetMaster(enabled) => Persist(s.(masterEnabled := enabled))
    case EPause => BeginPause(s).0
    case EPauseEnds(answer) => EndPause(s, answer)
    case EResume => BeginResume(s).0
    case EResumeEnds(answer) => EndResume(s, answer)
    case EApply(valid) => BeginApply(s, valid).0
    case EApplyEnds(answer) => EndApply(s, answer)
    case EReportEnds(ok) => EndReport(s, ok)
    case EStatus(status) => s.(status := status)
  }

  function Started(stored: Configuration, status: Status): State
  {
    State(stored.rules, stored.masterEnabled, true, false, None, false, status, stored, 0, 0, 0, 0)
  }

  function Run(s: State, events: seq<Event>): Option<State>
  {
    if events == [] then Some(s) else
      var before := Run(s, events[..|events| - 1]);
      var e := events[|events| - 1];
      if before.None? || !Possible(before.value, e) then None else Some(Next(before.value, e))
  }

  /** The state in which the last pause of the run began. */
  function LastPause(s: State, events: seq<Event>): Option<State>
    requires Run(s, events).Some?
  {
    if events == [] then None else
      var front := events[..|events| - 1];
      var before := Run(s, front).value;
      if events[|events| - 1].EPause? && before.globalEnabled then Some(before) else LastPause(s, front)
  }

  /******* What a resume starts *******/

  /** Bookkeeping that allows a resume is that of the last pause, which found its configuration applied. */
  ghost predicate Recorded(s: State, pause: Option<State>)
  {
    s.resumeAfterPause && !s.pendingBeforePause ==>
      && pause.Some? && pause.value.masterEnabled
      && s.hashBeforePause == pause.value.status.appliedHash == Some(Hash(pause.value))
  }

  /** Only pauses and resumes touch the bookkeeping. */
  lemma OthersKeepBookkeeping(s: State, e: Event)
    requires Possible(s, e) && !e.EPause? && !e.EResume? && !e.EResumeEnds?
    ensures var t := Next(s, e);
            && t.resumeAfterPause == s.resumeAfterPause && t.pendingBeforePause == s.pendingBeforePause
            && t.hashBeforePause == s.hashBeforePause
  {
  }

  lemma StepRecorded(s: State, e: Event, pause: Option<State>)
    requires Recorded(s, pause) && Possible(s, e)
    ensures Recorded(Next(s, e), if e.EPause? && s.globalEnabled then Some(s) else pause)
  {
    if !e.EPause? && !e.EResume? && !e.EResumeEnds? {
      OthersKeepBookkeeping(s, e);
    }
  }

  lemma {:induction false} BookkeepingIsOfLastPause(stored: Configuration, status: Status, events: seq<Event>)
    requires Run(Started(stored, status), events).Some?
    ensures Recorded(Run(Started(stored, status), events).value, LastPause(Started(stored, status), events))
  {
    if events != [] {
      var front, start := events[..|events| - 1], Started(stored, status);
      BookkeepingIsOfLastPause(stored, status, front);
      StepRecorded(Run(start, front).value, events[|events| - 1], LastPause(start, front));
    }
  }

  /** However edits, applies, pauses, resumes, failures and status reports interleave: what a resume starts is the
      configuration that was the applied one when the last pause began, with the master flag on. */
  lemma ResumeStartsAppliedConfiguration(stored: Configuration, status: Status, events: seq<Event>)
    requires Run(Started(stored, status), events).Some?
    requires BeginResume(Run(Started(stored, status), events).value).1.Some?
    ensures var command := BeginResume(Run(Started(stored, status), events).value).1.value;
            var pause := LastPause(Started(stored, status), events);
            && pause.Some? && pause.value.status.appliedHash == Some(command.hash)
            && command.hash == HashOf(command.masterEnabled, command.rules)
            && command.masterEnabled && multiset(command.rules) == multiset(pause.value.rules)
  {
    BookkeepingIsOfLastPause(stored, status, events);
  }

  /** Neither pausing nor resuming changes the rules, the master flag or what is stored. */
  lemma PauseAndResumeKeepConfiguration(s: State, e: Event)
    requires Possible(s, e) && (e.EPause? || e.EPauseEnds? || e.EResume? || e.EResumeEnds?)
    ensures var t := Next(s, e); t.rules == s.rules && t.masterEnabled == s.masterEnabled && t.saved == s.saved
  {
  }

  /******* One pause, seen from its end *******/

  /** Events that may happen while routing is paused and no request is under way. */
  predicate WhilePaused(e: Event)
  {
    e.EUpsert? || e.EUpdate? || e.ESetRule? || e.EDelete? || e.ESetMaster? || e.EStatus? || e.EPause? || e.EApply?
  }

  /** Paused with the bookkeeping of `pause`. */
  predicate PausedFrom(s: State, pause: State)
  {
    && !s.globalEnabled && s.pausing == 0 && s.resuming == 0 && s.applying == 0 && s.reporting == 0
    && s.hashBeforePause == Some(Hash(pause)) && s.pendingBeforePause == (pause.status.appliedHash != Some(Hash(pause)))
    && s.resumeAfterPause == (pause.masterEnabled
                              && (IsActive(pause.status.proxy) || pause.status.appliedHash == Some(Hash(pause))))
  }

  lemma StepStaysPaused(s: State, e: Event, pause: State)
    requires PausedFrom(s, pause) && Possible(s, e) && WhilePaused(e)
    ensures PausedFrom(Next(s, e), pause)
  {
    if !e.EPause? {
      OthersKeepBookkeeping(s, e);
    }
  }

  lemma {:induction false} StaysPaused(s: State, pause: State, events: seq<Event>)
    requires PausedFrom(s, pause) && Run(s, events).Some? && forall e | e in events :: WhilePaused(e)
    ensures PausedFrom(Run(s, events).value, pause)
  {
    if events != [] {
      var front := events[..|events| - 1];
      assert forall e | e in front :: e in events;
      StaysPaused(s, pause, front);
      StepStaysPaused(Run(s, front).value, events[|events| - 1], pause);
    }
  }

  /** After a pause that went through and any edits and status reports, resuming starts the proxy exactly when the
      master flag was on and nothing was pending at the pause, and the configuration is the same again. */
  lemma ResumeStartsExactly(pause: State, answer: Option<Status>, events: seq<Event>)
    requires pause.globalEnabled && pause.pausing == pause.resuming == pause.applying == pause.reporting == 0
    requires var begun := BeginPause(pause);
             begun.1.Some? ==> answer.Some? && !IsActive(answer.value.proxy)
    requires var paused := if BeginPause(pause).1.Some? then EndPause(BeginPause(pause).0, answer)
                           else BeginPause(pause).0;
             Run(paused, events).Some? && forall e | e in events :: WhilePaused(e)
    ensures var paused := if BeginPause(pause).1.Some? then EndPause(BeginPause(pause).0, answer)
                           else BeginPause(pause).0;
            var end := Run(paused, events).value;
            && (BeginResume(end).1.Some? <==>
                  pause.masterEnabled && !HasPendingChanges(pause) && Hash(end) == Hash(pause))
            && HasPendingChanges(end) == (HasPendingChanges(pause) || Hash(end) != Hash(pause))
  {
    var paused := if BeginPause(pause).1.Some? then EndPause(BeginPause(pause).0, answer) else BeginPause(pause).0;
    StaysPaused(paused, pause, events);
  }

  /******* Edits and what is stored *******/

  ghost predicate FirstAt(rules: seq<AppRule>, k: nat, id: string)
    requires k < |rules|
  {
    rules[k].id == id && forall j | 0 <= j < k :: rules[j].id != id
  }

  predicate HasRule(rules: seq<AppRule>, id: string)
  {
    exists rule :: rule in rules && rule.id == id
  }

  /** The first rule of this id is now `rule`; the rest of the list is as it was. */
  ghost predicate PutInPlace(was: seq<AppRule>, now: seq<AppRule>, rule: AppRule)
  {
    exists k | 0 <= k < |was| :: FirstAt(was, k, rule.id) && now == was[k := rule]
  }

  lemma {:induction false} FirstIndex(rules: seq<AppRule>, id: string)
    ensures var i := IndexOf(rules, id);
            if i < |rules| then FirstAt(rules, i, id) && HasRule(rules, id) else !HasRule(rules, id)
  {
    if rules != [] && rules[0].id != id {
      FirstIndex(rules[1..], id);
      assert forall r :: r in rules <==> r == rules[0] || r in rules[1..];
      assert forall j | 1 <= j < |rules| :: rules[j] == rules[1..][j - 1];
    } else if rules != [] {
      assert rules[0] in rules;
    }
  }

  lemma {:induction false} WithoutExactly(rules: seq<AppRule>, id: string, rule: AppRule)
    ensures multiset(Without(rules, id))[rule] == if rule.id == id then 0 else multiset(rules)[rule]
  {
    if rules != [] {
      WithoutExactly(rules[1..], id, rule);
      assert rules == [rules[0]] + rules[1..];
    }
  }

  /** What an event does to the rules: an edit changes its rule, in its place, and nothing else; one of a rule that is
      not there does nothing, except that a save adds the rule at the end. */
  ghost predicate IsEdit(s: State, e: Event, t: State)
  {
    match e
    case EUpsert(isNew, rule) =>
      if !isNew && HasRule(s.rules, rule.id) then PutInPlace(s.rules, t.rules, rule) else t.rules == s.rules + [rule]
    case EUpdate(rule) => if HasRule(s.rules, rule.id) then PutInPlace(s.rules, t.rules, rule) else t == s
    case ESetRule(id, enabled) =>
      if HasRule(s.rules, id)
      then exists k | 0 <= k < |s.rules| ::
             FirstAt(s.rules, k, id) && t.rules == s.rules[k := s.rules[k].(enabled := enabled)]
      else t == s
    case EDelete(id) => forall r :: multiset(t.rules)[r] == if r.id == id then 0 else multiset(s.rules)[r]
    case _ => t.rules == s.rules
  }

  lemma SavesEdit(s: State, isNew: bool, rule: AppRule)
    ensures IsEdit(s, EUpsert(isNew, rule), Upsert(s, isNew, rule))
    ensures IsEdit(s, EUpdate(rule), Update(s, rule))
  {
    FirstIndex(s.rules, rule.id);
  }

  lemma SwitchEdits(s: State, id: string, enabled: bool)
    ensures IsEdit(s, ESetRule(id, enabled), SetRuleEnabled(s, id, enabled))
  {
    FirstIndex(s.rules, id);
  }

  lemma DeletionEdits(s: State, id: string)
    ensures IsEdit(s, EDelete(id), Next(s, EDelete(id)))
  {
    forall r ensures multiset(Without(s.rules, id))[r] == if r.id == id then 0 else multiset(s.rules)[r] {
      WithoutExactly(s.rules, id, r);
    }
  }

  lemma OthersEditNothing(s: State, e: Event)
    requires Possible(s, e) && !e.EUpsert? && !e.EUpdate? && !e.ESetRule? && !e.EDelete?
    ensures Next(s, e).rules == s.rules
  {
  }

  /** Every event does to the rules what it is for; only the master switch sets the master flag. */
  lemma EditsExactly(s: State, e: Event)
    requires Possible(s, e)
    ensures IsEdit(s, e, Next(s, e))
    ensures Next(s, e).masterEnabled == if e.ESetMaster? then e.enabled else s.masterEnabled
  {
    match e {
      case EUpsert(isNew, rule) => SavesEdit(s, isNew, rule);
      case EUpdate(rule) => SavesEdit(s, false, rule);
      case ESetRule(id, enabled) => SwitchEdits(s, id, enabled);
      case EDelete(id) => DeletionEdits(s, id);
      case _ => OthersEditNothing(s, e);
    }
  }

  predicate IsStored(s: State)
  {
    s.saved == Configuration(s.masterEnabled, s.rules)
  }

  lemma StepStored(s: State, e: Event)
    requires IsStored(s) && Possible(s, e)
    ensures IsStored(Next(s, e))
  {
  }

  /** What is stored is what is shown, after every run. */
  lemma {:induction false} StoredIsCurrent(stored: Configuration, status: Status, events: seq<Event>)
    requires Run(Started(stored, status), events).Some?
    ensures IsStored(Run(Started(stored, status), events).value)
  {
    if events != [] {
      var front := events[..|events| - 1];
      StoredIsCurrent(stored, status, front);
      StepStored(Run(Started(stored, status), front).value, events[|events| - 1]);
    }
  }

  /******* What is sent *******/

  /** The request of an event, if it makes one. */
  function Sent(s: State, e: Event): Option<Command>
  {
    match e
    case EPause => BeginPause(s).1
    case EResume => BeginResume(s).1
    case EApply(valid) => BeginApply(s, valid).1
    case _ => None
  }

  /** A request carries the rules as they are and a hash of what it carries. A pause sends them with the flag off, and
      only to something that can stop; an apply and a resume send the flag as it is. */
  lemma SendsExactly(s: State, e: Event)
    requires Possible(s, e)
    ensures var sent := Sent(s, e);
            && (sent.Some? ==>
                  && sent.value.rules == s.rules
                  && sent.value.hash == HashOf(sent.value.masterEnabled, s.rules)
                  && sent.value.masterEnabled == (s.masterEnabled && !e.EPause?)
                  && Next(s, e).pausing + Next(s, e).resuming + Next(s, e).applying
                     == s.pausing + s.resuming + s.applying + 1)
            && (e.EApply? ==> (sent.Some? <==> s.globalEnabled && e.valid))
            && (e.EPause? ==> (sent.Some? <==> s.globalEnabled && (s.status.engineReady || s.status.proxy != Stopped)))
            && (e.EResume? && sent.Some? ==> !s.globalEnabled && s.masterEnabled == sent.value.masterEnabled)
  {
  }

  /** An apply in progress. */
  predicate IsApplied(s: State, answer: Status, command: Command)
  {
    s.applying > 0 && answer.appliedHash == Some(command.hash)
  }

  /** Whatever is edited, reported, paused or resumed while an apply is under way: when the platform has applied it and
      routing is on, changes are pending exactly if the master flag or the rules are no longer those sent. */
  lemma AppliedIsNotPending(s: State, valid: bool, events: seq<Event>, answer: Status)
    requires Sent(s, EApply(valid)).Some? && Run(Next(s, EApply(valid)), events).Some?
    requires IsApplied(Run(Next(s, EApply(valid)), events).value, answer, Sent(s, EApply(valid)).value)
    ensures var before := Run(Next(s, EApply(valid)), events).value;
            var t := Next(before, EApplyEnds(Some(answer)));
            t.status == answer && t.globalEnabled == before.globalEnabled
            && (t.globalEnabled ==>
                  (HasPendingChanges(t) <==>
                     t.masterEnabled != s.masterEnabled || multiset(t.rules) != multiset(s.rules)))
  {
  }

  /** A request that fails is taken back: a pause leaves routing on, a resume leaves it paused and can be tried again
      with the same request, an apply changes nothing. A resume that went through forgets the pause. */
  lemma FailuresAreTakenBack(s: State, e: Event)
    requires Possible(s, e)
    ensures var t := Next(s, e);
            && (e.EPauseEnds? ==> (t.globalEnabled <==>
                                     s.globalEnabled || e.answer.None? || e.answer.value.proxy != Stopped))
            && (e.EResumeEnds? && e.answer.None? ==>
                  t == s.(globalEnabled := false, resuming := s.resuming - 1)
                  && (CanResume(s) ==>
                        Sent(t, EResume) == Some(Command(FromResume, s.masterEnabled, s.rules, Hash(s)))))
            && (e.EResumeEnds? && e.answer.Some? ==>
                  t.status == e.answer.value && t.globalEnabled == s.globalEnabled && !CanResume(t))
            && (e.EApplyEnds? && e.answer.None? ==> t == s.(applying := s.applying - 1))
            && ((e.EPauseEnds? || e.EApplyEnds?) && e.answer.Some? ==> t.status == e.answer.value)
  {
  }

  /******* The controller object *******/

  lemma {:induction false} WithoutSnoc(rules: seq<AppRule>, rule: AppRule, id: string)
    ensures Without(rules + [rule], id) == Without(rules, id) + (if rule.id == id then [] else [rule])
  {
    if rules != [] {
      assert (rules + [rule])[1..] == rules[1..] + [rule];
      WithoutSnoc(rules[1..], rule, id);
    }
  }

  method Remaining(rules: seq<AppRule>, id: string) returns (kept: seq<AppRule>)
    ensures kept == Without(rules, id)
  {
    kept := [];
    for i := 0 to |rules|
      invariant kept == Without(rules[..i], id)
    {
      assert rules[..i + 1] == rules[..i] + [rules[i]];
      WithoutSnoc(rules[..i], rules[i], id);
      if rules[i].id != id {
        kept := kept + [rules[i]];
      }
    }
    assert rules[..|rules|] == rules;
  }

  lemma {:induction false} RunPrefix(s: State, events: seq<Event>, i: nat)
    requires Run(s, events).Some? && i <= |events|
    ensures Run(s, events[..i]).Some?
  {
    if i < |events| {
      var prefix := events[..|events| - 1];
      RunPrefix(s, prefix, i);
      assert prefix[..i] == events[..i];
    } else {
      assert events[..i] == events;
    }
  }

  class AppRoutingController {
    var rules: seq<AppRule>
    var masterEnabled: bool
    var globalEnabled: bool
    var resumeAfterPause: bool
    var hashBeforePause: Option<Fingerprint>
    var pendingBeforePause: bool
    var status: Status
    var saved: Configuration
    var pausing: nat
    var resuming: nat
    var applying: nat
    var reporting: nat

    function Now(): State
      reads this
    {
      State(rules, masterEnabled, globalEnabled, resumeAfterPause, hashBeforePause, pendingBeforePause, status, saved,
            pausing, resuming, applying, reporting)
    }

    constructor (stored: Configuration, status: Status)
      ensures Now() == Started(stored, status)
    {
      rules, masterEnabled, globalEnabled := stored.rules, stored.masterEnabled, true;
      resumeAfterPause, hashBeforePause, pendingBeforePause := false, None, false;
      this.status, saved := status, stored;
      pausing, resuming, applying, reporting := 0, 0, 0, 0;
    }

    method Save()
      modifies this
      ensures Now() == Persist(old(Now()))
    {
      saved := Configuration(masterEnabled, rules);
    }

    method UpsertRule(isNew: bool, rule: AppRule)
      modifies this
      ensures Now() == Upsert(old(Now()), isNew, rule)
    {
      var index := |rules|;
      if !isNew {
        index := IndexOf(rules, rule.id);
      }
      if index < |rules| {
        rules := rules[index := rule];
      } else {
        rules := rules + [rule];
      }
      Save();
    }

    method UpdateRule(rule: AppRule)
      modifies this
      ensures Now() == Update(old(Now()), rule)
    {
      var index := IndexOf(rules, rule.id);
      if index < |rules| {
        rules := rules[index := rule];
        Save();
      }
    }

    method ToggleRule(id: string, enabled: bool)
      modifies this
      ensures Now() == SetRuleEnabled(old(Now()), id, enabled)
    {
      var index := IndexOf(rules, id);
      if index < |rules| {
        rules := rules[index := rules[index].(enabled := enabled)];
        Save();
      }
    }

    method DeleteRule(id: string)
      modifies this
      ensures Now() == Next(old(Now()), EDelete(id))
    {
      var kept := Remaining(rules, id);
      rules := kept;
      Save();
    }

    method SetMaster(enabled: bool)
      modifies this
      ensures Now() == Next(old(Now()), ESetMaster(enabled))
    {
      masterEnabled := enabled;
      Save();
    }

    method Pause() returns (command: Option<Command>)
      modifies this
      ensures (Now(), command) == BeginPause(old(Now()))
    {
      command := None;
      if !globalEnabled {
        return;
      }
      var hash := HashOf(masterEnabled, rules);
      pendingBeforePause := HasPendingChanges(Now());
      hashBeforePause := Some(hash);
      resumeAfterPause := masterEnabled && (IsActive(status.proxy) || status.appliedHash == Some(hash));
      globalEnabled := false;
      if status.engineReady || IsActive(status.proxy) {
        pausing := pausing + 1;
        command := Some(Command(FromPause, false, rules, HashOf(false, rules)));
      }
    }

    method PauseAnswered(answer: Option<Status>)
      requires pausing > 0
      modifies this
      ensures Now() == EndPause(old(Now()), answer)
    {
      pausing := pausing - 1;
      if answer.None? {
        globalEnabled := true;
        return;
      }
      status := answer.value;
      if IsActive(status.proxy) {
        globalEnabled := true;
      }
    }

    method ClearBookkeeping()
      modifies this
      ensures Now() == Cleared(old(Now()))
    {
      resumeAfterPause, hashBeforePause, pendingBeforePause := false, None, false;
    }

    method Resume() returns (command: Option<Command>)
      modifies this
      ensures (Now(), command) == BeginResume(old(Now()))
    {
      command := None;
      if globalEnabled {
        return;
      }
      globalEnabled := true;
      var hash := HashOf(masterEnabled, rules);
      if resumeAfterPause && !pendingBeforePause && hashBeforePause == Some(hash) {
        resuming := resuming + 1;
        command := Some(Command(FromResume, masterEnabled, rules, hash));
      } else {
        ClearBookkeeping();
      }
    }

    method ResumeAnswered(answer: Option<Status>)
      requires resuming > 0
      modifies this
      ensures Now() == EndResume(old(Now()), answer)
    {
      resuming := resuming - 1;
      if answer.None? {
        globalEnabled := false;
      } else {
        status := answer.value;
        ClearBookkeeping();
      }
    }

    method Apply(valid: bool) returns (command: Option<Command>)
      modifies this
      ensures (Now(), command) == BeginApply(old(Now()), valid)
    {
      command := None;
      if globalEnabled && valid {
        applying := applying + 1;
        command := Some(Command(FromApply, masterEnabled, rules, HashOf(masterEnabled, rules)));
      }
    }

    method ApplyAnswered(answer: Option<Status>)
      requires applying > 0
      modifies this
      ensures Now() == EndApply(old(Now()), answer)
    {
      applying := applying - 1;
      if answer.Some? {
        status := answer.value;
        reporting := reporting + 1;
      }
    }

    method ReportAnswered(ok: bool)
      requires reporting > 0
      modifies this
      ensures Now() == EndReport(old(Now()), ok)
    {
      reporting := reporting - 1;
      if ok {
        Save();
      }
    }

    method Edit(e: Event)
      requires e.EUpsert? || e.EUpdate? || e.ESetRule? || e.EDelete? || e.ESetMaster?
      modifies this
      ensures Now() == Next(old(Now()), e)
    {
      match e {
        case EUpsert(isNew, rule) => UpsertRule(isNew, rule);
        case EUpdate(rule) => UpdateRule(rule);
        case ESetRule(id, enabled) => ToggleRule(id, enabled);
        case EDelete(id) => DeleteRule(id);
        case ESetMaster(enabled) => SetMaster(enabled);
      }
    }

    /** Whatever happens next, the object goes where the state machine goes. */
    method Perform(e: Event)
      requires Possible(Now(), e)
      modifies this
      ensures Now() == Next(old(Now()), e)
    {
      match e {
        case EPause => var _ := Pause();
        case EPauseEnds(answer) => PauseAnswered(answer);
        case EResume => var _ := Resume();
        case EResumeEnds(answer) => ResumeAnswered(answer);
        case EApply(valid) => var _ := Apply(valid);
        case EApplyEnds(answer) => ApplyAnswered(answer);
        case EReportEnds(ok) => ReportAnswered(ok);
        case EStatus(reported) => status := reported;
        case _ => Edit(e);
      }
    }

    /** The object after any run of events is the state that the theorems speak of. */
    method PerformAll(events: seq<Event>)
      requires Run(Now(), events).Some?
      modifies this
      ensures Some(Now()) == Run(old(Now()), events)
    {
      for i := 0 to |events|
        invariant Some(Now()) == Run(old(Now()), events[..i])
      {
        RunPrefix(old(Now()), events, i + 1);
        assert events[..i + 1][..i] == events[..i];
        Perform(events[i]);
      }
      assert events[..|events|] == events;
    }
  }
}

/** The controller as a state machine. Its asynchronous operations share the rules, the token map and one chain of
    applies; every stretch of code between two awaits is one step, and the steps of different operations interleave
    freely. Statuses, messages and time stamps are not part of the state. */
module Controller {
  import opened Common
  import opened Planner
  import opened Destination
  import opened HostMappings

  datatype RoutingMode = Custom | SystemDefault

  datatype Interface = Interface(id: string, nativeId: string, interfaceName: string, gateway: Option<string>)

  /** What the editor asks for, after parsing and validation. */
  datatype Draft = Draft(
    kind: DestinationKind,
    destination: string,
    interfaceId: string,
    enabled: bool,
    pin: Option<string>,
    manage: bool)

  /** Where a save waits. */
  datatype SavePoint =
    | Excluding                       // for the host request that leaves its own mapping out
    | Resolving(refreshing: bool)     // for DNS
    | Restoring(ips: seq<string>)     // for the host request after DNS
    | SavingParent(scans: bool)
    | ApplyingParent(scans: bool)
    | SavingStatus                    // the parent was not applied
    | Scanning
    | ResolvingChildren
    | SavingChildren(caught: bool)

  /** An operation and where it waits. `Finished` also stands for waiting for an apply with nothing left to do. */
  datatype Op =
    | Upsert(id: string, isNew: bool, initial: Option<Rule>, draft: Draft, at: SavePoint)
    | Saving
    | SavingMode(mode: RoutingMode)
    | Importing
    | SavingImport(next: seq<Rule>)
    | Refreshing(snapshot: seq<Rule>)
    | Listing
    | Listed
    | Installing
    | Finished

  /** Where the running apply waits. */
  datatype Phase =
    | Idle
    | AwaitHelper
    | AwaitHosts
    | AwaitRoutes
    | AwaitSave
    | CleanupHosts
    | CleanupRoutes

  datatype State = State(
    rules: seq<Rule>,
    mode: RoutingMode,
    interfaces: seq<Interface>,
    helperEnabled: bool,
    hostsSupported: bool,
    tokens: map<string, nat>,            // the save operation that owns a rule id: an index of `ops`
    used: set<string>,                   // ids handed out so far
    ops: seq<Op>,
    pending: nat,                        // applies waiting in the chain
    phase: Phase,
    hosts: Option<map<string, string>>,  // the last host request
    routes: Option<seq<Route>>,          // the last route request
    saved: seq<Rule>)                    // the last rules sent to the repository

  /******* Reading the state *******/

  function Find(rules: seq<Rule>, id: string): Option<Rule>
  {
    if rules == [] then None
    else if rules[0].id == id then Some(rules[0])
    else Find(rules[1..], id)
  }

  predicate Present(rules: seq<Rule>, id: string)
  {
    Find(rules, id).Some?
  }

  /** The rules with the first one of this id replaced; appended when there is none. */
  function Replace(rules: seq<Rule>, rule: Rule): seq<Rule>
  {
    if rules == [] then [rule]
    else if rules[0].id == rule.id then [rule] + rules[1..]
    else [rules[0]] + Replace(rules[1..], rule)
  }

  function Without(rules: seq<Rule>, id: string): seq<Rule>
  {
    if rules == [] then []
    else if rules[0].id == id then Without(rules[1..], id)
    else [rules[0]] + Without(rules[1..], id)
  }

  function Ids(rules: seq<Rule>): set<string>
  {
    set r | r in rules :: r.id
  }

  predicate IsCurrent(s: State, i: nat)
    requires i < |s.ops|
  {
    s.ops[i].Upsert? && s.ops[i].id in s.tokens && s.tokens[s.ops[i].id] == i
  }

  /** `currentRule() != null` of save `i`. */
  predicate IsLive(s: State, i: nat)
    requires i < |s.ops|
  {
    IsCurrent(s, i) && Present(s.rules, s.ops[i].id)
  }

  function GatewayIn(interfaces: seq<Interface>, interfaceId: string): string
  {
    if interfaces == [] then ""
    else if interfaces[0].nativeId == interfaceId || interfaces[0].interfaceName == interfaceId
            || interfaces[0].id == interfaceId
    then if interfaces[0].gateway.Some? then interfaces[0].gateway.value else ""
    else GatewayIn(interfaces[1..], interfaceId)
  }

  function Gateways(interfaces: seq<Interface>): Rule -> string
  {
    (rule: Rule) => GatewayIn(interfaces, rule.interfaceId)
  }

  ghost function Asked(s: State): set<Candidate>
  {
    CandidateSet(s.rules, Gateways(s.interfaces))
  }

  function DesiredHosts(s: State, excluding: Option<string>): Option<map<string, string>>
  {
    if s.mode == SystemDefault then Some(map[]) else Collected(s.rules, excluding)
  }

  /** `_reconcileManagedHostMappings` throws instead of sending a request. */
  predicate HostsThrow(s: State, excluding: Option<string>)
  {
    var desired := DesiredHosts(s, excluding);
    desired.None? || (desired.value != map[] && (!s.hostsSupported || !s.helperEnabled))
  }

  /** The state after the request, if one is sent. */
  function SendHosts(s: State, excluding: Option<string>): State
  {
    if HostsThrow(s, excluding) || !s.hostsSupported then s else s.(hosts := DesiredHosts(s, excluding))
  }

  /******* Saving a rule *******/

  function Set(s: State, i: nat, op: Op): State
    requires i < |s.ops|
  {
    s.(ops := s.ops[i := op])
  }

  function Move(s: State, i: nat, at: SavePoint): State
    requires i < |s.ops| && s.ops[i].Upsert?
  {
    Set(s, i, s.ops[i].(at := at))
  }

  function WithRules(s: State, rules: seq<Rule>): State
  {
    s.(rules := rules, saved := rules)
  }

  predicate IsNamed(draft: Draft)
  {
    (draft.kind == Hostname || draft.kind == Url) && !IsIpv4(draft.destination)
  }

  /** A pin is accepted only for a name, where host mappings are supported. */
  predicate DraftAccepted(s: State, draft: Draft)
  {
    draft.pin.Some? ==> s.hostsSupported && IsNamed(draft) && IsIpv4(draft.pin.value)
  }

  predicate MayBegin(s: State, id: string, isNew: bool, draft: Draft)
  {
    DraftAccepted(s, draft) && (isNew ==> id !in s.used)
  }

  function RefreshesPin(s: State, initial: Option<Rule>, draft: Draft): bool
  {
    draft.manage && s.hostsSupported && initial.Some? && initial.value.hostIpv4.Some?
  }

  /** The save takes the token of its rule. */
  function Opened(s: State, id: string, isNew: bool, draft: Draft): State
  {
    s.(tokens := s.tokens[id := |s.ops|], used := s.used + {id},
       ops := s.ops + [Upsert(id, isNew, Find(s.rules, id), draft, Excluding)])
  }

  /** The first stretch of a save, up to its first await. */
  function FirstStretch(s: State, i: nat): State
    requires i < |s.ops| && s.ops[i].Upsert?
  {
    var op := s.ops[i];
    if op.draft.pin.Some? then WriteParent(s, i, [op.draft.pin.value])
    else if op.draft.kind == Hostname || op.draft.kind == Url then
      if !RefreshesPin(s, op.initial, op.draft) then Move(s, i, Resolving(false))
      else if HostsThrow(s, Some(op.id)) then GiveUp(s, i)
      else SendHosts(s, Some(op.id))
    else WriteParent(s, i, if op.draft.kind == Ipv4 then [op.draft.destination] else [])
  }

  function BeginUpsert(s: State, id: string, isNew: bool, draft: Draft): State
    requires MayBegin(s, id, isNew, draft)
  {
    FirstStretch(Opened(s, id, isNew, draft), |s.ops|)
  }

  /** Leaving the guarded stretch of a pin refresh: the host request in `finally`, then out. */
  function GiveUp(s: State, i: nat): State
    requires i < |s.ops|
  {
    Set(SendHosts(s, None), i, Finished)
  }

  function PinFor(s: State, draft: Draft, ips: seq<string>): Option<string>
  {
    if draft.pin.None? && draft.manage && s.hostsSupported && IsNamed(draft) && |ips| == 1 && IsPrivateIpv4(ips[0])
    then Some(ips[0]) else draft.pin
  }

  function EnabledFor(s: State, op: Op): bool
    requires op.Upsert?
  {
    var current := Find(s.rules, op.id);
    if op.initial.Some? && current.Some? && current.value.enabled != op.initial.value.enabled
    then current.value.enabled else op.draft.enabled
  }

  function ParentRule(s: State, op: Op, ips: seq<string>): Rule
    requires op.Upsert?
  {
    Rule(op.id, op.draft.kind, op.draft.destination, op.draft.interfaceId, EnabledFor(s, op), ips,
         PinFor(s, op.draft, ips), [])
  }

  /** The addresses are known: write the rule, unless a newer save or a deletion came first. */
  function WriteParent(s: State, i: nat, ips: seq<string>): State
    requires i < |s.ops| && s.ops[i].Upsert?
  {
    var op := s.ops[i];
    if !IsCurrent(s, i) || (op.initial.Some? && !Present(s.rules, op.id)) then Set(s, i, Finished)
    else
      var rule := ParentRule(s, op, ips);
      var rules := if op.isNew then s.rules + [rule] else Replace(s.rules, rule);
      Move(WithRules(s, rules), i, SavingParent(op.draft.kind == Url && ips != []))
  }

  function WriteChildren(s: State, i: nat, children: seq<SubRule>, caught: bool): State
    requires i < |s.ops| && s.ops[i].Upsert?
  {
    var live := Find(s.rules, s.ops[i].id);
    if !IsCurrent(s, i) || live.None? then Set(s, i, Finished)
    else Move(WithRules(s, Replace(s.rules, live.value.(subRules := children))), i, SavingChildren(caught))
  }

  function HostsDone(s: State, i: nat, ok: bool): Option<State>
  {
    if i >= |s.ops| || !s.ops[i].Upsert? then None else
      match s.ops[i].at
      case Excluding => Some(if ok && IsCurrent(s, i) then Move(s, i, Resolving(true)) else GiveUp(s, i))
      case Restoring(ips) => Some(if ok then WriteParent(s, i, ips) else Set(s, i, Finished))
      case _ => None
  }

  /** DNS answered, or failed when `ips` is None. */
  function LookupDone(s: State, i: nat, ips: Option<seq<string>>): Option<State>
  {
    if i >= |s.ops| || !s.ops[i].Upsert? || !s.ops[i].at.Resolving? then None
    else if !s.ops[i].at.refreshing then
      Some(if ips.None? then Set(s, i, Finished) else WriteParent(s, i, ips.value))
    else if ips.None? || HostsThrow(s, None) then Some(GiveUp(s, i))
    else Some(Move(SendHosts(s, None), i, Restoring(ips.value)))
  }

  /** The parent's apply is over; `applied` is its status then. */
  function ApplyDone(s: State, i: nat, applied: bool): Option<State>
  {
    if i >= |s.ops| || !s.ops[i].Upsert? || !s.ops[i].at.ApplyingParent? then None
    else if !s.ops[i].at.scans || !IsLive(s, i) then Some(Set(s, i, Finished))
    else if applied then Some(Move(s, i, Scanning))
    else Some(Move(WithRules(s, s.rules), i, SavingStatus))
  }

  function ScanDone(s: State, i: nat): Option<State>
  {
    if i >= |s.ops| || !s.ops[i].Upsert? || !s.ops[i].at.Scanning? then None
    else Some(if IsLive(s, i) then Move(s, i, ResolvingChildren) else Set(s, i, Finished))
  }

  function ChildrenDone(s: State, i: nat, children: seq<SubRule>): Option<State>
  {
    if i >= |s.ops| || !s.ops[i].Upsert? || !s.ops[i].at.ResolvingChildren? then None
    else Some(WriteChildren(s, i, children, false))
  }

  /** Scanning or resolving threw: the catch block. */
  function ScanFailed(s: State, i: nat): Option<State>
  {
    if i >= |s.ops| || !s.ops[i].Upsert? || !(s.ops[i].at.Scanning? || s.ops[i].at.ResolvingChildren?) then None
    else Some(WriteChildren(s, i, [], true))
  }

  /******* The other operations *******/

  function Begin(s: State, op: Op): State
  {
    s.(ops := s.ops + [op])
  }

  function Delete(s: State, id: string): State
  {
    Begin(WithRules(s.(tokens := s.tokens - {id}), Without(s.rules, id)), Saving)
  }

  function SetRuleEnabled(s: State, id: string, enabled: bool): State
  {
    var rule := Find(s.rules, id);
    if rule.None? then s
    else Begin(WithRules(s, Replace(s.rules, rule.value.(enabled := enabled))), Saving)
  }

  function SwitchChildren(children: seq<SubRule>, childId: string, enabled: bool): seq<SubRule>
  {
    seq(|children|, k requires 0 <= k < |children| =>
      if children[k].id == childId then children[k].(enabled := enabled) else children[k])
  }

  function SetSubRuleEnabled(s: State, id: string, childId: string, enabled: bool): State
  {
    var rule := Find(s.rules, id);
    if rule.None? then s
    else
      var children := SwitchChildren(rule.value.subRules, childId, enabled);
      Begin(WithRules(s, Replace(s.rules, rule.value.(subRules := children))), Saving)
  }

  predicate Duplicates(rules: seq<Rule>, rule: Rule)
  {
    exists r :: r in rules && r.destination == rule.destination && r.interfaceId == rule.interfaceId
  }

  /** The check after the lookups: drop what has been added in the meantime. */
  function NotDuplicated(rules: seq<Rule>, additions: seq<Rule>): seq<Rule>
  {
    if additions == [] then []
    else (if Duplicates(rules, additions[0]) then [] else [additions[0]]) + NotDuplicated(rules, additions[1..])
  }

  /** The lookups of an import are over. `next` is fixed here but assigned only after the save. */
  function ImportReady(s: State, i: nat, additions: seq<Rule>): Option<State>
  {
    if i >= |s.ops| || !s.ops[i].Importing? || !(Ids(additions) !! s.used) then None
    else
      var added := NotDuplicated(s.rules, additions);
      if added == [] then Some(Set(s, i, Finished))
      else
        var next := s.rules + added;
        Some(Set(s.(saved := next, used := s.used + Ids(additions)), i, SavingImport(next)))
  }

  predicate IsRefreshedChild(was: SubRule, child: SubRule)
  {
    child == was.(resolvedIps := child.resolvedIps) && (was.kind == Ipv4 ==> child.resolvedIps == [was.destination])
  }

  /** Only addresses change; a pinned rule has its pin, an address or prefix nothing new. */
  predicate IsRefreshed(was: Rule, rule: Rule)
  {
    && rule == was.(resolvedIps := rule.resolvedIps, subRules := rule.subRules)
    && (was.hostIpv4.Some? ==> rule.resolvedIps == [was.hostIpv4.value])
    && (was.hostIpv4.None? && (was.kind == Ipv4 || was.kind == Cidr) ==> rule.resolvedIps == was.resolvedIps)
    && |rule.subRules| == |was.subRules|
    && forall k | 0 <= k < |was.subRules| :: IsRefreshedChild(was.subRules[k], rule.subRules[k])
  }

  predicate AllRefreshed(was: seq<Rule>, rules: seq<Rule>)
  {
    |rules| == |was| && forall k | 0 <= k < |was| :: IsRefreshed(was[k], rules[k])
  }

  /** The lookups over the list `_rules` was at the start are done, and the new list replaces what it is now. */
  function RefreshDone(s: State, i: nat, next: seq<Rule>): Option<State>
  {
    if i >= |s.ops| || !s.ops[i].Refreshing? || !AllRefreshed(s.ops[i].snapshot, next) then None
    else Some(Set(WithRules(s, next), i, Saving))
  }

  function SaveDone(s: State, i: nat): Option<State>
  {
    if i >= |s.ops| then None else
      match s.ops[i]
      case Saving => Some(Set(ApplyAll(s), i, Finished))
      case SavingMode(mode) => Some(Set(ApplyAll(s.(mode := mode)), i, Finished))
      case SavingImport(next) => Some(Set(ApplyAll(s.(rules := next)), i, Finished))
      case Upsert(_, _, _, _, SavingParent(scans)) =>
        Some(if IsLive(s, i) then Move(ApplyAll(s), i, ApplyingParent(scans)) else Set(s, i, Finished))
      case Upsert(_, _, _, _, SavingChildren(_)) => Some(Set(if IsLive(s, i) then ApplyAll(s) else s, i, Finished))
      case Upsert(_, _, _, _, SavingStatus) => Some(Set(s, i, Finished))
      case _ => None
  }

  /** The repository threw. Only the write of scanned children is inside the `try`. */
  function SaveFailed(s: State, i: nat): Option<State>
  {
    if i >= |s.ops| then None else
      match s.ops[i]
      case Upsert(_, _, _, _, SavingChildren(caught)) =>
        Some(if caught then Set(s, i, Finished) else WriteChildren(s, i, [], true))
      case Upsert(_, _, _, _, at) => if at.SavingParent? || at.SavingStatus? then Some(Set(s, i, Finished)) else None
      case Saving => Some(Set(s, i, Finished))
      case SavingMode(_) => Some(Set(s, i, Finished))
      case SavingImport(_) => Some(Set(s, i, Finished))
      case _ => None
  }

  function ListDone(s: State, i: nat, interfaces: seq<Interface>): Option<State>
  {
    if i >= |s.ops| || !s.ops[i].Listing? then None else Some(Set(s.(interfaces := interfaces), i, Listed))
  }

  function ListContinues(s: State, i: nat): Option<State>
  {
    if i >= |s.ops| || !s.ops[i].Listed? then None else Some(Set(ApplyAll(s), i, Finished))
  }

  function InstallDone(s: State, i: nat, enabled: bool): Option<State>
  {
    if i >= |s.ops| || !s.ops[i].Installing? then None else
      var installed := s.(helperEnabled := enabled);
      Some(Set(if enabled then ApplyAll(installed) else installed, i, Finished))
  }

  /** A lookup, a list call or an installation threw before anything was written. */
  function Fails(s: State, i: nat): Option<State>
  {
    if i < |s.ops| && (s.ops[i].Importing? || s.ops[i].Refreshing? || s.ops[i].Listing? || s.ops[i].Installing?)
    then Some(Set(s, i, Finished)) else None
  }

  /******* The apply chain *******/

  function ApplyAll(s: State): State
  {
    s.(pending := s.pending + 1)
  }

  function ApplyStart(s: State): Option<State>
  {
    if s.pending == 0 || s.phase != Idle then None
    else if s.mode == SystemDefault then Some(SendHosts(s.(pending := s.pending - 1, phase := CleanupHosts), None))
    else Some(s.(pending := s.pending - 1, phase := AwaitHelper))
  }

  /** The helper answered, or failed to when `enabled` is None; then the host request. */
  function ApplyHelper(s: State, enabled: Option<bool>): Option<State>
  {
    if s.phase != AwaitHelper then None
    else if enabled.None? then Some(s.(phase := Idle))
    else
      var known := s.(helperEnabled := enabled.value);
      if HostsThrow(known, None) then Some(known.(phase := Idle))
      else Some(SendHosts(known.(phase := AwaitHosts), None))
  }

  /** The host request is answered; then the plan of the rules as they are now, and the route request. */
  ghost function ApplyHosts(s: State, ok: bool, plan: Plan): Option<State>
  {
    if s.phase == CleanupHosts then Some(s.(phase := CleanupRoutes, routes := Some([])))
    else if s.phase != AwaitHosts || !IsPlan(Asked(s), plan) then None
    else if !ok || (!s.helperEnabled && plan.routes != []) then Some(s.(phase := Idle))
    else Some(s.(phase := AwaitRoutes, routes := Some(plan.routes)))
  }

  /** The route request is answered, or threw: the statuses are written and saved. */
  function ApplyRoutes(s: State, threw: bool): Option<State>
  {
    if s.phase != AwaitRoutes && s.phase != CleanupRoutes then None
    else if s.phase == AwaitRoutes && threw then Some(s.(phase := Idle))
    else Some(s.(phase := AwaitSave, saved := s.rules))
  }

  function ApplySaved(s: State): Option<State>
  {
    if s.phase != AwaitSave then None else Some(s.(phase := Idle))
  }

  /******* Steps and runs *******/

  datatype Event =
    | EBeginUpsert(id: string, isNew: bool, draft: Draft)
    | EDelete(id: string)
    | ESetRule(id: string, enabled: bool)
    | ESetSubRule(id: string, childId: string, enabled: bool)
    | ESetMode(mode: RoutingMode)
    | EImport
    | ERefresh
    | EInterfacesChanged
    | EInstall
    | EHostsDone(op: nat, ok: bool)
    | ELookupDone(op: nat, ips: Option<seq<string>>)
    | EApplyDone(op: nat, applied: bool)
    | EScanDone(op: nat)
    | EChildrenDone(op: nat, children: seq<SubRule>)
    | EScanFailed(op: nat)
    | EImportReady(op: nat, additions: seq<Rule>)
    | ERefreshDone(op: nat, next: seq<Rule>)
    | ESaveDone(op: nat)
    | ESaveFailed(op: nat)
    | EListDone(op: nat, interfaces: seq<Interface>)
    | EListContinues(op: nat)
    | EInstallDone(op: nat, helper: bool)
    | EFails(op: nat)
    | EApplyStart
    | EApplyHelper(answer: Option<bool>)
    | EApplyHosts(ok: bool, plan: Plan)
    | EApplyRoutes(threw: bool)
    | EApplySaved

  /** The state after an event, or None when the event cannot happen. */
  ghost function Step(s: State, e: Event): Option<State>
  {
    match e
    case EBeginUpsert(id, isNew, draft) =>
      if MayBegin(s, id, isNew, draft) then Some(BeginUpsert(s, id, isNew, draft)) else None
    case EDelete(id) => Some(Delete(s, id))
    case ESetRule(id, enabled) => Some(SetRuleEnabled(s, id, enabled))
    case ESetSubRule(id, childId, enabled) => Some(SetSubRuleEnabled(s, id, childId, enabled))
    case ESetMode(mode) => Some(if s.mode == mode then s else Begin(s, SavingMode(mode)))
    case EImport => Some(Begin(s, Importing))
    case ERefresh => Some(Begin(s, Refreshing(s.rules)))
    case EInterfacesChanged => Some(Begin(s, Listing))
    case EInstall => Some(Begin(s, Installing))
    case EHostsDone(i, ok) => HostsDone(s, i, ok)
    case ELookupDone(i, ips) => LookupDone(s, i, ips)
    case EApplyDone(i, applied) => ApplyDone(s, i, applied)
    case EScanDone(i) => ScanDone(s, i)
    case EChildrenDone(i, children) => ChildrenDone(s, i, children)
    case EScanFailed(i) => ScanFailed(s, i)
    case EImportReady(i, additions) => ImportReady(s, i, additions)
    case ERefreshDone(i, next) => RefreshDone(s, i, next)
    case ESaveDone(i) => SaveDone(s, i)
    case ESaveFailed(i) => SaveFailed(s, i)
    case EListDone(i, interfaces) => ListDone(s, i, interfaces)
    case EListContinues(i) => ListContinues(s, i)
    case EInstallDone(i, enabled) => InstallDone(s, i, enabled)
    case EFails(i) => Fails(s, i)
    case EApplyStart => ApplyStart(s)
    case EApplyHelper(answer) => ApplyHelper(s, answer)
    case EApplyHosts(ok, plan) => ApplyHosts(s, ok, plan)
    case EApplyRoutes(threw) => ApplyRoutes(s, threw)
    case EApplySaved => ApplySaved(s)
  }

  /** What a run of events leads to; None when one of them cannot happen. */
  ghost function Run(s: State, events: seq<Event>): Option<State>
  {
    if events == [] then Some(s) else
      var before := Run(s, events[..|events| - 1]);
      if before.None? then None else Step(before.value, events[|events| - 1])
  }

  /** After loading rules, mode, interfaces and helper status, the first apply is in the chain. */
  function Started(rules: seq<Rule>, mode: RoutingMode, interfaces: seq<Interface>, helperEnabled: bool,
      hostsSupported: bool): State
  {
    State(rules, mode, interfaces, helperEnabled, hostsSupported, map[], Ids(rules), [], 1, Idle, None, None, rules)
  }
}

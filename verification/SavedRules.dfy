/** What ends up in the rule list: a save writes what its editor asked for, and the last one to write wins. */
module SavedRules {
  import opened Common
  import opened Planner
  import opened Destination
  import opened Controller
  import opened StaleSaves
  import opened Toggles
  import opened NetPilotController
  import opened Convergence

  /** A save that has its addresses and can write its rule. */
  datatype Arrival =
    | Nothing
    | Arrival(op: nat, id: string, isNew: bool, initial: Option<Rule>, draft: Draft, ips: seq<string>)

  function ArrivalOf(i: nat, op: Op, ips: seq<string>): Arrival
  {
    if op.Upsert? then Arrival(i, op.id, op.isNew, op.initial, op.draft, ips) else Nothing
  }

  /** A pin or a literal is known when the save begins; a name has the addresses of its lookup, which a save that
      refreshes a pin keeps until the host request behind the lookup is answered. */
  function Arrives(s: State, e: Event): Arrival
  {
    match e
    case EBeginUpsert(id, isNew, draft) =>
      var first := Upsert(id, isNew, Find(s.rules, id), draft, Excluding);
      if draft.pin.Some? then ArrivalOf(|s.ops|, first, [draft.pin.value])
      else if draft.kind == Ipv4 then ArrivalOf(|s.ops|, first, [draft.destination])
      else if draft.kind == Cidr then ArrivalOf(|s.ops|, first, [])
      else Nothing
    case ELookupDone(i, ips) =>
      if i < |s.ops| && s.ops[i].Upsert? && s.ops[i].at == Resolving(false) && ips.Some?
      then ArrivalOf(i, s.ops[i], ips.value) else Nothing
    case EHostsDone(i, ok) =>
      if i < |s.ops| && s.ops[i].Upsert? && s.ops[i].at.Restoring? && ok
      then ArrivalOf(i, s.ops[i], s.ops[i].at.ips) else Nothing
    case _ => Nothing
  }

  /** No newer save and no deletion came first. */
  predicate InTime(s: State, e: Event, a: Arrival)
    requires a.Arrival?
  {
    || e.EBeginUpsert?
    || (a.op < |s.ops| && IsCurrent(s, a.op) && (a.initial.Some? ==> Present(s.rules, a.id)))
  }

  /** The event makes a save write the rule `id`. */
  predicate Writes(s: State, e: Event, id: string)
  {
    var a := Arrives(s, e);
    a.Arrival? && a.id == id && InTime(s, e, a)
  }

  /** A name that a single private answer pins, where the platform has host mappings. */
  predicate PinsItself(hostsSupported: bool, a: Arrival)
    requires a.Arrival?
  {
    && a.draft.pin.None? && a.draft.manage && hostsSupported
    && (a.draft.kind == Hostname || a.draft.kind == Url) && !IsIpv4(a.draft.destination)
    && |a.ips| == 1 && IsPrivateIpv4(a.ips[0])
  }

  /** The flag was switched while the save was under way. */
  predicate Switched(s: State, a: Arrival)
    requires a.Arrival?
  {
    var now := Find(s.rules, a.id);
    a.initial.Some? && now.Some? && now.value.enabled != a.initial.value.enabled
  }

  /** The rule is what the editor asked for, with the addresses found and without children. */
  predicate Carries(rule: Rule, s: State, a: Arrival)
    requires a.Arrival?
  {
    && rule.id == a.id
    && rule.kind == a.draft.kind
    && rule.destination == a.draft.destination
    && rule.interfaceId == a.draft.interfaceId
    && rule.resolvedIps == a.ips
    && rule.subRules == []
    && (a.draft.pin.Some? ==> rule.hostIpv4 == a.draft.pin)
    && (PinsItself(s.hostsSupported, a) ==> rule.hostIpv4 == Some(a.ips[0]))
    && (rule.hostIpv4.Some? ==> a.draft.pin.Some? || PinsItself(s.hostsSupported, a))
    && (rule.enabled <==> if Switched(s, a) then !a.initial.value.enabled else a.draft.enabled)
  }

  /** One place of the list, the first with this id or a new one at the end, holds `rule`; the rest is as it was. */
  ghost predicate PutInPlace(was: seq<Rule>, now: seq<Rule>, rule: Rule)
  {
    || (now == was + [rule] && forall r | r in was :: r.id != rule.id)
    || exists k | 0 <= k < |was| :: FirstAt(was, k, rule.id) && now == was[k := rule]
  }

  ghost predicate FirstAt(rules: seq<Rule>, k: nat, id: string)
    requires k < |rules|
  {
    rules[k].id == id && forall j | 0 <= j < k :: rules[j].id != id
  }

  /** Every other rule is found as before. */
  ghost predicate OthersStay(was: seq<Rule>, now: seq<Rule>, id: string)
  {
    forall other | other != id :: Find(now, other) == Find(was, other)
  }

  /******* Lists *******/

  lemma {:induction false} PlaceOf(rules: seq<Rule>, id: string) returns (k: nat)
    ensures Present(rules, id) ==> k < |rules| && FirstAt(rules, k, id) && Find(rules, id) == Some(rules[k])
    ensures !Present(rules, id) ==> forall r | r in rules :: r.id != id
  {
    k := 0;
    if rules != [] && rules[0].id != id {
      k := PlaceOf(rules[1..], id);
      if Present(rules, id) {
        assert forall j | 1 <= j < k + 1 :: rules[j] == rules[1..][j - 1];
        k := k + 1;
      } else {
        assert forall r | r in rules :: r == rules[0] || r in rules[1..];
      }
    }
  }

  lemma {:induction false} FindAtEnd(rules: seq<Rule>, rule: Rule)
    requires !Present(rules, rule.id)
    ensures Find(rules + [rule], rule.id) == Some(rule)
    ensures OthersStay(rules, rules + [rule], rule.id)
  {
    if rules != [] {
      assert (rules + [rule])[1..] == rules[1..] + [rule];
      FindAtEnd(rules[1..], rule);
      forall other | other != rule.id ensures Find(rules + [rule], other) == Find(rules, other) {
        assert Find(rules[1..] + [rule], other) == Find(rules[1..], other);
      }
    } else {
      assert [] + [rule] == [rule] && [rule][1..] == [];
    }
  }

  lemma ReplacedInPlace(rules: seq<Rule>, rule: Rule)
    ensures PutInPlace(rules, Replace(rules, rule), rule)
    ensures Find(Replace(rules, rule), rule.id) == Some(rule) && OthersStay(rules, Replace(rules, rule), rule.id)
  {
    var k := PlaceOf(rules, rule.id);
    if Present(rules, rule.id) {
      FirstIndex(rules, k, rule.id);
    } else {
      NoIndex(rules, rule.id);
    }
    forall other
      ensures Find(Replace(rules, rule), other) == if other == rule.id then Some(rule) else Find(rules, other) {
      FindReplaced(rules, rule, other);
    }
  }

  lemma AppendedInPlace(rules: seq<Rule>, rule: Rule)
    requires !Present(rules, rule.id)
    ensures PutInPlace(rules, rules + [rule], rule)
    ensures Find(rules + [rule], rule.id) == Some(rule) && OthersStay(rules, rules + [rule], rule.id)
  {
    var _ := PlaceOf(rules, rule.id);
    FindAtEnd(rules, rule);
  }

  /******* One step *******/

  /** The step puts the rule of the arrival in place, saves the list and sees to the repository; a URL with addresses
      will be scanned. */
  ghost predicate WrittenAs(s: State, t: State, a: Arrival, rule: Rule)
    requires a.Arrival?
  {
    && Carries(rule, s, a)
    && PutInPlace(s.rules, t.rules, rule) && Find(t.rules, a.id) == Some(rule) && OthersStay(s.rules, t.rules, a.id)
    && t.saved == t.rules
    && a.op < |t.ops| && t.ops[a.op].Upsert? && t.ops[a.op].at == SavingParent(a.draft.kind == Url && a.ips != [])
  }

  predicate AddsOnce(s: State, a: Arrival)
    requires a.Arrival?
  {
    a.isNew ==> !Present(s.rules, a.id)
  }

  lemma WriteParentWrites(s: State, i: nat, ips: seq<string>)
    requires i < |s.ops| && s.ops[i].Upsert? && IsCurrent(s, i)
    requires s.ops[i].initial.Some? ==> Present(s.rules, s.ops[i].id)
    requires s.ops[i].isNew ==> !Present(s.rules, s.ops[i].id)
    ensures var a := ArrivalOf(i, s.ops[i], ips);
            WrittenAs(s, WriteParent(s, i, ips), a, ParentRule(s, s.ops[i], ips))
  {
    var rule := ParentRule(s, s.ops[i], ips);
    FoundIds(s.rules, s.ops[i].id);
    if s.ops[i].isNew {
      AppendedInPlace(s.rules, rule);
    } else {
      ReplacedInPlace(s.rules, rule);
    }
  }

  /** An arrival is the write of a save that waits in a state with the same rules. */
  lemma ArrivalWrites(s: State, e: Event) returns (from: State)
    requires Step(s, e).Some? && Arrives(s, e).Arrival?
    ensures var a := Arrives(s, e);
            && a.op < |from.ops| && from.ops[a.op].Upsert? && ArrivalOf(a.op, from.ops[a.op], a.ips) == a
            && Step(s, e).value == WriteParent(from, a.op, a.ips)
            && from.rules == s.rules && from.hostsSupported == s.hostsSupported && from.saved == s.saved
            && (InTime(s, e, a)
                <==> IsCurrent(from, a.op) && (a.initial.Some? ==> Present(s.rules, a.id)))
  {
    if e.EBeginUpsert? {
      from := Opened(s, e.id, e.isNew, e.draft);
    } else {
      from := s;
    }
  }

  /** A save that arrives in time puts exactly what its editor asked for in place, and one that comes too late changes
      and saves nothing. */
  lemma SaveWritesExactly(s: State, e: Event)
    requires Step(s, e).Some? && Arrives(s, e).Arrival? && AddsOnce(s, Arrives(s, e))
    ensures var a, t := Arrives(s, e), Step(s, e).value;
            if InTime(s, e, a) then exists rule :: WrittenAs(s, t, a, rule)
            else t.rules == s.rules && t.saved == s.saved && t.ops[a.op].Finished?
  {
    var a := Arrives(s, e);
    var from := ArrivalWrites(s, e);
    if InTime(s, e, a) {
      WriteParentWrites(from, a.op, a.ips);
      assert WrittenAs(s, Step(s, e).value, a, ParentRule(from, from.ops[a.op], a.ips));
    }
  }

  /** A save begins unless its pin is refused: only a name can have one, only where the platform has host mappings, and
      it must be an address. The id of a new rule is new. */
  lemma BeginsExactly(s: State, id: string, isNew: bool, draft: Draft)
    ensures Step(s, EBeginUpsert(id, isNew, draft)).Some?
            <==> (draft.pin.Some? ==>
                    s.hostsSupported && (draft.kind == Hostname || draft.kind == Url) && !IsIpv4(draft.destination)
                    && IsIpv4(draft.pin.value))
                 && (isNew ==> id !in s.used)
  {
  }

  predicate IsNamedBy(item: Interface, interfaceId: string)
  {
    interfaceId == item.nativeId || interfaceId == item.interfaceName || interfaceId == item.id
  }

  /** The gateway of a rule is that of the first adapter its id names, however it names it; none otherwise. */
  lemma {:induction false} GatewayExactly(interfaces: seq<Interface>, interfaceId: string)
    ensures var text := GatewayIn(interfaces, interfaceId);
            || (text == "" && forall item | item in interfaces :: !IsNamedBy(item, interfaceId))
            || exists k | 0 <= k < |interfaces| ::
                 IsNamedBy(interfaces[k], interfaceId)
                 && (forall j | 0 <= j < k :: !IsNamedBy(interfaces[j], interfaceId))
                 && text == if interfaces[k].gateway.Some? then interfaces[k].gateway.value else ""
  {
    if interfaces != [] && !IsNamedBy(interfaces[0], interfaceId) {
      var rest := interfaces[1..];
      GatewayExactly(rest, interfaceId);
      assert forall item :: item in interfaces <==> item == interfaces[0] || item in rest;
      if k :| 0 <= k < |rest| && IsNamedBy(rest[k], interfaceId)
              && (forall j | 0 <= j < k :: !IsNamedBy(rest[j], interfaceId))
              && GatewayIn(rest, interfaceId) == if rest[k].gateway.Some? then rest[k].gateway.value else "" {
        assert IsNamedBy(interfaces[k + 1], interfaceId);
        assert forall j | 1 <= j < k + 1 :: interfaces[j] == rest[j - 1];
      }
    }
  }

  /******* A new rule is added once *******/

  predicate AddsLater(s: State, i: nat)
    requires i < |s.ops|
  {
    IsCurrent(s, i) && s.ops[i].isNew && IsWaiting(s.ops[i])
  }

  /** The id of a new rule is in no list before its save writes it. */
  ghost predicate NewIsAbsent(s: State)
  {
    Ordered(s) && forall i | 0 <= i < |s.ops| && AddsLater(s, i) :: Absent(s, s.ops[i].id)
  }

  lemma HostsWaits(s: State, i: nat, ok: bool)
    requires HostsDone(s, i, ok).Some? && IsWaiting(HostsDone(s, i, ok).value.ops[i])
    ensures s.ops[i].at.Excluding? && HostsDone(s, i, ok).value == Move(s, i, Resolving(true))
  {
  }

  lemma LookupWaits(s: State, i: nat, ips: Option<seq<string>>)
    requires LookupDone(s, i, ips).Some? && IsWaiting(LookupDone(s, i, ips).value.ops[i])
    ensures s.ops[i].at.Resolving? && ips.Some?
    ensures LookupDone(s, i, ips).value == Move(SendHosts(s, None), i, Restoring(ips.value))
  {
  }

  lemma ScansDoNotWait(s: State, e: Event)
    requires Step(s, e).Some? && (e.EApplyDone? || e.EScanDone? || e.EChildrenDone? || e.EScanFailed?)
    ensures e.op < |s.ops| && |Step(s, e).value.ops| == |s.ops| && !IsWaiting(Step(s, e).value.ops[e.op])
  {
  }

  lemma SavedDoesNotWait(s: State, i: nat)
    requires SaveDone(s, i).Some?
    ensures var t := SaveDone(s, i).value; |t.ops| == |s.ops| && i < |s.ops| && !IsWaiting(t.ops[i])
  {
  }

  lemma UnsavedDoesNotWait(s: State, i: nat)
    requires SaveFailed(s, i).Some?
    ensures var t := SaveFailed(s, i).value; |t.ops| == |s.ops| && i < |s.ops| && !IsWaiting(t.ops[i])
  {
  }

  lemma ListsDoNotWait(s: State, e: Event)
    requires Continues(e).Some? && Step(s, e).Some? && !IsSaveEvent(e) && !e.ESaveDone? && !e.ESaveFailed?
    ensures e.op < |s.ops| && |Step(s, e).value.ops| == |s.ops| && !IsWaiting(Step(s, e).value.ops[e.op])
  {
  }

  lemma OthersDoNotWait(s: State, e: Event)
    requires Continues(e).Some? && Step(s, e).Some? && !e.EHostsDone? && !e.ELookupDone?
    ensures e.op < |s.ops| && |Step(s, e).value.ops| == |s.ops| && !IsWaiting(Step(s, e).value.ops[e.op])
  {
    if IsSaveEvent(e) {
      ScansDoNotWait(s, e);
    } else if e.ESaveDone? {
      SavedDoesNotWait(s, e.op);
    } else if e.ESaveFailed? {
      UnsavedDoesNotWait(s, e.op);
    } else {
      ListsDoNotWait(s, e);
    }
  }

  /** A save that still waits has written nothing. */
  lemma WaitingWritesNothing(s: State, e: Event)
    requires Continues(e).Some? && Step(s, e).Some?
    requires e.op < |Step(s, e).value.ops| && IsWaiting(Step(s, e).value.ops[e.op])
    ensures var t := Step(s, e).value;
            && t.rules == s.rules && t.used == s.used && |t.ops| == |s.ops| && IsWaiting(s.ops[e.op])
            && t.ops[e.op] == s.ops[e.op].(at := t.ops[e.op].at)
  {
    if e.EHostsDone? {
      HostsWaits(s, e.op, e.ok);
    } else if e.ELookupDone? {
      LookupWaits(s, e.op, e.ips);
    } else {
      OthersDoNotWait(s, e);
    }
  }

  lemma WrittenDoesNotWait(s: State, i: nat, ips: seq<string>)
    requires i < |s.ops| && s.ops[i].Upsert?
    ensures var t := WriteParent(s, i, ips); |t.ops| == |s.ops| && !IsWaiting(t.ops[i])
  {
  }

  lemma WaitingStretch(s: State, i: nat)
    requires i < |s.ops| && s.ops[i].Upsert? && i < |FirstStretch(s, i).ops| && IsWaiting(FirstStretch(s, i).ops[i])
    ensures FirstStretch(s, i) == Move(s, i, Resolving(false)) || FirstStretch(s, i) == SendHosts(s, Some(s.ops[i].id))
  {
    var draft := s.ops[i].draft;
    WrittenDoesNotWait(s, i, if draft.pin.Some? then [draft.pin.value]
                             else if draft.kind == Ipv4 then [draft.destination] else []);
  }

  /** A save that waits after its first stretch has written nothing. */
  lemma BegunWritesNothing(s: State, i: nat)
    requires i < |s.ops| && s.ops[i].Upsert? && i < |FirstStretch(s, i).ops| && IsWaiting(FirstStretch(s, i).ops[i])
    ensures var t := FirstStretch(s, i);
            && t.rules == s.rules && t.used == s.used && |t.ops| == |s.ops|
            && (forall k | 0 <= k < |s.ops| && k != i :: t.ops[k] == s.ops[k])
            && t.ops[i] == s.ops[i].(at := t.ops[i].at)
  {
    WaitingStretch(s, i);
  }

  lemma BeginWaits(s: State, id: string, isNew: bool, draft: Draft)
    requires NewIsAbsent(s) && MayBegin(s, id, isNew, draft) && |s.ops| < |BeginUpsert(s, id, isNew, draft).ops|
    requires AddsLater(BeginUpsert(s, id, isNew, draft), |s.ops|)
    ensures Absent(BeginUpsert(s, id, isNew, draft), id)
  {
    var t := BeginUpsert(s, id, isNew, draft);
    BeginOrdered(s, id, isNew, draft);
    BegunWritesNothing(Opened(s, id, isNew, draft), |s.ops|);
    forall k | 0 <= k < |t.ops| ensures id !in Hoard(t.ops[k]) {
      assert k < |s.ops| ==> t.ops[k] == s.ops[k];
    }
  }

  /** An older save that waits to add its rule waited before the step. */
  lemma WaitedBefore(s: State, e: Event, i: nat)
    requires Ordered(s) && Step(s, e).Some? && i < |s.ops| && i < |Step(s, e).value.ops|
    requires AddsLater(Step(s, e).value, i)
    ensures AddsLater(s, i) && Step(s, e).value.ops[i].id == s.ops[i].id && !(e.EBeginUpsert? && e.id == s.ops[i].id)
  {
    if e.EBeginUpsert? {
      BeginMoves(s, e.id, e.isNew, e.draft);
    } else if Continues(e).Some? {
      StepMoves(s, e);
      if e.op == i {
        WaitingWritesNothing(s, e);
      }
    } else if IsApplyEvent(e) {
      ApplyTouches(s, e);
    }
  }

  lemma StaysAbsent(s: State, e: Event, i: nat)
    requires NewIsAbsent(s) && Step(s, e).Some? && i < |Step(s, e).value.ops| && AddsLater(Step(s, e).value, i)
    ensures Absent(Step(s, e).value, Step(s, e).value.ops[i].id)
  {
    var t := Step(s, e).value;
    StepOrdered(s, e);
    if i >= |s.ops| {
      BegunLast(s, e, i);
      BeginWaits(s, e.id, e.isNew, e.draft);
    } else {
      WaitedBefore(s, e, i);
      if IsOwner(s, e, s.ops[i].id) {
        StepMoves(s, e);
        WaitingWritesNothing(s, e);
        forall k | 0 <= k < |t.ops| ensures s.ops[i].id !in Hoard(t.ops[k]) {
        }
      } else {
        StepAbsent(s, e, s.ops[i].id);
      }
    }
  }

  /** A save behind all others is the one that has just begun. */
  lemma BegunLast(s: State, e: Event, i: nat)
    requires Step(s, e).Some? && |s.ops| <= i < |Step(s, e).value.ops| && Step(s, e).value.ops[i].Upsert?
    ensures e.EBeginUpsert? && i == |s.ops| && Step(s, e).value.ops[i].id == e.id
  {
    if e.EBeginUpsert? {
      BeginMoves(s, e.id, e.isNew, e.draft);
    } else if Continues(e).Some? {
      StepMoves(s, e);
    } else if IsApplyEvent(e) {
      ApplyTouches(s, e);
    }
  }

  lemma {:induction false} RunNewIsAbsent(s: State, events: seq<Event>)
    requires NewIsAbsent(s) && Run(s, events).Some?
    ensures NewIsAbsent(Run(s, events).value)
  {
    if events != [] {
      var front := events[..|events| - 1];
      RunNewIsAbsent(s, front);
      var before, e := Run(s, front).value, events[|events| - 1];
      StepOrdered(before, e);
      forall i | 0 <= i < |Step(before, e).value.ops| && AddsLater(Step(before, e).value, i)
        ensures Absent(Step(before, e).value, Step(before, e).value.ops[i].id) {
        StaysAbsent(before, e, i);
      }
    }
  }

  lemma WritesOnce(s: State, e: Event)
    requires NewIsAbsent(s) && Step(s, e).Some? && Arrives(s, e).Arrival? && InTime(s, e, Arrives(s, e))
    ensures AddsOnce(s, Arrives(s, e))
  {
    var a := Arrives(s, e);
    FoundIds(s.rules, a.id);
    if !e.EBeginUpsert? && a.isNew {
      assert AddsLater(s, a.op);
    }
  }

  /******* What the other events do to the list *******/

  /** The rule is now `now`, the others are as before, and the list is saved. */
  ghost predicate Edited(s: State, t: State, id: string, now: Option<Rule>)
  {
    Find(t.rules, id) == now && OthersStay(s.rules, t.rules, id) && t.saved == t.rules
  }

  /** The children of this id have the flag; nothing else about any child differs. */
  predicate ChildSwitched(was: seq<SubRule>, now: seq<SubRule>, childId: string, enabled: bool)
  {
    && |now| == |was|
    && forall k | 0 <= k < |was| :: now[k] == was[k].(enabled := now[k].enabled)
         && now[k].enabled == if was[k].id == childId then enabled else was[k].enabled
  }

  lemma {:induction false} WithoutIsAbsent(rules: seq<Rule>, id: string)
    ensures Find(Without(rules, id), id) == None && OthersStay(rules, Without(rules, id), id)
    ensures forall r :: r in Without(rules, id) <==> r in rules && r.id != id
  {
    if rules != [] {
      WithoutIsAbsent(rules[1..], id);
      assert forall r :: r in rules <==> r == rules[0] || r in rules[1..];
    }
    forall other | other != id ensures Find(Without(rules, id), other) == Find(rules, other) {
      FindWithout(rules, id, other);
    }
  }

  /** A deletion takes every rule of the id out and nothing else. */
  lemma DeletesExactly(s: State, id: string)
    requires Step(s, EDelete(id)).Some?
    ensures var t := Step(s, EDelete(id)).value;
            Edited(s, t, id, None) && id !in t.tokens && forall r :: r in t.rules <==> r in s.rules && r.id != id
  {
    WithoutIsAbsent(s.rules, id);
  }

  /** A switch changes the flag of the rule and nothing else. */
  lemma SwitchesExactly(s: State, id: string, enabled: bool)
    requires Step(s, ESetRule(id, enabled)).Some?
    ensures var was, t := Find(s.rules, id), Step(s, ESetRule(id, enabled)).value;
            if was.None? then t == s
            else var now := was.value.(enabled := enabled);
                 Edited(s, t, id, Some(now)) && PutInPlace(s.rules, t.rules, now)
  {
    if Present(s.rules, id) {
      FoundIds(s.rules, id);
      ReplacedInPlace(s.rules, Find(s.rules, id).value.(enabled := enabled));
    }
  }

  /** A child's switch changes the flag of the rule's children of that id and nothing else. */
  lemma SwitchesChildExactly(s: State, id: string, childId: string, enabled: bool)
    requires Step(s, ESetSubRule(id, childId, enabled)).Some?
    ensures var was, t := Find(s.rules, id), Step(s, ESetSubRule(id, childId, enabled)).value;
            if was.None? then t == s
            else exists children :: ChildSwitched(was.value.subRules, children, childId, enabled)
                   && Edited(s, t, id, Some(was.value.(subRules := children)))
                   && PutInPlace(s.rules, t.rules, was.value.(subRules := children))
  {
    var was := Find(s.rules, id);
    if was.Some? {
      FoundIds(s.rules, id);
      var children := SwitchChildren(was.value.subRules, childId, enabled);
      ReplacedInPlace(s.rules, was.value.(subRules := children));
      assert ChildSwitched(was.value.subRules, children, childId, enabled);
    }
  }

  /** The children a scan brings: those it resolved, or none when it or the saving of its result failed. */
  function ScanBrings(s: State, e: Event): Option<seq<SubRule>>
  {
    match e
    case EChildrenDone(_, children) => Some(children)
    case EScanFailed(_) => Some([])
    case ESaveFailed(i) =>
      if i < |s.ops| && s.ops[i].Upsert? && s.ops[i].at == SavingChildren(false) then Some([]) else None
    case _ => None
  }

  /** A scan gives the rule of its save the children it brings, unless the save was overtaken. */
  lemma ScansExactly(s: State, e: Event)
    requires Step(s, e).Some? && ScanBrings(s, e).Some?
    ensures e.op < |s.ops| && s.ops[e.op].Upsert?
    ensures var id, t := s.ops[e.op].id, Step(s, e).value;
            if !IsCurrent(s, e.op) || !Present(s.rules, id) then t.rules == s.rules && t.ops[e.op].Finished?
            else var now := Find(s.rules, id).value.(subRules := ScanBrings(s, e).value);
                 Edited(s, t, id, Some(now)) && PutInPlace(s.rules, t.rules, now)
                 && e.op < |t.ops| && t.ops[e.op].Upsert? && t.ops[e.op].at.SavingChildren?
  {
    var children, caught := ScanBrings(s, e).value, !e.EChildrenDone?;
    assert Step(s, e).value == WriteChildren(s, e.op, children, caught);
    var id := s.ops[e.op].id;
    if Present(s.rules, id) {
      FoundIds(s.rules, id);
      ReplacedInPlace(s.rules, Find(s.rules, id).value.(subRules := children));
    }
  }

  /** The events that bring a whole list: the end of a refresh, and an import whose list is saved. */
  predicate BringsList(s: State, e: Event)
  {
    e.ERefreshDone? || (e.ESaveDone? && e.op < |s.ops| && s.ops[e.op].SavingImport?)
  }

  lemma RefreshesExactly(s: State, i: nat, next: seq<Rule>)
    requires Step(s, ERefreshDone(i, next)).Some?
    ensures var t := Step(s, ERefreshDone(i, next)).value;
            t.rules == next && t.saved == next && i < |s.ops| && s.ops[i].Refreshing?
            && AllRefreshed(s.ops[i].snapshot, t.rules)
  {
  }

  /** A refresh remembers the list it began with. */
  lemma RefreshRemembers(s: State)
    requires Step(s, ERefresh).Some?
    ensures var t := Step(s, ERefresh).value; t.rules == s.rules && t.ops == s.ops + [Refreshing(s.rules)]
  {
  }

  predicate SameRoute(a: Rule, b: Rule)
  {
    a.destination == b.destination && a.interfaceId == b.interfaceId
  }

  lemma {:induction false} NotDuplicatedExactly(rules: seq<Rule>, additions: seq<Rule>)
    ensures forall r :: r in NotDuplicated(rules, additions)
              <==> r in additions && forall was :: was in rules ==> !SameRoute(was, r)
  {
    if additions != [] {
      NotDuplicatedExactly(rules, additions[1..]);
      assert forall r :: r in additions <==> r == additions[0] || r in additions[1..];
      if was :| was in rules && SameRoute(was, additions[0]) {
        assert Duplicates(rules, additions[0]);
      }
    }
  }

  /** An import fixes its list behind the lookups: the rules of that moment, and behind them the additions for which no
      rule has both the destination and the adapter. The rules themselves wait for the save. */
  lemma ImportFixesList(s: State, i: nat, additions: seq<Rule>)
    requires Step(s, EImportReady(i, additions)).Some?
    ensures i < |s.ops| && s.ops[i].Importing?
    ensures var t := Step(s, EImportReady(i, additions)).value;
            && t.rules == s.rules && |t.ops| == |s.ops|
            && if forall r :: r in additions ==> exists was :: was in s.rules && SameRoute(was, r)
               then t.ops[i].Finished? && t.saved == s.saved
               else t.ops[i] == SavingImport(t.saved) && |s.rules| < |t.saved| && t.saved[..|s.rules|] == s.rules
                    && forall r :: r in t.saved[|s.rules|..]
                         <==> r in additions && forall was :: was in s.rules ==> !SameRoute(was, r)
  {
    var added := NotDuplicated(s.rules, additions);
    NotDuplicatedExactly(s.rules, additions);
    assert added != [] ==> added[0] in added;
    assert (s.rules + added)[|s.rules|..] == added;
  }

  lemma ImportsExactly(s: State, i: nat)
    requires Step(s, ESaveDone(i)).Some? && BringsList(s, ESaveDone(i))
    ensures Step(s, ESaveDone(i)).value.rules == s.ops[i].next
  {
  }

  /** Events that write no rule. */
  predicate ChangesNoRule(s: State, e: Event)
  {
    && !e.EDelete? && !e.ESetRule? && !e.ESetSubRule? && ScanBrings(s, e).None? && !BringsList(s, e)
    && Arrives(s, e).Nothing?
  }

  lemma OthersKeepRules(s: State, e: Event)
    requires Step(s, e).Some? && ChangesNoRule(s, e)
    ensures Step(s, e).value.rules == s.rules
  {
    if IsApplyEvent(e) {
      ApplyTouches(s, e);
    } else if e.EHostsDone? {
      assert s.ops[e.op].at.Excluding? || !e.ok;
    } else if e.ESaveDone? {
      SaveDoneMoves(s, e.op);
    }
  }

  /******* The last writer wins *******/

  /** The addresses of a literal or a pin, which no refresh changes. */
  predicate IsFixed(rule: Rule)
  {
    if rule.hostIpv4.Some? then rule.resolvedIps == [rule.hostIpv4.value] else rule.kind == Ipv4 || rule.kind == Cidr
  }

  /** The rule as it was written, apart from its children, and from addresses that a refresh may change unless
      `exact`. */
  predicate IsStill(written: Rule, now: Option<Rule>, exact: bool)
  {
    && now.Some?
    && now.value == written.(resolvedIps := now.value.resolvedIps, subRules := now.value.subRules)
    && (exact || IsFixed(written) ==> now.value.resolvedIps == written.resolvedIps)
  }

  /** The list a refresh or an import brings has the rule otherwise. */
  predicate BringsOther(s: State, e: Event, written: Rule, exact: bool)
    requires BringsList(s, e)
  {
    match e
    case ERefreshDone(i, _) =>
      i < |s.ops| && s.ops[i].Refreshing?
      && (!IsStill(written, Find(s.ops[i].snapshot, written.id), exact) || (exact && !IsFixed(written)))
    case ESaveDone(i) => !IsStill(written, Find(s.ops[i].next, written.id), exact)
    case _ => false
  }

  /** The event may change more of the rule than its children: another save writes it, it is deleted or switched, or a
      refresh or import that began with another version brings its list. */
  predicate Disturbs(s: State, e: Event, written: Rule, exact: bool)
  {
    || Writes(s, e, written.id)
    || ((e.EDelete? || e.ESetRule?) && e.id == written.id)
    || (BringsList(s, e) && BringsOther(s, e, written, exact))
  }

  lemma {:induction false} FindRefreshed(was: seq<Rule>, rules: seq<Rule>, id: string)
    requires AllRefreshed(was, rules)
    ensures Present(rules, id) == Present(was, id)
    ensures Present(was, id) ==> IsRefreshed(Find(was, id).value, Find(rules, id).value)
  {
    if was != [] {
      assert IsRefreshed(was[0], rules[0]);
      assert forall k | 0 <= k < |was[1..]| :: was[1..][k] == was[k + 1] && rules[1..][k] == rules[k + 1];
      FindRefreshed(was[1..], rules[1..], id);
    }
  }

  lemma WriteLeaves(s: State, e: Event, written: Rule, exact: bool)
    requires NewIsAbsent(s) && Step(s, e).Some? && IsStill(written, Find(s.rules, written.id), exact)
    requires Arrives(s, e).Arrival? && !Writes(s, e, written.id)
    ensures IsStill(written, Find(Step(s, e).value.rules, written.id), exact)
  {
    var a := Arrives(s, e);
    if InTime(s, e, a) {
      WritesOnce(s, e);
      SaveWritesExactly(s, e);
    } else {
      var _ := ArrivalWrites(s, e);
    }
  }

  lemma ListLeaves(s: State, e: Event, written: Rule, exact: bool)
    requires Step(s, e).Some? && BringsList(s, e) && !BringsOther(s, e, written, exact)
    ensures IsStill(written, Find(Step(s, e).value.rules, written.id), exact)
  {
    if e.ERefreshDone? {
      FindRefreshed(s.ops[e.op].snapshot, e.next, written.id);
    }
  }

  lemma EditLeaves(s: State, e: Event, written: Rule, exact: bool)
    requires Step(s, e).Some? && IsStill(written, Find(s.rules, written.id), exact)
    requires e.EDelete? || e.ESetRule? || e.ESetSubRule?
    requires !Disturbs(s, e, written, exact)
    ensures IsStill(written, Find(Step(s, e).value.rules, written.id), exact)
  {
    if e.EDelete? {
      DeletesExactly(s, e.id);
    } else if e.ESetRule? {
      SwitchesExactly(s, e.id, e.enabled);
    } else {
      SwitchesChildExactly(s, e.id, e.childId, e.enabled);
    }
  }

  lemma StepLeaves(s: State, e: Event, written: Rule, exact: bool)
    requires NewIsAbsent(s) && Step(s, e).Some? && IsStill(written, Find(s.rules, written.id), exact)
    requires !Disturbs(s, e, written, exact)
    ensures IsStill(written, Find(Step(s, e).value.rules, written.id), exact)
  {
    if Arrives(s, e).Arrival? {
      WriteLeaves(s, e, written, exact);
    } else if BringsList(s, e) {
      ListLeaves(s, e, written, exact);
    } else if e.EDelete? || e.ESetRule? || e.ESetSubRule? {
      EditLeaves(s, e, written, exact);
    } else if ScanBrings(s, e).Some? {
      ScansExactly(s, e);
    } else {
      OthersKeepRules(s, e);
    }
  }

  ghost predicate Undisturbed(s: State, events: seq<Event>, written: Rule, exact: bool)
    requires Run(s, events).Some?
  {
    events == []
    || var front := events[..|events| - 1];
       Undisturbed(s, front, written, exact) && !Disturbs(Run(s, front).value, events[|events| - 1], written, exact)
  }

  lemma {:induction false} RunLeaves(s: State, events: seq<Event>, written: Rule, exact: bool)
    requires NewIsAbsent(s) && Run(s, events).Some? && IsStill(written, Find(s.rules, written.id), exact)
    requires Undisturbed(s, events, written, exact)
    ensures IsStill(written, Find(Run(s, events).value.rules, written.id), exact)
  {
    if events != [] {
      var front := events[..|events| - 1];
      RunLeaves(s, front, written, exact);
      RunNewIsAbsent(s, front);
      StepLeaves(Run(s, front).value, events[|events| - 1], written, exact);
    }
  }

  /** The rule has what the editor of the last save asked for. */
  predicate IsAsWritten(rule: Rule, s: State, e: Event, exact: bool)
    requires Arrives(s, e).Arrival?
  {
    var a := Arrives(s, e);
    && Carries(rule.(resolvedIps := a.ips, subRules := []), s, a)
    && (exact || e.EBeginUpsert? ==> rule.resolvedIps == a.ips)
  }

  /** Over every run: from the moment a save writes its rule until another save writes it, it is deleted or switched, or
      an older list replaces it, the rule has the kind, destination, adapter, flag and pin the editor of that save asked
      for, and the addresses it was saved with; those of a lookup may be those of a later refresh unless `exact`. */
  lemma LastWriterWins(start: State, front: seq<Event>, e: Event, behind: seq<Event>, exact: bool)
    requires NewIsAbsent(start) && Run(start, front).Some? && Step(Run(start, front).value, e).Some?
    requires var s := Run(start, front).value; Arrives(s, e).Arrival? && InTime(s, e, Arrives(s, e))
    requires var s := Run(start, front).value;
             var t := Step(s, e).value;
             && Run(t, behind).Some?
             && (Present(t.rules, Arrives(s, e).id) ==>
                   Undisturbed(t, behind, Find(t.rules, Arrives(s, e).id).value, exact))
    ensures var s := Run(start, front).value;
            var now := Find(Run(Step(s, e).value, behind).value.rules, Arrives(s, e).id);
            now.Some? && IsAsWritten(now.value, s, e, exact)
  {
    RunNewIsAbsent(start, front);
    var s := Run(start, front).value;
    var a, t := Arrives(s, e), Step(s, e).value;
    WritesOnce(s, e);
    SaveWritesExactly(s, e);
    var written :| WrittenAs(s, t, a, written);
    OneStep(s, e);
    RunNewIsAbsent(s, [e]);
    RunLeaves(t, behind, written, exact);
    WrittenStays(s, e, written, Find(Run(t, behind).value.rules, a.id), exact);
  }

  lemma OneStep(s: State, e: Event)
    ensures Run(s, [e]) == Step(s, e)
  {
    RunOne(s, e);
  }

  /** What a save has from its beginning, a pin or a literal, is fixed. */
  lemma WrittenStays(s: State, e: Event, written: Rule, now: Option<Rule>, exact: bool)
    requires Step(s, e).Some? && Arrives(s, e).Arrival?
    requires Carries(written, s, Arrives(s, e)) && IsStill(written, now, exact)
    ensures IsAsWritten(now.value, s, e, exact)
  {
    if e.EBeginUpsert? {
      assert IsFixed(written);
    }
  }

  /** A program that has just started has no rule to add. */
  lemma StartedNewIsAbsent(rules: seq<Rule>, mode: RoutingMode, interfaces: seq<Interface>, helper: bool, hosts: bool)
    ensures NewIsAbsent(Started(rules, mode, interfaces, helper, hosts))
  {
  }

  /******* From the editor to the route request *******/

  /** The save of event `e`, in the run `front`, `e`, `behind`, is the last to write its rule. */
  ghost predicate IsLastWriter(start: State, front: seq<Event>, e: Event, behind: seq<Event>)
  {
    && Run(start, front).Some?
    && var s := Run(start, front).value;
       && Step(s, e).Some? && Arrives(s, e).Arrival? && InTime(s, e, Arrives(s, e))
       && var t := Step(s, e).value;
          && Run(t, behind).Some?
          && (Present(t.rules, Arrives(s, e).id) ==>
                Undisturbed(t, behind, Find(t.rules, Arrives(s, e).id).value, true))
  }

  lemma WholeRun(start: State, front: seq<Event>, e: Event, behind: seq<Event>)
    requires IsLastWriter(start, front, e, behind)
    ensures Run(start, front + ([e] + behind)) == Run(Step(Run(start, front).value, e).value, behind)
  {
    var s := Run(start, front).value;
    RunAppend(start, front, [e] + behind);
    RunCons(s, e, behind);
  }

  /** What an editor asked for is what is in force when nothing is pending: the file holds the rule, and if it is
      enabled, each text it needs and nobody disputes is requested over the adapter of the draft. */
  lemma SavedRuleIsRouted(rules: seq<Rule>, mode: RoutingMode, interfaces: seq<Interface>, hostsSupported: bool,
                          front: seq<Event>, e: Event, behind: seq<Event>, plan: Plan, d: string)
    requires IsLastWriter(Started(rules, mode, interfaces, true, hostsSupported), front, e, behind)
    requires var end := Run(Started(rules, mode, interfaces, true, hostsSupported), front + ([e] + behind));
             && end.Some? && Quiescent(end.value) && MappingsAllowed(end.value) && IsPlan(Asked(end.value), plan)
             && end.value.mode == Custom && AllWantAlike(end.value.rules, Gateways(end.value.interfaces), d)
    requires forall e | e in front + ([e] + behind) :: Succeeds(e)
    requires Harmless(Started(rules, mode, interfaces, true, hostsSupported), front + ([e] + behind))
    ensures var start := Started(rules, mode, interfaces, true, hostsSupported);
            var a := Arrives(Run(start, front).value, e);
            var end := Run(start, front + ([e] + behind)).value;
            var saved := Find(end.saved, a.id);
            && saved.Some? && IsAsWritten(saved.value, Run(start, front).value, e, true)
            && (saved.value.enabled && Needs(a.draft.kind, a.draft.destination, a.ips, d) ==>
                  exists route :: RoutesOver(end, route, d, a.draft.interfaceId))
  {
    var start := Started(rules, mode, interfaces, true, hostsSupported);
    var s := Run(start, front).value;
    StartedNewIsAbsent(rules, mode, interfaces, true, hostsSupported);
    LastWriterWins(start, front, e, behind, true);
    WholeRun(start, front, e, behind);
    QuiescentConvergence(rules, mode, interfaces, hostsSupported, front + ([e] + behind), plan);
    var a, end := Arrives(s, e), Run(start, front + ([e] + behind)).value;
    if Find(end.rules, a.id).value.enabled && Needs(a.draft.kind, a.draft.destination, a.ips, d) {
      WrittenIsRouted(s, e, end, plan, d);
    }
  }

  predicate RoutesOver(s: State, route: Route, d: string, interfaceId: string)
  {
    s.routes.Some? && route in s.routes.value && route.destination == d && route.interfaceName == interfaceId
  }

  lemma WrittenIsRouted(s: State, e: Event, end: State, plan: Plan, d: string)
    requires Arrives(s, e).Arrival? && Present(end.rules, Arrives(s, e).id)
    requires IsAsWritten(Find(end.rules, Arrives(s, e).id).value, s, e, true)
    requires IsPlan(Asked(end), plan) && end.routes == Some(plan.routes)
    requires AllWantAlike(end.rules, Gateways(end.interfaces), d)
    requires Find(end.rules, Arrives(s, e).id).value.enabled
             && Needs(Arrives(s, e).draft.kind, Arrives(s, e).draft.destination, Arrives(s, e).ips, d)
    ensures exists route :: RoutesOver(end, route, d, Arrives(s, e).draft.interfaceId)
  {
    var a := Arrives(s, e);
    var now := Find(end.rules, a.id).value;
    FoundId(end.rules, a.id);
    assert RuleNeeds(now, d) && Wants(now, d);
    RoutesExactly(end.rules, Gateways(end.interfaces), plan, d);
    var route :| route in plan.routes && route.destination == d;
    assert RoutesOver(end, route, d, a.draft.interfaceId);
  }
}

/** The host mappings the controller wants: the pins of enabled rules and the private hosts of their children. */
module HostMappings {
  import opened Common
  import opened Planner
  import opened Destination

  datatype Pin = Pin(host: string, ipv4: string)

  /******* What is asked for *******/

  predicate IsPinned(child: SubRule)
  {
    child.enabled && child.kind == Hostname && |child.resolvedIps| == 1 && IsPrivateIpv4(child.resolvedIps[0])
  }

  predicate TakesPart(rule: Rule, excluding: Option<string>)
  {
    rule.enabled && Some(rule.id) != excluding && rule.hostIpv4.Some?
  }

  ghost predicate ChildAsks(children: seq<SubRule>, pin: Pin)
  {
    exists child :: child in children && IsPinned(child) && pin == Pin(child.destination, child.resolvedIps[0])
  }

  /** A rule that takes part asks for its own pin and those of its children. */
  ghost predicate Asks(rules: seq<Rule>, excluding: Option<string>, pin: Pin)
  {
    exists rule :: rule in rules && TakesPart(rule, excluding)
      && (pin == Pin(rule.destination, rule.hostIpv4.value) || ChildAsks(rule.subRules, pin))
  }

  /** No host is asked for with two addresses. */
  ghost predicate Compatible(rules: seq<Rule>, excluding: Option<string>)
  {
    forall a, b | Asks(rules, excluding, a) && Asks(rules, excluding, b) && a.host == b.host :: a.ipv4 == b.ipv4
  }

  /** The mappings are exactly what is asked for. */
  ghost predicate Answers(mappings: map<string, string>, rules: seq<Rule>, excluding: Option<string>)
  {
    forall h, ip :: h in mappings && mappings[h] == ip <==> Asks(rules, excluding, Pin(h, ip))
  }

  /******* How they are collected *******/

  function Add(mappings: Option<map<string, string>>, pin: Pin): Option<map<string, string>>
  {
    if mappings.None? || (pin.host in mappings.value && mappings.value[pin.host] != pin.ipv4) then None
    else Some(mappings.value[pin.host := pin.ipv4])
  }

  function AddChildren(mappings: Option<map<string, string>>, children: seq<SubRule>): Option<map<string, string>>
    decreases |children|
  {
    if children == [] then mappings else
      var child := children[0];
      var next := if IsPinned(child) then Add(mappings, Pin(child.destination, child.resolvedIps[0])) else mappings;
      AddChildren(next, children[1..])
  }

  function AddRule(mappings: Option<map<string, string>>, rule: Rule, excluding: Option<string>): Option<map<string,
      string>>
  {
    if !TakesPart(rule, excluding) then mappings
    else AddChildren(Add(mappings, Pin(rule.destination, rule.hostIpv4.value)), rule.subRules)
  }

  function AddRules(mappings: Option<map<string, string>>, rules: seq<Rule>,
      excluding: Option<string>): Option<map<string, string>>
    decreases |rules|
  {
    if rules == [] then mappings else AddRules(AddRule(mappings, rules[0], excluding), rules[1..], excluding)
  }

  /** The mappings to publish in Custom mode; None when two of them conflict. */
  function Collected(rules: seq<Rule>, excluding: Option<string>): Option<map<string, string>>
  {
    AddRules(Some(map[]), rules, excluding)
  }

  lemma {:induction false} ConflictStays(children: seq<SubRule>)
    ensures AddChildren(None, children) == None
  {
    if children != [] {
      ConflictStays(children[1..]);
    }
  }

  lemma {:induction false} RuleConflictStays(rules: seq<Rule>, excluding: Option<string>)
    ensures AddRules(None, rules, excluding) == None
  {
    if rules != [] {
      if TakesPart(rules[0], excluding) {
        ConflictStays(rules[0].subRules);
      }
      RuleConflictStays(rules[1..], excluding);
    }
  }

  method DesiredHostMappings(rules: seq<Rule>, excluding: Option<string>) returns (desired: Option<map<string, string>>)
    ensures desired == Collected(rules, excluding)
  {
    var mappings: map<string, string> := map[];
    for i := 0 to |rules|
      invariant AddRules(Some(mappings), rules[i..], excluding) == Collected(rules, excluding)
    {
      var rule := rules[i];
      assert rules[i..][1..] == rules[i + 1..];
      if TakesPart(rule, excluding) {
        var pin := Pin(rule.destination, rule.hostIpv4.value);
        if pin.host in mappings && mappings[pin.host] != pin.ipv4 {
          ConflictStays(rule.subRules);
          RuleConflictStays(rules[i + 1..], excluding);
          return None;
        }
        var added := AddAllChildren(mappings[pin.host := pin.ipv4], rule.subRules);
        if added.None? {
          RuleConflictStays(rules[i + 1..], excluding);
          return None;
        }
        mappings := added.value;
      }
    }
    desired := Some(mappings);
  }

  method AddAllChildren(before: map<string, string>, children: seq<SubRule>) returns (after: Option<map<string,
      string>>)
    ensures after == AddChildren(Some(before), children)
  {
    var mappings := before;
    for i := 0 to |children|
      invariant AddChildren(Some(mappings), children[i..]) == AddChildren(Some(before), children)
    {
      var child := children[i];
      assert children[i..][1..] == children[i + 1..];
      if IsPinned(child) {
        var host, ipv4 := child.destination, child.resolvedIps[0];
        if host in mappings && mappings[host] != ipv4 {
          ConflictStays(children[i + 1..]);
          return None;
        }
        mappings := mappings[host := ipv4];
      }
    }
    after := Some(mappings);
  }

  /******* Collecting gives exactly what is asked for *******/

  /** The collected mappings `m`, or a conflict among the pins in `asked`. */
  ghost predicate Reflects(m: Option<map<string, string>>, asked: iset<Pin>)
  {
    if m.Some? then forall p: Pin :: p in asked <==> p.host in m.value && m.value[p.host] == p.ipv4
    else exists a, b :: a in asked && b in asked && a.host == b.host && a.ipv4 != b.ipv4
  }

  lemma AddReflects(m: Option<map<string, string>>, asked: iset<Pin>, pin: Pin)
    requires Reflects(m, asked)
    ensures Reflects(Add(m, pin), asked + iset{pin})
  {
    var more := asked + iset{pin};
    if m.None? {
      var a, b :| a in asked && b in asked && a.host == b.host && a.ipv4 != b.ipv4;
      assert a in more && b in more;
    } else if Add(m, pin).None? {
      var other := Pin(pin.host, m.value[pin.host]);
      assert other in more && pin in more;
    }
  }

  lemma ChildrenSplit(children: seq<SubRule>)
    requires children != []
    ensures (iset p | ChildAsks(children, p))
            == (if IsPinned(children[0]) then iset{Pin(children[0].destination,
                children[0].resolvedIps[0])} else iset{})
               + iset p | ChildAsks(children[1..], p)
  {
    assert forall c :: c in children <==> c == children[0] || c in children[1..];
  }

  lemma {:induction false} ChildrenReflect(m: Option<map<string, string>>, asked: iset<Pin>, children: seq<SubRule>)
    requires Reflects(m, asked)
    ensures Reflects(AddChildren(m, children), asked + iset p | ChildAsks(children, p))
    decreases |children|
  {
    if children == [] {
      assert asked + (iset p | ChildAsks(children, p)) == asked;
    } else {
      var child := children[0];
      var own := if IsPinned(child) then iset{Pin(child.destination, child.resolvedIps[0])} else iset{};
      var next := if IsPinned(child) then Add(m, Pin(child.destination, child.resolvedIps[0])) else m;
      if IsPinned(child) {
        AddReflects(m, asked, Pin(child.destination, child.resolvedIps[0]));
      } else {
        assert asked + own == asked;
      }
      ChildrenReflect(next, asked + own, children[1..]);
      ChildrenSplit(children);
      assert asked + own + (iset p | ChildAsks(children[1..], p)) == asked + (own + iset p | ChildAsks(children[1..],
          p));
    }
  }

  ghost function AskedBy(rule: Rule, excluding: Option<string>): iset<Pin>
  {
    iset p | TakesPart(rule, excluding) && (p == Pin(rule.destination,
        rule.hostIpv4.value) || ChildAsks(rule.subRules, p))
  }

  lemma RuleReflects(m: Option<map<string, string>>, asked: iset<Pin>, rule: Rule, excluding: Option<string>)
    requires Reflects(m, asked)
    ensures Reflects(AddRule(m, rule, excluding), asked + AskedBy(rule, excluding))
  {
    if TakesPart(rule, excluding) {
      var pin := Pin(rule.destination, rule.hostIpv4.value);
      AddReflects(m, asked, pin);
      ChildrenReflect(Add(m, pin), asked + iset{pin}, rule.subRules);
      assert asked + iset{pin} + (iset p | ChildAsks(rule.subRules, p)) == asked + AskedBy(rule, excluding);
    } else {
      assert asked + AskedBy(rule, excluding) == asked;
    }
  }

  lemma RulesSplit(rules: seq<Rule>, excluding: Option<string>)
    requires rules != []
    ensures (iset p | Asks(rules, excluding, p)) == AskedBy(rules[0], excluding) + iset p | Asks(rules[1..],
        excluding, p)
  {
    assert forall r :: r in rules <==> r == rules[0] || r in rules[1..];
  }

  lemma {:induction false} RulesReflect(m: Option<map<string, string>>, asked: iset<Pin>, rules: seq<Rule>,
      excluding: Option<string>)
    requires Reflects(m, asked)
    ensures Reflects(AddRules(m, rules, excluding), asked + iset p | Asks(rules, excluding, p))
    decreases |rules|
  {
    if rules == [] {
      assert asked + (iset p | Asks(rules, excluding, p)) == asked;
    } else {
      var own := AskedBy(rules[0], excluding);
      RuleReflects(m, asked, rules[0], excluding);
      RulesReflect(AddRule(m, rules[0], excluding), asked + own, rules[1..], excluding);
      RulesSplit(rules, excluding);
      assert asked + own + (iset p | Asks(rules[1..], excluding, p)) == asked + (own + iset p | Asks(rules[1..],
          excluding, p));
    }
  }

  /** Collecting succeeds exactly when no two mappings conflict, and then gives exactly the mappings asked for. */
  lemma CollectedExactly(rules: seq<Rule>, excluding: Option<string>)
    ensures Collected(rules, excluding).Some? <==> Compatible(rules, excluding)
    ensures Collected(rules, excluding).Some? ==> Answers(Collected(rules, excluding).value, rules, excluding)
  {
    var all := iset p | Asks(rules, excluding, p);
    RulesReflect(Some(map[]), iset{}, rules, excluding);
    assert iset{} + all == all;
    var m := Collected(rules, excluding);
    if m.Some? {
      forall h, ip ensures h in m.value && m.value[h] == ip <==> Asks(rules, excluding, Pin(h, ip)) {
        assert Pin(h, ip) in all <==> Asks(rules, excluding, Pin(h, ip));
      }
    }
  }

  /** Leaving a rule out cannot create a conflict. */
  lemma ExcludingKeepsCompatible(rules: seq<Rule>, id: string)
    requires Collected(rules, None).Some?
    ensures Collected(rules, Some(id)).Some?
  {
    CollectedExactly(rules, None);
    CollectedExactly(rules, Some(id));
    forall p | Asks(rules, Some(id), p) ensures Asks(rules, None, p) {
    }
  }
}

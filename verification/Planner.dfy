/** The route planner: rules in, one sorted conflict-free route list out. */
module Planner {
  import opened Common

  datatype DestinationKind = Hostname | Url | Ipv4 | Cidr

  datatype SubRule = SubRule(
    id: string,
    destination: string,
    kind: DestinationKind,
    enabled: bool,
    resolvedIps: seq<string>)

  datatype Rule = Rule(
    id: string,
    kind: DestinationKind,
    destination: string,
    interfaceId: string,
    enabled: bool,
    resolvedIps: seq<string>,
    hostIpv4: Option<string>,
    subRules: seq<SubRule>)

  datatype Route = Route(destination: string, gateway: Option<string>, interfaceName: string, ruleId: string)

  datatype Candidate = Candidate(parent: string, child: Option<string>, route: Route)

  /** The message "route conflict for this destination, requested via these interfaces". */
  datatype Conflict = Conflict(destination: string, interfaces: set<string>)

  datatype Plan = Plan(
    routes: seq<Route>,
    byRule: map<string, seq<Conflict>>,
    byChild: map<string, seq<Conflict>>)

  /******* What a rule asks for *******/

  function Cidrs(kind: DestinationKind, destination: string, resolvedIps: seq<string>): seq<string>
  {
    match kind
    case Cidr => [destination]
    case Ipv4 => [destination + "/32"]
    case _ => seq(|resolvedIps|, i requires 0 <= i < |resolvedIps| => resolvedIps[i] + "/32")
  }

  function GatewayOf(rule: Rule, gatewayFor: Rule -> string): Option<string>
  {
    var gateway := Trim(gatewayFor(rule));
    if gateway == "" then None else Some(gateway)
  }

  function ExpandDestination(parent: string, child: Option<string>, ruleId: string, cidrs: seq<string>,
                             interfaceName: string, gateway: Option<string>): seq<Candidate>
  {
    seq(|cidrs|, i requires 0 <= i < |cidrs| =>
      Candidate(parent, child, Route(cidrs[i], gateway, interfaceName, ruleId)))
  }

  function OwnCandidates(rule: Rule, gateway: Option<string>): seq<Candidate>
  {
    ExpandDestination(rule.id, None, rule.id, Cidrs(rule.kind, rule.destination, rule.resolvedIps),
                      rule.interfaceId, gateway)
  }

  function ChildCandidates(rule: Rule, gateway: Option<string>, child: SubRule): seq<Candidate>
  {
    if !child.enabled then [] else
      ExpandDestination(rule.id, Some(child.id), rule.id + ":sub:" + child.id,
                        Cidrs(child.kind, child.destination, child.resolvedIps), rule.interfaceId, gateway)
  }

  function AllChildCandidates(rule: Rule, gateway: Option<string>, children: seq<SubRule>): seq<Candidate>
  {
    if children == [] then [] else
      AllChildCandidates(rule, gateway, children[..|children| - 1])
      + ChildCandidates(rule, gateway, children[|children| - 1])
  }

  function RuleCandidates(rule: Rule, gatewayFor: Rule -> string): seq<Candidate>
  {
    if !rule.enabled then [] else
      OwnCandidates(rule, GatewayOf(rule, gatewayFor))
      + AllChildCandidates(rule, GatewayOf(rule, gatewayFor), rule.subRules)
  }

  function Candidates(rules: seq<Rule>, gatewayFor: Rule -> string): seq<Candidate>
  {
    if rules == [] then [] else
      Candidates(rules[..|rules| - 1], gatewayFor) + RuleCandidates(rules[|rules| - 1], gatewayFor)
  }

  ghost function CandidateSet(rules: seq<Rule>, gatewayFor: Rule -> string): set<Candidate>
  {
    set c | c in Candidates(rules, gatewayFor)
  }

  /** All requests for one destination agree on interface and gateway. */
  ghost predicate Agreed(cs: set<Candidate>, destination: string)
  {
    forall a, b | a in cs && b in cs && a.route.destination == destination && b.route.destination == destination ::
      a.route.interfaceName == b.route.interfaceName && a.route.gateway == b.route.gateway
  }

  ghost predicate Requested(cs: set<Candidate>, destination: string)
  {
    exists c :: c in cs && c.route.destination == destination
  }

  predicate SortedRoutes(routes: seq<Route>)
  {
    forall i, j | 0 <= i < j < |routes| :: Precedes(routes[i].destination, routes[j].destination)
  }

  ghost predicate Offers(cs: set<Candidate>, route: Route)
  {
    exists c :: c in cs && c.route == route
  }

  /** `route` is an uncontested request that no other request for its destination precedes by rule id. */
  ghost predicate Chosen(cs: set<Candidate>, route: Route)
  {
    && Agreed(cs, route.destination)
    && Offers(cs, route)
    && (forall c | c in cs && c.route.destination == route.destination :: !Precedes(c.route.ruleId, route.ruleId))
  }

  ghost predicate Serves(routes: seq<Route>, destination: string)
  {
    exists r :: r in routes && r.destination == destination
  }

  /** The routes a plan for these candidates must contain, in their order. */
  ghost predicate IsRouteList(cs: set<Candidate>, routes: seq<Route>)
  {
    && SortedRoutes(routes)
    && (forall r | r in routes :: Chosen(cs, r))
    && (forall d | Requested(cs, d) && Agreed(cs, d) :: Serves(routes, d))
  }

  function Interfaces(cs: set<Candidate>, destination: string): set<string>
  {
    set c | c in cs && c.route.destination == destination :: c.route.interfaceName
  }

  ghost predicate IsConflict(cs: set<Candidate>, m: Conflict)
  {
    !Agreed(cs, m.destination) && m.interfaces == Interfaces(cs, m.destination)
  }

  ghost predicate RuleRequests(cs: set<Candidate>, id: string, destination: string)
  {
    exists c :: c in cs && c.route.destination == destination && c.parent == id
  }

  ghost predicate ChildRequests(cs: set<Candidate>, key: string, destination: string)
  {
    exists c :: c in cs && c.route.destination == destination && ChildKey(c) == Some(key)
  }

  function ChildKey(c: Candidate): Option<string>
  {
    if c.child.Some? then Some(c.parent + ":" + c.child.value) else None
  }

  predicate Carries(messages: map<string, seq<Conflict>>, key: string, m: Conflict)
  {
    key in messages && m in messages[key]
  }

  /** Exactly the requesters of the contested destinations in `done` carry messages. */
  ghost predicate Blames(cs: set<Candidate>, done: set<string>, byRule: map<string, seq<Conflict>>,
                         byChild: map<string, seq<Conflict>>)
  {
    && (forall id, m :: Carries(byRule, id, m) <==>
          m.destination in done && IsConflict(cs, m) && RuleRequests(cs, id, m.destination))
    && (forall key, m :: Carries(byChild, key, m) <==>
          m.destination in done && IsConflict(cs, m) && ChildRequests(cs, key, m.destination))
  }

  ghost function Destinations(cs: set<Candidate>): set<string>
  {
    set c | c in cs :: c.route.destination
  }

  /** The full meaning of a plan. */
  ghost predicate IsPlan(cs: set<Candidate>, plan: Plan)
  {
    IsRouteList(cs, plan.routes) && Blames(cs, Destinations(cs), plan.byRule, plan.byChild)
  }

  /******* The planner as the source runs it *******/

  function Group(cs: seq<Candidate>, destination: string): (g: seq<Candidate>)
    ensures forall c :: c in g <==> c in cs && c.route.destination == destination
  {
    if cs == [] then [] else
      var last := cs[|cs| - 1];
      Group(cs[..|cs| - 1], destination) + (if last.route.destination == destination then [last] else [])
  }

  function Add(messages: map<string, seq<Conflict>>, key: string, m: Conflict): (r: map<string, seq<Conflict>>)
    ensures forall k, n :: Carries(r, k, n) <==> Carries(messages, k, n) || (k == key && n == m)
  {
    var r := messages[key := (if key in messages then messages[key] else []) + [m]];
    assert forall k, n :: Carries(r, k, n) <==> Carries(messages, k, n) || (k == key && n == m);
    r
  }

  method CollectCandidates(rules: seq<Rule>, gatewayFor: Rule -> string) returns (candidates: seq<Candidate>)
    ensures candidates == Candidates(rules, gatewayFor)
  {
    candidates := [];
    for i := 0 to |rules|
      invariant candidates == Candidates(rules[..i], gatewayFor)
    {
      var rule := rules[i];
      assert rules[..i + 1][..i] == rules[..i];
      if rule.enabled {
        var gateway := GatewayOf(rule, gatewayFor);
        var own := OwnCandidates(rule, gateway);
        var children: seq<Candidate> := [];
        for j := 0 to |rule.subRules|
          invariant children == AllChildCandidates(rule, gateway, rule.subRules[..j])
        {
          assert rule.subRules[..j + 1][..j] == rule.subRules[..j];
          if rule.subRules[j].enabled {
            children := children + ChildCandidates(rule, gateway, rule.subRules[j]);
          }
        }
        assert rule.subRules[..|rule.subRules|] == rule.subRules;
        candidates := candidates + (own + children);
      }
    }
    assert rules[..|rules|] == rules;
  }

  lemma GroupSnoc(cs: seq<Candidate>, c: Candidate, d: string)
    ensures Group(cs + [c], d) == Group(cs, d) + (if c.route.destination == d then [c] else [])
  {
    assert (cs + [c])[..|cs|] == cs;
  }

  /** `putIfAbsent` and append. */
  method GroupByDestination(candidates: seq<Candidate>) returns (groups: map<string, seq<Candidate>>)
    ensures forall d :: (if d in groups then groups[d] else []) == Group(candidates, d)
    ensures forall d | d in groups :: groups[d] != []
  {
    groups := map[];
    for i := 0 to |candidates|
      invariant forall d :: (if d in groups then groups[d] else []) == Group(candidates[..i], d)
      invariant forall d | d in groups :: groups[d] != []
    {
      var c := candidates[i];
      assert candidates[..i + 1] == candidates[..i] + [c];
      forall d {
        GroupSnoc(candidates[..i], c, d);
      }
      var d := c.route.destination;
      groups := groups[d := (if d in groups then groups[d] else []) + [c]];
    }
    assert candidates[..|candidates|] == candidates;
  }

  /** The least route by rule id: the head of the sorted group. */
  method First(group: seq<Candidate>) returns (best: Candidate)
    requires group != []
    ensures best in group
    ensures forall c | c in group :: !Precedes(c.route.ruleId, best.route.ruleId)
  {
    best := group[0];
    for i := 0 to |group|
      invariant best in group
      invariant forall c | c in group[..i] :: !Precedes(c.route.ruleId, best.route.ruleId)
    {
      var next := group[i];
      if Precedes(next.route.ruleId, best.route.ruleId) {
        forall c | c in group[..i] ensures !Precedes(c.route.ruleId, next.route.ruleId) {
          if Precedes(c.route.ruleId, next.route.ruleId) {
            PrecedesTransitive(c.route.ruleId, next.route.ruleId, best.route.ruleId);
          }
        }
        NotBeforeItself(next.route.ruleId);
        best := next;
      }
    }
  }

  lemma NotBeforeItself(s: string)
    ensures !Precedes(s, s)
  {
    if Precedes(s, s) {
      PrecedesAsymmetric(s, s);
    }
  }

  /** Insertion of a new destination into a list already sorted by destination. */
  method Insert(routes: seq<Route>, route: Route) returns (r: seq<Route>)
    requires SortedRoutes(routes)
    requires !Serves(routes, route.destination)
    ensures SortedRoutes(r)
    ensures forall x :: x in r <==> x in routes || x == route
  {
    var i := 0;
    while i < |routes| && Precedes(routes[i].destination, route.destination)
      invariant 0 <= i <= |routes|
      invariant forall j | 0 <= j < i :: Precedes(routes[j].destination, route.destination)
    {
      i := i + 1;
    }
    r := routes[..i] + [route] + routes[i..];
    if i < |routes| {
      assert routes[i] in routes;
      PrecedesTotal(routes[i].destination, route.destination);
    }
    InsertedSorted(routes, i, route);
    InsertedMembers(routes, i, route);
  }

  lemma InsertedSorted(routes: seq<Route>, i: nat, route: Route)
    requires SortedRoutes(routes) && i <= |routes|
    requires forall j | 0 <= j < i :: Precedes(routes[j].destination, route.destination)
    requires i < |routes| ==> Precedes(route.destination, routes[i].destination)
    ensures SortedRoutes(routes[..i] + [route] + routes[i..])
  {
    forall j | i < j < |routes| ensures Precedes(route.destination, routes[j].destination) {
      PrecedesTransitive(route.destination, routes[i].destination, routes[j].destination);
    }
  }

  lemma InsertedMembers(routes: seq<Route>, i: nat, route: Route)
    requires i <= |routes|
    ensures forall x :: x in routes[..i] + [route] + routes[i..] <==> x in routes || x == route
  {
    assert routes == routes[..i] + routes[i..];
  }

  ghost predicate DistinctDestinations(routes: seq<Route>)
  {
    forall i, j | 0 <= i < j < |routes| :: routes[i].destination != routes[j].destination
  }

  method SortByDestination(routes: seq<Route>) returns (r: seq<Route>)
    requires DistinctDestinations(routes)
    ensures SortedRoutes(r)
    ensures forall x :: x in r <==> x in routes
  {
    r := [];
    for i := 0 to |routes|
      invariant SortedRoutes(r)
      invariant forall x :: x in r <==> x in routes[..i]
    {
      r := Insert(r, routes[i]);
    }
    assert routes[..|routes|] == routes;
  }

  /** More than one (interface, gateway) signature in a group is disagreement. */
  lemma SignaturesAgree(cs: set<Candidate>, d: string, c: Candidate, signatures: set<(string, Option<string>)>)
    requires c in cs && c.route.destination == d
    requires signatures == set e | e in cs && e.route.destination == d :: (e.route.interfaceName, e.route.gateway)
    ensures |signatures| > 1 <==> !Agreed(cs, d)
  {
    var signature := (c.route.interfaceName, c.route.gateway);
    assert signature in signatures;
    if Agreed(cs, d) {
      assert signatures == {signature};
    } else {
      var a, b :| a in cs && b in cs && a.route.destination == d && b.route.destination == d
        && !(a.route.interfaceName == b.route.interfaceName && a.route.gateway == b.route.gateway);
      var s, t := (a.route.interfaceName, a.route.gateway), (b.route.interfaceName, b.route.gateway);
      assert s in signatures && t in signatures;
      assert |signatures - {s}| > 0 by {
        assert t in signatures - {s};
      }
    }
  }

  /** Blames every requester in the group for one contested destination. */
  method Blame(group: seq<Candidate>, m: Conflict, rules: map<string, seq<Conflict>>,
               children: map<string, seq<Conflict>>)
    returns (byRule: map<string, seq<Conflict>>, byChild: map<string, seq<Conflict>>)
    ensures forall id, n :: Carries(byRule, id, n) <==>
              Carries(rules, id, n) || (n == m && exists c :: c in group && c.parent == id)
    ensures forall key, n :: Carries(byChild, key, n) <==>
              Carries(children, key, n) || (n == m && exists c :: c in group && ChildKey(c) == Some(key))
  {
    byRule, byChild := rules, children;
    for i := 0 to |group|
      invariant forall id, n :: Carries(byRule, id, n) <==>
                  Carries(rules, id, n) || (n == m && exists c :: c in group[..i] && c.parent == id)
      invariant forall key, n :: Carries(byChild, key, n) <==>
                  Carries(children, key, n) || (n == m && exists c :: c in group[..i] && ChildKey(c) == Some(key))
    {
      var c := group[i];
      assert forall x :: x in group[..i + 1] <==> x in group[..i] || x == c;
      byRule := Add(byRule, c.parent, m);
      if ChildKey(c).Some? {
        byChild := Add(byChild, ChildKey(c).value, m);
      }
    }
    assert group[..|group|] == group;
  }

  ghost predicate RoutesSoFar(cs: set<Candidate>, done: set<string>, routes: seq<Route>)
  {
    && DistinctDestinations(routes)
    && (forall r | r in routes :: r.destination in done && Chosen(cs, r))
    && (forall d | d in done && Agreed(cs, d) :: Serves(routes, d))
  }

  lemma RouteAdded(cs: set<Candidate>, done: set<string>, routes: seq<Route>, best: Candidate)
    requires RoutesSoFar(cs, done, routes) && best.route.destination !in done
    requires best in cs && Chosen(cs, best.route)
    ensures RoutesSoFar(cs, done + {best.route.destination}, routes + [best.route])
  {
    var more := routes + [best.route];
    assert best.route in more;
    forall d | d in done + {best.route.destination} && Agreed(cs, d) ensures Serves(more, d) {
      if d in done {
        var r :| r in routes && r.destination == d;
        assert r in more;
      }
    }
  }

  lemma BlameAdded(cs: set<Candidate>, done: set<string>, group: seq<Candidate>, m: Conflict,
                   rules: map<string, seq<Conflict>>, children: map<string, seq<Conflict>>,
                   byRule: map<string, seq<Conflict>>, byChild: map<string, seq<Conflict>>)
    requires Blames(cs, done, rules, children) && m.destination !in done
    requires IsConflict(cs, m)
    requires forall c :: c in group <==> c in cs && c.route.destination == m.destination
    requires forall id, n :: Carries(byRule, id, n) <==>
               Carries(rules, id, n) || (n == m && exists c :: c in group && c.parent == id)
    requires forall key, n :: Carries(byChild, key, n) <==>
               Carries(children, key, n) || (n == m && exists c :: c in group && ChildKey(c) == Some(key))
    ensures Blames(cs, done + {m.destination}, byRule, byChild)
  {
    forall id ensures (exists c :: c in group && c.parent == id) <==> RuleRequests(cs, id, m.destination) {
      if RuleRequests(cs, id, m.destination) {
        var c :| c in cs && c.route.destination == m.destination && c.parent == id;
        assert c in group;
      }
    }
    forall key ensures (exists c :: c in group && ChildKey(c) == Some(key)) <==> ChildRequests(cs, key, m.destination) {
      if ChildRequests(cs, key, m.destination) {
        var c :| c in cs && c.route.destination == m.destination && ChildKey(c) == Some(key);
        assert c in group;
      }
    }
  }

  /** One destination: blame every requester when they disagree, otherwise serve the first of them. */
  method PlanDestination(ghost cs: set<Candidate>, ghost done: set<string>, d: string, group: seq<Candidate>,
      plan: Plan)
    returns (next: Plan)
    requires RoutesSoFar(cs, done, plan.routes) && Blames(cs, done, plan.byRule, plan.byChild)
    requires d !in done && IsGroup(cs, d, group)
    ensures RoutesSoFar(cs, done + {d}, next.routes) && Blames(cs, done + {d}, next.byRule, next.byChild)
  {
    var signatures := set c: Candidate | c in group :: (c.route.interfaceName, c.route.gateway);
    SignaturesAgree(cs, d, group[0], signatures);
    if |signatures| > 1 {
      var m := Conflict(d, set c: Candidate | c in group :: c.route.interfaceName);
      assert IsConflict(cs, m);
      var byRule, byChild := Blame(group, m, plan.byRule, plan.byChild);
      BlameAdded(cs, done, group, m, plan.byRule, plan.byChild, byRule, byChild);
      next := plan.(byRule := byRule, byChild := byChild);
    } else {
      var best := First(group);
      assert Offers(cs, best.route);
      RouteAdded(cs, done, plan.routes, best);
      next := plan.(routes := plan.routes + [best.route]);
    }
  }

  ghost predicate IsGroup(cs: set<Candidate>, d: string, group: seq<Candidate>)
  {
    group != [] && forall c :: c in group <==> c in cs && c.route.destination == d
  }

  /** The groups are taken in any order; the source takes them in order of first appearance. */
  method PlanGroups(ghost cs: set<Candidate>, groups: map<string, seq<Candidate>>) returns (plan: Plan)
    requires forall d | d in groups :: IsGroup(cs, d, groups[d])
    ensures RoutesSoFar(cs, groups.Keys, plan.routes) && Blames(cs, groups.Keys, plan.byRule, plan.byChild)
  {
    plan := Plan([], map[], map[]);
    ghost var done: set<string> := {};
    var remaining := groups.Keys;
    while remaining != {}
      invariant remaining !! done && remaining + done == groups.Keys
      invariant RoutesSoFar(cs, done, plan.routes) && Blames(cs, done, plan.byRule, plan.byChild)
      decreases |remaining|
    {
      var d :| d in remaining;
      assert IsGroup(cs, d, groups[d]);
      plan := PlanDestination(cs, done, d, groups[d], plan);
      done, remaining := done + {d}, remaining - {d};
    }
  }

  method PlanFromRules(rules: seq<Rule>, gatewayFor: Rule -> string) returns (plan: Plan)
    ensures IsPlan(CandidateSet(rules, gatewayFor), plan)
  {
    var candidates := CollectCandidates(rules, gatewayFor);
    ghost var cs := CandidateSet(rules, gatewayFor);
    var groups := GroupByDestination(candidates);
    AllDestinations(candidates, cs, groups);
    plan := PlanGroups(cs, groups);
    var sorted := SortByDestination(plan.routes);
    RouteListDone(cs, plan.routes, sorted);
    plan := plan.(routes := sorted);
  }

  lemma AllDestinations(candidates: seq<Candidate>, cs: set<Candidate>, groups: map<string, seq<Candidate>>)
    requires forall c :: c in cs <==> c in candidates
    requires forall d :: (if d in groups then groups[d] else []) == Group(candidates, d)
    requires forall d | d in groups :: groups[d] != []
    ensures groups.Keys == Destinations(cs)
    ensures forall d | d in groups :: IsGroup(cs, d, groups[d])
  {
    forall d | d in groups ensures IsGroup(cs, d, groups[d]) {
      assert groups[d] == Group(candidates, d);
    }
    forall d ensures d in groups <==> d in Destinations(cs) {
      if d in groups {
        assert Group(candidates, d)[0] in cs;
      }
      if d in Destinations(cs) {
        var c :| c in cs && c.route.destination == d;
        assert c in Group(candidates, d);
      }
    }
  }

  lemma RouteListDone(cs: set<Candidate>, routes: seq<Route>, sorted: seq<Route>)
    requires RoutesSoFar(cs, Destinations(cs), routes)
    requires SortedRoutes(sorted) && forall x :: x in sorted <==> x in routes
    ensures IsRouteList(cs, sorted)
  {
    forall d | Requested(cs, d) && Agreed(cs, d) ensures Serves(sorted, d) {
      assert d in Destinations(cs);
      var r :| r in routes && r.destination == d;
      assert r in sorted;
    }
  }

  /******* Order independence *******/

  lemma {:induction false} SortedRoutesUnique(a: seq<Route>, b: seq<Route>)
    requires SortedRoutes(a) && SortedRoutes(b)
    requires forall r :: r in a <==> r in b
    ensures a == b
  {
    assert b == [] || b[0] in b;
    if a != [] {
      assert a[0] in a;
      assert b[0] in a;
      var i :| 0 <= i < |a| && a[i] == b[0];
      var j :| 0 <= j < |b| && b[j] == a[0];
      if i > 0 && j > 0 {
        PrecedesAsymmetric(a[0].destination, b[0].destination);
      }
      assert a[0] == b[0];
      forall r ensures r in a[1..] <==> r in b[1..] {
        TailMember(a, r);
        TailMember(b, r);
      }
      SortedRoutesUnique(a[1..], b[1..]);
      assert a == [a[0]] + a[1..] && b == [b[0]] + b[1..];
    }
  }

  lemma TailMember(a: seq<Route>, r: Route)
    requires a != [] && SortedRoutes(a)
    ensures r in a[1..] <==> r in a && r != a[0]
  {
    assert a == [a[0]] + a[1..];
    if r in a[1..] {
      var i :| 0 <= i < |a[1..]| && a[1..][i] == r;
      PrecedesAsymmetric(a[0].destination, a[i + 1].destination);
    }
  }

  /** A chosen route is determined by its destination: the tie break cannot be observed. */
  lemma ChosenUnique(cs: set<Candidate>, r: Route, t: Route)
    requires Chosen(cs, r) && Chosen(cs, t) && r.destination == t.destination
    ensures r == t
  {
    PrecedesTotal(r.ruleId, t.ruleId);
  }

  lemma RouteListIncludes(cs: set<Candidate>, a: seq<Route>, b: seq<Route>, r: Route)
    requires IsRouteList(cs, a) && IsRouteList(cs, b) && r in a
    ensures r in b
  {
    var c :| c in cs && c.route == r;
    assert Requested(cs, r.destination);
    assert Serves(b, r.destination);
    var t :| t in b && t.destination == r.destination;
    ChosenUnique(cs, r, t);
  }

  /** There is exactly one route list for a set of requests. */
  lemma RouteListUnique(cs: set<Candidate>, a: seq<Route>, b: seq<Route>)
    requires IsRouteList(cs, a) && IsRouteList(cs, b)
    ensures a == b
  {
    forall r ensures r in a <==> r in b {
      if r in a {
        RouteListIncludes(cs, a, b, r);
      }
      if r in b {
        RouteListIncludes(cs, b, a, r);
      }
    }
    SortedRoutesUnique(a, b);
  }

  lemma {:induction false} CandidateOfRule(rules: seq<Rule>, gatewayFor: Rule -> string, c: Candidate)
    ensures c in Candidates(rules, gatewayFor) <==> exists rule :: rule in rules && c in RuleCandidates(rule,
        gatewayFor)
  {
    if rules != [] {
      var front, last := rules[..|rules| - 1], rules[|rules| - 1];
      assert rules == front + [last];
      CandidateOfRule(front, gatewayFor, c);
      if c in Candidates(front, gatewayFor) {
        var rule :| rule in front && c in RuleCandidates(rule, gatewayFor);
        assert rule in rules;
      } else if c in RuleCandidates(last, gatewayFor) {
        assert last in rules;
      }
    }
  }

  /** Reordering the rules changes neither the routes nor who is blamed for what. */
  lemma PlanOrderIndependent(rules: seq<Rule>, permuted: seq<Rule>, gatewayFor: Rule -> string, a: Plan, b: Plan)
    requires multiset(rules) == multiset(permuted)
    requires IsPlan(CandidateSet(rules, gatewayFor), a)
    requires IsPlan(CandidateSet(permuted, gatewayFor), b)
    ensures a.routes == b.routes
    ensures forall id, m :: Carries(a.byRule, id, m) <==> Carries(b.byRule, id, m)
    ensures forall key, m :: Carries(a.byChild, key, m) <==> Carries(b.byChild, key, m)
  {
    assert forall rule :: rule in rules <==> rule in multiset(rules);
    assert forall rule :: rule in permuted <==> rule in multiset(permuted);
    forall c ensures c in Candidates(rules, gatewayFor) <==> c in Candidates(permuted, gatewayFor) {
      CandidateOfRule(rules, gatewayFor, c);
      CandidateOfRule(permuted, gatewayFor, c);
    }
    assert CandidateSet(rules, gatewayFor) == CandidateSet(permuted, gatewayFor);
    RouteListUnique(CandidateSet(rules, gatewayFor), a.routes, b.routes);
  }

  /******* Exactness in terms of the rules themselves *******/

  /** An enabled rule (child None) or an enabled child of one asks for `d`. */
  ghost predicate Asks(rule: Rule, child: Option<SubRule>, d: string)
  {
    && rule.enabled
    && match child {
         case None => d in Cidrs(rule.kind, rule.destination, rule.resolvedIps)
         case Some(sub) => sub in rule.subRules && sub.enabled && d in Cidrs(sub.kind, sub.destination, sub.resolvedIps)
       }
  }

  function AsCandidate(rule: Rule, child: Option<SubRule>, gatewayFor: Rule -> string, d: string): Candidate
  {
    match child
    case None => Candidate(rule.id, None, Route(d, GatewayOf(rule, gatewayFor), rule.interfaceId, rule.id))
    case Some(sub) => Candidate(rule.id, Some(sub.id),
      Route(d, GatewayOf(rule, gatewayFor), rule.interfaceId, rule.id + ":sub:" + sub.id))
  }

  lemma ExpandMembers(parent: string, child: Option<string>, ruleId: string, cidrs: seq<string>,
                      interfaceName: string, gateway: Option<string>, c: Candidate)
    ensures c in ExpandDestination(parent, child, ruleId, cidrs, interfaceName, gateway) <==>
            c.route.destination in cidrs
            && c == Candidate(parent, child, Route(c.route.destination, gateway, interfaceName, ruleId))
  {
    var es := ExpandDestination(parent, child, ruleId, cidrs, interfaceName, gateway);
    if c.route.destination in cidrs
       && c == Candidate(parent, child, Route(c.route.destination, gateway, interfaceName, ruleId))
    {
      var i :| 0 <= i < |cidrs| && cidrs[i] == c.route.destination;
      assert es[i] == c;
    }
  }

  lemma {:induction false} ChildMembers(rule: Rule, gatewayFor: Rule -> string, children: seq<SubRule>, c: Candidate)
    ensures c in AllChildCandidates(rule, GatewayOf(rule, gatewayFor), children) <==>
            exists sub :: sub in children && c in ChildCandidates(rule, GatewayOf(rule, gatewayFor), sub)
  {
    var gateway := GatewayOf(rule, gatewayFor);
    if children != [] {
      var front, last := children[..|children| - 1], children[|children| - 1];
      assert children == front + [last];
      ChildMembers(rule, gatewayFor, front, c);
      if c in AllChildCandidates(rule, gateway, front) {
        var sub :| sub in front && c in ChildCandidates(rule, gateway, sub);
        assert sub in children;
      } else if c in ChildCandidates(rule, gateway, last) {
        assert last in children;
      }
    }
  }

  lemma CandidateAsks(rule: Rule, gatewayFor: Rule -> string, c: Candidate)
    ensures c in RuleCandidates(rule, gatewayFor) <==>
            exists child :: Asks(rule, child, c.route.destination)
                            && c == AsCandidate(rule, child, gatewayFor, c.route.destination)
  {
    if !rule.enabled {
      return;
    }
    var gateway := GatewayOf(rule, gatewayFor);
    var d := c.route.destination;
    ExpandMembers(rule.id, None, rule.id, Cidrs(rule.kind, rule.destination, rule.resolvedIps),
                  rule.interfaceId, gateway, c);
    ChildMembers(rule, gatewayFor, rule.subRules, c);
    if c in OwnCandidates(rule, gateway) {
      assert Asks(rule, None, d) && c == AsCandidate(rule, None, gatewayFor, d);
    } else if c in AllChildCandidates(rule, gateway, rule.subRules) {
      var sub :| sub in rule.subRules && c in ChildCandidates(rule, gateway, sub);
      ExpandMembers(rule.id, Some(sub.id), rule.id + ":sub:" + sub.id,
                    Cidrs(sub.kind, sub.destination, sub.resolvedIps), rule.interfaceId, gateway, c);
      assert Asks(rule, Some(sub), d) && c == AsCandidate(rule, Some(sub), gatewayFor, d);
    }
    if child :| Asks(rule, child, d) && c == AsCandidate(rule, child, gatewayFor, d) {
      match child {
        case None =>
        case Some(sub) =>
          ExpandMembers(rule.id, Some(sub.id), rule.id + ":sub:" + sub.id,
                        Cidrs(sub.kind, sub.destination, sub.resolvedIps), rule.interfaceId, gateway, c);
          assert c in ChildCandidates(rule, gateway, sub);
      }
    }
  }

  ghost predicate AsksAmong(rules: seq<Rule>, rule: Rule, child: Option<SubRule>, d: string)
  {
    rule in rules && Asks(rule, child, d)
  }

  /** Every two rules that ask for `d`, themselves or through a child, send it the same way. */
  ghost predicate RulesAgree(rules: seq<Rule>, gatewayFor: Rule -> string, d: string)
  {
    forall r, x, s, y | AsksAmong(rules, r, x, d) && AsksAmong(rules, s, y, d) ::
      r.interfaceId == s.interfaceId && GatewayOf(r, gatewayFor) == GatewayOf(s, gatewayFor)
  }

  lemma AskerIsCandidate(rules: seq<Rule>, gatewayFor: Rule -> string, rule: Rule, child: Option<SubRule>, d: string)
    requires AsksAmong(rules, rule, child, d)
    ensures AsCandidate(rule, child, gatewayFor, d) in CandidateSet(rules, gatewayFor)
  {
    var c := AsCandidate(rule, child, gatewayFor, d);
    CandidateAsks(rule, gatewayFor, c);
    CandidateOfRule(rules, gatewayFor, c);
  }

  lemma CandidateHasAsker(rules: seq<Rule>, gatewayFor: Rule -> string, c: Candidate)
    returns (rule: Rule, child: Option<SubRule>)
    requires c in CandidateSet(rules, gatewayFor)
    ensures AsksAmong(rules, rule, child, c.route.destination)
    ensures c == AsCandidate(rule, child, gatewayFor, c.route.destination)
  {
    CandidateOfRule(rules, gatewayFor, c);
    rule :| rule in rules && c in RuleCandidates(rule, gatewayFor);
    CandidateAsks(rule, gatewayFor, c);
    child :| Asks(rule, child, c.route.destination) && c == AsCandidate(rule, child, gatewayFor, c.route.destination);
  }

  lemma AgreementLifts(rules: seq<Rule>, gatewayFor: Rule -> string, d: string)
    ensures RulesAgree(rules, gatewayFor, d) <==> Agreed(CandidateSet(rules, gatewayFor), d)
  {
    var cs := CandidateSet(rules, gatewayFor);
    if RulesAgree(rules, gatewayFor, d) {
      forall a, b | a in cs && b in cs && a.route.destination == d && b.route.destination == d
        ensures a.route.interfaceName == b.route.interfaceName && a.route.gateway == b.route.gateway
      {
        var r, x := CandidateHasAsker(rules, gatewayFor, a);
        var s, y := CandidateHasAsker(rules, gatewayFor, b);
      }
    }
    if Agreed(cs, d) {
      forall r, x, s, y | AsksAmong(rules, r, x, d) && AsksAmong(rules, s, y, d)
        ensures r.interfaceId == s.interfaceId && GatewayOf(r, gatewayFor) == GatewayOf(s, gatewayFor)
      {
        AskerIsCandidate(rules, gatewayFor, r, x, d);
        AskerIsCandidate(rules, gatewayFor, s, y, d);
      }
    }
  }

  ghost predicate SomeoneAsks(rules: seq<Rule>, d: string)
  {
    exists rule, child :: AsksAmong(rules, rule, child, d)
  }

  lemma RequestLifts(rules: seq<Rule>, gatewayFor: Rule -> string, d: string)
    ensures SomeoneAsks(rules, d) <==> Requested(CandidateSet(rules, gatewayFor), d)
  {
    if SomeoneAsks(rules, d) {
      var rule, child :| AsksAmong(rules, rule, child, d);
      AskerIsCandidate(rules, gatewayFor, rule, child, d);
    }
    if Requested(CandidateSet(rules, gatewayFor), d) {
      var c :| c in CandidateSet(rules, gatewayFor) && c.route.destination == d;
      var rule, child := CandidateHasAsker(rules, gatewayFor, c);
    }
  }

  /** A destination is routed, and then exactly once, iff someone asks for it and all who ask agree. */
  lemma PlanRoutesExactly(rules: seq<Rule>, gatewayFor: Rule -> string, plan: Plan, d: string)
    requires IsPlan(CandidateSet(rules, gatewayFor), plan)
    ensures Serves(plan.routes, d) <==> SomeoneAsks(rules, d) && RulesAgree(rules, gatewayFor, d)
    ensures DistinctDestinations(plan.routes)
  {
    AgreementLifts(rules, gatewayFor, d);
    RequestLifts(rules, gatewayFor, d);
    var routes := plan.routes;
    forall i, j | 0 <= i < j < |routes| ensures routes[i].destination != routes[j].destination {
      PrecedesAsymmetric(routes[i].destination, routes[j].destination);
    }
    if Serves(routes, d) {
      var r :| r in routes && r.destination == d;
      assert Chosen(CandidateSet(rules, gatewayFor), r);
      assert Requested(CandidateSet(rules, gatewayFor), d);
    }
  }

  /** The route served is the one an asker wants: its interface, its gateway, its rule id. */
  lemma PlanServesAskers(rules: seq<Rule>, gatewayFor: Rule -> string, plan: Plan, r: Route,
                         rule: Rule, child: Option<SubRule>)
    requires IsPlan(CandidateSet(rules, gatewayFor), plan)
    requires r in plan.routes && AsksAmong(rules, rule, child, r.destination)
    ensures r.interfaceName == rule.interfaceId && r.gateway == GatewayOf(rule, gatewayFor)
    ensures r.ruleId == AsCandidate(rule, child, gatewayFor, r.destination).route.ruleId
            || Precedes(r.ruleId, AsCandidate(rule, child, gatewayFor, r.destination).route.ruleId)
  {
    AskerIsCandidate(rules, gatewayFor, rule, child, r.destination);
    var c := AsCandidate(rule, child, gatewayFor, r.destination);
    assert Chosen(CandidateSet(rules, gatewayFor), r);
    PrecedesTotal(r.ruleId, c.route.ruleId);
  }

  /******* The texts that are routed *******/

  /** The destination text `d` that a rule or child of this kind needs routed: each resolved address of a name, or the
      address itself, as a single host; a prefix as it is written. */
  predicate Needs(kind: DestinationKind, destination: string, resolvedIps: seq<string>, d: string)
  {
    match kind
    case Hostname => exists ip :: ip in resolvedIps && d == ip + "/32"
    case Url => exists ip :: ip in resolvedIps && d == ip + "/32"
    case Ipv4 => d == destination + "/32"
    case Cidr => d == destination
  }

  lemma NeedsExactly(kind: DestinationKind, destination: string, resolvedIps: seq<string>, d: string)
    ensures d in Cidrs(kind, destination, resolvedIps) <==> Needs(kind, destination, resolvedIps, d)
  {
    if kind == Hostname || kind == Url {
      var texts := Cidrs(kind, destination, resolvedIps);
      if d in texts {
        var i :| 0 <= i < |texts| && texts[i] == d;
        assert resolvedIps[i] in resolvedIps;
      }
      if ip :| ip in resolvedIps && d == ip + "/32" {
        var i :| 0 <= i < |resolvedIps| && resolvedIps[i] == ip;
        assert texts[i] == d;
      }
    }
  }

  /** An enabled rule needs the text routed over its own adapter. */
  predicate RuleNeeds(rule: Rule, d: string)
  {
    rule.enabled && Needs(rule.kind, rule.destination, rule.resolvedIps, d)
  }

  /** An enabled child of an enabled rule does. */
  predicate ChildNeeds(rule: Rule, sub: SubRule, d: string)
  {
    rule.enabled && sub in rule.subRules && sub.enabled && Needs(sub.kind, sub.destination, sub.resolvedIps, d)
  }

  /** The rule, or one of its children, needs the text routed. */
  predicate Wants(rule: Rule, d: string)
  {
    RuleNeeds(rule, d) || exists sub :: sub in rule.subRules && ChildNeeds(rule, sub, d)
  }

  lemma WantsIsAsking(rule: Rule, d: string)
    ensures Asks(rule, None, d) <==> RuleNeeds(rule, d)
    ensures forall sub :: Asks(rule, Some(sub), d) <==> ChildNeeds(rule, sub, d)
    ensures Wants(rule, d) <==> exists child :: Asks(rule, child, d)
  {
    NeedsExactly(rule.kind, rule.destination, rule.resolvedIps, d);
    forall sub ensures Asks(rule, Some(sub), d) <==> ChildNeeds(rule, sub, d) {
      NeedsExactly(sub.kind, sub.destination, sub.resolvedIps, d);
    }
    if RuleNeeds(rule, d) {
      assert Asks(rule, None, d);
    }
    if sub :| sub in rule.subRules && ChildNeeds(rule, sub, d) {
      assert Asks(rule, Some(sub), d);
    }
    if child :| Asks(rule, child, d) {
      assert child.Some? ==> ChildNeeds(rule, child.value, d);
    }
  }

  /** The gateway of a rule's adapter, without surrounding white space; none if nothing is left. */
  predicate HasGateway(route: Route, text: string)
  {
    if Trim(text) == "" then route.gateway.None? else route.gateway == Some(Trim(text))
  }

  ghost predicate AllWantAlike(rules: seq<Rule>, gatewayFor: Rule -> string, d: string)
  {
    forall r, s | r in rules && s in rules && Wants(r, d) && Wants(s, d) ::
      r.interfaceId == s.interfaceId && Trim(gatewayFor(r)) == Trim(gatewayFor(s))
  }

  /** What is routed, in terms of the rules: a text is routed, and once, if and only if some rule wants it and all rules
      that want it agree on adapter and gateway; and then over that adapter and gateway. */
  lemma RoutesExactly(rules: seq<Rule>, gatewayFor: Rule -> string, plan: Plan, d: string)
    requires IsPlan(CandidateSet(rules, gatewayFor), plan)
    ensures Serves(plan.routes, d)
            <==> (exists r :: r in rules && Wants(r, d)) && AllWantAlike(rules, gatewayFor, d)
    ensures DistinctDestinations(plan.routes)
    ensures forall route, r | route in plan.routes && route.destination == d && r in rules && Wants(r, d) ::
      route.interfaceName == r.interfaceId && HasGateway(route, gatewayFor(r))
  {
    PlanRoutesExactly(rules, gatewayFor, plan, d);
    WantedIsAsked(rules, d);
    WantersAgree(rules, gatewayFor, d);
    forall route, r | route in plan.routes && route.destination == d && r in rules && Wants(r, d)
      ensures route.interfaceName == r.interfaceId && HasGateway(route, gatewayFor(r)) {
      RouteServesWanter(rules, gatewayFor, plan, route, r);
    }
  }

  lemma RouteServesWanter(rules: seq<Rule>, gatewayFor: Rule -> string, plan: Plan, route: Route, rule: Rule)
    requires IsPlan(CandidateSet(rules, gatewayFor), plan)
    requires route in plan.routes && rule in rules && Wants(rule, route.destination)
    ensures route.interfaceName == rule.interfaceId && HasGateway(route, gatewayFor(rule))
  {
    WantsIsAsking(rule, route.destination);
    var child :| Asks(rule, child, route.destination);
    PlanServesAskers(rules, gatewayFor, plan, route, rule, child);
  }

  lemma WantedIsAsked(rules: seq<Rule>, d: string)
    ensures SomeoneAsks(rules, d) <==> exists r :: r in rules && Wants(r, d)
  {
    if SomeoneAsks(rules, d) {
      var r, child :| AsksAmong(rules, r, child, d);
      WantsIsAsking(r, d);
    }
    if r :| r in rules && Wants(r, d) {
      WantsIsAsking(r, d);
      var child :| Asks(r, child, d);
      assert AsksAmong(rules, r, child, d);
    }
  }

  lemma SameGateway(r: Rule, s: Rule, gatewayFor: Rule -> string)
    ensures GatewayOf(r, gatewayFor) == GatewayOf(s, gatewayFor) <==> Trim(gatewayFor(r)) == Trim(gatewayFor(s))
  {
  }

  lemma WantersAgree(rules: seq<Rule>, gatewayFor: Rule -> string, d: string)
    ensures RulesAgree(rules, gatewayFor, d)
            <==> AllWantAlike(rules, gatewayFor, d)
  {
    if RulesAgree(rules, gatewayFor, d) {
      forall r, s | r in rules && s in rules && Wants(r, d) && Wants(s, d)
        ensures r.interfaceId == s.interfaceId && Trim(gatewayFor(r)) == Trim(gatewayFor(s)) {
        WantsIsAsking(r, d);
        WantsIsAsking(s, d);
        var x :| Asks(r, x, d);
        var y :| Asks(s, y, d);
        assert AsksAmong(rules, r, x, d) && AsksAmong(rules, s, y, d);
        SameGateway(r, s, gatewayFor);
      }
    } else {
      var r, x, s, y :| AsksAmong(rules, r, x, d) && AsksAmong(rules, s, y, d)
                        && !(r.interfaceId == s.interfaceId && GatewayOf(r, gatewayFor) == GatewayOf(s, gatewayFor));
      WantsIsAsking(r, d);
      WantsIsAsking(s, d);
      SameGateway(r, s, gatewayFor);
    }
  }

  ghost predicate RuleAsks(rules: seq<Rule>, id: string, d: string)
  {
    exists rule, child :: AsksAmong(rules, rule, child, d) && rule.id == id
  }

  ghost predicate ChildAsks(rules: seq<Rule>, key: string, d: string)
  {
    exists rule, sub :: AsksAmong(rules, rule, Some(sub), d) && rule.id + ":" + sub.id == key
  }

  /** A rule carries a message about a destination iff it, or a child of it, asks for that destination and the
      askers disagree; a child does iff that child asks. Nobody else is blamed. */
  lemma PlanBlamesExactly(rules: seq<Rule>, gatewayFor: Rule -> string, plan: Plan, key: string, d: string)
    requires IsPlan(CandidateSet(rules, gatewayFor), plan)
    ensures (exists m :: Carries(plan.byRule, key, m) && m.destination == d) <==>
            RuleAsks(rules, key, d) && !RulesAgree(rules, gatewayFor, d)
    ensures (exists m :: Carries(plan.byChild, key, m) && m.destination == d) <==>
            ChildAsks(rules, key, d) && !RulesAgree(rules, gatewayFor, d)
  {
    var cs := CandidateSet(rules, gatewayFor);
    AgreementLifts(rules, gatewayFor, d);
    var m := Conflict(d, Interfaces(cs, d));
    if RuleRequests(cs, key, d) || ChildRequests(cs, key, d) {
      assert d in Destinations(cs);
    }
    RuleRequestLifts(rules, gatewayFor, key, d);
    ChildRequestLifts(rules, gatewayFor, key, d);
    if !Agreed(cs, d) {
      assert IsConflict(cs, m);
      assert Carries(plan.byRule, key, m) <==> RuleRequests(cs, key, d);
      assert Carries(plan.byChild, key, m) <==> ChildRequests(cs, key, d);
    }
  }

  lemma RuleRequestLifts(rules: seq<Rule>, gatewayFor: Rule -> string, id: string, d: string)
    ensures RuleAsks(rules, id, d) <==> RuleRequests(CandidateSet(rules, gatewayFor), id, d)
  {
    var cs := CandidateSet(rules, gatewayFor);
    if RuleRequests(cs, id, d) {
      var c :| c in cs && c.route.destination == d && c.parent == id;
      var rule, child := CandidateHasAsker(rules, gatewayFor, c);
    }
    if RuleAsks(rules, id, d) {
      var rule, child :| AsksAmong(rules, rule, child, d) && rule.id == id;
      AskerIsCandidate(rules, gatewayFor, rule, child, d);
      assert AsCandidate(rule, child, gatewayFor, d).parent == id;
    }
  }

  lemma ChildRequestLifts(rules: seq<Rule>, gatewayFor: Rule -> string, key: string, d: string)
    ensures ChildAsks(rules, key, d) <==> ChildRequests(CandidateSet(rules, gatewayFor), key, d)
  {
    var cs := CandidateSet(rules, gatewayFor);
    if ChildRequests(cs, key, d) {
      var c :| c in cs && c.route.destination == d && ChildKey(c) == Some(key);
      var rule, child := CandidateHasAsker(rules, gatewayFor, c);
      assert child.Some?;
    }
    if ChildAsks(rules, key, d) {
      var rule, sub :| AsksAmong(rules, rule, Some(sub), d) && rule.id + ":" + sub.id == key;
      AskerIsCandidate(rules, gatewayFor, rule, Some(sub), d);
      assert ChildKey(AsCandidate(rule, Some(sub), gatewayFor, d)) == Some(key);
    }
  }

  /******* Names and messages in terms of the rules *******/

  /** The route bears the id of the rule that needs it, or of that rule and its child. */
  predicate IsNamedAfter(route: Route, r: Rule)
  {
    (RuleNeeds(r, route.destination) && route.ruleId == r.id)
    || exists sub :: sub in r.subRules && ChildNeeds(r, sub, route.destination)
                     && route.ruleId == r.id + ":sub:" + sub.id
  }

  /** Of all who need the text, the route bears the name of the one whose id comes first. */
  lemma RouteNamesLeast(rules: seq<Rule>, gatewayFor: Rule -> string, plan: Plan, route: Route)
    requires IsPlan(CandidateSet(rules, gatewayFor), plan) && route in plan.routes
    ensures exists r :: r in rules && IsNamedAfter(route, r)
    ensures forall r | r in rules && RuleNeeds(r, route.destination) :: !Precedes(r.id, route.ruleId)
    ensures forall r, sub | r in rules && ChildNeeds(r, sub, route.destination) ::
              !Precedes(r.id + ":sub:" + sub.id, route.ruleId)
  {
    var cs, d := CandidateSet(rules, gatewayFor), route.destination;
    assert Chosen(cs, route);
    var c :| c in cs && c.route == route;
    var r, child := CandidateHasAsker(rules, gatewayFor, c);
    WantsIsAsking(r, d);
    assert IsNamedAfter(route, r);
    forall r | r in rules && RuleNeeds(r, d) ensures !Precedes(r.id, route.ruleId) {
      WantsIsAsking(r, d);
      AskerIsCandidate(rules, gatewayFor, r, None, d);
    }
    forall r, sub | r in rules && ChildNeeds(r, sub, d) ensures !Precedes(r.id + ":sub:" + sub.id, route.ruleId) {
      WantsIsAsking(r, d);
      AskerIsCandidate(rules, gatewayFor, r, Some(sub), d);
    }
  }

  /** A message names every adapter that a rule wants the text over. */
  ghost predicate NamesAdapters(rules: seq<Rule>, m: Conflict)
  {
    forall name :: name in m.interfaces <==> exists r :: r in rules && Wants(r, m.destination) && r.interfaceId == name
  }

  lemma AdaptersNamed(rules: seq<Rule>, gatewayFor: Rule -> string, d: string)
    ensures NamesAdapters(rules, Conflict(d, Interfaces(CandidateSet(rules, gatewayFor), d)))
  {
    var cs := CandidateSet(rules, gatewayFor);
    forall name ensures name in Interfaces(cs, d) <==> exists r :: r in rules && Wants(r, d) && r.interfaceId == name {
      if name in Interfaces(cs, d) {
        var c :| c in cs && c.route.destination == d && c.route.interfaceName == name;
        var r, child := CandidateHasAsker(rules, gatewayFor, c);
        WantsIsAsking(r, d);
      }
      if r :| r in rules && Wants(r, d) && r.interfaceId == name {
        WantsIsAsking(r, d);
        var child :| Asks(r, child, d);
        AskerIsCandidate(rules, gatewayFor, r, child, d);
      }
    }
  }

  lemma NamedAlike(rules: seq<Rule>, m: Conflict, n: Conflict)
    requires NamesAdapters(rules, m) && m.destination == n.destination
    ensures m.interfaces == n.interfaces <==> NamesAdapters(rules, n)
  {
    if NamesAdapters(rules, n) {
      assert forall name :: name in m.interfaces <==> name in n.interfaces;
    }
  }

  predicate ChildWants(rules: seq<Rule>, key: string, d: string)
  {
    exists r :: r in rules
      && exists sub :: sub in r.subRules && ChildNeeds(r, sub, d) && r.id + ":" + sub.id == key
  }

  /** Who is told what, in terms of the rules: rules that want a text, and children that need it, each get the message
      with all adapters it is wanted over, exactly when the wanters disagree; nobody gets any other message. */
  lemma BlamesWanters(rules: seq<Rule>, gatewayFor: Rule -> string, plan: Plan, key: string, m: Conflict)
    requires IsPlan(CandidateSet(rules, gatewayFor), plan)
    ensures Carries(plan.byRule, key, m)
            <==> !AllWantAlike(rules, gatewayFor, m.destination) && NamesAdapters(rules, m)
                 && exists r :: r in rules && r.id == key && Wants(r, m.destination)
    ensures Carries(plan.byChild, key, m)
            <==> !AllWantAlike(rules, gatewayFor, m.destination) && NamesAdapters(rules, m)
                 && ChildWants(rules, key, m.destination)
  {
    var cs, d := CandidateSet(rules, gatewayFor), m.destination;
    AgreementLifts(rules, gatewayFor, d);
    WantersAgree(rules, gatewayFor, d);
    AdaptersNamed(rules, gatewayFor, d);
    NamedAlike(rules, Conflict(d, Interfaces(cs, d)), m);
    RuleRequestLifts(rules, gatewayFor, key, d);
    ChildRequestLifts(rules, gatewayFor, key, d);
    RuleAsksWants(rules, key, d);
    ChildAsksWants(rules, key, d);
    if RuleRequests(cs, key, d) || ChildRequests(cs, key, d) {
      assert d in Destinations(cs);
    }
  }

  lemma RuleAsksWants(rules: seq<Rule>, id: string, d: string)
    ensures RuleAsks(rules, id, d) <==> exists r :: r in rules && r.id == id && Wants(r, d)
  {
    if RuleAsks(rules, id, d) {
      var r, child :| AsksAmong(rules, r, child, d) && r.id == id;
      WantsIsAsking(r, d);
    }
    if r :| r in rules && r.id == id && Wants(r, d) {
      WantsIsAsking(r, d);
      var child :| Asks(r, child, d);
      assert AsksAmong(rules, r, child, d);
    }
  }

  lemma ChildAsksWants(rules: seq<Rule>, key: string, d: string)
    ensures ChildAsks(rules, key, d) <==> ChildWants(rules, key, d)
  {
    if ChildAsks(rules, key, d) {
      var r, sub :| AsksAmong(rules, r, Some(sub), d) && r.id + ":" + sub.id == key;
      WantsIsAsking(r, d);
    }
    if ChildWants(rules, key, d) {
      var r :| r in rules && exists sub :: sub in r.subRules && ChildNeeds(r, sub, d) && r.id + ":" + sub.id == key;
      var sub :| sub in r.subRules && ChildNeeds(r, sub, d) && r.id + ":" + sub.id == key;
      WantsIsAsking(r, d);
      assert AsksAmong(rules, r, Some(sub), d);
    }
  }
}

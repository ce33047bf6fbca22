/** From user rules to kernel rows: the planner composed with the Windows route inventory. */
module EndToEnd {
  import opened Common
  import opened Ipv4
  import opened Protocol
  import opened WindowsRoutes
  import P = Planner

  /** The request that reaches the service for a planned route. */
  function ToSpec(route: P.Route): RouteSpec
  {
    RouteSpec(route.destination, if route.gateway.Some? then route.gateway.value else "",
              route.interfaceName, TAG_PREFIX + route.ruleId)
  }

  function ToSpecs(routes: seq<P.Route>): (specs: seq<RouteSpec>)
    ensures |specs| == |routes|
    ensures forall i | 0 <= i < |routes| :: specs[i] == ToSpec(routes[i])
  {
    if routes == [] then [] else [ToSpec(routes[0])] + ToSpecs(routes[1..])
  }

  function LengthDigits(length: PrefixLength): string
  {
    var digit := (d: nat) requires d < 10 => ['0' + d as char];
    if length < 10 then digit(length) else digit(length / 10) + digit(length % 10)
  }

  /** The text is what printing its own masked address and length gives back: no host bits, no leading zeros. */
  predicate Canonical(native: Native, text: string)
  {
    var address := native.inetPton(Before(text, '/'));
    var length := LengthOf(After(text, '/'));
    && address.Some? && length.Some?
    && text == native.inetNtop(Network(address.value, length.value)) + "/" + LengthDigits(length.value)
  }

  predicate SamePrefix(a: Row, b: Row)
  {
    a.network == b.network && a.length == b.length
  }

  lemma CanonicalTextIsPrefix(native: Native, a: RouteSpec, b: RouteSpec)
    requires Canonical(native, a.destination) && Canonical(native, b.destination)
    requires PopulateRow(native, a).Some? && PopulateRow(native, b).Some?
    requires SamePrefix(PopulateRow(native, a).value, PopulateRow(native, b).value)
    ensures a.destination == b.destination
  {
  }

  /** Planned routes with one destination text are one route. */
  lemma PlannedOnce(cs: set<P.Candidate>, plan: P.Plan, a: RouteSpec, b: RouteSpec)
    requires P.IsPlan(cs, plan)
    requires a in ToSpecs(plan.routes) && b in ToSpecs(plan.routes) && a.destination == b.destination
    ensures a == b
  {
    var specs := ToSpecs(plan.routes);
    var i :| 0 <= i < |specs| && specs[i] == a;
    var j :| 0 <= j < |specs| && specs[j] == b;
    if i < j {
      PrecedesAsymmetric(plan.routes[i].destination, plan.routes[j].destination);
    } else if j < i {
      PrecedesAsymmetric(plan.routes[j].destination, plan.routes[i].destination);
    }
  }

  /** If every planned text is canonical, an "ok" answer means: every planned row is in the table, and no two rows of
      the inventory send the same prefix to different adapters or gateways. */
  lemma RulesToKernel(native: Native, rules: seq<P.Rule>, gatewayFor: P.Rule -> string, plan: P.Plan,
                      managed: seq<RouteSpec>, kernel: Kernel)
    requires P.IsPlan(P.CandidateSet(rules, gatewayFor), plan)
    requires forall r | r in plan.routes :: Canonical(native, r.destination)
    ensures var (inventory, after, outcome) := ReconcileSpec(native, managed, kernel, ToSpecs(plan.routes));
            outcome.ok ==>
              && RowsOf(native, inventory) <= after.rows
              && |inventory| == |plan.routes|
              && (forall a, b | a in RowsOf(native, inventory) && b in RowsOf(native, inventory) && SamePrefix(a,
                  b) :: a == b)
  {
    var specs := ToSpecs(plan.routes);
    var (inventory, after, outcome) := ReconcileSpec(native, managed, kernel, specs);
    OkIsTruthful(native, managed, kernel, specs);
    if outcome.ok {
      forall a, b | a in RowsOf(native, inventory) && b in RowsOf(native, inventory) && SamePrefix(a, b) ensures a
          == b {
        var r :| r in specs && PopulateRow(native, r) == Some(a);
        var s :| s in specs && PopulateRow(native, s) == Some(b);
        SpecOfRoute(plan.routes, r);
        SpecOfRoute(plan.routes, s);
        CanonicalTextIsPrefix(native, r, s);
        PlannedOnce(P.CandidateSet(rules, gatewayFor), plan, r, s);
      }
    }
  }

  lemma SpecOfRoute(routes: seq<P.Route>, s: RouteSpec)
    requires s in ToSpecs(routes)
    ensures exists r :: r in routes && r.destination == s.destination
  {
    var i :| 0 <= i < |routes| && ToSpecs(routes)[i] == s;
    assert routes[i] in routes;
  }

  /******* When planned rows clash *******/

  /** The masked prefix a destination text denotes. */
  function PrefixOf(native: Native, text: string): Option<(Word, PrefixLength)>
  {
    var address, length := native.inetPton(Before(text, '/')), LengthOf(After(text, '/'));
    if address.None? || length.None? then None else Some((Network(address.value, length.value), length.value))
  }

  function HopOf(native: Native, gateway: Option<string>): Option<Word>
  {
    if gateway.None? then Some(ZERO) else native.inetPton(gateway.value)
  }

  /** The rule sends what it asks for to this adapter and next hop. */
  function WayOf(native: Native, rule: P.Rule, gatewayFor: P.Rule -> string): (Option<nat>, Option<Word>)
  {
    (Stoull(rule.interfaceId), HopOf(native, P.GatewayOf(rule, gatewayFor)))
  }

  /** Nobody else asks for this text in another way. */
  ghost predicate Undisputed(rules: seq<P.Rule>, gatewayFor: P.Rule -> string, rule: P.Rule, child: Option<P.SubRule>,
                             text: string)
  {
    P.AsksAmong(rules, rule, child, text) && P.RulesAgree(rules, gatewayFor, text)
  }

  /** Whoever asks, undisputed, for texts that denote one prefix sends it the same way. */
  ghost predicate PrefixesAgree(native: Native, rules: seq<P.Rule>, gatewayFor: P.Rule -> string)
  {
    forall r, x, d, s, y, e |
      Undisputed(rules, gatewayFor, r, x, d) && Undisputed(rules, gatewayFor, s, y, e)
      && PrefixOf(native, d) == PrefixOf(native, e) ::
      WayOf(native, r, gatewayFor) == WayOf(native, s, gatewayFor)
  }

  ghost predicate NoClash(rows: set<Row>)
  {
    forall a, b | a in rows && b in rows && SamePrefix(a, b) :: a == b
  }

  lemma RowParts(native: Native, spec: RouteSpec, row: Row)
    requires PopulateRow(native, spec) == Some(row)
    ensures PrefixOf(native, spec.destination) == Some((row.network, row.length))
    ensures Stoull(spec.interfaceLuid) == Some(row.luid)
    ensures (if spec.gateway == "" then Some(ZERO) else native.inetPton(spec.gateway)) == Some(row.nextHop)
  {
  }

  /** The row of a route that goes a rule's way. */
  lemma RowGoesTheWay(native: Native, rule: P.Rule, gatewayFor: P.Rule -> string, route: P.Route, row: Row)
    requires route.interfaceName == rule.interfaceId && route.gateway == P.GatewayOf(rule, gatewayFor)
    requires PopulateRow(native, ToSpec(route)) == Some(row)
    ensures PrefixOf(native, route.destination) == Some((row.network, row.length))
    ensures WayOf(native, rule, gatewayFor) == (Some(row.luid), Some(row.nextHop))
  {
    GatewayIsText(rule, gatewayFor);
    RowParts(native, ToSpec(route), row);
  }

  lemma SpecOfPlanned(routes: seq<P.Route>, route: P.Route)
    requires route in routes
    ensures ToSpec(route) in ToSpecs(routes)
  {
    var i :| 0 <= i < |routes| && routes[i] == route;
    assert ToSpecs(routes)[i] == ToSpec(route);
  }

  lemma RouteOfSpec(routes: seq<P.Route>, spec: RouteSpec) returns (route: P.Route)
    requires spec in ToSpecs(routes)
    ensures route in routes && ToSpec(route) == spec
  {
    var i :| 0 <= i < |routes| && ToSpecs(routes)[i] == spec;
    route := routes[i];
  }

  lemma GatewayIsText(rule: P.Rule, gatewayFor: P.Rule -> string)
    ensures P.GatewayOf(rule, gatewayFor) != Some("")
  {
  }

  /** The planned route of an undisputed request, which goes the asker's way. */
  lemma RouteOfAsker(rules: seq<P.Rule>, gatewayFor: P.Rule -> string, plan: P.Plan,
                     rule: P.Rule, child: Option<P.SubRule>, text: string) returns (route: P.Route)
    requires P.IsPlan(P.CandidateSet(rules, gatewayFor), plan) && Undisputed(rules, gatewayFor, rule, child, text)
    ensures route in plan.routes && route.destination == text
    ensures route.interfaceName == rule.interfaceId && route.gateway == P.GatewayOf(rule, gatewayFor)
  {
    P.PlanRoutesExactly(rules, gatewayFor, plan, text);
    route :| route in plan.routes && route.destination == text;
    P.PlanServesAskers(rules, gatewayFor, plan, route, rule, child);
  }

  lemma AskerOfRoute(rules: seq<P.Rule>, gatewayFor: P.Rule -> string, plan: P.Plan, route: P.Route)
    returns (rule: P.Rule, child: Option<P.SubRule>)
    requires P.IsPlan(P.CandidateSet(rules, gatewayFor), plan) && route in plan.routes
    ensures Undisputed(rules, gatewayFor, rule, child, route.destination)
    ensures route.interfaceName == rule.interfaceId && route.gateway == P.GatewayOf(rule, gatewayFor)
  {
    assert P.Serves(plan.routes, route.destination);
    P.PlanRoutesExactly(rules, gatewayFor, plan, route.destination);
    rule, child :| P.AsksAmong(rules, rule, child, route.destination);
    P.PlanServesAskers(rules, gatewayFor, plan, route, rule, child);
  }

  /** The row an undisputed request is installed as. */
  lemma RowOfAsker(native: Native, rules: seq<P.Rule>, gatewayFor: P.Rule -> string, plan: P.Plan,
                   rule: P.Rule, child: Option<P.SubRule>, text: string) returns (row: Row)
    requires P.IsPlan(P.CandidateSet(rules, gatewayFor), plan) && Undisputed(rules, gatewayFor, rule, child, text)
    requires Parsable(native, ToSpecs(plan.routes))
    ensures row in RowsOf(native, ToSpecs(plan.routes))
    ensures PrefixOf(native, text) == Some((row.network, row.length))
    ensures WayOf(native, rule, gatewayFor) == (Some(row.luid), Some(row.nextHop))
  {
    var route := RouteOfAsker(rules, gatewayFor, plan, rule, child, text);
    SpecOfPlanned(plan.routes, route);
    row := RowOfSpec(native, ToSpecs(plan.routes), ToSpec(route));
    RowGoesTheWay(native, rule, gatewayFor, route, row);
  }

  lemma RowOfSpec(native: Native, specs: seq<RouteSpec>, spec: RouteSpec) returns (row: Row)
    requires spec in specs && Parsable(native, specs)
    ensures PopulateRow(native, spec) == Some(row) && row in RowsOf(native, specs)
  {
    row := PopulateRow(native, spec).value;
  }

  lemma SpecOfRow(native: Native, specs: seq<RouteSpec>, row: Row) returns (spec: RouteSpec)
    requires row in RowsOf(native, specs)
    ensures spec in specs && PopulateRow(native, spec) == Some(row)
  {
    spec :| spec in specs && PopulateRow(native, spec) == Some(row);
  }

  /** Every planned row has an undisputed asker. */
  lemma AskerOfRow(native: Native, rules: seq<P.Rule>, gatewayFor: P.Rule -> string, plan: P.Plan, row: Row)
    returns (rule: P.Rule, child: Option<P.SubRule>, text: string)
    requires P.IsPlan(P.CandidateSet(rules, gatewayFor), plan) && row in RowsOf(native, ToSpecs(plan.routes))
    ensures Undisputed(rules, gatewayFor, rule, child, text)
    ensures PrefixOf(native, text) == Some((row.network, row.length))
    ensures WayOf(native, rule, gatewayFor) == (Some(row.luid), Some(row.nextHop))
  {
    var spec := SpecOfRow(native, ToSpecs(plan.routes), row);
    var route := RouteOfSpec(plan.routes, spec);
    rule, child := AskerOfRoute(rules, gatewayFor, plan, route);
    text := route.destination;
    RowGoesTheWay(native, rule, gatewayFor, route, row);
  }

  lemma AgreementPreventsClash(native: Native, rules: seq<P.Rule>, gatewayFor: P.Rule -> string, plan: P.Plan,
                               a: Row, b: Row)
    requires P.IsPlan(P.CandidateSet(rules, gatewayFor), plan) && PrefixesAgree(native, rules, gatewayFor)
    requires a in RowsOf(native, ToSpecs(plan.routes)) && b in RowsOf(native, ToSpecs(plan.routes)) && SamePrefix(a, b)
    ensures a == b
  {
    var r, x, d := AskerOfRow(native, rules, gatewayFor, plan, a);
    var s, y, e := AskerOfRow(native, rules, gatewayFor, plan, b);
    assert WayOf(native, r, gatewayFor) == WayOf(native, s, gatewayFor);
  }

  lemma NoClashMeansAgreement(native: Native, rules: seq<P.Rule>, gatewayFor: P.Rule -> string, plan: P.Plan,
                              r: P.Rule, x: Option<P.SubRule>, d: string, s: P.Rule, y: Option<P.SubRule>, e: string)
    requires P.IsPlan(P.CandidateSet(rules, gatewayFor), plan) && Parsable(native, ToSpecs(plan.routes))
    requires NoClash(RowsOf(native, ToSpecs(plan.routes)))
    requires Undisputed(rules, gatewayFor, r, x, d) && Undisputed(rules, gatewayFor, s, y, e)
    requires PrefixOf(native, d) == PrefixOf(native, e)
    ensures WayOf(native, r, gatewayFor) == WayOf(native, s, gatewayFor)
  {
    var a := RowOfAsker(native, rules, gatewayFor, plan, r, x, d);
    var b := RowOfAsker(native, rules, gatewayFor, plan, s, y, e);
    assert SamePrefix(a, b);
  }

  /** After an ok reconcile of a plan, no two managed rows with one prefix differ if and only if the rules that ask,
      undisputed, for texts of one masked prefix agree on adapter and next hop. */
  lemma RulesToKernelExactly(native: Native, rules: seq<P.Rule>, gatewayFor: P.Rule -> string, plan: P.Plan,
                             managed: seq<RouteSpec>, kernel: Kernel)
    requires P.IsPlan(P.CandidateSet(rules, gatewayFor), plan)
    requires ReconcileSpec(native, managed, kernel, ToSpecs(plan.routes)).2.ok
    ensures var (inventory, after, _) := ReconcileSpec(native, managed, kernel, ToSpecs(plan.routes));
            && RowsOf(native, inventory) <= after.rows
            && (NoClash(RowsOf(native, inventory)) <==> PrefixesAgree(native, rules, gatewayFor))
  {
    var specs := ToSpecs(plan.routes);
    var rows := RowsOf(native, specs);
    OkIsTruthful(native, managed, kernel, specs);
    if PrefixesAgree(native, rules, gatewayFor) {
      forall a, b | a in rows && b in rows && SamePrefix(a, b) ensures a == b {
        AgreementPreventsClash(native, rules, gatewayFor, plan, a, b);
      }
    }
    if NoClash(rows) {
      forall r, x, d, s, y, e |
        Undisputed(rules, gatewayFor, r, x, d) && Undisputed(rules, gatewayFor, s, y, e)
        && PrefixOf(native, d) == PrefixOf(native, e)
        ensures WayOf(native, r, gatewayFor) == WayOf(native, s, gatewayFor)
      {
        NoClashMeansAgreement(native, rules, gatewayFor, plan, r, x, d, s, y, e);
      }
    }
  }

  /******* The row of a single host *******/

  lemma {:induction false} CutAtSlash(ip: string)
    requires '/' !in ip
    ensures Before(ip + "/32", '/') == ip && After(ip + "/32", '/') == "32"
  {
    if ip == "" {
      assert ip + "/32" == "/32";
    } else {
      assert ip[0] in ip;
      assert (ip + "/32")[1..] == ip[1..] + "/32";
      CutAtSlash(ip[1..]);
    }
  }

  lemma LengthThirtyTwo()
    ensures LengthOf("32") == Some(32)
  {
    assert "32"[..1] == "3" && "3"[..0] == "";
    assert ToNat("32") == 10 * ToNat("32"[..1]) + Digit('2');
    assert ToNat("3") == 10 * ToNat("3"[..0]) + Digit('3');
  }

  lemma WholeMask(a: Word)
    ensures Network(a, 32) == a
  {
    MaskBits(32);
  }

  /** The prefix that a single host's text denotes. */
  lemma PrefixOfHost(native: Native, ip: string)
    requires '/' !in ip && native.inetPton(ip).Some?
    ensures PrefixOf(native, ip + "/32") == Some((native.inetPton(ip).value, 32))
  {
    CutAtSlash(ip);
    LengthThirtyTwo();
    WholeMask(native.inetPton(ip).value);
  }

  /** The address `w`, over this adapter, and no other address. */
  ghost predicate RoutesOnly(row: Row, w: Word, rule: P.Rule)
  {
    && Stoull(rule.interfaceId) == Some(row.luid)
    && forall a: Word :: Contains(row.network, row.length, a) <==> a == w
  }

  /** After an ok reconcile of a plan, every address that an undisputed rule wants as a single host - one that its name
      resolved to, or its own - has a row over the rule's adapter that contains this address and no other. */
  lemma WantedHostIsRouted(native: Native, rules: seq<P.Rule>, gatewayFor: P.Rule -> string, plan: P.Plan,
                           managed: seq<RouteSpec>, kernel: Kernel, rule: P.Rule, ip: string)
    returns (row: Row)
    requires P.IsPlan(P.CandidateSet(rules, gatewayFor), plan)
    requires ReconcileSpec(native, managed, kernel, ToSpecs(plan.routes)).2.ok
    requires rule in rules && P.Wants(rule, ip + "/32") && P.AllWantAlike(rules, gatewayFor, ip + "/32")
    requires '/' !in ip && native.inetPton(ip).Some?
    ensures row in ReconcileSpec(native, managed, kernel, ToSpecs(plan.routes)).1.rows
    ensures row.length == 32 && RoutesOnly(row, native.inetPton(ip).value, rule)
  {
    var d := ip + "/32";
    P.WantsIsAsking(rule, d);
    P.WantersAgree(rules, gatewayFor, d);
    var child :| P.Asks(rule, child, d);
    assert Undisputed(rules, gatewayFor, rule, child, d);
    OkIsTruthful(native, managed, kernel, ToSpecs(plan.routes));
    row := RowOfAsker(native, rules, gatewayFor, plan, rule, child, d);
    PrefixOfHost(native, ip);
    OnlyItself(row, native.inetPton(ip).value);
  }

  lemma OnlyItself(row: Row, w: Word)
    requires row.network == w && row.length == 32
    ensures forall a: Word :: Contains(row.network, row.length, a) <==> a == w
  {
    forall a: Word ensures Contains(row.network, row.length, a) <==> a == w {
      WholeMask(a);
    }
  }
}

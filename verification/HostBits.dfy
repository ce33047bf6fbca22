/** Host bits in destination texts: two rules that the planner finds no fault with clash in the kernel. */
module HostBits {
  import opened Common
  import opened Ipv4
  import opened Protocol
  import opened WindowsRoutes
  import opened EndToEnd
  import P = Planner

  function HostBitsRule(id: string, destination: string, adapter: string): P.Rule
  {
    P.Rule(id, P.Cidr, destination, adapter, true, [], None, [])
  }

  /** Two texts with host bits for the prefix 10.0.0.0/8, on different adapters. */
  const FIRST := HostBitsRule("a", "10.0.0.1/8", "1")
  const SECOND := HostBitsRule("b", "10.0.0.2/8", "2")
  const RULES := [FIRST, SECOND]
  const FIRST_ROUTE := P.Route("10.0.0.1/8", None, "1", "a")
  const SECOND_ROUTE := P.Route("10.0.0.2/8", None, "2", "b")
  const PLAN := P.Plan([FIRST_ROUTE, SECOND_ROUTE], map[], map[])

  const ZEROS := [false, false, false, false, false, false, false, false]
  const TEN := [false, false, false, false, true, false, true, false]
  const TEN_ONE: Word := TEN + ZEROS + ZEROS + [false, false, false, false, false, false, false, true]
  const TEN_TWO: Word := TEN + ZEROS + ZEROS + [false, false, false, false, false, false, true, false]

  function NoGateway(): P.Rule -> string
  {
    (rule: P.Rule) => ""
  }

  /** A system without failures that reads the two addresses and finds each new route in force. */
  function Machine(): Native
  {
    Native((s: string) => if s == "10.0.0.1" then Some(TEN_ONE) else if s == "10.0.0.2" then Some(TEN_TWO) else None,
           (w: Word) => "",
           (n: nat) => false,
           (n: nat) => true,
           (n: nat) => Some((if n < 3 then 1 else 2, ZERO)))
  }

  lemma OnlyTwoCandidates(c: P.Candidate)
    ensures c in P.CandidateSet(RULES, NoGateway()) <==>
            c == P.Candidate("a", None, FIRST_ROUTE) || c == P.Candidate("b", None, SECOND_ROUTE)
  {
    assert FIRST in RULES && SECOND in RULES;
    assert Trim("") == "";
    assert P.Asks(FIRST, None, "10.0.0.1/8") && P.Asks(SECOND, None, "10.0.0.2/8");
    P.AskerIsCandidate(RULES, NoGateway(), FIRST, None, "10.0.0.1/8");
    P.AskerIsCandidate(RULES, NoGateway(), SECOND, None, "10.0.0.2/8");
    if c in P.CandidateSet(RULES, NoGateway()) {
      var rule, child := P.CandidateHasAsker(RULES, NoGateway(), c);
      assert rule.subRules == [] && child.None?;
    }
  }

  lemma {:induction false} PrecedesAfter(prefix: string, a: string, b: string)
    ensures Precedes(prefix + a, prefix + b) <==> Precedes(a, b)
  {
    if prefix == "" {
      assert prefix + a == a && prefix + b == b;
    } else {
      assert (prefix + a)[1..] == prefix[1..] + a && (prefix + b)[1..] == prefix[1..] + b;
      PrecedesAfter(prefix[1..], a, b);
    }
  }

  lemma Halves()
    ensures "10.0.0." + "1/8" == FIRST_ROUTE.destination && "10.0.0." + "2/8" == SECOND_ROUTE.destination
  {
  }

  lemma SortedPair()
    ensures FIRST_ROUTE.destination != SECOND_ROUTE.destination
    ensures Precedes(FIRST_ROUTE.destination, SECOND_ROUTE.destination)
  {
    assert FIRST_ROUTE.destination[7] != SECOND_ROUTE.destination[7];
    PrecedesAfter("10.0.0.", "1/8", "2/8");
    Halves();
  }

  /** The planner sees no conflict in them. */
  lemma HostBitsArePlanned()
    ensures P.IsPlan(P.CandidateSet(RULES, NoGateway()), PLAN)
  {
    TwoCandidates();
    SortedPair();
    TwoRoutesPlan(P.Candidate("a", None, FIRST_ROUTE), P.Candidate("b", None, SECOND_ROUTE));
  }

  lemma TwoCandidates()
    ensures P.CandidateSet(RULES, NoGateway())
            == {P.Candidate("a", None, FIRST_ROUTE), P.Candidate("b", None, SECOND_ROUTE)}
  {
    var cs := P.CandidateSet(RULES, NoGateway());
    var one, two := P.Candidate("a", None, FIRST_ROUTE), P.Candidate("b", None, SECOND_ROUTE);
    forall c ensures c in cs <==> c in {one, two} {
      OnlyTwoCandidates(c);
    }
  }

  /** Two requests for two texts are planned as they are. */
  lemma TwoRoutesPlan(one: P.Candidate, two: P.Candidate)
    requires one.route.destination != two.route.destination
    requires Precedes(one.route.destination, two.route.destination)
    ensures P.IsPlan({one, two}, P.Plan([one.route, two.route], map[], map[]))
  {
    var cs, plan := {one, two}, P.Plan([one.route, two.route], map[], map[]);
    P.NotBeforeItself(one.route.ruleId);
    P.NotBeforeItself(two.route.ruleId);
    assert P.Chosen(cs, one.route) && P.Chosen(cs, two.route);
    forall d | P.Requested(cs, d) ensures P.Serves(plan.routes, d) {
      assert plan.routes[0] == one.route && plan.routes[1] == two.route;
    }
  }

  lemma OnePiece(s: string)
    requires '.' !in s
    ensures Split(s, '.') == [s]
  {
  }

  lemma SplitAt(head: string, tail: string)
    requires '.' !in head
    ensures Split(head + "." + tail, '.') == [head] + Split(tail, '.')
  {
    CutAt(head, tail, '.');
  }

  lemma {:induction false} CutAt(head: string, tail: string, c: char)
    requires c !in head
    ensures Before(head + [c] + tail, c) == head && After(head + [c] + tail, c) == tail
  {
    var text := head + [c] + tail;
    if head == "" {
      assert text == [c] + tail;
    } else {
      assert text[0] == head[0] && head[0] in head;
      assert text[1..] == head[1..] + [c] + tail;
      CutAt(head[1..], tail, c);
    }
  }

  lemma FourPieces(a: string, b: string, c: string, d: string)
    requires '.' !in a && '.' !in b && '.' !in c && '.' !in d
    ensures Split(a + "." + (b + "." + (c + "." + d)), '.') == [a, b, c, d]
  {
    OnePiece(d);
    SplitAt(c, d);
    SplitAt(b, c + "." + d);
    SplitAt(a, b + "." + (c + "." + d));
    assert [a] + ([b] + ([c] + [d])) == [a, b, c, d];
  }

  lemma AddressText(last: string)
    requires last == "1" || last == "2"
    ensures IsIpv4Text("10" + "." + ("0" + "." + ("0" + "." + last)))
  {
    FourPieces("10", "0", "0", last);
    assert IsOctet("10") && IsOctet("0") && IsOctet(last);
  }

  lemma DestinationText(address: string)
    requires '/' !in address
    ensures Before(address + "/8", '/') == address && After(address + "/8", '/') == "8"
  {
    CutAt(address, "8", '/');
    assert address + ['/'] + "8" == address + "/8";
  }

  lemma LengthEight()
    ensures LengthOf("8") == Some(8)
  {
    assert ToNat("8") == 10 * ToNat("8"[..0]) + Digit('8');
  }

  lemma AdapterNumber(digit: char)
    requires IsDigit(digit)
    ensures Stoull([digit]) == Some(Digit(digit))
  {
    assert [digit][..0] == "";
    assert ToNat([digit]) == 10 * ToNat([digit][..0]) + Digit(digit);
  }

  const FIRST_ROW := Row(Network(TEN_ONE, 8), 8, 1, ZERO)
  const SECOND_ROW := Row(Network(TEN_TWO, 8), 8, 2, ZERO)

  lemma SlashEight(spec: RouteSpec, address: string, adapter: char)
    requires IsIpv4Text(address) && '/' !in address && spec.destination == address + "/8"
    requires IsDigit(adapter) && spec.gateway == "" && spec.interfaceLuid == [adapter]
    requires TAG_PREFIX <= spec.tag && |spec.tag| <= 200
    ensures IsValidRoute(spec)
  {
    DestinationText(address);
    assert '/' in address + "/8";
    assert IsLengthText("8");
  }

  lemma SlashEightRow(native: Native, spec: RouteSpec, address: string, adapter: char, word: Word)
    requires '/' !in address && spec.destination == address + "/8" && native.inetPton(address) == Some(word)
    requires IsDigit(adapter) && spec.gateway == "" && spec.interfaceLuid == [adapter]
    ensures PopulateRow(native, spec) == Some(Row(Network(word, 8), 8, Digit(adapter), ZERO))
  {
    DestinationText(address);
    LengthEight();
    AdapterNumber(adapter);
  }

  const FIRST_ADDRESS := "10.0.0.1"
  const SECOND_ADDRESS := "10.0.0.2"

  lemma Addresses()
    ensures IsIpv4Text(FIRST_ADDRESS) && IsIpv4Text(SECOND_ADDRESS)
  {
    AddressText("1");
    AddressText("2");
    Spelled();
  }

  lemma Spelled()
    ensures "10" + "." + ("0" + "." + ("0" + "." + "1")) == FIRST_ADDRESS
    ensures "10" + "." + ("0" + "." + ("0" + "." + "2")) == SECOND_ADDRESS
  {
  }

  lemma NoSlashes()
    ensures '/' !in FIRST_ADDRESS && '/' !in SECOND_ADDRESS
  {
  }

  lemma Tags(ruleId: string)
    requires |ruleId| == 1
    ensures TAG_PREFIX <= TAG_PREFIX + ruleId && |TAG_PREFIX + ruleId| <= 200
  {
  }

  lemma Texts()
    ensures FIRST_ADDRESS + "/8" == FIRST_ROUTE.destination && SECOND_ADDRESS + "/8" == SECOND_ROUTE.destination
  {
  }

  lemma Reads()
    ensures Machine().inetPton(FIRST_ADDRESS) == Some(TEN_ONE) && Machine().inetPton(SECOND_ADDRESS) == Some(TEN_TWO)
  {
    assert FIRST_ADDRESS[7] != SECOND_ADDRESS[7];
  }

  /** What the service makes of such a route: it is valid and populates this row. */
  lemma SpecFacts(native: Native, route: P.Route, address: string, adapter: char, word: Word)
    requires IsIpv4Text(address) && '/' !in address && route.destination == address + "/8"
    requires IsDigit(adapter) && route.gateway == None && route.interfaceName == [adapter] && |route.ruleId| == 1
    requires native.inetPton(address) == Some(word)
    ensures IsValidRoute(ToSpec(route))
    ensures PopulateRow(native, ToSpec(route)) == Some(Row(Network(word, 8), 8, Digit(adapter), ZERO))
  {
    Tags(route.ruleId);
    SlashEight(ToSpec(route), address, adapter);
    SlashEightRow(native, ToSpec(route), address, adapter, word);
  }

  /** Any two texts of this form are installed side by side, whether or not they mean one prefix. */
  lemma TwoTextsInstalled(native: Native, one: P.Route, two: P.Route, a: string, b: string, x: Word, y: Word)
    requires IsIpv4Text(a) && '/' !in a && one.destination == a + "/8" && native.inetPton(a) == Some(x)
    requires IsIpv4Text(b) && '/' !in b && two.destination == b + "/8" && native.inetPton(b) == Some(y)
    requires one.gateway == two.gateway == None && |one.ruleId| == |two.ruleId| == 1
    requires one.interfaceName == ['1'] && two.interfaceName == ['2'] && NoFailures(native)
    requires native.best(2) == Some((1, ZERO)) && native.best(5) == Some((2, ZERO))
    ensures var (inventory, after, outcome) := ReconcileSpec(native, [], Kernel({}, {}, 0), [ToSpec(one), ToSpec(two)]);
            && outcome.ok
            && after.rows == RowsOf(native, inventory)
               == {Row(Network(x, 8), 8, 1, ZERO), Row(Network(y, 8), 8, 2, ZERO)}
  {
    SpecFacts(native, one, a, '1', x);
    SpecFacts(native, two, b, '2', y);
    TwoInstalled(native, ToSpec(one), ToSpec(two), Row(Network(x, 8), 8, 1, ZERO), Row(Network(y, 8), 8, 2, ZERO));
  }

  lemma OnePrefix()
    ensures Network(TEN_ONE, 8) == Network(TEN_TWO, 8)
  {
    MaskBits(8);
    forall i | 0 <= i < 32 ensures Network(TEN_ONE, 8)[i] == Network(TEN_TWO, 8)[i] {
      if i < 8 {
        assert TEN_ONE[i] == TEN[i] == TEN_TWO[i];
      }
    }
  }

  /** A route that is not in the table and whose add succeeds, inspected with the adapter it asks for. */
  lemma AddedInForce(native: Native, w: Work, spec: RouteSpec, row: Row)
    requires PopulateRow(native, spec) == Some(row) && spec.gateway == "" && row !in w.kernel.rows
    requires !native.fails(w.kernel.calls) && native.readable(w.kernel.calls + 1)
    requires native.best(w.kernel.calls + 2) == Some((row.luid, ZERO))
    ensures var v := AddOne(native, [], w, spec);
            && v.errors == w.errors && v.next == w.next + [spec] && v.kernel.calls == w.kernel.calls + 3
            && v.kernel.rows == w.kernel.rows + {row}
  {
  }

  lemma TwoTurns(native: Native, w: Work, one: RouteSpec, two: RouteSpec, first: Work, second: Work)
    requires first == AddOne(native, [], w, one) && second == AddOne(native, [], first, two)
    ensures AddPhase(native, [], w, [one, two]) == second
  {
    assert [one, two][1..] == [two] && [two][1..] == [];
    assert AddPhase(native, [], first, [two]) == AddPhase(native, [], second, []);
  }

  lemma TwoAdded(native: Native, one: RouteSpec, two: RouteSpec, a: Row, b: Row)
    requires PopulateRow(native, one) == Some(a) && PopulateRow(native, two) == Some(b) && a != b
    requires one.gateway == two.gateway == "" && NoFailures(native)
    requires native.best(2) == Some((a.luid, ZERO)) && native.best(5) == Some((b.luid, ZERO))
    ensures var w := AddPhase(native, [], Start(Kernel({}, {}, 0)), [one, two]);
            w.errors == [] && w.next == [one, two] && w.kernel.rows == {a, b}
  {
    var start := Start(Kernel({}, {}, 0));
    AddedInForce(native, start, one, a);
    var first := AddOne(native, [], start, one);
    AddedInForce(native, first, two, b);
    var second := AddOne(native, [], first, two);
    TwoTurns(native, start, one, two, first, second);
    assert [] + [one] + [two] == [one, two];
    assert {} + {a} + {b} == {a, b};
  }

  lemma TwoInstalled(native: Native, one: RouteSpec, two: RouteSpec, a: Row, b: Row)
    requires IsValidRoute(one) && IsValidRoute(two)
    requires PopulateRow(native, one) == Some(a) && PopulateRow(native, two) == Some(b) && a != b
    requires one.gateway == two.gateway == "" && NoFailures(native)
    requires native.best(2) == Some((a.luid, ZERO)) && native.best(5) == Some((b.luid, ZERO))
    ensures var (inventory, after, outcome) := ReconcileSpec(native, [], Kernel({}, {}, 0), [one, two]);
            outcome.ok && inventory == [one, two] && after.rows == {a, b} && RowsOf(native, inventory) == {a, b}
  {
    TwoAdded(native, one, two, a, b);
    assert InvalidRoutes([one, two]) == [];
    TwoRows(native, one, two, a, b);
  }

  lemma TwoRows(native: Native, one: RouteSpec, two: RouteSpec, a: Row, b: Row)
    requires PopulateRow(native, one) == Some(a) && PopulateRow(native, two) == Some(b)
    ensures RowsOf(native, [one, two]) == {a, b}
  {
    RowsOfCons(native, one, [two]);
    RowsOfCons(native, two, []);
    assert [one] + [two] == [one, two] && [two] + [] == [two];
  }

  /** Two enabled rules that the planner finds no fault with, taken to an ok reconcile that leaves two managed rows of
      one prefix on different adapters. */
  lemma HostBitsDefeatThePlanner()
    ensures P.IsPlan(P.CandidateSet(RULES, NoGateway()), PLAN)
    ensures var (inventory, after, outcome) := ReconcileSpec(Machine(), [], Kernel({}, {}, 0), ToSpecs(PLAN.routes));
            && outcome.ok && after.rows == RowsOf(Machine(), inventory) == {FIRST_ROW, SECOND_ROW}
            && SamePrefix(FIRST_ROW, SECOND_ROW) && FIRST_ROW.luid != SECOND_ROW.luid
  {
    HostBitsArePlanned();
    Addresses();
    NoSlashes();
    Texts();
    Reads();
    OnePrefix();
    PlannedSpecs();
    TwoTextsInstalled(Machine(), FIRST_ROUTE, SECOND_ROUTE, FIRST_ADDRESS, SECOND_ADDRESS, TEN_ONE, TEN_TWO);
  }

  lemma PlannedSpecs()
    ensures ToSpecs(PLAN.routes) == [ToSpec(FIRST_ROUTE), ToSpec(SECOND_ROUTE)]
  {
    var specs := ToSpecs(PLAN.routes);
    assert specs[0] == ToSpec(FIRST_ROUTE) && specs[1] == ToSpec(SECOND_ROUTE);
  }
}

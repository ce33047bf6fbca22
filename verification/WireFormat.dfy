/** The bytes of the four messages written out: what another program has to send and expect. */
module WireFormat {
  import opened Common
  import opened Codec
  import opened Protocol
  import opened Messages
  import opened ServicePipe

  /******* The layout *******/

  function Byte(n: nat): char
  {
    (n % 256) as char
  }

  /** Four bytes, the lowest first. */
  function Four(n: nat): string
  {
    [Byte(n), Byte(n / 256), Byte(n / 256 / 256), Byte(n / 256 / 256 / 256)]
  }

  function Eight(n: nat): string
  {
    Four(n) + Four(n / 256 / 256 / 256 / 256)
  }

  function OneOrZero(flag: bool): string
  {
    [if flag then 1 as char else 0 as char]
  }

  /** A size as the program casts it. */
  function Size(n: nat): string
  {
    Four(n % 0x1_0000_0000)
  }

  /** The size in four bytes, then the bytes themselves. */
  function Sized(s: string): string
  {
    Size(|s|) + s
  }

  function Joined(pieces: seq<string>): string
  {
    if pieces == [] then "" else pieces[0] + Joined(pieces[1..])
  }

  /** The count in four bytes, then the items. */
  function Counted<T>(bytes: T -> string, xs: seq<T>): string
  {
    Size(|xs|) + Joined(seq(|xs|, i requires 0 <= i < |xs| => bytes(xs[i])))
  }

  function RouteBytes(r: RouteSpec): string
  {
    Sized(r.destination) + Sized(r.gateway) + Sized(r.interfaceLuid) + Sized(r.tag)
  }

  function ExecutableBytes(e: Executable): string
  {
    Sized(e.path) + Sized(e.appId)
  }

  function AppRuleBytes(r: AppRule): string
  {
    Sized(r.id) + Sized(r.interfaceLuid) + Sized(r.policy) + OneOrZero(r.enabled)
    + Counted(ExecutableBytes, r.executables)
  }

  function AppRulesBytes(m: AppRules): string
  {
    OneOrZero(m.masterEnabled) + Sized(m.hash) + Counted(AppRuleBytes, m.rules)
  }

  function ReadinessBytes(r: Readiness): string
  {
    OneOrZero(r.service) + OneOrZero(r.driver) + OneOrZero(r.engine) + OneOrZero(r.proxy) + OneOrZero(r.reboot)
    + OneOrZero(r.testMode)
  }

  function TotalsBytes(t: Totals): string
  {
    Sized(t.appliedHash) + Sized(t.message) + Four(t.activeFlows) + Eight(t.bytesIn) + Eight(t.bytesOut)
  }

  function MetricBytes(m: Metric): string
  {
    Sized(m.id) + Four(m.activeFlows) + Eight(m.bytesIn) + Eight(m.bytesOut) + Sized(m.lastError)
  }

  function StatusBytes(s: Status): string
  {
    ReadinessBytes(s.readiness) + TotalsBytes(s.totals) + Counted(MetricBytes, s.metrics)
  }

  function CountsBytes(c: Counts): string
  {
    OneOrZero(c.ok) + Four(c.added) + Four(c.removed)
  }

  function CheckBytes(c: RouteCheck): string
  {
    Sized(c.destination) + Sized(c.expectedInterface) + Sized(c.expectedGateway) + Sized(c.actualInterface)
    + Sized(c.actualGateway) + OneOrZero(c.exactPresent) + OneOrZero(c.verified) + Sized(c.message)
  }

  function ProcessBytes(p: Process): string
  {
    Four(p.pid) + Sized(p.name)
  }

  function OutcomeBytes(o: Outcome): string
  {
    CountsBytes(o.counts) + Counted(Sized, o.errors) + Counted(CheckBytes, o.checks)
    + Counted(Sized, o.resetDestinations) + Counted(ProcessBytes, o.restarted)
  }

  /******* The writers follow it *******/

  lemma WrittenFour(n: nat)
    ensures WriteU32(n) == Four(n)
  {
    var a, b, c := n / 256, n / 256 / 256, n / 256 / 256 / 256;
    assert WriteLittle(c, 1) == WriteU8(c) + WriteLittle(c / 256, 0);
    assert WriteLittle(b, 2) == WriteU8(b) + WriteLittle(c, 1);
    assert WriteLittle(a, 3) == WriteU8(a) + WriteLittle(b, 2);
    assert WriteLittle(n, 4) == WriteU8(n) + WriteLittle(a, 3);
  }

  lemma WrittenEight(n: nat)
    ensures WriteU64(n) == Eight(n)
  {
    var a, b, c := n / 256, n / 256 / 256, n / 256 / 256 / 256;
    var high := WriteLittle(c / 256, 4);
    WrittenFour(c / 256);
    assert WriteLittle(c, 5) == WriteU8(c) + high;
    assert WriteLittle(b, 6) == WriteU8(b) + WriteLittle(c, 5);
    assert WriteLittle(a, 7) == WriteU8(a) + WriteLittle(b, 6);
    assert WriteLittle(n, 8) == WriteU8(n) + WriteLittle(a, 7);
  }

  lemma WrittenString(s: string)
    ensures WriteString(s) == Sized(s)
  {
    WrittenFour(|s| % 0x1_0000_0000);
  }

  lemma WrittenFlag(flag: bool)
    ensures WriteFlag(flag) == OneOrZero(flag)
  {
  }

  lemma {:induction false} WrittenAll<T>(c: Codec<T>, bytes: T -> string, xs: seq<T>)
    requires forall x | x in xs :: c.write(x) == bytes(x)
    ensures WriteAll(c, xs) == Joined(seq(|xs|, i requires 0 <= i < |xs| => bytes(xs[i])))
  {
    if xs != [] {
      WrittenAll(c, bytes, xs[1..]);
      var pieces := seq(|xs|, i requires 0 <= i < |xs| => bytes(xs[i]));
      var rest := seq(|xs[1..]|, i requires 0 <= i < |xs[1..]| => bytes(xs[1..][i]));
      assert pieces[1..] == rest;
      assert xs[0] in xs;
    }
  }

  lemma WrittenMany<T>(c: Codec<T>, bytes: T -> string, xs: seq<T>)
    requires forall x | x in xs :: c.write(x) == bytes(x)
    ensures WriteMany(c, xs) == Counted(bytes, xs)
  {
    WrittenFour(|xs| % 0x1_0000_0000);
    WrittenAll(c, bytes, xs);
  }

  /******* Message by message *******/

  lemma RouteIsWritten(r: RouteSpec)
    ensures RouteCodec().write(r) == RouteBytes(r)
  {
    RouteSpecText(r);
    WrittenString(r.destination);
    WrittenString(r.gateway);
    WrittenString(r.interfaceLuid);
    WrittenString(r.tag);
    assert "" + Sized(r.destination) == Sized(r.destination);
    Flat4("", Sized(r.destination), Sized(r.gateway), Sized(r.interfaceLuid), Sized(r.tag));
  }

  /** A route request: the count, and for each route destination, gateway, adapter and tag. */
  lemma RoutesOnTheWire(routes: seq<RouteSpec>)
    ensures RoutesMessage().write(routes) == Counted(RouteBytes, routes)
  {
    forall r | r in routes ensures RouteCodec().write(r) == RouteBytes(r) {
      RouteIsWritten(r);
    }
    WrittenMany(RouteCodec(), RouteBytes, routes);
  }

  lemma ExecutableIsWritten(e: Executable)
    ensures ExecutableCodec().write(e) == ExecutableBytes(e)
  {
    ExecutableText(e);
    WrittenString(e.path);
    WrittenString(e.appId);
  }

  lemma ExecutablesAreWritten(es: seq<Executable>)
    ensures WriteMany(ExecutableCodec(), es) == Counted(ExecutableBytes, es)
  {
    forall e | e in es ensures ExecutableCodec().write(e) == ExecutableBytes(e) {
      ExecutableIsWritten(e);
    }
    WrittenMany(ExecutableCodec(), ExecutableBytes, es);
  }

  lemma AppRuleIsWritten(r: AppRule)
    ensures AppRuleCodec().write(r) == AppRuleBytes(r)
  {
    AppRuleText(r);
    WrittenString(r.id);
    WrittenString(r.interfaceLuid);
    WrittenString(r.policy);
    WrittenFlag(r.enabled);
    ExecutablesAreWritten(r.executables);
    assert "" + Sized(r.id) == Sized(r.id);
    Flat5("", Sized(r.id), Sized(r.interfaceLuid), Sized(r.policy), OneOrZero(r.enabled),
          Counted(ExecutableBytes, r.executables));
  }

  /** The application rules: the master flag, the hash, the count, and for each rule its fields and its programs. */
  lemma AppRulesOnTheWire(m: AppRules)
    ensures AppRulesMessage().write(m) == AppRulesBytes(m)
  {
    AppRulesText(m);
    WrittenFlag(m.masterEnabled);
    WrittenString(m.hash);
    forall r | r in m.rules ensures AppRuleCodec().write(r) == AppRuleBytes(r) {
      AppRuleIsWritten(r);
    }
    WrittenMany(AppRuleCodec(), AppRuleBytes, m.rules);
    Concat(OneOrZero(m.masterEnabled), Sized(m.hash), Counted(AppRuleBytes, m.rules));
  }

  lemma ReadinessIsWritten(r: Readiness)
    ensures ReadinessCodec().write(r) == ReadinessBytes(r)
  {
    ReadinessText(r);
    forall flag: bool ensures WriteFlag(flag) == OneOrZero(flag) {
      WrittenFlag(flag);
    }
    assert "" + OneOrZero(r.service) == OneOrZero(r.service);
    Flat6("", OneOrZero(r.service), OneOrZero(r.driver), OneOrZero(r.engine), OneOrZero(r.proxy), OneOrZero(r.reboot),
          OneOrZero(r.testMode));
  }

  lemma TotalsAreWritten(t: Totals)
    ensures TotalsCodec().write(t) == TotalsBytes(t)
  {
    TotalsText(t);
    WrittenString(t.appliedHash);
    WrittenString(t.message);
    WrittenFour(t.activeFlows);
    WrittenEight(t.bytesIn);
    WrittenEight(t.bytesOut);
    assert "" + Sized(t.appliedHash) == Sized(t.appliedHash);
    Flat5("", Sized(t.appliedHash), Sized(t.message), Four(t.activeFlows), Eight(t.bytesIn), Eight(t.bytesOut));
  }

  lemma MetricIsWritten(m: Metric)
    ensures MetricCodec().write(m) == MetricBytes(m)
  {
    MetricText(m);
    WrittenString(m.id);
    WrittenFour(m.activeFlows);
    WrittenEight(m.bytesIn);
    WrittenEight(m.bytesOut);
    WrittenString(m.lastError);
    assert "" + Sized(m.id) == Sized(m.id);
    Flat5("", Sized(m.id), Four(m.activeFlows), Eight(m.bytesIn), Eight(m.bytesOut), Sized(m.lastError));
  }

  /** The status: six flags, the hash, the message, three counters, and the metrics of the rules. */
  lemma StatusOnTheWire(s: Status)
    ensures StatusMessage().write(s) == StatusBytes(s)
  {
    StatusText(s);
    ReadinessIsWritten(s.readiness);
    TotalsAreWritten(s.totals);
    forall m | m in s.metrics ensures MetricCodec().write(m) == MetricBytes(m) {
      MetricIsWritten(m);
    }
    WrittenMany(MetricCodec(), MetricBytes, s.metrics);
    Concat(ReadinessBytes(s.readiness), TotalsBytes(s.totals), Counted(MetricBytes, s.metrics));
  }

  lemma CountsAreWritten(c: Counts)
    ensures CountsCodec().write(c) == CountsBytes(c)
  {
    CountsText(c);
    WrittenFlag(c.ok);
    WrittenFour(c.added);
    WrittenFour(c.removed);
    Concat(OneOrZero(c.ok), Four(c.added), Four(c.removed));
  }

  lemma CheckIsWritten(c: RouteCheck)
    ensures CheckCodec().write(c) == CheckBytes(c)
  {
    RouteCheckText(c);
    WrittenString(c.destination);
    WrittenString(c.expectedInterface);
    WrittenString(c.expectedGateway);
    WrittenString(c.actualInterface);
    WrittenString(c.actualGateway);
    WrittenFlag(c.exactPresent);
    WrittenFlag(c.verified);
    WrittenString(c.message);
    assert "" + Sized(c.destination) == Sized(c.destination);
    Flat8("", Sized(c.destination), Sized(c.expectedInterface), Sized(c.expectedGateway), Sized(c.actualInterface),
          Sized(c.actualGateway), OneOrZero(c.exactPresent), OneOrZero(c.verified), Sized(c.message));
  }

  lemma ProcessIsWritten(p: Process)
    ensures ProcessCodec().write(p) == ProcessBytes(p)
  {
    ProcessText(p);
    WrittenFour(p.pid);
    WrittenString(p.name);
  }

  lemma StringsAreWritten(items: seq<string>)
    ensures WriteMany(Str(), items) == Counted(Sized, items)
  {
    forall s | s in items ensures Str().write(s) == Sized(s) {
      WrittenString(s);
    }
    WrittenMany(Str(), Sized, items);
  }

  lemma ListsAreWritten(checks: seq<RouteCheck>, processes: seq<Process>)
    ensures WriteMany(CheckCodec(), checks) == Counted(CheckBytes, checks)
    ensures WriteMany(ProcessCodec(), processes) == Counted(ProcessBytes, processes)
  {
    forall c | c in checks ensures CheckCodec().write(c) == CheckBytes(c) {
      CheckIsWritten(c);
    }
    WrittenMany(CheckCodec(), CheckBytes, checks);
    forall p | p in processes ensures ProcessCodec().write(p) == ProcessBytes(p) {
      ProcessIsWritten(p);
    }
    WrittenMany(ProcessCodec(), ProcessBytes, processes);
  }

  /** The answer to a route request: ok, the two counts, the errors, the checks, the connections to reset, and the
      processes restarted. */
  lemma OutcomeOnTheWire(o: Outcome)
    ensures OutcomeMessage().write(o) == OutcomeBytes(o)
  {
    OutcomeText(o);
    CountsAreWritten(o.counts);
    StringsAreWritten(o.errors);
    ListsAreWritten(o.checks, o.restarted);
    StringsAreWritten(o.resetDestinations);
    FiveJoined(CountsBytes(o.counts), Counted(Sized, o.errors), Counted(CheckBytes, o.checks),
               Counted(Sized, o.resetDestinations), Counted(ProcessBytes, o.restarted));
  }

  lemma FiveJoined(a: string, b: string, c: string, d: string, e: string)
    ensures a + (b + (c + (d + e))) == a + b + c + d + e
  {
    assert "" + a == a;
    Flat5("", a, b, c, d, e);
  }
}

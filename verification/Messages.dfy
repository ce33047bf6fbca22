/** The messages of the service pipe: their binary form, the buffer classes, and the encoders and decoders. */
module Messages {
  import opened Common
  import opened Codec
  import opened Protocol

  datatype Executable = Executable(path: string, appId: string)

  datatype AppRule = AppRule(id: string, interfaceLuid: string, policy: string, enabled: bool,
      executables: seq<Executable>)

  datatype AppRules = AppRules(masterEnabled: bool, hash: string, rules: seq<AppRule>)

  datatype Metric = Metric(id: string, activeFlows: nat, bytesIn: nat, bytesOut: nat, lastError: string)

  datatype Readiness = Readiness(service: bool, driver: bool, engine: bool, proxy: bool, reboot: bool, testMode: bool)

  datatype Totals = Totals(appliedHash: string, message: string, activeFlows: nat, bytesIn: nat, bytesOut: nat)

  datatype Status = Status(readiness: Readiness, totals: Totals, metrics: seq<Metric>)

  datatype RouteCheck = RouteCheck(
    destination: string,
    expectedInterface: string,
    expectedGateway: string,
    actualInterface: string,
    actualGateway: string,
    exactPresent: bool,
    verified: bool,
    message: string)

  datatype Process = Process(pid: nat, name: string)

  datatype Counts = Counts(ok: bool, added: nat, removed: nat)

  datatype Outcome = Outcome(
    counts: Counts,
    errors: seq<string>,
    checks: seq<RouteCheck>,
    resetDestinations: seq<string>,
    restarted: seq<Process>)

  /******* Records as pairs *******/

  // A form is a codec that leaves open how flags are read.

  function RouteOf(p: (string, (string, (string, string)))): RouteSpec
  {
    RouteSpec(p.0, p.1.0, p.1.1.0, p.1.1.1)
  }

  function RouteParts(r: RouteSpec): (string, (string, (string, string)))
  {
    (r.destination, (r.gateway, (r.interfaceLuid, r.tag)))
  }

  function RouteCodec(): Codec<RouteSpec>
  {
    Via(Pair(Str(), Pair(Str(), Pair(Str(), Str()))), RouteOf, RouteParts)
  }

  function ExecutableOf(p: (string, string)): Executable
  {
    Executable(p.0, p.1)
  }

  function ExecutableParts(e: Executable): (string, string)
  {
    (e.path, e.appId)
  }

  function ExecutableCodec(): Codec<Executable>
  {
    Via(Pair(Str(), Str()), ExecutableOf, ExecutableParts)
  }

  function AppRuleOf(p: (string, (string, (string, (bool, seq<Executable>))))): AppRule
  {
    AppRule(p.0, p.1.0, p.1.1.0, p.1.1.1.0, p.1.1.1.1)
  }

  function AppRuleParts(r: AppRule): (string, (string, (string, (bool, seq<Executable>))))
  {
    (r.id, (r.interfaceLuid, (r.policy, (r.enabled, r.executables))))
  }

  function AppRuleForm(flag: Codec<bool>): Codec<AppRule>
  {
    Via(Pair(Str(), Pair(Str(), Pair(Str(), Pair(flag, Many(ExecutableCodec(), 201))))), AppRuleOf, AppRuleParts)
  }

  function AppRuleCodec(): Codec<AppRule>
  {
    AppRuleForm(Flag())
  }

  function AppRulesOf(p: (bool, (string, seq<AppRule>))): AppRules
  {
    AppRules(p.0, p.1.0, p.1.1)
  }

  function AppRulesParts(r: AppRules): (bool, (string, seq<AppRule>))
  {
    (r.masterEnabled, (r.hash, r.rules))
  }

  function MetricOf(p: (string, (nat, (nat, (nat, string))))): Metric
  {
    Metric(p.0, p.1.0, p.1.1.0, p.1.1.1.0, p.1.1.1.1)
  }

  function MetricParts(m: Metric): (string, (nat, (nat, (nat, string))))
  {
    (m.id, (m.activeFlows, (m.bytesIn, (m.bytesOut, m.lastError))))
  }

  function MetricCodec(): Codec<Metric>
  {
    Via(Pair(Str(), Pair(U32(), Pair(U64(), Pair(U64(), Str())))), MetricOf, MetricParts)
  }

  function ReadinessOf(p: (bool, (bool, (bool, (bool, (bool, bool)))))): Readiness
  {
    Readiness(p.0, p.1.0, p.1.1.0, p.1.1.1.0, p.1.1.1.1.0, p.1.1.1.1.1)
  }

  function ReadinessParts(r: Readiness): (bool, (bool, (bool, (bool, (bool, bool)))))
  {
    (r.service, (r.driver, (r.engine, (r.proxy, (r.reboot, r.testMode)))))
  }

  function ReadinessForm(flag: Codec<bool>): Codec<Readiness>
  {
    Via(Pair(flag, Pair(flag, Pair(flag, Pair(flag, Pair(flag, flag))))), ReadinessOf, ReadinessParts)
  }

  function ReadinessCodec(): Codec<Readiness>
  {
    ReadinessForm(Flag())
  }

  function TotalsOf(p: (string, (string, (nat, (nat, nat))))): Totals
  {
    Totals(p.0, p.1.0, p.1.1.0, p.1.1.1.0, p.1.1.1.1)
  }

  function TotalsParts(t: Totals): (string, (string, (nat, (nat, nat))))
  {
    (t.appliedHash, (t.message, (t.activeFlows, (t.bytesIn, t.bytesOut))))
  }

  function TotalsCodec(): Codec<Totals>
  {
    Via(Pair(Str(), Pair(Str(), Pair(U32(), Pair(U64(), U64())))), TotalsOf, TotalsParts)
  }

  function StatusOf(p: (Readiness, (Totals, seq<Metric>))): Status
  {
    Status(p.0, p.1.0, p.1.1)
  }

  function StatusParts(s: Status): (Readiness, (Totals, seq<Metric>))
  {
    (s.readiness, (s.totals, s.metrics))
  }

  function CheckOf(p: (string, (string, (string, (string, (string, (bool, (bool, string)))))))): RouteCheck
  {
    RouteCheck(p.0, p.1.0, p.1.1.0, p.1.1.1.0, p.1.1.1.1.0, p.1.1.1.1.1.0, p.1.1.1.1.1.1.0, p.1.1.1.1.1.1.1)
  }

  function CheckParts(c: RouteCheck): (string, (string, (string, (string, (string, (bool, (bool, string)))))))
  {
    (c.destination, (c.expectedInterface, (c.expectedGateway, (c.actualInterface, (c.actualGateway,
      (c.exactPresent, (c.verified, c.message)))))))
  }

  function CheckForm(flag: Codec<bool>): Codec<RouteCheck>
  {
    Via(Pair(Str(), Pair(Str(), Pair(Str(), Pair(Str(), Pair(Str(), Pair(flag, Pair(flag, Str()))))))), CheckOf,
        CheckParts)
  }

  function CheckCodec(): Codec<RouteCheck>
  {
    CheckForm(Flag())
  }

  function ProcessOf(p: (nat, string)): Process
  {
    Process(p.0, p.1)
  }

  function ProcessParts(p: Process): (nat, string)
  {
    (p.pid, p.name)
  }

  function ProcessCodec(): Codec<Process>
  {
    Via(Pair(U32(), Str()), ProcessOf, ProcessParts)
  }

  function CountsOf(p: (bool, (nat, nat))): Counts
  {
    Counts(p.0, p.1.0, p.1.1)
  }

  function CountsParts(c: Counts): (bool, (nat, nat))
  {
    (c.ok, (c.added, c.removed))
  }

  function CountsForm(flag: Codec<bool>): Codec<Counts>
  {
    Via(Pair(flag, Pair(U32(), U32())), CountsOf, CountsParts)
  }

  function CountsCodec(): Codec<Counts>
  {
    CountsForm(Flag())
  }

  function OutcomeOf(p: (Counts, (seq<string>, (seq<RouteCheck>, (seq<string>, seq<Process>))))): Outcome
  {
    Outcome(p.0, p.1.0, p.1.1.0, p.1.1.1.0, p.1.1.1.1)
  }

  function OutcomeParts(o: Outcome): (Counts, (seq<string>, (seq<RouteCheck>, (seq<string>, seq<Process>))))
  {
    (o.counts, (o.errors, (o.checks, (o.resetDestinations, o.restarted))))
  }

  /******* The four messages *******/

  function RoutesMessage(): Codec<seq<RouteSpec>>
  {
    Many(RouteCodec(), 4096)
  }

  function AppRulesForm(flag: Codec<bool>): Codec<AppRules>
  {
    Via(Pair(flag, Pair(Str(), Many(AppRuleForm(flag), 1024))), AppRulesOf, AppRulesParts)
  }

  function AppRulesMessage(): Codec<AppRules>
  {
    AppRulesForm(Flag())
  }

  function StatusForm(flag: Codec<bool>): Codec<Status>
  {
    Via(Pair(ReadinessForm(flag), Pair(TotalsCodec(), Many(MetricCodec(), 1024))), StatusOf, StatusParts)
  }

  function StatusMessage(): Codec<Status>
  {
    StatusForm(Flag())
  }

  function OutcomeForm(flag: Codec<bool>): Codec<Outcome>
  {
    Via(Pair(CountsForm(flag), Pair(Many(Str(), 4096), Pair(Many(CheckForm(flag), 4096), Pair(Many(Str(), 4096),
        Many(ProcessCodec(), 4096))))),
        OutcomeOf, OutcomeParts)
  }

  function OutcomeMessage(): Codec<Outcome>
  {
    OutcomeForm(Flag())
  }

  lemma RouteLaws()
    ensures Lawful(RouteCodec()) && Exact(RouteCodec())
  {
    var two := Pair(Str(), Str());
    StringLaws();
    PairLaws(Str(), Str());
    PairIsExact(Str(), Str());
    PairLaws(Str(), two);
    PairIsExact(Str(), two);
    PairLaws(Str(), Pair(Str(), two));
    PairIsExact(Str(), Pair(Str(), two));
    ViaLaws(Pair(Str(), Pair(Str(), two)), RouteOf, RouteParts);
    ViaIsExact(Pair(Str(), Pair(Str(), two)), RouteOf, RouteParts);
  }

  lemma RoutesLaws()
    ensures Lawful(RoutesMessage()) && Exact(RoutesMessage())
  {
    RouteLaws();
    ManyLaws(RouteCodec(), 4096);
    ManyIsExact(RouteCodec(), 4096);
  }

  lemma ExecutableLaws()
    ensures Lawful(Many(ExecutableCodec(), 201))
  {
    StringLaws();
    PairLaws(Str(), Str());
    ViaLaws(Pair(Str(), Str()), ExecutableOf, ExecutableParts);
    ManyLaws(ExecutableCodec(), 201);
  }

  lemma AppRuleLaws()
    ensures Lawful(AppRuleCodec())
  {
    StringLaws();
    FlagLaws();
    ExecutableLaws();
    var tail := Pair(Flag(), Many(ExecutableCodec(), 201));
    PairLaws(Flag(), Many(ExecutableCodec(), 201));
    PairLaws(Str(), tail);
    PairLaws(Str(), Pair(Str(), tail));
    PairLaws(Str(), Pair(Str(), Pair(Str(), tail)));
    ViaLaws(Pair(Str(), Pair(Str(), Pair(Str(), tail))), AppRuleOf, AppRuleParts);
  }

  lemma AppRulesLaws()
    ensures Lawful(AppRulesMessage())
  {
    StringLaws();
    FlagLaws();
    AppRuleLaws();
    ManyLaws(AppRuleCodec(), 1024);
    PairLaws(Str(), Many(AppRuleCodec(), 1024));
    PairLaws(Flag(), Pair(Str(), Many(AppRuleCodec(), 1024)));
    ViaLaws(Pair(Flag(), Pair(Str(), Many(AppRuleCodec(), 1024))), AppRulesOf, AppRulesParts);
  }

  lemma MetricLaws()
    ensures Lawful(MetricCodec())
  {
    StringLaws();
    U32Laws();
    U64Laws();
    PairLaws(U64(), Str());
    PairLaws(U64(), Pair(U64(), Str()));
    PairLaws(U32(), Pair(U64(), Pair(U64(), Str())));
    PairLaws(Str(), Pair(U32(), Pair(U64(), Pair(U64(), Str()))));
    ViaLaws(Pair(Str(), Pair(U32(), Pair(U64(), Pair(U64(), Str())))), MetricOf, MetricParts);
  }

  lemma ReadinessLaws()
    ensures Lawful(ReadinessCodec())
  {
    FlagLaws();
    var two := Pair(Flag(), Flag());
    PairLaws(Flag(), Flag());
    PairLaws(Flag(), two);
    PairLaws(Flag(), Pair(Flag(), two));
    PairLaws(Flag(), Pair(Flag(), Pair(Flag(), two)));
    PairLaws(Flag(), Pair(Flag(), Pair(Flag(), Pair(Flag(), two))));
    ViaLaws(Pair(Flag(), Pair(Flag(), Pair(Flag(), Pair(Flag(), two)))), ReadinessOf, ReadinessParts);
  }

  lemma TotalsLaws()
    ensures Lawful(TotalsCodec())
  {
    StringLaws();
    U32Laws();
    U64Laws();
    PairLaws(U64(), U64());
    PairLaws(U32(), Pair(U64(), U64()));
    PairLaws(Str(), Pair(U32(), Pair(U64(), U64())));
    PairLaws(Str(), Pair(Str(), Pair(U32(), Pair(U64(), U64()))));
    ViaLaws(Pair(Str(), Pair(Str(), Pair(U32(), Pair(U64(), U64())))), TotalsOf, TotalsParts);
  }

  lemma StatusLaws()
    ensures Lawful(StatusMessage())
  {
    ReadinessLaws();
    TotalsLaws();
    MetricLaws();
    ManyLaws(MetricCodec(), 1024);
    PairLaws(TotalsCodec(), Many(MetricCodec(), 1024));
    PairLaws(ReadinessCodec(), Pair(TotalsCodec(), Many(MetricCodec(), 1024)));
    ViaLaws(Pair(ReadinessCodec(), Pair(TotalsCodec(), Many(MetricCodec(), 1024))), StatusOf, StatusParts);
  }

  lemma CheckLaws()
    ensures Lawful(CheckCodec())
  {
    StringLaws();
    FlagLaws();
    var tail := Pair(Flag(), Pair(Flag(), Str()));
    PairLaws(Flag(), Str());
    PairLaws(Flag(), Pair(Flag(), Str()));
    PairLaws(Str(), tail);
    PairLaws(Str(), Pair(Str(), tail));
    PairLaws(Str(), Pair(Str(), Pair(Str(), tail)));
    PairLaws(Str(), Pair(Str(), Pair(Str(), Pair(Str(), tail))));
    PairLaws(Str(), Pair(Str(), Pair(Str(), Pair(Str(), Pair(Str(), tail)))));
    ViaLaws(Pair(Str(), Pair(Str(), Pair(Str(), Pair(Str(), Pair(Str(), tail))))), CheckOf, CheckParts);
  }

  lemma SmallLaws()
    ensures Lawful(CountsCodec()) && Lawful(ProcessCodec())
  {
    StringLaws();
    FlagLaws();
    U32Laws();
    PairLaws(U32(), Str());
    ViaLaws(Pair(U32(), Str()), ProcessOf, ProcessParts);
    PairLaws(U32(), U32());
    PairLaws(Flag(), Pair(U32(), U32()));
    ViaLaws(Pair(Flag(), Pair(U32(), U32())), CountsOf, CountsParts);
  }

  lemma OutcomeLaws()
    ensures Lawful(OutcomeMessage())
  {
    StringLaws();
    CheckLaws();
    SmallLaws();
    ManyLaws(Str(), 4096);
    ManyLaws(CheckCodec(), 4096);
    ManyLaws(ProcessCodec(), 4096);
    var last := Pair(Many(Str(), 4096), Many(ProcessCodec(), 4096));
    PairLaws(Many(Str(), 4096), Many(ProcessCodec(), 4096));
    PairLaws(Many(CheckCodec(), 4096), last);
    PairLaws(Many(Str(), 4096), Pair(Many(CheckCodec(), 4096), last));
    PairLaws(CountsCodec(), Pair(Many(Str(), 4096), Pair(Many(CheckCodec(), 4096), last)));
    ViaLaws(Pair(CountsCodec(), Pair(Many(Str(), 4096), Pair(Many(CheckCodec(), 4096), last))), OutcomeOf,
        OutcomeParts);
  }
}

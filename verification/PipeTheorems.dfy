/** What encoding and decoding of the pipe's messages guarantee. */
module PipeTheorems {
  import opened Common
  import opened Codec
  import opened Protocol
  import opened Messages
  import opened ServicePipe

  /******* What the limits allow *******/

  predicate RouteFits(r: RouteSpec)
  {
    FitsString(r.destination) && FitsString(r.gateway) && FitsString(r.interfaceLuid) && FitsString(r.tag)
  }

  predicate RoutesFit(routes: seq<RouteSpec>)
  {
    |routes| <= 4096 && forall i | 0 <= i < |routes| :: RouteFits(routes[i])
  }

  predicate ExecutableFits(e: Executable)
  {
    FitsString(e.path) && FitsString(e.appId)
  }

  predicate AppRuleFits(r: AppRule)
  {
    && FitsString(r.id) && FitsString(r.interfaceLuid) && FitsString(r.policy)
    && |r.executables| <= 201 && forall i | 0 <= i < |r.executables| :: ExecutableFits(r.executables[i])
  }

  predicate AppRulesFit(m: AppRules)
  {
    FitsString(m.hash) && |m.rules| <= 1024 && forall i | 0 <= i < |m.rules| :: AppRuleFits(m.rules[i])
  }

  predicate MetricFits(m: Metric)
  {
    FitsString(m.id) && IsU32(m.activeFlows) && IsU64(m.bytesIn) && IsU64(m.bytesOut) && FitsString(m.lastError)
  }

  predicate StatusFits(s: Status)
  {
    && FitsString(s.totals.appliedHash) && FitsString(s.totals.message)
    && IsU32(s.totals.activeFlows) && IsU64(s.totals.bytesIn) && IsU64(s.totals.bytesOut)
    && |s.metrics| <= 1024 && forall i | 0 <= i < |s.metrics| :: MetricFits(s.metrics[i])
  }

  predicate CheckFits(c: RouteCheck)
  {
    && FitsString(c.destination) && FitsString(c.expectedInterface) && FitsString(c.expectedGateway)
    && FitsString(c.actualInterface) && FitsString(c.actualGateway) && FitsString(c.message)
  }

  predicate StringsFit(items: seq<string>)
  {
    |items| <= 4096 && forall i | 0 <= i < |items| :: FitsString(items[i])
  }

  predicate OutcomeFits(o: Outcome)
  {
    && IsU32(o.counts.added) && IsU32(o.counts.removed)
    && StringsFit(o.errors) && StringsFit(o.resetDestinations)
    && |o.checks| <= 4096 && (forall i | 0 <= i < |o.checks| :: CheckFits(o.checks[i]))
    && |o.restarted| <= 4096
    && forall i | 0 <= i < |o.restarted| :: IsU32(o.restarted[i].pid) && FitsString(o.restarted[i].name)
  }

  lemma Fits2<A, B>(a: Codec<A>, b: Codec<B>, p: A, q: B)
    ensures Pair(a, b).fits((p, q))
            <==> a.fits(p) && b.fits(q)
  {
  }

  lemma Fits3<A, B, C>(a: Codec<A>, b: Codec<B>, c: Codec<C>, p: A, q: B, r: C)
    ensures Pair(a, Pair(b, c)).fits((p, (q, r)))
            <==> a.fits(p) && b.fits(q) && c.fits(r)
  {
    var rest, values := Pair(b, c), (q, r);
    assert Pair(a, rest).fits((p, values)) <==> a.fits(p) && rest.fits(values);
    Fits2(b, c, q, r);
  }

  lemma Fits4<A, B, C, D>(a: Codec<A>, b: Codec<B>, c: Codec<C>, d: Codec<D>, p: A, q: B, r: C, s: D)
    ensures Pair(a, Pair(b, Pair(c, d))).fits((p, (q, (r, s))))
            <==> a.fits(p) && b.fits(q) && c.fits(r) && d.fits(s)
  {
    var rest, values := Pair(b, Pair(c, d)), (q, (r, s));
    assert Pair(a, rest).fits((p, values)) <==> a.fits(p) && rest.fits(values);
    Fits3(b, c, d, q, r, s);
  }

  lemma Fits5<A, B, C, D, E>(a: Codec<A>, b: Codec<B>, c: Codec<C>, d: Codec<D>, e: Codec<E>, p: A, q: B, r: C, s: D,
      t: E)
    ensures Pair(a, Pair(b, Pair(c, Pair(d, e)))).fits((p, (q, (r, (s, t)))))
            <==> a.fits(p) && b.fits(q) && c.fits(r) && d.fits(s) && e.fits(t)
  {
    var rest, values := Pair(b, Pair(c, Pair(d, e))), (q, (r, (s, t)));
    assert Pair(a, rest).fits((p, values)) <==> a.fits(p) && rest.fits(values);
    Fits4(b, c, d, e, q, r, s, t);
  }

  lemma Fits6<A, B, C, D, E, F>(a: Codec<A>, b: Codec<B>, c: Codec<C>, d: Codec<D>, e: Codec<E>, f: Codec<F>, p: A,
      q: B, r: C, s: D, t: E, u: F)
    ensures Pair(a, Pair(b, Pair(c, Pair(d, Pair(e, f))))).fits((p, (q, (r, (s, (t, u))))))
            <==> a.fits(p) && b.fits(q) && c.fits(r) && d.fits(s) && e.fits(t) && f.fits(u)
  {
    var rest, values := Pair(b, Pair(c, Pair(d, Pair(e, f)))), (q, (r, (s, (t, u))));
    assert Pair(a, rest).fits((p, values)) <==> a.fits(p) && rest.fits(values);
    Fits5(b, c, d, e, f, q, r, s, t, u);
  }

  lemma Fits7<A, B, C, D, E, F, G>(a: Codec<A>, b: Codec<B>, c: Codec<C>, d: Codec<D>, e: Codec<E>, f: Codec<F>,
      g: Codec<G>, p: A, q: B, r: C, s: D, t: E, u: F, v: G)
    ensures Pair(a, Pair(b, Pair(c, Pair(d, Pair(e, Pair(f, g)))))).fits((p, (q, (r, (s, (t, (u, v)))))))
            <==> a.fits(p) && b.fits(q) && c.fits(r) && d.fits(s) && e.fits(t) && f.fits(u) && g.fits(v)
  {
    var rest, values := Pair(b, Pair(c, Pair(d, Pair(e, Pair(f, g))))), (q, (r, (s, (t, (u, v)))));
    assert Pair(a, rest).fits((p, values)) <==> a.fits(p) && rest.fits(values);
    Fits6(b, c, d, e, f, g, q, r, s, t, u, v);
  }

  lemma Fits8<A, B, C, D, E, F, G, H>(a: Codec<A>, b: Codec<B>, c: Codec<C>, d: Codec<D>, e: Codec<E>, f: Codec<F>,
      g: Codec<G>, h: Codec<H>, p: A, q: B, r: C, s: D, t: E, u: F, v: G, w: H)
    ensures Pair(a, Pair(b, Pair(c, Pair(d, Pair(e, Pair(f, Pair(g, h))))))).fits((p, (q, (r, (s, (t, (u, (v, w))))))))
            <==> a.fits(p) && b.fits(q) && c.fits(r) && d.fits(s) && e.fits(t) && f.fits(u) && g.fits(v) && h.fits(w)
  {
    var rest, values := Pair(b, Pair(c, Pair(d, Pair(e, Pair(f, Pair(g, h)))))), (q, (r, (s, (t, (u, (v, w))))));
    assert Pair(a, rest).fits((p, values)) <==> a.fits(p) && rest.fits(values);
    Fits7(b, c, d, e, f, g, h, q, r, s, t, u, v, w);
  }

  lemma RouteFitsCodec(r: RouteSpec)
    ensures RouteCodec().fits(r) <==> RouteFits(r)
  {
    Fits4(Str(), Str(), Str(), Str(), r.destination, r.gateway, r.interfaceLuid, r.tag);
    assert RouteParts(r) == (r.destination, (r.gateway, (r.interfaceLuid, r.tag)));
  }

  lemma RoutesFitCodec(routes: seq<RouteSpec>)
    ensures RoutesMessage().fits(routes) <==> RoutesFit(routes)
  {
    forall i | 0 <= i < |routes| ensures RouteCodec().fits(routes[i]) <==> RouteFits(routes[i]) {
      RouteFitsCodec(routes[i]);
    }
  }

  lemma ExecutableFitsCodec(e: Executable)
    ensures ExecutableCodec().fits(e) <==> ExecutableFits(e)
  {
    Fits2(Str(), Str(), e.path, e.appId);
    assert ExecutableParts(e) == (e.path, e.appId);
  }

  lemma AppRuleFitsCodec(r: AppRule)
    ensures AppRuleCodec().fits(r) <==> AppRuleFits(r)
  {
    forall i | 0 <= i < |r.executables| ensures ExecutableCodec().fits(r.executables[i])
        <==> ExecutableFits(r.executables[i]) {
      ExecutableFitsCodec(r.executables[i]);
    }
    Fits5(Str(), Str(), Str(), Flag(), Many(ExecutableCodec(), 201), r.id, r.interfaceLuid, r.policy, r.enabled,
        r.executables);
    assert AppRuleParts(r) == (r.id, (r.interfaceLuid, (r.policy, (r.enabled, r.executables))));
  }

  lemma AppRulesFitCodec(m: AppRules)
    ensures AppRulesMessage().fits(m) <==> AppRulesFit(m)
  {
    forall i | 0 <= i < |m.rules| ensures AppRuleCodec().fits(m.rules[i]) <==> AppRuleFits(m.rules[i]) {
      AppRuleFitsCodec(m.rules[i]);
    }
    Fits3(Flag(), Str(), Many(AppRuleCodec(), 1024), m.masterEnabled, m.hash, m.rules);
    assert AppRulesParts(m) == (m.masterEnabled, (m.hash, m.rules));
  }

  lemma MetricFitsCodec(m: Metric)
    ensures MetricCodec().fits(m) <==> MetricFits(m)
  {
    Fits5(Str(), U32(), U64(), U64(), Str(), m.id, m.activeFlows, m.bytesIn, m.bytesOut, m.lastError);
    assert MetricParts(m) == (m.id, (m.activeFlows, (m.bytesIn, (m.bytesOut, m.lastError))));
  }

  lemma TotalsFitCodec(t: Totals)
    ensures TotalsCodec().fits(t) <==>
            FitsString(t.appliedHash) && FitsString(t.message)
            && IsU32(t.activeFlows) && IsU64(t.bytesIn) && IsU64(t.bytesOut)
  {
    Fits5(Str(), Str(), U32(), U64(), U64(), t.appliedHash, t.message, t.activeFlows, t.bytesIn, t.bytesOut);
    assert TotalsParts(t) == (t.appliedHash, (t.message, (t.activeFlows, (t.bytesIn, t.bytesOut))));
  }

  lemma ReadinessFits(r: Readiness)
    ensures ReadinessCodec().fits(r)
  {
    Fits6(Flag(), Flag(), Flag(), Flag(), Flag(), Flag(), r.service, r.driver, r.engine, r.proxy, r.reboot, r.testMode);
    assert ReadinessParts(r) == (r.service, (r.driver, (r.engine, (r.proxy, (r.reboot, r.testMode)))));
  }

  lemma StatusFitsCodec(s: Status)
    ensures StatusMessage().fits(s) <==> StatusFits(s)
  {
    forall i | 0 <= i < |s.metrics| ensures MetricCodec().fits(s.metrics[i]) <==> MetricFits(s.metrics[i]) {
      MetricFitsCodec(s.metrics[i]);
    }
    TotalsFitCodec(s.totals);
    ReadinessFits(s.readiness);
    Fits3(ReadinessCodec(), TotalsCodec(), Many(MetricCodec(), 1024), s.readiness, s.totals, s.metrics);
    assert StatusParts(s) == (s.readiness, (s.totals, s.metrics));
  }

  lemma CheckFitsCodec(c: RouteCheck)
    ensures CheckCodec().fits(c) <==> CheckFits(c)
  {
    Fits8(Str(), Str(), Str(), Str(), Str(), Flag(), Flag(), Str(), c.destination, c.expectedInterface,
        c.expectedGateway,
          c.actualInterface, c.actualGateway, c.exactPresent, c.verified, c.message);
    assert CheckParts(c) == (c.destination, (c.expectedInterface, (c.expectedGateway, (c.actualInterface,
      (c.actualGateway, (c.exactPresent, (c.verified, c.message)))))));
  }

  lemma ProcessFitsCodec(p: Process)
    ensures ProcessCodec().fits(p) <==> IsU32(p.pid) && FitsString(p.name)
  {
    Fits2(U32(), Str(), p.pid, p.name);
    assert ProcessParts(p) == (p.pid, p.name);
  }

  lemma OutcomeListsFit(o: Outcome)
    ensures Many(CheckCodec(), 4096).fits(o.checks)
            <==> |o.checks| <= 4096 && forall i | 0 <= i < |o.checks| :: CheckFits(o.checks[i])
    ensures Many(ProcessCodec(), 4096).fits(o.restarted)
            <==> |o.restarted| <= 4096
                 && forall i | 0 <= i < |o.restarted| :: IsU32(o.restarted[i].pid) && FitsString(o.restarted[i].name)
  {
    forall i | 0 <= i < |o.checks| ensures CheckCodec().fits(o.checks[i]) <==> CheckFits(o.checks[i]) {
      CheckFitsCodec(o.checks[i]);
    }
    forall i | 0 <= i < |o.restarted|
      ensures ProcessCodec().fits(o.restarted[i]) <==> IsU32(o.restarted[i].pid) && FitsString(o.restarted[i].name) {
      ProcessFitsCodec(o.restarted[i]);
    }
  }

  lemma StringsFitCodec(items: seq<string>)
    ensures Many(Str(), 4096).fits(items) <==> StringsFit(items)
  {
  }

  lemma CountsFitCodec(c: Counts)
    ensures CountsCodec().fits(c) <==> IsU32(c.added) && IsU32(c.removed)
  {
    Fits3(Flag(), U32(), U32(), c.ok, c.added, c.removed);
    assert CountsParts(c) == (c.ok, (c.added, c.removed));
  }

  lemma OutcomeFitsCodec(o: Outcome)
    ensures OutcomeMessage().fits(o) <==> OutcomeFits(o)
  {
    OutcomeListsFit(o);
    StringsFitCodec(o.errors);
    StringsFitCodec(o.resetDestinations);
    CountsFitCodec(o.counts);
    Fits5(CountsCodec(), Many(Str(), 4096), Many(CheckCodec(), 4096), Many(Str(), 4096), Many(ProcessCodec(), 4096),
          o.counts, o.errors, o.checks, o.resetDestinations, o.restarted);
    assert OutcomeParts(o) == (o.counts, (o.errors, (o.checks, (o.resetDestinations, o.restarted))));
  }

  /******* Encoding, then decoding *******/

  lemma RoutesComeBack(routes: seq<RouteSpec>)
    requires RoutesFit(routes)
    ensures Decode(RoutesMessage(), RoutesMessage().write(routes)) == Some(routes)
  {
    RoutesFitCodec(routes);
    RoutesLaws();
    DecodeEncode(RoutesMessage(), routes);
  }

  lemma AppRulesComeBack(message: AppRules)
    requires AppRulesFit(message)
    ensures Decode(AppRulesMessage(), AppRulesMessage().write(message)) == Some(message)
  {
    AppRulesFitCodec(message);
    AppRulesLaws();
    DecodeEncode(AppRulesMessage(), message);
  }

  lemma StatusComesBack(status: Status)
    requires StatusFits(status)
    ensures Decode(StatusMessage(), StatusMessage().write(status)) == Some(status)
  {
    StatusFitsCodec(status);
    StatusLaws();
    DecodeEncode(StatusMessage(), status);
  }

  lemma OutcomeComesBack(outcome: Outcome)
    requires OutcomeFits(outcome)
    ensures Decode(OutcomeMessage(), OutcomeMessage().write(outcome)) == Some(outcome)
  {
    OutcomeFitsCodec(outcome);
    OutcomeLaws();
    DecodeEncode(OutcomeMessage(), outcome);
  }

  /** A message decoded into an object is the message itself exactly when the object's lists were empty. */
  lemma FreshObjectNeeded(into: Outcome, decoded: Outcome, before: Status, status: Status)
    ensures Onto(into, decoded) == decoded
            <==> into.errors == [] && into.checks == [] && into.resetDestinations == [] && into.restarted == []
    ensures OntoStatus(before, status) == status <==> before.metrics == []
  {
    Grows(into.errors, decoded.errors);
    Grows(into.checks, decoded.checks);
    Grows(into.resetDestinations, decoded.resetDestinations);
    Grows(into.restarted, decoded.restarted);
    Grows(before.metrics, status.metrics);
  }

  lemma Grows<T>(a: seq<T>, b: seq<T>)
    ensures a + b == b <==> a == []
  {
    if a == [] {
      assert a + b == b;
    } else {
      assert |a + b| > |b|;
    }
  }

  /******* Decoding, then encoding *******/

  /** Route lists have one binary form only. */
  lemma RoutesAreCanonical(b: string)
    requires IsBytes(b) && Decode(RoutesMessage(), b).Some?
    ensures RoutesMessage().write(Decode(RoutesMessage(), b).value) == b
    ensures RoutesFit(Decode(RoutesMessage(), b).value)
  {
    RoutesLaws();
    EncodeDecode(RoutesMessage(), b);
    RoutesFitCodec(Decode(RoutesMessage(), b).value);
  }

  /** Every accepted buffer is within the limits, so what was decoded survives another round trip. */
  lemma AcceptedMessagesFit(b: string)
    requires IsBytes(b)
    ensures Decode(AppRulesMessage(), b).Some? ==> AppRulesFit(Decode(AppRulesMessage(), b).value)
    ensures Decode(StatusMessage(), b).Some? ==> StatusFits(Decode(StatusMessage(), b).value)
    ensures Decode(OutcomeMessage(), b).Some? ==> OutcomeFits(Decode(OutcomeMessage(), b).value)
  {
    AppRulesLaws();
    StatusLaws();
    OutcomeLaws();
    if Decode(AppRulesMessage(), b).Some? {
      AppRulesFitCodec(Decode(AppRulesMessage(), b).value);
    }
    if Decode(StatusMessage(), b).Some? {
      StatusFitsCodec(Decode(StatusMessage(), b).value);
    }
    if Decode(OutcomeMessage(), b).Some? {
      OutcomeFitsCodec(Decode(OutcomeMessage(), b).value);
    }
  }

  /******* Nothing but whole messages *******/

  /** A strict prefix or extension of an accepted buffer is rejected, for all four messages. */
  lemma OnlyWholeMessages(b: string, more: string)
    requires more != ""
    ensures Decode(RoutesMessage(), b).None? || Decode(RoutesMessage(), b + more).None?
    ensures Decode(AppRulesMessage(), b).None? || Decode(AppRulesMessage(), b + more).None?
    ensures Decode(StatusMessage(), b).None? || Decode(StatusMessage(), b + more).None?
    ensures Decode(OutcomeMessage(), b).None? || Decode(OutcomeMessage(), b + more).None?
  {
    RoutesLaws();
    AppRulesLaws();
    StatusLaws();
    OutcomeLaws();
    if Decode(RoutesMessage(), b).Some? {
      PrefixFree(RoutesMessage(), b, more);
    }
    if Decode(AppRulesMessage(), b).Some? {
      PrefixFree(AppRulesMessage(), b, more);
    }
    if Decode(StatusMessage(), b).Some? {
      PrefixFree(StatusMessage(), b, more);
    }
    if Decode(OutcomeMessage(), b).Some? {
      PrefixFree(OutcomeMessage(), b, more);
    }
  }
}

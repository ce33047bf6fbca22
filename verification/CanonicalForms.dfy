/** Which accepted buffers are what the encoder would write: those whose flag bytes are 0 or 1. */
module CanonicalForms {
  import opened Common
  import opened Codec
  import opened Messages

  /** Accepts only the bytes that a flag is written as. */
  function ReadStrictFlag(b: string): Option<(bool, string)>
  {
    if b != "" && b[0] as int <= 1 then ReadFlag(b) else None
  }

  function StrictFlag(): Codec<bool>
  {
    Codec(WriteFlag, ReadStrictFlag, Always)
  }

  /** `d` writes what `c` writes, and reads nothing but that. */
  ghost predicate Strict<T(!new)>(c: Codec<T>, d: Codec<T>)
  {
    Lawful(c) && Lawful(d) && Exact(d) && forall x :: c.write(x) == d.write(x) && (c.fits(x) <==> d.fits(x))
  }

  lemma StrictFlagFacts(b: string, more: string)
    ensures ReadStrictFlag(b).Some? ==>
              && ReadStrictFlag(b + more) == Some((ReadStrictFlag(b).value.0, ReadStrictFlag(b).value.1 + more))
              && b == WriteFlag(ReadStrictFlag(b).value.0) + ReadStrictFlag(b).value.1
  {
    if ReadStrictFlag(b).Some? {
      assert (b + more)[0] == b[0] && (b + more)[1..] == b[1..] + more;
      assert b == [b[0]] + b[1..];
      assert WriteFlag(b[0] as int != 0) == [b[0]];
    }
  }

  lemma StrictFlagReads(x: bool, rest: string)
    ensures ReadStrictFlag(WriteFlag(x) + rest) == Some((x, rest))
  {
    var b := WriteFlag(x) + rest;
    assert b[1..] == rest && b[0] as int == if x then 1 else 0;
  }

  lemma StrictFlagLaws()
    ensures Lawful(StrictFlag()) && Exact(StrictFlag())
  {
    var d := StrictFlag();
    forall x: bool, rest: string ensures d.read(d.write(x) + rest) == Some((x, rest)) {
      StrictFlagReads(x, rest);
    }
    forall b: string, more: string | d.read(b).Some?
      ensures d.read(b + more) == Some((d.read(b).value.0, d.read(b).value.1 + more)) {
      StrictFlagFacts(b, more);
    }
    forall b: string | d.read(b).Some? ensures b == d.write(d.read(b).value.0) + d.read(b).value.1 {
      StrictFlagFacts(b, "");
    }
  }

  lemma FlagStrict()
    ensures Strict(Flag(), StrictFlag())
  {
    FlagLaws();
    StrictFlagLaws();
  }

  lemma PairStrict<A(!new), B(!new)>(a: Codec<A>, x: Codec<A>, b: Codec<B>, y: Codec<B>)
    requires Strict(a, x) && Strict(b, y)
    ensures Strict(Pair(a, b), Pair(x, y))
  {
    PairLaws(a, b);
    PairLaws(x, y);
    PairIsExact(x, y);
    var c, d := Pair(a, b), Pair(x, y);
    forall p: (A, B) ensures c.write(p) == d.write(p) && (c.fits(p) <==> d.fits(p)) {
      assert a.write(p.0) == x.write(p.0) && b.write(p.1) == y.write(p.1);
      assert a.fits(p.0) == x.fits(p.0) && b.fits(p.1) == y.fits(p.1);
    }
  }

  lemma ViaStrict<A(!new), B(!new)>(c: Codec<A>, d: Codec<A>, make: A -> B, parts: B -> A)
    requires Strict(c, d) && (forall x: B :: make(parts(x)) == x) && forall x: A :: parts(make(x)) == x
    ensures Strict(Via(c, make, parts), Via(d, make, parts))
  {
    ViaLaws(c, make, parts);
    ViaLaws(d, make, parts);
    ViaIsExact(d, make, parts);
  }

  lemma {:induction false} SameWriteAll<T(!new)>(c: Codec<T>, d: Codec<T>, xs: seq<T>)
    requires Strict(c, d)
    ensures WriteAll(c, xs) == WriteAll(d, xs)
  {
    if xs != [] {
      SameWriteAll(c, d, xs[1..]);
    }
  }

  lemma ManyStrict<T(!new)>(c: Codec<T>, d: Codec<T>, limit: nat)
    requires Strict(c, d) && limit < 0x1_0000_0000
    ensures Strict(Many(c, limit), Many(d, limit))
  {
    ManyLaws(c, limit);
    ManyLaws(d, limit);
    ManyIsExact(d, limit);
    var m, n := Many(c, limit), Many(d, limit);
    forall xs: seq<T> ensures m.write(xs) == n.write(xs) && (m.fits(xs) <==> n.fits(xs)) {
      SameWriteAll(c, d, xs);
      assert forall i | 0 <= i < |xs| :: c.fits(xs[i]) <==> d.fits(xs[i]);
    }
  }

  /** Encoding what was decoded gives the same bytes iff the strict reader accepts them. */
  lemma CanonicalExactly<T(!new)>(c: Codec<T>, d: Codec<T>, b: string)
    requires Strict(c, d) && IsBytes(b) && Decode(c, b).Some?
    ensures c.write(Decode(c, b).value) == b <==> Decode(d, b).Some?
    ensures Decode(d, b).Some? ==> Decode(d, b) == Decode(c, b)
  {
    var x := Decode(c, b).value;
    if c.write(x) == b {
      DecodeEncode(d, x);
    }
    if Decode(d, b).Some? {
      var y := Decode(d, b).value;
      EncodeDecode(d, b);
      assert d.fits(y);
      DecodeEncode(c, y);
    }
  }

  /******* The messages with flags *******/

  lemma StringStrict()
    ensures Strict(Str(), Str()) && Strict(U32(), U32()) && Strict(U64(), U64())
  {
    StringLaws();
    U32Laws();
    U64Laws();
  }

  lemma ExecutablesStrict()
    ensures Strict(Many(ExecutableCodec(), 201), Many(ExecutableCodec(), 201))
  {
    StringStrict();
    PairStrict(Str(), Str(), Str(), Str());
    ViaStrict(Pair(Str(), Str()), Pair(Str(), Str()), ExecutableOf, ExecutableParts);
    ManyStrict(ExecutableCodec(), ExecutableCodec(), 201);
  }

  lemma AppRuleStrict(f: Codec<bool>, g: Codec<bool>)
    requires Strict(f, g)
    ensures Strict(AppRuleForm(f), AppRuleForm(g))
  {
    StringStrict();
    ExecutablesStrict();
    var many := Many(ExecutableCodec(), 201);
    PairStrict(f, g, many, many);
    PairStrict(Str(), Str(), Pair(f, many), Pair(g, many));
    PairStrict(Str(), Str(), Pair(Str(), Pair(f, many)), Pair(Str(), Pair(g, many)));
    var a, b := Pair(Str(), Pair(Str(), Pair(f, many))), Pair(Str(), Pair(Str(), Pair(g, many)));
    PairStrict(Str(), Str(), a, b);
    ViaStrict(Pair(Str(), a), Pair(Str(), b), AppRuleOf, AppRuleParts);
  }

  lemma AppRulesStrict(f: Codec<bool>, g: Codec<bool>)
    requires Strict(f, g)
    ensures Strict(AppRulesForm(f), AppRulesForm(g))
  {
    StringStrict();
    AppRuleStrict(f, g);
    ManyStrict(AppRuleForm(f), AppRuleForm(g), 1024);
    var a, b := Pair(Str(), Many(AppRuleForm(f), 1024)), Pair(Str(), Many(AppRuleForm(g), 1024));
    PairStrict(Str(), Str(), Many(AppRuleForm(f), 1024), Many(AppRuleForm(g), 1024));
    PairStrict(f, g, a, b);
    ViaStrict(Pair(f, a), Pair(g, b), AppRulesOf, AppRulesParts);
  }

  lemma ReadinessStrict(f: Codec<bool>, g: Codec<bool>)
    requires Strict(f, g)
    ensures Strict(ReadinessForm(f), ReadinessForm(g))
  {
    var f2, g2 := Pair(f, f), Pair(g, g);
    PairStrict(f, g, f, g);
    PairStrict(f, g, f2, g2);
    PairStrict(f, g, Pair(f, f2), Pair(g, g2));
    var f5, g5 := Pair(f, Pair(f, Pair(f, f2))), Pair(g, Pair(g, Pair(g, g2)));
    PairStrict(f, g, Pair(f, Pair(f, f2)), Pair(g, Pair(g, g2)));
    PairStrict(f, g, f5, g5);
    ViaStrict(Pair(f, f5), Pair(g, g5), ReadinessOf, ReadinessParts);
  }

  lemma TotalsStrict()
    ensures Strict(TotalsCodec(), TotalsCodec())
  {
    StringStrict();
    var two, three := Pair(U64(), U64()), Pair(U32(), Pair(U64(), U64()));
    PairStrict(U64(), U64(), U64(), U64());
    PairStrict(U32(), U32(), two, two);
    PairStrict(Str(), Str(), three, three);
    PairStrict(Str(), Str(), Pair(Str(), three), Pair(Str(), three));
    ViaStrict(Pair(Str(), Pair(Str(), three)), Pair(Str(), Pair(Str(), three)), TotalsOf, TotalsParts);
  }

  lemma MetricsStrict()
    ensures Strict(Many(MetricCodec(), 1024), Many(MetricCodec(), 1024))
  {
    StringStrict();
    var two, three := Pair(U64(), Str()), Pair(U64(), Pair(U64(), Str()));
    PairStrict(U64(), U64(), Str(), Str());
    PairStrict(U64(), U64(), two, two);
    PairStrict(U32(), U32(), three, three);
    PairStrict(Str(), Str(), Pair(U32(), three), Pair(U32(), three));
    ViaStrict(Pair(Str(), Pair(U32(), three)), Pair(Str(), Pair(U32(), three)), MetricOf, MetricParts);
    ManyStrict(MetricCodec(), MetricCodec(), 1024);
  }

  lemma StatusStrict(f: Codec<bool>, g: Codec<bool>)
    requires Strict(f, g)
    ensures Strict(StatusForm(f), StatusForm(g))
  {
    ReadinessStrict(f, g);
    TotalsStrict();
    MetricsStrict();
    var tail := Pair(TotalsCodec(), Many(MetricCodec(), 1024));
    PairStrict(TotalsCodec(), TotalsCodec(), Many(MetricCodec(), 1024), Many(MetricCodec(), 1024));
    PairStrict(ReadinessForm(f), ReadinessForm(g), tail, tail);
    ViaStrict(Pair(ReadinessForm(f), tail), Pair(ReadinessForm(g), tail), StatusOf, StatusParts);
  }

  lemma UnderString<T(!new)>(a: Codec<T>, b: Codec<T>)
    requires Strict(a, b)
    ensures Strict(Pair(Str(), a), Pair(Str(), b))
  {
    StringStrict();
    PairStrict(Str(), Str(), a, b);
  }

  lemma FlagsThenString(f: Codec<bool>, g: Codec<bool>)
    requires Strict(f, g)
    ensures Strict(Pair(f, Pair(f, Str())), Pair(g, Pair(g, Str())))
  {
    StringStrict();
    PairStrict(f, g, Str(), Str());
    PairStrict(f, g, Pair(f, Str()), Pair(g, Str()));
  }

  lemma CheckStrict(f: Codec<bool>, g: Codec<bool>)
    requires Strict(f, g)
    ensures Strict(CheckForm(f), CheckForm(g))
  {
    FlagsThenString(f, g);
    var a1, b1 := Pair(f, Pair(f, Str())), Pair(g, Pair(g, Str()));
    UnderString(a1, b1);
    var a2, b2 := Pair(Str(), a1), Pair(Str(), b1);
    UnderString(a2, b2);
    var a3, b3 := Pair(Str(), a2), Pair(Str(), b2);
    UnderString(a3, b3);
    var a4, b4 := Pair(Str(), a3), Pair(Str(), b3);
    UnderString(a4, b4);
    var a5, b5 := Pair(Str(), a4), Pair(Str(), b4);
    UnderString(a5, b5);
    ViaStrict(Pair(Str(), a5), Pair(Str(), b5), CheckOf, CheckParts);
  }

  lemma SmallStrict(f: Codec<bool>, g: Codec<bool>)
    requires Strict(f, g)
    ensures Strict(CountsForm(f), CountsForm(g))
    ensures Strict(Many(Str(), 4096), Many(Str(), 4096))
    ensures Strict(Many(ProcessCodec(), 4096), Many(ProcessCodec(), 4096))
  {
    StringStrict();
    var two := Pair(U32(), U32());
    PairStrict(U32(), U32(), U32(), U32());
    PairStrict(f, g, two, two);
    ViaStrict(Pair(f, two), Pair(g, two), CountsOf, CountsParts);
    ManyStrict(Str(), Str(), 4096);
    PairStrict(U32(), U32(), Str(), Str());
    ViaStrict(Pair(U32(), Str()), Pair(U32(), Str()), ProcessOf, ProcessParts);
    ManyStrict(ProcessCodec(), ProcessCodec(), 4096);
  }

  lemma OutcomeStrict(f: Codec<bool>, g: Codec<bool>)
    requires Strict(f, g)
    ensures Strict(OutcomeForm(f), OutcomeForm(g))
  {
    CheckStrict(f, g);
    SmallStrict(f, g);
    var strings, processes := Many(Str(), 4096), Many(ProcessCodec(), 4096);
    var last := Pair(strings, processes);
    ManyStrict(CheckForm(f), CheckForm(g), 4096);
    PairStrict(strings, strings, processes, processes);
    PairStrict(Many(CheckForm(f), 4096), Many(CheckForm(g), 4096), last, last);
    var a, b := Pair(Many(CheckForm(f), 4096), last), Pair(Many(CheckForm(g), 4096), last);
    PairStrict(strings, strings, a, b);
    PairStrict(CountsForm(f), CountsForm(g), Pair(strings, a), Pair(strings, b));
    ViaStrict(Pair(CountsForm(f), Pair(strings, a)), Pair(CountsForm(g), Pair(strings, b)), OutcomeOf, OutcomeParts);
  }

  /** Encoding a decoded message gives the same bytes if and only if each of its flag bytes was 0 or 1. */
  lemma AppRulesCanonical(b: string)
    requires IsBytes(b) && Decode(AppRulesMessage(), b).Some?
    ensures AppRulesMessage().write(Decode(AppRulesMessage(), b).value) == b
            <==> Decode(AppRulesForm(StrictFlag()), b).Some?
  {
    FlagStrict();
    AppRulesStrict(Flag(), StrictFlag());
    CanonicalExactly(AppRulesMessage(), AppRulesForm(StrictFlag()), b);
  }

  lemma StatusCanonical(b: string)
    requires IsBytes(b) && Decode(StatusMessage(), b).Some?
    ensures StatusMessage().write(Decode(StatusMessage(), b).value) == b
            <==> Decode(StatusForm(StrictFlag()), b).Some?
  {
    FlagStrict();
    StatusStrict(Flag(), StrictFlag());
    CanonicalExactly(StatusMessage(), StatusForm(StrictFlag()), b);
  }

  lemma OutcomeCanonical(b: string)
    requires IsBytes(b) && Decode(OutcomeMessage(), b).Some?
    ensures OutcomeMessage().write(Decode(OutcomeMessage(), b).value) == b
            <==> Decode(OutcomeForm(StrictFlag()), b).Some?
  {
    FlagStrict();
    OutcomeStrict(Flag(), StrictFlag());
    CanonicalExactly(OutcomeMessage(), OutcomeForm(StrictFlag()), b);
  }
}

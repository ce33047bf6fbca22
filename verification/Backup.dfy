/** The backup of destination rules as JSON values: encoding, decoding with its limits, and the normal form. */
module Backup {
  import opened Common
  import opened Planner
  import opened Destination

  datatype Json =
    | Null
    | Bool(value: bool)
    | Number(n: int)
    | Text(text: string)
    | List(items: seq<Json>)
    | Object(fields: map<string, Json>)

  /** A field, or null when it is missing. */
  function Field(j: Json, name: string): Json
    requires j.Object?
  {
    if name in j.fields then j.fields[name] else Null
  }

  datatype Dependency = Dependency(index: nat, destination: string, kind: DestinationKind, enabled: bool)

  /** A rule as the backup holds it; `index` stands for the id made from its position, time stamps are left out. */
  datatype BackupRule = BackupRule(
    index: nat,
    description: Option<string>,
    raw: string,
    normalized: string,
    kind: DestinationKind,
    interfaceId: string,
    enabled: bool,
    pin: Option<string>,
    dependencies: seq<Dependency>)

  const FORMAT := "netpilot-destination-rules"
  const MAX_RULES := 1000
  const MAX_DEPENDENCIES := 256
  const MAX_ALL_DEPENDENCIES := 10000
  const MAX_TEXT := 4096

  /******* Encoding *******/

  function OrNull(text: Option<string>): Json
  {
    if text.None? then Null else Text(text.value)
  }

  function EncodeDependency(d: Dependency): Json
  {
    Object(map["destination" := Text(d.destination), "enabled" := Bool(d.enabled)])
  }

  function EncodeDependencies(ds: seq<Dependency>): seq<Json>
  {
    seq(|ds|, i requires 0 <= i < |ds| => EncodeDependency(ds[i]))
  }

  function EncodeRule(r: BackupRule): Json
  {
    Object(map["destination" := Text(r.raw), "label" := OrNull(r.description), "interface" := Text(r.interfaceId),
                "enabled" := Bool(r.enabled), "hostIpv4" := OrNull(r.pin),
                "dependencies" := List(EncodeDependencies(r.dependencies))])
  }

  function EncodeRules(rules: seq<BackupRule>): seq<Json>
  {
    seq(|rules|, i requires 0 <= i < |rules| => EncodeRule(rules[i]))
  }

  function Encode(rules: seq<BackupRule>): Json
  {
    Object(map["format" := Text(FORMAT), "version" := Number(1), "rules" := List(EncodeRules(rules))])
  }

  /******* Lists, item by item *******/

  /** Decodes item after item; each one must go with those before it. */
  function DecodeEach<T>(one: (nat, Json) -> Option<T>, goes: (seq<T>, T) -> bool, items: seq<Json>): Option<seq<T>>
  {
    if items == [] then Some([]) else
      var before := DecodeEach(one, goes, items[..|items| - 1]);
      if before.None? then None else
        var x := one(|items| - 1, items[|items| - 1]);
        if x.None? || !goes(before.value, x.value) then None else Some(before.value + [x.value])
  }

  /** The list that decoding gives. */
  ghost predicate Decodes<T>(one: (nat, Json) -> Option<T>, goes: (seq<T>, T) -> bool, items: seq<Json>, xs: seq<T>)
  {
    |xs| == |items| && forall k | 0 <= k < |xs| :: one(k, items[k]) == Some(xs[k]) && goes(xs[..k], xs[k])
  }

  lemma {:induction false} EachDecodes<T>(one: (nat, Json) -> Option<T>, goes: (seq<T>, T) -> bool, items: seq<Json>)
    requires DecodeEach(one, goes, items).Some?
    ensures Decodes(one, goes, items, DecodeEach(one, goes, items).value)
  {
    if items != [] {
      var last := |items| - 1;
      EachDecodes(one, goes, items[..last]);
      var before, all := DecodeEach(one, goes, items[..last]).value, DecodeEach(one, goes, items).value;
      forall k | 0 <= k < |all| ensures one(k, items[k]) == Some(all[k]) && goes(all[..k], all[k]) {
        if k < last {
          assert items[..last][k] == items[k] && before[k] == all[k] && before[..k] == all[..k];
        } else {
          assert all[..k] == before;
        }
      }
    }
  }

  lemma {:induction false} DecodesEach<T>(one: (nat, Json) -> Option<T>, goes: (seq<T>, T) -> bool, items: seq<Json>,
      xs: seq<T>)
    requires Decodes(one, goes, items, xs)
    ensures DecodeEach(one, goes, items) == Some(xs)
  {
    if items != [] {
      var last := |items| - 1;
      forall k | 0 <= k < last
        ensures one(k, items[..last][k]) == Some(xs[..last][k]) && goes(xs[..last][..k], xs[..last][k]) {
        assert xs[..last][..k] == xs[..k];
      }
      DecodesEach(one, goes, items[..last], xs[..last]);
      assert xs[..last] + [xs[last]] == xs;
    }
  }

  lemma {:induction false} EachRefused<T>(one: (nat, Json) -> Option<T>, goes: (seq<T>, T) -> bool, items: seq<Json>,
      i: nat)
    requires i <= |items| && DecodeEach(one, goes, items[..i]).None?
    ensures DecodeEach(one, goes, items).None?
  {
    if i == |items| {
      assert items[..i] == items;
    } else {
      assert items[..|items| - 1][..i] == items[..i];
      EachRefused(one, goes, items[..|items| - 1], i);
    }
  }

  /** What a decoding loop does with its next item. */
  lemma EachNext<T>(one: (nat, Json) -> Option<T>, goes: (seq<T>, T) -> bool, items: seq<Json>, i: nat, before: seq<T>)
    requires i < |items| && DecodeEach(one, goes, items[..i]) == Some(before)
    ensures |before| == i
    ensures var x := one(i, items[i]);
            if x.Some? && goes(before, x.value) then DecodeEach(one, goes, items[..i + 1]) == Some(before + [x.value])
            else DecodeEach(one, goes, items).None?
  {
    EachDecodes(one, goes, items[..i]);
    assert items[..i + 1][..i] == items[..i] && items[..i + 1][i] == items[i];
    var x := one(i, items[i]);
    if x.None? || !goes(before, x.value) {
      EachRefused(one, goes, items, i + 1);
    }
  }

  /******* Decoding *******/

  predicate IsText(j: Json)
  {
    j.Text? && Trim(j.text) != "" && |j.text| <= MAX_TEXT
  }

  function DecodeDependency(platform: Platform, index: nat, j: Json): Option<Dependency>
  {
    if !j.Object? || !IsText(Field(j, "destination")) || !Field(j, "enabled").Bool? then None else
      var parsed := Parse(platform, Field(j, "destination").text);
      if parsed.None? || (parsed.value.kind != Hostname && parsed.value.kind != Ipv4) then None
      else Some(Dependency(index, parsed.value.normalized, parsed.value.kind, Field(j, "enabled").value))
  }

  predicate Names(ds: seq<Dependency>, destination: string)
  {
    exists d :: d in ds && d.destination == destination
  }

  predicate NewName(ds: seq<Dependency>, d: Dependency)
  {
    !Names(ds, d.destination)
  }

  function OneDependency(platform: Platform): (nat, Json) -> Option<Dependency>
  {
    (index: nat, j: Json) => DecodeDependency(platform, index, j)
  }

  function DecodeDependencies(platform: Platform, items: seq<Json>): Option<seq<Dependency>>
  {
    DecodeEach(OneDependency(platform), NewName, items)
  }

  predicate DescriptionAllowed(j: Json)
  {
    j.Null? || (j.Text? && |j.text| <= MAX_TEXT)
  }

  predicate PinAllowed(j: Json, parsed: Parsed)
  {
    j.Null? || (j.Text? && IsIpv4(j.text) && !IsIpv4(parsed.normalized) && (parsed.kind == Hostname || parsed.kind
        == Url))
  }

  function TextOrNone(j: Json): Option<string>
  {
    if j.Text? then Some(j.text) else None
  }

  predicate HeaderAllowed(j: Json)
  {
    && j.Object? && IsText(Field(j, "destination")) && IsText(Field(j, "interface"))
    && DescriptionAllowed(Field(j, "label")) && Field(j, "enabled").Bool?
    && Field(j, "dependencies").List? && |Field(j, "dependencies").items| <= MAX_DEPENDENCIES
  }

  function DecodeRule(platform: Platform, index: nat, j: Json): Option<BackupRule>
  {
    if !HeaderAllowed(j) then None else
      var parsed := Parse(platform, Field(j, "destination").text);
      if parsed.None? || !PinAllowed(Field(j, "hostIpv4"), parsed.value) then None else
        var dependencies := DecodeDependencies(platform, Field(j, "dependencies").items);
        if dependencies.None? then None else
          var p := parsed.value;
          Some(BackupRule(index, TextOrNone(Field(j, "label")), p.raw, p.normalized, p.kind, Field(j, "interface").text,
                          Field(j, "enabled").value, TextOrNone(Field(j, "hostIpv4")), dependencies.value))
  }

  function CountDependencies(rules: seq<BackupRule>): nat
  {
    if rules == [] then 0 else CountDependencies(rules[..|rules| - 1]) + |rules[|rules| - 1].dependencies|
  }

  predicate WithinTotal(rules: seq<BackupRule>, r: BackupRule)
  {
    CountDependencies(rules) + |r.dependencies| <= MAX_ALL_DEPENDENCIES
  }

  function OneRule(platform: Platform): (nat, Json) -> Option<BackupRule>
  {
    (index: nat, j: Json) => DecodeRule(platform, index, j)
  }

  function DecodeRules(platform: Platform, entries: seq<Json>): Option<seq<BackupRule>>
  {
    DecodeEach(OneRule(platform), WithinTotal, entries)
  }

  /** The rules of an accepted backup; None for every backup that is refused. */
  function Decode(platform: Platform, j: Json): Option<seq<BackupRule>>
  {
    if !j.Object? || Field(j, "format") != Text(FORMAT) || Field(j, "version") != Number(1) then None
    else if !Field(j, "rules").List? || |Field(j, "rules").items| > MAX_RULES then None
    else DecodeRules(platform, Field(j, "rules").items)
  }

  /******* Decoding as it runs *******/

  method ReadDependency(platform: Platform, index: nat, item: Json, ghost before: seq<Dependency>, seen: set<string>)
    returns (d: Option<Dependency>)
    requires forall s :: s in seen <==> Names(before, s)
    ensures var one := DecodeDependency(platform, index, item);
            d == if one.Some? && NewName(before, one.value) then one else None
  {
    if !item.Object? || !IsText(Field(item, "destination")) {
      return None;
    }
    var parsed := Parse(platform, Field(item, "destination").text);
    if parsed.None? || (parsed.value.kind != Hostname && parsed.value.kind != Ipv4) || parsed.value.normalized in seen
       || !Field(item, "enabled").Bool? {
      return None;
    }
    d := Some(Dependency(index, parsed.value.normalized, parsed.value.kind, Field(item, "enabled").value));
  }

  method ReadDependencies(platform: Platform, items: seq<Json>) returns (dependencies: Option<seq<Dependency>>)
    ensures dependencies == DecodeDependencies(platform, items)
  {
    var result: seq<Dependency> := [];
    var seen: set<string> := {};
    for i := 0 to |items|
      invariant DecodeEach(OneDependency(platform), NewName, items[..i]) == Some(result)
      invariant forall s :: s in seen <==> Names(result, s)
    {
      EachNext(OneDependency(platform), NewName, items, i, result);
      var d := ReadDependency(platform, |result|, items[i], result, seen);
      if d.None? {
        return None;
      }
      seen := seen + {d.value.destination};
      NamesSnoc(result, d.value);
      result := result + [d.value];
    }
    assert items[..|items|] == items;
    dependencies := Some(result);
  }

  lemma NamesSnoc(ds: seq<Dependency>, d: Dependency)
    ensures forall s :: Names(ds + [d], s) <==> Names(ds, s) || s == d.destination
  {
    assert forall e :: e in ds + [d] <==> e in ds || e == d;
  }

  lemma CountOfDependencies(platform: Platform, items: seq<Json>)
    requires DecodeDependencies(platform, items).Some?
    ensures |DecodeDependencies(platform, items).value| == |items|
  {
    EachDecodes(OneDependency(platform), NewName, items);
  }

  method ReadRule(platform: Platform, index: nat, count: nat, j: Json) returns (rule: Option<BackupRule>)
    ensures var r := DecodeRule(platform, index, j);
            rule == if r.Some? && count + |r.value.dependencies| > MAX_ALL_DEPENDENCIES then None else r
  {
    if !j.Object? || !IsText(Field(j, "destination")) {
      return None;
    }
    var parsed := Parse(platform, Field(j, "destination").text);
    if parsed.None? || !IsText(Field(j, "interface")) || !DescriptionAllowed(Field(j, "label"))
       || !PinAllowed(Field(j, "hostIpv4"), parsed.value) {
      return None;
    }
    var children := Field(j, "dependencies");
    if !children.List? || |children.items| > MAX_DEPENDENCIES || count + |children.items| > MAX_ALL_DEPENDENCIES {
      if children.List? && DecodeDependencies(platform, children.items).Some? {
        CountOfDependencies(platform, children.items);
      }
      return None;
    }
    var dependencies := ReadDependencies(platform, children.items);
    if dependencies.None? || !Field(j, "enabled").Bool? {
      return None;
    }
    CountOfDependencies(platform, children.items);
    rule := Some(BackupRule(index, TextOrNone(Field(j, "label")), parsed.value.raw, parsed.value.normalized,
                            parsed.value.kind, Field(j, "interface").text, Field(j, "enabled").value,
                            TextOrNone(Field(j, "hostIpv4")), dependencies.value));
  }

  method ReadBackup(platform: Platform, j: Json) returns (rules: Option<seq<BackupRule>>)
    ensures rules == Decode(platform, j)
  {
    if !j.Object? || Field(j, "format") != Text(FORMAT) || Field(j, "version") != Number(1) {
      return None;
    }
    if !Field(j, "rules").List? || |Field(j, "rules").items| > MAX_RULES {
      return None;
    }
    var entries := Field(j, "rules").items;
    var dependencyCount := 0;
    var result: seq<BackupRule> := [];
    for i := 0 to |entries|
      invariant DecodeEach(OneRule(platform), WithinTotal, entries[..i]) == Some(result)
      invariant dependencyCount == CountDependencies(result)
    {
      EachNext(OneRule(platform), WithinTotal, entries, i, result);
      var rule := ReadRule(platform, |result|, dependencyCount, entries[i]);
      if rule.None? {
        return None;
      }
      assert (result + [rule.value])[..|result|] == result;
      dependencyCount := dependencyCount + |rule.value.dependencies|;
      result := result + [rule.value];
    }
    assert entries[..|entries|] == entries;
    rules := Some(result);
  }

  /******* The normal form *******/

  /** What the parser makes of an accepted dependency. */
  ghost predicate GoodName(platform: Platform, kind: DestinationKind, destination: string)
  {
    && (kind == Hostname || kind == Ipv4) && 0 < |destination| <= MAX_TEXT && Trim(destination) == destination
    && Parse(platform, destination)
       == Some(Parsed(if IsIpv4(destination) then Ipv4 else Hostname, destination, destination))
    && (kind == Ipv4 ==> IsIpv4(destination))
  }

  ghost predicate GoodDependency(platform: Platform, d: Dependency)
  {
    GoodName(platform, d.kind, d.destination)
  }

  /** A dotted quad that was read as a host name. */
  predicate IsQuadName(d: Dependency)
  {
    d.kind == Hostname && IsIpv4(d.destination)
  }

  function Reclassified(d: Dependency): Dependency
  {
    if IsQuadName(d) then d.(kind := Ipv4) else d
  }

  function AllReclassified(ds: seq<Dependency>): seq<Dependency>
  {
    seq(|ds|, i requires 0 <= i < |ds| => Reclassified(ds[i]))
  }

  function RuleReclassified(r: BackupRule): BackupRule
  {
    r.(dependencies := AllReclassified(r.dependencies))
  }

  function RulesReclassified(rules: seq<BackupRule>): seq<BackupRule>
  {
    seq(|rules|, i requires 0 <= i < |rules| => RuleReclassified(rules[i]))
  }

  lemma {:induction false} Ipv4Length(s: string)
    requires forall p | p in Split(s, '.') :: |p| <= 3
    ensures |s| < 4 * |Split(s, '.')|
    decreases |s|
  {
    if '.' in s {
      BeforeAfter(s, '.');
      var head, tail := Before(s, '.'), After(s, '.');
      assert Split(s, '.') == [head] + Split(tail, '.');
      assert head in Split(s, '.');
      forall p | p in Split(tail, '.') ensures |p| <= 3 {
        assert p in Split(s, '.');
      }
      Ipv4Length(tail);
    } else {
      assert s in Split(s, '.');
    }
  }

  lemma ShortDestination(platform: Platform, input: string)
    requires Parse(platform, input).Some?
    requires Parse(platform, input).value.kind == Hostname || Parse(platform, input).value.kind == Ipv4
    ensures var n := Parse(platform, input).value.normalized; 0 < |n| <= MAX_TEXT && Trim(n) == n
  {
    var p := Parse(platform, input).value;
    if p.kind == Ipv4 {
      forall o | o in Split(p.normalized, '.') ensures |o| <= 3 {
        assert IsOctet(o);
      }
      Ipv4Length(p.normalized);
      Ipv4IsPlain(p.normalized);
    } else {
      LowerHostname(WithoutFinalDot(p.raw));
      HostnameIsPlain(p.normalized);
    }
    PlainIsNoUrl(p.normalized);
  }

  lemma ParsedIsIpv4(platform: Platform, input: string)
    requires Parse(platform, input).Some? && Parse(platform, input).value.kind == Ipv4
    ensures IsIpv4(Parse(platform, input).value.normalized) && Parse(platform, input).value.normalized == Trim(input)
  {
  }

  lemma ParsedIsGood(platform: Platform, input: string, p: Parsed)
    requires Parse(platform, input) == Some(p) && (p.kind == Hostname || p.kind == Ipv4)
    ensures GoodName(platform, p.kind, p.normalized)
  {
    NormalizedParses(platform, input);
    ShortDestination(platform, input);
    if p.kind == Ipv4 {
      ParsedIsIpv4(platform, input);
    }
  }

  lemma DependencyIsParsed(platform: Platform, index: nat, j: Json, d: Dependency)
    requires DecodeDependency(platform, index, j) == Some(d)
    ensures j.Object? && Field(j, "destination").Text? && d.index == index
    ensures var p := Parse(platform, Field(j, "destination").text);
            p.Some? && p.value.kind == d.kind && p.value.normalized == d.destination && (d.kind
                == Hostname || d.kind == Ipv4)
  {
  }

  lemma AcceptedDependency(platform: Platform, index: nat, j: Json)
    requires DecodeDependency(platform, index, j).Some?
    ensures var d := DecodeDependency(platform, index, j).value; d.index == index && GoodDependency(platform, d)
  {
    var d := DecodeDependency(platform, index, j).value;
    DependencyIsParsed(platform, index, j, d);
    ParsedIsGood(platform, Field(j, "destination").text, Parse(platform, Field(j, "destination").text).value);
  }

  ghost predicate GoodDependencies(platform: Platform, ds: seq<Dependency>)
  {
    && (forall i | 0 <= i < |ds| :: ds[i].index == i && GoodDependency(platform, ds[i]))
    && forall i, k | 0 <= i < k < |ds| :: ds[i].destination != ds[k].destination
  }

  lemma AcceptedDependencies(platform: Platform, items: seq<Json>)
    requires DecodeDependencies(platform, items).Some?
    ensures GoodDependencies(platform, DecodeDependencies(platform, items).value)
    ensures |DecodeDependencies(platform, items).value| == |items|
  {
    var ds := DecodeDependencies(platform, items).value;
    EachDecodes(OneDependency(platform), NewName, items);
    forall i | 0 <= i < |ds| ensures ds[i].index == i && GoodDependency(platform, ds[i]) {
      AcceptedDependency(platform, i, items[i]);
    }
    forall i, k | 0 <= i < k < |ds| ensures ds[i].destination != ds[k].destination {
      assert NewName(ds[..k], ds[k]) && ds[..k][i] in ds[..k];
    }
  }

  lemma DependencyAgain(platform: Platform, d: Dependency)
    requires GoodDependency(platform, d)
    ensures DecodeDependency(platform, d.index, EncodeDependency(d)) == Some(Reclassified(d))
  {
  }

  lemma DependencyAgainAt(platform: Platform, ds: seq<Dependency>, k: nat)
    requires k < |ds| && GoodDependency(platform, ds[k]) && ds[k].index == k
    requires forall i | 0 <= i < k :: ds[i].destination != ds[k].destination
    ensures DecodeDependency(platform, k, EncodeDependencies(ds)[k]) == Some(AllReclassified(ds)[k])
    ensures NewName(AllReclassified(ds)[..k], AllReclassified(ds)[k])
  {
    DependencyAgain(platform, ds[k]);
    StillNewName(ds, k);
  }

  lemma StillNewName(ds: seq<Dependency>, k: nat)
    requires k < |ds| && forall i | 0 <= i < k :: ds[i].destination != ds[k].destination
    ensures NewName(AllReclassified(ds)[..k], AllReclassified(ds)[k])
  {
    NotNamed(ds[..k], ds[k]);
    assert AllReclassified(ds[..k]) == AllReclassified(ds)[..k];
  }

  lemma DependenciesAgain(platform: Platform, ds: seq<Dependency>)
    requires GoodDependencies(platform, ds)
    ensures DecodeDependencies(platform, EncodeDependencies(ds)) == Some(AllReclassified(ds))
  {
    var items, xs := EncodeDependencies(ds), AllReclassified(ds);
    forall k | 0 <= k < |ds| ensures OneDependency(platform)(k, items[k]) == Some(xs[k]) && NewName(xs[..k], xs[k]) {
      DependencyAgainAt(platform, ds, k);
    }
    DecodesEach(OneDependency(platform), NewName, items, xs);
  }

  lemma NotNamed(front: seq<Dependency>, d: Dependency)
    requires forall i | 0 <= i < |front| :: front[i].destination != d.destination
    ensures !Names(AllReclassified(front), Reclassified(d).destination)
  {
    forall e | e in AllReclassified(front) ensures e.destination != d.destination {
      var i :| 0 <= i < |front| && AllReclassified(front)[i] == e;
      assert e == Reclassified(front[i]);
    }
  }

  ghost predicate GoodRule(platform: Platform, r: BackupRule)
  {
    && Parse(platform, r.raw) == Some(Parsed(r.kind, r.normalized, r.raw))
    && IsText(Text(r.raw)) && IsText(Text(r.interfaceId))
    && DescriptionAllowed(OrNull(r.description)) && PinAllowed(OrNull(r.pin), Parsed(r.kind, r.normalized, r.raw))
    && |r.dependencies| <= MAX_DEPENDENCIES && GoodDependencies(platform, r.dependencies)
  }

  lemma AcceptedRule(platform: Platform, index: nat, j: Json)
    requires DecodeRule(platform, index, j).Some?
    ensures var r := DecodeRule(platform, index, j).value; r.index == index && GoodRule(platform, r)
  {
    var input := Field(j, "destination").text;
    RawParsesAlike(platform, input);
    KeepsRaw(platform, Trim(input));
    TrimIdempotent(input);
    AcceptedDependencies(platform, Field(j, "dependencies").items);
  }

  lemma RuleFields(r: BackupRule)
    ensures var j := EncodeRule(r);
            && Field(j, "destination") == Text(r.raw) && Field(j, "label") == OrNull(r.description)
            && Field(j, "interface") == Text(r.interfaceId) && Field(j, "enabled") == Bool(r.enabled)
            && Field(j, "hostIpv4") == OrNull(r.pin)
            && Field(j, "dependencies") == List(EncodeDependencies(r.dependencies))
  {
  }

  lemma RuleHeader(r: BackupRule, j: Json)
    requires j.Object? && IsText(Text(r.raw)) && IsText(Text(r.interfaceId))
        && DescriptionAllowed(OrNull(r.description))
    requires |r.dependencies| <= MAX_DEPENDENCIES
    requires Field(j, "destination") == Text(r.raw) && Field(j, "label") == OrNull(r.description)
    requires Field(j, "interface") == Text(r.interfaceId) && Field(j, "enabled") == Bool(r.enabled)
    requires Field(j, "dependencies") == List(EncodeDependencies(r.dependencies))
    ensures HeaderAllowed(j)
  {
  }

  /** A rule decoded from its fields. */
  lemma RuleParts(platform: Platform, index: nat, j: Json, parsed: Parsed, dependencies: seq<Dependency>)
    requires HeaderAllowed(j) && Parse(platform, Field(j, "destination").text) == Some(parsed)
    requires PinAllowed(Field(j, "hostIpv4"), parsed)
    requires DecodeDependencies(platform, Field(j, "dependencies").items) == Some(dependencies)
    ensures DecodeRule(platform, index, j)
            == Some(BackupRule(index, TextOrNone(Field(j, "label")), parsed.raw, parsed.normalized, parsed.kind,
                               Field(j, "interface").text, Field(j, "enabled").value, TextOrNone(Field(j, "hostIpv4")),
                               dependencies))
  {
  }

  lemma RuleFromFields(platform: Platform, r: BackupRule, j: Json, parsed: Parsed, dependencies: seq<Dependency>)
    requires parsed == Parsed(r.kind, r.normalized, r.raw) && Parse(platform, r.raw) == Some(parsed)
    requires j.Object? && HeaderAllowed(j) && PinAllowed(OrNull(r.pin), parsed)
    requires Field(j, "destination") == Text(r.raw) && Field(j, "label") == OrNull(r.description)
    requires Field(j, "interface") == Text(r.interfaceId) && Field(j, "enabled") == Bool(r.enabled)
    requires Field(j, "hostIpv4") == OrNull(r.pin)
    requires DecodeDependencies(platform, Field(j, "dependencies").items) == Some(dependencies)
    ensures DecodeRule(platform, r.index, j) == Some(r.(dependencies := dependencies))
  {
    RuleParts(platform, r.index, j, parsed, dependencies);
    assert TextOrNone(OrNull(r.description)) == r.description && TextOrNone(OrNull(r.pin)) == r.pin;
  }

  lemma RuleAgain(platform: Platform, r: BackupRule)
    requires GoodRule(platform, r)
    ensures DecodeRule(platform, r.index, EncodeRule(r)) == Some(RuleReclassified(r))
  {
    DependenciesAgain(platform, r.dependencies);
    RuleAgainFrom(platform, r, EncodeRule(r), Parsed(r.kind, r.normalized, r.raw));
  }

  lemma RuleAgainFrom(platform: Platform, r: BackupRule, j: Json, parsed: Parsed)
    requires j == EncodeRule(r) && parsed == Parsed(r.kind, r.normalized, r.raw) && Parse(platform, r.raw)
        == Some(parsed)
    requires IsText(Text(r.raw)) && IsText(Text(r.interfaceId)) && DescriptionAllowed(OrNull(r.description))
    requires PinAllowed(OrNull(r.pin), parsed) && |r.dependencies| <= MAX_DEPENDENCIES
    requires DecodeDependencies(platform, EncodeDependencies(r.dependencies)) == Some(AllReclassified(r.dependencies))
    ensures DecodeRule(platform, r.index, j) == Some(RuleReclassified(r))
  {
    RuleFields(r);
    RuleHeader(r, j);
    RuleFromFields(platform, r, j, parsed, AllReclassified(r.dependencies));
  }

  ghost predicate GoodRules(platform: Platform, rules: seq<BackupRule>)
  {
    && (forall i | 0 <= i < |rules| :: rules[i].index == i && GoodRule(platform, rules[i]))
    && CountDependencies(rules) <= MAX_ALL_DEPENDENCIES
  }

  lemma AcceptedRules(platform: Platform, entries: seq<Json>)
    requires DecodeRules(platform, entries).Some?
    ensures GoodRules(platform, DecodeRules(platform, entries).value)
    ensures |DecodeRules(platform, entries).value| == |entries|
  {
    var rules := DecodeRules(platform, entries).value;
    EachDecodes(OneRule(platform), WithinTotal, entries);
    forall i | 0 <= i < |rules| ensures rules[i].index == i && GoodRule(platform, rules[i]) {
      AcceptedRule(platform, i, entries[i]);
    }
    if rules != [] {
      assert WithinTotal(rules[..|rules| - 1], rules[|rules| - 1]);
    }
  }

  lemma {:induction false} SameCount(rules: seq<BackupRule>)
    ensures CountDependencies(RulesReclassified(rules)) == CountDependencies(rules)
  {
    if rules != [] {
      var last := |rules| - 1;
      SameCount(rules[..last]);
      assert RulesReclassified(rules)[..last] == RulesReclassified(rules[..last]);
    }
  }

  lemma {:induction false} CountPrefix(rules: seq<BackupRule>, k: nat)
    requires k < |rules|
    ensures CountDependencies(rules[..k]) + |rules[k].dependencies| <= CountDependencies(rules)
  {
    var last := |rules| - 1;
    if k < last {
      CountPrefix(rules[..last], k);
      assert rules[..last][..k] == rules[..k];
    }
  }

  lemma RuleAgainAt(platform: Platform, rules: seq<BackupRule>, k: nat)
    requires GoodRules(platform, rules) && k < |rules|
    ensures DecodeRule(platform, k, EncodeRules(rules)[k]) == Some(RulesReclassified(rules)[k])
  {
    RuleAgain(platform, rules[k]);
  }

  lemma StillWithinTotal(rules: seq<BackupRule>, k: nat)
    requires CountDependencies(rules) <= MAX_ALL_DEPENDENCIES && k < |rules|
    ensures WithinTotal(RulesReclassified(rules)[..k], RulesReclassified(rules)[k])
  {
    CountPrefix(rules, k);
    SameCount(rules[..k]);
    assert RulesReclassified(rules[..k]) == RulesReclassified(rules)[..k];
  }

  lemma RulesAgain(platform: Platform, rules: seq<BackupRule>)
    requires GoodRules(platform, rules)
    ensures DecodeRules(platform, EncodeRules(rules)) == Some(RulesReclassified(rules))
  {
    var items, xs := EncodeRules(rules), RulesReclassified(rules);
    forall k | 0 <= k < |rules| ensures DecodeRule(platform, k, items[k]) == Some(xs[k]) && WithinTotal(xs[..k],
        xs[k]) {
      RuleAgainAt(platform, rules, k);
      StillWithinTotal(rules, k);
    }
    DecodesEach(OneRule(platform), WithinTotal, items, xs);
  }

  lemma EncodedFields(rules: seq<BackupRule>)
    ensures var j := Encode(rules);
            && Field(j, "format") == Text(FORMAT) && Field(j, "version") == Number(1)
            && Field(j, "rules") == List(EncodeRules(rules))
  {
  }

  lemma DecodeItems(platform: Platform, j: Json, items: seq<Json>)
    requires j.Object? && Field(j, "format") == Text(FORMAT) && Field(j, "version") == Number(1)
    requires Field(j, "rules") == List(items) && |items| <= MAX_RULES
    ensures Decode(platform, j) == DecodeRules(platform, items)
  {
  }

  /** Every accepted backup can be written and read again; all that may change is that a dependency which is a dotted
      quad, but was read as a host name, becomes an address. */
  lemma BackupAgain(platform: Platform, j: Json)
    requires Decode(platform, j).Some?
    ensures var rules := Decode(platform, j).value;
            Decode(platform, Encode(rules)) == Some(RulesReclassified(rules))
  {
    var rules := Decode(platform, j).value;
    AcceptedRules(platform, Field(j, "rules").items);
    RulesAgain(platform, rules);
    EncodedFields(rules);
    DecodeItems(platform, Encode(rules), EncodeRules(rules));
  }

  /******* When it is a normal form *******/

  /** A dotted quad with a dot behind it, perhaps with white space around. */
  ghost predicate IsTrailingDotQuad(text: string)
  {
    exists quad :: IsIpv4(quad) && Trim(text) == quad + "."
  }

  lemma QuadText(platform: Platform, input: string, p: Parsed)
    requires Parse(platform, input) == Some(p) && (p.kind == Hostname || p.kind == Ipv4)
    ensures p.kind == Hostname && IsIpv4(p.normalized) <==> IsTrailingDotQuad(input)
  {
    if p.kind == Hostname {
      TrailingDotQuad(platform, input);
    } else {
      ParsedIsIpv4(platform, input);
      Ipv4IsPlain(Trim(input));
    }
  }

  lemma QuadNameText(platform: Platform, index: nat, j: Json)
    requires DecodeDependency(platform, index, j).Some?
    ensures IsQuadName(DecodeDependency(platform, index, j).value) <==> IsTrailingDotQuad(Field(j, "destination").text)
  {
    var d := DecodeDependency(platform, index, j).value;
    DependencyIsParsed(platform, index, j, d);
    QuadText(platform, Field(j, "destination").text, Parse(platform, Field(j, "destination").text).value);
  }

  /** The items of the dependency list of rule `i`. */
  function DependencyItems(j: Json, i: nat): seq<Json>
  {
    if j.Object? && Field(j, "rules").List? && i < |Field(j, "rules").items| && Field(j, "rules").items[i].Object?
       && Field(Field(j, "rules").items[i], "dependencies").List?
    then Field(Field(j, "rules").items[i], "dependencies").items else []
  }

  /** The text of dependency `k` of rule `i`. */
  function DependencyText(j: Json, i: nat, k: nat): string
  {
    var items := DependencyItems(j, i);
    if k < |items| && items[k].Object? && Field(items[k], "destination").Text?
    then Field(items[k], "destination").text else ""
  }

  lemma RuleItems(platform: Platform, j: Json, i: nat)
    requires Decode(platform, j).Some? && i < |Decode(platform, j).value|
    ensures DecodeDependencies(platform, DependencyItems(j, i)) == Some(Decode(platform, j).value[i].dependencies)
  {
    var entries := Field(j, "rules").items;
    EachDecodes(OneRule(platform), WithinTotal, entries);
    assert DecodeRule(platform, i, entries[i]) == Some(Decode(platform, j).value[i]);
  }

  lemma QuadAt(platform: Platform, j: Json, i: nat, k: nat)
    requires Decode(platform, j).Some?
    requires i < |Decode(platform, j).value| && k < |Decode(platform, j).value[i].dependencies|
    ensures IsQuadName(Decode(platform, j).value[i].dependencies[k]) <==> IsTrailingDotQuad(DependencyText(j, i, k))
  {
    var items := DependencyItems(j, i);
    RuleItems(platform, j, i);
    EachDecodes(OneDependency(platform), NewName, items);
    assert DecodeDependency(platform, k, items[k]) == Some(Decode(platform, j).value[i].dependencies[k]);
    QuadNameText(platform, k, items[k]);
  }

  ghost predicate SomeQuadName(rules: seq<BackupRule>)
  {
    exists i, k :: 0 <= i < |rules| && 0 <= k < |rules[i].dependencies| && IsQuadName(rules[i].dependencies[k])
  }

  lemma UnchangedExactly(rules: seq<BackupRule>)
    ensures RulesReclassified(rules) == rules <==> !SomeQuadName(rules)
  {
    if i, k :| 0 <= i < |rules| && 0 <= k < |rules[i].dependencies| && IsQuadName(rules[i].dependencies[k]) {
      assert RulesReclassified(rules)[i].dependencies[k].kind == Ipv4;
    } else {
      forall i | 0 <= i < |rules| ensures RulesReclassified(rules)[i] == rules[i] {
        assert AllReclassified(rules[i].dependencies) == rules[i].dependencies;
      }
    }
  }

  /** Writing and reading an accepted backup gives the same rules again exactly when no dependency was written as a
      dotted quad with a trailing dot. */
  lemma BackupNormalForm(platform: Platform, j: Json)
    requires Decode(platform, j).Some?
    ensures var rules := Decode(platform, j).value;
            Decode(platform, Encode(rules)) == Some(rules)
            <==> forall i, k | 0 <= i < |rules| && 0 <= k < |rules[i].dependencies| ::
                   !IsTrailingDotQuad(DependencyText(j, i, k))
  {
    var rules := Decode(platform, j).value;
    BackupAgain(platform, j);
    UnchangedExactly(rules);
    forall i, k | 0 <= i < |rules| && 0 <= k < |rules[i].dependencies|
      ensures IsQuadName(rules[i].dependencies[k]) <==> IsTrailingDotQuad(DependencyText(j, i, k)) {
      QuadAt(platform, j, i, k);
    }
  }

  /** After one round trip the rules stay as they are. */
  lemma SecondRoundTripChangesNothing(platform: Platform, j: Json)
    requires Decode(platform, j).Some?
    ensures var once := Decode(platform, Encode(Decode(platform, j).value));
            once.Some? && Decode(platform, Encode(once.value)) == once
  {
    BackupAgain(platform, j);
    var again := Encode(Decode(platform, j).value);
    var once := Decode(platform, again).value;
    BackupAgain(platform, again);
    UnchangedExactly(once);
    forall i, k | 0 <= i < |once| && 0 <= k < |once[i].dependencies| ensures !IsQuadName(once[i].dependencies[k]) {
      var d := Decode(platform, j).value[i].dependencies[k];
      assert once[i].dependencies[k] == Reclassified(d);
    }
  }

  /******* Which backups are accepted *******/

  /** The object has the field, with this value. */
  predicate Has(j: Json, name: string, value: Json)
  {
    j.Object? && name in j.fields && j.fields[name] == value
  }

  /** The object holds the text, or null or nothing where there is none. */
  predicate HasOptional(j: Json, name: string, text: Option<string>)
  {
    j.Object? && if text.Some? then Has(j, name, Text(text.value)) else name !in j.fields || j.fields[name] == Null
  }

  predicate IsWritten(text: string)
  {
    Trim(text) != "" && |text| <= 4096
  }

  /** Entry `k` of a dependency list is for this dependency: a host name or an address, with its flag. */
  predicate IsEntryOf(platform: Platform, j: Json, k: nat, text: string, d: Dependency)
  {
    && d.index == k && (d.kind == Hostname || d.kind == Ipv4)
    && Has(j, "destination", Text(text)) && Has(j, "enabled", Bool(d.enabled)) && IsWritten(text)
    && Parse(platform, text).Some? && Parse(platform, text).value.normalized == d.destination
    && Parse(platform, text).value.kind == d.kind
  }

  ghost predicate IsDependency(platform: Platform, j: Json, k: nat, d: Dependency)
  {
    exists text :: IsEntryOf(platform, j, k, text, d)
  }

  /** The entries are for these dependencies, and none is named twice. */
  ghost predicate AreDependencies(platform: Platform, items: seq<Json>, ds: seq<Dependency>)
  {
    && |ds| == |items|
    && (forall k | 0 <= k < |ds| :: IsDependency(platform, items[k], k, ds[k]))
    && forall i, k | 0 <= i < k < |ds| :: ds[i].destination != ds[k].destination
  }

  /** A pin is an address, and only a name has one. */
  predicate PinFits(r: BackupRule)
  {
    r.pin.Some? ==> IsIpv4(r.pin.value) && (r.kind == Hostname || r.kind == Url) && !IsIpv4(r.normalized)
  }

  /** An entry of the rule list is for this rule. */
  ghost predicate IsRuleWith(platform: Platform, j: Json, i: nat, text: string, items: seq<Json>, r: BackupRule)
  {
    && r.index == i
    && Has(j, "destination", Text(text)) && IsWritten(text)
    && Parse(platform, text) == Some(Parsed(r.kind, r.normalized, r.raw))
    && Has(j, "interface", Text(r.interfaceId)) && IsWritten(r.interfaceId)
    && Has(j, "enabled", Bool(r.enabled))
    && HasOptional(j, "label", r.description) && (r.description.Some? ==> |r.description.value| <= 4096)
    && HasOptional(j, "hostIpv4", r.pin) && PinFits(r)
    && Has(j, "dependencies", List(items)) && |items| <= 256 && AreDependencies(platform, items, r.dependencies)
  }

  ghost predicate IsRule(platform: Platform, j: Json, i: nat, r: BackupRule)
  {
    exists text, items :: IsRuleWith(platform, j, i, text, items, r)
  }

  function Total(rules: seq<BackupRule>): nat
  {
    if rules == [] then 0 else |rules[0].dependencies| + Total(rules[1..])
  }

  /** The backup has the format and version of the program, and its entries are for these rules, within the limits. */
  ghost predicate IsBackupWith(platform: Platform, j: Json, entries: seq<Json>, rules: seq<BackupRule>)
  {
    && Has(j, "format", Text("netpilot-destination-rules")) && Has(j, "version", Number(1))
    && Has(j, "rules", List(entries)) && |entries| <= 1000
    && |rules| == |entries| && (forall i | 0 <= i < |rules| :: IsRule(platform, entries[i], i, rules[i]))
    && Total(rules) <= 10000
  }

  ghost predicate IsBackup(platform: Platform, j: Json, rules: seq<BackupRule>)
  {
    exists entries :: IsBackupWith(platform, j, entries, rules)
  }

  lemma DependencyExactly(platform: Platform, k: nat, j: Json, d: Dependency)
    ensures DecodeDependency(platform, k, j) == Some(d) <==> IsDependency(platform, j, k, d)
  {
    if DecodeDependency(platform, k, j) == Some(d) {
      assert IsEntryOf(platform, j, k, Field(j, "destination").text, d);
    }
  }

  lemma NewNames(ds: seq<Dependency>)
    ensures (forall k | 0 <= k < |ds| :: NewName(ds[..k], ds[k]))
            <==> forall i, k | 0 <= i < k < |ds| :: ds[i].destination != ds[k].destination
  {
    if forall k | 0 <= k < |ds| :: NewName(ds[..k], ds[k]) {
      forall i, k | 0 <= i < k < |ds| ensures ds[i].destination != ds[k].destination {
        assert NewName(ds[..k], ds[k]) && ds[..k][i] == ds[i] && ds[i] in ds[..k];
      }
    }
    if forall i, k | 0 <= i < k < |ds| :: ds[i].destination != ds[k].destination {
      forall k | 0 <= k < |ds| ensures NewName(ds[..k], ds[k]) {
        assert forall d | d in ds[..k] :: exists i :: 0 <= i < k && ds[i] == d;
      }
    }
  }

  lemma DependenciesExactly(platform: Platform, items: seq<Json>, ds: seq<Dependency>)
    ensures DecodeDependencies(platform, items) == Some(ds) <==> AreDependencies(platform, items, ds)
  {
    NewNames(ds);
    if |ds| == |items| {
      forall k | 0 <= k < |ds|
        ensures DecodeDependency(platform, k, items[k]) == Some(ds[k]) <==> IsDependency(platform, items[k], k, ds[k]) {
        DependencyExactly(platform, k, items[k], ds[k]);
      }
    }
    if DecodeDependencies(platform, items) == Some(ds) {
      EachDecodes(OneDependency(platform), NewName, items);
    } else if AreDependencies(platform, items, ds) {
      DecodesEach(OneDependency(platform), NewName, items, ds);
    }
  }

  lemma RuleAccepted(platform: Platform, i: nat, j: Json, r: BackupRule)
    requires DecodeRule(platform, i, j) == Some(r)
    ensures IsRuleWith(platform, j, i, Field(j, "destination").text, Field(j, "dependencies").items, r)
  {
    DependenciesExactly(platform, Field(j, "dependencies").items, r.dependencies);
  }

  lemma RuleDecoded(platform: Platform, i: nat, j: Json, text: string, items: seq<Json>, r: BackupRule)
    requires IsRuleWith(platform, j, i, text, items, r)
    ensures DecodeRule(platform, i, j) == Some(r)
  {
    DependenciesExactly(platform, items, r.dependencies);
    assert HeaderAllowed(j);
    assert PinAllowed(Field(j, "hostIpv4"), Parsed(r.kind, r.normalized, r.raw));
  }

  lemma RuleExactly(platform: Platform, i: nat, j: Json, r: BackupRule)
    ensures DecodeRule(platform, i, j) == Some(r) <==> IsRule(platform, j, i, r)
  {
    if DecodeRule(platform, i, j) == Some(r) {
      RuleAccepted(platform, i, j, r);
    }
    if text, items :| IsRuleWith(platform, j, i, text, items, r) {
      RuleDecoded(platform, i, j, text, items, r);
    }
  }

  lemma {:induction false} TotalSnoc(rules: seq<BackupRule>, r: BackupRule)
    ensures Total(rules + [r]) == Total(rules) + |r.dependencies|
  {
    if rules == [] {
      assert [] + [r] == [r] && [r][1..] == [];
    } else {
      assert (rules + [r])[1..] == rules[1..] + [r];
      TotalSnoc(rules[1..], r);
    }
  }

  lemma {:induction false} TotalIsCount(rules: seq<BackupRule>)
    ensures Total(rules) == CountDependencies(rules)
  {
    if rules != [] {
      var last := |rules| - 1;
      TotalIsCount(rules[..last]);
      TotalSnoc(rules[..last], rules[last]);
      assert rules[..last] + [rules[last]] == rules;
    }
  }

  lemma WithinTotals(rules: seq<BackupRule>)
    ensures (forall k | 0 <= k < |rules| :: WithinTotal(rules[..k], rules[k])) <==> Total(rules) <= 10000
  {
    TotalIsCount(rules);
    if Total(rules) <= 10000 {
      forall k | 0 <= k < |rules| ensures WithinTotal(rules[..k], rules[k]) {
        CountPrefix(rules, k);
      }
    } else {
      assert rules != [] && !WithinTotal(rules[..|rules| - 1], rules[|rules| - 1]);
    }
  }

  lemma RulesExactly(platform: Platform, entries: seq<Json>, rules: seq<BackupRule>)
    ensures DecodeRules(platform, entries) == Some(rules)
            <==> |rules| == |entries| && (forall i | 0 <= i < |rules| :: IsRule(platform, entries[i], i, rules[i]))
                 && Total(rules) <= 10000
  {
    WithinTotals(rules);
    if |rules| == |entries| {
      forall i | 0 <= i < |rules|
        ensures DecodeRule(platform, i, entries[i]) == Some(rules[i])
                <==> IsRule(platform, entries[i], i, rules[i]) {
        RuleExactly(platform, i, entries[i], rules[i]);
      }
    }
    if DecodeRules(platform, entries) == Some(rules) {
      EachDecodes(OneRule(platform), WithinTotal, entries);
    } else if |rules| == |entries| && (forall i | 0 <= i < |rules| :: IsRule(platform, entries[i], i, rules[i]))
              && Total(rules) <= 10000 {
      DecodesEach(OneRule(platform), WithinTotal, entries, rules);
    }
  }

  /** A backup is accepted, and read as these rules, if and only if it says so field by field: every value of its kind
      and within its limits, no dependency named twice in a rule, and a pin only where a name can have one. */
  lemma AcceptsExactly(platform: Platform, j: Json, rules: seq<BackupRule>)
    ensures Decode(platform, j) == Some(rules) <==> IsBackup(platform, j, rules)
  {
    if j.Object? && Field(j, "rules").List? {
      RulesExactly(platform, Field(j, "rules").items, rules);
    }
    if Decode(platform, j) == Some(rules) {
      assert IsBackupWith(platform, j, Field(j, "rules").items, rules);
    }
    if entries :| IsBackupWith(platform, j, entries, rules) {
      RulesExactly(platform, entries, rules);
    }
  }

  /** The file a list of rules is written to has the fields the format names. */
  lemma WrittenFile(rules: seq<BackupRule>)
    ensures var j := Encode(rules);
            && Has(j, "format", Text("netpilot-destination-rules")) && Has(j, "version", Number(1))
            && Has(j, "rules", List(EncodeRules(rules))) && |EncodeRules(rules)| == |rules|
    ensures forall i | 0 <= i < |rules| :: IsWrittenRule(EncodeRules(rules)[i], rules[i])
  {
    forall i | 0 <= i < |rules| ensures IsWrittenRule(EncodeRules(rules)[i], rules[i]) {
      RuleIsWritten(rules[i]);
    }
  }

  ghost predicate IsWrittenRule(j: Json, r: BackupRule)
  {
    && Has(j, "destination", Text(r.raw)) && Has(j, "interface", Text(r.interfaceId))
    && Has(j, "enabled", Bool(r.enabled)) && HasOptional(j, "label", r.description) && HasOptional(j, "hostIpv4", r.pin)
    && exists items :: Has(j, "dependencies", List(items)) && AreWritten(items, r.dependencies)
  }

  predicate IsWrittenDependency(j: Json, d: Dependency)
  {
    Has(j, "destination", Text(d.destination)) && Has(j, "enabled", Bool(d.enabled))
  }

  predicate AreWritten(items: seq<Json>, ds: seq<Dependency>)
  {
    |items| == |ds| && forall k | 0 <= k < |items| :: IsWrittenDependency(items[k], ds[k])
  }

  lemma DependenciesAreWritten(ds: seq<Dependency>)
    ensures AreWritten(EncodeDependencies(ds), ds)
  {
    forall k | 0 <= k < |ds| ensures IsWrittenDependency(EncodeDependencies(ds)[k], ds[k]) {
      assert EncodeDependencies(ds)[k] == EncodeDependency(ds[k]);
    }
  }

  lemma RuleIsWritten(r: BackupRule)
    ensures IsWrittenRule(EncodeRule(r), r)
  {
    var items := EncodeDependencies(r.dependencies);
    DependenciesAreWritten(r.dependencies);
    RuleFields(r);
    assert Has(EncodeRule(r), "dependencies", List(items));
  }
}

/** Which texts the program takes for addresses, prefixes and route requests. */
module AddressTexts {
  import opened Common
  import opened HostsText
  import P = Protocol
  import M = ManagedHosts
  import H = HostMappings
  import R = Planner
  import D = Destination

  /** One to three digits with a value up to 255. */
  predicate IsNumberUpTo255(s: string)
  {
    1 <= |s| <= 3 && AllDigits(s) && ToNat(s) <= 255
  }

  lemma ValueOfOne(s: string)
    requires |s| == 1 && AllDigits(s)
    ensures ToNat(s) == Digit(s[0])
  {
    assert s[..0] == "";
    assert ToNat(s) == 10 * ToNat(s[..0]) + Digit(s[0]);
  }

  lemma ValueOfTwo(s: string)
    requires |s| == 2 && AllDigits(s)
    ensures ToNat(s) == 10 * Digit(s[0]) + Digit(s[1])
  {
    assert s[..1][0] == s[0];
    ValueOfOne(s[..1]);
    assert ToNat(s) == 10 * ToNat(s[..1]) + Digit(s[1]);
  }

  lemma ValueOfThree(s: string)
    requires |s| == 3 && AllDigits(s)
    ensures ToNat(s) == 100 * Digit(s[0]) + 10 * Digit(s[1]) + Digit(s[2])
  {
    assert s[..2][0] == s[0] && s[..2][1] == s[1];
    ValueOfTwo(s[..2]);
    assert ToNat(s) == 10 * ToNat(s[..2]) + Digit(s[2]);
  }

  /** The pattern of an octet is a number of up to three digits and up to 255; leading zeros pass. */
  lemma OctetExactly(s: string)
    ensures P.IsOctet(s) <==> IsNumberUpTo255(s)
    ensures D.IsOctet(s) <==> IsNumberUpTo255(s)
  {
    if 1 <= |s| <= 3 && AllDigits(s) {
      if |s| == 1 {
        ValueOfOne(s);
      } else if |s| == 2 {
        ValueOfTwo(s);
      } else {
        ValueOfThree(s);
      }
    }
  }

  /** The service and the user interface take the same texts for addresses. */
  lemma SameAddresses(s: string)
    ensures P.IsIpv4Text(s) <==> D.IsIpv4(s)
  {
    var parts := Split(s, '.');
    forall p | p in parts ensures P.IsOctet(p) <==> D.IsOctet(p) {
      OctetExactly(p);
    }
  }

  /** Four octets with dots between. */
  predicate IsQuadOf(s: string, a: string, b: string, c: string, d: string)
  {
    && IsNumberUpTo255(a) && IsNumberUpTo255(b) && IsNumberUpTo255(c) && IsNumberUpTo255(d)
    && s == a + "." + (b + "." + (c + "." + d))
  }

  lemma SplitOff(a: string, rest: string)
    requires '.' !in a
    ensures Split(a + "." + rest, '.') == [a] + Split(rest, '.')
  {
    var s := a + "." + rest;
    assert s[|a|] == '.';
    BeforeAfterExactly(s, a, rest);
  }

  lemma {:induction false} BeforeAfterExactly(s: string, a: string, rest: string)
    requires s == a + "." + rest && '.' !in a
    ensures Before(s, '.') == a && After(s, '.') == rest
  {
    if a == "" {
      assert s == "." + rest;
    } else {
      assert s[1..] == a[1..] + "." + rest;
      BeforeAfterExactly(s[1..], a[1..], rest);
      assert a == [a[0]] + a[1..];
    }
  }

  lemma NoDot(s: string)
    requires AllDigits(s)
    ensures '.' !in s && '/' !in s
  {
    assert forall c | c in s :: IsDigit(c);
  }

  lemma QuadParts(s: string, a: string, b: string, c: string, d: string)
    requires IsQuadOf(s, a, b, c, d)
    ensures Split(s, '.') == [a, b, c, d]
  {
    NoDot(a);
    NoDot(b);
    NoDot(c);
    NoDot(d);
    SplitOff(a, b + "." + (c + "." + d));
    SplitOff(b, c + "." + d);
    SplitOff(c, d);
  }

  lemma PartsJoin(s: string)
    ensures var parts := Split(s, '.');
            if '.' in s then parts == [Before(s, '.')] + Split(After(s, '.'), '.')
                             && s == Before(s, '.') + "." + After(s, '.')
            else parts == [s]
  {
    if '.' in s {
      BeforeAfter(s, '.');
    }
  }

  lemma PartsQuad(s: string)
    requires |Split(s, '.')| == 4 && forall p | p in Split(s, '.') :: IsNumberUpTo255(p)
    ensures var p := Split(s, '.'); IsQuadOf(s, p[0], p[1], p[2], p[3])
  {
    var p := Split(s, '.');
    PartsJoin(s);
    var s1 := After(s, '.');
    PartsJoin(s1);
    var s2 := After(s1, '.');
    PartsJoin(s2);
    var s3 := After(s2, '.');
    PartsJoin(s3);
    assert p == [p[0]] + Split(s1, '.') && Split(s1, '.') == p[1..];
    assert Split(s2, '.') == p[2..] && Split(s3, '.') == p[3..];
    assert p[0] in p && p[1] in p && p[2] in p && p[3] in p;
  }

  /** An address text is four octets with dots between, and nothing else is one. */
  lemma AddressExactly(s: string)
    ensures D.IsIpv4(s) <==> exists a, b, c, d :: IsQuadOf(s, a, b, c, d)
    ensures P.IsIpv4Text(s) <==> exists a, b, c, d :: IsQuadOf(s, a, b, c, d)
  {
    SameAddresses(s);
    if D.IsIpv4(s) {
      forall p | p in Split(s, '.') ensures IsNumberUpTo255(p) {
        OctetExactly(p);
      }
      PartsQuad(s);
    }
    if a, b, c, d :| IsQuadOf(s, a, b, c, d) {
      QuadParts(s, a, b, c, d);
      forall p | p in Split(s, '.') ensures D.IsOctet(p) {
        OctetExactly(p);
      }
    }
  }

  /** The number of an address. */
  function Value(a: string, b: string, c: string, d: string): nat
    requires AllDigits(a) && AllDigits(b) && AllDigits(c) && AllDigits(d)
  {
    0x100_0000 * ToNat(a) + 0x1_0000 * ToNat(b) + 0x100 * ToNat(c) + ToNat(d)
  }

  /** An address is private if and only if it lies in 10.0.0.0/8, 172.16.0.0/12 or 192.168.0.0/16. */
  lemma PrivateExactly(s: string, a: string, b: string, c: string, d: string)
    requires IsQuadOf(s, a, b, c, d)
    ensures D.IsPrivateIpv4(s)
            <==> var v := Value(a, b, c, d);
                 || 0x0A00_0000 <= v <= 0x0AFF_FFFF
                 || 0xAC10_0000 <= v <= 0xAC1F_FFFF
                 || 0xC0A8_0000 <= v <= 0xC0A8_FFFF
  {
    QuadParts(s, a, b, c, d);
    AddressExactly(s);
  }

  /** The decimal of a length from 0 to 32, without leading zeros. */
  lemma LengthExactly(s: string)
    ensures P.IsLengthText(s)
            <==> 1 <= |s| <= 2 && AllDigits(s) && ToNat(s) <= 32 && (|s| == 2 ==> s[0] != '0')
  {
    if 1 <= |s| <= 2 && AllDigits(s) {
      if |s| == 1 {
        ValueOfOne(s);
      } else {
        ValueOfTwo(s);
      }
    }
  }

  /** A prefix text is an address, a slash and a length. */
  predicate IsPrefixOf(s: string, address: string, length: string)
  {
    D.IsIpv4(address) && 1 <= |length| <= 2 && AllDigits(length) && ToNat(length) <= 32
    && (|length| == 2 ==> length[0] != '0') && s == address + "/" + length
  }

  lemma {:induction false} AtSlash(s: string, a: string, rest: string)
    requires s == a + "/" + rest && '/' !in a
    ensures Before(s, '/') == a && After(s, '/') == rest
  {
    if a == "" {
      assert s == "/" + rest;
    } else {
      assert s[1..] == a[1..] + "/" + rest;
      AtSlash(s[1..], a[1..], rest);
      assert a == [a[0]] + a[1..];
    }
  }

  lemma PrefixExactly(s: string)
    ensures P.IsCidrText(s) <==> exists address, length :: IsPrefixOf(s, address, length)
  {
    if '/' in s {
      BeforeAfter(s, '/');
      SameAddresses(Before(s, '/'));
      LengthExactly(After(s, '/'));
      if P.IsCidrText(s) {
        assert IsPrefixOf(s, Before(s, '/'), After(s, '/'));
      }
    }
    if address, length :| IsPrefixOf(s, address, length) {
      NoSlash(address);
      AtSlash(s, address, length);
      SameAddresses(address);
      LengthExactly(length);
      assert s[|address|] == '/';
    }
  }

  lemma NoSlash(s: string)
    requires D.IsIpv4(s)
    ensures '/' !in s
  {
    AddressExactly(s);
    var a, b, c, d :| IsQuadOf(s, a, b, c, d);
    NoDot(a);
    NoDot(b);
    NoDot(c);
    NoDot(d);
  }

  /** What the service accepts as a route: a prefix, an address or nothing as gateway, an adapter number of up to twenty
      digits, and a tag of the program of up to two hundred bytes. */
  lemma ValidRouteExactly(r: P.RouteSpec)
    ensures P.IsValidRoute(r)
            <==> (exists address, length :: IsPrefixOf(r.destination, address, length))
                 && (r.gateway == "" || D.IsIpv4(r.gateway))
                 && 1 <= |r.interfaceLuid| <= 20 && AllDigits(r.interfaceLuid)
                 && |r.tag| <= 200 && exists name :: r.tag == "netpilot:" + name
  {
    PrefixExactly(r.destination);
    SameAddresses(r.gateway);
    if P.TAG_PREFIX <= r.tag {
      assert r.tag == "netpilot:" + r.tag[|P.TAG_PREFIX|..];
    }
  }

  /******* Names and addresses of host mappings *******/

  lemma LabelsAgree(piece: string)
    ensures M.ValidLabel(piece) <==> D.IsHostLabel(piece)
  {
    forall c ensures M.IsLetterOrDigit(c) || c == '-' <==> D.IsLabelChar(c) {
    }
  }

  /** The helper takes for a host what the user interface takes for a host name, unless the name stands for the machine
      itself or is an address. */
  lemma HelperAcceptsExactly(host: string)
    ensures M.ValidHost(host)
            <==> D.IsHostname(host) && !M.ValidIpv4(host)
                 && Lower(host) != "localhost" && Lower(host) != "broadcasthost"
                 && !exists front :: Lower(host) == front + ".localhost"
  {
    forall piece | piece in Split(host, '.') ensures M.ValidLabel(piece) <==> D.IsHostLabel(piece) {
      LabelsAgree(piece);
    }
    SuffixExactly(Lower(host), ".localhost");
  }

  lemma SuffixExactly(s: string, suffix: string)
    ensures M.HasSuffix(s, suffix) <==> exists front :: s == front + suffix
  {
    if M.HasSuffix(s, suffix) {
      assert s == s[..|s| - |suffix|] + suffix;
    }
  }

  predicate IsPlainNumber(s: string)
  {
    |s| == 1 || (s != "" && s[0] != '0')
  }

  lemma {:induction false} ThreeDigits(s: string)
    requires AllDigits(s) && s != "" && s[0] != '0' && ToNat(s) <= 255
    ensures |s| <= 3
  {
    if |s| > 3 {
      AtLeast(s);
    }
  }

  lemma {:induction false} AtLeast(s: string)
    requires AllDigits(s) && |s| >= 4 && s[0] != '0'
    ensures ToNat(s) >= 1000
  {
    var front := s[..|s| - 1];
    assert front[0] == s[0] && s[0] in s;
    assert forall c | c in front :: c in s;
    if |s| == 4 {
      ValueOfThree(front);
    } else {
      AtLeast(front);
    }
  }

  lemma PlainOctet(s: string)
    ensures M.ValidOctet(s) <==> IsNumberUpTo255(s) && IsPlainNumber(s)
  {
    if M.ValidOctet(s) && |s| > 1 {
      ThreeDigits(s);
    }
  }

  /** The helper takes the addresses that the user interface takes, without leading zeros. */
  lemma HelperAddressExactly(s: string)
    ensures M.ValidIpv4(s)
            <==> exists a, b, c, d :: IsQuadOf(s, a, b, c, d)
                   && IsPlainNumber(a) && IsPlainNumber(b) && IsPlainNumber(c) && IsPlainNumber(d)
  {
    var p := Split(s, '.');
    if M.ValidIpv4(s) {
      forall o | o in p ensures IsNumberUpTo255(o) && IsPlainNumber(o) {
        PlainOctet(o);
      }
      PartsQuad(s);
      assert p[0] in p && p[1] in p && p[2] in p && p[3] in p;
    }
    if a, b, c, d :| IsQuadOf(s, a, b, c, d)
                     && IsPlainNumber(a) && IsPlainNumber(b) && IsPlainNumber(c) && IsPlainNumber(d) {
      QuadParts(s, a, b, c, d);
      forall o | o in p ensures M.ValidOctet(o) {
        PlainOctet(o);
      }
    }
  }

  /******* The mappings asked for, spelled out *******/

  /** An enabled child of the rule that is a host name with this address, its only one, and a private one. */
  predicate ChildMaps(r: R.Rule, host: string, address: string)
  {
    exists child :: child in r.subRules && child.enabled && child.kind == R.Hostname
      && child.destination == host && child.resolvedIps == [address] && D.IsPrivateIpv4(address)
  }

  /** A mapping is asked for by an enabled rule with a pin, other than the one left out: its own, or one of a child. */
  predicate RuleMaps(r: R.Rule, excluding: Option<string>, host: string, address: string)
  {
    && r.enabled && excluding != Some(r.id)
    && match r.hostIpv4 {
         case None => false
         case Some(pin) => (r.destination == host && pin == address) || ChildMaps(r, host, address)
       }
  }

  predicate IsMapped(rules: seq<R.Rule>, excluding: Option<string>, host: string, address: string)
  {
    exists r :: r in rules && RuleMaps(r, excluding, host, address)
  }

  lemma AsksExactly(rules: seq<R.Rule>, excluding: Option<string>, host: string, address: string)
    ensures H.Asks(rules, excluding, H.Pin(host, address)) <==> IsMapped(rules, excluding, host, address)
  {
    forall r | r in rules
      ensures H.ChildAsks(r.subRules, H.Pin(host, address)) <==> ChildMaps(r, host, address) {
      if child :| child in r.subRules && H.IsPinned(child)
                  && H.Pin(host, address) == H.Pin(child.destination, child.resolvedIps[0]) {
        assert child.resolvedIps == [address];
      }
      if ChildMaps(r, host, address) {
        var child :| child in r.subRules && child.enabled && child.kind == R.Hostname
          && child.destination == host && child.resolvedIps == [address] && D.IsPrivateIpv4(address);
        assert H.IsPinned(child);
      }
    }
  }

  /** Mappings are collected unless a host is asked for with two addresses, and they are exactly those asked for. */
  lemma MappingsExactly(rules: seq<R.Rule>, excluding: Option<string>)
    ensures var mappings := H.Collected(rules, excluding);
            && (mappings.Some?
                <==> forall h, a, b | IsMapped(rules, excluding, h, a) && IsMapped(rules, excluding, h, b) :: a == b)
            && (mappings.Some? ==>
                  forall h, a :: h in mappings.value && mappings.value[h] == a <==> IsMapped(rules, excluding, h, a))
  {
    H.CollectedExactly(rules, excluding);
    forall h, a ensures H.Asks(rules, excluding, H.Pin(h, a)) <==> IsMapped(rules, excluding, h, a) {
      AsksExactly(rules, excluding, h, a);
    }
    if H.Compatible(rules, excluding) {
      forall h, a, b | IsMapped(rules, excluding, h, a) && IsMapped(rules, excluding, h, b) ensures a == b {
        assert H.Asks(rules, excluding, H.Pin(h, a)) && H.Asks(rules, excluding, H.Pin(h, b));
      }
    } else {
      var p, q :| H.Asks(rules, excluding, p) && H.Asks(rules, excluding, q) && p.host == q.host && p.ipv4 != q.ipv4;
      assert p == H.Pin(p.host, p.ipv4) && q == H.Pin(p.host, q.ipv4);
      assert IsMapped(rules, excluding, p.host, p.ipv4) && IsMapped(rules, excluding, p.host, q.ipv4);
    }
  }

  /******* What a destination text is read as *******/

  lemma {:induction false} ContainsExactly(s: string, part: string)
    ensures D.Contains(s, part) <==> exists k | 0 <= k <= |s| :: part <= s[k..]
  {
    if part <= s {
      assert s[0..] == s;
    } else if s != "" {
      ContainsExactly(s[1..], part);
      if k :| 0 <= k <= |s[1..]| && part <= s[1..][k..] {
        assert s[k + 1..] == s[1..][k..];
      }
      if k :| 0 <= k <= |s| && part <= s[k..] {
        assert k > 0 && s[1..][k - 1..] == s[k..];
      }
    }
  }

  lemma SchemeContains(s: string, scheme: string, at: nat)
    requires scheme <= Lower(s) && at + 3 == |scheme| && scheme[at..] == "://"
    ensures "://" <= s[at..]
  {
    assert |s| >= |scheme|;
    forall i | 0 <= i < 3 ensures s[at + i] == "://"[i] {
      assert Lower(s)[at + i] == scheme[at + i] == scheme[at..][i];
    }
  }

  /** A text is read as a URL if it has "://" in it, whatever the scheme. */
  lemma UrlExactly(raw: string)
    ensures D.IsUrlText(raw) <==> exists k | 0 <= k <= |raw| :: "://" <= raw[k..]
  {
    ContainsExactly(raw, "://");
    if "http://" <= Lower(raw) {
      assert "http://"[4..] == "://";
      SchemeContains(raw, "http://", 4);
    }
    if "https://" <= Lower(raw) {
      assert "https://"[5..] == "://";
      SchemeContains(raw, "https://", 5);
    }
  }

  lemma LengthTextExactly(n: int)
    requires 0 <= n <= 32
    ensures P.IsLengthText(D.LengthText(n)) && ToNat(D.LengthText(n)) == n
  {
    var text := D.LengthText(n);
    if n < 10 {
      ValueOfOne(text);
    } else {
      ValueOfTwo(text);
    }
  }

  /** A URL with a host that is an address or a name. */
  predicate IsUrlOf(platform: D.Platform, raw: string, normalized: string)
  {
    var host := platform.urlHost(raw);
    && D.IsUrlText(raw) && host.Some? && host.value != ""
    && if D.IsIpv4(host.value) then normalized == host.value
       else D.IsHostname(host.value) && normalized == Lower(host.value)
  }

  /** An address, a slash, and a number from 0 to 32. */
  predicate IsCidrOf(platform: D.Platform, raw: string, normalized: string)
  {
    && !D.IsUrlText(raw) && '/' in raw && raw[0] != '/' && D.IsIpv4(Before(raw, '/'))
    && var length := platform.tryParse(After(raw, '/'));
       length.Some? && 0 <= length.value <= 32 && normalized == Before(raw, '/') + "/" + D.LengthText(length.value)
  }

  /** A host name, perhaps with a dot behind it. */
  ghost predicate IsNameOf(raw: string, host: string, normalized: string)
  {
    && !D.IsUrlText(raw) && !D.IsIpv4(raw) && ' ' !in raw && '/' !in raw
    && (raw == host || raw == host + ".") && D.IsHostname(host) && normalized == Lower(host)
  }

  /** What the kind of a parsed text says about it. */
  ghost predicate IsReadAs(platform: D.Platform, raw: string, p: D.Parsed)
  {
    match p.kind
    case Url => IsUrlOf(platform, raw, p.normalized)
    case Cidr => IsCidrOf(platform, raw, p.normalized)
    case Ipv4 => !D.IsUrlText(raw) && D.IsIpv4(raw) && p.normalized == raw
    case Hostname => exists host :: IsNameOf(raw, host, p.normalized)
  }

  lemma FinalDot(raw: string, host: string)
    requires (raw == host || raw == host + ".") && D.IsHostname(host)
    ensures host == D.WithoutFinalDot(raw)
  {
    D.HostnameIsPlain(host);
  }

  lemma NameExactly(raw: string, p: D.Parsed)
    requires raw != "" && !D.IsUrlText(raw) && !D.IsIpv4(raw) && !('/' in raw && raw[0] != '/')
    ensures D.ParseName(raw) == Some(p)
            <==> p.kind == R.Hostname && p.raw == raw && exists host :: IsNameOf(raw, host, p.normalized)
  {
    var host := D.WithoutFinalDot(raw);
    assert raw == host || raw == host + ".";
    if D.ParseName(raw) == Some(p) {
      assert IsNameOf(raw, host, p.normalized);
    }
    if other :| IsNameOf(raw, other, p.normalized) {
      FinalDot(raw, other);
    }
  }

  lemma ReadsExactly(platform: D.Platform, raw: string, p: D.Parsed)
    requires raw != ""
    ensures D.ParseTrimmed(platform, raw) == Some(p) <==> p.raw == raw && IsReadAs(platform, raw, p)
  {
    if D.IsIpv4(raw) {
      NoSlash(raw);
    } else if !D.IsUrlText(raw) && !('/' in raw && raw[0] != '/') {
      NameExactly(raw, p);
    }
  }

  /** A destination is accepted, and read as this, if and only if the trimmed text is not empty and has the form of its
      kind; no text has two. */
  lemma ParsesExactly(platform: D.Platform, input: string, p: D.Parsed)
    ensures D.Parse(platform, input) == Some(p)
            <==> p.raw == Trim(input) && p.raw != "" && IsReadAs(platform, p.raw, p)
  {
    if Trim(input) != "" {
      ReadsExactly(platform, Trim(input), p);
    }
  }
}

/** Destinations as the user writes them: URL, IPv4 prefix, IPv4 address or host name. */
module Destination {
  import opened Common
  import opened Planner
  import opened HostsText

  /** One to three digits, at most 255. */
  predicate IsOctet(s: string)
  {
    1 <= |s| <= 3 && AllDigits(s) && ToNat(s) <= 255
  }

  predicate IsIpv4(s: string)
  {
    var octets := Split(s, '.');
    |octets| == 4 && forall o | o in octets :: IsOctet(o)
  }

  predicate IsPrivateIpv4(ip: string)
  {
    IsIpv4(ip) &&
    var octets := Split(ip, '.');
    assert octets[0] in octets && octets[1] in octets;
    var first, second := ToNat(octets[0]), ToNat(octets[1]);
    first == 10 || (first == 172 && 16 <= second <= 31) || (first == 192 && second == 168)
  }

  /******* Parsing *******/

  datatype Parsed = Parsed(kind: DestinationKind, normalized: string, raw: string)

  /** What the model takes from the platform: the host of a URL, if it parses and has one, and integer parsing. */
  datatype Platform = Platform(urlHost: string -> Option<string>, tryParse: string -> Option<int>)

  predicate IsHostLabel(piece: string)
  {
    && 1 <= |piece| <= 63 && piece[0] != '-' && piece[|piece| - 1] != '-'
    && forall c | c in piece :: IsLabelChar(c)
  }

  predicate IsHostname(s: string)
  {
    1 <= |s| <= 253 && forall piece | piece in Split(s, '.') :: IsHostLabel(piece)
  }

  predicate Contains(s: string, part: string)
  {
    part <= s || (s != "" && Contains(s[1..], part))
  }

  predicate IsUrlText(raw: string)
  {
    "http://" <= Lower(raw) || "https://" <= Lower(raw) || Contains(raw, "://")
  }

  /** The decimal text of a prefix length. */
  function LengthText(n: int): string
    requires 0 <= n <= 32
  {
    if n < 10 then [DigitChar(n)] else [DigitChar(n / 10), DigitChar(n % 10)]
  }

  function DigitChar(d: int): char
    requires 0 <= d <= 9
  {
    '0' + d as char
  }

  function ParseUrl(host: Option<string>, raw: string): (p: Option<Parsed>)
    ensures p.Some? ==> p.value.kind == Url && p.value.raw == raw
  {
    if host.None? || host.value == "" then None
    else if IsIpv4(host.value) then Some(Parsed(Url, host.value, raw))
    else if !IsHostname(host.value) then None
    else Some(Parsed(Url, Lower(host.value), raw))
  }

  function ParseCidr(ip: string, length: Option<int>, raw: string): (p: Option<Parsed>)
    ensures p.Some? ==> p.value.kind == Cidr && p.value.raw == raw
  {
    if IsIpv4(ip) && length.Some? && 0 <= length.value <= 32
    then Some(Parsed(Cidr, ip + "/" + LengthText(length.value), raw)) else None
  }

  function WithoutFinalDot(raw: string): string
  {
    if raw != "" && raw[|raw| - 1] == '.' then raw[..|raw| - 1] else raw
  }

  /** Trims, then tries URL, prefix, address and host name; None for what the parser rejects. */
  function Parse(platform: Platform, input: string): Option<Parsed>
  {
    ParseTrimmed(platform, Trim(input))
  }

  function ParseTrimmed(platform: Platform, raw: string): Option<Parsed>
  {
    if raw == "" then None
    else if IsUrlText(raw) then ParseUrl(platform.urlHost(raw), raw)
    else if '/' in raw && raw[0] != '/' then ParseCidr(Before(raw, '/'), platform.tryParse(After(raw, '/')), raw)
    else if IsIpv4(raw) then Some(Parsed(Ipv4, raw, raw))
    else ParseName(raw)
  }

  function ParseName(raw: string): (p: Option<Parsed>)
    ensures p.Some? ==>
      p.value.kind == Hostname && p.value.raw == raw && p.value.normalized == Lower(WithoutFinalDot(raw))
  {
    if '/' in raw || ' ' in raw then None
    else
      var host := WithoutFinalDot(raw);
      if IsHostname(host) then Some(Parsed(Hostname, Lower(host), raw)) else None
  }

  /******* Normal form *******/

  predicate IsHostChar(c: char)
  {
    'A' <= c <= 'Z' || 'a' <= c <= 'z' || IsDigit(c) || c == '-' || c == '.'
  }

  /** Text of host characters only, with a non-blank character at both ends. */
  predicate IsPlainText(s: string)
  {
    s != "" && forall c | c in s :: IsHostChar(c)
  }

  lemma {:induction false} PiecesArePlain(s: string)
    requires forall p | p in Split(s, '.') :: p != "" && forall c | c in p :: IsHostChar(c)
    ensures IsPlainText(s) && s[|s| - 1] != '.'
    decreases |s|
  {
    if '.' !in s {
      assert s in Split(s, '.');
      assert s[|s| - 1] in s;
    } else {
      BeforeAfter(s, '.');
      var head, tail := Before(s, '.'), After(s, '.');
      assert Split(s, '.') == [head] + Split(tail, '.');
      forall p | p in Split(tail, '.') ensures p != "" && forall c | c in p :: IsHostChar(c) {
        assert p in Split(s, '.');
      }
      PiecesArePlain(tail);
      assert head in Split(s, '.');
      assert forall c | c in s :: c in head || c == '.' || c in tail;
      assert s[|s| - 1] == tail[|tail| - 1];
    }
  }

  lemma HostnameIsPlain(s: string)
    requires IsHostname(s)
    ensures IsPlainText(s) && s[|s| - 1] != '.'
  {
    forall p | p in Split(s, '.') ensures p != "" && forall c | c in p :: IsHostChar(c) {
      assert IsHostLabel(p);
    }
    PiecesArePlain(s);
  }

  lemma Ipv4IsPlain(s: string)
    requires IsIpv4(s)
    ensures IsPlainText(s) && s[|s| - 1] != '.'
  {
    forall p | p in Split(s, '.') ensures p != "" && forall c | c in p :: IsHostChar(c) {
      assert IsOctet(p);
    }
    PiecesArePlain(s);
  }

  lemma {:induction false} NoSchemeIn(s: string)
    requires ':' !in s
    ensures !Contains(s, "://")
  {
    assert "://"[0] == ':';
    assert forall i | 0 <= i < |s| :: s[i] != ':';
    if s != "" {
      NoSchemeIn(s[1..]);
    }
  }

  lemma NoScheme(s: string, scheme: string, at: nat)
    requires ':' !in s && at < |scheme| && scheme[at] == ':'
    ensures !(scheme <= Lower(s))
  {
    if at < |s| {
      assert s[at] in s && Lower(s)[at] == LowerChar(s[at]) != ':';
    }
  }

  lemma TrimPlain(s: string)
    requires IsPlainText(s)
    ensures Trim(s) == s
  {
    assert s[0] in s && s[|s| - 1] in s;
  }

  lemma PlainIsNoUrl(s: string)
    requires IsPlainText(s)
    ensures !IsUrlText(s) && '/' !in s && ' ' !in s && Trim(s) == s
  {
    assert ':' !in s;
    NoSchemeIn(s);
    NoScheme(s, "http://", 4);
    NoScheme(s, "https://", 5);
    TrimPlain(s);
  }

  lemma {:induction false} LowerSplit(s: string)
    ensures |Split(Lower(s), '.')| == |Split(s, '.')|
    ensures forall i | 0 <= i < |Split(s, '.')| :: Split(Lower(s), '.')[i] == Lower(Split(s, '.')[i])
    decreases |s|
  {
    LowerDots(s);
    if '.' in s {
      BeforeAfter(s, '.');
      LowerSplit(After(s, '.'));
      assert Split(s, '.') == [Before(s, '.')] + Split(After(s, '.'), '.');
      assert Split(Lower(s), '.') == [Lower(Before(s, '.'))] + Split(Lower(After(s, '.')), '.');
    }
  }

  lemma {:induction false} LowerDots(s: string)
    ensures '.' in Lower(s) <==> '.' in s
    ensures Before(Lower(s), '.') == Lower(Before(s, '.'))
    ensures After(Lower(s), '.') == Lower(After(s, '.'))
  {
    if s != "" {
      LowerDots(s[1..]);
      assert Lower(s)[1..] == Lower(s[1..]);
      assert s == [s[0]] + s[1..] && Lower(s) == [Lower(s)[0]] + Lower(s[1..]);
      assert Lower(s)[0] == '.' <==> s[0] == '.';
    }
  }

  predicate IsLabelChar(c: char)
  {
    'A' <= c <= 'Z' || 'a' <= c <= 'z' || IsDigit(c) || c == '-'
  }

  lemma LowerLabelChar(c: char)
    requires IsLabelChar(c)
    ensures IsLabelChar(LowerChar(c)) && (LowerChar(c) == '-' <==> c == '-')
  {
  }

  lemma LowerLabel(piece: string)
    requires IsHostLabel(piece)
    ensures IsHostLabel(Lower(piece))
  {
    var low := Lower(piece);
    forall i | 0 <= i < |low| ensures IsLabelChar(low[i]) && (low[i] == '-' <==> piece[i] == '-') {
      assert piece[i] in piece;
      LowerLabelChar(piece[i]);
    }
  }

  lemma LowerHostname(s: string)
    requires IsHostname(s)
    ensures IsHostname(Lower(s))
  {
    LowerSplit(s);
    forall piece | piece in Split(Lower(s), '.') ensures IsHostLabel(piece) {
      var i :| 0 <= i < |Split(s, '.')| && Split(Lower(s), '.')[i] == piece;
      assert Split(s, '.')[i] in Split(s, '.');
      LowerLabel(Split(s, '.')[i]);
    }
  }

  lemma {:induction false} LowerAgain(s: string)
    ensures Lower(Lower(s)) == Lower(s)
  {
    if s != "" {
      LowerAgain(s[1..]);
    }
  }

  /** Parsing what parsing kept as the raw text gives the same result. */
  lemma RawParsesAlike(platform: Platform, input: string)
    requires Parse(platform, input).Some?
    ensures Parse(platform, Parse(platform, input).value.raw) == Parse(platform, input)
  {
    TrimIdempotent(input);
    KeepsRaw(platform, Trim(input));
  }

  lemma KeepsRaw(platform: Platform, raw: string)
    requires ParseTrimmed(platform, raw).Some?
    ensures ParseTrimmed(platform, raw).value.raw == raw
  {
  }

  lemma ParseIpv4(platform: Platform, s: string)
    requires IsIpv4(s)
    ensures Parse(platform, s) == Some(Parsed(Ipv4, s, s))
  {
    Ipv4IsPlain(s);
    PlainIsNoUrl(s);
  }

  lemma ParseHostname(platform: Platform, s: string)
    requires IsHostname(s) && !IsIpv4(s)
    ensures Parse(platform, s) == Some(Parsed(Hostname, Lower(s), s))
  {
    HostnameIsPlain(s);
    PlainIsNoUrl(s);
  }

  /** A parsed host name or address, parsed again, is itself, unless the host name is a dotted quad: then it comes back
      as an address. */
  lemma NormalizedParses(platform: Platform, input: string)
    requires Parse(platform, input).Some?
    requires Parse(platform, input).value.kind == Hostname || Parse(platform, input).value.kind == Ipv4
    ensures var p := Parse(platform, input).value;
            Parse(platform, p.normalized)
            == Some(Parsed(if IsIpv4(p.normalized) then Ipv4 else Hostname, p.normalized, p.normalized))
  {
    var p := Parse(platform, input).value;
    if p.kind == Hostname {
      var host := WithoutFinalDot(p.raw);
      LowerHostname(host);
      LowerAgain(host);
    }
    if IsIpv4(p.normalized) {
      ParseIpv4(platform, p.normalized);
    } else {
      ParseHostname(platform, p.normalized);
    }
  }

  /** That host name is a dotted quad exactly when the user wrote a dotted quad with a trailing dot. */
  lemma TrailingDotQuad(platform: Platform, input: string)
    requires Parse(platform, input).Some? && Parse(platform, input).value.kind == Hostname
    ensures IsIpv4(Parse(platform, input).value.normalized)
            <==> exists quad :: IsIpv4(quad) && Trim(input) == quad + "."
  {
    var raw := Trim(input);
    var host := WithoutFinalDot(raw);
    HostOfName(platform, input);
    if IsIpv4(Lower(host)) {
      Ipv4Lower(host);
      DotDropped(raw);
    }
    if quad :| IsIpv4(quad) && raw == quad + "." {
      assert host == quad;
      LowerOfIpv4(quad);
    }
  }

  lemma HostOfName(platform: Platform, input: string)
    requires Parse(platform, input).Some? && Parse(platform, input).value.kind == Hostname
    ensures Parse(platform, input).value.normalized == Lower(WithoutFinalDot(Trim(input))) && !IsIpv4(Trim(input))
  {
  }

  lemma DotDropped(raw: string)
    ensures WithoutFinalDot(raw) == raw || raw == WithoutFinalDot(raw) + "."
  {
    if raw != "" && raw[|raw| - 1] == '.' {
      assert raw == raw[..|raw| - 1] + [raw[|raw| - 1]];
    }
  }

  /** Digits and dots have no upper case. */
  lemma {:induction false} DigitsAndDots(s: string)
    requires forall c | c in s :: IsDigit(c) || c == '.'
    ensures Lower(s) == s
  {
    if s != "" {
      assert s[0] in s;
      assert forall c | c in s[1..] :: c in s;
      DigitsAndDots(s[1..]);
      assert s == [s[0]] + s[1..];
    }
  }

  lemma {:induction false} QuadChars(s: string)
    requires forall p | p in Split(s, '.') :: AllDigits(p)
    ensures forall c | c in s :: IsDigit(c) || c == '.'
    decreases |s|
  {
    if '.' !in s {
      assert s in Split(s, '.');
    } else {
      BeforeAfter(s, '.');
      var head, tail := Before(s, '.'), After(s, '.');
      assert Split(s, '.') == [head] + Split(tail, '.');
      forall p | p in Split(tail, '.') ensures AllDigits(p) {
        assert p in Split(s, '.');
      }
      QuadChars(tail);
      assert head in Split(s, '.');
      assert forall c | c in s :: c in head || c == '.' || c in tail;
    }
  }

  lemma LowerOfIpv4(s: string)
    requires IsIpv4(s)
    ensures Lower(s) == s
  {
    forall p | p in Split(s, '.') ensures AllDigits(p) {
      assert IsOctet(p);
    }
    QuadChars(s);
    DigitsAndDots(s);
  }

  lemma Ipv4Lower(s: string)
    requires IsIpv4(Lower(s))
    ensures s == Lower(s)
  {
    var low := Lower(s);
    forall p | p in Split(low, '.') ensures AllDigits(p) {
      assert IsOctet(p);
    }
    QuadChars(low);
    forall i | 0 <= i < |s| ensures s[i] == low[i] {
      assert low[i] in low && low[i] == LowerChar(s[i]);
    }
  }
}

/** Route specifications on the service pipe and the checks a request must pass. */
module Protocol {
  import opened Common

  datatype RouteSpec = RouteSpec(destination: string, gateway: string, interfaceLuid: string, tag: string)

  /** `25[0-5]|2[0-4][0-9]|[01]?[0-9]?[0-9]` */
  predicate IsOctet(s: string)
  {
    && 1 <= |s| <= 3
    && AllDigits(s)
    && (|s| == 3 ==> s[0] < '2' || (s[0] == '2' && (s[1] < '5' || (s[1] == '5' && s[2] <= '5'))))
  }

  predicate IsIpv4Text(s: string)
  {
    var parts := Split(s, '.');
    |parts| == 4 && forall p | p in parts :: IsOctet(p)
  }

  /** `3[0-2]|[12]?[0-9]` */
  predicate IsLengthText(s: string)
  {
    && 1 <= |s| <= 2
    && AllDigits(s)
    && (|s| == 2 ==> '1' <= s[0] <= '3' && (s[0] == '3' ==> s[1] <= '2'))
  }

  predicate IsCidrText(s: string)
  {
    '/' in s && IsIpv4Text(Before(s, '/')) && IsLengthText(After(s, '/'))
  }

  const TAG_PREFIX := "netpilot:"

  predicate IsValidRoute(route: RouteSpec)
  {
    && IsCidrText(route.destination)
    && (route.gateway == "" || IsIpv4Text(route.gateway))
    && 1 <= |route.interfaceLuid| <= 20 && AllDigits(route.interfaceLuid)
    && TAG_PREFIX <= route.tag && |route.tag| <= 200
  }

  lemma LengthTextInRange(s: string)
    requires IsLengthText(s)
    ensures ToNat(s) <= 32
  {
    var last := |s| - 1;
    assert ToNat(s) == 10 * ToNat(s[..last]) + Digit(s[last]);
    if last == 1 {
      assert ToNat(s[..1]) == 10 * ToNat(s[..1][..0]) + Digit(s[..1][0]);
    }
  }
}

/** IPv4 prefixes as the native code computes them: masks over 32-bit words, most significant bit first. */
module Ipv4 {

  type Word = w: seq<bool> | |w| == 32 witness Repeat(false, 32)
  function Repeat(bit: bool, n: nat): (r: seq<bool>)
    ensures |r| == n
    ensures forall i | 0 <= i < n :: r[i] == bit
  {
    if n == 0 then [] else [bit] + Repeat(bit, n - 1)
  }

  type PrefixLength = n: nat | n <= 32

  function Pow2(n: nat): (p: nat)
    ensures p > 0
  {
    if n == 0 then 1 else 2 * Pow2(n - 1)
  }

  /** The unsigned number a string of bits stands for. */
  function Value(bits: seq<bool>): (v: nat)
    ensures v < Pow2(|bits|)
  {
    if bits == [] then 0 else (if bits[0] then Pow2(|bits| - 1) else 0) + Value(bits[1..])
  }

  function And(a: Word, b: Word): Word
  {
    seq(32, i requires 0 <= i < 32 => a[i] && b[i])
  }

  function Or(a: Word, b: Word): Word
  {
    seq(32, i requires 0 <= i < 32 => a[i] || b[i])
  }

  function ShiftLeft(a: Word, k: nat): Word
    requires k < 32
  {
    a[k..] + Repeat(false, k)
  }

  const ZERO: Word := Repeat(false, 32)
  const ALL_ONES: Word := Repeat(true, 32)
  const ONE: Word := Repeat(false, 31) + [true]
  /** 8.8.8.8 */
  const PUBLIC_PROBE: Word := EIGHT + EIGHT + EIGHT + EIGHT
  const EIGHT := [false, false, false, false, true, false, false, false]

  /** `length == 0 ? 0 : 0xffffffff << (32 - length)`: the guard avoids a shift by 32. */
  function Mask(length: PrefixLength): Word
  {
    if length == 0 then ZERO else ShiftLeft(ALL_ONES, 32 - length)
  }

  function Network(address: Word, length: PrefixLength): Word
  {
    And(address, Mask(length))
  }

  /** The membership test of the browser reconnect code and of the macOS CIDR type. */
  predicate Contains(network: Word, length: PrefixLength, address: Word)
  {
    And(address, Mask(length)) == network
  }

  /** The address `Inspect` asks the system about: a public one for the default route, otherwise the network,
      with its last bit set unless the prefix is a single host. */
  function Probe(network: Word, length: PrefixLength): Word
  {
    if length == 0 then PUBLIC_PROBE
    else Or(And(network, Mask(length)), if length < 32 then ONE else ZERO)
  }

  /** Section 3.1 of RFC 4632: the prefix is the block of 2^(32 - length) addresses from the network up. */
  predicate InBlock(network: Word, length: PrefixLength, address: Word)
  {
    Value(network) <= Value(address) < Value(network) + Pow2(32 - length)
  }

  lemma MaskBits(length: PrefixLength)
    ensures forall i | 0 <= i < 32 :: Mask(length)[i] <==> i < length
  {
  }

  lemma ContainsComparesPrefixes(network: Word, length: PrefixLength, address: Word)
    requires Network(network, length) == network
    ensures Contains(network, length, address) <==> address[..length] == network[..length]
    ensures forall i | length <= i < 32 :: !network[i]
  {
    MaskBits(length);
    assert forall i | 0 <= i < 32 :: network[i] <==> And(network, Mask(length))[i];
    if address[..length] == network[..length] {
      forall i | 0 <= i < 32 ensures And(address, Mask(length))[i] == network[i] {
        if i < length {
          assert address[..length][i] == network[..length][i];
        }
      }
      assert And(address, Mask(length)) == network;
    }
    if Contains(network, length, address) {
      forall i | 0 <= i < length ensures address[i] == network[i] {
        assert And(address, Mask(length))[i] == network[i];
      }
    }
  }

  /** A number whose bits from `length` on are zero leaves room for the whole block above it. */
  lemma {:induction false} RoomAbove(bits: seq<bool>, length: nat)
    requires length <= |bits|
    requires forall i | length <= i < |bits| :: !bits[i]
    ensures Value(bits) + Pow2(|bits| - length) <= Pow2(|bits|)
    ensures length == 0 ==> Value(bits) == 0
  {
    if bits != [] {
      RoomAbove(bits[1..], if length == 0 then 0 else length - 1);
    }
  }

  lemma {:induction false} PrefixIsInterval(network: seq<bool>, length: nat, address: seq<bool>)
    requires |network| == |address| && length <= |network|
    requires forall i | length <= i < |network| :: !network[i]
    ensures address[..length] == network[..length] <==>
            Value(network) <= Value(address) < Value(network) + Pow2(|network| - length)
  {
    if length == 0 {
      RoomAbove(network, 0);
    } else {
      PrefixIsInterval(network[1..], length - 1, address[1..]);
      RoomAbove(network, length);
      RoomAbove(network[1..], length - 1);
      assert network[..length] == [network[0]] + network[1..][..length - 1];
      assert address[..length] == [address[0]] + address[1..][..length - 1];
    }
  }

  lemma InBlockComparesPrefixes(network: Word, length: PrefixLength, address: Word)
    requires forall i | length <= i < 32 :: !network[i]
    ensures InBlock(network, length, address) <==> address[..length] == network[..length]
  {
    PrefixIsInterval(network, length, address);
  }

  /** Masked comparison decides membership in the block, for every address and every length. */
  lemma MaskedMembershipIsInterval(network: Word, length: PrefixLength, address: Word)
    requires Network(network, length) == network
    ensures Contains(network, length, address) <==> InBlock(network, length, address)
  {
    ContainsComparesPrefixes(network, length, address);
    InBlockComparesPrefixes(network, length, address);
  }

  lemma MaskingIsCanonical(address: Word, length: PrefixLength)
    ensures Network(Network(address, length), length) == Network(address, length)
    ensures Contains(Network(address, length), length, address)
  {
    assert And(And(address, Mask(length)), Mask(length)) == And(address, Mask(length));
  }

  /** The address probed for a route lies in the route's own prefix. */
  lemma ProbeInsideOwnPrefix(network: Word, length: PrefixLength)
    requires Network(network, length) == network
    ensures Contains(network, length, Probe(network, length))
  {
    if length == 0 {
      MaskBits(0);
      assert And(PUBLIC_PROBE, Mask(0)) == And(network, Mask(0));
    } else {
      ContainsComparesPrefixes(network, length, Probe(network, length));
      forall i | 0 <= i < length ensures Probe(network, length)[i] == network[i] {
        ProbeBit(network, length, i);
      }
      assert Probe(network, length)[..length] == network[..length];
    }
  }

  lemma LastBit(i: nat)
    requires i < 31
    ensures !ONE[i] && !ZERO[i]
  {
    assert ONE[i] == Repeat(false, 31)[i];
  }

  lemma ProbeBit(network: Word, length: PrefixLength, i: nat)
    requires i < length && Network(network, length) == network
    ensures Probe(network, length)[i] == network[i]
  {
    assert And(network, Mask(length))[i] == network[i];
    if i < 31 {
      LastBit(i);
    } else {
      assert !ZERO[i];
    }
  }

  /** Of two prefixes the longer lies inside the shorter, or they share no address. */
  lemma NestedOrDisjoint(n: Word, j: PrefixLength, m: Word, k: PrefixLength)
    requires Network(n, j) == n && Network(m, k) == m && j <= k
    ensures (forall a: Word :: Contains(m, k, a) ==> Contains(n, j, a))
            || (forall a: Word :: Contains(m, k, a) ==> !Contains(n, j, a))
  {
    forall a: Word | Contains(m, k, a) ensures Contains(n, j, a) <==> m[..j] == n[..j] {
      InsideDecidesOutside(n, j, m, k, a);
    }
  }

  lemma InsideDecidesOutside(n: Word, j: PrefixLength, m: Word, k: PrefixLength, a: Word)
    requires Network(n, j) == n && Network(m, k) == m && j <= k && Contains(m, k, a)
    ensures Contains(n, j, a) <==> m[..j] == n[..j]
  {
    ContainsComparesPrefixes(n, j, a);
    ContainsComparesPrefixes(m, k, a);
    assert a[..k][..j] == a[..j] && m[..k][..j] == m[..j];
  }
}

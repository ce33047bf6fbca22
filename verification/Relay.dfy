/** The TCP relay: the pump that copies one direction and counts what it reads. */
module Relay {
  import opened Common

  type Byte = n: nat | n < 256

  const BUFFER := 32 * 1024
  const U64 := 0x1_0000_0000_0000_0000

  /******* The pump *******/

  /** What one `recv` gave. */
  datatype Received = Data(bytes: seq<Byte>) | End | Error

  predicate IsReceive(r: Received)
  {
    r.Data? ==> 0 < |r.bytes| <= BUFFER
  }

  /** What one `send` of `want` bytes gave: never more than was asked for. */
  ghost predicate IsSender(send: (nat, nat) -> int)
  {
    forall k, want :: send(k, want) <= want
  }

  /** All bytes that come before the stream ends. */
  function Stream(receives: seq<Received>): seq<Byte>
  {
    if receives == [] || !receives[0].Data? then [] else receives[0].bytes + Stream(receives[1..])
  }

  /** How a pump stands after the given receives. */
  datatype PumpState = Running | SendFailed | CleanEnd

  /** A 64-bit counter. */
  type Counter = n: nat | n < U64

  function Counted(before: Counter, bytes: nat): Counter
  {
    (before + bytes) % U64
  }

  lemma CountedTwice(before: Counter, a: nat, b: nat)
    ensures Counted(Counted(before, a), b) == Counted(before, a + b)
    ensures Counted(before, 0) == before
  {
    ModuloTwice(before + a, b);
  }

  /** Reducing in between changes nothing. */
  lemma ModuloTwice(total: nat, more: nat)
    ensures (total % U64 + more) % U64 == (total + more) % U64
  {
    var q := total / U64;
    assert total + more == U64 * q + (total % U64 + more);
    Multiples(q, total % U64 + more);
  }

  lemma {:induction false} Multiples(q: nat, rest: nat)
    ensures (U64 * q + rest) % U64 == rest % U64
  {
    if q > 0 {
      Multiples(q - 1, rest);
      OneLess(U64 * (q - 1) + rest);
    }
  }

  lemma OneLess(n: nat)
    ensures (n + U64) % U64 == n % U64
  {
  }

  class Metric {
    var bytesIn: Counter
    var bytesOut: Counter

    constructor ()
      ensures bytesIn == bytesOut == 0
    {
      bytesIn, bytesOut := 0, 0;
    }

    method Count(inbound: bool, count: nat)
      modifies this
      ensures bytesIn == if inbound then Counted(old(bytesIn), count) else old(bytesIn)
      ensures bytesOut == if inbound then old(bytesOut) else Counted(old(bytesOut), count)
    {
      if inbound {
        bytesIn := Counted(bytesIn, count);
      } else {
        bytesOut := Counted(bytesOut, count);
      }
    }
  }

  /** Sends a whole buffer, in as many parts as it takes; `out` is what the peer was sent. */
  method SendAll(bytes: seq<Byte>, send: (nat, nat) -> int, calls: nat) returns (out: seq<Byte>, callsAfter: nat)
    requires IsSender(send)
    ensures out <= bytes
    ensures out != bytes ==> callsAfter > calls && send(callsAfter - 1, |bytes| - |out|) <= 0
  {
    out, callsAfter := [], calls;
    var sent := 0;
    while sent < |bytes|
      invariant sent <= |bytes| && callsAfter >= calls && out == bytes[..sent]
    {
      var value := send(callsAfter, |bytes| - sent);
      callsAfter := callsAfter + 1;
      if value <= 0 {
        return;
      }
      assert bytes[..sent] + bytes[sent..sent + value] == bytes[..sent + value];
      out := out + bytes[sent..sent + value];
      sent := sent + value;
    }
  }

  lemma {:induction false} StreamStep(receives: seq<Received>, i: nat)
    requires i < |receives| && forall k | 0 <= k <= i :: receives[k].Data?
    ensures Stream(receives) == Stream(receives[..i]) + receives[i].bytes + Stream(receives[i + 1..])
    ensures Stream(receives[..i + 1]) == Stream(receives[..i]) + receives[i].bytes
  {
    if i == 0 {
      assert receives[..0] == [] && receives[..1] == [receives[0]] && receives[..1][1..] == [];
      assert [] + receives[0].bytes == receives[0].bytes;
      assert receives[0].bytes + [] == receives[0].bytes;
    } else {
      StreamStep(receives[1..], i - 1);
      var first, front := receives[0].bytes, Stream(receives[1..i]);
      assert receives[1..][..i - 1] == receives[1..i] == receives[..i][1..];
      assert receives[1..][i..] == receives[i + 1..];
      assert receives[1..][..i] == receives[..i + 1][1..];
      Concat(first, front, receives[i].bytes);
      Concat(first, front + receives[i].bytes, Stream(receives[i + 1..]));
    }
  }

  lemma {:induction false} StreamEnds(receives: seq<Received>, i: nat)
    requires i <= |receives| && forall k | 0 <= k < i :: receives[k].Data?
    requires i < |receives| ==> !receives[i].Data?
    ensures Stream(receives) == Stream(receives[..i])
  {
    if i > 0 {
      StreamEnds(receives[1..], i - 1);
      assert receives[1..][..i - 1] == receives[..i][1..];
    } else {
      assert receives[..0] == [];
    }
  }

  lemma StreamPrefix(receives: seq<Received>, i: nat)
    requires i < |receives| && forall k | 0 <= k <= i :: receives[k].Data?
    ensures Stream(receives[..i]) + receives[i].bytes <= Stream(receives)
  {
    StreamStep(receives, i);
    assert Stream(receives)[..|Stream(receives[..i]) + receives[i].bytes|] == Stream(receives[..i]) + receives[i].bytes;
  }

  /** Copies one direction. However the receives and partial sends come out: what was delivered is a prefix of what was
      read and all of it at a clean end, when the whole stream was copied; the counter of this direction grew by the
      bytes read, the other one not at all. */
  method Pump(receives: seq<Received>, send: (nat, nat) -> int, inbound: bool, metric: Metric)
    returns (state: PumpState, read: seq<Byte>, delivered: seq<Byte>)
    requires IsSender(send) && forall r | r in receives :: IsReceive(r)
    modifies metric
    ensures delivered <= read <= Stream(receives)
    ensures state != SendFailed ==> delivered == read == Stream(receives)
    ensures state == SendFailed ==> delivered < read
    ensures state == Running ==> forall r | r in receives :: r.Data?
    ensures state == CleanEnd ==> exists r :: r in receives && !r.Data?
    ensures metric.bytesIn == if inbound then Counted(old(metric.bytesIn), |read|) else old(metric.bytesIn)
    ensures metric.bytesOut == if inbound then old(metric.bytesOut) else Counted(old(metric.bytesOut), |read|)
  {
    read, delivered := [], [];
    var calls := 0;
    assert receives[..0] == [];
    CountedTwice(metric.bytesIn, 0, 0);
    CountedTwice(metric.bytesOut, 0, 0);
    for i := 0 to |receives|
      invariant forall k | 0 <= k < i :: receives[k].Data?
      invariant delivered == read == Stream(receives[..i])
      invariant metric.bytesIn == if inbound then Counted(old(metric.bytesIn), |read|) else old(metric.bytesIn)
      invariant metric.bytesOut == if inbound then old(metric.bytesOut) else Counted(old(metric.bytesOut), |read|)
    {
      if !receives[i].Data? {
        StreamEnds(receives, i);
        return CleanEnd, read, delivered;
      }
      var bytes := receives[i].bytes;
      CopyStep(receives, i);
      CountedTwice(old(metric.bytesIn), |read|, |bytes|);
      CountedTwice(old(metric.bytesOut), |read|, |bytes|);
      metric.Count(inbound, |bytes|);
      read := read + bytes;
      var out;
      out, calls := SendAll(bytes, send, calls);
      PartOf(delivered, bytes, out);
      delivered := delivered + out;
      if out != bytes {
        return SendFailed, read, delivered;
      }
    }
    StreamEnds(receives, |receives|);
    state := Running;
  }

  lemma CopyStep(receives: seq<Received>, i: nat)
    requires i < |receives| && forall k | 0 <= k <= i :: receives[k].Data?
    ensures Stream(receives[..i + 1]) == Stream(receives[..i]) + receives[i].bytes
    ensures Stream(receives[..i]) + receives[i].bytes <= Stream(receives)
  {
    StreamStep(receives, i);
    StreamPrefix(receives, i);
  }

  lemma PartOf(delivered: seq<Byte>, bytes: seq<Byte>, out: seq<Byte>)
    requires out <= bytes
    ensures delivered + out <= delivered + bytes
    ensures out != bytes ==> delivered + out < delivered + bytes
  {
    assert (delivered + bytes)[..|delivered| + |out|] == delivered + out;
  }
}

/** The building blocks of the binary protocol: how a value is written, how it is read from the front of a buffer, and
    the laws that carry over to whole messages. One character is one byte. */
module Codec {
  import opened Common

  const MAX_STRING := 4 * 1024 * 1024

  predicate IsBytes(b: string)
  {
    forall i | 0 <= i < |b| :: b[i] as int < 256
  }

  /** `read` takes a value off the front of a buffer and returns it with what is left. */
  datatype Codec<!T> = Codec(write: T -> string, read: string -> Option<(T, string)>, fits: T -> bool)

  /** What fits is read back as it was written, whatever follows. */
  ghost predicate RoundTrips<T(!new)>(c: Codec<T>)
  {
    forall x: T, rest: string | c.fits(x) :: c.read(c.write(x) + rest) == Some((x, rest))
  }

  /** A value that was read is read again when more bytes follow: reading never looks ahead. */
  ghost predicate Local<T(!new)>(c: Codec<T>)
  {
    forall b: string, more: string | c.read(b).Some? :: c.read(b + more) == Some((c.read(b).value.0,
        c.read(b).value.1 + more))
  }

  /** What is read takes up bytes of the buffer and fits. */
  ghost predicate Sound<T(!new)>(c: Codec<T>)
  {
    forall b: string | IsBytes(b) && c.read(b).Some? :: c.fits(c.read(b).value.0) && IsBytes(c.read(b).value.1)
  }

  /** The only bytes a value is read from are those it is written as. */
  ghost predicate Exact<T(!new)>(c: Codec<T>)
  {
    forall b: string | IsBytes(b) && c.read(b).Some? :: b == c.write(c.read(b).value.0) + c.read(b).value.1
  }

  ghost predicate Lawful<T(!new)>(c: Codec<T>)
  {
    RoundTrips(c) && Local(c) && Sound(c)
  }

  /******* Numbers *******/

  function WriteU8(n: nat): string
  {
    [(n % 256) as char]
  }

  function ReadU8(b: string): Option<(nat, string)>
  {
    if b == "" then None else Some((b[0] as int, b[1..]))
  }

  function WriteLittle(n: nat, width: nat): string
  {
    if width == 0 then "" else WriteU8(n) + WriteLittle(n / 256, width - 1)
  }

  function ReadLittle(b: string, width: nat): Option<(nat, string)>
  {
    if width == 0 then Some((0, b))
    else if b == "" then None
    else
      var high := ReadLittle(b[1..], width - 1);
      if high.None? then None else Some((b[0] as int + 256 * high.value.0, high.value.1))
  }

  function Power(width: nat): (p: nat)
    ensures p > 0
  {
    if width == 0 then 1 else 256 * Power(width - 1)
  }

  lemma {:induction false} LittleRoundTrips(n: nat, width: nat, rest: string)
    requires n < Power(width)
    ensures ReadLittle(WriteLittle(n, width) + rest, width) == Some((n, rest))
  {
    if width == 0 {
      assert "" + rest == rest;
    } else {
      var low, high := WriteU8(n), WriteLittle(n / 256, width - 1);
      LittleRoundTrips(n / 256, width - 1, rest);
      assert (low + high + rest)[1..] == high + rest;
      assert (low + high + rest)[0] == low[0];
    }
  }

  lemma {:induction false} LittleLocal(b: string, width: nat, more: string)
    requires ReadLittle(b, width).Some?
    ensures ReadLittle(b + more, width) == Some((ReadLittle(b, width).value.0, ReadLittle(b, width).value.1 + more))
  {
    if width > 0 {
      assert (b + more)[1..] == b[1..] + more;
      LittleLocal(b[1..], width - 1, more);
    }
  }

  lemma LowByte(low: nat, high: nat)
    requires low < 256
    ensures (low + 256 * high) % 256 == low && (low + 256 * high) / 256 == high
  {
  }

  lemma {:induction false} LittleExact(b: string, width: nat)
    requires IsBytes(b) && ReadLittle(b, width).Some?
    ensures var r := ReadLittle(b, width).value;
            r.0 < Power(width) && IsBytes(r.1) && b == WriteLittle(r.0, width) + r.1
  {
    if width > 0 {
      LittleExact(b[1..], width - 1);
      var high := ReadLittle(b[1..], width - 1).value;
      var n := b[0] as int + 256 * high.0;
      LowByte(b[0] as int, high.0);
      assert b == [b[0]] + b[1..];
      assert WriteU8(n) == [b[0]];
    }
  }

  function WriteU32(n: nat): string
  {
    WriteLittle(n, 4)
  }

  function ReadU32(b: string): Option<(nat, string)>
  {
    ReadLittle(b, 4)
  }

  function WriteU64(n: nat): string
  {
    WriteLittle(n, 8)
  }

  function ReadU64(b: string): Option<(nat, string)>
  {
    ReadLittle(b, 8)
  }

  predicate IsU32(n: nat)
  {
    n < 0x1_0000_0000
  }

  predicate IsU64(n: nat)
  {
    n < 0x1_0000_0000_0000_0000
  }

  function U32(): Codec<nat>
  {
    Codec(WriteU32, ReadU32, IsU32)
  }

  function U64(): Codec<nat>
  {
    Codec(WriteU64, ReadU64, IsU64)
  }

  lemma Powers()
    ensures Power(4) == 0x1_0000_0000
    ensures Power(8) == 0x1_0000_0000_0000_0000
  {
    assert Power(1) == 256 && Power(2) == 0x1_0000 && Power(3) == 0x100_0000;
    assert Power(5) == 0x100_0000_0000 && Power(6) == 0x1_0000_0000_0000 && Power(7) == 0x100_0000_0000_0000;
  }

  lemma U32Laws()
    ensures Lawful(U32()) && Exact(U32())
  {
    Powers();
    var c := U32();
    forall x: nat, rest: string | c.fits(x) ensures c.read(c.write(x) + rest) == Some((x, rest)) {
      LittleRoundTrips(x, 4, rest);
    }
    forall b: string, more: string | c.read(b).Some? ensures c.read(b + more) == Some((c.read(b).value.0,
        c.read(b).value.1 + more)) {
      LittleLocal(b, 4, more);
    }
    forall b: string | IsBytes(b) && c.read(b).Some?
      ensures c.fits(c.read(b).value.0) && IsBytes(c.read(b).value.1) && b == c.write(c.read(b).value.0)
          + c.read(b).value.1 {
      LittleExact(b, 4);
    }
  }

  lemma U64Laws()
    ensures Lawful(U64()) && Exact(U64())
  {
    Powers();
    var c := U64();
    forall x: nat, rest: string | c.fits(x) ensures c.read(c.write(x) + rest) == Some((x, rest)) {
      LittleRoundTrips(x, 8, rest);
    }
    forall b: string, more: string | c.read(b).Some? ensures c.read(b + more) == Some((c.read(b).value.0,
        c.read(b).value.1 + more)) {
      LittleLocal(b, 8, more);
    }
    forall b: string | IsBytes(b) && c.read(b).Some?
      ensures c.fits(c.read(b).value.0) && IsBytes(c.read(b).value.1) && b == c.write(c.read(b).value.0)
          + c.read(b).value.1 {
      LittleExact(b, 8);
    }
  }

  /******* Flags and strings *******/

  function WriteFlag(flag: bool): string
  {
    WriteU8(if flag then 1 else 0)
  }

  /** Any byte but 0 is true. */
  function ReadFlag(b: string): Option<(bool, string)>
  {
    var byte := ReadU8(b);
    if byte.None? then None else Some((byte.value.0 != 0, byte.value.1))
  }

  predicate Always(flag: bool)
  {
    true
  }

  function Flag(): Codec<bool>
  {
    Codec(WriteFlag, ReadFlag, Always)
  }

  lemma FlagLaws()
    ensures Lawful(Flag())
  {
    var c := Flag();
    forall x: bool, rest: string ensures c.read(c.write(x) + rest) == Some((x, rest)) {
      assert (WriteFlag(x) + rest)[1..] == rest;
    }
    forall b: string, more: string | c.read(b).Some? ensures c.read(b + more) == Some((c.read(b).value.0,
        c.read(b).value.1 + more)) {
      assert (b + more)[1..] == b[1..] + more;
    }
  }

  /** The size is cast to 32 bits, the bytes follow. */
  function WriteString(s: string): string
  {
    WriteU32(|s| % 0x1_0000_0000) + s
  }

  function ReadString(b: string): Option<(string, string)>
  {
    var size := ReadU32(b);
    if size.None? || size.value.0 > MAX_STRING || size.value.0 > |size.value.1| then None
    else Some((size.value.1[..size.value.0], size.value.1[size.value.0..]))
  }

  predicate FitsString(s: string)
  {
    |s| <= MAX_STRING && IsBytes(s)
  }

  function Str(): Codec<string>
  {
    Codec(WriteString, ReadString, FitsString)
  }

  lemma U32RoundTrips(n: nat, rest: string)
    requires IsU32(n)
    ensures ReadU32(WriteU32(n) + rest) == Some((n, rest))
  {
    Powers();
    LittleRoundTrips(n, 4, rest);
  }

  lemma StringRoundTrips(s: string, rest: string)
    requires FitsString(s)
    ensures ReadString(WriteString(s) + rest) == Some((s, rest))
  {
    var n, tail := |s|, s + rest;
    U32RoundTrips(n, tail);
    assert WriteString(s) + rest == WriteU32(n) + tail by {
      assert n % 0x1_0000_0000 == n;
      assert WriteU32(n) + s + rest == WriteU32(n) + tail;
    }
    assert tail[..n] == s && tail[n..] == rest;
  }

  lemma StringLocal(b: string, more: string)
    requires ReadString(b).Some?
    ensures ReadString(b + more) == Some((ReadString(b).value.0, ReadString(b).value.1 + more))
  {
    LittleLocal(b, 4, more);
    var size := ReadU32(b).value;
    assert (size.1 + more)[..size.0] == size.1[..size.0];
    assert (size.1 + more)[size.0..] == size.1[size.0..] + more;
  }

  lemma StringExact(b: string)
    requires IsBytes(b) && ReadString(b).Some?
    ensures var r := ReadString(b).value; FitsString(r.0) && IsBytes(r.1) && b == WriteString(r.0) + r.1
  {
    LittleExact(b, 4);
    var size := ReadU32(b).value;
    var s, rest := size.1[..size.0], size.1[size.0..];
    assert |s| % 0x1_0000_0000 == size.0;
    assert size.1 == s + rest;
    Concat(WriteU32(size.0), s, rest);
  }

  lemma StringLaws()
    ensures Lawful(Str()) && Exact(Str())
  {
    var c := Str();
    forall x: string, rest: string | c.fits(x) ensures c.read(c.write(x) + rest) == Some((x, rest)) {
      StringRoundTrips(x, rest);
    }
    forall b: string, more: string | c.read(b).Some? ensures c.read(b + more) == Some((c.read(b).value.0,
        c.read(b).value.1 + more)) {
      StringLocal(b, more);
    }
    forall b: string | IsBytes(b) && c.read(b).Some?
      ensures c.fits(c.read(b).value.0) && IsBytes(c.read(b).value.1) && b == c.write(c.read(b).value.0)
          + c.read(b).value.1 {
      StringExact(b);
    }
  }

  /******* One after the other *******/

  function ReadPair<A, B>(first: Codec<A>, second: Codec<B>, b: string): Option<((A, B), string)>
  {
    var x := first.read(b);
    if x.None? then None else
      var y := second.read(x.value.1);
      if y.None? then None else Some(((x.value.0, y.value.0), y.value.1))
  }

  function Pair<A, B>(first: Codec<A>, second: Codec<B>): Codec<(A, B)>
  {
    Codec((p: (A, B)) => first.write(p.0) + second.write(p.1),
          (b: string) => ReadPair(first, second, b),
          (p: (A, B)) => first.fits(p.0) && second.fits(p.1))
  }

  lemma PairRoundTrips<A(!new), B(!new)>(first: Codec<A>, second: Codec<B>, p: (A, B), rest: string)
    requires RoundTrips(first) && RoundTrips(second) && first.fits(p.0) && second.fits(p.1)
    ensures ReadPair(first, second, first.write(p.0) + second.write(p.1) + rest) == Some((p, rest))
  {
    var tail := second.write(p.1) + rest;
    assert first.write(p.0) + second.write(p.1) + rest == first.write(p.0) + tail;
    assert first.read(first.write(p.0) + tail) == Some((p.0, tail));
  }

  lemma PairLocal<A(!new), B(!new)>(first: Codec<A>, second: Codec<B>, b: string, more: string)
    requires Local(first) && Local(second) && ReadPair(first, second, b).Some?
    ensures ReadPair(first, second, b + more)
            == Some((ReadPair(first, second, b).value.0, ReadPair(first, second, b).value.1 + more))
  {
    var x := first.read(b).value;
    assert first.read(b + more) == Some((x.0, x.1 + more));
    assert second.read(x.1).Some?;
  }

  lemma PairSound<A(!new), B(!new)>(first: Codec<A>, second: Codec<B>, b: string)
    requires Sound(first) && Sound(second) && IsBytes(b) && ReadPair(first, second, b).Some?
    ensures var r := ReadPair(first, second, b).value;
            first.fits(r.0.0) && second.fits(r.0.1) && IsBytes(r.1)
  {
    assert second.read(first.read(b).value.1).Some?;
  }

  lemma PairExact<A(!new), B(!new)>(first: Codec<A>, second: Codec<B>, b: string)
    requires Sound(first) && Exact(first) && Exact(second) && IsBytes(b) && ReadPair(first, second, b).Some?
    ensures var r := ReadPair(first, second, b).value; b == first.write(r.0.0) + second.write(r.0.1) + r.1
  {
    var x := first.read(b).value;
    var y := second.read(x.1).value;
    assert b == first.write(x.0) + x.1;
    assert x.1 == second.write(y.0) + y.1;
    Concat(first.write(x.0), second.write(y.0), y.1);
  }

  lemma PairLaws<A(!new), B(!new)>(first: Codec<A>, second: Codec<B>)
    requires Lawful(first) && Lawful(second)
    ensures Lawful(Pair(first, second))
  {
    var c := Pair(first, second);
    forall p: (A, B), rest: string | c.fits(p) ensures c.read(c.write(p) + rest) == Some((p, rest)) {
      PairRoundTrips(first, second, p, rest);
    }
    forall b: string, more: string | c.read(b).Some? ensures c.read(b + more) == Some((c.read(b).value.0,
        c.read(b).value.1 + more)) {
      PairLocal(first, second, b, more);
    }
    forall b: string | IsBytes(b) && c.read(b).Some? ensures c.fits(c.read(b).value.0) && IsBytes(c.read(b).value.1) {
      PairSound(first, second, b);
    }
  }

  lemma PairIsExact<A(!new), B(!new)>(first: Codec<A>, second: Codec<B>)
    requires Sound(first) && Exact(first) && Exact(second)
    ensures Exact(Pair(first, second))
  {
    var c := Pair(first, second);
    forall b: string | IsBytes(b) && c.read(b).Some? ensures b == c.write(c.read(b).value.0) + c.read(b).value.1 {
      PairExact(first, second, b);
    }
  }

  /******* A record as nested pairs *******/

  function ReadVia<A, B>(c: Codec<A>, make: A -> B, b: string): Option<(B, string)>
  {
    var x := c.read(b);
    if x.None? then None else Some((make(x.value.0), x.value.1))
  }

  function Via<A, B>(c: Codec<A>, make: A -> B, parts: B -> A): Codec<B>
  {
    Codec((x: B) => c.write(parts(x)), (b: string) => ReadVia(c, make, b), (x: B) => c.fits(parts(x)))
  }

  lemma ViaLaws<A(!new), B(!new)>(c: Codec<A>, make: A -> B, parts: B -> A)
    requires Lawful(c) && (forall x: B :: make(parts(x)) == x) && (forall x: A :: parts(make(x)) == x)
    ensures Lawful(Via(c, make, parts))
  {
    var v := Via(c, make, parts);
    forall x: B, rest: string | v.fits(x) ensures v.read(v.write(x) + rest) == Some((x, rest)) {
      assert c.read(c.write(parts(x)) + rest) == Some((parts(x), rest));
    }
    forall b: string, more: string | v.read(b).Some? ensures v.read(b + more) == Some((v.read(b).value.0,
        v.read(b).value.1 + more)) {
      assert c.read(b).Some?;
    }
  }

  lemma ViaIsExact<A(!new), B(!new)>(c: Codec<A>, make: A -> B, parts: B -> A)
    requires Exact(c) && forall x: A :: parts(make(x)) == x
    ensures Exact(Via(c, make, parts))
  {
    var v := Via(c, make, parts);
    forall b: string | IsBytes(b) && v.read(b).Some? ensures b == v.write(v.read(b).value.0) + v.read(b).value.1 {
      assert c.read(b).Some?;
    }
  }

  /******* A count and that many items *******/

  function WriteAll<T>(c: Codec<T>, xs: seq<T>): string
  {
    if xs == [] then "" else c.write(xs[0]) + WriteAll(c, xs[1..])
  }

  function ReadAll<T>(c: Codec<T>, count: nat, b: string): Option<(seq<T>, string)>
  {
    if count == 0 then Some(([], b)) else
      var x := c.read(b);
      if x.None? then None else
        var xs := ReadAll(c, count - 1, x.value.1);
        if xs.None? then None else Some(([x.value.0] + xs.value.0, xs.value.1))
  }

  function ReadMany<T>(c: Codec<T>, limit: nat, b: string): Option<(seq<T>, string)>
  {
    var count := ReadU32(b);
    if count.None? || count.value.0 > limit then None else ReadAll(c, count.value.0, count.value.1)
  }

  function WriteMany<T>(c: Codec<T>, xs: seq<T>): string
  {
    WriteU32(|xs| % 0x1_0000_0000) + WriteAll(c, xs)
  }

  predicate FitsMany<T>(c: Codec<T>, limit: nat, xs: seq<T>)
  {
    |xs| <= limit && forall i | 0 <= i < |xs| :: c.fits(xs[i])
  }

  function Many<T>(c: Codec<T>, limit: nat): Codec<seq<T>>
  {
    Codec((xs: seq<T>) => WriteMany(c, xs), (b: string) => ReadMany(c, limit, b), (xs: seq<T>) => FitsMany(c, limit,
        xs))
  }

  lemma {:induction false} AllRoundTrips<T(!new)>(c: Codec<T>, xs: seq<T>, rest: string)
    requires RoundTrips(c) && forall i | 0 <= i < |xs| :: c.fits(xs[i])
    ensures ReadAll(c, |xs|, WriteAll(c, xs) + rest) == Some((xs, rest))
  {
    if xs == [] {
      assert "" + rest == rest;
    } else {
      AllRoundTrips(c, xs[1..], rest);
      assert WriteAll(c, xs) + rest == c.write(xs[0]) + (WriteAll(c, xs[1..]) + rest);
      assert xs == [xs[0]] + xs[1..];
    }
  }

  lemma {:induction false} AllLocal<T(!new)>(c: Codec<T>, count: nat, b: string, more: string)
    requires Local(c) && ReadAll(c, count, b).Some?
    ensures ReadAll(c, count, b + more) == Some((ReadAll(c, count, b).value.0, ReadAll(c, count, b).value.1 + more))
  {
    if count > 0 {
      var x := c.read(b).value;
      AllLocal(c, count - 1, x.1, more);
      assert c.read(b + more) == Some((x.0, x.1 + more));
    }
  }

  lemma {:induction false} AllSound<T(!new)>(c: Codec<T>, count: nat, b: string)
    requires Sound(c) && IsBytes(b) && ReadAll(c, count, b).Some?
    ensures var r := ReadAll(c, count, b).value;
            |r.0| == count && IsBytes(r.1) && (forall i | 0 <= i < count :: c.fits(r.0[i]))
            && (Exact(c) ==> b == WriteAll(c, r.0) + r.1)
  {
    if count > 0 {
      var x := c.read(b).value;
      AllSound(c, count - 1, x.1);
      var xs := ReadAll(c, count - 1, x.1).value;
      assert ([x.0] + xs.0)[1..] == xs.0;
      if Exact(c) {
        assert b == c.write(x.0) + x.1;
        assert b == c.write(x.0) + WriteAll(c, xs.0) + xs.1;
      }
    } else {
      assert b == "" + b;
    }
  }

  lemma ManyRoundTrips<T(!new)>(c: Codec<T>, limit: nat, xs: seq<T>, rest: string)
    requires RoundTrips(c) && limit < 0x1_0000_0000 && FitsMany(c, limit, xs)
    ensures ReadMany(c, limit, WriteMany(c, xs) + rest) == Some((xs, rest))
  {
    var tail := WriteAll(c, xs) + rest;
    U32RoundTrips(|xs|, tail);
    assert WriteMany(c, xs) + rest == WriteU32(|xs|) + tail;
    AllRoundTrips(c, xs, rest);
  }

  lemma ManyLocal<T(!new)>(c: Codec<T>, limit: nat, b: string, more: string)
    requires Local(c) && ReadMany(c, limit, b).Some?
    ensures ReadMany(c, limit, b + more) == Some((ReadMany(c, limit, b).value.0, ReadMany(c, limit, b).value.1 + more))
  {
    LittleLocal(b, 4, more);
    AllLocal(c, ReadU32(b).value.0, ReadU32(b).value.1, more);
  }

  lemma ManySound<T(!new)>(c: Codec<T>, limit: nat, b: string)
    requires Sound(c) && IsBytes(b) && ReadMany(c, limit, b).Some?
    ensures var r := ReadMany(c, limit, b).value; FitsMany(c, limit, r.0) && IsBytes(r.1)
  {
    LittleExact(b, 4);
    AllSound(c, ReadU32(b).value.0, ReadU32(b).value.1);
  }

  lemma WrittenMany<T>(c: Codec<T>, xs: seq<T>, rest: string)
    requires |xs| < 0x1_0000_0000
    ensures WriteMany(c, xs) + rest == WriteU32(|xs|) + (WriteAll(c, xs) + rest)
  {
    SmallSize(|xs|);
    Concat(WriteU32(|xs|), WriteAll(c, xs), rest);
  }

  lemma SmallSize(n: nat)
    requires n < 0x1_0000_0000
    ensures n % 0x1_0000_0000 == n
  {
  }

  lemma ManyExact<T(!new)>(c: Codec<T>, limit: nat, b: string)
    requires Sound(c) && Exact(c) && limit < 0x1_0000_0000 && IsBytes(b) && ReadMany(c, limit, b).Some?
    ensures var r := ReadMany(c, limit, b).value; b == WriteMany(c, r.0) + r.1
  {
    LittleExact(b, 4);
    var count := ReadU32(b).value;
    AllSound(c, count.0, count.1);
    var r := ReadAll(c, count.0, count.1).value;
    WrittenMany(c, r.0, r.1);
  }

  lemma ManyLaws<T(!new)>(c: Codec<T>, limit: nat)
    requires Lawful(c) && limit < 0x1_0000_0000
    ensures Lawful(Many(c, limit))
  {
    var m := Many(c, limit);
    forall xs: seq<T>, rest: string | m.fits(xs) ensures m.read(m.write(xs) + rest) == Some((xs, rest)) {
      ManyRoundTrips(c, limit, xs, rest);
    }
    forall b: string, more: string | m.read(b).Some? ensures m.read(b + more) == Some((m.read(b).value.0,
        m.read(b).value.1 + more)) {
      ManyLocal(c, limit, b, more);
    }
    forall b: string | IsBytes(b) && m.read(b).Some?
      ensures m.fits(m.read(b).value.0) && IsBytes(m.read(b).value.1) {
      ManySound(c, limit, b);
    }
  }

  lemma ManyIsExact<T(!new)>(c: Codec<T>, limit: nat)
    requires Sound(c) && Exact(c) && limit < 0x1_0000_0000
    ensures Exact(Many(c, limit))
  {
    var m := Many(c, limit);
    forall b: string | IsBytes(b) && m.read(b).Some? ensures b == m.write(m.read(b).value.0) + m.read(b).value.1 {
      ManyExact(c, limit, b);
    }
  }

  /******* Whole messages *******/

  /** A message is accepted only when nothing is left over. */
  function Decode<T>(c: Codec<T>, b: string): Option<T>
  {
    var r := c.read(b);
    if r.Some? && r.value.1 == "" then Some(r.value.0) else None
  }

  lemma DecodeEncode<T(!new)>(c: Codec<T>, x: T)
    requires Lawful(c) && c.fits(x)
    ensures Decode(c, c.write(x)) == Some(x)
  {
    assert c.write(x) + "" == c.write(x);
    assert c.read(c.write(x) + "") == Some((x, ""));
  }

  /** No accepted buffer is a strict prefix of another one. */
  lemma PrefixFree<T(!new)>(c: Codec<T>, b: string, more: string)
    requires Lawful(c) && Decode(c, b).Some? && more != ""
    ensures Decode(c, b + more) == None
  {
    assert c.read(b + more) == Some((c.read(b).value.0, "" + more));
  }

  lemma EncodeDecode<T(!new)>(c: Codec<T>, b: string)
    requires Lawful(c) && Exact(c) && IsBytes(b) && Decode(c, b).Some?
    ensures c.write(Decode(c, b).value) == b
  {
    var x := Decode(c, b).value;
    assert c.write(x) + "" == c.write(x);
  }
}

/** The buffer writer and reader, and the encoders and decoders that run over them field by field. */
module ServicePipe {
  import opened Common
  import opened Codec
  import opened Protocol
  import opened Messages

  /******* Loops over items *******/

  /** What a decoding loop has so far, continued by what is still to be read. */
  function Continued<T>(xs: seq<T>, left: Option<(seq<T>, string)>): Option<(seq<T>, string)>
  {
    if left.None? then None else Some((xs + left.value.0, left.value.1))
  }

  lemma OneMore<T>(c: Codec<T>, count: nat, b: string, xs: seq<T>)
    requires count > 0
    ensures c.read(b).None? ==> Continued(xs, ReadAll(c, count, b)) == None
    ensures c.read(b).Some? ==>
              Continued(xs, ReadAll(c, count, b))
              == Continued(xs + [c.read(b).value.0], ReadAll(c, count - 1, c.read(b).value.1))
  {
    if c.read(b).Some? {
      var left := ReadAll(c, count - 1, c.read(b).value.1);
      if left.Some? {
        Concat(xs, [c.read(b).value.0], left.value.0);
      }
    }
  }

  lemma NoMore<T>(c: Codec<T>, b: string, xs: seq<T>)
    ensures Continued(xs, ReadAll(c, 0, b)) == Some((xs, b))
  {
    assert xs + [] == xs;
  }

  lemma Untouched<T>(all: Option<(seq<T>, string)>)
    ensures Continued([], all) == all
  {
    if all.Some? {
      assert [] + all.value.0 == all.value.0;
    }
  }

  lemma OneMoreWritten<T>(c: Codec<T>, xs: seq<T>, i: nat, written: string)
    requires i < |xs|
    ensures written + WriteAll(c, xs[i..]) == written + c.write(xs[i]) + WriteAll(c, xs[i + 1..])
  {
    assert xs[i..][1..] == xs[i + 1..];
    Concat(written, c.write(xs[i]), WriteAll(c, xs[i + 1..]));
  }

  /******* Fields one after the other *******/

  lemma Flat3(o: string, a: string, b: string, c: string)
    ensures o + a + b + c == o + (a + (b + c))
  {
    Concat(o, a, b + c);
    Concat(o + a, b, c);
  }

  lemma Flat4(o: string, a: string, b: string, c: string, d: string)
    ensures o + a + b + c + d == o + (a + (b + (c + d)))
  {
    Concat(o, a, b + (c + d));
    Flat3(o + a, b, c, d);
  }

  lemma Flat5(o: string, a: string, b: string, c: string, d: string, e: string)
    ensures o + a + b + c + d + e == o + (a + (b + (c + (d + e))))
  {
    Concat(o, a, b + (c + (d + e)));
    Flat4(o + a, b, c, d, e);
  }

  lemma Flat6(o: string, a: string, b: string, c: string, d: string, e: string, f: string)
    ensures o + a + b + c + d + e + f == o + (a + (b + (c + (d + (e + f)))))
  {
    Concat(o, a, b + (c + (d + (e + f))));
    Flat5(o + a, b, c, d, e, f);
  }

  lemma Flat8(o: string, a: string, b: string, c: string, d: string, e: string, f: string, g: string, h: string)
    ensures o + a + b + c + d + e + f + g + h == o + (a + (b + (c + (d + (e + (f + (g + h)))))))
  {
    Concat(o, a, b + (c + (d + (e + (f + (g + h))))));
    Concat(o + a, b, c + (d + (e + (f + (g + h)))));
    Flat6(o + a + b, c, d, e, f, g, h);
  }

  /******* Reading fields one after the other *******/

  function Read3<A, B, C>(a: Codec<A>, b: Codec<B>, c: Codec<C>, s: string): Option<((A, (B, C)), string)>
  {
    var x := a.read(s);
    if x.None? then None else
      var r := ReadPair(b, c, x.value.1);
      if r.None? then None else Some(((x.value.0, r.value.0), r.value.1))
  }

  lemma Taken3<A, B, C>(a: Codec<A>, b: Codec<B>, c: Codec<C>, s: string)
    ensures Pair(a, Pair(b, c)).read(s) == Read3(a, b, c, s)
  {
    var rest := Pair(b, c);
    assert Pair(a, rest).read(s) == ReadPair(a, rest, s);
    if a.read(s).Some? {
      assert rest.read(a.read(s).value.1) == ReadPair(b, c, a.read(s).value.1);
    }
  }

  function Read4<A, B, C, D>(a: Codec<A>, b: Codec<B>, c: Codec<C>, d: Codec<D>, s: string): Option<((A, (B, (C,
      D))), string)>
  {
    var x := a.read(s);
    if x.None? then None else
      var r := Read3(b, c, d, x.value.1);
      if r.None? then None else Some(((x.value.0, r.value.0), r.value.1))
  }

  lemma Taken4<A, B, C, D>(a: Codec<A>, b: Codec<B>, c: Codec<C>, d: Codec<D>, s: string)
    ensures Pair(a, Pair(b, Pair(c, d))).read(s) == Read4(a, b, c, d, s)
  {
    var rest := Pair(b, Pair(c, d));
    assert Pair(a, rest).read(s) == ReadPair(a, rest, s);
    if a.read(s).Some? {
      Taken3(b, c, d, a.read(s).value.1);
    }
  }

  function Read5<A, B, C, D, E>(a: Codec<A>, b: Codec<B>, c: Codec<C>, d: Codec<D>, e: Codec<E>,
      s: string): Option<((A, (B, (C, (D, E)))), string)>
  {
    var x := a.read(s);
    if x.None? then None else
      var r := Read4(b, c, d, e, x.value.1);
      if r.None? then None else Some(((x.value.0, r.value.0), r.value.1))
  }

  lemma Taken5<A, B, C, D, E>(a: Codec<A>, b: Codec<B>, c: Codec<C>, d: Codec<D>, e: Codec<E>, s: string)
    ensures Pair(a, Pair(b, Pair(c, Pair(d, e)))).read(s) == Read5(a, b, c, d, e, s)
  {
    var rest := Pair(b, Pair(c, Pair(d, e)));
    assert Pair(a, rest).read(s) == ReadPair(a, rest, s);
    if a.read(s).Some? {
      Taken4(b, c, d, e, a.read(s).value.1);
    }
  }

  function Read6<A, B, C, D, E, F>(a: Codec<A>, b: Codec<B>, c: Codec<C>, d: Codec<D>, e: Codec<E>, f: Codec<F>,
      s: string): Option<((A, (B, (C, (D, (E, F))))), string)>
  {
    var x := a.read(s);
    if x.None? then None else
      var r := Read5(b, c, d, e, f, x.value.1);
      if r.None? then None else Some(((x.value.0, r.value.0), r.value.1))
  }

  lemma Taken6<A, B, C, D, E, F>(a: Codec<A>, b: Codec<B>, c: Codec<C>, d: Codec<D>, e: Codec<E>, f: Codec<F>,
      s: string)
    ensures Pair(a, Pair(b, Pair(c, Pair(d, Pair(e, f))))).read(s) == Read6(a, b, c, d, e, f, s)
  {
    var rest := Pair(b, Pair(c, Pair(d, Pair(e, f))));
    assert Pair(a, rest).read(s) == ReadPair(a, rest, s);
    if a.read(s).Some? {
      Taken5(b, c, d, e, f, a.read(s).value.1);
    }
  }

  function Read7<A, B, C, D, E, F, G>(a: Codec<A>, b: Codec<B>, c: Codec<C>, d: Codec<D>, e: Codec<E>, f: Codec<F>,
      g: Codec<G>, s: string): Option<((A, (B, (C, (D, (E, (F, G)))))), string)>
  {
    var x := a.read(s);
    if x.None? then None else
      var r := Read6(b, c, d, e, f, g, x.value.1);
      if r.None? then None else Some(((x.value.0, r.value.0), r.value.1))
  }

  lemma Taken7<A, B, C, D, E, F, G>(a: Codec<A>, b: Codec<B>, c: Codec<C>, d: Codec<D>, e: Codec<E>, f: Codec<F>,
      g: Codec<G>, s: string)
    ensures Pair(a, Pair(b, Pair(c, Pair(d, Pair(e, Pair(f, g)))))).read(s) == Read7(a, b, c, d, e, f, g, s)
  {
    var rest := Pair(b, Pair(c, Pair(d, Pair(e, Pair(f, g)))));
    assert Pair(a, rest).read(s) == ReadPair(a, rest, s);
    if a.read(s).Some? {
      Taken6(b, c, d, e, f, g, a.read(s).value.1);
    }
  }

  function Read8<A, B, C, D, E, F, G, H>(a: Codec<A>, b: Codec<B>, c: Codec<C>, d: Codec<D>, e: Codec<E>,
      f: Codec<F>, g: Codec<G>, h: Codec<H>, s: string): Option<((A, (B, (C, (D, (E, (F, (G, H))))))), string)>
  {
    var x := a.read(s);
    if x.None? then None else
      var r := Read7(b, c, d, e, f, g, h, x.value.1);
      if r.None? then None else Some(((x.value.0, r.value.0), r.value.1))
  }

  lemma Taken8<A, B, C, D, E, F, G, H>(a: Codec<A>, b: Codec<B>, c: Codec<C>, d: Codec<D>, e: Codec<E>, f: Codec<F>,
      g: Codec<G>, h: Codec<H>, s: string)
    ensures Pair(a, Pair(b, Pair(c, Pair(d, Pair(e, Pair(f, Pair(g, h))))))).read(s) == Read8(a, b, c, d, e, f, g, h, s)
  {
    var rest := Pair(b, Pair(c, Pair(d, Pair(e, Pair(f, Pair(g, h))))));
    assert Pair(a, rest).read(s) == ReadPair(a, rest, s);
    if a.read(s).Some? {
      Taken7(b, c, d, e, f, g, h, a.read(s).value.1);
    }
  }

  /******* The buffers *******/

  class BufferWriter {
    var bytes: string

    constructor ()
      ensures bytes == ""
    {
      bytes := "";
    }

    method PutU8(n: nat)
      modifies this
      ensures bytes == old(bytes) + WriteU8(n)
    {
      bytes := bytes + [(n % 256) as char];
    }

    method PutFlag(flag: bool)
      modifies this
      ensures bytes == old(bytes) + WriteFlag(flag)
    {
      PutU8(if flag then 1 else 0);
    }

    method PutLittle(n: nat, width: nat)
      modifies this
      ensures bytes == old(bytes) + WriteLittle(n, width)
    {
      var left := n;
      for i := 0 to width
        invariant bytes + WriteLittle(left, width - i) == old(bytes) + WriteLittle(n, width)
      {
        Concat(bytes, WriteU8(left), WriteLittle(left / 256, width - i - 1));
        PutU8(left);
        left := left / 256;
      }
      assert bytes + "" == bytes;
    }

    method PutU32(n: nat)
      modifies this
      ensures bytes == old(bytes) + WriteU32(n)
    {
      PutLittle(n, 4);
    }

    method PutU64(n: nat)
      modifies this
      ensures bytes == old(bytes) + WriteU64(n)
    {
      PutLittle(n, 8);
    }

    method PutString(s: string)
      modifies this
      ensures bytes == old(bytes) + WriteString(s)
    {
      ghost var before := bytes;
      PutU32(|s| % 0x1_0000_0000);
      bytes := bytes + s;
      Concat(before, WriteU32(|s| % 0x1_0000_0000), s);
    }
  }

  /** Reading took exactly what the codec takes, or failed where the codec fails. */
  ghost predicate Took<T>(c: Codec<T>, before: string, ok: bool, x: T, after: string)
  {
    if ok then c.read(before) == Some((x, after)) else c.read(before).None?
  }

  function LittleValue(s: string): nat
  {
    if s == "" then 0 else s[0] as int + 256 * LittleValue(s[1..])
  }

  lemma {:induction false} LittleTaken(b: string, width: nat)
    ensures ReadLittle(b, width) == if width > |b| then None else Some((LittleValue(b[..width]), b[width..]))
  {
    if width > 0 && b != "" {
      LittleTaken(b[1..], width - 1);
      if width <= |b| {
        assert b[..width][1..] == b[1..][..width - 1];
        assert b[1..][width - 1..] == b[width..];
      }
    }
  }

  class BufferReader {
    const bytes: string
    var offset: nat

    ghost var rest: string

    /** Reads never pass the end of the buffer. */
    ghost predicate Valid()
      reads this
    {
      offset <= |bytes| && rest == bytes[offset..]
    }

    constructor (bytes: string)
      ensures Valid() && this.bytes == bytes && rest == bytes
    {
      this.bytes, offset, rest := bytes, 0, bytes;
    }

    predicate Done()
      reads this
    {
      offset == |bytes|
    }

    method TakeFlag() returns (ok: bool, flag: bool)
      requires Valid()
      modifies this
      ensures Valid() && Took(Flag(), old(rest), ok, flag, rest)
    {
      flag := false;
      if offset + 1 > |bytes| {
        return false, false;
      }
      flag := bytes[offset] as int != 0;
      offset, rest := offset + 1, rest[1..];
      ok := true;
    }

    method TakeLittle(width: nat) returns (ok: bool, n: nat)
      requires Valid()
      modifies this
      ensures Valid()
      ensures if ok then ReadLittle(old(rest), width) == Some((n, rest))
              else ReadLittle(old(rest), width).None? && offset == old(offset)
    {
      LittleTaken(rest, width);
      n := 0;
      if offset + width > |bytes| {
        return false, 0;
      }
      n := LittleValue(bytes[offset..offset + width]);
      assert rest[..width] == bytes[offset..offset + width];
      assert rest[width..] == bytes[offset + width..];
      offset, rest := offset + width, rest[width..];
      ok := true;
    }

    method TakeU32() returns (ok: bool, n: nat)
      requires Valid()
      modifies this
      ensures Valid() && Took(U32(), old(rest), ok, n, rest)
    {
      ok, n := TakeLittle(4);
    }

    method TakeU64() returns (ok: bool, n: nat)
      requires Valid()
      modifies this
      ensures Valid() && Took(U64(), old(rest), ok, n, rest)
    {
      ok, n := TakeLittle(8);
    }

    method TakeString() returns (ok: bool, s: string)
      requires Valid()
      modifies this
      ensures Valid() && Took(Str(), old(rest), ok, s, rest)
    {
      s := "";
      var size;
      ok, size := TakeLittle(4);
      if !ok || size > MAX_STRING || offset + size > |bytes| {
        return false, "";
      }
      s := bytes[offset..offset + size];
      assert rest[..size] == s && rest[size..] == bytes[offset + size..];
      offset, rest := offset + size, rest[size..];
    }
  }

  lemma Written2<A, B>(a: Codec<A>, b: Codec<B>, p: A, q: B)
    ensures Pair(a, b).write((p, q))
            == a.write(p) + b.write(q)
  {
  }

  lemma Written3<A, B, C>(a: Codec<A>, b: Codec<B>, c: Codec<C>, p: A, q: B, r: C)
    ensures Pair(a, Pair(b, c)).write((p, (q, r)))
            == a.write(p) + (b.write(q) + c.write(r))
  {
    var rest, values := Pair(b, c), (q, r);
    assert Pair(a, rest).write((p, values)) == a.write(p) + rest.write(values);
    Written2(b, c, q, r);
  }

  lemma Written4<A, B, C, D>(a: Codec<A>, b: Codec<B>, c: Codec<C>, d: Codec<D>, p: A, q: B, r: C, s: D)
    ensures Pair(a, Pair(b, Pair(c, d))).write((p, (q, (r, s))))
            == a.write(p) + (b.write(q) + (c.write(r) + d.write(s)))
  {
    var rest, values := Pair(b, Pair(c, d)), (q, (r, s));
    assert Pair(a, rest).write((p, values)) == a.write(p) + rest.write(values);
    Written3(b, c, d, q, r, s);
  }

  lemma Written5<A, B, C, D, E>(a: Codec<A>, b: Codec<B>, c: Codec<C>, d: Codec<D>, e: Codec<E>, p: A, q: B, r: C,
      s: D, t: E)
    ensures Pair(a, Pair(b, Pair(c, Pair(d, e)))).write((p, (q, (r, (s, t)))))
            == a.write(p) + (b.write(q) + (c.write(r) + (d.write(s) + e.write(t))))
  {
    var rest, values := Pair(b, Pair(c, Pair(d, e))), (q, (r, (s, t)));
    assert Pair(a, rest).write((p, values)) == a.write(p) + rest.write(values);
    Written4(b, c, d, e, q, r, s, t);
  }

  lemma Written6<A, B, C, D, E, F>(a: Codec<A>, b: Codec<B>, c: Codec<C>, d: Codec<D>, e: Codec<E>, f: Codec<F>,
      p: A, q: B, r: C, s: D, t: E, u: F)
    ensures Pair(a, Pair(b, Pair(c, Pair(d, Pair(e, f))))).write((p, (q, (r, (s, (t, u))))))
            == a.write(p) + (b.write(q) + (c.write(r) + (d.write(s) + (e.write(t) + f.write(u)))))
  {
    var rest, values := Pair(b, Pair(c, Pair(d, Pair(e, f)))), (q, (r, (s, (t, u))));
    assert Pair(a, rest).write((p, values)) == a.write(p) + rest.write(values);
    Written5(b, c, d, e, f, q, r, s, t, u);
  }

  lemma Written7<A, B, C, D, E, F, G>(a: Codec<A>, b: Codec<B>, c: Codec<C>, d: Codec<D>, e: Codec<E>, f: Codec<F>,
      g: Codec<G>, p: A, q: B, r: C, s: D, t: E, u: F, v: G)
    ensures Pair(a, Pair(b, Pair(c, Pair(d, Pair(e, Pair(f, g)))))).write((p, (q, (r, (s, (t, (u, v)))))))
            == a.write(p) + (b.write(q) + (c.write(r) + (d.write(s) + (e.write(t) + (f.write(u) + g.write(v))))))
  {
    var rest, values := Pair(b, Pair(c, Pair(d, Pair(e, Pair(f, g))))), (q, (r, (s, (t, (u, v)))));
    assert Pair(a, rest).write((p, values)) == a.write(p) + rest.write(values);
    Written6(b, c, d, e, f, g, q, r, s, t, u, v);
  }

  lemma Written8<A, B, C, D, E, F, G, H>(a: Codec<A>, b: Codec<B>, c: Codec<C>, d: Codec<D>, e: Codec<E>,
      f: Codec<F>, g: Codec<G>, h: Codec<H>, p: A, q: B, r: C, s: D, t: E, u: F, v: G, w: H)
    ensures Pair(a, Pair(b, Pair(c, Pair(d, Pair(e, Pair(f, Pair(g, h))))))).write((p, (q, (r, (s, (t, (u, (v, w))))))))
            == a.write(p) + (b.write(q) + (c.write(r) + (d.write(s) + (e.write(t) + (f.write(u) + (g.write(v)
                + h.write(w)))))))
  {
    var rest, values := Pair(b, Pair(c, Pair(d, Pair(e, Pair(f, Pair(g, h)))))), (q, (r, (s, (t, (u, (v, w))))));
    assert Pair(a, rest).write((p, values)) == a.write(p) + rest.write(values);
    Written7(b, c, d, e, f, g, h, q, r, s, t, u, v, w);
  }

  /******* Route lists *******/

  lemma RouteSpecText(route: RouteSpec)
    ensures RouteCodec().write(route) == WriteString(route.destination) + (WriteString(route.gateway)
        + (WriteString(route.interfaceLuid) + WriteString(route.tag)))
  {
    Written4(Str(), Str(), Str(), Str(), route.destination, route.gateway, route.interfaceLuid, route.tag);
    assert RouteParts(route) == (route.destination, (route.gateway, (route.interfaceLuid, route.tag)));
  }

  method EncodeRouteSpec(route: RouteSpec, writer: BufferWriter)
    modifies writer
    ensures writer.bytes == old(writer.bytes) + RouteCodec().write(route)
  {
    RouteSpecText(route);
    Flat4(writer.bytes, WriteString(route.destination), WriteString(route.gateway), WriteString(route.interfaceLuid),
        WriteString(route.tag));
    writer.PutString(route.destination);
    writer.PutString(route.gateway);
    writer.PutString(route.interfaceLuid);
    writer.PutString(route.tag);
  }

  method DecodeRouteSpec(reader: BufferReader) returns (ok: bool, route: RouteSpec)
    requires reader.Valid()
    modifies reader
    ensures reader.Valid() && Took(RouteCodec(), old(reader.rest), ok, route, reader.rest)
  {
    route := RouteSpec("", "", "", "");
    var destination, gateway, interfaceLuid, tag;
    ok, destination := reader.TakeString();
    if !ok { return; }
    ok, gateway := reader.TakeString();
    if !ok { return; }
    ok, interfaceLuid := reader.TakeString();
    if !ok { return; }
    ok, tag := reader.TakeString();
    if !ok { return; }
    route := RouteSpec(destination, gateway, interfaceLuid, tag);
  }

  method EncodeRoutes(items: seq<RouteSpec>, writer: BufferWriter)
    modifies writer
    ensures writer.bytes == old(writer.bytes) + WriteMany(RouteCodec(), items)
  {
    ghost var start, goal := writer.bytes, writer.bytes + WriteMany(RouteCodec(), items);
    Concat(start, WriteU32(|items| % 0x1_0000_0000), WriteAll(RouteCodec(), items));
    writer.PutU32(|items| % 0x1_0000_0000);
    assert items[0..] == items;
    for i := 0 to |items|
      invariant writer.bytes + WriteAll(RouteCodec(), items[i..]) == goal
    {
      OneMoreWritten(RouteCodec(), items, i, writer.bytes);
      EncodeRouteSpec(items[i], writer);
    }
    assert writer.bytes + "" == writer.bytes;
  }

  method DecodeRouteItems(reader: BufferReader) returns (ok: bool, items: seq<RouteSpec>)
    requires reader.Valid()
    modifies reader
    ensures reader.Valid() && Took(Many(RouteCodec(), 4096), old(reader.rest), ok, items, reader.rest)
  {
    items := [];
    var count;
    ok, count := reader.TakeU32();
    if !ok || count > 4096 {
      return false, [];
    }
    ghost var all := ReadAll(RouteCodec(), count, reader.rest);
    Untouched(all);
    for i := 0 to count
      invariant reader.Valid() && Continued(items, ReadAll(RouteCodec(), count - i, reader.rest)) == all
    {
      OneMore(RouteCodec(), count - i, reader.rest, items);
      var taken, item := DecodeRouteSpec(reader);
      if !taken {
        return false, [];
      }
      items := items + [item];
    }
    NoMore(RouteCodec(), reader.rest, items);
    ok := true;
  }

  method DecodeRoutes(reader: BufferReader) returns (ok: bool, routes: seq<RouteSpec>)
    requires reader.Valid()
    modifies reader
    ensures reader.Valid()
    ensures var decoded := Decode(RoutesMessage(), old(reader.rest));
            if ok then decoded == Some(routes) else decoded.None?
  {
    ok, routes := DecodeRouteItems(reader);
    ok := ok && reader.Done();
  }

  /******* Application rules *******/

  lemma ExecutableText(executable: Executable)
    ensures ExecutableCodec().write(executable) == WriteString(executable.path) + WriteString(executable.appId)
  {
    Written2(Str(), Str(), executable.path, executable.appId);
    assert ExecutableParts(executable) == (executable.path, executable.appId);
  }

  method EncodeExecutable(executable: Executable, writer: BufferWriter)
    modifies writer
    ensures writer.bytes == old(writer.bytes) + ExecutableCodec().write(executable)
  {
    ExecutableText(executable);
    Concat(writer.bytes, WriteString(executable.path), WriteString(executable.appId));
    writer.PutString(executable.path);
    writer.PutString(executable.appId);
  }

  method DecodeExecutable(reader: BufferReader) returns (ok: bool, executable: Executable)
    requires reader.Valid()
    modifies reader
    ensures reader.Valid() && Took(ExecutableCodec(), old(reader.rest), ok, executable, reader.rest)
  {
    executable := Executable("", "");
    var path, appId;
    ok, path := reader.TakeString();
    if !ok { return; }
    ok, appId := reader.TakeString();
    if !ok { return; }
    executable := Executable(path, appId);
  }

  method EncodeExecutables(items: seq<Executable>, writer: BufferWriter)
    modifies writer
    ensures writer.bytes == old(writer.bytes) + WriteMany(ExecutableCodec(), items)
  {
    ghost var start, goal := writer.bytes, writer.bytes + WriteMany(ExecutableCodec(), items);
    Concat(start, WriteU32(|items| % 0x1_0000_0000), WriteAll(ExecutableCodec(), items));
    writer.PutU32(|items| % 0x1_0000_0000);
    assert items[0..] == items;
    for i := 0 to |items|
      invariant writer.bytes + WriteAll(ExecutableCodec(), items[i..]) == goal
    {
      OneMoreWritten(ExecutableCodec(), items, i, writer.bytes);
      EncodeExecutable(items[i], writer);
    }
    assert writer.bytes + "" == writer.bytes;
  }

  method DecodeExecutables(reader: BufferReader) returns (ok: bool, items: seq<Executable>)
    requires reader.Valid()
    modifies reader
    ensures reader.Valid() && Took(Many(ExecutableCodec(), 201), old(reader.rest), ok, items, reader.rest)
  {
    items := [];
    var count;
    ok, count := reader.TakeU32();
    if !ok || count > 201 {
      return false, [];
    }
    ghost var all := ReadAll(ExecutableCodec(), count, reader.rest);
    Untouched(all);
    for i := 0 to count
      invariant reader.Valid() && Continued(items, ReadAll(ExecutableCodec(), count - i, reader.rest)) == all
    {
      OneMore(ExecutableCodec(), count - i, reader.rest, items);
      var taken, item := DecodeExecutable(reader);
      if !taken {
        return false, [];
      }
      items := items + [item];
    }
    NoMore(ExecutableCodec(), reader.rest, items);
    ok := true;
  }

  lemma AppRuleText(rule: AppRule)
    ensures AppRuleCodec().write(rule)
            == WriteString(rule.id) + (WriteString(rule.interfaceLuid) + (WriteString(rule.policy)
               + (WriteFlag(rule.enabled) + WriteMany(ExecutableCodec(), rule.executables))))
  {
    Written5(Str(), Str(), Str(), Flag(), Many(ExecutableCodec(), 201), rule.id, rule.interfaceLuid, rule.policy,
        rule.enabled, rule.executables);
    assert AppRuleParts(rule) == (rule.id, (rule.interfaceLuid, (rule.policy, (rule.enabled, rule.executables))));
  }

  method EncodeAppRule(rule: AppRule, writer: BufferWriter)
    modifies writer
    ensures writer.bytes == old(writer.bytes) + AppRuleCodec().write(rule)
  {
    AppRuleText(rule);
    Flat5(writer.bytes, WriteString(rule.id), WriteString(rule.interfaceLuid), WriteString(rule.policy),
          WriteFlag(rule.enabled), WriteMany(ExecutableCodec(), rule.executables));
    writer.PutString(rule.id);
    writer.PutString(rule.interfaceLuid);
    writer.PutString(rule.policy);
    writer.PutFlag(rule.enabled);
    EncodeExecutables(rule.executables, writer);
  }

  method DecodeAppRulePolicy(reader: BufferReader)
    returns (ok: bool, policy: string, enabled: bool, executables: seq<Executable>)
    requires reader.Valid()
    modifies reader
    ensures reader.Valid()
    ensures var read := Read3(Str(), Flag(), Many(ExecutableCodec(), 201), old(reader.rest));
            if ok then read == Some(((policy, (enabled, executables)), reader.rest)) else read.None?
  {
    policy, enabled, executables := "", false, [];
    ok, policy := reader.TakeString();
    if !ok { return; }
    ok, enabled := reader.TakeFlag();
    if !ok { return; }
    ok, executables := DecodeExecutables(reader);
  }

  method DecodeAppRuleFields(reader: BufferReader) returns (ok: bool, rule: AppRule)
    requires reader.Valid()
    modifies reader
    ensures reader.Valid()
    ensures var read := Read5(Str(), Str(), Str(), Flag(), Many(ExecutableCodec(), 201), old(reader.rest));
            if ok then read == Some((AppRuleParts(rule), reader.rest)) else read.None?
  {
    rule := AppRule("", "", "", false, []);
    var id, luid, policy, enabled, executables;
    ok, id := reader.TakeString();
    if !ok { return; }
    ok, luid := reader.TakeString();
    if !ok { return; }
    ok, policy, enabled, executables := DecodeAppRulePolicy(reader);
    rule := AppRule(id, luid, policy, enabled, executables);
  }

  method DecodeAppRule(reader: BufferReader) returns (ok: bool, rule: AppRule)
    requires reader.Valid()
    modifies reader
    ensures reader.Valid() && Took(AppRuleCodec(), old(reader.rest), ok, rule, reader.rest)
  {
    Taken5(Str(), Str(), Str(), Flag(), Many(ExecutableCodec(), 201), reader.rest);
    ok, rule := DecodeAppRuleFields(reader);
  }

  method EncodeAppRuleList(items: seq<AppRule>, writer: BufferWriter)
    modifies writer
    ensures writer.bytes == old(writer.bytes) + WriteMany(AppRuleCodec(), items)
  {
    ghost var start, goal := writer.bytes, writer.bytes + WriteMany(AppRuleCodec(), items);
    Concat(start, WriteU32(|items| % 0x1_0000_0000), WriteAll(AppRuleCodec(), items));
    writer.PutU32(|items| % 0x1_0000_0000);
    assert items[0..] == items;
    for i := 0 to |items|
      invariant writer.bytes + WriteAll(AppRuleCodec(), items[i..]) == goal
    {
      OneMoreWritten(AppRuleCodec(), items, i, writer.bytes);
      EncodeAppRule(items[i], writer);
    }
    assert writer.bytes + "" == writer.bytes;
  }

  method DecodeAppRuleList(reader: BufferReader) returns (ok: bool, items: seq<AppRule>)
    requires reader.Valid()
    modifies reader
    ensures reader.Valid() && Took(Many(AppRuleCodec(), 1024), old(reader.rest), ok, items, reader.rest)
  {
    items := [];
    var count;
    ok, count := reader.TakeU32();
    if !ok || count > 1024 {
      return false, [];
    }
    ghost var all := ReadAll(AppRuleCodec(), count, reader.rest);
    Untouched(all);
    for i := 0 to count
      invariant reader.Valid() && Continued(items, ReadAll(AppRuleCodec(), count - i, reader.rest)) == all
    {
      OneMore(AppRuleCodec(), count - i, reader.rest, items);
      var taken, item := DecodeAppRule(reader);
      if !taken {
        return false, [];
      }
      items := items + [item];
    }
    NoMore(AppRuleCodec(), reader.rest, items);
    ok := true;
  }

  lemma AppRulesText(message: AppRules)
    ensures AppRulesMessage().write(message)
            == WriteFlag(message.masterEnabled) + (WriteString(message.hash) + WriteMany(AppRuleCodec(), message.rules))
  {
    Written3(Flag(), Str(), Many(AppRuleCodec(), 1024), message.masterEnabled, message.hash, message.rules);
    assert AppRulesParts(message) == (message.masterEnabled, (message.hash, message.rules));
  }

  method EncodeAppRules(message: AppRules, writer: BufferWriter)
    modifies writer
    ensures writer.bytes == old(writer.bytes) + AppRulesMessage().write(message)
  {
    AppRulesText(message);
    Flat3(writer.bytes, WriteFlag(message.masterEnabled), WriteString(message.hash), WriteMany(AppRuleCodec(),
        message.rules));
    writer.PutFlag(message.masterEnabled);
    writer.PutString(message.hash);
    EncodeAppRuleList(message.rules, writer);
  }

  method DecodeAppRulesBody(reader: BufferReader) returns (ok: bool, message: AppRules)
    requires reader.Valid()
    modifies reader
    ensures reader.Valid() && Took(AppRulesMessage(), old(reader.rest), ok, message, reader.rest)
  {
    message := AppRules(false, "", []);
    var master, hash, rules;
    ok, master := reader.TakeFlag();
    if !ok { return; }
    ok, hash := reader.TakeString();
    if !ok { return; }
    ok, rules := DecodeAppRuleList(reader);
    if !ok { return; }
    message := AppRules(master, hash, rules);
  }

  method DecodeAppRules(reader: BufferReader) returns (ok: bool, message: AppRules)
    requires reader.Valid()
    modifies reader
    ensures reader.Valid()
    ensures var decoded := Decode(AppRulesMessage(), old(reader.rest));
            if ok then decoded == Some(message) else decoded.None?
  {
    ok, message := DecodeAppRulesBody(reader);
    ok := ok && reader.Done();
  }

  /******* Service status *******/

  lemma ReadinessText(readiness: Readiness)
    ensures ReadinessCodec().write(readiness) == WriteFlag(readiness.service) + (WriteFlag(readiness.driver)
        + (WriteFlag(readiness.engine) + (WriteFlag(readiness.proxy) + (WriteFlag(readiness.reboot)
        + WriteFlag(readiness.testMode)))))
  {
    Written6(Flag(), Flag(), Flag(), Flag(), Flag(), Flag(), readiness.service, readiness.driver, readiness.engine,
        readiness.proxy, readiness.reboot, readiness.testMode);
    assert ReadinessParts(readiness) == (readiness.service, (readiness.driver, (readiness.engine, (readiness.proxy,
        (readiness.reboot, readiness.testMode)))));
  }

  method EncodeReadiness(readiness: Readiness, writer: BufferWriter)
    modifies writer
    ensures writer.bytes == old(writer.bytes) + ReadinessCodec().write(readiness)
  {
    ReadinessText(readiness);
    Flat6(writer.bytes, WriteFlag(readiness.service), WriteFlag(readiness.driver), WriteFlag(readiness.engine),
        WriteFlag(readiness.proxy), WriteFlag(readiness.reboot), WriteFlag(readiness.testMode));
    writer.PutFlag(readiness.service);
    writer.PutFlag(readiness.driver);
    writer.PutFlag(readiness.engine);
    writer.PutFlag(readiness.proxy);
    writer.PutFlag(readiness.reboot);
    writer.PutFlag(readiness.testMode);
  }

  method DecodeThreeFlags(reader: BufferReader) returns (ok: bool, a: bool, b: bool, c: bool)
    requires reader.Valid()
    modifies reader
    ensures reader.Valid()
    ensures var read := Read3(Flag(), Flag(), Flag(), old(reader.rest));
            if ok then read == Some(((a, (b, c)), reader.rest)) else read.None?
  {
    a, b, c := false, false, false;
    ok, a := reader.TakeFlag();
    if !ok { return; }
    ok, b := reader.TakeFlag();
    if !ok { return; }
    ok, c := reader.TakeFlag();
  }

  /** Six values are three and three more. */
  lemma ThreeAndThree<A>(a: Codec<A>, s: string)
    ensures var x := Read3(a, a, a, s);
            Read6(a, a, a, a, a, a, s)
            == if x.None? then None else
                 var y := Read3(a, a, a, x.value.1);
                 if y.None? then None else
                   Some(((x.value.0.0, (x.value.0.1.0, (x.value.0.1.1, y.value.0))), y.value.1))
  {
  }

  method DecodeReadinessFlags(reader: BufferReader) returns (ok: bool, readiness: Readiness)
    requires reader.Valid()
    modifies reader
    ensures reader.Valid()
    ensures var read := Read6(Flag(), Flag(), Flag(), Flag(), Flag(), Flag(), old(reader.rest));
            if ok then read == Some((ReadinessParts(readiness), reader.rest)) else read.None?
  {
    readiness := Readiness(false, false, false, false, false, false);
    ThreeAndThree(Flag(), reader.rest);
    var service, driver, engine, proxy, reboot, testMode;
    ok, service, driver, engine := DecodeThreeFlags(reader);
    if !ok { return; }
    ok, proxy, reboot, testMode := DecodeThreeFlags(reader);
    if !ok { return; }
    readiness := Readiness(service, driver, engine, proxy, reboot, testMode);
  }

  method DecodeReadiness(reader: BufferReader) returns (ok: bool, readiness: Readiness)
    requires reader.Valid()
    modifies reader
    ensures reader.Valid() && Took(ReadinessCodec(), old(reader.rest), ok, readiness, reader.rest)
  {
    Taken6(Flag(), Flag(), Flag(), Flag(), Flag(), Flag(), reader.rest);
    ok, readiness := DecodeReadinessFlags(reader);
  }

  lemma TotalsText(totals: Totals)
    ensures TotalsCodec().write(totals) == WriteString(totals.appliedHash) + (WriteString(totals.message)
        + (WriteU32(totals.activeFlows) + (WriteU64(totals.bytesIn) + WriteU64(totals.bytesOut))))
  {
    Written5(Str(), Str(), U32(), U64(), U64(), totals.appliedHash, totals.message, totals.activeFlows,
        totals.bytesIn, totals.bytesOut);
    assert TotalsParts(totals) == (totals.appliedHash, (totals.message, (totals.activeFlows, (totals.bytesIn,
        totals.bytesOut))));
  }

  method EncodeTotals(totals: Totals, writer: BufferWriter)
    modifies writer
    ensures writer.bytes == old(writer.bytes) + TotalsCodec().write(totals)
  {
    TotalsText(totals);
    Flat5(writer.bytes, WriteString(totals.appliedHash), WriteString(totals.message), WriteU32(totals.activeFlows),
        WriteU64(totals.bytesIn), WriteU64(totals.bytesOut));
    writer.PutString(totals.appliedHash);
    writer.PutString(totals.message);
    writer.PutU32(totals.activeFlows);
    writer.PutU64(totals.bytesIn);
    writer.PutU64(totals.bytesOut);
  }

  /** Five values are two and three more, or one, three and one more. */
  lemma TwoAndThree<A, B, C, D, E>(a: Codec<A>, b: Codec<B>, c: Codec<C>, d: Codec<D>, e: Codec<E>, s: string)
    ensures var x := ReadPair(a, b, s);
            Read5(a, b, c, d, e, s)
            == if x.None? then None else
                 var y := Read3(c, d, e, x.value.1);
                 if y.None? then None else Some(((x.value.0.0, (x.value.0.1, y.value.0)), y.value.1))
  {
  }

  lemma OneThreeOne<A, B, C, D, E>(a: Codec<A>, b: Codec<B>, c: Codec<C>, d: Codec<D>, e: Codec<E>, s: string)
    ensures var x := a.read(s);
            Read5(a, b, c, d, e, s)
            == if x.None? then None else
                 var y := Read3(b, c, d, x.value.1);
                 if y.None? then None else
                   var z := e.read(y.value.1);
                   if z.None? then None else
                     var (p, (q, r)) := y.value.0;
                     Some(((x.value.0, (p, (q, (r, z.value.0)))), z.value.1))
  {
  }

  method DecodeTwoStrings(reader: BufferReader) returns (ok: bool, a: string, b: string)
    requires reader.Valid()
    modifies reader
    ensures reader.Valid()
    ensures var read := ReadPair(Str(), Str(), old(reader.rest));
            if ok then read == Some(((a, b), reader.rest)) else read.None?
  {
    b := "";
    ok, a := reader.TakeString();
    if !ok { return; }
    ok, b := reader.TakeString();
  }

  method DecodeFlowCounts(reader: BufferReader) returns (ok: bool, activeFlows: nat, bytesIn: nat, bytesOut: nat)
    requires reader.Valid()
    modifies reader
    ensures reader.Valid()
    ensures var read := Read3(U32(), U64(), U64(), old(reader.rest));
            if ok then read == Some(((activeFlows, (bytesIn, bytesOut)), reader.rest)) else read.None?
  {
    bytesIn, bytesOut := 0, 0;
    ok, activeFlows := reader.TakeU32();
    if !ok { return; }
    ok, bytesIn := reader.TakeU64();
    if !ok { return; }
    ok, bytesOut := reader.TakeU64();
  }

  method DecodeTotalsParts(reader: BufferReader) returns (ok: bool, totals: Totals)
    requires reader.Valid()
    modifies reader
    ensures reader.Valid()
    ensures var read := Read5(Str(), Str(), U32(), U64(), U64(), old(reader.rest));
            if ok then read == Some((TotalsParts(totals), reader.rest)) else read.None?
  {
    TwoAndThree(Str(), Str(), U32(), U64(), U64(), reader.rest);
    totals := Totals("", "", 0, 0, 0);
    var appliedHash, message, activeFlows, bytesIn, bytesOut;
    ok, appliedHash, message := DecodeTwoStrings(reader);
    if !ok { return; }
    ok, activeFlows, bytesIn, bytesOut := DecodeFlowCounts(reader);
    totals := Totals(appliedHash, message, activeFlows, bytesIn, bytesOut);
  }

  method DecodeTotals(reader: BufferReader) returns (ok: bool, totals: Totals)
    requires reader.Valid()
    modifies reader
    ensures reader.Valid() && Took(TotalsCodec(), old(reader.rest), ok, totals, reader.rest)
  {
    Taken5(Str(), Str(), U32(), U64(), U64(), reader.rest);
    ok, totals := DecodeTotalsParts(reader);
  }

  lemma MetricText(metric: Metric)
    ensures MetricCodec().write(metric) == WriteString(metric.id) + (WriteU32(metric.activeFlows)
        + (WriteU64(metric.bytesIn) + (WriteU64(metric.bytesOut) + WriteString(metric.lastError))))
  {
    Written5(Str(), U32(), U64(), U64(), Str(), metric.id, metric.activeFlows, metric.bytesIn, metric.bytesOut,
        metric.lastError);
    assert MetricParts(metric) == (metric.id, (metric.activeFlows, (metric.bytesIn, (metric.bytesOut,
        metric.lastError))));
  }

  method EncodeMetric(metric: Metric, writer: BufferWriter)
    modifies writer
    ensures writer.bytes == old(writer.bytes) + MetricCodec().write(metric)
  {
    MetricText(metric);
    Flat5(writer.bytes, WriteString(metric.id), WriteU32(metric.activeFlows), WriteU64(metric.bytesIn),
        WriteU64(metric.bytesOut), WriteString(metric.lastError));
    writer.PutString(metric.id);
    writer.PutU32(metric.activeFlows);
    writer.PutU64(metric.bytesIn);
    writer.PutU64(metric.bytesOut);
    writer.PutString(metric.lastError);
  }

  method DecodeMetricParts(reader: BufferReader) returns (ok: bool, metric: Metric)
    requires reader.Valid()
    modifies reader
    ensures reader.Valid()
    ensures var read := Read5(Str(), U32(), U64(), U64(), Str(), old(reader.rest));
            if ok then read == Some((MetricParts(metric), reader.rest)) else read.None?
  {
    OneThreeOne(Str(), U32(), U64(), U64(), Str(), reader.rest);
    metric := Metric("", 0, 0, 0, "");
    var id, activeFlows, bytesIn, bytesOut, lastError;
    ok, id := reader.TakeString();
    if !ok { return; }
    ok, activeFlows, bytesIn, bytesOut := DecodeFlowCounts(reader);
    if !ok { return; }
    ok, lastError := reader.TakeString();
    metric := Metric(id, activeFlows, bytesIn, bytesOut, lastError);
  }

  method DecodeMetric(reader: BufferReader) returns (ok: bool, metric: Metric)
    requires reader.Valid()
    modifies reader
    ensures reader.Valid() && Took(MetricCodec(), old(reader.rest), ok, metric, reader.rest)
  {
    Taken5(Str(), U32(), U64(), U64(), Str(), reader.rest);
    ok, metric := DecodeMetricParts(reader);
  }

  method EncodeMetrics(items: seq<Metric>, writer: BufferWriter)
    modifies writer
    ensures writer.bytes == old(writer.bytes) + WriteMany(MetricCodec(), items)
  {
    ghost var start, goal := writer.bytes, writer.bytes + WriteMany(MetricCodec(), items);
    Concat(start, WriteU32(|items| % 0x1_0000_0000), WriteAll(MetricCodec(), items));
    writer.PutU32(|items| % 0x1_0000_0000);
    assert items[0..] == items;
    for i := 0 to |items|
      invariant writer.bytes + WriteAll(MetricCodec(), items[i..]) == goal
    {
      OneMoreWritten(MetricCodec(), items, i, writer.bytes);
      EncodeMetric(items[i], writer);
    }
    assert writer.bytes + "" == writer.bytes;
  }

  method DecodeMetrics(reader: BufferReader) returns (ok: bool, items: seq<Metric>)
    requires reader.Valid()
    modifies reader
    ensures reader.Valid() && Took(Many(MetricCodec(), 1024), old(reader.rest), ok, items, reader.rest)
  {
    items := [];
    var count;
    ok, count := reader.TakeU32();
    if !ok || count > 1024 {
      return false, [];
    }
    ghost var all := ReadAll(MetricCodec(), count, reader.rest);
    Untouched(all);
    for i := 0 to count
      invariant reader.Valid() && Continued(items, ReadAll(MetricCodec(), count - i, reader.rest)) == all
    {
      OneMore(MetricCodec(), count - i, reader.rest, items);
      var taken, item := DecodeMetric(reader);
      if !taken {
        return false, [];
      }
      items := items + [item];
    }
    NoMore(MetricCodec(), reader.rest, items);
    ok := true;
  }

  lemma StatusText(status: Status)
    ensures StatusMessage().write(status)
            == ReadinessCodec().write(status.readiness)
               + (TotalsCodec().write(status.totals) + WriteMany(MetricCodec(), status.metrics))
  {
    Written3(ReadinessCodec(), TotalsCodec(), Many(MetricCodec(), 1024), status.readiness, status.totals,
        status.metrics);
    assert StatusParts(status) == (status.readiness, (status.totals, status.metrics));
  }

  method EncodeStatus(status: Status, writer: BufferWriter)
    modifies writer
    ensures writer.bytes == old(writer.bytes) + StatusMessage().write(status)
  {
    StatusText(status);
    Flat3(writer.bytes, ReadinessCodec().write(status.readiness), TotalsCodec().write(status.totals),
          WriteMany(MetricCodec(), status.metrics));
    EncodeReadiness(status.readiness, writer);
    EncodeTotals(status.totals, writer);
    EncodeMetrics(status.metrics, writer);
  }

  method DecodeTotalsAndMetrics(reader: BufferReader) returns (ok: bool, totals: Totals, metrics: seq<Metric>)
    requires reader.Valid()
    modifies reader
    ensures reader.Valid()
    ensures var read := ReadPair(TotalsCodec(), Many(MetricCodec(), 1024), old(reader.rest));
            if ok then read == Some(((totals, metrics), reader.rest)) else read.None?
  {
    metrics := [];
    ok, totals := DecodeTotals(reader);
    if !ok { return; }
    ok, metrics := DecodeMetrics(reader);
  }

  method DecodeStatusParts(reader: BufferReader) returns (ok: bool, status: Status)
    requires reader.Valid()
    modifies reader
    ensures reader.Valid()
    ensures var read := Read3(ReadinessCodec(), TotalsCodec(), Many(MetricCodec(), 1024), old(reader.rest));
            if ok then read == Some((StatusParts(status), reader.rest)) else read.None?
  {
    status := Status(Readiness(false, false, false, false, false, false), Totals("", "", 0, 0, 0), []);
    var readiness, totals, metrics;
    ok, readiness := DecodeReadiness(reader);
    if !ok { return; }
    ok, totals, metrics := DecodeTotalsAndMetrics(reader);
    status := Status(readiness, totals, metrics);
  }

  /** Decodes into an object whose metrics are kept: new ones are pushed behind them. */
  method DecodeStatus(reader: BufferReader, into: Status) returns (ok: bool, status: Status)
    requires reader.Valid()
    modifies reader
    ensures reader.Valid()
    ensures var decoded := Decode(StatusMessage(), old(reader.rest));
            if ok then decoded.Some? && status == OntoStatus(into, decoded.value) else decoded.None?
  {
    Taken3(ReadinessCodec(), TotalsCodec(), Many(MetricCodec(), 1024), reader.rest);
    ok, status := DecodeStatusParts(reader);
    status := OntoStatus(into, status);
    ok := ok && reader.Done();
  }

  /******* Reconcile results *******/

  lemma CountsText(counts: Counts)
    ensures CountsCodec().write(counts) == WriteFlag(counts.ok) + (WriteU32(counts.added) + WriteU32(counts.removed))
  {
    Written3(Flag(), U32(), U32(), counts.ok, counts.added, counts.removed);
    assert CountsParts(counts) == (counts.ok, (counts.added, counts.removed));
  }

  method EncodeCounts(counts: Counts, writer: BufferWriter)
    modifies writer
    ensures writer.bytes == old(writer.bytes) + CountsCodec().write(counts)
  {
    CountsText(counts);
    Flat3(writer.bytes, WriteFlag(counts.ok), WriteU32(counts.added), WriteU32(counts.removed));
    writer.PutFlag(counts.ok);
    writer.PutU32(counts.added);
    writer.PutU32(counts.removed);
  }

  method DecodeCounts(reader: BufferReader) returns (taken: bool, counts: Counts)
    requires reader.Valid()
    modifies reader
    ensures reader.Valid() && Took(CountsCodec(), old(reader.rest), taken, counts, reader.rest)
  {
    counts := Counts(false, 0, 0);
    var ok, added, removed;
    taken, ok := reader.TakeFlag();
    if !taken { return; }
    taken, added := reader.TakeU32();
    if !taken { return; }
    taken, removed := reader.TakeU32();
    if !taken { return; }
    counts := Counts(ok, added, removed);
  }

  lemma RouteCheckText(check: RouteCheck)
    ensures CheckCodec().write(check) == WriteString(check.destination) + (WriteString(check.expectedInterface)
        + (WriteString(check.expectedGateway) + (WriteString(check.actualInterface)
        + (WriteString(check.actualGateway) + (WriteFlag(check.exactPresent) + (WriteFlag(check.verified)
        + WriteString(check.message)))))))
  {
    Written8(Str(), Str(), Str(), Str(), Str(), Flag(), Flag(), Str(), check.destination, check.expectedInterface,
        check.expectedGateway, check.actualInterface, check.actualGateway, check.exactPresent, check.verified,
        check.message);
    assert CheckParts(check) == (check.destination, (check.expectedInterface, (check.expectedGateway,
        (check.actualInterface, (check.actualGateway, (check.exactPresent, (check.verified, check.message)))))));
  }

  method EncodeRouteCheck(check: RouteCheck, writer: BufferWriter)
    modifies writer
    ensures writer.bytes == old(writer.bytes) + CheckCodec().write(check)
  {
    RouteCheckText(check);
    Flat8(writer.bytes, WriteString(check.destination), WriteString(check.expectedInterface),
        WriteString(check.expectedGateway), WriteString(check.actualInterface), WriteString(check.actualGateway),
        WriteFlag(check.exactPresent), WriteFlag(check.verified), WriteString(check.message));
    writer.PutString(check.destination);
    writer.PutString(check.expectedInterface);
    writer.PutString(check.expectedGateway);
    writer.PutString(check.actualInterface);
    writer.PutString(check.actualGateway);
    writer.PutFlag(check.exactPresent);
    writer.PutFlag(check.verified);
    writer.PutString(check.message);
  }

  method DecodeCheckVerdict(reader: BufferReader) returns (ok: bool, exactPresent: bool, verified: bool,
      message: string)
    requires reader.Valid()
    modifies reader
    ensures reader.Valid()
    ensures var read := Read3(Flag(), Flag(), Str(), old(reader.rest));
            if ok then read == Some(((exactPresent, (verified, message)), reader.rest)) else read.None?
  {
    exactPresent, verified, message := false, false, "";
    ok, exactPresent := reader.TakeFlag();
    if !ok { return; }
    ok, verified := reader.TakeFlag();
    if !ok { return; }
    ok, message := reader.TakeString();
  }

  method DecodeCheckActual(reader: BufferReader)
    returns (ok: bool, actualInterface: string, actualGateway: string, exactPresent: bool, verified: bool,
        message: string)
    requires reader.Valid()
    modifies reader
    ensures reader.Valid()
    ensures var read := Read5(Str(), Str(), Flag(), Flag(), Str(), old(reader.rest));
            if ok then read == Some(((actualInterface, (actualGateway, (exactPresent, (verified, message)))),
                reader.rest))
            else read.None?
  {
    actualInterface, actualGateway, exactPresent, verified, message := "", "", false, false, "";
    ok, actualInterface := reader.TakeString();
    if !ok { return; }
    ok, actualGateway := reader.TakeString();
    if !ok { return; }
    ok, exactPresent, verified, message := DecodeCheckVerdict(reader);
  }

  method DecodeCheckFields(reader: BufferReader) returns (ok: bool, check: RouteCheck)
    requires reader.Valid()
    modifies reader
    ensures reader.Valid()
    ensures var read := Read8(Str(), Str(), Str(), Str(), Str(), Flag(), Flag(), Str(), old(reader.rest));
            if ok then read == Some((CheckParts(check), reader.rest)) else read.None?
  {
    check := RouteCheck("", "", "", "", "", false, false, "");
    var destination, expectedInterface, expectedGateway, actualInterface, actualGateway, exactPresent, verified,
        message;
    ok, destination := reader.TakeString();
    if !ok { return; }
    ok, expectedInterface := reader.TakeString();
    if !ok { return; }
    ok, expectedGateway := reader.TakeString();
    if !ok { return; }
    ok, actualInterface, actualGateway, exactPresent, verified, message := DecodeCheckActual(reader);
    check := RouteCheck(destination, expectedInterface, expectedGateway, actualInterface, actualGateway,
                        exactPresent, verified, message);
  }

  method DecodeRouteCheck(reader: BufferReader) returns (ok: bool, check: RouteCheck)
    requires reader.Valid()
    modifies reader
    ensures reader.Valid() && Took(CheckCodec(), old(reader.rest), ok, check, reader.rest)
  {
    Taken8(Str(), Str(), Str(), Str(), Str(), Flag(), Flag(), Str(), reader.rest);
    ok, check := DecodeCheckFields(reader);
  }

  lemma ProcessText(process: Process)
    ensures ProcessCodec().write(process) == WriteU32(process.pid) + WriteString(process.name)
  {
    Written2(U32(), Str(), process.pid, process.name);
    assert ProcessParts(process) == (process.pid, process.name);
  }

  method EncodeProcess(process: Process, writer: BufferWriter)
    modifies writer
    ensures writer.bytes == old(writer.bytes) + ProcessCodec().write(process)
  {
    ProcessText(process);
    Concat(writer.bytes, WriteU32(process.pid), WriteString(process.name));
    writer.PutU32(process.pid);
    writer.PutString(process.name);
  }

  method DecodeProcess(reader: BufferReader) returns (ok: bool, process: Process)
    requires reader.Valid()
    modifies reader
    ensures reader.Valid() && Took(ProcessCodec(), old(reader.rest), ok, process, reader.rest)
  {
    process := Process(0, "");
    var pid, name;
    ok, pid := reader.TakeU32();
    if !ok { return; }
    ok, name := reader.TakeString();
    if !ok { return; }
    process := Process(pid, name);
  }

  method EncodeStrings(items: seq<string>, writer: BufferWriter)
    modifies writer
    ensures writer.bytes == old(writer.bytes) + WriteMany(Str(), items)
  {
    ghost var start, goal := writer.bytes, writer.bytes + WriteMany(Str(), items);
    Concat(start, WriteU32(|items| % 0x1_0000_0000), WriteAll(Str(), items));
    writer.PutU32(|items| % 0x1_0000_0000);
    assert items[0..] == items;
    for i := 0 to |items|
      invariant writer.bytes + WriteAll(Str(), items[i..]) == goal
    {
      OneMoreWritten(Str(), items, i, writer.bytes);
      writer.PutString(items[i]);
    }
    assert writer.bytes + "" == writer.bytes;
  }

  method DecodeStrings(reader: BufferReader) returns (ok: bool, items: seq<string>)
    requires reader.Valid()
    modifies reader
    ensures reader.Valid() && Took(Many(Str(), 4096), old(reader.rest), ok, items, reader.rest)
  {
    items := [];
    var count;
    ok, count := reader.TakeU32();
    if !ok || count > 4096 {
      return false, [];
    }
    ghost var all := ReadAll(Str(), count, reader.rest);
    Untouched(all);
    for i := 0 to count
      invariant reader.Valid() && Continued(items, ReadAll(Str(), count - i, reader.rest)) == all
    {
      OneMore(Str(), count - i, reader.rest, items);
      var taken, item := reader.TakeString();
      if !taken {
        return false, [];
      }
      items := items + [item];
    }
    NoMore(Str(), reader.rest, items);
    ok := true;
  }

  method EncodeChecks(items: seq<RouteCheck>, writer: BufferWriter)
    modifies writer
    ensures writer.bytes == old(writer.bytes) + WriteMany(CheckCodec(), items)
  {
    ghost var start, goal := writer.bytes, writer.bytes + WriteMany(CheckCodec(), items);
    Concat(start, WriteU32(|items| % 0x1_0000_0000), WriteAll(CheckCodec(), items));
    writer.PutU32(|items| % 0x1_0000_0000);
    assert items[0..] == items;
    for i := 0 to |items|
      invariant writer.bytes + WriteAll(CheckCodec(), items[i..]) == goal
    {
      OneMoreWritten(CheckCodec(), items, i, writer.bytes);
      EncodeRouteCheck(items[i], writer);
    }
    assert writer.bytes + "" == writer.bytes;
  }

  method DecodeChecks(reader: BufferReader) returns (ok: bool, items: seq<RouteCheck>)
    requires reader.Valid()
    modifies reader
    ensures reader.Valid() && Took(Many(CheckCodec(), 4096), old(reader.rest), ok, items, reader.rest)
  {
    items := [];
    var count;
    ok, count := reader.TakeU32();
    if !ok || count > 4096 {
      return false, [];
    }
    ghost var all := ReadAll(CheckCodec(), count, reader.rest);
    Untouched(all);
    for i := 0 to count
      invariant reader.Valid() && Continued(items, ReadAll(CheckCodec(), count - i, reader.rest)) == all
    {
      OneMore(CheckCodec(), count - i, reader.rest, items);
      var taken, item := DecodeRouteCheck(reader);
      if !taken {
        return false, [];
      }
      items := items + [item];
    }
    NoMore(CheckCodec(), reader.rest, items);
    ok := true;
  }

  method EncodeProcesses(items: seq<Process>, writer: BufferWriter)
    modifies writer
    ensures writer.bytes == old(writer.bytes) + WriteMany(ProcessCodec(), items)
  {
    ghost var start, goal := writer.bytes, writer.bytes + WriteMany(ProcessCodec(), items);
    Concat(start, WriteU32(|items| % 0x1_0000_0000), WriteAll(ProcessCodec(), items));
    writer.PutU32(|items| % 0x1_0000_0000);
    assert items[0..] == items;
    for i := 0 to |items|
      invariant writer.bytes + WriteAll(ProcessCodec(), items[i..]) == goal
    {
      OneMoreWritten(ProcessCodec(), items, i, writer.bytes);
      EncodeProcess(items[i], writer);
    }
    assert writer.bytes + "" == writer.bytes;
  }

  method DecodeProcesses(reader: BufferReader) returns (ok: bool, items: seq<Process>)
    requires reader.Valid()
    modifies reader
    ensures reader.Valid() && Took(Many(ProcessCodec(), 4096), old(reader.rest), ok, items, reader.rest)
  {
    items := [];
    var count;
    ok, count := reader.TakeU32();
    if !ok || count > 4096 {
      return false, [];
    }
    ghost var all := ReadAll(ProcessCodec(), count, reader.rest);
    Untouched(all);
    for i := 0 to count
      invariant reader.Valid() && Continued(items, ReadAll(ProcessCodec(), count - i, reader.rest)) == all
    {
      OneMore(ProcessCodec(), count - i, reader.rest, items);
      var taken, item := DecodeProcess(reader);
      if !taken {
        return false, [];
      }
      items := items + [item];
    }
    NoMore(ProcessCodec(), reader.rest, items);
    ok := true;
  }

  lemma OutcomeText(outcome: Outcome)
    ensures OutcomeMessage().write(outcome)
            == CountsCodec().write(outcome.counts)
               + (WriteMany(Str(), outcome.errors)
                  + (WriteMany(CheckCodec(), outcome.checks)
                     + (WriteMany(Str(), outcome.resetDestinations) + WriteMany(ProcessCodec(), outcome.restarted))))
  {
    Written5(CountsCodec(), Many(Str(), 4096), Many(CheckCodec(), 4096), Many(Str(), 4096), Many(ProcessCodec(),
        4096), outcome.counts, outcome.errors, outcome.checks, outcome.resetDestinations, outcome.restarted);
    assert OutcomeParts(outcome) == (outcome.counts, (outcome.errors, (outcome.checks, (outcome.resetDestinations,
        outcome.restarted))));
  }

  method EncodeReconcileResult(outcome: Outcome, writer: BufferWriter)
    modifies writer
    ensures writer.bytes == old(writer.bytes) + OutcomeMessage().write(outcome)
  {
    OutcomeText(outcome);
    Flat5(writer.bytes, CountsCodec().write(outcome.counts), WriteMany(Str(), outcome.errors),
          WriteMany(CheckCodec(), outcome.checks), WriteMany(Str(), outcome.resetDestinations),
          WriteMany(ProcessCodec(), outcome.restarted));
    EncodeCounts(outcome.counts, writer);
    EncodeStrings(outcome.errors, writer);
    EncodeChecks(outcome.checks, writer);
    EncodeStrings(outcome.resetDestinations, writer);
    EncodeProcesses(outcome.restarted, writer);
  }

  /** Four values are two and two more. */
  lemma TwoAndTwo<A, B, C, D>(a: Codec<A>, b: Codec<B>, c: Codec<C>, d: Codec<D>, s: string)
    ensures var x := ReadPair(a, b, s);
            Read4(a, b, c, d, s)
            == if x.None? then None else
                 var y := ReadPair(c, d, x.value.1);
                 if y.None? then None else Some(((x.value.0.0, (x.value.0.1, y.value.0)), y.value.1))
  {
  }

  method DecodeErrorsAndChecks(reader: BufferReader) returns (ok: bool, errors: seq<string>, checks: seq<RouteCheck>)
    requires reader.Valid()
    modifies reader
    ensures reader.Valid()
    ensures var read := ReadPair(Many(Str(), 4096), Many(CheckCodec(), 4096), old(reader.rest));
            if ok then read == Some(((errors, checks), reader.rest)) else read.None?
  {
    checks := [];
    ok, errors := DecodeStrings(reader);
    if !ok { return; }
    ok, checks := DecodeChecks(reader);
  }

  method DecodeResetsAndProcesses(reader: BufferReader)
    returns (ok: bool, resets: seq<string>, processes: seq<Process>)
    requires reader.Valid()
    modifies reader
    ensures reader.Valid()
    ensures var read := ReadPair(Many(Str(), 4096), Many(ProcessCodec(), 4096), old(reader.rest));
            if ok then read == Some(((resets, processes), reader.rest)) else read.None?
  {
    processes := [];
    ok, resets := DecodeStrings(reader);
    if !ok { return; }
    ok, processes := DecodeProcesses(reader);
  }

  method DecodeOutcomeLists(reader: BufferReader)
    returns (ok: bool, errors: seq<string>, checks: seq<RouteCheck>, resets: seq<string>, processes: seq<Process>)
    requires reader.Valid()
    modifies reader
    ensures reader.Valid()
    ensures var read := Read4(Many(Str(), 4096), Many(CheckCodec(), 4096), Many(Str(), 4096),
                              Many(ProcessCodec(), 4096), old(reader.rest));
            if ok then read == Some(((errors, (checks, (resets, processes))), reader.rest)) else read.None?
  {
    errors, checks, resets, processes := [], [], [], [];
    TwoAndTwo(Many(Str(), 4096), Many(CheckCodec(), 4096), Many(Str(), 4096), Many(ProcessCodec(), 4096), reader.rest);
    ok, errors, checks := DecodeErrorsAndChecks(reader);
    if !ok { return; }
    ok, resets, processes := DecodeResetsAndProcesses(reader);
  }

  method DecodeOutcomeParts(reader: BufferReader) returns (ok: bool, outcome: Outcome)
    requires reader.Valid()
    modifies reader
    ensures reader.Valid()
    ensures var read := Read5(CountsCodec(), Many(Str(), 4096), Many(CheckCodec(), 4096), Many(Str(), 4096),
                              Many(ProcessCodec(), 4096), old(reader.rest));
            if ok then read == Some((OutcomeParts(outcome), reader.rest)) else read.None?
  {
    outcome := Outcome(Counts(false, 0, 0), [], [], [], []);
    var counts, errors, checks, resets, processes;
    ok, counts := DecodeCounts(reader);
    if !ok { return; }
    ok, errors, checks, resets, processes := DecodeOutcomeLists(reader);
    outcome := Outcome(counts, errors, checks, resets, processes);
  }

  method DecodeOutcome(reader: BufferReader) returns (ok: bool, outcome: Outcome)
    requires reader.Valid()
    modifies reader
    ensures reader.Valid() && Took(OutcomeMessage(), old(reader.rest), ok, outcome, reader.rest)
  {
    Taken5(CountsCodec(), Many(Str(), 4096), Many(CheckCodec(), 4096), Many(Str(), 4096), Many(ProcessCodec(), 4096),
        reader.rest);
    ok, outcome := DecodeOutcomeParts(reader);
  }

  /** Decodes into an object whose four lists are kept: new items are pushed behind them. */
  method DecodeReconcileResult(reader: BufferReader, into: Outcome) returns (ok: bool, outcome: Outcome)
    requires reader.Valid()
    modifies reader
    ensures reader.Valid()
    ensures var decoded := Decode(OutcomeMessage(), old(reader.rest));
            if ok then decoded.Some? && outcome == Onto(into, decoded.value) else decoded.None?
  {
    var body;
    ok, body := DecodeOutcome(reader);
    outcome := Onto(into, body);
    ok := ok && reader.Done();
  }

  function OntoStatus(into: Status, decoded: Status): Status
  {
    decoded.(metrics := into.metrics + decoded.metrics)
  }

  function Onto(into: Outcome, decoded: Outcome): Outcome
  {
    Outcome(decoded.counts, into.errors + decoded.errors, into.checks + decoded.checks,
            into.resetDestinations + decoded.resetDestinations, into.restarted + decoded.restarted)
  }
}

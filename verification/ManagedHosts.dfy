/** The macOS writer of the managed block in the hosts file, and the resolver's reader of the same file. */
module ManagedHosts {
  import opened Common
  import opened HostsText

  const BEGIN := "# BEGIN NETPILOT MANAGED HOSTS v1"
  const END := "# END NETPILOT MANAGED HOSTS v1"
  const MAGIC := "NETPILOT MANAGED HOSTS"

  /******* Accepted mappings *******/

  predicate IsLetterOrDigit(c: char)
  {
    'a' <= c <= 'z' || 'A' <= c <= 'Z' || IsDigit(c)
  }

  predicate ValidLabel(piece: string)
  {
    && piece != "" && |piece| <= 63
    && piece[0] != '-' && piece[|piece| - 1] != '-'
    && forall c | c in piece :: IsLetterOrDigit(c) || c == '-'
  }

  predicate ValidOctet(octet: string)
  {
    && octet != "" && AllDigits(octet)
    && (|octet| == 1 || octet[0] != '0')
    && ToNat(octet) <= 255
  }

  predicate ValidIpv4(value: string)
  {
    var octets := Split(value, '.');
    |octets| == 4 && forall o | o in octets :: ValidOctet(o)
  }

  predicate HasSuffix(s: string, suffix: string)
  {
    |suffix| <= |s| && s[|s| - |suffix|..] == suffix
  }

  predicate ValidHost(host: string)
  {
    && host != "" && |host| <= 253
    && Lower(host) != "localhost" && Lower(host) != "broadcasthost"
    && !HasSuffix(Lower(host), ".localhost")
    && !ValidIpv4(host)
    && forall piece | piece in Split(host, '.') :: ValidLabel(piece)
  }

  /** One item of the request: something else than a host and an address, or the two texts. */
  datatype Item = Malformed | Mapping(host: string, ipv4: string)

  /** Exactly the accepted requests have a value: at most 1024 items, all valid, no host with two addresses. */
  function ParsePayload(items: seq<Item>): Option<map<string, string>>
  {
    if |items| > 1024 then None else ParseItems(items)
  }

  function ParseItems(items: seq<Item>): Option<map<string, string>>
  {
    if items == [] then Some(map[]) else
      var before := ParseItems(items[..|items| - 1]);
      var item := items[|items| - 1];
      if before.None? || item.Malformed? || !ValidHost(item.host) || !ValidIpv4(item.ipv4) then None else
        var host := Lower(item.host);
        if host in before.value && before.value[host] != item.ipv4 then None
        else Some(before.value[host := item.ipv4])
  }

  /** Every key is the lower-case spelling of an accepted host, every value an accepted address. */
  ghost predicate ValidDesired(desired: map<string, string>)
  {
    forall h | h in desired :: IsAcceptedHost(h) && ValidIpv4(desired[h])
  }

  ghost predicate IsAcceptedHost(h: string)
  {
    exists raw :: ValidHost(raw) && Lower(raw) == h
  }

  /******* Finding the block *******/

  datatype Kind = Plain | Begin | End | Foreign

  function TrimNewlines(line: string): string
    decreases |line|
  {
    if line != "" && IsNewline(line[|line| - 1]) then TrimNewlines(line[..|line| - 1])
    else if line != "" && IsNewline(line[0]) then TrimNewlines(line[1..])
    else line
  }

  predicate ContainsText(s: string, part: string)
  {
    part <= s || (s != "" && ContainsText(s[1..], part))
  }

  function KindOf(line: string): Kind
  {
    var text := TrimNewlines(line);
    if text == BEGIN then Begin
    else if text == END then End
    else if ContainsText(text, MAGIC) then Foreign
    else Plain
  }

  predicate AllPlain(lines: seq<string>)
  {
    forall l | l in lines :: KindOf(l) == Plain
  }

  datatype Layout = Layout(pre: seq<string>, block: seq<string>, post: seq<string>)

  /** At most one block, begun and ended, and no other line that looks like a marker. */
  function ParseBlock(lines: seq<string>): Option<Layout>
  {
    if lines == [] then Some(Layout([], [], [])) else
      match KindOf(lines[0])
      case Plain =>
        var rest := ParseBlock(lines[1..]);
        if rest.None? then None else Some(rest.value.(pre := [lines[0]] + rest.value.pre))
      case Begin =>
        var rest := ParseInside(lines[1..]);
        if rest.None? then None else Some(rest.value.(block := [lines[0]] + rest.value.block))
      case _ => None
  }

  function ParseInside(lines: seq<string>): Option<Layout>
  {
    if lines == [] then None else
      match KindOf(lines[0])
      case Plain =>
        var rest := ParseInside(lines[1..]);
        if rest.None? then None else Some(rest.value.(block := [lines[0]] + rest.value.block))
      case End => if AllPlain(lines[1..]) then Some(Layout([], [lines[0]], lines[1..])) else None
      case _ => None
  }

  /******* The rewrite *******/

  predicate Conflicting(line: string, desired: map<string, string>)
  {
    exists h :: h in Names(line) && h in desired && Address(line) != desired[h]
  }

  predicate AnyConflict(lines: seq<string>, desired: map<string, string>)
  {
    exists l :: l in lines && Conflicting(l, desired)
  }

  predicate Covers(lines: seq<string>, host: string)
  {
    exists l :: l in lines && host in Names(l)
  }

  function Remaining(lines: seq<string>, desired: map<string, string>): map<string, string>
  {
    map h | h in desired && !Covers(lines, h) :: desired[h]
  }

  ghost predicate IsLeast(keys: set<string>, key: string)
  {
    key in keys && forall k | k in keys :: !Precedes(k, key)
  }

  lemma {:induction false} LeastExists(keys: set<string>)
    requires keys != {}
    ensures exists key :: IsLeast(keys, key)
  {
    var some :| some in keys;
    var rest := keys - {some};
    if rest == {} {
      assert keys == {some};
      NotBefore(some);
      assert IsLeast(keys, some);
    } else {
      LeastExists(rest);
      var key :| IsLeast(rest, key);
      NotBefore(some);
      if Precedes(some, key) {
        forall k | k in keys ensures !Precedes(k, some) {
          if k != some && Precedes(k, some) {
            PrecedesTransitive(k, some, key);
          }
        }
        assert IsLeast(keys, some);
      } else {
        assert IsLeast(keys, key);
      }
    }
  }

  lemma NotBefore(s: string)
    ensures !Precedes(s, s)
  {
    if Precedes(s, s) {
      PrecedesAsymmetric(s, s);
    }
  }

  lemma LeastUnique(keys: set<string>, a: string, b: string)
    requires IsLeast(keys, a) && IsLeast(keys, b)
    ensures a == b
  {
    PrecedesTotal(a, b);
  }

  ghost function SortedKeys(keys: set<string>): (sorted: seq<string>)
    ensures forall k :: k in sorted <==> k in keys
  {
    if keys == {} then [] else
      LeastExists(keys);
      var key :| IsLeast(keys, key);
      [key] + SortedKeys(keys - {key})
  }

  function EntryLine(host: string, address: string): string
  {
    address + "\t" + host + "\n"
  }

  function EntryLines(keys: seq<string>, mappings: map<string, string>): (lines: seq<string>)
    requires forall k | k in keys :: k in mappings
    ensures forall l :: l in lines <==> exists k :: k in keys && l == EntryLine(k, mappings[k])
  {
    if keys == [] then [] else
      assert forall k :: k in keys <==> k == keys[0] || k in keys[1..];
      [EntryLine(keys[0], mappings[keys[0]])] + EntryLines(keys[1..], mappings)
  }

  ghost function BlockLines(mappings: map<string, string>): seq<string>
  {
    if mappings == map[] then [] else
      [BEGIN + "\n"] + EntryLines(SortedKeys(mappings.Keys), mappings) + [END + "\n"]
  }

  /** The new text, or None when the rewrite is refused. */
  ghost function UpdatedContent(original: string, desired: map<string, string>): Option<string>
  {
    var layout := ParseBlock(Lines(original));
    if layout.None? then None else
      var unmanaged := layout.value.pre + layout.value.post;
      if AnyConflict(unmanaged, desired) then None else
        var block := BlockLines(Remaining(unmanaged, desired));
        if layout.value.block != [] then
          Some(Join(layout.value.pre) + Join(block) + Join(layout.value.post))
        else if block == [] then Some(original)
        else Some(Append(original, (if original == "" || EndsLine(original) then "" else "\n") + Join(block)))
  }

  /** The text with the managed block cut out. */
  function Outside(text: string): string
    requires ParseBlock(Lines(text)).Some?
  {
    var layout := ParseBlock(Lines(text)).value;
    Join(layout.pre) + Join(layout.post)
  }

  /******* The reader *******/

  function PieceEnd(s: string): (n: nat)
    ensures n <= |s|
    ensures s != "" && !IsNewline(s[0]) ==> n > 0
    ensures forall i | 0 <= i < n :: !IsNewline(s[i])
    ensures n < |s| ==> IsNewline(s[n])
  {
    if s == "" || IsNewline(s[0]) then 0 else 1 + PieceEnd(s[1..])
  }

  /** `split(whereSeparator: \.isNewline)`: cut at every newline Character, drop empty pieces. */
  function Pieces(text: string): seq<string>
    decreases |text|
  {
    if text == "" then []
    else if IsNewline(text[0]) then Pieces(text[1..])
    else [text[..PieceEnd(text)]] + Pieces(text[PieceEnd(text)..])
  }

  function CollectOne(inetPton: string -> bool, name: string, line: string, found: seq<string>): seq<string>
  {
    if name in Names(line) && inetPton(Address(line)) && Address(line) !in found then found + [Address(line)] else found
  }

  function Collect(inetPton: string -> bool, name: string, lines: seq<string>, found: seq<string>): seq<string>
    decreases |lines|
  {
    if lines == [] then found
    else Collect(inetPton, name, lines[1..], CollectOne(inetPton, name, lines[0], found))
  }

  /** The addresses the hosts text gives a name. `inetPton` is the system's test for an IPv4 address. */
  function HostsAddresses(inetPton: string -> bool, host: string, contents: string): seq<string>
  {
    if Normalized(host) == "" then [] else Collect(inetPton, Normalized(host), Pieces(contents), [])
  }

  method ReadHostsAddresses(inetPton: string -> bool, host: string, contents: string) returns (addresses: seq<string>)
    ensures addresses == HostsAddresses(inetPton, host, contents)
  {
    var name := Normalized(host);
    if name == "" {
      return [];
    }
    addresses := [];
    var pieces := Pieces(contents);
    for i := 0 to |pieces|
      invariant Collect(inetPton, name, pieces[i..], addresses) == Collect(inetPton, name, pieces, [])
    {
      assert pieces[i..][1..] == pieces[i + 1..];
      var fields := Fields(pieces[i]);
      if |fields| >= 2 && (exists f | f in fields[1..] :: Normalized(f) == name) {
        if inetPton(fields[0]) && fields[0] !in addresses {
          addresses := addresses + [fields[0]];
        }
      }
    }
  }

  /******* The writer as the source runs it *******/

  lemma CutLine(text: string, cursor: nat, end: nat)
    requires cursor < |text| && end == cursor + LineEnd(text[cursor..])
    ensures cursor < end <= |text|
    ensures Lines(text[cursor..]) == [text[cursor..end]] + Lines(text[end..])
  {
    var rest, n := text[cursor..], LineEnd(text[cursor..]);
    assert rest[..n] == text[cursor..end];
    assert rest[n..] == text[end..];
  }

  method SplitLines(original: string) returns (lines: seq<string>)
    ensures lines == Lines(original)
  {
    lines := [];
    var cursor := 0;
    ghost var left := Lines(original);
    assert original[0..] == original;
    while cursor < |original|
      invariant cursor <= |original|
      invariant left == Lines(original[cursor..])
      invariant lines + left == Lines(original)
    {
      var end := cursor + LineEnd(original[cursor..]);
      CutLine(original, cursor, end);
      left := Lines(original[end..]);
      Snoc(lines, original[cursor..end], left);
      lines := lines + [original[cursor..end]];
      cursor := end;
    }
  }

  function Prepend(pre: seq<string>, rest: Option<Layout>): Option<Layout>
  {
    if rest.None? then None else Some(rest.value.(pre := pre + rest.value.pre))
  }

  function PrependBlock(pre: seq<string>, block: seq<string>, rest: Option<Layout>): Option<Layout>
  {
    if rest.None? then None else Some(rest.value.(pre := pre, block := block + rest.value.block))
  }

  lemma InsideHasNoPre(lines: seq<string>)
    ensures ParseInside(lines).Some? ==> ParseInside(lines).value.pre == []
  {
  }

  /** What the marker loop still has to find, given what it has seen: nothing, a begun block, or a whole block. */
  ghost predicate SeenNone(lines: seq<string>, i: nat)
    requires i <= |lines|
  {
    ParseBlock(lines) == Prepend(lines[..i], ParseBlock(lines[i..]))
  }

  ghost predicate SeenOpen(lines: seq<string>, i: nat, s: nat)
    requires i <= |lines|
  {
    s < i && ParseBlock(lines) == PrependBlock(lines[..s], lines[s..i], ParseInside(lines[i..]))
  }

  ghost predicate SeenWhole(lines: seq<string>, i: nat, s: nat, e: nat)
    requires i <= |lines|
  {
    s < e < i && ParseBlock(lines) ==
      if AllPlain(lines[i..]) then Some(Layout(lines[..s], lines[s..e + 1], lines[e + 1..])) else None
  }

  ghost predicate Seen(lines: seq<string>, i: nat, start: Option<nat>, end: Option<nat>)
    requires i <= |lines|
  {
    if start.None? then end.None? && SeenNone(lines, i)
    else if end.None? then SeenOpen(lines, i, start.value)
    else SeenWhole(lines, i, start.value, end.value)
  }

  lemma SeenAtStart(lines: seq<string>)
    ensures SeenNone(lines, 0)
  {
    assert lines[0..] == lines;
    var rest := ParseBlock(lines);
    if rest.Some? {
      assert lines[..0] + rest.value.pre == rest.value.pre;
    }
  }

  lemma AllPlainCons(lines: seq<string>)
    requires lines != []
    ensures AllPlain(lines) <==> KindOf(lines[0]) == Plain && AllPlain(lines[1..])
  {
    assert forall l :: l in lines <==> l == lines[0] || l in lines[1..];
  }

  ghost predicate SeenAfter(lines: seq<string>, i: nat, start: Option<nat>, end: Option<nat>)
    requires i < |lines|
  {
    match KindOf(lines[i])
    case Plain => Seen(lines, i + 1, start, end)
    case Begin => if start.None? && end.None? then Seen(lines, i + 1, Some(i), None) else ParseBlock(lines).None?
    case End => if start.Some? && end.None? then Seen(lines, i + 1, start, Some(i)) else ParseBlock(lines).None?
    case Foreign => ParseBlock(lines).None?
  }

  lemma SeenNothing(lines: seq<string>, i: nat)
    requires i < |lines| && Seen(lines, i, None, None)
    ensures SeenAfter(lines, i, None, None)
  {
    var tail := lines[i..];
    assert tail[0] == lines[i] && tail[1..] == lines[i + 1..];
    var rest := ParseBlock(lines[i + 1..]);
    if KindOf(lines[i]) == Plain {
      if rest.Some? {
        assert lines[..i] + ([lines[i]] + rest.value.pre) == lines[..i + 1] + rest.value.pre;
      }
    } else if KindOf(lines[i]) == Begin {
      InsideHasNoPre(lines[i + 1..]);
      assert lines[i..i + 1] == [lines[i]];
      assert lines[..i] + [] == lines[..i];
    }
  }

  lemma SeenBegin(lines: seq<string>, i: nat, s: nat)
    requires i < |lines| && Seen(lines, i, Some(s), None)
    ensures SeenAfter(lines, i, Some(s), None)
  {
    var tail := lines[i..];
    assert tail[0] == lines[i] && tail[1..] == lines[i + 1..];
    var inside := ParseInside(lines[i + 1..]);
    assert lines[s..i] + [lines[i]] == lines[s..i + 1];
    if KindOf(lines[i]) == Plain && inside.Some? {
      assert lines[s..i] + ([lines[i]] + inside.value.block) == lines[s..i + 1] + inside.value.block;
    }
  }

  lemma SeenBoth(lines: seq<string>, i: nat, s: nat, e: nat)
    requires i < |lines| && Seen(lines, i, Some(s), Some(e))
    ensures SeenAfter(lines, i, Some(s), Some(e))
  {
    var tail := lines[i..];
    assert tail[0] == lines[i] && tail[1..] == lines[i + 1..];
    AllPlainCons(tail);
  }

  lemma SeenStep(lines: seq<string>, i: nat, start: Option<nat>, end: Option<nat>)
    requires i < |lines| && Seen(lines, i, start, end)
    ensures SeenAfter(lines, i, start, end)
  {
    if start.None? {
      SeenNothing(lines, i);
    } else if end.None? {
      SeenBegin(lines, i, start.value);
    } else {
      SeenBoth(lines, i, start.value, end.value);
    }
  }

  lemma NothingLeft(lines: seq<string>)
    ensures lines[|lines|..] == [] && lines[..|lines|] == lines && AllPlain(lines[|lines|..])
  {
  }

  lemma SeenAllPlain(lines: seq<string>)
    requires SeenNone(lines, |lines|)
    ensures ParseBlock(lines) == Some(Layout(lines, [], []))
  {
    NothingLeft(lines);
    assert lines + [] == lines;
  }

  lemma SeenAllOpen(lines: seq<string>, start: nat)
    requires SeenOpen(lines, |lines|, start)
    ensures ParseBlock(lines).None?
  {
    NothingLeft(lines);
  }

  lemma SeenAllWhole(lines: seq<string>, start: nat, end: nat)
    requires SeenWhole(lines, |lines|, start, end)
    ensures start < end < |lines|
    ensures ParseBlock(lines) == Some(Layout(lines[..start], lines[start..end + 1], lines[end + 1..]))
  {
    NothingLeft(lines);
  }

  /** The marker loop: the positions of the block, or None for malformed markers. */
  method FindBlock(lines: seq<string>) returns (layout: Option<Layout>)
    ensures layout == ParseBlock(lines)
  {
    var start: Option<nat>, end: Option<nat> := None, None;
    SeenAtStart(lines);
    var i := 0;
    while i < |lines|
      invariant i <= |lines| && Seen(lines, i, start, end)
    {
      SeenStep(lines, i, start, end);
      var kind := KindOf(lines[i]);
      if kind == Begin {
        if start.Some? || end.Some? {
          return None;
        }
        start := Some(i);
      } else if kind == End {
        if start.None? || end.Some? {
          return None;
        }
        end := Some(i);
      } else if kind == Foreign {
        return None;
      }
      i := i + 1;
    }
    if start.Some? != end.Some? {
      SeenAllOpen(lines, start.value);
      return None;
    }
    if start.Some? {
      SeenAllWhole(lines, start.value, end.value);
      return Some(Layout(lines[..start.value], lines[start.value..end.value + 1], lines[end.value + 1..]));
    }
    SeenAllPlain(lines);
    layout := Some(Layout(lines, [], []));
  }

  lemma NamesByIndex(line: string)
    requires |Fields(line)| >= 2
    ensures forall h :: h in Names(line) <==> exists k :: 1 <= k < |Fields(line)| && Normalized(Fields(line)[k]) == h
  {
    var fields := Fields(line);
    forall h ensures h in Names(line) <==> exists k :: 1 <= k < |fields| && Normalized(fields[k]) == h {
      if h in Names(line) {
        var f :| f in fields[1..] && Normalized(f) == h;
        var k :| 0 <= k < |fields[1..]| && fields[1..][k] == f;
        assert fields[k + 1] == f;
      }
      if k :| 1 <= k < |fields| && Normalized(fields[k]) == h {
        assert fields[1..][k - 1] == fields[k];
      }
    }
  }

  /** One unmanaged line: strike the names it provides, or None if it contradicts a mapping. */
  method CheckLine(line: string, desired: map<string, string>, before: map<string, string>)
    returns (left: Option<map<string, string>>)
    requires before.Keys <= desired.Keys
    ensures left == if Conflicting(line, desired) then None else Some(before - Names(line))
  {
    var fields := Fields(line);
    if |fields| < 2 {
      assert before - {} == before;
      return Some(before);
    }
    NamesByIndex(line);
    ghost var done: set<string> := {};
    var rest := before;
    for j := 1 to |fields|
      invariant forall h :: h in done <==> exists k :: 1 <= k < j && Normalized(fields[k]) == h
      invariant forall h | h in done && h in desired :: fields[0] == desired[h]
      invariant rest.Keys <= before.Keys && forall h | h in rest :: rest[h] == before[h]
      invariant forall h | h in before :: h in rest <==> !(h in done && h in desired)
    {
      var host := Normalized(fields[j]);
      if host in desired {
        if fields[0] != desired[host] {
          assert host in Names(line) && Conflicting(line, desired);
          return None;
        }
        rest := rest - {host};
      }
      done := done + {host};
    }
    assert done == Names(line);
    assert rest == before - Names(line);
    left := Some(rest);
  }

  /** The name check: the mappings no unmanaged line provides, or None on a contradicting line. */
  method CheckUnmanaged(lines: seq<string>, desired: map<string, string>) returns (remaining: Option<map<string,
      string>>)
    ensures remaining == if AnyConflict(lines, desired) then None else Some(Remaining(lines, desired))
  {
    var left := desired;
    for i := 0 to |lines|
      invariant !AnyConflict(lines[..i], desired)
      invariant left == Remaining(lines[..i], desired)
    {
      var checked := CheckLine(lines[i], desired, left);
      OneMoreLine(lines[..i], lines[i], desired);
      assert lines[..i + 1] == lines[..i] + [lines[i]];
      if checked.None? {
        assert lines[i] in lines;
        return None;
      }
      left := checked.value;
    }
    assert lines[..|lines|] == lines;
    remaining := Some(left);
  }

  lemma OneMoreLine(lines: seq<string>, line: string, desired: map<string, string>)
    ensures AnyConflict(lines + [line], desired) <==> AnyConflict(lines, desired) || Conflicting(line, desired)
    ensures Remaining(lines + [line], desired) == Remaining(lines, desired) - Names(line)
  {
    var more := lines + [line];
    assert forall l :: l in more <==> l in lines || l == line;
    assert line in more;
    forall h ensures Covers(more, h) <==> Covers(lines, h) || h in Names(line) {
    }
  }

  method LeastKey(keys: set<string>) returns (key: string)
    requires keys != {}
    ensures IsLeast(keys, key)
  {
    key :| key in keys;
    NotBefore(key);
    var others := keys - {key};
    while others != {}
      invariant key in keys && others <= keys
      invariant forall k | k in keys - others :: !Precedes(k, key)
      decreases |others|
    {
      var k :| k in others;
      if Precedes(k, key) {
        forall o | o in keys - others ensures !Precedes(o, k) {
          if Precedes(o, k) {
            PrecedesTransitive(o, k, key);
          }
        }
        NotBefore(k);
        key := k;
      }
      others := others - {k};
    }
  }

  method SortKeys(keys: set<string>) returns (sorted: seq<string>)
    ensures sorted == SortedKeys(keys)
  {
    sorted := [];
    var rest := keys;
    while rest != {}
      invariant sorted + SortedKeys(rest) == SortedKeys(keys)
      decreases |rest|
    {
      var key := LeastKey(rest);
      LeastIsNext(rest, key);
      sorted := sorted + [key];
      rest := rest - {key};
    }
  }

  lemma LeastIsNext(keys: set<string>, key: string)
    requires IsLeast(keys, key)
    ensures SortedKeys(keys) == [key] + SortedKeys(keys - {key})
  {
    LeastExists(keys);
    var sorted := SortedKeys(keys);
    forall k | IsLeast(keys, k) ensures k == key {
      LeastUnique(keys, k, key);
    }
  }

  method BuildBlock(remaining: map<string, string>) returns (block: seq<string>)
    ensures block == BlockLines(remaining)
  {
    if remaining == map[] {
      return [];
    }
    var keys := SortKeys(remaining.Keys);
    block := [BEGIN + "\n"] + EntryLines(keys, remaining) + [END + "\n"];
  }

  method Update(original: string, desired: map<string, string>) returns (updated: Option<string>)
    ensures updated == UpdatedContent(original, desired)
  {
    var lines := SplitLines(original);
    var layout := FindBlock(lines);
    if layout.None? {
      return None;
    }
    var unmanaged := layout.value.pre + layout.value.post;
    var remaining := CheckUnmanaged(unmanaged, desired);
    if remaining.None? {
      return None;
    }
    var block := BuildBlock(remaining.value);
    if layout.value.block != [] {
      return Some(Join(layout.value.pre) + Join(block) + Join(layout.value.post));
    }
    if block == [] {
      return Some(original);
    }
    updated := Some(Append(original, (if original == "" || EndsLine(original) then "" else "\n") + Join(block)));
  }

  /******* The request *******/

  lemma {:induction false} RefusedStaysRefused(items: seq<Item>, i: nat)
    requires i <= |items| && ParseItems(items[..i]).None?
    ensures ParseItems(items).None?
  {
    if i == |items| {
      assert items[..i] == items;
    } else {
      assert items[..|items| - 1][..i] == items[..i];
      RefusedStaysRefused(items[..|items| - 1], i);
    }
  }

  method ParseRequest(items: seq<Item>) returns (desired: Option<map<string, string>>)
    ensures desired == ParsePayload(items)
  {
    if |items| > 1024 {
      return None;
    }
    var mappings: map<string, string> := map[];
    for i := 0 to |items|
      invariant ParseItems(items[..i]) == Some(mappings)
    {
      assert items[..i + 1][..i] == items[..i];
      var item := items[i];
      if item.Malformed? || !ValidHost(item.host) || !ValidIpv4(item.ipv4) {
        RefusedStaysRefused(items, i + 1);
        return None;
      }
      var host := Lower(item.host);
      if host in mappings && mappings[host] != item.ipv4 {
        RefusedStaysRefused(items, i + 1);
        return None;
      }
      mappings := mappings[host := item.ipv4];
    }
    assert items[..|items|] == items;
    desired := Some(mappings);
  }

  /** A request, and what the clock and the file system make of it. */
  datatype Call = Call(items: seq<Item>, expired: bool, readable: bool, writable: bool)

  datatype Outcome = Refused | Unchanged | Changed

  ghost function AfterCall(text: string, call: Call): (after: (string, Outcome))
  {
    var desired := ParsePayload(call.items);
    if call.expired || desired.None? || !call.readable then (text, Refused) else
      var updated := UpdatedContent(text, desired.value);
      if updated.None? then (text, Refused)
      else if updated.value == text then (text, Unchanged)
      else if call.writable then (updated.value, Changed)
      else (text, Refused)
  }

  class HostsFile {
    var text: string

    constructor (original: string)
      ensures text == original
    {
      text := original;
    }

    method Reconcile(call: Call) returns (outcome: Outcome)
      modifies this
      ensures (text, outcome) == AfterCall(old(text), call)
    {
      if call.expired {
        return Refused;
      }
      var desired := ParseRequest(call.items);
      if desired.None? || !call.readable {
        return Refused;
      }
      var replacement := Update(text, desired.value);
      if replacement.None? {
        return Refused;
      }
      if replacement.value == text {
        return Unchanged;
      }
      if !call.writable {
        return Refused;
      }
      text := replacement.value;
      outcome := Changed;
    }
  }
}

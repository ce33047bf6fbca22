/** What the rewrite of the hosts file guarantees. */
module HostsTheorems {
  import opened Common
  import opened HostsText
  import opened ManagedHosts

  /******* Accepted texts are safe to print *******/

  predicate IsHostChar(c: char)
  {
    IsLetterOrDigit(c) || c == '-'
  }

  /** A word the lexer reads back as itself. */
  predicate SafeWord(s: string)
  {
    s != "" && forall c | c in s :: IsHostChar(c) || c == '.'
  }

  lemma {:induction false} SplitIsSafe(s: string)
    requires forall p | p in Split(s, '.') :: p != "" && forall c | c in p :: IsHostChar(c)
    ensures SafeWord(s) && s[0] != '.' && s[|s| - 1] != '.'
    decreases |s|
  {
    if '.' !in s {
      assert s in Split(s, '.');
    } else {
      BeforeAfter(s, '.');
      var head, tail := Before(s, '.'), After(s, '.');
      assert Split(s, '.') == [head] + Split(tail, '.');
      assert head in Split(s, '.');
      forall p | p in Split(tail, '.') ensures p != "" && forall c | c in p :: IsHostChar(c) {
        assert p in Split(s, '.');
      }
      SplitIsSafe(tail);
      assert s[0] == head[0] && s[|s| - 1] == tail[|tail| - 1];
    }
  }

  lemma TrimDotsNothing(s: string)
    requires s != "" && s[0] != '.' && s[|s| - 1] != '.'
    ensures TrimDots(s) == s
  {
  }

  lemma LabelsAreSafe(raw: string)
    requires ValidHost(raw)
    ensures SafeWord(raw) && raw[0] != '.' && raw[|raw| - 1] != '.'
  {
    forall p | p in Split(raw, '.') ensures p != "" && forall c | c in p :: IsHostChar(c) {
      assert ValidLabel(p);
    }
    SplitIsSafe(raw);
  }

  lemma {:induction false} LowerTwice(s: string)
    ensures Lower(Lower(s)) == Lower(s)
  {
    if s != "" {
      LowerTwice(s[1..]);
    }
  }

  lemma LowerSafeChar(c: char)
    requires IsHostChar(c) || c == '.'
    ensures (IsHostChar(LowerChar(c)) || LowerChar(c) == '.') && (LowerChar(c) == '.' <==> c == '.')
  {
  }

  lemma LowerIsSafe(raw: string)
    requires SafeWord(raw) && raw[0] != '.' && raw[|raw| - 1] != '.'
    ensures SafeWord(Lower(raw)) && Lower(raw)[0] != '.' && Lower(raw)[|raw| - 1] != '.'
  {
    var h := Lower(raw);
    forall i | 0 <= i < |h| ensures (IsHostChar(h[i]) || h[i] == '.') && (h[i] == '.' <==> raw[i] == '.') {
      assert raw[i] in raw;
      LowerSafeChar(raw[i]);
    }
  }

  lemma AcceptedHost(h: string)
    requires IsAcceptedHost(h)
    ensures SafeWord(h) && Normalized(h) == h
  {
    var raw :| ValidHost(raw) && Lower(raw) == h;
    LabelsAreSafe(raw);
    LowerIsSafe(raw);
    LowerTwice(raw);
    TrimDotsNothing(h);
  }

  lemma AcceptedAddress(a: string)
    requires ValidIpv4(a)
    ensures SafeWord(a)
  {
    forall p | p in Split(a, '.') ensures p != "" && forall c | c in p :: IsHostChar(c) {
      assert ValidOctet(p);
    }
    SplitIsSafe(a);
  }

  /** An accepted request yields only accepted hosts and addresses. */
  lemma {:induction false} PayloadIsValid(items: seq<Item>)
    ensures ParseItems(items).Some? ==> ValidDesired(ParseItems(items).value)
  {
    if items != [] {
      PayloadIsValid(items[..|items| - 1]);
    }
  }

  /******* Which requests are accepted, and what they mean *******/

  predicate AcceptableItem(item: Item)
  {
    item.Mapping? && ValidHost(item.host) && ValidIpv4(item.ipv4)
  }

  /** The two items name one host, up to case, with different addresses. */
  predicate ItemsClash(a: Item, b: Item)
    requires a.Mapping? && b.Mapping?
  {
    Lower(a.host) == Lower(b.host) && a.ipv4 != b.ipv4
  }

  /** The request asks for this mapping. */
  predicate AsksFor(items: seq<Item>, host: string, address: string)
  {
    exists i :: 0 <= i < |items| && items[i].Mapping? && Lower(items[i].host) == host && items[i].ipv4 == address
  }

  predicate AcceptableItems(items: seq<Item>)
  {
    && (forall i | 0 <= i < |items| :: AcceptableItem(items[i]))
    && (forall i, j | 0 <= i < j < |items| :: !ItemsClash(items[i], items[j]))
  }

  /** The mappings are those the items ask for, and no others. */
  ghost predicate MeansItems(items: seq<Item>, mappings: map<string, string>)
  {
    forall h, a :: h in mappings && mappings[h] == a <==> AsksFor(items, h, a)
  }

  lemma AsksForSnoc(items: seq<Item>, host: string, address: string)
    requires items != []
    ensures AsksFor(items, host, address)
            <==> AsksFor(items[..|items| - 1], host, address)
                 || (var item := items[|items| - 1];
                     item.Mapping? && Lower(item.host) == host && item.ipv4 == address)
  {
    var front := items[..|items| - 1];
    if AsksFor(front, host, address) {
      var i :| 0 <= i < |front| && front[i].Mapping? && Lower(front[i].host) == host && front[i].ipv4 == address;
      assert items[i] == front[i];
    }
    if i :| 0 <= i < |items| && items[i].Mapping? && Lower(items[i].host) == host && items[i].ipv4 == address {
      if i < |front| {
        assert front[i] == items[i];
      }
    }
  }

  lemma AcceptableSnoc(items: seq<Item>)
    requires items != []
    ensures var front, item := items[..|items| - 1], items[|items| - 1];
            AcceptableItems(items)
            <==> && AcceptableItems(front) && AcceptableItem(item)
                 && forall i | 0 <= i < |front| :: front[i].Mapping? && !ItemsClash(front[i], item)
  {
    var front, item := items[..|items| - 1], items[|items| - 1];
    assert forall i | 0 <= i < |front| :: front[i] == items[i];
    if AcceptableItems(items) {
      forall i | 0 <= i < |front| ensures front[i].Mapping? && !ItemsClash(front[i], item) {
        assert AcceptableItem(items[i]) && !ItemsClash(items[i], items[|items| - 1]);
      }
      forall i, j | 0 <= i < j < |front|
        ensures front[i].Mapping? && front[j].Mapping? && !ItemsClash(front[i], front[j]) {
        assert AcceptableItem(items[i]) && AcceptableItem(items[j]) && !ItemsClash(items[i], items[j]);
      }
    }
  }

  /** One more item in front of known mappings. */
  lemma OneMoreItem(front: seq<Item>, item: Item, before: map<string, string>)
    requires AcceptableItems(front) && AcceptableItem(item) && MeansItems(front, before)
    ensures (Lower(item.host) in before && before[Lower(item.host)] != item.ipv4)
            <==> exists i :: 0 <= i < |front| && ItemsClash(front[i], item)
  {
    var host := Lower(item.host);
    if host in before && before[host] != item.ipv4 {
      assert AsksFor(front, host, before[host]);
      var i :| 0 <= i < |front| && front[i].Mapping? && Lower(front[i].host) == host && front[i].ipv4 == before[host];
      assert ItemsClash(front[i], item);
    }
    if i :| 0 <= i < |front| && ItemsClash(front[i], item) {
      assert AsksFor(front, host, front[i].ipv4);
    }
  }

  lemma {:induction false} ItemsExactly(items: seq<Item>)
    ensures ParseItems(items).Some? <==> AcceptableItems(items)
    ensures ParseItems(items).Some? ==> MeansItems(items, ParseItems(items).value)
  {
    if items != [] {
      var front, item := items[..|items| - 1], items[|items| - 1];
      ItemsExactly(front);
      AcceptableSnoc(items);
      if AcceptableItems(front) && AcceptableItem(item) {
        OneMoreItem(front, item, ParseItems(front).value);
        if ParseItems(items).Some? {
          MeansOneMore(items, ParseItems(front).value);
        }
      }
    }
  }

  lemma MeansOneMore(items: seq<Item>, before: map<string, string>)
    requires items != [] && MeansItems(items[..|items| - 1], before) && items[|items| - 1].Mapping?
    requires var item := items[|items| - 1];
             Lower(item.host) in before ==> before[Lower(item.host)] == item.ipv4
    ensures MeansItems(items, before[Lower(items[|items| - 1].host) := items[|items| - 1].ipv4])
  {
    var item := items[|items| - 1];
    var after := before[Lower(item.host) := item.ipv4];
    forall h, a ensures h in after && after[h] == a <==> AsksFor(items, h, a) {
      AsksForSnoc(items, h, a);
      assert h in before && before[h] == a <==> AsksFor(items[..|items| - 1], h, a);
    }
  }

  lemma KeysAreAsked(items: seq<Item>, mappings: map<string, string>)
    requires MeansItems(items, mappings)
    ensures forall h | h in mappings :: exists a :: AsksFor(items, h, a)
  {
    forall h | h in mappings ensures exists a :: AsksFor(items, h, a) {
      assert AsksFor(items, h, mappings[h]);
    }
  }

  /** A request is accepted if and only if it has at most 1024 items, each with an acceptable host and address, and no
      two of them give one host different addresses; and then it means exactly the mappings that some item asks for. */
  lemma RequestsExactly(items: seq<Item>)
    ensures ParsePayload(items).Some? <==> |items| <= 1024 && AcceptableItems(items)
    ensures ParsePayload(items).Some? ==> MeansItems(items, ParsePayload(items).value)
  {
    ItemsExactly(items);
  }

  /******* Lines of the block *******/

  lemma {:induction false} NoSpaceNoMagic(s: string)
    requires ' ' !in s
    ensures !ContainsText(s, MAGIC)
  {
    assert MAGIC[8] == ' ';
    assert forall i | 0 <= i < |s| :: s[i] != ' ';
    if s != "" {
      NoSpaceNoMagic(s[1..]);
    }
  }

  lemma TrimOneNewline(s: string)
    requires s != "" && !IsNewline(s[0]) && !IsNewline(s[|s| - 1])
    ensures TrimNewlines(s + "\n") == s && TrimNewlines(s) == s
  {
    assert (s + "\n")[..|s + "\n"| - 1] == s;
  }

  lemma MarkerKinds()
    ensures KindOf(BEGIN + "\n") == Begin && Terminated(BEGIN + "\n") && Names(BEGIN + "\n") == {}
    ensures KindOf(END + "\n") == End && Terminated(END + "\n") && Names(END + "\n") == {}
  {
    TrimOneNewline(BEGIN);
    TrimOneNewline(END);
    assert BEGIN[2] != END[2];
    CommentHasNoFields(BEGIN + "\n");
    CommentHasNoFields(END + "\n");
    assert (BEGIN + "\n")[..|BEGIN|] == BEGIN;
    assert (END + "\n")[..|END|] == END;
  }

  lemma SafeNotBlank(s: string)
    requires SafeWord(s)
    ensures forall c | c in s :: !IsBlank(c) && c != '#'
    ensures IsHostChar(s[0]) || s[0] == '.'
    ensures IsHostChar(s[|s| - 1]) || s[|s| - 1] == '.'
  {
    assert s[0] in s && s[|s| - 1] in s;
  }

  lemma EntryIsPlain(text: string)
    requires text != "" && ' ' !in text && '\n' !in text
    requires !IsNewline(text[0]) && !IsNewline(text[|text| - 1]) && text[0] != '#'
    ensures Terminated(text + "\n") && KindOf(text + "\n") == Plain
  {
    var line := text + "\n";
    assert line[..|line| - 1] == text;
    TrimOneNewline(text);
    NoSpaceNoMagic(text);
    assert BEGIN[0] == '#' && END[0] == '#';
  }

  lemma EntryFields(host: string, address: string)
    requires SafeWord(host) && SafeWord(address) && Normalized(host) == host
    ensures Fields(EntryLine(host, address)) == [address, host] && Names(EntryLine(host, address)) == {host}
  {
    SafeNotBlank(host);
    SafeNotBlank(address);
    var line := EntryLine(host, address);
    assert forall c | c in address + host :: c in address || c in host;
    TwoFields(address, host);
    assert Fields(line)[1..] == [host];
    assert Names(line) == {host};
  }

  lemma EntryText(host: string, address: string)
    requires SafeWord(host) && SafeWord(address)
    ensures var text := address + "\t" + host;
            && ' ' !in text && '\n' !in text
            && !IsNewline(text[0]) && !IsNewline(text[|text| - 1]) && text[0] != '#'
  {
    SafeNotBlank(host);
    SafeNotBlank(address);
    var text := address + "\t" + host;
    assert forall c | c in text :: c in address || c == '\t' || c in host;
    assert text[0] == address[0] && text[|text| - 1] == host[|host| - 1];
  }

  lemma EntryLineFacts(host: string, address: string)
    requires IsAcceptedHost(host) && ValidIpv4(address)
    ensures var line := EntryLine(host, address);
            Terminated(line) && KindOf(line) == Plain && Names(line) == {host} && Fields(line) == [address, host]
  {
    AcceptedHost(host);
    AcceptedAddress(address);
    var text := address + "\t" + host;
    assert EntryLine(host, address) == text + "\n";
    EntryText(host, address);
    EntryIsPlain(text);
    EntryFields(host, address);
  }

  ghost predicate IsEntry(line: string, mappings: map<string, string>)
  {
    exists k :: k in mappings && line == EntryLine(k, mappings[k])
  }

  /** A nonempty block: a begin marker, one line for every mapping, an end marker. */
  lemma BlockShape(mappings: map<string, string>)
    requires mappings != map[]
    ensures var block := BlockLines(mappings);
            && |block| >= 2
            && block[0] == BEGIN + "\n" && block[|block| - 1] == END + "\n"
            && (forall l :: l in block[1..|block| - 1] <==> IsEntry(l, mappings))
  {
    var block := BlockLines(mappings);
    assert block[1..|block| - 1] == EntryLines(SortedKeys(mappings.Keys), mappings);
  }

  /** What every line of a block is. */
  lemma BlockLineKinds(mappings: map<string, string>, l: string)
    requires mappings != map[] && l in BlockLines(mappings)
    ensures l == BEGIN + "\n" || l == END + "\n" || IsEntry(l, mappings)
  {
    BlockShape(mappings);
    var block := BlockLines(mappings);
    var i :| 0 <= i < |block| && block[i] == l;
    if 0 < i < |block| - 1 {
      assert block[1..|block| - 1][i - 1] == l;
    }
  }

  lemma EntryTerminated(mappings: map<string, string>, l: string)
    requires ValidDesired(mappings) && IsEntry(l, mappings)
    ensures Terminated(l)
  {
    var k :| k in mappings && l == EntryLine(k, mappings[k]);
    EntryLineFacts(k, mappings[k]);
  }

  lemma BlockTerminated(mappings: map<string, string>)
    requires ValidDesired(mappings)
    ensures AllTerminated(BlockLines(mappings))
    ensures mappings == map[] <==> BlockLines(mappings) == []
  {
    if mappings != map[] {
      MarkerKinds();
      forall l | l in BlockLines(mappings) ensures Terminated(l) {
        BlockLineKinds(mappings, l);
        if IsEntry(l, mappings) {
          EntryTerminated(mappings, l);
        }
      }
    }
  }

  lemma BlockMiddlePlain(mappings: map<string, string>)
    requires ValidDesired(mappings) && mappings != map[]
    ensures var block := BlockLines(mappings); |block| >= 2 && AllPlain(block[1..|block| - 1])
  {
    BlockShape(mappings);
    var middle := BlockLines(mappings)[1..|BlockLines(mappings)| - 1];
    forall l | l in middle ensures KindOf(l) == Plain {
      var k :| k in mappings && l == EntryLine(k, mappings[k]);
      EntryLineFacts(k, mappings[k]);
    }
  }

  /******* The shape of a parsed file *******/

  lemma AllPlainConcat(a: seq<string>, b: seq<string>)
    ensures AllPlain(a + b) <==> AllPlain(a) && AllPlain(b)
  {
    if AllPlain(a + b) {
      assert forall l | l in a :: l in a + b;
      assert forall l | l in b :: l in a + b;
    }
  }

  lemma {:induction false} InsideShape(lines: seq<string>)
    requires ParseInside(lines).Some?
    ensures var p := ParseInside(lines).value;
            p.pre == [] && p.block != [] && lines == p.block + p.post && AllPlain(p.post)
  {
    if KindOf(lines[0]) == Plain {
      InsideShape(lines[1..]);
      var rest := ParseInside(lines[1..]).value;
      Uncons([lines[0]] + rest.block, rest.post);
      assert lines == [lines[0]] + lines[1..];
    } else {
      assert lines == [lines[0]] + lines[1..];
    }
  }

  lemma FourParts(line: string, a: seq<string>, b: seq<string>, c: seq<string>)
    ensures [line] + (a + b + c) == ([line] + a) + b + c
  {
  }

  lemma ThreeParts(line: string, b: seq<string>, c: seq<string>)
    ensures [line] + (b + c) == [] + ([line] + b) + c
  {
  }

  lemma {:induction false} LayoutShape(lines: seq<string>)
    requires ParseBlock(lines).Some?
    ensures var p := ParseBlock(lines).value;
            && lines == p.pre + p.block + p.post
            && AllPlain(p.pre) && AllPlain(p.post)
            && (p.block == [] ==> p.post == [])
  {
    if lines != [] {
      var rest := lines[1..];
      assert lines == [lines[0]] + rest;
      if KindOf(lines[0]) == Plain {
        LayoutShape(rest);
        var p := ParseBlock(rest).value;
        AllPlainConcat([lines[0]], p.pre);
        FourParts(lines[0], p.pre, p.block, p.post);
      } else {
        InsideShape(rest);
        var p := ParseInside(rest).value;
        ThreeParts(lines[0], p.block, p.post);
      }
    }
  }

  lemma {:induction false} ParsePlain(lines: seq<string>)
    requires AllPlain(lines)
    ensures ParseBlock(lines) == Some(Layout(lines, [], []))
  {
    if lines != [] {
      AllPlainCons(lines);
      ParsePlain(lines[1..]);
      assert lines == [lines[0]] + lines[1..];
    }
  }

  lemma InsidePlain(line: string, rest: seq<string>, p: Layout)
    requires KindOf(line) == Plain && ParseInside(rest) == Some(p)
    ensures ParseInside([line] + rest) == Some(p.(block := [line] + p.block))
  {
    assert ([line] + rest)[1..] == rest;
  }

  lemma InsideEnd(end: string, post: seq<string>)
    requires KindOf(end) == End && AllPlain(post)
    ensures ParseInside([end] + post) == Some(Layout([], [end], post))
  {
    assert ([end] + post)[1..] == post;
  }

  lemma {:induction false} ParseInsideOf(middle: seq<string>, end: string, post: seq<string>)
    requires AllPlain(middle) && AllPlain(post) && KindOf(end) == End
    ensures ParseInside(middle + [end] + post) == Some(Layout([], middle + [end], post))
  {
    if middle == [] {
      InsideEnd(end, post);
      assert middle + [end] == [end];
    } else {
      AllPlainCons(middle);
      var rest := middle[1..] + [end];
      ParseInsideOf(middle[1..], end, post);
      InsidePlain(middle[0], rest + post, Layout([], rest, post));
      Uncons(middle, [end]);
      Concat([middle[0]], rest, post);
    }
  }

  lemma BlockPlain(line: string, rest: seq<string>, p: Layout)
    requires KindOf(line) == Plain && ParseBlock(rest) == Some(p)
    ensures ParseBlock([line] + rest) == Some(p.(pre := [line] + p.pre))
  {
    assert ([line] + rest)[1..] == rest;
  }

  lemma BlockBegin(begin: string, rest: seq<string>, p: Layout)
    requires KindOf(begin) == Begin && ParseInside(rest) == Some(p)
    ensures ParseBlock([begin] + rest) == Some(p.(block := [begin] + p.block))
  {
    assert ([begin] + rest)[1..] == rest;
  }

  lemma ParseBlockAlone(block: seq<string>, post: seq<string>)
    requires AllPlain(post)
    requires |block| >= 2 && KindOf(block[0]) == Begin && KindOf(block[|block| - 1]) == End
    requires AllPlain(block[1..|block| - 1])
    ensures ParseBlock(block + post) == Some(Layout([], block, post))
  {
    EndsOf(block);
    ParseBlockParts(block[0], block[1..|block| - 1], block[|block| - 1], post);
  }

  lemma EndsOf(block: seq<string>)
    requires |block| >= 2
    ensures block == [block[0]] + (block[1..|block| - 1] + [block[|block| - 1]])
  {
  }

  lemma ParseBlockParts(begin: string, middle: seq<string>, end: string, post: seq<string>)
    requires AllPlain(post) && AllPlain(middle) && KindOf(begin) == Begin && KindOf(end) == End
    ensures ParseBlock(([begin] + (middle + [end])) + post) == Some(Layout([], [begin] + (middle + [end]), post))
  {
    ParseInsideOf(middle, end, post);
    BlockBegin(begin, middle + [end] + post, Layout([], middle + [end], post));
    Concat([begin], middle + [end], post);
  }

  lemma {:induction false} ParseBlockOf(pre: seq<string>, block: seq<string>, post: seq<string>)
    requires AllPlain(pre) && AllPlain(post)
    requires |block| >= 2 && KindOf(block[0]) == Begin && KindOf(block[|block| - 1]) == End
    requires AllPlain(block[1..|block| - 1])
    ensures ParseBlock(pre + block + post) == Some(Layout(pre, block, post))
  {
    if pre == [] {
      ParseBlockAlone(block, post);
      assert pre + block == block;
    } else {
      AllPlainCons(pre);
      var rest := pre[1..] + block;
      ParseBlockOf(pre[1..], block, post);
      BlockPlain(pre[0], rest + post, Layout(pre[1..], block, post));
      Uncons(pre, block);
      Concat([pre[0]], rest, post);
      assert [pre[0]] + pre[1..] == pre;
    }
  }

  /******* Completing a cut-off last line changes no meaning *******/

  predicate SameMeaning(a: seq<string>, b: seq<string>)
  {
    |a| == |b| && forall i | 0 <= i < |a| :: KindOf(a[i]) == KindOf(b[i]) && Fields(a[i]) == Fields(b[i])
  }

  function Completed(lines: seq<string>): seq<string>
  {
    if lines == [] || Terminated(lines[|lines| - 1]) then lines
    else lines[..|lines| - 1] + [lines[|lines| - 1] + "\n"]
  }

  lemma CompletedLine(line: string)
    requires '\n' !in line
    ensures Terminated(line + "\n") && Fields(line + "\n") == Fields(line) && KindOf(line + "\n") == KindOf(line)
  {
    assert (line + "\n")[..|line + "\n"| - 1] == line;
    FieldsTrailingBlank(line, '\n');
    assert TrimNewlines(line + "\n") == TrimNewlines(line);
  }

  lemma CompletedText(front: seq<string>, last: string)
    ensures Join(front + [last + "\n"]) == Join(front + [last]) + "\n"
  {
    JoinConcat(front, [last]);
    JoinConcat(front, [last + "\n"]);
    assert Join([last]) == last + Join([]) == last;
    assert Join([last + "\n"]) == last + "\n" + Join([]) == last + "\n";
    assert Join(front) + (last + "\n") == Join(front) + last + "\n";
  }

  lemma CompletedFacts(lines: seq<string>)
    requires WellFormed(lines)
    ensures AllTerminated(Completed(lines)) && SameMeaning(Completed(lines), lines)
    ensures Join(Completed(lines)) == Join(lines) + (if Join(lines) == "" || EndsLine(Join(lines)) then "" else "\n")
  {
    if lines != [] {
      JoinEndsLine(lines);
      var front, last := lines[..|lines| - 1], lines[|lines| - 1];
      assert lines == front + [last];
      if !Terminated(last) {
        CompletedLine(last);
        CompletedText(front, last);
      }
    }
  }

  lemma SamePlain(a: seq<string>, b: seq<string>)
    requires SameMeaning(a, b) && AllPlain(b)
    ensures AllPlain(a)
  {
  }

  /** Lines of the second list that matter have a counterpart in the first. */
  lemma Counterpart(a: seq<string>, b: seq<string>, line: string) returns (other: string)
    requires SameMeaning(a, b) && line in b
    ensures other in a && Fields(other) == Fields(line)
  {
    var i :| 0 <= i < |b| && b[i] == line;
    other := a[i];
  }

  lemma SameMeaningSymmetric(a: seq<string>, b: seq<string>)
    requires SameMeaning(a, b)
    ensures SameMeaning(b, a)
  {
  }

  lemma ConflictCarries(a: seq<string>, b: seq<string>, desired: map<string, string>)
    requires SameMeaning(a, b) && AnyConflict(b, desired)
    ensures AnyConflict(a, desired)
  {
    var l :| l in b && Conflicting(l, desired);
    var other := Counterpart(a, b, l);
    var h :| h in Names(l) && h in desired && Address(l) != desired[h];
    assert h in Names(other) && Address(other) != desired[h];
    assert Conflicting(other, desired);
  }

  lemma CoverCarries(a: seq<string>, b: seq<string>, host: string)
    requires SameMeaning(a, b) && Covers(b, host)
    ensures Covers(a, host)
  {
    var l :| l in b && host in Names(l);
    var other := Counterpart(a, b, l);
    assert host in Names(other);
  }

  lemma SameCover(a: seq<string>, b: seq<string>, desired: map<string, string>)
    requires SameMeaning(a, b)
    ensures AnyConflict(a, desired) <==> AnyConflict(b, desired)
    ensures Remaining(a, desired) == Remaining(b, desired)
  {
    SameMeaningSymmetric(a, b);
    if AnyConflict(a, desired) {
      ConflictCarries(b, a, desired);
    }
    if AnyConflict(b, desired) {
      ConflictCarries(a, b, desired);
    }
    forall h ensures Covers(a, h) <==> Covers(b, h) {
      if Covers(a, h) {
        CoverCarries(b, a, h);
      }
      if Covers(b, h) {
        CoverCarries(a, b, h);
      }
    }
  }

  /** The rewritten file as lines: what surrounds the block, and the block. */
  ghost function ResultLayout(layout: Layout, desired: map<string, string>): Layout
  {
    var block := BlockLines(Remaining(layout.pre + layout.post, desired));
    if block == [] then Layout(layout.pre + layout.post, [], [])
    else if layout.block != [] then Layout(layout.pre, block, layout.post)
    else Layout(Completed(layout.pre), block, [])
  }

  function All(layout: Layout): seq<string>
  {
    layout.pre + layout.block + layout.post
  }

  lemma RemainingValid(lines: seq<string>, desired: map<string, string>)
    requires ValidDesired(desired)
    ensures ValidDesired(Remaining(lines, desired))
  {
  }

  lemma JoinAll(layout: Layout)
    ensures Join(All(layout)) == Join(layout.pre) + Join(layout.block) + Join(layout.post)
  {
    JoinConcat(layout.pre + layout.block, layout.post);
    JoinConcat(layout.pre, layout.block);
  }

  lemma SurroundingsWellFormed(layout: Layout)
    requires WellFormed(All(layout))
    requires layout.block == [] ==> layout.post == []
    ensures WellFormed(layout.pre) && WellFormed(layout.post)
    ensures layout.block != [] ==> AllTerminated(layout.pre)
    ensures WellFormed(layout.pre + layout.post)
  {
    WellFormedSplit(layout.pre + layout.block, layout.post);
    WellFormedSplit(layout.pre, layout.block);
    if layout.block != [] {
      WellFormedConcat(layout.pre, layout.post);
    } else {
      assert layout.pre + layout.post == layout.pre;
    }
  }

  lemma ResultIsWellFormed(layout: Layout, desired: map<string, string>)
    requires ValidDesired(desired) && WellFormed(All(layout))
    requires layout.block == [] ==> layout.post == []
    ensures WellFormed(All(ResultLayout(layout, desired)))
  {
    var remaining := Remaining(layout.pre + layout.post, desired);
    var block := BlockLines(remaining);
    SurroundingsWellFormed(layout);
    RemainingValid(layout.pre + layout.post, desired);
    BlockTerminated(remaining);
    if block == [] {
      assert All(ResultLayout(layout, desired)) == layout.pre + layout.post;
    } else if layout.block != [] {
      Sandwich(layout.pre, block, layout.post);
    } else {
      CompletedFacts(layout.pre);
      Sandwich(Completed(layout.pre), block, []);
    }
  }

  lemma Sandwich(pre: seq<string>, block: seq<string>, post: seq<string>)
    requires AllTerminated(pre) && AllTerminated(block) && WellFormed(post)
    ensures WellFormed(pre + block + post)
  {
    WellFormedConcat(block, post);
    WellFormedConcat(pre, block + post);
    assert pre + block + post == pre + (block + post);
  }

  /** The block that a rewrite puts into the file. */
  ghost function NewBlock(original: string, desired: map<string, string>): seq<string>
    requires ParseBlock(Lines(original)).Some?
  {
    var layout := ParseBlock(Lines(original)).value;
    BlockLines(Remaining(layout.pre + layout.post, desired))
  }

  /** A first block is appended to a file that ends with a carriage return by itself: the line feed meant to complete
      the last line becomes one Character with it, and the begin marker ends up in that line. */
  ghost predicate Glues(original: string, desired: map<string, string>)
  {
    && ParseBlock(Lines(original)).Some? && ParseBlock(Lines(original)).value.block == []
    && EndsReturn(original) && NewBlock(original, desired) != []
  }

  lemma AppendedText(original: string, block: string)
    requires !EndsReturn(original)
    ensures Append(original, (if original == "" || EndsLine(original) then "" else "\n") + block)
            == original + (if original == "" || EndsLine(original) then "" else "\n") + block
  {
    Concat(original, if original == "" || EndsLine(original) then "" else "\n", block);
  }

  lemma ResultText(original: string, desired: map<string, string>)
    requires UpdatedContent(original, desired).Some? && !Glues(original, desired)
    ensures ParseBlock(Lines(original)).Some?
    ensures UpdatedContent(original, desired).value == Join(All(ResultLayout(ParseBlock(Lines(original)).value,
        desired)))
  {
    var layout := ParseBlock(Lines(original)).value;
    JoinAll(ResultLayout(layout, desired));
    if layout.block != [] {
      ReplacedText(layout, desired);
    } else {
      BlocklessLines(original);
      FirstBlockText(original, layout.pre, NewBlock(original, desired));
    }
  }

  lemma ReplacedText(layout: Layout, desired: map<string, string>)
    requires layout.block != []
    ensures var result := ResultLayout(layout, desired);
            Join(result.pre) + Join(result.block) + Join(result.post)
            == Join(layout.pre) + Join(BlockLines(Remaining(layout.pre + layout.post, desired))) + Join(layout.post)
  {
    JoinConcat(layout.pre, layout.post);
    NothingBetween(Join(layout.pre), Join(layout.post));
  }

  lemma NothingBetween(a: string, b: string)
    ensures (a + b) + Join([]) + Join([]) == a + Join([]) + b
  {
    assert Join([]) == "";
  }

  lemma FirstBlockText(original: string, pre: seq<string>, block: seq<string>)
    requires WellFormed(pre) && Join(pre) == original && !(EndsReturn(original) && block != [])
    ensures Join(pre) + Join([]) + Join([]) == original
    ensures block != [] ==>
      Join(Completed(pre)) + Join(block) + Join([])
      == Append(original, (if original == "" || EndsLine(original) then "" else "\n") + Join(block))
  {
    assert Join([]) == "";
    CompletedFacts(pre);
    if block != [] {
      AppendedText(original, Join(block));
    }
  }

  lemma ResultParses(layout: Layout, desired: map<string, string>)
    requires ValidDesired(desired) && AllPlain(layout.pre) && AllPlain(layout.post) && WellFormed(layout.pre)
    ensures ParseBlock(All(ResultLayout(layout, desired))) == Some(ResultLayout(layout, desired))
  {
    var remaining := Remaining(layout.pre + layout.post, desired);
    var result := ResultLayout(layout, desired);
    RemainingValid(layout.pre + layout.post, desired);
    BlockTerminated(remaining);
    if result.block == [] {
      AllPlainConcat(layout.pre, layout.post);
      assert All(result) == layout.pre + layout.post;
      ParsePlain(layout.pre + layout.post);
    } else {
      BlockShape(remaining);
      BlockMiddlePlain(remaining);
      MarkerKinds();
      CompletedFacts(layout.pre);
      SamePlain(Completed(layout.pre), layout.pre);
      ParseBlockOf(result.pre, result.block, result.post);
    }
  }

  lemma RelexUnlessGlued(original: string, desired: map<string, string>)
    requires ValidDesired(desired) && UpdatedContent(original, desired).Some? && !Glues(original, desired)
    ensures ParseBlock(Lines(original)).Some?
    ensures var result := ResultLayout(ParseBlock(Lines(original)).value, desired);
            && Lines(UpdatedContent(original, desired).value) == All(result)
            && ParseBlock(All(result)) == Some(result)
  {
    var layout := ParseBlock(Lines(original)).value;
    LayoutShape(Lines(original));
    LinesWellFormed(original);
    SurroundingsWellFormed(layout);
    ResultText(original, desired);
    ResultIsWellFormed(layout, desired);
    LinesOfJoin(All(ResultLayout(layout, desired)));
    ResultParses(layout, desired);
  }

  lemma UnmanagedKept(layout: Layout, desired: map<string, string>)
    requires WellFormed(layout.pre) && (layout.block == [] ==> layout.post == [])
    ensures var result := ResultLayout(layout, desired);
            SameMeaning(result.pre + result.post, layout.pre + layout.post)
  {
    var result := ResultLayout(layout, desired);
    if result.block == [] {
      assert result.pre + result.post == layout.pre + layout.post;
    } else if layout.block == [] {
      CompletedFacts(layout.pre);
      assert result.pre + result.post == Completed(layout.pre) && layout.pre + layout.post == layout.pre;
    }
  }

  /******* The glued rewrite *******/

  predicate AllNewlines(text: string)
  {
    forall c | c in text :: IsNewline(c)
  }

  /** What trimming leaves of a line that ends with a marker and was begun by `head`. */
  lemma {:induction false} TrimBehind(head: string, marker: string)
    requires marker != "" && !IsNewline(marker[0]) && !IsNewline(marker[|marker| - 1])
    ensures var text := TrimNewlines(head + marker);
            if AllNewlines(head) then text == marker
            else exists k :: 0 <= k < |head| && text == head[k..] + marker
    decreases |head|
  {
    var text := head + marker;
    assert text[|text| - 1] == marker[|marker| - 1];
    if head == "" {
      assert text == marker;
    } else if IsNewline(head[0]) {
      assert text[1..] == head[1..] + marker;
      assert AllNewlines(head) <==> AllNewlines(head[1..]) by {
        assert head == [head[0]] + head[1..];
      }
      TrimBehind(head[1..], marker);
      if !AllNewlines(head) {
        var k :| 0 <= k < |head[1..]| && TrimNewlines(text[1..]) == head[1..][k..] + marker;
        assert head[1..][k..] == head[k + 1..];
      }
    } else {
      assert head[0] in head;
      assert head[0..] == head;
    }
  }

  lemma {:induction false} ContainsBehind(a: string, b: string, part: string)
    requires ContainsText(b, part)
    ensures ContainsText(a + b, part)
  {
    if a == "" {
      assert a + b == b;
    } else {
      assert (a + b)[1..] == a[1..] + b;
      ContainsBehind(a[1..], b, part);
    }
  }

  lemma BeginEnds()
    ensures BEGIN != "" && !IsNewline(BEGIN[0]) && !IsNewline(BEGIN[|BEGIN| - 1]) && BEGIN[0] == '#'
    ensures |END| < |BEGIN|
  {
  }

  lemma BeginSpelled()
    ensures BEGIN == "# BEGIN " + (MAGIC + " v1")
  {
  }

  lemma ContainsBetween(a: string, part: string, b: string)
    ensures ContainsText(a + (part + b), part)
  {
    assert part <= part + b;
    ContainsBehind(a, part + b, part);
  }

  lemma ContainsMagic(text: string, head: string)
    requires text == head + BEGIN
    ensures ContainsText(text, MAGIC)
  {
    BeginSpelled();
    Concat(head, "# BEGIN ", MAGIC + " v1");
    ContainsBetween(head + "# BEGIN ", MAGIC, " v1");
  }

  /** A longer text that ends with the begin marker is none itself. */
  lemma LongerIsForeign(line: string, head: string)
    requires head != "" && TrimNewlines(line) == head + BEGIN
    ensures KindOf(line) == Foreign
  {
    BeginEnds();
    ContainsMagic(TrimNewlines(line), head);
  }

  /** The line that the begin marker ends up in. */
  lemma GluedKind(head: string)
    requires head != ""
    ensures KindOf(head + BEGIN + "\n") == if AllNewlines(head) then Begin else Foreign
  {
    BeginEnds();
    var text := head + BEGIN;
    TrimOneFeed(text);
    TrimBehind(head, BEGIN);
    if AllNewlines(head) {
      assert TrimNewlines(text + "\n") == BEGIN;
    } else {
      var k :| 0 <= k < |head| && TrimNewlines(text) == head[k..] + BEGIN;
      LongerIsForeign(text + "\n", head[k..]);
    }
  }

  lemma TrimOneFeed(text: string)
    ensures TrimNewlines(text + "\n") == TrimNewlines(text)
  {
    assert (text + "\n")[..|text|] == text;
  }

  lemma {:induction false} ForeignRefuses(lines: seq<string>, line: string)
    requires line in lines && KindOf(line) == Foreign
    ensures ParseBlock(lines).None? && ParseInside(lines).None?
  {
    if lines[0] != line {
      assert line in lines[1..];
      ForeignRefuses(lines[1..], line);
      assert !AllPlain(lines[1..]);
    }
  }

  /** The lines of a file to whose end a block is glued: `head` is the last line, its carriage return now CRLF. */
  ghost predicate GluedLines(original: string, front: seq<string>, last: string, head: string)
  {
    && Lines(original) == front + [last] && AllTerminated(front) && AllPlain(front) && '\n' !in last
    && original == Join(front) + last && EndsReturn(last) && head == last[..|last| - 1] + [CRLF]
  }

  /** A file without a block: all lines are in front of where one would be. */
  lemma BlocklessLines(original: string)
    requires ParseBlock(Lines(original)).Some? && ParseBlock(Lines(original)).value.block == []
    ensures var layout := ParseBlock(Lines(original)).value;
            && layout.pre == Lines(original) && layout.post == [] && layout.pre + layout.post == layout.pre
            && AllPlain(layout.pre) && WellFormed(layout.pre) && Join(layout.pre) == original
  {
    LayoutShape(Lines(original));
    JoinOfLines(original);
    LinesWellFormed(original);
    var layout := ParseBlock(Lines(original)).value;
    assert layout.pre + [] + [] == layout.pre;
  }

  lemma LastLineOf(lines: seq<string>) returns (front: seq<string>, last: string)
    requires WellFormed(lines) && AllPlain(lines) && EndsReturn(Join(lines))
    ensures lines == front + [last] && AllTerminated(front) && AllPlain(front)
    ensures Join(lines) == Join(front) + last && EndsReturn(last) && '\n' !in last
  {
    assert lines != [];
    front, last := lines[..|lines| - 1], lines[|lines| - 1];
    assert lines == front + [last];
    JoinConcat(front, [last]);
    assert Join([last]) == last + Join([]) == last;
    AllPlainConcat(front, [last]);
    assert last[|last| - 1] == Join(lines)[|Join(lines)| - 1];
  }

  /** A block that is not empty: a begin marker, plain lines and an end marker, all complete. */
  predicate IsBlock(block: seq<string>)
  {
    && |block| >= 2 && block[0] == BEGIN + "\n" && KindOf(block[|block| - 1]) == End
    && AllPlain(block[1..|block| - 1]) && AllTerminated(block)
  }

  lemma BlockIsBlock(mappings: map<string, string>)
    requires ValidDesired(mappings) && BlockLines(mappings) != []
    ensures IsBlock(BlockLines(mappings))
  {
    BlockShape(mappings);
    BlockTerminated(mappings);
    BlockMiddlePlain(mappings);
    MarkerKinds();
  }

  lemma GluedParts(original: string, desired: map<string, string>)
    returns (front: seq<string>, last: string, head: string, block: seq<string>)
    requires ValidDesired(desired) && UpdatedContent(original, desired).Some? && Glues(original, desired)
    ensures block == NewBlock(original, desired) && IsBlock(block)
    ensures GluedLines(original, front, last, head)
    ensures UpdatedContent(original, desired).value == Join(front) + head + Join(block)
  {
    BlocklessLines(original);
    var lines := ParseBlock(Lines(original)).value.pre;
    front, last := LastLineOf(lines);
    head := last[..|last| - 1] + [CRLF];
    block := NewBlock(original, desired);
    RemainingValid(lines, desired);
    BlockIsBlock(Remaining(lines, desired));
    GluedText(original, front, last, Join(block));
  }

  lemma GluedText(original: string, front: seq<string>, last: string, block: string)
    requires original == Join(front) + last && EndsReturn(last)
    ensures Append(original, (if original == "" || EndsLine(original) then "" else "\n") + block)
            == Join(front) + (last[..|last| - 1] + [CRLF]) + block
  {
    assert original[|original| - 1] == '\r';
    assert ("\n" + block)[1..] == block;
    assert original[..|original| - 1] == Join(front) + last[..|last| - 1];
  }

  /** The line feed is gone, so the marker is part of the last line. */
  lemma GluedRelex(original: string, front: seq<string>, last: string, head: string, block: seq<string>)
    requires GluedLines(original, front, last, head) && IsBlock(block)
    ensures Lines(Join(front) + head + Join(block)) == front + [head + BEGIN + "\n"] + block[1..]
  {
    var line := head + BEGIN + "\n";
    GluedLineEnds(head, last);
    GluedTerminated(front, line, block);
    LinesOfJoin(front + [line] + block[1..]);
    GluedJoin(front, head, block);
  }

  lemma GluedTerminated(front: seq<string>, line: string, block: seq<string>)
    requires AllTerminated(front) && Terminated(line) && AllTerminated(block) && block != []
    ensures WellFormed(front + [line] + block[1..])
  {
    var lines := front + [line] + block[1..];
    assert forall l | l in block[1..] :: l in block;
    assert AllTerminated(lines);
    assert lines[|lines| - 1] in lines;
  }

  lemma GluedJoin(front: seq<string>, head: string, block: seq<string>)
    requires block != [] && block[0] == BEGIN + "\n"
    ensures Join(front + [head + BEGIN + "\n"] + block[1..]) == Join(front) + head + Join(block)
  {
    var line := head + BEGIN + "\n";
    JoinConcat(front + [line], block[1..]);
    JoinConcat(front, [line]);
    assert Join([line]) == line + Join([]) == line;
    GluedGroups(Join(front), head, Join(block[1..]));
  }

  lemma GluedGroups(front: string, head: string, rest: string)
    ensures front + (head + BEGIN + "\n") + rest == front + head + ((BEGIN + "\n") + rest)
  {
    Concat(head, BEGIN, "\n");
    Concat(front, head, BEGIN + "\n");
    Concat(front + head, BEGIN + "\n", rest);
  }

  lemma GluedLineEnds(head: string, last: string)
    requires EndsReturn(last) && '\n' !in last && head == last[..|last| - 1] + [CRLF]
    ensures Terminated(head + BEGIN + "\n")
  {
    MarkerKinds();
    var line := head + BEGIN + "\n";
    assert line[..|line| - 1] == head + BEGIN;
    assert (BEGIN + "\n")[..|BEGIN|] == BEGIN && '\n' !in BEGIN;
    assert '\n' !in last[..|last| - 1];
  }

  /** What becomes of a glued file: it is refused from then on, or the last line is taken for part of the block. */
  lemma GluedParse(original: string, desired: map<string, string>)
    returns (front: seq<string>, last: string, head: string, block: seq<string>)
    requires ValidDesired(desired) && UpdatedContent(original, desired).Some? && Glues(original, desired)
    ensures block == NewBlock(original, desired) && IsBlock(block) && GluedLines(original, front, last, head)
    ensures UpdatedContent(original, desired).value == Join(front) + head + Join(block)
    ensures ParseBlock(Lines(Join(front) + head + Join(block)))
            == if !AllNewlines(last) then None else Some(Layout(front, [head + BEGIN + "\n"] + block[1..], []))
  {
    front, last, head, block := GluedParts(original, desired);
    GluedRelex(original, front, last, head, block);
    GluedKind(head);
    SameNewlines(last, head);
    GluedLayout(front, head + BEGIN + "\n", block);
  }

  lemma SameNewlines(last: string, head: string)
    requires EndsReturn(last) && head == last[..|last| - 1] + [CRLF]
    ensures AllNewlines(last) <==> AllNewlines(head)
  {
    assert last == last[..|last| - 1] + ['\r'];
  }

  lemma GluedLayout(front: seq<string>, line: string, block: seq<string>)
    requires AllPlain(front) && IsBlock(block) && (KindOf(line) == Begin || KindOf(line) == Foreign)
    ensures ParseBlock(front + [line] + block[1..])
            == if KindOf(line) == Foreign then None else Some(Layout(front, [line] + block[1..], []))
  {
    if KindOf(line) == Foreign {
      assert (front + [line] + block[1..])[|front|] == line;
      ForeignRefuses(front + [line] + block[1..], line);
    } else {
      var whole := [line] + block[1..];
      MiddleOf(line, block);
      ParseBlockOf(front, whole, []);
      Concat(front, [line], block[1..]);
      assert front + whole + [] == front + whole;
    }
  }

  lemma MiddleOf(line: string, block: seq<string>)
    requires |block| >= 2
    ensures var whole := [line] + block[1..];
            && |whole| == |block| && whole[|whole| - 1] == block[|block| - 1]
            && whole[1..|whole| - 1] == block[1..|block| - 1]
  {
  }

  /** The text outside the block has lost its last line, if the file is still read at all. */
  lemma GluedOutside(original: string, desired: map<string, string>)
    requires ValidDesired(desired) && UpdatedContent(original, desired).Some? && Glues(original, desired)
    ensures var updated := UpdatedContent(original, desired).value;
            ParseBlock(Lines(updated)).Some? ==> |Outside(updated)| < |original|
    ensures Outside(original) == original
  {
    var front, last, head, block := GluedParse(original, desired);
    BlocklessLines(original);
    NothingBehind(Lines(original));
    NothingBehind(front);
  }

  /** Relexing the rewritten text finds exactly the layout the writer meant, unless the block is glued to the file. */
  lemma Relex(original: string, desired: map<string, string>)
    requires ValidDesired(desired) && UpdatedContent(original, desired).Some?
    ensures ParseBlock(Lines(original)).Some?
    ensures var result := ResultLayout(ParseBlock(Lines(original)).value, desired);
            (&& Lines(UpdatedContent(original, desired).value) == All(result)
             && ParseBlock(All(result)) == Some(result))
            <==> !Glues(original, desired)
  {
    if Glues(original, desired) {
      var front, last, head, block := GluedParse(original, desired);
      BlocklessLines(original);
      var result := ResultLayout(ParseBlock(Lines(original)).value, desired);
      GluedLineDiffers(head);
      assert ParseBlock(All(result)) == Some(result)
          ==> ParseBlock(Lines(Join(front) + head + Join(block))) != Some(result) by {
        assert result.block == block && block[0] != ([head + BEGIN + "\n"] + block[1..])[0];
      }
    } else {
      RelexUnlessGlued(original, desired);
    }
  }

  lemma GluedLineDiffers(head: string)
    requires head != ""
    ensures BEGIN + "\n" != head + BEGIN + "\n"
  {
    assert |head + BEGIN + "\n"| > |BEGIN + "\n"|;
  }

  /******* Idempotence *******/

  /** What a rewrite makes of a parsed file that has a block. */
  lemma Replaced(text: string, desired: map<string, string>, pre: seq<string>, block: seq<string>, post: seq<string>)
    requires ParseBlock(Lines(text)) == Some(Layout(pre, block, post)) && block != []
    ensures UpdatedContent(text, desired)
            == if AnyConflict(pre + post, desired) then None
               else Some(Join(pre) + Join(BlockLines(Remaining(pre + post, desired))) + Join(post))
  {
  }

  /** A file without a block to which none is added stays as it is. */
  lemma Unreplaced(text: string, desired: map<string, string>, pre: seq<string>)
    requires ParseBlock(Lines(text)) == Some(Layout(pre, [], []))
    requires !AnyConflict(pre + [], desired) && BlockLines(Remaining(pre + [], desired)) == []
    ensures UpdatedContent(text, desired) == Some(text)
  {
  }

  lemma SettledUnlessGlued(original: string, desired: map<string, string>)
    requires ValidDesired(desired) && UpdatedContent(original, desired).Some? && !Glues(original, desired)
    ensures var updated := UpdatedContent(original, desired).value;
            UpdatedContent(updated, desired) == Some(updated)
  {
    var updated := UpdatedContent(original, desired).value;
    var layout := ParseBlock(Lines(original)).value;
    var result := ResultLayout(layout, desired);
    RelexUnlessGlued(original, desired);
    LayoutShape(Lines(original));
    LinesWellFormed(original);
    SurroundingsWellFormed(layout);
    UnmanagedKept(layout, desired);
    SameCover(result.pre + result.post, layout.pre + layout.post, desired);
    ResultText(original, desired);
    JoinAll(result);
    if result.block == [] {
      Unreplaced(updated, desired, result.pre);
    } else {
      Replaced(updated, desired, result.pre, result.block, result.post);
    }
  }

  lemma GluedDoesNotSettle(original: string, desired: map<string, string>, again: map<string, string>)
    requires ValidDesired(desired) && UpdatedContent(original, desired).Some? && Glues(original, desired)
    ensures var updated := UpdatedContent(original, desired).value;
            UpdatedContent(updated, again) != Some(updated) && UpdatedContent(updated, again) != Some(original)
  {
    var front, last, head, block := GluedParse(original, desired);
    if AllNewlines(last) {
      var rest := Remaining(front + [], again);
      Replaced(Join(front) + head + Join(block), again, front, [head + BEGIN + "\n"] + block[1..], []);
      StartsWithMarker(rest);
      Concat(Join(front), head, Join(block));
      NewlineFirst(last, head, Join(block));
      DifferentBehind(Join(front), Join(BlockLines(rest)), head + Join(block), last);
    }
  }

  lemma NewlineFirst(last: string, head: string, block: string)
    requires EndsReturn(last) && AllNewlines(last) && head == last[..|last| - 1] + [CRLF]
    ensures IsNewline(last[0]) && IsNewline((head + block)[0])
  {
    assert last[0] in last;
  }

  /** A block begins with the marker. */
  lemma StartsWithMarker(mappings: map<string, string>)
    ensures Join(BlockLines(mappings)) == "" || Join(BlockLines(mappings))[0] == '#'
  {
    if mappings != map[] {
      BlockShape(mappings);
      BeginEnds();
      var block := BlockLines(mappings);
      assert Join(block) == block[0] + Join(block[1..]);
    }
  }

  lemma DifferentBehind(front: string, block: string, glued: string, last: string)
    requires block == "" || block[0] == '#'
    requires glued != "" && IsNewline(glued[0]) && last != "" && IsNewline(last[0])
    ensures front + block + "" != front + glued && front + block + "" != front + last
  {
    var text := front + block + "";
    assert text[|front|..] == block;
    assert (front + glued)[|front|..] == glued && (front + last)[|front|..] == last;
  }

  /** The rewrite accepts its own output and leaves it alone, exactly unless it glues the block to the file. */
  lemma RewriteIsIdempotent(original: string, desired: map<string, string>)
    requires ValidDesired(desired) && UpdatedContent(original, desired).Some?
    ensures var updated := UpdatedContent(original, desired).value;
            UpdatedContent(updated, desired) == Some(updated) <==> !Glues(original, desired)
  {
    if Glues(original, desired) {
      GluedDoesNotSettle(original, desired, desired);
    } else {
      SettledUnlessGlued(original, desired);
    }
  }

  /******* Preservation and undo *******/

  /** The text outside the block stayed the same, or only had its cut-off last line completed. */
  predicate SameButForEnd(after: string, before: string)
  {
    after == before || (after == before + "\n" && before != "" && !EndsLine(before))
  }

  lemma NothingBehind(lines: seq<string>)
    ensures Join(lines) + Join([]) == Join(lines)
  {
    assert Join([]) == "";
  }

  lemma ResultSurroundings(layout: Layout, desired: map<string, string>)
    requires WellFormed(layout.pre) && (layout.block == [] ==> layout.post == [])
    ensures var result := ResultLayout(layout, desired);
            SameButForEnd(Join(result.pre) + Join(result.post), Join(layout.pre) + Join(layout.post))
  {
    var result := ResultLayout(layout, desired);
    if result.block == [] {
      JoinConcat(layout.pre, layout.post);
      NothingBehind(result.pre);
    } else if layout.block == [] {
      CompletedFacts(layout.pre);
      NothingBehind(layout.pre);
      NothingBehind(result.pre);
    }
  }

  lemma OutsideKeptUnlessGlued(original: string, desired: map<string, string>)
    requires ValidDesired(desired) && UpdatedContent(original, desired).Some? && !Glues(original, desired)
    ensures ParseBlock(Lines(original)).Some?
    ensures var updated := UpdatedContent(original, desired).value;
            ParseBlock(Lines(updated)).Some? && SameButForEnd(Outside(updated), Outside(original))
  {
    var layout := ParseBlock(Lines(original)).value;
    RelexUnlessGlued(original, desired);
    LayoutShape(Lines(original));
    LinesWellFormed(original);
    SurroundingsWellFormed(layout);
    ResultSurroundings(layout, desired);
  }

  /** The file is still read, and the text outside the block is that of `before`, but for the end of its last line. */
  predicate Kept(after: string, before: string)
    requires ParseBlock(Lines(before)).Some?
  {
    ParseBlock(Lines(after)).Some? && SameButForEnd(Outside(after), Outside(before))
  }

  /** A successful rewrite keeps what is outside the block, but may complete a cut-off last line, exactly unless it
      glues the block to the file. */
  lemma OutsideKept(original: string, desired: map<string, string>)
    requires ValidDesired(desired) && UpdatedContent(original, desired).Some?
    ensures ParseBlock(Lines(original)).Some?
    ensures Kept(UpdatedContent(original, desired).value, original) <==> !Glues(original, desired)
  {
    if Glues(original, desired) {
      GluedOutside(original, desired);
    } else {
      OutsideKeptUnlessGlued(original, desired);
    }
  }

  ghost function AfterCalls(text: string, calls: seq<Call>): string
  {
    if calls == [] then text else AfterCall(AfterCalls(text, calls[..|calls| - 1]), calls[|calls| - 1]).0
  }

  /** A call that glues a block to the file. */
  ghost predicate CallGlues(text: string, call: Call)
  {
    && AfterCall(text, call).1 == Changed
    && Glues(text, ParsePayload(call.items).value)
  }

  ghost predicate NeverGlues(text: string, calls: seq<Call>)
  {
    forall i | 0 <= i < |calls| :: !CallGlues(AfterCalls(text, calls[..i]), calls[i])
  }

  ghost predicate AlwaysKept(text: string, calls: seq<Call>)
    requires ParseBlock(Lines(text)).Some?
  {
    forall i | 0 <= i <= |calls| :: Kept(AfterCalls(text, calls[..i]), text)
  }

  /** A call on a file whose outside is still the original one. */
  lemma CallKeeps(text: string, before: string, call: Call)
    requires ParseBlock(Lines(text)).Some? && Kept(before, text)
    ensures Kept(AfterCall(before, call).0, text) <==> !CallGlues(before, call)
  {
    var after := AfterCall(before, call);
    if after.1 == Changed {
      var desired := ParsePayload(call.items).value;
      PayloadIsValid(call.items);
      OutsideKept(before, desired);
      if Glues(before, desired) {
        GluedOutside(before, desired);
        assert EndsReturn(Outside(before));
        assert Outside(before) == Outside(text);
      }
    }
  }

  lemma AfterOneMore(text: string, calls: seq<Call>, i: nat)
    requires i < |calls|
    ensures AfterCalls(text, calls[..i + 1]) == AfterCall(AfterCalls(text, calls[..i]), calls[i]).0
  {
    assert calls[..i + 1][..i] == calls[..i];
  }

  lemma {:induction false} KeptWhileUnglued(text: string, calls: seq<Call>, n: nat)
    requires ParseBlock(Lines(text)).Some? && n <= |calls|
    requires forall i | 0 <= i < n :: !CallGlues(AfterCalls(text, calls[..i]), calls[i])
    ensures Kept(AfterCalls(text, calls[..n]), text)
  {
    if n > 0 {
      KeptWhileUnglued(text, calls, n - 1);
      AfterOneMore(text, calls, n - 1);
      CallKeeps(text, AfterCalls(text, calls[..n - 1]), calls[n - 1]);
    } else {
      assert calls[..0] == [];
    }
  }

  /** Over any sequence of calls, successful or refused: at every point there is at most one block, and the text outside
      it is what it was, except that one "\n" may complete its last line; if and only if no call glues a block to the
      file. */
  lemma OutsideKeptForever(text: string, calls: seq<Call>)
    requires ParseBlock(Lines(text)).Some?
    ensures AlwaysKept(text, calls) <==> NeverGlues(text, calls)
  {
    if NeverGlues(text, calls) {
      forall i | 0 <= i <= |calls| ensures Kept(AfterCalls(text, calls[..i]), text) {
        KeptWhileUnglued(text, calls, i);
      }
    }
    if AlwaysKept(text, calls) {
      forall i | 0 <= i < |calls| ensures !CallGlues(AfterCalls(text, calls[..i]), calls[i]) {
        AfterOneMore(text, calls, i);
        assert Kept(AfterCalls(text, calls[..i + 1]), text);
        CallKeeps(text, AfterCalls(text, calls[..i]), calls[i]);
      }
    }
  }

  /** Asking for nothing removes the block and changes nothing else. */
  lemma NothingDesired(text: string)
    requires ParseBlock(Lines(text)).Some?
    ensures UpdatedContent(text, map[]) == Some(if ParseBlock(Lines(text)).value.block
        == [] then text else Outside(text))
  {
    var layout := ParseBlock(Lines(text)).value;
    var unmanaged := layout.pre + layout.post;
    assert Remaining(unmanaged, map[]) == map[];
    assert !AnyConflict(unmanaged, map[]);
    assert BlockLines(map[]) == [] && Join([]) == "";
    var pre, post := Join(layout.pre), Join(layout.post);
    assert pre + "" + post == pre + post;
  }

  lemma InsertionOutside(layout: Layout, desired: map<string, string>)
    requires layout.block == [] && layout.post == [] && WellFormed(layout.pre) && ResultLayout(layout,
        desired).block != []
    ensures var result := ResultLayout(layout, desired);
             Join(result.pre) + Join(result.post) == Join(layout.pre) <==>
               Join(layout.pre) == "" || EndsLine(Join(layout.pre))
  {
    CompletedFacts(layout.pre);
    assert Join([]) == "";
  }

  lemma UndoUnlessGlued(original: string, desired: map<string, string>)
    requires ValidDesired(desired) && !Glues(original, desired)
    requires ParseBlock(Lines(original)).Some? && ParseBlock(Lines(original)).value.block == []
    requires UpdatedContent(original, desired).Some? && UpdatedContent(original, desired).value != original
    ensures var restored := UpdatedContent(UpdatedContent(original, desired).value, map[]);
            restored.Some? && (restored.value == original <==> original == "" || EndsLine(original))
  {
    var layout := ParseBlock(Lines(original)).value;
    RelexUnlessGlued(original, desired);
    LayoutShape(Lines(original));
    LinesWellFormed(original);
    JoinOfLines(original);
    assert All(layout) == layout.pre;
    InsertionOutside(layout, desired);
    NothingDesired(UpdatedContent(original, desired).value);
  }

  /** Inserting a block into a block-free file and then asking for nothing restores the file exactly when it was empty
      or ended with "\n". */
  lemma UndoRestores(original: string, desired: map<string, string>)
    requires ValidDesired(desired)
    requires ParseBlock(Lines(original)).Some? && ParseBlock(Lines(original)).value.block == []
    requires UpdatedContent(original, desired).Some? && UpdatedContent(original, desired).value != original
    ensures var restored := UpdatedContent(UpdatedContent(original, desired).value, map[]);
            restored == Some(original) <==> original == "" || EndsLine(original)
  {
    if Glues(original, desired) {
      GluedDoesNotSettle(original, desired, map[]);
    } else {
      UndoUnlessGlued(original, desired);
    }
  }

  /******* A file that the rewrite locks *******/

  const LOCKED := "x\r"

  lemma LockedLines()
    ensures Lines(LOCKED) == [LOCKED] && KindOf(LOCKED) == Plain && Fields(LOCKED) == ["x"]
  {
    LastLine(LOCKED);
    assert LOCKED[..1] == "x" && TrimNewlines(LOCKED) == TrimNewlines("x") == "x";
    NoSpaceNoMagic("x");
    assert |BEGIN| > 1 && |END| > 1;
    assert '#' !in LOCKED && Before(LOCKED, '#') == LOCKED;
    WordsCons("x", "\r");
    assert "x" + "\r" == LOCKED && "\r"[1..] == "";
  }

  /** For every mapping, the rewrite of this file succeeds once; from then on every request is refused, also an empty
      one. */
  lemma ReturnLocksTheFile(host: string, address: string, later: map<string, string>)
    requires IsAcceptedHost(host) && ValidIpv4(address)
    ensures var updated := UpdatedContent(LOCKED, map[host := address]);
            updated.Some? && updated.value != LOCKED && UpdatedContent(updated.value, later).None?
  {
    var desired := map[host := address];
    LockedLines();
    ParsePlain([LOCKED]);
    assert [LOCKED] + [] == [LOCKED];
    assert Names(LOCKED) == {};
    assert !Covers([LOCKED], host) && !AnyConflict([LOCKED], desired);
    assert Remaining([LOCKED], desired) == desired;
    assert host in desired;
    BlockShape(desired);
    assert Glues(LOCKED, desired);
    var front, last, head, block := GluedParse(LOCKED, desired);
    assert last == LOCKED by {
      assert (front + [last])[|front|] == last;
    }
    assert LOCKED[0] in LOCKED && !IsNewline(LOCKED[0]);
    assert UpdatedContent(LOCKED, desired).value != LOCKED by {
      LockedStill(desired);
    }
  }

  lemma LockedStill(desired: map<string, string>)
    requires UpdatedContent(LOCKED, desired).Some? && ParseBlock(Lines(UpdatedContent(LOCKED, desired).value)).None?
    requires ParseBlock(Lines(LOCKED)).Some?
    ensures UpdatedContent(LOCKED, desired).value != LOCKED
  {
  }

  /******* The text that is read next time *******/

  lemma BlockIsClustered(mappings: map<string, string>)
    requires ValidDesired(mappings)
    ensures Clustered(Join(BlockLines(mappings)))
  {
    forall l | l in BlockLines(mappings) ensures '\r' !in l {
      if mappings != map[] {
        BlockLineKinds(mappings, l);
        MarkersHavePlainNewlines();
        if IsEntry(l, mappings) {
          EntryHasNoReturn(mappings, l);
        }
      }
    }
    NoReturnIn(BlockLines(mappings));
  }

  predicate Printable(c: char)
  {
    ' ' <= c <= '~'
  }

  lemma MarkersArePrintable()
    ensures forall c | c in BEGIN :: Printable(c)
    ensures forall c | c in END :: Printable(c)
  {
  }

  lemma PrintableLine(text: string)
    requires forall c | c in text :: Printable(c)
    ensures forall c | c in text + "\n" :: IsNewline(c) ==> c == '\n'
  {
    forall c | c in text + "\n" && IsNewline(c) ensures c == '\n' {
      if c in text {
        assert Printable(c);
      }
    }
  }

  /** The markers end with "\n" and hold no other newline Character. */
  lemma MarkersHavePlainNewlines()
    ensures forall c | c in BEGIN + "\n" :: IsNewline(c) ==> c == '\n'
    ensures forall c | c in END + "\n" :: IsNewline(c) ==> c == '\n'
  {
    MarkersArePrintable();
    PrintableLine(BEGIN);
    PrintableLine(END);
  }

  lemma EntryHasNoReturn(mappings: map<string, string>, l: string)
    requires ValidDesired(mappings) && IsEntry(l, mappings)
    ensures '\r' !in l
  {
    var k :| k in mappings && l == EntryLine(k, mappings[k]);
    AcceptedHost(k);
    AcceptedAddress(mappings[k]);
    SafeNotBlank(k);
    SafeNotBlank(mappings[k]);
    var address := mappings[k];
    assert forall c | c in l :: c in address || c == '\t' || c in k || c == '\n';
  }

  lemma {:induction false} NoReturnIn(lines: seq<string>)
    requires forall l | l in lines :: '\r' !in l
    ensures '\r' !in Join(lines)
  {
    if lines != [] {
      assert lines[0] in lines && forall l | l in lines[1..] :: l in lines;
      NoReturnIn(lines[1..]);
    }
  }

  lemma EndsNoReturn(lines: seq<string>)
    requires AllTerminated(lines)
    ensures !EndsReturn(Join(lines))
  {
    if lines != [] {
      assert lines[|lines| - 1] in lines;
      assert WellFormed(lines);
      JoinEndsLine(lines);
    }
  }

  lemma ReplacedIsClustered(pre: string, former: string, block: string, post: string)
    requires Clustered(pre + former + post) && Clustered(block)
    requires !EndsReturn(pre) && !EndsReturn(block)
    ensures Clustered(pre + block + post)
  {
    ClusteredParts(pre + former, post);
    ClusteredParts(pre, former);
    ClusteredConcat(pre, block);
    assert !EndsReturn(pre + block) by {
      if block != "" {
        assert (pre + block)[|pre + block| - 1] == block[|block| - 1];
      } else {
        assert pre + block == pre;
      }
    }
    ClusteredConcat(pre + block, post);
  }

  lemma AppendedIsClustered(text: string, block: string)
    requires Clustered(text) && Clustered(block) && !StartsFeed(block)
    ensures Clustered(Append(text, (if text == "" || EndsLine(text) then "" else "\n") + block))
  {
    var feed := if text == "" || EndsLine(text) then "" else "\n";
    if feed == "" {
      assert feed + block == block;
      ClusteredConcat(text, block);
    } else {
      assert (feed + block)[1..] == block;
      ClusteredConcat(feed, block);
      if EndsReturn(text) {
        assert text == text[..|text| - 1] + ['\r'];
        ClusteredParts(text[..|text| - 1], ['\r']);
        ClusteredConcat(text[..|text| - 1], [CRLF]);
        ClusteredConcat(text[..|text| - 1] + [CRLF], block);
      } else {
        ClusteredConcat(text, feed + block);
      }
    }
  }

  /** The file that the rewrite writes is read back as the very text it wrote. */
  lemma RewriteIsReadBack(original: string, desired: map<string, string>)
    requires ValidDesired(desired) && UpdatedContent(original, desired).Some? && Clustered(original)
    ensures var updated := UpdatedContent(original, desired).value;
            Clustered(updated) && Characters(Scalars(updated)) == updated
  {
    var layout := ParseBlock(Lines(original)).value;
    var remaining := Remaining(layout.pre + layout.post, desired);
    RemainingValid(layout.pre + layout.post, desired);
    BlockIsClustered(remaining);
    BlockTerminated(remaining);
    EndsNoReturn(BlockLines(remaining));
    StartsWithMarker(remaining);
    if layout.block != [] {
      LayoutShape(Lines(original));
      JoinOfLines(original);
      LinesWellFormed(original);
      JoinAll(layout);
      SurroundingsWellFormed(layout);
      EndsNoReturn(layout.pre);
      ReplacedIsClustered(Join(layout.pre), Join(layout.block), Join(BlockLines(remaining)), Join(layout.post));
    } else {
      AppendedIsClustered(original, Join(BlockLines(remaining)));
    }
    AppendIsConcatenation("", UpdatedContent(original, desired).value);
  }
}

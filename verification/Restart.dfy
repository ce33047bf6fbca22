/** The Windows service over stops and restarts: the inventory is written by `Save`, read back by `Load`, and removed
    by `Cleanup` before anything else happens. */
module Restart {
  import opened Common
  import opened Protocol
  import opened Ipv4
  import opened WindowsRoutes
  import E = EndToEnd
  import H = HostBits
  import P = Planner
  import I = InventoryText

  /** The service runs, ends in an orderly way, or begins again. */
  datatype Event = Running(event: WindowsRoutes.Event) | Stopped | Restarted

  /** The inventory that a cleanup finds: that of the running service, or what `Load` reads. */
  function Found(s: Service, e: Event): seq<RouteSpec>
  {
    if e.Restarted? then I.ReadBack(s.managed) else s.managed
  }

  function Next(native: Native, s: Service, e: Event): Service
  {
    if e.Running? then StepService(native, s, e.event)
    else Service([], CleanupSpec(native, s.kernel, Found(s, e)))
  }

  function Run(native: Native, s: Service, events: seq<Event>): Service
    decreases |events|
  {
    if events == [] then s else Run(native, Next(native, s, events[0]), events[1..])
  }

  /******* Which entries are read back *******/

  predicate IsBare(text: string)
  {
    I.Plain(text) && I.SUB !in text && '{' !in text && '}' !in text
  }

  /** Destination, gateway and adapter, on which the row depends, need no escaping. */
  predicate BareFields(route: RouteSpec)
  {
    IsBare(route.destination) && IsBare(route.gateway) && IsBare(route.interfaceLuid)
  }

  predicate AllBare(routes: seq<RouteSpec>)
  {
    forall r | r in routes :: BareFields(r)
  }

  /** What reading sees of a tag: in text mode the file ends at the first SUB. */
  function Visible(tag: string): string
  {
    Before(tag, I.SUB)
  }

  /** The first quote is followed by '}'. */
  predicate Braced(tag: string)
  {
    After(tag, '"') != "" && After(tag, '"')[0] == '}'
  }

  /** The entry is read back: its tag is seen whole and has no quote, or its first visible quote is followed by '}'. */
  predicate TagSurvives(tag: string)
  {
    if '"' in Visible(tag) then Braced(Visible(tag)) else I.SUB !in tag
  }

  /** The tag as it comes back: cut off, with a backslash, at the first quote. */
  function LoadedTag(tag: string): string
  {
    var seen := Visible(tag);
    if '"' in seen then I.Escape(Before(seen, '"')) + "\\" else I.Escape(seen)
  }

  function Loaded(route: RouteSpec): RouteSpec
  {
    route.(tag := LoadedTag(route.tag))
  }

  /** The entries that are read back; none behind a SUB. */
  function Surviving(routes: seq<RouteSpec>): seq<RouteSpec>
  {
    if routes == [] then []
    else (if TagSurvives(routes[0].tag) then [routes[0]] else [])
         + (if I.SUB in routes[0].tag then [] else Surviving(routes[1..]))
  }

  function AllLoaded(routes: seq<RouteSpec>): seq<RouteSpec>
  {
    if routes == [] then [] else [Loaded(routes[0])] + AllLoaded(routes[1..])
  }

  /******* Escaping *******/

  lemma {:induction false} EscapeConcat(a: string, b: string)
    ensures I.Escape(a + b) == I.Escape(a) + I.Escape(b)
  {
    if a == "" {
      assert a + b == b;
    } else {
      assert (a + b)[1..] == a[1..] + b;
      EscapeConcat(a[1..], b);
      var head := (if a[0] == '\\' || a[0] == '"' then "\\" else "") + [a[0]];
      Concat(head, I.Escape(a[1..]), I.Escape(b));
    }
  }

  lemma EscapeChar(c: char)
    ensures I.Escape([c]) == (if c == '\\' || c == '"' then "\\" else "") + [c]
  {
    assert [c][1..] == "";
  }

  /** Around the first quote of an escaped text. */
  lemma EscapeAtQuote(tag: string)
    requires '"' in tag
    ensures I.Escape(tag) == (I.Escape(Before(tag, '"')) + "\\") + ("\"" + I.Escape(After(tag, '"')))
    ensures '"' !in I.Escape(Before(tag, '"')) + "\\"
  {
    var p, q := Before(tag, '"'), After(tag, '"');
    BeforeAfter(tag, '"');
    EscapeConcat(p + ['"'], q);
    EscapeConcat(p, ['"']);
    EscapeChar('"');
    I.EscapeUnquoted(p);
    Concat(I.Escape(p), "\\", "\"");
    Concat(I.Escape(p) + "\\", "\"", I.Escape(q));
  }

  /******* Scanning behind a tag *******/

  lemma NoOpen(text: string)
    requires text != "" && !(I.OPEN <= text)
    ensures I.Scan(text) == I.Scan(text[1..])
  {
  }

  lemma OpenChars()
    ensures |I.OPEN| > 2 && I.OPEN[0] == '{' && I.OPEN[1] == '"' && I.OPEN[2] == 'd'
    ensures |I.CLOSE| == 2 && I.CLOSE[0] == '"' && I.CLOSE[1] == '}'
  {
  }

  /** What may stand behind an escaped tag: nothing, or the end of its entry. */
  predicate EndsTag(behind: string)
  {
    behind == "" || I.CLOSE <= behind
  }

  /** No entry begins inside an escaped tag: every quote there follows a backslash. */
  lemma {:induction false} ScanSkipsTag(tag: string, behind: string)
    requires EndsTag(behind)
    ensures I.Scan(I.Escape(tag) + behind) == I.Scan(behind)
  {
    if tag == "" {
      assert I.Escape(tag) + behind == behind;
    } else {
      ScanSkipsTag(tag[1..], behind);
      SkipTagChar(tag, behind);
    }
  }

  lemma SkipClose(rest: string)
    ensures I.Scan(I.CLOSE + rest) == I.Scan(rest) && EndsTag(I.CLOSE + rest)
  {
    OpenChars();
    I.ScanSkips(I.CLOSE, rest);
  }

  lemma SkipEscapedChar(c: char, left: string)
    requires c == '\\' || c == '"'
    ensures I.Scan("\\" + ([c] + left)) == I.Scan(left)
  {
    OpenChars();
    NoOpen("\\" + ([c] + left));
    assert ("\\" + ([c] + left))[1..] == [c] + left;
    NoOpen([c] + left);
    assert ([c] + left)[1..] == left;
  }

  lemma SkipPlainChar(c: char, left: string)
    requires left == "" || left[0] != '"' || (|left| >= 2 && left[1] == '}')
    ensures I.Scan([c] + left) == I.Scan(left)
  {
    OpenChars();
    var text := [c] + left;
    assert text[1..] == left;
    if left != "" {
      assert text[1] == left[0] && (|left| >= 2 ==> text[2] == left[1]);
    }
    NoOpen(text);
  }

  lemma EscapeCons(tag: string)
    requires tag != ""
    ensures I.Escape(tag)
             == if tag[0] == '\\' || tag[0] == '"' then "\\" + ([tag[0]] + I.Escape(tag[1..]))
                else [tag[0]] + I.Escape(tag[1..])
  {
  }

  lemma SkipTagChar(tag: string, behind: string)
    requires tag != "" && EndsTag(behind)
    ensures I.Scan(I.Escape(tag) + behind) == I.Scan(I.Escape(tag[1..]) + behind)
  {
    var c, e := tag[0], I.Escape(tag[1..]);
    EscapeCons(tag);
    Concat([c], e, behind);
    if c == '\\' || c == '"' {
      Concat("\\", [c] + e, behind);
      SkipEscapedChar(c, e + behind);
    } else {
      NoQuoteNext(tag[1..], behind);
      SkipPlainChar(c, e + behind);
    }
  }

  lemma NoQuoteNext(tag: string, behind: string)
    requires EndsTag(behind)
    ensures var left := I.Escape(tag) + behind; left == "" || left[0] != '"' || (|left| >= 2 && left[1] == '}')
  {
    OpenChars();
    if tag == "" {
      assert I.Escape(tag) + behind == behind;
    } else {
      assert I.Escape(tag)[0] != '"';
    }
  }

  /******* One entry *******/

  /** An entry whose fields are bare, up to its tag, and what is read from there on. */
  function BeforeTag(route: RouteSpec, tail: string): string
  {
    route.destination + (I.GATEWAY + (route.gateway + (I.LUID + (route.interfaceLuid + (I.TAG + tail)))))
  }

  /** What is read of a tag and of what follows its entry. */
  function Tail(tag: string, rest: string): string
  {
    I.Escape(Visible(tag)) + (if I.SUB in tag then "" else I.CLOSE + rest)
  }

  lemma EntryParts(route: RouteSpec, rest: string)
    requires BareFields(route)
    ensures I.Entry(route) + rest == I.OPEN + BeforeTag(route, I.Escape(route.tag) + (I.CLOSE + rest))
  {
    I.EscapePlain(route.destination);
    I.EscapePlain(route.gateway);
    I.EscapePlain(route.interfaceLuid);
    I.EntryGroups(route, rest);
  }

  lemma BeforeSkips(head: string, tail: string)
    requires I.SUB !in head
    ensures Before(head + tail, I.SUB) == head + Before(tail, I.SUB)
  {
    BeforeAppend(head, tail, I.SUB);
  }

  lemma BeforeInFields(route: RouteSpec, tail: string)
    requires BareFields(route)
    ensures Before(I.OPEN + BeforeTag(route, tail), I.SUB) == I.OPEN + BeforeTag(route, Before(tail, I.SUB))
  {
    I.FixedTextsHaveNoSub();
    var t3 := route.interfaceLuid + (I.TAG + tail);
    var t2 := route.gateway + (I.LUID + t3);
    BeforeSkips(I.OPEN, BeforeTag(route, tail));
    BeforeSkips(route.destination, I.GATEWAY + t2);
    BeforeSkips(I.GATEWAY, t2);
    BeforeSkips(route.gateway, I.LUID + t3);
    BeforeSkips(I.LUID, t3);
    BeforeSkips(route.interfaceLuid, I.TAG + tail);
    BeforeSkips(I.TAG, tail);
  }

  /** Escaping and cutting at SUB commute. */
  lemma {:induction false} EscapeVisible(tag: string)
    ensures Before(I.Escape(tag), I.SUB) == I.Escape(Visible(tag))
  {
    if tag != "" && tag[0] != I.SUB {
      EscapeVisible(tag[1..]);
      var head := (if tag[0] == '\\' || tag[0] == '"' then "\\" else "") + [tag[0]];
      assert I.Escape(tag) == head + I.Escape(tag[1..]);
      BeforeSkips(head, I.Escape(tag[1..]));
    }
  }

  /** What is read of an entry and what follows it. */
  lemma EntryRead(route: RouteSpec, rest: string)
    requires BareFields(route)
    ensures Before(I.Entry(route) + rest, I.SUB) == I.OPEN + BeforeTag(route, Tail(route.tag, Before(rest, I.SUB)))
  {
    EntryParts(route, rest);
    BeforeInFields(route, I.Escape(route.tag) + (I.CLOSE + rest));
    TailRead(route.tag, rest);
  }

  lemma TailRead(tag: string, rest: string)
    ensures Before(I.Escape(tag) + (I.CLOSE + rest), I.SUB) == Tail(tag, Before(rest, I.SUB))
  {
    BeforeAppend(I.Escape(tag), I.CLOSE + rest, I.SUB);
    EscapeVisible(tag);
    I.EscapeChars(tag, I.SUB);
    if I.SUB in tag {
      assert I.Escape(Visible(tag)) + "" == I.Escape(Visible(tag));
    } else {
      I.FixedTextsHaveNoSub();
      BeforeSkips(I.CLOSE, rest);
    }
  }

  /** Whether an entry matches is decided by its tag. */
  lemma MatchDecidedByTag(route: RouteSpec, tail: string)
    requires BareFields(route)
    ensures var c := I.Capture(tail, I.CLOSE);
            I.MatchAt(I.OPEN + BeforeTag(route, tail))
            == if c.None? then None else Some((route.(tag := c.value.0), c.value.1))
  {
    var t3 := route.interfaceLuid + (I.TAG + tail);
    var t2 := route.gateway + (I.LUID + t3);
    var t1 := route.destination + (I.GATEWAY + t2);
    assert (I.OPEN + t1)[|I.OPEN|..] == t1;
    I.CaptureField(route.destination, I.GATEWAY, t2);
    I.CaptureField(route.gateway, I.LUID, t3);
    I.CaptureField(route.interfaceLuid, I.TAG, tail);
  }

  lemma UnquotedTagMatches(tag: string, rest: string)
    requires '"' !in tag
    ensures I.Capture(I.Escape(tag) + (I.CLOSE + rest), I.CLOSE) == Some((I.Escape(tag), rest))
  {
    I.EscapeUnquoted(tag);
    I.CaptureField(I.Escape(tag), I.CLOSE, rest);
  }

  /** An escaped tag without quote and without end. */
  lemma UnquotedTagEnds(tag: string)
    requires '"' !in tag
    ensures I.Capture(I.Escape(tag) + "", I.CLOSE).None?
  {
    I.EscapeUnquoted(tag);
    var e := I.Escape(tag);
    assert e + "" == e && e[|e|..] == "";
  }

  lemma BracedText(loaded: string, escaped: string, rest: string)
    ensures (loaded + ("\"" + ("}" + escaped))) + rest == loaded + (I.CLOSE + (escaped + rest))
  {
    assert "\"" + ("}" + escaped) == I.CLOSE + escaped;
    Concat(loaded, I.CLOSE + escaped, rest);
    Concat(I.CLOSE, escaped, rest);
  }

  lemma EscapeBrace(q: string)
    requires q != "" && q[0] == '}'
    ensures I.Escape(q) == "}" + I.Escape(q[1..])
  {
  }

  /** A quote followed by '}' ends the entry early. */
  lemma BracedTagMatches(tag: string, behind: string)
    requires '"' in tag && Braced(tag)
    ensures I.Capture(I.Escape(tag) + behind, I.CLOSE)
            == Some((I.Escape(Before(tag, '"')) + "\\", I.Escape(After(tag, '"')[1..]) + behind))
  {
    var q, loaded := After(tag, '"'), I.Escape(Before(tag, '"')) + "\\";
    EscapeAtQuote(tag);
    EscapeBrace(q);
    BracedText(loaded, I.Escape(q[1..]), behind);
    I.CaptureField(loaded, I.CLOSE, I.Escape(q[1..]) + behind);
  }

  lemma NoBraceNext(q: string, behind: string)
    requires (q == "" || q[0] != '}') && EndsTag(behind)
    ensures var left := I.Escape(q) + behind; left == "" || left[0] != '}'
  {
    OpenChars();
    if q == "" {
      assert I.Escape(q) + behind == behind;
    } else {
      assert I.Escape(q)[0] == q[0] || I.Escape(q)[0] == '\\';
    }
  }

  /** Any other quote leaves the entry without an end. */
  lemma CutTagDoesNotMatch(tag: string, behind: string)
    requires '"' in tag && !Braced(tag) && EndsTag(behind)
    ensures I.Capture(I.Escape(tag) + behind, I.CLOSE).None?
  {
    OpenChars();
    var q, loaded := After(tag, '"'), I.Escape(Before(tag, '"')) + "\\";
    var left := I.Escape(q) + behind;
    EscapeAtQuote(tag);
    assert I.Escape(tag) + behind == loaded + ("\"" + left) by {
      Concat(loaded, "\"" + I.Escape(q), behind);
      Concat("\"", I.Escape(q), behind);
    }
    I.BeforeQuote(loaded, "\"" + left);
    assert (loaded + ("\"" + left))[|loaded|..] == "\"" + left;
    NoBraceNext(q, behind);
    assert left != "" ==> ("\"" + left)[1] == left[0];
  }

  lemma FixedTextsHaveNoBrace()
    ensures '{' !in I.OPEN[1..] && '{' !in I.GATEWAY && '{' !in I.LUID && '{' !in I.TAG && '{' !in I.FOOTER
    ensures I.OPEN != "" && '{' !in I.Separator(true) && '{' !in I.Separator(false)
  {
  }

  lemma SkipUnmatched(left: string)
    requires I.MatchAt(I.OPEN + left).None?
    ensures I.Scan(I.OPEN + left) == I.Scan(left)
  {
    FixedTextsHaveNoBrace();
    assert (I.OPEN + left)[1..] == I.OPEN[1..] + left;
    I.ScanSkips(I.OPEN[1..], left);
  }

  lemma ScanSkipsFields(route: RouteSpec, tail: string)
    requires BareFields(route)
    ensures I.Scan(BeforeTag(route, tail)) == I.Scan(tail)
  {
    FixedTextsHaveNoBrace();
    var t3 := route.interfaceLuid + (I.TAG + tail);
    var t2 := route.gateway + (I.LUID + t3);
    I.ScanSkips(route.destination, I.GATEWAY + t2);
    I.ScanSkips(I.GATEWAY, t2);
    I.ScanSkips(route.gateway, I.LUID + t3);
    I.ScanSkips(I.LUID, t3);
    I.ScanSkips(route.interfaceLuid, I.TAG + tail);
    I.ScanSkips(I.TAG, tail);
  }

  /** The text of an entry without match is skipped. */
  lemma ScanSkipsEntry(route: RouteSpec, tag: string, behind: string)
    requires BareFields(route) && EndsTag(behind)
    requires I.Capture(I.Escape(tag) + behind, I.CLOSE).None?
    ensures I.Scan(I.OPEN + BeforeTag(route, I.Escape(tag) + behind)) == I.Scan(behind)
  {
    var tail := I.Escape(tag) + behind;
    MatchDecidedByTag(route, tail);
    SkipUnmatched(BeforeTag(route, tail));
    ScanSkipsFields(route, tail);
    ScanSkipsTag(tag, behind);
  }

  lemma OpenNotEmpty(left: string)
    ensures I.OPEN + left != ""
  {
    OpenChars();
  }

  lemma ScanMatched(text: string, first: RouteSpec, rest: string)
    requires text != "" && I.MatchAt(text) == Some((first, rest))
    ensures I.Scan(text) == [first] + I.Scan(rest)
  {
  }

  lemma ScanUnquoted(route: RouteSpec, tag: string, rest: string)
    requires BareFields(route) && '"' !in tag
    ensures I.Scan(I.OPEN + BeforeTag(route, I.Escape(tag) + (I.CLOSE + rest)))
            == [route.(tag := I.Escape(tag))] + I.Scan(rest)
  {
    var tail := I.Escape(tag) + (I.CLOSE + rest);
    OpenNotEmpty(BeforeTag(route, tail));
    MatchDecidedByTag(route, tail);
    UnquotedTagMatches(tag, rest);
    ScanMatched(I.OPEN + BeforeTag(route, tail), route.(tag := I.Escape(tag)), rest);
  }

  lemma ScanBraced(route: RouteSpec, tag: string, behind: string)
    requires BareFields(route) && EndsTag(behind) && '"' in tag && Braced(tag)
    ensures I.Scan(I.OPEN + BeforeTag(route, I.Escape(tag) + behind))
            == [route.(tag := I.Escape(Before(tag, '"')) + "\\")] + I.Scan(behind)
  {
    var tail, left := I.Escape(tag) + behind, After(tag, '"')[1..];
    OpenNotEmpty(BeforeTag(route, tail));
    MatchDecidedByTag(route, tail);
    BracedTagMatches(tag, behind);
    ScanMatched(I.OPEN + BeforeTag(route, tail), route.(tag := I.Escape(Before(tag, '"')) + "\\"),
                I.Escape(left) + behind);
    ScanSkipsTag(left, behind);
  }

  /** Reading an entry gives it back, as loaded, or nothing. */
  lemma ScanEntry(route: RouteSpec, rest: string)
    requires BareFields(route)
    ensures I.Scan(Before(I.Entry(route) + rest, I.SUB))
            == (if TagSurvives(route.tag) then [Loaded(route)] else [])
               + (if I.SUB in route.tag then [] else I.Scan(Before(rest, I.SUB)))
  {
    EntryRead(route, rest);
    if I.SUB in route.tag {
      ScanCutEntry(route);
    } else {
      ScanWholeEntry(route, Before(rest, I.SUB));
    }
  }

  lemma ScanWholeEntry(route: RouteSpec, rest: string)
    requires BareFields(route) && I.SUB !in route.tag
    ensures I.Scan(I.OPEN + BeforeTag(route, I.Escape(route.tag) + (I.CLOSE + rest)))
            == (if TagSurvives(route.tag) then [Loaded(route)] else []) + I.Scan(rest)
  {
    var tag := route.tag;
    SkipClose(rest);
    if '"' !in tag {
      ScanUnquoted(route, tag, rest);
    } else if Braced(tag) {
      ScanBraced(route, tag, I.CLOSE + rest);
    } else {
      CutTagDoesNotMatch(tag, I.CLOSE + rest);
      ScanSkipsEntry(route, tag, I.CLOSE + rest);
    }
  }

  lemma ScanCutEntry(route: RouteSpec)
    requires BareFields(route) && I.SUB in route.tag
    ensures I.Scan(I.OPEN + BeforeTag(route, I.Escape(Visible(route.tag)) + ""))
            == if TagSurvives(route.tag) then [Loaded(route)] else []
  {
    var tag := Visible(route.tag);
    if '"' !in tag {
      UnquotedTagEnds(tag);
      ScanSkipsEntry(route, tag, "");
    } else if Braced(tag) {
      ScanBraced(route, tag, "");
    } else {
      CutTagDoesNotMatch(tag, "");
      ScanSkipsEntry(route, tag, "");
    }
  }

  /******* The whole inventory *******/

  lemma {:induction false} ScanAllEntries(routes: seq<RouteSpec>, first: bool)
    requires AllBare(routes)
    ensures I.Scan(Before(I.Entries(routes, first) + I.FOOTER, I.SUB)) == AllLoaded(Surviving(routes))
  {
    FixedTextsHaveNoBrace();
    I.FixedTextsHaveNoSub();
    if routes == [] {
      assert I.Entries(routes, first) + I.FOOTER == I.FOOTER + "";
      I.ScanSkips(I.FOOTER, "");
    } else {
      var route, left := routes[0], I.Entries(routes[1..], false);
      var rest := left + I.FOOTER;
      assert I.Entries(routes, first) + I.FOOTER == I.Separator(first) + (I.Entry(route) + rest) by {
        Concat(I.Separator(first) + I.Entry(route), left, I.FOOTER);
        Concat(I.Separator(first), I.Entry(route), rest);
      }
      BeforeSkips(I.Separator(first), I.Entry(route) + rest);
      I.ScanSkips(I.Separator(first), Before(I.Entry(route) + rest, I.SUB));
      ScanEntry(route, rest);
      ScanAllEntries(routes[1..], false);
      SurvivingCons(route, routes[1..]);
    }
  }

  lemma SurvivingCons(route: RouteSpec, rest: seq<RouteSpec>)
    ensures AllLoaded(Surviving([route] + rest))
            == (if TagSurvives(route.tag) then [Loaded(route)] else [])
               + (if I.SUB in route.tag then [] else AllLoaded(Surviving(rest)))
  {
    assert ([route] + rest)[1..] == rest;
    var more := if I.SUB in route.tag then [] else Surviving(rest);
    assert ([route] + more)[1..] == more;
    assert [] + more == more;
  }

  /** Reading the saved inventory back gives, in order, exactly the entries that survive; only their tags may change. */
  lemma LoadKeepsExactly(routes: seq<RouteSpec>)
    requires AllBare(routes)
    ensures I.ReadBack(routes) == AllLoaded(Surviving(routes))
  {
    I.ReadBackIs(routes);
    ScanAllEntries(routes, true);
  }

  lemma {:induction false} LoadedRows(native: Native, routes: seq<RouteSpec>)
    ensures Populated(native, AllLoaded(routes)) == Populated(native, routes)
  {
    if routes != [] {
      LoadedRows(native, routes[1..]);
      LoadedCons(native, routes);
    }
  }

  lemma LoadedCons(native: Native, routes: seq<RouteSpec>)
    requires routes != []
    ensures Populated(native, AllLoaded(routes))
            == [PopulateRow(native, routes[0])] + Populated(native, AllLoaded(routes[1..]))
  {
    assert AllLoaded(routes)[1..] == AllLoaded(routes[1..]);
    assert PopulateRow(native, Loaded(routes[0])) == PopulateRow(native, routes[0]);
  }

  /******* Accepted routes *******/

  lemma {:induction false} BareParts(s: string, c: char)
    requires forall p | p in Split(s, c) :: AllDigits(p)
    requires IsBare([c])
    ensures IsBare(s)
    decreases |s|
  {
    assert c in [c];
    if c in s {
      BeforeAfter(s, c);
      var tail := Split(After(s, c), c);
      assert Split(s, c) == [Before(s, c)] + tail;
      assert Before(s, c) in Split(s, c);
      forall p | p in tail ensures AllDigits(p) {
        assert p in Split(s, c);
      }
      BareParts(After(s, c), c);
      assert forall d | d in s :: d in Before(s, c) || d == c || d in After(s, c);
    } else {
      assert s in Split(s, c);
    }
  }

  lemma BareAddress(s: string)
    requires IsIpv4Text(s)
    ensures IsBare(s)
  {
    forall p | p in Split(s, '.') ensures AllDigits(p) {
      assert IsOctet(p);
    }
    BareParts(s, '.');
  }

  /** Validation leaves only the tag able to hold quotes, backslashes and braces. */
  lemma AcceptedIsBare(route: RouteSpec)
    requires IsValidRoute(route)
    ensures BareFields(route)
  {
    var d := route.destination;
    BareAddress(Before(d, '/'));
    BeforeAfter(d, '/');
    assert forall c | c in d :: c in Before(d, '/') || c == '/' || c in After(d, '/');
    if route.gateway != "" {
      BareAddress(route.gateway);
    }
  }

  /******* One stop or restart *******/

  /** Every row the service created and still owns belongs to an inventory entry. */
  ghost predicate Accounted(native: Native, s: Service)
  {
    s.kernel.owned <= RowsOf(native, s.managed)
  }

  /** The entries that a cleanup finds, by what was recorded. */
  function Recorded(s: Service, e: Event): seq<RouteSpec>
  {
    if e.Restarted? then Surviving(s.managed) else s.managed
  }

  /** A stop or restart removes every row the service owns: an entry for it is found, and its removal goes through. */
  ghost predicate Clean(native: Native, s: Service, e: Event)
  {
    e.Running? || forall row | row in s.kernel.owned :: Cleared(native, s.kernel, Recorded(s, e), row)
  }

  /** Nothing is forgotten by a stop or a restart exactly when it is clean. */
  lemma CleanupForgetsNothingExactly(native: Native, s: Service, e: Event)
    requires !e.Running? && AllBare(s.managed)
    ensures Accounted(native, Next(native, s, e)) <==> Clean(native, s, e)
  {
    var t := Next(native, s, e);
    assert RowsOf(native, t.managed) == {};
    if e.Restarted? {
      LoadKeepsExactly(s.managed);
      LoadedRows(native, Surviving(s.managed));
    }
    forall row ensures row in t.kernel.owned
                       <==> row in s.kernel.owned && !Cleared(native, s.kernel, Recorded(s, e), row) {
      CleanupExactly(native, s.kernel, Found(s, e), row);
    }
  }

  /******* Whole runs *******/

  lemma RequestKeepsBare(native: Native, s: Service, desired: seq<RouteSpec>)
    requires AllBare(s.managed)
    ensures AllBare(StepService(native, s, Request(desired)).managed)
    ensures forall r | r in StepService(native, s, Request(desired)).managed :: r in s.managed || r in desired
  {
    if InvalidRoutes(desired) == [] {
      var removed := RemovePhase(native, desired, Start(s.kernel), s.managed);
      RemovePhaseNext(native, desired, Start(s.kernel), s.managed);
      AddPhaseNext(native, s.managed, removed, desired);
      forall r | r in desired ensures BareFields(r) {
        AcceptedIsBare(r);
      }
    }
  }

  lemma StepKeepsBare(native: Native, s: Service, e: Event)
    requires AllBare(s.managed)
    ensures AllBare(Next(native, s, e).managed)
  {
    if e.Running? && e.event.Request? {
      RequestKeepsBare(native, s, e.event.desired);
    }
  }

  /** One event forgets nothing exactly when it is clean. */
  lemma StepAccounts(native: Native, s: Service, e: Event)
    requires Accounted(native, s) && AllBare(s.managed)
    ensures Accounted(native, Next(native, s, e)) <==> Clean(native, s, e)
  {
    if !e.Running? {
      CleanupForgetsNothingExactly(native, s, e);
    } else if e.event.Request? {
      ReconcileForgetsNothing(native, s.managed, s.kernel, e.event.desired);
    }
  }

  ghost predicate AlwaysAccounted(native: Native, s: Service, events: seq<Event>)
    decreases |events|
  {
    Accounted(native, s) && (events == [] || AlwaysAccounted(native, Next(native, s, events[0]), events[1..]))
  }

  ghost predicate EachClean(native: Native, s: Service, events: seq<Event>)
    decreases |events|
  {
    events == [] || (Clean(native, s, events[0]) && EachClean(native, Next(native, s, events[0]), events[1..]))
  }

  /** Over any run of requests, failures, outside edits, stops and restarts: at every point each row the service created
      and still owns belongs to an inventory entry, if and only if every stop and restart of the run is clean. */
  lemma {:induction false} NoForgottenRouteAcrossRestarts(native: Native, s: Service, events: seq<Event>)
    requires Accounted(native, s) && AllBare(s.managed)
    ensures AlwaysAccounted(native, s, events) <==> EachClean(native, s, events)
    decreases |events|
  {
    if events != [] {
      var t := Next(native, s, events[0]);
      StepAccounts(native, s, events[0]);
      StepKeepsBare(native, s, events[0]);
      if Accounted(native, t) {
        NoForgottenRouteAcrossRestarts(native, t, events[1..]);
      } else {
        assert !AlwaysAccounted(native, t, events[1..]);
      }
    }
  }

  /******* Which tags forget when every removal goes through *******/

  /** The entry is read back, and the entries behind it are not lost. */
  predicate Safe(tag: string)
  {
    TagSurvives(tag) && I.SUB !in tag
  }

  predicate AllSafe(routes: seq<RouteSpec>)
  {
    forall r | r in routes :: Safe(r.tag)
  }

  lemma {:induction false} SafeSurvive(routes: seq<RouteSpec>)
    requires AllSafe(routes)
    ensures Surviving(routes) == routes
  {
    if routes != [] {
      assert routes[0] in routes && forall r | r in routes[1..] :: r in routes;
      SafeSurvive(routes[1..]);
      assert routes == [routes[0]] + routes[1..];
    }
  }

  lemma {:induction false} PopulatedAt(native: Native, routes: seq<RouteSpec>, i: nat)
    requires i < |routes|
    ensures |Populated(native, routes)| == |routes| && Populated(native, routes)[i] == PopulateRow(native, routes[i])
  {
    if |routes| > 1 {
      PopulatedAt(native, routes[1..], if i > 0 then i - 1 else 0);
    }
  }

  lemma {:induction false} PopulatedSize(native: Native, routes: seq<RouteSpec>)
    ensures |Populated(native, routes)| == |routes|
  {
    if routes != [] {
      PopulatedSize(native, routes[1..]);
    }
  }

  /** Only rows of the inventory are cleared, and all of them when nothing fails. */
  lemma ClearedRows(native: Native, kernel: Kernel, routes: seq<RouteSpec>, row: Row)
    ensures Cleared(native, kernel, routes, row) ==> row in RowsOf(native, routes)
    ensures NoFailures(native) && row in RowsOf(native, routes) ==> Cleared(native, kernel, routes, row)
  {
    var entries := Populated(native, routes);
    PopulatedSize(native, routes);
    if i: nat :| Clears(native.fails, kernel.calls, entries, i, row) {
      PopulatedAt(native, routes, i);
      assert routes[i] in routes;
    }
    if NoFailures(native) && row in RowsOf(native, routes) {
      var i: nat :| i < |routes| && PopulateRow(native, routes[i]) == Some(row);
      PopulatedAt(native, routes, i);
      assert Clears(native.fails, kernel.calls, entries, i, row);
    }
  }

  /** The requests of a run use only these tags. */
  ghost predicate TagsIn(events: seq<Event>, tags: set<string>)
  {
    forall e | e in events && e.Running? && e.event.Request? :: forall r | r in e.event.desired :: r.tag in tags
  }

  const EMPTY := Service([], Kernel({}, {}, 0))

  /** Some run that requests only these tags forgets a row at some point. */
  ghost predicate MayForget(native: Native, tags: set<string>)
  {
    exists events :: TagsIn(events, tags) && !AlwaysAccounted(native, EMPTY, events)
  }

  lemma SafeStep(native: Native, s: Service, e: Event)
    requires NoFailures(native) && Accounted(native, s) && AllBare(s.managed) && AllSafe(s.managed)
    requires e.Running? && e.event.Request? ==> AllSafe(e.event.desired)
    ensures var t := Next(native, s, e); Accounted(native, t) && AllBare(t.managed) && AllSafe(t.managed)
  {
    if e.Running? && e.event.Request? {
      RequestKeepsBare(native, s, e.event.desired);
    }
    SafeSurvive(s.managed);
    forall row | row in s.kernel.owned ensures Cleared(native, s.kernel, s.managed, row) {
      ClearedRows(native, s.kernel, s.managed, row);
    }
    StepAccounts(native, s, e);
    StepKeepsBare(native, s, e);
  }

  lemma {:induction false} SafeTagsForgetNothing(native: Native, s: Service, events: seq<Event>, tags: set<string>)
    requires NoFailures(native) && Accounted(native, s) && AllBare(s.managed) && AllSafe(s.managed)
    requires TagsIn(events, tags) && forall t | t in tags :: Safe(t)
    ensures AlwaysAccounted(native, s, events)
    decreases |events|
  {
    if events != [] {
      assert events[0] in events && forall e | e in events[1..] :: e in events;
      SafeStep(native, s, events[0]);
      SafeTagsForgetNothing(native, Next(native, s, events[0]), events[1..], tags);
    }
  }

  /******* What is lost *******/

  lemma AddOneOwned(native: Native, w: Work, route: RouteSpec)
    requires NoFailures(native) && w.kernel.owned == w.kernel.rows
    ensures AddOne(native, [], w, route).kernel.owned == AddOne(native, [], w, route).kernel.rows
  {
  }

  lemma {:induction false} AddPhaseOwned(native: Native, w: Work, routes: seq<RouteSpec>)
    requires NoFailures(native) && w.kernel.owned == w.kernel.rows
    ensures AddPhase(native, [], w, routes).kernel.owned == AddPhase(native, [], w, routes).kernel.rows
    decreases |routes|
  {
    if routes != [] {
      AddOneOwned(native, w, routes[0]);
      AddPhaseOwned(native, AddOne(native, [], w, routes[0]), routes[1..]);
    }
  }

  /** A first request for parsable routes leaves the service owning all their rows. */
  lemma FirstRequest(native: Native, desired: seq<RouteSpec>)
    requires NoFailures(native) && Parsable(native, desired) && forall r | r in desired :: IsValidRoute(r)
    ensures var s := Next(native, EMPTY, Running(Request(desired)));
            s.managed == desired && s.kernel.owned == RowsOf(native, desired)
  {
    var start := Start(EMPTY.kernel);
    ReconcileConverges(native, [], EMPTY.kernel, desired);
    AddPhaseOwned(native, start, desired);
    assert RemovePhase(native, desired, start, []) == start;
    assert RowsOf(native, Without([], desired)) == {};
  }

  lemma LostRow(native: Native, s: Service, row: Row)
    requires AllBare(s.managed) && row in s.kernel.owned && row !in RowsOf(native, Surviving(s.managed))
    ensures !Accounted(native, Next(native, s, Restarted))
  {
    ClearedRows(native, s.kernel, Surviving(s.managed), row);
    assert !Clean(native, s, Restarted);
    CleanupForgetsNothingExactly(native, s, Restarted);
  }

  lemma Forgotten(native: Native, e: Event, f: Event, tags: set<string>)
    requires TagsIn([e, f], tags) && !Accounted(native, Next(native, Next(native, EMPTY, e), f))
    ensures MayForget(native, tags)
  {
    TwoEvents(native, EMPTY, e, f);
  }

  lemma AcceptedAreBare(routes: seq<RouteSpec>)
    requires forall r | r in routes :: IsValidRoute(r)
    ensures AllBare(routes)
  {
    forall r | r in routes ensures BareFields(r) {
      AcceptedIsBare(r);
    }
  }

  /** A row of the request that no surviving entry has is forgotten by a restart. */
  lemma LostForgets(native: Native, desired: seq<RouteSpec>, row: Row, tags: set<string>)
    requires NoFailures(native) && Parsable(native, desired) && forall r | r in desired :: IsValidRoute(r)
    requires row in RowsOf(native, desired) && row !in RowsOf(native, Surviving(desired))
    requires forall r | r in desired :: r.tag in tags
    ensures MayForget(native, tags)
  {
    LostAfterRequest(native, desired, row);
    TagsOfRequest(desired, tags);
    Forgotten(native, Running(Request(desired)), Restarted, tags);
  }

  lemma LostAfterRequest(native: Native, desired: seq<RouteSpec>, row: Row)
    requires NoFailures(native) && Parsable(native, desired) && forall r | r in desired :: IsValidRoute(r)
    requires row in RowsOf(native, desired) && row !in RowsOf(native, Surviving(desired))
    ensures !Accounted(native, Next(native, Next(native, EMPTY, Running(Request(desired))), Restarted))
  {
    FirstRequest(native, desired);
    AcceptedAreBare(desired);
    LostRow(native, Next(native, EMPTY, Running(Request(desired))), row);
  }

  lemma TagsOfRequest(desired: seq<RouteSpec>, tags: set<string>)
    requires forall r | r in desired :: r.tag in tags
    ensures TagsIn([Running(Request(desired)), Restarted], tags)
  {
  }

  lemma TwoEvents(native: Native, s: Service, e: Event, f: Event)
    ensures Run(native, s, [e, f]) == Next(native, Next(native, s, e), f)
    ensures AlwaysAccounted(native, s, [e, f]) ==> Accounted(native, Next(native, Next(native, s, e), f))
  {
    assert [e, f][1..] == [f] && [f][1..] == [];
    assert Run(native, Next(native, s, e), [f]) == Next(native, Next(native, s, e), f);
    assert AlwaysAccounted(native, Next(native, s, e), [f])
        ==> AlwaysAccounted(native, Next(native, Next(native, s, e), f), []);
  }

  /** The same route on another adapter. */
  function Elsewhere(route: RouteSpec): RouteSpec
  {
    route.(interfaceLuid := if Stoull(route.interfaceLuid) == Some(0) then "1" else "0")
  }

  lemma ElsewhereIsAnother(native: Native, route: RouteSpec)
    requires IsValidRoute(route) && PopulateRow(native, route).Some?
    ensures IsValidRoute(Elsewhere(route)) && PopulateRow(native, Elsewhere(route)).Some?
    ensures PopulateRow(native, Elsewhere(route)) != PopulateRow(native, route)
  {
    H.AdapterNumber('0');
    H.AdapterNumber('1');
  }

  lemma TaggedRow(native: Native, route: RouteSpec, tag: string)
    requires IsValidRoute(route) && TAG_PREFIX <= tag && |tag| <= 200
    ensures IsValidRoute(route.(tag := tag))
    ensures PopulateRow(native, route.(tag := tag)) == PopulateRow(native, route)
  {
  }

  lemma CutTagForgets(native: Native, tags: set<string>, one: RouteSpec)
    requires NoFailures(native) && IsValidRoute(one) && PopulateRow(native, one).Some?
    requires one.tag in tags && !TagSurvives(one.tag)
    ensures MayForget(native, tags)
  {
    OneRow(native, one, PopulateRow(native, one).value);
    assert Surviving([one]) == [];
    LostForgets(native, [one], PopulateRow(native, one).value, tags);
  }

  /** A tag that survives but ends the file loses the entry behind it. */
  lemma EndingTagForgets(native: Native, tags: set<string>, one: RouteSpec)
    requires NoFailures(native) && IsValidRoute(one) && PopulateRow(native, one).Some?
    requires one.tag in tags && TagSurvives(one.tag) && I.SUB in one.tag
    ensures MayForget(native, tags)
  {
    var two := Elsewhere(one);
    ElsewhereIsAnother(native, one);
    SecondForgets(native, tags, one, two, PopulateRow(native, one).value, PopulateRow(native, two).value);
  }

  lemma SecondForgets(native: Native, tags: set<string>, one: RouteSpec, two: RouteSpec, a: Row, b: Row)
    requires NoFailures(native) && IsValidRoute(one) && IsValidRoute(two) && a != b
    requires PopulateRow(native, one) == Some(a) && PopulateRow(native, two) == Some(b)
    requires one.tag == two.tag && one.tag in tags && TagSurvives(one.tag) && I.SUB in one.tag
    ensures MayForget(native, tags)
  {
    Both(native, one, two);
    SecondIsLost(native, one, two, a, b);
    LostForgets(native, [one, two], b, tags);
  }

  lemma SecondIsLost(native: Native, one: RouteSpec, two: RouteSpec, a: Row, b: Row)
    requires PopulateRow(native, one) == Some(a) && PopulateRow(native, two) == Some(b) && a != b
    requires TagSurvives(one.tag) && I.SUB in one.tag
    ensures b in RowsOf(native, [one, two]) && b !in RowsOf(native, Surviving([one, two]))
  {
    H.TwoRows(native, one, two, a, b);
    OneRow(native, one, a);
    FirstOnly(one, two);
  }

  lemma Both(native: Native, one: RouteSpec, two: RouteSpec)
    requires IsValidRoute(one) && IsValidRoute(two)
    requires PopulateRow(native, one).Some? && PopulateRow(native, two).Some?
    ensures Parsable(native, [one, two]) && forall r | r in [one, two] :: IsValidRoute(r)
  {
    assert forall r :: r in [one, two] <==> r == one || r == two;
  }

  lemma OneRow(native: Native, route: RouteSpec, row: Row)
    requires PopulateRow(native, route) == Some(row)
    ensures RowsOf(native, [route]) == {row} && RowsOf(native, []) == {}
  {
    RowsOfCons(native, route, []);
    assert [route] + [] == [route];
  }

  lemma FirstOnly(one: RouteSpec, two: RouteSpec)
    requires TagSurvives(one.tag) && I.SUB in one.tag
    ensures Surviving([one, two]) == [one]
  {
  }

  lemma UnsafeTagForgets(native: Native, tags: set<string>, route: RouteSpec, tag: string)
    requires NoFailures(native) && IsValidRoute(route) && PopulateRow(native, route).Some?
    requires tag in tags && !Safe(tag) && TAG_PREFIX <= tag && |tag| <= 200
    ensures MayForget(native, tags)
  {
    var one := route.(tag := tag);
    TaggedRow(native, route, tag);
    if TagSurvives(tag) {
      EndingTagForgets(native, tags, one);
    } else {
      CutTagForgets(native, tags, one);
    }
  }

  /** For any set of acceptable tags, when no native call fails: no run that requests only those ever forgets a row if
      and only if none of them holds a SUB and each has no quote or has '}' right behind its first quote. */
  lemma TagsThatForget(native: Native, tags: set<string>, route: RouteSpec)
    requires NoFailures(native) && IsValidRoute(route) && PopulateRow(native, route).Some?
    requires forall t | t in tags :: TAG_PREFIX <= t && |t| <= 200
    ensures !MayForget(native, tags) <==> forall t | t in tags :: Safe(t)
  {
    if forall t | t in tags :: Safe(t) {
      forall events | TagsIn(events, tags) ensures AlwaysAccounted(native, EMPTY, events) {
        SafeTagsForgetNothing(native, EMPTY, events, tags);
      }
    } else {
      var t :| t in tags && !Safe(t);
      UnsafeTagForgets(native, tags, route, t);
    }
  }

  /******* One request, then a restart *******/

  lemma OneRequested(native: Native, route: RouteSpec, row: Row)
    requires !native.fails(0) && IsValidRoute(route) && PopulateRow(native, route) == Some(row)
    ensures Next(native, EMPTY, Running(Request([route]))) == Service([route], Kernel({row}, {row}, 3))
  {
    assert InvalidRoutes([route]) == [];
    var start := Start(EMPTY.kernel);
    var w := AddOne(native, [], start, route);
    FirstAdded(native, route, row);
    assert [route][1..] == [];
    assert AddPhase(native, [], start, [route]) == AddPhase(native, [], w, []) == w;
  }

  lemma FirstAdded(native: Native, route: RouteSpec, row: Row)
    requires !native.fails(0) && PopulateRow(native, route) == Some(row)
    ensures var v := AddOne(native, [], Start(EMPTY.kernel), route);
            v.next == [route] && v.kernel == Kernel({row}, {row}, 3)
  {
  }

  lemma OneCleared(native: Native, kernel: Kernel, route: RouteSpec, row: Row)
    requires PopulateRow(native, route) == Some(row)
    ensures Cleared(native, kernel, [route], row) <==> !native.fails(kernel.calls)
    ensures !Cleared(native, kernel, [], row)
  {
    assert [route][1..] == [] && Populated(native, [route]) == [Some(row)] + [];
    ClearedCons(native.fails, kernel.calls, Some(row), [], row);
  }

  lemma OneRestarted(native: Native, kernel: Kernel, route: RouteSpec, row: Row)
    requires IsValidRoute(route) && PopulateRow(native, route) == Some(row) && kernel.owned == {row}
    ensures var t := Next(native, Service([route], kernel), Restarted);
            && t.managed == []
            && t.kernel.owned == if TagSurvives(route.tag) && !native.fails(kernel.calls) then {} else {row}
  {
    AcceptedIsBare(route);
    LoadKeepsExactly([route]);
    var found := Surviving([route]);
    assert found == if TagSurvives(route.tag) then [route] else [];
    LoadedRows(native, found);
    OneCleared(native, kernel, route, row);
    CleanedRows(native, kernel, AllLoaded(found), row, Cleared(native, kernel, found, row));
  }

  lemma CleanedRows(native: Native, kernel: Kernel, entries: seq<RouteSpec>, row: Row, cleared: bool)
    requires kernel.owned == {row} && cleared == Cleared(native, kernel, entries, row)
    ensures CleanupSpec(native, kernel, entries).owned == if cleared then {} else {row}
  {
    forall r ensures r in CleanupSpec(native, kernel, entries).owned <==> r == row && !cleared {
      CleanupExactly(native, kernel, entries, r);
    }
  }

  /** Requesting one route and restarting forgets its row exactly when its tag does not survive or its removal fails. */
  lemma RequestThenRestart(native: Native, route: RouteSpec, row: Row)
    requires !native.fails(0) && IsValidRoute(route) && PopulateRow(native, route) == Some(row)
    ensures var t := Run(native, EMPTY, [Running(Request([route])), Restarted]);
            && t.managed == []
            && t.kernel.owned == if TagSurvives(route.tag) && !native.fails(3) then {} else {row}
  {
    TwoEvents(native, EMPTY, Running(Request([route])), Restarted);
    OneRequested(native, route, row);
    OneRestarted(native, Kernel({row}, {row}, 3), route, row);
  }

  const QUOTED := TAG_PREFIX + "\""
  const ENDED := TAG_PREFIX + [I.SUB]

  lemma UnsafeTags()
    ensures !TagSurvives(QUOTED) && TAG_PREFIX <= QUOTED && |QUOTED| <= 200
    ensures !TagSurvives(ENDED) && TAG_PREFIX <= ENDED && |ENDED| <= 200
  {
    H.CutAt(TAG_PREFIX, "", '"');
    assert TAG_PREFIX + ['"'] + "" == QUOTED && I.SUB !in QUOTED;
    H.CutAt(TAG_PREFIX, "", I.SUB);
    assert TAG_PREFIX + [I.SUB] + "" == ENDED && '"' !in TAG_PREFIX;
  }

  /** A planned route for one address text, as the service reads it. */
  predicate Planned(native: Native, planned: P.Route, address: string, word: Word)
  {
    && IsIpv4Text(address) && '/' !in address && native.inetPton(address) == Some(word)
    && planned.destination == address + "/8" && planned.gateway == None
    && planned.interfaceName == ['1'] && |planned.ruleId| == 1
  }

  function RowAt(word: Word): Row
  {
    Row(Network(word, 8), 8, 1, ZERO)
  }

  lemma FirstPlanned(native: Native)
    requires native.inetPton == H.Machine().inetPton
    ensures Planned(native, H.FIRST_ROUTE, H.FIRST_ADDRESS, H.TEN_ONE)
  {
    H.Addresses();
    H.NoSlashes();
    H.Texts();
    H.Reads();
  }

  lemma PlannedThenRestart(native: Native, planned: P.Route, address: string, word: Word, tag: string)
    requires Planned(native, planned, address, word) && !native.fails(0) && TAG_PREFIX <= tag && |tag| <= 200
    ensures var route := E.ToSpec(planned).(tag := tag);
            var t := Run(native, EMPTY, [Running(Request([route])), Restarted]);
            && IsValidRoute(route) && t.managed == []
            && t.kernel.owned == if TagSurvives(tag) && !native.fails(3) then {} else {RowAt(word)}
  {
    H.SpecFacts(native, planned, address, '1', word);
    var route := E.ToSpec(planned);
    TaggedRow(native, route, tag);
    RequestThenRestart(native, route.(tag := tag), RowAt(word));
  }

  /** Accepted tags that forget a row although nothing fails: one ends with a quote, one with a SUB. */
  lemma CutTagIsForgotten(tag: string)
    requires tag == QUOTED || tag == ENDED
    ensures var route := E.ToSpec(H.FIRST_ROUTE).(tag := tag);
            var t := Run(H.Machine(), EMPTY, [Running(Request([route])), Restarted]);
            IsValidRoute(route) && t.managed == [] && t.kernel.owned == {RowAt(H.TEN_ONE)}
  {
    FirstPlanned(H.Machine());
    UnsafeTags();
    PlannedThenRestart(H.Machine(), H.FIRST_ROUTE, H.FIRST_ADDRESS, H.TEN_ONE, tag);
  }

  /** The machine, but the removal that the restart tries fails. */
  function Failing(): Native
  {
    H.Machine().(fails := (n: nat) => n == 3)
  }

  const PLAIN := TAG_PREFIX + "a"

  lemma PlainTag()
    ensures Safe(PLAIN) && TAG_PREFIX <= PLAIN && |PLAIN| <= 200
  {
  }

  /** A row of a plain tag is forgotten when the cleanup of the restart cannot remove it. */
  lemma FailingRemovalForgets()
    ensures var route := E.ToSpec(H.FIRST_ROUTE).(tag := PLAIN);
            var t := Run(Failing(), EMPTY, [Running(Request([route])), Restarted]);
            && IsValidRoute(route) && Safe(PLAIN)
            && t.managed == [] && t.kernel.owned == {RowAt(H.TEN_ONE)}
  {
    FirstPlanned(Failing());
    PlainTag();
    PlannedThenRestart(Failing(), H.FIRST_ROUTE, H.FIRST_ADDRESS, H.TEN_ONE, PLAIN);
  }
}

/** The saved inventory: the printer `Save` and the regular-expression scanner `Load`, over a file in text mode. */
module InventoryText {
  import opened Common
  import opened Protocol

  const OPEN := "{\"destination\":\""
  const GATEWAY := "\",\"gateway\":\""
  const LUID := "\",\"interfaceLuid\":\""
  const TAG := "\",\"tag\":\""
  const CLOSE := "\"}"
  const HEADER := "{" + HEADER_TAIL
  const HEADER_TAIL := "\n  \"version\": 1,\n  \"routes\": ["
  const FOOTER := "\n  ]\n}\n"

  /******* The file: streams in text mode *******/

  /** The character that ends the input of a stream in text mode. */
  const SUB: char := '\U{1A}'

  /** What a stream in text mode writes for a text. */
  function FileOf(text: string): string
  {
    if text == "" then "" else (if text[0] == '\n' then "\r\n" else [text[0]]) + FileOf(text[1..])
  }

  /** What a stream in text mode reads from a file. */
  function TextOf(file: string): string
  {
    if file == "" || file[0] == SUB then ""
    else if |file| >= 2 && file[0] == '\r' && file[1] == '\n' then "\n" + TextOf(file[2..])
    else [file[0]] + TextOf(file[1..])
  }

  /** What was written is read back up to the first SUB. */
  lemma {:induction false} TextOfFile(text: string)
    ensures TextOf(FileOf(text)) == Before(text, SUB)
  {
    if text != "" {
      var left := FileOf(text[1..]);
      TextOfFile(text[1..]);
      if text[0] == '\n' {
        assert ("\r\n" + left)[2..] == left;
      } else {
        assert ([text[0]] + left)[1..] == left;
        assert left != "" ==> left[0] != '\n';
      }
    }
  }

  /******* Printer *******/

  function Escape(value: string): (output: string)
  {
    if value == "" then "" else
      (if value[0] == '\\' || value[0] == '"' then "\\" else "") + [value[0]] + Escape(value[1..])
  }

  function Entry(route: RouteSpec): string
  {
    OPEN + (Escape(route.destination) + (GATEWAY + (Escape(route.gateway) + (LUID + (Escape(route.interfaceLuid)
    + (TAG + (Escape(route.tag) + CLOSE)))))))
  }

  function Separator(first: bool): string
  {
    (if first then "\n" else ",\n") + "    "
  }

  function Entries(routes: seq<RouteSpec>, first: bool): string
  {
    if routes == [] then "" else Separator(first) + Entry(routes[0]) + Entries(routes[1..], false)
  }

  function SaveText(routes: seq<RouteSpec>): string
  {
    HEADER + Entries(routes, true) + FOOTER
  }

  /******* Scanner *******/

  /** `([^"]*)` up to the next quote, then a fixed text: the captured group and what follows the fixed text. */
  function Capture(text: string, fixed: string): (c: Option<(string, string)>)
    requires fixed != "" && fixed[0] == '"'
    ensures c.Some? ==> |c.value.1| < |text|
  {
    var group := Before(text, '"');
    var rest := text[|group|..];
    if fixed <= rest then Some((group, rest[|fixed|..])) else None
  }

  /** The pattern anchored at the start of `text`: the captured route and the text after the match. A group cannot
      hold a quote and is followed by one, so at each position the pattern matches in at most one way. */
  function MatchAt(text: string): (m: Option<(RouteSpec, string)>)
    ensures m.Some? ==> |m.value.1| < |text|
  {
    if !(OPEN <= text) then None else
      var destination := Capture(text[|OPEN|..], GATEWAY);
      if destination.None? then None else
        var gateway := Capture(destination.value.1, LUID);
        if gateway.None? then None else
          var luid := Capture(gateway.value.1, TAG);
          if luid.None? then None else
            var tag := Capture(luid.value.1, CLOSE);
            if tag.None? then None else
              Some((RouteSpec(destination.value.0, gateway.value.0, luid.value.0, tag.value.0), tag.value.1))
  }

  /** Leftmost, non-overlapping matches. */
  function Scan(text: string): seq<RouteSpec>
    decreases |text|
  {
    if text == "" then [] else
      var m := MatchAt(text);
      if m.Some? then [m.value.0] + Scan(m.value.1) else Scan(text[1..])
  }

  method Load(file: string) returns (managed: seq<RouteSpec>)
    ensures managed == Scan(TextOf(file))
  {
    managed := [];
    var text := TextOf(file);
    var rest := text;
    while rest != ""
      invariant managed + Scan(rest) == Scan(text)
      decreases |rest|
    {
      var m := MatchAt(rest);
      if m.Some? {
        managed := managed + [m.value.0];
        rest := m.value.1;
      } else {
        rest := rest[1..];
      }
    }
  }

  lemma NextEntry(managed: seq<RouteSpec>, i: nat, first: bool, text: string)
    requires i < |managed|
    ensures text + Entries(managed[i..], first)
            == text + (Separator(first) + Entry(managed[i])) + Entries(managed[i + 1..], false)
  {
    assert managed[i..][1..] == managed[i + 1..];
    Concat(text, Separator(first) + Entry(managed[i]), Entries(managed[i + 1..], false));
  }

  method Save(managed: seq<RouteSpec>) returns (file: string)
    ensures file == FileOf(SaveText(managed))
  {
    var text := HEADER;
    ghost var goal := text + Entries(managed, true);
    assert managed[0..] == managed;
    for i := 0 to |managed|
      invariant text + Entries(managed[i..], i == 0) == goal
    {
      NextEntry(managed, i, i == 0, text);
      text := text + (Separator(i == 0) + Entry(managed[i]));
    }
    assert text + "" == text;
    file := FileOf(text + FOOTER);
  }

  /** What `Load` makes of what `Save` wrote. */
  function ReadBack(routes: seq<RouteSpec>): seq<RouteSpec>
  {
    Scan(TextOf(FileOf(SaveText(routes))))
  }

  /******* Round trip *******/

  predicate Plain(value: string)
  {
    forall c | c in value :: c != '"' && c != '\\'
  }

  predicate PlainRoute(route: RouteSpec)
  {
    Plain(route.destination) && Plain(route.gateway) && Plain(route.interfaceLuid) && Plain(route.tag)
  }

  predicate Unquoted(route: RouteSpec)
  {
    '"' !in route.destination && '"' !in route.gateway && '"' !in route.interfaceLuid && '"' !in route.tag
  }

  function Escaped(route: RouteSpec): RouteSpec
  {
    RouteSpec(Escape(route.destination), Escape(route.gateway), Escape(route.interfaceLuid), Escape(route.tag))
  }

  function AllEscaped(routes: seq<RouteSpec>): seq<RouteSpec>
  {
    if routes == [] then [] else [Escaped(routes[0])] + AllEscaped(routes[1..])
  }

  lemma {:induction false} EscapeUnquoted(value: string)
    requires '"' !in value
    ensures '"' !in Escape(value)
  {
    if value != "" {
      EscapeUnquoted(value[1..]);
    }
  }

  /** Escaping is the identity exactly on plain text: it lengthens everything else. */
  lemma {:induction false} EscapePlain(value: string)
    ensures Plain(value) ==> Escape(value) == value
    ensures !Plain(value) ==> |Escape(value)| > |value|
  {
    if value != "" {
      EscapePlain(value[1..]);
      assert value == [value[0]] + value[1..];
      assert forall c :: c in value <==> c == value[0] || c in value[1..];
      if Plain(value) {
        assert value[0] in value;
        assert Escape(value) == [value[0]] + Escape(value[1..]);
      }
    }
  }

  lemma {:induction false} BeforeQuote(group: string, rest: string)
    requires '"' !in group && rest != "" && rest[0] == '"'
    ensures Before(group + rest, '"') == group
  {
    if group == "" {
      assert group + rest == rest;
    } else {
      assert (group + rest)[1..] == group[1..] + rest;
      BeforeQuote(group[1..], rest);
    }
  }

  lemma CaptureField(group: string, fixed: string, rest: string)
    requires '"' !in group && fixed != "" && fixed[0] == '"'
    ensures Capture(group + (fixed + rest), fixed) == Some((group, rest))
  {
    BeforeQuote(group, fixed + rest);
    assert (group + (fixed + rest))[|group|..] == fixed + rest;
    assert (fixed + rest)[|fixed|..] == rest;
  }

  lemma MatchEntry(route: RouteSpec, rest: string)
    requires Unquoted(route)
    ensures MatchAt(Entry(route) + rest) == Some((Escaped(route), rest))
  {
    var e := Escaped(route);
    EscapeUnquoted(route.destination);
    EscapeUnquoted(route.gateway);
    EscapeUnquoted(route.interfaceLuid);
    EscapeUnquoted(route.tag);
    var t4 := e.tag + (CLOSE + rest);
    var t3 := e.interfaceLuid + (TAG + t4);
    var t2 := e.gateway + (LUID + t3);
    var t1 := e.destination + (GATEWAY + t2);
    EntryGroups(route, rest);
    assert (OPEN + t1)[|OPEN|..] == t1;
    CaptureField(e.destination, GATEWAY, t2);
    CaptureField(e.gateway, LUID, t3);
    CaptureField(e.interfaceLuid, TAG, t4);
    CaptureField(e.tag, CLOSE, rest);
  }

  lemma EntryGroups(route: RouteSpec, rest: string)
    ensures var e := Escaped(route);
            Entry(route) + rest
            == OPEN + (e.destination + (GATEWAY + (e.gateway + (LUID + (e.interfaceLuid + (TAG + (e.tag + (CLOSE
                + rest))))))))
  {
    var e := Escaped(route);
    var t4 := e.tag + CLOSE;
    var t3 := e.interfaceLuid + (TAG + t4);
    var t2 := e.gateway + (LUID + t3);
    var t1 := e.destination + (GATEWAY + t2);
    assert (OPEN + t1) + rest == OPEN + (t1 + rest);
    Regrouped(e.destination, GATEWAY, t2, rest);
    Regrouped(e.gateway, LUID, t3, rest);
    Regrouped(e.interfaceLuid, TAG, t4, rest);
    assert t4 + rest == e.tag + (CLOSE + rest);
  }

  lemma Regrouped(group: string, fixed: string, tail: string, rest: string)
    ensures (group + (fixed + tail)) + rest == group + (fixed + (tail + rest))
  {
  }

  /** Text without an opening brace is skipped. */
  lemma {:induction false} ScanSkips(glue: string, rest: string)
    requires '{' !in glue
    ensures Scan(glue + rest) == Scan(rest)
  {
    if glue == "" {
      assert glue + rest == rest;
    } else {
      assert (glue + rest)[0] == glue[0] != '{';
      assert (glue + rest)[1..] == glue[1..] + rest;
      ScanSkips(glue[1..], rest);
    }
  }

  lemma NoMatchHere(text: string)
    requires |text| >= 2 && text[1] != '"'
    ensures Scan(text) == Scan(text[1..])
  {
    assert OPEN[1] == '"';
    assert !(OPEN <= text);
  }

  lemma TailHasNoBrace()
    ensures '{' !in HEADER_TAIL && HEADER_TAIL[0] == '\n'
  {
  }

  lemma ScanHeader(rest: string)
    ensures Scan(HEADER + rest) == Scan(rest)
  {
    var tail := HEADER_TAIL + rest;
    TailHasNoBrace();
    assert HEADER + rest == "{" + tail;
    NoMatchHere("{" + tail);
    assert ("{" + tail)[1..] == tail;
    ScanSkips(HEADER_TAIL, rest);
  }

  lemma {:induction false} ScanEntries(routes: seq<RouteSpec>, first: bool)
    requires forall r | r in routes :: Unquoted(r)
    ensures Scan(Entries(routes, first) + FOOTER) == AllEscaped(routes)
  {
    if routes == [] {
      assert Entries(routes, first) + FOOTER == FOOTER + "";
      ScanSkips(FOOTER, "");
    } else {
      var left := Entries(routes[1..], false);
      var rest := left + FOOTER;
      var entry := Entry(routes[0]) + rest;
      assert Entries(routes, first) + FOOTER == Separator(first) + entry by {
        Concat(Separator(first) + Entry(routes[0]), left, FOOTER);
        Concat(Separator(first), Entry(routes[0]), rest);
      }
      ScanSkips(Separator(first), entry);
      MatchEntry(routes[0], rest);
      ScanEntries(routes[1..], false);
    }
  }

  /** No field ends the file. */
  predicate Whole(route: RouteSpec)
  {
    SUB !in route.destination && SUB !in route.gateway && SUB !in route.interfaceLuid && SUB !in route.tag
  }

  lemma {:induction false} EscapeChars(value: string, c: char)
    requires c != '\\'
    ensures c in Escape(value) <==> c in value
  {
    if value != "" {
      EscapeChars(value[1..], c);
      assert value == [value[0]] + value[1..];
    }
  }

  lemma FixedTextsHaveNoSub()
    ensures SUB !in OPEN && SUB !in GATEWAY && SUB !in LUID && SUB !in TAG && SUB !in CLOSE
    ensures SUB !in HEADER && SUB !in FOOTER && SUB !in Separator(true) && SUB !in Separator(false)
  {
  }

  lemma EntryHasSub(route: RouteSpec)
    ensures SUB in Entry(route) <==> !Whole(route)
  {
    FixedTextsHaveNoSub();
    EscapeChars(route.destination, SUB);
    EscapeChars(route.gateway, SUB);
    EscapeChars(route.interfaceLuid, SUB);
    EscapeChars(route.tag, SUB);
  }

  lemma {:induction false} EntriesHaveSub(routes: seq<RouteSpec>, first: bool)
    ensures SUB in Entries(routes, first) <==> exists r :: r in routes && !Whole(r)
  {
    if routes != [] {
      FixedTextsHaveNoSub();
      EntryHasSub(routes[0]);
      EntriesHaveSub(routes[1..], false);
      assert forall r :: r in routes <==> r == routes[0] || r in routes[1..];
    }
  }

  /** Reading back means scanning the entries up to the first SUB. */
  lemma ReadBackIs(routes: seq<RouteSpec>)
    ensures ReadBack(routes) == Scan(Before(Entries(routes, true) + FOOTER, SUB))
  {
    var rest := Entries(routes, true) + FOOTER;
    TextOfFile(SaveText(routes));
    Concat(HEADER, Entries(routes, true), FOOTER);
    FixedTextsHaveNoSub();
    BeforeAppend(HEADER, rest, SUB);
    ScanHeader(Before(rest, SUB));
  }

  /** What `Load` reads back from what `Save` wrote, when no field holds a quote or ends the file: every field escaped,
      in order. */
  lemma ScanOfSave(routes: seq<RouteSpec>)
    requires forall r | r in routes :: Unquoted(r) && Whole(r)
    ensures ReadBack(routes) == AllEscaped(routes)
  {
    ReadBackIs(routes);
    EntriesHaveSub(routes, true);
    FixedTextsHaveNoSub();
    ScanEntries(routes, true);
  }

  lemma {:induction false} AllEscapedIdentity(routes: seq<RouteSpec>)
    ensures |AllEscaped(routes)| == |routes|
    ensures AllEscaped(routes) == routes <==> forall r | r in routes :: PlainRoute(r)
  {
    if routes != [] {
      var r, rest := routes[0], routes[1..];
      assert routes == [r] + rest;
      AllEscapedIdentity(rest);
      EscapePlain(r.destination);
      EscapePlain(r.gateway);
      EscapePlain(r.interfaceLuid);
      EscapePlain(r.tag);
      assert Escaped(r) == r <==> PlainRoute(r);
      assert AllEscaped(routes) == routes <==> Escaped(r) == r && AllEscaped(rest) == rest by {
        assert AllEscaped(routes)[0] == Escaped(r) && AllEscaped(routes)[1..] == AllEscaped(rest);
      }
    }
  }

  /** A scanned field never holds a quote. */
  lemma {:induction false} ScannedUnquoted(text: string)
    ensures forall r | r in Scan(text) :: Unquoted(r)
    decreases |text|
  {
    if text != "" {
      var m := MatchAt(text);
      if m.Some? {
        ScannedUnquoted(m.value.1);
      } else {
        ScannedUnquoted(text[1..]);
      }
    }
  }

  lemma CapturedChars(text: string, fixed: string, c: char)
    requires fixed != "" && fixed[0] == '"' && Capture(text, fixed).Some? && c !in text
    ensures c !in Capture(text, fixed).value.0 && c !in Capture(text, fixed).value.1
  {
    if '"' in text {
      BeforeAfter(text, '"');
    }
  }

  lemma MatchedChars(text: string)
    requires MatchAt(text).Some? && SUB !in text
    ensures Whole(MatchAt(text).value.0) && SUB !in MatchAt(text).value.1
  {
    var t1 := text[|OPEN|..];
    CapturedChars(t1, GATEWAY, SUB);
    var t2 := Capture(t1, GATEWAY).value.1;
    CapturedChars(t2, LUID, SUB);
    var t3 := Capture(t2, LUID).value.1;
    CapturedChars(t3, TAG, SUB);
    CapturedChars(Capture(t3, TAG).value.1, CLOSE, SUB);
  }

  /** A scanned field holds no SUB, because the text held none. */
  lemma {:induction false} ScannedWhole(text: string)
    requires SUB !in text
    ensures forall r | r in Scan(text) :: Whole(r)
    decreases |text|
  {
    if text != "" {
      var m := MatchAt(text);
      if m.Some? {
        MatchedChars(text);
        ScannedWhole(m.value.1);
      } else {
        ScannedWhole(text[1..]);
      }
    }
  }

  /** What was saved is read back unchanged exactly when no field holds a quote, a backslash or a SUB: `Load` never
      unescapes, and in text mode SUB ends the file. */
  lemma SavedInventoryRoundTrip(routes: seq<RouteSpec>)
    ensures ReadBack(routes) == routes <==> forall r | r in routes :: PlainRoute(r) && Whole(r)
  {
    if exists r :: r in routes && !Unquoted(r) {
      ScannedUnquoted(TextOf(FileOf(SaveText(routes))));
    } else if exists r :: r in routes && !Whole(r) {
      TextOfFile(SaveText(routes));
      ScannedWhole(TextOf(FileOf(SaveText(routes))));
    } else {
      ScanOfSave(routes);
      AllEscapedIdentity(routes);
    }
  }

  /** Destination, gateway and LUID of an accepted route are plain, so only its tag can break the round trip. */
  lemma AcceptedFieldsArePlain(route: RouteSpec)
    requires IsValidRoute(route)
    ensures PlainRoute(route) <==> Plain(route.tag)
    ensures Whole(route) <==> SUB !in route.tag
  {
    PlainAddress(Before(route.destination, '/'));
    BeforeAfter(route.destination, '/');
    if route.gateway != "" {
      PlainAddress(route.gateway);
    }
  }

  lemma {:induction false} SplitParts(s: string, c: char)
    requires forall p | p in Split(s, c) :: AllDigits(p)
    requires c != '"' && c != '\\' && c != SUB
    ensures Plain(s) && SUB !in s
    decreases |s|
  {
    if c in s {
      BeforeAfter(s, c);
      var tail := Split(After(s, c), c);
      assert Split(s, c) == [Before(s, c)] + tail;
      assert Before(s, c) in Split(s, c);
      forall p | p in tail ensures AllDigits(p) {
        assert p in Split(s, c);
      }
      SplitParts(After(s, c), c);
    } else {
      assert s in Split(s, c);
    }
  }

  lemma PlainAddress(s: string)
    requires IsIpv4Text(s)
    ensures Plain(s) && SUB !in s
  {
    SplitParts(s, '.');
  }
}

/** The rewriter of the hosts file and the resolver's reader of it: when they agree. */
module HostsAgreement {
  import opened Common
  import opened HostsText
  import opened ManagedHosts
  import opened HostsTheorems

  /******* What the reader collects *******/

  lemma {:induction false} CollectConcat(inetPton: string -> bool, name: string, a: seq<string>, b: seq<string>,
      found: seq<string>)
    ensures Collect(inetPton, name, a + b, found) == Collect(inetPton, name, b, Collect(inetPton, name, a, found))
    decreases |a|
  {
    if a == [] {
      assert a + b == b;
    } else {
      assert (a + b)[0] == a[0] && (a + b)[1..] == a[1..] + b;
      CollectConcat(inetPton, name, a[1..], b, CollectOne(inetPton, name, a[0], found));
    }
  }

  lemma {:induction false} CollectSkips(inetPton: string -> bool, name: string, lines: seq<string>, found: seq<string>)
    requires !Covers(lines, name)
    ensures Collect(inetPton, name, lines, found) == found
    decreases |lines|
  {
    if lines != [] {
      assert lines[0] in lines;
      assert forall l | l in lines[1..] :: l in lines;
      CollectSkips(inetPton, name, lines[1..], found);
    }
  }

  /** The reader takes an address for the name from this piece. */
  predicate Gives(inetPton: string -> bool, name: string, piece: string)
  {
    name in Names(piece) && inetPton(Address(piece))
  }

  ghost predicate SomeGives(inetPton: string -> bool, name: string, pieces: seq<string>)
  {
    exists p :: p in pieces && Gives(inetPton, name, p)
  }

  ghost predicate AllGive(inetPton: string -> bool, name: string, pieces: seq<string>, address: string)
  {
    forall p | p in pieces && Gives(inetPton, name, p) :: Address(p) == address
  }

  /** Pieces that all give one address contribute that address, once. */
  lemma {:induction false} CollectAgreeing(inetPton: string -> bool, name: string, pieces: seq<string>, address: string,
      found: seq<string>)
    requires AllGive(inetPton, name, pieces, address) && (found == [] || found == [address])
    ensures Collect(inetPton, name, pieces, found)
            == if found == [address] || SomeGives(inetPton, name, pieces) then [address] else []
    decreases |pieces|
  {
    if pieces != [] {
      var next := CollectOne(inetPton, name, pieces[0], found);
      assert forall p :: p in pieces <==> p == pieces[0] || p in pieces[1..];
      assert SomeGives(inetPton, name, pieces)
          <==> Gives(inetPton, name, pieces[0]) || SomeGives(inetPton, name, pieces[1..]);
      if Gives(inetPton, name, pieces[0]) && found == [] {
        assert found + [address] == [address];
      }
      CollectAgreeing(inetPton, name, pieces[1..], address, next);
    }
  }

  lemma {:induction false} CollectKeeps(inetPton: string -> bool, name: string, lines: seq<string>,
      found: seq<string>, address: string)
    requires address in found
    ensures address in Collect(inetPton, name, lines, found)
    decreases |lines|
  {
    if lines != [] {
      CollectKeeps(inetPton, name, lines[1..], CollectOne(inetPton, name, lines[0], found), address);
    }
  }

  lemma {:induction false} CollectFinds(inetPton: string -> bool, name: string, pieces: seq<string>, piece: string,
      found: seq<string>)
    requires piece in pieces && Gives(inetPton, name, piece)
    ensures Address(piece) in Collect(inetPton, name, pieces, found)
    decreases |pieces|
  {
    var next := CollectOne(inetPton, name, pieces[0], found);
    if piece == pieces[0] {
      CollectKeeps(inetPton, name, pieces[1..], next, Address(piece));
    } else {
      assert forall p :: p in pieces <==> p == pieces[0] || p in pieces[1..];
      CollectFinds(inetPton, name, pieces[1..], piece, next);
    }
  }

  /** The reader finds exactly one address iff some piece gives it and none gives another. */
  lemma CollectsOneExactly(inetPton: string -> bool, name: string, pieces: seq<string>, address: string)
    ensures Collect(inetPton, name, pieces, []) == [address]
            <==> AllGive(inetPton, name, pieces, address) && SomeGives(inetPton, name, pieces)
  {
    if AllGive(inetPton, name, pieces, address) {
      CollectAgreeing(inetPton, name, pieces, address, []);
    } else {
      var p :| p in pieces && Gives(inetPton, name, p) && Address(p) != address;
      CollectFinds(inetPton, name, pieces, p, []);
    }
  }

  predicate OnlyPlainNewlines(text: string)
  {
    forall c | c in text :: IsNewline(c) ==> c == '\n'
  }

  lemma PieceIsLine(text: string)
    requires OnlyPlainNewlines(text) && text != "" && text[0] != '\n'
    ensures var p := PieceEnd(text);
            if p == |text| then LineEnd(text) == p else LineEnd(text) == p + 1 && text[p] == '\n'
  {
    var p, n := PieceEnd(text), LineEnd(text);
    assert '\n' in text ==> IsNewline(text[n - 1]);
    if p < |text| {
      assert text[p] in text;
      forall i | 0 <= i < n - 1 ensures text[i] != '\n' {
        assert text[..n - 1][i] == text[i];
      }
    }
  }

  lemma EmptyLine(rest: string)
    ensures Lines("\n" + rest) == ["\n"] + Lines(rest) && Pieces("\n" + rest) == Pieces(rest)
    ensures Names("\n") == {}
  {
    LinesCons("\n", rest);
    assert ("\n" + rest)[1..] == rest;
    assert Before("\n", '#') == "\n" && "\n"[1..] == "";
    assert Fields("\n") == [];
  }

  lemma CutAtNewline(text: string, p: nat)
    requires p < |text| && text[p] == '\n'
    ensures text[p..] == "\n" + text[p + 1..] && text[..p + 1] == text[..p] + ['\n']
  {
  }

  lemma FirstPieceCut(text: string, p: nat)
    requires OnlyPlainNewlines(text) && text != "" && text[0] != '\n' && p == PieceEnd(text) && p < |text|
    ensures Pieces(text) == [text[..p]] + Pieces(text[p + 1..])
    ensures Lines(text) == [text[..p] + ['\n']] + Lines(text[p + 1..])
  {
    PieceIsLine(text);
    CutAtNewline(text, p);
    EmptyLine(text[p + 1..]);
    assert Pieces(text) == [text[..p]] + Pieces(text[p..]);
  }

  lemma OnlyPiece(text: string)
    requires OnlyPlainNewlines(text) && text != "" && text[0] != '\n' && PieceEnd(text) == |text|
    ensures Pieces(text) == [text] + Pieces("") && Lines(text) == [text] + Lines("")
  {
    PieceIsLine(text);
    assert text[..|text|] == text && text[|text|..] == "";
  }

  /** The first piece and the first line of a text that does not start with a newline. */
  lemma FirstPiece(text: string) returns (piece: string, line: string, rest: string)
    requires OnlyPlainNewlines(text) && text != "" && text[0] != '\n'
    ensures OnlyPlainNewlines(rest) && |rest| < |text|
    ensures Pieces(text) == [piece] + Pieces(rest) && Lines(text) == [line] + Lines(rest)
    ensures Fields(piece) == Fields(line)
  {
    var p := PieceEnd(text);
    if p < |text| {
      FirstPieceCut(text, p);
      piece, line, rest := text[..p], text[..p] + ['\n'], text[p + 1..];
      FieldsTrailingBlank(piece, '\n');
    } else {
      OnlyPiece(text);
      piece, line, rest := text, text, "";
    }
  }

  lemma {:induction false} JoinChars(lines: seq<string>, c: char)
    ensures c in Join(lines) <==> exists l :: l in lines && c in l
  {
    if lines != [] {
      JoinChars(lines[1..], c);
      assert forall l :: l in lines <==> l == lines[0] || l in lines[1..];
    }
  }

  lemma EntryHasPlainNewlines(mappings: map<string, string>, l: string)
    requires ValidDesired(mappings) && IsEntry(l, mappings)
    ensures OnlyPlainNewlines(l)
  {
    var k :| k in mappings && l == EntryLine(k, mappings[k]);
    AcceptedHost(k);
    AcceptedAddress(mappings[k]);
    SafeNotBlank(k);
    SafeNotBlank(mappings[k]);
    var address := mappings[k];
    assert forall c | c in l :: c in address || c == '\t' || c in k || c == '\n';
  }

  lemma BlockHasPlainNewlines(mappings: map<string, string>)
    requires ValidDesired(mappings)
    ensures OnlyPlainNewlines(Join(BlockLines(mappings)))
  {
    if mappings != map[] {
      forall l | l in BlockLines(mappings) ensures OnlyPlainNewlines(l) {
        BlockLineKinds(mappings, l);
        MarkersHavePlainNewlines();
        if IsEntry(l, mappings) {
          EntryHasPlainNewlines(mappings, l);
        }
      }
    }
    forall c | c in Join(BlockLines(mappings)) && IsNewline(c) ensures c == '\n' {
      JoinChars(BlockLines(mappings), c);
    }
  }

  lemma BlockLineNames(mappings: map<string, string>, l: string, name: string)
    requires ValidDesired(mappings) && mappings != map[] && l in BlockLines(mappings) && name in Names(l)
    ensures name in mappings && Address(l) == mappings[name]
  {
    BlockLineKinds(mappings, l);
    MarkerKinds();
    var k :| k in mappings && l == EntryLine(k, mappings[k]);
    EntryLineFacts(k, mappings[k]);
  }

  lemma BlockCovers(mappings: map<string, string>, name: string)
    requires ValidDesired(mappings)
    ensures Covers(BlockLines(mappings), name) <==> name in mappings
    ensures forall l | l in BlockLines(mappings) && name in Names(l) :: name in mappings && Address(l) == mappings[name]
  {
    var block := BlockLines(mappings);
    if mappings != map[] {
      forall l | l in block && name in Names(l) ensures name in mappings && Address(l) == mappings[name] {
        BlockLineNames(mappings, l, name);
      }
      if name in mappings {
        BlockShape(mappings);
        var l := EntryLine(name, mappings[name]);
        EntryLineFacts(name, mappings[name]);
        assert IsEntry(l, mappings);
        assert l in block[1..|block| - 1];
        assert l in block;
      }
    }
  }

  lemma {:induction false} PieceOf(piece: string, rest: string)
    requires forall c | c in piece :: !IsNewline(c)
    requires rest == "" || IsNewline(rest[0])
    ensures PieceEnd(piece + rest) == |piece|
  {
    if piece == "" {
      assert piece + rest == rest;
    } else {
      assert piece[0] in piece;
      assert (piece + rest)[1..] == piece[1..] + rest;
      PieceOf(piece[1..], rest);
    }
  }

  lemma PiecesCons(piece: string, rest: string)
    requires piece != "" && forall c | c in piece :: !IsNewline(c)
    requires rest == "" || IsNewline(rest[0])
    ensures Pieces(piece + rest) == [piece] + Pieces(rest)
  {
    PieceOf(piece, rest);
    assert piece[0] in piece && (piece + rest)[0] == piece[0];
    assert (piece + rest)[..|piece|] == piece && (piece + rest)[|piece|..] == rest;
  }

  /******* Pieces of a text put together from lines *******/

  predicate EndsPiece(text: string)
  {
    text == "" || IsNewline(text[|text| - 1])
  }

  lemma {:induction false} PieceEndStays(a: string, b: string)
    requires PieceEnd(a) < |a|
    ensures PieceEnd(a + b) == PieceEnd(a)
  {
    if !IsNewline(a[0]) {
      assert (a + b)[1..] == a[1..] + b;
      PieceEndStays(a[1..], b);
    }
  }

  /** Behind a newline Character the pieces start afresh. */
  lemma {:induction false} PiecesConcat(a: string, b: string)
    requires EndsPiece(a)
    ensures Pieces(a + b) == Pieces(a) + Pieces(b)
    decreases |a|
  {
    if a == "" {
      assert a + b == b;
    } else if IsNewline(a[0]) {
      assert (a + b)[1..] == a[1..] + b;
      PiecesConcat(a[1..], b);
    } else {
      var p := FirstPieceEnds(a, b);
      PiecesConcat(a[p..], b);
      Concat([a[..p]], Pieces(a[p..]), Pieces(b));
    }
  }

  lemma FirstPieceEnds(a: string, b: string) returns (p: nat)
    requires EndsPiece(a) && a != "" && !IsNewline(a[0])
    ensures 0 < p < |a| && EndsPiece(a[p..])
    ensures Pieces(a) == [a[..p]] + Pieces(a[p..]) && Pieces(a + b) == [a[..p]] + Pieces(a[p..] + b)
  {
    p := PieceEnd(a);
    assert p < |a| by {
      assert IsNewline(a[|a| - 1]);
    }
    PieceEndStays(a, b);
    FirstOf(a, p);
    FirstOf(a + b, p);
    assert (a + b)[..p] == a[..p] && (a + b)[p..] == a[p..] + b;
  }

  lemma FirstOf(text: string, p: nat)
    requires text != "" && !IsNewline(text[0]) && p == PieceEnd(text)
    ensures Pieces(text) == [text[..p]] + Pieces(text[p..])
  {
  }

  /** A newline at the end adds no piece. */
  lemma {:induction false} PiecesCompleted(text: string, newline: char)
    requires IsNewline(newline)
    ensures Pieces(text + [newline]) == Pieces(text)
    decreases |text|
  {
    if text == "" {
      assert text + [newline] == [newline] && [newline][1..] == "";
    } else if IsNewline(text[0]) {
      assert (text + [newline])[1..] == text[1..] + [newline];
      PiecesCompleted(text[1..], newline);
    } else {
      var p := PieceEnd(text);
      FirstOf(text, p);
      if p < |text| {
        PieceEndStays(text, [newline]);
        FirstOf(text + [newline], p);
        assert (text + [newline])[..p] == text[..p] && (text + [newline])[p..] == text[p..] + [newline];
        PiecesCompleted(text[p..], newline);
      } else {
        assert forall c | c in text :: !IsNewline(c);
        PiecesCons(text, [newline]);
        assert [newline][1..] == "" && Pieces([newline]) == Pieces("");
        assert text[..p] == text && text[p..] == "";
      }
    }
  }

  /** Without other newlines, pieces and lines say the same. */
  lemma {:induction false} PiecesMatchLines(text: string)
    requires OnlyPlainNewlines(text)
    ensures FromLines(Pieces(text), Lines(text)) && IntoPieces(Lines(text), Pieces(text))
    decreases |text|
  {
    if text != "" {
      if text[0] == '\n' {
        var rest := text[1..];
        assert text == "\n" + rest;
        EmptyLine(rest);
        PiecesMatchLines(rest);
        OneLineMore(Pieces(rest), "\n", Lines(rest));
      } else {
        var piece, line, rest := FirstPiece(text);
        PiecesMatchLines(rest);
        OneOfEachMore(piece, Pieces(rest), line, Lines(rest));
      }
    }
  }

  lemma OneLineMore(pieces: seq<string>, line: string, lines: seq<string>)
    requires FromLines(pieces, lines) && IntoPieces(lines, pieces) && Names(line) == {}
    ensures FromLines(pieces, [line] + lines) && IntoPieces([line] + lines, pieces)
  {
    forall p | p in pieces ensures exists l :: l in [line] + lines && Fields(l) == Fields(p) {
      var l :| l in lines && Fields(l) == Fields(p);
      assert l in [line] + lines;
    }
  }

  lemma OneOfEachMore(piece: string, pieces: seq<string>, line: string, lines: seq<string>)
    requires FromLines(pieces, lines) && IntoPieces(lines, pieces) && Fields(line) == Fields(piece)
    ensures FromLines([piece] + pieces, [line] + lines) && IntoPieces([line] + lines, [piece] + pieces)
  {
    assert line in [line] + lines && piece in [piece] + pieces;
    forall p | p in [piece] + pieces ensures exists l :: l in [line] + lines && Fields(l) == Fields(p) {
      if p in pieces {
        var l :| l in lines && Fields(l) == Fields(p);
        assert l in [line] + lines;
      }
    }
    forall l | l in [line] + lines && Names(l) != {}
      ensures exists p :: p in [piece] + pieces && Fields(l) == Fields(p)
    {
      if l in lines {
        var p :| p in pieces && Fields(l) == Fields(p);
        assert p in [piece] + pieces;
      }
    }
  }

  /******* Pieces of the rewritten file *******/

  lemma TerminatedEndsPiece(lines: seq<string>)
    requires AllTerminated(lines)
    ensures EndsPiece(Join(lines)) && (Join(lines) == "" || EndsLine(Join(lines)))
  {
    if lines != [] {
      assert lines[|lines| - 1] in lines;
      assert WellFormed(lines);
      JoinEndsLine(lines);
    }
  }

  /** The pieces of the text outside the block, those before it and those behind it. */
  ghost function Around(layout: Layout): (seq<string>, seq<string>)
  {
    (Pieces(Join(layout.pre)), Pieces(Join(layout.post)))
  }

  lemma OutsidePieces(layout: Layout)
    requires WellFormed(All(layout)) && (layout.block == [] ==> layout.post == [])
    ensures Pieces(Join(layout.pre) + Join(layout.post)) == Around(layout).0 + Around(layout).1
  {
    SurroundingsWellFormed(layout);
    if layout.block != [] {
      TerminatedEndsPiece(layout.pre);
      PiecesConcat(Join(layout.pre), Join(layout.post));
    } else {
      NothingBehind(layout.pre);
      assert Around(layout).1 == [];
    }
  }

  lemma ReplacedPieces(pre: string, block: string, post: string)
    requires EndsPiece(pre) && EndsPiece(block)
    ensures Pieces(pre + block + post) == Pieces(pre) + Pieces(block) + Pieces(post)
  {
    Concat(pre, block, post);
    PiecesConcat(pre, block + post);
    PiecesConcat(block, post);
    Concat(Pieces(pre), Pieces(block), Pieces(post));
  }

  /** Whatever a text ends with, and whether or not a line feed joins it: the pieces behind it start afresh. */
  lemma AppendedPieces(text: string, block: string)
    requires !StartsFeed(block)
    ensures Pieces(Append(text, (if text == "" || EndsLine(text) then "" else "\n") + block))
            == Pieces(text) + Pieces(block)
  {
    if text == "" || EndsLine(text) {
      assert "" + block == block;
      PiecesConcat(text, block);
    } else if EndsReturn(text) {
      var front := text[..|text| - 1];
      assert ("\n" + block)[1..] == block && text == front + ['\r'];
      PiecesCompleted(front, '\r');
      PiecesCompleted(front, CRLF);
      PiecesConcat(front + [CRLF], block);
    } else {
      Concat(text, "\n", block);
      PiecesCompleted(text, '\n');
      PiecesConcat(text + "\n", block);
    }
  }

  /** The reader sees the pieces outside the block as they were, and in between those of the new block. */
  lemma UpdatedPieces(original: string, desired: map<string, string>)
    requires ValidDesired(desired) && UpdatedContent(original, desired).Some?
    ensures ParseBlock(Lines(original)).Some?
    ensures var (before, behind) := Around(ParseBlock(Lines(original)).value);
            && Pieces(UpdatedContent(original, desired).value)
               == before + Pieces(Join(NewBlock(original, desired))) + behind
            && Pieces(Outside(original)) == before + behind
  {
    var layout := ParseBlock(Lines(original)).value;
    LayoutShape(Lines(original));
    LinesWellFormed(original);
    OutsidePieces(layout);
    RemainingValid(layout.pre + layout.post, desired);
    NewBlockEnds(Remaining(layout.pre + layout.post, desired));
    if layout.block != [] {
      SurroundingsWellFormed(layout);
      TerminatedEndsPiece(layout.pre);
      ReplacedPieces(Join(layout.pre), Join(NewBlock(original, desired)), Join(layout.post));
    } else {
      BlocklessLines(original);
      UnblockedPieces(original, NewBlock(original, desired));
    }
  }

  lemma NewBlockEnds(mappings: map<string, string>)
    requires ValidDesired(mappings)
    ensures var block := Join(BlockLines(mappings)); EndsPiece(block) && !StartsFeed(block)
  {
    BlockTerminated(mappings);
    TerminatedEndsPiece(BlockLines(mappings));
    StartsWithMarker(mappings);
  }

  lemma UnblockedPieces(original: string, block: seq<string>)
    requires !StartsFeed(Join(block))
    ensures var updated := if block == [] then original
                           else Append(original, (if original == "" || EndsLine(original) then "" else "\n")
                                                 + Join(block));
            Pieces(updated) == Pieces(original) + Pieces(Join(block)) + Pieces(Join([]))
  {
    AppendedPieces(original, Join(block));
    assert Pieces(original) + [] == Pieces(original);
    assert Pieces(original) + Pieces(Join(block)) + [] == Pieces(original) + Pieces(Join(block));
  }

  lemma BlockPieces(mappings: map<string, string>)
    requires ValidDesired(mappings)
    ensures var block := BlockLines(mappings);
            FromLines(Pieces(Join(block)), block) && IntoPieces(block, Pieces(Join(block)))
  {
    var block := BlockLines(mappings);
    BlockTerminated(mappings);
    LinesOfTerminated(block, "");
    assert Join(block) + "" == Join(block) && block + Lines("") == block;
    BlockHasPlainNewlines(mappings);
    PiecesMatchLines(Join(block));
  }

  lemma BlockNames(block: seq<string>, pieces: seq<string>, mappings: map<string, string>, name: string)
    requires FromLines(pieces, block)
    requires forall l | l in block && name in Names(l) :: name in mappings && Address(l) == mappings[name]
    ensures forall p | p in pieces && name in Names(p) :: name in mappings && Address(p) == mappings[name]
  {
    forall p | p in pieces && name in Names(p) ensures name in mappings && Address(p) == mappings[name] {
      var l :| l in block && Fields(l) == Fields(p);
      SameFieldsSameNames(l, p);
    }
  }

  lemma BlockCovered(block: seq<string>, pieces: seq<string>, name: string)
    requires IntoPieces(block, pieces) && Covers(block, name)
    ensures Covers(pieces, name)
  {
    var l :| l in block && name in Names(l);
    var p :| p in pieces && Fields(l) == Fields(p);
    SameFieldsSameNames(l, p);
  }

  /** What the pieces of a block give. */
  lemma BlockGives(inetPton: string -> bool, mappings: map<string, string>, name: string)
    requires ValidDesired(mappings)
    ensures Covers(Pieces(Join(BlockLines(mappings))), name) <==> name in mappings
    ensures name in mappings ==> AllGive(inetPton, name, Pieces(Join(BlockLines(mappings))), mappings[name])
    ensures name in mappings && inetPton(mappings[name]) ==>
      SomeGives(inetPton, name, Pieces(Join(BlockLines(mappings))))
  {
    var block := BlockLines(mappings);
    BlockPieces(mappings);
    BlockCovers(mappings, name);
    BlockNames(block, Pieces(Join(block)), mappings, name);
    if name in mappings {
      BlockCovered(block, Pieces(Join(block)), name);
    }
  }

  /******* Writer and reader agree *******/

  /** The lines outside the block. */
  function Unmanaged(text: string): seq<string>
    requires ParseBlock(Lines(text)).Some?
  {
    ParseBlock(Lines(text)).value.pre + ParseBlock(Lines(text)).value.post
  }

  lemma GivesConcat(inetPton: string -> bool, name: string, a: seq<string>, b: seq<string>, address: string)
    ensures AllGive(inetPton, name, a + b, address)
            <==> AllGive(inetPton, name, a, address) && AllGive(inetPton, name, b, address)
    ensures SomeGives(inetPton, name, a + b) <==> SomeGives(inetPton, name, a) || SomeGives(inetPton, name, b)
  {
    assert forall p :: p in a + b <==> p in a || p in b;
  }

  lemma GivesAround(inetPton: string -> bool, name: string, a: seq<string>, block: seq<string>, b: seq<string>,
                    address: string)
    ensures AllGive(inetPton, name, a + block + b, address)
            <==> AllGive(inetPton, name, a + b, address) && AllGive(inetPton, name, block, address)
    ensures SomeGives(inetPton, name, a + block + b)
            <==> SomeGives(inetPton, name, a + b) || SomeGives(inetPton, name, block)
  {
    GivesConcat(inetPton, name, a + block, b, address);
    GivesConcat(inetPton, name, a, block, address);
    GivesConcat(inetPton, name, a, b, address);
  }

  /** After a successful rewrite a mapped host resolves to exactly its mapping if and only if the system accepts the
      mapped address, no piece outside the block gives the host another address, and, if the writer left the host out of
      the block because an unmanaged line provides it, some piece outside the block does give it an address. */
  lemma AgreementExactly(inetPton: string -> bool, original: string, desired: map<string, string>, host: string)
    requires ValidDesired(desired) && UpdatedContent(original, desired).Some? && host in desired
    ensures ParseBlock(Lines(original)).Some?
    ensures var outside := Pieces(Outside(original));
            HostsAddresses(inetPton, host, UpdatedContent(original, desired).value) == [desired[host]]
            <==> (&& inetPton(desired[host])
                  && AllGive(inetPton, host, outside, desired[host])
                  && (Covers(Unmanaged(original), host) ==> SomeGives(inetPton, host, outside)))
  {
    var unmanaged := Unmanaged(original);
    var remaining := Remaining(unmanaged, desired);
    var (before, behind) := Around(ParseBlock(Lines(original)).value);
    var block := Pieces(Join(NewBlock(original, desired)));
    AcceptedHost(host);
    UpdatedPieces(original, desired);
    RemainingValid(unmanaged, desired);
    BlockGives(inetPton, remaining, host);
    GivesAround(inetPton, host, before, block, behind, desired[host]);
    CollectsOneExactly(inetPton, host, before + block + behind, desired[host]);
    assert host in remaining <==> !Covers(unmanaged, host);
    if SomeGives(inetPton, host, block) {
      assert host in remaining && inetPton(desired[host]);
    }
    if AllGive(inetPton, host, before + behind, desired[host]) && SomeGives(inetPton, host, before + behind) {
      assert inetPton(desired[host]);
    }
  }

  lemma UnmanagedText(original: string)
    requires ParseBlock(Lines(original)).Some?
    ensures Lines(Outside(original)) == Unmanaged(original)
    ensures OnlyPlainNewlines(original) ==> OnlyPlainNewlines(Outside(original))
  {
    var layout := ParseBlock(Lines(original)).value;
    LayoutShape(Lines(original));
    LinesWellFormed(original);
    SurroundingsWellFormed(layout);
    JoinConcat(layout.pre, layout.post);
    LinesOfJoin(layout.pre + layout.post);
    JoinOfLines(original);
    JoinAll(layout);
  }

  lemma SameFieldsSameNames(l: string, p: string)
    requires Fields(l) == Fields(p)
    ensures Names(l) == Names(p) && (Names(l) != {} ==> Address(l) == Address(p))
  {
  }

  /** A piece that stands for a line which does not contradict a mapping gives its address. */
  lemma PieceAgrees(lines: seq<string>, line: string, piece: string, desired: map<string, string>, host: string)
    requires !AnyConflict(lines, desired) && line in lines && Fields(line) == Fields(piece)
    requires host in desired && host in Names(piece)
    ensures host in Names(line) && Address(piece) == desired[host]
  {
    SameFieldsSameNames(line, piece);
    assert !Conflicting(line, desired);
  }

  /** Every piece says what some line says. */
  ghost predicate FromLines(pieces: seq<string>, lines: seq<string>)
  {
    forall p | p in pieces :: exists l :: l in lines && Fields(l) == Fields(p)
  }

  /** Every line with names is said by some piece. */
  ghost predicate IntoPieces(lines: seq<string>, pieces: seq<string>)
  {
    forall l | l in lines && Names(l) != {} :: exists p :: p in pieces && Fields(l) == Fields(p)
  }

  lemma UnmanagedAgrees(inetPton: string -> bool, lines: seq<string>, pieces: seq<string>, desired: map<string, string>,
      host: string)
    requires !AnyConflict(lines, desired) && host in desired && FromLines(pieces, lines)
    ensures AllGive(inetPton, host, pieces, desired[host])
  {
    forall p | p in pieces && Gives(inetPton, host, p) ensures Address(p) == desired[host] {
      var l :| l in lines && Fields(l) == Fields(p);
      PieceAgrees(lines, l, p, desired, host);
    }
  }

  lemma UnmanagedGives(inetPton: string -> bool, lines: seq<string>, pieces: seq<string>, desired: map<string, string>,
      host: string)
    requires !AnyConflict(lines, desired) && host in desired && inetPton(desired[host]) && IntoPieces(lines, pieces)
    requires Covers(lines, host)
    ensures SomeGives(inetPton, host, pieces)
  {
    var l :| l in lines && host in Names(l);
    var p :| p in pieces && Fields(l) == Fields(p);
    SameFieldsSameNames(l, p);
    PieceAgrees(lines, l, p, desired, host);
  }

  /** With "\n" as the only newline Character every mapped host resolves to exactly its mapping. */
  lemma ReaderSeesMapping(inetPton: string -> bool, original: string, desired: map<string, string>, host: string)
    requires ValidDesired(desired) && OnlyPlainNewlines(original) && UpdatedContent(original, desired).Some?
    requires host in desired && inetPton(desired[host])
    ensures HostsAddresses(inetPton, host, UpdatedContent(original, desired).value) == [desired[host]]
  {
    var outside, unmanaged := Pieces(Outside(original)), Unmanaged(original);
    AgreementExactly(inetPton, original, desired, host);
    UnmanagedText(original);
    PiecesMatchLines(Outside(original));
    UnmanagedAgrees(inetPton, unmanaged, outside, desired, host);
    if Covers(unmanaged, host) {
      UnmanagedGives(inetPton, unmanaged, outside, desired, host);
    }
  }

  /** Every other name resolves as if the managed block had never been there, whatever newlines the file has. */
  lemma ReaderSeesOthers(inetPton: string -> bool, original: string, desired: map<string, string>, host: string)
    requires ValidDesired(desired) && UpdatedContent(original, desired).Some? && Normalized(host) !in desired
    ensures ParseBlock(Lines(original)).Some?
    ensures HostsAddresses(inetPton, host, UpdatedContent(original, desired).value)
            == HostsAddresses(inetPton, host, Outside(original))
  {
    var name := Normalized(host);
    var remaining := Remaining(Unmanaged(original), desired);
    var (before, behind) := Around(ParseBlock(Lines(original)).value);
    var block := Pieces(Join(NewBlock(original, desired)));
    UpdatedPieces(original, desired);
    RemainingValid(Unmanaged(original), desired);
    BlockGives(inetPton, remaining, name);
    SkipBetween(inetPton, name, before, block, behind);
  }

  lemma SkipBetween(inetPton: string -> bool, name: string, a: seq<string>, block: seq<string>, b: seq<string>)
    requires !Covers(block, name)
    ensures Collect(inetPton, name, a + block + b, []) == Collect(inetPton, name, a + b, [])
  {
    CollectConcat(inetPton, name, a + block, b, []);
    CollectConcat(inetPton, name, a, block, []);
    CollectSkips(inetPton, name, block, Collect(inetPton, name, a, []));
    CollectConcat(inetPton, name, a, b, []);
  }

  /******* What a call achieves *******/

  lemma SettledCall(text: string, call: Call)
    requires AfterCall(text, call).1 != Refused
    ensures ParsePayload(call.items).Some? && ValidDesired(ParsePayload(call.items).value)
    ensures UpdatedContent(text, ParsePayload(call.items).value) == Some(AfterCall(text, call).0)
  {
    PayloadIsValid(call.items);
  }

  /** A line outside the block contradicts a mapping: it gives a mapped host another address. */
  ghost predicate Contradicted(layout: Layout, desired: map<string, string>)
  {
    exists line, host :: (line in layout.pre || line in layout.post)
      && host in Names(line) && host in desired && Address(line) != desired[host]
  }

  /** The rewrite is refused exactly when there is not at most one well-formed block, or a line outside it contradicts a
      mapping. */
  lemma RewriteRefusedExactly(text: string, desired: map<string, string>)
    ensures var layout := ParseBlock(Lines(text));
            UpdatedContent(text, desired).None? <==> layout.None? || Contradicted(layout.value, desired)
  {
    var layout := ParseBlock(Lines(text));
    if layout.Some? {
      assert forall l :: l in layout.value.pre + layout.value.post <==> l in layout.value.pre || l in layout.value.post;
      if Contradicted(layout.value, desired) {
        var line, host :| (line in layout.value.pre || line in layout.value.post)
          && host in Names(line) && host in desired && Address(line) != desired[host];
        assert Conflicting(line, desired);
      }
    }
  }

  /** The file stays byte for byte unless the answer is that it changed, and then it is what the rewrite gives. A call
      is refused exactly when it came too late, its items are not accepted, the file cannot be read, the rewrite is
      refused, or a changed file cannot be written. */
  lemma CallExactly(text: string, call: Call)
    ensures ParsePayload(call.items).Some? <==> |call.items| <= 1024 && AcceptableItems(call.items)
    ensures var (after, outcome) := AfterCall(text, call);
            var desired := ParsePayload(call.items);
            && (outcome != Changed ==> after == text)
            && (outcome == Changed ==>
                  after != text && desired.Some? && UpdatedContent(text, desired.value) == Some(after))
            && (outcome == Refused
                <==> call.expired || desired.None? || !call.readable || UpdatedContent(text, desired.value).None?
                     || (UpdatedContent(text, desired.value) != Some(text) && !call.writable))
  {
    RequestsExactly(call.items);
  }

  /** A call that is not refused, seen from its items: a host that an item asks for resolves to exactly the address of
      that item, if and only if the system accepts the address, no piece outside the block gives the host another one,
      and, if an unmanaged line covers the host, some such piece does give it one. */
  lemma RequestedHostResolves(inetPton: string -> bool, text: string, call: Call, host: string, address: string)
    requires AfterCall(text, call).1 != Refused && AsksFor(call.items, host, address)
    ensures ParseBlock(Lines(text)).Some?
    ensures var outside := Pieces(Outside(text));
            HostsAddresses(inetPton, host, AfterCall(text, call).0) == [address]
            <==> (&& inetPton(address)
                  && AllGive(inetPton, host, outside, address)
                  && (Covers(Unmanaged(text), host) ==> SomeGives(inetPton, host, outside)))
  {
    SettledCall(text, call);
    RequestsExactly(call.items);
    var desired := ParsePayload(call.items).value;
    assert host in desired && desired[host] == address;
    AgreementExactly(inetPton, text, desired, host);
  }

  /** And a name that no item asks for resolves as if there were no block. */
  lemma UnrequestedHostResolves(inetPton: string -> bool, text: string, call: Call, host: string)
    requires AfterCall(text, call).1 != Refused
    requires forall address :: !AsksFor(call.items, Normalized(host), address)
    ensures ParseBlock(Lines(text)).Some?
    ensures HostsAddresses(inetPton, host, AfterCall(text, call).0) == HostsAddresses(inetPton, host, Outside(text))
  {
    SettledCall(text, call);
    RequestsExactly(call.items);
    var desired := ParsePayload(call.items).value;
    KeysAreAsked(call.items, desired);
    ReaderSeesOthers(inetPton, text, desired, host);
  }

  /******* Where writer and reader part *******/

  /** A comment ended by another newline Character, and an entry behind it. */
  function CommentThenEntry(newline: char, host: string, address: string): string
  {
    "#" + ([newline] + (address + "\t" + host)) + "\n"
  }

  predicate IsExotic(c: char)
  {
    IsNewline(c) && c != '\n'
  }

  lemma EntryWithoutEnd(host: string, address: string)
    requires IsAcceptedHost(host) && ValidIpv4(address)
    ensures var text := address + "\t" + host;
            && text != "" && (forall c | c in text :: !IsNewline(c) && c != ' ')
            && Fields(text) == [address, host] && Names(text) == {host}
  {
    AcceptedHost(host);
    AcceptedAddress(address);
    SafeNotBlank(host);
    SafeNotBlank(address);
    var text := address + "\t" + host;
    assert forall c | c in text :: c in address || c == '\t' || c in host;
    EntryFields(host, address);
    assert EntryLine(host, address) == text + ['\n'];
    FieldsTrailingBlank(text, '\n');
  }

  lemma TwoPieces(first: string, newline: char, second: string, rest: string)
    requires first != "" && second != "" && IsNewline(newline) && forall c | c in first + second :: !IsNewline(c)
    ensures Pieces(first + ([newline] + (second + ("\n" + rest)))) == [first] + ([second] + Pieces("\n" + rest))
  {
    var tail := second + ("\n" + rest);
    assert forall c | c in first :: c in first + second;
    assert forall c | c in second :: c in first + second;
    PiecesCons(first, [newline] + tail);
    assert ([newline] + tail)[1..] == tail;
    PiecesCons(second, "\n" + rest);
  }

  lemma PiecesOfBoth(newline: char, host: string, address: string, rest: string)
    requires IsNewline(newline) && IsAcceptedHost(host) && ValidIpv4(address)
    ensures Pieces(CommentThenEntry(newline, host, address) + rest)
            == ["#", address + "\t" + host] + Pieces("\n" + rest)
  {
    EntryWithoutEnd(host, address);
    var entry := address + "\t" + host;
    var left := Pieces("\n" + rest);
    assert forall c | c in "#" + entry :: c == '#' || c in entry;
    TwoPieces("#", newline, entry, rest);
    Concat("#" + ([newline] + entry), "\n", rest);
    Concat("#", [newline] + entry, "\n" + rest);
    Concat([newline], entry, "\n" + rest);
    assert ["#"] + ([entry] + left) == ["#", entry] + left;
  }

  lemma EntryIsRead(inetPton: string -> bool, newline: char, host: string, address: string, rest: string)
    requires IsNewline(newline) && IsAcceptedHost(host) && ValidIpv4(address) && inetPton(address)
    ensures address in HostsAddresses(inetPton, host, CommentThenEntry(newline, host, address) + rest)
  {
    PiecesOfBoth(newline, host, address, rest);
    AcceptedHost(host);
    EntryWithoutEnd(host, address);
    CommentHasNoFields("#");
    var entry, more := address + "\t" + host, Pieces("\n" + rest);
    CollectConcat(inetPton, host, ["#", entry], more, []);
    assert ["#", entry][1..] == [entry] && [entry][1..] == [];
    assert Collect(inetPton, host, ["#", entry], []) == Collect(inetPton, host, [entry], []);
    assert Collect(inetPton, host, [entry], []) == CollectOne(inetPton, host, entry, []);
    CollectKeeps(inetPton, host, more, Collect(inetPton, host, ["#", entry], []), address);
  }

  lemma CommentIsPlain(newline: char, entry: string)
    requires IsExotic(newline) && entry != "" && forall c | c in entry :: !IsNewline(c) && c != ' '
    ensures Terminated("#" + ([newline] + entry) + "\n") && KindOf("#" + ([newline] + entry) + "\n") == Plain
  {
    var line := "#" + ([newline] + entry);
    assert (line + "\n")[..|line + "\n"| - 1] == line;
    assert line[|line| - 1] == entry[|entry| - 1] && entry[|entry| - 1] in entry;
    TrimOneNewline(line);
    assert forall c | c in line :: c == '#' || c == newline || c in entry;
    NoSpaceNoMagic(line);
    MarkersHaveBlank(line, newline);
  }

  lemma MarkersHaveBlank(text: string, c: char)
    requires |text| > 1 && text[1] == c && c != ' '
    ensures text != BEGIN && text != END
  {
    assert BEGIN[1] == ' ' && END[1] == ' ';
  }

  lemma EntryIsComment(newline: char, host: string, address: string)
    requires IsExotic(newline) && IsAcceptedHost(host) && ValidIpv4(address)
    ensures var text := CommentThenEntry(newline, host, address);
            Terminated(text) && KindOf(text) == Plain && Fields(text) == []
  {
    EntryWithoutEnd(host, address);
    CommentIsPlain(newline, address + "\t" + host);
    CommentHasNoFields(CommentThenEntry(newline, host, address));
  }

  /** A block-free file of one complete line without names is only ever appended to. */
  lemma AppendedTo(line: string, desired: map<string, string>)
    requires Terminated(line) && KindOf(line) == Plain && Fields(line) == []
    ensures UpdatedContent(line, desired).Some? && line <= UpdatedContent(line, desired).value
  {
    LastLine(line);
    ParsePlain([line]);
    assert [line] + [] == [line];
    assert !AnyConflict([line], desired);
    var block := Join(BlockLines(Remaining([line], desired)));
    assert line + "" + block == line + block;
  }

  lemma ReadBeyond(inetPton: string -> bool, newline: char, host: string, other: string, text: string)
    requires IsNewline(newline) && IsAcceptedHost(host) && ValidIpv4(other) && inetPton(other)
    requires CommentThenEntry(newline, host, other) <= text
    ensures other in HostsAddresses(inetPton, host, text)
  {
    var start := CommentThenEntry(newline, host, other);
    var rest := text[|start|..];
    assert text == start + rest;
    EntryIsRead(inetPton, newline, host, other, rest);
  }

  /** With another newline Character in the file the agreement fails, for every host and every pair of addresses: the
      writer takes the entry behind it for part of a comment, the reader does not, and the mapped host still resolves
      to the other address. */
  lemma ExoticNewlineDefeatsAgreement(inetPton: string -> bool, newline: char, host: string, address: string,
                                      other: string)
    requires IsExotic(newline) && IsAcceptedHost(host) && ValidIpv4(address) && ValidIpv4(other) && inetPton(other)
    ensures var original, desired := CommentThenEntry(newline, host, other), map[host := address];
            && UpdatedContent(original, desired).Some?
            && other in HostsAddresses(inetPton, host, UpdatedContent(original, desired).value)
  {
    var original, desired := CommentThenEntry(newline, host, other), map[host := address];
    EntryIsComment(newline, host, other);
    AppendedTo(original, desired);
    ReadBeyond(inetPton, newline, host, other, UpdatedContent(original, desired).value);
  }
}

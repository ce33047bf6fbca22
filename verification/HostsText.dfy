/** The text of a hosts file as the macOS code reads it: lines, comments, fields and names. One element is one Swift
    Character. A carriage return and a line feed next to each other are one Character, here CRLF. */
module HostsText {
  import opened Common

  /** Stands for the Character of a carriage return and a line feed, which is not equal to "\n". */
  const CRLF: char := '\U{FFFE}'

  /** `Character.isNewline`; the set `.newlines` has the same elements. */
  predicate IsNewline(c: char)
  {
    c == '\n' || c == '\r' || c == CRLF || c == '\U{0B}' || c == '\U{0C}' || c == '\U{85}' || c == '\U{2028}'
    || c == '\U{2029}'
  }

  predicate IsBlank(c: char)
  {
    c == ' ' || c == '\t' || IsNewline(c)
  }

  /******* Concatenation *******/

  predicate EndsReturn(text: string)
  {
    text != "" && text[|text| - 1] == '\r'
  }

  predicate StartsFeed(text: string)
  {
    text != "" && text[0] == '\n'
  }

  /** `a + b` of Swift strings: a line feed joins a carriage return in front of it. */
  function Append(a: string, b: string): string
  {
    if EndsReturn(a) && StartsFeed(b) then a[..|a| - 1] + [CRLF] + b[1..] else a + b
  }

  /** The Unicode scalars of a text, which are what the file holds. */
  function Scalars(text: string): string
  {
    if text == "" then "" else (if text[0] == CRLF then "\r\n" else [text[0]]) + Scalars(text[1..])
  }

  /** The Characters that scalars make up. */
  function Characters(scalars: string): string
  {
    if scalars == "" then ""
    else if |scalars| >= 2 && scalars[0] == '\r' && scalars[1] == '\n' then [CRLF] + Characters(scalars[2..])
    else [scalars[0]] + Characters(scalars[1..])
  }

  /** No carriage return stands in front of a line feed without being one Character with it. */
  predicate Clustered(text: string)
  {
    forall i | 0 < i < |text| :: !(text[i - 1] == '\r' && text[i] == '\n')
  }

  /** The Characters of a text with scalars behind it. */
  function Behind(a: string, more: string): string
  {
    if EndsReturn(a) && StartsFeed(more) then a[..|a| - 1] + [CRLF] + Characters(more[1..]) else a + Characters(more)
  }

  lemma BehindCons(c: char, a: string, more: string)
    ensures Behind([c] + a, more)
            == if a == "" && c == '\r' && StartsFeed(more) then [CRLF] + Characters(more[1..])
               else [c] + Behind(a, more)
  {
    if a == "" {
      BehindOne(c, more);
    } else if EndsReturn(a) && StartsFeed(more) {
      LastOfCons(c, a);
      FourChars(c, a[..|a| - 1], Characters(more[1..]));
    } else {
      LastOfCons(c, a);
      Concat([c], a, Characters(more));
    }
  }

  lemma BehindOne(c: char, more: string)
    ensures Behind([c] + "", more)
            == if c == '\r' && StartsFeed(more) then [CRLF] + Characters(more[1..]) else [c] + Behind("", more)
  {
    var text := [c] + "";
    assert text == [c] && text[..0] == "" && "" + Characters(more) == Characters(more);
  }

  lemma FourChars(c: char, front: string, rest: string)
    ensures ([c] + front) + [CRLF] + rest == [c] + (front + [CRLF] + rest)
  {
    Concat([c], front, [CRLF]);
    Concat([c], front + [CRLF], rest);
  }

  lemma LastOfCons(c: char, a: string)
    requires a != ""
    ensures EndsReturn([c] + a) <==> EndsReturn(a)
    ensures ([c] + a)[..|a|] == [c] + a[..|a| - 1]
  {
  }

  lemma {:induction false} CharactersBehind(a: string, more: string)
    requires Clustered(a)
    ensures Characters(Scalars(a) + more) == Behind(a, more)
  {
    if a == "" {
      assert Scalars(a) + more == more && a + Characters(more) == Characters(more);
    } else {
      var head, rest := if a[0] == CRLF then "\r\n" else [a[0]], a[1..];
      assert a == [a[0]] + rest;
      Concat(head, Scalars(rest), more);
      ClusteredParts([a[0]], rest);
      CharactersBehind(rest, more);
      FirstCharacter(a[0], Scalars(rest) + more, rest, more);
      BehindCons(a[0], rest, more);
    }
  }

  lemma FirstCharacter(c: char, left: string, rest: string, more: string)
    requires left == Scalars(rest) + more && (rest != "" ==> !(c == '\r' && rest[0] == '\n'))
    ensures Characters((if c == CRLF then "\r\n" else [c]) + left)
            == if rest == "" && c == '\r' && StartsFeed(more) then [CRLF] + Characters(more[1..])
               else [c] + Characters(left)
  {
    var head := if c == CRLF then "\r\n" else [c];
    var text := head + left;
    assert text[|head|..] == left;
    if rest != "" {
      assert left[0] == Scalars(rest)[0];
    } else {
      assert left == more;
      if left != "" {
        assert text[1..] == left || c == CRLF;
        assert text[2..] == left[1..] || c == CRLF;
      }
    }
  }

  /** Concatenating the files' scalars is `Append` of the texts. */
  lemma AppendIsConcatenation(a: string, b: string)
    requires Clustered(a) && Clustered(b)
    ensures Characters(Scalars(a) + Scalars(b)) == Append(a, b)
    ensures Characters(Scalars(b)) == b
  {
    var scalars := Scalars(b);
    assert scalars + "" == scalars && b + "" == b;
    CharactersBehind(b, "");
    CharactersBehind(a, scalars);
    if StartsFeed(b) {
      var rest := b[1..];
      assert forall i | 0 < i < |rest| :: rest[i - 1] == b[i] && rest[i] == b[i + 1];
      CharactersBehind(rest, "");
      assert scalars[1..] == Scalars(rest) && Scalars(rest) + "" == Scalars(rest) && rest + "" == rest;
    } else if b != "" {
      assert !StartsFeed(scalars);
    }
  }

  lemma ClusteredConcat(a: string, b: string)
    requires Clustered(a) && Clustered(b) && !(EndsReturn(a) && StartsFeed(b))
    ensures Clustered(a + b)
  {
    var text := a + b;
    forall i | 0 < i < |text| ensures !(text[i - 1] == '\r' && text[i] == '\n') {
      if i > |a| {
        assert text[i - 1] == b[i - 1 - |a|] && text[i] == b[i - |a|];
      }
    }
  }

  lemma ClusteredParts(a: string, b: string)
    requires Clustered(a + b)
    ensures Clustered(a) && Clustered(b)
  {
    var text := a + b;
    forall i | 0 < i < |a| ensures !(a[i - 1] == '\r' && a[i] == '\n') {
      assert a[i - 1] == text[i - 1] && a[i] == text[i];
    }
    forall i | 0 < i < |b| ensures !(b[i - 1] == '\r' && b[i] == '\n') {
      assert b[i - 1] == text[|a| + i - 1] && b[i] == text[|a| + i];
    }
  }

  /******* Lines of the writer: cut after every "\n" *******/

  function LineEnd(text: string): (size: nat)
    ensures size <= |text|
    ensures text != "" ==> size > 0
    ensures '\n' !in text ==> size == |text|
    ensures '\n' in text ==> size > 0 && text[size - 1] == '\n' && '\n' !in text[..size - 1]
  {
    if text == "" then 0
    else if text[0] == '\n' then 1
    else
      assert text == [text[0]] + text[1..];
      1 + LineEnd(text[1..])
  }

  function Lines(text: string): seq<string>
    decreases |text|
  {
    if text == "" then [] else [text[..LineEnd(text)]] + Lines(text[LineEnd(text)..])
  }

  function Join(lines: seq<string>): string
  {
    if lines == [] then "" else lines[0] + Join(lines[1..])
  }

  predicate EndsLine(text: string)
  {
    text != "" && text[|text| - 1] == '\n'
  }

  /** A complete line: one "\n", at the end. */
  predicate Terminated(line: string)
  {
    EndsLine(line) && '\n' !in line[..|line| - 1]
  }

  predicate AllTerminated(lines: seq<string>)
  {
    forall l | l in lines :: Terminated(l)
  }

  /** Complete lines, except that the last one may be cut off by the end of the file. */
  predicate WellFormed(lines: seq<string>)
  {
    lines == []
    || (AllTerminated(lines[..|lines| - 1])
        && lines[|lines| - 1] != ""
        && (Terminated(lines[|lines| - 1]) || '\n' !in lines[|lines| - 1]))
  }

  lemma {:induction false} JoinOfLines(text: string)
    ensures Join(Lines(text)) == text
    decreases |text|
  {
    if text != "" {
      JoinOfLines(text[LineEnd(text)..]);
    }
  }

  lemma LineEndOf(line: string, rest: string)
    requires Terminated(line)
    ensures LineEnd(line + rest) == |line|
  {
    var text := line + rest;
    var n := LineEnd(text);
    assert text[|line| - 1] == '\n';
    forall i | 0 <= i < |line| - 1 ensures text[i] != '\n' {
      assert line[..|line| - 1][i] == text[i];
    }
    forall i | 0 <= i < n - 1 ensures text[i] != '\n' {
      assert text[..n - 1][i] == text[i];
    }
  }

  lemma LinesCons(line: string, rest: string)
    requires Terminated(line)
    ensures Lines(line + rest) == [line] + Lines(rest)
  {
    LineEndOf(line, rest);
    assert (line + rest)[..|line|] == line && (line + rest)[|line|..] == rest;
  }

  lemma {:induction false} LinesOfTerminated(lines: seq<string>, rest: string)
    requires AllTerminated(lines)
    ensures Lines(Join(lines) + rest) == lines + Lines(rest)
  {
    if lines == [] {
      assert Join(lines) + rest == rest;
      assert lines + Lines(rest) == Lines(rest);
    } else {
      assert Join(lines) + rest == lines[0] + (Join(lines[1..]) + rest);
      LinesCons(lines[0], Join(lines[1..]) + rest);
      LinesOfTerminated(lines[1..], rest);
      Uncons(lines, Lines(rest));
    }
  }

  lemma LastLine(line: string)
    requires line != "" && (Terminated(line) || '\n' !in line)
    ensures Lines(line) == [line]
  {
    if Terminated(line) {
      LinesCons(line, "");
      assert line + "" == line;
    } else {
      assert line[..|line|] == line && line[|line|..] == "";
    }
  }

  lemma {:induction false} JoinConcat(a: seq<string>, b: seq<string>)
    ensures Join(a + b) == Join(a) + Join(b)
  {
    if a == [] {
      assert a + b == b;
    } else {
      assert (a + b)[1..] == a[1..] + b;
      JoinConcat(a[1..], b);
    }
  }

  /** Relexing a well-formed list of lines gives the list back. */
  lemma LinesOfJoin(lines: seq<string>)
    requires WellFormed(lines)
    ensures Lines(Join(lines)) == lines
  {
    if lines != [] {
      var front, last := lines[..|lines| - 1], lines[|lines| - 1];
      assert lines == front + [last];
      JoinConcat(front, [last]);
      assert Join([last]) == last + Join([]) == last;
      LinesOfTerminated(front, last);
      LastLine(last);
    }
  }

  lemma {:induction false} LinesWellFormed(text: string)
    ensures WellFormed(Lines(text))
    decreases |text|
  {
    if text != "" {
      var n := LineEnd(text);
      var line, rest := text[..n], text[n..];
      LinesWellFormed(rest);
      assert Lines(text) == [line] + Lines(rest);
      if rest != "" {
        assert '\n' in text;
        assert line[n - 1] == '\n' && line[..n - 1] == text[..n - 1];
        assert Terminated(line);
        assert Lines(text)[..|Lines(text)| - 1] == [line] + Lines(rest)[..|Lines(rest)| - 1];
      } else {
        assert line == text;
        assert Lines(text) == [line];
        if '\n' in text {
          assert Terminated(line);
        }
      }
    }
  }

  lemma WellFormedConcat(a: seq<string>, b: seq<string>)
    requires AllTerminated(a) && WellFormed(b)
    ensures WellFormed(a + b)
  {
    if b == [] {
      assert a + b == a;
      if a != [] {
        assert a[|a| - 1] in a;
      }
    } else {
      assert (a + b)[..|a + b| - 1] == a + b[..|b| - 1];
    }
  }

  lemma WellFormedSplit(a: seq<string>, b: seq<string>)
    requires WellFormed(a + b)
    ensures b != [] ==> AllTerminated(a)
    ensures WellFormed(a) && WellFormed(b)
  {
    if b != [] {
      assert (a + b)[..|a + b| - 1] == a + b[..|b| - 1];
      if a != [] {
        assert a[|a| - 1] in a;
      }
    } else {
      assert a + b == a;
    }
  }

  lemma JoinEndsLine(lines: seq<string>)
    requires WellFormed(lines) && lines != []
    ensures Join(lines) != ""
    ensures EndsLine(Join(lines)) <==> Terminated(lines[|lines| - 1])
  {
    var front, last := lines[..|lines| - 1], lines[|lines| - 1];
    assert lines == front + [last];
    JoinConcat(front, [last]);
    assert Join([last]) == last + Join([]) == last;
    EndsWithLast(Join(front), last);
  }

  lemma EndsWithLast(front: string, last: string)
    requires last != ""
    ensures front + last != "" && (EndsLine(front + last) <==> EndsLine(last))
  {
    assert (front + last)[|front + last| - 1] == last[|last| - 1];
  }

  /******* Fields and names *******/

  /** The maximal runs of non-blank characters. */
  function Words(s: string): (words: seq<string>)
    decreases |s|
  {
    if s == "" then []
    else if IsBlank(s[0]) then Words(s[1..])
    else [s[..WordEnd(s)]] + Words(s[WordEnd(s)..])
  }

  function WordEnd(s: string): (size: nat)
    ensures size <= |s|
    ensures s != "" && !IsBlank(s[0]) ==> size > 0
  {
    if s == "" || IsBlank(s[0]) then 0 else 1 + WordEnd(s[1..])
  }

  function Fields(line: string): seq<string>
  {
    Words(Before(line, '#'))
  }

  function LowerChar(c: char): char
  {
    if 'A' <= c <= 'Z' then c - 'A' + 'a' else c
  }

  function Lower(s: string): (r: string)
    ensures |r| == |s|
    ensures forall i | 0 <= i < |s| :: r[i] == LowerChar(s[i])
  {
    if s == "" then "" else [LowerChar(s[0])] + Lower(s[1..])
  }

  function TrimDots(s: string): string
    decreases |s|
  {
    if s != "" && s[0] == '.' then TrimDots(s[1..])
    else if s != "" && s[|s| - 1] == '.' then TrimDots(s[..|s| - 1])
    else s
  }

  /** DNS spelling: lower case, no leading or trailing dot. */
  function Normalized(name: string): string
  {
    TrimDots(Lower(name))
  }

  /** The names a line gives an address to, in normal form; none unless it has an address and a name. */
  function Names(line: string): set<string>
  {
    var fields := Fields(line);
    if |fields| < 2 then {} else set f | f in fields[1..] :: Normalized(f)
  }

  function Address(line: string): string
    requires Names(line) != {}
  {
    Fields(line)[0]
  }

  lemma {:induction false} WordEndSpan(word: string, rest: string)
    requires forall c | c in word :: !IsBlank(c)
    requires rest == "" || IsBlank(rest[0])
    ensures WordEnd(word + rest) == |word|
  {
    if word == "" {
      assert word + rest == rest;
    } else {
      assert (word + rest)[1..] == word[1..] + rest;
      assert (word + rest)[0] == word[0] && word[0] in word;
      WordEndSpan(word[1..], rest);
    }
  }

  lemma WordsCons(word: string, rest: string)
    requires word != "" && forall c | c in word :: !IsBlank(c)
    requires rest == "" || IsBlank(rest[0])
    ensures Words(word + rest) == [word] + Words(rest)
  {
    WordEndSpan(word, rest);
    assert (word + rest)[0] == word[0] && word[0] in word;
    assert (word + rest)[..|word|] == word && (word + rest)[|word|..] == rest;
  }

  lemma {:induction false} WordEndBlank(s: string, blank: char)
    requires IsBlank(blank)
    ensures WordEnd(s + [blank]) == WordEnd(s)
  {
    if s != "" && !IsBlank(s[0]) {
      assert (s + [blank])[1..] == s[1..] + [blank];
      WordEndBlank(s[1..], blank);
    }
  }

  /** A trailing blank, such as the end of the line, adds no word. */
  lemma {:induction false} WordsTrailingBlank(s: string, blank: char)
    requires IsBlank(blank)
    ensures Words(s + [blank]) == Words(s)
    decreases |s|
  {
    if s == "" {
      assert s + [blank] == [blank];
      assert [blank][1..] == "";
    } else if IsBlank(s[0]) {
      assert (s + [blank])[1..] == s[1..] + [blank];
      WordsTrailingBlank(s[1..], blank);
    } else {
      WordEndBlank(s, blank);
      var n := WordEnd(s);
      assert (s + [blank])[..n] == s[..n];
      assert (s + [blank])[n..] == s[n..] + [blank];
      WordsTrailingBlank(s[n..], blank);
    }
  }

  lemma FieldsTrailingBlank(line: string, blank: char)
    requires IsBlank(blank)
    ensures Fields(line + [blank]) == Fields(line)
  {
    BeforeAppend(line, [blank], '#');
    if '#' !in line {
      assert Before([blank], '#') == [blank];
      WordsTrailingBlank(line, blank);
    }
  }

  lemma CommentHasNoFields(line: string)
    requires line != "" && line[0] == '#'
    ensures Fields(line) == []
  {
  }

  /** The fields of a line of two words. */
  lemma TwoFields(first: string, second: string)
    requires first != "" && second != ""
    requires forall c | c in first + second :: !IsBlank(c) && c != '#'
    ensures Fields(first + "\t" + second + "\n") == [first, second]
  {
    var line := first + "\t" + second + "\n";
    assert forall c | c in first :: c in first + second;
    assert forall c | c in second :: c in first + second;
    assert '#' !in line;
    assert line == first + ("\t" + second + "\n");
    WordsCons(first, "\t" + second + "\n");
    assert ("\t" + second + "\n")[1..] == second + "\n";
    WordsCons(second, "\n");
    assert "\n"[1..] == "";
  }
}

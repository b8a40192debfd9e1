/** Header blocks as MimeBuilder prints them and MimeParser reads them: a list of fields, some of them folded
    over several lines, a blank line, and a body. */
module HeaderBlock {
  import opened Text
  import opened MimeHeaders

  predicate OneLine(s: string) {
    '\r' !in s && '\n' !in s
  }

  lemma ContentNames()
    ensures NameChars("Content-Type") && NameChars("Content-Disposition")
  {
  }

  lemma TransferEncodingName()
    ensures NameChars("Content-Transfer-Encoding")
  {
  }

  lemma ThreadingNames()
    ensures NameChars("Message-ID") && NameChars("In-Reply-To") && NameChars("References") && NameChars("MIME-Version")
  {
  }

  lemma ShortNames()
    ensures NameChars("Date") && NameChars("Subject") && NameChars("From") && NameChars("To") && NameChars("Cc")
  {
  }

  lemma NameHasNameChars(h: HeaderName)
    ensures Name(h) != "" && NameChars(Name(h))
  {
    ContentNames();
    TransferEncodingName();
    ThreadingNames();
    ShortNames();
    hide NameChars;
  }

  lemma NameShape(h: HeaderName)
    ensures Name(h) != "" && !IsSpace(Name(h)[0]) && ':' !in Name(h) && OneLine(Name(h))
  {
    NameHasNameChars(h);
    hide Name;
  }

  /** No two headers have the same name, in whatever case. */
  lemma NamesDiffer(h: HeaderName, g: HeaderName)
    requires IEquals(Name(h), Name(g))
    ensures h == g
  {
    var a, b := ToLower(Name(h)), ToLower(Name(g));
    assert |Name(h)| == |a| == |b| == |Name(g)| && Lower(Name(h)[0]) == a[0] == b[0] == Lower(Name(g)[0]);
    hide ToLower;
  }

  // -------------------------------------------------------------------- fields

  /** A header whose value is folded into pieces, one to a line. */
  datatype Field = Field(name: HeaderName, pieces: seq<string>)

  function FieldText(f: Field): string {
    Name(f.name) + ": " + Join(f.pieces, "\r\n\t") + "\r\n"
  }

  function BlockText(fields: seq<Field>): string {
    if fields == [] then "" else FieldText(fields[0]) + BlockText(fields[1..])
  }

  /** Pieces that come back as they are: trimmed, on one line, and, behind a fold, neither empty nor with a
      colon that would make a header of them. */
  ghost predicate GoodPieces(pieces: seq<string>) {
    && pieces != []
    && (forall i :: 0 <= i < |pieces| ==> OneLine(pieces[i]) && Trimmed(pieces[i]))
    && (forall i :: 1 <= i < |pieces| ==> pieces[i] != "" && ':' !in pieces[i])
  }

  ghost predicate GoodFields(fields: seq<Field>) {
    forall i :: 0 <= i < |fields| ==> GoodPieces(fields[i].pieces)
  }

  /** The value of the first field of this name, with its folds undone. */
  function ValueIn(fields: seq<Field>, g: HeaderName): string {
    if fields == [] then ""
    else if fields[0].name == g then Join(fields[0].pieces, " ")
    else ValueIn(fields[1..], g)
  }

  // --------------------------------------------------------------------- lines

  function Tabbed(pieces: seq<string>): seq<string> {
    if pieces == [] then [] else ["\t" + pieces[0]] + Tabbed(pieces[1..])
  }

  function FieldLines(f: Field): seq<string> {
    if f.pieces == [] then [] else [Name(f.name) + ": " + f.pieces[0]] + Tabbed(f.pieces[1..])
  }

  function BlockLines(fields: seq<Field>): seq<string> {
    if fields == [] then [] else FieldLines(fields[0]) + BlockLines(fields[1..])
  }

  function Unlines(lines: seq<string>): string {
    if lines == [] then "" else lines[0] + "\r\n" + Unlines(lines[1..])
  }

  lemma {:induction false} UnlinesConcat(a: seq<string>, b: seq<string>)
    ensures Unlines(a + b) == Unlines(a) + Unlines(b)
  {
    if a == [] {
      assert a + b == b;
    } else {
      assert (a + b)[0] == a[0] && (a + b)[1..] == a[1..] + b;
      UnlinesConcat(a[1..], b);
    }
  }

  lemma UnlinesCons(line: string, rest: seq<string>)
    ensures Unlines([line] + rest) == line + "\r\n" + Unlines(rest)
  {
    assert ([line] + rest)[1..] == rest;
  }

  lemma FoldHere(head: string, piece: string, rest: string)
    ensures head + (piece + "\r\n\t" + rest) + "\r\n" == head + piece + "\r\n" + ("\t" + rest + "\r\n")
  {
    assert "\r\n\t" == "\r\n" + "\t";
  }

  lemma {:induction false} FoldedLines(head: string, pieces: seq<string>)
    requires pieces != []
    ensures head + Join(pieces, "\r\n\t") + "\r\n" == Unlines([head + pieces[0]] + Tabbed(pieces[1..]))
    decreases |pieces|
  {
    hide Unlines;
    var rest := pieces[1..];
    UnlinesCons(head + pieces[0], Tabbed(rest));
    if rest == [] {
      NoLines();
      assert head + pieces[0] + "\r\n" + "" == head + pieces[0] + "\r\n";
    } else {
      FoldedLines("\t", rest);
      FoldHere(head, pieces[0], Join(rest, "\r\n\t"));
      assert Tabbed(rest) == ["\t" + rest[0]] + Tabbed(rest[1..]);
    }
  }

  lemma NoLines()
    ensures Unlines([]) == ""
  {
  }

  lemma {:induction false} BlockTextIsLines(fields: seq<Field>)
    requires GoodFields(fields)
    ensures BlockText(fields) == Unlines(BlockLines(fields))
  {
    hide Unlines;
    if fields == [] {
      NoLines();
    } else {
      var f := fields[0];
      BlockTextIsLines(fields[1..]);
      FoldedLines(Name(f.name) + ": ", f.pieces);
      UnlinesConcat(FieldLines(f), BlockLines(fields[1..]));
    }
  }

  lemma {:induction false} UnlinesIsJoin(lines: seq<string>)
    requires lines != []
    ensures Unlines(lines) == Join(lines, "\r\n") + "\r\n"
  {
    if |lines| == 1 {
      assert lines[1..] == [];
    } else {
      UnlinesIsJoin(lines[1..]);
    }
  }

  ghost predicate GoodLines(lines: seq<string>) {
    forall i :: 0 <= i < |lines| ==> lines[i] != "" && OneLine(lines[i])
  }

  lemma {:induction false} TabbedGood(pieces: seq<string>)
    requires forall i :: 0 <= i < |pieces| ==> OneLine(pieces[i])
    ensures GoodLines(Tabbed(pieces))
  {
    if pieces != [] {
      TabbedGood(pieces[1..]);
    }
  }

  lemma FieldLinesGood(f: Field)
    requires GoodPieces(f.pieces)
    ensures GoodLines(FieldLines(f)) && FieldLines(f) != []
  {
    hide Name;
    NameShape(f.name);
    TabbedGood(f.pieces[1..]);
  }

  lemma {:induction false} BlockLinesGood(fields: seq<Field>)
    requires GoodFields(fields)
    ensures GoodLines(BlockLines(fields)) && (fields != [] ==> BlockLines(fields) != [])
  {
    if fields != [] {
      hide FieldLines;
      FieldLinesGood(fields[0]);
      BlockLinesGood(fields[1..]);
    }
  }

  // ------------------------------------------------------------- the blank line

  /** Between nonempty lines every LF is followed by a character of the next line. */
  lemma {:induction false} LineFollows(lines: seq<string>, i: nat)
    requires lines != [] && GoodLines(lines) && i < |Join(lines, "\r\n")| && Join(lines, "\r\n")[i] == '\n'
    ensures i + 1 < |Join(lines, "\r\n")| && Join(lines, "\r\n")[i + 1] != '\r'
    decreases |lines|
  {
    var first := lines[0];
    if |lines| > 1 {
      var rest := Join(lines[1..], "\r\n");
      var all := first + "\r\n" + rest;
      var n := |first| + 2;
      JoinStarts(lines[1..]);
      assert all[n..] == rest;
      if i >= n {
        assert all[i] == rest[i - n];
        LineFollows(lines[1..], i - n);
        assert all[i + 1] == rest[i - n + 1];
      } else {
        assert all[n] == rest[0];
      }
    }
  }

  lemma JoinStarts(lines: seq<string>)
    requires lines != [] && GoodLines(lines)
    ensures Join(lines, "\r\n") != "" && Join(lines, "\r\n")[0] == lines[0][0] != '\r'
  {
  }

  lemma {:induction false} JoinEnds(lines: seq<string>)
    requires lines != [] && GoodLines(lines)
    ensures var s := Join(lines, "\r\n"); s != "" && s[|s| - 1] != '\r' && s[|s| - 1] != '\n'
  {
    if |lines| > 1 {
      JoinEnds(lines[1..]);
    }
  }

  lemma NoBlankLine(lines: seq<string>)
    requires lines != [] && GoodLines(lines)
    ensures NoOccur(Join(lines, "\r\n"), "\r\n\r\n")
  {
    hide Join;
    var s := Join(lines, "\r\n");
    forall j: nat | j + 4 <= |s| ensures !MatchAt(s, "\r\n\r\n", j) {
      if s[j + 1] == '\n' {
        LineFollows(lines, j + 1);
        assert s[j..j + 4][2] == s[j + 2];
      } else {
        assert s[j..j + 4][1] == s[j + 1];
      }
    }
  }

  lemma SplitsAtBlankLine(headers: string, body: string)
    requires NoOccur(headers, "\r\n\r\n") && headers != ""
    requires headers[|headers| - 1] != '\r' && headers[|headers| - 1] != '\n'
    ensures SplitBlock(headers + "\r\n\r\n" + body) == (headers, body)
  {
    hide Find, NoOccur;
    var p := "\r\n\r\n";
    FindAfter("", headers, p, body);
    assert "" + headers == headers;
    Middle("", headers, p + body);
    Middle(headers, p, body);
    Assoc(headers, p, body);
  }

  /** The header text of a block of fields, without its last line end. */
  function Headers(fields: seq<Field>): string {
    Join(BlockLines(fields), "\r\n")
  }

  lemma TwoBreaks(block: string, h: string, body: string)
    requires block == h + "\r\n"
    ensures block + "\r\n" + body == h + "\r\n\r\n" + body
  {
  }

  lemma BlockSplits(fields: seq<Field>, body: string)
    requires fields != [] && GoodFields(fields)
    ensures SplitBlock(BlockText(fields) + "\r\n" + body) == (Headers(fields), body)
  {
    var lines := BlockLines(fields);
    BlockTextIsLines(fields);
    BlockLinesGood(fields);
    UnlinesIsJoin(lines);
    NoBlankLine(lines);
    JoinEnds(lines);
    HeadersDef(fields);
    hide *;
    SplitsBehind(BlockText(fields), Headers(fields), body);
  }

  lemma SplitsBehind(block: string, h: string, body: string)
    requires block == h + "\r\n" && NoOccur(h, "\r\n\r\n")
    requires h != "" && h[|h| - 1] != '\r' && h[|h| - 1] != '\n'
    ensures SplitBlock(block + "\r\n" + body) == (h, body)
  {
    hide *;
    TwoBreaks(block, h, body);
    SplitsAtBlankLine(h, body);
  }

  // ----------------------------------------------------------------- look-ups

  /** Two lists whose lines differ only by a CR at the end. */
  ghost predicate SameChomped(a: seq<string>, b: seq<string>) {
    |a| == |b| && forall i :: 0 <= i < |a| ==> Chomp(a[i]) == Chomp(b[i])
  }

  lemma {:induction false} ContinuedChomped(a: seq<string>, b: seq<string>)
    requires SameChomped(a, b)
    ensures Continued(a) == Continued(b)
  {
    hide Chomp, Trim, IsContinuation;
    if a != [] {
      ContinuedChomped(a[1..], b[1..]);
    }
  }

  lemma {:induction false} LookupChomped(a: seq<string>, b: seq<string>, key: string)
    requires SameChomped(a, b)
    ensures Lookup(a, key) == Lookup(b, key)
  {
    hide Chomp, HasKey, ValueOf, Continued;
    if a != [] {
      LookupChomped(a[1..], b[1..], key);
      ContinuedChomped(a[1..], b[1..]);
    }
  }

  lemma LinesCons(line: string, rest: string)
    requires OneLine(line)
    ensures Lines(line + "\r\n" + rest) == [line + "\r"] + Lines(rest)
  {
    hide FindChar;
    var s := line + "\r\n" + rest;
    assert "\r\n" == "\r" + "\n";
    assert s == (line + "\r") + ['\n'] + rest;
    FindCharAfter("", line + "\r", '\n', rest);
    assert "" + (line + "\r") == line + "\r";
    Middle("", line + "\r", ['\n'] + rest);
    assert s[..|line| + 1] == line + "\r" && s[|line| + 2..] == rest;
  }

  lemma LinesLast(line: string)
    requires OneLine(line) && line != ""
    ensures Lines(line) == [line]
  {
  }

  lemma ChompsEqual(line: string)
    requires OneLine(line)
    ensures Chomp(line + "\r") == Chomp(line) == line
  {
    assert (line + "\r")[..|line|] == line;
  }

  lemma {:induction false} LinesOfJoin(lines: seq<string>)
    requires lines != [] && GoodLines(lines)
    ensures SameChomped(Lines(Join(lines, "\r\n")), lines)
    decreases |lines|
  {
    hide Chomp, Lines;
    ChompsEqual(lines[0]);
    if |lines| == 1 {
      LinesLast(lines[0]);
    } else {
      var rest := lines[1..];
      LinesOfJoin(rest);
      LinesCons(lines[0], Join(rest, "\r\n"));
      var got := Lines(Join(rest, "\r\n"));
      forall i | 0 <= i < |lines| ensures Chomp(([lines[0] + "\r"] + got)[i]) == Chomp(lines[i]) {
        if i > 0 {
          assert lines[i] == rest[i - 1];
        }
      }
    }
  }

  lemma HeaderValueOfLines(lines: seq<string>, key: string)
    requires lines != [] && GoodLines(lines)
    ensures HeaderValue(Join(lines, "\r\n"), key) == Lookup(lines, key)
  {
    hide Lookup, Lines, Join;
    LinesOfJoin(lines);
    LookupChomped(Lines(Join(lines, "\r\n")), lines, key);
  }

  lemma KeyLine(name: string, piece: string, key: string)
    requires name != "" && !IsSpace(name[0]) && ':' !in name && OneLine(name) && OneLine(piece) && Trimmed(piece)
    ensures var line := name + ": " + piece;
            && line != "" && Chomp(line) == line && !IsContinuation(line)
            && (HasKey(line, key) <==> IEquals(name, key)) && ValueOf(line) == piece
  {
    hide Trim, FindChar, IEquals, Trimmed;
    var line := name + ": " + piece;
    var tail := [' '] + piece;
    ColonSpace(name, piece);
    FindCharAfter("", name, ':', tail);
    assert "" + name == name;
    Middle(name, [':'], tail);
    assert |name + [':']| == |name| + 1;
    TrimOneSpace(piece, ' ');
    LastNotCr(line, piece);
  }

  lemma ColonSpace(name: string, piece: string)
    ensures var line := name + ": " + piece;
            && line == name + [':'] + ([' '] + piece)
            && line[|line| - |piece|..] == piece && line[|line| - |piece| - 1] == ' '
  {
    assert ": " == [':'] + [' '];
  }

  lemma FieldLine(h: HeaderName, piece: string, g: HeaderName)
    requires OneLine(piece) && Trimmed(piece)
    ensures var line := Name(h) + ": " + piece;
            && line != "" && Chomp(line) == line && !IsContinuation(line)
            && (HasKey(line, Name(g)) <==> h == g) && ValueOf(line) == piece
  {
    hide Name, Chomp, HasKey, ValueOf, IsContinuation, Trimmed;
    NameShape(h);
    KeyLine(Name(h), piece, Name(g));
    if IEquals(Name(h), Name(g)) {
      NamesDiffer(h, g);
    }
  }

  lemma LastNotCr(line: string, piece: string)
    requires OneLine(piece) && |line| > |piece| && line[|line| - |piece|..] == piece
            && line[|line| - |piece| - 1] != '\r'
    ensures Chomp(line) == line
  {
    if piece != "" {
      assert line[|line| - 1] == line[|line| - |piece|..][|piece| - 1];
    }
  }

  /** A piece behind a fold. */
  predicate GoodTail(piece: string) {
    OneLine(piece) && Trimmed(piece) && piece != "" && ':' !in piece
  }

  ghost predicate GoodMore(pieces: seq<string>) {
    forall i :: 0 <= i < |pieces| ==> GoodTail(pieces[i])
  }

  lemma TabLine(piece: string, key: string)
    requires GoodTail(piece)
    ensures var line := "\t" + piece;
            && line != "" && Chomp(line) == line && IsContinuation(line)
            && !HasKey(line, key) && Trim(line) == piece
  {
    var line := "\t" + piece;
    assert "\t" == ['\t'];
    TrimOneSpace(piece, '\t');
    assert line[|line| - 1] == piece[|piece| - 1];
  }

  /** What follows a folded header does not continue it. */
  ghost predicate Stops(lines: seq<string>) {
    lines == [] || (Chomp(lines[0]) != "" && !IsContinuation(Chomp(lines[0])))
  }

  function Spaced(pieces: seq<string>): string {
    if pieces == [] then "" else " " + pieces[0] + Spaced(pieces[1..])
  }

  lemma {:induction false} JoinSpaced(pieces: seq<string>)
    requires pieces != []
    ensures Join(pieces, " ") == pieces[0] + Spaced(pieces[1..])
  {
    if |pieces| == 1 {
      assert pieces[1..] == [] && pieces[0] + "" == pieces[0];
    } else {
      JoinSpaced(pieces[1..]);
    }
  }

  lemma {:induction false} ContinuedTabbed(pieces: seq<string>, rest: seq<string>)
    requires GoodMore(pieces)
    requires Stops(rest)
    ensures Continued(Tabbed(pieces) + rest) == Spaced(pieces)
    decreases |pieces|
  {
    hide Chomp, Trim, IsContinuation, GoodTail;
    if pieces == [] {
      assert Tabbed(pieces) + rest == rest;
    } else {
      ContinuedTabbed(pieces[1..], rest);
      hide Continued;
      ContinuedTab(pieces[0], Tabbed(pieces[1..]) + rest);
      assert Tabbed(pieces) + rest == ["\t" + pieces[0]] + (Tabbed(pieces[1..]) + rest);
    }
  }

  lemma ContinuedTab(piece: string, rest: seq<string>)
    requires GoodTail(piece)
    ensures Continued(["\t" + piece] + rest) == " " + piece + Continued(rest)
  {
    TabLine(piece, "");
    assert piece != "";
    hide Chomp, Trim, IsContinuation, GoodTail;
    var all := ["\t" + piece] + rest;
    assert all[0] == "\t" + piece && all[1..] == rest;
  }

  lemma {:induction false} LookupPastTabbed(pieces: seq<string>, rest: seq<string>, key: string)
    requires GoodMore(pieces)
    ensures Lookup(Tabbed(pieces) + rest, key) == Lookup(rest, key)
    decreases |pieces|
  {
    hide Chomp, HasKey, ValueOf, Continued;
    if pieces == [] {
      assert Tabbed(pieces) + rest == rest;
    } else {
      var all := Tabbed(pieces) + rest;
      assert all[0] == "\t" + pieces[0] && all[1..] == Tabbed(pieces[1..]) + rest;
      hide GoodTail;
      TabLine(pieces[0], key);
      LookupPastTabbed(pieces[1..], rest, key);
    }
  }

  lemma BlockStops(fields: seq<Field>)
    requires GoodFields(fields)
    ensures Stops(BlockLines(fields))
  {
    if fields != [] {
      FieldLine(fields[0].name, fields[0].pieces[0], fields[0].name);
      hide Name, Chomp, IsContinuation;
    }
  }

  lemma FieldLookup(f: Field, rest: seq<string>, g: HeaderName)
    requires GoodPieces(f.pieces) && Stops(rest)
    ensures Lookup(FieldLines(f) + rest, Name(g)) == if f.name == g then Join(f.pieces, " ") else Lookup(rest, Name(g))
  {
    var first, more := f.pieces[0], f.pieces[1..];
    assert GoodMore(more);
    var line := Name(f.name) + ": " + first;
    FieldLine(f.name, first, g);
    Regroup(line, Tabbed(more), rest);
    assert FieldLines(f) == [line] + Tabbed(more);
    hide Name, Chomp, HasKey, ValueOf, Continued, IsContinuation, Join, Lookup, Tabbed, FieldLines, Stops,
      GoodMore, GoodPieces;
    LookupStep(line, Tabbed(more) + rest, Name(g));
    ContinuedTabbed(more, rest);
    LookupPastTabbed(more, rest, Name(g));
    JoinSpaced(f.pieces);
  }

  lemma Regroup(line: string, more: seq<string>, rest: seq<string>)
    ensures [line] + more + rest == [line] + (more + rest)
  {
  }

  /** Looking a name up in the lines of a block finds the first field of that name. */
  lemma {:induction false} LookupInBlock(fields: seq<Field>, g: HeaderName)
    requires GoodFields(fields)
    ensures Lookup(BlockLines(fields), Name(g)) == ValueIn(fields, g)
    decreases |fields|
  {
    if fields != [] {
      LookupInBlock(fields[1..], g);
      BlockStops(fields[1..]);
      hide Name, Join, Lookup, FieldLines, GoodPieces, Stops;
      FieldLookup(fields[0], BlockLines(fields[1..]), g);
    }
  }

  lemma LookupStep(line: string, rest: seq<string>, key: string)
    requires line != "" && Chomp(line) == line
    ensures Lookup([line] + rest, key) == if HasKey(line, key) then ValueOf(line) + Continued(rest)
            else Lookup(rest, key)
  {
    hide Chomp, HasKey, ValueOf, Continued;
    assert ([line] + rest)[1..] == rest;
  }

  /** A printed block is read back: its body, and every header. */
  lemma BlockRoundTrip(fields: seq<Field>, body: string, g: HeaderName)
    requires fields != [] && GoodFields(fields)
    ensures SplitBlock(BlockText(fields) + "\r\n" + body) == (Headers(fields), body)
    ensures HeaderValue(Headers(fields), Name(g)) == ValueIn(fields, g)
  {
    BlockSplits(fields, body);
    BlockLinesGood(fields);
    LookupInBlock(fields, g);
    hide *;
    HeaderValueOfLines(BlockLines(fields), Name(g));
    assert Headers(fields) == Join(BlockLines(fields), "\r\n") by { HeadersDef(fields); }
  }

  lemma HeadersDef(fields: seq<Field>)
    ensures Headers(fields) == Join(BlockLines(fields), "\r\n")
  {
  }
}

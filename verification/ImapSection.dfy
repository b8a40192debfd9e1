/** ExtractPartBySection of imap-server/src/ImapUtils.cpp. It cuts a body by the delimiters alone: unlike
    the parser it does not look for the closing one, and its last section runs to the end of the text. */
module ImapSection {
  import opened Text
  import opened Multipart
  import opened MimeStructure

  /** What follows a delimiter: a slice, and the text after the next delimiter if there is one. */
  datatype Piece = Last(slice: string) | Inner(slice: string, rest: string)

  function NextPiece(t: string, d: string): (r: Piece)
    requires d != []
    ensures r.Inner? ==> |r.rest| < |t|
  {
    var u := t[BreakLength(t)..];
    var end := Find(u, d, 0);
    if end == NPOS then Last(u) else Inner(u[..end], u[end + |d|..])
  }

  /** The texts between delimiters, each less the line break after its delimiter. */
  function SlicesAfter(t: string, d: string): seq<string>
    requires d != []
    decreases |t|
  {
    match NextPiece(t, d)
    case Last(slice) => [slice]
    case Inner(slice, rest) => [slice] + SlicesAfter(rest, d)
  }

  function Slices(body: string, d: string, pos: int): seq<string>
    requires d != [] && NPOS <= pos
  {
    var start := if pos == NPOS then NPOS else Find(body, d, pos);
    if start == NPOS then [] else SlicesAfter(body[start + |d|..], d)
  }

  /** A section is handed out without its final line break. */
  function Unbroken(s: string): (r: string)
    ensures r <= s && |s| <= |r| + 2
  {
    if |s| >= 2 && s[|s| - 2] == '\r' && s[|s| - 1] == '\n' then s[..|s| - 2]
    else if |s| >= 1 && s[|s| - 1] == '\n' then s[..|s| - 1]
    else s
  }

  lemma {:induction false} PieceAt(body: string, d: string, at: nat)
    requires d != [] && at <= |body|
    ensures var start := at + BreakLength(body[at..]);
            var end := Find(body, d, start);
            NextPiece(body[at..], d)
            == if end == NPOS then Last(body[start..]) else Inner(body[start..end], body[end + |d|..])
  {
    hide BreakLength, Find;
    var t := body[at..];
    var start := at + BreakLength(t);
    DropDrop(body, at, BreakLength(t));
    FindShift(body, d, start);
    var end := Find(body[start..], d, 0);
    if end != NPOS {
      DropTake(body, start, end);
      DropDrop(body, start, end + |d|);
    }
  }

  lemma {:induction false} SlicesAt(body: string, d: string, pos: nat)
    requires d != [] && Find(body, d, pos) != NPOS
    ensures var at := Find(body, d, pos) + |d|;
            var start := at + BreakLength(body[at..]);
            var end := Find(body, d, start);
            Slices(body, d, pos) == [body[start..if end == NPOS then |body| else end]] + Slices(body, d, end)
  {
    hide BreakLength, Find, NextPiece;
    var at := Find(body, d, pos) + |d|;
    var start := at + BreakLength(body[at..]);
    PieceAt(body, d, at);
    if Find(body, d, start) == NPOS {
      assert body[start..|body|] == body[start..];
    } else {
      FoundAgain(body, d, start);
    }
  }

  lemma {:induction false} FoundAgain(s: string, p: string, from: nat)
    requires Find(s, p, from) != NPOS
    ensures Find(s, p, Find(s, p, from)) == Find(s, p, from)
  {
    FindSpec(s, p, from);
  }

  /** The loop of ExtractPartBySection. */
  method ExtractPartBySection(body: string, boundary: string, number: int) returns (section: string)
    ensures var all := Slices(body, "--" + boundary, 0);
            section == if 1 <= number <= |all| then Unbroken(all[number - 1]) else ""
  {
    var d := "--" + boundary;
    hide Slices, Find, BreakLength;
    ghost var all := Slices(body, d, 0);
    var pos, current := 0, 0;
    assert all[0..] == all;
    while current < number
      invariant NPOS <= pos && 0 <= current <= |all| && (number > 0 ==> current < number)
      invariant Slices(body, d, pos) == all[current..]
      decreases number - current
    {
      var next := if pos == NPOS then NPOS else Find(body, d, pos);
      if next == NPOS {
        NoSlices(body, d, pos);
        assert |all| == current + |all[current..]|;
        return "";
      }
      SlicesAt(body, d, pos);
      assert all[current] == all[current..][0] && all[current + 1..] == all[current..][1..];
      var start := AfterBreak(body, next + |d|);
      var next2 := Find(body, d, start);
      if current == number - 1 {
        var end := if next2 == NPOS then |body| else next2;
        section := Shorten(body, start, end);
        return;
      }
      pos := next2;
      current := current + 1;
    }
    section := "";
  }

  lemma NoSlices(body: string, d: string, pos: int)
    requires d != [] && NPOS <= pos && (pos == NPOS || Find(body, d, pos) == NPOS)
    ensures Slices(body, d, pos) == []
  {
  }

  method Shorten(body: string, start: nat, end: nat) returns (section: string)
    requires start <= end <= |body|
    ensures section == Unbroken(body[start..end])
  {
    var length := end - start;
    ghost var slice := body[start..end];
    assert length >= 1 ==> slice[length - 1] == body[end - 1];
    assert length >= 2 ==> slice[length - 2] == body[end - 2];
    if length >= 2 && body[end - 2] == '\r' && body[end - 1] == '\n' {
      length := length - 2;
    } else if length >= 1 && body[end - 1] == '\n' {
      length := length - 1;
    }
    section := body[start..start + length];
    assert section == slice[..length];
  }

  // ------------------------------------------------------ sections and children

  /** Without the test for the closing dashes the next piece is the next segment. */
  lemma {:induction false} PieceIsSegment(t: string, d: string)
    requires d != [] && NextSegment(t, d).Part?
    ensures var s := NextSegment(t, d); NextPiece(t, d) == Inner(s.part, s.rest)
  {
    hide BreakLength, Find, Closes;
  }

  lemma {:induction false} PartsBeginSlicesAfter(t: string, d: string)
    requires d != []
    ensures PartsAfter(t, d) <= SlicesAfter(t, d) && |PartsAfter(t, d)| < |SlicesAfter(t, d)|
    decreases |t|
  {
    hide NextSegment, NextPiece;
    var next := NextSegment(t, d);
    if next.Part? {
      PieceIsSegment(t, d);
      PartsBeginSlicesAfter(next.rest, d);
    }
  }

  /** The parser's parts are the first slices. Where the delimiter occurs there is at least one slice more, so
      asking for one section too many hands out what follows the parts instead of nothing. */
  lemma PartsBeginSlices(body: string, d: string)
    requires d != []
    ensures Parts(body, d) <= Slices(body, d, 0)
    ensures Contains(body, d) ==> |Parts(body, d)| < |Slices(body, d, 0)|
  {
    hide Find, SlicesAfter, PartsAfter;
    var start := Find(body, d, 0);
    if start != NPOS {
      PartsBeginSlicesAfter(body[start + |d|..], d);
    }
  }

  /** Section k is the text from which the parser builds its k-th child, less one line break. */
  lemma SectionIsChild(body: string, boundary: string, number: int)
    requires 1 <= number <= |ChildrenOf(body, "--" + boundary)|
    ensures var d := "--" + boundary;
            var all := Slices(body, d, 0);
            && number <= |Parts(body, d)| && number <= |all| && all[number - 1] == Parts(body, d)[number - 1]
            && ChildrenOf(body, d)[number - 1] == StructureOf(all[number - 1])
  {
    var d := "--" + boundary;
    hide ChildrenOf, Slices, Parts, StructureOf;
    PartsBeginSlices(body, d);
    ChildrenAreStructures(body, d);
  }
}

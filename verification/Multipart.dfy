/** Cutting a multipart body at its delimiters. The same loop stands in
    MimeParser::ParseMultipartBody and MimeParser::ParsePartStructure, and a third time, with other
    exits, in ExtractPartBySection of imap-server/src/ImapUtils.cpp. */
module Multipart {
  import opened Text

  /** At most one CR and then at most one LF are skipped after a delimiter. */
  function BreakLength(t: string): (n: nat)
    ensures n <= |t|
  {
    if |t| > 1 && t[0] == '\r' && t[1] == '\n' then 2
    else if |t| > 0 && (t[0] == '\r' || t[0] == '\n') then 1
    else 0
  }

  /** The two dashes that turn a delimiter into the closing one. */
  predicate Closes(u: string) {
    |u| >= 2 && u[0] == '-' && u[1] == '-'
  }

  /** What follows a delimiter: a part and the text after its own delimiter, or the end. */
  datatype Segment = Stop | Part(part: string, rest: string)

  function NextSegment(t: string, d: string): (r: Segment)
    requires d != []
    ensures r.Part? ==> |r.part| + |r.rest| < |t|
  {
    var u := t[BreakLength(t)..];
    var end := Find(u, d, 0);
    if Closes(u) || end == NPOS then Stop else Part(u[..end], u[end + |d|..])
  }

  /** The parts of the text that follows a delimiter, up to the closing delimiter or to the last
      delimiter there is. */
  function PartsAfter(t: string, d: string): seq<string>
    requires d != []
    decreases |t|
  {
    match NextSegment(t, d)
    case Stop => []
    case Part(part, rest) => [part] + PartsAfter(rest, d)
  }

  function Parts(body: string, d: string): seq<string>
    requires d != []
  {
    var start := Find(body, d, 0);
    if start == NPOS then [] else PartsAfter(body[start + |d|..], d)
  }

  function TotalLength(parts: seq<string>): nat {
    if parts == [] then 0 else |parts[0]| + TotalLength(parts[1..])
  }

  lemma TotalCons(part: string, rest: seq<string>)
    ensures TotalLength([part] + rest) == |part| + TotalLength(rest)
  {
    assert ([part] + rest)[1..] == rest;
  }

  /** Parts and delimiters do not overlap, so the parts are shorter than the text. */
  lemma {:induction false} PartsAfterFit(t: string, d: string)
    requires d != []
    ensures TotalLength(PartsAfter(t, d)) <= |t|
    decreases |t|
  {
    hide NextSegment;
    var next := NextSegment(t, d);
    if next.Part? {
      PartsAfterFit(next.rest, d);
      TotalCons(next.part, PartsAfter(next.rest, d));
    }
  }

  lemma {:induction false} PartsFit(body: string, d: string)
    requires d != []
    ensures Parts(body, d) != [] ==> TotalLength(Parts(body, d)) < |body|
  {
    hide PartsAfter, Find;
    var start := Find(body, d, 0);
    if start != NPOS {
      PartsAfterFit(body[start + |d|..], d);
    }
  }

  lemma {:induction false} PartWithinTotal(parts: seq<string>, i: nat)
    requires i < |parts|
    ensures |parts[i]| <= TotalLength(parts)
  {
    if i > 0 {
      PartWithinTotal(parts[1..], i - 1);
    }
  }

  ghost predicate AllShorter(parts: seq<string>, bound: nat) {
    forall i :: 0 <= i < |parts| ==> |parts[i]| < bound
  }

  /** Every part is strictly shorter than the body: the reason that parsing terminates. */
  lemma {:induction false} PartsShorter(body: string, d: string)
    requires d != []
    ensures AllShorter(Parts(body, d), |body|)
  {
    var parts := Parts(body, d);
    hide Parts, TotalLength;
    forall i | 0 <= i < |parts| ensures |parts[i]| < |body| {
      PartWithinTotal(parts, i);
      PartsFit(body, d);
    }
  }

  /** Where the loop stands: the text after the delimiter it has just found, or nothing. */
  function Remaining(body: string, d: string, pos: int): seq<string>
    requires d != [] && NPOS <= pos && (pos >= 0 ==> pos + |d| <= |body|)
  {
    if pos == NPOS then [] else PartsAfter(body[pos + |d|..], d)
  }

  lemma RemainingStart(body: string, d: string)
    requires d != []
    ensures Parts(body, d) == Remaining(body, d, Find(body, d, 0))
  {
    hide Find, PartsAfter;
  }

  lemma RemainingEnd(body: string, d: string)
    requires d != []
    ensures Remaining(body, d, NPOS) == []
  {
  }

  /** The two steps over a line break after a delimiter. */
  method AfterBreak(body: string, at: nat) returns (start: nat)
    requires at <= |body|
    ensures at <= start <= |body| && start == at + BreakLength(body[at..])
  {
    start := at;
    if start < |body| && body[start] == '\r' { start := start + 1; }
    if start < |body| && body[start] == '\n' { start := start + 1; }
  }

  /** The next segment, said by positions in the whole body. */
  lemma {:induction false} SegmentAt(body: string, d: string, at: nat)
    requires d != [] && at <= |body|
    ensures var start := at + BreakLength(body[at..]);
            var end := Find(body, d, start);
            NextSegment(body[at..], d)
            == if Closes(body[start..]) || end == NPOS then Stop else Part(body[start..end], body[end + |d|..])
  {
    hide BreakLength, Find, Closes;
    var t := body[at..];
    var start := at + BreakLength(t);
    DropDrop(body, at, BreakLength(t));
    FindShift(body, d, start);
    var end := Find(body[start..], d, 0);
    if end != NPOS {
      DropTake(body, start, end);
      DropDrop(body, start, end + |d|);
    }
  }

  lemma {:induction false} RemainingAt(body: string, d: string, pos: nat)
    requires d != [] && pos + |d| <= |body|
    ensures var start := pos + |d| + BreakLength(body[pos + |d|..]);
            var end := Find(body, d, start);
            Remaining(body, d, pos)
            == if Closes(body[start..]) || end == NPOS then [] else [body[start..end]] + Remaining(body, d, end)
  {
    hide BreakLength, Find, Closes, NextSegment;
    SegmentAt(body, d, pos + |d|);
  }

  /** One round of the loop: the next part, or the break. */
  method NextPart(body: string, d: string, pos: nat) returns (more: bool, start: nat, end: int)
    requires d != [] && pos + |d| <= |body|
    ensures more ==> pos < start <= end && end + |d| <= |body|
    ensures more ==> Remaining(body, d, pos) == [body[start..end]] + Remaining(body, d, end)
    ensures !more ==> Remaining(body, d, pos) == []
  {
    hide BreakLength, Find, Remaining;
    start := AfterBreak(body, pos + |d|);
    RemainingAt(body, d, pos);
    end := Find(body, d, start);
    var closes := start + 1 < |body| && body[start..start + 2] == "--";
    assert closes <==> Closes(body[start..]) by { ClosesAt(body, start); }
    more := !closes && end != NPOS;
  }

  lemma ClosesAt(body: string, start: nat)
    requires start <= |body|
    ensures Closes(body[start..]) <==> start + 1 < |body| && body[start..start + 2] == "--"
  {
    if start + 1 < |body| {
      assert body[start..start + 2] == [body[start], body[start + 1]];
    }
  }
}

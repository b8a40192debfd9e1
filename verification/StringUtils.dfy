/** common/utils/StringUtils.cpp: character-safe cutting and line wrapping. */
module StringUtils {
  import opened Text

  // -------------------------------------------------------------------- UTF-8

  /** `(c & 0xC0) == 0x80`. */
  predicate IsCont(c: char) {
    0x80 <= c as int < 0xC0
  }

  /** The length announced by a lead byte; 0 for a byte that cannot lead. */
  function LeadLength(c: char): nat {
    var v := c as int;
    if v < 0x80 then 1
    else if 0xC0 <= v < 0xE0 then 2
    else if 0xE0 <= v < 0xF0 then 3
    else if 0xF0 <= v < 0xF8 then 4
    else 0
  }

  /** One whole character. */
  predicate IsCharacter(s: string) {
    s != [] && |s| == LeadLength(s[0]) && forall i :: 1 <= i < |s| ==> IsCont(s[i])
  }

  /** A sequence of whole characters. Every valid UTF-8 text is one. */
  predicate Utf8(s: string) {
    s == [] || (var n := LeadLength(s[0]); 0 < n <= |s| && IsCharacter(s[..n]) && Utf8(s[n..]))
  }

  lemma {:induction false} Utf8Concat(a: string, b: string)
    requires Utf8(a) && Utf8(b)
    ensures Utf8(a + b)
  {
    if a == [] {
      assert a + b == b;
    } else {
      var n := LeadLength(a[0]);
      assert (a + b)[..n] == a[..n] && (a + b)[n..] == a[n..] + b;
      Utf8Concat(a[n..], b);
    }
  }

  lemma Utf8Ascii(c: char, s: string)
    requires c as int < 0x80
    ensures Utf8([c] + s) <==> Utf8(s)
  {
    assert ([c] + s)[1..] == s && ([c] + s)[..1] == [c];
  }

  predicate Boundary(s: string, k: nat) {
    k == |s| || (k < |s| && !IsCont(s[k]))
  }

  /** A text of whole characters may be cut wherever no continuation byte follows. */
  lemma {:induction false} Utf8Split(s: string, k: nat)
    requires Utf8(s) && k <= |s| && Boundary(s, k)
    ensures Utf8(s[..k]) && Utf8(s[k..])
  {
    hide *;
    if k == 0 {
      Utf8Nothing();
      assert s[..k] == "" && s[k..] == s;
    } else {
      var n := LeadLength(s[0]);
      CutBehindFirst(s, k);
      var first, rest := s[..n], s[n..];
      Utf8Split(rest, k - n);
      Utf8Cons(first, rest[..k - n]);
      assert first + rest[..k - n] == s[..k];
      assert rest[k - n..] == s[k..];
    }
  }

  lemma Utf8Nothing()
    ensures Utf8("")
  {
  }

  lemma CutBehindFirst(s: string, k: nat)
    requires Utf8(s) && 0 < k <= |s| && Boundary(s, k)
    ensures var n := LeadLength(s[0]);
            && 0 < n <= k && Utf8(s[n..]) && Boundary(s[n..], k - n)
            && IsCharacter(s[..n]) && LeadLength(s[..n][0]) == n
  {
    FirstOf(s);
    hide *;
    BehindCharacter(s, LeadLength(s[0]), k);
  }

  lemma FirstOf(s: string)
    requires Utf8(s) && s != []
    ensures var n := LeadLength(s[0]);
            0 < n <= |s| && IsCharacter(s[..n]) && LeadLength(s[..n][0]) == n && Utf8(s[n..])
  {
    hide IsCharacter, LeadLength;
  }

  lemma BehindCharacter(s: string, n: nat, k: nat)
    requires 0 < n <= |s| && IsCharacter(s[..n]) && 0 < k <= |s| && Boundary(s, k)
    ensures n <= k && Boundary(s[n..], k - n)
  {
    hide IsCont, LeadLength;
    assert forall j :: 1 <= j < n ==> s[..n][j] == s[j];
  }

  lemma Utf8Cons(c: string, rest: string)
    requires c != [] && LeadLength(c[0]) == |c| && IsCharacter(c) && Utf8(rest)
    ensures Utf8(c + rest)
  {
    hide IsCharacter, LeadLength;
    assert (c + rest)[..|c|] == c && (c + rest)[|c|..] == rest;
  }

  lemma Utf8Lead(s: string)
    requires Utf8(s) && s != []
    ensures !IsCont(s[0])
  {
  }

  // ------------------------------------------------------------ safe cutting

  function Min(a: nat, b: nat): nat { if a <= b then a else b }

  /** FindUtf8SafeEnd: the last cut within `maxBytes` that no continuation byte follows,
      or `start` when there is none. */
  ghost predicate IsSafeEnd(text: string, start: nat, maxBytes: nat, end: nat) {
    && start <= end <= Min(start + maxBytes, |text|)
    && (end == start || Boundary(text, end))
    && (forall j :: end < j <= Min(start + maxBytes, |text|) ==> !Boundary(text, j))
  }

  function SafeEnd(text: string, start: nat, maxBytes: nat): (end: nat)
    requires start <= |text|
    ensures IsSafeEnd(text, start, maxBytes, end)
  {
    BackUp(text, start, Min(start + maxBytes, |text|))
  }

  function BackUp(text: string, start: nat, end: nat): (r: nat)
    requires start <= end <= |text|
    ensures start <= r <= end && (r == start || Boundary(text, r))
    ensures forall j :: r < j <= end ==> !Boundary(text, j)
  {
    if end > start && end < |text| && IsCont(text[end]) then BackUp(text, start, end - 1) else end
  }

  method FindUtf8SafeEnd(text: string, start: nat, maxBytes: nat) returns (end: nat)
    requires start <= |text|
    ensures end == SafeEnd(text, start, maxBytes)
  {
    end := Min(start + maxBytes, |text|);
    while end > start && end < |text| && IsCont(text[end])
      invariant start <= end <= |text|
      invariant BackUp(text, start, end) == SafeEnd(text, start, maxBytes)
    {
      end := end - 1;
    }
  }

  lemma SafeEndUnique(text: string, start: nat, maxBytes: nat, a: nat, b: nat)
    requires start <= |text| && IsSafeEnd(text, start, maxBytes, a) && IsSafeEnd(text, start, maxBytes, b)
    ensures a == b
  {
  }

  /** The cut depends only on the text from `start` on. */
  lemma SafeEndShift(text: string, start: nat, maxBytes: nat)
    requires start <= |text|
    ensures SafeEnd(text, start, maxBytes) == start + SafeEnd(text[start..], 0, maxBytes)
  {
    var t := text[start..];
    var e := SafeEnd(t, 0, maxBytes);
    hide SafeEnd;
    forall j | 0 <= j <= |t| ensures Boundary(t, j) == Boundary(text, start + j) {
    }
    forall j | start + e < j <= Min(start + maxBytes, |text|) ensures !Boundary(text, j) {
      assert !Boundary(t, j - start);
    }
    assert IsSafeEnd(text, start, maxBytes, start + e);
    SafeEndUnique(text, start, maxBytes, start + e, SafeEnd(text, start, maxBytes));
  }

  /** In a text of whole characters a window of four bytes always leaves a cut. */
  lemma SafeEndProgress(text: string, maxBytes: nat)
    requires Utf8(text) && text != [] && maxBytes >= 4
    ensures 0 < SafeEnd(text, 0, maxBytes) && Boundary(text, SafeEnd(text, 0, maxBytes))
  {
    var n := LeadLength(text[0]);
    if n < |text| {
      Utf8Lead(text[n..]);
      assert text[n..][0] == text[n];
    }
    assert Boundary(text, n);
  }

  // ---------------------------------------------------------------- wrapping

  predicate IsBreak(c: char) {
    c == '\r' || c == '\n'
  }

  /** `chunk.find_last_of(" \t")`. */
  function LastBlank(s: string): (r: int)
    ensures NPOS <= r < |s|
    ensures r >= 0 ==> s[r] == ' ' || s[r] == '\t'
    ensures forall j :: r < j < |s| ==> s[j] != ' ' && s[j] != '\t'
  {
    if s == [] then NPOS
    else if s[|s| - 1] == ' ' || s[|s| - 1] == '\t' then |s| - 1
    else LastBlank(s[..|s| - 1])
  }

  function LineLimit(lineLength: nat): (r: nat)
    ensures 1 <= r <= 998
  {
    if lineLength > 998 then 998 else if lineLength < 1 then 1 else lineLength
  }

  /** Bytes consumed by a line break at the front: CRLF counts as one break. */
  function BreakLength(t: string): nat
    requires t != []
  {
    if t[0] == '\r' && |t| > 1 && t[1] == '\n' then 2 else 1
  }

  /** Whether a window without a line break is cut at its last blank, which is dropped. */
  predicate SkipsBlank(t: string, window: nat)
    requires window <= |t|
  {
    LastBlank(t[..window]) != NPOS && window < |t|
  }

  /** Where a window without a line break is cut. */
  function SplitLength(t: string, window: nat): (r: nat)
    requires 1 <= window <= |t|
    ensures r <= window
    ensures if SkipsBlank(t, window) then IsSpace(t[r]) && r < window else r > 0
  {
    var space := LastBlank(t[..window]);
    if space != NPOS && window < |t| then
      assert t[..window][space] == t[space];
      space
    else if window == |t| then window
    else
      var safe := SafeEnd(t, 0, window);
      if safe == 0 then window else safe
  }

  /** The first line of `t` as it is wrapped: up to a line break in the window, or to the cut. */
  function PieceLength(t: string, limit: nat): (n: nat)
    requires t != [] && limit >= 1
    ensures n <= limit && n <= |t|
  {
    var window := Min(limit, |t|);
    var newline := FindAny(t, {'\r', '\n'}, 0);
    if newline != NPOS && newline < window then newline else SplitLength(t, window)
  }

  /** The bytes that the first line uses up: the piece, and the break or the blank it is cut at. */
  function Consumed(t: string, limit: nat): (next: nat)
    requires t != [] && limit >= 1
    ensures PieceLength(t, limit) <= next <= |t| && 0 < next
  {
    var window := Min(limit, |t|);
    var newline := FindAny(t, {'\r', '\n'}, 0);
    if newline != NPOS && newline < window then newline + BreakLength(t[newline..])
    else if SkipsBlank(t, window) then SplitLength(t, window) + 1
    else SplitLength(t, window)
  }

  /** WrapText of the remaining text `t`, for a limit already put in range. */
  function Wrap(t: string, limit: nat): string
    requires limit >= 1
    decreases |t|
  {
    if t == [] then "" else t[..PieceLength(t, limit)] + CRLF + Wrap(t[Consumed(t, limit)..], limit)
  }

  function WrapText(text: string, lineLength: nat): string {
    Wrap(text, LineLimit(lineLength))
  }

  /** The cut that the loop of WrapText computes for a window free of line breaks. */
  method SplitPoint(text: string, pos: nat, limit: nat) returns (splitLength: nat, skip: bool)
    requires pos + limit <= |text| && limit >= 1
    ensures splitLength == SplitLength(text[pos..], limit) && skip == SkipsBlank(text[pos..], limit)
  {
    var chunk := text[pos..pos + limit];
    assert chunk == text[pos..][..limit];
    var space := LastBlank(chunk);
    hide LastBlank, SafeEnd;
    if space != NPOS && pos + limit < |text| {
      splitLength, skip := space, true;
    } else if pos + limit == |text| {
      splitLength, skip := limit, false;
    } else {
      var safe := FindUtf8SafeEnd(text, pos, limit);
      SafeEndShift(text, pos, limit);
      splitLength, skip := safe - pos, false;
      if splitLength == 0 && limit > 0 {
        splitLength := limit;
      }
    }
  }

  /** The loop of WrapText. */
  method WrapTextImpl(text: string, lineLength: nat) returns (result: string)
    ensures result == WrapText(text, lineLength)
  {
    var limit := LineLimit(lineLength);
    result := "";
    var pos := 0;
    assert text[0..] == text && Wrap("", limit) == "" && "" + Wrap(text, limit) == Wrap(text, limit);
    hide Wrap;
    while pos < |text|
      invariant 0 <= pos <= |text|
      invariant result + Wrap(text[pos..], limit) == WrapText(text, lineLength)
    {
      if text[pos] == '\r' || text[pos] == '\n' {
        result, pos := BreakRound(text, pos, limit, result);
      } else {
        result, pos := WrapRound(text, pos, limit, result);
      }
    }
    assert text[pos..] == "" && result + "" == result;
  }

  /** A round of the loop at a line break: whichever kind, it becomes CRLF. */
  method BreakRound(text: string, pos: nat, ghost limit: nat, result: string) returns (result': string, pos': nat)
    requires pos < |text| && limit >= 1 && IsBreak(text[pos])
    ensures pos < pos' <= |text|
    ensures result' + Wrap(text[pos'..], limit) == result + Wrap(text[pos..], limit)
  {
    hide Wrap;
    WrapAtBreak(text, pos, limit);
    pos' := pos + if text[pos] == '\r' && pos + 1 < |text| && text[pos + 1] == '\n' then 2 else 1;
    assert pos' == pos + BreakLength(text[pos..]);
    Assoc(result, CRLF, Wrap(text[pos'..], limit));
    result' := result + CRLF;
  }

  /** A round of the loop that does not start at a line break: it copies up to a break inside the
      window, or writes one line. */
  method WrapRound(text: string, pos: nat, lineLength: nat, result: string) returns (result': string, pos': nat)
    requires pos < |text| && lineLength >= 1 && !IsBreak(text[pos])
    ensures pos < pos' <= |text|
    ensures result' + Wrap(text[pos'..], lineLength) == result + Wrap(text[pos..], lineLength)
  {
    hide SplitLength, SkipsBlank, FindAny, Wrap;
    var limit := lineLength;
    if pos + limit > |text| {
      limit := |text| - pos;
    }
    var newline := FindAny(text, {'\r', '\n'}, pos);
    if newline != NPOS && newline < pos + limit {
      WrapBeforeBreak(text, pos, lineLength, newline);
      Assoc(result, text[pos..newline], Wrap(text[newline..], lineLength));
      return result + text[pos..newline], newline;
    }
    var splitLength, skip := SplitPoint(text, pos, limit);
    WrapAtCut(text, pos, lineLength, limit, splitLength, skip);
    pos' := pos + splitLength;
    if skip && pos' < |text| {
      pos' := pos' + 1;
    }
    Assoc4(result, text[pos..pos + splitLength], CRLF, Wrap(text[pos'..], lineLength));
    result' := result + text[pos..pos + splitLength] + CRLF;
  }

  lemma WrapDef(t: string, limit: nat)
    requires t != [] && limit >= 1
    ensures Wrap(t, limit) == t[..PieceLength(t, limit)] + CRLF + Wrap(t[Consumed(t, limit)..], limit)
  {
    hide PieceLength, Consumed;
  }

  lemma WrapAtBreak(text: string, pos: nat, limit: nat)
    requires pos < |text| && limit >= 1 && IsBreak(text[pos])
    ensures Wrap(text[pos..], limit) == CRLF + Wrap(text[pos + BreakLength(text[pos..])..], limit)
  {
    hide SplitLength, SkipsBlank, FindAny;
    var t := text[pos..];
    FrontBreak(t);
    var k := BreakLength(t);
    assert t[0..] == t && t[..0] + CRLF == CRLF;
    assert PieceLength(t, limit) == 0 && Consumed(t, limit) == k;
    hide PieceLength, Consumed, Wrap;
    WrapDef(t, limit);
    DropDrop(text, pos, k);
  }

  lemma FrontBreak(t: string)
    requires t != [] && IsBreak(t[0])
    ensures FindAny(t, {'\r', '\n'}, 0) == 0
  {
    assert t[0] in {'\r', '\n'};
  }

  lemma PieceBeforeBreak(text: string, pos: nat, limit: nat, newline: nat)
    requires pos < newline < |text| && limit >= 1
    requires newline == FindAny(text, {'\r', '\n'}, pos) && newline < pos + limit
    ensures PieceLength(text[pos..], limit) == newline - pos
    ensures Consumed(text[pos..], limit) == newline - pos + BreakLength(text[newline..])
  {
    hide SplitLength, SkipsBlank, FindAny;
    FindAnyShift(text, {'\r', '\n'}, pos);
    assert text[pos..][newline - pos..] == text[newline..];
  }

  lemma WrapBeforeBreak(text: string, pos: nat, limit: nat, newline: nat)
    requires pos < newline < |text| && limit >= 1
    requires newline == FindAny(text, {'\r', '\n'}, pos) && newline < pos + limit
    ensures Wrap(text[pos..], limit) == text[pos..newline] + Wrap(text[newline..], limit)
  {
    hide PieceLength, Consumed, FindAny, Wrap;
    PieceBeforeBreak(text, pos, limit, newline);
    WrapAtBreak(text, newline, limit);
    var n, k := newline - pos, BreakLength(text[newline..]);
    WrapDef(text[pos..], limit);
    DropTake(text, pos, n);
    DropDrop(text, pos, n + k);
    Assoc(text[pos..newline], CRLF, Wrap(text[newline + k..], limit));
  }

  lemma PieceAtCut(t: string, limit: nat, window: nat)
    requires t != [] && limit >= 1 && window == Min(limit, |t|)
    requires var newline := FindAny(t, {'\r', '\n'}, 0); newline == NPOS || newline >= window
    ensures PieceLength(t, limit) == SplitLength(t, window)
    ensures Consumed(t, limit) == SplitLength(t, window) + if SkipsBlank(t, window) then 1 else 0
  {
    hide SplitLength, SkipsBlank, FindAny;
  }

  lemma WrapAtCut(text: string, pos: nat, limit: nat, window: nat, n: nat, skip: bool)
    requires pos < |text| && limit >= 1 && window == Min(limit, |text| - pos)
    requires var newline := FindAny(text, {'\r', '\n'}, pos); newline == NPOS || newline >= pos + window
    requires n == SplitLength(text[pos..], window) && skip == SkipsBlank(text[pos..], window)
    ensures skip ==> pos + n < |text|
    ensures Wrap(text[pos..], limit)
            == text[pos..pos + n] + CRLF + Wrap(text[if skip then pos + n + 1 else pos + n..], limit)
  {
    hide SplitLength, SkipsBlank, FindAny, PieceLength, Consumed, Wrap;
    FindAnyShift(text, {'\r', '\n'}, pos);
    var t := text[pos..];
    PieceAtCut(t, limit, window);
    WrapDef(t, limit);
    DropTake(text, pos, n);
    if skip {
      DropDrop(text, pos, n + 1);
    } else {
      DropDrop(text, pos, n);
    }
  }

  // -------------------------------------------------------- what wrapping keeps

  lemma OnlyBlanksDropped(t: string, limit: nat)
    requires t != [] && limit >= 1
    ensures forall i :: PieceLength(t, limit) <= i < Consumed(t, limit) ==> IsSpace(t[i])
  {
    hide SplitLength, SkipsBlank, FindAny;
  }

  lemma PieceEndsAtBoundary(t: string, limit: nat)
    requires t != [] && limit >= 4 && Utf8(t)
    ensures Boundary(t, PieceLength(t, limit))
  {
    hide FindAny, SafeEnd, LastBlank;
    var window := Min(limit, |t|);
    if window < |t| {
      SafeEndProgress(t, window);
    }
  }

  ghost predicate NoBreakIn(s: string, i: nat, j: nat)
    requires j <= |s|
  {
    forall k :: i <= k < j ==> !IsBreak(s[k])
  }

  /** Every stretch without CR or LF has at most `limit` bytes. */
  ghost predicate RunsWithin(s: string, limit: nat) {
    forall i: nat, j: nat :: i <= j <= |s| && NoBreakIn(s, i, j) ==> j - i <= limit
  }

  lemma RunsJoin(a: string, b: string, limit: nat)
    requires |a| <= limit && RunsWithin(b, limit)
    ensures RunsWithin(a + CRLF + b, limit)
  {
    var s := a + CRLF + b;
    assert s[|a|] == '\r' && s[|a| + 1] == '\n';
    forall i: nat, j: nat | i <= j <= |s| && NoBreakIn(s, i, j) ensures j - i <= limit {
      if j > |a| && i < j {
        assert i > |a| + 1;
        assert forall k :: i - |a| - 2 <= k < j - |a| - 2 ==> b[k] == s[k + |a| + 2];
        assert NoBreakIn(b, i - |a| - 2, j - |a| - 2);
      }
    }
  }

  lemma {:induction false} WrapRuns(t: string, limit: nat)
    requires limit >= 1
    ensures RunsWithin(Wrap(t, limit), limit)
    decreases |t|
  {
    if t != [] {
      hide RunsWithin, PieceLength, Consumed;
      WrapRuns(t[Consumed(t, limit)..], limit);
      RunsJoin(t[..PieceLength(t, limit)], Wrap(t[Consumed(t, limit)..], limit), limit);
    }
  }

  predicate NotSpace(c: char) {
    !IsSpace(c)
  }

  lemma {:induction false} FilterSpaces(s: string)
    requires forall i :: 0 <= i < |s| ==> IsSpace(s[i])
    ensures Filter(s, NotSpace) == ""
  {
    if s != [] {
      FilterSpaces(s[1..]);
    }
  }

  /** Blanks between two pieces do not show in the filtered text. */
  lemma FilterAround(a: string, blanks: string, b: string)
    requires forall i :: 0 <= i < |blanks| ==> IsSpace(blanks[i])
    ensures Filter(a + blanks + b, NotSpace) == Filter(a, NotSpace) + Filter(b, NotSpace)
  {
    hide Filter;
    FilterSpaces(blanks);
    FilterConcat(a + blanks, b, NotSpace);
    FilterConcat(a, blanks, NotSpace);
  }

  lemma {:induction false} WrapContent(t: string, limit: nat)
    requires limit >= 1
    ensures Filter(Wrap(t, limit), NotSpace) == Filter(t, NotSpace)
    decreases |t|
  {
    if t != [] {
      hide Filter, PieceLength, Consumed;
      var n, next := PieceLength(t, limit), Consumed(t, limit);
      OnlyBlanksDropped(t, limit);
      WrapContent(t[next..], limit);
      FilterAround(t[..n], CRLF, Wrap(t[next..], limit));
      FilterAround(t[..n], t[n..next], t[next..]);
      Cut3(t, n, next);
    }
  }

  lemma {:induction false} WrapUtf8(t: string, limit: nat)
    requires limit >= 4 && Utf8(t)
    ensures Utf8(Wrap(t, limit))
    decreases |t|
  {
    if t != [] {
      hide Utf8, PieceLength, Consumed;
      var n, next := PieceLength(t, limit), Consumed(t, limit);
      PieceEndsAtBoundary(t, limit);
      OnlyBlanksDropped(t, limit);
      Utf8Split(t, n);
      SkipSpaces(t, n, next);
      WrapUtf8(t[next..], limit);
      var rest := Wrap(t[next..], limit);
      Utf8AfterBreak(rest);
      Utf8Concat(t[..n], CRLF + rest);
      Assoc(t[..n], CRLF, rest);
    }
  }

  lemma Utf8AfterBreak(s: string)
    requires Utf8(s)
    ensures Utf8(CRLF + s)
  {
    hide Utf8;
    Utf8Ascii('\n', s);
    Utf8Ascii('\r', "\n" + s);
    assert "\r" + ("\n" + s) == CRLF + s;
  }

  lemma {:induction false} SkipSpaces(t: string, n: nat, next: nat)
    requires n <= next <= |t| && Utf8(t[n..]) && forall i :: n <= i < next ==> IsSpace(t[i])
    ensures Utf8(t[next..])
    decreases next - n
  {
    hide Utf8;
    if n < next {
      assert t[n..] == [t[n]] + t[n + 1..];
      Utf8Ascii(t[n], t[n + 1..]);
      SkipSpaces(t, n + 1, next);
    }
  }

  /** The wrapping law: short lines, the same non-blank bytes, and no character cut in two. */
  lemma WrapTextLaw(text: string, lineLength: nat)
    ensures RunsWithin(WrapText(text, lineLength), LineLimit(lineLength))
    ensures Filter(WrapText(text, lineLength), NotSpace) == Filter(text, NotSpace)
    ensures lineLength >= 4 && Utf8(text) ==> Utf8(WrapText(text, lineLength))
  {
    hide Wrap, RunsWithin, Filter, Utf8;
    WrapRuns(text, LineLimit(lineLength));
    WrapContent(text, LineLimit(lineLength));
    if lineLength >= 4 && Utf8(text) {
      WrapUtf8(text, LineLimit(lineLength));
    }
  }

  predicate NoSpaces(p: string) {
    forall i :: 0 <= i < |p| ==> !IsSpace(p[i])
  }

  /** A pattern without blanks that the text lacks does not arise by wrapping. */
  lemma {:induction false} WrapNoOccur(t: string, limit: nat, p: string)
    requires limit >= 1 && p != [] && NoOccur(t, p) && NoSpaces(p)
    ensures NoOccur(Wrap(t, limit), p)
    decreases |t|
  {
    if t != [] {
      hide NoOccur, NoSpaces, PieceLength, Consumed;
      var n, next := PieceLength(t, limit), Consumed(t, limit);
      NoOccurSub(t, p, 0, n);
      NoOccurSub(t, p, next, |t|);
      assert t[0..n] == t[..n] && t[next..|t|] == t[next..];
      WrapNoOccur(t[next..], limit, p);
      NoOccurAcrossBreak(t[..n], Wrap(t[next..], limit), p);
    }
  }

  lemma NoOccurAcrossBreak(a: string, b: string, p: string)
    requires p != [] && NoOccur(a, p) && NoOccur(b, p) && NoSpaces(p)
    ensures NoOccur(a + CRLF + b, p)
  {
    ShortNoOccur("", p);
    hide NoOccur;
    NoOccurSep("", '\n', b, p);
    assert "" + ['\n'] + b == "\n" + b;
    NoOccurSep(a, '\r', "\n" + b, p);
    assert a + ['\r'] + ("\n" + b) == a + CRLF + b;
  }
}

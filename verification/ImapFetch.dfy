/** A message on its way through FETCH RFC822: printed by HandleFetch of
    imap-server/src/ImapCommandDispatcher.cpp, split by imapExchange and cut out by ExtractRfc822Payload of
    mua/core/MailWorker.cpp. */
module ImapFetch {
  import opened Text
  import opened Wrappers
  import opened MimeHeaders
  import opened ImapSequence
  import SecureChannel

  // ------------------------------------------------------------------- decimal

  function Digit(d: nat): char
    requires d < 10
  {
    ('0' as int + d) as char
  }

  /** `std::to_string`. */
  function ToDecimal(n: nat): string {
    if n < 10 then [Digit(n)] else ToDecimal(n / 10) + [Digit(n % 10)]
  }

  predicate AllDigits(s: string) {
    forall i :: 0 <= i < |s| ==> IsDigit(s[i])
  }

  lemma {:induction false} DecimalRoundTrip(n: nat)
    ensures ToDecimal(n) != "" && AllDigits(ToDecimal(n)) && Decimal(ToDecimal(n)) == n
  {
    if n >= 10 {
      var init := ToDecimal(n / 10);
      DecimalRoundTrip(n / 10);
      assert (init + [Digit(n % 10)])[..|init|] == init;
    } else {
      assert [Digit(n)][..0] == "";
      assert Decimal("") == 0;
    }
  }

  // -------------------------------------------------------------------- server

  /** The whole answer to a FETCH of RFC822 that selects one message. */
  function FetchReply(number: nat, body: string, tag: string): string {
    "* " + ToDecimal(number) + " FETCH (RFC822 {" + ToDecimal(|body|) + "}\r\n" + body + ")\r\n" + tag
        + " OK Fetch completed\r\n"
  }

  // -------------------------------------------------------------------- client

  /** The lines of a frame without their ends. */
  function FrameLines(s: string): seq<string>
    decreases |s|
  {
    if s == "" then []
    else
      var k := FindChar(s, '\n', 0);
      if k == NPOS then [Chomp(s)] else [Chomp(s[..k])] + FrameLines(s[k + 1..])
  }

  /** The next line of a text, and what is left behind it. */
  function LineOf(s: string): string {
    var k := FindChar(s, '\n', 0);
    if k == NPOS then s else s[..k]
  }

  function AfterLine(s: string): (r: string)
    ensures s != "" ==> |r| < |s|
  {
    var k := FindChar(s, '\n', 0);
    if k == NPOS then "" else s[k + 1..]
  }

  lemma {:induction false} FrameLinesStep(s: string)
    ensures FrameLines(s) == if s == "" then [] else [Chomp(LineOf(s))] + FrameLines(AfterLine(s))
  {
    hide Chomp, FindChar;
    var k := FindChar(s, '\n', 0);
    if k == NPOS {
      assert FrameLines("") == [];
    }
  }

  lemma AppendOne(done: seq<string>, line: string, rest: seq<string>)
    ensures done + ([line] + rest) == done + [line] + rest
  {
  }

  method SplitFrame(frame: string) returns (lines: seq<string>)
    ensures lines == FrameLines(frame)
  {
    hide FrameLines, Chomp, LineOf, AfterLine;
    lines := [];
    var remaining := frame;
    assert lines + FrameLines(frame) == FrameLines(frame);
    while remaining != ""
      invariant lines + FrameLines(remaining) == FrameLines(frame)
      decreases |remaining|
    {
      FrameLinesStep(remaining);
      var line := Chomp(LineOf(remaining));
      AppendOne(lines, line, FrameLines(AfterLine(remaining)));
      lines := lines + [line];
      remaining := AfterLine(remaining);
    }
    FrameLinesStep("");
  }

  datatype Exchange = Pending(untagged: seq<string>) | Done(ok: bool, untagged: seq<string>)

  predicate Completes(line: string, tag: string) {
    StartsWith(line, tag + " OK")
  }

  predicate Refuses(line: string, tag: string) {
    StartsWith(line, tag + " NO") || StartsWith(line, tag + " BAD")
  }

  function Before(line: string, e: Exchange): Exchange {
    e.(untagged := [line] + e.untagged)
  }

  /** The untagged lines up to the tagged one that ends the exchange. */
  function Untagged(lines: seq<string>, tag: string): Exchange {
    if lines == [] then Pending([])
    else if Completes(lines[0], tag) then Done(true, [])
    else if Refuses(lines[0], tag) then Done(false, [])
    else Before(lines[0], Untagged(lines[1..], tag))
  }

  /** The loop over the lines of a frame. */
  method ReadReply(lines: seq<string>, tag: string) returns (e: Exchange)
    ensures e == Untagged(lines, tag)
  {
    hide Completes, Refuses;
    var untagged: seq<string> := [];
    assert lines[..0] == [];
    for i := 0 to |lines|
      invariant untagged == lines[..i]
      invariant Untagged(lines, tag) == Behind(lines[..i], Untagged(lines[i..], tag))
    {
      assert lines[i..][0] == lines[i] && lines[i..][1..] == lines[i + 1..];
      if Completes(lines[i], tag) {
        return Done(true, untagged);
      }
      if Refuses(lines[i], tag) {
        return Done(false, untagged);
      }
      assert lines[..i + 1] == lines[..i] + [lines[i]];
      assert forall u: seq<string> :: lines[..i] + ([lines[i]] + u) == lines[..i + 1] + u;
      untagged := untagged + [lines[i]];
    }
    assert lines[|lines|..] == [] && lines[..|lines|] == lines;
    e := Pending(untagged);
  }

  function Behind(done: seq<string>, e: Exchange): Exchange {
    e.(untagged := done + e.untagged)
  }

  /** `s.rfind(c, upto)`. */
  function FindLast(s: string, c: char, upto: int): (r: int)
    requires upto < |s|
    ensures r == NPOS || 0 <= r <= upto
    decreases upto + 1
  {
    if upto < 0 then NPOS else if s[upto] == c then upto else FindLast(s, c, upto - 1)
  }

  const SIZE_MAX := 0xffff_ffff_ffff_ffff

  /** The number between the last braces of a line. */
  function LiteralSize(line: string): Option<nat> {
    var close := FindLast(line, '}', |line| - 1);
    if close <= 0 then None
    else
      var open := FindLast(line, '{', close);
      if open == NPOS || open + 1 >= close then None
      else
        var value := line[open + 1..close];
        if !AllDigits(value) || Decimal(value) > SIZE_MAX then None else Some(Decimal(value))
  }

  function LiteralAt(lines: seq<string>, i: nat): (r: nat)
    requires i <= |lines|
    ensures i <= r <= |lines|
    ensures r < |lines| ==> LiteralSize(lines[r]).Some?
    decreases |lines| - i
  {
    if i == |lines| || LiteralSize(lines[i]).Some? then i else LiteralAt(lines, i + 1)
  }

  /** Lines with LF until the literal's size is reached. */
  function Collect(lines: seq<string>, size: nat, payload: string): string
    decreases |lines|
  {
    if lines == [] then payload
    else
      var grown := payload + lines[0] + "\n";
      if |grown| >= size then grown else Collect(lines[1..], size, grown)
  }

  function Cut(s: string, size: nat): string {
    if |s| > size then s[..size] else s
  }

  function Payload(lines: seq<string>): string {
    var at := LiteralAt(lines, 0);
    if at + 1 >= |lines| || LiteralSize(lines[at]) == Some(0) then ""
    else
      var size := LiteralSize(lines[at]).value;
      var payload := Collect(lines[at + 1..], size, "");
      Cut(payload, size)
  }

  /** The two loops of ExtractRfc822Payload. */
  method ExtractRfc822Payload(lines: seq<string>) returns (payload: string)
    ensures payload == Payload(lines)
  {
    hide LiteralSize;
    var i := 0;
    while i < |lines| && LiteralSize(lines[i]).None?
      invariant 0 <= i <= |lines| && LiteralAt(lines, i) == LiteralAt(lines, 0)
    {
      i := i + 1;
    }
    payload := "";
    if i + 1 >= |lines| || LiteralSize(lines[i]) == Some(0) {
      return;
    }
    var size := LiteralSize(lines[i]).value;
    ghost var whole := Collect(lines[i + 1..], size, "");
    var k := i + 1;
    while k < |lines|
      invariant i < k <= |lines|
      invariant Collect(lines[k..], size, payload) == whole
    {
      assert lines[k..][0] == lines[k] && lines[k..][1..] == lines[k + 1..];
      payload := payload + lines[k] + "\n";
      if |payload| >= size {
        break;
      }
      k := k + 1;
    }
    assert payload == whole;
    if |payload| > size {
      payload := payload[..size];
    }
  }

  // ---------------------------------------------------------------- round trip

  /** The lines of a body; the last one may be empty. */
  function BodyLines(body: string): (r: seq<string>)
    ensures r != []
    decreases |body|
  {
    var k := FindChar(body, '\n', 0);
    if k == NPOS then [body] else [body[..k]] + BodyLines(body[k + 1..])
  }

  /** The body's lines as the client sees them: without a CR at their end, and the last one with the
      reply's closing parenthesis. */
  function SeenLines(body: string): (r: seq<string>)
    ensures r != []
    decreases |body|
  {
    var k := FindChar(body, '\n', 0);
    if k == NPOS then [body + ")"] else [Chomp(body[..k])] + SeenLines(body[k + 1..])
  }

  /** No LF of the body stands behind a CR. */
  predicate Clean(body: string)
    decreases |body|
  {
    var k := FindChar(body, '\n', 0);
    k == NPOS || (Chomp(body[..k]) == body[..k] && Clean(body[k + 1..]))
  }

  /** The first line of a body with several. */
  lemma SplitsAt(body: string)
    requires FindChar(body, '\n', 0) != NPOS
    ensures var k := FindChar(body, '\n', 0);
            var a, b := body[..k], body[k + 1..];
            && body == a + "\n" + b && |b| < |body|
            && BodyLines(body) == [a] + BodyLines(b) && SeenLines(body) == [Chomp(a)] + SeenLines(b)
            && (Clean(body) <==> Chomp(a) == a && Clean(b))
  {
    hide Chomp;
  }

  lemma OneLine(body: string)
    requires FindChar(body, '\n', 0) == NPOS
    ensures BodyLines(body) == [body] && SeenLines(body) == [body + ")"] && Clean(body)
  {
  }

  /** A body without CR, in particular. */
  lemma {:induction false} NoCrIsClean(body: string)
    requires '\r' !in body
    ensures Clean(body)
    decreases |body|
  {
    var k := FindChar(body, '\n', 0);
    if k != NPOS {
      NoCrIsClean(body[k + 1..]);
    }
  }

  lemma FrameLinesCons(a: string, rest: string)
    requires '\n' !in a
    ensures FrameLines(a + "\n" + rest) == [Chomp(a)] + FrameLines(rest)
  {
    hide Chomp, FindChar;
    FindCharAfter("", a, '\n', rest);
    assert "" + a == a;
    Middle("", a, "\n" + rest);
    var s := a + "\n" + rest;
    assert s[..|a|] == a && s[|a| + 1..] == rest;
  }

  lemma ChompCr(a: string)
    ensures Chomp(a + "\r") == a
  {
    assert (a + "\r")[..|a|] == a;
  }

  lemma {:induction false} BodyInFrame(body: string, rest: string)
    ensures FrameLines(body + ")\r\n" + rest) == SeenLines(body) + FrameLines(rest)
    decreases |body|
  {
    hide Chomp, FrameLines;
    var k := FindChar(body, '\n', 0);
    if k == NPOS {
      assert body + ")\r\n" + rest == (body + ")" + "\r") + "\n" + rest;
      ChompCr(body + ")");
      FrameLinesCons(body + ")" + "\r", rest);
    } else {
      var a, b := body[..k], body[k + 1..];
      assert body == a + "\n" + b;
      assert body + ")\r\n" + rest == a + "\n" + (b + ")\r\n" + rest);
      FrameLinesCons(a, b + ")\r\n" + rest);
      BodyInFrame(b, rest);
      assert [Chomp(a)] + (SeenLines(b) + FrameLines(rest)) == [Chomp(a)] + SeenLines(b) + FrameLines(rest);
    }
  }

  /** A line that looks like the end of the exchange. */
  predicate Touched(line: string, tag: string) {
    Completes(line, tag) || Refuses(line, tag)
  }

  /** No line does. */
  predicate Untouched(lines: seq<string>, tag: string) {
    forall i :: 0 <= i < |lines| ==> !Touched(lines[i], tag)
  }

  lemma PrefixKept(p: string, line: string)
    requires p != "" && p[|p| - 1] != ')' && p[|p| - 1] != '\r'
    ensures p <= line <==> p <= line + ")"
    ensures p <= line <==> p <= Chomp(line)
  {
    if p <= line + ")" {
      assert p[|p| - 1] == (line + ")")[|p| - 1];
    }
    if p <= line {
      assert p[|p| - 1] == line[|p| - 1];
    }
  }

  lemma TouchedKept(line: string, tag: string)
    ensures Touched(line + ")", tag) == Touched(line, tag) && Touched(Chomp(line), tag) == Touched(line, tag)
  {
    hide Chomp;
    PrefixKept(tag + " OK", line);
    PrefixKept(tag + " NO", line);
    PrefixKept(tag + " BAD", line);
  }

  lemma {:induction false} SeenUntouchedIff(body: string, tag: string)
    ensures Untouched(SeenLines(body), tag) <==> Untouched(BodyLines(body), tag)
    decreases |body|
  {
    hide Touched, Chomp, FindChar, BodyLines, SeenLines, Clean, Untouched;
    var k := FindChar(body, '\n', 0);
    NoneTouched(tag);
    if k == NPOS {
      OneLine(body);
      TouchedKept(body, tag);
      UntouchedCons(body, [], tag);
      UntouchedCons(body + ")", [], tag);
      assert [body] + [] == [body] && [body + ")"] + [] == [body + ")"];
    } else {
      SplitsAt(body);
      var a, b := body[..k], body[k + 1..];
      UntouchedCons(a, BodyLines(b), tag);
      TouchedKept(a, tag);
      SeenUntouchedIff(b, tag);
      UntouchedCons(Chomp(a), SeenLines(b), tag);
    }
  }

  lemma NoneTouched(tag: string)
    ensures Untouched([], tag)
  {
  }

  lemma UntouchedCons(line: string, rest: seq<string>, tag: string)
    ensures Untouched([line] + rest, tag) <==> !Touched(line, tag) && Untouched(rest, tag)
  {
    hide Touched;
    var all := [line] + rest;
    assert all[0] == line;
    assert forall i :: 0 <= i < |rest| ==> rest[i] == all[i + 1];
  }

  lemma {:induction false} UntaggedUpTo(lines: seq<string>, end: string, tag: string)
    requires Untouched(lines, tag) && Completes(end, tag)
    ensures Untagged(lines + [end], tag) == Done(true, lines)
  {
    hide Completes, Refuses;
    if lines == [] {
      assert lines + [end] == [end];
    } else {
      assert (lines + [end])[0] == lines[0] && (lines + [end])[1..] == lines[1..] + [end];
      UntaggedUpTo(lines[1..], end, tag);
      assert [lines[0]] + lines[1..] == lines;
    }
  }

  /** A touched line ends the exchange in front of it. */
  lemma {:induction false} UntaggedCutShort(lines: seq<string>, more: seq<string>, tag: string) returns (i: nat)
    requires !Untouched(lines, tag)
    ensures i < |lines| && Touched(lines[i], tag)
    ensures Untagged(lines + more, tag) == Done(Completes(lines[i], tag), lines[..i])
  {
    hide Completes, Refuses;
    var all := lines + more;
    assert all[0] == lines[0] && all[1..] == lines[1..] + more;
    if Touched(lines[0], tag) {
      i := 0;
    } else {
      UntouchedCons(lines[0], lines[1..], tag);
      assert [lines[0]] + lines[1..] == lines;
      i := UntaggedCutShort(lines[1..], more, tag);
      assert [lines[0]] + lines[1..][..i] == lines[..i + 1];
      i := i + 1;
    }
  }

  // -------------------------------------------- an exchange that ends too early

  /** The length of lines, each with its LF. */
  function Total(lines: seq<string>): nat {
    if lines == [] then 0 else |lines[0]| + 1 + Total(lines[1..])
  }

  lemma {:induction false} CollectNoMore(lines: seq<string>, size: nat, done: string)
    ensures |Collect(lines, size, done)| <= |done| + Total(lines)
    decreases |lines|
  {
    if lines != [] {
      CollectNoMore(lines[1..], size, done + lines[0] + "\n");
    }
  }

  /** What stands in front of a line of the body leaves room for that line. */
  lemma {:induction false} RoomForLine(body: string, i: nat)
    requires i < |SeenLines(body)|
    ensures |SeenLines(body)| == |BodyLines(body)| && Total(SeenLines(body)[..i]) + |BodyLines(body)[i]| <= |body|
    decreases |body|
  {
    hide Chomp, FindChar, BodyLines, SeenLines, Clean;
    var k := FindChar(body, '\n', 0);
    if k == NPOS {
      OneLine(body);
      assert SeenLines(body)[..0] == [];
    } else {
      SplitsAt(body);
      var a, b := body[..k], body[k + 1..];
      var seen := SeenLines(b);
      if i == 0 {
        RoomForLine(b, 0);
        assert ([Chomp(a)] + seen)[..0] == [];
      } else {
        RoomForLine(b, i - 1);
        assert ([Chomp(a)] + seen)[..i] == [Chomp(a)] + seen[..i - 1];
        TotalCons(Chomp(a), seen[..i - 1]);
        ChompNoLonger(a);
      }
    }
  }

  lemma TotalCons(line: string, rest: seq<string>)
    ensures Total([line] + rest) == |line| + 1 + Total(rest)
  {
    assert ([line] + rest)[1..] == rest;
  }

  lemma ChompNoLonger(line: string)
    ensures |Chomp(line)| <= |line|
  {
  }

  lemma TouchedNotEmpty(line: string, tag: string)
    requires Touched(line, tag)
    ensures line != ""
  {
  }

  lemma {:induction false} SameTouched(body: string, i: nat, tag: string)
    requires i < |SeenLines(body)|
    ensures |SeenLines(body)| == |BodyLines(body)|
            && Touched(SeenLines(body)[i], tag) == Touched(BodyLines(body)[i], tag)
    decreases |body|
  {
    hide Touched, Chomp, FindChar, BodyLines, SeenLines, Clean;
    var k := FindChar(body, '\n', 0);
    if k == NPOS {
      OneLine(body);
      TouchedKept(body, tag);
    } else {
      SplitsAt(body);
      var a, b := body[..k], body[k + 1..];
      TouchedKept(a, tag);
      SameTouched(b, if i == 0 then 0 else i - 1, tag);
    }
  }

  /** A payload that is cut short is shorter than the body. */
  lemma ShortPayload(number: nat, body: string, i: nat, tag: string)
    requires |body| <= SIZE_MAX && i < |SeenLines(body)| && Touched(SeenLines(body)[i], tag)
    ensures |Payload([FirstLine(number, |body|)] + SeenLines(body)[..i])| < |body|
  {
    hide Payload, LiteralSize, Collect, SeenLines, BodyLines, FirstLine, Touched, Total;
    var seen := SeenLines(body)[..i];
    RoomForLine(body, i);
    SameTouched(body, i, tag);
    TouchedNotEmpty(BodyLines(body)[i], tag);
    LiteralOfFirst(number, |body|);
    if seen == [] {
      NoPayload(FirstLine(number, |body|));
      assert [FirstLine(number, |body|)] + [] == [FirstLine(number, |body|)];
    } else {
      PayloadStep(FirstLine(number, |body|), seen, |body|);
      CollectNoMore(seen, |body|, "");
    }
  }

  lemma NoPayload(line: string)
    ensures Payload([line]) == ""
  {
    hide LiteralSize;
  }

  /** Collecting as many bytes as a clean body has gives the body, and perhaps a little more. */
  lemma {:induction false} CollectsBody(body: string, size: nat, done: string)
    requires size == |done| + |body| && Clean(body)
    ensures var all := Collect(SeenLines(body), size, done);
            size <= |all| && all[..size] == done + body
    decreases |body|
  {
    hide FindChar, Chomp, SeenLines, Clean, BodyLines, Collect;
    var k := FindChar(body, '\n', 0);
    if k == NPOS {
      OneLine(body);
      CollectStep(body + ")", [], size, done);
      assert [body + ")"] + [] == [body + ")"];
      assert (done + (body + ")") + "\n")[..size] == done + body;
    } else {
      SplitsAt(body);
      var a, b := body[..k], body[k + 1..];
      CollectStep(a, SeenLines(b), size, done);
      var grown := done + a + "\n";
      assert done + (a + "\n" + b) == grown + b;
      if |grown| < size {
        CollectsBody(b, size, grown);
      } else {
        assert b == "" && grown + b == grown;
      }
    }
  }

  lemma CollectStep(line: string, rest: seq<string>, size: nat, done: string)
    ensures var grown := done + line + "\n";
            Collect([line] + rest, size, done) == if |grown| >= size then grown else Collect(rest, size, grown)
  {
    assert ([line] + rest)[1..] == rest;
  }

  lemma {:induction false} CollectKeeps(lines: seq<string>, size: nat, done: string)
    ensures done <= Collect(lines, size, done)
    decreases |lines|
  {
    if lines != [] {
      CollectKeeps(lines[1..], size, done + lines[0] + "\n");
    }
  }

  /** A dropped CR shows: the first one leaves an LF in its place. */
  lemma {:induction false} CollectsOther(body: string, size: nat, done: string)
    requires size == |done| + |body| && !Clean(body)
    ensures Cut(Collect(SeenLines(body), size, done), size) != done + body
    decreases |body|
  {
    hide FindChar, Chomp, SeenLines, Clean, BodyLines, Collect, Cut;
    var k := FindChar(body, '\n', 0);
    if k == NPOS {
      OneLine(body);
    } else {
      SplitsAt(body);
      var a, b := body[..k], body[k + 1..];
      if Chomp(a) == a {
        var grown := done + a + "\n";
        CollectStep(a, SeenLines(b), size, done);
        assert done + (a + "\n" + b) == grown + b;
        NotCleanNotEmpty(b);
        CollectsOther(b, size, grown);
      } else {
        FirstDifference(done, a, b, SeenLines(b), size);
      }
    }
  }

  lemma NotCleanNotEmpty(b: string)
    requires !Clean(b)
    ensures b != ""
  {
  }

  lemma FirstDifference(done: string, a: string, b: string, rest: seq<string>, size: nat)
    requires Chomp(a) != a && size == |done| + |a + "\n" + b|
    ensures Cut(Collect([Chomp(a)] + rest, size, done), size) != done + (a + "\n" + b)
  {
    var grown := done + Chomp(a) + "\n";
    assert ([Chomp(a)] + rest)[1..] == rest;
    CollectKeeps(rest, size, grown);
    hide Collect;
    var p := |done| + |a| - 1;
    assert grown[p] == '\n' && (done + (a + "\n" + b))[p] == a[|a| - 1] == '\r';
    assert forall all: string :: grown <= all ==> Cut(all, size)[p] == '\n';
  }

  lemma {:induction false} FindLastIs(a: string, c: char, b: string)
    requires c !in b
    ensures var s := a + [c] + b; forall upto :: |a| <= upto < |s| ==> FindLast(s, c, upto) == |a|
  {
    var s := a + [c] + b;
    var n := 0;
    while n < |b| + 1
      invariant 0 <= n <= |b| + 1
      invariant forall upto :: |a| <= upto < |a| + n ==> FindLast(s, c, upto) == |a|
    {
      assert n > 0 ==> s[|a| + n] == b[n - 1];
      n := n + 1;
    }
  }

  lemma LiteralSizeOf(front: string, n: nat)
    requires n <= SIZE_MAX
    ensures LiteralSize(front + "{" + ToDecimal(n) + "}") == Some(n)
  {
    hide ToDecimal, FindLast, Decimal;
    var digits := ToDecimal(n);
    DecimalRoundTrip(n);
    var line := front + "{" + digits + "}";
    FindLastIs(front + "{" + digits, '}', "");
    assert front + "{" + digits + ['}'] + "" == line;
    FindLastIs(front, '{', digits + "}");
    assert front + ['{'] + (digits + "}") == line;
    assert line[|front| + 1..|line| - 1] == digits;
  }

  /** The tagged line that ends the exchange, without its line end. */
  function EndLine(tag: string): string {
    tag + " OK Fetch completed"
  }

  lemma EndLineClean(tag: string)
    requires '\r' !in tag && '\n' !in tag
    ensures '\r' !in EndLine(tag) && '\n' !in EndLine(tag) && EndLine(tag) != "" && Completes(EndLine(tag), tag)
  {
    assert (tag + " OK Fetch completed")[..|tag| + 3] == tag + " OK";
  }

  function FirstLine(number: nat, size: nat): string {
    "* " + ToDecimal(number) + " FETCH (RFC822 " + "{" + ToDecimal(size) + "}"
  }

  lemma DigitsNoBreak(n: nat, c: char)
    requires !IsDigit(c)
    ensures c !in ToDecimal(n)
  {
    DecimalRoundTrip(n);
  }

  lemma FirstLineNoBreak(number: nat, size: nat)
    ensures '\n' !in FirstLine(number, size) && FirstLine(number, size) != "" && FirstLine(number, size)[0] == '*'
  {
    DigitsNoBreak(number, '\n');
    DigitsNoBreak(size, '\n');
    hide ToDecimal;
  }

  /** The reply, cut where the client will cut it. */
  lemma ReplyShape(number: nat, body: string, tag: string)
    ensures SecureChannel.Unterminated(FetchReply(number, body, tag))
         == (FirstLine(number, |body|) + "\r") + "\n" + (body + ")\r\n" + EndLine(tag))
  {
    hide ToDecimal;
    var front := "* " + ToDecimal(number) + " FETCH (RFC822 ";
    var t := (FirstLine(number, |body|) + "\r") + "\n" + (body + ")\r\n" + EndLine(tag));
    assert " FETCH (RFC822 {" == " FETCH (RFC822 " + "{";
    assert "}\r\n" == "}" + "\r" + "\n";
    assert FetchReply(number, body, tag) == t + "\r\n";
    assert (t + "\r\n")[..|t| + 1] == t + "\r";
    assert (t + "\r")[..|t|] == t;
  }

  lemma UnrelatedFirstLine(number: nat, size: nat, tag: string)
    requires tag != "" && tag[0] != '*'
    ensures !Touched(FirstLine(number, size), tag)
  {
    FirstLineNoBreak(number, size);
    hide FirstLine;
    assert (tag + " OK")[0] == tag[0] && (tag + " NO")[0] == tag[0] && (tag + " BAD")[0] == tag[0];
  }

  /** The lines the client sees. */
  lemma ReplyLines(number: nat, body: string, tag: string)
    requires '\r' !in tag && '\n' !in tag
    ensures FrameLines(SecureChannel.Unterminated(FetchReply(number, body, tag)))
         == [FirstLine(number, |body|)] + SeenLines(body) + [EndLine(tag)]
  {
    hide *;
    var first, end := FirstLine(number, |body|), EndLine(tag);
    ReplyShape(number, body, tag);
    FirstLineNoBreak(number, |body|);
    BreakAtEnd(first);
    ChompCr(first);
    FrameLinesCons(first + "\r", body + ")\r\n" + end);
    BodyInFrame(body, end);
    EndLineClean(tag);
    LastLine(end);
    AppendTwo(first, SeenLines(body), end);
  }

  lemma BreakAtEnd(a: string)
    requires '\n' !in a
    ensures '\n' !in a + "\r"
  {
  }

  lemma AppendTwo(first: string, middle: seq<string>, end: string)
    ensures [first] + (middle + [end]) == [first] + middle + [end]
  {
  }

  lemma LastLine(line: string)
    requires '\n' !in line && '\r' !in line && line != ""
    ensures FrameLines(line) == [line]
  {
  }

  /** For every body, the empty one included: the exchange ends well and gives the body back if and only if the
      body holds no CR in front of an LF and no line that begins with this tag's OK, NO or BAD. */
  lemma FetchRoundTrip(number: nat, body: string, tag: string)
    requires |body| <= SIZE_MAX
    requires tag != "" && tag[0] != '*' && '\r' !in tag && '\n' !in tag
    ensures var e := Untagged(FrameLines(SecureChannel.Unterminated(FetchReply(number, body, tag))), tag);
            && e.Done?
            && (e.ok && Payload(e.untagged) == body <==> Clean(body) && Untouched(BodyLines(body), tag))
  {
    var first, seen := FirstLine(number, |body|), SeenLines(body);
    hide *;
    ReplyLines(number, body, tag);
    SeenUntouchedIff(body, tag);
    UnrelatedFirstLine(number, |body|, tag);
    EndLineClean(tag);
    UntouchedCons(first, seen, tag);
    if Untouched(seen, tag) {
      UntaggedUpTo([first] + seen, EndLine(tag), tag);
      PayloadIsBodyIff(number, body);
    } else {
      var i := UntaggedCutShort([first] + seen, [EndLine(tag)], tag);
      BehindFirst(first, seen, i);
      ShortPayload(number, body, i - 1, tag);
    }
  }

  // -------------------------------------------------------- through the channel

  /** Two open ends of a session, the client waiting for the server's next packet. */
  predicate Facing(server: SecureChannel.Channel, client: SecureChannel.Channel) {
    && server.secure && server.open && client.secure && client.open
    && client.rxKey == server.txKey && client.rxSeq == server.txSeq
  }

  /** The message that the client has behind one FETCH, every write and read completing. */
  function Fetched(
    server: SecureChannel.Channel, client: SecureChannel.Channel, nonce: nat, reply: string, tag: string)
    : Option<string>
  {
    var sent := SecureChannel.SendStep(server, reply, nonce, SecureChannel.Complete);
    if sent.packet.None? then None
    else
      var got := SecureChannel.ReceiveStep(client, SecureChannel.Whole(sent.packet.value)).plain;
      if got.None? then None
      else
        var e := Untagged(FrameLines(SecureChannel.Unterminated(got.value)), tag);
        if e.Done? && e.ok then Some(Payload(e.untagged)) else None
  }

  const MAX_REPLY := SecureChannel.MAX_MESSAGE_SIZE - SecureChannel.NONCE_AND_TAG

  /** A reply passes both ends exactly up to the frame limit. */
  lemma ReplyPasses(server: SecureChannel.Channel, client: SecureChannel.Channel, nonce: nat, reply: string)
    requires Facing(server, client)
    ensures var sent := SecureChannel.SendStep(server, reply, nonce, SecureChannel.Complete);
            if |reply| <= MAX_REPLY then
              && sent.packet.Some?
              && SecureChannel.ReceiveStep(client, SecureChannel.Whole(sent.packet.value)).plain == Some(reply)
            else
              sent.packet.Some? ==>
                SecureChannel.ReceiveStep(client, SecureChannel.Whole(sent.packet.value)).plain.None?
  {
  }

  /** For every body and every session: the client has the body behind FETCH if and only if that holds no CR in
      front of an LF and no line that begins with this tag's OK, NO or BAD, and the reply fits a frame. */
  lemma FetchDelivers(
    server: SecureChannel.Channel, client: SecureChannel.Channel, nonce: nat, number: nat, body: string, tag: string)
    requires Facing(server, client)
    requires tag != "" && tag[0] != '*' && '\r' !in tag && '\n' !in tag
    ensures var reply := FetchReply(number, body, tag);
            Fetched(server, client, nonce, reply, tag) == Some(body) <==>
              Clean(body) && Untouched(BodyLines(body), tag) && |reply| <= MAX_REPLY
  {
    var reply := FetchReply(number, body, tag);
    ReplyHolds(number, body, tag);
    hide Untagged, FrameLines, Payload, Clean, Untouched, FetchReply, SecureChannel.SendStep,
      SecureChannel.ReceiveStep, SecureChannel.Unterminated;
    ReplyPasses(server, client, nonce, reply);
    if |reply| <= MAX_REPLY {
      FetchRoundTrip(number, body, tag);
    }
  }

  lemma ReplyHolds(number: nat, body: string, tag: string)
    ensures |body| < |FetchReply(number, body, tag)|
  {
    hide ToDecimal;
  }

  lemma BehindFirst(first: string, seen: seq<string>, i: nat)
    requires i <= |seen|
    ensures i > 0 ==> ([first] + seen)[..i] == [first] + seen[..i - 1] && ([first] + seen)[i] == seen[i - 1]
  {
  }

  lemma PayloadStep(first: string, rest: seq<string>, size: nat)
    requires LiteralSize(first) == Some(size) && size > 0 && rest != []
    ensures Payload([first] + rest) == Cut(Collect(rest, size, ""), size)
  {
    hide LiteralSize, Collect;
    assert ([first] + rest)[1..] == rest;
  }

  lemma PayloadIsBodyIff(number: nat, body: string)
    requires |body| <= SIZE_MAX
    ensures Payload([FirstLine(number, |body|)] + SeenLines(body)) == body <==> Clean(body)
  {
    hide Payload, LiteralSize, Collect, SeenLines, FirstLine, Clean, FindChar;
    var seen := SeenLines(body);
    LiteralOfFirst(number, |body|);
    if body == "" {
      EmptyPayload(FirstLine(number, 0), seen);
      EmptyClean();
    } else {
      PayloadStep(FirstLine(number, |body|), seen, |body|);
      assert "" + body == body;
      if Clean(body) {
        CollectsBody(body, |body|, "");
      } else {
        CollectsOther(body, |body|, "");
      }
    }
  }

  lemma EmptyPayload(first: string, rest: seq<string>)
    requires LiteralSize(first) == Some(0)
    ensures Payload([first] + rest) == ""
  {
    hide LiteralSize, Collect;
  }

  lemma EmptyClean()
    ensures Clean("")
  {
  }

  lemma LiteralOfFirst(number: nat, size: nat)
    requires size <= SIZE_MAX
    ensures LiteralSize(FirstLine(number, size)) == Some(size)
  {
    hide ToDecimal, LiteralSize;
    LiteralSizeOf("* " + ToDecimal(number) + " FETCH (RFC822 ", size);
  }
}

/** The DATA loop of mua/core/MailWorker.cpp against the RECEIVING_DATA branch of server/SmtpSession.cpp. */
module SmtpTransfer {
  import opened Text
  import opened MimeHeaders
  import opened SmtpSession
  import opened Wrappers
  import opened Base64
  import opened MimeEncoder
  import SecureChannel

  // -------------------------------------------------------------------- client

  /** A line that begins with a dot gets another one. */
  function Stuff(line: string): string {
    if line != "" && line[0] == '.' then "." + line else line
  }

  function PlainLines(payload: string): (r: seq<string>)
    ensures |r| == |Lines(payload)| && forall i :: 0 <= i < |r| ==> r[i] == Chomp(Lines(payload)[i])
  {
    seq(|Lines(payload)|, i requires 0 <= i < |Lines(payload)| => Chomp(Lines(payload)[i]))
  }

  function StuffAll(lines: seq<string>): (r: seq<string>)
    ensures |r| == |lines| && forall i :: 0 <= i < |r| ==> r[i] == Stuff(lines[i])
  {
    seq(|lines|, i requires 0 <= i < |lines| => Stuff(lines[i]))
  }

  /** The loop of handleSendMail: what it hands to the channel, line by line. */
  method SendPayload(payload: string) returns (sent: seq<string>)
    ensures var stuffed := StuffAll(PlainLines(payload));
            && |sent| == |stuffed| + 1
            && (forall i :: 0 <= i < |stuffed| ==> sent[i] == stuffed[i] + "\r\n")
            && sent[|stuffed|] == ".\r\n"
  {
    hide Lines, Chomp;
    var lines := Lines(payload);
    sent := [];
    for k := 0 to |lines|
      invariant |sent| == k
      invariant forall i :: 0 <= i < k ==> sent[i] == StuffAll(PlainLines(payload))[i] + "\r\n"
    {
      var line := Chomp(lines[k]);
      if line != "" && line[0] == '.' {
        line := "." + line;
      }
      sent := sent + [line + "\r\n"];
    }
    sent := sent + [".\r\n"];
  }

  /** The channel takes exactly the line end off again. */
  lemma LineSurvivesChannel(line: string)
    ensures SecureChannel.Unterminated(line + "\r\n") == line
  {
    var t := line + "\r\n";
    assert t[..|t| - 1] == line + "\r";
    assert (line + "\r")[..|line|] == line;
  }

  // -------------------------------------------------------------------- server

  datatype Talk = Talk(session: Session, replies: seq<Reply>, facts: seq<Fact>)

  /** The server's loop takes another line: it stops behind QUIT and an exception, and STARTTLS ends the text. */
  predicate GoesOn(out: Outcome) {
    !out.reply.Crashed? && out.session.phase != Closed && out.session.phase != AwaitTls
  }

  /** The session on a list of lines; silent answers are not sent. */
  function Converse(s: Session, lines: seq<string>, saves: bool): Talk
    decreases |lines|
  {
    if lines == [] then Talk(s, [], [])
    else
      var out := Process(s, lines[0], false, saves);
      var rest := if GoesOn(out) then Converse(out.session, lines[1..], saves) else Talk(out.session, [], []);
      Talk(rest.session, (if out.reply.Silent? then [] else [out.reply]) + rest.replies, out.facts + rest.facts)
  }

  /** Lines, each followed by LF. */
  function Terminated(lines: seq<string>): string {
    if lines == [] then "" else lines[0] + "\n" + Terminated(lines[1..])
  }

  function DataLines(lines: seq<string>): (r: seq<Fact>)
    ensures |r| == |lines|
  {
    seq(|lines|, i requires 0 <= i < |lines| => DataLine(lines[i]))
  }

  predicate NoDot(lines: seq<string>) {
    forall i :: 0 <= i < |lines| ==> lines[i] != "."
  }

  predicate AllShort(lines: seq<string>) {
    forall i :: 0 <= i < |lines| ==> |lines[i]| <= MAX_SMTP_LINE
  }

  /** The lines that the server takes. */
  function Short(lines: seq<string>): seq<string> {
    if lines == [] then []
    else (if |lines[0]| <= MAX_SMTP_LINE then [lines[0]] else []) + Short(lines[1..])
  }

  /** One refusal for each line that it does not take. */
  function Refusals(lines: seq<string>): seq<Reply> {
    if lines == [] then []
    else (if |lines[0]| <= MAX_SMTP_LINE then [] else [SyntaxError]) + Refusals(lines[1..])
  }

  lemma OneDataLine(s: Session, line: string, saves: bool)
    requires s.phase == ReceivingData && |line| <= MAX_SMTP_LINE && line != "."
    requires |s.body| + |line| + 1 <= MAX_MESSAGE_SIZE
    ensures Process(s, line, false, saves) == Outcome(s.(body := s.body + line + "\n"), Silent, [DataLine(line)])
  {
    hide HandleAuthLine, HandleCommand, ParseCommand;
  }

  lemma FinalDot(s: Session, saves: bool)
    requires s.phase == ReceivingData && s.recipients != []
    ensures Process(s, ".", false, saves)
         == Outcome(ResetMessage(s.(phase := WaitMail)), if saves then Accepted else StorageFailed,
                    if saves then [Saved(s.sender, s.recipients, s.body)] else [])
  {
    hide HandleAuthLine, HandleCommand, ParseCommand;
  }

  /** A line over 512 bytes is answered at once, which the client does not expect, and is not saved. */
  lemma LongLineIsDropped(s: Session, line: string, granted: bool, saves: bool)
    requires |line| > MAX_SMTP_LINE
    ensures Process(s, line, granted, saves) == Outcome(s, SyntaxError, [])
  {
  }

  lemma ConverseStep(s: Session, line: string, rest: seq<string>, saves: bool)
    requires GoesOn(Process(s, line, false, saves))
    ensures var out := Process(s, line, false, saves);
            var talk := Converse(out.session, rest, saves);
            Converse(s, [line] + rest, saves)
            == Talk(talk.session, (if out.reply.Silent? then [] else [out.reply]) + talk.replies,
                    out.facts + talk.facts)
  {
    hide Process;
    assert ([line] + rest)[1..] == rest;
  }

  /** The whole talk of a transfer. */
  function Transfer(s: Session, lines: seq<string>, saves: bool): Talk {
    var taken := Short(lines);
    Talk(ResetMessage(s.(phase := WaitMail)), Refusals(lines) + [if saves then Accepted else StorageFailed],
         DataLines(taken) + if saves then [Saved(s.sender, s.recipients, s.body + Terminated(taken))] else [])
  }

  /** The server takes every line of at most 512 bytes into the body, refuses the others one by one, and ends
      exactly at the final dot. */
  lemma {:induction false} TransferEndsAtDot(s: Session, lines: seq<string>, saves: bool)
    requires s.phase == ReceivingData && s.recipients != [] && NoDot(lines)
    requires |s.body| + |Terminated(Short(lines))| <= MAX_MESSAGE_SIZE
    ensures Converse(s, lines + ["."], saves) == Transfer(s, lines, saves)
    decreases |lines|
  {
    if lines == [] {
      hide *;
      NothingTransferred(s, saves);
    } else {
      var line, rest := lines[0], lines[1..];
      assert lines == [line] + rest && lines + ["."] == [line] + (rest + ["."]) && line != "." && NoDot(rest);
      hide *;
      ShortCons(line, rest);
      if |line| <= MAX_SMTP_LINE {
        TakenFirst(line, Short(rest));
        var next := s.(body := s.body + line + "\n");
        TransferEndsAtDot(next, rest, saves);
        TakeStep(s, line, rest, saves);
      } else {
        assert [] + Short(rest) == Short(rest);
        TransferEndsAtDot(s, rest, saves);
        RefuseStep(s, line, rest, saves);
      }
    }
  }

  lemma OnGoing(out: Outcome)
    requires !out.reply.Crashed?
    requires out.session.phase == ReceivingData || out.session.phase == WaitMail
    ensures GoesOn(out)
  {
  }

  lemma TakeStep(s: Session, line: string, rest: seq<string>, saves: bool)
    requires s.phase == ReceivingData && |line| <= MAX_SMTP_LINE && line != "."
            && |s.body| + |line| + 1 <= MAX_MESSAGE_SIZE
    requires var next := s.(body := s.body + line + "\n");
             Converse(next, rest + ["."], saves) == Transfer(next, rest, saves)
    ensures Converse(s, [line] + (rest + ["."]), saves) == Transfer(s, [line] + rest, saves)
  {
    hide *;
    OneDataLine(s, line, saves);
    OnGoing(Process(s, line, false, saves));
    ConverseStep(s, line, rest + ["."], saves);
    TransferTaken(s, line, rest, saves);
    var talk := Transfer(s.(body := s.body + line + "\n"), rest, saves);
    assert [] + talk.replies == talk.replies;
  }

  lemma RefuseStep(s: Session, line: string, rest: seq<string>, saves: bool)
    requires |line| > MAX_SMTP_LINE && s.phase == ReceivingData
    requires Converse(s, rest + ["."], saves) == Transfer(s, rest, saves)
    ensures Converse(s, [line] + (rest + ["."]), saves) == Transfer(s, [line] + rest, saves)
  {
    hide *;
    LongLineIsDropped(s, line, false, saves);
    OnGoing(Process(s, line, false, saves));
    ConverseStep(s, line, rest + ["."], saves);
    TransferRefused(s, line, rest, saves);
    var talk := Transfer(s, rest, saves);
    assert [] + talk.facts == talk.facts;
  }

  lemma ShortCons(line: string, rest: seq<string>)
    ensures Short([line] + rest) == (if |line| <= MAX_SMTP_LINE then [line] else []) + Short(rest)
    ensures Refusals([line] + rest) == (if |line| <= MAX_SMTP_LINE then [] else [SyntaxError]) + Refusals(rest)
    ensures AllShort([line] + rest) <==> |line| <= MAX_SMTP_LINE && AllShort(rest)
  {
    var all := [line] + rest;
    assert all[0] == line && all[1..] == rest;
    assert forall i :: 0 <= i < |rest| ==> rest[i] == all[i + 1];
  }

  lemma TransferTaken(s: Session, line: string, rest: seq<string>, saves: bool)
    requires |line| <= MAX_SMTP_LINE
    ensures var talk := Transfer(s.(body := s.body + line + "\n"), rest, saves);
            Transfer(s, [line] + rest, saves) == Talk(talk.session, talk.replies, [DataLine(line)] + talk.facts)
  {
    var next := s.(body := s.body + line + "\n");
    ShortCons(line, rest);
    TakenFirst(line, Short(rest));
    Assoc4(s.body, line, "\n", Terminated(Short(rest)));
    ResetForgets(s, next);
    hide Short, Refusals, Terminated, DataLines, ResetMessage;
    assert [] + Refusals(rest) == Refusals(rest);
  }

  lemma TransferRefused(s: Session, line: string, rest: seq<string>, saves: bool)
    requires |line| > MAX_SMTP_LINE
    ensures var talk := Transfer(s, rest, saves);
            Transfer(s, [line] + rest, saves) == Talk(talk.session, [SyntaxError] + talk.replies, talk.facts)
  {
    ShortCons(line, rest);
    hide Short, Refusals, Terminated, DataLines, ResetMessage;
    assert [] + Short(rest) == Short(rest);
    assert [SyntaxError] + Refusals(rest) + [if saves then Accepted else StorageFailed]
        == [SyntaxError] + (Refusals(rest) + [if saves then Accepted else StorageFailed]);
  }

  lemma NothingTransferred(s: Session, saves: bool)
    requires s.phase == ReceivingData && s.recipients != []
    ensures Converse(s, [] + ["."], saves) == Transfer(s, [], saves)
  {
    hide Process, ResetMessage;
    assert [] + ["."] == ["."] && ["."][1..] == [];
    FinalDot(s, saves);
    assert s.body + "" == s.body;
  }

  lemma TakenFirst(line: string, taken: seq<string>)
    ensures Terminated([line] + taken) == line + "\n" + Terminated(taken)
    ensures DataLines([line] + taken) == [DataLine(line)] + DataLines(taken)
  {
    assert ([line] + taken)[1..] == taken;
  }

  lemma ResetForgets(s: Session, next: Session)
    requires next == s.(body := next.body)
    ensures ResetMessage(next.(phase := WaitMail)) == ResetMessage(s.(phase := WaitMail))
  {
  }

  lemma {:induction false} ShortIff(lines: seq<string>)
    ensures |Refusals(lines)| + |Short(lines)| == |lines|
    ensures AllShort(lines) <==> Refusals(lines) == []
    ensures AllShort(lines) ==> Short(lines) == lines
    ensures !AllShort(lines) ==> |Terminated(Short(lines))| < |Terminated(lines)|
    ensures |Terminated(Short(lines))| <= |Terminated(lines)|
  {
    if lines != [] {
      var line, rest := lines[0], lines[1..];
      assert lines == [line] + rest;
      hide Short, Refusals, AllShort, Terminated;
      ShortIff(rest);
      ShortCons(line, rest);
      TakenFirst(line, rest);
      TakenFirst(line, Short(rest));
      assert [] + Short(rest) == Short(rest);
    }
  }

  /** The whole way, for every payload within the size limit: what is saved are its stuffed lines of at most
      512 bytes, each with LF. */
  lemma PayloadIsSaved(s: Session, payload: string, saves: bool)
    requires s.phase == ReceivingData && s.recipients != [] && s.body == ""
    requires |Terminated(Short(StuffAll(PlainLines(payload))))| <= MAX_MESSAGE_SIZE
    ensures var stuffed := StuffAll(PlainLines(payload));
            var talk := Converse(s, stuffed + ["."], saves);
            && talk.session.phase == WaitMail
            && talk.replies == Refusals(stuffed) + [if saves then Accepted else StorageFailed]
            && (saves ==> talk.facts == DataLines(Short(stuffed))
                                        + [Saved(s.sender, s.recipients, Terminated(Short(stuffed)))])
  {
    var stuffed := StuffAll(PlainLines(payload));
    assert NoDot(stuffed);
    hide Process, Lines, Chomp, Terminated, Converse, Short, Refusals;
    TransferEndsAtDot(s, stuffed, saves);
    assert "" + Terminated(Short(stuffed)) == Terminated(Short(stuffed));
  }

  // ------------------------------------------------------------ over the limit

  /** One line too many is answered at once, and the session is back among the commands. */
  lemma TooLargeLine(s: Session, line: string, saves: bool)
    requires s.phase == ReceivingData && |line| <= MAX_SMTP_LINE && line != "."
    requires |s.body| + |line| + 1 > MAX_MESSAGE_SIZE
    ensures Process(s, line, false, saves) == Outcome(ResetMessage(s.(phase := WaitMail)), TooLarge, [])
  {
    hide HandleAuthLine, HandleCommand, ParseCommand, ResetMessage;
  }

  /** What happens up to the line that is too much, and then: the lines behind it are taken as commands. */
  function Overrun(s: Session, before: seq<string>, behind: seq<string>, saves: bool): Talk {
    var rest := Converse(ResetMessage(s.(phase := WaitMail)), behind, saves);
    Talk(rest.session, Refusals(before) + [TooLarge] + rest.replies, DataLines(Short(before)) + rest.facts)
  }

  /** Line `k` is the first that is too much, and ends the transfer. */
  ghost predicate EndsAt(s: Session, lines: seq<string>, k: nat, saves: bool) {
    && k < |lines| && |lines[k]| <= MAX_SMTP_LINE
    && |s.body| + |Terminated(Short(lines[..k]))| <= MAX_MESSAGE_SIZE
    && |s.body| + |Terminated(Short(lines[..k]))| + |lines[k]| + 1 > MAX_MESSAGE_SIZE
    && Converse(s, lines + ["."], saves) == Overrun(s, lines[..k], lines[k + 1..] + ["."], saves)
  }

  /** For every message over the limit: the first line that exceeds it ends the transfer, not the final dot. */
  lemma {:induction false} OversizeTransfer(s: Session, lines: seq<string>, saves: bool) returns (k: nat)
    requires s.phase == ReceivingData && NoDot(lines)
    requires |s.body| <= MAX_MESSAGE_SIZE < |s.body| + |Terminated(Short(lines))|
    ensures EndsAt(s, lines, k, saves)
    decreases |lines|
  {
    NothingShort();
    assert lines != [];
    var line, rest := lines[0], lines[1..];
    assert lines == [line] + rest && line != "." && NoDot(rest);
    hide *;
    ShortCons(line, rest);
    if |line| > MAX_SMTP_LINE {
      assert [] + Short(rest) == Short(rest);
      k := OversizeTransfer(s, rest, saves);
      EndsBehindRefused(s, line, rest, k, saves);
      k := k + 1;
    } else {
      TakenFirst(line, Short(rest));
      if |s.body| + |line| + 1 > MAX_MESSAGE_SIZE {
        k := 0;
        EndsNow(s, line, rest, saves);
      } else {
        k := OversizeTransfer(s.(body := s.body + line + "\n"), rest, saves);
        EndsBehindTaken(s, line, rest, k, saves);
        k := k + 1;
      }
    }
  }

  lemma EndsNow(s: Session, line: string, rest: seq<string>, saves: bool)
    requires s.phase == ReceivingData && |line| <= MAX_SMTP_LINE && line != "."
    requires |s.body| <= MAX_MESSAGE_SIZE < |s.body| + |line| + 1
    ensures EndsAt(s, [line] + rest, 0, saves)
  {
    NothingShort();
    TooLargeLine(s, line, saves);
    OverrunNow(s, rest + ["."], saves);
    assert ResetMessage(s.(phase := WaitMail)).phase == WaitMail;
    ConverseStep(s, line, rest + ["."], saves);
    hide Process, Converse, Overrun, Short, Terminated, ResetMessage;
    var lines := [line] + rest;
    assert lines[..0] == [] && lines[1..] == rest && lines + ["."] == [line] + (rest + ["."]);
  }

  lemma SplitBehind(line: string, rest: seq<string>, k: nat)
    requires k < |rest|
    ensures var lines := [line] + rest;
            && lines[..k + 1] == [line] + rest[..k] && lines[k + 2..] == rest[k + 1..] && lines[k + 1] == rest[k]
            && lines + ["."] == [line] + (rest + ["."])
  {
  }

  lemma EndsBehindRefused(s: Session, line: string, rest: seq<string>, k: nat, saves: bool)
    requires |line| > MAX_SMTP_LINE && s.phase == ReceivingData && EndsAt(s, rest, k, saves)
    ensures EndsAt(s, [line] + rest, k + 1, saves)
  {
    hide Process, Converse, Overrun, Short, Terminated;
    SplitBehind(line, rest, k);
    LongLineIsDropped(s, line, false, saves);
    ConverseStep(s, line, rest + ["."], saves);
    OverrunRefused(s, line, rest[..k], rest[k + 1..] + ["."], saves);
  }

  lemma EndsBehindTaken(s: Session, line: string, rest: seq<string>, k: nat, saves: bool)
    requires s.phase == ReceivingData && |line| <= MAX_SMTP_LINE && line != "."
            && |s.body| + |line| + 1 <= MAX_MESSAGE_SIZE
    requires EndsAt(s.(body := s.body + line + "\n"), rest, k, saves)
    ensures EndsAt(s, [line] + rest, k + 1, saves)
  {
    hide Process, Converse, Overrun, Short, Terminated;
    SplitBehind(line, rest, k);
    OneDataLine(s, line, saves);
    ConverseStep(s, line, rest + ["."], saves);
    OverrunTaken(s, line, rest[..k], rest[k + 1..] + ["."], saves);
  }

  lemma NothingShort()
    ensures Short([]) == [] && Terminated([]) == "" && Refusals([]) == [] && DataLines([]) == []
  {
  }

  lemma OverrunNow(s: Session, behind: seq<string>, saves: bool)
    ensures var rest := Converse(ResetMessage(s.(phase := WaitMail)), behind, saves);
            Overrun(s, [], behind, saves) == Talk(rest.session, [TooLarge] + rest.replies, [] + rest.facts)
  {
    NothingShort();
    hide Converse, ResetMessage, Short, Refusals, DataLines;
    assert [] + [TooLarge] == [TooLarge];
  }

  lemma OverrunRefused(s: Session, line: string, before: seq<string>, behind: seq<string>, saves: bool)
    requires |line| > MAX_SMTP_LINE
    ensures var talk := Overrun(s, before, behind, saves);
            Overrun(s, [line] + before, behind, saves)
            == Talk(talk.session, [SyntaxError] + talk.replies, [] + talk.facts)
    ensures Short([line] + before) == Short(before)
  {
    ShortCons(line, before);
    hide Converse, ResetMessage, Short, Refusals, DataLines, Terminated;
    assert [] + Short(before) == Short(before);
    var rest := Converse(ResetMessage(s.(phase := WaitMail)), behind, saves);
    assert [SyntaxError] + Refusals(before) + [TooLarge] + rest.replies
        == [SyntaxError] + (Refusals(before) + [TooLarge] + rest.replies);
  }

  lemma OverrunTaken(s: Session, line: string, before: seq<string>, behind: seq<string>, saves: bool)
    requires |line| <= MAX_SMTP_LINE
    ensures var talk := Overrun(s.(body := s.body + line + "\n"), before, behind, saves);
            Overrun(s, [line] + before, behind, saves)
            == Talk(talk.session, [] + talk.replies, [DataLine(line)] + talk.facts)
    ensures |Terminated(Short([line] + before))| == |line| + 1 + |Terminated(Short(before))|
  {
    var next, taken := s.(body := s.body + line + "\n"), Short(before);
    ResetForgets(s, next);
    hide *;
    ShortCons(line, before);
    TakenFirst(line, taken);
    OverrunIs(s, [line] + before, behind, saves);
    OverrunIs(next, before, behind, saves);
    var rest := Converse(ResetMessage(s.(phase := WaitMail)), behind, saves);
    assert [line] + taken == Short([line] + before) && [] + Refusals(before) == Refusals(before);
    Reassociate(DataLine(line), DataLines(taken), rest.facts);
    assert |line + "\n"| == |line| + 1;
  }

  lemma OverrunIs(s: Session, before: seq<string>, behind: seq<string>, saves: bool)
    ensures var rest := Converse(ResetMessage(s.(phase := WaitMail)), behind, saves);
            Overrun(s, before, behind, saves)
            == Talk(rest.session, Refusals(before) + [TooLarge] + rest.replies, DataLines(Short(before)) + rest.facts)
  {
    hide Converse, ResetMessage, Short, Refusals, DataLines;
  }

  lemma Reassociate(f: Fact, a: seq<Fact>, b: seq<Fact>)
    ensures [f] + a + b == [f] + (a + b)
  {
  }

  lemma EndsMeans(s: Session, lines: seq<string>, k: nat, saves: bool)
    requires EndsAt(s, lines, k, saves)
    ensures k < |lines| && Converse(s, lines + ["."], saves) == Overrun(s, lines[..k], lines[k + 1..] + ["."], saves)
  {
    hide Converse, Overrun, Short, Terminated;
  }

  /** The text of the message is executed: here it ends the session. */
  lemma QuitInText(s: Session, lines: seq<string>, k: nat, saves: bool)
    requires EndsAt(s, lines, k, saves) && k + 1 < |lines| && lines[k + 1] == "QUIT"
    ensures var talk := Converse(s, lines + ["."], saves);
            talk.session.phase == Closed && talk.replies == Refusals(lines[..k]) + [TooLarge] + [Closing]
  {
    var back, behind := ResetMessage(s.(phase := WaitMail)), lines[k + 1..] + ["."];
    assert back.phase == WaitMail && behind[0] == "QUIT";
    EndsMeans(s, lines, k, saves);
    OverrunIs(s, lines[..k], behind, saves);
    QuitRead(back, saves);
    hide Process, Overrun, ResetMessage, Refusals, Short, DataLines;
    assert Converse(back, behind, saves).replies == [Closing] + [];
  }

  lemma QuitRead(s: Session, saves: bool)
    requires s.phase == WaitMail
    ensures Process(s, "QUIT", false, saves) == Outcome(s.(phase := Closed), Closing, [])
  {
    UpperSame("QUIT");
  }

  /** A command is never passed over in silence. */
  lemma CommandAnswered(s: Session, line: string, rest: seq<string>, saves: bool)
    requires s.phase == WaitMail
    ensures |Converse(s, [line] + rest, saves).replies| >= 1
  {
    NotSilent(s, line, saves);
    hide Process, GoesOn;
    assert ([line] + rest)[0] == line;
  }

  lemma NotSilent(s: Session, line: string, saves: bool)
    requires s.phase == WaitMail
    ensures !Process(s, line, false, saves).reply.Silent?
  {
    hide ParseCommand, DecodeText, Credentials, ParseMechanism, ExtractUsername, ResetMessage;
  }

  /** No text over the limit is ever saved. */
  lemma ProcessBounded(s: Session, line: string, saves: bool)
    requires |s.body| <= MAX_MESSAGE_SIZE
    ensures var out := Process(s, line, false, saves);
            && |out.session.body| <= MAX_MESSAGE_SIZE
            && forall f :: f in out.facts && f.Saved? ==> |f.body| <= MAX_MESSAGE_SIZE
  {
    hide ParseCommand, DecodeText, Credentials, ParseMechanism, ExtractUsername;
  }

  lemma {:induction false} SavesBounded(s: Session, lines: seq<string>, saves: bool, f: Fact)
    requires |s.body| <= MAX_MESSAGE_SIZE && f in Converse(s, lines, saves).facts && f.Saved?
    ensures |f.body| <= MAX_MESSAGE_SIZE
    decreases |lines|
  {
    if lines != [] {
      ProcessBounded(s, lines[0], saves);
      var out := Process(s, lines[0], false, saves);
      hide Process;
      if f !in out.facts {
        SavesBounded(out.session, lines[1..], saves, f);
      }
    }
  }

  lemma {:induction false} LastSaved(facts: seq<Fact>, last: Fact, f: Fact)
    requires f.Saved? && forall g :: g in facts ==> !g.Saved?
    ensures f in facts + [last] <==> f == last
  {
    assert (facts + [last])[|facts|] == last;
  }

  lemma DataLinesSaveNothing(lines: seq<string>)
    ensures forall f :: f in DataLines(lines) ==> !f.Saved?
  {
  }

  lemma OverrunAnsweredTwice(s: Session, before: seq<string>, behind: seq<string>, saves: bool)
    ensures |Overrun(s, before, behind + ["."], saves).replies| >= 2
  {
    var back := ResetMessage(s.(phase := WaitMail));
    assert back.phase == WaitMail;
    hide ResetMessage, Converse, Refusals, DataLines, Short;
    var all := behind + ["."];
    assert all == [all[0]] + all[1..];
    CommandAnswered(back, all[0], all[1..], saves);
  }

  /** The client's one answer is the server's only one, and the text it sent is saved under its envelope, if and
      only if every stuffed line has at most 512 bytes and all together fit the limit. */
  lemma OneReplyIff(s: Session, payload: string, saves: bool)
    requires s.phase == ReceivingData && s.recipients != [] && s.body == ""
    ensures var stuffed := StuffAll(PlainLines(payload));
            var talk := Converse(s, stuffed + ["."], saves);
            var fits := AllShort(stuffed) && |Terminated(stuffed)| <= MAX_MESSAGE_SIZE;
            && (|talk.replies| == 1 <==> fits)
            && (saves ==> (Saved(s.sender, s.recipients, Terminated(stuffed)) in talk.facts <==> fits))
  {
    var stuffed := StuffAll(PlainLines(payload));
    var f := Saved(s.sender, s.recipients, Terminated(stuffed));
    assert NoDot(stuffed);
    ShortIff(stuffed);
    hide *;
    if |Terminated(Short(stuffed))| <= MAX_MESSAGE_SIZE {
      PayloadIsSaved(s, payload, saves);
      DataLinesSaveNothing(Short(stuffed));
      LastSaved(DataLines(Short(stuffed)), Saved(s.sender, s.recipients, Terminated(Short(stuffed))), f);
    } else {
      var k := OversizeTransfer(s, stuffed, saves);
      EndsMeans(s, stuffed, k, saves);
      OverrunAnsweredTwice(s, stuffed[..k], stuffed[k + 1..], saves);
      if f in Converse(s, stuffed + ["."], saves).facts {
        SavesBounded(s, stuffed + ["."], saves, f);
      }
    }
  }

  // -------------------------------------------------------- what is not undone

  function DotLines(lines: seq<string>): nat {
    if lines == [] then 0 else (if lines[0] != "" && lines[0][0] == '.' then 1 else 0) + DotLines(lines[1..])
  }

  lemma {:induction false} StuffingAdds(lines: seq<string>)
    ensures |Terminated(StuffAll(lines))| == |Terminated(lines)| + DotLines(lines)
  {
    if lines != [] {
      assert StuffAll(lines)[1..] == StuffAll(lines[1..]);
      StuffingAdds(lines[1..]);
    }
  }

  lemma {:induction false} NoDotsNoChange(lines: seq<string>)
    requires DotLines(lines) == 0
    ensures StuffAll(lines) == lines
  {
    if lines != [] {
      NoDotsNoChange(lines[1..]);
      assert StuffAll(lines)[1..] == StuffAll(lines[1..]);
      assert lines == [lines[0]] + lines[1..];
      assert StuffAll(lines) == [StuffAll(lines)[0]] + StuffAll(lines)[1..];
    }
  }

  /** The server does not take the extra dots off again: what it saves are the payload's own lines exactly
      when no line begins with a dot. Section 4.5.2 of RFC 5321 asks it to remove them. */
  lemma SavedUnchangedIff(payload: string)
    ensures Terminated(StuffAll(PlainLines(payload))) == Terminated(PlainLines(payload)) <==>
            DotLines(PlainLines(payload)) == 0
  {
    hide Lines, Chomp, Terminated;
    var lines := PlainLines(payload);
    StuffingAdds(lines);
    if DotLines(lines) == 0 {
      NoDotsNoChange(lines);
    }
  }

  // ------------------------------------------------------- the client's commands

  lemma UpperSame(s: string)
    requires forall i :: 0 <= i < |s| ==> !('a' <= s[i] <= 'z')
    ensures ToUpper(s) == s
  {
  }

  lemma UpperFront(front: string, rest: string)
    requires forall i :: 0 <= i < |front| ==> !('a' <= front[i] <= 'z')
    ensures front <= ToUpper(front + rest)
  {
    UpperSame(front);
    assert ToUpper(front + rest)[..|front|] == ToUpper(front);
  }

  lemma AnglesStrip(path: string)
    ensures StripAngles(Trim("<" + path + ">")) == path
  {
    hide Trim;
    TrimId("<" + path + ">");
  }

  /** The server reads the paths that the client puts between angle brackets, whatever they are. */
  lemma PathsRead(path: string)
    ensures ParseCommand("MAIL FROM:<" + path + ">") == Mail(path)
    ensures ParseCommand("RCPT TO:<" + path + ">") == Rcpt(path)
  {
    AnglesStrip(path);
    MailRead(path);
    RcptRead(path);
  }

  lemma MailRead(path: string)
    ensures ParseCommand("MAIL FROM:<" + path + ">") == Mail(StripAngles(Trim("<" + path + ">")))
  {
    hide Trim, StripAngles, AuthArgument;
    var rest := "<" + path + ">";
    var line := "MAIL FROM:" + rest;
    assert "MAIL FROM:<" == "MAIL FROM:" + "<";
    assert "MAIL FROM:<" + path + ">" == line;
    UpperFront("MAIL FROM:", rest);
    assert line[|line| - 1] == '>' && line[10..] == rest;
    hide ToUpper;
    assert ToUpper(line)[0] == 'M';
  }

  lemma RcptRead(path: string)
    ensures ParseCommand("RCPT TO:<" + path + ">") == Rcpt(StripAngles(Trim("<" + path + ">")))
  {
    hide Trim, StripAngles, AuthArgument;
    var rest := "<" + path + ">";
    var line := "RCPT TO:" + rest;
    assert "RCPT TO:<" == "RCPT TO:" + "<";
    assert "RCPT TO:<" + path + ">" == line;
    UpperFront("RCPT TO:", rest);
    assert line[|line| - 1] == '>' && line[8..] == rest;
    hide ToUpper;
    assert ToUpper(line)[0] == 'R' && ToUpper(line)[..8] == "RCPT TO:";
  }

  /** BuildSmtpPlainAuthPayload: NUL, user, NUL, password in Base64, on one line. */
  function AuthPayload(user: string, password: string): string {
    StripBreaks(Folded(Encoded(ToBytes("\0" + user + "\0" + password))))
  }

  lemma EncodedOnOneLine(data: seq<byte>)
    ensures StripBreaks(Folded(Encoded(data))) == Encoded(data)
    ensures ' ' !in Encoded(data) && '\r' !in Encoded(data) && (data != [] ==> Encoded(data) != "")
  {
    EncodedChars(data);
    EncodedLength(data);
    hide Encoded, Folded, StripBreaks;
    StripFolded(Encoded(data));
  }

  lemma PayloadDecodes(data: seq<byte>)
    requires |data| <= MAX_FILE_SIZE
    ensures DecodeBase64(Encoded(data)) == Result.Ok(data)
  {
    hide Encoded, Folded, StripBreaks, DecodeBase64;
    DecodeStripped(data);
    EncodedOnOneLine(data);
  }

  lemma CredentialsRead(user: string, password: string)
    requires '\0' !in user
    ensures Credentials("\0" + user + "\0" + password) == Some((ExtractUsername(user), password))
  {
    hide FindChar, ExtractUsername;
    var blob := "\0" + user + "\0" + password;
    FindCharAfter("", "", '\0', user + "\0" + password);
    assert "" + "" + ['\0'] + (user + "\0" + password) == blob;
    FindCharAfter("\0", user, '\0', password);
    assert blob[1..1 + |user|] == user && blob[1 + |user| + 1..] == password;
  }

  lemma AuthRead(rest: string)
    requires rest != "" && rest[|rest| - 1] != '\r'
    ensures ParseCommand("AUTH " + rest) == Auth(AuthArgument(rest))
  {
    hide Trim, StripAngles, AuthArgument;
    var line := "AUTH " + rest;
    UpperFront("AUTH ", rest);
    assert line[|line| - 1] == rest[|rest| - 1] && line[5..] == rest;
    hide ToUpper;
    assert ToUpper(line)[0] == 'A';
  }

  lemma AuthLineRead(payload: string)
    requires payload != "" && '\r' !in payload
    ensures ParseCommand("AUTH PLAIN " + payload) == Auth("PLAIN " + payload)
  {
    hide ParseCommand, AuthArgument;
    var rest := "PLAIN " + payload;
    assert rest[|rest| - 1] == payload[|payload| - 1];
    AuthRead(rest);
    AuthArgumentKept(payload);
    Assoc("AUTH ", "PLAIN ", payload);
    assert "AUTH PLAIN " == "AUTH " + "PLAIN ";
  }

  lemma AuthArgumentKept(payload: string)
    ensures AuthArgument("PLAIN " + payload) == "PLAIN " + payload
    ensures ParseMechanism("PLAIN " + payload) == Plain(payload)
  {
    var rest := "PLAIN " + payload;
    assert rest == "PLAIN" + " " + payload;
    SpaceAt("PLAIN", payload);
    UpperSame("PLAIN");
    hide ToUpper, FindChar;
    assert rest[..5] == "PLAIN" && rest[6..] == payload;
  }

  lemma SpaceAt(name: string, rest: string)
    requires ' ' !in name
    ensures FindChar(name + " " + rest, ' ', 0) == |name|
  {
    FindCharAfter("", name, ' ', rest);
    assert "" + name == name;
  }

  /** The client's AUTH PLAIN asks the repository for exactly the client's user, up to an at sign, and
      password. */
  lemma AuthPlainAsks(s: Session, user: string, password: string, granted: bool, saves: bool)
    requires s.phase == WaitMail && s.secure && !s.authenticated
    requires '\0' !in user && IsOctets(user) && IsOctets(password)
    requires |"AUTH PLAIN " + AuthPayload(user, password)| <= MAX_SMTP_LINE
    ensures Process(s, "AUTH PLAIN " + AuthPayload(user, password), granted, saves)
         == Authorize(s, ExtractUsername(user), password, granted)
  {
    var payload := AuthPayload(user, password);
    assert |payload| <= |"AUTH PLAIN " + payload| <= 512;
    hide *;
    var blob := "\0" + user + "\0" + password;
    ShortEnough(user, password);
    PayloadRead(user, password);
    CredentialsRead(user, password);
    AuthLineRead(payload);
    AuthArgumentKept(payload);
    PlainAsks(s, payload, blob, granted);
    CommandLine(s, "AUTH PLAIN " + payload, "PLAIN " + payload, granted, saves);
  }

  lemma CommandLine(s: Session, line: string, argument: string, granted: bool, saves: bool)
    requires s.phase == WaitMail && |line| <= MAX_SMTP_LINE && ParseCommand(line) == Auth(argument)
    ensures Process(s, line, granted, saves) == HandleAuth(s, argument, granted)
  {
    hide ParseCommand, HandleAuth;
  }

  lemma ShortEnough(user: string, password: string)
    requires |AuthPayload(user, password)| <= 512
    ensures |user| + |password| + 2 <= MAX_FILE_SIZE
  {
    var data := ToBytes("\0" + user + "\0" + password);
    EncodedOnOneLine(data);
    EncodedLength(data);
    hide Encoded, Folded, StripBreaks;
  }

  lemma PayloadRead(user: string, password: string)
    requires IsOctets(user) && IsOctets(password) && |user| + |password| + 2 <= MAX_FILE_SIZE
    ensures var payload := AuthPayload(user, password);
            && payload != "" && ' ' !in payload && '\r' !in payload
            && DecodeText(payload) == Result.Ok("\0" + user + "\0" + password)
  {
    var blob := "\0" + user + "\0" + password;
    assert IsOctets(blob);
    BytesRoundTrip(blob);
    EncodedOnOneLine(ToBytes(blob));
    PayloadDecodes(ToBytes(blob));
    hide Encoded, Folded, StripBreaks, ToBytes, FromBytes, DecodeBase64;
  }

  lemma PlainAsks(s: Session, payload: string, blob: string, granted: bool)
    requires s.phase == WaitMail && s.secure && !s.authenticated && payload != ""
    requires ParseMechanism("PLAIN " + payload) == Plain(payload)
    requires DecodeText(payload) == Result.Ok(blob) && Credentials(blob).Some?
    ensures HandleAuth(s, "PLAIN " + payload, granted)
         == Authorize(s, Credentials(blob).value.0, Credentials(blob).value.1, granted)
  {
    hide ParseMechanism, DecodeText, Credentials, Authorize;
  }
}

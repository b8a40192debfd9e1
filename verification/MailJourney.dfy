/** A message on its whole way: built by MimeBuilder, sent by the client's DATA loop, saved by the SMTP server, fetched
    over IMAP by another client and parsed there. */
module MailJourney {
  import opened Text
  import opened Wrappers
  import opened StringUtils
  import opened MimeHeaders
  import opened HeaderBlock
  import opened MimeParser
  import opened MimeBuilder
  import opened MimeRoundTrip
  import opened MimeMessage
  import opened LineEnds
  import opened BareMessage
  import opened SmtpTransfer
  import SmtpSession
  import ImapFetch
  import SecureChannel

  // -------------------------------------------------------------- what is saved

  lemma PlainLinesCons(s: string, k: nat)
    requires k < |s| && s[k] == '\n' && '\n' !in s[..k]
    ensures PlainLines(s) == [Chomp(s[..k])] + PlainLines(s[k + 1..])
  {
    hide Lines, Chomp;
    LinesAt(s, k);
  }

  /** The lines of a text that ends in a line end, each with LF, are the text without its CRs. */
  lemma {:induction false} LinesWithLf(s: string)
    requires OnlyBreaks(s) && (s == "" || s[|s| - 1] == '\n')
    ensures Terminated(PlainLines(s)) == NoCr(s)
    decreases |s|
  {
    if s == "" {
      NoPlainLines();
    } else {
      hide *;
      var k := FirstLf(s);
      var rest := s[k + 1..];
      assert rest == "" || rest[|rest| - 1] == s[|s| - 1];
      FirstLineNoCr(s, k);
      LinesWithLf(rest);
      PlainLinesCons(s, k);
      TakenFirst(Chomp(s[..k]), PlainLines(rest));
    }
  }

  lemma MimeEnds(email: Email, drawn: Drawn)
    requires Encodable(email)
    ensures var mime := Mime(email, drawn); mime != "" && mime[|mime| - 1] == '\n'
  {
    hide BlockText, MainFields, ContentFields, FirstPart, AttachmentParts, Delimited, TextPart, HtmlPart;
    var body := Body(email, drawn);
    assert body != "" && body[|body| - 1] == '\n';
  }

  /** The message goes through DATA as it is: every line short, none with a dot in front, and all within the limit. */
  predicate Fits(text: string) {
    var lines := PlainLines(text);
    AllShort(lines) && DotLines(lines) == 0 && |Terminated(lines)| <= SmtpSession.MAX_MESSAGE_SIZE
  }

  /** What is saved of a built message that fits is the message with LF for CRLF. */
  lemma SavedMessage(email: Email, drawn: Drawn, s: SmtpSession.Session)
    requires Encodable(email) && OnlyBreaks(Mime(email, drawn)) && Fits(Mime(email, drawn))
    requires s.phase == SmtpSession.ReceivingData && s.recipients != [] && s.body == ""
    ensures var talk := Converse(s, StuffAll(PlainLines(Mime(email, drawn))) + ["."], true);
            && |talk.replies| == 1
            && SmtpSession.Saved(s.sender, s.recipients, NoCr(Mime(email, drawn))) in talk.facts
  {
    var mime := Mime(email, drawn);
    MimeEnds(email, drawn);
    hide *;
    FitsMeans(mime);
    NoDotsNoChange(PlainLines(mime));
    LinesWithLf(mime);
    OneReplyIff(s, mime, true);
  }

  lemma FitsMeans(text: string)
    requires Fits(text)
    ensures AllShort(PlainLines(text)) && DotLines(PlainLines(text)) == 0
    ensures |Terminated(PlainLines(text))| <= SmtpSession.MAX_MESSAGE_SIZE
  {
  }

  // ------------------------------------------------------------ the whole way

  /** A message that fits the transfer and, as saved, a frame of the reply to FETCH, arrives: the recipient's client has
      the saved text, and reads off it the sender, the subject, the date, the addresses, the threading headers, the HTML
      and the attachments of the message, and its plain text without CRs. */
  lemma MailArrives(
    email: Email, drawn: Drawn, s: SmtpSession.Session,
    server: SecureChannel.Channel, client: SecureChannel.Channel, nonce: nat, number: nat, tag: string)
    requires Recoverable(email, drawn) && Encodable(email)
    requires OnlyBreaks(email.plainText) && DataBreaks(email.attachments) && Fits(Mime(email, drawn))
    requires s.phase == SmtpSession.ReceivingData && s.recipients != [] && s.body == ""
    requires ImapFetch.Facing(server, client) && tag != "" && tag[0] != '*' && '\r' !in tag && '\n' !in tag
    requires ImapFetch.Untouched(ImapFetch.BodyLines(NoCr(Mime(email, drawn))), tag)
    requires |ImapFetch.FetchReply(number, NoCr(Mime(email, drawn)), tag)| <= ImapFetch.MAX_REPLY
    ensures var saved := NoCr(Mime(email, drawn));
            var (ok, r) := Parse(saved, NEW_EMAIL);
            && SmtpSession.Saved(s.sender, s.recipients, saved)
               in Converse(s, StuffAll(PlainLines(Mime(email, drawn))) + ["."], true).facts
            && ImapFetch.Fetched(server, client, nonce, ImapFetch.FetchReply(number, saved, tag), tag) == Some(saved)
            && ok
            && r.sender == email.sender && r.to == email.to && r.cc == email.cc && r.subject == email.subject
            && r.date == drawn.date && r.messageId == MessageIdOf(email, drawn)
            && r.inReplyTo == email.inReplyTo && r.references == email.references
            && r.plainText == NoCr(TextBack(email)) && r.htmlText == email.htmlText
            && r.attachments == ReceivedAll(email.attachments)
  {
    var saved := NoCr(Mime(email, drawn));
    hide *;
    BuiltBreaks(email, drawn);
    SavedMessage(email, drawn, s);
    NoCrLacks(Mime(email, drawn));
    ImapFetch.NoCrIsClean(saved);
    ImapFetch.FetchDelivers(server, client, nonce, number, saved, tag);
    BuildParseRoundTrip(email, drawn);
    BareNew();
    BareParse(email, drawn, NEW_EMAIL);
    BareMeans(Parse(Mime(email, drawn), NEW_EMAIL).1);
  }

  lemma BareNew()
    ensures Bare(NEW_EMAIL) == NEW_EMAIL
  {
  }

  lemma BareMeans(e: Email)
    ensures Bare(e) == e.(plainText := NoCr(e.plainText))
  {
  }

  // ------------------------------------------------------ stored and never fetched

  function Xs(n: nat): seq<string> {
    if n == 0 then [] else ["x"] + Xs(n - 1)
  }

  lemma {:induction false} XsSize(n: nat)
    ensures |Terminated(Xs(n))| == 2 * n && AllShort(Xs(n)) && DotLines(Xs(n)) == 0 && NoDot(Xs(n))
    ensures '\r' !in Terminated(Xs(n))
  {
    if n > 0 {
      XsSize(n - 1);
      TakenFirst("x", Xs(n - 1));
      assert Xs(n)[1..] == Xs(n - 1);
    }
  }

  lemma {:induction false} XsUntouched(n: nat, tag: string)
    requires tag != ""
    ensures ImapFetch.Untouched(ImapFetch.BodyLines(Terminated(Xs(n))), tag)
  {
    var body := Terminated(Xs(n));
    if n == 0 {
      assert ImapFetch.BodyLines(body) == [""];
      ShortUntouched("", tag);
    } else {
      XsUntouched(n - 1, tag);
      ShortUntouched("x", tag);
      XsLines(n);
      hide Terminated, Xs, ImapFetch.BodyLines, ImapFetch.Touched;
    }
  }

  lemma XsLines(n: nat)
    requires n > 0
    ensures ImapFetch.BodyLines(Terminated(Xs(n))) == ["x"] + ImapFetch.BodyLines(Terminated(Xs(n - 1)))
  {
    var rest := Terminated(Xs(n - 1));
    assert Xs(n)[1..] == Xs(n - 1);
    var body := "x" + "\n" + rest;
    assert Terminated(Xs(n)) == body;
    hide Terminated, Xs;
    assert body[0] == 'x' && body[1] == '\n' && body[..1] == "x" && body[2..] == rest;
    assert FindChar(body, '\n', 0) == 1;
  }

  lemma ShortUntouched(line: string, tag: string)
    requires |line| <= 1 && tag != ""
    ensures !ImapFetch.Touched(line, tag)
  {
  }

  /** A text that the SMTP server takes and no client can fetch: lines of one letter, up to the limit. */
  lemma StoredNotFetched(
    s: SmtpSession.Session, server: SecureChannel.Channel, client: SecureChannel.Channel, nonce: nat, number: nat,
    tag: string)
    requires s.phase == SmtpSession.ReceivingData && s.recipients != [] && s.body == ""
    requires ImapFetch.Facing(server, client) && tag != "" && tag[0] != '*' && '\r' !in tag && '\n' !in tag
    ensures var lines := Xs(SmtpSession.MAX_MESSAGE_SIZE / 2);
            var text := Terminated(lines);
            && SmtpSession.Saved(s.sender, s.recipients, text) in Converse(s, lines + ["."], true).facts
            && ImapFetch.Clean(text) && ImapFetch.Untouched(ImapFetch.BodyLines(text), tag)
            && ImapFetch.Fetched(server, client, nonce, ImapFetch.FetchReply(number, text, tag), tag) != Some(text)
  {
    var n := SmtpSession.MAX_MESSAGE_SIZE / 2;
    var lines := Xs(n);
    assert 2 * n == SmtpSession.MAX_MESSAGE_SIZE > ImapFetch.MAX_REPLY;
    XsSize(n);
    hide *;
    XsUntouched(n, tag);
    ImapFetch.NoCrIsClean(Terminated(lines));
    ImapFetch.ReplyHolds(number, Terminated(lines), tag);
    ImapFetch.FetchDelivers(server, client, nonce, number, Terminated(lines), tag);
    LinesSaved(s, lines);
  }

  lemma LinesSaved(s: SmtpSession.Session, lines: seq<string>)
    requires s.phase == SmtpSession.ReceivingData && s.recipients != [] && s.body == ""
    requires AllShort(lines) && NoDot(lines) && |Terminated(lines)| <= SmtpSession.MAX_MESSAGE_SIZE
    ensures SmtpSession.Saved(s.sender, s.recipients, Terminated(lines)) in Converse(s, lines + ["."], true).facts
  {
    hide Converse, Terminated, Short, Refusals, AllShort, NoDot;
    ShortIff(lines);
    TransferEndsAtDot(s, lines, true);
    assert "" + Terminated(lines) == Terminated(lines);
    var f := SmtpSession.Saved(s.sender, s.recipients, Terminated(lines));
    assert (DataLines(lines) + [f])[|lines|] == f;
  }

  // ------------------------------------------------- wrapped, but not short enough

  lemma {:induction false} LinesConcat(a: string, b: string)
    requires a == "" || a[|a| - 1] == '\n'
    ensures PlainLines(a + b) == PlainLines(a) + PlainLines(b)
    decreases |a|
  {
    hide *;
    if a == "" {
      NoPlainLines();
      assert a + b == b && [] + PlainLines(b) == PlainLines(b);
    } else {
      var k := FirstLf(a);
      var line, rest := Chomp(a[..k]), a[k + 1..];
      assert rest == "" || rest[|rest| - 1] == a[|a| - 1];
      LinesConcat(rest, b);
      BehindLf(a, b, k);
      PlainLinesCons(a, k);
      PlainLinesCons(a + b, k);
      HeaderBlock.Regroup(line, PlainLines(rest), PlainLines(b));
    }
  }

  lemma NoPlainLines()
    ensures PlainLines("") == []
  {
  }

  lemma FirstLf(a: string) returns (k: nat)
    requires a != "" && a[|a| - 1] == '\n'
    ensures k < |a| && a[k] == '\n' && '\n' !in a[..k]
  {
    k := FindChar(a, '\n', 0);
  }

  lemma BehindLf(a: string, b: string, k: nat)
    requires k < |a|
    ensures (a + b)[..k] == a[..k] && (a + b)[k + 1..] == a[k + 1..] + b && (a + b)[k] == a[k]
  {
  }

  /** A line of a text stands among its lines. */
  lemma LineInside(a: string, line: string, b: string)
    requires (a == "" || a[|a| - 1] == '\n') && OneLine(line)
    ensures line in PlainLines(a + (line + "\r\n" + b))
  {
    var t := line + "\r\n" + b;
    LinesConcat(a, t);
    LineFirst(line, b);
    hide PlainLines;
    assert PlainLines(t)[0] == line;
    assert (PlainLines(a) + PlainLines(t))[|PlainLines(a)|] == line;
  }

  lemma LineFirst(line: string, b: string)
    requires OneLine(line)
    ensures PlainLines(line + "\r\n" + b) != [] && PlainLines(line + "\r\n" + b)[0] == line
  {
    LinesCons(line, b);
    ChompsEqual(line);
    hide Lines, Chomp;
  }

  /** A word without blanks or line ends. */
  predicate IsWord(w: string) {
    forall i :: 0 <= i < |w| ==> !IsSpace(w[i])
  }

  lemma WordStays(w: string)
    requires IsWord(w) && 1 <= |w| <= 998
    ensures WrapText(w, 998) == w + "\r\n"
  {
    assert FindAny(w, {'\r', '\n'}, 0) == NPOS;
    assert PieceLength(w, 998) == |w| && Consumed(w, 998) == |w|;
    assert w[|w|..] == "" && w[..|w|] == w && Wrap("", 998) == "";
    assert Wrap(w, 998) == w + CRLF + "";
  }

  /** WrapText allows lines of 998 bytes and the server takes 512: a word in between is left whole, and the message
      does not arrive as it was sent. */
  lemma WrappedButRefused(email: Email, drawn: Drawn, s: SmtpSession.Session)
    requires Encodable(email) && email.htmlText != "" && email.attachments == []
    requires IsWord(email.plainText) && 512 < |email.plainText| <= 998
    requires s.phase == SmtpSession.ReceivingData && s.recipients != [] && s.body == ""
    ensures var stuffed := StuffAll(PlainLines(Mime(email, drawn)));
            var talk := Converse(s, stuffed + ["."], true);
            && |talk.replies| != 1
            && SmtpSession.Saved(s.sender, s.recipients, Terminated(stuffed)) !in talk.facts
  {
    var mime, word := Mime(email, drawn), email.plainText;
    assert OneLine(word);
    WordStays(word);
    var a, b := WordIn(email, drawn);
    hide *;
    LineInside(a, word, b);
    LongStuffed(PlainLines(mime), word);
    OneReplyIff(s, mime, true);
  }

  lemma LongStuffed(lines: seq<string>, line: string)
    requires line in lines && |line| > 512
    ensures !AllShort(StuffAll(lines))
  {
    var i :| 0 <= i < |lines| && lines[i] == line;
    assert |StuffAll(lines)[i]| >= |line|;
  }

  /** The word on a line of its own, in the message. */
  lemma WordIn(email: Email, drawn: Drawn) returns (a: string, b: string)
    requires Encodable(email) && email.htmlText != "" && email.attachments == []
    requires WrapText(email.plainText, 998) == email.plainText + "\r\n"
    ensures a != "" && a[|a| - 1] == '\n' && Mime(email, drawn) == a + (email.plainText + "\r\n" + b)
  {
    var d, word := "--" + drawn.alternative, email.plainText;
    var head, block := BlockText(MainFields(email, drawn) + ContentFields(email, drawn)), BlockText(TextFields());
    var html, close := HtmlPart(email.htmlText), d + "--\r\n";
    a := head + "\r\n" + d + "\r\n" + block + "\r\n";
    b := "\r\n" + (d + "\r\n" + html) + close;
    AlternativeIs(d, TextPart(word), html);
    hide BlockText, WrapText, HtmlPart, Delimited, MainFields, ContentFields, TextFields;
    Flat(head, d, block, word, html, close);
  }

  lemma AlternativeIs(d: string, text: string, html: string)
    ensures Delimited(d, [text, html]) == d + "\r\n" + text + (d + "\r\n" + html)
  {
    assert [text, html][1..] == [html] && [html][1..] == [];
    assert Delimited(d, [html]) == d + "\r\n" + html + "";
  }

  lemma Flat(head: string, d: string, block: string, word: string, html: string, close: string)
    ensures head + "\r\n" + (d + "\r\n" + (block + "\r\n" + (word + "\r\n" + "\r\n")) + (d + "\r\n" + html) + close)
         == head + "\r\n" + d + "\r\n" + block + "\r\n"
            + (word + "\r\n" + ("\r\n" + (d + "\r\n" + html) + close))
  {
  }

  // ------------------------------------------------------------------ an instance

  /** Lines that pass: short, on one line, and begun by no dot and by no tag that begins with A. */
  predicate Passes(line: string) {
    |line| <= 200 && OneLine(line) && (line != "" ==> line[0] != '.' && line[0] != 'A')
  }

  ghost predicate AllPass(lines: seq<string>) {
    forall i :: 0 <= i < |lines| ==> Passes(lines[i])
  }

  ghost predicate Simple(fields: seq<Field>) {
    forall i :: 0 <= i < |fields| ==> SimpleField(fields[i])
  }

  lemma NamePasses(h: HeaderName)
    ensures Name(h) != "" && Name(h)[0] != '.' && Name(h)[0] != 'A' && |Name(h)| <= 25
  {
  }

  ghost predicate SimpleField(f: Field) {
    |f.pieces| == 1 && |f.pieces[0]| <= 100 && OneLine(f.pieces[0])
  }

  lemma FieldPasses(f: Field) returns (line: string)
    requires SimpleField(f)
    ensures FieldLines(f) == [line] && Passes(line)
  {
    NamePasses(f.name);
    NameShape(f.name);
    hide Name;
    line := Name(f.name) + ": " + f.pieces[0];
    assert f.pieces[1..] == [] && line[0] == Name(f.name)[0];
    assert [line] + [] == [line];
  }

  lemma {:induction false} BlockPasses(fields: seq<Field>)
    requires Simple(fields)
    ensures AllPass(BlockLines(fields)) && |BlockLines(fields)| == |fields|
  {
    hide SimpleField, Passes, FieldLines;
    if fields != [] {
      BlockPasses(fields[1..]);
      var line := FieldPasses(fields[0]);
      assert BlockLines(fields) == [line] + BlockLines(fields[1..]);
    }
  }

  lemma PlainCons(line: string, rest: string)
    requires OneLine(line)
    ensures PlainLines(line + "\r\n" + rest) == [line] + PlainLines(rest)
  {
    LinesCons(line, rest);
    ChompsEqual(line);
    hide Lines, Chomp, OneLine;
  }

  lemma {:induction false} LinesOfUnlines(lines: seq<string>)
    requires AllPass(lines)
    ensures PlainLines(Unlines(lines)) == lines
    decreases |lines|
  {
    if lines == [] {
      NoPlainLines();
    } else {
      var line, rest := lines[0], lines[1..];
      assert Passes(line) && OneLine(line) && AllPass(rest);
      LinesOfUnlines(rest);
      hide *;
      UnlinesCons(line, rest);
      PlainCons(line, Unlines(rest));
      assert [line] + rest == lines;
    }
  }

  lemma {:induction false} PassesMean(lines: seq<string>)
    requires AllPass(lines)
    ensures AllShort(lines) && DotLines(lines) == 0 && |Terminated(lines)| <= 201 * |lines|
    decreases |lines|
  {
    if lines != [] {
      assert Passes(lines[0]);
      PassesMean(lines[1..]);
      assert forall i :: 0 <= i < |lines| ==> Passes(lines[i]);
    }
  }

  /** What the server saves of such lines is fetched line by line, none of them taken for the end of the reply. */
  lemma {:induction false} PassUntouched(lines: seq<string>)
    requires AllPass(lines)
    ensures ImapFetch.Untouched(ImapFetch.BodyLines(Terminated(lines)), "A1")
    decreases |lines|
  {
    if lines == [] {
      assert ImapFetch.BodyLines(Terminated(lines)) == [""];
      ShortUntouched("", "A1");
      hide Terminated, ImapFetch.BodyLines, ImapFetch.Touched;
    } else {
      var line, rest := lines[0], lines[1..];
      assert Passes(line) && OneLine(line) && AllPass(rest);
      hide *;
      PassUntouched(rest);
      LineUntouched(line);
      BodyLinesCons(line, Terminated(rest));
      TakenFirst(line, rest);
      assert [line] + rest == lines;
      ImapFetch.UntouchedCons(line, ImapFetch.BodyLines(Terminated(rest)), "A1");
    }
  }

  lemma LineUntouched(line: string)
    requires Passes(line)
    ensures !ImapFetch.Touched(line, "A1")
  {
  }

  lemma BodyLinesCons(line: string, rest: string)
    requires OneLine(line)
    ensures ImapFetch.BodyLines(line + "\n" + rest) == [line] + ImapFetch.BodyLines(rest)
  {
    var body := line + "\n" + rest;
    assert body[|line|] == '\n' && body[..|line|] == line && body[|line| + 1..] == rest;
    assert forall i :: 0 <= i < |line| ==> body[i] == line[i];
    assert FindChar(body, '\n', 0) == |line|;
  }

  lemma NoteGood()
    ensures Encodable(NOTE) && Recoverable(NOTE, SAMPLE_DRAWN)
    ensures GoodFields(AllFields(NOTE, SAMPLE_DRAWN, TextFields()))
  {
    SampleHeaders();
    TextFieldsGood();
    hide GoodHeaders, GoodFields, TextFields;
    assert Recoverable(NOTE, SAMPLE_DRAWN);
    RecoverableEncodable(NOTE, SAMPLE_DRAWN);
    AllFieldsGood(NOTE, SAMPLE_DRAWN, TextFields());
  }

  lemma NoteFields()
    requires EncodableName(NOTE.subject)
    ensures var fields := AllFields(NOTE, SAMPLE_DRAWN, TextFields()); Simple(fields) && |fields| == 7
  {
    assert Join(["c@d"], ", ") == "c@d";
    assert AllFields(NOTE, SAMPLE_DRAWN, TextFields())
        == [Field(MimeVersion, ["1.0"]), Field(Date, ["today"]), Field(From, ["a@b"]), Field(To, ["c@d"]),
            Field(MessageId, ["<1@b>"])] + TextFields();
    FiveSimple();
    TwoSimple();
  }

  lemma FiveSimple()
    ensures Simple([Field(MimeVersion, ["1.0"]), Field(Date, ["today"]), Field(From, ["a@b"]), Field(To, ["c@d"]),
                    Field(MessageId, ["<1@b>"])])
  {
  }

  lemma TwoSimple()
    ensures Simple(TextFields())
  {
  }

  lemma NoteMime()
    requires Encodable(NOTE) && GoodFields(AllFields(NOTE, SAMPLE_DRAWN, TextFields()))
    ensures Mime(NOTE, SAMPLE_DRAWN)
         == Unlines(BlockLines(AllFields(NOTE, SAMPLE_DRAWN, TextFields())) + ["", "hi"])
  {
    var fields := AllFields(NOTE, SAMPLE_DRAWN, TextFields());
    assert Mime(NOTE, SAMPLE_DRAWN) == BlockText(fields) + "\r\n" + ("hi" + "\r\n");
    LastTwo();
    hide *;
    BlockTextIsLines(fields);
    UnlinesConcat(BlockLines(fields), ["", "hi"]);
    Assoc(BlockText(fields), "\r\n", "hi" + "\r\n");
  }

  lemma LastTwo()
    ensures Unlines(["", "hi"]) == "\r\n" + ("hi" + "\r\n")
  {
    assert ["", "hi"][1..] == ["hi"] && ["hi"][1..] == [];
    assert Unlines(["hi"]) == "hi" + "\r\n" + "";
    assert "" + "\r\n" == "\r\n";
  }

  lemma NoteLines()
    requires Encodable(NOTE)
    ensures var lines := PlainLines(Mime(NOTE, SAMPLE_DRAWN)); AllPass(lines) && |lines| == 9
  {
    NoteGood();
    assert EncodableName(NOTE.subject);
    var fields := AllFields(NOTE, SAMPLE_DRAWN, TextFields());
    assert AllPass(["", "hi"]);
    hide *;
    NoteFields();
    NoteMime();
    BlockPasses(fields);
    PassConcat(BlockLines(fields), ["", "hi"]);
    LinesOfUnlines(BlockLines(fields) + ["", "hi"]);
  }

  lemma {:induction false} DecimalLength(n: nat)
    ensures |ImapFetch.ToDecimal(n)| <= n + 1
  {
    if n >= 10 {
      DecimalLength(n / 10);
    }
  }

  lemma ReplySize(body: string)
    requires |body| <= 2000
    ensures |ImapFetch.FetchReply(1, body, "A1")| <= ImapFetch.MAX_REPLY
  {
    DecimalLength(1);
    DecimalLength(|body|);
    hide ImapFetch.ToDecimal;
  }

  /** The hypotheses of the whole way can be met: this message arrives over every two sessions. */
  lemma NoteArrives(s: SmtpSession.Session, server: SecureChannel.Channel, client: SecureChannel.Channel, nonce: nat)
    requires s.phase == SmtpSession.ReceivingData && s.recipients != [] && s.body == ""
    requires ImapFetch.Facing(server, client)
    ensures Encodable(NOTE)
    ensures var saved := NoCr(Mime(NOTE, SAMPLE_DRAWN));
            var r := Parse(saved, NEW_EMAIL).1;
            && ImapFetch.Fetched(server, client, nonce, ImapFetch.FetchReply(1, saved, "A1"), "A1") == Some(saved)
            && r.sender == "a@b" && r.to == ["c@d"] && r.plainText == "hi\n"
  {
    hide *;
    NoteGood();
    NoteLines();
    NoteText();
    TagIs();
    var mime := Mime(NOTE, SAMPLE_DRAWN);
    var lines := PlainLines(mime);
    PassFits(mime);
    BuiltBreaks(NOTE, SAMPLE_DRAWN);
    MimeEnds(NOTE, SAMPLE_DRAWN);
    LinesWithLf(mime);
    PassUntouched(lines);
    ReplySize(NoCr(mime));
    MailArrives(NOTE, SAMPLE_DRAWN, s, server, client, nonce, 1, "A1");
  }

  lemma NoteText()
    ensures NOTE.sender == "a@b" && NOTE.to == ["c@d"] && OnlyBreaks(NOTE.plainText) && DataBreaks(NOTE.attachments)
    ensures NoCr(TextBack(NOTE)) == "hi\n"
  {
    assert TextBack(NOTE) == "hi" + "\r\n";
    NoCrBreak();
    NoCrSame("hi");
    hide NoCr;
    NoCrConcat("hi", "\r\n");
    assert "hi" + "\n" == "hi\n";
  }

  lemma TagIs()
    ensures "A1" != "" && "A1"[0] != '*' && '\r' !in "A1" && '\n' !in "A1"
  {
  }

  lemma PassFits(text: string)
    requires AllPass(PlainLines(text)) && |PlainLines(text)| == 9
    ensures Fits(text) && |Terminated(PlainLines(text))| <= 2000
  {
    hide AllPass, AllShort, DotLines, Terminated, PlainLines;
    PassesMean(PlainLines(text));
  }

  lemma PassConcat(a: seq<string>, b: seq<string>)
    requires AllPass(a) && AllPass(b)
    ensures AllPass(a + b)
  {
    hide Passes;
  }
}

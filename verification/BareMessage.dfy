/** A built message as the SMTP server saves it, with LF for every CRLF, and what MimeParser::ParseEmail makes of it. */
module BareMessage {
  import opened Text
  import opened Base64
  import opened StringUtils
  import opened MimeEncoder
  import opened MimeDecoder
  import opened MimeHeaders
  import opened HeaderBlock
  import opened Multipart
  import opened MimeParser
  import opened MimeBuilder
  import opened MimeRoundTrip
  import opened MimeMessage
  import opened LineEnds

  // ------------------------------------------------------------- header blocks

  lemma {:induction false} JoinNoCr(lines: seq<string>)
    requires GoodLines(lines)
    ensures NoCr(Join(lines, "\r\n")) == Join(lines, "\n")
    ensures OnlyBreaks(Join(lines, "\r\n"))
  {
    if lines != [] {
      NoCrSame(lines[0]);
      if |lines| > 1 {
        var rest := Join(lines[1..], "\r\n");
        JoinNoCr(lines[1..]);
        NoCrBreak();
        hide NoCr, OnlyBreaks;
        NoCrConcat(lines[0] + "\r\n", rest);
        NoCrConcat(lines[0], "\r\n");
        LineBreaks(lines[0], rest);
      }
    }
  }

  lemma LineBreaks(line: string, rest: string)
    requires OneLine(line) && OnlyBreaks(rest)
    ensures OnlyBreaks(line + "\r\n" + rest)
  {
    BreaksConcat(line, "\r\n");
    hide OnlyBreaks;
    BreaksConcat(line + "\r\n", rest);
  }

  /** Every LF is followed by something on the next line. */
  ghost predicate NoBlank(s: string) {
    forall i :: 0 <= i < |s| && s[i] == '\n' ==> i + 1 < |s| && s[i + 1] != '\n'
  }

  lemma BlankJoin(line: string, rest: string)
    requires OneLine(line) && rest != "" && rest[0] != '\n' && NoBlank(rest)
    ensures NoBlank(line + "\n" + rest)
  {
    var s := line + "\n" + rest;
    forall i | 0 <= i < |s| && s[i] == '\n' ensures i + 1 < |s| && s[i + 1] != '\n' {
      if i > |line| {
        assert s[i] == rest[i - |line| - 1];
        assert s[i + 1] == rest[i - |line|];
      }
    }
  }

  lemma {:induction false} JoinNoBlank(lines: seq<string>)
    requires lines != [] && GoodLines(lines)
    ensures var s := Join(lines, "\n"); s != "" && s[0] == lines[0][0] && NoBlank(s) && '\r' !in s
  {
    if |lines| > 1 {
      JoinNoBlank(lines[1..]);
      var rest := Join(lines[1..], "\n");
      BlankJoin(lines[0], rest);
      hide NoBlank;
      assert '\r' !in lines[0] + "\n" + rest;
    }
  }

  /** With LF alone, the first blank line ends the headers. */
  lemma SplitsAtLf(headers: string, body: string)
    requires NoBlank(headers) && '\r' !in headers && '\r' !in body
    ensures SplitBlock(headers + "\n\n" + body) == (headers, body)
  {
    var s, k := headers + "\n\n" + body, |headers|;
    NoCrlf(s);
    assert MatchAt(s, "\n\n", k);
    forall j: nat | j < k ensures !MatchAt(s, "\n\n", j) {
      if s[j] == '\n' {
        assert s[j + 1] == headers[j + 1];
      }
      assert j + 2 <= |s| ==> s[j..j + 2][0] == s[j] && s[j..j + 2][1] == s[j + 1];
    }
    FindIs(s, "\n\n", 0, k);
    hide Find, MatchAt;
    Middle(headers, "\n\n", body);
    Middle("", headers, "\n\n" + body);
    Assoc(headers, "\n\n", body);
    assert "" + headers == headers;
  }

  lemma NoCrlf(s: string)
    requires '\r' !in s
    ensures Find(s, "\r\n\r\n", 0) == NPOS
  {
    MissingCharNoOccur(s, "\r\n\r\n", '\r');
    ContainsIff(s, "\r\n\r\n");
  }

  lemma NoCrBlock(h: string, body: string)
    ensures NoCr(h + "\r\n\r\n" + body) == NoCr(h) + "\n\n" + NoCr(body)
  {
    NoCrBreak();
    hide NoCr;
    NoCrConcat(h + "\r\n\r\n", body);
    NoCrConcat(h, "\r\n\r\n");
  }

  /** A printed block without its CRs is split and looked up like the block. */
  lemma BlockNoCr(fields: seq<Field>, body: string)
    requires fields != [] && GoodFields(fields) && OnlyBreaks(body)
    ensures SplitBlock(NoCr(BlockText(fields) + "\r\n" + body)) == (NoCr(Headers(fields)), NoCr(body))
    ensures OnlyBreaks(Headers(fields))
  {
    var lines, h := BlockLines(fields), Headers(fields);
    BlockTextIsLines(fields);
    BlockLinesGood(fields);
    UnlinesIsJoin(lines);
    JoinNoCr(lines);
    JoinNoBlank(lines);
    hide *;
    assert h == Join(lines, "\r\n") by { HeadersDef(fields); }
    TwoBreaks(BlockText(fields), h, body);
    NoCrBlock(h, body);
    NoCrLacks(body);
    SplitsAtLf(NoCr(h), NoCr(body));
  }

  // -------------------------------------------------------------------- parts

  /** The Email with its plain text without CRs. */
  function Bare(e: Email): Email {
    e.(plainText := NoCr(e.plainText))
  }

  /** Without its CRs the part does the same, but for those of the plain text. */
  ghost predicate Simulates(part: string) {
    forall e: Email :: ProcessPart(NoCr(part), Bare(e)) == Bare(ProcessPart(part, e))
  }

  ghost predicate AllSimulate(parts: seq<string>) {
    forall i :: 0 <= i < |parts| ==> Simulates(parts[i])
  }

  lemma {:induction false} AllProcessed(parts: seq<string>, e: Email)
    requires AllSimulate(parts)
    ensures ProcessAll(NoCrAll(parts), Bare(e)) == Bare(ProcessAll(parts, e))
    decreases |parts|
  {
    hide ProcessPart, Bare, NoCr;
    if parts != [] {
      var part, rest := parts[0], parts[1..];
      assert Simulates(part) && AllSimulate(rest);
      assert NoCrAll(parts)[0] == NoCr(part) && NoCrAll(parts)[1..] == NoCrAll(rest);
      assert ProcessPart(NoCr(part), Bare(e)) == Bare(ProcessPart(part, e));
      hide Simulates, NoCrAll;
      AllProcessed(rest, ProcessPart(part, e));
    }
  }

  /** A body whose parts do so does so itself. */
  lemma BodyProcessed(body: string, d: string, e: Email)
    requires OnlyBreaks(body) && Inline(d) && AllSimulate(Parts(body, d))
    ensures ProcessBody(NoCr(body), d, Bare(e)) == Bare(ProcessBody(body, d, e))
  {
    hide *;
    assert d != "" by { InlineMeans(d); }
    PartsNoCr(body, d);
    ProcessBodyIsAll(body, d, e);
    ProcessBodyIsAll(NoCr(body), d, Bare(e));
    AllProcessed(Parts(body, d), e);
  }

  lemma InlineMeans(d: string)
    requires Inline(d)
    ensures d != ""
  {
  }

  /** What ProcessMimePart reads off a printed part without its CRs. */
  lemma ViewNoCr(fields: seq<Field>, body: string)
    requires fields != [] && GoodFields(fields) && OnlyBreaks(body)
    requires !Contains(ToLower(ValueIn(fields, TransferEncoding)), "quoted-printable")
    ensures var block := BlockText(fields) + "\r\n" + body;
            View(NoCr(block)) == View(block).(headers := NoCr(Headers(fields)), body := NoCr(body))
            && View(block).headers == Headers(fields) && View(block).body == body
            && View(block).contentType == ValueIn(fields, ContentType)
            && View(block).encoding == ToLower(ValueIn(fields, TransferEncoding))
  {
    hide BlockText, SplitBlock, HeaderValue, Headers, ValueIn, Contains, GoodFields, Name, OnlyBreaks, NoCr;
    BlockNoCr(fields, body);
    BlockRoundTrip(fields, body, ContentType);
    BlockRoundTrip(fields, body, Disposition);
    BlockRoundTrip(fields, body, TransferEncoding);
    HeaderNoCr(Headers(fields), Name(ContentType));
    HeaderNoCr(Headers(fields), Name(Disposition));
    HeaderNoCr(Headers(fields), Name(TransferEncoding));
  }

  lemma FileNameNoCr(h: string)
    requires OnlyBreaks(h)
    ensures ExtractFileName(NoCr(h)) == ExtractFileName(h)
  {
    hide HeaderValue, NoCr, OnlyBreaks, Name, DecodeEncodedWord, Trim, ParameterAt, Find;
    HeaderNoCr(h, Name(Disposition));
    HeaderNoCr(h, Name(ContentType));
  }

  /** What a leaf in Base64 contributes does not show the CRs. */
  lemma Base64Same(p: PartView, q: PartView)
    requires p.InBase64() && q == p.(headers := NoCr(p.headers), body := NoCr(p.body))
    ensures q.Data() == p.Data() && q.DecodedText() == p.DecodedText()
  {
    StripNoCr(p.body);
    hide NoCr, StripBreaks, Contains, DecodeBase64;
  }

  lemma AttachedLeaf(p: PartView, q: PartView, e: Email)
    requires p.Attached() && q == p.(headers := q.headers, body := q.body)
    requires q.Data() == p.Data() && ExtractFileName(q.headers) == ExtractFileName(p.headers)
    ensures AddLeaf(q, Bare(e)) == Bare(AddLeaf(p, e))
  {
    hide NoCr, StripBreaks, ExtractFileName, Contains, ToLower, FindChar, FileSize, PartView.Data;
    assert q.Attached() && q.MediaType() == p.MediaType();
  }

  lemma HtmlLeaf(p: PartView, q: PartView, e: Email)
    requires !p.Attached() && !Contains(ToLower(p.contentType), "text/plain")
    requires q == p.(headers := q.headers, body := q.body) && q.DecodedText() == p.DecodedText()
    ensures AddLeaf(q, Bare(e)) == Bare(AddLeaf(p, e))
  {
    hide NoCr, ExtractFileName, Contains, ToLower, PartView.DecodedText;
    assert !q.Attached() && q.EncodingName() == p.EncodingName();
  }

  /** A leaf in Base64, unless it is plain text. */
  lemma Base64Leaf(p: PartView, e: Email)
    requires p.InBase64() && OnlyBreaks(p.headers)
    requires p.Attached() || !Contains(ToLower(p.contentType), "text/plain")
    ensures AddLeaf(p.(headers := NoCr(p.headers), body := NoCr(p.body)), Bare(e)) == Bare(AddLeaf(p, e))
  {
    hide *;
    var q := p.(headers := NoCr(p.headers), body := NoCr(p.body));
    FileNameNoCr(p.headers);
    Base64Same(p, q);
    if p.Attached() {
      AttachedLeaf(p, q, e);
    } else {
      HtmlLeaf(p, q, e);
    }
  }

  lemma Base64Simulates(fields: seq<Field>, body: string)
    requires fields != [] && GoodFields(fields) && OnlyBreaks(body)
    requires ValueIn(fields, TransferEncoding) == "base64"
    requires !Contains(ToLower(ValueIn(fields, ContentType)), "multipart")
    requires View(BlockText(fields) + "\r\n" + body).Attached()
             || !Contains(ToLower(ValueIn(fields, ContentType)), "text/plain")
    ensures Simulates(BlockText(fields) + "\r\n" + body)
  {
    Base64Name();
    var block := BlockText(fields) + "\r\n" + body;
    BlockNoCr(fields, body);
    ViewNoCr(fields, body);
    hide BlockText, View, ValueIn, GoodFields, Contains, ToLower, Headers, NoCr, OnlyBreaks, AddLeaf, Bare, SplitBlock;
    var p := View(block);
    assert p.InBase64() && !p.Nested();
    forall e: Email ensures ProcessPart(NoCr(block), Bare(e)) == Bare(ProcessPart(block, e)) {
      Base64Leaf(p, e);
    }
  }

  /** A text that is neither encoded nor an attachment. */
  lemma TextLeaf(p: PartView, e: Email)
    requires !p.InBase64() && !p.Attached() && Contains(ToLower(p.contentType), "text/plain")
    ensures AddLeaf(p.(headers := NoCr(p.headers), body := NoCr(p.body)), Bare(e)) == Bare(AddLeaf(p, e))
  {
    hide NoCr, ExtractFileName, Contains, ToLower, ExtractCharset;
    var q := p.(headers := NoCr(p.headers), body := NoCr(p.body));
    assert q.Attached() == p.Attached() && !q.InBase64() && q.EncodingName() == p.EncodingName();
  }

  lemma TextSimulates(text: string)
    requires OnlyBreaks(TextPart(text))
    ensures Simulates(TextPart(text))
  {
    var fields, body := TextFields(), WrapText(text, 998) + "\r\n";
    TextFieldsGood();
    EightBit();
    PlainTypeIs();
    PlainTypeTests();
    NothingIn("attachment");
    NothingIn("filename=");
    BodyBreaks(fields, body);
    var block := BlockText(fields) + "\r\n" + body;
    hide WrapText, BlockText, View, Contains, PlainType, GoodFields, ValueIn, TextFields, NoCr, OnlyBreaks, Headers,
      AddLeaf, Bare, ToLower;
    ViewOf(fields, body);
    ViewNoCr(fields, body);
    var p := View(block);
    assert !p.Nested() && !p.Attached() && !p.InBase64();
    forall e: Email ensures ProcessPart(NoCr(block), Bare(e)) == Bare(ProcessPart(block, e)) {
      TextLeaf(p, e);
    }
  }

  lemma BodyBreaks(fields: seq<Field>, body: string)
    requires OnlyBreaks(BlockText(fields) + "\r\n" + body)
    ensures OnlyBreaks(body)
  {
    var block := BlockText(fields) + "\r\n" + body;
    var k := |block| - |body|;
    assert block[k..] == body;
    hide BlockText, OnlyBreaks;
    BreaksCut(block, k);
  }

  lemma HtmlSimulates(html: string)
    requires OnlyBreaks(HtmlPart(html))
    ensures Simulates(HtmlPart(html))
  {
    HtmlFieldsGood();
    HtmlTypeIs();
    HtmlTypeTests();
    var fields, body := HtmlFields(), ToBase64(html) + "\r\n";
    BodyBreaks(fields, body);
    hide *;
    Base64Simulates(fields, body);
    HtmlPartIs(html);
  }

  lemma HtmlPartIs(html: string)
    ensures HtmlPart(html) == BlockText(HtmlFields()) + "\r\n" + (ToBase64(html) + "\r\n") && HtmlFields() != []
  {
  }

  lemma AttachmentSimulates(a: Attachment, d: string)
    requires GoodAttachment(a, d) && IsDelimiter(d) && OnlyBreaks(AttachmentPart(a))
    ensures Simulates(AttachmentPart(a))
  {
    var fields, body := AttachmentFields(a), a.data + "\r\n";
    AttachmentFieldsGood(a, d);
    Base64Name();
    DispositionTests(a.name);
    BodyBreaks(fields, body);
    assert fields != [] && AttachmentPart(a) == BlockText(fields) + "\r\n" + body;
    assert !Contains(ToLower(ValueIn(fields, ContentType)), "multipart");
    hide NoOccur, IsDelimiter, DispositionFront, Quoted, AttachmentFields, AttachmentPart, ValueIn, GoodFields, Headers,
      BlockText, View, Contains, EncodableName, GoodAttachment, FieldsLack, OnlyBreaks, ToLower;
    ViewOf(fields, body);
    Base64Simulates(fields, body);
  }

  /** A multipart whose parts do so. */
  lemma NestedSimulates(fields: seq<Field>, body: string, boundary: string)
    requires fields != [] && GoodFields(fields) && OnlyBreaks(body)
    requires !Contains(ToLower(ValueIn(fields, TransferEncoding)), "quoted-printable")
    requires Contains(ToLower(ValueIn(fields, ContentType)), "multipart")
    requires ExtractBoundary(ValueIn(fields, ContentType)) == boundary != "" && Inline("--" + boundary)
    requires AllSimulate(Parts(body, "--" + boundary))
    ensures Simulates(BlockText(fields) + "\r\n" + body)
  {
    var block, d := BlockText(fields) + "\r\n" + body, "--" + boundary;
    ViewNoCr(fields, body);
    hide BlockText, View, ValueIn, GoodFields, Contains, ToLower, Headers, NoCr, OnlyBreaks, ExtractBoundary,
      ProcessBody, AllSimulate, Inline, Parts, SplitBlock, AddLeaf;
    var p := View(block);
    forall e: Email ensures ProcessPart(NoCr(block), Bare(e)) == Bare(ProcessPart(block, e)) {
      var q := View(NoCr(block));
      assert NoteAlternative(q, Bare(e)) == Bare(NoteAlternative(p, e));
      BodyProcessed(body, d, NoteAlternative(p, e));
    }
  }

  // ---------------------------------------------------------------- the message

  lemma BoundaryInline(b: string)
    requires IsBoundary(b)
    ensures Inline("--" + b)
  {
    BoundaryChars(b);
  }

  /** Both alternatives do so, wherever they stand. */
  lemma AlternativesSimulate(email: Email, drawn: Drawn, tail: string)
    requires IsBoundary(drawn.alternative) && NoOccur(email.plainText, "--" + drawn.alternative)
    requires OnlyBreaks(AlternativeBody(email, drawn) + tail)
    ensures AllSimulate(Parts(AlternativeBody(email, drawn) + tail, "--" + drawn.alternative))
  {
    var d, body := "--" + drawn.alternative, AlternativeBody(email, drawn) + tail;
    BoundaryInline(drawn.alternative);
    hide IsBoundary, Inline, OnlyBreaks, NoOccur, Parts, TextPart, HtmlPart, AlternativeBody, Simulates, NoCr;
    AlternativeParts(email, drawn, tail);
    PartsNoCr(body, d);
    var parts := Parts(body, d);
    assert OnlyBreaks(parts[0]) && OnlyBreaks(parts[1]);
    TextSimulates(email.plainText);
    HtmlSimulates(email.htmlText);
  }

  lemma AlternativePartSimulates(email: Email, drawn: Drawn)
    requires GoodBodies(email, drawn) && OnlyBreaks(AlternativePart(email, drawn))
    ensures Simulates(AlternativePart(email, drawn))
  {
    var fields, body := AlternativeFields(drawn.alternative), AlternativeBody(email, drawn) + "\r\n";
    AlternativeFieldsGood(drawn.alternative);
    FrontsAre();
    NothingIn("quoted-printable");
    EightBit();
    BoundaryRead("multipart/alternative; ", drawn.alternative);
    BoundaryInline(drawn.alternative);
    BodyBreaks(fields, body);
    hide *;
    GoodBodiesMean(email, drawn);
    AlternativesSimulate(email, drawn, "\r\n");
    NestedSimulates(fields, body, drawn.alternative);
    PartIs(email, drawn);
  }

  lemma GoodBodiesMean(email: Email, drawn: Drawn)
    requires GoodBodies(email, drawn)
    ensures IsBoundary(drawn.mixed) && IsBoundary(drawn.alternative)
    ensures NoOccur(email.plainText, "--" + drawn.alternative) && NoOccur(email.plainText, "--" + drawn.mixed)
  {
    hide IsBoundary, NoOccur;
  }

  lemma FirstPartSimulates(email: Email, drawn: Drawn)
    requires GoodBodies(email, drawn) && OnlyBreaks(FirstPart(email, drawn))
    ensures Simulates(FirstPart(email, drawn))
  {
    hide GoodBodies, OnlyBreaks, Simulates, TextPart;
    if email.htmlText == "" {
      TextSimulates(email.plainText);
    } else {
      assert FirstPart(email, drawn) == AlternativePart(email, drawn);
      AlternativePartSimulates(email, drawn);
    }
  }

  lemma {:induction false} AttachmentsSimulate(attachments: seq<Attachment>, d: string)
    requires GoodAttachments(attachments, d) && IsDelimiter(d) && EncodableNames(attachments)
    requires AllBreak(AttachmentParts(attachments))
    ensures AllSimulate(AttachmentParts(attachments))
  {
    hide GoodAttachment, IsDelimiter, EncodableName, OnlyBreaks, Simulates, AttachmentPart;
    if attachments != [] {
      var parts, rest := AttachmentParts(attachments), AttachmentParts(attachments[1..]);
      assert parts[0] == AttachmentPart(attachments[0]) && parts[1..] == rest;
      assert OnlyBreaks(parts[0]) && AllBreak(rest);
      AttachmentSimulates(attachments[0], d);
      AttachmentsSimulate(attachments[1..], d);
      forall i | 0 <= i < |parts| ensures Simulates(parts[i]) {
        if i > 0 {
          assert parts[i] == rest[i - 1];
        }
      }
    }
  }

  lemma MixedBodyParts(email: Email, drawn: Drawn)
    requires Encodable(email) && GoodBodies(email, drawn) && email.attachments != []
    requires GoodAttachments(email.attachments, "--" + drawn.mixed)
    ensures Parts(Body(email, drawn), "--" + drawn.mixed)
         == [FirstPart(email, drawn)] + AttachmentParts(email.attachments)
  {
    var d := "--" + drawn.mixed;
    DelimiterOf(drawn.mixed);
    MixedParts(email, drawn);
    FirstPartRead(email, drawn, NEW_EMAIL);
    hide *;
    var first, rest := FirstPart(email, drawn), AttachmentParts(email.attachments);
    AttachmentsProcessed(email.attachments, d, NEW_EMAIL);
    SeparableCons(first, rest, d);
    PartsOfBody(drawn.mixed, [first] + rest, "");
  }

  lemma MixedSimulates(email: Email, drawn: Drawn)
    requires Encodable(email) && GoodBodies(email, drawn) && email.attachments != []
    requires GoodAttachments(email.attachments, "--" + drawn.mixed) && OnlyBreaks(Body(email, drawn))
    ensures AllSimulate(Parts(Body(email, drawn), "--" + drawn.mixed))
  {
    var d, first, rest := "--" + drawn.mixed, FirstPart(email, drawn), AttachmentParts(email.attachments);
    DelimiterOf(drawn.mixed);
    BoundaryInline(drawn.mixed);
    hide *;
    MixedBodyParts(email, drawn);
    PartsNoCr(Body(email, drawn), d);
    BreakCons(first, rest);
    FirstPartSimulates(email, drawn);
    AttachmentsSimulate(email.attachments, d);
    SimulateCons(first, rest);
  }

  lemma BreakCons(first: string, rest: seq<string>)
    requires AllBreak([first] + rest)
    ensures OnlyBreaks(first) && AllBreak(rest)
  {
    hide OnlyBreaks;
    assert ([first] + rest)[0] == first;
    assert forall i :: 0 <= i < |rest| ==> rest[i] == ([first] + rest)[i + 1];
  }

  lemma SimulateCons(first: string, rest: seq<string>)
    requires Simulates(first) && AllSimulate(rest)
    ensures AllSimulate([first] + rest)
  {
    hide Simulates;
  }

  lemma TopSimulates(email: Email, drawn: Drawn)
    requires Recoverable(email, drawn) && Encodable(email) && (email.htmlText != "" || email.attachments != [])
    requires OnlyBreaks(Body(email, drawn))
    ensures AllSimulate(Parts(Body(email, drawn), "--" + TopBoundary(email, drawn)))
  {
    hide GoodHeaders, GoodAttachments, NoOccur, IsBoundary, AllSimulate, Parts, OnlyBreaks, AlternativeBody, IsOctets;
    if email.attachments != [] {
      hide Body;
      MixedSimulates(email, drawn);
    } else {
      assert Body(email, drawn) == AlternativeBody(email, drawn) && Body(email, drawn) + "" == Body(email, drawn);
      AlternativesSimulate(email, drawn, "");
    }
  }

  lemma MainHeadersNoCr(h: string, e: Email)
    requires OnlyBreaks(h)
    ensures MainHeaders(NoCr(h), Bare(e)) == Bare(MainHeaders(h, e))
  {
    hide HeaderValue, NoCr, OnlyBreaks, Name, DecodeEncodedWord, SplitFrom;
    HeaderNoCr(h, Name(From));
    HeaderNoCr(h, Name(Subject));
    HeaderNoCr(h, Name(Date));
    HeaderNoCr(h, Name(To));
    HeaderNoCr(h, Name(Cc));
    HeaderNoCr(h, Name(MessageId));
    HeaderNoCr(h, Name(InReplyTo));
    HeaderNoCr(h, Name(References));
  }

  /** ParseEmail on a multipart without its CRs. */
  lemma ParseMultipartNoCr(raw: string, h: string, body: string, type_: string, e: Email)
    requires raw != "" && NoCr(raw) != "" && OnlyBreaks(h) && OnlyBreaks(body)
    requires SplitBlock(raw) == (h, body) && SplitBlock(NoCr(raw)) == (NoCr(h), NoCr(body))
    requires HeaderValue(h, Name(ContentType)) == type_ && Contains(ToLower(type_), "multipart")
    requires ExtractBoundary(type_) != "" && Inline("--" + ExtractBoundary(type_))
    requires AllSimulate(Parts(body, "--" + ExtractBoundary(type_)))
    ensures Parse(NoCr(raw), Bare(e)) == (true, Bare(Parse(raw, e).1)) && Parse(raw, e).0
  {
    HeaderNoCr(h, Name(ContentType));
    MainHeadersNoCr(h, e);
    hide SplitBlock, HeaderValue, Contains, ToLower, ExtractBoundary, ProcessBody, MainHeaders, Name, OnlyBreaks, NoCr,
      AllSimulate, Parts, Inline, ExtractCharset, SingleText;
    var main, lower, d := MainHeaders(h, e), ToLower(type_), "--" + ExtractBoundary(type_);
    var e' := if Contains(lower, "multipart/mixed") then main.(boundaryMixed := ExtractBoundary(type_))
              else if Contains(lower, "multipart/alternative") then main.(boundaryAlternative := ExtractBoundary(type_))
              else main;
    assert Parse(raw, e) == (true, ProcessBody(body, d, e'));
    assert Parse(NoCr(raw), Bare(e)) == (true, ProcessBody(NoCr(body), d, Bare(e')));
    BodyProcessed(body, d, e');
  }

  lemma ParseTextNoCr(raw: string, h: string, body: string, e: Email)
    requires raw != "" && NoCr(raw) != "" && OnlyBreaks(h)
    requires SplitBlock(raw) == (h, body) && SplitBlock(NoCr(raw)) == (NoCr(h), NoCr(body))
    requires HeaderValue(h, Name(ContentType)) == PlainType() && HeaderValue(h, Name(TransferEncoding)) == "8bit"
    ensures Parse(NoCr(raw), Bare(e)) == (true, Bare(Parse(raw, e).1)) && Parse(raw, e).0
  {
    HeaderNoCr(h, Name(ContentType));
    HeaderNoCr(h, Name(TransferEncoding));
    MainHeadersNoCr(h, e);
    hide *;
    ParsesText(raw, h, body, e);
    ParsesText(NoCr(raw), NoCr(h), NoCr(body), Bare(e));
    BareText(MainHeaders(h, e), body);
  }

  lemma BareText(main: Email, body: string)
    ensures Bare(main).(plainEncoding := "8bit", charset := "utf-8", plainText := NoCr(body))
         == Bare(main.(plainEncoding := "8bit", charset := "utf-8", plainText := body))
  {
  }

  lemma NoCrNotEmpty(a: string, b: string)
    ensures NoCr(a + "\r\n" + b) != ""
  {
    NoCrBreak();
    hide NoCr;
    NoCrConcat(a + "\r\n", b);
    NoCrConcat(a, "\r\n");
  }

  /** The message without its CRs is read like the message, but for those of the plain text. */
  lemma BareParse(email: Email, drawn: Drawn, e: Email)
    requires Recoverable(email, drawn) && Encodable(email) && OnlyBreaks(Mime(email, drawn))
    ensures Parse(NoCr(Mime(email, drawn)), Bare(e)) == (true, Bare(Parse(Mime(email, drawn), e).1))
  {
    ContentGood(email, drawn);
    var content := ContentFields(email, drawn);
    AllFieldsGood(email, drawn, content);
    var fields, raw, body := AllFields(email, drawn, content), Mime(email, drawn), Body(email, drawn);
    assert raw == BlockText(fields) + "\r\n" + body;
    BodyBreaks(fields, body);
    hide *;
    BlockNoCr(fields, body);
    NoCrNotEmpty(BlockText(fields), body);
    MessageSplits(email, drawn, e);
    if email.htmlText == "" && email.attachments == [] {
      TextFieldsGood();
      TextContent(email, drawn);
      ParseTextNoCr(raw, Headers(fields), body, e);
    } else {
      MultipartContent(email, drawn);
      TopTypeRead(email, drawn);
      TopSimulates(email, drawn);
      ParseMultipartNoCr(raw, Headers(fields), body, ValueIn(content, ContentType), e);
    }
  }

  lemma TextContent(email: Email, drawn: Drawn)
    requires email.htmlText == "" && email.attachments == []
    ensures ContentFields(email, drawn) == TextFields()
  {
  }

  lemma MultipartContent(email: Email, drawn: Drawn)
    requires Recoverable(email, drawn) && (email.htmlText != "" || email.attachments != [])
    ensures IsBoundary(drawn.mixed) && IsBoundary(drawn.alternative) && Inline("--" + TopBoundary(email, drawn))
  {
    hide GoodHeaders, GoodAttachments, IsBoundary, NoOccur, IsOctets, Inline;
    BoundaryInline(drawn.mixed);
    BoundaryInline(drawn.alternative);
  }

  // -------------------------------------------------- every CR belongs to a break

  lemma {:induction false} UnlinesBreaks(lines: seq<string>)
    requires GoodLines(lines)
    ensures OnlyBreaks(Unlines(lines))
  {
    if lines != [] {
      UnlinesBreaks(lines[1..]);
      hide OnlyBreaks;
      LineBreaks(lines[0], Unlines(lines[1..]));
    }
  }

  lemma BlockBreaks(fields: seq<Field>, body: string)
    requires GoodFields(fields) && OnlyBreaks(body)
    ensures OnlyBreaks(BlockText(fields) + "\r\n" + (body + "\r\n"))
    ensures OnlyBreaks(BlockText(fields) + "\r\n" + body)
  {
    BlockTextIsLines(fields);
    BlockLinesGood(fields);
    UnlinesBreaks(BlockLines(fields));
    assert OnlyBreaks("\r\n");
    hide *;
    var block := BlockText(fields);
    BreaksConcat(block, "\r\n");
    BreaksConcat(body, "\r\n");
    BreaksConcat(block + "\r\n", body + "\r\n");
    BreaksConcat(block + "\r\n", body);
  }

  /** A wrapped line holds no line end. */
  lemma PieceIsLine(t: string, limit: nat)
    requires t != "" && limit >= 1
    ensures OneLine(t[..PieceLength(t, limit)])
  {
    var newline := FindAny(t, {'\r', '\n'}, 0);
    hide FindAny, SplitLength;
    assert forall i :: 0 <= i < PieceLength(t, limit) ==> t[i] !in {'\r', '\n'};
  }

  lemma {:induction false} WrapBreaks(t: string, limit: nat)
    requires limit >= 1
    ensures OnlyBreaks(Wrap(t, limit))
    decreases |t|
  {
    if t != "" {
      WrapBreaks(t[Consumed(t, limit)..], limit);
      PieceIsLine(t, limit);
      hide OnlyBreaks, PieceLength, Consumed;
      LineBreaks(t[..PieceLength(t, limit)], Wrap(t[Consumed(t, limit)..], limit));
    }
  }

  lemma {:induction false} FoldedBreaks(s: string)
    requires '\r' !in s && '\n' !in s
    ensures OnlyBreaks(Folded(s))
  {
    if |s| > 76 {
      FoldedBreaks(s[76..]);
      hide OnlyBreaks;
      LineBreaks(s[..76], Folded(s[76..]));
    }
  }

  lemma Base64Breaks(text: string)
    ensures OnlyBreaks(ToBase64(text))
  {
    EncodedChars(ToBytes(text));
    hide Encoded, Folded, OnlyBreaks;
    FoldedBreaks(Encoded(ToBytes(text)));
  }

  lemma TextPartBreaks(text: string)
    ensures OnlyBreaks(TextPart(text))
  {
    TextFieldsGood();
    WrapBreaks(text, LineLimit(998));
    hide BlockText, WrapText, TextFields, OnlyBreaks, GoodFields;
    assert OnlyBreaks(WrapText(text, 998)) by { WrapTextDef(text); }
    BlockBreaks(TextFields(), WrapText(text, 998));
  }

  lemma WrapTextDef(text: string)
    ensures WrapText(text, 998) == Wrap(text, LineLimit(998))
  {
  }

  lemma HtmlPartBreaks(html: string)
    ensures OnlyBreaks(HtmlPart(html))
  {
    HtmlFieldsGood();
    Base64Breaks(html);
    hide *;
    BlockBreaks(HtmlFields(), ToBase64(html));
    HtmlPartIs(html);
  }

  lemma {:induction false} DelimitedBreaks(d: string, parts: seq<string>)
    requires Inline(d) && AllBreak(parts)
    ensures OnlyBreaks(Delimited(d, parts))
  {
    if parts != [] {
      var part, rest := parts[0], Delimited(d, parts[1..]);
      assert OnlyBreaks(part) && OneLine(d);
      DelimitedBreaks(d, parts[1..]);
      hide *;
      BreaksConcat(part, rest);
      LineBreaks(d, part + rest);
      Assoc(d + "\r\n", part, rest);
      DelimitedFirst(d, parts);
    }
  }

  lemma DelimitedFirst(d: string, parts: seq<string>)
    requires parts != []
    ensures Delimited(d, parts) == d + "\r\n" + parts[0] + Delimited(d, parts[1..])
  {
  }

  lemma MultipartBreaks(boundary: string, parts: seq<string>)
    requires Inline("--" + boundary) && AllBreak(parts)
    ensures OnlyBreaks(MultipartBody(boundary, parts))
  {
    var d := "--" + boundary;
    assert OneLine(d + "--") && OnlyBreaks("");
    assert d + "--\r\n" == d + "--" + "\r\n" + "";
    hide OnlyBreaks, Delimited, OneLine;
    LineBreaks(d + "--", "");
    DelimitedBreaks(d, parts);
    BreaksConcat(Delimited(d, parts), d + "--\r\n");
  }

  lemma AlternativeBreaks(email: Email, drawn: Drawn)
    requires IsBoundary(drawn.alternative)
    ensures OnlyBreaks(AlternativeBody(email, drawn)) && OnlyBreaks(AlternativePart(email, drawn))
  {
    BoundaryInline(drawn.alternative);
    TextPartBreaks(email.plainText);
    HtmlPartBreaks(email.htmlText);
    AlternativeFieldsGood(drawn.alternative);
    hide TextPart, HtmlPart, OnlyBreaks, MultipartBody, Inline, IsBoundary, AlternativeFields, BlockText, GoodFields;
    MultipartBreaks(drawn.alternative, [TextPart(email.plainText), HtmlPart(email.htmlText)]);
    BlockBreaks(AlternativeFields(drawn.alternative), AlternativeBody(email, drawn));
  }

  ghost predicate DataBreaks(attachments: seq<Attachment>) {
    forall i :: 0 <= i < |attachments| ==> OnlyBreaks(attachments[i].data)
  }

  lemma {:induction false} AttachmentPartsBreak(attachments: seq<Attachment>, d: string)
    requires GoodAttachments(attachments, d) && IsDelimiter(d) && EncodableNames(attachments) && DataBreaks(attachments)
    ensures AllBreak(AttachmentParts(attachments))
  {
    hide GoodAttachment, IsDelimiter, EncodableName, OnlyBreaks, AttachmentFields, BlockText, GoodFields;
    if attachments != [] {
      var a := attachments[0];
      AttachmentPartsBreak(attachments[1..], d);
      AttachmentFieldsGood(a, d);
      BlockBreaks(AttachmentFields(a), a.data);
      hide AttachmentPart;
      assert AttachmentParts(attachments) == [AttachmentPart(a)] + AttachmentParts(attachments[1..]);
    }
  }

  lemma FirstPartBreaks(email: Email, drawn: Drawn)
    requires IsBoundary(drawn.alternative)
    ensures OnlyBreaks(FirstPart(email, drawn))
  {
    hide OnlyBreaks, TextPart, IsBoundary, BlockText, AlternativeBody, AlternativeFields;
    TextPartBreaks(email.plainText);
    AlternativeBreaks(email, drawn);
  }

  /** The builder writes CR only in line breaks, if the plain text and the attachments' data have it only there. */
  lemma BuiltBreaks(email: Email, drawn: Drawn)
    requires Recoverable(email, drawn) && Encodable(email)
    requires OnlyBreaks(email.plainText) && DataBreaks(email.attachments)
    ensures OnlyBreaks(Mime(email, drawn))
  {
    ContentGood(email, drawn);
    var content := ContentFields(email, drawn);
    AllFieldsGood(email, drawn, content);
    var fields, body := AllFields(email, drawn, content), Body(email, drawn);
    assert Mime(email, drawn) == BlockText(fields) + "\r\n" + body;
    BuiltBodyBreaks(email, drawn);
    hide *;
    BlockBreaks(fields, body);
  }

  lemma BuiltBodyBreaks(email: Email, drawn: Drawn)
    requires Recoverable(email, drawn) && Encodable(email)
    requires OnlyBreaks(email.plainText) && DataBreaks(email.attachments)
    ensures OnlyBreaks(Body(email, drawn))
  {
    if email.htmlText == "" && email.attachments == [] {
      assert OnlyBreaks("\r\n");
      BreaksConcat(email.plainText, "\r\n");
    } else {
      assert GoodBodies(email, drawn) && GoodAttachments(email.attachments, "--" + drawn.mixed);
      hide Recoverable, OnlyBreaks, GoodAttachments, AlternativeBody, FirstPart, AttachmentParts, MultipartBody,
        DataBreaks;
      GoodBodiesMean(email, drawn);
      if email.attachments == [] {
        AlternativeBreaks(email, drawn);
      } else {
        BoundaryInline(drawn.mixed);
        DelimiterOf(drawn.mixed);
        FirstPartBreaks(email, drawn);
        AttachmentPartsBreak(email.attachments, "--" + drawn.mixed);
        var first, rest := FirstPart(email, drawn), AttachmentParts(email.attachments);
        ConsBreaks(first, rest);
        MultipartBreaks(drawn.mixed, [first] + rest);
      }
    }
  }

  lemma ConsBreaks(first: string, rest: seq<string>)
    requires OnlyBreaks(first) && AllBreak(rest)
    ensures AllBreak([first] + rest)
  {
    hide OnlyBreaks;
  }
}

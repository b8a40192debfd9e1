/** mime/src/MimeBuilder.cpp: from an Email to a raw message. The date, the message id and the two boundaries,
    which the program draws from the clock and at random, come in as parameters. */
module MimeBuilder {
  import opened Text
  import opened Wrappers
  import opened Base64
  import opened StringUtils
  import opened MimeEncoder
  import opened MimeHeaders
  import opened HeaderBlock
  import opened MimeParser

  /** What BuildEmail gets from outside: the date, a fresh message id and two fresh boundaries. */
  datatype Drawn = Drawn(date: string, messageId: string, mixed: string, alternative: string)

  // ---------------------------------------------------------------- validation

  predicate HasAt(address: string) {
    FindChar(Trim(address), '@', 0) != NPOS
  }

  /** ValidateEmail. */
  predicate Sendable(email: Email) {
    && Trim(email.sender) != "" && email.to != []
    && (Trim(email.plainText) != "" || email.htmlText != "")
    && HasAt(email.sender) && forall i :: 0 <= i < |email.to| ==> HasAt(email.to[i])
  }

  method ValidateEmail(email: Email) returns (ok: bool)
    ensures ok <==> Sendable(email)
  {
    hide HasAt, Trim;
    if Trim(email.sender) == "" { return false; }
    if email.to == [] { return false; }
    if Trim(email.plainText) == "" && email.htmlText == "" { return false; }
    if !HasAt(email.sender) { return false; }
    for i := 0 to |email.to|
      invariant forall j :: 0 <= j < i ==> HasAt(email.to[j])
    {
      if !HasAt(email.to[i]) { return false; }
    }
    ok := true;
  }

  // ------------------------------------------------------------------- headers

  /** The default chunk size of EncodeHeader. */
  const CHUNK := 45

  /** Where EncodeHeader comes back. */
  predicate EncodableName(name: string) {
    Returns(name, CHUNK)
  }

  /** The lines of an encoded header value. */
  function Pieces(text: string): (r: seq<string>)
    requires EncodableName(text)
  {
    if NeedsEncoding(text) then Words(Chunks(text, CHUNK).value) else [text]
  }

  /** Pieces with text before the first and behind the last. */
  function Around(before: string, pieces: seq<string>, behind: string): seq<string>
    decreases |pieces|
  {
    if pieces == [] then []
    else if |pieces| == 1 then [before + pieces[0] + behind]
    else [before + pieces[0]] + Around("", pieces[1..], behind)
  }

  function MessageIdOf(email: Email, drawn: Drawn): string {
    if email.messageId == "" then drawn.messageId else email.messageId
  }

  function Optional(name: HeaderName, value: string): seq<Field> {
    if value == "" then [] else [Field(name, [value])]
  }

  function SubjectFields(subject: string): seq<Field>
    requires EncodableName(subject)
  {
    if subject == "" then [] else [Field(Subject, Pieces(subject))]
  }

  function CcFields(cc: seq<string>): seq<Field> {
    if cc == [] then [] else [Field(Cc, [Join(cc, ", ")])]
  }

  predicate EncodableNames(attachments: seq<Attachment>) {
    forall i :: 0 <= i < |attachments| ==> EncodableName(attachments[i].name)
  }

  predicate Encodable(email: Email) {
    EncodableName(email.subject) && EncodableNames(email.attachments)
  }

  /** AppendMainHeaders. */
  function MainFields(email: Email, drawn: Drawn): seq<Field>
    requires EncodableName(email.subject)
  {
    [Field(MimeVersion, ["1.0"]), Field(Date, [drawn.date])] + SubjectFields(email.subject)
    + [Field(From, [email.sender]), Field(To, [Join(email.to, ", ")])] + CcFields(email.cc)
    + [Field(MessageId, [MessageIdOf(email, drawn)])]
    + Optional(InReplyTo, email.inReplyTo) + Optional(References, email.references)
  }

  function TextFields(): seq<Field> {
    [Field(ContentType, ["text/plain; charset=\"utf-8\""]), Field(TransferEncoding, ["8bit"])]
  }

  function HtmlFields(): seq<Field> {
    [Field(ContentType, ["text/html; charset=\"utf-8\""]), Field(TransferEncoding, ["base64"])]
  }

  function AlternativeFields(boundary: string): seq<Field> {
    [Field(ContentType, ["multipart/alternative; boundary=\"" + boundary + "\""])]
  }

  function MixedFields(boundary: string): seq<Field> {
    [Field(ContentType, ["multipart/mixed; boundary=\"" + boundary + "\""])]
  }

  const MIME_TYPES: map<string, string> := map[
    "pdf" := "application/pdf", "jpg" := "image/jpeg", "jpeg" := "image/jpeg", "png" := "image/png",
    "gif" := "image/gif", "txt" := "text/plain", "html" := "text/html", "htm" := "text/html",
    "xml" := "application/xml", "zip" := "application/zip", "doc" := "application/msword",
    "docx" := "application/vnd.openxmlformats-officedocument.wordprocessingml.document",
    "xls" := "application/vnd.ms-excel",
    "xlsx" := "application/vnd.openxmlformats-officedocument.spreadsheetml.sheet",
    "ppt" := "application/vnd.ms-powerpoint",
    "pptx" := "application/vnd.openxmlformats-officedocument.presentationml.presentation",
    "json" := "application/json", "csv" := "text/csv"]

  function LastDot(name: string): (r: int)
    ensures NPOS <= r < |name|
  {
    if name == "" then NPOS else if name[|name| - 1] == '.' then |name| - 1 else LastDot(name[..|name| - 1])
  }

  /** GetMimeType. */
  function TypeByName(name: string): string {
    var dot := LastDot(name);
    var extension := ToLower(name[dot + 1..]);
    if dot == NPOS || extension !in MIME_TYPES then "application/octet-stream" else MIME_TYPES[extension]
  }

  function TypeOf(a: Attachment): string {
    if a.mime == "" then TypeByName(a.name) else a.mime
  }

  function AttachmentFields(a: Attachment): seq<Field>
    requires EncodableName(a.name)
  {
    [Field(ContentType, Around(TypeOf(a) + "; name=\"", Pieces(a.name), "\"")),
     Field(TransferEncoding, ["base64"]),
     Field(Disposition, Around("attachment; filename=\"", Pieces(a.name), "\""))]
  }

  // --------------------------------------------------------------------- parts

  /** What stands between a delimiter and the next. */
  function TextPart(body: string): string {
    BlockText(TextFields()) + "\r\n" + (WrapText(body, 998) + "\r\n")
  }

  function HtmlPart(html: string): string {
    BlockText(HtmlFields()) + "\r\n" + (ToBase64(html) + "\r\n")
  }

  function AttachmentPart(a: Attachment): string
    requires EncodableName(a.name)
  {
    BlockText(AttachmentFields(a)) + "\r\n" + (a.data + "\r\n")
  }

  function AttachmentParts(attachments: seq<Attachment>): seq<string>
    requires EncodableNames(attachments)
  {
    if attachments == [] then [] else [AttachmentPart(attachments[0])] + AttachmentParts(attachments[1..])
  }

  /** Parts behind their delimiters. */
  function Delimited(d: string, parts: seq<string>): string {
    if parts == [] then "" else d + "\r\n" + parts[0] + Delimited(d, parts[1..])
  }

  /** A multipart body: its parts and the closing delimiter. */
  function MultipartBody(boundary: string, parts: seq<string>): string {
    Delimited("--" + boundary, parts) + ("--" + boundary + "--\r\n")
  }

  function AlternativeBody(email: Email, drawn: Drawn): string {
    MultipartBody(drawn.alternative, [TextPart(email.plainText), HtmlPart(email.htmlText)])
  }

  /** The first part of a message with attachments. */
  function FirstPart(email: Email, drawn: Drawn): string {
    if email.htmlText == "" then TextPart(email.plainText)
    else BlockText(AlternativeFields(drawn.alternative)) + "\r\n" + (AlternativeBody(email, drawn) + "\r\n")
  }

  /** The fields that follow the main headers, and the body. */
  function ContentFields(email: Email, drawn: Drawn): seq<Field> {
    if email.attachments != [] then MixedFields(drawn.mixed)
    else if email.htmlText != "" then AlternativeFields(drawn.alternative)
    else TextFields()
  }

  function Body(email: Email, drawn: Drawn): string
    requires Encodable(email)
  {
    if email.attachments != [] then
      MultipartBody(drawn.mixed, [FirstPart(email, drawn)] + AttachmentParts(email.attachments))
    else SingleBody(email, drawn)
  }

  /** The body of a message without attachments. */
  function SingleBody(email: Email, drawn: Drawn): string {
    if email.htmlText != "" then AlternativeBody(email, drawn) else email.plainText + "\r\n"
  }

  /** The whole message. */
  function Mime(email: Email, drawn: Drawn): string
    requires Encodable(email)
  {
    BlockText(MainFields(email, drawn) + ContentFields(email, drawn)) + "\r\n" + Body(email, drawn)
  }

  // ------------------------------------------------------- growing the message

  method JoinAddresses(addresses: seq<string>) returns (result: string)
    ensures result == Join(addresses, ", ")
  {
    result := "";
    assert addresses[..0] == [] && addresses[..|addresses|] == addresses;
    for i := 0 to |addresses|
      invariant result == Join(addresses[..i], ", ")
    {
      assert addresses[..i + 1] == addresses[..i] + [addresses[i]];
      if i > 0 {
        JoinSnoc(addresses[..i], addresses[i], ", ");
        result := result + ", ";
      } else {
        assert [] + [addresses[0]] == [addresses[0]] && "" + addresses[0] == addresses[0];
      }
      result := result + addresses[i];
    }
  }

  lemma {:induction false} BlockTextConcat(a: seq<Field>, b: seq<Field>)
    ensures BlockText(a + b) == BlockText(a) + BlockText(b)
  {
    hide FieldText;
    if a == [] {
      assert a + b == b;
    } else {
      assert (a + b)[0] == a[0] && (a + b)[1..] == a[1..] + b;
      BlockTextConcat(a[1..], b);
      Assoc(FieldText(a[0]), BlockText(a[1..]), BlockText(b));
    }
  }

  lemma OneField(f: Field)
    ensures BlockText([f]) == FieldText(f) && BlockText([]) == ""
  {
    hide FieldText;
    assert [f][1..] == [] && FieldText(f) + "" == FieldText(f);
  }

  /** A line appended to the text is a field appended to the block. */
  lemma Appended(start: string, done: seq<Field>, f: Field)
    ensures start + BlockText(done) + FieldText(f) == start + BlockText(done + [f])
  {
    hide BlockText, FieldText;
    BlockTextConcat(done, [f]);
    OneField(f);
    Assoc(start, BlockText(done), FieldText(f));
  }

  lemma SimpleField(name: HeaderName, value: string)
    ensures FieldText(Field(name, [value])) == Name(name) + ": " + value + "\r\n"
  {
  }

  /** EncodeHeader with the fold of the builder and the default chunk size. None: it does not come back. */
  method FoldedHeader(text: string) returns (r: Option<string>)
    ensures r.Some? <==> EncodableName(text)
    ensures r.Some? ==> r.value == EncodeHeader(text, "\r\n\t", CHUNK)
    ensures r.None? <==> NeedsEncoding(text) && LongRun(text, CHUNK)
  {
    ReturnsIff(text, CHUNK);
    hide NeedsEncoding, LongRun, EncodeHeader, Header, Cuts, Returns;
    var encoded := EncodeHeaderImpl(text, "\r\n\t", CHUNK);
    r := if encoded.Ok? then encoded.value else None;
  }

  /** The Subject line, if there is a subject. */
  method AppendSubject(subject: string, out: string, ghost start: string, ghost done: seq<Field>)
    returns (r: Option<string>)
    requires out == start + BlockText(done)
    ensures r.Some? <==> EncodableName(subject)
    ensures r.Some? ==> r.value == start + BlockText(done + SubjectFields(subject))
  {
    hide Name, BlockText, FieldText, EncodeHeader, Returns, NeedsEncoding, LongRun;
    var encoded := FoldedHeader(subject);
    if encoded.None? {
      return None;
    }
    if subject == "" {
      assert done + [] == done;
      return Some(out);
    }
    FoldedField(Subject, subject);
    Appended(start, done, Field(Subject, Pieces(subject)));
    r := Some(out + (Name(Subject) + ": " + encoded.value + "\r\n"));
  }

  /** None where the subject's encoding does not come back. */
  method AppendMainHeaders(email: Email, drawn: Drawn, out: string) returns (r: Option<string>)
    ensures r.Some? <==> EncodableName(email.subject)
    ensures r.Some? ==> r.value == out + BlockText(MainFields(email, drawn))
  {
    hide Name, BlockText, FieldText, EncodeHeader, Join, EncodableName, SubjectFields;
    ghost var done: seq<Field> := [];
    var out' := out;
    assert out' == out + BlockText(done) by { OneField(Field(Date, [""])); }
    out' := AppendHeader(out', MimeVersion, "1.0", out, done);
    done := done + [Field(MimeVersion, ["1.0"])];
    out' := AppendHeader(out', Date, drawn.date, out, done);
    done := done + [Field(Date, [drawn.date])];
    var withSubject := AppendSubject(email.subject, out', out, done);
    if withSubject.None? {
      return None;
    }
    out' := withSubject.value;
    done := done + SubjectFields(email.subject);
    ghost var a := done;
    assert a == [Field(MimeVersion, ["1.0"]), Field(Date, [drawn.date])] + SubjectFields(email.subject);
    out' := AppendHeader(out', From, email.sender, out, done);
    done := done + [Field(From, [email.sender])];
    var to := JoinAddresses(email.to);
    out' := AppendHeader(out', To, to, out, done);
    done := done + [Field(To, [to])];
    if email.cc != [] {
      var cc := JoinAddresses(email.cc);
      out' := AppendHeader(out', Cc, cc, out, done);
      done := done + [Field(Cc, [cc])];
    }
    assert done == a + [Field(From, [email.sender]), Field(To, [to])] + CcFields(email.cc);
    ghost var b := done;
    var messageId := if email.messageId == "" then drawn.messageId else email.messageId;
    out' := AppendHeader(out', MessageId, messageId, out, done);
    done := done + [Field(MessageId, [messageId])];
    if email.inReplyTo != "" {
      out' := AppendHeader(out', InReplyTo, email.inReplyTo, out, done);
      done := done + [Field(InReplyTo, [email.inReplyTo])];
    }
    if email.references != "" {
      out' := AppendHeader(out', References, email.references, out, done);
      done := done + [Field(References, [email.references])];
    }
    assert done == b + [Field(MessageId, [messageId])] + Optional(InReplyTo, email.inReplyTo)
                     + Optional(References, email.references);
    r := Some(out');
  }

  method AppendHeader(out: string, name: HeaderName, value: string, ghost start: string, ghost done: seq<Field>)
    returns (out': string)
    requires out == start + BlockText(done)
    ensures out' == start + BlockText(done + [Field(name, [value])])
  {
    SimpleField(name, value);
    Appended(start, done, Field(name, [value]));
    out' := out + (Name(name) + ": " + value + "\r\n");
  }

  lemma PiecesJoin(text: string, separator: string)
    requires EncodableName(text)
    ensures Join(Pieces(text), separator) == EncodeHeader(text, separator, CHUNK)
  {
    hide Chunks, Words, NeedsEncoding;
  }

  lemma FoldedField(name: HeaderName, text: string)
    requires EncodableName(text)
    ensures FieldText(Field(name, Pieces(text))) == Name(name) + ": " + EncodeHeader(text, "\r\n\t", CHUNK) + "\r\n"
  {
    hide Name, Chunks, Words, NeedsEncoding, EncodeHeader;
    PiecesJoin(text, "\r\n\t");
  }

  lemma {:induction false} AroundJoin(before: string, pieces: seq<string>, behind: string, sep: string)
    requires pieces != []
    ensures Around(before, pieces, behind) != []
    ensures Join(Around(before, pieces, behind), sep) == before + Join(pieces, sep) + behind
    decreases |pieces|
  {
    if |pieces| > 1 {
      var rest := Around("", pieces[1..], behind);
      AroundJoin("", pieces[1..], behind, sep);
      var all := [before + pieces[0]] + rest;
      assert all[1..] == rest;
      Spread(before, pieces[0], sep, Join(pieces[1..], sep), behind);
    }
  }

  lemma Spread(before: string, piece: string, sep: string, tail: string, behind: string)
    ensures before + piece + sep + ("" + tail + behind) == before + (piece + sep + tail) + behind
  {
  }

  lemma PiecesNotEmpty(text: string)
    requires EncodableName(text)
    ensures Pieces(text) != []
  {
    if NeedsEncoding(text) {
      assert text != "";
      assert Chunks(text, CHUNK).value != [];
    }
  }

  lemma AroundField(name: HeaderName, before: string, text: string, behind: string)
    requires EncodableName(text)
    ensures FieldText(Field(name, Around(before, Pieces(text), behind)))
         == Name(name) + ": " + (before + EncodeHeader(text, "\r\n\t", CHUNK) + behind) + "\r\n"
  {
    PiecesNotEmpty(text);
    hide Name, EncodeHeader, Pieces, Around, Join;
    AroundJoin(before, Pieces(text), behind, "\r\n\t");
    PiecesJoin(text, "\r\n\t");
  }

  lemma TwoFields(f: Field, g: Field)
    ensures BlockText([f, g]) == FieldText(f) + FieldText(g)
  {
    hide FieldText;
    OneField(g);
    assert [f, g][1..] == [g];
  }

  lemma ThreeFields(f: Field, g: Field, h: Field)
    ensures BlockText([f, g, h]) == FieldText(f) + FieldText(g) + FieldText(h)
  {
    hide FieldText, BlockText;
    TwoFields(f, g);
    OneField(h);
    BlockTextConcat([f, g], [h]);
    assert [f, g] + [h] == [f, g, h];
  }

  /** Growing a text piece by piece is adding the pieces together. */
  lemma Grown(out: string, d: string, a: string, b: string, body: string)
    ensures out + (d + "\r\n") + a + b + "\r\n" + body == out + (d + "\r\n" + (a + b + "\r\n" + body))
  {
  }

  method AppendTextPart(body: string, boundary: string, out: string) returns (out': string)
    ensures out' == out + ("--" + boundary + "\r\n" + TextPart(body))
  {
    ghost var f, g := TextFields()[0], TextFields()[1];
    TwoFields(f, g);
    SimpleField(ContentType, "text/plain; charset=\"utf-8\"");
    SimpleField(TransferEncoding, "8bit");
    assert TextFields() == [f, g];
    hide Name, FieldText, BlockText, WrapText;
    var wrapped := WrapTextImpl(body, 998);
    var type_ := Name(ContentType) + ": " + "text/plain; charset=\"utf-8\"" + "\r\n";
    var encoding := Name(TransferEncoding) + ": " + "8bit" + "\r\n";
    Grown(out, "--" + boundary, type_, encoding, wrapped + "\r\n");
    out' := out + ("--" + boundary + "\r\n");
    out' := out' + type_;
    out' := out' + encoding;
    out' := out' + "\r\n";
    out' := out' + (wrapped + "\r\n");
  }

  /** Base64 refuses a text that is too long, and that exception leaves BuildEmail. */
  method AppendHtmlPart(html: string, boundary: string, out: string) returns (r: Result<string>)
    ensures r.Ok? <==> |html| <= MAX_FILE_SIZE
    ensures r.Ok? ==> r.value == out + ("--" + boundary + "\r\n" + HtmlPart(html))
  {
    ghost var f, g := HtmlFields()[0], HtmlFields()[1];
    TwoFields(f, g);
    SimpleField(ContentType, "text/html; charset=\"utf-8\"");
    SimpleField(TransferEncoding, "base64");
    assert HtmlFields() == [f, g];
    hide Name, FieldText, BlockText, Encoded, Folded;
    var base64 :- EncodeBase64Impl(ToBytes(html));
    var type_ := Name(ContentType) + ": " + "text/html; charset=\"utf-8\"" + "\r\n";
    var encoding := Name(TransferEncoding) + ": " + "base64" + "\r\n";
    Grown(out, "--" + boundary, type_, encoding, base64 + "\r\n");
    var out' := out + ("--" + boundary + "\r\n");
    out' := out' + type_;
    out' := out' + encoding;
    out' := out' + "\r\n";
    out' := out' + (base64 + "\r\n");
    r := Result.Ok(out');
  }

  method AppendAttachment(a: Attachment, boundary: string, out: string) returns (r: Option<string>)
    ensures r.Some? <==> EncodableName(a.name)
    ensures r.Some? ==> r.value == out + ("--" + boundary + "\r\n" + AttachmentPart(a))
  {
    hide Name, FieldText, BlockText, EncodeHeader, Pieces, Around, TypeByName, EncodableName, NeedsEncoding, LongRun;
    var type_ := if a.mime == "" then TypeByName(a.name) else a.mime;
    var encoded := FoldedHeader(a.name);
    if encoded.None? {
      return None;
    }
    var name := encoded.value;
    var first := Name(ContentType) + ": " + (type_ + "; name=\"" + name + "\"") + "\r\n";
    var second := Name(TransferEncoding) + ": " + "base64" + "\r\n";
    var third := Name(Disposition) + ": " + ("attachment; filename=\"" + name + "\"") + "\r\n";
    assert BlockText(AttachmentFields(a)) == first + second + third by {
      ghost var fs := AttachmentFields(a);
      ThreeFields(fs[0], fs[1], fs[2]);
      AroundField(ContentType, type_ + "; name=\"", a.name, "\"");
      SimpleField(TransferEncoding, "base64");
      AroundField(Disposition, "attachment; filename=\"", a.name, "\"");
      assert fs == [fs[0], fs[1], fs[2]];
    }
    hide AttachmentFields;
    Grown(out, "--" + boundary, first + second, third, a.data + "\r\n");
    var out' := out + ("--" + boundary + "\r\n");
    out' := out' + (first + second);
    out' := out' + third;
    out' := out' + "\r\n";
    out' := out' + (a.data + "\r\n");
    r := Some(out');
  }

  lemma {:induction false} AttachmentPartsSnoc(done: seq<Attachment>, a: Attachment)
    requires EncodableName(a.name) && EncodableNames(done)
    ensures AttachmentParts(done + [a]) == AttachmentParts(done) + [AttachmentPart(a)]
  {
    hide AttachmentPart;
    if done == [] {
      assert done + [a] == [a];
    } else {
      assert (done + [a])[0] == done[0] && (done + [a])[1..] == done[1..] + [a];
      AttachmentPartsSnoc(done[1..], a);
    }
  }

  lemma {:induction false} DelimitedSnoc(d: string, parts: seq<string>, part: string)
    ensures Delimited(d, parts + [part]) == Delimited(d, parts) + (d + "\r\n" + part)
  {
    if parts == [] {
      assert parts + [part] == [part] && [part][1..] == [];
    } else {
      assert (parts + [part])[0] == parts[0] && (parts + [part])[1..] == parts[1..] + [part];
      DelimitedSnoc(d, parts[1..], part);
    }
  }

  /** None where the encoding of some file name does not come back. */
  method AppendAttachments(attachments: seq<Attachment>, boundary: string, out: string) returns (r: Option<string>)
    ensures r.Some? <==> EncodableNames(attachments)
    ensures r.Some? ==> r.value == out + Delimited("--" + boundary, AttachmentParts(attachments))
  {
    hide EncodableName, AttachmentPart, Delimited, AttachmentParts;
    ghost var d := "--" + boundary;
    var out' := out;
    NothingDelimited(d);
    assert attachments[..0] == [] && attachments[..|attachments|] == attachments && out + "" == out;
    for i := 0 to |attachments|
      invariant EncodableNames(attachments[..i])
      invariant out' == out + Delimited(d, AttachmentParts(attachments[..i]))
    {
      assert attachments[..i + 1] == attachments[..i] + [attachments[i]];
      var next := AppendAttachment(attachments[i], boundary, out');
      if next.None? {
        assert !EncodableNames(attachments);
        return None;
      }
      ghost var parts := AttachmentParts(attachments[..i]);
      AttachmentPartsSnoc(attachments[..i], attachments[i]);
      DelimitedSnoc(d, parts, AttachmentPart(attachments[i]));
      Assoc(out, Delimited(d, parts), d + "\r\n" + AttachmentPart(attachments[i]));
      out' := next.value;
    }
    r := Some(out');
  }

  lemma NothingDelimited(d: string)
    ensures Delimited(d, []) == "" && AttachmentParts([]) == []
  {
  }

  lemma AlternativeBodyIs(email: Email, drawn: Drawn)
    ensures var d := "--" + drawn.alternative;
            AlternativeBody(email, drawn)
            == (d + "\r\n" + TextPart(email.plainText)) + (d + "\r\n" + HtmlPart(email.htmlText)) + (d + "--\r\n")
  {
    hide TextPart, HtmlPart;
    var d, t, h := "--" + drawn.alternative, TextPart(email.plainText), HtmlPart(email.htmlText);
    assert [t, h][1..] == [h] && [h][1..] == [];
    assert Delimited(d, [h]) == d + "\r\n" + h;
  }

  /** The nested or top-level alternative, from its header on. */
  method AppendAlternative(email: Email, drawn: Drawn, out: string) returns (r: Result<string>)
    ensures r.Ok? <==> |email.htmlText| <= MAX_FILE_SIZE
    ensures r.Ok? ==>
              r.value
              == out + (BlockText(AlternativeFields(drawn.alternative)) + "\r\n" + AlternativeBody(email, drawn))
  {
    hide Name, FieldText, BlockText, TextPart, HtmlPart, AlternativeBody;
    OneField(AlternativeFields(drawn.alternative)[0]);
    AlternativeBodyIs(email, drawn);
    SimpleField(ContentType, "multipart/alternative; boundary=\"" + drawn.alternative + "\"");
    var header := Name(ContentType) + ": " + ("multipart/alternative; boundary=\"" + drawn.alternative + "\"") + "\r\n";
    ghost var d := "--" + drawn.alternative;
    Sum4(out, header + "\r\n", d + "\r\n" + TextPart(email.plainText), d + "\r\n" + HtmlPart(email.htmlText),
         d + "--\r\n");
    assert BlockText(AlternativeFields(drawn.alternative)) == header;
    hide AlternativeFields;
    var out' := out + (header + "\r\n");
    out' := AppendTextPart(email.plainText, drawn.alternative, out');
    out' :- AppendHtmlPart(email.htmlText, drawn.alternative, out');
    out' := out' + ("--" + drawn.alternative + "--\r\n");
    r := Result.Ok(out');
  }

  lemma Sum4(out: string, a: string, b: string, c: string, d: string)
    ensures out + a + b + c + d == out + (a + (b + c + d))
  {
  }

  /** What AppendBodyContent adds: the first part behind its delimiter, or the rest of the message. */
  function BodyContent(email: Email, drawn: Drawn): string {
    if email.attachments != [] then "--" + drawn.mixed + "\r\n" + FirstPart(email, drawn)
    else BlockText(ContentFields(email, drawn)) + "\r\n" + SingleBody(email, drawn)
  }

  method AppendBodyContent(email: Email, drawn: Drawn, out: string) returns (r: Result<string>)
    ensures r.Ok? <==> |email.htmlText| <= MAX_FILE_SIZE
    ensures r.Ok? ==> r.value == out + BodyContent(email, drawn)
  {
    hide Name, FieldText, BlockText, TextPart, HtmlPart, AlternativeBody, AlternativeFields;
    var out' := out;
    if email.htmlText != "" {
      if email.attachments != [] {
        out' := out' + ("--" + drawn.mixed + "\r\n");
      }
      ghost var before := out';
      out' :- AppendAlternative(email, drawn, out');
      if email.attachments != [] {
        out' := out' + "\r\n";
        ghost var head := BlockText(AlternativeFields(drawn.alternative)) + "\r\n";
        Assoc5(out, "--" + drawn.mixed + "\r\n", head, AlternativeBody(email, drawn), "\r\n");
      }
    } else if email.attachments != [] {
      out' := AppendTextPart(email.plainText, drawn.mixed, out');
    } else {
      PlainBlock();
      hide TextFields;
      var type_ := Name(ContentType) + ": " + "text/plain; charset=\"utf-8\"" + "\r\n";
      var encoding := Name(TransferEncoding) + ": " + "8bit" + "\r\n";
      Grown3(out, type_, encoding, email.plainText + "\r\n");
      out' := out' + type_;
      out' := out' + encoding;
      out' := out' + "\r\n";
      out' := out' + (email.plainText + "\r\n");
    }
    r := Result.Ok(out');
  }

  lemma PlainBlock()
    ensures BlockText(TextFields())
         == (Name(ContentType) + ": " + "text/plain; charset=\"utf-8\"" + "\r\n")
           + (Name(TransferEncoding) + ": " + "8bit" + "\r\n")
  {
    hide Name, FieldText, BlockText;
    TwoFields(TextFields()[0], TextFields()[1]);
    assert TextFields() == [TextFields()[0], TextFields()[1]];
    SimpleField(ContentType, "text/plain; charset=\"utf-8\"");
    SimpleField(TransferEncoding, "8bit");
  }

  lemma Grown3(out: string, a: string, b: string, body: string)
    ensures out + a + b + "\r\n" + body == out + (a + b + "\r\n" + body)
  {
  }

  lemma Assoc5(out: string, d: string, head: string, body: string, end: string)
    ensures out + d + (head + body) + end == out + (d + (head + (body + end)))
  {
  }

  /** What becomes of a call: it returns false, returns with the message, throws, or never returns. */
  datatype Built = Refused | Done(mime: string) | Throws(what: string) | Hangs

  /** BuildEmail: the headers come first, then the body, then the attachments, so that a subject that cannot be
      encoded hides what would be wrong further on. */
  method BuildEmail(email: Email, drawn: Drawn) returns (r: Built)
    ensures r.Refused? <==> !Sendable(email)
    ensures r.Throws? <==> Sendable(email) && EncodableName(email.subject) && |email.htmlText| > MAX_FILE_SIZE
    ensures r.Hangs? <==>
              Sendable(email) && (!EncodableName(email.subject)
                                  || (|email.htmlText| <= MAX_FILE_SIZE && !EncodableNames(email.attachments)))
    ensures r.Done? ==> Encodable(email) && r.mime == Mime(email, drawn)
  {
    hide Name, FieldText, BlockText, MainFields, FirstPart, Sendable, AlternativeBody, AttachmentParts,
      Delimited, EncodableName, EncodableNames, SingleBody;
    var ok := ValidateEmail(email);
    if !ok {
      return Refused;
    }
    var headers := AppendMainHeaders(email, drawn, "");
    if headers.None? {
      return Hangs;
    }
    ghost var main := BlockText(MainFields(email, drawn));
    assert "" + main == main;
    if email.attachments != [] {
      r := BuildMixed(email, drawn, headers.value);
    } else {
      assert EncodableNames([]) by { NoNames(); }
      var out := AppendBodyContent(email, drawn, headers.value);
      if out.Thrown? {
        return Throws(out.what);
      }
      BlockTextConcat(MainFields(email, drawn), ContentFields(email, drawn));
      ghost var content := BlockText(ContentFields(email, drawn));
      Assoc(main, content + "\r\n", SingleBody(email, drawn));
      Assoc(main, content, "\r\n");
      r := Done(out.value);
    }
  }

  lemma NoNames()
    ensures EncodableNames([])
  {
  }

  /** BuildEmail behind the main headers, with attachments. */
  method BuildMixed(email: Email, drawn: Drawn, headers: string) returns (r: Built)
    requires email.attachments != [] && EncodableName(email.subject)
    requires headers == BlockText(MainFields(email, drawn))
    ensures r.Throws? <==> |email.htmlText| > MAX_FILE_SIZE
    ensures r.Hangs? <==> |email.htmlText| <= MAX_FILE_SIZE && !EncodableNames(email.attachments)
    ensures r.Done? <==> |email.htmlText| <= MAX_FILE_SIZE && EncodableNames(email.attachments)
    ensures r.Done? ==> r.mime == Mime(email, drawn)
  {
    hide Name, FieldText, BlockText, MainFields, FirstPart, AlternativeBody, AttachmentParts, Delimited,
      EncodableName, EncodableNames;
    var header := Name(ContentType) + ": " + ("multipart/mixed; boundary=\"" + drawn.mixed + "\"") + "\r\n";
    MixedBlock(drawn.mixed);
    BlockTextConcat(MainFields(email, drawn), MixedFields(drawn.mixed));
    hide MixedFields;
    ghost var d, first := "--" + drawn.mixed, FirstPart(email, drawn);
    var out := headers + header;
    out := out + "\r\n";
    var content := AppendBodyContent(email, drawn, out);
    if content.Thrown? {
      return Throws(content.what);
    }
    var all := AppendAttachments(email.attachments, drawn.mixed, content.value);
    if all.None? {
      return Hangs;
    }
    out := all.value + ("--" + drawn.mixed + "--\r\n");
    ghost var rest := AttachmentParts(email.attachments);
    DelimitedCons(d, first, rest);
    Whole(headers, header, d + "\r\n" + first, Delimited(d, rest), d + "--\r\n");
    r := Done(out);
  }

  lemma MixedBlock(boundary: string)
    ensures BlockText(MixedFields(boundary))
            == Name(ContentType) + ": " + ("multipart/mixed; boundary=\"" + boundary + "\"") + "\r\n"
  {
    hide Name, FieldText, BlockText;
    OneField(MixedFields(boundary)[0]);
    SimpleField(ContentType, "multipart/mixed; boundary=\"" + boundary + "\"");
  }

  lemma DelimitedCons(d: string, first: string, rest: seq<string>)
    ensures Delimited(d, [first] + rest) == d + "\r\n" + first + Delimited(d, rest)
  {
    assert ([first] + rest)[1..] == rest;
  }

  lemma Whole(main: string, header: string, first: string, rest: string, end: string)
    ensures main + header + "\r\n" + first + rest + end == (main + header) + "\r\n" + (first + rest + end)
  {
  }
}

/** mime/src/MimeParser.cpp: from a raw message to an Email, and to its structure tree. */
module MimeParser {
  import opened Text
  import opened Base64
  import opened MimeEncoder
  import opened MimeDecoder
  import opened MimeHeaders
  import opened Multipart

  datatype Attachment = Attachment(name: string, mime: string, data: string, size: int)

  datatype Email = Email(
    sender: string, to: seq<string>, cc: seq<string>, subject: string, date: string, charset: string,
    messageId: string, inReplyTo: string, references: string,
    plainText: string, htmlText: string, plainEncoding: string, htmlEncoding: string,
    boundaryMixed: string, boundaryAlternative: string, attachments: seq<Attachment>)

  /** An Email as its default constructor leaves it. */
  const NEW_EMAIL := Email("", [], [], "", "", "utf-8", "", "", "", "", "", "", "", "", "", [])

  // -------------------------------------------------------------------- parts

  /** What ProcessMimePart reads off one part: the headers as they stand, and the body with
      quoted-printable already undone. */
  datatype PartView = PartView(headers: string, contentType: string, disposition: string, encoding: string,
      body: string)
  {
    predicate Nested() {
      Contains(ToLower(contentType), "multipart")
    }

    predicate Attached() {
      || Contains(disposition, "attachment") || Contains(ToLower(contentType), "name=")
      || Contains(disposition, "filename=")
    }

    predicate InBase64() {
      Contains(encoding, "base64")
    }

    /** The media type without its parameters. */
    function MediaType(): string {
      var semicolon := FindChar(ToLower(contentType), ';', 0);
      if semicolon == NPOS then ToLower(contentType) else ToLower(contentType)[..semicolon]
    }

    /** The data of an attachment: still in Base64, on one line. */
    function Data(): string {
      if InBase64() then StripBreaks(body) else body
    }

    /** The text of a text part; undecodable Base64 is kept. */
    function DecodedText(): string {
      if !InBase64() then body
      else
        match DecodeBase64(StripBreaks(body))
        case Ok(bytes) => FromBytes(bytes)
        case Thrown(_) => StripBreaks(body)
    }

    function EncodingName(): string {
      if encoding == "" then "7bit" else encoding
    }
  }

  function View(raw: string): (p: PartView)
    ensures |p.body| <= |raw|
  {
    var (headers, body) := SplitBlock(raw);
    var encoding := ToLower(HeaderValue(headers, Name(TransferEncoding)));
    PartView(headers, HeaderValue(headers, Name(ContentType)), ToLower(HeaderValue(headers, Name(Disposition))),
             encoding, if Contains(encoding, "quoted-printable") then QuotedPrintable(body) else body)
  }

  function NewAttachment(name: string, mime: string, data: string): Attachment {
    Attachment(name, mime, data, FileSize(data))
  }

  /** What a part that is not a multipart contributes. */
  function AddLeaf(p: PartView, email: Email): Email {
    if p.Attached() then
      email.(attachments := email.attachments + [NewAttachment(ExtractFileName(p.headers), p.MediaType(), p.Data())])
    else if Contains(ToLower(p.contentType), "text/plain") then
      email.(plainEncoding := p.EncodingName(), plainText := p.DecodedText(),
             charset := if ExtractCharset(p.contentType) == "" then email.charset else ExtractCharset(p.contentType))
    else if Contains(ToLower(p.contentType), "text/html") then
      email.(htmlEncoding := p.EncodingName(), htmlText := p.DecodedText())
    else email
  }

  function NoteAlternative(p: PartView, email: Email): Email {
    if Contains(ToLower(p.contentType), "multipart/alternative")
    then email.(boundaryAlternative := ExtractBoundary(p.contentType))
    else email
  }

  /** ProcessMimePart. */
  function ProcessPart(raw: string, email: Email): Email
    decreases |raw|, 1
  {
    var p := View(raw);
    if !p.Nested() then AddLeaf(p, email)
    else if ExtractBoundary(p.contentType) == "" then email
    else ProcessBody(p.body, "--" + ExtractBoundary(p.contentType), NoteAlternative(p, email))
  }

  /** ParseMultipartBody, its loop as a recursion. */
  function ProcessBody(body: string, d: string, email: Email): Email
    requires d != []
    decreases |body|, 0
  {
    var start := Find(body, d, 0);
    if start == NPOS then email else ProcessAfter(body[start + |d|..], d, email)
  }

  function ProcessAfter(t: string, d: string, email: Email): Email
    requires d != []
    decreases |t|, 0
  {
    match NextSegment(t, d)
    case Stop => email
    case Part(part, rest) => ProcessAfter(rest, d, ProcessPart(part, email))
  }

  /** All parts of a list, one after the other. */
  function ProcessAll(parts: seq<string>, email: Email): Email {
    if parts == [] then email else ProcessAll(parts[1..], ProcessPart(parts[0], email))
  }

  lemma {:induction false} ProcessAfterIsAll(t: string, d: string, email: Email)
    requires d != []
    ensures ProcessAfter(t, d, email) == ProcessAll(PartsAfter(t, d), email)
    decreases |t|
  {
    hide NextSegment, ProcessPart;
    var next := NextSegment(t, d);
    if next.Part? {
      ProcessAfterIsAll(next.rest, d, ProcessPart(next.part, email));
      assert ([next.part] + PartsAfter(next.rest, d))[1..] == PartsAfter(next.rest, d);
    }
  }

  /** The loop over a body handles exactly its parts, in order. */
  lemma {:induction false} ProcessBodyIsAll(body: string, d: string, email: Email)
    requires d != []
    ensures ProcessBody(body, d, email) == ProcessAll(Parts(body, d), email)
  {
    hide NextSegment, ProcessPart, Find, ProcessAfter, PartsAfter;
    var start := Find(body, d, 0);
    if start != NPOS {
      ProcessAfterIsAll(body[start + |d|..], d, email);
    }
  }

  /** The loop of ParseMultipartBody. Each part is strictly shorter than the body. */
  method ParseMultipartBody(body: string, boundary: string, email: Email) returns (out: Email)
    ensures out == ProcessBody(body, "--" + boundary, email)
    decreases |body|, 0
  {
    var d := "--" + boundary;
    ProcessBodyIsAll(body, d, email);
    hide ProcessBody, Remaining, NextSegment, PartsAfter, Find, ProcessPart, ProcessAll;
    out := email;
    var pos := Find(body, d, 0);
    RemainingStart(body, d);
    while pos != NPOS
      invariant NPOS <= pos && (pos >= 0 ==> pos + |d| <= |body|)
      invariant ProcessAll(Remaining(body, d, pos), out) == ProcessAll(Parts(body, d), email)
      decreases if pos == NPOS then -1 else |body| - pos
    {
      var more, start, end := NextPart(body, d, pos);
      if !more {
        ProcessNone(out);
        return;
      }
      ProcessCons(body[start..end], Remaining(body, d, end), out);
      out := ProcessMimePart(body[start..end], out);
      pos := end;
    }
    RemainingEnd(body, d);
    ProcessNone(out);
  }

  lemma ProcessNone(email: Email)
    ensures ProcessAll([], email) == email
  {
  }

  lemma ProcessCons(part: string, rest: seq<string>, email: Email)
    ensures ProcessAll([part] + rest, email) == ProcessAll(rest, ProcessPart(part, email))
  {
    hide ProcessPart;
    assert ([part] + rest)[1..] == rest;
  }

  /** ProcessMimePart: a nested multipart recurses on a body no longer than the part. */
  method ProcessMimePart(raw: string, email: Email) returns (out: Email)
    ensures out == ProcessPart(raw, email)
    decreases |raw|, 1
  {
    hide ProcessBody, View, ExtractBoundary, Find, AddLeaf;
    var p := ReadPart(raw);
    if p.Nested() {
      var boundary := ExtractBoundary(p.contentType);
      out := email;
      if boundary != "" {
        if Contains(ToLower(p.contentType), "multipart/alternative") {
          out := out.(boundaryAlternative := boundary);
        }
        out := ParseMultipartBody(p.body, boundary, out);
      }
    } else {
      out := AddLeaf(p, email);
    }
  }

  // ------------------------------------------------------------------ message

  function Addresses(headers: string, key: string): seq<string> {
    SplitFrom(DecodeEncodedWord(HeaderValue(headers, key)), OUTSIDE, "")
  }

  /** ParseMainHeaders. */
  function MainHeaders(headers: string, email: Email): Email {
    email.(sender := DecodeEncodedWord(HeaderValue(headers, Name(From))),
           subject := DecodeEncodedWord(HeaderValue(headers, Name(Subject))),
           date := HeaderValue(headers, Name(Date)),
           to := Addresses(headers, Name(To)), cc := Addresses(headers, Name(Cc)),
           messageId := HeaderValue(headers, Name(MessageId)),
           inReplyTo := HeaderValue(headers, Name(InReplyTo)),
           references := HeaderValue(headers, Name(References)))
  }

  /** The body of a message that is not a multipart. Unlike in a part, Base64 is decoded with its
      line breaks in place. */
  function SingleText(encoding: string, body: string): string {
    if Contains(encoding, "quoted-printable") then QuotedPrintable(body)
    else if Contains(encoding, "base64") then
      match DecodeBase64(body)
      case Ok(bytes) => FromBytes(bytes)
      case Thrown(_) => body
    else body
  }

  /** ParseEmail: the flag it returns and the Email it leaves. */
  function Parse(raw: string, email: Email): (bool, Email) {
    if raw == "" then (false, email)
    else
      var (headers, body) := SplitBlock(raw);
      var main := MainHeaders(headers, email);
      var contentType := HeaderValue(headers, Name(ContentType));
      var boundary := ExtractBoundary(contentType);
      if Contains(ToLower(contentType), "multipart") then
        if boundary == "" then (false, main.(plainText := body))
        else
          var lower := ToLower(contentType);
          (true, ProcessBody(body, "--" + boundary,
            if Contains(lower, "multipart/mixed") then main.(boundaryMixed := boundary)
            else if Contains(lower, "multipart/alternative") then main.(boundaryAlternative := boundary)
            else main))
      else
        var encoding := ToLower(HeaderValue(headers, Name(TransferEncoding)));
        var charset := ExtractCharset(contentType);
        (true, main.(plainEncoding := if encoding == "" then "7bit" else encoding,
                     charset := if charset == "" then main.charset else charset,
                     plainText := SingleText(encoding, body)))
  }

  method ParseAddresses(headers: string, name: HeaderName) returns (addresses: seq<string>)
    ensures addresses == Addresses(headers, Name(name))
  {
    hide HeaderValue, DecodeEncodedWord, SplitFrom, Name;
    var value := GetHeaderValue(headers, Name(name));
    var decoded := DecodeEncodedWordImpl(value);
    addresses := SplitAddresses(decoded);
  }

  method ParseMainHeaders(headers: string, email: Email) returns (out: Email)
    ensures out == MainHeaders(headers, email)
  {
    hide HeaderValue, DecodeEncodedWord, SplitFrom, Name, Addresses;
    var from := GetHeaderValue(headers, Name(From));
    var sender := DecodeEncodedWordImpl(from);
    var raw := GetHeaderValue(headers, Name(Subject));
    var subject := DecodeEncodedWordImpl(raw);
    var date := GetHeaderValue(headers, Name(Date));
    var to := ParseAddresses(headers, To);
    var cc := ParseAddresses(headers, Cc);
    var messageId := GetHeaderValue(headers, Name(MessageId));
    var inReplyTo := GetHeaderValue(headers, Name(InReplyTo));
    var references := GetHeaderValue(headers, Name(References));
    out := email.(sender := sender, subject := subject, date := date, to := to, cc := cc,
                  messageId := messageId, inReplyTo := inReplyTo, references := references);
  }

  /** What ProcessMimePart reads before it decides. */
  method ReadPart(raw: string) returns (p: PartView)
    ensures p == View(raw)
  {
    hide SplitBlock, HeaderValue, Contains, QuotedPrintable, Name;
    var (headers, body) := SplitBlock(raw);
    var contentType := GetHeaderValue(headers, Name(ContentType));
    var disposition := GetHeaderValue(headers, Name(Disposition));
    var encoding := GetHeaderValue(headers, Name(TransferEncoding));
    if Contains(ToLower(encoding), "quoted-printable") {
      body := DecodeQuotedPrintable(body);
    }
    p := PartView(headers, contentType, ToLower(disposition), ToLower(encoding), body);
  }

  method ParseEmail(raw: string, email: Email) returns (ok: bool, out: Email)
    ensures (ok, out) == Parse(raw, email)
  {
    hide SplitBlock, HeaderValue, ExtractBoundary, ExtractCharset, Contains, ProcessBody, MainHeaders, SingleText;
    if raw == "" {
      return false, email;
    }
    var (headers, body) := SplitBlock(raw);
    out := ParseMainHeaders(headers, email);
    var contentType := GetHeaderValue(headers, Name(ContentType));
    var lower := ToLower(contentType);
    ok := true;
    if Contains(lower, "multipart") {
      var boundary := ExtractBoundary(contentType);
      if boundary == "" {
        return false, out.(plainText := body);
      }
      if Contains(lower, "multipart/mixed") {
        out := out.(boundaryMixed := boundary);
      } else if Contains(lower, "multipart/alternative") {
        out := out.(boundaryAlternative := boundary);
      }
      out := ParseMultipartBody(body, boundary, out);
    } else {
      var header := GetHeaderValue(headers, Name(TransferEncoding));
      var encoding := ToLower(header);
      out := out.(plainEncoding := if encoding == "" then "7bit" else encoding);
      var charset := ExtractCharset(contentType);
      if charset != "" {
        out := out.(charset := charset);
      }
      out := out.(plainText := SingleText(encoding, body));
    }
  }
}

/** Whole messages through MimeBuilder::BuildEmail and MimeParser::ParseEmail. */
module MimeMessage {
  import opened Text
  import opened Wrappers
  import opened Base64
  import opened StringUtils
  import opened MimeEncoder
  import opened MimeDecoder
  import opened MimeHeaders
  import opened HeaderBlock
  import opened Multipart
  import opened MimeParser
  import opened MimeBuilder
  import opened MimeRoundTrip

  // ------------------------------------------------------------------ addresses

  /** The scanner's state behind an address; None where a comma would cut it. */
  function Scanned(a: string, s: Scan): Option<Scan>
    decreases |a|
  {
    if a == "" then Some(s)
    else if Separates(s, a[0]) then None
    else Scanned(a[1..], Step(s, a[0]))
  }

  /** Quotes and angle brackets close, and no comma stands outside them. */
  predicate GoodAddress(a: string) {
    a != "" && Trimmed(a) && Scanned(a, OUTSIDE) == Some(OUTSIDE)
  }

  predicate GoodAddresses(addresses: seq<string>) {
    forall i :: 0 <= i < |addresses| ==> GoodAddress(addresses[i])
  }

  lemma {:induction false} ScansOver(a: string, s: Scan, rest: string, current: string)
    requires Scanned(a, s).Some?
    ensures SplitFrom(a + rest, s, current) == SplitFrom(rest, Scanned(a, s).value, current + a)
    decreases |a|
  {
    if a == "" {
      assert a + rest == rest && current + a == current;
    } else {
      assert (a + rest)[0] == a[0] && (a + rest)[1..] == a[1..] + rest;
      ScansOver(a[1..], Step(s, a[0]), rest, current + [a[0]]);
      assert current + [a[0]] + a[1..] == current + a;
    }
  }

  lemma CommaCuts(rest: string, current: string)
    ensures SplitFrom(", " + rest, OUTSIDE, current) == Push([], current) + SplitFrom(rest, OUTSIDE, " ")
  {
    hide Push, Trim;
    var t := ", " + rest;
    assert t[0] == ',' && t[1..] == " " + rest && (" " + rest)[1..] == rest;
    assert "" + [' '] == " ";
  }

  lemma PushTrimmed(a: string, current: string)
    requires a != "" && Trimmed(a) && (current == "" || current == " ")
    ensures Push([], current + a) == [a]
  {
    if current == "" {
      assert current + a == a;
      TrimId(a);
    } else {
      TrimOneSpace(a, ' ');
    }
  }

  /** A joined list of addresses is split into the same list. */
  lemma {:induction false} AddressesBack(addresses: seq<string>, current: string)
    requires addresses != [] && GoodAddresses(addresses) && (current == "" || current == " ")
    ensures SplitFrom(Join(addresses, ", "), OUTSIDE, current) == addresses
    decreases |addresses|
  {
    hide SplitFrom, Scanned, Trimmed, Push;
    var a := addresses[0];
    assert GoodAddress(a);
    PushTrimmed(a, current);
    if |addresses| == 1 {
      ScansOver(a, OUTSIDE, "", current);
      assert a + "" == a;
      EndCuts(current + a);
    } else {
      var rest := Join(addresses[1..], ", ");
      ScansOver(a, OUTSIDE, ", " + rest, current);
      Assoc(a, ", ", rest);
      CommaCuts(rest, current + a);
      AddressesBack(addresses[1..], " ");
      assert [a] + addresses[1..] == addresses;
    }
  }

  lemma EndCuts(current: string)
    ensures SplitFrom("", OUTSIDE, current) == Push([], current)
  {
  }

  // --------------------------------------------------------- nested alternatives

  lemma DelimitersDiffer(a: string, b: string)
    requires IsBoundary(a) && IsBoundary(b) && a != b
    ensures NoOccur("--" + a, "--" + b) && NoOccur("--" + a + "--", "--" + b)
  {
    var d, s, t := "--" + b, "--" + a, "--" + a + "--";
    assert a[4] == a[..11][4] == '=' && forall i :: 0 <= i < 4 ==> b[i] == b[..11][i] == '-';
    assert t[6] == '=' && d[5] == '-' && d[4] == '-';
    assert s[2..] == a && d[2..] == b;
    forall j: nat | j + 37 <= |t| ensures !MatchAt(t, d, j) {
      if j == 0 {
        assert t[0..37] == s;
      } else {
        assert t[j..j + 37][6 - j] == t[6];
      }
    }
    forall j: nat | j + 37 <= |s| ensures !MatchAt(s, d, j) {
      assert s[0..37] == s;
    }
  }

  /** A text that ends its line, followed by another. */
  lemma LackJoined(a: string, b: string, d: string)
    requires IsDelimiter(d) && Separable(a, d) && a[|a| - 1] == '\n' && NoOccur(b, d)
    ensures NoOccur(a + b, d)
  {
    var init := a[..|a| - 1];
    NoOccurSub(a, d, 0, |a| - 1);
    assert a[0..|a| - 1] == init;
    hide NoOccur;
    assert '\n' !in d by {
      assert IsSpace('\n');
    }
    NoOccurSep(init, '\n', b, d);
    assert init + ['\n'] + b == a + b;
  }

  /** A part with its own delimiter before it, and more behind it. */
  lemma DelimitedLacks(inner: string, part: string, rest: string, d: string)
    requires IsDelimiter(d) && NoOccur(inner, d) && Separable(part, d) && part[|part| - 1] == '\n' && NoOccur(rest, d)
    ensures NoOccur(inner + "\r\n" + part + rest, d)
  {
    LackJoined(part, rest, d);
    hide NoOccur, Separable;
    NoOccurAcrossBreak(inner, part + rest, d);
    assert inner + "\r\n" + part + rest == inner + "\r\n" + (part + rest);
  }

  lemma PartsEndLines(text: string, html: string)
    ensures TextPart(text) != "" && TextPart(text)[|TextPart(text)| - 1] == '\n'
    ensures HtmlPart(html) != "" && HtmlPart(html)[|HtmlPart(html)| - 1] == '\n'
  {
    hide BlockText, WrapText, ToBase64;
  }

  lemma AlternativeBodyLacks(email: Email, drawn: Drawn, d: string)
    requires IsDelimiter(d) && NoOccur(email.plainText, d)
    requires NoOccur("--" + drawn.alternative, d) && NoOccur("--" + drawn.alternative + "--", d)
    ensures NoOccur(AlternativeBody(email, drawn), d)
  {
    AlternativeBodyIs(email, drawn);
    PartsEndLines(email.plainText, email.htmlText);
    hide NoOccur, IsDelimiter, Separable, TextPart, HtmlPart, AlternativeBody;
    TextPartSeparable(email.plainText, d);
    HtmlPartSeparable(email.htmlText, d);
    var inner, t, h := "--" + drawn.alternative, TextPart(email.plainText), HtmlPart(email.htmlText);
    LineEndLacks(inner + "--", d);
    assert inner + "--" + "\r\n" == inner + "--\r\n";
    DelimitedLacks(inner, h, inner + "--\r\n", d);
    DelimitedLacks(inner, t, inner + "\r\n" + h + (inner + "--\r\n"), d);
    Regrouped(inner + "\r\n" + t, inner + "\r\n" + h, inner + "--\r\n");
  }

  lemma Regrouped(a: string, b: string, c: string)
    ensures a + (b + c) == a + b + c
  {
  }

  // ------------------------------------------------------------ boundary headers

  /** A multipart type with its boundary, in front of which nothing looks like a parameter. */
  function MultipartType(front: string, boundary: string): string {
    front + "boundary=" + "\"" + boundary + "\""
  }

  lemma AlternativeTypeIs(boundary: string)
    ensures AlternativeFields(boundary) == [Field(ContentType, [MultipartType("multipart/alternative; ", boundary)])]
    ensures MixedFields(boundary) == [Field(ContentType, [MultipartType("multipart/mixed; ", boundary)])]
  {
    assert "multipart/alternative; boundary=\"" == "multipart/alternative; " + "boundary=" + "\"";
    assert "multipart/mixed; boundary=\"" == "multipart/mixed; " + "boundary=" + "\"";
  }

  /** The two fronts that BuildEmail prints. */
  predicate MultipartFront(front: string) {
    && SmallLetters(front) && |front| > 9 && front[..9] == "multipart" && front[|front| - 1] == ' ' && 'b' !in front
    && '_' !in front && !IsSpace(front[0])
  }

  lemma FrontsAre()
    ensures MultipartFront("multipart/alternative; ") && MultipartFront("multipart/mixed; ")
  {
    AlternativeFront();
    MixedFront();
    hide MultipartFront;
  }

  lemma AlternativeFront()
    ensures MultipartFront("multipart/alternative; ")
  {
    assert "multipart/alternative; "[..9] == "multipart";
  }

  lemma MixedFront()
    ensures MultipartFront("multipart/mixed; ")
  {
    assert "multipart/mixed; "[..9] == "multipart";
  }

  lemma BoundaryChars(b: string)
    requires IsBoundary(b)
    ensures OneLine(b) && '"' !in b && b != "" && Trimmed(b)
  {
    assert forall i :: 0 <= i < 11 ==> b[i] == b[..11][i];
  }

  lemma MultipartTypeShape(front: string, boundary: string)
    requires MultipartFront(front) && IsBoundary(boundary)
    ensures GoodPieces([MultipartType(front, boundary)])
  {
    BoundaryChars(boundary);
    SmallLettersMean(front);
    hide SmallLetters, IsBoundary;
    var s := MultipartType(front, boundary);
    assert s[0] == front[0] && s[|s| - 1] == '"';
  }

  lemma MultipartTypeLower(front: string, boundary: string)
    requires MultipartFront(front)
    ensures ToLower(MultipartType(front, boundary)) == front + "boundary=" + ToLower("\"" + boundary + "\"")
  {
    SmallLettersMean(front);
    LowerSame("boundary=");
    LowerConcat(front, "boundary=");
    LowerConcat(front + "boundary=", "\"" + boundary + "\"");
    assert MultipartType(front, boundary) == front + "boundary=" + ("\"" + boundary + "\"");
  }

  lemma MultipartTypeRead(front: string, boundary: string)
    requires MultipartFront(front) && IsBoundary(boundary)
    ensures Contains(ToLower(MultipartType(front, boundary)), "multipart")
    ensures ExtractBoundary(MultipartType(front, boundary)) == boundary
  {
    BoundaryChars(boundary);
    MultipartTypeLower(front, boundary);
    var tail := ToLower("\"" + boundary + "\"");
    assert front == "multipart" + front[9..];
    assert front + "boundary=" + tail == "multipart" + (front[9..] + "boundary=" + tail);
    hide Contains, Find, ParameterAt, SmallLetters, IsBoundary, ToLower;
    ContainsPrefix("multipart", front[9..] + "boundary=" + tail);
    ParameterFound(front, "boundary=", tail);
    QuotedParameter(front + "boundary=", boundary);
    TrimId(boundary);
  }

  lemma MultipartTypeLacks(front: string, boundary: string, d: string)
    requires MultipartFront(front) && IsBoundary(boundary) && IsDelimiter(d)
    ensures NoOccur(MultipartType(front, boundary), d)
  {
    ShortNoOccur(boundary, d);
    assert '_' !in front + "boundary=";
    LacksUnderscore(front + "boundary=", d);
    hide NoOccur, IsDelimiter, IsBoundary;
    QuotedLacks(front + "boundary=", boundary, d);
  }

  // ----------------------------------------------------------- the nested part

  lemma OneTypeField(type_: string)
    requires GoodPieces([type_])
    ensures var fields := [Field(ContentType, [type_])];
            && GoodFields(fields) && ValueIn(fields, ContentType) == type_
            && ValueIn(fields, Disposition) == "" && ValueIn(fields, TransferEncoding) == ""
  {
    assert [Field(ContentType, [type_])][1..] == [];
  }

  lemma AlternativeParts(email: Email, drawn: Drawn, tail: string)
    requires IsBoundary(drawn.alternative) && NoOccur(email.plainText, "--" + drawn.alternative)
    ensures Parts(AlternativeBody(email, drawn) + tail, "--" + drawn.alternative)
         == [TextPart(email.plainText), HtmlPart(email.htmlText)]
  {
    var d := "--" + drawn.alternative;
    DelimiterOf(drawn.alternative);
    hide NoOccur, IsDelimiter, IsBoundary, TextPart, HtmlPart, MultipartBody, Separable, Parts;
    TextPartSeparable(email.plainText, d);
    HtmlPartSeparable(email.htmlText, d);
    PartsOfBody(drawn.alternative, [TextPart(email.plainText), HtmlPart(email.htmlText)], tail);
  }

  /** Both alternatives are taken into the Email. */
  function WithAlternatives(email: Email, e: Email): Email {
    e.(plainEncoding := "8bit", plainText := WrapText(email.plainText, 998) + "\r\n", charset := "utf-8",
       htmlEncoding := "base64", htmlText := email.htmlText)
  }

  lemma AlternativesProcessed(email: Email, drawn: Drawn, tail: string, e: Email)
    requires IsBoundary(drawn.alternative) && NoOccur(email.plainText, "--" + drawn.alternative)
    requires IsOctets(email.htmlText) && |email.htmlText| <= MAX_FILE_SIZE
    ensures ProcessBody(AlternativeBody(email, drawn) + tail, "--" + drawn.alternative, e) == WithAlternatives(email, e)
  {
    hide NoOccur, IsBoundary, TextPart, HtmlPart, AlternativeBody, ProcessBody, ProcessPart, WrapText, Parts,
        ProcessAll;
    var d, t, h := "--" + drawn.alternative, TextPart(email.plainText), HtmlPart(email.htmlText);
    AlternativeParts(email, drawn, tail);
    ProcessBodyIsAll(AlternativeBody(email, drawn) + tail, d, e);
    ProcessCons(t, [h], e);
    assert [t] + [h] == [t, h];
    TextPartProcessed(email.plainText, e);
    var e1 := ProcessPart(t, e);
    ProcessCons(h, [], e1);
    assert [h] + [] == [h];
    HtmlPartProcessed(email.htmlText, e1);
    ProcessNone(ProcessPart(h, e1));
  }

  lemma AlternativeFieldsGood(boundary: string)
    requires IsBoundary(boundary)
    ensures var fields := AlternativeFields(boundary);
            && fields != [] && GoodFields(fields) && ValueIn(fields, Disposition) == ""
            && ValueIn(fields, TransferEncoding) == ""
            && ValueIn(fields, ContentType) == MultipartType("multipart/alternative; ", boundary)
  {
    AlternativeTypeIs(boundary);
    FrontsAre();
    hide AlternativeFields, MultipartType, IsBoundary, MultipartFront;
    MultipartTypeShape("multipart/alternative; ", boundary);
    OneTypeField(MultipartType("multipart/alternative; ", boundary));
  }

  /** The alternative as the first part of a mixed message. */
  function AlternativePart(email: Email, drawn: Drawn): string {
    BlockText(AlternativeFields(drawn.alternative)) + "\r\n" + (AlternativeBody(email, drawn) + "\r\n")
  }

  ghost predicate GoodBodies(email: Email, drawn: Drawn) {
    && IsBoundary(drawn.mixed) && IsBoundary(drawn.alternative) && drawn.mixed != drawn.alternative
    && NoOccur(email.plainText, "--" + drawn.mixed) && NoOccur(email.plainText, "--" + drawn.alternative)
    && IsOctets(email.htmlText) && |email.htmlText| <= MAX_FILE_SIZE
  }

  lemma SaysAlternative(boundary: string)
    ensures Contains(ToLower(MultipartType("multipart/alternative; ", boundary)), "multipart/alternative")
  {
    FrontsAre();
    MultipartTypeLower("multipart/alternative; ", boundary);
    hide Contains, ToLower, MultipartType, MultipartFront;
    var tail := "boundary=" + ToLower("\"" + boundary + "\"");
    ContainsPrefix("multipart/alternative", "; " + tail);
    assert "multipart/alternative; " == "multipart/alternative" + "; ";
    assert "multipart/alternative; " + tail == "multipart/alternative" + ("; " + tail);
    assert "multipart/alternative; " + "boundary=" + ToLower("\"" + boundary + "\"")
        == "multipart/alternative; " + tail;
  }

  lemma AlternativePartProcessed(email: Email, drawn: Drawn, e: Email)
    requires GoodBodies(email, drawn)
    ensures ProcessPart(AlternativePart(email, drawn), e)
         == WithAlternatives(email, e.(boundaryAlternative := drawn.alternative))
  {
    SaysAlternative(drawn.alternative);
    AlternativeFieldsGood(drawn.alternative);
    FrontsAre();
    NothingIn("quoted-printable");
    EightBit();
    var fields, body := AlternativeFields(drawn.alternative), AlternativeBody(email, drawn) + "\r\n";
    var type_ := MultipartType("multipart/alternative; ", drawn.alternative);
    MultipartTypeRead("multipart/alternative; ", drawn.alternative);
    BoundaryChars(drawn.alternative);
    hide NoOccur, IsBoundary, AlternativeBody, ProcessBody, WithAlternatives, View, BlockText, AlternativeFields,
      ValueIn, GoodFields,
      Contains, ExtractBoundary, MultipartType, MultipartFront, IsOctets;
    ViewOf(fields, body);
    var p := View(AlternativePart(email, drawn));
    assert p.Nested() && ExtractBoundary(p.contentType) == drawn.alternative;
    AlternativesProcessed(email, drawn, "\r\n", NoteAlternative(p, e));
  }

  lemma AlternativePartSeparable(email: Email, drawn: Drawn)
    requires GoodBodies(email, drawn)
    ensures Separable(AlternativePart(email, drawn), "--" + drawn.mixed)
  {
    var d := "--" + drawn.mixed;
    AlternativeFieldsGood(drawn.alternative);
    AlternativeTypeIs(drawn.alternative);
    FrontsAre();
    DelimiterOf(drawn.mixed);
    DelimitersDiffer(drawn.alternative, drawn.mixed);
    MultipartTypeLacks("multipart/alternative; ", drawn.alternative, d);
    AlternativeBodyLacks(email, drawn, d);
    LineEndLacks(AlternativeBody(email, drawn), d);
    var body := AlternativeBody(email, drawn) + "\r\n";
    assert body[|body| - 1] == '\n';
    assert FieldsLack(AlternativeFields(drawn.alternative), d);
    hide *;
    BlockEnds(AlternativeFields(drawn.alternative), body, d);
    PartIs(email, drawn);
  }

  lemma PartIs(email: Email, drawn: Drawn)
    ensures AlternativePart(email, drawn)
         == BlockText(AlternativeFields(drawn.alternative)) + "\r\n" + (AlternativeBody(email, drawn) + "\r\n")
  {
  }

  // --------------------------------------------------------------- main headers

  /** The first field of a name, if any. */
  function First(fields: seq<Field>, g: HeaderName): Option<string> {
    if fields == [] then None
    else if fields[0].name == g then Some(Join(fields[0].pieces, " "))
    else First(fields[1..], g)
  }

  function Else(a: Option<string>, b: Option<string>): Option<string> {
    if a.Some? then a else b
  }

  lemma {:induction false} FirstConcat(a: seq<Field>, b: seq<Field>, g: HeaderName)
    ensures First(a + b, g) == Else(First(a, g), First(b, g))
  {
    hide Join;
    if a == [] {
      assert a + b == b;
    } else {
      assert (a + b)[0] == a[0] && (a + b)[1..] == a[1..] + b;
      FirstConcat(a[1..], b, g);
    }
  }

  lemma {:induction false} FirstIsValue(fields: seq<Field>, g: HeaderName)
    ensures ValueIn(fields, g) == if First(fields, g).Some? then First(fields, g).value else ""
  {
    hide Join;
    if fields != [] {
      FirstIsValue(fields[1..], g);
    }
  }

  lemma FirstOfOne(f: Field, g: HeaderName)
    ensures First([f], g) == if f.name == g then Some(Join(f.pieces, " ")) else None
    ensures First([], g) == None
  {
    hide Join;
    assert [f][1..] == [];
  }

  lemma FirstOfTwo(f: Field, h: Field, g: HeaderName)
    ensures First([f, h], g) == Else(First([f], g), First([h], g))
  {
    hide Join, First;
    FirstConcat([f], [h], g);
    assert [f] + [h] == [f, h];
  }

  /** A value on one line of its own. */
  predicate Value(v: string) {
    OneLine(v) && Trimmed(v)
  }

  /** Header values that come back. */
  ghost predicate GoodHeaders(email: Email, drawn: Drawn) {
    && Readable(email.subject) && PlainValue(email.sender)
    && email.to != [] && GoodAddresses(email.to) && PlainValue(Join(email.to, ", "))
    && GoodAddresses(email.cc) && PlainValue(Join(email.cc, ", "))
    && Value(drawn.date) && Value(MessageIdOf(email, drawn)) && Value(email.inReplyTo) && Value(email.references)
  }

  /** What a look-up in the main headers is to give. */
  function MainValue(email: Email, drawn: Drawn, g: HeaderName): Option<string>
    requires EncodableName(email.subject)
  {
    match g
    case MimeVersion => Some("1.0")
    case Date => Some(drawn.date)
    case Subject => if email.subject == "" then None else Some(Unfolded(email.subject))
    case From => Some(email.sender)
    case To => Some(Join(email.to, ", "))
    case Cc => if email.cc == [] then None else Some(Join(email.cc, ", "))
    case MessageId => Some(MessageIdOf(email, drawn))
    case InReplyTo => if email.inReplyTo == "" then None else Some(email.inReplyTo)
    case References => if email.references == "" then None else Some(email.references)
    case _ => None
  }

  lemma JoinOne(v: string)
    ensures Join([v], " ") == v
  {
  }

  lemma SimpleFirst(name: HeaderName, v: string, g: HeaderName)
    ensures First([Field(name, [v])], g) == if name == g then Some(v) else None
  {
    hide First, Join;
    FirstOfOne(Field(name, [v]), g);
    JoinOne(v);
  }

  lemma OptionalFirst(name: HeaderName, v: string, g: HeaderName)
    ensures First(Optional(name, v), g) == if name == g && v != "" then Some(v) else None
  {
    hide First;
    SimpleFirst(name, v, g);
    FirstOfOne(Field(name, [v]), g);
  }

  lemma SubjectFirst(subject: string, g: HeaderName)
    requires EncodableName(subject)
    ensures First(SubjectFields(subject), g) == if g == Subject && subject != "" then Some(Unfolded(subject)) else None
  {
    hide First, Join, Pieces;
    FirstOfOne(Field(Subject, Pieces(subject)), g);
  }

  lemma CcFirst(cc: seq<string>, g: HeaderName)
    ensures First(CcFields(cc), g) == if g == Cc && cc != [] then Some(Join(cc, ", ")) else None
  {
    hide First;
    SimpleFirst(Cc, Join(cc, ", "), g);
    FirstOfOne(Field(Cc, []), g);
  }

  lemma PairFirst(a: HeaderName, v: string, b: HeaderName, w: string, g: HeaderName)
    requires a != b
    ensures First([Field(a, [v]), Field(b, [w])], g) == if g == a then Some(v) else if g == b then Some(w) else None
  {
    hide First;
    FirstOfTwo(Field(a, [v]), Field(b, [w]), g);
    SimpleFirst(a, v, g);
    SimpleFirst(b, w, g);
  }

  lemma MainFirst(email: Email, drawn: Drawn, g: HeaderName)
    requires EncodableName(email.subject)
    ensures First(MainFields(email, drawn), g) == MainValue(email, drawn, g)
  {
    hide First, Unfolded, Join, SubjectFields, CcFields, Optional, EncodableName;
    var a := [Field(MimeVersion, ["1.0"]), Field(Date, [drawn.date])];
    var b := SubjectFields(email.subject);
    var c := [Field(From, [email.sender]), Field(To, [Join(email.to, ", ")])];
    var d := CcFields(email.cc);
    var e := [Field(MessageId, [MessageIdOf(email, drawn)])];
    var f, h := Optional(InReplyTo, email.inReplyTo), Optional(References, email.references);
    FirstConcat(a + b + c + d + e + f, h, g);
    FirstConcat(a + b + c + d + e, f, g);
    FirstConcat(a + b + c + d, e, g);
    FirstConcat(a + b + c, d, g);
    FirstConcat(a + b, c, g);
    FirstConcat(a, b, g);
    PairFirst(MimeVersion, "1.0", Date, drawn.date, g);
    SubjectFirst(email.subject, g);
    PairFirst(From, email.sender, To, Join(email.to, ", "), g);
    CcFirst(email.cc, g);
    SimpleFirst(MessageId, MessageIdOf(email, drawn), g);
    OptionalFirst(InReplyTo, email.inReplyTo, g);
    OptionalFirst(References, email.references, g);
  }

  lemma SimpleGood(name: HeaderName, v: string)
    requires Value(v)
    ensures GoodFields([Field(name, [v])])
  {
  }

  lemma WordsGood(pieces: seq<string>)
    requires CleanWords(pieces)
    ensures GoodPieces(pieces)
  {
    hide CleanWord;
    forall i | 0 <= i < |pieces| ensures GoodTail(pieces[i]) {
      WordIsTail(pieces[i]);
    }
  }

  lemma SubjectGood(subject: string)
    requires Readable(subject)
    ensures EncodableName(subject) && GoodFields(SubjectFields(subject))
  {
    ReadableEncodable(subject);
    hide NeedsEncoding, Utf8, NoOccur, HasQpArtifacts, CleanWords, GoodPieces, EncodableName;
    if NeedsEncoding(subject) {
      PiecesClean(subject);
      WordsGood(Pieces(subject));
    } else {
      assert Pieces(subject) == [subject];
      assert GoodPieces([subject]) by { SimplePieces(subject); }
    }
  }

  lemma SimplePieces(v: string)
    requires Value(v)
    ensures GoodPieces([v])
  {
  }

  lemma GoodConcat(a: seq<Field>, b: seq<Field>)
    requires GoodFields(a) && GoodFields(b)
    ensures GoodFields(a + b)
  {
    hide GoodPieces;
  }

  lemma VersionGood()
    ensures Value("1.0")
  {
  }

  lemma MainGood(email: Email, drawn: Drawn)
    requires GoodHeaders(email, drawn)
    ensures EncodableName(email.subject) && GoodFields(MainFields(email, drawn))
  {
    SubjectGood(email.subject);
    VersionGood();
    SimpleGood(MimeVersion, "1.0");
    SimpleGood(Date, drawn.date);
    SimpleGood(From, email.sender);
    SimpleGood(To, Join(email.to, ", "));
    SimpleGood(Cc, Join(email.cc, ", "));
    SimpleGood(MessageId, MessageIdOf(email, drawn));
    SimpleGood(InReplyTo, email.inReplyTo);
    SimpleGood(References, email.references);
    hide GoodPieces, Pieces, EncodableName, Join, MessageIdOf, GoodAddresses, Value, PlainValue, Readable;
    assert GoodFields(CcFields(email.cc)) && GoodFields(Optional(InReplyTo, email.inReplyTo))
          && GoodFields(Optional(References, email.references));
    hide GoodHeaders, CcFields, Optional, SubjectFields;
    var a := [Field(MimeVersion, ["1.0"]), Field(Date, [drawn.date])];
    var c := [Field(From, [email.sender]), Field(To, [Join(email.to, ", ")])];
    GoodConcat([Field(MimeVersion, ["1.0"])], [Field(Date, [drawn.date])]);
    assert a == [Field(MimeVersion, ["1.0"])] + [Field(Date, [drawn.date])];
    GoodConcat([Field(From, [email.sender])], [Field(To, [Join(email.to, ", ")])]);
    assert c == [Field(From, [email.sender])] + [Field(To, [Join(email.to, ", ")])];
    hide GoodFields;
    var s, k := SubjectFields(email.subject), CcFields(email.cc);
    var m := [Field(MessageId, [MessageIdOf(email, drawn)])];
    GoodConcat(a, s);
    GoodConcat(a + s, c);
    GoodConcat(a + s + c, k);
    GoodConcat(a + s + c + k, m);
    GoodConcat(a + s + c + k + m, Optional(InReplyTo, email.inReplyTo));
    GoodConcat(a + s + c + k + m + Optional(InReplyTo, email.inReplyTo), Optional(References, email.references));
  }

  /** The fields after the main headers only say what the body is. */
  ghost predicate ContentOnly(content: seq<Field>) {
    forall i :: 0 <= i < |content| ==> content[i].name == ContentType || content[i].name == TransferEncoding
  }

  lemma {:induction false} ContentFirst(content: seq<Field>, g: HeaderName)
    requires ContentOnly(content) && g != ContentType && g != TransferEncoding
    ensures First(content, g) == None
  {
    if content != [] {
      ContentFirst(content[1..], g);
    }
  }

  lemma WholeValue(email: Email, drawn: Drawn, content: seq<Field>, g: HeaderName)
    requires GoodHeaders(email, drawn) && EncodableName(email.subject) && ContentOnly(content)
    ensures var main := MainValue(email, drawn, g);
            ValueIn(MainFields(email, drawn) + content, g)
            == if g == ContentType || g == TransferEncoding then ValueIn(content, g)
              else if main.Some? then main.value else ""
  {
    hide GoodHeaders, MainFields, First, ValueIn, EncodableName, MessageIdOf, Unfolded, Join, ContentOnly;
    var main := MainFields(email, drawn);
    FirstConcat(main, content, g);
    MainFirst(email, drawn, g);
    FirstIsValue(main + content, g);
    FirstIsValue(content, g);
    if g != ContentType && g != TransferEncoding {
      ContentFirst(content, g);
    }
  }

  /** An Email with the headers of the message that was built. */
  function WithHeaders(email: Email, drawn: Drawn, e: Email): Email {
    e.(sender := email.sender, subject := email.subject, date := drawn.date, to := email.to, cc := email.cc,
       messageId := MessageIdOf(email, drawn), inReplyTo := email.inReplyTo, references := email.references)
  }

  lemma NoAddresses()
    ensures SplitFrom("", OUTSIDE, "") == [] && Join([], ", ") == ""
  {
    assert Trim("") == "";
  }

  lemma AddressListBack(addresses: seq<string>)
    requires GoodAddresses(addresses) && PlainValue(Join(addresses, ", "))
    ensures SplitFrom(DecodeEncodedWord(Join(addresses, ", ")), OUTSIDE, "") == addresses
  {
    PlainHeader(Join(addresses, ", "));
    hide DecodeEncodedWord, SplitFrom, NoOccur;
    if addresses == [] {
      NoAddresses();
    } else {
      AddressesBack(addresses, "");
    }
  }

  lemma EmptyUnfolded()
    ensures EncodableName("") && Unfolded("") == ""
  {
  }

  function OrEmpty(v: Option<string>): string {
    if v.Some? then v.value else ""
  }

  /** The whole header block of a message. */
  function AllFields(email: Email, drawn: Drawn, content: seq<Field>): seq<Field>
    requires EncodableName(email.subject)
  {
    MainFields(email, drawn) + content
  }

  lemma AllFieldsGood(email: Email, drawn: Drawn, content: seq<Field>)
    requires GoodHeaders(email, drawn) && GoodFields(content)
    ensures EncodableName(email.subject) && GoodFields(AllFields(email, drawn, content))
            && AllFields(email, drawn, content) != []
  {
    MainGood(email, drawn);
    hide GoodFields, GoodHeaders, EncodableName;
    GoodConcat(MainFields(email, drawn), content);
  }

  lemma HeaderRead(email: Email, drawn: Drawn, content: seq<Field>, g: HeaderName)
    requires GoodHeaders(email, drawn) && EncodableName(email.subject) && ContentOnly(content) && GoodFields(content)
    requires g != ContentType && g != TransferEncoding
    ensures HeaderValue(Headers(AllFields(email, drawn, content)), Name(g)) == OrEmpty(MainValue(email, drawn, g))
  {
    AllFieldsGood(email, drawn, content);
    hide MainFields, GoodFields, GoodHeaders, Headers, HeaderValue, ValueIn, Name, BlockText, SplitBlock,
      MainValue, EncodableName, ContentOnly;
    BlockRoundTrip(AllFields(email, drawn, content), "", g);
    WholeValue(email, drawn, content, g);
  }

  lemma SubjectBack(subject: string)
    requires Readable(subject)
    ensures EncodableName(subject)
    ensures DecodeEncodedWord(if subject == "" then "" else Unfolded(subject)) == subject
  {
    hide DecodeEncodedWord, Unfolded, Readable;
    ReadBack(subject);
    EmptyUnfolded();
  }

  lemma CcBack(cc: seq<string>)
    requires GoodAddresses(cc) && PlainValue(Join(cc, ", "))
    ensures SplitFrom(DecodeEncodedWord(if cc == [] then "" else Join(cc, ", ")), OUTSIDE, "") == cc
  {
    hide DecodeEncodedWord, SplitFrom, PlainValue, GoodAddresses;
    AddressListBack(cc);
  }

  lemma MainValues(email: Email, drawn: Drawn)
    requires EncodableName(email.subject)
    ensures OrEmpty(MainValue(email, drawn, Subject)) == if email.subject == "" then "" else Unfolded(email.subject)
    ensures OrEmpty(MainValue(email, drawn, From)) == email.sender
    ensures OrEmpty(MainValue(email, drawn, To)) == Join(email.to, ", ")
    ensures OrEmpty(MainValue(email, drawn, Cc)) == if email.cc == [] then "" else Join(email.cc, ", ")
    ensures OrEmpty(MainValue(email, drawn, Date)) == drawn.date
    ensures OrEmpty(MainValue(email, drawn, MessageId)) == MessageIdOf(email, drawn)
    ensures OrEmpty(MainValue(email, drawn, InReplyTo)) == email.inReplyTo
    ensures OrEmpty(MainValue(email, drawn, References)) == email.references
  {
    hide Join, Unfolded, MessageIdOf, EncodableName;
  }

  lemma HeadersDecoded(email: Email, drawn: Drawn)
    requires GoodHeaders(email, drawn)
    ensures EncodableName(email.subject)
    ensures DecodeEncodedWord(if email.subject == "" then "" else Unfolded(email.subject)) == email.subject
    ensures DecodeEncodedWord(email.sender) == email.sender
    ensures SplitFrom(DecodeEncodedWord(Join(email.to, ", ")), OUTSIDE, "") == email.to
    ensures SplitFrom(DecodeEncodedWord(if email.cc == [] then "" else Join(email.cc, ", ")), OUTSIDE, "") == email.cc
  {
    hide DecodeEncodedWord, SplitFrom, Unfolded, Join, GoodAddresses, MessageIdOf, EncodableName, Value, NoOccur,
      HasQpArtifacts, NeedsEncoding, Utf8, Trimmed;
    SubjectBack(email.subject);
    PlainHeader(email.sender);
    AddressListBack(email.to);
    CcBack(email.cc);
  }

  lemma HeadersRead(email: Email, drawn: Drawn, content: seq<Field>, e: Email)
    requires GoodHeaders(email, drawn) && EncodableName(email.subject) && ContentOnly(content) && GoodFields(content)
    ensures MainHeaders(Headers(AllFields(email, drawn, content)), e) == WithHeaders(email, drawn, e)
  {
    HeadersDecoded(email, drawn);
    MainValues(email, drawn);
    hide AllFields, GoodFields, GoodHeaders, Headers, HeaderValue, Name, EncodableName, ContentOnly,
      DecodeEncodedWord, SplitFrom, Unfolded, Join, MessageIdOf,
      MainValue, OrEmpty;
    HeaderRead(email, drawn, content, From);
    HeaderRead(email, drawn, content, Subject);
    HeaderRead(email, drawn, content, Date);
    HeaderRead(email, drawn, content, To);
    HeaderRead(email, drawn, content, Cc);
    HeaderRead(email, drawn, content, MessageId);
    HeaderRead(email, drawn, content, InReplyTo);
    HeaderRead(email, drawn, content, References);
  }

  // ------------------------------------------------------------------ the bodies

  function ReceivedAll(attachments: seq<Attachment>): seq<Attachment> {
    if attachments == [] then [] else [Received(attachments[0])] + ReceivedAll(attachments[1..])
  }

  ghost predicate GoodAttachments(attachments: seq<Attachment>, d: string) {
    forall i :: 0 <= i < |attachments| ==> GoodAttachment(attachments[i], d) && EncodableName(attachments[i].name)
  }

  lemma {:induction false} AttachmentsProcessed(attachments: seq<Attachment>, d: string, e: Email)
    requires IsDelimiter(d) && GoodAttachments(attachments, d)
    ensures ProcessAll(AttachmentParts(attachments), e) == e.(attachments := e.attachments + ReceivedAll(attachments))
    ensures AllSeparable(AttachmentParts(attachments), d)
    decreases |attachments|
  {
    hide ProcessAll, IsDelimiter, GoodAttachment, EncodableName, Received, AttachmentPart, ProcessPart, Separable;
    if attachments == [] {
      ProcessNone(e);
      assert e.attachments + [] == e.attachments;
    } else {
      var a, rest := attachments[0], attachments[1..];
      AttachmentProcessed(a, d, e);
      AttachmentSeparable(a, d);
      ProcessCons(AttachmentPart(a), AttachmentParts(rest), e);
      AttachmentsProcessed(rest, d, ProcessPart(AttachmentPart(a), e));
      assert e.attachments + [Received(a)] + ReceivedAll(rest) == e.attachments + ([Received(a)] + ReceivedAll(rest));
    }
  }

  /** The body's share in the Email, whatever boundaries the parser noted besides. */
  ghost predicate BodyRead(email: Email, e: Email, r: Email, plain: string) {
    && r.plainText == plain && r.htmlText == (if email.htmlText == "" then e.htmlText else email.htmlText)
    && r.attachments == e.attachments + ReceivedAll(email.attachments)
    && (r.sender, r.subject, r.date) == (e.sender, e.subject, e.date)
    && (r.to, r.cc) == (e.to, e.cc)
    && (r.messageId, r.inReplyTo, r.references) == (e.messageId, e.inReplyTo, e.references)
  }

  lemma FirstPartRead(email: Email, drawn: Drawn, e: Email)
    requires GoodBodies(email, drawn)
    ensures Separable(FirstPart(email, drawn), "--" + drawn.mixed)
    ensures var r := ProcessPart(FirstPart(email, drawn), e);
            BodyRead(email.(attachments := []), e, r, WrapText(email.plainText, 998) + "\r\n")
  {
    DelimiterOf(drawn.mixed);
    var p := WrapText(email.plainText, 998) + "\r\n";
    var bare := email.(attachments := []);
    if email.htmlText == "" {
      hide Separable, TextPart, ProcessPart, WrapText, NoOccur, IsDelimiter, IsBoundary, BodyRead;
      TextPartSeparable(email.plainText, "--" + drawn.mixed);
      TextPartProcessed(email.plainText, e);
      TextRead(bare, e, p);
    } else {
      assert FirstPart(email, drawn) == AlternativePart(email, drawn);
      hide Separable, ProcessPart, WrapText, NoOccur, IsDelimiter, IsBoundary, AlternativePart, FirstPart,
        BodyRead, WithAlternatives;
      AlternativePartSeparable(email, drawn);
      AlternativePartProcessed(email, drawn, e);
      AlternativesRead(email, e, e.(boundaryAlternative := drawn.alternative));
    }
  }

  lemma TextRead(bare: Email, e: Email, p: string)
    requires bare.htmlText == "" && bare.attachments == []
    ensures BodyRead(bare, e, e.(plainEncoding := "8bit", plainText := p, charset := "utf-8"), p)
  {
    assert e.attachments + [] == e.attachments;
  }

  lemma AlternativesRead(email: Email, e: Email, e': Email)
    requires email.htmlText != "" && e' == e.(boundaryAlternative := e'.boundaryAlternative)
    ensures BodyRead(email.(attachments := []), e, WithAlternatives(email, e'), WrapText(email.plainText, 998) + "\r\n")
  {
    hide WrapText;
    assert e.attachments + [] == e.attachments;
  }

  lemma MixedParts(email: Email, drawn: Drawn)
    requires Encodable(email) && email.attachments != []
    ensures Body(email, drawn) + ""
            == MultipartBody(drawn.mixed, [FirstPart(email, drawn)] + AttachmentParts(email.attachments)) + ""
    ensures Body(email, drawn) + "" == Body(email, drawn)
  {
    hide MultipartBody, FirstPart, AttachmentParts;
  }

  lemma MixedRead(email: Email, drawn: Drawn, e: Email)
    requires Encodable(email) && GoodBodies(email, drawn) && email.attachments != []
    requires GoodAttachments(email.attachments, "--" + drawn.mixed)
    ensures BodyRead(email, e, ProcessBody(Body(email, drawn), "--" + drawn.mixed, e),
                     WrapText(email.plainText, 998) + "\r\n")
  {
    var d := "--" + drawn.mixed;
    DelimiterOf(drawn.mixed);
    MixedParts(email, drawn);
    FirstPartRead(email, drawn, e);
    hide *;
    var first, rest := FirstPart(email, drawn), AttachmentParts(email.attachments);
    var e1 := ProcessPart(first, e);
    AttachmentsProcessed(email.attachments, d, e1);
    SeparableCons(first, rest, d);
    PartsOfBody(drawn.mixed, [first] + rest, "");
    ProcessBodyIsAll(Body(email, drawn), d, e);
    ProcessCons(first, rest, e);
    ThenAttachments(email, e, e1, WrapText(email.plainText, 998) + "\r\n");
  }

  lemma SeparableCons(first: string, rest: seq<string>, d: string)
    requires Separable(first, d) && AllSeparable(rest, d)
    ensures AllSeparable([first] + rest, d)
  {
    hide Separable;
  }

  lemma ThenAttachments(email: Email, e: Email, e1: Email, plain: string)
    requires BodyRead(email.(attachments := []), e, e1, plain)
    ensures BodyRead(email, e, e1.(attachments := e1.attachments + ReceivedAll(email.attachments)), plain)
  {
    assert ReceivedAll([]) == [] && e.attachments + [] == e.attachments;
    hide ReceivedAll;
  }

  // ---------------------------------------------------------------- the message

  /** A message that comes back. Its boundaries matter where it is a multipart. */
  ghost predicate Recoverable(email: Email, drawn: Drawn) {
    && GoodHeaders(email, drawn) && |email.htmlText| <= MAX_FILE_SIZE
    && (email.htmlText != "" || email.attachments != [] ==> GoodBodies(email, drawn))
    && GoodAttachments(email.attachments, "--" + drawn.mixed)
  }

  lemma RecoverableEncodable(email: Email, drawn: Drawn)
    requires Recoverable(email, drawn)
    ensures Encodable(email)
  {
    MainGood(email, drawn);
  }

  /** ParseEmail on a multipart: its headers, then its parts. */
  lemma ParsesMultipart(raw: string, headers: string, body: string, type_: string, e: Email)
    requires raw != "" && SplitBlock(raw) == (headers, body) && HeaderValue(headers, Name(ContentType)) == type_
    requires Contains(ToLower(type_), "multipart") && ExtractBoundary(type_) != ""
    ensures exists e' :: Parse(raw, e) == (true, ProcessBody(body, "--" + ExtractBoundary(type_), e'))
                         && e' == MainHeaders(headers, e).(boundaryMixed := e'.boundaryMixed,
                           boundaryAlternative := e'.boundaryAlternative)
  {
    hide SplitBlock, HeaderValue, Contains, ToLower, ExtractBoundary, ProcessBody, MainHeaders, Name;
    var main, lower := MainHeaders(headers, e), ToLower(type_);
    var e' := if Contains(lower, "multipart/mixed") then main.(boundaryMixed := ExtractBoundary(type_))
              else if Contains(lower, "multipart/alternative") then main.(boundaryAlternative := ExtractBoundary(type_))
              else main;
    assert Parse(raw, e) == (true, ProcessBody(body, "--" + ExtractBoundary(type_), e'));
  }

  lemma ParsesText(raw: string, headers: string, body: string, e: Email)
    requires raw != "" && SplitBlock(raw) == (headers, body) && HeaderValue(headers, Name(ContentType)) == PlainType()
    requires HeaderValue(headers, Name(TransferEncoding)) == "8bit"
    ensures Parse(raw, e)
            == (true, MainHeaders(headers, e).(plainEncoding := "8bit", charset := "utf-8", plainText := body))
  {
    PlainTypeIs();
    PlainTypeTests();
    PlainCharset();
    EightBit();
    hide SplitBlock, HeaderValue, Contains, ToLower, ExtractCharset, ExtractBoundary, ProcessBody, MainHeaders,
      Name, PlainType;
    assert SingleText("8bit", body) == body;
  }

  /** The text that comes back: wrapped in a part, as it is when it is the whole body. */
  function TextBack(email: Email): string {
    if email.htmlText == "" && email.attachments == [] then email.plainText + "\r\n"
    else WrapText(email.plainText, 998) + "\r\n"
  }

  lemma ContentGood(email: Email, drawn: Drawn)
    requires Recoverable(email, drawn)
    ensures GoodFields(ContentFields(email, drawn)) && ContentOnly(ContentFields(email, drawn))
  {
    TextFieldsGood();
    ContentNamesOnly(drawn);
    if email.attachments != [] || email.htmlText != "" {
      assert IsBoundary(drawn.mixed) && IsBoundary(drawn.alternative);
      AlternativeFieldsGood(drawn.alternative);
      MixedFieldsGood(drawn.mixed);
    }
    hide GoodFields, ValueIn, Recoverable, ContentOnly, TextFields, AlternativeFields, MixedFields, IsBoundary;
  }

  lemma ContentNamesOnly(drawn: Drawn)
    ensures ContentOnly(TextFields()) && ContentOnly(AlternativeFields(drawn.alternative))
            && ContentOnly(MixedFields(drawn.mixed))
  {
  }

  lemma MixedFieldsGood(boundary: string)
    requires IsBoundary(boundary)
    ensures GoodFields(MixedFields(boundary))
            && ValueIn(MixedFields(boundary), ContentType) == MultipartType("multipart/mixed; ", boundary)
  {
    AlternativeTypeIs(boundary);
    FrontsAre();
    hide MixedFields, MultipartType, IsBoundary, MultipartFront;
    MultipartTypeShape("multipart/mixed; ", boundary);
    OneTypeField(MultipartType("multipart/mixed; ", boundary));
  }

  /** The message falls into its headers and its body, and the content headers can be looked up. */
  lemma MessageSplits(email: Email, drawn: Drawn, e: Email)
    requires Recoverable(email, drawn) && Encodable(email)
    ensures EncodableName(email.subject)
    ensures var content := ContentFields(email, drawn);
            var headers := Headers(AllFields(email, drawn, content));
            && Mime(email, drawn) != "" && SplitBlock(Mime(email, drawn)) == (headers, Body(email, drawn))
            && HeaderValue(headers, Name(ContentType)) == ValueIn(content, ContentType)
            && HeaderValue(headers, Name(TransferEncoding)) == ValueIn(content, TransferEncoding)
            && MainHeaders(headers, e) == WithHeaders(email, drawn, e)
  {
    ContentGood(email, drawn);
    var content := ContentFields(email, drawn);
    AllFieldsGood(email, drawn, content);
    var fields := AllFields(email, drawn, content);
    assert Mime(email, drawn) == BlockText(fields) + "\r\n" + Body(email, drawn);
    BlockRoundTrip(fields, Body(email, drawn), ContentType);
    BlockRoundTrip(fields, Body(email, drawn), TransferEncoding);
    WholeValue(email, drawn, content, ContentType);
    WholeValue(email, drawn, content, TransferEncoding);
    HeadersRead(email, drawn, content, e);
    hide *;
    NotEmpty(BlockText(fields), Body(email, drawn));
  }

  lemma NotEmpty(a: string, b: string)
    ensures a + "\r\n" + b != ""
  {
  }

  lemma TextMessage(email: Email, drawn: Drawn, e: Email)
    requires Recoverable(email, drawn) && Encodable(email) && email.htmlText == "" && email.attachments == []
    ensures Parse(Mime(email, drawn), e).0
    ensures BodyRead(email, WithHeaders(email, drawn, e), Parse(Mime(email, drawn), e).1, TextBack(email))
  {
    MessageSplits(email, drawn, e);
    TextFieldsGood();
    var headers := Headers(AllFields(email, drawn, ContentFields(email, drawn)));
    var main := WithHeaders(email, drawn, e);
    assert Body(email, drawn) == TextBack(email);
    TextRead(email, main, TextBack(email));
    ParsesText(Mime(email, drawn), headers, Body(email, drawn), e);
    hide *;
  }

  /** The boundary of the top-level multipart. */
  function TopBoundary(email: Email, drawn: Drawn): string {
    if email.attachments != [] then drawn.mixed else drawn.alternative
  }

  lemma BoundaryRead(front: string, boundary: string)
    requires MultipartFront(front) && IsBoundary(boundary)
    ensures var type_ := MultipartType(front, boundary);
            Contains(ToLower(type_), "multipart") && ExtractBoundary(type_) == boundary && boundary != ""
  {
    hide Contains, ExtractBoundary, MultipartType, MultipartFront, IsBoundary;
    MultipartTypeRead(front, boundary);
    BoundaryChars(boundary);
  }

  lemma TopTypeRead(email: Email, drawn: Drawn)
    requires IsBoundary(drawn.mixed) && IsBoundary(drawn.alternative)
            && (email.htmlText != "" || email.attachments != [])
    ensures var type_ := ValueIn(ContentFields(email, drawn), ContentType);
            && Contains(ToLower(type_), "multipart") && ExtractBoundary(type_) == TopBoundary(email, drawn)
            && TopBoundary(email, drawn) != ""
  {
    hide Contains, ExtractBoundary, MultipartType, MultipartFront, IsBoundary, ValueIn, GoodFields,
      AlternativeFields, MixedFields;
    FrontsAre();
    if email.attachments != [] {
      MixedFieldsGood(drawn.mixed);
      BoundaryRead("multipart/mixed; ", drawn.mixed);
    } else {
      AlternativeFieldsGood(drawn.alternative);
      BoundaryRead("multipart/alternative; ", drawn.alternative);
    }
  }

  lemma TopBodyRead(email: Email, drawn: Drawn, e: Email)
    requires Recoverable(email, drawn) && Encodable(email) && (email.htmlText != "" || email.attachments != [])
    ensures BodyRead(email, e, ProcessBody(Body(email, drawn), "--" + TopBoundary(email, drawn), e), TextBack(email))
  {
    hide GoodHeaders, GoodAttachments, NoOccur, IsBoundary, ProcessBody, BodyRead, WrapText, AlternativeBody,
      WithAlternatives, IsOctets;
    if email.attachments != [] {
      hide Body;
      MixedRead(email, drawn, e);
    } else {
      assert Body(email, drawn) + "" == Body(email, drawn);
      AlternativesProcessed(email, drawn, "", e);
      AlternativesRead(email, e, e);
      assert email.(attachments := []) == email;
    }
  }

  lemma MultipartMessage(email: Email, drawn: Drawn, e: Email)
    requires Recoverable(email, drawn) && Encodable(email) && (email.htmlText != "" || email.attachments != [])
    ensures Parse(Mime(email, drawn), e).0
    ensures BodyRead(email, WithHeaders(email, drawn, e), Parse(Mime(email, drawn), e).1, TextBack(email))
  {
    MessageSplits(email, drawn, e);
    assert IsBoundary(drawn.mixed) && IsBoundary(drawn.alternative);
    TopTypeRead(email, drawn);
    hide *;
    var content, main := ContentFields(email, drawn), WithHeaders(email, drawn, e);
    var headers, body := Headers(AllFields(email, drawn, content)), Body(email, drawn);
    ParsesMultipart(Mime(email, drawn), headers, body, ValueIn(content, ContentType), e);
    var e' :| Parse(Mime(email, drawn), e) == (true, ProcessBody(body, "--" + TopBoundary(email, drawn), e'))
              && e' == main.(boundaryMixed := e'.boundaryMixed, boundaryAlternative := e'.boundaryAlternative);
    TopBodyRead(email, drawn, e');
    Noted(email, main, e', Parse(Mime(email, drawn), e).1, TextBack(email));
  }

  /** The boundaries that the parser notes are no part of what is compared. */
  lemma Noted(email: Email, main: Email, e: Email, r: Email, plain: string)
    requires BodyRead(email, e, r, plain)
    requires e == main.(boundaryMixed := e.boundaryMixed, boundaryAlternative := e.boundaryAlternative)
    ensures BodyRead(email, main, r, plain)
  {
  }

  /** Build, then parse: sender, subject, date, the lists of addresses, the threading headers and the HTML come
      back exactly, the plain text with its wrapping and a line end, and every attachment in order, with its
      name and its data on one line. */
  lemma BuildParseRoundTrip(email: Email, drawn: Drawn)
    requires Recoverable(email, drawn)
    ensures Encodable(email)
    ensures var (ok, r) := Parse(Mime(email, drawn), NEW_EMAIL);
            && ok
            && r.sender == email.sender && r.to == email.to && r.cc == email.cc && r.subject == email.subject
            && r.date == drawn.date && r.messageId == MessageIdOf(email, drawn)
            && r.inReplyTo == email.inReplyTo && r.references == email.references
            && r.plainText == TextBack(email) && r.htmlText == email.htmlText
            && r.attachments == ReceivedAll(email.attachments)
  {
    RecoverableEncodable(email, drawn);
    hide Recoverable, Encodable, Mime, Parse, ReceivedAll, TextBack, MessageIdOf;
    if email.htmlText == "" && email.attachments == [] {
      TextMessage(email, drawn, NEW_EMAIL);
    } else {
      MultipartMessage(email, drawn, NEW_EMAIL);
    }
    var all := ReceivedAll(email.attachments);
    assert [] + all == all;
  }

  // ------------------------------------------------------------------ an instance

  /** A boundary as GenerateBoundary might draw it. */
  function SampleBoundary(c: char): string
    requires IsHexDigit(c)
  {
    "----=_Part_" + seq(24, i => c)
  }

  lemma SampleBoundaryGood(c: char)
    requires IsHexDigit(c)
    ensures IsBoundary(SampleBoundary(c))
  {
    var b := SampleBoundary(c);
    assert b[..11] == "----=_Part_";
    assert forall i :: 11 <= i < 35 ==> b[i] == c;
  }

  const SAMPLE_FILE := Attachment("a.txt", "text/plain", "aGk=", 2)

  const SAMPLE := NEW_EMAIL.(sender := "a@b", to := ["c@d"], plainText := "hi", htmlText := "<p>",
      attachments := [SAMPLE_FILE])

  /** A message of text alone. */
  const NOTE := NEW_EMAIL.(sender := "a@b", to := ["c@d"], plainText := "hi")

  const SAMPLE_DRAWN := Drawn("today", "<1@b>", SampleBoundary('0'), SampleBoundary('1'))

  lemma SampleAddress(v: string)
    requires |v| == 3 && v[1] == '@' && 'a' <= v[0] <= 'z' && 'a' <= v[2] <= 'z'
    ensures GoodAddress(v) && PlainValue(v)
  {
    assert v[1..][1..] == v[2..] && v[2..][1..] == "" && v[1..][0] == '@' && v[2..][0] == v[2];
    assert Scanned("", OUTSIDE) == Some(OUTSIDE);
    assert Scanned(v[2..], OUTSIDE) == Some(OUTSIDE);
    assert Scanned(v[1..], OUTSIDE) == Some(OUTSIDE);
    MissingCharNoOccur(v, "=?", '=');
  }

  /** The headers of both samples. */
  lemma SampleHeaders()
    ensures GoodHeaders(SAMPLE, SAMPLE_DRAWN) && GoodHeaders(NOTE, SAMPLE_DRAWN)
  {
    SampleAddress("a@b");
    SampleAddress("c@d");
    EmptyReadable();
    SampleValues();
    assert Join(["c@d"], ", ") == "c@d" && Join([], ", ") == "";
    hide PlainValue, Readable, Value, GoodAddress, SampleBoundary, Join;
  }

  lemma EmptyReadable()
    ensures PlainValue("") && Readable("") && Value("")
  {
    ShortNoOccur("", "=?");
  }

  lemma SampleValues()
    ensures Value("today") && Value("<1@b>")
  {
  }

  lemma SampleName()
    ensures PlainValue("a.txt") && !NeedsEncoding("a.txt") && '"' !in "a.txt" && Front("text/plain")
  {
    MissingCharNoOccur("a.txt", "=?", '=');
    assert "a.txt"[0] == 'a' && "text/plain"[0] == 't';
  }

  /** The type of the sample file has no `u`, so it is no multipart. */
  lemma SampleType(type_: string)
    requires type_ == "text/plain; name=\"a.txt\""
    ensures !Contains(ToLower(type_), "multipart")
  {
    assert "multipart"[1] == 'u';
    assert 'u' !in ToLower(type_);
    MissingCharNoOccur(ToLower(type_), "multipart", 'u');
    hide ToLower, Contains, NoOccur;
    ContainsIff(ToLower(type_), "multipart");
  }

  lemma SampleFile(d: string)
    requires |d| > 10
    ensures GoodAttachment(SAMPLE_FILE, d) && EncodableName(SAMPLE_FILE.name)
  {
    var a := SAMPLE_FILE;
    SampleName();
    ShortNoOccur("a.txt", d);
    ShortNoOccur("text/plain", d);
    ShortNoOccur("aGk=", d);
    hide NoOccur, NeedsEncoding, PlainValue, Contains, ToLower, Front, TypeByName;
    assert Readable(a.name);
    ReadableEncodable(a.name);
    assert Unfolded(a.name) == "a.txt";
    assert Quoted(TypeFront(a), a.name) == "text/plain; name=\"a.txt\"";
    SampleType(Quoted(TypeFront(a), a.name));
  }

  lemma SampleBodies()
    ensures GoodBodies(SAMPLE, SAMPLE_DRAWN)
  {
    SampleBoundaryGood('0');
    SampleBoundaryGood('1');
    assert SampleBoundary('0')[11] == '0' && SampleBoundary('1')[11] == '1';
    ShortNoOccur("hi", "--" + SampleBoundary('0'));
    ShortNoOccur("hi", "--" + SampleBoundary('1'));
    hide NoOccur, SampleBoundary, IsBoundary;
  }

  /** The hypotheses of the round trip can be met, here by a message with HTML and a file. */
  lemma SampleRecoverable()
    ensures Recoverable(SAMPLE, SAMPLE_DRAWN)
  {
    SampleHeaders();
    SampleBodies();
    SampleFile("--" + SampleBoundary('0'));
    var email, drawn := SAMPLE, SAMPLE_DRAWN;
    assert |email.htmlText| == 3 && email.attachments == [SAMPLE_FILE] && drawn.mixed == SampleBoundary('0');
    hide GoodHeaders, GoodBodies, SampleBoundary, GoodAttachment, SAMPLE_FILE;
  }
}

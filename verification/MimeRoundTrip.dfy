/** What MimeBuilder writes, MimeParser reads back. */
module MimeRoundTrip {
  import opened Text
  import opened Wrappers
  import opened Base64
  import opened StringUtils
  import opened MimeEncoder
  import opened MimeDecoder
  import opened MimeHeaders
  import opened HeaderBlock
  import opened Multipart
  import opened MimeParser
  import opened MimeBuilder

  // ----------------------------------------------------- cutting at delimiters

  /** A part that the delimiter cannot be confused with. */
  ghost predicate Separable(part: string, d: string) {
    NoOccur(part, d) && part != "" && part[0] != '-' && part[|part| - 1] !in d
  }

  ghost predicate AllSeparable(parts: seq<string>, d: string) {
    forall i :: 0 <= i < |parts| ==> Separable(parts[i], d)
  }

  /** The text behind a delimiter of a multipart body. */
  function AfterText(d: string, parts: seq<string>, tail: string): string {
    if parts == [] then "--\r\n" + tail else "\r\n" + parts[0] + (d + AfterText(d, parts[1..], tail))
  }

  lemma {:induction false} BodyIsAfterText(d: string, parts: seq<string>, tail: string)
    ensures Delimited(d, parts) + (d + "--\r\n") + tail == d + AfterText(d, parts, tail)
  {
    if parts == [] {
      assert "" + (d + "--\r\n") + tail == d + ("--\r\n" + tail);
    } else {
      BodyIsAfterText(d, parts[1..], tail);
      var rest := Delimited(d, parts[1..]);
      Shuffle(d, "\r\n", parts[0], rest, d + "--\r\n", tail);
      Assoc4(d, "\r\n", parts[0], rest + (d + "--\r\n") + tail);
    }
  }

  lemma Shuffle(d: string, crlf: string, part: string, rest: string, close: string, tail: string)
    ensures (d + crlf + part + rest) + close + tail == d + crlf + part + (rest + close + tail)
  {
  }

  lemma ClosingStops(d: string, tail: string)
    requires d != []
    ensures PartsAfter("--\r\n" + tail, d) == []
  {
    var t := "--\r\n" + tail;
    hide Find;
    assert t[0] == '-' && t[1] == '-' && Multipart.BreakLength(t) == 0 && t[0..] == t;
  }

  lemma SegmentIsPart(part: string, d: string, after: string)
    requires d != [] && Separable(part, d)
    ensures NextSegment("\r\n" + part + (d + after), d) == Part(part, after)
  {
    hide Find, NoOccur;
    var t := "\r\n" + part + (d + after);
    var u := part + (d + after);
    assert t[0] == '\r' && t[1] == '\n' && Multipart.BreakLength(t) == 2;
    assert t[2..] == u && u[0] == part[0];
    PartFound(part, d, after);
  }

  lemma PartFound(part: string, d: string, after: string)
    requires d != [] && NoOccur(part, d) && part != "" && part[|part| - 1] !in d
    ensures var u := part + (d + after);
            Find(u, d, 0) == |part| && u[..|part|] == part && u[|part| + |d|..] == after
  {
    hide Find, NoOccur;
    FindAfter("", part, d, after);
    Middle(part, d, after);
    Assoc(part, d, after);
    assert "" + part == part;
  }

  lemma {:induction false} PartsOfAfterText(d: string, parts: seq<string>, tail: string)
    requires d != [] && AllSeparable(parts, d)
    ensures PartsAfter(AfterText(d, parts, tail), d) == parts
    decreases |parts|
  {
    hide NextSegment, Separable;
    if parts == [] {
      ClosingStops(d, tail);
    } else {
      PartsOfAfterText(d, parts[1..], tail);
      SegmentIsPart(parts[0], d, AfterText(d, parts[1..], tail));
      assert [parts[0]] + parts[1..] == parts;
    }
  }

  /** A multipart body falls into the parts it was made of. */
  lemma PartsOfBody(boundary: string, parts: seq<string>, tail: string)
    requires AllSeparable(parts, "--" + boundary)
    ensures Parts(MultipartBody(boundary, parts) + tail, "--" + boundary) == parts
  {
    hide Find, PartsAfter, AfterText, Delimited, AllSeparable;
    var d := "--" + boundary;
    var after := AfterText(d, parts, tail);
    BodyIsAfterText(d, parts, tail);
    PartsOfAfterText(d, parts, tail);
    StartsHere(d, after);
    assert (d + after)[|d|..] == after;
  }

  lemma StartsHere(p: string, rest: string)
    requires p != []
    ensures Find(p + rest, p, 0) == 0
  {
    assert (p + rest)[0..|p|] == p;
  }

  // ----------------------------------------------------------------- delimiters

  /** The boundaries that GenerateBoundary draws. */
  predicate IsHexDigit(c: char) {
    '0' <= c <= '9' || 'a' <= c <= 'f'
  }

  predicate IsBoundary(b: string) {
    |b| == 35 && b[..11] == "----=_Part_" && forall i :: 11 <= i < 35 ==> IsHexDigit(b[i])
  }

  /** A delimiter: no blanks or quotes in it, an underscore, and long. */
  predicate IsDelimiter(d: string) {
    |d| == 37 && NoSpaces(d) && '"' !in d && ';' !in d && '_' in d
  }

  lemma DelimiterOf(b: string)
    requires IsBoundary(b)
    ensures IsDelimiter("--" + b)
  {
    var d := "--" + b;
    assert forall i :: 0 <= i < 11 ==> b[i] == b[..11][i];
    assert d[7] == b[5] == '_';
  }

  ghost predicate AllLack(pieces: seq<string>, d: string) {
    forall i :: 0 <= i < |pieces| ==> NoOccur(pieces[i], d)
  }

  lemma {:induction false} UnlinesLack(lines: seq<string>, tail: string, d: string)
    requires d != [] && NoSpaces(d) && AllLack(lines, d) && NoOccur(tail, d)
    ensures NoOccur(Unlines(lines) + tail, d)
    decreases |lines|
  {
    hide NoOccur, NoSpaces;
    if lines == [] {
      assert "" + tail == tail;
    } else {
      UnlinesLack(lines[1..], tail, d);
      NoOccurAcrossBreak(lines[0], Unlines(lines[1..]) + tail, d);
      assert lines[0] + "\r\n" + Unlines(lines[1..]) + tail == lines[0] + "\r\n" + (Unlines(lines[1..]) + tail);
    }
  }

  lemma NameIsShort(h: HeaderName)
    ensures |Name(h)| <= 25
  {
  }

  lemma HeaderLineLacks(h: HeaderName, piece: string, d: string)
    requires IsDelimiter(d) && NoOccur(piece, d)
    ensures NoOccur(Name(h) + ": " + piece, d)
  {
    NameIsShort(h);
    hide Name, NoOccur;
    ShortNoOccur(Name(h) + ":", d);
    assert ' ' !in d by {
      assert IsSpace(' ');
    }
    NoOccurSep(Name(h) + ":", ' ', piece, d);
    assert ": " == ":" + [' '];
    assert Name(h) + ": " + piece == Name(h) + ":" + [' '] + piece;
  }

  lemma {:induction false} TabbedLack(pieces: seq<string>, d: string)
    requires IsDelimiter(d) && AllLack(pieces, d)
    ensures AllLack(Tabbed(pieces), d)
  {
    hide NoOccur;
    if pieces != [] {
      TabbedLack(pieces[1..], d);
      ShortNoOccur("", d);
      assert '\t' !in d by {
        assert IsSpace('\t');
      }
      NoOccurSep("", '\t', pieces[0], d);
      assert "" + ['\t'] + pieces[0] == "\t" + pieces[0];
    }
  }

  ghost predicate FieldsLack(fields: seq<Field>, d: string) {
    forall i :: 0 <= i < |fields| ==> AllLack(fields[i].pieces, d)
  }

  lemma {:induction false} BlockLinesLack(fields: seq<Field>, d: string)
    requires IsDelimiter(d) && FieldsLack(fields, d)
    ensures AllLack(BlockLines(fields), d)
    decreases |fields|
  {
    hide NoOccur, IsDelimiter, Name;
    if fields != [] {
      BlockLinesLack(fields[1..], d);
      var f := fields[0];
      if f.pieces != [] {
        HeaderLineLacks(f.name, f.pieces[0], d);
        TabbedLack(f.pieces[1..], d);
      }
      assert AllLack(FieldLines(f), d);
    }
  }

  /** A part lacks the delimiter if the pieces of its headers and its body do. */
  lemma BlockLacks(fields: seq<Field>, body: string, d: string)
    requires GoodFields(fields) && IsDelimiter(d) && FieldsLack(fields, d) && NoOccur(body, d)
    ensures NoOccur(BlockText(fields) + "\r\n" + body, d)
  {
    BlockTextIsLines(fields);
    BlockLinesLack(fields, d);
    BreakThenBody(body, d);
    assert d != [] && NoSpaces(d);
    hide *;
    UnlinesLack(BlockLines(fields), "\r\n" + body, d);
    Assoc(BlockText(fields), "\r\n", body);
  }

  lemma BreakThenBody(body: string, d: string)
    requires IsDelimiter(d) && NoOccur(body, d)
    ensures NoOccur("\r\n" + body, d)
  {
    ShortNoOccur("", d);
    hide NoOccur;
    NoOccurAcrossBreak("", body, d);
    assert "" + "\r\n" + body == "\r\n" + body;
  }

  /** Behind a final line end a text still lacks the delimiter. */
  lemma LineEndLacks(s: string, d: string)
    requires IsDelimiter(d) && NoOccur(s, d)
    ensures NoOccur(s + "\r\n", d)
  {
    hide NoOccur;
    ShortNoOccur("", d);
    NoOccurAcrossBreak(s, "", d);
    assert s + "\r\n" + "" == s + "\r\n";
  }

  /** Blocks begin with a header name and end with their body. */
  lemma BlockEnds(fields: seq<Field>, body: string, d: string)
    requires fields != [] && GoodFields(fields) && IsDelimiter(d) && FieldsLack(fields, d) && NoOccur(body, d)
    requires body != "" && body[|body| - 1] == '\n'
    ensures Separable(BlockText(fields) + "\r\n" + body, d)
  {
    BlockLacks(fields, body, d);
    NameShape(fields[0].name);
    NameStart(fields[0].name);
    hide NoOccur, Name, FieldsLack, GoodFields;
    assert '\n' !in d by {
      assert IsSpace('\n');
    }
    var s := BlockText(fields) + "\r\n" + body;
    assert s[0] == Name(fields[0].name)[0];
  }

  lemma NameStart(h: HeaderName)
    ensures Name(h)[0] != '-'
  {
  }

  // -------------------------------------------------------------- small searches

  lemma LacksChar(s: string, p: string, c: char)
    requires c in p && c !in s
    ensures !Contains(s, p)
  {
    MissingCharNoOccur(s, p, c);
    ContainsIff(s, p);
  }

  lemma ContainsPrefix(p: string, rest: string)
    requires p != []
    ensures Contains(p + rest, p)
  {
    StartsHere(p, rest);
  }

  lemma LowerSame(s: string)
    requires forall i :: 0 <= i < |s| ==> !('A' <= s[i] <= 'Z')
    ensures ToLower(s) == s
  {
  }

  lemma LowerConcat(a: string, b: string)
    ensures ToLower(a + b) == ToLower(a) + ToLower(b)
  {
  }

  /** A quoted parameter is read up to its closing quote. */
  lemma QuotedParameter(front: string, v: string)
    requires '"' !in v
    ensures ParameterAt(front + "\"" + v + "\"", |front|) == v
  {
    hide FindChar;
    var s := front + "\"" + v + "\"";
    FindCharAfter(front + "\"", v, '"', "");
    assert front + "\"" + v + ['"'] + "" == s;
    assert s[|front|] == '"';
    Middle(front + "\"", v, "\"");
  }

  /** A parameter's name is found behind a text that lacks its first letter and ends in a blank. */
  lemma ParameterFound(front: string, key: string, rest: string)
    requires key != "" && front != "" && front[|front| - 1] == ' ' && ' ' !in key && key[0] !in front
    ensures Find(front + key + rest, key, 0) == |front|
  {
    MissingCharNoOccur(front, key, key[0]);
    hide Find, NoOccur;
    FindAfter("", front, key, rest);
    assert "" + front == front;
  }

  // ------------------------------------------------------------------ text part

  function PlainType(): string {
    "text/plain; charset=\"utf-8\""
  }

  lemma PlainTypeIs()
    ensures PlainType() == "text/plain; " + "charset=" + "\"" + "utf-8" + "\""
    ensures TextFields() == [Field(ContentType, [PlainType()]), Field(TransferEncoding, ["8bit"])]
    ensures SmallLetters(PlainType()) && 'm' !in PlainType()
    ensures OneLine(PlainType()) && Trimmed(PlainType()) && '_' !in PlainType() && ToLower(PlainType()) == PlainType()
  {
    PlainTypeLetters();
    SmallLettersMean(PlainType());
  }

  /** Letters that stay as they are in a header line: no capitals, no line ends, no underscore. */
  predicate SmallLetters(s: string) {
    forall i :: 0 <= i < |s| ==> ' ' <= s[i] <= 'z' && !('A' <= s[i] <= '_')
  }

  lemma SmallLettersMean(s: string)
    requires SmallLetters(s)
    ensures OneLine(s) && '_' !in s && ToLower(s) == s
  {
    LowerSame(s);
  }

  lemma PlainTypeLetters()
    ensures SmallLetters(PlainType())
  {
  }

  lemma PlainTypeTests()
    ensures !Contains(PlainType(), "multipart") && !Contains(PlainType(), "name=")
            && Contains(PlainType(), "text/plain")
  {
    PlainTypeIs();
    hide Contains;
    LacksChar(PlainType(), "multipart", 'm');
    LacksChar(PlainType(), "name=", 'm');
    ContainsPrefix("text/plain", "; charset=\"utf-8\"");
    assert "text/plain" + "; charset=\"utf-8\"" == PlainType();
  }

  lemma Utf8Charset(front: string, whole: string)
    requires whole == front + "charset=" + "\"" + "utf-8" + "\"" && ToLower(whole) == whole
    requires front != "" && front[|front| - 1] == ' ' && 'c' !in front
    ensures ExtractCharset(whole) == "utf-8"
  {
    hide Find, ParameterAt, ToLower, Trim;
    KeyAndValue();
    var key, v := "charset=", "utf-8";
    ParameterFound(front, key, "\"" + v + "\"");
    QuotedTail(front + key, "\"", v);
    QuotedParameter(front + key, v);
    TrimId(v);
  }

  lemma KeyAndValue()
    ensures ' ' !in "charset=" && "charset="[0] == 'c' && |"charset="| == 8 && '"' !in "utf-8" && Trimmed("utf-8")
  {
  }

  lemma QuotedTail(front: string, q: string, v: string)
    ensures front + (q + v + q) == front + q + v + q
  {
  }

  lemma PlainCharset()
    ensures ExtractCharset(PlainType()) == "utf-8"
  {
    PlainTypeIs();
    hide ExtractCharset;
    Utf8Charset("text/plain; ", PlainType());
  }

  lemma EightBit()
    ensures ToLower("8bit") == "8bit" && !Contains("8bit", "quoted-printable") && !Contains("8bit", "base64")
    ensures OneLine("8bit") && Trimmed("8bit") && ToLower("") == ""
  {
    LowerSame("8bit");
    LacksChar("8bit", "quoted-printable", 'q');
    LacksChar("8bit", "base64", 'a');
  }

  lemma TextFieldsGood()
    ensures GoodFields(TextFields())
    ensures ValueIn(TextFields(), ContentType) == PlainType() && ValueIn(TextFields(), TransferEncoding) == "8bit"
    ensures ValueIn(TextFields(), Disposition) == ""
  {
    PlainTypeIs();
    EightBit();
    hide PlainType;
    var fields := TextFields();
    assert GoodPieces([PlainType()]) && GoodPieces(["8bit"]);
    assert fields[1..] == [Field(TransferEncoding, ["8bit"])] && fields[1..][1..] == [];
  }

  /** What ProcessMimePart reads off a printed part. */
  lemma ViewOf(fields: seq<Field>, body: string)
    requires fields != [] && GoodFields(fields)
    requires !Contains(ToLower(ValueIn(fields, TransferEncoding)), "quoted-printable")
    ensures View(BlockText(fields) + "\r\n" + body)
         == PartView(Headers(fields), ValueIn(fields, ContentType), ToLower(ValueIn(fields, Disposition)),
                     ToLower(ValueIn(fields, TransferEncoding)), body)
  {
    hide BlockText, SplitBlock, HeaderValue, Headers, ValueIn, Contains, GoodFields, Name;
    BlockRoundTrip(fields, body, ContentType);
    BlockRoundTrip(fields, body, Disposition);
    BlockRoundTrip(fields, body, TransferEncoding);
  }

  lemma TextPartProcessed(text: string, e: Email)
    ensures ProcessPart(TextPart(text), e)
         == e.(plainEncoding := "8bit", plainText := WrapText(text, 998) + "\r\n", charset := "utf-8")
  {
    var body := WrapText(text, 998) + "\r\n";
    TextFieldsGood();
    EightBit();
    PlainTypeIs();
    PlainTypeTests();
    PlainCharset();
    NothingIn("attachment");
    NothingIn("filename=");
    hide WrapText, BlockText, View, Contains, ExtractCharset, PlainType, GoodFields, ValueIn, TextFields;
    ViewOf(TextFields(), body);
    var p := View(TextPart(text));
    assert !p.Nested() && !p.Attached();
  }

  lemma NothingIn(p: string)
    requires p != ""
    ensures !Contains("", p)
  {
  }

  // ------------------------------------------------------------------ HTML part

  function HtmlType(): string {
    "text/html; charset=\"utf-8\""
  }

  lemma HtmlTypeLetters()
    ensures SmallLetters(HtmlType())
  {
  }

  lemma HtmlTypeIs()
    ensures HtmlFields() == [Field(ContentType, [HtmlType()]), Field(TransferEncoding, ["base64"])]
    ensures 'p' !in HtmlType() && 'n' !in HtmlType() && Trimmed(HtmlType())
    ensures OneLine(HtmlType()) && '_' !in HtmlType() && ToLower(HtmlType()) == HtmlType()
  {
    HtmlTypeLetters();
    SmallLettersMean(HtmlType());
  }

  lemma HtmlTypeTests()
    ensures !Contains(HtmlType(), "multipart") && !Contains(HtmlType(), "name=") && !Contains(HtmlType(), "text/plain")
    ensures Contains(HtmlType(), "text/html")
  {
    HtmlTypeIs();
    HtmlTypeBegins();
    hide Contains, HtmlType;
    LacksChar(HtmlType(), "multipart", 'p');
    LacksChar(HtmlType(), "name=", 'n');
    LacksChar(HtmlType(), "text/plain", 'p');
  }

  lemma HtmlTypeBegins()
    ensures Contains(HtmlType(), "text/html")
  {
    hide Contains;
    ContainsPrefix("text/html", "; charset=\"utf-8\"");
    assert "text/html" + "; charset=\"utf-8\"" == HtmlType();
  }

  lemma Base64Name()
    ensures ToLower("base64") == "base64" && !Contains("base64", "quoted-printable") && Contains("base64", "base64")
    ensures OneLine("base64") && Trimmed("base64")
  {
    LowerSame("base64");
    LacksChar("base64", "quoted-printable", 'q');
    ContainsPrefix("base64", "");
    assert "base64" + "" == "base64";
  }

  lemma HtmlFieldsGood()
    ensures GoodFields(HtmlFields())
    ensures ValueIn(HtmlFields(), ContentType) == HtmlType() && ValueIn(HtmlFields(), TransferEncoding) == "base64"
    ensures ValueIn(HtmlFields(), Disposition) == ""
  {
    HtmlTypeIs();
    Base64Name();
    hide HtmlType;
    var fields := HtmlFields();
    assert GoodPieces([HtmlType()]) && GoodPieces(["base64"]);
    assert fields[1..] == [Field(TransferEncoding, ["base64"])] && fields[1..][1..] == [];
  }

  lemma StripLineEnd(s: string)
    ensures StripBreaks(s + "\r\n") == StripBreaks(s)
  {
    FilterConcat(s, "\r\n", NotLineBreak);
    assert Filter("\r\n", NotLineBreak) == "" by {
      assert "\r\n"[1..] == "\n" && "\n"[1..] == "";
    }
  }

  /** HTML goes through Base64 and comes back. */
  lemma HtmlDecodes(html: string)
    requires IsOctets(html) && |html| <= MAX_FILE_SIZE
    ensures DecodeBase64(StripBreaks(ToBase64(html) + "\r\n")) == Result.Ok(ToBytes(html))
    ensures FromBytes(ToBytes(html)) == html
  {
    hide StripBreaks, DecodeBase64, Encoded, Folded;
    StripLineEnd(ToBase64(html));
    DecodeStripped(ToBytes(html));
    BytesRoundTrip(html);
  }

  lemma HtmlPartProcessed(html: string, e: Email)
    requires IsOctets(html) && |html| <= MAX_FILE_SIZE
    ensures ProcessPart(HtmlPart(html), e) == e.(htmlEncoding := "base64", htmlText := html)
  {
    var body := ToBase64(html) + "\r\n";
    HtmlFieldsGood();
    Base64Name();
    HtmlTypeIs();
    HtmlTypeTests();
    HtmlDecodes(html);
    NothingIn("attachment");
    NothingIn("filename=");
    hide ToBase64, StripBreaks, DecodeBase64, FromBytes, ToBytes, BlockText, View, Contains, HtmlType, GoodFields,
      ValueIn, HtmlFields;
    ViewOf(HtmlFields(), body);
    var p := View(HtmlPart(html));
    assert !p.Nested() && !p.Attached();
  }

  // ---------------------------------------------------------------- attachments

  /** The characters of encoded words. */
  predicate WordChars(s: string) {
    forall i :: 0 <= i < |s| ==> IsCodeChar(s[i]) || s[i] == '?' || s[i] == '-'
  }

  lemma WordCharsMean(s: string)
    requires WordChars(s)
    ensures OneLine(s) && ':' !in s && '"' !in s && '_' !in s && ' ' !in s
  {
  }

  lemma WordFront()
    ensures WordChars("=?UTF-8?B?") && WordChars("?=")
  {
  }

  lemma WordClean(chunk: string)
    requires |chunk| <= 45
    ensures CleanWord(Word(chunk))
  {
    var data := ToBytes(chunk);
    EncodedLength(data);
    EncodedChars(data);
    hide Encoded;
    ShortFolded(Encoded(data));
    WordFront();
  }

  /** The pieces of an encoded header value. */
  ghost predicate CleanWords(pieces: seq<string>) {
    && pieces != []
    && forall i :: 0 <= i < |pieces| ==> CleanWord(pieces[i])
  }

  predicate CleanWord(w: string) {
    WordChars(w) && w != "" && w[0] == '=' && w[|w| - 1] == '='
  }

  lemma PiecesClean(text: string)
    requires NeedsEncoding(text) && Utf8(text)
    ensures Chunks(text, CHUNK).Some? && CleanWords(Pieces(text))
  {
    ChunksOfUtf8(text, CHUNK);
    var chunks := Chunks(text, CHUNK).value;
    assert text != "";
    hide Chunks, Utf8, Word, CleanWord;
    forall i | 0 <= i < |chunks| ensures CleanWord(Word(chunks[i])) {
      WordClean(chunks[i]);
    }
  }

  /** Header text that is neither encoded nor mistaken for something encoded. */
  ghost predicate PlainValue(v: string) {
    OneLine(v) && Trimmed(v) && NoOccur(v, "=?") && !HasQpArtifacts(v)
  }

  /** Header text that comes back: encoded as valid UTF-8, or plain. */
  ghost predicate Readable(v: string) {
    if NeedsEncoding(v) then Utf8(v) else PlainValue(v)
  }

  /** The value that the reader of an encoded text sees, folds undone. */
  function Unfolded(text: string): string
    requires EncodableName(text)
  {
    Join(Pieces(text), " ")
  }

  lemma ReadableEncodable(v: string)
    requires Readable(v)
    ensures EncodableName(v)
  {
    if NeedsEncoding(v) {
      PiecesClean(v);
    }
  }

  lemma ReadBack(v: string)
    requires Readable(v)
    ensures EncodableName(v) && DecodeEncodedWord(Unfolded(v)) == v
  {
    ReadableEncodable(v);
    PiecesJoin(v, " ");
    hide DecodeEncodedWord, EncodeHeader, Pieces, Utf8;
    if NeedsEncoding(v) {
      HeaderRoundTrip(v, " ", CHUNK);
    } else {
      PlainHeader(v);
      EncodePlain(v);
    }
  }

  lemma EncodePlain(v: string)
    requires !NeedsEncoding(v)
    ensures EncodeHeader(v, " ", CHUNK) == v
  {
  }

  lemma {:induction false} JoinWordChars(pieces: seq<string>)
    requires CleanWords(pieces)
    ensures var s := Join(pieces, " ");
            && s != "" && s[0] == '=' && s[|s| - 1] == '='
            && (forall i :: 0 <= i < |s| ==> IsCodeChar(s[i]) || s[i] == '?' || s[i] == '-' || s[i] == ' ')
  {
    hide IsCodeChar;
    if |pieces| > 1 {
      JoinWordChars(pieces[1..]);
    }
  }

  /** The front of a header line: it starts with something and stays on its line. */
  predicate Front(front: string) {
    front != "" && !IsSpace(front[0]) && OneLine(front)
  }

  lemma WordIsTail(w: string)
    requires CleanWord(w)
    ensures GoodTail(w) && GoodTail(w + "\"")
  {
    WordCharsMean(w);
  }

  lemma {:induction false} AroundTail(words: seq<string>)
    requires CleanWords(words)
    ensures GoodMore(Around("", words, "\""))
    decreases |words|
  {
    hide WordChars, GoodTail;
    WordIsTail(words[0]);
    assert "" + words[0] == words[0];
    if |words| > 1 {
      AroundTail(words[1..]);
    }
  }

  lemma AroundGood(before: string, words: seq<string>)
    requires CleanWords(words) && Front(before)
    ensures GoodPieces(Around(before, words, "\""))
  {
    WordCharsMean(words[0]);
    if |words| > 1 {
      AroundTail(words[1..]);
      hide WordChars;
      var first, rest := before + words[0], Around("", words[1..], "\"");
      assert first[|first| - 1] == words[0][|words[0]| - 1];
      var all := [first] + rest;
      assert forall i :: 1 <= i < |all| ==> all[i] == rest[i - 1];
    } else {
      hide WordChars;
    }
  }

  lemma AroundPlain(before: string, name: string)
    requires Front(before) && OneLine(name)
    ensures GoodPieces(Around(before, [name], "\""))
  {
    var s := before + name + "\"";
    assert s[0] == before[0] && s[|s| - 1] == '"';
  }

  lemma QuotedLacks(front: string, s: string, d: string)
    requires IsDelimiter(d) && NoOccur(front, d) && NoOccur(s, d)
    ensures NoOccur(front + "\"" + s, d) && NoOccur(s + "\"", d) && NoOccur(front + "\"" + s + "\"", d)
  {
    ShortNoOccur("", d);
    hide NoOccur;
    NoOccurSep(front, '"', s, d);
    NoOccurSep(s, '"', "", d);
    assert s + ['"'] + "" == s + "\"";
    NoOccurSep(front + "\"" + s, '"', "", d);
    assert front + "\"" + s + ['"'] + "" == front + "\"" + s + "\"";
  }

  lemma WordLacks(w: string, d: string)
    requires WordChars(w) && IsDelimiter(d)
    ensures NoOccur(w, d)
  {
    WordCharsMean(w);
    MissingCharNoOccur(w, d, '_');
  }

  lemma {:induction false} AroundTailLacks(words: seq<string>, d: string)
    requires CleanWords(words) && IsDelimiter(d)
    ensures AllLack(Around("", words, "\""), d)
    decreases |words|
  {
    ShortNoOccur("", d);
    hide WordChars, NoOccur, IsDelimiter;
    WordLacks(words[0], d);
    QuotedLacks("", words[0], d);
    assert "" + words[0] == words[0];
    if |words| > 1 {
      AroundTailLacks(words[1..], d);
    }
  }

  lemma AroundLacks(front: string, words: seq<string>, d: string)
    requires CleanWords(words) && IsDelimiter(d) && NoOccur(front, d)
    ensures AllLack(Around(front + "\"", words, "\""), d)
  {
    hide WordChars, NoOccur, IsDelimiter;
    WordLacks(words[0], d);
    QuotedLacks(front, words[0], d);
    if |words| > 1 {
      AroundTailLacks(words[1..], d);
    }
  }

  lemma AroundPlainLacks(front: string, name: string, d: string)
    requires IsDelimiter(d) && NoOccur(front, d) && NoOccur(name, d)
    ensures AllLack(Around(front + "\"", [name], "\""), d)
  {
    hide NoOccur, IsDelimiter;
    QuotedLacks(front, name, d);
  }

  /** A file name that comes back: encoded, or plain without a quote and without the delimiter. */
  ghost predicate GoodName(name: string, d: string) {
    name != "" && Readable(name) && (NeedsEncoding(name) || ('"' !in name && NoOccur(name, d)))
  }

  lemma NameFolds(name: string, front: string, d: string)
    requires IsDelimiter(d) && GoodName(name, d) && Front(front) && NoOccur(front, d)
    ensures EncodableName(name)
    ensures var pieces := Around(front + "\"", Pieces(name), "\"");
            GoodPieces(pieces) && AllLack(pieces, d) && Join(pieces, " ") == front + "\"" + Unfolded(name) + "\""
  {
    ReadableEncodable(name);
    PiecesNotEmpty(name);
    if NeedsEncoding(name) {
      PiecesClean(name);
      hide Pieces, NoOccur, IsDelimiter, CleanWords, Around, Utf8;
      AroundGood(front + "\"", Pieces(name));
      AroundLacks(front, Pieces(name), d);
      AroundJoin(front + "\"", Pieces(name), "\"", " ");
    } else {
      assert Pieces(name) == [name];
      hide Pieces, NoOccur, IsDelimiter, Around;
      AroundPlain(front + "\"", name);
      AroundPlainLacks(front, name, d);
      AroundJoin(front + "\"", [name], "\"", " ");
    }
  }

  lemma WordsUnfolded(pieces: seq<string>)
    requires CleanWords(pieces)
    ensures var s := Join(pieces, " "); '"' !in s && s != "" && Trimmed(s)
  {
    JoinWordChars(pieces);
    hide Join, CleanWords;
  }

  /** The name between quotes is what the look-up of the parameter gives. */
  lemma UnfoldedShape(name: string, d: string)
    requires GoodName(name, d)
    ensures EncodableName(name) && '"' !in Unfolded(name) && Unfolded(name) != "" && Trimmed(Unfolded(name))
  {
    hide NoOccur, NeedsEncoding, Utf8, HasQpArtifacts, Trimmed, Chunks;
    ReadableEncodable(name);
    if NeedsEncoding(name) {
      PiecesClean(name);
      WordsUnfolded(Pieces(name));
    } else {
      assert Pieces(name) == [name];
    }
  }

  function TypeFront(a: Attachment): string {
    TypeOf(a) + "; name="
  }

  function DispositionFront(): string {
    "attachment; filename="
  }

  function Quoted(front: string, name: string): string
    requires EncodableName(name)
  {
    front + "\"" + Unfolded(name) + "\""
  }

  /** An attachment that comes back. */
  ghost predicate GoodAttachment(a: Attachment, d: string) {
    && GoodName(a.name, d) && EncodableName(a.name)
    && Front(TypeOf(a)) && NoOccur(TypeOf(a), d) && NoOccur(a.data, d)
    && !Contains(ToLower(Quoted(TypeFront(a), a.name)), "multipart")
  }

  lemma DispositionFrontGood(d: string)
    requires IsDelimiter(d)
    ensures Front(DispositionFront()) && NoOccur(DispositionFront(), d)
  {
    hide NoOccur;
    ShortNoOccur("attachment; filename=", d);
  }

  lemma FrontsGood(a: Attachment, d: string)
    requires GoodAttachment(a, d) && IsDelimiter(d)
    ensures Front(TypeFront(a)) && NoOccur(TypeFront(a), d) && Front(DispositionFront())
            && NoOccur(DispositionFront(), d)
  {
    hide NoOccur, TypeOf, Contains, GoodName, EncodableName, Quoted;
    ShortNoOccur(" name=", d);
    DispositionFrontGood(d);
    NoOccurSep(TypeOf(a), ';', " name=", d);
    hide IsDelimiter, DispositionFront;
    assert TypeOf(a) + [';'] + " name=" == TypeFront(a);
    assert TypeFront(a)[0] == TypeOf(a)[0];
  }

  lemma AttachmentFieldsAre(a: Attachment)
    requires EncodableName(a.name)
    ensures AttachmentFields(a)
         == [Field(ContentType, Around(TypeFront(a) + "\"", Pieces(a.name), "\"")), Field(TransferEncoding, ["base64"]),
             Field(Disposition, Around(DispositionFront() + "\"", Pieces(a.name), "\""))]
  {
    hide TypeOf, Pieces, Around;
    assert "; name=\"" == "; name=" + "\"";
    assert TypeOf(a) + "; name=\"" == TypeFront(a) + "\"";
    assert "attachment; filename=\"" == DispositionFront() + "\"";
  }

  lemma ValueOfThree(f: Field, g: Field, h: Field)
    requires f.name == ContentType && g.name == TransferEncoding && h.name == Disposition
    ensures ValueIn([f, g, h], ContentType) == Join(f.pieces, " ")
    ensures ValueIn([f, g, h], TransferEncoding) == Join(g.pieces, " ")
    ensures ValueIn([f, g, h], Disposition) == Join(h.pieces, " ")
  {
    hide Join;
    assert [f, g, h][1..] == [g, h] && [g, h][1..] == [h];
    assert ValueIn([h], Disposition) == Join(h.pieces, " ")
        && ValueIn([g, h], Disposition) == ValueIn([h], Disposition);
  }

  lemma AttachmentPieces(a: Attachment, d: string)
    requires GoodAttachment(a, d) && IsDelimiter(d)
    ensures var t, u := Around(TypeFront(a) + "\"", Pieces(a.name), "\""),
              Around(DispositionFront() + "\"", Pieces(a.name), "\"");
            && GoodPieces(t) && AllLack(t, d) && Join(t, " ") == Quoted(TypeFront(a), a.name)
            && GoodPieces(u) && AllLack(u, d) && Join(u, " ") == Quoted(DispositionFront(), a.name)
  {
    FrontsGood(a, d);
    hide NoOccur, IsDelimiter, TypeFront, DispositionFront, Pieces, Around, Unfolded, Front, Contains,
      EncodableName, GoodPieces, AllLack, Join, TypeOf;
    NameFolds(a.name, TypeFront(a), d);
    NameFolds(a.name, DispositionFront(), d);
  }

  lemma Base64Piece(d: string)
    requires IsDelimiter(d)
    ensures GoodPieces(["base64"]) && AllLack(["base64"], d) && Join(["base64"], " ") == "base64"
  {
    Base64Name();
    ShortNoOccur("base64", d);
    hide NoOccur;
  }

  lemma AttachmentFieldsGood(a: Attachment, d: string)
    requires GoodAttachment(a, d) && IsDelimiter(d)
    ensures GoodFields(AttachmentFields(a)) && FieldsLack(AttachmentFields(a), d)
    ensures ValueIn(AttachmentFields(a), ContentType) == Quoted(TypeFront(a), a.name)
    ensures ValueIn(AttachmentFields(a), Disposition) == Quoted(DispositionFront(), a.name)
    ensures ValueIn(AttachmentFields(a), TransferEncoding) == "base64"
  {
    AttachmentFieldsAre(a);
    AttachmentPieces(a, d);
    Base64Piece(d);
    hide *;
    var f := Field(ContentType, Around(TypeFront(a) + "\"", Pieces(a.name), "\""));
    var g := Field(TransferEncoding, ["base64"]);
    var h := Field(Disposition, Around(DispositionFront() + "\"", Pieces(a.name), "\""));
    ValueOfThree(f, g, h);
    ThreeGood(f, g, h, d);
  }

  lemma ThreeGood(f: Field, g: Field, h: Field, d: string)
    requires GoodPieces(f.pieces) && GoodPieces(g.pieces) && GoodPieces(h.pieces)
    requires AllLack(f.pieces, d) && AllLack(g.pieces, d) && AllLack(h.pieces, d)
    ensures GoodFields([f, g, h]) && FieldsLack([f, g, h], d)
  {
    hide GoodPieces, AllLack;
  }

  lemma DispositionTests(name: string)
    requires EncodableName(name)
    ensures Contains(ToLower(Quoted(DispositionFront(), name)), "attachment")
  {
    var v := Unfolded(name);
    hide Contains, Unfolded, ToLower;
    BeginsAttachment(v);
    var rest := "; filename=" + ("\"" + v + "\"");
    LowerConcat("attachment", rest);
    ContainsPrefix("attachment", ToLower(rest));
  }

  lemma BeginsAttachment(v: string)
    ensures DispositionFront() + "\"" + v + "\"" == "attachment" + ("; filename=" + ("\"" + v + "\""))
    ensures ToLower("attachment") == "attachment"
  {
    LowerSame("attachment");
    assert DispositionFront() == "attachment" + "; filename=";
    hide *;
    Quoting("attachment", "; filename=", "\"", v);
  }

  lemma Quoting(a: string, b: string, q: string, v: string)
    ensures a + b + q + v + q == a + (b + (q + v + q))
  {
  }

  lemma FileNameRead(fields: seq<Field>, name: string, d: string)
    requires fields != [] && GoodFields(fields) && GoodName(name, d) && EncodableName(name)
    requires ValueIn(fields, Disposition) == Quoted(DispositionFront(), name)
    ensures ExtractFileName(Headers(fields)) == name
  {
    BlockRoundTrip(fields, "", Disposition);
    UnfoldedShape(name, d);
    ReadBack(name);
    NameParameter(name);
    hide Headers, HeaderValue, ValueIn, GoodFields, Unfolded, DecodeEncodedWord, Find, ParameterAt, Name,
      SplitBlock, BlockText;
    TrimId(Unfolded(name));
  }

  lemma NameParameter(name: string)
    requires EncodableName(name) && '"' !in Unfolded(name)
    ensures var s := Quoted(DispositionFront(), name);
            Find(s, "filename=", 0) == 12 && ParameterAt(s, 21) == Unfolded(name)
  {
    hide Find, ParameterAt, Unfolded;
    var v := Unfolded(name);
    var s := Quoted(DispositionFront(), name);
    ParameterFound("attachment; ", "filename=", "\"" + v + "\"");
    assert DispositionFront() == "attachment; " + "filename=";
    assert s == "attachment; " + "filename=" + ("\"" + v + "\"");
    QuotedParameter(DispositionFront(), v);
  }

  /** The media type without parameters, in lower case. */
  function BareType(mime: string): string {
    var k := FindChar(ToLower(mime) + ";", ';', 0);
    if k == NPOS then ToLower(mime) else (ToLower(mime) + ";")[..k]
  }

  lemma FirstSemicolon(a: string, b: string)
    ensures FindChar(a + ";" + b, ';', 0) == FindChar(a + ";", ';', 0) != NPOS
    ensures (a + ";" + b)[..FindChar(a + ";", ';', 0)] == (a + ";")[..FindChar(a + ";", ';', 0)]
  {
    var s, t := a + ";" + b, a + ";";
    assert t[|a|] == ';' && forall i :: 0 <= i < |t| ==> s[i] == t[i];
  }

  lemma MediaTypeIs(a: Attachment, headers: string, disposition: string, encoding: string, body: string)
    requires EncodableName(a.name)
    ensures PartView(headers, Quoted(TypeFront(a), a.name), disposition, encoding, body).MediaType()
            == BareType(TypeOf(a))
  {
    hide FindChar, Unfolded, TypeOf;
    var rest := " name=" + "\"" + Unfolded(a.name) + "\"";
    assert Quoted(TypeFront(a), a.name) == TypeOf(a) + (";" + rest);
    LowerConcat(TypeOf(a), ";" + rest);
    LowerConcat(";", rest);
    LowerSame(";");
    FirstSemicolon(ToLower(TypeOf(a)), ToLower(rest));
    assert ToLower(TypeOf(a)) + (";" + ToLower(rest)) == ToLower(TypeOf(a)) + ";" + ToLower(rest);
  }

  /** What the parser makes of an attachment: its name, its bare type, its data on one line. */
  function Received(a: Attachment): Attachment {
    NewAttachment(a.name, BareType(TypeOf(a)), StripBreaks(a.data))
  }

  lemma AttachmentProcessed(a: Attachment, d: string, e: Email)
    requires GoodAttachment(a, d) && IsDelimiter(d)
    ensures ProcessPart(AttachmentPart(a), e) == e.(attachments := e.attachments + [Received(a)])
  {
    var fields, body := AttachmentFields(a), a.data + "\r\n";
    AttachmentFieldsGood(a, d);
    Base64Name();
    FileNameRead(fields, a.name, d);
    DispositionTests(a.name);
    StripLineEnd(a.data);
    MediaTypeIs(a, Headers(fields), ToLower(ValueIn(fields, Disposition)), "base64", body);
    hide NoOccur, IsDelimiter, TypeFront, DispositionFront, TypeOf, BareType, Quoted, AttachmentFields, ValueIn,
      GoodFields, Headers, BlockText, View,
      Contains, ExtractFileName, StripBreaks, FileSize, EncodableName, GoodName, Front, FieldsLack;
    ViewOf(fields, body);
    var p := View(AttachmentPart(a));
    assert !p.Nested() && p.Attached() && p.InBase64();
  }

  // ---------------------------------------------------------- parts are separable

  lemma LacksUnderscore(s: string, d: string)
    requires IsDelimiter(d) && '_' !in s
    ensures NoOccur(s, d)
  {
    MissingCharNoOccur(s, d, '_');
  }

  lemma TwoLack(f: Field, g: Field, d: string)
    requires IsDelimiter(d) && |f.pieces| == 1 && |g.pieces| == 1 && '_' !in f.pieces[0] && |g.pieces[0]| < 30
    ensures FieldsLack([f, g], d)
  {
    LacksUnderscore(f.pieces[0], d);
    ShortNoOccur(g.pieces[0], d);
    hide NoOccur;
  }

  lemma TextPartSeparable(text: string, d: string)
    requires IsDelimiter(d) && NoOccur(text, d)
    ensures Separable(TextPart(text), d)
  {
    TextFieldsGood();
    PlainTypeIs();
    TwoLack(TextFields()[0], TextFields()[1], d);
    assert TextFields() == [TextFields()[0], TextFields()[1]];
    WrapNoOccur(text, LineLimit(998), d);
    var body := WrapText(text, 998) + "\r\n";
    LineEndLacks(WrapText(text, 998), d);
    assert body[|body| - 1] == '\n';
    hide WrapText, NoOccur, BlockText, GoodFields, FieldsLack, TextFields, IsDelimiter;
    assert TextFields() != [];
    BlockEnds(TextFields(), body, d);
  }

  lemma {:induction false} FoldedLacks(s: string, c: char)
    requires c !in s && c != '\r' && c != '\n'
    ensures c !in Folded(s)
  {
    if |s| > 76 {
      FoldedLacks(s[76..], c);
    }
  }

  lemma Base64Lacks(text: string)
    ensures '_' !in ToBase64(text)
  {
    EncodedChars(ToBytes(text));
    hide Encoded, Folded;
    FoldedLacks(Encoded(ToBytes(text)), '_');
  }

  lemma HtmlPartSeparable(html: string, d: string)
    requires IsDelimiter(d)
    ensures Separable(HtmlPart(html), d)
  {
    HtmlFieldsGood();
    HtmlTypeIs();
    TwoLack(HtmlFields()[0], HtmlFields()[1], d);
    assert HtmlFields() == [HtmlFields()[0], HtmlFields()[1]];
    var body := ToBase64(html) + "\r\n";
    Base64Lacks(html);
    LacksUnderscore(ToBase64(html), d);
    LineEndLacks(ToBase64(html), d);
    assert body[|body| - 1] == '\n';
    hide ToBase64, NoOccur, BlockText, GoodFields, FieldsLack, HtmlFields, IsDelimiter;
    assert HtmlFields() != [];
    BlockEnds(HtmlFields(), body, d);
  }

  lemma AttachmentSeparable(a: Attachment, d: string)
    requires GoodAttachment(a, d) && IsDelimiter(d)
    ensures Separable(AttachmentPart(a), d)
  {
    AttachmentFieldsGood(a, d);
    LineEndLacks(a.data, d);
    var body := a.data + "\r\n";
    assert body[|body| - 1] == '\n';
    assert AttachmentFields(a) != [];
    hide NoOccur, BlockText, GoodFields, FieldsLack, AttachmentFields, IsDelimiter;
    BlockEnds(AttachmentFields(a), body, d);
  }
}

/** The header side of mime/src/MimeParser.cpp: splitting a block, looking up a header, its
    parameters, and address lists. */
module MimeHeaders {
  import opened Text
  import opened MimeDecoder

  // ------------------------------------------------------- headers and body

  /** MimeParser::SplitHeadersAndBody: the first blank line, CRLF style first. */
  function SplitBlock(raw: string): (r: (string, string))
    ensures |r.0| <= |raw| && |r.1| <= |raw|
  {
    var pos := Find(raw, "\r\n\r\n", 0);
    if pos != NPOS then (raw[..pos], raw[pos + 4..])
    else
      var bare := Find(raw, "\n\n", 0);
      if bare != NPOS then (raw[..bare], raw[bare + 2..]) else ("", raw)
  }

  // ------------------------------------------------------------ header names

  datatype HeaderName =
    | MimeVersion | Date | Subject | From | To | Cc | MessageId | InReplyTo | References
    | ContentType | TransferEncoding | Disposition

  predicate NameChars(s: string) {
    forall i :: 0 <= i < |s| ==> s[i] == '-' || 'A' <= s[i] <= 'Z' || 'a' <= s[i] <= 'z'
  }

  function Name(h: HeaderName): string {
    match h
    case MimeVersion => "MIME-Version"
    case Date => "Date"
    case Subject => "Subject"
    case From => "From"
    case To => "To"
    case Cc => "Cc"
    case MessageId => "Message-ID"
    case InReplyTo => "In-Reply-To"
    case References => "References"
    case ContentType => "Content-Type"
    case TransferEncoding => "Content-Transfer-Encoding"
    case Disposition => "Content-Disposition"
  }

  // ------------------------------------------------------------ header lines

  /** The lines that `std::getline` delivers. */
  function Lines(s: string): (r: seq<string>)
    ensures forall i :: 0 <= i < |r| ==> '\n' !in r[i]
    decreases |s|
  {
    if s == [] then []
    else
      var k := FindChar(s, '\n', 0);
      if k == NPOS then [s] else [s[..k]] + Lines(s[k + 1..])
  }

  /** A line without its trailing CR. */
  function Chomp(line: string): string {
    if line != [] && line[|line| - 1] == '\r' then line[..|line| - 1] else line
  }

  predicate IEquals(a: string, b: string) {
    ToLower(a) == ToLower(b)
  }

  predicate HasKey(line: string, key: string) {
    var colon := FindChar(line, ':', 0);
    colon != NPOS && IEquals(line[..colon], key)
  }

  function ValueOf(line: string): string {
    var colon := FindChar(line, ':', 0);
    if colon == NPOS then "" else Trim(line[colon + 1..])
  }

  predicate IsContinuation(line: string) {
    line != [] && (line[0] == ' ' || line[0] == '\t')
  }

  /** The text that continuation lines add to a header's value. */
  function Continued(lines: seq<string>): string {
    if lines == [] then ""
    else
      var line := Chomp(lines[0]);
      if line == [] then Continued(lines[1..])
      else if IsContinuation(line) then
        (if Trim(line) == [] then "" else " " + Trim(line)) + Continued(lines[1..])
      else ""
  }

  /** The value of the first header with this key (given without its colon), unfolded. */
  function Lookup(lines: seq<string>, key: string): string {
    if lines == [] then ""
    else
      var line := Chomp(lines[0]);
      if line != [] && HasKey(line, key) then ValueOf(line) + Continued(lines[1..])
      else Lookup(lines[1..], key)
  }

  function HeaderValue(headers: string, key: string): string {
    Lookup(Lines(headers), key)
  }

  /** The loop of MimeParser::GetHeaderValue. */
  method GetHeaderValue(headers: string, key: string) returns (result: string)
    ensures result == HeaderValue(headers, key)
  {
    hide HasKey, ValueOf, IsContinuation, Trim, Chomp;
    var lines := Lines(headers);
    result := "";
    var found := false;
    ghost var whole := Lookup(lines, key);
    var i := 0;
    assert lines[0..] == lines;
    while i < |lines|
      invariant 0 <= i <= |lines|
      invariant !found ==> result == "" && Lookup(lines[i..], key) == whole
      invariant found ==> result + Continued(lines[i..]) == whole
    {
      assert lines[i..][0] == lines[i] && lines[i..][1..] == lines[i + 1..];
      var line := Chomp(lines[i]);
      i := i + 1;
      if line == [] {
        continue;
      }
      if found && IsContinuation(line) {
        var appended := Trim(line);
        if appended != [] {
          Assoc(result, " " + appended, Continued(lines[i..]));
          result := result + (" " + appended);
        } else {
          assert "" + Continued(lines[i..]) == Continued(lines[i..]);
        }
        continue;
      }
      if found {
        assert result + "" == result;
        return;
      }
      if HasKey(line, key) {
        result := ValueOf(line);
        found := true;
      }
    }
    assert lines[i..] == [] && result + "" == result;
  }

  // -------------------------------------------------------- header parameters

  /** A parameter value at index `pos`: quoted, or up to a blank or semicolon. */
  function ParameterAt(s: string, pos: nat): string {
    if pos >= |s| then ""
    else if s[pos] == '"' then
      var end := FindChar(s, '"', pos + 1);
      if end == NPOS then "" else s[pos + 1..end]
    else
      var end := FindAny(s, {' ', ';', '\r', '\n'}, pos);
      if end == NPOS then s[pos..] else s[pos..end]
  }

  /** MimeParser::ExtractBoundary. */
  function ExtractBoundary(contentType: string): string {
    var pos := Find(ToLower(contentType), "boundary=", 0);
    if pos == NPOS then "" else Trim(ParameterAt(contentType, pos + 9))
  }

  /** MimeParser::ExtractCharset. */
  function ExtractCharset(contentType: string): string {
    var pos := Find(ToLower(contentType), "charset=", 0);
    if pos == NPOS then "" else Trim(ParameterAt(contentType, pos + 8))
  }

  /** MimeParser::ExtractFileName: the disposition's name, else the type's, else a stand-in. */
  function ExtractFileName(headers: string): string {
    var disposition := HeaderValue(headers, Name(Disposition));
    var pos := Find(disposition, "filename=", 0);
    var first := if pos == NPOS then "" else ParameterAt(disposition, pos + 9);
    var contentType := HeaderValue(headers, Name(ContentType));
    var pos2 := Find(contentType, "name=", 0);
    var second := if pos2 == NPOS then "" else ParameterAt(contentType, pos2 + 5);
    DecodeEncodedWord(Trim(if first != [] then first else if second != [] then second else "unnamed_file"))
  }

  // ------------------------------------------------------------ address lists

  datatype Scan = Scan(quoted: bool, depth: nat)

  const OUTSIDE := Scan(false, 0)

  /** The scanner's state after one character of an address. */
  function Step(s: Scan, c: char): Scan {
    if c == '"' && s.depth == 0 then s.(quoted := !s.quoted)
    else if !s.quoted && c == '<' then s.(depth := s.depth + 1)
    else if !s.quoted && c == '>' && s.depth > 0 then s.(depth := s.depth - 1)
    else s
  }

  /** A comma outside quotes and angle brackets ends an address. */
  predicate Separates(s: Scan, c: char) {
    c == ',' && s == OUTSIDE
  }

  function Push(list: seq<string>, current: string): seq<string> {
    if Trim(current) == [] then list else list + [Trim(current)]
  }

  function SplitFrom(t: string, s: Scan, current: string): seq<string>
    decreases |t|
  {
    if t == [] then Push([], current)
    else if Separates(s, t[0]) then Push([], current) + SplitFrom(t[1..], s, "")
    else SplitFrom(t[1..], Step(s, t[0]), current + [t[0]])
  }

  lemma SplitAt(t: string, i: nat, s: Scan, current: string)
    requires i < |t|
    ensures SplitFrom(t[i..], s, current)
         == if Separates(s, t[i]) then Push([], current) + SplitFrom(t[i + 1..], s, "")
            else SplitFrom(t[i + 1..], Step(s, t[i]), current + [t[i]])
  {
    hide Push, Step;
    DropDrop(t, i, 1);
  }

  lemma PushMore(list: seq<string>, current: string, rest: seq<string>)
    ensures list + (Push([], current) + rest) == Push(list, current) + rest
  {
    hide Trim;
  }

  lemma SplitEnd(t: string, s: Scan, list: seq<string>, current: string)
    ensures list + SplitFrom(t[|t|..], s, current) == Push(list, current)
  {
    hide Trim;
  }

  /** The loop of MimeParser::SplitAddresses. */
  method SplitAddresses(header: string) returns (result: seq<string>)
    ensures result == SplitFrom(header, OUTSIDE, "")
  {
    hide SplitFrom, Push;
    result := [];
    var current := "";
    var depth: nat := 0;
    var quoted := false;
    assert header[0..] == header;
    ghost var whole := SplitFrom(header, OUTSIDE, "");
    assert result + whole == whole;
    for i := 0 to |header|
      invariant result + SplitFrom(header[i..], Scan(quoted, depth), current) == whole
    {
      var c := header[i];
      SplitAt(header, i, Scan(quoted, depth), current);
      if c == '"' && depth == 0 {
        quoted := !quoted;
        current := current + [c];
      } else if !quoted && c == '<' {
        depth := depth + 1;
        current := current + [c];
      } else if !quoted && c == '>' {
        if depth > 0 { depth := depth - 1; }
        current := current + [c];
      } else if !quoted && depth == 0 && c == ',' {
        PushMore(result, current, SplitFrom(header[i + 1..], OUTSIDE, ""));
        result := Push(result, current);
        current := "";
      } else {
        current := current + [c];
      }
    }
    SplitEnd(header, Scan(quoted, depth), result, current);
    result := Push(result, current);
  }
}

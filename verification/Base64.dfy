/** The batch Base64 codec: base64/src/Base64Encoder.cpp and base64/src/Base64Decoder.cpp. */
module Base64 {
  import opened Text
  import opened Wrappers

  type byte = x: int | 0 <= x < 256
  type sextet = x: int | 0 <= x < 64

  const MAX_FILE_SIZE := 15 * 1024 * 1024

  // ------------------------------------------------------- alphabet and table

  function EncChar(v: sextet): char {
    if v < 26 then ('A' as int + v) as char
    else if v < 52 then ('a' as int + v - 26) as char
    else if v < 62 then ('0' as int + v - 52) as char
    else if v == 62 then '+' else '/'
  }

  predicate IsSymbol(c: char) {
    'A' <= c <= 'Z' || 'a' <= c <= 'z' || '0' <= c <= '9' || c == '+' || c == '/'
  }

  /** The decode table: -2 for the padding sign, -1 for a character outside the alphabet. */
  function DecodeTable(c: char): (v: int)
    ensures v >= 0 <==> IsSymbol(c)
    ensures v < 64
  {
    if 'A' <= c <= 'Z' then c as int - 'A' as int
    else if 'a' <= c <= 'z' then c as int - 'a' as int + 26
    else if '0' <= c <= '9' then c as int - '0' as int + 52
    else if c == '+' then 62
    else if c == '/' then 63
    else if c == '=' then -2
    else -1
  }

  lemma TableInverse(v: sextet)
    ensures DecodeTable(EncChar(v)) == v && IsSymbol(EncChar(v))
  {
  }

  // ------------------------------------------------------------------ groups

  // The sextets of three bytes and the bytes of four sextets, as BlockSextets and BlockBytes
  // read them off the 24-bit block that the code assembles.
  function Sextet0(b0: byte): sextet { b0 / 4 }

  function Sextet1(b0: byte, b1: byte): sextet { b0 % 4 * 16 + b1 / 16 }

  function Sextet2(b1: byte, b2: byte): sextet { b1 % 16 * 4 + b2 / 64 }

  function Sextet3(b2: byte): sextet { b2 % 64 }

  function Byte0(v0: sextet, v1: sextet): byte { v0 * 4 + v1 / 16 }

  function Byte1(v1: sextet, v2: sextet): byte { v1 % 16 * 16 + v2 / 4 }

  function Byte2(v2: sextet, v3: sextet): byte { v2 % 4 * 64 + v3 }

  lemma Split64(q: nat, r: nat)
    requires r < 64
    ensures (64 * q + r) / 64 == q && (64 * q + r) % 64 == r
  {
  }

  lemma Split256(q: nat, r: nat)
    requires r < 256
    ensures (256 * q + r) / 256 == q && (256 * q + r) % 256 == r
  {
  }

  lemma BlockSextets(b0: byte, b1: byte, b2: byte)
    ensures var block: int := 65536 * b0 + 256 * b1 + b2;
            && block / 64 / 64 / 64 == Sextet0(b0) && block / 64 / 64 % 64 == Sextet1(b0, b1)
            && block / 64 % 64 == Sextet2(b1, b2) && block % 64 == Sextet3(b2)
  {
    var high: int := 64 * Sextet0(b0) + Sextet1(b0, b1);
    assert 65536 * b0 + 256 * b1 + b2 == 64 * (64 * high + Sextet2(b1, b2)) + Sextet3(b2);
    Split64(64 * high + Sextet2(b1, b2), Sextet3(b2));
    Split64(high, Sextet2(b1, b2));
    Split64(Sextet0(b0), Sextet1(b0, b1));
  }

  lemma BlockBytes(v0: sextet, v1: sextet, v2: sextet, v3: sextet)
    ensures var block: int := 262144 * v0 + 4096 * v1 + 64 * v2 + v3;
            && block / 256 / 256 == Byte0(v0, v1) && block / 256 % 256 == Byte1(v1, v2)
            && block % 256 == Byte2(v2, v3)
  {
    var high: int := 256 * Byte0(v0, v1) + Byte1(v1, v2);
    assert 262144 * v0 + 4096 * v1 + 64 * v2 + v3 == 256 * high + Byte2(v2, v3);
    Split256(high, Byte2(v2, v3));
    Split256(Byte0(v0, v1), Byte1(v1, v2));
  }

  /** Three bytes, or a shorter last group, as four characters (section 4 of RFC 4648). */
  function EncodeGroup(g: seq<byte>): (q: string)
    requires 1 <= |g| <= 3
    ensures |q| == 4
  {
    var b1 := if |g| > 1 then g[1] else 0;
    var b2 := if |g| > 2 then g[2] else 0;
    [EncChar(Sextet0(g[0])),
     EncChar(Sextet1(g[0], b1)),
     if |g| > 1 then EncChar(Sextet2(b1, b2)) else '=',
     if |g| > 2 then EncChar(Sextet3(b2)) else '=']
  }

  lemma GroupChars(g: seq<byte>)
    requires 1 <= |g| <= 3
    ensures forall i :: 0 <= i < 4 ==> IsCodeChar(EncodeGroup(g)[i])
  {
    hide EncChar, Sextet0, Sextet1, Sextet2, Sextet3, IsSymbol;
    var b1 := if |g| > 1 then g[1] else 0;
    var b2 := if |g| > 2 then g[2] else 0;
    TableInverse(Sextet0(g[0]));
    TableInverse(Sextet1(g[0], b1));
    TableInverse(Sextet2(b1, b2));
    TableInverse(Sextet3(b2));
  }

  /** The bytes of one four-character quantum, or the exception the decoder throws. */
  function DecodeQuad(q: string): (r: Result<seq<byte>>)
    requires |q| == 4
    ensures r.Ok? ==> 1 <= |r.value| <= 3
  {
    var v0 := DecodeTable(q[0]);
    var v1 := DecodeTable(q[1]);
    var v2 := if q[2] == '=' then 0 else DecodeTable(q[2]);
    var v3 := if q[3] == '=' then 0 else DecodeTable(q[3]);
    if v0 < 0 || v1 < 0 || v2 < 0 || v3 < 0 then
      Thrown("Invalid Base64 character")
    else
      Ok([Byte0(v0, v1)]
         + (if q[2] != '=' then [Byte1(v1, v2)] else [])
         + (if q[3] != '=' then [Byte2(v2, v3)] else []))
  }

  lemma SextetsToBytes(b0: byte, b1: byte, b2: byte)
    ensures Byte0(Sextet0(b0), Sextet1(b0, b1)) == b0
    ensures Byte1(Sextet1(b0, b1), Sextet2(b1, b2)) == b1
    ensures Byte2(Sextet2(b1, b2), Sextet3(b2)) == b2
    ensures b1 == 0 ==> Byte0(Sextet0(b0), Sextet1(b0, b1)) == b0
  {
  }

  lemma GroupRoundTrip(g: seq<byte>)
    requires 1 <= |g| <= 3
    ensures DecodeQuad(EncodeGroup(g)) == Ok(g)
  {
    hide EncChar, DecodeTable, Sextet0, Sextet1, Sextet2, Sextet3, Byte0, Byte1, Byte2;
    var b1 := if |g| > 1 then g[1] else 0;
    var b2 := if |g| > 2 then g[2] else 0;
    SextetsToBytes(g[0], b1, b2);
    TableInverse(Sextet0(g[0]));
    TableInverse(Sextet1(g[0], b1));
    TableInverse(Sextet2(b1, b2));
    TableInverse(Sextet3(b2));
    if |g| == 1 {
      assert [g[0]] + [] + [] == g;
    } else if |g| == 2 {
      assert [g[0]] + [g[1]] + [] == g;
    } else {
      assert [g[0]] + [g[1]] + [g[2]] == g;
    }
  }

  lemma GroupTail(g: seq<byte>)
    requires 1 <= |g| <= 3
    ensures EncodeGroup(g)[3] == '=' <==> |g| < 3
    ensures EncodeGroup(g)[2] == '=' <==> |g| < 2
  {
    hide EncChar, Sextet0, Sextet1, Sextet2, Sextet3;
    var b1 := if |g| > 1 then g[1] else 0;
    var b2 := if |g| > 2 then g[2] else 0;
    TableInverse(Sextet2(b1, b2));
    TableInverse(Sextet3(b2));
  }

  // ----------------------------------------------------------- batch encoding

  /** The encoding without line breaks. */
  function Encoded(data: seq<byte>): string {
    if data == [] then ""
    else if |data| <= 3 then EncodeGroup(data)
    else EncodeGroup(data[..3]) + Encoded(data[3..])
  }

  lemma {:induction false} EncodedChars(data: seq<byte>)
    ensures forall i :: 0 <= i < |Encoded(data)| ==> IsCodeChar(Encoded(data)[i])
  {
    if data == [] {
    } else if |data| <= 3 {
      GroupChars(data);
    } else {
      hide EncodeGroup, IsCodeChar;
      GroupChars(data[..3]);
      EncodedChars(data[3..]);
    }
  }

  lemma {:induction false} EncodedLength(data: seq<byte>)
    ensures |Encoded(data)| % 4 == 0
    ensures 4 * |data| <= 3 * |Encoded(data)| < 4 * |data| + 12
  {
    hide EncodeGroup;
    if |data| > 3 {
      EncodedLength(data[3..]);
    }
  }

  /** A CRLF between consecutive 76-character lines, none at the end. */
  function Folded(s: string): string {
    if |s| <= 76 then s else s[..76] + CRLF + Folded(s[76..])
  }

  lemma EncodedGroup(g: seq<byte>)
    requires 1 <= |g| <= 3
    ensures Encoded(g) == EncodeGroup(g)
  {
  }

  lemma {:induction false} EncodedConcat(a: seq<byte>, b: seq<byte>, groups: nat)
    requires |a| == 3 * groups
    ensures Encoded(a + b) == Encoded(a) + Encoded(b)
  {
    hide EncodeGroup;
    if groups == 0 {
      assert a + b == b;
    } else if b == [] {
      assert a + b == a;
    } else if groups == 1 {
      assert (a + b)[..3] == a && (a + b)[3..] == b;
    } else {
      assert (a + b)[..3] == a[..3] && (a + b)[3..] == a[3..] + b;
      EncodedConcat(a[3..], b, groups - 1);
      assert EncodeGroup(a[..3]) + (Encoded(a[3..]) + Encoded(b)) == Encoded(a) + Encoded(b);
    }
  }

  /** The line break that ChunkBytes writes once a line is full and more data follow. */
  function Break(text: string, lineLength: int): string {
    if lineLength == 0 && text != [] then CRLF else ""
  }

  /** One step of ChunkBytes: a further quantum continues the line or opens the next one. */
  lemma {:induction false} FoldedGrow(s: string, q: string, lines: nat, cols: nat)
    requires |s| == 76 * lines + 4 * cols && cols < 19 && |q| == 4
    ensures Folded(s + q) == Folded(s) + Break(s, 4 * cols) + q
  {
    if lines == 0 {
      assert Folded(s) + "" + q == s + q;
    } else {
      assert (s + q)[..76] == s[..76] && (s + q)[76..] == s[76..] + q;
      if lines == 1 && cols == 0 {
        assert s[76..] + q == q && s[..76] == s;
        assert Folded(s) + CRLF + q == s + CRLF + q;
      } else {
        FoldedGrow(s[76..], q, lines - 1, cols);
        assert s[..76] + CRLF + (Folded(s[76..]) + Break(s[76..], 4 * cols) + q)
            == (s[..76] + CRLF + Folded(s[76..])) + Break(s, 4 * cols) + q;
      }
    }
  }

  lemma ChunkStep(data: seq<byte>, groups: nat, end: nat)
    requires 3 * groups < |data|
    requires end == if 3 * groups + 3 < |data| then 3 * groups + 3 else |data|
    ensures Encoded(data[..end]) == Encoded(data[..3 * groups]) + EncodeGroup(data[3 * groups..end])
  {
    hide EncodeGroup, Encoded;
    var i := 3 * groups;
    EncodedConcat(data[..i], data[i..end], groups);
    EncodedGroup(data[i..end]);
    assert data[..i] + data[i..end] == data[..end];
  }

  /** The loop of Base64Encoder::ChunkBytes; the line break is written after the 76th character. */
  method ChunkBytes(data: seq<byte>, output: string) returns (out: string)
    ensures out == output + Folded(Encoded(data))
  {
    assert Folded("") == "" && Encoded([]) == "" && output + "" == output;
    hide EncodeGroup, Folded, Encoded;
    out := output;
    var lineLength := 0;
    var i := 0;
    ghost var done, groups, text, lines, cols := 0, 0, "", 0, 0;
    ghost var pending := "";
    assert data[..0] == [];
    while i < |data|
      invariant i == 3 * groups && done <= |data| && text == Encoded(data[..done])
      invariant done == if i < |data| then i else |data|
      invariant lineLength == 4 * cols && out == output + Folded(text) + pending
      invariant i < |data| ==> |text| == 76 * lines + 4 * cols && cols < 19 && pending == Break(text, 4 * cols)
      invariant i >= |data| ==> pending == ""
    {
      var end := if i + 3 < |data| then i + 3 else |data|;
      var group := EncodeGroup(data[i..end]);
      ChunkStep(data, groups, end);
      FoldedGrow(text, group, lines, cols);
      assert out + group == output + (Folded(text) + pending + group);
      out := out + group;
      lineLength := lineLength + 4;
      text, cols, groups, done, pending := text + group, cols + 1, groups + 1, end, "";
      if lineLength >= 76 && i + 3 < |data| {
        out := out + CRLF;
        lineLength := 0;
        lines, cols, pending := lines + 1, 0, CRLF;
      }
      i := i + 3;
    }
    assert data[..done] == data;
  }

  /** Base64Encoder::EncodeBase64. */
  function EncodeBase64(data: seq<byte>): (r: Result<string>) {
    if |data| > MAX_FILE_SIZE then Thrown("File too large") else Ok(Folded(Encoded(data)))
  }

  method EncodeBase64Impl(data: seq<byte>) returns (r: Result<string>)
    ensures r == EncodeBase64(data)
  {
    if |data| > MAX_FILE_SIZE {
      return Thrown("File too large");
    }
    var out := ChunkBytes(data, "");
    assert "" + Folded(Encoded(data)) == Folded(Encoded(data));
    r := Ok(out);
  }

  // ----------------------------------------------------------- batch decoding

  predicate IsCodeChar(c: char) {
    IsSymbol(c) || c == '='
  }

  /** The quanta of a text of whole quanta, decoded in order. */
  function DecodeQuads(s: string): Result<seq<byte>> {
    if |s| < 4 then Ok([])
    else
      var head :- DecodeQuad(s[..4]);
      var tail :- DecodeQuads(s[4..]);
      Ok(head + tail)
  }

  /** Base64Decoder::DecodeBase64: line breaks are not skipped but rejected. */
  function DecodeBase64(s: string): (r: Result<seq<byte>>) {
    if exists i :: 0 <= i < |s| && !IsCodeChar(s[i]) then Thrown("Invalid Base64 symbol")
    else if |s| % 4 != 0 then Thrown("Str is not in Base64 format")
    else DecodeQuads(s)
  }

  function Prepend(done: seq<byte>, r: Result<seq<byte>>): Result<seq<byte>> {
    match r
    case Ok(v) => Ok(done + v)
    case Thrown(w) => Thrown(w)
  }

  method DecodeBase64Impl(s: string) returns (r: Result<seq<byte>>)
    ensures r == DecodeBase64(s)
  {
    hide DecodeQuads;
    var clean := "";
    for k := 0 to |s|
      invariant clean == s[..k]
      invariant forall i :: 0 <= i < k ==> IsCodeChar(s[i])
    {
      if IsCodeChar(s[k]) {
        clean := clean + [s[k]];
      } else {
        return Thrown("Invalid Base64 symbol");
      }
    }
    assert clean == s;
    if |clean| % 4 != 0 {
      return Thrown("Str is not in Base64 format");
    }
    r := DecodeQuadsImpl(clean);
  }

  /** The second loop of DecodeBase64. */
  method DecodeQuadsImpl(clean: string) returns (r: Result<seq<byte>>)
    requires |clean| % 4 == 0
    ensures r == DecodeQuads(clean)
  {
    hide DecodeQuad;
    var decoded: seq<byte> := [];
    var i := 0;
    assert clean[0..] == clean;
    ghost var whole := DecodeQuads(clean);
    assert whole.Ok? ==> [] + whole.value == whole.value;
    while i < |clean|
      invariant 0 <= i <= |clean| && i % 4 == 0
      invariant DecodeQuads(clean) == Prepend(decoded, DecodeQuads(clean[i..]))
    {
      assert clean[i..][..4] == clean[i..i + 4] && clean[i..][4..] == clean[i + 4..];
      var part := DecodeQuad(clean[i..i + 4]);
      if part.Thrown? {
        return part;
      }
      ghost var rest := DecodeQuads(clean[i + 4..]);
      assert rest.Ok? ==> decoded + (part.value + rest.value) == decoded + part.value + rest.value;
      decoded := decoded + part.value;
      i := i + 4;
    }
    assert decoded + [] == decoded;
    r := Ok(decoded);
  }

  // ---------------------------------------------------------------- round trip

  predicate NotLineBreak(c: char) {
    c != '\r' && c != '\n'
  }

  function StripBreaks(s: string): string {
    Filter(s, NotLineBreak)
  }

  lemma {:induction false} StripFolded(s: string)
    requires forall i :: 0 <= i < |s| ==> NotLineBreak(s[i])
    ensures StripBreaks(Folded(s)) == s
  {
    if |s| <= 76 {
      FilterAll(s, NotLineBreak);
    } else {
      FilterConcat(s[..76] + CRLF, Folded(s[76..]), NotLineBreak);
      FilterConcat(s[..76], CRLF, NotLineBreak);
      FilterAll(s[..76], NotLineBreak);
      StripFolded(s[76..]);
      assert Filter(CRLF, NotLineBreak) == "" by {
        assert CRLF[1..] == "\n" && CRLF[1..][1..] == "";
      }
    }
  }

  lemma {:induction false} QuadsOfEncoded(data: seq<byte>)
    ensures DecodeQuads(Encoded(data)) == Ok(data)
  {
    hide EncodeGroup, DecodeQuad;
    if data == [] {
    } else if |data| <= 3 {
      GroupRoundTrip(data);
      assert Encoded(data)[..4] == EncodeGroup(data) && Encoded(data)[4..] == [];
      assert data + [] == data;
    } else {
      var q, rest := EncodeGroup(data[..3]), Encoded(data[3..]);
      assert Encoded(data)[..4] == q && Encoded(data)[4..] == rest;
      GroupRoundTrip(data[..3]);
      QuadsOfEncoded(data[3..]);
      assert data[..3] + data[3..] == data;
    }
  }

  /** Stripping CR and LF from the encoder's output and decoding gives the data back. */
  lemma DecodeStripped(data: seq<byte>)
    requires |data| <= MAX_FILE_SIZE
    ensures DecodeBase64(StripBreaks(EncodeBase64(data).value)) == Ok(data)
  {
    hide Encoded, DecodeQuads, Folded, StripBreaks;
    EncodedLength(data);
    EncodedChars(data);
    StripFolded(Encoded(data));
    QuadsOfEncoded(data);
  }

  /** Fed to the decoder as it is, the output decodes exactly when it is a single line. */
  lemma DecodeUnstripped(data: seq<byte>)
    requires |data| <= MAX_FILE_SIZE
    ensures DecodeBase64(EncodeBase64(data).value) == Ok(data) <==> |data| <= 57
    ensures DecodeBase64(EncodeBase64(data).value).Thrown? <==> |data| > 57
  {
    hide Encoded, DecodeQuads;
    EncodedLength(data);
    EncodedChars(data);
    var s := Encoded(data);
    if |data| <= 57 {
      QuadsOfEncoded(data);
    } else {
      assert |s| > 76;
      assert Folded(s)[76] == '\r' && !IsCodeChar('\r');
      assert DecodeBase64(Folded(s)).Thrown?;
    }
  }

  /** Different data have different encodings. */
  lemma EncodedInjective(a: seq<byte>, b: seq<byte>)
    requires Encoded(a) == Encoded(b)
    ensures a == b
  {
    QuadsOfEncoded(a);
    QuadsOfEncoded(b);
  }

  /** The padding signs that Attachment's constructor counts (mime/include/Attachment.h). */
  function Padding(base64: string): int {
    var n := |base64|;
    if n < 2 then 0
    else (if base64[n - 1] == '=' then 1 else 0) + (if base64[n - 2] == '=' then 1 else 0)
  }

  /** Attachment's size of an encoded text. */
  function FileSize(base64: string): int {
    if base64 == [] then 0 else |base64| * 3 / 4 - Padding(base64)
  }

  lemma {:induction false} EncodedPadding(data: seq<byte>)
    requires data != []
    ensures |Encoded(data)| >= 4
    ensures 3 * |Encoded(data)| == 4 * (|data| + Padding(Encoded(data)))
  {
    hide EncodeGroup;
    if |data| <= 3 {
      GroupTail(data);
    } else {
      EncodedPadding(data[3..]);
    }
  }

  /** The size computed from the encoding without line breaks is the size of the data. */
  lemma FileSizeExact(data: seq<byte>)
    ensures FileSize(Encoded(data)) == |data|
  {
    if data != [] {
      EncodedPadding(data);
    }
  }
}

/** mime/src/MimeDecoder.cpp: encoded words, Q encoding and quoted-printable. */
module MimeDecoder {
  import opened Text
  import opened Wrappers
  import opened Base64
  import opened StringUtils
  import opened MimeEncoder

  predicate IsHex(c: char) {
    '0' <= c <= '9' || 'A' <= c <= 'F' || 'a' <= c <= 'f'
  }

  function HexValue(c: char): (v: nat)
    ensures v < 16
  {
    if '0' <= c <= '9' then c as int - '0' as int
    else if 'A' <= c <= 'F' then c as int - 'A' as int + 10
    else if 'a' <= c <= 'f' then c as int - 'a' as int + 10
    else 0
  }

  /** InternalHexToChar on two hexadecimal digits. */
  function HexChar(a: char, b: char): char {
    (16 * HexValue(a) + HexValue(b)) as char
  }

  /** An escape `=HH` at the front. */
  predicate Escaped(t: string) {
    |t| >= 3 && t[0] == '=' && IsHex(t[1]) && IsHex(t[2])
  }

  predicate HasQpArtifacts(t: string) {
    exists i :: 0 <= i < |t| && Escaped(t[i..])
  }

  method HasQpArtifactsImpl(t: string) returns (r: bool)
    ensures r <==> HasQpArtifacts(t)
  {
    var i := 0;
    while i + 2 < |t|
      invariant 0 <= i
      invariant forall j :: 0 <= j < i && j < |t| ==> !Escaped(t[j..])
    {
      assert t[i..][1] == t[i + 1] && t[i..][2] == t[i + 2];
      if t[i] == '=' && IsHex(t[i + 1]) && IsHex(t[i + 2]) {
        assert Escaped(t[i..]);
        return true;
      }
      i := i + 1;
    }
    r := false;
  }

  function DecodeQ(t: string): (r: string)
    ensures |r| <= |t|
  {
    if t == [] then ""
    else if Escaped(t) then [HexChar(t[1], t[2])] + DecodeQ(t[3..])
    else [if t[0] == '_' then ' ' else t[0]] + DecodeQ(t[1..])
  }

  lemma DecodeQAt(text: string, i: nat)
    requires i < |text|
    ensures var hex := i + 2 < |text| && text[i] == '=' && IsHex(text[i + 1]) && IsHex(text[i + 2]);
            DecodeQ(text[i..])
            == if hex then [HexChar(text[i + 1], text[i + 2])] + DecodeQ(text[i + 3..])
               else [if text[i] == '_' then ' ' else text[i]] + DecodeQ(text[i + 1..])
  {
    hide HexChar;
    DropDrop(text, i, 1);
    if i + 3 <= |text| {
      DropDrop(text, i, 3);
    }
  }

  method DecodeQEncoding(text: string) returns (decoded: string)
    ensures decoded == DecodeQ(text)
  {
    decoded := "";
    var i := 0;
    assert text[0..] == text && DecodeQ("") == "";
    hide DecodeQ, HexChar;
    while i < |text|
      invariant 0 <= i <= |text|
      invariant decoded + DecodeQ(text[i..]) == DecodeQ(text)
    {
      DecodeQAt(text, i);
      ghost var before := decoded;
      if text[i] == '_' {
        decoded := decoded + " ";
      } else if text[i] == '=' {
        if i + 2 < |text| && IsHex(text[i + 1]) && IsHex(text[i + 2]) {
          decoded := decoded + [HexChar(text[i + 1], text[i + 2])];
          i := i + 2;
        } else {
          decoded := decoded + "=";
        }
      } else {
        decoded := decoded + [text[i]];
      }
      i := i + 1;
      Assoc(before, decoded[|before|..], DecodeQ(text[i..]));
    }
    assert text[i..] == "" && decoded + "" == decoded;
  }

  /** The bytes of a soft line break at the front, which quoted-printable drops. */
  function SoftBreak(t: string): nat {
    if |t| >= 2 && t[0] == '=' && t[1] == '\r' then (if |t| >= 3 && t[2] == '\n' then 3 else 2)
    else if |t| >= 2 && t[0] == '=' && t[1] == '\n' then 2
    else 0
  }

  function QuotedPrintable(t: string): (r: string)
    ensures |r| <= |t|
  {
    if t == [] then ""
    else if SoftBreak(t) > 0 then QuotedPrintable(t[SoftBreak(t)..])
    else if Escaped(t) then [HexChar(t[1], t[2])] + QuotedPrintable(t[3..])
    else [t[0]] + QuotedPrintable(t[1..])
  }

  lemma QuotedPrintableAt(input: string, i: nat)
    requires i < |input|
    ensures var soft := SoftBreak(input[i..]);
            var hex := i + 2 < |input| && input[i] == '=' && IsHex(input[i + 1]) && IsHex(input[i + 2]);
            QuotedPrintable(input[i..])
            == if soft > 0 then QuotedPrintable(input[i + soft..])
               else if hex then [HexChar(input[i + 1], input[i + 2])] + QuotedPrintable(input[i + 3..])
               else [input[i]] + QuotedPrintable(input[i + 1..])
  {
    hide HexChar;
    DropDrop(input, i, 1);
    DropDrop(input, i, SoftBreak(input[i..]));
    if i + 3 <= |input| {
      DropDrop(input, i, 3);
    }
  }

  lemma SoftAt(input: string, i: nat)
    requires i < |input|
    ensures SoftBreak(input[i..]) > 0
       <==> input[i] == '=' && i + 1 < |input| && (input[i + 1] == '\r' || input[i + 1] == '\n')
  {
  }

  /** The skip of a soft line break, as the code writes it. */
  method SkipSoftBreak(input: string, i: nat) returns (next: nat)
    requires i + 1 < |input| && input[i] == '=' && (input[i + 1] == '\r' || input[i + 1] == '\n')
    ensures next == i + SoftBreak(input[i..]) && i < next <= |input|
  {
    next := i + 1;
    if next < |input| && input[next] == '\r' { next := next + 1; }
    if next < |input| && input[next] == '\n' { next := next + 1; }
  }

  method DecodeQuotedPrintable(input: string) returns (decoded: string)
    ensures decoded == QuotedPrintable(input)
  {
    decoded := "";
    var i := 0;
    assert input[0..] == input && QuotedPrintable("") == "";
    hide QuotedPrintable, HexChar, SoftBreak, IsHex;
    while i < |input|
      invariant 0 <= i <= |input|
      invariant decoded + QuotedPrintable(input[i..]) == QuotedPrintable(input)
    {
      QuotedPrintableAt(input, i);
      SoftAt(input, i);
      if input[i] == '=' && i + 1 < |input| && (input[i + 1] == '\r' || input[i + 1] == '\n') {
        i := SkipSoftBreak(input, i);
      } else {
        ghost var before := decoded;
        if input[i] == '=' && i + 2 < |input| && IsHex(input[i + 1]) && IsHex(input[i + 2]) {
          decoded := decoded + [HexChar(input[i + 1], input[i + 2])];
          i := i + 3;
        } else {
          decoded := decoded + [input[i]];
          i := i + 1;
        }
        Assoc(before, decoded[|before|..], QuotedPrintable(input[i..]));
      }
    }
    assert input[i..] == "" && decoded + "" == decoded;
  }

  // -------------------------------------------------------- what is undone

  /** A piece of quoted text: a character as it is, an escape by two hexadecimal digits of either case, or
      a soft line break. */
  datatype Token = Literal(c: char) | Escape(high: char, low: char) | Soft(crlf: bool)

  predicate GoodToken(t: Token) {
    match t
    case Literal(c) => c != '='
    case Escape(high, low) => IsHex(high) && IsHex(low)
    case Soft(_) => true
  }

  function RenderToken(t: Token): string {
    match t
    case Literal(c) => [c]
    case Escape(high, low) => ['=', high, low]
    case Soft(crlf) => if crlf then "=\r\n" else "=\n"
  }

  function Render(tokens: seq<Token>): string {
    if tokens == [] then "" else RenderToken(tokens[0]) + Render(tokens[1..])
  }

  /** The text that section 6.7 of RFC 2045 gives to a quoted token. In the Q encoding of section 4.2 of
      RFC 2047 an underscore stands for a blank. */
  function MeaningOf(t: Token, q: bool): string {
    match t
    case Literal(c) => if q && c == '_' then " " else [c]
    case Escape(high, low) => [HexChar(high, low)]
    case Soft(_) => ""
  }

  function Meaning(tokens: seq<Token>, q: bool): string {
    if tokens == [] then "" else MeaningOf(tokens[0], q) + Meaning(tokens[1..], q)
  }

  lemma QuotedToken(token: Token, rest: string)
    requires GoodToken(token)
    ensures QuotedPrintable(RenderToken(token) + rest) == MeaningOf(token, false) + QuotedPrintable(rest)
    ensures !token.Soft? ==> DecodeQ(RenderToken(token) + rest) == MeaningOf(token, true) + DecodeQ(rest)
  {
    hide HexChar;
    var t := RenderToken(token) + rest;
    assert t[|RenderToken(token)|..] == rest;
    assert "" + QuotedPrintable(rest) == QuotedPrintable(rest);
  }

  /** However a text is quoted, decoding gives the text. */
  lemma {:induction false} QuotedPrintableReads(tokens: seq<Token>)
    requires forall i :: 0 <= i < |tokens| ==> GoodToken(tokens[i])
    ensures QuotedPrintable(Render(tokens)) == Meaning(tokens, false)
  {
    if tokens != [] {
      hide QuotedPrintable, DecodeQ, MeaningOf, RenderToken, GoodToken;
      QuotedPrintableReads(tokens[1..]);
      QuotedToken(tokens[0], Render(tokens[1..]));
    }
  }

  lemma {:induction false} QReads(tokens: seq<Token>)
    requires forall i :: 0 <= i < |tokens| ==> GoodToken(tokens[i]) && !tokens[i].Soft?
    ensures DecodeQ(Render(tokens)) == Meaning(tokens, true)
  {
    if tokens != [] {
      hide QuotedPrintable, DecodeQ, MeaningOf, RenderToken, GoodToken;
      QReads(tokens[1..]);
      QuotedToken(tokens[0], Render(tokens[1..]));
    }
  }

  function HexDigit(v: nat): (c: char)
    requires v < 16
    ensures IsHex(c) && HexValue(c) == v
  {
    if v < 10 then ('0' as int + v) as char else ('A' as int + v - 10) as char
  }

  /** Every byte has an escape. */
  lemma EveryByteEscapes(v: nat)
    requires v < 256
    ensures HexChar(HexDigit(v / 16), HexDigit(v % 16)) == v as char
  {
  }

  // ------------------------------------------------------------ encoded words

  /** The text of one encoded word. Undecodable Base64 and unknown encodings are kept as they are. */
  function WordText(encoding: string, text: string): string {
    if encoding == "Q" || encoding == "q" then DecodeQ(text)
    else if encoding == "B" || encoding == "b" then
      match DecodeBase64(text)
      case Ok(bytes) => FromBytes(bytes)
      case Thrown(_) => text
    else text
  }

  /** Text between encoded words is dropped when it is blank. */
  function Gap(s: string, found: bool): string {
    if found && Trim(s) == [] then "" else s
  }

  /** The four separators of a word that begins the search at the front of `t`:
      `=?`, the two question marks, and `?=`. */
  datatype WordAt = NoWord | Broken(start: nat) | Whole(start: nat, q1: nat, q2: nat, end: nat)

  function FindWord(t: string): (w: WordAt)
    ensures w.Whole? ==> w.start + 2 <= w.q1 < w.q2 < w.end && w.end + 2 <= |t|
    ensures w.Broken? ==> w.start <= |t|
  {
    var start := Find(t, "=?", 0);
    if start == NPOS then NoWord
    else
      var q1 := FindChar(t, '?', start + 2);
      if q1 == NPOS then Broken(start)
      else
        var q2 := FindChar(t, '?', q1 + 1);
        if q2 == NPOS then Broken(start)
        else
          var end := Find(t, "?=", q2 + 1);
          if end == NPOS then Broken(start) else Whole(start, q1, q2, end)
  }

  function DecodeWords(t: string, found: bool): string
    decreases |t|
  {
    if t == [] then ""
    else
      match FindWord(t)
      case NoWord => Gap(t, found)
      case Broken(start) => Gap(t[..start], found) + t[start..]
      case Whole(start, q1, q2, end) =>
        Gap(t[..start], found) + WordText(t[q1 + 1..q2], t[q2 + 1..end]) + DecodeWords(t[end + 2..], true)
  }

  /** MimeDecoder::DecodeEncodedWord: a text without any encoded word may still hold Q escapes. */
  function DecodeEncodedWord(input: string): string {
    var r := DecodeWords(input, false);
    if !FindWord(input).Whole? && HasQpArtifacts(r) then DecodeQ(r) else r
  }

  /** The searches of one round of DecodeEncodedWord, from position `pos`. */
  method NextWord(input: string, pos: nat) returns (w: WordAt)
    requires pos <= |input|
    ensures w == FindWord(input[pos..])
  {
    hide Find, FindChar;
    ghost var t := input[pos..];
    var start := Find(input, "=?", pos);
    FindShift(input, "=?", pos);
    if start == NPOS {
      return NoWord;
    }
    var q1 := FindChar(input, '?', start + 2);
    CharShift(input, '?', pos, start + 2);
    if q1 == NPOS {
      return Broken(start - pos);
    }
    var q2 := FindChar(input, '?', q1 + 1);
    CharShift(input, '?', pos, q1 + 1);
    if q2 == NPOS {
      return Broken(start - pos);
    }
    var end := Find(input, "?=", q2 + 1);
    PatternShift(input, "?=", pos, q2 + 1);
    if end == NPOS {
      return Broken(start - pos);
    }
    w := Whole(start - pos, q1 - pos, q2 - pos, end - pos);
  }

  lemma CharShift(s: string, c: char, pos: nat, from: nat)
    requires pos <= from <= |s|
    ensures FindChar(s, c, from) == NPOS <==> FindChar(s[pos..], c, from - pos) == NPOS
    ensures FindChar(s, c, from) != NPOS ==> FindChar(s, c, from) == pos + FindChar(s[pos..], c, from - pos)
  {
    FindAnyShift(s, {c}, from);
    FindAnyShift(s[pos..], {c}, from - pos);
    DropDrop(s, pos, from - pos);
  }

  /** One round of the loop of DecodeEncodedWord; `stop` is its break. */
  method DecodeRound(input: string, pos: nat, found: bool, result: string)
    returns (result': string, pos': nat, stop: bool)
    requires pos < |input|
    ensures stop <==> !FindWord(input[pos..]).Whole?
    ensures stop ==> pos' == pos && result' == result + DecodeWords(input[pos..], found)
    ensures !stop ==> pos < pos' <= |input|
    ensures !stop ==> result' + DecodeWords(input[pos'..], true) == result + DecodeWords(input[pos..], found)
  {
    hide FindWord, DecodeWords, WordText, Gap;
    pos', stop := pos, true;
    DecodeWordsDef(input[pos..], found);
    var w := NextWord(input, pos);
    if w.NoWord? {
      result' := result + Gap(input[pos..], found);
      return;
    }
    var gap := Gap(input[pos..pos + w.start], found);
    DropTake(input, pos, w.start);
    DropDrop(input, pos, w.start);
    if w.Broken? {
      result' := result + (gap + input[pos + w.start..]);
      return;
    }
    assert input[pos..|input|] == input[pos..];
    SliceOfSlice(input, pos, |input|, w.q1 + 1, w.q2);
    SliceOfSlice(input, pos, |input|, w.q2 + 1, w.end);
    DropDrop(input, pos, w.end + 2);
    var part := WordText(input[pos + w.q1 + 1..pos + w.q2], input[pos + w.q2 + 1..pos + w.end]);
    pos', stop := pos + w.end + 2, false;
    Assoc4(result, gap, part, DecodeWords(input[pos'..], true));
    result' := result + gap + part;
  }

  /** The loop of DecodeEncodedWord. */
  method DecodeWordsImpl(input: string) returns (result: string, found: bool)
    ensures result == DecodeWords(input, false)
    ensures found <==> FindWord(input).Whole?
  {
    NoWords();
    hide FindWord, DecodeWords;
    result, found := "", false;
    var pos := 0;
    var stop := false;
    assert input[0..] == input && input[|input|..] == "";
    while pos < |input| && !stop
      invariant 0 <= pos <= |input|
      invariant result + (if stop then "" else DecodeWords(input[pos..], found)) == DecodeWords(input, false)
      invariant if found then FindWord(input).Whole? else pos == 0 && (stop ==> !FindWord(input).Whole?)
      decreases |input| - pos, !stop
    {
      result, pos, stop := DecodeRound(input, pos, found, result);
      found := found || !stop;
      assert result + "" == result;
    }
    assert result + "" == result;
  }

  lemma NoWords()
    ensures DecodeWords("", true) == "" && DecodeWords("", false) == "" && FindWord("") == NoWord
  {
  }

  method DecodeEncodedWordImpl(input: string) returns (result: string)
    ensures result == DecodeEncodedWord(input)
  {
    hide FindWord, DecodeWords, DecodeQ, HasQpArtifacts;
    var found;
    result, found := DecodeWordsImpl(input);
    if !found {
      var qp := HasQpArtifactsImpl(result);
      if qp {
        result := DecodeQEncoding(result);
      }
    }
  }

  lemma DecodeWordsDef(t: string, found: bool)
    requires t != []
    ensures var w := FindWord(t);
            DecodeWords(t, found)
            == if w.NoWord? then Gap(t, found)
               else if w.Broken? then Gap(t[..w.start], found) + t[w.start..]
               else Gap(t[..w.start], found) + WordText(t[w.q1 + 1..w.q2], t[w.q2 + 1..w.end])
                      + DecodeWords(t[w.end + 2..], true)
  {
    hide FindWord, WordText, Gap;
  }

  // ---------------------------------------------------------------- round trip

  /** A complete encoded word, cut at its separators. */
  function WordTail(charset: string, encoding: string, b64: string, rest: string): string {
    charset + "?" + (encoding + "?" + (b64 + "?=" + rest))
  }

  /** The first encoded word of a text is found where it stands. */
  lemma FindsWord(gap: string, charset: string, encoding: string, b64: string, rest: string)
    requires '=' !in gap && '?' !in charset && '?' !in encoding && '?' !in b64
    ensures var t := gap + "=?" + WordTail(charset, encoding, b64, rest);
            var q1 := |gap| + 2 + |charset|;
            var q2 := q1 + 1 + |encoding|;
            FindWord(t) == Whole(|gap|, q1, q2, q2 + 1 + |b64|)
  {
    var r3 := b64 + "?=" + rest;
    var r2 := encoding + "?" + r3;
    var r1 := charset + "?" + r2;
    var t := gap + "=?" + r1;
    hide Find, FindChar;
    FindAfterNoHead("", gap, "=?", r1);
    assert "" + gap == gap;
    var p1 := gap + "=?";
    Assoc4(p1, charset, "?", r2);
    FindCharAfter(p1, charset, '?', r2);
    var p2 := p1 + charset + "?";
    Assoc4(p2, encoding, "?", r3);
    FindCharAfter(p2, encoding, '?', r3);
    var p3 := p2 + encoding + "?";
    Assoc4(p3, b64, "?=", rest);
    FindAfterNoHead(p3, b64, "?=", rest);
  }

  lemma WordSlices(gap: string, charset: string, encoding: string, b64: string, rest: string)
    ensures var t := gap + "=?" + WordTail(charset, encoding, b64, rest);
            var q1 := |gap| + 2 + |charset|;
            var q2 := q1 + 1 + |encoding|;
            && |t| == q2 + 1 + |b64| + 2 + |rest|
            && t[..|gap|] == gap && t[q1 + 1..q2] == encoding
            && t[q2 + 1..q2 + 1 + |b64|] == b64 && t[q2 + 1 + |b64| + 2..] == rest
  {
    var r3 := b64 + "?=" + rest;
    var r2 := encoding + "?" + r3;
    var p1 := gap + "=?";
    Middle(gap, "=?", charset + "?" + r2);
    Assoc4(p1, charset, "?", r2);
    var p2 := p1 + charset + "?";
    Assoc4(p2, encoding, "?", r3);
    Assoc(p2 + encoding, "?", r3);
    Middle(p2, encoding, "?" + r3);
    var p3 := p2 + encoding + "?";
    Assoc4(p3, b64, "?=", rest);
    Assoc(p3 + b64, "?=", rest);
    Middle(p3, b64, "?=" + rest);
    Middle(p3 + b64, "?=", rest);
  }

  lemma WordShape(gap: string, b64: string, rest: string)
    ensures gap + ("=?UTF-8?B?" + b64 + "?=") + rest == gap + "=?" + WordTail("UTF-8", "B", b64, rest)
  {
    assert "=?UTF-8?B?" == "=?" + "UTF-8" + "?" + "B" + "?";
    Regroup(gap, "=?", "UTF-8", "?", "B", b64, "?=", rest);
  }

  lemma Regroup(gap: string, a: string, b: string, c: string, d: string, x: string, y: string, rest: string)
    ensures gap + (a + b + c + d + c + x + y) + rest == gap + a + (b + c + (d + c + (x + y + rest)))
  {
    var tail := x + y + rest;
    Assoc(gap, a + b + c + d + c + x + y, rest);
    Assoc(a + b + c + d + c + x, y, rest);
    Assoc(a + b + c + d + c, x, y + rest);
    Assoc(x, y, rest);
    Assoc(a + b + c + d, c, tail);
    Assoc(a + b + c, d, c + tail);
    Assoc(d, c, tail);
    Assoc(a + b, c, d + c + tail);
    Assoc(a, b, c + (d + c + tail));
    Assoc(b, c, d + c + tail);
    Assoc(gap, a, b + c + (d + c + tail));
  }

  predicate Blank(s: string) {
    forall i :: 0 <= i < |s| ==> IsSpace(s[i])
  }

  lemma BlankTrims(s: string)
    requires Blank(s)
    ensures Trim(s) == []
  {
    if s != [] {
      BlankTrims(s[1..]);
    }
  }

  /** What the decoder reads off a word: up to 57 bytes the chunk, above them its Base64 text, which is broken
      into lines and so not decoded. */
  function Meant(chunk: string): string {
    if |chunk| <= 57 then chunk else ToBase64(chunk)
  }

  lemma {:induction false} FoldedChars(s: string, c: char)
    requires c !in s && c != '\r' && c != '\n'
    ensures c !in Folded(s) && |Folded(s)| >= |s|
  {
    if |s| > 76 {
      FoldedChars(s[76..], c);
    }
  }

  lemma WordDecodes(chunk: string)
    requires |chunk| <= MAX_FILE_SIZE && IsOctets(chunk)
    ensures '?' !in ToBase64(chunk)
    ensures WordText("B", ToBase64(chunk)) == Meant(chunk)
  {
    hide Encoded, DecodeBase64, Folded;
    var data := ToBytes(chunk);
    DecodeUnstripped(data);
    EncodedChars(data);
    FoldedChars(Encoded(data), '?');
    BytesRoundTrip(chunk);
  }

  lemma ShortFolded(s: string)
    requires |s| <= 76
    ensures Folded(s) == s
  {
  }

  /** One word at the front, after a gap that is empty or dropped as blank. */
  lemma DecodesFirstWord(gap: string, chunk: string, rest: string, found: bool)
    requires Blank(gap) && (found || gap == "") && |chunk| <= MAX_FILE_SIZE && IsOctets(chunk)
    ensures DecodeWords(gap + Word(chunk) + rest, found) == Meant(chunk) + DecodeWords(rest, true)
    ensures FindWord(gap + Word(chunk) + rest).Whole?
  {
    hide WordText, FindWord, DecodeWords, ToBase64, Meant;
    var b64 := ToBase64(chunk);
    var t := gap + Word(chunk) + rest;
    WordShape(gap, b64, rest);
    WordDecodes(chunk);
    FindsWord(gap, "UTF-8", "B", b64, rest);
    WordSlices(gap, "UTF-8", "B", b64, rest);
    assert t == gap + "=?" + WordTail("UTF-8", "B", b64, rest) && t != [];
    hide WordTail, Word;
    DecodeWordsDef(t, found);
    BlankTrims(gap);
    assert Gap(gap, found) == "" && "" + Meant(chunk) == Meant(chunk);
  }

  // --------------------------------------------------- encoded headers round trip

  function Flatten(chunks: seq<string>): string {
    if chunks == [] then "" else chunks[0] + Flatten(chunks[1..])
  }

  /** The words after the first, each behind its separator. */
  function SeparatedWords(separator: string, chunks: seq<string>): string {
    if chunks == [] then "" else separator + Word(chunks[0]) + SeparatedWords(separator, chunks[1..])
  }

  lemma {:induction false} JoinWords(separator: string, chunks: seq<string>)
    requires chunks != []
    ensures Join(Words(chunks), separator) == Word(chunks[0]) + SeparatedWords(separator, chunks[1..])
  {
    hide Word;
    assert Words(chunks)[1..] == Words(chunks[1..]);
    if |chunks| > 1 {
      JoinWords(separator, chunks[1..]);
      var w, tail := Word(chunks[1]), SeparatedWords(separator, chunks[1..][1..]);
      Assoc(Word(chunks[0]) + separator, w, tail);
      Assoc(Word(chunks[0]), separator, w + tail);
      Assoc(separator, w, tail);
    } else {
      assert chunks[1..] == [] && Word(chunks[0]) + "" == Word(chunks[0]);
    }
  }

  ghost predicate GoodChunks(chunks: seq<string>, size: nat) {
    forall i :: 0 <= i < |chunks| ==> chunks[i] != "" && |chunks[i]| <= size && Utf8(chunks[i])
  }

  /** Chunks that the encoder takes. */
  ghost predicate Encodables(chunks: seq<string>) {
    forall i :: 0 <= i < |chunks| ==> |chunks[i]| <= MAX_FILE_SIZE && IsOctets(chunks[i])
  }

  function MeantAll(chunks: seq<string>): string {
    if chunks == [] then "" else Meant(chunks[0]) + MeantAll(chunks[1..])
  }

  lemma {:induction false} DecodesSeparatedWords(separator: string, chunks: seq<string>)
    requires Blank(separator) && Encodables(chunks)
    ensures DecodeWords(SeparatedWords(separator, chunks), true) == MeantAll(chunks)
  {
    if chunks == [] {
      NoWords();
    } else {
      var chunk, rest := chunks[0], chunks[1..];
      assert |chunk| <= MAX_FILE_SIZE && IsOctets(chunk) && Encodables(rest);
      hide *;
      SeparatedFirst(separator, chunks);
      DecodesFirstWord(separator, chunk, SeparatedWords(separator, rest), true);
      DecodesSeparatedWords(separator, rest);
    }
  }

  lemma SeparatedFirst(separator: string, chunks: seq<string>)
    requires chunks != []
    ensures SeparatedWords(separator, chunks)
            == separator + Word(chunks[0]) + SeparatedWords(separator, chunks[1..])
    ensures MeantAll(chunks) == Meant(chunks[0]) + MeantAll(chunks[1..])
  {
    hide Word, Meant;
  }

  predicate AllWithin(chunks: seq<string>, size: nat) {
    forall i :: 0 <= i < |chunks| ==> |chunks[i]| <= size
  }

  lemma MeantLonger(chunk: string)
    ensures |Meant(chunk)| >= |chunk| && (|chunk| > 57 ==> |Meant(chunk)| > |chunk|)
  {
    hide Encoded, Folded;
    EncodedLength(ToBytes(chunk));
    EncodedChars(ToBytes(chunk));
    FoldedChars(Encoded(ToBytes(chunk)), '?');
  }

  /** The words mean the text exactly when no chunk has more than 57 bytes: a longer one comes back longer. */
  lemma {:induction false} MeantIff(chunks: seq<string>)
    ensures |MeantAll(chunks)| >= |Flatten(chunks)|
    ensures MeantAll(chunks) == Flatten(chunks) <==> AllWithin(chunks, 57)
    ensures !AllWithin(chunks, 57) ==> |MeantAll(chunks)| > |Flatten(chunks)|
  {
    if chunks != [] {
      MeantIff(chunks[1..]);
      MeantLonger(chunks[0]);
      assert AllWithin(chunks, 57) <==> |chunks[0]| <= 57 && AllWithin(chunks[1..], 57) by {
        assert forall i :: 1 <= i < |chunks| ==> chunks[i] == chunks[1..][i - 1];
      }
      hide ToBase64;
    }
  }

  ghost predicate AllOctets(chunks: seq<string>) {
    forall i :: 0 <= i < |chunks| ==> IsOctets(chunks[i])
  }

  /** Where the cutting ends, the chunks are the text, each within the size. */
  lemma {:induction false} ChunksFlatten(t: string, size: nat)
    requires Chunks(t, size).Some? && IsOctets(t)
    ensures var chunks := Chunks(t, size).value;
            Flatten(chunks) == t && AllWithin(chunks, size) && (t != [] ==> chunks != []) && AllOctets(chunks)
    decreases |t|
  {
    if t != [] {
      var end := SafeEnd(t, 0, size);
      assert 0 < end <= |t| && end <= size && Chunks(t[end..], size).Some?;
      assert IsOctets(t[end..]) && IsOctets(t[..end]);
      ChunksFlatten(t[end..], size);
      ChunksUnfold(t, size);
      hide *;
      OneMore(t[..end], Chunks(t[end..], size).value, size);
      Cut(t, end);
    }
  }

  lemma OneMore(chunk: string, rest: seq<string>, size: nat)
    requires |chunk| <= size && AllWithin(rest, size) && IsOctets(chunk) && AllOctets(rest)
    ensures var chunks := [chunk] + rest;
            Flatten(chunks) == chunk + Flatten(rest) && AllWithin(chunks, size) && AllOctets(chunks)
  {
    hide IsOctets;
    assert ([chunk] + rest)[1..] == rest;
  }

  /** Cutting a text of whole characters always advances, and cuts into whole characters. */
  lemma {:induction false} ChunksOfUtf8(t: string, size: nat)
    requires Utf8(t) && size >= 4
    ensures Chunks(t, size).Some?
    ensures GoodChunks(Chunks(t, size).value, size) && Flatten(Chunks(t, size).value) == t
    ensures t != [] ==> Chunks(t, size).value != []
    decreases |t|
  {
    if t != [] {
      var end := SafeEnd(t, 0, size);
      FirstChunk(t, size);
      ChunksOfUtf8(t[end..], size);
      ChunksUnfold(t, size);
      hide *;
      ChunkAhead(t[..end], Chunks(t[end..], size).value, size);
      Cut(t, end);
    }
  }

  lemma FirstChunk(t: string, size: nat)
    requires Utf8(t) && t != [] && size >= 4
    ensures var end := SafeEnd(t, 0, size); 0 < end <= |t| && end <= size && Utf8(t[..end]) && Utf8(t[end..])
  {
    SafeEndProgress(t, size);
    hide Utf8, SafeEnd;
    Utf8Split(t, SafeEnd(t, 0, size));
  }

  lemma ChunksUnfold(t: string, size: nat)
    requires t != [] && SafeEnd(t, 0, size) > 0 && Chunks(t[SafeEnd(t, 0, size)..], size).Some?
    ensures var end := SafeEnd(t, 0, size); Chunks(t, size) == Some([t[..end]] + Chunks(t[end..], size).value)
  {
    hide SafeEnd;
  }

  lemma ChunkAhead(chunk: string, rest: seq<string>, size: nat)
    requires GoodChunks(rest, size) && chunk != "" && |chunk| <= size && Utf8(chunk)
    ensures GoodChunks([chunk] + rest, size) && Flatten([chunk] + rest) == chunk + Flatten(rest)
  {
    hide Utf8;
    assert ([chunk] + rest)[1..] == rest;
  }

  /** What EncodeHeader writes comes back if and only if no chunk has more than 57 bytes, for every text of
      bytes, every chunk size with which the encoder returns, and every blank separator. */
  lemma HeaderRoundTripIff(text: string, separator: string, size: nat)
    requires IsOctets(text) && NeedsEncoding(text) && Blank(separator)
    requires Chunks(text, size).Some? && AllWithin(Chunks(text, size).value, MAX_FILE_SIZE)
    ensures DecodeEncodedWord(EncodeHeader(text, separator, size)) == text <==>
              AllWithin(Chunks(text, size).value, 57)
  {
    assert text != [];
    hide Chunks, DecodeWords, FindWord, Word, IsOctets, HasQpArtifacts, DecodeQ, Words, Join, Meant;
    ChunksFlatten(text, size);
    var chunks := Chunks(text, size).value;
    JoinWords(separator, chunks);
    DecodesSeparatedWords(separator, chunks[1..]);
    var rest := SeparatedWords(separator, chunks[1..]);
    DecodesFirstWord("", chunks[0], rest, false);
    assert "" + Word(chunks[0]) == Word(chunks[0]);
    assert DecodeEncodedWord(EncodeHeader(text, separator, size)) == MeantAll(chunks);
    MeantIff(chunks);
  }

  /** Valid UTF-8 comes back for the chunk sizes 4 to 57. */
  lemma HeaderRoundTrip(text: string, separator: string, size: nat)
    requires Utf8(text) && NeedsEncoding(text) && 4 <= size <= 57 && Blank(separator)
    ensures Chunks(text, size).Some?
    ensures DecodeEncodedWord(EncodeHeader(text, separator, size)) == text
  {
    hide Chunks, DecodeEncodedWord, EncodeHeader, Utf8, IsOctets;
    Utf8Octets(text);
    ChunksOfUtf8(text, size);
    assert AllWithin(Chunks(text, size).value, 57);
    HeaderRoundTripIff(text, separator, size);
  }

  /** At the default chunk size of 45 no word exceeds 72 bytes, below the 75 of section 2 of RFC 2047. */
  lemma WordLength(chunk: string)
    requires |chunk| <= 45
    ensures |Word(chunk)| <= 72
  {
    hide Encoded, Folded;
    EncodedLength(ToBytes(chunk));
    ShortFolded(Encoded(ToBytes(chunk)));
  }

  /** Below four bytes the loop of EncodeHeader can stop advancing, here in front of U+1F600. */
  lemma SmallChunkSticks(size: nat)
    requires size < 4
    ensures var text := ['\U{F0}', '\U{9F}', '\U{98}', '\U{80}', 'a'];
            Utf8(text) && NeedsEncoding(text) && Chunks(text, size).None?
  {
    var text := ['\U{F0}', '\U{9F}', '\U{98}', '\U{80}', 'a'];
    assert text[4..] == "a" && text[4..][1..] == "";
    assert !IsPlain(text[0]);
    assert Run(text, 1, size);
    ChunksStuckIff(text, size);
  }

  /** A text of 58 bytes that needs encoding. */
  function LongText(): string {
    "\U{C3}\U{A9}" + seq(56, _ => 'a')
  }

  lemma LongTextIs()
    ensures |LongText()| == 58 && Utf8(LongText()) && NeedsEncoding(LongText())
  {
    var text, tail := LongText(), LongText()[2..];
    assert text[0] == '\U{C3}' && text[1] == '\U{A9}' && text[..2][1] == text[1];
    assert forall i :: 0 <= i < |tail| ==> tail[i] == 'a';
    AsciiUtf8(tail);
    assert !IsPlain(text[0]);
  }

  /** From 58 bytes on a chunk can be too long to be read. */
  lemma LargeChunkBreaks(size: nat, separator: string)
    requires size >= 58 && Blank(separator)
    ensures Returns(LongText(), size) && DecodeEncodedWord(EncodeHeader(LongText(), separator, size)) != LongText()
  {
    var text := LongText();
    LongTextIs();
    assert 58 <= MAX_FILE_SIZE;
    hide *;
    Utf8Octets(text);
    ChunksOfUtf8(text, size);
    WholeChunk(text, size);
    HeaderRoundTripIff(text, separator, size);
    ReturnsWhere(text, size);
  }

  lemma ReturnsWhere(t: string, size: nat)
    requires Chunks(t, size).Some?
    ensures Returns(t, size)
  {
  }

  lemma {:induction false} AsciiUtf8(s: string)
    requires forall i :: 0 <= i < |s| ==> s[i] as int < 0x80
    ensures Utf8(s)
  {
    if s != [] {
      AsciiUtf8(s[1..]);
      Utf8Ascii(s[0], s[1..]);
      assert [s[0]] + s[1..] == s;
    }
  }

  /** A text within the chunk size is one chunk. */
  lemma WholeChunk(t: string, size: nat)
    requires t != [] && |t| <= size && Chunks(t, size).Some?
    ensures Chunks(t, size).value == [t]
    ensures |t| <= 57 <==> AllWithin(Chunks(t, size).value, 57)
    ensures |t| <= MAX_FILE_SIZE ==> AllWithin(Chunks(t, size).value, MAX_FILE_SIZE)
  {
    assert SafeEnd(t, 0, size) == |t|;
    hide SafeEnd;
    assert t[|t|..] == [] && t[..|t|] == t;
    assert Chunks([], size) == Some([]);
    assert [t] + [] == [t];
    assert [t][0] == t;
  }

  /** The chunk sizes with which EncodeHeader comes back on every valid UTF-8 text are exactly those from four. */
  lemma ChunkSizeExact(size: nat)
    ensures (forall t: string :: Utf8(t) ==> Returns(t, size)) <==> size >= 4
  {
    hide Chunks, Utf8, NeedsEncoding;
    if size >= 4 {
      forall t: string | Utf8(t) ensures Returns(t, size) {
        ChunksOfUtf8(t, size);
      }
    } else {
      var text := ['\U{F0}', '\U{9F}', '\U{98}', '\U{80}', 'a'];
      SmallChunkSticks(size);
      assert !Returns(text, size);
    }
  }

  /** EncodeHeader returns, and its words are read back. */
  predicate ComesBack(t: string, separator: string, size: nat) {
    Returns(t, size) && DecodeEncodedWord(EncodeHeader(t, separator, size)) == t
  }

  /** Those with which every valid UTF-8 text that needs encoding also comes back are exactly 4 to 57. */
  lemma ReadableSizesExact(separator: string, size: nat)
    requires Blank(separator)
    ensures (forall t: string :: Utf8(t) && NeedsEncoding(t) ==> ComesBack(t, separator, size)) <==> 4 <= size <= 57
  {
    if size < 4 {
      var text := ['\U{F0}', '\U{9F}', '\U{98}', '\U{80}', 'a'];
      SmallChunkSticks(size);
      hide Chunks, Utf8, DecodeEncodedWord, EncodeHeader;
      assert Utf8(text) && NeedsEncoding(text) && !ComesBack(text, separator, size);
    } else if size > 57 {
      LongTextIs();
      LargeChunkBreaks(size, separator);
      hide Chunks, Utf8, DecodeEncodedWord, EncodeHeader, LongText;
      assert Utf8(LongText()) && NeedsEncoding(LongText()) && !ComesBack(LongText(), separator, size);
    } else {
      hide Chunks, Utf8, DecodeEncodedWord, EncodeHeader;
      forall t: string | Utf8(t) && NeedsEncoding(t) ensures ComesBack(t, separator, size) {
        HeaderRoundTrip(t, separator, size);
      }
    }
  }

  /** Plain header text without `=?` and without `=HH` is read as it is. */
  lemma PlainHeader(t: string)
    requires NoOccur(t, "=?") && !HasQpArtifacts(t)
    ensures DecodeEncodedWord(t) == t
  {
    ContainsIff(t, "=?");
    assert FindWord(t) == NoWord;
    assert DecodeWords(t, false) == t;
  }
}

/** mime/src/MimeEncoder.cpp: RFC 2047 encoded words. */
module MimeEncoder {
  import opened Text
  import opened Wrappers
  import opened Base64
  import opened StringUtils

  predicate IsPlain(c: char) {
    32 <= c as int <= 126
  }

  predicate NeedsEncoding(text: string) {
    exists i :: 0 <= i < |text| && !IsPlain(text[i])
  }

  method NeedsEncodingImpl(text: string) returns (r: bool)
    ensures r <==> NeedsEncoding(text)
  {
    for i := 0 to |text|
      invariant forall j :: 0 <= j < i ==> IsPlain(text[j])
    {
      if !IsPlain(text[i]) {
        return true;
      }
    }
    r := false;
  }

  predicate IsOctets(s: string) {
    forall i :: 0 <= i < |s| ==> s[i] as int < 256
  }

  function ToBytes(s: string): (b: seq<byte>)
    ensures |b| == |s|
  {
    seq(|s|, i requires 0 <= i < |s| => s[i] as int % 256)
  }

  function FromBytes(b: seq<byte>): (s: string)
    ensures |s| == |b|
  {
    seq(|b|, i requires 0 <= i < |b| => b[i] as char)
  }

  lemma BytesRoundTrip(s: string)
    requires IsOctets(s)
    ensures FromBytes(ToBytes(s)) == s
  {
  }

  lemma {:induction false} Utf8Octets(s: string)
    requires Utf8(s)
    ensures IsOctets(s)
  {
    if s != [] {
      var n := LeadLength(s[0]);
      Utf8Octets(s[n..]);
      forall i | 0 <= i < |s| ensures s[i] as int < 256 {
        if i < n {
          assert s[i] == s[..n][i];
        } else {
          assert s[i] == s[n..][i - n];
        }
      }
    }
  }

  /** MimeEncoder::ToBase64, for texts within the encoder's size limit. */
  function ToBase64(text: string): string {
    Folded(Encoded(ToBytes(text)))
  }

  function Word(chunk: string): (w: string)
    ensures |w| == |ToBase64(chunk)| + 12
  {
    "=?UTF-8?B?" + ToBase64(chunk) + "?="
  }

  /** The pieces EncodeHeader cuts the text into. None: a run of continuation bytes as long as the
      chunk size leaves no cut, and the loop of EncodeHeader does not advance any more. */
  function Chunks(t: string, size: nat): Option<seq<string>>
    decreases |t|
  {
    if t == [] then Some([])
    else
      var end := SafeEnd(t, 0, size);
      if end == 0 then None
      else
        match Chunks(t[end..], size)
        case None => None
        case Some(rest) => Some([t[..end]] + rest)
  }

  function Words(chunks: seq<string>): (w: seq<string>)
    ensures |w| == |chunks| && forall i :: 0 <= i < |w| ==> w[i] == Word(chunks[i])
  {
    seq(|chunks|, i requires 0 <= i < |chunks| => Word(chunks[i]))
  }

  /** MimeEncoder::EncodeHeader, where it returns. */
  function EncodeHeader(text: string, separator: string, size: nat): string
    requires Returns(text, size)
  {
    if NeedsEncoding(text) then Join(Words(Chunks(text, size).value), separator) else text
  }

  /** A run of continuation bytes as long as the chunk size, behind some byte. */
  ghost predicate LongRun(t: string, size: nat) {
    exists j: nat :: Run(t, j, size)
  }

  predicate Run(t: string, j: nat, size: nat) {
    1 <= j && j + size <= |t| && forall k :: j <= k < j + size ==> IsCont(t[k])
  }

  /** The first cut fails exactly where such a run stands behind the first byte. */
  lemma NoCutIff(t: string, size: nat)
    requires t != []
    ensures SafeEnd(t, 0, size) == 0 <==> Run(t, 1, size)
  {
    var end := SafeEnd(t, 0, size);
    hide SafeEnd;
    if end == 0 {
      assert !Boundary(t, |t|) || size < |t|;
      forall k | 1 <= k < 1 + size ensures IsCont(t[k]) {
        assert !Boundary(t, k);
      }
    }
  }

  lemma RunBehindCut(t: string, j: nat, end: nat, size: nat)
    requires 0 < end <= |t| && end <= size && Boundary(t, end)
    ensures Run(t, j, size) ==> end < j && Run(t[end..], j - end, size)
    ensures end < j && Run(t[end..], j - end, size) ==> Run(t, j, size)
  {
    if end <= j {
      assert forall k :: j <= k < j + size && k < |t| ==> t[end..][k - end] == t[k];
    }
  }

  /** The loop of EncodeHeader stands still exactly when the text holds such a run. */
  lemma {:induction false} ChunksStuckIff(t: string, size: nat)
    ensures Chunks(t, size).None? <==> LongRun(t, size)
    decreases |t|
  {
    if t != [] {
      var end := SafeEnd(t, 0, size);
      NoCutIff(t, size);
      assert end > 0 ==> Boundary(t, end);
      hide SafeEnd;
      if end > 0 {
        ChunksStuckIff(t[end..], size);
        if j: nat :| Run(t, j, size) {
          RunBehindCut(t, j, end, size);
        }
        if j: nat :| Run(t[end..], j, size) {
          RunBehindCut(t, j + end, end, size);
        }
      }
    }
  }

  /** The cuts, with the encoder's refusal of a chunk above the size limit. */
  function Cuts(t: string, size: nat): Result<Option<seq<string>>>
    decreases |t|
  {
    if t == [] then Ok(Some([]))
    else
      var end := SafeEnd(t, 0, size);
      if end == 0 then Ok(None)
      else if end > MAX_FILE_SIZE then Thrown("File too large")
      else Ahead(t[..end], Cuts(t[end..], size))
  }

  function Ahead(chunk: string, rest: Result<Option<seq<string>>>): Result<Option<seq<string>>> {
    if rest.Thrown? || rest.value.None? then rest else Ok(Some([chunk] + rest.value.value))
  }

  lemma {:induction false} CutsAreChunks(t: string, size: nat)
    requires size <= MAX_FILE_SIZE
    ensures Cuts(t, size) == Ok(Chunks(t, size))
    decreases |t|
  {
    if t != [] {
      var end := SafeEnd(t, 0, size);
      hide SafeEnd;
      if end > 0 {
        CutsAreChunks(t[end..], size);
      }
    }
  }

  /** What EncodeHeader makes of cuts. */
  function Header(cuts: Result<Option<seq<string>>>, separator: string): Result<Option<string>> {
    if cuts.Thrown? then Thrown(cuts.what)
    else if cuts.value.None? then Ok(None)
    else Ok(Some(Join(Words(cuts.value.value), separator)))
  }

  function Behind(done: seq<string>, cuts: Result<Option<seq<string>>>): Result<Option<seq<string>>> {
    if cuts.Thrown? || cuts.value.None? then cuts else Ok(Some(done + cuts.value.value))
  }

  lemma BehindAhead(done: seq<string>, chunk: string, rest: Result<Option<seq<string>>>)
    ensures Behind(done, Ahead(chunk, rest)) == Behind(done + [chunk], rest)
  {
    if rest.Ok? && rest.value.Some? {
      assert done + ([chunk] + rest.value.value) == done + [chunk] + rest.value.value;
    }
  }

  lemma BehindEdges(cuts: Result<Option<seq<string>>>, done: seq<string>, size: nat)
    ensures Behind([], cuts) == cuts && Behind(done, Cuts("", size)) == Ok(Some(done)) && Words([]) == []
  {
    assert done + [] == done;
    if cuts.Ok? && cuts.value.Some? {
      assert [] + cuts.value.value == cuts.value.value;
    }
  }

  lemma FirstCut(t: string, size: nat)
    requires t != []
    ensures var end := SafeEnd(t, 0, size);
            && end <= |t|
            && Cuts(t, size)
               == if end == 0 then Ok(None)
                  else if end > MAX_FILE_SIZE then Thrown("File too large")
                  else Ahead(t[..end], Cuts(t[end..], size))
  {
    hide SafeEnd, Ahead;
  }

  lemma CutsAt(text: string, i: nat, size: nat)
    requires i < |text|
    ensures var end := SafeEnd(text, i, size);
            && i <= end <= |text|
            && Cuts(text[i..], size)
               == if end == i then Ok(None)
                  else if end - i > MAX_FILE_SIZE then Thrown("File too large")
                  else Ahead(text[i..end], Cuts(text[end..], size))
  {
    hide *;
    var rest := text[i..];
    SafeEndShift(text, i, size);
    FirstCut(rest, size);
    var k := SafeEnd(rest, 0, size);
    assert SafeEnd(text, i, size) == i + k && i + k <= |text|;
    DropTake(text, i, k);
    DropDrop(text, i, k);
  }

  /** The loop of EncodeHeader. None is the loop that never ends: a chunk is empty, and the next round begins
      where this one did. */
  method EncodeHeaderImpl(text: string, separator: string, size: nat) returns (r: Result<Option<string>>)
    ensures r == if NeedsEncoding(text) then Header(Cuts(text, size), separator) else Ok(Some(text))
    ensures r == Ok(None) ==> NeedsEncoding(text) && LongRun(text, size)
    ensures size <= MAX_FILE_SIZE && NeedsEncoding(text) && LongRun(text, size) ==> r == Ok(None)
    ensures size <= MAX_FILE_SIZE && (NeedsEncoding(text) ==> !LongRun(text, size)) ==>
              Returns(text, size) && r == Ok(Some(EncodeHeader(text, separator, size)))
  {
    ReturnsIff(text, size);
    if size <= MAX_FILE_SIZE {
      CutsAreChunks(text, size);
    }
    CutsStuck(text, size);
    var needs := NeedsEncodingImpl(text);
    if !needs {
      return Ok(Some(text));
    }
    r := EncodeLoop(text, separator, size);
    hide Cuts, Chunks, Words, Join, NeedsEncoding, LongRun;
  }

  /** Where EncodeHeader comes back with a text. */
  predicate Returns(text: string, size: nat) {
    NeedsEncoding(text) ==> Chunks(text, size).Some?
  }

  lemma ReturnsIff(text: string, size: nat)
    ensures Returns(text, size) <==> !(NeedsEncoding(text) && LongRun(text, size))
  {
    hide Chunks, NeedsEncoding, LongRun;
    ChunksStuckIff(text, size);
  }

  lemma {:induction false} CutsStuck(t: string, size: nat)
    ensures Cuts(t, size) == Ok(None) ==> Chunks(t, size).None?
    decreases |t|
  {
    if t != [] {
      var end := SafeEnd(t, 0, size);
      hide SafeEnd;
      if end > 0 {
        CutsStuck(t[end..], size);
      }
    }
  }

  method EncodeLoop(text: string, separator: string, size: nat) returns (r: Result<Option<string>>)
    ensures r == Header(Cuts(text, size), separator)
  {
    ghost var all := Cuts(text, size);
    hide SafeEnd, Words, Encoded, Folded, Cuts, Behind, Ahead, Join;
    var result, i := "", 0;
    ghost var done: seq<string> := [];
    BehindEdges(all, [], size);
    assert text[0..] == text && Join([], separator) == "" by { NothingJoined(separator); }
    while i < |text|
      invariant 0 <= i <= |text|
      invariant Behind(done, Cuts(text[i..], size)) == all
      invariant result == Join(Words(done), separator)
      invariant result == [] <==> done == []
    {
      CutsAt(text, i, size);
      var end := FindUtf8SafeEnd(text, i, size);
      if end == i {
        assert all == Ok(None) by { BehindNone(done); }
        return Ok(None);
      }
      var chunk := text[i..end];
      var encoded := EncodeBase64Impl(ToBytes(chunk));
      if encoded.Thrown? {
        assert all == encoded.PropagateFailure() by { BehindThrown(done, encoded.what); }
        return Thrown(encoded.what);
      }
      BehindAhead(done, chunk, Cuts(text[end..], size));
      WordsSnoc(done, chunk, separator);
      if result != [] {
        result := result + separator;
      }
      result := result + ("=?UTF-8?B?" + encoded.value + "?=");
      done := done + [chunk];
      i := end;
    }
    assert text[i..] == "";
    BehindEdges(all, done, size);
    r := Ok(Some(result));
  }

  lemma NothingJoined(separator: string)
    ensures Join([], separator) == ""
  {
  }

  lemma BehindNone(done: seq<string>)
    ensures Behind(done, Ok(None)) == Ok(None)
  {
  }

  lemma BehindThrown(done: seq<string>, what: string)
    ensures Behind(done, Thrown(what)) == Thrown(what)
  {
  }

  lemma WordsSnoc(done: seq<string>, chunk: string, separator: string)
    ensures Join(Words(done + [chunk]), separator)
            == Join(Words(done), separator) + (if done == [] then "" else separator) + Word(chunk)
  {
    hide Word;
    assert Words(done + [chunk]) == Words(done) + [Word(chunk)];
    if done != [] {
      JoinSnoc(Words(done), Word(chunk), separator);
    }
  }
}

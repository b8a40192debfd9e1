/** The streaming Base64 decoder: base64/src/Base64StreamDecoder.cpp. */
module Base64StreamDecode {
  import opened Text
  import opened Wrappers
  import opened Base64
  import opened Base64Stream

  predicate NotBlank(c: char) {
    c != '\r' && c != '\n' && c != ' ' && c != '\t'
  }

  /** DecodePart. Only the first two characters are checked: a foreign third or fourth one has the
      table value -1, whose sign bits fill the block from its own position upwards. */
  function PartBytes(q: string): (r: Result<seq<byte>>)
    requires |q| == 4
  {
    var v0 := DecodeTable(q[0]);
    var v1 := DecodeTable(q[1]);
    var v2 := if q[2] == '=' then 0 else DecodeTable(q[2]);
    var v3 := if q[3] == '=' then 0 else DecodeTable(q[3]);
    if v0 < 0 || v1 < 0 then Thrown("Invalid Base64 character")
    else
      var b0 := if v2 < 0 || v3 < 0 then 255 else Byte0(v0, v1);
      var b1 := if v2 < 0 || v3 < 0 then 255 else Byte1(v1, v2);
      var b2 := if v3 < 0 then 255 else if v2 < 0 then 192 + v3 else Byte2(v2, v3);
      Ok([b0] + (if q[2] != '=' then [b1] else []) + (if q[3] != '=' then [b2] else []))
  }

  /** On every quantum the batch decoder accepts, the two decoders agree. */
  lemma PartAgrees(q: string)
    requires |q| == 4 && DecodeQuad(q).Ok?
    ensures PartBytes(q) == DecodeQuad(q)
  {
    hide DecodeTable, Byte0, Byte1, Byte2;
  }

  datatype Decoder = Decoder(buf: string, out: seq<byte>)

  /** One character of DecodeStream. */
  function Put(d: Decoder, c: char): Result<Decoder>
    requires |d.buf| < 4
  {
    if !NotBlank(c) then Ok(d)
    else if |d.buf| < 3 then Ok(d.(buf := d.buf + [c]))
    else
      var bytes :- PartBytes(d.buf + [c]);
      Ok(Decoder("", d.out + bytes))
  }

  function PutAll(d: Decoder, s: string): (r: Result<Decoder>)
    requires |d.buf| < 4
    ensures r.Ok? ==> |r.value.buf| < 4
    decreases |s|
  {
    if s == [] then Ok(d)
    else
      var d' :- Put(d, s[0]);
      PutAll(d', s[1..])
  }

  function PutChunks(d: Decoder, chunks: seq<string>): (r: Result<Decoder>)
    requires |d.buf| < 4
    ensures r.Ok? ==> |r.value.buf| < 4
    decreases |chunks|
  {
    if chunks == [] then Ok(d)
    else
      var d' :- PutAll(d, chunks[0]);
      PutChunks(d', chunks[1..])
  }

  predicate AllBlank(s: string) {
    forall i :: 0 <= i < |s| ==> !NotBlank(s[i])
  }

  /** A full buffer, which only an exception leaves behind, has no room for another character. */
  predicate Room(d: Decoder, s: string) {
    |d.buf| <= 4 && (|d.buf| < 4 || AllBlank(s))
  }

  /** The decoder behind DecodeStream, however that ended: an exception leaves the buffer full. */
  function Left(d: Decoder, s: string): Decoder
    requires Room(d, s)
    decreases |s|
  {
    if s == [] then d
    else if !NotBlank(s[0]) then Left(d, s[1..])
    else if Put(d, s[0]).Ok? then Left(Put(d, s[0]).value, s[1..])
    else d.(buf := d.buf + [s[0]])
  }

  /** Finalize: a partial quantum is an error, a full one is decoded again. */
  function Finalized(d: Decoder): Result<seq<byte>>
    requires |d.buf| <= 4
  {
    if d.buf == [] then Ok(d.out)
    else if |d.buf| == 4 then
      var bytes :- PartBytes(d.buf);
      Ok(d.out + bytes)
    else Thrown("Invalid Base64 stream")
  }

  /** An exception sticks: it leaves the quantum that caused it, and Finalize throws it again. */
  lemma {:induction false} LeftIs(d: Decoder, s: string)
    requires |d.buf| < 4
    ensures var left := Left(d, s);
            && |left.buf| <= 4
            && (PutAll(d, s).Ok? <==> |left.buf| < 4)
            && (PutAll(d, s).Ok? ==> left == PutAll(d, s).value)
            && (PutAll(d, s).Thrown? ==> Finalized(left) == Thrown("Invalid Base64 character"))
    decreases |s|
  {
    hide PartBytes;
    if s != [] {
      PutBound(d, s[0]);
      if Put(d, s[0]).Ok? {
        LeftIs(Put(d, s[0]).value, s[1..]);
      } else {
        PartThrows(d.buf + [s[0]]);
      }
    }
  }

  lemma PartThrows(q: string)
    requires |q| == 4 && PartBytes(q).Thrown?
    ensures PartBytes(q) == Thrown("Invalid Base64 character")
  {
  }

  /** A full buffer stays as it is. */
  lemma {:induction false} LeftFull(d: Decoder, s: string)
    requires |d.buf| == 4 && AllBlank(s)
    ensures Left(d, s) == d
    decreases |s|
  {
    if s != [] {
      LeftFull(d, s[1..]);
    }
  }

  lemma {:induction false} PutConcat(d: Decoder, a: string, b: string)
    requires |d.buf| < 4
    ensures PutAll(d, a).Ok? ==> PutAll(d, a + b) == PutAll(PutAll(d, a).value, b)
    ensures PutAll(d, a).Thrown? ==> PutAll(d, a + b) == PutAll(d, a)
    decreases |a|
  {
    hide Put;
    if a == [] {
      assert a + b == b;
    } else {
      assert (a + b)[1..] == a[1..] + b && (a + b)[0] == a[0];
      if Put(d, a[0]).Ok? {
        assert |Put(d, a[0]).value.buf| < 4 by { PutBound(d, a[0]); }
        PutConcat(Put(d, a[0]).value, a[1..], b);
      }
    }
  }

  lemma PutBound(d: Decoder, c: char)
    requires |d.buf| < 4
    ensures Put(d, c).Ok? ==> |Put(d, c).value.buf| < 4
  {
  }

  function ConcatText(chunks: seq<string>): string {
    if chunks == [] then "" else chunks[0] + ConcatText(chunks[1..])
  }

  /** Where the text is cut does not matter. */
  lemma {:induction false} ChunksDoNotMatter(d: Decoder, chunks: seq<string>)
    requires |d.buf| < 4
    ensures PutChunks(d, chunks) == PutAll(d, ConcatText(chunks))
    decreases |chunks|
  {
    hide PutAll;
    if chunks != [] {
      PutConcat(d, chunks[0], ConcatText(chunks[1..]));
      var first := PutAll(d, chunks[0]);
      if first.Ok? {
        ChunksDoNotMatter(first.value, chunks[1..]);
      }
    } else {
      PutNothing(d);
    }
  }

  lemma PutNothing(d: Decoder)
    requires |d.buf| < 4
    ensures PutAll(d, "") == Ok(d)
  {
  }

  lemma {:induction false} BlanksDoNotMatter(d: Decoder, s: string)
    requires |d.buf| < 4
    ensures PutAll(d, s) == PutAll(d, Filter(s, NotBlank))
    decreases |s|
  {
    if s != [] {
      var rest := Filter(s[1..], NotBlank);
      PutBound(d, s[0]);
      if NotBlank(s[0]) {
        assert Filter(s, NotBlank)[0] == s[0] && Filter(s, NotBlank)[1..] == rest;
        hide Put;
        if Put(d, s[0]).Ok? {
          BlanksDoNotMatter(Put(d, s[0]).value, s[1..]);
        }
      } else {
        assert Filter(s, NotBlank) == rest;
        BlanksDoNotMatter(d, s[1..]);
      }
    }
  }

  lemma PutQuad(out: seq<byte>, q: string)
    requires |q| == 4 && (forall i :: 0 <= i < 4 ==> NotBlank(q[i])) && PartBytes(q).Ok?
    ensures PutAll(Decoder("", out), q) == Ok(Decoder("", out + PartBytes(q).value))
  {
    hide PartBytes;
    var d := Decoder("", out);
    assert q[1..][1..] == q[2..] && q[1..][1..][1..] == q[3..] && q[3..][1..] == "";
    assert [q[0]] + [q[1]] + [q[2]] + [q[3]] == q;
    assert [] + [q[0]] == [q[0]];
    PutNothing(Decoder("", out + PartBytes(q).value));
    var d1, d2, d3 := d.(buf := [q[0]]), d.(buf := [q[0]] + [q[1]]), d.(buf := [q[0]] + [q[1]] + [q[2]]);
    assert Put(d, q[0]) == Ok(d1) && Put(d1, q[1]) == Ok(d2) && Put(d2, q[2]) == Ok(d3);
    assert PutAll(d2, q[2..]) == PutAll(d3, q[3..]);
    assert PutAll(d1, q[1..]) == PutAll(d2, q[2..]);
  }

  lemma {:induction false} PutEncoded(out: seq<byte>, data: seq<byte>)
    ensures PutAll(Decoder("", out), Encoded(data)) == Ok(Decoder("", out + data))
    decreases |data|
  {
    hide PutAll, EncodeGroup, PartBytes, DecodeQuad;
    if data == [] {
      PutNothing(Decoder("", out));
      assert out + [] == out;
    } else {
      var k := if |data| <= 3 then |data| else 3;
      var q, rest := EncodeGroup(data[..k]), data[k..];
      assert |data| <= 3 ==> data[..k] == data && rest == [] && q + Encoded(rest) == q;
      assert Encoded(data) == q + Encoded(rest);
      GroupChars(data[..k]);
      GroupRoundTrip(data[..k]);
      PartAgrees(q);
      PutQuad(out, q);
      PutEncoded(out + data[..k], rest);
      PutConcat(Decoder("", out), q, Encoded(rest));
      assert out + data[..k] + rest == out + data;
    }
  }

  lemma {:induction false} FilterFolded(s: string)
    requires forall i :: 0 <= i < |s| ==> NotBlank(s[i])
    ensures Filter(Folded(s), NotBlank) == s
    ensures Filter(Folded(s) + CRLF, NotBlank) == s
  {
    FilterConcat(Folded(s), CRLF, NotBlank);
    assert Filter(CRLF, NotBlank) == "" by {
      assert CRLF[1..] == "\n" && CRLF[1..][1..] == "";
    }
    if |s| <= 76 {
      FilterAll(s, NotBlank);
    } else {
      FilterConcat(s[..76] + CRLF, Folded(s[76..]), NotBlank);
      FilterConcat(s[..76], CRLF, NotBlank);
      FilterAll(s[..76], NotBlank);
      FilterFolded(s[76..]);
    }
  }

  /** Either encoder's output, cut anywhere, decodes to the data. */
  lemma StreamDecodes(data: seq<byte>, chunks: seq<string>)
    requires ConcatText(chunks) == Folded(Encoded(data)) || ConcatText(chunks) == Closed(Encoded(data))
    ensures PutChunks(Decoder("", []), chunks) == Ok(Decoder("", data))
    ensures Finalized(PutChunks(Decoder("", []), chunks).value) == Ok(data)
  {
    hide PutAll, PutChunks, Encoded, Folded, Filter, ConcatText;
    var d := Decoder("", []);
    ChunksDoNotMatter(d, chunks);
    EncodedChars(data);
    FilterFolded(Encoded(data));
    BlanksDoNotMatter(d, ConcatText(chunks));
    PutEncoded([], data);
    assert [] + data == data;
    if Encoded(data) == [] && ConcatText(chunks) == "" {
      FilterNothing();
    }
  }

  lemma FilterNothing()
    ensures Filter("", NotBlank) == ""
  {
  }

  class Base64StreamDecoder {
    var buffer: array<char>
    var bufferSize: nat

    ghost predicate Valid()
      reads this
    {
      buffer.Length == 4 && bufferSize <= 4
    }

    ghost function View(out: seq<byte>): Decoder
      requires Valid()
      reads this, buffer
    {
      Decoder(buffer[..bufferSize], out)
    }

    constructor ()
      ensures Valid() && fresh(buffer) && View([]) == Decoder("", [])
    {
      buffer := new char[4](_ => '=');
      bufferSize := 0;
    }

    /** The loop of DecodeStream; `ok` is false when DecodePart threw. */
    method DecodeStream(data: string, out: seq<byte>) returns (ok: bool, out': seq<byte>)
      requires Valid() && Room(View(out), data)
      modifies this`bufferSize, buffer
      ensures Valid() && View(out') == Left(old(View(out)), data)
      ensures ok <==> old(bufferSize) == 4 || bufferSize < 4
      ensures old(bufferSize) == 4 ==> View(out') == old(View(out))
      ensures old(bufferSize) < 4 ==>
                && (ok <==> PutAll(old(View(out)), data).Ok?)
                && (ok ==> View(out') == PutAll(old(View(out)), data).value)
    {
      hide PartBytes, PutAll;
      out' := out;
      ghost var start := View(out);
      if bufferSize < 4 {
        LeftIs(start, data);
      } else {
        LeftFull(start, data);
      }
      assert data[0..] == data;
      for i := 0 to |data|
        invariant Valid() && (bufferSize == 4 <==> |start.buf| == 4)
        invariant Room(View(out'), data[i..])
        invariant Left(View(out'), data[i..]) == Left(start, data)
      {
        var c := data[i];
        assert data[i..][0] == c && data[i..][1..] == data[i + 1..];
        if c == '\r' || c == '\n' || c == ' ' || c == '\t' {
          continue;
        }
        ghost var before := buffer[..bufferSize];
        buffer[bufferSize] := c;
        bufferSize := bufferSize + 1;
        assert buffer[..bufferSize] == before + [c];
        if bufferSize == 4 {
          assert buffer[..] == buffer[..4];
          var bytes := PartBytes(buffer[..]);
          if bytes.Thrown? {
            return false, out';
          }
          out' := out' + bytes.value;
          bufferSize := 0;
          assert buffer[..bufferSize] == "";
        }
      }
      assert data[|data|..] == "";
      ok := true;
    }

    method Finalize(out: seq<byte>) returns (r: Result<seq<byte>>)
      requires Valid()
      ensures r == Finalized(View(out))
    {
      if bufferSize != 0 {
        if bufferSize == 4 {
          assert buffer[..] == buffer[..4];
          var bytes :- PartBytes(buffer[..]);
          return Ok(out + bytes);
        }
        return Thrown("Invalid Base64 stream");
      }
      r := Ok(out);
    }
  }
}

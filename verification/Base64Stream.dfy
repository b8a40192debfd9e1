/** The streaming Base64 codec: base64/src/Base64StreamEncoder.cpp,
    base64/src/Base64StreamDecoder.cpp and the chunk loop of base64/src/AttachmentHandler.cpp. */
module Base64Stream {
  import opened Text
  import opened Wrappers
  import opened Base64

  // ---------------------------------------------------- line breaks as written

  /** What the encoder writes for the characters `s` when the line already holds `col` of them. */
  function Written(col: nat, s: string): string
    decreases |s|
  {
    if s == [] then ""
    else if col + 1 == 76 then [s[0]] + CRLF + Written(0, s[1..])
    else [s[0]] + Written(col + 1, s[1..])
  }

  function ColumnAfter(col: nat, s: string): nat
    decreases |s|
  {
    if s == [] then col else ColumnAfter(if col + 1 == 76 then 0 else col + 1, s[1..])
  }

  lemma {:induction false} WrittenConcat(col: nat, a: string, b: string)
    ensures Written(col, a + b) == Written(col, a) + Written(ColumnAfter(col, a), b)
    ensures ColumnAfter(col, a + b) == ColumnAfter(ColumnAfter(col, a), b)
    decreases |a|
  {
    if a == [] {
      assert a + b == b;
    } else {
      assert (a + b)[1..] == a[1..] + b;
      WrittenConcat(if col + 1 == 76 then 0 else col + 1, a[1..], b);
    }
  }

  /** A line that is completed gets its break at once. */
  lemma {:induction false} WrittenLine(col: nat, s: string)
    requires col < 76
    ensures col + |s| < 76 ==> Written(col, s) == s && ColumnAfter(col, s) == col + |s|
    ensures col + |s| == 76 && s != [] ==> Written(col, s) == s + CRLF && ColumnAfter(col, s) == 0
    decreases |s|
  {
    if s != [] && col + |s| <= 76 {
      WrittenFirst(col, s);
      if col + 1 == 76 {
        WrittenNothing(0);
        hide *;
        assert s == [s[0]] && s[1..] == "";
      } else {
        WrittenLine(col + 1, s[1..]);
        hide *;
        assert [s[0]] + s[1..] == s;
      }
    } else if s == [] {
      WrittenNothing(col);
    }
  }

  lemma WrittenNothing(col: nat)
    ensures Written(col, "") == "" && ColumnAfter(col, "") == col
  {
  }

  lemma WrittenFirst(col: nat, s: string)
    requires s != []
    ensures col + 1 == 76 ==> Written(col, s) == [s[0]] + CRLF + Written(0, s[1..])
                              && ColumnAfter(col, s) == ColumnAfter(0, s[1..])
    ensures col + 1 != 76 ==> Written(col, s) == [s[0]] + Written(col + 1, s[1..])
                              && ColumnAfter(col, s) == ColumnAfter(col + 1, s[1..])
  {
  }

  /** A text closed as Finalize closes it: every line ends in CRLF. */
  function Closed(s: string): string {
    if s == [] then "" else Folded(s) + CRLF
  }

  lemma {:induction false} WrittenIsClosed(s: string)
    ensures Written(0, s) + (if ColumnAfter(0, s) > 0 then CRLF else "") == Closed(s)
  {
    if |s| <= 76 {
      WrittenLine(0, s);
    } else {
      WrittenLine(0, s[..76]);
      WrittenConcat(0, s[..76], s[76..]);
      assert s[..76] + s[76..] == s;
      WrittenIsClosed(s[76..]);
      assert Folded(s) + CRLF == s[..76] + CRLF + (Folded(s[76..]) + CRLF);
      assert s[..76] + CRLF + Written(0, s[76..]) == Written(0, s);
    }
  }

  // ------------------------------------------------------- encoder as a function

  /** The encoder's fields and what it has written. */
  datatype Encoder = Encoder(pending: seq<byte>, col: nat, total: nat, out: string)

  const FRESH := Encoder([], 0, 0, "")

  /** The bytes one EncodeStream call encodes and those it keeps, given the pending ones. */
  function Emit(p: seq<byte>, d: seq<byte>): seq<byte>
    requires |p| <= 3
  {
    var i := Topped(|p|, |d|);
    (if |p| == 3 then p else []) + d[i..i + 3 * ((|d| - i) / 3)]
  }

  function Keep(p: seq<byte>, d: seq<byte>): (q: seq<byte>)
    requires |p| <= 3
    ensures |q| == KeepSize(|p|, |d|) <= 3
  {
    var i := Topped(|p|, |d|);
    var head := if |p| == 3 then [] else p + d[..i];
    var rest := d[i + 3 * ((|d| - i) / 3)..];
    head + rest[..if |rest| <= 3 - |head| then |rest| else 3 - |head|]
  }

  /** One pending byte is topped up to two, never to three. */
  function Topped(p: nat, d: nat): nat {
    if p == 1 && d > 0 then 1 else 0
  }

  function KeepSize(p: nat, d: nat): nat
    requires p <= 3
  {
    var i := Topped(p, d);
    var head := if p == 3 then 0 else p + i;
    var rest := d - i - 3 * ((d - i) / 3);
    if head + rest <= 3 then head + rest else 3
  }

  /** Base64StreamEncoder::EncodeStream. */
  function Feed(e: Encoder, d: seq<byte>): Result<Encoder>
    requires |e.pending| <= 3
  {
    if e.total + |d| > MAX_FILE_SIZE then Thrown("File too large for Base64 encoding")
    else
      var text := Encoded(Emit(e.pending, d));
      Ok(Encoder(Keep(e.pending, d), ColumnAfter(e.col, text), e.total + |d|, e.out + Written(e.col, text)))
  }

  function FeedAll(e: Encoder, chunks: seq<seq<byte>>): (r: Result<Encoder>)
    requires |e.pending| <= 3
    ensures r.Ok? ==> |r.value.pending| <= 3
    decreases |chunks|
  {
    if chunks == [] then Ok(e)
    else
      var e' :- Feed(e, chunks[0]);
      FeedAll(e', chunks[1..])
  }

  /** Base64StreamEncoder::Finalize: the whole text written. */
  function Finish(e: Encoder): string {
    var text := Encoded(e.pending);
    e.out + Written(e.col, text) + (if ColumnAfter(e.col, text) > 0 then CRLF else "")
  }

  // ----------------------------------------------------- what the stream encodes

  function Concat(chunks: seq<seq<byte>>): seq<byte> {
    if chunks == [] then [] else chunks[0] + Concat(chunks[1..])
  }

  /** The bytes that reach the output, in output order, starting from pending bytes `p`. */
  function Flow(p: seq<byte>, chunks: seq<seq<byte>>): seq<byte>
    requires |p| <= 3
    decreases |chunks|
  {
    if chunks == [] then p else Emit(p, chunks[0]) + Flow(Keep(p, chunks[0]), chunks[1..])
  }

  lemma EmitGroups(p: seq<byte>, d: seq<byte>)
    requires |p| <= 3
    ensures exists g: nat :: |Emit(p, d)| == 3 * g
  {
    var i := Topped(|p|, |d|);
    var k := (|d| - i) / 3;
    assert |Emit(p, d)| == 3 * (if |p| == 3 then k + 1 else k);
  }

  /** Feeding and finishing writes the encoding of the flow, whatever the chunking. */
  lemma {:induction false} StreamEncodesFlow(e: Encoder, chunks: seq<seq<byte>>)
    requires |e.pending| <= 3 && e.total + |Concat(chunks)| <= MAX_FILE_SIZE
    ensures FeedAll(e, chunks).Ok?
    ensures var text := Encoded(Flow(e.pending, chunks));
            Finish(FeedAll(e, chunks).value)
            == e.out + Written(e.col, text) + (if ColumnAfter(e.col, text) > 0 then CRLF else "")
    decreases |chunks|
  {
    hide Encoded, Emit, Keep, Written, ColumnAfter;
    if chunks != [] {
      var d, tail := chunks[0], chunks[1..];
      var emitted, kept := Emit(e.pending, d), Keep(e.pending, d);
      var e' := Feed(e, d).value;
      StreamEncodesFlow(e', tail);
      EmitGroups(e.pending, d);
      var g: nat :| |emitted| == 3 * g;
      EncodedConcat(emitted, Flow(kept, tail), g);
      WrittenConcat(e.col, Encoded(emitted), Encoded(Flow(kept, tail)));
    }
  }

  // ------------------------------------------------------- the chunking condition

  /** A call that starts with 0 or 3 pending bytes, or whose bytes fit the pending group. */
  predicate GoodCall(p: nat, d: nat) {
    p == 0 || p == 3 || p + d <= 3
  }

  predicate GoodSizes(p: nat, sizes: seq<nat>)
    requires p <= 3
    decreases |sizes|
  {
    sizes == [] || (GoodCall(p, sizes[0]) && GoodSizes(KeepSize(p, sizes[0]), sizes[1..]))
  }

  function Sizes(chunks: seq<seq<byte>>): (s: seq<nat>)
    ensures |s| == |chunks|
  {
    seq(|chunks|, i requires 0 <= i < |chunks| => |chunks[i]|)
  }

  lemma GoodCallKeepsOrder(p: seq<byte>, d: seq<byte>)
    requires |p| <= 3 && GoodCall(|p|, |d|)
    ensures Emit(p, d) + Keep(p, d) == p + d
  {
    if |p| == 0 || |p| == 3 {
      WholeGroupCall(p, d);
    } else {
      FittingCall(p, d);
    }
  }

  lemma WholeGroupEmit(p: seq<byte>, d: seq<byte>)
    requires |p| == 0 || |p| == 3
    ensures Emit(p, d) == p + d[..3 * (|d| / 3)]
  {
  }

  lemma WholeGroupKeep(p: seq<byte>, d: seq<byte>)
    requires |p| == 0 || |p| == 3
    ensures Keep(p, d) == d[3 * (|d| / 3)..]
  {
    var rest := d[3 * (|d| / 3)..];
    assert |rest| <= 2 && rest[..|rest|] == rest && d[..0] == [];
    assert p == [] ==> p + d[..0] == [];
  }

  lemma WholeGroupCall(p: seq<byte>, d: seq<byte>)
    requires |p| == 0 || |p| == 3
    ensures Emit(p, d) + Keep(p, d) == p + d
  {
    var k := 3 * (|d| / 3);
    WholeGroupEmit(p, d);
    WholeGroupKeep(p, d);
    hide Emit, Keep;
    SplitAt(d, k);
    assert p + d[..k] + d[k..] == p + (d[..k] + d[k..]);
  }

  lemma FittingCall(p: seq<byte>, d: seq<byte>)
    requires 1 <= |p| <= 2 && |p| + |d| <= 3
    ensures Emit(p, d) == [] && Keep(p, d) == p + d
  {
    var i := Topped(|p|, |d|);
    assert (|d| - i) / 3 == 0;
    SplitAt(d, i);
    assert p + d[..i] + d[i..] == p + (d[..i] + d[i..]);
  }

  lemma SplitAt(d: seq<byte>, k: nat)
    requires k <= |d|
    ensures d[..k] + d[k..] == d
  {
  }

  lemma {:induction false} GoodSizesKeepOrder(p: seq<byte>, chunks: seq<seq<byte>>)
    requires |p| <= 3 && GoodSizes(|p|, Sizes(chunks))
    ensures Flow(p, chunks) == p + Concat(chunks)
    decreases |chunks|
  {
    hide Emit, Keep, KeepSize;
    if chunks == [] {
      assert p + [] == p;
    } else {
      var d, tail := chunks[0], chunks[1..];
      assert Sizes(chunks)[1..] == Sizes(tail);
      GoodCallKeepsOrder(p, d);
      GoodSizesKeepOrder(Keep(p, d), tail);
      assert Emit(p, d) + (Keep(p, d) + Concat(tail)) == Emit(p, d) + Keep(p, d) + Concat(tail);
      assert p + d + Concat(tail) == p + (d + Concat(tail));
    }
  }

  lemma FlowFromFresh(chunks: seq<seq<byte>>)
    requires |Concat(chunks)| <= MAX_FILE_SIZE
    ensures FeedAll(FRESH, chunks).Ok?
    ensures Finish(FeedAll(FRESH, chunks).value) == Closed(Encoded(Flow([], chunks)))
  {
    hide Encoded, Flow, FeedAll, Finish, Written, ColumnAfter, Closed;
    StreamEncodesFlow(FRESH, chunks);
    var text := Encoded(Flow([], chunks));
    WrittenIsClosed(text);
    assert "" + Written(0, text) == Written(0, text);
  }

  /** Under the condition, streaming is batch encoding plus one final CRLF. */
  lemma StreamIsBatch(chunks: seq<seq<byte>>)
    requires |Concat(chunks)| <= MAX_FILE_SIZE && GoodSizes(0, Sizes(chunks))
    ensures FeedAll(FRESH, chunks).Ok?
    ensures Finish(FeedAll(FRESH, chunks).value) == Closed(Encoded(Concat(chunks)))
  {
    hide Encoded, FeedAll, Finish, GoodSizes, Closed;
    FlowFromFresh(chunks);
    GoodSizesKeepOrder([], chunks);
    assert [] + Concat(chunks) == Concat(chunks);
  }

  // ------------------------------------- outside it, bytes are reordered or dropped

  lemma CallSizes(p: seq<byte>, d: seq<byte>)
    requires |p| <= 3
    ensures |Emit(p, d)| + |Keep(p, d)| <= |p| + |d|
  {
  }

  lemma {:induction false} FlowNeverGrows(p: seq<byte>, chunks: seq<seq<byte>>)
    requires |p| <= 3
    ensures |Flow(p, chunks)| <= |p| + |Concat(chunks)|
    decreases |chunks|
  {
    hide Emit, Keep;
    if chunks != [] {
      CallSizes(p, chunks[0]);
      FlowNeverGrows(Keep(p, chunks[0]), chunks[1..]);
    }
  }

  function Fill(n: nat, b: byte): (s: seq<byte>)
    ensures |s| == n && forall i :: 0 <= i < n ==> s[i] == b
  {
    seq(n, _ => b)
  }

  function FillAll(sizes: seq<nat>, b: byte): (r: seq<seq<byte>>)
    ensures |r| == |sizes| && Sizes(r) == sizes
  {
    var r := seq(|sizes|, i requires 0 <= i < |sizes| => Fill(sizes[i], b));
    assert Sizes(r) == sizes;
    r
  }

  /** A violating call misplaces or loses a byte as soon as its bytes differ from the pending ones. */
  lemma BadCallWitness(p: seq<byte>, sizes: seq<nat>) returns (chunks: seq<seq<byte>>)
    requires |p| <= 3 && p == Fill(|p|, 0) && sizes != [] && !GoodCall(|p|, sizes[0])
    ensures Sizes(chunks) == sizes && Flow(p, chunks) != p + Concat(chunks)
  {
    chunks := FillAll(sizes, 1);
    assert Sizes(chunks)[0] == |chunks[0]| && chunks[0] == Fill(sizes[0], 1);
    var d, tail := chunks[0], chunks[1..];
    var i := Topped(|p|, |d|);
    if |d| - i >= 3 {
      assert (|d| - i) / 3 >= 1;
      assert Emit(p, d)[0] == d[i] == 1;
      assert Flow(p, chunks)[0] == 1 && (p + Concat(chunks))[0] == p[0] == 0;
    } else {
      assert |d| - i == 2 && |Emit(p, d)| + |Keep(p, d)| < |p| + |d|;
      FlowNeverGrows(Keep(p, d), tail);
    }
  }

  lemma KeptZeros(p: seq<byte>, d: seq<byte>)
    requires |p| <= 3 && p == Fill(|p|, 0) && d == Fill(|d|, 0) && GoodCall(|p|, |d|)
    ensures Keep(p, d) == Fill(|Keep(p, d)|, 0)
  {
    GoodCallKeepsOrder(p, d);
    hide *;
    var e, kept := Emit(p, d), Keep(p, d);
    forall i | 0 <= i < |kept| ensures kept[i] == 0 {
      assert kept[i] == (e + kept)[|e| + i] == (p + d)[|e| + i];
    }
  }

  lemma {:induction false} BadSizesWitness(p: seq<byte>, sizes: seq<nat>) returns (chunks: seq<seq<byte>>)
    requires |p| <= 3 && p == Fill(|p|, 0) && !GoodSizes(|p|, sizes)
    ensures Sizes(chunks) == sizes && Flow(p, chunks) != p + Concat(chunks)
    decreases |sizes|
  {
    hide Emit, Keep, KeepSize, Flow;
    if !GoodCall(|p|, sizes[0]) {
      chunks := BadCallWitness(p, sizes);
    } else {
      var d := Fill(sizes[0], 0);
      var kept := Keep(p, d);
      GoodCallKeepsOrder(p, d);
      KeptZeros(p, d);
      var tail := BadSizesWitness(kept, sizes[1..]);
      chunks := [d] + tail;
      PrependedDiffers(p, d, tail);
      assert Sizes(chunks) == [|d|] + Sizes(tail) == sizes;
    }
  }

  lemma PrependedDiffers(p: seq<byte>, d: seq<byte>, tail: seq<seq<byte>>)
    requires |p| <= 3 && Emit(p, d) + Keep(p, d) == p + d
    requires Flow(Keep(p, d), tail) != Keep(p, d) + Concat(tail)
    ensures Flow(p, [d] + tail) != p + Concat([d] + tail)
  {
    hide Emit, Keep;
    var chunks := [d] + tail;
    assert chunks[0] == d && chunks[1..] == tail;
    var e, k := Emit(p, d), Keep(p, d);
    assert Flow(p, chunks) == e + Flow(k, tail) && Concat(chunks) == d + Concat(tail);
    hide *;
    Reassociate(p, d, e, k, Concat(tail));
    if e + Flow(k, tail) == e + (k + Concat(tail)) {
      Cancel(e, Flow(k, tail), k + Concat(tail));
    }
  }

  lemma Reassociate(p: seq<byte>, d: seq<byte>, e: seq<byte>, k: seq<byte>, c: seq<byte>)
    requires e + k == p + d
    ensures p + (d + c) == e + (k + c)
  {
    assert p + (d + c) == p + d + c && e + k + c == e + (k + c);
  }

  lemma Cancel(e: seq<byte>, x: seq<byte>, y: seq<byte>)
    requires e + x == e + y
    ensures x == y
  {
    assert (e + x)[|e|..] == x && (e + y)[|e|..] == y;
  }

  lemma ClosedInjective(a: seq<byte>, b: seq<byte>)
    requires Closed(Encoded(a)) == Closed(Encoded(b))
    ensures a == b
  {
    hide Encoded, Folded, StripBreaks;
    var s, t := Encoded(a), Encoded(b);
    if s != [] && t != [] {
      assert Folded(s) == Closed(s)[..|Closed(s)| - 2] && Folded(t) == Closed(t)[..|Closed(t)| - 2];
      EncodedChars(a);
      EncodedChars(b);
      StripFolded(s);
      StripFolded(t);
    }
    EncodedInjective(a, b);
  }

  ghost predicate StreamsLikeBatch(chunks: seq<seq<byte>>) {
    && FeedAll(FRESH, chunks).Ok?
    && Finish(FeedAll(FRESH, chunks).value) == Closed(Encoded(Concat(chunks)))
  }

  function Sum(sizes: seq<nat>): nat {
    if sizes == [] then 0 else sizes[0] + Sum(sizes[1..])
  }

  lemma {:induction false} ConcatSize(chunks: seq<seq<byte>>)
    ensures |Concat(chunks)| == Sum(Sizes(chunks))
  {
    if chunks != [] {
      assert Sizes(chunks)[1..] == Sizes(chunks[1..]);
      ConcatSize(chunks[1..]);
    }
  }

  /** The chunk sizes decide: they are good exactly when every content streams like the batch form. */
  lemma ChunkingExact(sizes: seq<nat>)
    requires Sum(sizes) <= MAX_FILE_SIZE
    ensures GoodSizes(0, sizes)
            <==> forall chunks: seq<seq<byte>> | Sizes(chunks) == sizes :: StreamsLikeBatch(chunks)
  {
    hide FeedAll, Finish, Encoded, Flow, GoodSizes, Closed;
    if GoodSizes(0, sizes) {
      forall chunks: seq<seq<byte>> | Sizes(chunks) == sizes ensures StreamsLikeBatch(chunks) {
        ConcatSize(chunks);
        StreamIsBatch(chunks);
      }
    } else {
      var chunks := BadSizesWitness([], sizes);
      ConcatSize(chunks);
      FlowFromFresh(chunks);
      assert [] + Concat(chunks) == Concat(chunks);
      if StreamsLikeBatch(chunks) {
        ClosedInjective(Flow([], chunks), Concat(chunks));
      }
    }
  }

  // ------------------------------------------------------------- whole files

  /** The reads of AttachmentHandler::EncodeFile: full buffers, then the remainder. */
  function FileChunks(file: seq<byte>): seq<seq<byte>> {
    if file == [] then []
    else if |file| <= 3072 then [file]
    else [file[..3072]] + FileChunks(file[3072..])
  }

  lemma {:induction false} FileChunksGood(file: seq<byte>)
    ensures Concat(FileChunks(file)) == file
    ensures GoodSizes(0, Sizes(FileChunks(file)))
  {
    assert KeepSize(0, 3072) == 0;
    hide KeepSize;
    if file == [] {
    } else if |file| <= 3072 {
      assert [file][1..] == [] && file + [] == file && Sizes([file])[1..] == [];
    } else {
      var c, rest := file[..3072], FileChunks(file[3072..]);
      FileChunksGood(file[3072..]);
      PrependGood(c, rest);
      SplitAt(file, 3072);
    }
  }

  lemma PrependGood(c: seq<byte>, rest: seq<seq<byte>>)
    requires |c| == 3072 && KeepSize(0, 3072) == 0 && GoodSizes(0, Sizes(rest))
    ensures Concat([c] + rest) == c + Concat(rest) && GoodSizes(0, Sizes([c] + rest))
  {
    hide KeepSize;
    assert ([c] + rest)[1..] == rest && Sizes([c] + rest)[1..] == Sizes(rest);
  }

  /** A file is encoded exactly as the batch encoder encodes it, plus the final CRLF. */
  lemma EncodeFileIsBatch(file: seq<byte>)
    requires |file| <= MAX_FILE_SIZE
    ensures FeedAll(FRESH, FileChunks(file)).Ok?
    ensures Finish(FeedAll(FRESH, FileChunks(file)).value) == Closed(Encoded(file))
  {
    FileChunksGood(file);
    StreamIsBatch(FileChunks(file));
  }

  // ------------------------------------------------------- the encoder as a class

  lemma TailGrows(head: seq<byte>, data: seq<byte>, from: nat, i: nat)
    requires from <= i < |data|
    ensures head + data[from..i] + [data[i]] == head + data[from..i + 1]
  {
  }

  class Base64StreamEncoder {
    var left: array<byte>
    var leftSize: nat
    var lineLength: nat
    var totalEncoded: nat

    ghost predicate Valid()
      reads this
    {
      left.Length == 3 && leftSize <= 3
    }

    /** The fields as a value, beside the text `out` written so far. */
    ghost function View(out: string): (e: Encoder)
      requires Valid()
      reads this, left
      ensures |e.pending| <= 3
    {
      Encoder(left[..leftSize], lineLength, totalEncoded, out)
    }

    constructor ()
      ensures Valid() && fresh(left) && View("") == FRESH
    {
      left := new byte[3](_ => 0);
      leftSize, lineLength, totalEncoded := 0, 0, 0;
    }

    method EncodePart(data: seq<byte>, out: string) returns (out': string)
      requires 1 <= |data| <= 3
      modifies this`lineLength
      ensures out' == out + Written(old(lineLength), EncodeGroup(data))
      ensures lineLength == ColumnAfter(old(lineLength), EncodeGroup(data))
    {
      hide EncodeGroup;
      var chars := EncodeGroup(data);
      out' := out;
      assert chars[0..] == chars;
      for k := 0 to 4
        invariant out' + Written(lineLength, chars[k..]) == out + Written(old(lineLength), chars)
        invariant ColumnAfter(lineLength, chars[k..]) == ColumnAfter(old(lineLength), chars)
      {
        assert chars[k..][1..] == chars[k + 1..] && chars[k..][0] == chars[k];
        ghost var before := out';
        ghost var rest := chars[k + 1..];
        out' := out' + [chars[k]];
        lineLength := lineLength + 1;
        if lineLength == 76 {
          out' := out' + CRLF;
          lineLength := 0;
          assert before + ([chars[k]] + CRLF + Written(0, rest)) == out' + Written(0, rest);
        } else {
          assert before + ([chars[k]] + Written(lineLength, rest)) == out' + Written(lineLength, rest);
        }
      }
      assert chars[4..] == "";
    }

    /** The first loop of EncodeStream: it stops at two pending bytes. */
    method TopUp(data: seq<byte>) returns (i: nat)
      requires Valid()
      modifies left, this`leftSize
      ensures Valid() && i == Topped(old(leftSize), |data|)
      ensures left[..leftSize] == old(left[..leftSize]) + data[..i]
    {
      i := 0;
      ghost var pending := left[..leftSize];
      if leftSize > 0 {
        while leftSize < 3 && i < |data|
          invariant Valid() && i <= |data| && leftSize == |pending| + i
          invariant i == 0 || (i == 1 && |pending| == 1)
          invariant left[..leftSize] == pending + data[..i]
        {
          if leftSize >= 2 {
            break;
          }
          left[leftSize] := data[i];
          leftSize, i := leftSize + 1, i + 1;
        }
      }
    }

    /** The second loop: whole groups straight from the input. */
    method EncodeTriples(data: seq<byte>, from: nat, out: string,
                         ghost out0: string, ghost col0: nat, ghost pre: seq<byte>, ghost groups: nat)
      returns (i: nat, out': string)
      requires from <= |data| && |pre| == 3 * groups
      requires out == out0 + Written(col0, Encoded(pre)) && lineLength == ColumnAfter(col0, Encoded(pre))
      modifies this`lineLength
      ensures i == from + 3 * ((|data| - from) / 3)
      ensures out' == out0 + Written(col0, Encoded(pre + data[from..i]))
      ensures lineLength == ColumnAfter(col0, Encoded(pre + data[from..i]))
    {
      hide Encoded, EncodeGroup, Written, ColumnAfter;
      i, out' := from, out;
      ghost var k := 0;
      assert pre + data[from..from] == pre;
      while i + 3 <= |data|
        invariant i == from + 3 * k <= |data|
        invariant out' == out0 + Written(col0, Encoded(pre + data[from..i]))
        invariant lineLength == ColumnAfter(col0, Encoded(pre + data[from..i]))
      {
        WriteGroup(col0, pre + data[from..i], data[i..i + 3], groups + k);
        assert pre + data[from..i] + data[i..i + 3] == pre + data[from..i + 3];
        out' := EncodePart(data[i..i + 3], out');
        i, k := i + 3, k + 1;
      }
    }

    /** The last loop: as many of the remaining bytes as the buffer holds. */
    method KeepTail(data: seq<byte>, from: nat)
      requires Valid() && from <= |data|
      modifies left, this`leftSize
      ensures Valid()
      ensures var room := 3 - old(leftSize);
              left[..leftSize] == old(left[..leftSize])
                + data[from..][..if |data| - from <= room then |data| - from else room]
    {
      var i := from;
      ghost var head := left[..leftSize];
      while i < |data| && leftSize < 3
        invariant Valid() && from <= i <= |data| && leftSize == |head| + i - from
        invariant left[..leftSize] == head + data[from..i]
      {
        ghost var before := left[..leftSize];
        TailGrows(head, data, from, i);
        left[leftSize] := data[i];
        assert left[..leftSize + 1] == before + [data[i]];
        leftSize, i := leftSize + 1, i + 1;
      }
      assert data[from..][..i - from] == data[from..i];
    }

    method EncodeStream(data: seq<byte>, out: string) returns (ok: bool, out': string)
      requires Valid()
      modifies this, left
      ensures Valid() && left == old(left)
      ensures ok <==> Feed(old(View(out)), data).Ok?
      ensures ok ==> View(out') == Feed(old(View(out)), data).value
      ensures !ok ==> View(out') == old(View(out))
    {
      hide Encoded, EncodeGroup, Written, ColumnAfter, Emit, Keep;
      out' := out;
      if totalEncoded + |data| > MAX_FILE_SIZE {
        return false, out;
      }
      totalEncoded := totalEncoded + |data|;
      ghost var pending, col := left[..leftSize], lineLength;
      var start := TopUp(data);
      WriteNothing(out, col);
      ghost var flushed: seq<byte>, groups := [], 0;
      if leftSize == 3 {
        assert left[..3] == left[..] && pending + data[..0] == pending;
        WriteGroup(col, [], pending, 0);
        assert [] + pending == pending;
        out' := EncodePart(left[..], out');
        leftSize := 0;
        flushed, groups := pending, 1;
      }
      var i;
      i, out' := EncodeTriples(data, start, out', out, col, flushed, groups);
      CallShape(pending, data, start, i, flushed, left[..leftSize]);
      KeepTail(data, i);
      ok := true;
    }

    method Finalize(out: string) returns (out': string)
      requires Valid()
      modifies this`leftSize, this`lineLength
      ensures Valid() && leftSize == 0 && out' == Finish(old(View(out)))
    {
      hide Written, ColumnAfter, Encoded, EncodeGroup;
      out' := out;
      ghost var pending := left[..leftSize];
      WriteNothing(out, lineLength);
      if leftSize > 0 {
        EncodedGroup(pending);
        out' := EncodePart(left[..leftSize], out');
        leftSize := 0;
      } else {
        assert pending == [];
      }
      if lineLength > 0 {
        out' := out' + CRLF;
      }
    }
  }

  lemma CallShape(p: seq<byte>, d: seq<byte>, start: nat, i: nat, flushed: seq<byte>, head: seq<byte>)
    requires |p| <= 3 && start == Topped(|p|, |d|) && i == start + 3 * ((|d| - start) / 3)
    requires flushed == if |p| == 3 then p else []
    requires head == if |p| == 3 then [] else p + d[..start]
    ensures Emit(p, d) == flushed + d[start..i]
    ensures var room := 3 - |head|;
            Keep(p, d) == head + d[i..][..if |d| - i <= room then |d| - i else room]
  {
  }

  lemma WriteNothing(out: string, col: nat)
    ensures Encoded([]) == "" && out == out + Written(col, Encoded([])) && col == ColumnAfter(col, Encoded([]))
  {
  }

  lemma WriteGroup(col: nat, done: seq<byte>, g: seq<byte>, groups: nat)
    requires |done| == 3 * groups && |g| == 3
    ensures var at := ColumnAfter(col, Encoded(done));
            && Written(col, Encoded(done + g)) == Written(col, Encoded(done)) + Written(at, EncodeGroup(g))
            && ColumnAfter(col, Encoded(done + g)) == ColumnAfter(at, EncodeGroup(g))
  {
    hide EncodeGroup, Encoded, Written, ColumnAfter;
    EncodedConcat(done, g, groups);
    EncodedGroup(g);
    WrittenConcat(col, Encoded(done), EncodeGroup(g));
  }

  lemma FileChunksEnd(e: Encoder)
    requires |e.pending| <= 3
    ensures FeedAll(e, FileChunks([])) == Ok(e)
  {
  }

  lemma FileChunksStep(e: Encoder, file: seq<byte>, pos: nat, end: nat)
    requires |e.pending| <= 3 && pos < |file|
    requires end == if pos + 3072 < |file| then pos + 3072 else |file|
    ensures Feed(e, file[pos..end]).Ok? <==> e.total + end - pos <= MAX_FILE_SIZE
    ensures Feed(e, file[pos..end]).Ok? ==>
              var e' := Feed(e, file[pos..end]).value;
              && e'.total == e.total + end - pos && |e'.pending| <= 3
              && FeedAll(e, FileChunks(file[pos..])) == FeedAll(e', FileChunks(file[end..]))
  {
    hide Encoded, Emit, Keep, Written, ColumnAfter;
    var rest := file[pos..];
    var c, tail := file[pos..end], FileChunks(file[end..]);
    if end < |file| {
      assert rest[..3072] == c && rest[3072..] == file[end..];
    } else {
      assert rest == c && file[end..] == [] && [c] + tail == [c];
    }
    assert FileChunks(rest) == [c] + tail;
    assert ([c] + tail)[0] == c && ([c] + tail)[1..] == tail;
  }

  /** AttachmentHandler::EncodeFile: one encoder fed the buffers of FileChunks, then finalized. */
  method EncodeFile(file: seq<byte>) returns (r: Result<string>)
    ensures r.Ok? <==> |file| <= MAX_FILE_SIZE
    ensures r.Ok? ==> r.value == Closed(Encoded(file))
  {
    hide Encoded, Feed, FeedAll, Finish, Closed, FileChunks;
    var encoder := new Base64StreamEncoder();
    var out := "";
    var pos := 0;
    ghost var e := FRESH;
    assert file[0..] == file;
    while pos < |file|
      invariant 0 <= pos <= |file| && encoder.Valid() && fresh(encoder) && fresh(encoder.left)
      invariant e == encoder.View(out) && e.total == pos <= MAX_FILE_SIZE
      invariant FeedAll(e, FileChunks(file[pos..])) == FeedAll(FRESH, FileChunks(file))
    {
      var end := if pos + 3072 < |file| then pos + 3072 else |file|;
      var ok;
      FileChunksStep(e, file, pos, end);
      ok, out := encoder.EncodeStream(file[pos..end], out);
      if !ok {
        return Thrown("File too large for Base64 encoding");
      }
      e := encoder.View(out);
      pos := end;
    }
    var text := encoder.Finalize(out);
    assert file[pos..] == [];
    FileChunksEnd(e);
    EncodeFileIsBatch(file);
    r := Ok(text);
  }
}

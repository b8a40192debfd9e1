/** ParsePartStructure of mime/src/MimeParser.cpp, which the IMAP server uses for BODYSTRUCTURE, and
    ExtractPartBySection of imap-server/src/ImapUtils.cpp, which cuts the same body by section number. */
module MimeStructure {
  import opened Text
  import opened MimeHeaders
  import opened Multipart

  datatype MimePart =
    | Node(subtype: string, boundary: string, children: seq<MimePart>)
    | Leaf(kind: string, subtype: string, charset: string, encoding: string, fileName: string, size: nat, lines: nat)

  /** The media type in lower case, cut at the slash. */
  function TypeOf(contentType: string): (string, string) {
    var lower := ToLower(contentType);
    var semicolon := FindChar(lower, ';', 0);
    var bare := Trim(if semicolon == NPOS then lower else lower[..semicolon]);
    var slash := FindChar(bare, '/', 0);
    if slash != NPOS then (bare[..slash], bare[slash + 1..])
    else if bare == "" then ("text", "plain")
    else (bare, "")
  }

  function LeafOf(kind: string, subtype: string, headers: string, body: string): (leaf: MimePart)
    ensures leaf.Leaf? && leaf.size == |body|
  {
    var encoding := ToLower(HeaderValue(headers, Name(TransferEncoding)));
    var name := ExtractFileName(headers);
    Leaf(kind, subtype, ExtractCharset(HeaderValue(headers, Name(ContentType))),
         if encoding == "" then "7bit" else encoding,
         if name == "unnamed_file" then "" else name, |body|, |Filter(body, c => c == '\n')|)
  }

  function StructureOf(raw: string): MimePart
    decreases |raw|, 1
  {
    var (headers, body) := SplitBlock(raw);
    var contentType := HeaderValue(headers, Name(ContentType));
    var (kind, subtype) := TypeOf(contentType);
    if kind != "multipart" then LeafOf(kind, subtype, headers, body)
    else
      var boundary := ExtractBoundary(contentType);
      Node(subtype, boundary, if boundary == "" then [] else ChildrenOf(body, "--" + boundary))
  }

  function ChildrenOf(body: string, d: string): seq<MimePart>
    requires d != []
    decreases |body|, 0
  {
    var start := Find(body, d, 0);
    if start == NPOS then [] else ChildrenAfter(body[start + |d|..], d)
  }

  function ChildrenAfter(t: string, d: string): seq<MimePart>
    requires d != []
    decreases |t|, 0
  {
    match NextSegment(t, d)
    case Stop => []
    case Part(part, rest) => [StructureOf(part)] + ChildrenAfter(rest, d)
  }

  // ------------------------------------------------------- children and parts

  function Structures(parts: seq<string>): seq<MimePart> {
    seq(|parts|, i requires 0 <= i < |parts| => StructureOf(parts[i]))
  }

  lemma StructuresCons(part: string, rest: seq<string>)
    ensures Structures([part] + rest) == [StructureOf(part)] + Structures(rest)
  {
    hide StructureOf;
  }

  lemma {:induction false} ChildrenAfterAreStructures(t: string, d: string)
    requires d != []
    ensures ChildrenAfter(t, d) == Structures(PartsAfter(t, d))
    decreases |t|
  {
    hide NextSegment, StructureOf, Structures;
    var next := NextSegment(t, d);
    if next.Part? {
      ChildrenAfterAreStructures(next.rest, d);
      StructuresCons(next.part, PartsAfter(next.rest, d));
    } else {
      NoStructures();
    }
  }

  /** The children of a node are the structures of its parts, in order. */
  lemma {:induction false} ChildrenAreStructures(body: string, d: string)
    requires d != []
    ensures ChildrenOf(body, d) == Structures(Parts(body, d))
  {
    hide Find, ChildrenAfter, PartsAfter, Structures;
    var start := Find(body, d, 0);
    NoStructures();
    if start != NPOS {
      ChildrenAfterAreStructures(body[start + |d|..], d);
    }
  }

  lemma NoStructures()
    ensures Structures([]) == []
  {
  }

  // --------------------------------------------------------------- leaf sizes

  /** The sizes of all leaves of a tree, and of several trees. */
  function LeafSizes(part: MimePart): nat {
    match part
    case Leaf(_, _, _, _, _, size, _) => size
    case Node(_, _, children) => AllLeafSizes(children)
  }

  function AllLeafSizes(parts: seq<MimePart>): nat {
    if parts == [] then 0 else LeafSizes(parts[0]) + AllLeafSizes(parts[1..])
  }

  lemma AllLeafSizesCons(part: MimePart, rest: seq<MimePart>)
    ensures AllLeafSizes([part] + rest) == LeafSizes(part) + AllLeafSizes(rest)
  {
    assert ([part] + rest)[1..] == rest;
  }

  /** However a message nests, its leaves together are no longer than the message. */
  lemma {:induction false} LeavesFit(raw: string)
    ensures LeafSizes(StructureOf(raw)) <= |raw|
    decreases |raw|, 1
  {
    var (headers, body) := SplitBlock(raw);
    var contentType := HeaderValue(headers, Name(ContentType));
    hide SplitBlock, HeaderValue, TypeOf, ExtractBoundary, ChildrenOf, LeafOf;
    var boundary := ExtractBoundary(contentType);
    if boundary != "" {
      ChildLeavesFit(body, "--" + boundary);
    }
    assert AllLeafSizes([]) == 0;
  }

  lemma {:induction false} ChildLeavesFit(body: string, d: string)
    requires d != []
    ensures AllLeafSizes(ChildrenOf(body, d)) <= |body|
    decreases |body|, 0
  {
    hide Find, ChildrenAfter;
    var start := Find(body, d, 0);
    if start != NPOS {
      LeavesFitAfter(body[start + |d|..], d);
    }
    assert AllLeafSizes([]) == 0;
  }

  lemma {:induction false} LeavesFitAfter(t: string, d: string)
    requires d != []
    ensures AllLeafSizes(ChildrenAfter(t, d)) <= |t|
    decreases |t|, 0
  {
    hide NextSegment, StructureOf;
    var next := NextSegment(t, d);
    if next.Part? {
      LeavesFit(next.part);
      LeavesFitAfter(next.rest, d);
      AllLeafSizesCons(StructureOf(next.part), ChildrenAfter(next.rest, d));
    }
  }

  // ------------------------------------------------------------ the loop itself

  /** ParsePartStructure; the recursion is on parts strictly shorter than the raw text. */
  method ParsePartStructure(raw: string) returns (out: MimePart)
    ensures out == StructureOf(raw)
    decreases |raw|, 1
  {
    hide SplitBlock, HeaderValue, TypeOf, ExtractBoundary, ChildrenOf, LeafOf;
    var (headers, body) := SplitBlock(raw);
    var contentType := GetHeaderValue(headers, Name(ContentType));
    var (kind, subtype) := TypeOf(contentType);
    if kind != "multipart" {
      return LeafOf(kind, subtype, headers, body);
    }
    var boundary := ExtractBoundary(contentType);
    var children := [];
    if boundary != "" {
      children := ParseChildren(body, "--" + boundary);
    }
    out := Node(subtype, boundary, children);
  }

  method ParseChildren(body: string, d: string) returns (children: seq<MimePart>)
    requires d != []
    ensures children == ChildrenOf(body, d)
    decreases |body|, 0
  {
    ChildrenAreStructures(body, d);
    hide ChildrenOf, Parts, Remaining, Find, StructureOf, Structures;
    children := [];
    var pos := Find(body, d, 0);
    RemainingStart(body, d);
    while pos != NPOS
      invariant NPOS <= pos && (pos >= 0 ==> pos + |d| <= |body|)
      invariant children + Structures(Remaining(body, d, pos)) == Structures(Parts(body, d))
      decreases if pos == NPOS then -1 else |body| - pos
    {
      var more, start, end := NextPart(body, d, pos);
      if !more {
        NoStructures();
        return;
      }
      var child := ParsePartStructure(body[start..end]);
      StructuresCons(body[start..end], Remaining(body, d, end));
      AppendOne(children, child, Structures(Remaining(body, d, end)));
      children := children + [child];
      pos := end;
    }
    RemainingEnd(body, d);
    NoStructures();
  }

  lemma AppendOne(children: seq<MimePart>, child: MimePart, rest: seq<MimePart>)
    ensures children + ([child] + rest) == children + [child] + rest
  {
  }
}

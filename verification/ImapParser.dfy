/** imap-server/src/ImapParser.cpp, and the quoting that mua/core/MailWorker.cpp prints for it. */
module ImapParser {
  import opened Text
  import opened Wrappers

  /** What a parser read from the front of a text, and the text behind it. */
  datatype Parsed = Parsed(value: string, rest: string)

  function Ahead(c: char, p: Parsed): Parsed {
    Parsed([c] + p.value, p.rest)
  }

  /** The text of a quoted string, from behind its opening quote; a missing closing quote is forgiven. */
  function Quoted(t: string): (p: Parsed)
    ensures |p.rest| <= |t|
  {
    if t == "" then Parsed("", "")
    else if t[0] == '"' then Parsed("", t[1..])
    else if t[0] == '\\' && |t| > 1 then Ahead(t[1], Quoted(t[2..]))
    else Ahead(t[0], Quoted(t[1..]))
  }

  predicate EndsAtom(c: char) {
    c == ' ' || c == '(' || c == ')' || c == '"' || c == '{'
  }

  function Atom(t: string): (p: Parsed)
    ensures |p.rest| <= |t|
  {
    if t == "" || EndsAtom(t[0]) then Parsed("", t) else Ahead(t[0], Atom(t[1..]))
  }

  /** A literal's announcement, from behind its opening brace. */
  function Braced(t: string): (p: Parsed)
    ensures |p.rest| <= |t|
  {
    if t == "" then Parsed("", "") else if t[0] == '}' then Parsed("}", t[1..]) else Ahead(t[0], Braced(t[1..]))
  }

  /** A bracketed section inside a list, from behind its opening bracket. */
  function Bracketed(t: string, depth: nat): (p: Parsed)
    ensures |p.rest| <= |t|
    decreases |t|
  {
    if t == "" || depth == 0 then Parsed("", t)
    else
      Ahead(t[0], Bracketed(t[1..], if t[0] == '[' then depth + 1 else if t[0] == ']' then depth - 1 else depth))
  }

  /** The rest of a list at some depth of parentheses. Quoted strings lose their escapes here. */
  function Listed(t: string, depth: nat): (p: Parsed)
    ensures |p.rest| <= |t|
    decreases |t|
  {
    if t == "" || depth == 0 then Parsed("", t)
    else if t[0] == '[' then
      var b := Bracketed(t[1..], 1);
      var l := Listed(b.rest, depth);
      Parsed("[" + b.value + l.value, l.rest)
    else if t[0] == '"' then
      var q := Quoted(t[1..]);
      var l := Listed(q.rest, depth);
      Parsed("\"" + q.value + "\"" + l.value, l.rest)
    else
      Ahead(t[0], Listed(t[1..], if t[0] == '(' then depth + 1 else if t[0] == ')' then depth - 1 else depth))
  }

  function Element(t: string): (p: Parsed)
    requires t != ""
    ensures |p.rest| <= |t|
  {
    if t[0] == '"' then Quoted(t[1..])
    else if t[0] == '(' then Ahead('(', Listed(t[1..], 1))
    else if t[0] == '{' then Ahead('{', Braced(t[1..]))
    else Atom(t)
  }

  function SkipSpaces(t: string): (r: string)
    ensures |r| <= |t| && (r != "" ==> r[0] != ' ')
  {
    if t != "" && t[0] == ' ' then SkipSpaces(t[1..]) else t
  }

  /** All arguments. None: an element that takes nothing, on which ParseArgs goes round for ever. */
  function Arguments(t: string): Option<seq<string>>
    decreases |t|
  {
    var u := SkipSpaces(t);
    if u == "" then Some([])
    else
      var e := Element(u);
      if |e.rest| == |u| then None
      else
        match Arguments(e.rest)
        case None => None
        case Some(args) => Some([e.value] + args)
  }

  /** An element takes nothing exactly where a closing parenthesis stands first. */
  lemma StuckIff(t: string)
    requires t != "" && t[0] != ' '
    ensures |Element(t).rest| == |t| <==> t[0] == ')'
  {
  }

  /** A closing parenthesis that no list opened: the scan passes over quoted strings, lists and literal
      announcements. */
  predicate Stray(t: string)
    decreases |t|
  {
    t != "" &&
    if t[0] == ')' then true
    else if t[0] == '"' then Stray(Quoted(t[1..]).rest)
    else if t[0] == '(' then Stray(Listed(t[1..], 1).rest)
    else if t[0] == '{' then Stray(Braced(t[1..]).rest)
    else Stray(t[1..])
  }

  lemma {:induction false} StrayBehindSpaces(t: string)
    ensures Stray(t) <==> Stray(SkipSpaces(t))
  {
    if t != "" && t[0] == ' ' {
      StrayBehindSpaces(t[1..]);
    }
  }

  lemma {:induction false} StrayBehindAtom(t: string)
    ensures Stray(t) <==> Stray(Atom(t).rest)
  {
    if t != "" && !EndsAtom(t[0]) {
      StrayBehindAtom(t[1..]);
    }
  }

  /** ParseArgs goes round for ever exactly on the texts with a stray closing parenthesis. */
  lemma {:induction false} ArgumentsStuckIff(t: string)
    ensures Arguments(t).None? <==> Stray(t)
    decreases |t|
  {
    var u := SkipSpaces(t);
    StrayBehindSpaces(t);
    if u != "" {
      var e := Element(u);
      StuckIff(u);
      StrayBehindAtom(u);
      hide SkipSpaces, Quoted, Listed, Braced, Atom;
      if u[0] != ')' {
        ArgumentsStuckIff(e.rest);
      }
    }
  }

  // ------------------------------------------------------- nothing is made up

  /** Outside quoted strings a parser takes its text as it stands. */
  ghost predicate Verbatim(p: Parsed, t: string) {
    p.value + p.rest == t
  }

  lemma VerbatimAhead(c: char, p: Parsed, t: string)
    requires t != "" && t[0] == c && Verbatim(p, t[1..])
    ensures Verbatim(Ahead(c, p), t)
  {
    assert [c] + t[1..] == t;
    Assoc([c], p.value, p.rest);
  }

  lemma {:induction false} AtomVerbatim(t: string)
    ensures Verbatim(Atom(t), t)
    ensures forall i :: 0 <= i < |Atom(t).value| ==> !EndsAtom(Atom(t).value[i])
    ensures Atom(t).rest == "" || EndsAtom(Atom(t).rest[0])
  {
    if t != "" && !EndsAtom(t[0]) {
      AtomVerbatim(t[1..]);
      VerbatimAhead(t[0], Atom(t[1..]), t);
    } else {
      assert "" + t == t;
    }
  }

  lemma {:induction false} BracedVerbatim(t: string)
    ensures Verbatim(Braced(t), t)
  {
    if t != "" && t[0] != '}' {
      BracedVerbatim(t[1..]);
      VerbatimAhead(t[0], Braced(t[1..]), t);
    } else if t != "" {
      assert "}" + t[1..] == t;
    }
  }

  lemma {:induction false} BracketedVerbatim(t: string, depth: nat)
    ensures Verbatim(Bracketed(t, depth), t)
    decreases |t|
  {
    if t != "" && depth != 0 {
      var next := if t[0] == '[' then depth + 1 else if t[0] == ']' then depth - 1 else depth;
      BracketedVerbatim(t[1..], next);
      VerbatimAhead(t[0], Bracketed(t[1..], next), t);
    } else {
      assert "" + t == t;
    }
  }

  lemma {:induction false} ListedVerbatim(t: string, depth: nat)
    requires '"' !in t
    ensures Verbatim(Listed(t, depth), t)
    decreases |t|
  {
    if t == "" || depth == 0 {
      assert "" + t == t;
    } else if t[0] == '[' {
      var b := Bracketed(t[1..], 1);
      BracketedVerbatim(t[1..], 1);
      hide Bracketed;
      assert '"' !in b.value + b.rest;
      ListedVerbatim(b.rest, depth);
      var l := Listed(b.rest, depth);
      VerbatimAhead('[', b, t);
      Assoc("[" + b.value, l.value, l.rest);
    } else {
      var next := if t[0] == '(' then depth + 1 else if t[0] == ')' then depth - 1 else depth;
      ListedVerbatim(t[1..], next);
      VerbatimAhead(t[0], Listed(t[1..], next), t);
    }
  }

  /** Without quotes an element is a prefix of the text, and the rest is what follows it. */
  lemma ElementVerbatim(t: string)
    requires t != "" && '"' !in t
    ensures Verbatim(Element(t), t)
  {
    hide Listed, Braced, Atom;
    if t[0] == '(' {
      ListedVerbatim(t[1..], 1);
      VerbatimAhead('(', Listed(t[1..], 1), t);
    } else if t[0] == '{' {
      BracedVerbatim(t[1..]);
      VerbatimAhead('{', Braced(t[1..]), t);
    } else {
      AtomVerbatim(t);
    }
  }

  // ---------------------------------------------------------------- the cursor

  /** A result with the part that has been read already. */
  function Onto(done: string, p: Parsed): Parsed {
    Parsed(done + p.value, p.rest)
  }

  lemma OntoAhead(done: string, c: char, p: Parsed)
    ensures Onto(done, Ahead(c, p)) == Onto(done + [c], p)
  {
    Assoc(done, [c], p.value);
  }

  lemma OntoNothing(p: Parsed)
    ensures Onto("", p) == p
  {
    assert "" + p.value == p.value;
  }

  lemma OntoEmpty(done: string, rest: string)
    ensures Onto(done, Parsed("", rest)) == Parsed(done, rest)
  {
    assert done + "" == done;
  }

  lemma OntoPiece(done: string, piece: string, l: Parsed)
    ensures Onto(done, Parsed(piece + l.value, l.rest)) == Onto(done + piece, l)
  {
    Assoc(done, piece, l.value);
  }

  lemma QuotedAt(s: string, i: nat)
    requires i < |s|
    ensures Quoted(s[i..])
         == if s[i] == '"' then Parsed("", s[i + 1..])
            else if s[i] == '\\' && i + 1 < |s| then Ahead(s[i + 1], Quoted(s[i + 2..]))
            else Ahead(s[i], Quoted(s[i + 1..]))
  {
    hide Ahead;
    DropDrop(s, i, 1);
    if i + 1 < |s| {
      DropDrop(s, i, 2);
    }
  }

  lemma BracketedAt(s: string, i: nat, depth: nat)
    requires i < |s| && depth > 0
    ensures Bracketed(s[i..], depth)
         == Ahead(s[i],
                  Bracketed(s[i + 1..], if s[i] == '[' then depth + 1 else if s[i] == ']' then depth - 1 else depth))
  {
    hide Ahead;
    DropDrop(s, i, 1);
  }

  lemma ListedAt(s: string, i: nat, depth: nat)
    requires i < |s| && depth > 0
    ensures Listed(s[i..], depth)
         == if s[i] == '[' then
              var b := Bracketed(s[i + 1..], 1);
              Parsed("[" + b.value + Listed(b.rest, depth).value, Listed(b.rest, depth).rest)
            else if s[i] == '"' then
              var q := Quoted(s[i + 1..]);
              Parsed("\"" + q.value + "\"" + Listed(q.rest, depth).value, Listed(q.rest, depth).rest)
            else
              Ahead(s[i],
                    Listed(s[i + 1..], if s[i] == '(' then depth + 1 else if s[i] == ')' then depth - 1 else depth))
  {
    hide Ahead, Bracketed, Quoted;
    DropDrop(s, i, 1);
  }

  lemma BracedAt(s: string, i: nat)
    requires i < |s|
    ensures Braced(s[i..]) == if s[i] == '}' then Parsed("}", s[i + 1..]) else Ahead(s[i], Braced(s[i + 1..]))
  {
    hide Ahead;
    DropDrop(s, i, 1);
  }

  lemma AtomAt(s: string, i: nat)
    requires i < |s|
    ensures Atom(s[i..]) == if EndsAtom(s[i]) then Parsed("", s[i..]) else Ahead(s[i], Atom(s[i + 1..]))
  {
    hide Ahead;
    DropDrop(s, i, 1);
  }

  lemma QuotedStep(done: string, s: string, i: nat)
    requires i < |s|
    ensures Onto(done, Quoted(s[i..]))
         == if s[i] == '"' then Parsed(done, s[i + 1..])
            else if s[i] == '\\' && i + 1 < |s| then Onto(done + [s[i + 1]], Quoted(s[i + 2..]))
            else Onto(done + [s[i]], Quoted(s[i + 1..]))
  {
    hide Quoted, Onto, Ahead;
    QuotedAt(s, i);
    OntoEmpty(done, s[i + 1..]);
    OntoAhead(done, s[i], Quoted(s[i + 1..]));
    if i + 1 < |s| {
      OntoAhead(done, s[i + 1], Quoted(s[i + 2..]));
    }
  }

  lemma BracketedStep(done: string, s: string, i: nat, depth: nat)
    requires i < |s| && depth > 0
    ensures Onto(done, Bracketed(s[i..], depth))
         == Onto(done + [s[i]],
                 Bracketed(s[i + 1..], if s[i] == '[' then depth + 1 else if s[i] == ']' then depth - 1 else depth))
  {
    hide Bracketed, Onto, Ahead;
    BracketedAt(s, i, depth);
    OntoAhead(done, s[i],
              Bracketed(s[i + 1..], if s[i] == '[' then depth + 1 else if s[i] == ']' then depth - 1 else depth));
  }

  lemma AtomStep(s: string, start: nat, i: nat)
    requires start <= i < |s|
    ensures Onto(s[start..i], Atom(s[i..]))
         == if EndsAtom(s[i]) then Parsed(s[start..i], s[i..]) else Onto(s[start..i + 1], Atom(s[i + 1..]))
  {
    hide Atom, Onto, Ahead;
    AtomAt(s, i);
    OntoEmpty(s[start..i], s[i..]);
    OntoAhead(s[start..i], s[i], Atom(s[i + 1..]));
    Snoc(s, start, i);
  }

  lemma BracedStep(s: string, start: nat, i: nat)
    requires start <= i < |s|
    ensures Onto(s[start..i], Braced(s[i..]))
         == if s[i] == '}' then Parsed(s[start..i + 1], s[i + 1..]) else Onto(s[start..i + 1], Braced(s[i + 1..]))
  {
    hide Braced, Onto, Ahead;
    BracedAt(s, i);
    OntoBrace(s[start..i], s[i + 1..]);
    OntoAhead(s[start..i], s[i], Braced(s[i + 1..]));
    Snoc(s, start, i);
  }

  lemma Snoc(s: string, start: nat, i: nat)
    requires start <= i < |s|
    ensures s[start..i] + [s[i]] == s[start..i + 1]
  {
  }

  lemma AtEnd(s: string)
    ensures s[|s|..] == "" && Quoted("") == Parsed("", "") && Braced("") == Parsed("", "") && Atom("") == Parsed("", "")
  {
  }

  // Where a loop stands: what it has read so far, and what it will read, make up the whole.

  predicate QuotedSoFar(done: string, s: string, i: nat, whole: Parsed) {
    i <= |s| && Onto(done, Quoted(s[i..])) == whole
  }

  lemma QuotedBegin(s: string, i: nat)
    requires i <= |s|
    ensures QuotedSoFar("", s, i, Quoted(s[i..]))
  {
    hide Quoted;
    OntoNothing(Quoted(s[i..]));
  }

  lemma QuotedMore(done: string, s: string, i: nat, whole: Parsed)
    requires i < |s| && QuotedSoFar(done, s, i, whole)
    ensures s[i] == '"' ==> Parsed(done, s[i + 1..]) == whole
    ensures s[i] != '"' && s[i] == '\\' && i + 1 < |s| ==> QuotedSoFar(done + [s[i + 1]], s, i + 2, whole)
    ensures s[i] != '"' && !(s[i] == '\\' && i + 1 < |s|) ==> QuotedSoFar(done + [s[i]], s, i + 1, whole)
  {
    hide Quoted, Onto;
    QuotedStep(done, s, i);
  }

  lemma QuotedDone(done: string, s: string, whole: Parsed)
    requires QuotedSoFar(done, s, |s|, whole)
    ensures Parsed(done, s[|s|..]) == whole
  {
    AtEnd(s);
    hide Quoted, Onto;
    OntoEmpty(done, "");
  }

  predicate BracketedSoFar(done: string, s: string, i: nat, depth: nat, whole: Parsed) {
    i <= |s| && Onto(done, Bracketed(s[i..], depth)) == whole
  }

  lemma BracketedBegin(s: string, i: nat)
    requires i <= |s|
    ensures BracketedSoFar("", s, i, 1, Bracketed(s[i..], 1))
  {
    hide Bracketed;
    OntoNothing(Bracketed(s[i..], 1));
  }

  lemma BracketedMore(done: string, s: string, i: nat, depth: nat, whole: Parsed)
    requires i < |s| && depth > 0 && BracketedSoFar(done, s, i, depth, whole)
    ensures BracketedSoFar(done + [s[i]], s, i + 1,
                           if s[i] == '[' then depth + 1 else if s[i] == ']' then depth - 1 else depth, whole)
  {
    hide Bracketed, Onto;
    BracketedStep(done, s, i, depth);
  }

  lemma BracketedDone(done: string, s: string, i: nat, depth: nat, whole: Parsed)
    requires BracketedSoFar(done, s, i, depth, whole) && (i == |s| || depth == 0)
    ensures Parsed(done, s[i..]) == whole
  {
    hide Bracketed, Onto;
    BracketedEnd(s[i..], depth);
    OntoEmpty(done, s[i..]);
  }

  predicate BracedSoFar(s: string, start: nat, i: nat, whole: Parsed) {
    start <= i <= |s| && Onto(s[start..i], Braced(s[i..])) == whole
  }

  lemma BracedBegin(s: string, start: nat)
    requires start < |s| && s[start] == '{'
    ensures BracedSoFar(s, start, start + 1, Ahead('{', Braced(s[start + 1..])))
  {
    hide Braced;
    var p := Braced(s[start + 1..]);
    assert s[start..start + 1] == "{";
    OntoAhead("", '{', p);
    OntoNothing(Ahead('{', p));
  }

  lemma BracedMore(s: string, start: nat, i: nat, whole: Parsed)
    requires i < |s| && BracedSoFar(s, start, i, whole)
    ensures s[i] == '}' ==> Parsed(s[start..i + 1], s[i + 1..]) == whole
    ensures s[i] != '}' ==> BracedSoFar(s, start, i + 1, whole)
  {
    hide Braced, Onto;
    BracedStep(s, start, i);
  }

  lemma BracedDone(s: string, start: nat, whole: Parsed)
    requires BracedSoFar(s, start, |s|, whole)
    ensures Parsed(s[start..|s|], s[|s|..]) == whole
  {
    AtEnd(s);
    hide Braced, Onto;
    OntoEmpty(s[start..|s|], "");
  }

  predicate AtomSoFar(s: string, start: nat, i: nat, whole: Parsed) {
    start <= i <= |s| && Onto(s[start..i], Atom(s[i..])) == whole
  }

  lemma AtomBegin(s: string, start: nat)
    requires start <= |s|
    ensures AtomSoFar(s, start, start, Atom(s[start..]))
  {
    hide Atom;
    assert s[start..start] == "";
    OntoNothing(Atom(s[start..]));
  }

  lemma AtomMore(s: string, start: nat, i: nat, whole: Parsed)
    requires i < |s| && AtomSoFar(s, start, i, whole)
    ensures EndsAtom(s[i]) ==> Parsed(s[start..i], s[i..]) == whole
    ensures !EndsAtom(s[i]) ==> AtomSoFar(s, start, i + 1, whole)
  {
    hide Atom, Onto, EndsAtom;
    AtomStep(s, start, i);
  }

  lemma AtomDone(s: string, start: nat, whole: Parsed)
    requires AtomSoFar(s, start, |s|, whole)
    ensures Parsed(s[start..|s|], s[|s|..]) == whole
  {
    AtEnd(s);
    hide Atom, Onto;
    OntoEmpty(s[start..|s|], "");
  }

  lemma BracketedEnd(t: string, depth: nat)
    requires t == "" || depth == 0
    ensures Bracketed(t, depth) == Parsed("", t)
  {
  }

  lemma ListedEnd(t: string, depth: nat)
    requires t == "" || depth == 0
    ensures Listed(t, depth) == Parsed("", t)
  {
  }

  predicate ListedSoFar(done: string, s: string, i: nat, depth: nat, whole: Parsed) {
    i <= |s| && Onto(done, Listed(s[i..], depth)) == whole
  }

  lemma ListedBegin(s: string, i: nat)
    requires i <= |s|
    ensures ListedSoFar("(", s, i, 1, Ahead('(', Listed(s[i..], 1)))
  {
    hide Listed;
    OntoAhead("", '(', Listed(s[i..], 1));
    OntoNothing(Ahead('(', Listed(s[i..], 1)));
    assert "" + "(" == "(";
  }

  lemma ListedDone(done: string, s: string, i: nat, depth: nat, whole: Parsed)
    requires ListedSoFar(done, s, i, depth, whole) && (i == |s| || depth == 0)
    ensures Parsed(done, s[i..]) == whole
  {
    hide Listed, Onto;
    ListedEnd(s[i..], depth);
    OntoEmpty(done, s[i..]);
  }

  // The loops of ElementParser. Each starts at a cursor and gives the new one; nothing reads the parser's own
  // cursor while a loop runs.

  method ReadQuoted(text: string, from: nat) returns (result: string, pos: nat)
    requires from <= |text|
    ensures from <= pos <= |text| && Parsed(result, text[pos..]) == Quoted(text[from..])
  {
    result, pos := "", from;
    ghost var whole := Quoted(text[from..]);
    QuotedBegin(text, from);
    hide Quoted, QuotedSoFar;
    while pos < |text|
      invariant from <= pos <= |text|
      invariant QuotedSoFar(result, text, pos, whole)
    {
      QuotedMore(result, text, pos, whole);
      var c := text[pos];
      if c == '"' {
        pos := pos + 1;
        return;
      }
      if c == '\\' && pos + 1 < |text| {
        pos := pos + 1;
        result := result + [text[pos]];
        pos := pos + 1;
      } else {
        result := result + [c];
        pos := pos + 1;
      }
    }
    QuotedDone(result, text, whole);
  }

  /** The inner loop of ParseList, from behind the opening bracket. */
  method ReadBracketed(text: string, from: nat) returns (result: string, pos: nat)
    requires from <= |text|
    ensures from <= pos <= |text| && Parsed(result, text[pos..]) == Bracketed(text[from..], 1)
  {
    result, pos := "", from;
    var depth: nat := 1;
    ghost var whole := Bracketed(text[from..], 1);
    BracketedBegin(text, from);
    hide *;
    while pos < |text| && depth > 0
      invariant from <= pos <= |text|
      invariant BracketedSoFar(result, text, pos, depth, whole)
    {
      BracketedMore(result, text, pos, depth, whole);
      var c := text[pos];
      if c == '[' {
        depth := depth + 1;
      } else if c == ']' {
        depth := depth - 1;
      }
      result := result + [c];
      pos := pos + 1;
    }
    BracketedDone(result, text, pos, depth, whole);
  }

  /** From behind the opening parenthesis. */
  method ReadList(text: string, from: nat) returns (result: string, pos: nat)
    requires from <= |text|
    ensures from <= pos <= |text| && Parsed(result, text[pos..]) == Ahead('(', Listed(text[from..], 1))
  {
    result, pos := "(", from;
    var depth: nat := 1;
    ghost var whole := Ahead('(', Listed(text[from..], 1));
    ListedBegin(text, from);
    hide Listed, Ahead, ListedSoFar;
    while pos < |text| && depth > 0
      invariant from <= pos <= |text|
      invariant ListedSoFar(result, text, pos, depth, whole)
      decreases |text| - pos
    {
      result, pos, depth := ListRound(text, pos, result, depth, whole);
    }
    ListedDone(result, text, pos, depth, whole);
  }

  /** One round of the loop of ParseList. */
  method ListRound(text: string, from: nat, done: string, depth: nat, ghost whole: Parsed)
    returns (result: string, pos: nat, depth': nat)
    requires from < |text| && depth > 0 && ListedSoFar(done, text, from, depth, whole)
    ensures from < pos <= |text| && ListedSoFar(result, text, pos, depth', whole)
  {
    hide Listed, Onto, Quoted, Bracketed;
    depth' := depth;
    var c := text[from];
    ListedAt(text, from, depth);
    pos := from + 1;
    if c == '[' {
      var inner;
      inner, pos := ReadBracketed(text, pos);
      OntoPiece(done, "[" + inner, Listed(text[pos..], depth));
      result := done + ("[" + inner);
    } else if c == '"' {
      var quoted;
      quoted, pos := ReadQuoted(text, pos);
      OntoPiece(done, "\"" + quoted + "\"", Listed(text[pos..], depth));
      result := done + ("\"" + quoted + "\"");
    } else {
      if c == '(' {
        depth' := depth + 1;
      } else if c == ')' {
        depth' := depth - 1;
      }
      OntoAhead(done, c, Listed(text[pos..], depth'));
      result := done + [c];
    }
  }

  /** Behind the closing brace of a literal's announcement. */
  method ReadBraced(text: string, start: nat) returns (pos: nat)
    requires start < |text| && text[start] == '{'
    ensures start < pos <= |text| && Parsed(text[start..pos], text[pos..]) == Ahead('{', Braced(text[start + 1..]))
  {
    pos := start + 1;
    ghost var whole := Ahead('{', Braced(text[start + 1..]));
    BracedBegin(text, start);
    hide Braced, Ahead, BracedSoFar;
    while pos < |text| && text[pos] != '}'
      invariant start < pos <= |text|
      invariant BracedSoFar(text, start, pos, whole)
    {
      BracedMore(text, start, pos, whole);
      pos := pos + 1;
    }
    if pos < |text| {
      BracedMore(text, start, pos, whole);
      pos := pos + 1;
    } else {
      BracedDone(text, start, whole);
    }
  }

  method ReadAtom(text: string, start: nat) returns (pos: nat)
    requires start <= |text|
    ensures start <= pos <= |text| && Parsed(text[start..pos], text[pos..]) == Atom(text[start..])
  {
    pos := start;
    ghost var whole := Atom(text[start..]);
    AtomBegin(text, start);
    hide Atom, AtomSoFar, EndsAtom;
    while pos < |text|
      invariant start <= pos <= |text|
      invariant AtomSoFar(text, start, pos, whole)
    {
      AtomMore(text, start, pos, whole);
      if EndsAtom(text[pos]) {
        return;
      }
      pos := pos + 1;
    }
    AtomDone(text, start, whole);
  }

  class ElementParser {
    const str: string
    var pos: nat

    predicate Valid()
      reads this
    {
      pos <= |str|
    }

    function Rest(): string
      requires Valid()
      reads this
    {
      str[pos..]
    }

    constructor (str: string)
      ensures this.str == str && Valid() && Rest() == str
    {
      this.str, pos := str, 0;
    }

    method SkipWhitespace()
      requires Valid()
      modifies this`pos
      ensures Valid() && Rest() == SkipSpaces(old(Rest())) && old(pos) <= pos
    {
      while pos < |str| && str[pos] == ' '
        invariant old(pos) <= pos <= |str|
        invariant SkipSpaces(str[pos..]) == SkipSpaces(old(Rest()))
      {
        DropDrop(str, pos, 1);
        pos := pos + 1;
      }
    }

    method ParseQuoted() returns (result: string)
      requires Valid()
      modifies this`pos
      ensures Valid()
      ensures old(pos < |str| && str[pos] == '"') ==>
                Parsed(result, Rest()) == Quoted(old(str[pos + 1..])) && old(pos) < pos
      ensures !old(pos < |str| && str[pos] == '"') ==> result == "" && pos == old(pos)
    {
      if pos >= |str| || str[pos] != '"' {
        return "";
      }
      hide Quoted;
      result, pos := ReadQuoted(str, pos + 1);
    }

    method ParseList() returns (result: string)
      requires Valid()
      modifies this`pos
      ensures Valid()
      ensures old(pos < |str| && str[pos] == '(') ==>
                Parsed(result, Rest()) == Ahead('(', Listed(old(str[pos + 1..]), 1)) && old(pos) < pos
      ensures !old(pos < |str| && str[pos] == '(') ==> result == "" && pos == old(pos)
    {
      if pos >= |str| || str[pos] != '(' {
        return "";
      }
      hide Listed, Ahead;
      result, pos := ReadList(str, pos + 1);
    }

    method ParseLiteral() returns (result: string)
      requires Valid()
      modifies this`pos
      ensures Valid()
      ensures old(pos < |str| && str[pos] == '{') ==>
                Parsed(result, Rest()) == Ahead('{', Braced(old(str[pos + 1..]))) && old(pos) < pos
      ensures !old(pos < |str| && str[pos] == '{') ==> result == "" && pos == old(pos)
    {
      if pos >= |str| || str[pos] != '{' {
        return "";
      }
      hide Braced, Ahead;
      var start := pos;
      pos := ReadBraced(str, start);
      result := str[start..pos];
    }

    method ParseAtom() returns (result: string)
      requires Valid()
      modifies this`pos
      ensures Valid() && old(pos) <= pos && Parsed(result, Rest()) == Atom(old(Rest()))
    {
      hide Atom;
      var start := pos;
      pos := ReadAtom(str, start);
      result := str[start..pos];
    }

    method ParseElement() returns (result: string)
      requires Valid() && pos < |str|
      modifies this`pos
      ensures Valid() && old(pos) <= pos && Parsed(result, Rest()) == Element(old(Rest()))
    {
      hide Quoted, Listed, Braced, Atom;
      DropDrop(str, pos, 1);
      var c := str[pos];
      if c == '"' {
        result := ParseQuoted();
      } else if c == '(' {
        result := ParseList();
      } else if c == '{' {
        result := ParseLiteral();
      } else {
        result := ParseAtom();
      }
    }

    /** All arguments. None is the loop that never ends: the element at the cursor took nothing, and the
        next round finds the same state. */
    method ParseArgs() returns (result: Option<seq<string>>)
      requires Valid()
      modifies this`pos
      ensures Valid() && result == old(Arguments(Rest()))
      ensures result.None? <==> old(Stray(Rest()))
    {
      ArgumentsStuckIff(Rest());
      hide SkipSpaces, Element, Stray, Arguments, Behind;
      var args: seq<string> := [];
      ghost var all := Arguments(Rest());
      NothingBefore(all);
      while pos < |str|
        invariant Valid() && Behind(args, Arguments(Rest())) == all
        decreases |str| - pos
      {
        ArgumentsStep(args, Rest());
        SkipWhitespace();
        if pos >= |str| {
          return Some(args);
        }
        var start := pos;
        var element := ParseElement();
        if pos == start {
          return None;
        }
        args := args + [element];
      }
      ArgumentsStep(args, "");
      NoSpaces();
      result := Some(args);
    }
  }

  /** Arguments behind those that have been read already. */
  function Behind(done: seq<string>, more: Option<seq<string>>): Option<seq<string>> {
    if more.None? then None else Some(done + more.value)
  }

  lemma NothingBefore(more: Option<seq<string>>)
    ensures Behind([], more) == more
  {
    if more.Some? {
      assert [] + more.value == more.value;
    }
  }

  lemma ArgumentsStep(done: seq<string>, t: string)
    ensures var u := SkipSpaces(t);
            Behind(done, Arguments(t))
            == if u == "" then Some(done)
               else if |Element(u).rest| == |u| then None
               else Behind(done + [Element(u).value], Arguments(Element(u).rest))
  {
    hide SkipSpaces, Element;
    var u := SkipSpaces(t);
    if u == "" {
      assert done + [] == done;
    } else if Arguments(Element(u).rest).Some? {
      var e, more := Element(u), Arguments(Element(u).rest).value;
      assert done + ([e.value] + more) == done + [e.value] + more;
    }
  }

  lemma OntoBrace(done: string, rest: string)
    ensures Onto(done, Parsed("}", rest)) == Parsed(done + "}", rest)
  {
  }

  lemma NoSpaces()
    ensures SkipSpaces("") == ""
  {
  }

  // ------------------------------------------------------------ whole commands

  datatype Kind =
    | Login | Logout | Capability | Noop | Select | List | Lsub | Status | Fetch | Store | Create | Delete | Rename
    | Copy | Expunge | UidFetch | UidStore | UidCopy | Subscribe | Unsubscribe | Close | Check | Unknown | StartTls

  function KindOf(name: string): Kind {
    var upper := ToUpper(name);
    if upper == "LOGIN" then Login else if upper == "LOGOUT" then Logout
    else if upper == "CAPABILITY" then Capability else if upper == "NOOP" then Noop
    else if upper == "SELECT" then Select else if upper == "LIST" then List
    else if upper == "LSUB" then Lsub else if upper == "STATUS" then Status
    else if upper == "FETCH" then Fetch else if upper == "STORE" then Store
    else if upper == "CREATE" then Create else if upper == "DELETE" then Delete
    else if upper == "RENAME" then Rename else if upper == "COPY" then Copy
    else if upper == "EXPUNGE" then Expunge else if upper == "UID" then UidFetch
    else if upper == "SUBSCRIBE" then Subscribe else if upper == "UNSUBSCRIBE" then Unsubscribe
    else if upper == "CLOSE" then Close else if upper == "CHECK" then Check
    else if upper == "STARTTLS" then StartTls else Unknown
  }

  function UidKindOf(name: string): Kind {
    var upper := ToUpper(name);
    if upper == "FETCH" then UidFetch else if upper == "STORE" then UidStore
    else if upper == "COPY" then UidCopy else Unknown
  }

  /** A command; None for its arguments where the parser does not come back. */
  datatype Command = Command(tag: string, kind: Kind, args: Option<seq<string>>)

  /** ImapParser::Parse. */
  function Parse(line: string): Command {
    var space := FindChar(line, ' ', 0);
    if space == NPOS then Command("", Unknown, Some([]))
    else
      var tag, rest := line[..space], line[space + 1..];
      var next := FindChar(rest, ' ', 0);
      var name := if next == NPOS then rest else rest[..next];
      var args := if next == NPOS then "" else rest[next + 1..];
      if ToUpper(name) == "UID" then
        var sub := FindChar(args, ' ', 0);
        if sub == NPOS || UidKindOf(args[..sub]) == Unknown then Command(tag, Unknown, Some([]))
        else Command(tag, UidKindOf(args[..sub]), Arguments(args[sub + 1..]))
      else Command(tag, KindOf(name), Arguments(args))
  }

  // ------------------------------------------------------------------- quoting

  function Escaped(v: string): string {
    if v == "" then ""
    else (if v[0] == '\\' || v[0] == '"' then ['\\', v[0]] else [v[0]]) + Escaped(v[1..])
  }

  function QuoteImap(v: string): string {
    "\"" + (Escaped(v) + "\"")
  }

  lemma {:induction false} EscapedSnoc(v: string, c: char)
    ensures Escaped(v + [c]) == Escaped(v) + if c == '\\' || c == '"' then ['\\', c] else [c]
  {
    if v == "" {
      assert v + [c] == [c] && [c][1..] == "";
    } else {
      assert (v + [c])[0] == v[0] && (v + [c])[1..] == v[1..] + [c];
      EscapedSnoc(v[1..], c);
    }
  }

  /** The loop of QuoteImap. */
  method QuoteImapImpl(v: string) returns (escaped: string)
    ensures escaped == QuoteImap(v)
  {
    hide Escaped;
    escaped := "\"";
    NothingEscaped();
    assert v[..0] == "" && v[..|v|] == v;
    for i := 0 to |v|
      invariant escaped == "\"" + Escaped(v[..i])
    {
      EscapedSnoc(v[..i], v[i]);
      assert v[..i + 1] == v[..i] + [v[i]];
      if v[i] == '\\' || v[i] == '"' {
        escaped := escaped + "\\";
      }
      escaped := escaped + [v[i]];
    }
    escaped := escaped + "\"";
  }

  lemma NothingEscaped()
    ensures Escaped("") == ""
  {
  }

  /** A quoted string is read back, whatever characters it holds and whatever follows. */
  lemma {:induction false} QuotedReadsEscaped(v: string, rest: string)
    ensures Quoted(Escaped(v) + "\"" + rest) == Parsed(v, rest)
  {
    if v == "" {
      assert ("" + "\"" + rest)[0] == '"' && ("" + "\"" + rest)[1..] == rest;
    } else {
      QuotedReadsEscaped(v[1..], rest);
      var tail := Escaped(v[1..]) + "\"" + rest;
      var front := if v[0] == '\\' || v[0] == '"' then ['\\', v[0]] else [v[0]];
      assert front + Escaped(v[1..]) + "\"" + rest == front + tail;
      hide Escaped;
      QuotedFront(v[0], tail);
      assert v == [v[0]] + v[1..];
    }
  }

  lemma QuotedFront(c: char, tail: string)
    ensures Quoted((if c == '\\' || c == '"' then ['\\', c] else [c]) + tail) == Ahead(c, Quoted(tail))
  {
    hide Ahead;
    assert (['\\', c] + tail)[2..] == tail && ([c] + tail)[1..] == tail;
  }

  lemma ElementReadsQuoted(v: string, rest: string)
    ensures QuoteImap(v) + rest != "" && (QuoteImap(v) + rest)[0] == '"'
    ensures Element(QuoteImap(v) + rest) == Parsed(v, rest)
  {
    hide Quoted, Escaped;
    var t := QuoteImap(v) + rest;
    assert t[1..] == Escaped(v) + "\"" + rest;
    QuotedReadsEscaped(v, rest);
  }

  lemma TwoArguments(u: string, p: string)
    ensures Arguments(QuoteImap(u) + (" " + QuoteImap(p))) == Some([u, p])
  {
    hide QuoteImap, Element;
    var second := QuoteImap(p) + "";
    var tail := " " + QuoteImap(p);
    ElementReadsQuoted(u, tail);
    ElementReadsQuoted(p, "");
    assert second == QuoteImap(p);
    assert tail[1..] == second && SkipSpaces(tail) == second;
    assert Arguments("") == Some([]);
    assert Arguments(tail) == Some([p] + []);
    assert [u] + ([p] + []) == [u, p];
  }

  lemma LoginIsLogin()
    ensures ToUpper("LOGIN") == "LOGIN" && KindOf("LOGIN") == Login && ' ' !in "LOGIN"
  {
    assert ToUpper("LOGIN") == "LOGIN";
  }

  /** The client's LOGIN line reaches the server as that tag, that command and exactly these two strings:
      empty ones, blanks, quotes and backslashes included. */
  lemma LoginRoundTrip(tag: string, u: string, p: string)
    requires ' ' !in tag
    ensures Parse(tag + " LOGIN " + QuoteImap(u) + " " + QuoteImap(p)) == Command(tag, Login, Some([u, p]))
  {
    hide Arguments, QuoteImap, FindChar, KindOf;
    var args := QuoteImap(u) + (" " + QuoteImap(p));
    var rest := "LOGIN" + " " + args;
    var line := tag + " LOGIN " + QuoteImap(u) + " " + QuoteImap(p);
    LoginLine(tag, QuoteImap(u), QuoteImap(p));
    LoginIsLogin();
    TwoArguments(u, p);
    FindCharAfter("", tag, ' ', rest);
    FindCharAfter("", "LOGIN", ' ', args);
    assert "" + tag == tag && "" + "LOGIN" == "LOGIN";
    Middle("", tag, " " + rest);
    assert line[..|tag|] == tag && line[|tag| + 1..] == rest;
    assert rest[..5] == "LOGIN" && rest[6..] == args;
  }

  lemma LoginLine(tag: string, u: string, p: string)
    ensures tag + " LOGIN " + u + " " + p == tag + " " + ("LOGIN" + " " + (u + (" " + p)))
  {
    assert " LOGIN " == " " + ("LOGIN" + " ");
  }
}

/** Byte-string operations shared by every component: the model of `std::string`.
    A C++ `char` is a Dafny `char` below 256; `std::string::npos` is `NPOS`. */
module Text {
  const NPOS := -1

  const CRLF := "\r\n"

  /** `p` occurs in `s` at index `j`. */
  predicate MatchAt(s: string, p: string, j: nat) {
    j + |p| <= |s| && s[j..j + |p|] == p
  }

  /** `p` occurs nowhere in `s`. */
  ghost predicate NoOccur(s: string, p: string) {
    forall j: nat :: !MatchAt(s, p, j)
  }

  /** `s.find(p, from)`: the least index at or after `from` where `p` occurs. */
  function Find(s: string, p: string, from: nat): (r: int)
    ensures r == NPOS || from <= r <= |s| - |p|
    decreases |s| - from
  {
    if from + |p| > |s| then NPOS
    else if s[from..from + |p|] == p then from
    else Find(s, p, from + 1)
  }

  /** What Find promises: the least occurrence, and NPOS only when there is none. */
  lemma {:induction false} FindSpec(s: string, p: string, from: nat)
    ensures var r := Find(s, p, from);
            && (r != NPOS ==> MatchAt(s, p, r))
            && (forall j: nat :: from <= j && (r == NPOS || j < r) ==> !MatchAt(s, p, j))
    decreases |s| - from
  {
    if from + |p| <= |s| && s[from..from + |p|] != p {
      FindSpec(s, p, from + 1);
    }
  }

  /** The occurrence that is preceded by none is the one found. */
  lemma {:induction false} FindIs(s: string, p: string, from: nat, k: nat)
    requires from <= k && MatchAt(s, p, k)
    requires forall j: nat :: from <= j < k ==> !MatchAt(s, p, j)
    ensures Find(s, p, from) == k
  {
    FindSpec(s, p, from);
  }

  predicate Contains(s: string, p: string) {
    Find(s, p, 0) != NPOS
  }

  /** `s.find_first_of(set, from)`. */
  function FindAny(s: string, cs: set<char>, from: nat): (r: int)
    ensures r == NPOS || from <= r < |s|
    ensures r >= 0 ==> s[r] in cs
    ensures forall j :: from <= j < |s| && (r == NPOS || j < r) ==> s[j] !in cs
    decreases |s| - from
  {
    if from >= |s| then NPOS
    else if s[from] in cs then from
    else FindAny(s, cs, from + 1)
  }

  /** `s.find(c, from)` for one character. */
  function FindChar(s: string, c: char, from: nat): (r: int)
    ensures r == NPOS || from <= r < |s|
    ensures r >= 0 ==> s[r] == c
    ensures forall j :: from <= j < |s| && (r == NPOS || j < r) ==> s[j] != c
  {
    FindAny(s, {c}, from)
  }

  predicate StartsWith(s: string, p: string) {
    p <= s
  }

  // --------------------------------------------------------- sequence algebra

  lemma {:induction false} Assoc(a: string, b: string, c: string)
    ensures a + b + c == a + (b + c)
  {
  }

  lemma {:induction false} Assoc4(a: string, b: string, c: string, d: string)
    ensures a + (b + c + d) == a + b + c + d
  {
  }

  lemma {:induction false} DropDrop(s: string, i: nat, k: nat)
    requires i + k <= |s|
    ensures s[i..][k..] == s[i + k..]
  {
  }

  lemma {:induction false} DropTake(s: string, i: nat, k: nat)
    requires i + k <= |s|
    ensures s[i..][..k] == s[i..i + k]
  {
  }

  lemma {:induction false} Middle(p: string, a: string, b: string)
    ensures (p + a + b)[|p|..|p| + |a|] == a
    ensures (p + a + b)[..|p|] == p
    ensures (p + a + b)[|p| + |a|..] == b
  {
  }

  lemma {:induction false} Cut(s: string, i: nat)
    requires i <= |s|
    ensures s[..i] + s[i..] == s
  {
  }

  lemma {:induction false} Cut3(s: string, i: nat, j: nat)
    requires i <= j <= |s|
    ensures s[..i] + s[i..j] + s[j..] == s
  {
  }

  // ---------------------------------------------------------------- searching

  lemma {:induction false} SliceOfSlice(s: string, i: nat, j: nat, k: nat, l: nat)
    requires i <= j <= |s| && k <= l <= j - i
    ensures s[i..j][k..l] == s[i + k..i + l]
  {
    var t := s[i..j];
    forall x | 0 <= x < l - k ensures t[k..l][x] == s[i + k..i + l][x] {
      assert t[k..l][x] == t[k + x] == s[i + k + x];
    }
  }

  lemma {:induction false} DropSlice(s: string, i: nat, k: nat, l: nat)
    requires i <= |s| && k <= l <= |s| - i
    ensures s[i..][k..l] == s[i + k..i + l]
  {
  }

  lemma {:induction false} ContainsIff(s: string, p: string)
    ensures Contains(s, p) <==> !NoOccur(s, p)
  {
    FindSpec(s, p, 0);
  }

  lemma {:induction false} ShortNoOccur(s: string, p: string)
    requires |s| < |p|
    ensures NoOccur(s, p)
  {
  }

  /** A text that lacks one of the pattern's characters does not contain it. */
  lemma {:induction false} MissingCharNoOccur(s: string, p: string, c: char)
    requires c in p && c !in s
    ensures NoOccur(s, p)
  {
    var k :| 0 <= k < |p| && p[k] == c;
    forall j: nat | j + |p| <= |s| ensures !MatchAt(s, p, j) {
      assert s[j..j + |p|][k] == s[j + k] != c;
    }
  }

  lemma {:induction false} NoOccurSub(s: string, p: string, i: nat, j: nat)
    requires NoOccur(s, p) && i <= j <= |s|
    ensures NoOccur(s[i..j], p)
  {
    forall k: nat | k + |p| <= j - i ensures !MatchAt(s[i..j], p, k) {
      SliceOfSlice(s, i, j, k, k + |p|);
      assert !MatchAt(s, p, i + k);
    }
  }

  /** A character that the pattern lacks separates two pattern-free texts. */
  lemma {:induction false} NoOccurSep(a: string, c: char, b: string, p: string)
    requires c !in p && p != []
    requires NoOccur(a, p) && NoOccur(b, p)
    ensures NoOccur(a + [c] + b, p)
  {
    var s := a + [c] + b;
    forall j: nat | j + |p| <= |s| ensures !MatchAt(s, p, j) {
      if j + |p| <= |a| {
        assert s[j..j + |p|] == a[j..j + |p|];
        assert !MatchAt(a, p, j);
      } else if j > |a| {
        assert s[j..j + |p|] == b[j - |a| - 1..j - |a| - 1 + |p|];
        assert !MatchAt(b, p, j - |a| - 1);
      } else {
        assert s[j..j + |p|][|a| - j] == s[|a|] == c;
      }
    }
  }

  /** Searching from the end of `pre`, the pattern is found right after a pattern-free text
      that is empty or ends in a character the pattern lacks. */
  lemma {:induction false} FindAfter(pre: string, a: string, p: string, b: string)
    requires p != [] && NoOccur(a, p)
    requires a == [] || a[|a| - 1] !in p
    ensures Find(pre + a + p + b, p, |pre|) == |pre| + |a|
  {
    var s := pre + a + p + b;
    var k := |pre| + |a|;
    assert s[k..k + |p|] == p;
    assert MatchAt(s, p, k);
    forall j: nat | |pre| <= j < k ensures !MatchAt(s, p, j) {
      if j + |p| <= k {
        assert s[j..j + |p|] == a[j - |pre|..j - |pre| + |p|];
        assert !MatchAt(a, p, j - |pre|);
      } else {
        assert s[j..j + |p|][k - 1 - j] == s[k - 1] == a[|a| - 1];
      }
    }
    FindIs(s, p, |pre|, k);
  }

  /** The same when the text lacks the pattern's first character. */
  lemma {:induction false} FindAfterNoHead(pre: string, a: string, p: string, b: string)
    requires p != [] && p[0] !in a
    ensures Find(pre + a + p + b, p, |pre|) == |pre| + |a|
  {
    var s := pre + a + p + b;
    var k := |pre| + |a|;
    assert s[k..k + |p|] == p;
    assert MatchAt(s, p, k);
    forall j: nat | |pre| <= j < k && j + |p| <= |s| ensures !MatchAt(s, p, j) {
      assert s[j..j + |p|][0] == s[j] == a[j - |pre|];
    }
    FindIs(s, p, |pre|, k);
  }

  lemma {:induction false} FindStep(s: string, p: string, from: nat)
    ensures Find(s, p, from)
         == if from + |p| > |s| then NPOS else if MatchAt(s, p, from) then from else Find(s, p, from + 1)
  {
  }

  lemma {:induction false} MatchShift(s: string, p: string, pos: nat, k: nat)
    requires pos <= |s|
    ensures MatchAt(s[pos..], p, k) <==> MatchAt(s, p, pos + k)
  {
    if pos + k + |p| <= |s| {
      DropSlice(s, pos, k, k + |p|);
    }
  }

  /** Searching depends only on the text from the starting index on. */
  lemma {:induction false} PatternShift(s: string, p: string, pos: nat, from: nat)
    requires pos <= from
    requires pos <= |s|
    ensures Find(s, p, from)
         == if Find(s[pos..], p, from - pos) == NPOS then NPOS else pos + Find(s[pos..], p, from - pos)
    decreases |s| - from
  {
    hide Find, MatchAt;
    FindStep(s, p, from);
    FindStep(s[pos..], p, from - pos);
    MatchShift(s, p, pos, from - pos);
    if from + |p| <= |s| {
      PatternShift(s, p, pos, from + 1);
    }
  }

  lemma {:induction false} FindShift(s: string, p: string, from: nat)
    requires from <= |s|
    ensures Find(s, p, from) == if Find(s[from..], p, 0) == NPOS then NPOS else from + Find(s[from..], p, 0)
  {
    hide Find;
    PatternShift(s, p, from, from);
  }

  lemma {:induction false} FindAnyShift(s: string, cs: set<char>, from: nat)
    requires from <= |s|
    ensures FindAny(s, cs, from) == if FindAny(s[from..], cs, 0) == NPOS then NPOS else from + FindAny(s[from..], cs, 0)
  {
    var a, t := FindAny(s, cs, from), s[from..];
    var b := FindAny(t, cs, 0);
    hide FindAny;
    assert forall j :: 0 <= j < |t| ==> t[j] == s[from + j];
    if a != NPOS {
      assert t[a - from] in cs;
    }
    if b != NPOS {
      assert s[from + b] in cs;
    }
  }

  /** The same for a single character. */
  lemma {:induction false} FindCharAfter(pre: string, a: string, c: char, b: string)
    requires c !in a
    ensures FindChar(pre + a + [c] + b, c, |pre|) == |pre| + |a|
  {
    var s := pre + a + [c] + b;
    var k := |pre| + |a|;
    assert s[k] == c;
    forall j | |pre| <= j < k ensures s[j] != c {
      assert s[j] == a[j - |pre|];
    }
  }

  // ------------------------------------------------------------------- case

  function Lower(c: char): (r: char)
    ensures !('A' <= c <= 'Z') ==> r == c
  {
    if 'A' <= c <= 'Z' then (c as int + 32) as char else c
  }

  function Upper(c: char): (r: char)
    ensures !('a' <= c <= 'z') ==> r == c
  {
    if 'a' <= c <= 'z' then (c as int - 32) as char else c
  }

  function ToLower(s: string): (r: string)
    ensures |r| == |s| && forall i :: 0 <= i < |s| ==> r[i] == Lower(s[i])
  {
    seq(|s|, i requires 0 <= i < |s| => Lower(s[i]))
  }

  function ToUpper(s: string): (r: string)
    ensures |r| == |s| && forall i :: 0 <= i < |s| ==> r[i] == Upper(s[i])
  {
    seq(|s|, i requires 0 <= i < |s| => Upper(s[i]))
  }

  // --------------------------------------------------------------- trimming

  predicate IsSpace(c: char) {
    c == ' ' || c == '\t' || c == '\r' || c == '\n'
  }

  function TrimLeft(s: string): (r: string)
    ensures r == [] || !IsSpace(r[0])
    ensures |r| <= |s| && r == s[|s| - |r|..]
    ensures forall i :: 0 <= i < |s| - |r| ==> IsSpace(s[i])
  {
    if s == [] || !IsSpace(s[0]) then s else TrimLeft(s[1..])
  }

  function TrimRight(s: string): (r: string)
    ensures r == [] || !IsSpace(r[|r| - 1])
    ensures |r| <= |s| && r == s[..|r|]
    ensures forall i :: |r| <= i < |s| ==> IsSpace(s[i])
  {
    if s == [] || !IsSpace(s[|s| - 1]) then s else TrimRight(s[..|s| - 1])
  }

  /** `StringUtils::Trim`: the text between the first and the last non-blank character. */
  function Trim(s: string): (r: string)
    ensures |r| <= |s|
    ensures r == [] || (!IsSpace(r[0]) && !IsSpace(r[|r| - 1]))
  {
    TrimRight(TrimLeft(s))
  }

  predicate Trimmed(s: string) {
    s == [] || (!IsSpace(s[0]) && !IsSpace(s[|s| - 1]))
  }

  lemma {:induction false} TrimId(s: string)
    requires Trimmed(s)
    ensures Trim(s) == s
  {
  }

  lemma {:induction false} TrimOneSpace(s: string, c: char)
    requires Trimmed(s) && IsSpace(c)
    ensures Trim([c] + s) == s
  {
    assert ([c] + s)[1..] == s;
    assert TrimLeft([c] + s) == TrimLeft(s) == s;
  }

  // ------------------------------------------------------------------ joins

  function Join(parts: seq<string>, sep: string): string {
    if parts == [] then ""
    else if |parts| == 1 then parts[0]
    else parts[0] + sep + Join(parts[1..], sep)
  }

  lemma {:induction false} JoinSnoc(parts: seq<string>, last: string, sep: string)
    requires parts != []
    ensures Join(parts + [last], sep) == Join(parts, sep) + sep + last
  {
    var all := parts + [last];
    if |parts| == 1 {
      assert all[1..] == [last];
    } else {
      assert all[1..] == parts[1..] + [last];
      JoinSnoc(parts[1..], last, sep);
    }
  }

  /** The characters of `s` that satisfy `keep`, in order. */
  function Filter(s: string, keep: char -> bool): string {
    if s == [] then ""
    else (if keep(s[0]) then [s[0]] else "") + Filter(s[1..], keep)
  }

  lemma {:induction false} FilterConcat(a: string, b: string, keep: char -> bool)
    ensures Filter(a + b, keep) == Filter(a, keep) + Filter(b, keep)
  {
    if a == [] {
      assert a + b == b;
    } else {
      assert (a + b)[0] == a[0] && (a + b)[1..] == a[1..] + b;
      FilterConcat(a[1..], b, keep);
      Assoc(if keep(a[0]) then [a[0]] else "", Filter(a[1..], keep), Filter(b, keep));
    }
  }

  lemma {:induction false} FilterAll(a: string, keep: char -> bool)
    requires forall i :: 0 <= i < |a| ==> keep(a[i])
    ensures Filter(a, keep) == a
  {
    if a != [] {
      FilterAll(a[1..], keep);
    }
  }
}

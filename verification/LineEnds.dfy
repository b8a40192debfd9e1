/** The parser on a message whose lines end in LF alone, as the SMTP server saves it, against the same message with
    CRLF, as the builder writes it. */
module LineEnds {
  import opened Text
  import opened Base64
  import opened MimeHeaders
  import opened HeaderBlock
  import opened Multipart

  /** The text without its CRs. */
  function NoCr(s: string): string {
    if s == "" then "" else (if s[0] == '\r' then "" else [s[0]]) + NoCr(s[1..])
  }

  /** Every CR stands right in front of an LF. */
  predicate OnlyBreaks(s: string) {
    forall i :: 0 <= i < |s| && s[i] == '\r' ==> i + 1 < |s| && s[i + 1] == '\n'
  }

  // ------------------------------------------------------------------- algebra

  lemma {:induction false} NoCrConcat(a: string, b: string)
    ensures NoCr(a + b) == NoCr(a) + NoCr(b)
  {
    if a == "" {
      assert a + b == b;
    } else {
      assert (a + b)[0] == a[0] && (a + b)[1..] == a[1..] + b;
      NoCrConcat(a[1..], b);
      Assoc(if a[0] == '\r' then "" else [a[0]], NoCr(a[1..]), NoCr(b));
    }
  }

  lemma {:induction false} NoCrSame(s: string)
    requires '\r' !in s
    ensures NoCr(s) == s
  {
    if s != "" {
      NoCrSame(s[1..]);
    }
  }

  lemma {:induction false} NoCrLacks(s: string)
    ensures '\r' !in NoCr(s)
  {
    if s != "" {
      NoCrLacks(s[1..]);
    }
  }

  lemma NoCrBreak()
    ensures NoCr("\r\n") == "\n" && NoCr("") == "" && NoCr("\r\n\r\n") == "\n\n"
  {
    assert "\r\n"[1..] == "\n" && "\n"[1..] == "" && "\r\n\r\n"[1..] == "\n\r\n" && "\n\r\n"[1..] == "\r\n";
    assert NoCr("\n") == "\n" + NoCr("");
    assert NoCr("\r\n") == "" + NoCr("\n");
    assert NoCr("\n\r\n") == "\n" + NoCr("\r\n");
  }

  lemma BreaksConcat(a: string, b: string)
    requires OnlyBreaks(a) && OnlyBreaks(b)
    ensures OnlyBreaks(a + b)
  {
    var s := a + b;
    forall i | 0 <= i < |s| && s[i] == '\r' ensures i + 1 < |s| && s[i + 1] == '\n' {
      if i < |a| {
        assert a[i] == '\r';
        assert s[i + 1] == a[i + 1];
      } else {
        assert b[i - |a|] == '\r';
        assert s[i + 1] == b[i - |a| + 1];
      }
    }
  }

  /** A front that does not end in CR, and every rest, keep their breaks whole. */
  lemma BreaksCut(s: string, k: nat)
    requires OnlyBreaks(s) && k <= |s|
    ensures OnlyBreaks(s[k..])
    ensures k == 0 || k == |s| || s[k] != '\n' || s[k - 1] != '\r' ==> OnlyBreaks(s[..k])
  {
    var a, b := s[..k], s[k..];
    forall i | 0 <= i < |b| && b[i] == '\r' ensures i + 1 < |b| && b[i + 1] == '\n' {
      assert s[k + i] == '\r';
    }
    if k == 0 || k == |s| || s[k] != '\n' || s[k - 1] != '\r' {
      forall i | 0 <= i < |a| && a[i] == '\r' ensures i + 1 < |a| && a[i + 1] == '\n' {
        assert s[i] == '\r' && s[i + 1] == '\n';
      }
    }
  }

  lemma {:induction false} StripNoCr(s: string)
    ensures StripBreaks(NoCr(s)) == StripBreaks(s)
  {
    if s != "" {
      StripNoCr(s[1..]);
      if s[0] == '\r' {
        assert "" + NoCr(s[1..]) == NoCr(s[1..]) && "" + StripBreaks(s[1..]) == StripBreaks(s[1..]);
      } else {
        assert ([s[0]] + NoCr(s[1..]))[1..] == NoCr(s[1..]);
      }
    }
  }

  // ------------------------------------------------------------------ searches

  /** A pattern without line ends. */
  predicate Inline(d: string) {
    d != "" && '\r' !in d && '\n' !in d
  }

  lemma BreakFirst(s: string)
    requires OnlyBreaks(s) && s != "" && s[0] == '\r'
    ensures NoCr(s) != "" && NoCr(s)[0] == '\n'
  {
    assert s[1] == '\n' && NoCr(s) == "" + NoCr(s[1..]) && s[1..][0] == '\n';
  }

  /** What begins the text without CRs, and has no line end, begins the text. */
  lemma {:induction false} PrefixBack(s: string, d: string)
    requires OnlyBreaks(s) && '\r' !in d && '\n' !in d && d <= NoCr(s)
    ensures d <= s
    decreases |d|
  {
    if d != "" {
      assert s != "";
      if s[0] == '\r' {
        BreakFirst(s);
      } else {
        var rest := NoCr(s[1..]);
        assert NoCr(s)[0] == s[0] == d[0] && NoCr(s)[1..] == rest;
        assert d[1..] <= rest;
        BreaksCut(s, 1);
        PrefixBack(s[1..], d[1..]);
        assert s == [s[0]] + s[1..] && d == [d[0]] + d[1..];
      }
    }
  }

  lemma PrefixForth(s: string, d: string)
    requires '\r' !in d && d <= s
    ensures d <= NoCr(s) && NoCr(s)[|d|..] == NoCr(s[|d|..])
  {
    assert s == d + s[|d|..];
    NoCrConcat(d, s[|d|..]);
    NoCrSame(d);
  }

  lemma MatchFront(s: string, d: string)
    ensures MatchAt(s, d, 0) <==> d <= s
  {
  }

  lemma FindFront(s: string, d: string)
    requires d <= s
    ensures Find(s, d, 0) == 0
  {
    assert s[0..|d|] == d;
  }

  lemma FindLater(s: string, d: string)
    requires s != "" && d != "" && !(d <= s)
    ensures Find(s, d, 0) == if Find(s[1..], d, 0) == NPOS then NPOS else 1 + Find(s[1..], d, 0)
  {
    MatchFront(s, d);
    FindStep(s, d, 0);
    hide Find, MatchAt;
    if |d| <= |s| {
      FindShift(s, d, 1);
    } else {
      FindStep(s[1..], d, 0);
    }
  }

  /** Where the pattern is found first, without the CRs in front. */
  lemma {:induction false} FindNoCr(s: string, d: string)
    requires OnlyBreaks(s) && Inline(d)
    ensures var k, k' := Find(s, d, 0), Find(NoCr(s), d, 0);
            && (k == NPOS <==> k' == NPOS)
            && (k != NPOS ==> k' == |NoCr(s[..k])|)
    decreases |s|
  {
    hide Find;
    if d <= s {
      PrefixForth(s, d);
      FindFront(s, d);
      FindFront(NoCr(s), d);
      assert s[..0] == "";
    } else if s == "" {
      FindStep(s, d, 0);
    } else {
      BreaksCut(s, 1);
      FindNoCr(s[1..], d);
      FindLater(s, d);
      var k := Find(s[1..], d, 0);
      if k != NPOS {
        assert s[..k + 1][0] == s[0] && s[..k + 1][1..] == s[1..][..k];
      }
      if s[0] == '\r' {
        assert NoCr(s) == NoCr(s[1..]);
      } else {
        if d <= NoCr(s) {
          PrefixBack(s, d);
        }
        assert NoCr(s)[1..] == NoCr(s[1..]);
        FindLater(NoCr(s), d);
      }
    }
  }

  /** The pieces around it. */
  lemma CutNoCr(s: string, d: string)
    requires OnlyBreaks(s) && Inline(d) && Find(s, d, 0) != NPOS
    ensures var k, k' := Find(s, d, 0), Find(NoCr(s), d, 0);
            && k' != NPOS && NoCr(s)[..k'] == NoCr(s[..k]) && NoCr(s)[k' + |d|..] == NoCr(s[k + |d|..])
            && OnlyBreaks(s[..k]) && OnlyBreaks(s[k + |d|..])
  {
    hide *;
    FoundHere(s, d);
    FindNoCr(s, d);
    var k, k' := Find(s, d, 0), Find(NoCr(s), d, 0);
    var x, y := NoCr(s[..k]), NoCr(s[k + |d|..]);
    MiddleNoCr(s, d, k);
    MiddleBreaks(s, d, k);
    assert k' == |x| && NoCr(s) == x + d + y;
    Middle(x, d, y);
  }

  lemma FoundHere(s: string, d: string)
    requires Find(s, d, 0) != NPOS
    ensures var k := Find(s, d, 0); 0 <= k && k + |d| <= |s| && s[k..k + |d|] == d
  {
    FindSpec(s, d, 0);
    hide Find;
  }

  lemma MiddleNoCr(s: string, d: string, k: nat)
    requires k + |d| <= |s| && s[k..k + |d|] == d && Inline(d)
    ensures NoCr(s) == NoCr(s[..k]) + d + NoCr(s[k + |d|..])
  {
    NoCrSame(d);
    hide *;
    Cut3(s, k, k + |d|);
    NoCrConcat(s[..k] + d, s[k + |d|..]);
    NoCrConcat(s[..k], d);
  }

  lemma MiddleBreaks(s: string, d: string, k: nat)
    requires OnlyBreaks(s) && k + |d| <= |s| && s[k..k + |d|] == d && Inline(d)
    ensures OnlyBreaks(s[..k]) && OnlyBreaks(s[k + |d|..])
  {
    assert s[k] == d[0] != '\n';
    hide OnlyBreaks;
    BreaksCut(s, k);
    BreaksCut(s, k + |d|);
  }

  // -------------------------------------------------------------------- parts

  function NoCrAll(parts: seq<string>): (r: seq<string>)
    ensures |r| == |parts| && forall i :: 0 <= i < |r| ==> r[i] == NoCr(parts[i])
  {
    seq(|parts|, i requires 0 <= i < |parts| => NoCr(parts[i]))
  }

  ghost predicate AllBreak(parts: seq<string>) {
    forall i :: 0 <= i < |parts| ==> OnlyBreaks(parts[i])
  }

  lemma BreakSkipped(t: string)
    requires OnlyBreaks(t)
    ensures NoCr(t)[BreakLength(NoCr(t))..] == NoCr(t[BreakLength(t)..])
    ensures OnlyBreaks(t[BreakLength(t)..])
  {
    var n := BreakLength(t);
    BreaksCut(t, n);
    if t != "" && t[0] == '\r' {
      assert t == "\r\n" + t[2..];
      NoCrConcat("\r\n", t[2..]);
      NoCrBreak();
      assert NoCr(t) == "\n" + NoCr(t[2..]);
    } else if t != "" {
      assert NoCr(t) == [t[0]] + NoCr(t[1..]);
      assert t[0..] == t && NoCr(t)[0..] == NoCr(t);
    } else {
      assert NoCr(t) == "";
    }
  }

  lemma ClosesNoCr(u: string)
    requires OnlyBreaks(u)
    ensures Closes(NoCr(u)) <==> Closes(u)
  {
    if Closes(u) {
      assert "--" <= u;
      PrefixForth(u, "--");
    }
    if Closes(NoCr(u)) {
      assert NoCr(u)[..2] == "--";
      PrefixBack(u, "--");
    }
  }

  /** What follows a delimiter, without the CRs. */
  lemma SegmentNoCr(t: string, d: string)
    requires OnlyBreaks(t) && Inline(d)
    ensures var a, b := NextSegment(t, d), NextSegment(NoCr(t), d);
            if a.Stop? then b.Stop?
            else b == Part(NoCr(a.part), NoCr(a.rest)) && OnlyBreaks(a.part) && OnlyBreaks(a.rest)
  {
    hide Find, BreakLength, OnlyBreaks, Closes;
    BreakSkipped(t);
    var u := t[BreakLength(t)..];
    ClosesNoCr(u);
    FindNoCr(u, d);
    if Find(u, d, 0) != NPOS {
      CutNoCr(u, d);
    }
  }

  lemma {:induction false} PartsAfterNoCr(t: string, d: string)
    requires OnlyBreaks(t) && Inline(d)
    ensures PartsAfter(NoCr(t), d) == NoCrAll(PartsAfter(t, d)) && AllBreak(PartsAfter(t, d))
    decreases |t|
  {
    hide NextSegment, OnlyBreaks;
    SegmentNoCr(t, d);
    var a := NextSegment(t, d);
    if a.Part? {
      PartsAfterNoCr(a.rest, d);
    }
  }

  /** For every body and every delimiter: the parts of the body without its CRs are its parts without theirs. */
  lemma PartsNoCr(body: string, d: string)
    requires OnlyBreaks(body) && Inline(d)
    ensures Parts(NoCr(body), d) == NoCrAll(Parts(body, d)) && AllBreak(Parts(body, d))
  {
    hide *;
    FindNoCr(body, d);
    PartsAt(body, d);
    PartsAt(NoCr(body), d);
    if Find(body, d, 0) == NPOS {
      NoParts();
    } else {
      CutNoCr(body, d);
      PartsAfterNoCr(body[Find(body, d, 0) + |d|..], d);
    }
  }

  lemma PartsAt(body: string, d: string)
    requires Inline(d)
    ensures d != ""
    ensures var start := Find(body, d, 0);
            Parts(body, d) == if start == NPOS then [] else PartsAfter(body[start + |d|..], d)
  {
    hide Find, PartsAfter;
  }

  lemma NoParts()
    ensures NoCrAll([]) == [] && AllBreak([])
  {
  }

  // ------------------------------------------------------------------- headers

  /** A line without LF, cut out in front of one. */
  lemma {:induction false} LineNoCr(a: string)
    requires OnlyBreaks(a + "\n") && '\n' !in a
    ensures NoCr(a) == Chomp(a) && '\r' !in Chomp(a) && '\n' !in Chomp(a)
  {
    var s := a + "\n";
    forall i | 0 <= i < |a| - 1 ensures a[i] != '\r' {
      assert s[i] == a[i] && s[i + 1] == a[i + 1] != '\n';
    }
    if a != "" && a[|a| - 1] == '\r' {
      var front := a[..|a| - 1];
      assert a == front + "\r" && NoCr("\r") == "" + NoCr("") == "";
      NoCrConcat(front, "\r");
      NoCrSame(front);
      assert NoCr(front) + "" == NoCr(front);
    } else {
      NoCrSame(a);
    }
  }

  /** The lines of a text whose first ends at `k`. */
  lemma LinesAt(s: string, k: nat)
    requires k < |s| && s[k] == '\n' && '\n' !in s[..k]
    ensures Lines(s) == [s[..k]] + Lines(s[k + 1..])
  {
    assert forall i :: 0 <= i < k ==> s[i] == s[..k][i];
    assert FindChar(s, '\n', 0) == k;
  }

  lemma LastLine(s: string)
    requires OnlyBreaks(s) && '\n' !in s
    ensures NoCr(s) == s && '\r' !in s
  {
    forall i | 0 <= i < |s| ensures s[i] != '\r' {
      assert i + 1 < |s| ==> s[i + 1] != '\n';
    }
    NoCrSame(s);
  }

  lemma AroundLf(s: string, k: nat)
    requires k < |s| && s[k] == '\n'
    ensures s[..k + 1] == s[..k] + "\n" && s == s[..k] + "\n" + s[k + 1..]
  {
  }

  /** First line, LF and rest, without the CRs. */
  lemma FirstLineNoCr(s: string, k: nat)
    requires OnlyBreaks(s) && k < |s| && s[k] == '\n' && '\n' !in s[..k]
    ensures NoCr(s) == Chomp(s[..k]) + "\n" + NoCr(s[k + 1..])
    ensures '\r' !in Chomp(s[..k]) && '\n' !in Chomp(s[..k]) && OnlyBreaks(s[k + 1..])
  {
    var a, rest := s[..k], s[k + 1..];
    NoCrSame("\n");
    hide *;
    BreaksCut(s, k + 1);
    AroundLf(s, k);
    LineNoCr(a);
    NoCrConcat(a + "\n", rest);
    NoCrConcat(a, "\n");
  }

  lemma ChompedSame(line: string)
    requires '\r' !in Chomp(line)
    ensures Chomp(Chomp(line)) == Chomp(line)
  {
  }

  /** For every header block: its lines without CRs differ only by the CRs at their ends. */
  lemma {:induction false} LinesNoCr(h: string)
    requires OnlyBreaks(h)
    ensures SameChomped(Lines(NoCr(h)), Lines(h))
    decreases |h|
  {
    if '\n' !in h {
      LastLine(h);
    } else {
      var k := FindChar(h, '\n', 0);
      assert '\n' !in h[..k];
      var line, rest := Chomp(h[..k]), h[k + 1..];
      FirstLineNoCr(h, k);
      LinesNoCr(rest);
      LinesAt(h, k);
      ChompedSame(h[..k]);
      hide Lines, Chomp, OnlyBreaks, FindChar;
      var t := NoCr(h);
      assert t[|line|] == '\n' && t[..|line|] == line && t[|line| + 1..] == NoCr(rest);
      LinesAt(t, |line|);
      ConsChomped(line, h[..k], Lines(NoCr(rest)), Lines(rest));
    }
  }

  lemma ConsChomped(x: string, y: string, a: seq<string>, b: seq<string>)
    requires Chomp(x) == Chomp(y) && SameChomped(a, b)
    ensures SameChomped([x] + a, [y] + b)
  {
    hide Chomp;
  }

  /** Every header has the same value. */
  lemma HeaderNoCr(h: string, key: string)
    requires OnlyBreaks(h)
    ensures HeaderValue(NoCr(h), key) == HeaderValue(h, key)
  {
    hide Lines, OnlyBreaks, Lookup;
    LinesNoCr(h);
    LookupChomped(Lines(NoCr(h)), Lines(h), key);
  }
}

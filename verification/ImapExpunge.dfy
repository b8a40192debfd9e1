/** HandleExpunge of imap-server/src/ImapCommandDispatcher.cpp. */
module ImapExpunge {
  datatype Message = Message(id: int, deleted: bool)

  /** Message number `n` (from 1) is marked and its delete succeeds. */
  predicate Goes(messages: seq<Message>, fails: set<int>, n: nat)
    requires 1 <= n <= |messages|
  {
    messages[n - 1].deleted && messages[n - 1].id !in fails
  }

  /** The numbers among the first `n` that are announced, in the order sent. */
  function Announced(messages: seq<Message>, fails: set<int>, n: nat): seq<int>
    requires n <= |messages|
  {
    if n == 0 then []
    else (if Goes(messages, fails, n) then [n] else []) + Announced(messages, fails, n - 1)
  }

  // ------------------------------------------------------------------ the code

  /** `std::sort` by descending number. */
  function SortDescending(s: seq<int>): seq<int> {
    if s == [] then [] else InsertDescending(s[0], SortDescending(s[1..]))
  }

  function InsertDescending(x: int, s: seq<int>): seq<int> {
    if s == [] || x >= s[0] then [x] + s else [s[0]] + InsertDescending(x, s[1..])
  }

  /** The marked numbers among the first `n`, ascending and descending. */
  function Marked(messages: seq<Message>, n: nat): seq<int>
    requires n <= |messages|
  {
    if n == 0 then [] else Marked(messages, n - 1) + if messages[n - 1].deleted then [n] else []
  }

  function MarkedDown(messages: seq<Message>, n: nat): seq<int>
    requires n <= |messages|
  {
    if n == 0 then [] else (if messages[n - 1].deleted then [n] else []) + MarkedDown(messages, n - 1)
  }

  /** A number above all others ends up in front of them. */
  lemma {:induction false} SortSnoc(s: seq<int>, x: int)
    requires forall i :: 0 <= i < |s| ==> s[i] < x
    ensures SortDescending(s + [x]) == [x] + SortDescending(s)
  {
    if s != [] {
      assert (s + [x])[0] == s[0] && (s + [x])[1..] == s[1..] + [x];
      SortSnoc(s[1..], x);
      var rest := SortDescending(s[1..]);
      assert ([x] + rest)[1..] == rest;
    }
  }

  lemma {:induction false} SortMarked(messages: seq<Message>, n: nat)
    requires n <= |messages|
    ensures SortDescending(Marked(messages, n)) == MarkedDown(messages, n)
    ensures forall i :: 0 <= i < |Marked(messages, n)| ==> Marked(messages, n)[i] <= n
  {
    if n > 0 {
      SortMarked(messages, n - 1);
      if messages[n - 1].deleted {
        SortSnoc(Marked(messages, n - 1), n);
      } else {
        assert Marked(messages, n - 1) + [] == Marked(messages, n - 1);
      }
    }
  }

  predicate Removable(messages: seq<Message>, fails: set<int>, n: int) {
    1 <= n <= |messages| && messages[n - 1].id !in fails
  }

  /** Of the marked numbers, those whose delete succeeds. */
  function Successful(messages: seq<Message>, fails: set<int>, numbers: seq<int>): seq<int> {
    if numbers == [] then []
    else
      (if Removable(messages, fails, numbers[0]) then [numbers[0]] else [])
      + Successful(messages, fails, numbers[1..])
  }

  lemma SuccessfulCons(messages: seq<Message>, fails: set<int>, n: int, numbers: seq<int>)
    ensures Successful(messages, fails, [n] + numbers)
         == (if Removable(messages, fails, n) then [n] else []) + Successful(messages, fails, numbers)
  {
    assert ([n] + numbers)[1..] == numbers;
  }

  lemma {:induction false} SuccessfulMarked(messages: seq<Message>, fails: set<int>, n: nat)
    requires n <= |messages|
    ensures Successful(messages, fails, MarkedDown(messages, n)) == Announced(messages, fails, n)
  {
    if n > 0 {
      hide Successful;
      SuccessfulMarked(messages, fails, n - 1);
      var rest := MarkedDown(messages, n - 1);
      SuccessfulCons(messages, fails, n, rest);
      assert [] + rest == rest;
    } else {
      assert MarkedDown(messages, 0) == [];
    }
  }

  lemma SuccessfulFrom(messages: seq<Message>, fails: set<int>, numbers: seq<int>, k: nat)
    requires k < |numbers|
    ensures Successful(messages, fails, numbers[k..])
         == (if Removable(messages, fails, numbers[k]) then [numbers[k]] else [])
           + Successful(messages, fails, numbers[k + 1..])
  {
    assert numbers[k..][0] == numbers[k] && numbers[k..][1..] == numbers[k + 1..];
  }

  method MarkedNumbers(messages: seq<Message>) returns (marked: seq<int>)
    ensures marked == Marked(messages, |messages|)
  {
    marked := [];
    for k := 0 to |messages|
      invariant marked == Marked(messages, k)
    {
      if messages[k].deleted {
        marked := marked + [k + 1];
      } else {
        assert marked + [] == marked;
      }
    }
  }

  method DeleteAll(messages: seq<Message>, fails: set<int>, numbers: seq<int>) returns (replies: seq<int>)
    ensures replies == Successful(messages, fails, numbers)
  {
    hide Successful, Removable;
    replies := [];
    ghost var all := Successful(messages, fails, numbers);
    assert numbers[0..] == numbers;
    for k := 0 to |numbers|
      invariant replies + Successful(messages, fails, numbers[k..]) == all
    {
      SuccessfulFrom(messages, fails, numbers, k);
      ghost var rest := Successful(messages, fails, numbers[k + 1..]);
      var number := numbers[k];
      if Removable(messages, fails, number) {
        AppendOne(replies, number, rest);
        replies := replies + [number];
      } else {
        assert [] + rest == rest;
      }
    }
    assert numbers[|numbers|..] == [];
    NothingSuccessful(messages, fails);
    assert replies + [] == replies;
  }

  lemma AppendOne(a: seq<int>, x: int, b: seq<int>)
    ensures a + ([x] + b) == a + [x] + b
  {
  }

  /** Numbering, filtering, sorting and deleting; `fails` are the messages that cannot be deleted. */
  method HandleExpunge(messages: seq<Message>, fails: set<int>) returns (replies: seq<int>)
    ensures replies == Announced(messages, fails, |messages|)
  {
    hide Marked, SortDescending, Announced, Successful, Removable;
    var marked := MarkedNumbers(messages);
    SortMarked(messages, |messages|);
    SuccessfulMarked(messages, fails, |messages|);
    replies := DeleteAll(messages, fails, SortDescending(marked));
  }

  lemma NothingSuccessful(messages: seq<Message>, fails: set<int>)
    ensures Successful(messages, fails, []) == []
  {
  }

  // ---------------------------------------------------------------- the client

  /** A client that meets `n EXPUNGE` drops its message number n and renumbers the rest, as section 7.4.1
      of RFC 3501 says. */
  function Apply(list: seq<Message>, replies: seq<int>): seq<Message>
    decreases |replies|
  {
    if replies == [] then list
    else if 1 <= replies[0] <= |list| then Apply(list[..replies[0] - 1] + list[replies[0]..], replies[1..])
    else list
  }

  /** What is left of the first `n` messages. */
  function Survivors(messages: seq<Message>, fails: set<int>, n: nat): seq<Message>
    requires n <= |messages|
  {
    if n == 0 then []
    else Survivors(messages, fails, n - 1) + if Goes(messages, fails, n) then [] else [messages[n - 1]]
  }

  lemma {:induction false} AppliedToPrefix(messages: seq<Message>, fails: set<int>, n: nat, tail: seq<Message>)
    requires n <= |messages|
    ensures Apply(messages[..n] + tail, Announced(messages, fails, n)) == Survivors(messages, fails, n) + tail
    decreases n
  {
    hide *;
    if n == 0 {
      NothingApplied(messages, fails, tail);
    } else {
      Numbered(messages, fails, n);
      if Goes(messages, fails, n) {
        AppliedToPrefix(messages, fails, n - 1, tail);
        ApplyFirst(messages, n, tail, Announced(messages, fails, n - 1));
      } else {
        AppliedToPrefix(messages, fails, n - 1, [messages[n - 1]] + tail);
        Kept(Survivors(messages, fails, n - 1), messages[n - 1], tail);
        LastAhead(messages, n, tail);
      }
    }
  }

  lemma NothingApplied(messages: seq<Message>, fails: set<int>, tail: seq<Message>)
    ensures Apply(messages[..0] + tail, Announced(messages, fails, 0)) == Survivors(messages, fails, 0) + tail
  {
    assert messages[..0] + tail == tail && [] + tail == tail;
  }

  lemma LastAhead(messages: seq<Message>, n: nat, tail: seq<Message>)
    requires 1 <= n <= |messages|
    ensures messages[..n] + tail == messages[..n - 1] + ([messages[n - 1]] + tail)
  {
  }

  lemma Numbered(messages: seq<Message>, fails: set<int>, n: nat)
    requires 1 <= n <= |messages|
    ensures var goes := Goes(messages, fails, n);
            var rest, left := Announced(messages, fails, n - 1), Survivors(messages, fails, n - 1);
            && Announced(messages, fails, n) == (if goes then [n] + rest else rest)
            && Survivors(messages, fails, n) == (if goes then left else left + [messages[n - 1]])
  {
    hide Goes;
    assert [] + Announced(messages, fails, n - 1) == Announced(messages, fails, n - 1);
    assert Survivors(messages, fails, n - 1) + [] == Survivors(messages, fails, n - 1);
  }

  lemma ApplyFirst(messages: seq<Message>, n: nat, tail: seq<Message>, rest: seq<int>)
    requires 1 <= n <= |messages|
    ensures Apply(messages[..n] + tail, [n] + rest) == Apply(messages[..n - 1] + tail, rest)
  {
    var list, replies := messages[..n] + tail, [n] + rest;
    assert list[..n - 1] + list[n..] == messages[..n - 1] + tail;
    assert replies[0] == n && replies[1..] == rest;
  }

  lemma Kept(a: seq<Message>, m: Message, b: seq<Message>)
    ensures a + ([m] + b) == a + [m] + b
  {
  }

  /** The client's list after all replies is the snapshot less what was removed, whichever deletes fail. */
  lemma ClientInStep(messages: seq<Message>, fails: set<int>)
    ensures Apply(messages, Announced(messages, fails, |messages|)) == Survivors(messages, fails, |messages|)
  {
    AppliedToPrefix(messages, fails, |messages|, []);
    assert messages[..|messages|] + [] == messages;
    assert Survivors(messages, fails, |messages|) + [] == Survivors(messages, fails, |messages|);
  }
}

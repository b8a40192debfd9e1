/** ParseSequenceSet of imap-server/src/ImapUtils.cpp, and the selection and numbering of messages in
    HandleFetch of imap-server/src/ImapCommandDispatcher.cpp. */
module ImapSequence {
  import opened Text
  import opened Wrappers

  const INT64_MAX := 0x7fff_ffff_ffff_ffff

  const INT32_MAX := 0x7fff_ffff

  // ------------------------------------------------------------------- parsing

  /** The tokens that `std::getline` delivers; an empty one at the end is not delivered. */
  function Split(s: string, delim: char): seq<string>
    decreases |s|
  {
    if s == "" then []
    else
      var k := FindChar(s, delim, 0);
      if k == NPOS then [s] else [s[..k]] + Split(s[k + 1..], delim)
  }

  predicate IsDigit(c: char) {
    '0' <= c <= '9'
  }

  function LeadingDigits(s: string): (n: nat)
    ensures n <= |s|
  {
    if s == "" || !IsDigit(s[0]) then 0 else 1 + LeadingDigits(s[1..])
  }

  /** The value of a string of digits. */
  function Decimal(s: string): nat {
    if s == "" || !IsDigit(s[|s| - 1]) then 0
    else 10 * Decimal(s[..|s| - 1]) + (s[|s| - 1] as int - '0' as int)
  }

  function SkipBlanks(s: string): string {
    if s != "" && s[0] in {' ', '\t', '\n', '\U{0B}', '\U{0C}', '\r'} then SkipBlanks(s[1..]) else s
  }

  /** `std::stoll`: blanks, a sign, digits, and then anything. */
  function Stoll(s: string): Result<int> {
    var t := SkipBlanks(s);
    var negative := t != "" && t[0] == '-';
    var u := if t != "" && (t[0] == '-' || t[0] == '+') then t[1..] else t;
    var digits := u[..LeadingDigits(u)];
    var value := if negative then 0 - Decimal(digits) else Decimal(digits);
    if digits == "" then Thrown("stoll: no conversion")
    else if !(-INT64_MAX - 1 <= value <= INT64_MAX) then Thrown("stoll: out of range")
    else Ok(value)
  }

  /** A number, or the star that stands for the largest one. */
  function Bound(s: string, max: int): Result<int> {
    if s == "*" then Ok(max) else Stoll(s)
  }

  datatype Range = Range(low: int, high: int)

  function RangeOf(part: string, max: int): Result<Range> {
    var colon := FindChar(part, ':', 0);
    if colon == NPOS then
      var n :- Bound(part, max);
      Ok(Range(n, n))
    else
      var first :- Bound(part[..colon], max);
      var second :- Bound(part[colon + 1..], max);
      Ok(if first > second then Range(second, first) else Range(first, second))
  }

  /** `x` lies in one of the ranges of the set. */
  ghost predicate Denotes(set_: string, max: int, x: int) {
    var parts := Split(set_, ',');
    exists i :: 0 <= i < |parts| && In(RangeOf(parts[i], max), x)
  }

  predicate In(r: Result<Range>, x: int) {
    r.Ok? && r.value.low <= x <= r.value.high
  }

  predicate Malformed(set_: string, max: int) {
    var parts := Split(set_, ',');
    exists i :: 0 <= i < |parts| && RangeOf(parts[i], max).Thrown?
  }

  /** The loop over a range counts past its upper bound, which must leave room for that. A number on its own
      may have any value. */
  predicate Countable(set_: string, max: int) {
    var parts := Split(set_, ',');
    forall i :: 0 <= i < |parts| && ':' in parts[i] && RangeOf(parts[i], max).Ok? ==>
      RangeOf(parts[i], max).value.high < INT64_MAX
  }

  // ---------------------------------------------------------- sorting, no doubles

  ghost predicate Ascending(s: seq<int>) {
    forall i, j :: 0 <= i < j < |s| ==> s[i] <= s[j]
  }

  ghost predicate StrictlyAscending(s: seq<int>) {
    forall i, j :: 0 <= i < j < |s| ==> s[i] < s[j]
  }

  /** `std::sort`. */
  function Sort(s: seq<int>): seq<int> {
    if s == [] then [] else Insert(s[0], Sort(s[1..]))
  }

  function Insert(x: int, s: seq<int>): seq<int> {
    if s == [] || x <= s[0] then [x] + s else [s[0]] + Insert(x, s[1..])
  }

  /** `std::unique` and `erase`: of equal neighbours the first stays. */
  function Unique(s: seq<int>): seq<int> {
    if |s| <= 1 then s
    else if s[|s| - 2] == s[|s| - 1] then Unique(s[..|s| - 1])
    else Unique(s[..|s| - 1]) + [s[|s| - 1]]
  }

  lemma {:induction false} InsertSorts(x: int, s: seq<int>)
    requires Ascending(s)
    ensures Ascending(Insert(x, s))
    ensures forall y :: y in Insert(x, s) <==> y == x || y in s
  {
    if s != [] && x > s[0] {
      InsertSorts(x, s[1..]);
      assert s == [s[0]] + s[1..];
      var rest := Insert(x, s[1..]);
      forall j | 0 <= j < |rest| ensures s[0] <= rest[j] {
        assert rest[j] in rest;
      }
    }
  }

  lemma {:induction false} SortSorts(s: seq<int>)
    ensures Ascending(Sort(s))
    ensures forall y :: y in Sort(s) <==> y in s
  {
    if s != [] {
      SortSorts(s[1..]);
      InsertSorts(s[0], Sort(s[1..]));
      assert s == [s[0]] + s[1..];
    }
  }

  lemma {:induction false} UniqueStrict(s: seq<int>)
    requires Ascending(s)
    ensures StrictlyAscending(Unique(s))
    ensures s != [] ==> Unique(s) != [] && Unique(s)[|Unique(s)| - 1] == s[|s| - 1]
  {
    if |s| > 1 {
      var init, last := s[..|s| - 1], s[|s| - 1];
      UniqueStrict(init);
      assert init[|init| - 1] == s[|s| - 2];
    }
  }

  lemma {:induction false} UniqueKeeps(s: seq<int>, y: int)
    ensures y in Unique(s) <==> y in s
  {
    if |s| > 1 {
      var init, last := s[..|s| - 1], s[|s| - 1];
      UniqueKeeps(init, y);
      assert s == init + [last];
      assert init[|init| - 1] == s[|s| - 2];
    }
  }

  lemma SortedUnique(s: seq<int>)
    ensures StrictlyAscending(Unique(Sort(s)))
    ensures forall y :: y in Unique(Sort(s)) <==> y in s
  {
    hide Unique, Sort;
    SortSorts(s);
    UniqueStrict(Sort(s));
    forall y ensures y in Unique(Sort(s)) <==> y in s {
      UniqueKeeps(Sort(s), y);
    }
  }

  // ------------------------------------------------------------------ the loop

  method AddRange(res: seq<int>, r: Range) returns (out: seq<int>)
    ensures forall x :: x in out <==> x in res || r.low <= x <= r.high
  {
    out := res;
    var i := r.low;
    while i <= r.high
      invariant r.low <= i && (i <= r.high + 1 || i == r.low)
      invariant forall x :: x in out <==> x in res || (r.low <= x < i && x <= r.high)
      decreases r.high - i
    {
      out := out + [i];
      i := i + 1;
    }
  }

  /** ParseSequenceSet: the strictly ascending list of exactly the numbers that the ranges denote. */
  method ParseSequenceSet(set_: string, max: int) returns (r: Result<seq<int>>)
    requires Countable(set_, max)
    ensures r.Thrown? <==> Malformed(set_, max)
    ensures r.Ok? ==> StrictlyAscending(r.value) && forall x :: x in r.value <==> Denotes(set_, max, x)
  {
    hide Split, RangeOf;
    var parts := Split(set_, ',');
    var res: seq<int> := [];
    for k := 0 to |parts|
      invariant forall i :: 0 <= i < k ==> RangeOf(parts[i], max).Ok?
      invariant forall x :: x in res <==> exists i :: 0 <= i < k && In(RangeOf(parts[i], max), x)
    {
      var range := RangeOf(parts[k], max);
      if range.Thrown? {
        return Thrown(range.what);
      }
      res := AddRange(res, range.value);
    }
    SortedUnique(res);
    r := Ok(Unique(Sort(res)));
  }

  // --------------------------------------------------------- selection in FETCH

  /** The conversion of an `int64_t` to an `int`. */
  function Narrow(x: int): int {
    (x + 0x8000_0000) % 0x1_0000_0000 - 0x8000_0000
  }

  lemma NarrowSame(x: int)
    requires -INT32_MAX - 1 <= x <= INT32_MAX
    ensures Narrow(x) == x
  {
  }

  lemma NarrowNoMore(n: nat)
    ensures Narrow(n) <= n
  {
  }

  /** The test of HandleFetch; the size of the mailbox is converted as well. */
  predicate Selects(id: int, n: nat) {
    0 < Narrow(id) <= Narrow(n)
  }

  function Chosen<T>(id: int, messages: seq<T>): seq<T> {
    NarrowNoMore(|messages|);
    if Selects(id, |messages|) then [messages[Narrow(id) - 1]] else []
  }

  function Select<T>(ids: seq<int>, messages: seq<T>): seq<T> {
    if ids == [] then [] else Select(ids[..|ids| - 1], messages) + Chosen(ids[|ids| - 1], messages)
  }

  lemma SelectSnoc<T>(ids: seq<int>, id: int, messages: seq<T>)
    ensures Select(ids + [id], messages) == Select(ids, messages) + Chosen(id, messages)
  {
    hide Chosen;
    assert (ids + [id])[..|ids|] == ids;
  }

  method SelectMessages<T>(ids: seq<int>, messages: seq<T>) returns (selected: seq<T>)
    ensures selected == Select(ids, messages)
  {
    hide Narrow, Select;
    NarrowNoMore(|messages|);
    NothingSelected(messages);
    selected := [];
    assert ids[..0] == [] && ids[..|ids|] == ids;
    for k := 0 to |ids|
      invariant selected == Select(ids[..k], messages)
    {
      SelectSnoc(ids[..k], ids[k], messages);
      assert ids[..k + 1] == ids[..k] + [ids[k]];
      var number := Narrow(ids[k]);
      if 0 < number <= Narrow(|messages|) {
        selected := selected + [messages[number - 1]];
      } else {
        assert selected + [] == selected;
      }
    }
  }

  lemma NothingSelected<T>(messages: seq<T>)
    ensures Select([], messages) == []
  {
  }

  /** HandleFetch labels the i-th selected message with the i-th number of the set. */
  ghost predicate TrulyLabelled<T>(ids: seq<int>, messages: seq<T>) {
    var selected := Select(ids, messages);
    && |selected| <= |ids|
    && forall i :: 0 <= i < |selected| ==> 1 <= ids[i] <= |messages| && messages[ids[i] - 1] == selected[i]
  }

  ghost predicate AllPositive(ids: seq<int>) {
    forall i :: 0 <= i < |ids| ==> 1 <= ids[i]
  }

  /** No number beyond the mailbox is converted to one within it. */
  ghost predicate BeyondDropped(ids: seq<int>, n: nat) {
    forall i :: 0 <= i < |ids| && ids[i] > n ==> !Selects(ids[i], n)
  }

  /** How many numbers of an ascending list lie within the mailbox. */
  function Fitting(ids: seq<int>, n: nat): (k: nat)
    ensures k <= |ids|
  {
    if ids == [] then 0 else if ids[|ids| - 1] <= n then |ids| else Fitting(ids[..|ids| - 1], n)
  }

  lemma {:induction false} FittingAreSmall(ids: seq<int>, n: nat)
    requires StrictlyAscending(ids)
    ensures forall i :: 0 <= i < |ids| ==> (i < Fitting(ids, n) <==> ids[i] <= n)
  {
    if ids != [] && ids[|ids| - 1] > n {
      FittingAreSmall(ids[..|ids| - 1], n);
    }
  }

  lemma FittingSnoc(ids: seq<int>, id: int, n: nat)
    requires StrictlyAscending(ids + [id])
    ensures Fitting(ids + [id], n) == if id <= n then |ids| + 1 else Fitting(ids, n)
    ensures id <= n ==> Fitting(ids, n) == |ids|
  {
    var all := ids + [id];
    assert all[..|ids|] == ids && all[|ids|] == id;
    if id <= n && ids != [] {
      assert all[|ids| - 1] < all[|ids|];
    }
  }

  /** A number within the mailbox selects the message at its position. */
  lemma ChosenInside<T>(id: int, messages: seq<T>)
    requires 1 <= id <= |messages| <= INT32_MAX
    ensures Selects(id, |messages|) && Chosen(id, messages) == [messages[id - 1]]
  {
    NarrowSame(id);
    NarrowSame(|messages|);
    hide Narrow;
  }

  lemma Shorter(ids: seq<int>)
    requires ids != [] && StrictlyAscending(ids)
    ensures var init := ids[..|ids| - 1];
            && StrictlyAscending(init) && ids == init + [ids[|ids| - 1]] && (AllPositive(ids) ==> AllPositive(init))
  {
  }

  /** Positive numbers of which those beyond the mailbox are dropped select the messages they name. */
  lemma {:induction false} SelectsPrefix<T>(ids: seq<int>, messages: seq<T>)
    requires StrictlyAscending(ids) && AllPositive(ids) && BeyondDropped(ids, |messages|) && |messages| <= INT32_MAX
    ensures var k := Fitting(ids, |messages|);
            && |Select(ids, messages)| == k
            && (forall i :: 0 <= i < k ==> ids[i] <= |messages| && Select(ids, messages)[i] == messages[ids[i] - 1])
  {
    if ids != [] {
      var init, last, n := ids[..|ids| - 1], ids[|ids| - 1], |messages|;
      Shorter(ids);
      assert BeyondDropped(init, n);
      hide Narrow, Fitting, Select, StrictlyAscending, Selects;
      SelectsPrefix(init, messages);
      FittingSnoc(init, last, n);
      SelectSnoc(init, last, messages);
      if last <= n {
        ChosenInside(last, messages);
      }
    }
  }

  /** Positive numbers select at least those within the mailbox, and more if one beyond it is not dropped. */
  lemma {:induction false} SelectsMore<T>(ids: seq<int>, messages: seq<T>)
    requires StrictlyAscending(ids) && AllPositive(ids) && |messages| <= INT32_MAX
    ensures Fitting(ids, |messages|) <= |Select(ids, messages)|
    ensures !BeyondDropped(ids, |messages|) ==> Fitting(ids, |messages|) < |Select(ids, messages)|
  {
    if ids != [] {
      var init, last, n := ids[..|ids| - 1], ids[|ids| - 1], |messages|;
      Shorter(ids);
      hide Narrow, Fitting, Select, Selects;
      SelectsMore(init, messages);
      FittingSnoc(init, last, n);
      SelectSnoc(init, last, messages);
      if last <= n {
        ChosenInside(last, messages);
      }
    }
  }

  lemma {:induction false} SelectNoMore<T>(ids: seq<int>, messages: seq<T>)
    ensures |Select(ids, messages)| <= |ids|
    ensures Select(ids, messages) == [] <==> forall i :: 0 <= i < |ids| ==> !Selects(ids[i], |messages|)
  {
    hide Narrow;
    if ids != [] {
      SelectNoMore(ids[..|ids| - 1], messages);
    }
  }

  /** Numbers beyond the mailbox are dropped from the end, so every label is the message's true position. */
  lemma LabelsTrue<T>(ids: seq<int>, messages: seq<T>)
    requires StrictlyAscending(ids) && AllPositive(ids) && BeyondDropped(ids, |messages|) && |messages| <= INT32_MAX
    ensures TrulyLabelled(ids, messages)
  {
    hide Select, Fitting, Selects;
    SelectsPrefix(ids, messages);
  }

  /** Exactly when the labels are true, for every set: no number selects anything, or there is no number below
      1 and none beyond the mailbox that the conversion to `int` brings back into it. */
  lemma LabelsTrueIff<T>(ids: seq<int>, messages: seq<T>)
    requires StrictlyAscending(ids) && |messages| <= INT32_MAX
    ensures TrulyLabelled(ids, messages) <==>
              || (forall i :: 0 <= i < |ids| ==> !Selects(ids[i], |messages|))
              || (ids != [] && ids[0] >= 1 && BeyondDropped(ids, |messages|))
  {
    SelectNoMore(ids, messages);
    if ids != [] && ids[0] >= 1 {
      assert AllPositive(ids);
      hide Select, Selects;
      if BeyondDropped(ids, |messages|) {
        LabelsTrue(ids, messages);
      } else {
        OneTooMany(ids, messages);
      }
    } else {
      hide Select, Selects;
    }
  }

  /** A number beyond the mailbox that is not dropped makes one label too many. */
  lemma OneTooMany<T>(ids: seq<int>, messages: seq<T>)
    requires StrictlyAscending(ids) && AllPositive(ids) && !BeyondDropped(ids, |messages|) && |messages| <= INT32_MAX
    ensures !TrulyLabelled(ids, messages)
  {
    hide Select, Fitting, Selects;
    SelectNoMore(ids, messages);
    SelectsMore(ids, messages);
    FittingAreSmall(ids, |messages|);
    assert ids[Fitting(ids, |messages|)] > |messages|;
  }

  datatype Reply<T> = Reply(number: int, message: T)

  /** Parsing, selection and labelling in HandleFetch. A set of numbers from 1 to INT32_MAX is answered with
      exactly the messages it names and the mailbox has, ascending, each under its own position. */
  method FetchReplies<T>(set_: string, messages: seq<T>) returns (r: Result<seq<Reply<T>>>)
    requires Countable(set_, |messages|)
    ensures r.Thrown? <==> Malformed(set_, |messages|)
    ensures r.Ok? && |messages| <= INT32_MAX && (forall x :: Denotes(set_, |messages|, x) ==> 1 <= x <= INT32_MAX) ==>
              && (forall i, j :: 0 <= i < j < |r.value| ==> r.value[i].number < r.value[j].number)
              && (forall i :: 0 <= i < |r.value| ==>
                    1 <= r.value[i].number <= |messages| && r.value[i].message == messages[r.value[i].number - 1])
              && (forall x :: Denotes(set_, |messages|, x) && x <= |messages| <==>
                    exists i :: 0 <= i < |r.value| && r.value[i].number == x)
  {
    hide Countable, Malformed, Denotes, Select, Fitting, StrictlyAscending, Selects;
    var parsed := ParseSequenceSet(set_, |messages|);
    if parsed.Thrown? {
      return Thrown(parsed.what);
    }
    var ids := parsed.value;
    var selected := SelectMessages(ids, messages);
    SelectNoMore(ids, messages);
    var replies: seq<Reply<T>> := [];
    for i := 0 to |selected|
      invariant |replies| == i
      invariant forall j :: 0 <= j < i ==> replies[j] == Reply(ids[j], selected[j])
    {
      replies := replies + [Reply(ids[i], selected[i])];
    }
    r := Ok(replies);
    if |messages| <= INT32_MAX && (forall x :: Denotes(set_, |messages|, x) ==> 1 <= x <= INT32_MAX) {
      forall i | 0 <= i < |ids| ensures 1 <= ids[i] <= INT32_MAX {
        assert ids[i] in ids;
      }
      IntsStay(ids, |messages|);
      RepliesExact(ids, messages, replies);
      forall x
        ensures Denotes(set_, |messages|, x) && x <= |messages| <==>
                  exists i :: 0 <= i < |replies| && replies[i].number == x
      {
        RepliesComplete(ids, messages, replies, x);
      }
    }
  }

  lemma IntsStay(ids: seq<int>, n: nat)
    requires n <= INT32_MAX && forall i :: 0 <= i < |ids| ==> 1 <= ids[i] <= INT32_MAX
    ensures AllPositive(ids) && BeyondDropped(ids, n)
  {
    NarrowSame(n);
    forall i | 0 <= i < |ids| ensures Narrow(ids[i]) == ids[i] {
      NarrowSame(ids[i]);
    }
    hide Narrow;
  }

  ghost predicate Labels<T>(ids: seq<int>, messages: seq<T>, replies: seq<Reply<T>>) {
    && |replies| == |Select(ids, messages)| <= |ids|
    && forall i :: 0 <= i < |replies| ==> replies[i] == Reply(ids[i], Select(ids, messages)[i])
  }

  lemma RepliesExact<T>(ids: seq<int>, messages: seq<T>, replies: seq<Reply<T>>)
    requires StrictlyAscending(ids) && AllPositive(ids) && BeyondDropped(ids, |messages|) && |messages| <= INT32_MAX
    requires Labels(ids, messages, replies)
    ensures forall i, j :: 0 <= i < j < |replies| ==> replies[i].number < replies[j].number
    ensures forall i :: 0 <= i < |replies| ==>
              1 <= replies[i].number <= |messages| && replies[i].message == messages[replies[i].number - 1]
  {
    hide Select, Fitting, Selects;
    SelectsPrefix(ids, messages);
  }

  lemma RepliesComplete<T>(ids: seq<int>, messages: seq<T>, replies: seq<Reply<T>>, x: int)
    requires StrictlyAscending(ids) && AllPositive(ids) && BeyondDropped(ids, |messages|) && |messages| <= INT32_MAX
    requires Labels(ids, messages, replies)
    ensures x in ids && x <= |messages| <==> exists i :: 0 <= i < |replies| && replies[i].number == x
  {
    hide Select, Fitting, Selects;
    SelectsPrefix(ids, messages);
    FittingAreSmall(ids, |messages|);
    if x in ids && x <= |messages| {
      var i :| 0 <= i < |ids| && ids[i] == x;
      assert replies[i].number == x;
    }
  }

  lemma SelectTwo<T>(a: int, b: int, messages: seq<T>)
    ensures Select([a, b], messages) == Chosen(a, messages) + Chosen(b, messages)
    ensures Select([b], messages) == Chosen(b, messages)
  {
    hide Chosen, Select;
    SelectSnoc([a], b, messages);
    SelectSnoc([], a, messages);
    SelectSnoc([], b, messages);
    NothingSelected(messages);
    assert [a] + [b] == [a, b] && [] + [a] == [a] && [] + [b] == [b];
    assert [] + Chosen(a, messages) == Chosen(a, messages) && [] + Chosen(b, messages) == Chosen(b, messages);
  }

  /** `0,1` selects the first message and labels it 0. */
  lemma ZeroShiftsLabels<T>(messages: seq<T>)
    requires 1 <= |messages| <= INT32_MAX
    ensures Select([0, 1], messages) == [messages[0]] && !TrulyLabelled([0, 1], messages)
  {
    SelectTwo(0, 1, messages);
    ChosenInside(1, messages);
    assert Chosen(0, messages) == [];
    assert [] + [messages[0]] == [messages[0]];
  }

  /** A number of 33 bits is cut down to another one: the first message is selected and labelled with the
      number, which lies beyond the mailbox. */
  lemma WideNumberSelects<T>(messages: seq<T>)
    requires 1 <= |messages| <= INT32_MAX
    ensures Select([0x1_0000_0001], messages) == [messages[0]] && !TrulyLabelled([0x1_0000_0001], messages)
  {
    SelectTwo(0, 0x1_0000_0001, messages);
    NarrowSame(|messages|);
  }
}

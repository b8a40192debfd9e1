/** logger/src/Logger.cpp: producers, one worker and a reader that waits for a flush, as steps between
    the points where a thread takes or gives up the queue's mutex. */
module Logger {
  datatype Message = Message(level: nat, text: string)

  /** Level 0 is NONE. */
  const INFO := 1
  const ERROR := 2

  const STRATEGY_FAILURE := "Log strategy failure"

  function WriteFailure(error: string): string {
    "Log strategy writing failure. " + error
  }

  const CONSOLE_NOTE := Message(INFO, "Console output is enabled")

  /** A handled message and the level of the strategy that handled it. */
  datatype Entry = Entry(message: Message, threshold: nat)

  /** The shared queue, the worker's batch, what has been handled (written or filtered out), what has been
      written, and every message ever queued. */
  datatype Books = Books(
    queue: seq<Message>, local: seq<Message>, handled: seq<Entry>, written: seq<Message>, log: seq<Message>)

  /** The level of the logger's strategy and of the one the worker uses, and whether they are one object. */
  datatype Levels = Levels(current: nat, using: nat, shared: bool)

  /** Where the worker stands: in its first wait, in the wait after an empty flush, with a fresh batch,
      reporting a failed strategy, switched to the console, draining the batch, about to confirm a flush,
      or gone. */
  datatype Worker = Waiting | Parked | Fetching | Reporting(error: string) | Switched | Draining | Confirming | Stopped

  /** Each waiting reader is noted with the length of the log when it took the lock. */
  datatype State = State(
    books: Books, levels: Levels, worker: Worker, running: bool, flush: bool, flushed: bool, waiters: map<int, nat>)

  datatype Event =
    | Log(message: Message, sawRunning: bool)
    | RequestFlush(reader: int)
    | ReturnFromFlush(reader: int)
    | Wake
    | Unpark
    | Fetch(valid: bool)
    | Report(sawRunning: bool)
    | Drain(writes: bool, error: string)
    | Confirm
    | SetLevel(level: nat)
    | SetStrategy(level: nat)
    | Stop

  function Enqueue(b: Books, m: Message): Books {
    b.(queue := b.queue + [m], log := b.log + [m])
  }

  /** The swap of the two queues. */
  function Swap(b: Books): Books {
    b.(local := b.queue, queue := b.local)
  }

  /** The front of the batch has been written, or its level has filtered it out. */
  function Pop(b: Books, threshold: nat): Books
    requires b.local != []
  {
    var front := b.local[0];
    b.(local := b.local[1..], handled := b.handled + [Entry(front, threshold)],
       written := if front.level > threshold then b.written else b.written + [front])
  }

  /** The end of the locked section of WorkQueue: leave, go round, or take the whole queue. */
  function TakeQueue(s: State): State {
    if s.books.queue == [] then s.(worker := if s.running then Waiting else Stopped)
    else s.(books := Swap(s.books), worker := Fetching)
  }

  /** ReportError and ReportSystemInfo, which log like any producer: the running flag is read before the queue's
      lock is taken. */
  function Announce(s: State, m: Message, sawRunning: bool): State {
    if s.running || sawRunning then s.(books := Enqueue(s.books, m)) else s
  }

  predicate CanReturn(s: State) {
    (s.books.queue == [] && s.flushed) || !s.running
  }

  /** Whether a thread can take this step now. */
  predicate Enabled(s: State, e: Event) {
    match e
    case RequestFlush(reader) => reader !in s.waiters
    case ReturnFromFlush(reader) => reader in s.waiters && CanReturn(s)
    case Wake => s.worker.Waiting?
    case Unpark => s.worker.Parked? && (!s.flush || s.books.queue != [] || !s.running)
    case Fetch(_) => s.worker.Fetching?
    case Report(_) => s.worker.Reporting? || s.worker.Switched?
    case Drain(_, _) => s.worker.Draining?
    case Confirm => s.worker.Confirming?
    case _ => true
  }

  function Next(s: State, e: Event): State {
    match e
    case Log(m, sawRunning) =>
      if m.level != 0 && (s.running || sawRunning) then s.(books := Enqueue(s.books, m)) else s
    case RequestFlush(reader) => s.(flush := true, waiters := s.waiters[reader := |s.books.log|])
    case ReturnFromFlush(reader) => s.(flush := false, flushed := false, waiters := s.waiters - {reader})
    case Wake => if s.flush && s.books.queue == [] then s.(flushed := true, worker := Parked) else TakeQueue(s)
    case Unpark => TakeQueue(s)
    case Fetch(valid) =>
      if valid then s.(levels := Levels(s.levels.current, s.levels.current, true), worker := Draining)
      else s.(worker := Reporting(STRATEGY_FAILURE))
    case Report(sawRunning) =>
      if s.worker.Reporting? then
        Announce(s.(worker := Switched, levels := s.levels.(shared := false)), Message(ERROR, s.worker.error),
                 sawRunning)
      else
        Announce(s.(worker := Draining, levels := Levels(s.levels.current, s.levels.current, true)),
                 CONSOLE_NOTE, sawRunning)
    case Drain(writes, error) =>
      if s.books.local == [] then s.(worker := Confirming)
      else if s.books.local[0].level > s.levels.using || writes then s.(books := Pop(s.books, s.levels.using))
      else s.(worker := Reporting(WriteFailure(error)))
    case Confirm => s.(flushed := s.flushed || (s.flush && s.books.queue == []), worker := Waiting)
    case SetLevel(level) =>
      s.(levels := s.levels.(current := level, using := if s.levels.shared then level else s.levels.using))
    case SetStrategy(level) => s.(levels := s.levels.(current := level, shared := false))
    case Stop => s.(running := false)
  }

  // ---------------------------------------------------------------- invariants

  function Messages(entries: seq<Entry>): (r: seq<Message>)
    ensures |r| == |entries| && forall i :: 0 <= i < |r| ==> r[i] == entries[i].message
  {
    seq(|entries|, i requires 0 <= i < |entries| => entries[i].message)
  }

  /** The messages that their strategy's level lets through. */
  function Passed(entries: seq<Entry>): seq<Message> {
    if entries == [] then []
    else
      var last := entries[|entries| - 1];
      Passed(entries[..|entries| - 1]) + if last.message.level > last.threshold then [] else [last.message]
  }

  /** Nothing lost, repeated or reordered, and everything handled was written or filtered by level. */
  ghost predicate Fifo(b: Books) {
    Messages(b.handled) + b.local + b.queue == b.log && b.written == Passed(b.handled)
  }

  /** Outside a batch the worker holds no messages. */
  predicate BetweenBatches(w: Worker) {
    w.Waiting? || w.Parked? || w.Confirming? || w.Stopped?
  }

  /** Readers come one at a time, and both flags are down while nobody waits. While a flush stands
      confirmed, everything logged before the request has been handled. */
  ghost predicate Barrier(s: State) {
    && (forall r, q :: r in s.waiters && q in s.waiters ==> r == q)
    && (forall r :: r in s.waiters ==> s.waiters[r] <= |s.books.log|)
    && (forall r :: r in s.waiters && s.flushed ==> s.waiters[r] <= |s.books.handled|)
    && (s.waiters == map[] ==> !s.flush && !s.flushed)
  }

  ghost predicate Inv(s: State) {
    (BetweenBatches(s.worker) ==> s.books.local == []) && Fifo(s.books) && Barrier(s)
  }

  /** At most one WaitFlush is outstanding. */
  predicate OneReader(s: State, e: Event) {
    e.RequestFlush? ==> s.waiters == map[]
  }

  lemma EnqueueKeepsFifo(b: Books, m: Message)
    requires Fifo(b)
    ensures Fifo(Enqueue(b, m))
  {
  }

  lemma SwapKeepsFifo(b: Books)
    requires Fifo(b) && b.local == []
    ensures Fifo(Swap(b))
  {
  }

  lemma PopKeepsFifo(b: Books, threshold: nat)
    requires Fifo(b) && b.local != []
    ensures Fifo(Pop(b, threshold))
  {
    var c, e := Pop(b, threshold), Entry(b.local[0], threshold);
    MessagesSnoc(b.handled, e);
    PassedSnoc(b.handled, e);
    FrontMoves(Messages(b.handled), b.local, b.queue);
    hide Messages, Passed;
  }

  lemma MessagesSnoc(entries: seq<Entry>, e: Entry)
    ensures Messages(entries + [e]) == Messages(entries) + [e.message]
  {
  }

  lemma PassedSnoc(entries: seq<Entry>, e: Entry)
    ensures Passed(entries + [e]) == Passed(entries) + if e.message.level > e.threshold then [] else [e.message]
  {
    assert (entries + [e])[..|entries|] == entries;
  }

  lemma FrontMoves(done: seq<Message>, local: seq<Message>, queue: seq<Message>)
    requires local != []
    ensures done + [local[0]] + local[1..] + queue == done + local + queue
  {
    assert [local[0]] + local[1..] == local;
  }

  /** How a step may change the books. */
  ghost predicate BooksStep(b: Books, c: Books) {
    || c == b
    || (exists m :: c == Enqueue(b, m))
    || (b.local == [] && c == Swap(b))
    || (b.local != [] && exists t: nat :: c == Pop(b, t))
  }

  lemma NextBooks(s: State, e: Event)
    requires Enabled(s, e) && (BetweenBatches(s.worker) ==> s.books.local == [])
    ensures BooksStep(s.books, Next(s, e).books)
  {
    hide Enqueue, Swap, Pop, STRATEGY_FAILURE, WriteFailure, CONSOLE_NOTE;
  }

  lemma BooksStepKeeps(b: Books, c: Books)
    requires Fifo(b) && BooksStep(b, c)
    ensures Fifo(c) && |b.log| <= |c.log| && |b.handled| <= |c.handled|
  {
    if m :| c == Enqueue(b, m) {
      EnqueueKeepsFifo(b, m);
    } else if b.local == [] && c == Swap(b) {
      SwapKeepsFifo(b);
    } else if b.local != [] && exists t: nat :: c == Pop(b, t) {
      var t: nat :| c == Pop(b, t);
      PopKeepsFifo(b, t);
    }
  }

  lemma NextBatch(s: State, e: Event)
    requires Enabled(s, e) && (BetweenBatches(s.worker) ==> s.books.local == [])
    ensures var t := Next(s, e); BetweenBatches(t.worker) ==> t.books.local == []
  {
    forall m ensures Enqueue(s.books, m).local == s.books.local {
    }
    hide Enqueue, Swap, Pop, STRATEGY_FAILURE, WriteFailure, CONSOLE_NOTE;
  }

  lemma Counts(b: Books)
    requires Fifo(b)
    ensures |b.handled| + |b.local| + |b.queue| == |b.log|
  {
    assert |Messages(b.handled) + b.local + b.queue| == |b.handled| + |b.local| + |b.queue|;
  }

  /** The flags change only where a reader or the worker holds the lock. */
  lemma NextFlags(s: State, e: Event)
    requires Enabled(s, e) && (BetweenBatches(s.worker) ==> s.books.local == [])
    requires !e.RequestFlush? && !e.ReturnFromFlush?
    ensures var t := Next(s, e);
            && t.waiters == s.waiters && t.flush == s.flush
            && (t.flushed != s.flushed ==> s.flush && s.books.queue == [] && s.books.local == [])
  {
    hide Enqueue, Swap, Pop, STRATEGY_FAILURE, WriteFailure, CONSOLE_NOTE;
  }

  lemma NextKeepsInv(s: State, e: Event)
    requires Inv(s) && Enabled(s, e) && OneReader(s, e)
    ensures Inv(Next(s, e))
  {
    Counts(s.books);
    NextBooks(s, e);
    NextBatch(s, e);
    BooksStepKeeps(s.books, Next(s, e).books);
    if !e.RequestFlush? && !e.ReturnFromFlush? {
      NextFlags(s, e);
      hide Next, Fifo, BooksStep;
    } else {
      hide Fifo, BooksStep;
    }
  }

  ghost predicate IsRun(s: State, events: seq<Event>, t: State)
    decreases |events|
  {
    if events == [] then t == s
    else Enabled(s, events[0]) && OneReader(s, events[0]) && IsRun(Next(s, events[0]), events[1..], t)
  }

  lemma {:induction false} RunKeepsInv(s: State, events: seq<Event>, t: State)
    requires Inv(s) && IsRun(s, events, t)
    ensures Inv(t)
    decreases |events|
  {
    hide Next, Inv;
    if events != [] {
      NextKeepsInv(s, events[0]);
      RunKeepsInv(Next(s, events[0]), events[1..], t);
    }
  }

  /** A logger that has just started, with any strategy level. */
  function Start(level: nat): State {
    State(Books([], [], [], [], []), Levels(level, level, true), Waiting, true, false, false, map[])
  }

  /** In every reachable state: handled ++ local ++ shared is the log, and what was written is what the
      levels let through of what was handled, in order, across every change of strategy. */
  lemma LogIsConserved(level: nat, events: seq<Event>, s: State)
    requires IsRun(Start(level), events, s)
    ensures Messages(s.books.handled) + s.books.local + s.books.queue == s.books.log
    ensures s.books.written == Passed(s.books.handled)
  {
    RunKeepsInv(Start(level), events, s);
  }

  /** When WaitFlush returns on a running logger, everything logged before it took the lock has been
      written or filtered out. */
  lemma FlushIsBarrier(level: nat, events: seq<Event>, s: State, reader: int)
    requires IsRun(Start(level), events, s)
    requires Enabled(s, ReturnFromFlush(reader)) && s.running
    ensures s.waiters[reader] <= |s.books.handled| <= |s.books.log|
    ensures Messages(s.books.handled)[..s.waiters[reader]] == s.books.log[..s.waiters[reader]]
  {
    RunKeepsInv(Start(level), events, s);
    HandledIsPrefix(s.books, s.waiters[reader]);
  }

  lemma HandledIsPrefix(b: Books, n: nat)
    requires Fifo(b) && n <= |b.handled|
    ensures |b.handled| <= |b.log| && Messages(b.handled)[..n] == b.log[..n]
  {
    Counts(b);
    assert b.log[..n] == (Messages(b.handled) + b.local + b.queue)[..n];
  }

  /** The worker leaves only when everything queued so far has been handled. */
  lemma StopsWhenDone(level: nat, events: seq<Event>, s: State, e: Event)
    requires IsRun(Start(level), events, s) && Enabled(s, e)
    requires !s.worker.Stopped? && Next(s, e).worker.Stopped?
    ensures Messages(Next(s, e).books.handled) == Next(s, e).books.log
  {
    RunKeepsInv(Start(level), events, s);
    StopsOnlyEmpty(s, e);
    hide Next;
    assert Messages(s.books.handled) + [] + [] == Messages(s.books.handled);
  }

  lemma StopsOnlyEmpty(s: State, e: Event)
    requires Enabled(s, e) && (BetweenBatches(s.worker) ==> s.books.local == [])
    requires !s.worker.Stopped? && Next(s, e).worker.Stopped?
    ensures s.books.queue == [] && s.books.local == [] && Next(s, e).books == s.books
  {
    hide Enqueue, Swap, Pop, STRATEGY_FAILURE, WriteFailure, CONSOLE_NOTE;
  }

  /** Two readers at once break the barrier: the first one's confirmation still stands while the worker
      holds a newer message, and lets the second one return before that message is written. */
  lemma TwoReadersBreakBarrier(level: nat, m: Message)
    requires m.level != 0
    ensures var s0 := Start(level);
            var s1 := Next(s0, RequestFlush(1));
            var s2 := Next(s1, Wake);
            var s3 := Next(s2, Log(m, true));
            var s4 := Next(s3, Unpark);
            var s5 := Next(s4, RequestFlush(2));
            && Enabled(s0, RequestFlush(1)) && Enabled(s1, Wake) && Enabled(s3, Unpark) && Enabled(s4, RequestFlush(2))
            && Enabled(s5, ReturnFromFlush(2)) && s5.running
            && s5.books.log == [m] && s5.waiters[2] == 1 && s5.books.handled == []
  {
  }

  // ---------------------------------------------------------------- the object

  class AsyncLogger {
    var books: Books
    var levels: Levels
    var worker: Worker
    var running: bool
    var flush: bool
    var flushed: bool
    var waiters: map<int, nat>

    function Value(): State
      reads this
    {
      State(books, levels, worker, running, flush, flushed, waiters)
    }

    constructor (level: nat)
      ensures Value() == Start(level) && Inv(Value())
    {
      books, levels := Books([], [], [], [], []), Levels(level, level, true);
      worker, running, flush, flushed, waiters := Waiting, true, false, false, map[];
    }

    /** Log: a message of level NONE is dropped, and so is one that finds the logger stopped. */
    method Append(m: Message, sawRunning: bool)
      requires Inv(Value())
      modifies this`books
      ensures Value() == old(Next(Value(), Log(m, sawRunning))) && Inv(Value())
    {
      NextKeepsInv(Value(), Log(m, sawRunning));
      hide Inv;
      if m.level == 0 { return; }
      if !running && !sawRunning { return; }
      books := books.(queue := books.queue + [m], log := books.log + [m]);
    }

    /** The first half of WaitFlush, up to its wait. */
    method BeginWait(reader: int)
      requires Inv(Value()) && waiters == map[]
      modifies this`flush, this`waiters
      ensures Value() == old(Next(Value(), RequestFlush(reader))) && Inv(Value())
    {
      NextKeepsInv(Value(), RequestFlush(reader));
      hide Inv;
      flush := true;
      waiters := waiters[reader := |books.log|];
    }

    /** The second half. The messages that were in the log when it began have been handled. */
    method EndWait(reader: int)
      requires Inv(Value()) && reader in waiters && CanReturn(Value())
      modifies this`flush, this`flushed, this`waiters
      ensures Value() == old(Next(Value(), ReturnFromFlush(reader))) && Inv(Value())
      ensures running ==> old(waiters[reader]) <= |books.handled| <= |books.log|
      ensures running ==> Messages(books.handled)[..old(waiters[reader])] == books.log[..old(waiters[reader])]
    {
      NextKeepsInv(Value(), ReturnFromFlush(reader));
      if running {
        HandledIsPrefix(books, waiters[reader]);
      }
      hide Inv;
      flush := false;
      flushed := false;
      waiters := waiters - {reader};
    }

    /** WorkQueue from its first wait to the end of the locked section, or to its second wait. */
    method Take()
      requires Inv(Value()) && worker.Waiting?
      modifies this`books, this`worker, this`flushed
      ensures Value() == old(Next(Value(), Wake)) && Inv(Value())
    {
      NextKeepsInv(Value(), Wake);
      hide Inv;
      if flush && books.queue == [] {
        flushed := true;
        worker := Parked;
        return;
      }
      if books.queue == [] && running {
        return;
      }
      if books.queue == [] && !running {
        worker := Stopped;
        return;
      }
      books := books.(local := books.queue, queue := books.local);
      worker := Fetching;
    }

    /** WorkQueue from its second wait. */
    method Resume()
      requires Inv(Value()) && Enabled(Value(), Unpark)
      modifies this`books, this`worker
      ensures Value() == old(Next(Value(), Unpark)) && Inv(Value())
    {
      NextKeepsInv(Value(), Unpark);
      hide Inv;
      if books.queue == [] {
        worker := if running then Waiting else Stopped;
        return;
      }
      books := books.(local := books.queue, queue := books.local);
      worker := Fetching;
    }

    /** The worker looks up the strategy for its batch. */
    method FetchStrategy(valid: bool)
      requires Inv(Value()) && worker.Fetching?
      modifies this`levels, this`worker
      ensures Value() == old(Next(Value(), Fetch(valid))) && Inv(Value())
    {
      NextKeepsInv(Value(), Fetch(valid));
      hide Inv, STRATEGY_FAILURE;
      if !valid {
        worker := Reporting(STRATEGY_FAILURE);
        return;
      }
      levels := Levels(levels.current, levels.current, true);
      worker := Draining;
    }

    /** The two reports around the switch to a console with the same level. */
    method ReportFailure(sawRunning: bool)
      requires Inv(Value()) && (worker.Reporting? || worker.Switched?)
      modifies this`books, this`levels, this`worker
      ensures Value() == old(Next(Value(), Report(sawRunning))) && Inv(Value())
    {
      NextKeepsInv(Value(), Report(sawRunning));
      hide Inv, CONSOLE_NOTE;
      if worker.Reporting? {
        if running || sawRunning { books := Enqueue(books, Message(ERROR, worker.error)); }
        levels := levels.(shared := false);
        worker := Switched;
      } else {
        if running || sawRunning { books := Enqueue(books, CONSOLE_NOTE); }
        levels := Levels(levels.current, levels.current, true);
        worker := Draining;
      }
    }

    /** One round of the loop that drains the batch. */
    method DrainOne(writes: bool, error: string)
      requires Inv(Value()) && worker.Draining?
      modifies this`books, this`worker
      ensures Value() == old(Next(Value(), Drain(writes, error))) && Inv(Value())
    {
      NextKeepsInv(Value(), Drain(writes, error));
      hide Inv, WriteFailure;
      if books.local == [] {
        worker := Confirming;
        return;
      }
      var front := books.local[0];
      if front.level <= levels.using {
        if !writes {
          worker := Reporting(WriteFailure(error));
          return;
        }
        books := books.(written := books.written + [front]);
      }
      books := books.(handled := books.handled + [Entry(front, levels.using)], local := books.local[1..]);
    }

    /** The locked section after a batch. */
    method ConfirmFlush()
      requires Inv(Value()) && worker.Confirming?
      modifies this`worker, this`flushed
      ensures Value() == old(Next(Value(), Confirm)) && Inv(Value())
    {
      NextKeepsInv(Value(), Confirm);
      hide Inv;
      if flush && books.queue == [] {
        flushed := true;
      }
      worker := Waiting;
    }
  }
}

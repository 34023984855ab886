/** When the worker flushes: on size, on time, or because the last attempt failed, and never otherwise. */
module FlushTiming {
  import opened CacheModel
  import opened CacheProtocol
  import CacheSafety
  import opened CacheTheorems

  /** `e` is a test of the flush condition: an item was taken or the wait timed out, and the clock shows `now`. */
  predicate Tests(s: State, e: Event, now: real) {
    || (e == Enter(now) && s.queue != [])
    || e == GotItem(now)
    || e == TimedOut(now)
  }

  /** The commit interval has passed since the last flush, or the batch is full. */
  predicate IsDue(c: Config, batch: seq<Operation>, now: real, lastFlush: real) {
    now - lastFlush >= c.timeout || |batch| >= c.batchSize
  }

  /**
   A test starts a flush of the loop exactly if the batch, with the item just taken, is not empty and the
   commit interval has passed or the batch is full; otherwise the loop goes on with the batch in hand.
   */
  lemma FlushStartsExactly(c: Config, s: State, e: Event, now: real)
    requires Enabled(c, s, e) && Tests(s, e, now)
    ensures var t := Next(c, s, e);
      && t.batch == (if e.TimedOut? then s.batch else s.batch + [s.queue[0]])
      && t.queue == (if e.TimedOut? then s.queue else s.queue[1..])
      && t.now == now && t.lastFlush == s.lastFlush
      && (t.phase == Executing(0, false, false) <==>
            t.batch != [] && (now - s.lastFlush >= c.timeout || |t.batch| >= c.batchSize))
      && (t.phase == Executing(0, false, false) || t.phase == Head)
  {
  }

  /** With nothing queued the loop waits; stopped, it ends, with one last flush if a batch is in hand. */
  lemma EnterWithNothingQueued(c: Config, s: State, now: real)
    requires Enabled(c, s, Enter(now)) && s.queue == []
    ensures Next(c, s, Enter(now)) == s.(phase :=
      if !s.stopped then Waiting else if s.batch == [] then Done else Executing(0, false, true))
  {
  }

  /** The clock reading moves at tests only, and `last_flush` only at the end of a flush of the loop. */
  ghost predicate ClocksMove(s: State, e: Event, t: State) {
    && (if exists now :: Tests(s, e, now) then Tests(s, e, t.now) else t.now == s.now)
    && t.lastFlush == if e.CommitReturned? && s.phase.Committing? && !s.phase.final then s.now else s.lastFlush
  }

  lemma ClocksInLoop(c: Config, s: State, e: Event)
    requires Enabled(c, s, e) && !InFlush(s.phase)
    ensures ClocksMove(s, e, Next(c, s, e))
  {
    var t := Next(c, s, e);
    match e {
      case Enter(now) => assert s.queue != [] ==> Tests(s, e, now);
      case GotItem(now) => assert Tests(s, e, now);
      case TimedOut(now) => assert Tests(s, e, now);
      case _ =>
    }
  }

  lemma ClocksInFlush(c: Config, s: State, e: Event)
    requires Enabled(c, s, e) && InFlush(s.phase)
    ensures ClocksMove(s, e, Next(c, s, e))
  {
    hide Touched, Commands, TrimBySize, Execute;
  }

  /** A flush of the loop that succeeds sets `last_flush` to the reading of the test that started it. */
  lemma LastFlushIsItsTest(c: Config, s: State, e: Event)
    requires Enabled(c, s, e)
    ensures ClocksMove(s, e, Next(c, s, e))
  {
    hide Next, ClocksMove;
    if InFlush(s.phase) { ClocksInFlush(c, s, e); } else { ClocksInLoop(c, s, e); }
  }

  // ---------------------------------------------------------------- over runs

  /** A batch in hand is overdue exactly if its flush has failed since it was last cleared. */
  ghost predicate Timely(c: Config, s: State) {
    && 0.0 <= s.lastFlush <= s.now
    && (s.failures > 0 ==> s.batch != [] || s.phase.Done?)
    && (s.batch != [] ==>
          match s.phase
          case Head => IsDue(c, s.batch, s.now, s.lastFlush) <==> s.failures > 0
          case Waiting => IsDue(c, s.batch, s.now, s.lastFlush) <==> s.failures > 0
          case Done => true
          case BackingOff => s.failures > 0 && IsDue(c, s.batch, s.now, s.lastFlush)
          case p => p.final || IsDue(c, s.batch, s.now, s.lastFlush))
  }

  lemma TimelyTest(c: Config, s: State, e: Event, now: real)
    requires Timely(c, s) && Enabled(c, s, e) && Tests(s, e, now)
    ensures Timely(c, Next(c, s, e))
  {
    FlushStartsExactly(c, s, e, now);
    KeepsFailures(c, s, e, now);
    hide Next;
  }

  lemma KeepsFailures(c: Config, s: State, e: Event, now: real)
    requires Enabled(c, s, e) && Tests(s, e, now)
    ensures Next(c, s, e).failures == s.failures && s.now <= now
  {
  }

  lemma TimelyLoop(c: Config, s: State, e: Event)
    requires Timely(c, s) && Enabled(c, s, e) && !InFlush(s.phase) && !(exists now :: Tests(s, e, now))
    ensures Timely(c, Next(c, s, e))
  {
    match e {
      case Enter(now) => assert s.queue == [] by { if s.queue != [] { assert Tests(s, e, now); } }
      case GotItem(now) => assert Tests(s, e, now);
      case TimedOut(now) => assert Tests(s, e, now);
      case _ =>
    }
  }

  lemma TimelyFlush(c: Config, s: State, e: Event)
    requires Timely(c, s) && Enabled(c, s, e) && InFlush(s.phase) && s.batch != []
    ensures Timely(c, Next(c, s, e))
  {
    hide Touched, Commands, TrimBySize, Execute, IsDue;
  }

  lemma TimelyStep(c: Config, s: State, e: Event)
    requires Timely(c, s) && Enabled(c, s, e) && (InFlush(s.phase) ==> s.batch != [])
    ensures Timely(c, Next(c, s, e))
  {
    hide Next, Enabled, Timely, Tests;
    if InFlush(s.phase) {
      TimelyFlush(c, s, e);
    } else if now :| Tests(s, e, now) {
      TimelyTest(c, s, e, now);
    } else {
      TimelyLoop(c, s, e);
    }
  }

  /**
   Over every run: at each loop head with a batch in hand, less than the commit interval had passed at the
   last test and the batch is not full, or its flush has just failed, and then the next test flushes again.
   */
  lemma NoDueBatchIsKept(c: Config, r0: Redis, events: seq<Event>)
    requires Legal(c, Start(r0), events)
    ensures var s := After(c, r0, events);
      && s.lastFlush <= s.now
      && (s.phase.Head? && s.batch != [] ==>
            (s.now - s.lastFlush < c.timeout && |s.batch| < c.batchSize) || s.failures > 0)
      && (s.phase.Head? && s.batch != [] && s.failures > 0 ==>
            s.now - s.lastFlush >= c.timeout || |s.batch| >= c.batchSize)
  {
    hide Legal, Run;
    RunIsTimely(c, r0, events);
  }

  lemma {:induction false} RunIsTimely(c: Config, r0: Redis, events: seq<Event>)
    requires Legal(c, Start(r0), events)
    ensures Timely(c, After(c, r0, events))
    decreases |events|
  {
    hide Next, Enabled, Timely;
    if events == [] {
      StartIsTimely(c, r0);
    } else {
      var init := events[..|events| - 1];
      RunIsTimely(c, r0, init);
      FlushHasBatch(c, r0, init);
      TimelyStep(c, After(c, r0, init), events[|events| - 1]);
    }
  }

  lemma StartIsTimely(c: Config, r0: Redis)
    ensures Timely(c, Start(r0))
  {
  }

  lemma FlushHasBatch(c: Config, r0: Redis, events: seq<Event>)
    requires Legal(c, Start(r0), events)
    ensures InFlush(After(c, r0, events).phase) ==> After(c, r0, events).batch != []
  {
    hide Legal, Run, Ops, RedisGood, CommitBounded, BatchBounded;
    CacheSafety.InvariantHolds(c, r0, events);
  }
}

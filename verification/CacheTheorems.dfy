/** What the invariant means for the cache service, over every legal run from any initial store. */
module CacheTheorems {
  import opened Wrappers
  import opened CacheModel
  import opened MessageParser
  import opened CacheProtocol
  import opened CacheSafety

  /** The state a run leads to from an empty service and the store `r0`. */
  function After(c: Config, r0: Redis, events: seq<Event>): State
    requires Legal(c, Start(r0), events)
  {
    Run(c, Start(r0), events)
  }

  // ---------------------------------------------------------------- refinement and conservation

  /**
   Right after every successful flush the store is the in-order fold of all operations taken from the
   queue so far, however often Redis failed before and however the batches were cut.
   */
  lemma FlushRefinesFold(c: Config, r0: Redis, events: seq<Event>)
    requires Legal(c, Start(r0), events) && After(c, r0, events).phase.Committing?
    ensures var s := After(c, r0, events);
      && HoldsExactly(c.retention, r0, s.flushed, s.redis)
      && Ops(c.parse, s.log) == s.flushed + s.queue + ToSeq(s.pending) + ToSeq(s.lost)
  {
    var s := After(c, r0, events);
    InvariantHolds(c, r0, events);
    StoreIsFold(c, r0, s);
    assert s.flushed + [] == s.flushed;
  }

  /** With nothing outstanding, replayable means equal to the fold. */
  lemma StoreIsFold(c: Config, r0: Redis, s: State)
    requires RedisGood(c, r0, s) && Live(s) == []
    ensures HoldsExactly(c.retention, r0, s.flushed, s.redis)
  {
    hide HoldsExactly;
    AppliedNothing(c.retention, s.redis);
    assert s.flushed + [] == s.flushed;
    AppliedMeansLastWrites(c.retention, r0, s.flushed, s.redis);
  }

  /** In every reachable state each delivered operation is in exactly one place, in delivery order. */
  lemma NothingLostOrReordered(c: Config, r0: Redis, events: seq<Event>)
    requires Legal(c, Start(r0), events)
    ensures var s := After(c, r0, events);
      Ops(c.parse, s.log) == s.flushed + Live(s) + s.queue + ToSeq(s.pending) + ToSeq(s.lost)
  {
    InvariantHolds(c, r0, events);
  }

  predicate FaultFree(events: seq<Event>) {
    forall i :: 0 <= i < |events| ==> !events[i].RejectCommand? && !events[i].ConnectionLost?
  }

  /** No flush has failed so far. */
  predicate Unfailed(s: State) {
    s.dropped == [] && s.failures == 0 && !s.phase.BackingOff? && !(s.phase.Executing? && s.phase.rejected)
  }

  lemma UnfailedLoop(c: Config, s: State, e: Event)
    requires Unfailed(s) && Enabled(c, s, e) && !InFlush(s.phase)
    ensures Unfailed(Next(c, s, e))
  {
  }

  lemma UnfailedFlush(c: Config, s: State, e: Event)
    requires Unfailed(s) && Enabled(c, s, e) && InFlush(s.phase) && !e.RejectCommand? && !e.ConnectionLost?
    ensures Unfailed(Next(c, s, e))
  {
    hide Touched, Commands, TrimBySize, Execute;
  }

  /** In a run in which Redis never fails no flush fails: nothing is ever retried or dropped. */
  lemma {:induction false} NoFaultNoDrop(c: Config, r0: Redis, events: seq<Event>)
    requires Legal(c, Start(r0), events) && FaultFree(events)
    ensures var s := After(c, r0, events);
      s.dropped == [] && s.failures == 0 && !s.phase.BackingOff? && !(s.phase.Executing? && s.phase.rejected)
    decreases |events|
  {
    hide Next, Enabled;
    if events != [] {
      var init, e := events[..|events| - 1], events[|events| - 1];
      NoFaultNoDrop(c, r0, init);
      var s := After(c, r0, init);
      if InFlush(s.phase) { UnfailedFlush(c, s, e); } else { UnfailedLoop(c, s, e); }
    }
  }

  /** `e` raises out of the flush after the loop: a lost connection, or a command that was rejected. */
  predicate FinalFailure(s: State, e: Event) {
    && InFlush(s.phase) && s.phase.final
    && (e.ConnectionLost? || (e.FinishPipeline? && s.phase.Executing? && s.phase.rejected))
  }

  /** The flush after the loop has raised. */
  predicate FinalFlushFailed(c: Config, start: State, events: seq<Event>)
    requires Legal(c, start, events)
    decreases |events|
  {
    events != [] &&
    var init, e := events[..|events| - 1], events[|events| - 1];
    FinalFlushFailed(c, start, init) || FinalFailure(Run(c, start, init), e)
  }

  /** Operations are dropped by a failed final flush and by nothing else, however many flushes failed before. */
  lemma {:induction false} DroppedByFinalFlush(c: Config, r0: Redis, events: seq<Event>)
    requires Legal(c, Start(r0), events)
    ensures After(c, r0, events).dropped != [] <==> FinalFlushFailed(c, Start(r0), events)
    decreases |events|
  {
    hide Next, Enabled, FinalFailure, Conserved, RedisGood, CommitBounded, BatchBounded;
    if events != [] {
      var init, e := events[..|events| - 1], events[|events| - 1];
      DroppedByFinalFlush(c, r0, init);
      InvariantHolds(c, r0, init);
      DroppedStep(c, After(c, r0, init), e);
    }
  }

  lemma DroppedStep(c: Config, s: State, e: Event)
    requires Conserved(c, s) && Enabled(c, s, e)
    ensures Next(c, s, e).dropped != [] <==> s.dropped != [] || FinalFailure(s, e)
  {
    hide Touched, Commands, TrimBySize, Execute, Ops;
  }

  /**
   When the service has exited: everything delivered was persisted, dropped, or is the one operation whose
   `put` was cancelled. Something was dropped exactly if the final flush failed. With nothing dropped the
   store is exactly the fold; otherwise applying the dropped batch would make it so.
   */
  lemma ExitAccounting(c: Config, r0: Redis, events: seq<Event>)
    requires Legal(c, Start(r0), events) && After(c, r0, events).phase.Done?
    ensures var s := After(c, r0, events);
      && Ops(c.parse, s.log) == s.flushed + s.dropped + ToSeq(s.lost)
      && (s.dropped != [] <==> FinalFlushFailed(c, Start(r0), events))
      && (FaultFree(events) ==> s.dropped == [])
      && (s.dropped == [] ==> HoldsExactly(c.retention, r0, s.flushed, s.redis))
      && Applied(c.retention, s.redis, Commands(s.dropped)) == Applied(c.retention, r0, Commands(s.flushed + s.dropped))
  {
    hide HoldsExactly, Applied, Commands, FinalFlushFailed;
    var s := After(c, r0, events);
    InvariantHolds(c, r0, events);
    DroppedByFinalFlush(c, r0, events);
    assert s.flushed + s.dropped + [] + [] == s.flushed + s.dropped;
    if FaultFree(events) { NoFaultNoDrop(c, r0, events); }
    if s.dropped == [] { StoreIsFold(c, r0, s); }
  }

  /** The batch never outgrows its limit by more than the number of failed flushes since it was last cleared. */
  lemma BatchStaysBounded(c: Config, r0: Redis, events: seq<Event>)
    requires Legal(c, Start(r0), events)
    ensures var s := After(c, r0, events);
      |s.batch| <= BatchLimit(c) + s.failures && (s.phase.Head? ==> |s.batch| <= BatchLimit(c) - 1 + s.failures)
  {
    InvariantHolds(c, r0, events);
  }

  // ---------------------------------------------------------------- the committed position

  /** Operations below the committed position that are not persisted. */
  function Gap(c: Config, s: State): seq<Operation>
    requires s.committed <= |s.log|
    requires Covered(c, s, s.committed) <= |Ops(c.parse, s.log)|
  {
    if |s.flushed| < Covered(c, s, s.committed)
    then Ops(c.parse, s.log)[|s.flushed|..Covered(c, s, s.committed)]
    else []
  }

  lemma CommittedIsCovered(c: Config, r0: Redis, events: seq<Event>)
    requires Legal(c, Start(r0), events)
    ensures var s := After(c, r0, events);
      && s.committed <= |s.log|
      && Covered(c, s, s.committed) <= |Ops(c.parse, s.log)|
      && Ops(c.parse, s.log[..s.committed]) <= Ops(c.parse, s.log)
      && s.flushed <= Ops(c.parse, s.log)
  {
    hide Ops, Run, Next, Legal, RedisGood, Conserved, BatchBounded;
    InvariantHolds(c, r0, events);
    var s := After(c, r0, events);
    OpsPrefix(c.parse, s.log, s.committed);
    FlushedIsPrefix(c, s);
  }

  lemma FlushedIsPrefix(c: Config, s: State)
    requires Conserved(c, s)
    ensures s.flushed <= Ops(c.parse, s.log)
  {
    hide Ops;
    assert s.flushed + Live(s) + s.queue + ToSeq(s.pending) + ToSeq(s.lost)
        == s.flushed + (Live(s) + s.queue + ToSeq(s.pending) + ToSeq(s.lost));
  }

  /**
   In every reachable state what is committed but not persisted is one contiguous run of delivered
   operations right after the persisted ones, no longer than the queue plus one blocked put.
   */
  lemma CommitGapIsBounded(c: Config, r0: Redis, events: seq<Event>)
    requires Legal(c, Start(r0), events)
    ensures var s := After(c, r0, events);
      && s.committed <= |s.log|
      && Covered(c, s, s.committed) <= |Ops(c.parse, s.log)|
      && s.flushed + Gap(c, s) <= Ops(c.parse, s.log)
      && Ops(c.parse, s.log[..s.committed]) <= s.flushed + Gap(c, s)
      && (c.queueMax > 0 ==> |Gap(c, s)| <= c.queueMax + 1)
  {
    hide Ops, Run, Next, Legal, Conserved, RedisGood, BatchBounded;
    CommittedIsCovered(c, r0, events);
    InvariantHolds(c, r0, events);
    var s := After(c, r0, events);
    var ops := Ops(c.parse, s.log);
    assert s.flushed == ops[..|s.flushed|];
    assert Gap(c, s) != [] ==> s.flushed + Gap(c, s) == ops[..Covered(c, s, s.committed)];
  }

  predicate ProducerOnly(events: seq<Event>) {
    forall i :: 0 <= i < |events| ==> events[i].Deliver? || events[i].Unblock? || events[i].Stop?
  }

  /** While the commit request is in flight the consume loop may run on, but the position in it stays. */
  lemma {:induction false} CommitInFlight(c: Config, s: State, mid: seq<Event>)
    requires s.phase.Committing? && s.phase.position <= |s.log| && ProducerOnly(mid) && Legal(c, s, mid)
    ensures var t := Run(c, s, mid);
      && t.phase == s.phase && t.flushed == s.flushed && t.committed == s.committed
      && s.phase.position <= |t.log| && t.log[..s.phase.position] == s.log[..s.phase.position]
    decreases |mid|
  {
    if mid != [] {
      CommitInFlight(c, s, mid[..|mid| - 1]);
    }
  }

  /**
   "Offsets are committed only after the Redis writes" holds for a commit exactly when nothing was queued,
   blocked in `put` or lost when the worker took the position: the commit covers all of that too.
   */
  lemma CommitCoversExactly(c: Config, r0: Redis, pre: seq<Event>, mid: seq<Event>)
    requires Legal(c, Start(r0), pre) && After(c, r0, pre).phase.Persisted?
    requires ProducerOnly(mid) && Legal(c, Next(c, After(c, r0, pre), Resume), mid)
    ensures var s := After(c, r0, pre);
      var flying := Run(c, Next(c, s, Resume), mid);
      && Enabled(c, flying, CommitReturned(true)) && Enabled(c, flying, CommitReturned(false))
      && Next(c, flying, CommitReturned(false)).committed == s.committed
      && (var t := Next(c, flying, CommitReturned(true));
          && t.committed <= |t.log|
          && Ops(c.parse, t.log[..t.committed]) == t.flushed + s.queue + ToSeq(s.pending) + ToSeq(s.lost)
          && (Ops(c.parse, t.log[..t.committed]) <= t.flushed
              <==> s.queue == [] && s.pending.None? && s.lost.None?))
  {
    var s := After(c, r0, pre);
    InvariantHolds(c, r0, pre);
    ResumeCovers(c, s);
    CommitInFlight(c, Next(c, s, Resume), mid);
    assert s.log[..|s.log|] == s.log;
  }

  // ---------------------------------------------------------------- the documented order, refuted

  /** One more event of a run whose state is known. */
  lemma Extend(c: Config, start: State, events: seq<Event>, s: State, e: Event)
    requires Legal(c, start, events) && s == Run(c, start, events) && Enabled(c, s, e)
    ensures Legal(c, start, events + [e]) && Run(c, start, events + [e]) == Next(c, s, e)
  {
    hide Next, Enabled;
    assert (events + [e])[..|events + [e]| - 1] == events;
  }

  lemma OneOpCommands(op: Operation)
    requires op.kind.EventKind?
    ensures |Commands([op])| == 3
    ensures Touched(EventKind, Commands([op])) != {} && Touched(PerfKind, Commands([op])) == {}
  {
    assert [op][..0] == [];
    assert Commands([op]) == [] + OpCommands(op);
    assert ZAdd(EventKind, op.window) == Commands([op])[2];
    assert op.window in Touched(EventKind, Commands([op]));
  }

  /** A message arrives while there is room. */
  lemma DeliverOne(c: Config, start: State, before: seq<Event>, s0: State, m: Message, op: Operation)
    returns (events: seq<Event>, s: State)
    requires Legal(c, start, before) && s0 == Run(c, start, before) && FaultFree(before)
    requires c.parse(m) == Accepted(op) && !s0.stopped && s0.pending.None? && !Full(c, s0.queue)
    ensures Legal(c, start, events) && s == Run(c, start, events) && FaultFree(events)
    ensures s == s0.(log := s0.log + [m], queue := s0.queue + [op])
  {
    hide Legal, Run;
    Extend(c, start, before, s0, Deliver(m));
    s, events := Next(c, s0, Deliver(m)), before + [Deliver(m)];
  }

  /** Two messages arrive before the worker runs. */
  lemma DeliverTwo(c: Config, r0: Redis, m: Message, op: Operation, next: Message, nextOp: Operation)
    returns (events: seq<Event>, s: State)
    requires c.queueMax == 2 && c.parse(m) == Accepted(op) && c.parse(next) == Accepted(nextOp)
    ensures Legal(c, Start(r0), events) && s == Run(c, Start(r0), events) && FaultFree(events)
    ensures s == Start(r0).(log := [m, next], queue := [op, nextOp])
  {
    s, events := Start(r0), [];
    assert Legal(c, s, []) && Run(c, s, []) == s;
    hide Legal, Run;
    events, s := DeliverOne(c, Start(r0), events, s, m, op);
    events, s := DeliverOne(c, Start(r0), events, s, next, nextOp);
  }

  /** Then the worker takes the first. */
  lemma TakeFirstOfTwo(c: Config, r0: Redis, m: Message, op: Operation, next: Message, nextOp: Operation)
    returns (events: seq<Event>, s: State)
    requires c.batchSize == 1 && c.queueMax == 2 && c.parse(m) == Accepted(op) && c.parse(next) == Accepted(nextOp)
    ensures Legal(c, Start(r0), events) && s == Run(c, Start(r0), events)
    ensures s.log == [m, next] && s.queue == [nextOp] && s.batch == [op] && s.flushed == []
    ensures s.phase == Executing(0, false, false) && s.pending.None? && FaultFree(events)
  {
    hide Legal, Run;
    events, s := DeliverTwo(c, r0, m, op, next, nextOp);
    Extend(c, Start(r0), events, s, Enter(0.0));
    s, events := Next(c, s, Enter(0.0)), events + [Enter(0.0)];
  }

  /** Redis accepts the three commands of a batch of one. */
  lemma RunThreeCommands(c: Config, start: State, before: seq<Event>, s0: State, op: Operation)
    returns (events: seq<Event>, s: State)
    requires Legal(c, start, before) && s0 == Run(c, start, before) && FaultFree(before)
    requires s0.batch == [op] && op.kind.EventKind? && s0.phase == Executing(0, false, false)
    ensures Legal(c, start, events) && s == Run(c, start, events) && FaultFree(events)
    ensures s == s0.(redis := s.redis, phase := Executing(3, false, false))
  {
    hide Execute, Commands, Touched, TrimBySize, Legal, Run;
    OneOpCommands(op);
    s, events := s0, before;
    for i := 0 to 3
      invariant Legal(c, start, events) && s == Run(c, start, events) && FaultFree(events)
      invariant s == s0.(redis := s.redis, phase := Executing(i, false, false))
    {
      Extend(c, start, events, s, RunCommand);
      s, events := Next(c, s, RunCommand), events + [RunCommand];
    }
  }

  /** A flush in which Redis accepts everything. */
  lemma FlushFirst(c: Config, start: State, before: seq<Event>, s0: State, op: Operation)
    returns (events: seq<Event>, s: State)
    requires Legal(c, start, before) && s0 == Run(c, start, before) && FaultFree(before)
    requires s0.batch == [op] && op.kind.EventKind? && s0.phase == Executing(0, false, false)
    ensures Legal(c, start, events) && s == Run(c, start, events) && FaultFree(events)
    ensures s == s0.(redis := s.redis, phase := Persisted(false))
  {
    hide Execute, Commands, Touched, TrimBySize, Legal, Run;
    OneOpCommands(op);
    events, s := RunThreeCommands(c, start, before, s0, op);
    Extend(c, start, events, s, FinishPipeline);
    s, events := Next(c, s, FinishPipeline), events + [FinishPipeline];
    Extend(c, start, events, s, ReadSize);
    s, events := Next(c, s, ReadSize), events + [ReadSize];
    Extend(c, start, events, s, RemoveExcess);
    s, events := Next(c, s, RemoveExcess), events + [RemoveExcess];
  }

  /**
   The documentation's order fails on a service that works perfectly: with two messages and a batch size
   of one, the first commit covers both while the second is still in the queue.
   */
  lemma DocumentedCommitOrderFails(
    c: Config, r0: Redis, m: Message, op: Operation, next: Message, nextOp: Operation)
    returns (events: seq<Event>)
    requires c.batchSize == 1 && c.queueMax == 2 && op.kind.EventKind?
    requires c.parse(m) == Accepted(op) && c.parse(next) == Accepted(nextOp)
    ensures Legal(c, Start(r0), events) && FaultFree(events)
    ensures var s := After(c, r0, events);
      s.committed == |s.log| == 2 && s.flushed == [op] && s.queue == [nextOp] && s.batch == [] && s.phase.Head?
  {
    hide Execute, Commands, Touched, TrimBySize, EnterLoop, Receive;
    var taken, s0 := TakeFirstOfTwo(c, r0, m, op, next, nextOp);
    var s;
    events, s := FlushFirst(c, Start(r0), taken, s0, op);
    Extend(c, Start(r0), events, s, Resume);
    s, events := Next(c, s, Resume), events + [Resume];
    Extend(c, Start(r0), events, s, CommitReturned(true));
    s, events := Next(c, s, CommitReturned(true)), events + [CommitReturned(true)];
  }
}

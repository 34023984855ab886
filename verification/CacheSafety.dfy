/** Every reachable state of the cache pipeline satisfies the invariant, one conjunct at a time. */
module CacheSafety {
  import opened Wrappers
  import opened TopN
  import opened CacheModel
  import opened MessageParser
  import opened CacheProtocol

  // ---------------------------------------------------------------- conservation

  lemma OpsSnoc(parse: Message -> Parsed, log: seq<Message>, msg: Message)
    ensures Ops(parse, log + [msg]) ==
      Ops(parse, log) + (match parse(msg) case Accepted(op) => [op] case _ => [])
  {
    assert (log + [msg])[..|log + [msg]| - 1] == log;
  }

  lemma {:induction false} OpsPrefix(parse: Message -> Parsed, log: seq<Message>, p: nat)
    requires p <= |log|
    ensures Ops(parse, log[..p]) <= Ops(parse, log)
    decreases |log| - p
  {
    if p == |log| {
      assert log[..p] == log;
    } else {
      OpsPrefix(parse, log, p + 1);
      assert log[..p + 1] == log[..p] + [log[p]];
      OpsSnoc(parse, log[..p], log[p]);
    }
  }

  lemma ConservedReceive(c: Config, s: State, msg: Message)
    requires Conserved(c, s) && Enabled(c, s, Deliver(msg))
    ensures Conserved(c, Receive(c, s, msg))
  {
    OpsSnoc(c.parse, s.log, msg);
    var before := s.flushed + Live(s);
    if c.parse(msg).Accepted? {
      var op := c.parse(msg).op;
      assert before + s.queue + [] + [] + [op] == before + s.queue + [op] + [];
      assert before + s.queue + [op] + [] == before + (s.queue + [op]) + [] + [];
    }
  }

  /** The consume loop's own steps. */
  lemma ConservedProducer(c: Config, s: State, e: Event)
    requires Conserved(c, s) && Enabled(c, s, e) && (e.Deliver? || e.Unblock? || e.Stop?)
    ensures Conserved(c, Next(c, s, e))
  {
    var before := s.flushed + Live(s);
    match e {
      case Deliver(msg) => ConservedReceive(c, s, msg);
      case Unblock =>
        assert before + s.queue + [s.pending.value] + [] == before + (s.queue + [s.pending.value]) + [] + [];
      case Stop =>
        assert s.lost.None?;
        assert before + s.queue + ToSeq(s.pending) + [] == before + s.queue + [] + ToSeq(s.pending);
    }
  }

  /** Moving the head of the queue to the batch, with or without starting a flush. */
  lemma ConservedTake(c: Config, s: State, now: real)
    requires Conserved(c, s) && s.queue != [] && (s.phase.Head? || s.phase.Waiting?)
    ensures Conserved(c, AfterGet(c, TakeItem(s), now))
  {
    var item, rest := s.queue[0], s.queue[1..];
    assert s.queue == [item] + rest;
    assert s.flushed + s.batch + s.queue == s.flushed + (s.batch + [item]) + rest;
  }

  /** Inside a flush only Redis and the phase change. */
  lemma ConservedWithin(c: Config, s: State, r: Redis, p: Phase)
    requires Conserved(c, s) && InFlush(s.phase) && InFlush(p) && p.final == s.phase.final
    ensures Conserved(c, s.(redis := r, phase := p))
  {
  }

  /** A flush that raises keeps the batch, or drops it after the loop. */
  lemma ConservedFail(c: Config, s: State)
    requires Conserved(c, s) && InFlush(s.phase)
    ensures Conserved(c, FailFlush(s, s.phase.final))
  {
    hide Ops;
  }

  lemma ConservedResume(c: Config, s: State)
    requires Conserved(c, s) && s.phase.Persisted?
    ensures Conserved(c, Next(c, s, Resume))
  {
    hide Ops;
    assert s.flushed + s.batch == (s.flushed + s.batch) + [];
  }

  lemma ConservedFlushStep(c: Config, s: State, e: Event)
    requires Conserved(c, s) && Enabled(c, s, e) && InFlush(s.phase) && !(e.Deliver? || e.Unblock? || e.Stop?)
    ensures Conserved(c, Next(c, s, e))
  {
    hide Conserved, Touched, Commands, TrimBySize, Execute, FailFlush;
    var s' := Next(c, s, e);
    match e {
      case ConnectionLost => ConservedFail(c, s);
      case FinishPipeline =>
        if s.phase.rejected { ConservedFail(c, s); } else { ConservedWithin(c, s, s'.redis, s'.phase); }
      case Resume => ConservedResume(c, s);
      case _ => ConservedWithin(c, s, s'.redis, s'.phase);
    }
  }

  lemma ConservedEnter(c: Config, s: State, now: real)
    requires Conserved(c, s) && s.phase.Head? && s.now <= now
    ensures Conserved(c, Next(c, s, Enter(now)))
  {
    hide Ops;
    if s.queue != [] { ConservedTake(c, s, now); }
  }

  /** A timeout, the answer to a commit, the end of a sleep. */
  lemma ConservedIdle(c: Config, s: State, e: Event)
    requires Conserved(c, s) && Enabled(c, s, e) && (e.TimedOut? || e.CommitReturned? || e.Wake?)
    ensures Conserved(c, Next(c, s, e))
  {
    hide Ops;
  }

  lemma ConservedStep(c: Config, s: State, e: Event)
    requires Conserved(c, s) && Enabled(c, s, e)
    ensures Conserved(c, Next(c, s, e))
  {
    hide Conserved, AfterGet, TakeItem;
    match e {
      case Deliver(_) => ConservedProducer(c, s, e);
      case Unblock => ConservedProducer(c, s, e);
      case Stop => ConservedProducer(c, s, e);
      case Enter(now) => ConservedEnter(c, s, now);
      case GotItem(now) => ConservedTake(c, s, now);
      case TimedOut(_) => ConservedIdle(c, s, e);
      case CommitReturned(_) => ConservedIdle(c, s, e);
      case Wake => ConservedIdle(c, s, e);
      case _ => ConservedFlushStep(c, s, e);
    }
  }

  // ---------------------------------------------------------------- what leaves the worker's hands

  /** Apart from the end of a flush, nothing becomes persisted and the worker's hands only gain at the end. */
  ghost predicate HandsKept(s: State, t: State) {
    t.flushed == s.flushed && Live(s) <= Live(t)
  }

  lemma HandsProducer(c: Config, s: State, e: Event)
    requires Enabled(c, s, e) && (e.Deliver? || e.Unblock? || e.Stop?)
    ensures HandsKept(s, Next(c, s, e))
  {
  }

  lemma HandsLoop(c: Config, s: State, e: Event)
    requires Enabled(c, s, e) && (e.Enter? || e.GotItem? || e.TimedOut? || e.Wake?)
    ensures HandsKept(s, Next(c, s, e))
  {
  }

  lemma HandsFlush(c: Config, s: State, e: Event)
    requires Enabled(c, s, e)
    requires InFlush(s.phase) && !(e.Deliver? || e.Unblock? || e.Stop? || e.Resume?)
    ensures HandsKept(s, Next(c, s, e))
  {
    hide Touched, Commands, TrimBySize, Execute;
  }

  lemma HandsStep(c: Config, s: State, e: Event)
    requires Enabled(c, s, e) && !e.Resume?
    ensures HandsKept(s, Next(c, s, e))
  {
    hide HandsKept, Next;
    match e {
      case Deliver(_) => HandsProducer(c, s, e);
      case Unblock => HandsProducer(c, s, e);
      case Stop => HandsProducer(c, s, e);
      case Enter(_) => HandsLoop(c, s, e);
      case GotItem(_) => HandsLoop(c, s, e);
      case TimedOut(_) => HandsLoop(c, s, e);
      case Wake => HandsLoop(c, s, e);
      case CommitReturned(_) => HandsCommit(c, s, e);
      case _ => HandsFlush(c, s, e);
    }
  }

  lemma HandsCommit(c: Config, s: State, e: Event)
    requires Enabled(c, s, e) && e.CommitReturned?
    ensures HandsKept(s, Next(c, s, e))
  {
  }

  // ---------------------------------------------------------------- one flush, on its own

  lemma WritesFrom(cmds: seq<Command>, i: nat)
    requires i < |cmds|
    ensures Writes(cmds[i..]) == CommandWrites(cmds[i]) + Writes(cmds[i + 1..])
  {
    assert cmds[i..] == [cmds[i]] + cmds[i + 1..];
    WritesConcat([cmds[i]], cmds[i + 1..]);
    assert [cmds[i]][..0] == [];
  }

  lemma ExecutedNext(cmds: seq<Command>, goal: Redis, r: Redis, i: nat)
    requires i < |cmds| && ExecutedTo(cmds, goal, r, i)
    ensures ExecutedTo(cmds, goal, Execute(r, cmds[i]), i + 1)
  {
    hide Touched, Writes, CommandWrites;
    var r' := Execute(r, cmds[i]);
    WritesFrom(cmds, i);
    MergeAssociative(r.hashes, CommandWrites(cmds[i]), Writes(cmds[i + 1..]));
    assert r'.hashes + Writes(cmds[i + 1..]) == goal.hashes by {
      HashesAfter(r, cmds[i]);
    }
    forall kind: Kind ensures Touched(kind, cmds[..i + 1]) <= r'.Index(kind) {
      TouchedSnoc(kind, cmds, i);
    }
  }

  /** With all its touched windows added, an index trims to the goal's; an untouched index is there already. */
  lemma IndexReachesGoal(n: nat, cmds: seq<Command>, goal: Redis, r: Redis, kind: Kind)
    requires Applied(n, r, cmds) == goal && Touched(kind, cmds) <= r.Index(kind)
    ensures goal.Index(kind) == if Touched(kind, cmds) == {} then r.Index(kind) else Top(n, r.Index(kind))
  {
    hide Top, Touched, Writes;
    assert r.Index(kind) + Touched(kind, cmds) == r.Index(kind);
  }

  lemma UntouchedAtGoal(n: nat, cmds: seq<Command>, goal: Redis, r: Redis, kind: Kind)
    requires Applied(n, r, cmds) == goal && Touched(kind, cmds) == {}
    ensures goal.Index(kind) == r.Index(kind)
  {
    hide Top, Touched, Writes;
  }

  lemma TrimBySizeIsTrim(c: Config, r: Redis, kind: Kind)
    ensures TrimBySize(c, r, kind, |r.Index(kind)|) == Trim(c.retention, r, kind)
  {
    hide Top, DropLowest;
    var index := r.Index(kind);
    if |index| > c.retention {
      DropExcessIsTop(c.retention, index);
    } else {
      TopSize(c.retention, index);
    }
  }

  /** After the last command, each touched index has its windows and the hashes are final. */
  lemma FlushRan(n: nat, cmds: seq<Command>, goal: Redis, r: Redis)
    requires Applied(n, r, cmds) == goal && ExecutedTo(cmds, goal, r, |cmds|)
    ensures r.hashes == goal.hashes
    ensures Touched(EventKind, cmds) <= r.events && Touched(PerfKind, cmds) <= r.perfs
    ensures Touched(EventKind, cmds) == {} ==> r.events == goal.events
    ensures Touched(PerfKind, cmds) == {} ==> r.perfs == goal.perfs
  {
    hide Top, Touched;
    assert cmds[|cmds|..] == [] && cmds[..|cmds|] == cmds;
    assert r.hashes + map[] == r.hashes;
    assert r.Index(EventKind) == r.events && r.Index(PerfKind) == r.perfs;
  }

  lemma FlushTrimmed(n: nat, cmds: seq<Command>, goal: Redis, r: Redis, kind: Kind)
    requires Applied(n, r, cmds) == goal && Trimming(cmds, goal, r, kind)
    ensures var r' := Trim(n, r, kind);
      && Applied(n, r', cmds) == goal
      && (kind.EventKind? && Touched(PerfKind, cmds) != {} ==> Trimming(cmds, goal, r', PerfKind))
      && (kind.EventKind? && Touched(PerfKind, cmds) == {} ==> r' == goal)
      && (kind.PerfKind? ==> r' == goal)
  {
    AbsorbTrim(n, r, kind, cmds);
    IndexReachesGoal(n, cmds, goal, r, kind);
    if Touched(PerfKind, cmds) == {} {
      UntouchedAtGoal(n, cmds, goal, r, PerfKind);
    }
  }

  // ---------------------------------------------------------------- Redis against one pass over everything

  /** Growing the batch keeps it replayable. */
  lemma ReplayGrows(n: nat, r: Redis, r0: Redis, flushed: seq<Operation>, batch: seq<Operation>, op: Operation)
    requires Applied(n, r, Commands(batch)) == Applied(n, r0, Commands(flushed + batch))
    ensures Applied(n, r, Commands(batch + [op])) == Applied(n, r0, Commands(flushed + (batch + [op])))
  {
    hide Applied, Commands;
    CommandsConcat(batch, [op]);
    CommandsConcat(flushed + batch, [op]);
    AppliedConcat(n, r, Commands(batch), Commands([op]));
    AppliedConcat(n, r0, Commands(flushed + batch), Commands([op]));
    assert flushed + batch + [op] == flushed + (batch + [op]);
  }

  /** A flush starts with nothing executed. */
  lemma FlushStarts(n: nat, cmds: seq<Command>, goal: Redis, r: Redis)
    requires Applied(n, r, cmds) == goal
    ensures ExecutedTo(cmds, goal, r, 0)
  {
    hide Retained;
    assert cmds[0..] == cmds && cmds[..0] == [];
  }

  lemma RedisAfterGet(c: Config, r0: Redis, s: State, now: real)
    requires RedisGood(c, r0, s) && (s.phase.Head? || s.phase.Waiting?)
    ensures RedisGood(c, r0, AfterGet(c, s, now))
    ensures RedisGood(c, r0, s.(phase := Executing(0, false, true)))
  {
    hide Applied, Commands, ExecutedTo;
    FlushStarts(c.retention, Commands(s.batch), Goal(c, r0, s), s.redis);
  }

  lemma RedisTake(c: Config, r0: Redis, s: State, now: real)
    requires RedisGood(c, r0, s) && s.queue != [] && (s.phase.Head? || s.phase.Waiting?)
    ensures RedisGood(c, r0, AfterGet(c, TakeItem(s), now))
  {
    hide Applied, Commands, ExecutedTo, AfterGet;
    ReplayGrows(c.retention, s.redis, r0, s.flushed, s.batch, s.queue[0]);
    RedisAfterGet(c, r0, TakeItem(s), now);
  }

  lemma RedisEnter(c: Config, r0: Redis, s: State, now: real)
    requires RedisGood(c, r0, s) && s.phase.Head? && s.dropped == []
    ensures RedisGood(c, r0, EnterLoop(c, s, now))
  {
    hide Applied, Commands, ExecutedTo, AfterGet, TakeItem;
    if s.queue != [] { RedisTake(c, r0, s, now); } else { RedisAfterGet(c, r0, s, now); }
  }

  lemma RedisPipeline(c: Config, r0: Redis, s: State, e: Event)
    requires RedisGood(c, r0, s) && Enabled(c, s, e) && s.phase.Executing? && (e.RunCommand? || e.RejectCommand?)
    ensures RedisGood(c, r0, Next(c, s, e))
  {
    hide Applied, Commands, ExecutedTo, Execute;
    var cmds, i := Commands(s.batch), s.phase.next;
    if e.RunCommand? {
      AbsorbCommand(c.retention, s.redis, cmds[i], cmds);
      if !s.phase.rejected { ExecutedNext(cmds, Goal(c, r0, s), s.redis, i); }
    }
  }

  lemma RedisFinishPipeline(c: Config, r0: Redis, s: State)
    requires RedisGood(c, r0, s) && Enabled(c, s, FinishPipeline) && !s.phase.rejected
    ensures RedisGood(c, r0, Next(c, s, FinishPipeline))
  {
    hide Applied, Commands, ExecutedTo, Touched;
    FlushRan(c.retention, Commands(s.batch), Goal(c, r0, s), s.redis);
  }

  lemma RedisRemoveExcess(c: Config, r0: Redis, s: State)
    requires RedisGood(c, r0, s) && s.phase.Removing?
    ensures RedisGood(c, r0, Next(c, s, RemoveExcess))
  {
    hide Applied, Commands, Touched, Trim, TrimBySize;
    TrimBySizeIsTrim(c, s.redis, s.phase.kind);
    FlushTrimmed(c.retention, Commands(s.batch), Goal(c, r0, s), s.redis, s.phase.kind);
  }

  lemma RedisResume(c: Config, r0: Redis, s: State)
    requires RedisGood(c, r0, s) && s.phase.Persisted?
    ensures RedisGood(c, r0, Next(c, s, Resume))
  {
    hide Applied, Commands;
    assert Commands([]) == [] by { CommandsOfNothing(); }
    AppliedNothing(c.retention, s.redis);
    assert s.flushed + s.batch + [] == s.flushed + s.batch;
  }

  lemma RedisStep(c: Config, r0: Redis, s: State, e: Event)
    requires RedisGood(c, r0, s) && Enabled(c, s, e) && (s.dropped != [] ==> s.phase.Done?)
    ensures RedisGood(c, r0, Next(c, s, e))
  {
    hide Applied, Commands, Touched, ExecutedTo, EnterLoop, AfterGet, TakeItem, AfterPipeline, TrimBySize, AfterTrim;
    match e {
      case Enter(now) => RedisEnter(c, r0, s, now);
      case GotItem(now) => RedisTake(c, r0, s, now);
      case TimedOut(now) => RedisAfterGet(c, r0, s, now);
      case RunCommand => RedisPipeline(c, r0, s, e);
      case RejectCommand => RedisPipeline(c, r0, s, e);
      case FinishPipeline =>
        if s.phase.rejected { RedisRejected(c, r0, s); } else { RedisFinishPipeline(c, r0, s); }
      case RemoveExcess => RedisRemoveExcess(c, r0, s);
      case Resume => RedisResume(c, r0, s);
      case _ =>
    }
  }

  lemma RedisRejected(c: Config, r0: Redis, s: State)
    requires RedisGood(c, r0, s) && Enabled(c, s, FinishPipeline) && s.phase.rejected
    ensures RedisGood(c, r0, Next(c, s, FinishPipeline))
  {
    hide Applied, Commands, Touched, ExecutedTo;
  }

  // ---------------------------------------------------------------- committed position and batch size

  lemma ToSeqSize<T>(o: Option<T>)
    ensures |ToSeq(o)| <= 1 && (o.None? ==> |ToSeq(o)| == 0)
  {
  }

  /** What has been delivered but not persisted when the worker takes the position for a commit. */
  lemma ResumeCovers(c: Config, s: State)
    requires Conserved(c, s) && s.phase.Persisted?
    ensures Ops(c.parse, s.log) == (s.flushed + s.batch) + s.queue + ToSeq(s.pending) + ToSeq(s.lost)
    ensures c.queueMax > 0 ==> |Ops(c.parse, s.log)| <= |s.flushed + s.batch| + c.queueMax + 1
  {
    ToSeqSize(s.pending);
    ToSeqSize(s.lost);
  }

  lemma CommitBoundedStep(c: Config, s: State, e: Event)
    requires Conserved(c, s) && CommitBounded(c, s) && Enabled(c, s, e)
    ensures CommitBounded(c, Next(c, s, e))
  {
    hide Ops, Touched, Commands, TrimBySize, Conserved;
    var s' := Next(c, s, e);
    match e {
      case Deliver(msg) =>
        assert s'.log[..s.committed] == s.log[..s.committed];
        if s.phase.Committing? { assert s'.log[..s.phase.position] == s.log[..s.phase.position]; }
      case Resume =>
        ResumeCovers(c, s);
        assert s.log[..|s.log|] == s.log;
      case _ =>
    }
  }

  lemma BatchBoundedStep(c: Config, s: State, e: Event)
    requires BatchBounded(c, s) && Enabled(c, s, e)
    ensures BatchBounded(c, Next(c, s, e))
  {
    hide Touched, Commands, TrimBySize;
  }

  // ---------------------------------------------------------------- whole runs

  lemma InvariantStart(c: Config, r0: Redis)
    ensures Invariant(c, r0, Start(r0))
  {
    CommandsOfNothing();
  }

  lemma InvariantStep(c: Config, r0: Redis, s: State, e: Event)
    requires Invariant(c, r0, s) && Enabled(c, s, e)
    ensures Invariant(c, r0, Next(c, s, e))
  {
    assert s.dropped != [] ==> s.phase.Done? by { DroppedOnlyWhenDone(c, s); }
    hide Conserved, RedisGood, CommitBounded, BatchBounded, Next;
    ConservedStep(c, s, e);
    RedisStep(c, r0, s, e);
    CommitBoundedStep(c, s, e);
    BatchBoundedStep(c, s, e);
  }

  lemma DroppedOnlyWhenDone(c: Config, s: State)
    requires Conserved(c, s)
    ensures s.dropped != [] ==> s.phase.Done?
  {
  }

  /** Every legal run, of any length and with any interleaving and failures, stays within the invariant. */
  lemma {:induction false} InvariantHolds(c: Config, r0: Redis, events: seq<Event>)
    requires Legal(c, Start(r0), events)
    ensures Invariant(c, r0, Run(c, Start(r0), events))
  {
    hide Invariant, Next, Enabled;
    if events == [] {
      InvariantStart(c, r0);
    } else {
      var init, e := events[..|events| - 1], events[|events| - 1];
      InvariantHolds(c, r0, init);
      InvariantStep(c, r0, Run(c, Start(r0), init), e);
    }
  }
}

/**
 What a restart can and cannot repair. The gap is what the committed position covers and nobody persisted;
 it is never delivered again.
 */
module CacheGap {
  import opened Wrappers
  import opened TopN
  import opened CacheModel
  import opened CacheProtocol
  import opened CacheSafety
  import opened CacheTheorems
  import opened CacheReads
  import opened CacheRestart

  function At(hashes: map<Slot, Value>, x: Slot): Option<Value> {
    if x in hashes then Some(hashes[x]) else None
  }

  /** What a slot should hold after `ops` in order. */
  function FoldAt(r: Redis, ops: seq<Operation>, x: Slot): Option<Value> {
    if LastWrite(ops, x).Some? then LastWrite(ops, x) else At(r.hashes, x)
  }

  lemma AppliedAt(n: nat, r: Redis, ops: seq<Operation>, x: Slot)
    ensures At(Applied(n, r, Commands(ops)).hashes, x) == FoldAt(r, ops, x)
  {
    hide Retained, Touched, Commands;
    CommandsMeanLastWrites(ops, x);
  }

  // ---------------------------------------------------------------- one slot, one index

  /** The slot is written again, was not written in the gap, or holds what the gap would have written. */
  predicate SlotSurvives(gap: seq<Operation>, again: seq<Operation>, left: Redis, x: Slot) {
    LastWrite(again, x).Some? || LastWrite(gap, x).None? || At(left.hashes, x) == LastWrite(gap, x)
  }

  /** Each window of the gap is in the index after the restart, or has been pushed out by `n` newer ones. */
  ghost predicate IndexSurvives(n: nat, gap: seq<Operation>, kind: Kind, index: set<int>) {
    Touched(kind, Commands(gap)) == {} ||
    (|index| <= n && forall w :: w in Touched(kind, Commands(gap)) ==> w in index || |Above(index, w)| >= n)
  }

  /** Adding windows and trimming leaves an index alone exactly if each of them is there or outranked. */
  lemma RetainedIsSame(n: nat, index: set<int>, added: set<int>)
    ensures Retained(n, index, added) == index <==>
      added == {} || (|index| <= n && forall w :: w in added ==> w in index || |Above(index, w)| >= n)
  {
    if added != {} {
      if Top(n, index + added) == index {
        KeptMeansOutranked(n, index, added);
      }
      if |index| <= n && forall w :: w in added ==> w in index || |Above(index, w)| >= n {
        OutrankedMeansKept(n, index, added);
      }
    }
  }

  lemma KeptMeansOutranked(n: nat, index: set<int>, added: set<int>)
    requires Top(n, index + added) == index
    ensures |index| <= n && forall w :: w in added ==> w in index || |Above(index, w)| >= n
  {
    hide Top;
    TopSize(n, index + added);
    forall w | w in added && w !in index ensures |Above(index, w)| >= n {
      forall x | x in index ensures x > w { TopDominates(n, index + added, x, w); }
      assert Above(index, w) == index;
      assert w in index + added;
    }
  }

  lemma OutrankedMeansKept(n: nat, index: set<int>, added: set<int>)
    requires |index| <= n && forall w :: w in added ==> w in index || |Above(index, w)| >= n
    ensures Top(n, index + added) == index
  {
    hide Top;
    var all := index + added;
    SubsetSize(index, all);
    forall kept, gone | kept in index && gone in all - index
      ensures gone < kept && |index| == n
    {
      SubsetSize(Above(index, gone), index);
    }
    assert all == index + (all - index);
    if all - index != {} {
      var w := SomeMember(all - index);
      SubsetSize(Above(index, w), index);
    }
    TopUnique(n, all, index);
  }

  /** Where a store is left by operations of which only those in `open` may have run in part. */
  ghost predicate LeftBy(n: nat, r0: Redis, done: seq<Operation>, open: seq<Operation>, left: Redis) {
    Applied(n, left, Commands(open)) == Applied(n, r0, Commands(done + open))
  }

  lemma UnwrittenIsOld(n: nat, r0: Redis, done: seq<Operation>, open: seq<Operation>, left: Redis, x: Slot)
    requires LeftBy(n, r0, done, open, left) && LastWrite(open, x).None?
    ensures At(left.hashes, x) == FoldAt(r0, done, x)
  {
    hide Applied, Commands, At, LastWrite;
    AppliedAt(n, left, open, x);
    AppliedAt(n, r0, done + open, x);
    LastWriteConcat(done, open, x);
  }

  /** Everything in `open` is either in the gap or delivered again. */
  ghost predicate Divided(open: seq<Operation>, gap: seq<Operation>, again: seq<Operation>) {
    forall op :: op in open ==> op in gap || op in again
  }

  /** A slot has the value of the full history exactly if it survives. */
  lemma SlotAfterRestart(
    n: nat, r0: Redis, done: seq<Operation>, open: seq<Operation>, left: Redis,
    gap: seq<Operation>, again: seq<Operation>, x: Slot)
    requires LeftBy(n, r0, done, open, left) && Divided(open, gap, again)
    ensures FoldAt(left, again, x) == FoldAt(r0, done + gap + again, x) <==> SlotSurvives(gap, again, left, x)
  {
    hide OpWrites, LastWrite, LeftBy, At;
    LastWriteConcat(done + gap, again, x);
    LastWriteConcat(done, gap, x);
    LastWriteExists(open, x);
    LastWriteExists(gap, x);
    LastWriteExists(again, x);
    if LastWrite(again, x).None? && LastWrite(gap, x).None? {
      UnwrittenIsOld(n, r0, done, open, left, x);
    }
  }

  lemma DividedTouches(kind: Kind, open: seq<Operation>, gap: seq<Operation>, again: seq<Operation>)
    requires Divided(open, gap, again)
    ensures Touched(kind, Commands(open)) <= Touched(kind, Commands(gap)) + Touched(kind, Commands(again))
  {
    hide Touched, Commands;
    var any := Slot(HashKey(kind, 0), "");
    CommandsMeanLastWrites(open, any);
    CommandsMeanLastWrites(gap, any);
    CommandsMeanLastWrites(again, any);
  }

  /** An index is that of the full history exactly if it survives. */
  lemma IndexAfterRestart(
    n: nat, r0: Redis, done: seq<Operation>, open: seq<Operation>, left: Redis,
    gap: seq<Operation>, again: seq<Operation>, kind: Kind)
    requires LeftBy(n, r0, done, open, left) && Divided(open, gap, again)
    ensures var index := Retained(n, left.Index(kind), Touched(kind, Commands(again)));
      index == Retained(n, r0.Index(kind), Touched(kind, Commands(done + gap + again)))
      <==> IndexSurvives(n, gap, kind, index)
  {
    hide Touched, Commands, Retained, Writes;
    var l, g, a := Touched(kind, Commands(open)), Touched(kind, Commands(gap)), Touched(kind, Commands(again));
    var d := Touched(kind, Commands(done));
    TouchedOfThree(kind, done, gap, again);
    TouchedOfTwo(kind, done, open);
    DividedTouches(kind, open, gap, again);
    assert Retained(n, left.Index(kind), l) == Retained(n, r0.Index(kind), d + l);
    var index := Retained(n, left.Index(kind), a);
    RetainedConcat(n, left.Index(kind), a, g);
    RetainedConcat(n, left.Index(kind), l, a + g);
    RetainedConcat(n, r0.Index(kind), d + l, a + g);
    assert l + (a + g) == a + g;
    assert d + l + (a + g) == d + g + a;
    assert Retained(n, index, g) == Retained(n, r0.Index(kind), d + g + a);
    RetainedIsSame(n, index, g);
  }

  lemma TouchedOfTwo(kind: Kind, a: seq<Operation>, b: seq<Operation>)
    ensures Touched(kind, Commands(a + b)) == Touched(kind, Commands(a)) + Touched(kind, Commands(b))
  {
    hide Touched, Commands;
    CommandsConcat(a, b);
    TouchedConcat(kind, Commands(a), Commands(b));
  }

  lemma TouchedOfThree(kind: Kind, a: seq<Operation>, b: seq<Operation>, d: seq<Operation>)
    ensures Touched(kind, Commands(a + b + d))
         == Touched(kind, Commands(a)) + Touched(kind, Commands(b)) + Touched(kind, Commands(d))
  {
    TouchedOfTwo(kind, a + b, d);
    TouchedOfTwo(kind, a, b);
  }

  // ---------------------------------------------------------------- the whole store

  /** A second life that flushed `again` has the store of the full history exactly if every slot and index survives. */
  lemma StoreAfterRestart(
    n: nat, r0: Redis, done: seq<Operation>, open: seq<Operation>, left: Redis,
    gap: seq<Operation>, again: seq<Operation>, now: Redis)
    requires LeftBy(n, r0, done, open, left) && Divided(open, gap, again)
    requires now == Applied(n, left, Commands(again))
    ensures now == Applied(n, r0, Commands(done + gap + again)) <==>
      && (forall x :: SlotSurvives(gap, again, left, x))
      && (forall kind: Kind :: IndexSurvives(n, gap, kind, now.Index(kind)))
  {
    hide LeftBy, Divided, Touched, Commands, Retained, Writes, SlotSurvives, IndexSurvives, FoldAt, At;
    var full := Applied(n, r0, Commands(done + gap + again));
    forall x: Slot
      ensures At(now.hashes, x) == At(full.hashes, x) <==> SlotSurvives(gap, again, left, x)
    {
      AppliedAt(n, left, again, x);
      AppliedAt(n, r0, done + gap + again, x);
      SlotAfterRestart(n, r0, done, open, left, gap, again, x);
    }
    forall kind: Kind
      ensures now.Index(kind) == full.Index(kind) <==> IndexSurvives(n, gap, kind, now.Index(kind))
    {
      IndexAfterRestart(n, r0, done, open, left, gap, again, kind);
    }
    SameStore(now, full);
  }

  lemma SameStore(a: Redis, b: Redis)
    ensures a == b <==>
      (forall x :: At(a.hashes, x) == At(b.hashes, x)) && forall kind: Kind :: a.Index(kind) == b.Index(kind)
  {
    if (forall x :: At(a.hashes, x) == At(b.hashes, x)) && forall kind: Kind :: a.Index(kind) == b.Index(kind) {
      assert a.Index(EventKind) == b.Index(EventKind) && a.Index(PerfKind) == b.Index(PerfKind);
      forall x: Slot
        ensures x in a.hashes <==> x in b.hashes
        ensures x in a.hashes ==> a.hashes[x] == b.hashes[x]
      {
        assert At(a.hashes, x) == At(b.hashes, x);
      }
      assert a.hashes == b.hashes;
    }
  }

  // ---------------------------------------------------------------- over runs

  /**
   In every reachable state with a gap, the delivered operations are the persisted ones, the gap, and those
   that a restart delivers again; what the worker and the queue hold is the gap and the beginning of the rest.
   */
  lemma GapIsNotRedelivered(c: Config, r0: Redis, events: seq<Event>)
    requires Legal(c, Start(r0), events)
    ensures var s := After(c, r0, events);
      && s.committed <= |s.log| && Covered(c, s, s.committed) <= |Ops(c.parse, s.log)|
      && (Gap(c, s) != [] ==>
            && Ops(c.parse, s.log[..s.committed]) == s.flushed + Gap(c, s)
            && Ops(c.parse, s.log) == s.flushed + Gap(c, s) + Ops(c.parse, s.log[s.committed..])
            && Live(s) + s.queue + ToSeq(s.pending) + ToSeq(s.lost)
               == Gap(c, s) + Ops(c.parse, s.log[s.committed..]))
  {
    hide Ops, Run, Next, Legal, Live, RedisGood, CommitBounded, BatchBounded;
    CommittedIsCovered(c, r0, events);
    InvariantHolds(c, r0, events);
    var s := After(c, r0, events);
    if Gap(c, s) != [] {
      var ops := Ops(c.parse, s.log);
      var below, rest := Ops(c.parse, s.log[..s.committed]), Ops(c.parse, s.log[s.committed..]);
      OpsConcat(c.parse, s.log[..s.committed], s.log[s.committed..]);
      assert s.log[..s.committed] + s.log[s.committed..] == s.log;
      assert below == ops[..|below|] && s.flushed == ops[..|s.flushed|];
      assert below == s.flushed + Gap(c, s);
      var held := Live(s) + s.queue + ToSeq(s.pending) + ToSeq(s.lost);
      assert ops == s.flushed + held;
      assert ops == s.flushed + (Gap(c, s) + rest);
      assert held == ops[|s.flushed|..] == Gap(c, s) + rest;
    }
  }

  /**
   Crash and restart, exactly: the service dies in any reachable state, a new one on the store it left is
   delivered everything from the committed position again and has flushed at least that. Its store is the
   fold, over the very first store, of all operations of both lives if and only if every slot and both
   indices survive the gap.
   */
  lemma RestartExactly(c: Config, r0: Redis, events: seq<Event>, second: seq<Event>)
    requires Legal(c, Start(r0), events) && Legal(c, Start(After(c, r0, events).redis), second)
    requires var s, t := After(c, r0, events), After(c, After(c, r0, events).redis, second);
      && t.phase.Committing? && s.committed <= |s.log|
      && s.log[s.committed..] <= t.log
      && Ops(c.parse, s.log[s.committed..]) <= t.flushed
    ensures var s, t := After(c, r0, events), After(c, After(c, r0, events).redis, second);
      && Covered(c, s, s.committed) <= |Ops(c.parse, s.log)|
      && (HoldsExactly(c.retention, r0, Ops(c.parse, s.log[..s.committed]) + t.flushed, t.redis) <==>
            && (forall x :: SlotSurvives(Gap(c, s), t.flushed, s.redis, x))
            && (forall kind: Kind :: IndexSurvives(c.retention, Gap(c, s), kind, t.redis.Index(kind))))
      && (forall x :: At(t.redis.hashes, x) == FoldAt(r0, Ops(c.parse, s.log[..s.committed]) + t.flushed, x)
            <==> SlotSurvives(Gap(c, s), t.flushed, s.redis, x))
  {
    hide Ops, Run, Next, Legal, Applied, Commands, HoldsExactly, Live, CommitBounded, BatchBounded, Conserved;
    hide SlotSurvives, IndexSurvives, FoldAt, At, Gap;
    var n, s, t := c.retention, After(c, r0, events), After(c, After(c, r0, events).redis, second);
    SecondLife(c, r0, events, second);
    GapIsNotRedelivered(c, r0, events);
    SafeMeansNoGap(c, r0, events);
    var full := Ops(c.parse, s.log[..s.committed]) + t.flushed;
    AppliedMeansLastWrites(n, r0, full, t.redis);
    if Gap(c, s) == [] {
      RestartRecovers(c, r0, events, second);
      NoGapSurvives(n, t.flushed, s.redis, t.redis);
      forall x ensures At(t.redis.hashes, x) == FoldAt(r0, full, x) { AppliedAt(n, r0, full, x); }
    } else {
      StoreAfterRestart(n, r0, s.flushed, Live(s), s.redis, Gap(c, s), t.flushed, t.redis);
      forall x
        ensures At(t.redis.hashes, x) == FoldAt(r0, full, x) <==> SlotSurvives(Gap(c, s), t.flushed, s.redis, x)
      {
        AppliedAt(n, s.redis, t.flushed, x);
        SlotAfterRestart(n, r0, s.flushed, Live(s), s.redis, Gap(c, s), t.flushed, x);
      }
    }
  }

  lemma NoGapSurvives(n: nat, again: seq<Operation>, left: Redis, now: Redis)
    ensures forall x :: SlotSurvives([], again, left, x)
    ensures forall kind: Kind :: IndexSurvives(n, [], kind, now.Index(kind))
  {
    CommandsOfNothing();
    TouchedByNothing();
  }

  /** What is known of both lives. */
  lemma SecondLife(c: Config, r0: Redis, events: seq<Event>, second: seq<Event>)
    requires Legal(c, Start(r0), events) && Legal(c, Start(After(c, r0, events).redis), second)
    requires var s, t := After(c, r0, events), After(c, After(c, r0, events).redis, second);
      && t.phase.Committing? && s.committed <= |s.log|
      && Ops(c.parse, s.log[s.committed..]) <= t.flushed
    ensures var s, t := After(c, r0, events), After(c, After(c, r0, events).redis, second);
      && Covered(c, s, s.committed) <= |Ops(c.parse, s.log)|
      && t.redis == Applied(c.retention, s.redis, Commands(t.flushed))
      && LeftBy(c.retention, r0, s.flushed, Live(s), s.redis)
      && (Gap(c, s) != [] ==> Divided(Live(s), Gap(c, s), t.flushed))
  {
    hide Ops, Run, Next, Legal, Applied, Commands, HoldsExactly, Live, CommitBounded, BatchBounded, Gap;
    var s, t := After(c, r0, events), After(c, After(c, r0, events).redis, second);
    GapIsNotRedelivered(c, r0, events);
    InvariantHolds(c, r0, events);
    FlushRefinesFold(c, s.redis, second);
    AppliedMeansLastWrites(c.retention, s.redis, t.flushed, t.redis);
    if Gap(c, s) != [] {
      var rest := Ops(c.parse, s.log[s.committed..]);
      var ahead := s.queue + ToSeq(s.pending) + ToSeq(s.lost);
      assert Live(s) + ahead == Gap(c, s) + rest;
      forall op | op in Live(s) ensures op in Gap(c, s) || op in t.flushed {
        assert op in Gap(c, s) + rest;
      }
    }
  }

  /** If the first life ended between flushes, the restarted store is the fold with exactly the gap left out. */
  lemma RestartSkipsGap(c: Config, r0: Redis, events: seq<Event>, second: seq<Event>)
    requires Legal(c, Start(r0), events) && Live(After(c, r0, events)) == []
    requires Legal(c, Start(After(c, r0, events).redis), second)
    requires After(c, After(c, r0, events).redis, second).phase.Committing?
    ensures var s, t := After(c, r0, events), After(c, After(c, r0, events).redis, second);
      HoldsExactly(c.retention, r0, s.flushed + t.flushed, t.redis)
  {
    hide Run, Next, Legal, Applied, Commands, HoldsExactly, CommitBounded, BatchBounded, Conserved;
    var n, s, t := c.retention, After(c, r0, events), After(c, After(c, r0, events).redis, second);
    InvariantHolds(c, r0, events);
    StoreIsFold(c, r0, s);
    AppliedMeansLastWrites(n, r0, s.flushed, s.redis);
    FlushRefinesFold(c, s.redis, second);
    AppliedMeansLastWrites(n, s.redis, t.flushed, t.redis);
    CommandsConcat(s.flushed, t.flushed);
    AppliedConcat(n, r0, Commands(s.flushed), Commands(t.flushed));
    AppliedMeansLastWrites(n, r0, s.flushed + t.flushed, t.redis);
  }

  // ---------------------------------------------------------------- a flush that was cut off

  /** The slot is as the persisted operations left it, or as some operation in the worker's hands writes it. */
  ghost predicate SlotLeft(r0: Redis, s: State, x: Slot) {
    || At(s.redis.hashes, x) == FoldAt(r0, s.flushed, x)
    || exists op :: op in Live(s) && Gives(op, x, At(s.redis.hashes, x))
  }

  predicate Gives(op: Operation, x: Slot, v: Option<Value>) {
    x in OpWrites(op) && v == Some(OpWrites(op)[x])
  }

  lemma RunGives(r: Redis, op: Operation, cmd: Command, x: Slot)
    requires cmd in OpCommands(op)
    ensures At(Execute(r, cmd).hashes, x) == At(r.hashes, x) || Gives(op, x, At(Execute(r, cmd).hashes, x))
  {
  }

  /** At the end of a flush the store is the fold. */
  lemma ResumeLeaves(c: Config, r0: Redis, s: State, x: Slot)
    requires RedisGood(c, r0, s) && Enabled(c, s, Resume)
    ensures SlotLeft(r0, Next(c, s, Resume), x)
  {
    hide Applied, Commands, At, FoldAt;
    AppliedAt(c.retention, r0, s.flushed + s.batch, x);
  }

  lemma SlotLeftStep(c: Config, r0: Redis, s: State, e: Event, x: Slot)
    requires Conserved(c, s) && RedisGood(c, r0, s) && Enabled(c, s, e) && SlotLeft(r0, s, x)
    ensures SlotLeft(r0, Next(c, s, e), x)
  {
    hide Conserved, RedisGood, Gives, FoldAt, At, Commands, OpCommands, Execute, Touched, TrimBySize;
    if e.Resume? {
      ResumeLeaves(c, r0, s, x);
    } else {
      HandsStep(c, s, e);
      hide Live, Next;
      if e.RunCommand? {
        var op := CommandComesFromOp(s.batch, s.phase.next);
        RunGives(s.redis, op, Commands(s.batch)[s.phase.next], x);
        assert op in Live(s) by { BatchIsLive(s, op); }
      } else {
        HashesMove(c, s, e);
      }
    }
  }

  lemma BatchIsLive(s: State, op: Operation)
    requires op in s.batch && s.phase.Executing?
    ensures op in Live(s)
  {
  }

  /**
   In every reachable state, however a pipeline was cut off: each slot holds what the persisted operations
   left there, or what some operation in the worker's hands writes there, and never anything else.
   */
  lemma {:induction false} CutOffFlushLeaves(c: Config, r0: Redis, events: seq<Event>, x: Slot)
    requires Legal(c, Start(r0), events)
    ensures SlotLeft(r0, After(c, r0, events), x)
    decreases |events|
  {
    hide Next, Enabled, SlotLeft, Conserved, RedisGood, CommitBounded, BatchBounded;
    if events == [] {
      StartLeaves(r0, x);
    } else {
      var init := events[..|events| - 1];
      CutOffFlushLeaves(c, r0, init, x);
      InvariantHolds(c, r0, init);
      SlotLeftStep(c, r0, After(c, r0, init), events[|events| - 1], x);
    }
  }

  lemma StartLeaves(r0: Redis, x: Slot)
    ensures SlotLeft(r0, Start(r0), x)
  {
  }
}

/**
 What the committed position is for: a service that dies in any reachable state is restarted on the store it
 left, and Kafka delivers everything from the committed position again.
 */
module CacheRestart {
  import opened Wrappers
  import opened CacheModel
  import opened MessageParser
  import opened CacheProtocol
  import opened CacheSafety
  import opened CacheTheorems

  /** Older writes may be replayed on top of newer ones, as long as the newer ones follow again. */
  lemma WritesAbsorb(r: map<Slot, Value>, r0: map<Slot, Value>, earlier: map<Slot, Value>, newer: map<Slot, Value>)
    requires r + newer == r0 + earlier + newer
    ensures r + earlier + newer == r0 + earlier + newer
  {
    forall k | k in r + earlier + newer || k in r0 + earlier + newer
      ensures k in r + earlier + newer && k in r0 + earlier + newer
      ensures (r + earlier + newer)[k] == (r0 + earlier + newer)[k]
    {
      assert k in r + newer <==> k in r0 + earlier + newer;
      if k !in newer && k !in earlier {
        assert (r + newer)[k] == (r0 + earlier + newer)[k];
      }
    }
  }

  lemma IndexAbsorbs(n: nat, index: set<int>, index0: set<int>, done: set<int>, again: set<int>, open: set<int>)
    requires again <= done
    requires Retained(n, index, open) == Retained(n, index0, done + open)
    ensures Retained(n, index, again + open) == Retained(n, index0, done + open)
  {
    hide Retained;
    RetainedConcat(n, index, open, again);
    RetainedConcat(n, index0, done + open, again);
    assert open + again == again + open;
    assert done + open + again == done + open;
  }

  /**
   A store on which `open` completes `skipped + again + open` is also completed by replaying `again` before
   it: redelivering operations that were persisted long ago does no harm.
   */
  lemma RedeliveryIsAbsorbed(
    n: nat, r: Redis, r0: Redis, skipped: seq<Operation>, again: seq<Operation>, open: seq<Operation>)
    requires Applied(n, r, Commands(open)) == Applied(n, r0, Commands(skipped + again + open))
    ensures Applied(n, r, Commands(again + open)) == Applied(n, r0, Commands(skipped + again + open))
  {
    hide Retained, Touched, Writes, OpCommands, Commands;
    var p, a, o := Commands(skipped), Commands(again), Commands(open);
    CommandsConcat(skipped, again);
    CommandsConcat(skipped + again, open);
    CommandsConcat(again, open);
    WritesConcat(p, a);
    WritesConcat(p + a, o);
    WritesConcat(a, o);
    MergeAssociative(r0.hashes, Writes(p), Writes(a));
    MergeAssociative(r0.hashes, Writes(p + a), Writes(o));
    MergeAssociative(r.hashes, Writes(a), Writes(o));
    WritesAbsorb(r.hashes, r0.hashes + Writes(p), Writes(a), Writes(o));
    forall kind: Kind
      ensures Retained(n, r.Index(kind), Touched(kind, a + o)) == Retained(n, r0.Index(kind), Touched(kind, p + a + o))
    {
      TouchedConcat(kind, p, a);
      TouchedConcat(kind, p + a, o);
      TouchedConcat(kind, a, o);
      IndexAbsorbs(n, r.Index(kind), r0.Index(kind), Touched(kind, p + a), Touched(kind, a), Touched(kind, o));
    }
    assert r.Index(EventKind) == r.events && r.Index(PerfKind) == r.perfs;
    assert r0.Index(EventKind) == r0.events && r0.Index(PerfKind) == r0.perfs;
  }

  lemma {:induction false} OpsConcat(parse: Message -> Parsed, a: seq<Message>, b: seq<Message>)
    ensures Ops(parse, a + b) == Ops(parse, a) + Ops(parse, b)
    decreases |b|
  {
    if b == [] {
      assert a + b == a;
    } else {
      hide Ops;
      var init, msg := b[..|b| - 1], b[|b| - 1];
      assert a + b == a + init + [msg] && b == init + [msg];
      OpsConcat(parse, a, init);
      OpsSnoc(parse, a + init, msg);
      OpsSnoc(parse, init, msg);
      var op := match parse(msg) case Accepted(op) => [op] case _ => [];
      assert Ops(parse, a) + Ops(parse, init) + op == Ops(parse, a) + (Ops(parse, init) + op);
    }
  }

  /** The committed position covers nothing that is not persisted. */
  ghost predicate CommitIsSafe(c: Config, s: State) {
    s.committed <= |s.log| && Covered(c, s, s.committed) <= |s.flushed|
  }

  lemma SafeMeansNoGap(c: Config, r0: Redis, events: seq<Event>)
    requires Legal(c, Start(r0), events)
    ensures var s := After(c, r0, events);
      && s.committed <= |s.log| && Covered(c, s, s.committed) <= |Ops(c.parse, s.log)|
      && (CommitIsSafe(c, s) <==> Gap(c, s) == [])
  {
    hide Ops, Run, Next, Legal;
    CommittedIsCovered(c, r0, events);
  }

  /** Two ways to cut a sequence in two. */
  lemma SplitBoth<T>(a: seq<T>, b: seq<T>, x: seq<T>, y: seq<T>)
    requires a + b == x + y && |a| <= |x|
    ensures x == a + x[|a|..] && b == x[|a|..] + y
  {
    assert a == (a + b)[..|a|] == (x + y)[..|a|] == x[..|a|];
    assert b == (a + b)[|a|..] == (x + y)[|a|..];
  }

  /** How the operations of a safe state divide at the committed position. */
  lemma SplitAtCommit(c: Config, s: State) returns (again: seq<Operation>, ahead: seq<Operation>)
    requires Conserved(c, s) && CommitIsSafe(c, s)
    ensures s.flushed == Ops(c.parse, s.log[..s.committed]) + again
    ensures Ops(c.parse, s.log[s.committed..]) == again + Live(s) + ahead
  {
    hide Ops, Live;
    var skipped, rest := Ops(c.parse, s.log[..s.committed]), Ops(c.parse, s.log[s.committed..]);
    assert s.log[..s.committed] + s.log[s.committed..] == s.log;
    ahead := s.queue + ToSeq(s.pending) + ToSeq(s.lost);
    assert skipped + rest == s.flushed + (Live(s) + ahead) by {
      OpsConcat(c.parse, s.log[..s.committed], s.log[s.committed..]);
      assert s.flushed + Live(s) + s.queue + ToSeq(s.pending) + ToSeq(s.lost) == s.flushed + (Live(s) + ahead);
    }
    again := s.flushed[|skipped|..];
    SplitBoth(skipped, rest, s.flushed, Live(s) + ahead);
    assert again + Live(s) + ahead == again + (Live(s) + ahead);
  }

  /**
   Crash and restart: the service dies in any reachable state in which no operation is committed and not
   persisted, even in the middle of a flush. A new one is started on the store it left, receives everything
   from the committed position again and flushes at least that. Then the store is the fold, over the very
   first store, of all operations of both lives, each counted once.
   */
  lemma RestartRecovers(c: Config, r0: Redis, events: seq<Event>, second: seq<Event>)
    requires Legal(c, Start(r0), events) && CommitIsSafe(c, After(c, r0, events))
    requires Legal(c, Start(After(c, r0, events).redis), second)
    requires var s, t := After(c, r0, events), After(c, After(c, r0, events).redis, second);
      && t.phase.Committing?
      && s.log[s.committed..] <= t.log
      && Ops(c.parse, s.log[s.committed..]) <= t.flushed
    ensures var s, t := After(c, r0, events), After(c, After(c, r0, events).redis, second);
      && HoldsExactly(c.retention, r0, Ops(c.parse, s.log[..s.committed]) + t.flushed, t.redis)
      && Ops(c.parse, s.log) <= Ops(c.parse, s.log[..s.committed]) + t.flushed
      && Ops(c.parse, s.log[..s.committed] + t.log)
         == Ops(c.parse, s.log[..s.committed]) + t.flushed + t.queue + ToSeq(t.pending) + ToSeq(t.lost)
  {
    hide Ops, Run, Next, Legal, Applied, Commands, HoldsExactly, Live, CommitBounded, BatchBounded;
    var s, t := After(c, r0, events), After(c, After(c, r0, events).redis, second);
    var skipped := Ops(c.parse, s.log[..s.committed]);
    InvariantHolds(c, r0, events);
    var again, ahead := SplitAtCommit(c, s);
    assert skipped + again + Live(s) == s.flushed + Live(s);
    RedeliveryIsAbsorbed(c.retention, s.redis, r0, skipped, again, Live(s));
    FlushRefinesFold(c, s.redis, second);
    AppliedMeansLastWrites(c.retention, s.redis, t.flushed, t.redis);
    var redelivered := again + Live(s);
    assert skipped + again + Live(s) == skipped + redelivered;
    assert redelivered <= t.flushed;
    var more := t.flushed[|redelivered|..];
    assert t.flushed == redelivered + more;
    BothLives(c.retention, s.redis, r0, skipped, redelivered, more, t.redis);
    AppliedMeansLastWrites(c.retention, r0, skipped + t.flushed, t.redis);
    OpsConcat(c.parse, s.log[..s.committed], s.log[s.committed..]);
    assert s.log[..s.committed] + s.log[s.committed..] == s.log;
    OpsConcat(c.parse, s.log[..s.committed], t.log);
    assert skipped + (t.flushed + t.queue + ToSeq(t.pending) + ToSeq(t.lost))
        == skipped + t.flushed + t.queue + ToSeq(t.pending) + ToSeq(t.lost);
  }

  lemma BothLives(
    n: nat, r: Redis, r0: Redis, skipped: seq<Operation>, redelivered: seq<Operation>, more: seq<Operation>,
    now: Redis)
    requires Applied(n, r, Commands(redelivered)) == Applied(n, r0, Commands(skipped + redelivered))
    requires now == Applied(n, r, Commands(redelivered + more))
    ensures now == Applied(n, r0, Commands(skipped + (redelivered + more)))
  {
    hide Applied, Commands;
    CommandsConcat(redelivered, more);
    CommandsConcat(skipped + redelivered, more);
    AppliedConcat(n, r, Commands(redelivered), Commands(more));
    AppliedConcat(n, r0, Commands(skipped + redelivered), Commands(more));
    assert skipped + redelivered + more == skipped + (redelivered + more);
  }

  // ---------------------------------------------------------------- any number of lives

  /**
   A safe state's store is completed, for any continuation of the log, by applying what lies from the
   committed position on: it does not matter how far the service had come with it.
   */
  lemma SafeStoreCompletes(c: Config, r0: Redis, events: seq<Event>, all: seq<Message>)
    requires Legal(c, Start(r0), events) && CommitIsSafe(c, After(c, r0, events))
    requires After(c, r0, events).log <= all
    ensures var s := After(c, r0, events);
      Applied(c.retention, s.redis, Commands(Ops(c.parse, all[s.committed..])))
      == Applied(c.retention, r0, Commands(Ops(c.parse, all)))
  {
    hide Ops, Run, Next, Legal, Applied, Commands, Live, CommitBounded, BatchBounded;
    var n, s := c.retention, After(c, r0, events);
    var skipped := Ops(c.parse, s.log[..s.committed]);
    InvariantHolds(c, r0, events);
    var again, ahead := SplitAtCommit(c, s);
    assert skipped + again + Live(s) == s.flushed + Live(s);
    RedeliveryIsAbsorbed(n, s.redis, r0, skipped, again, Live(s));
    var redelivered := again + Live(s);
    assert skipped + again + Live(s) == skipped + redelivered;
    var more := ahead + Ops(c.parse, all[|s.log|..]);
    assert all == s.log[..s.committed] + all[s.committed..];
    assert all[s.committed..] == s.log[s.committed..] + all[|s.log|..];
    OpsConcat(c.parse, s.log[..s.committed], all[s.committed..]);
    OpsConcat(c.parse, s.log[s.committed..], all[|s.log|..]);
    assert again + Live(s) + ahead + Ops(c.parse, all[|s.log|..]) == redelivered + more;
    BothLives(n, s.redis, r0, skipped, redelivered, more, Applied(n, s.redis, Commands(redelivered + more)));
  }

  /** The store and the place in the log that the next life starts from. */
  datatype Left = Left(store: Redis, base: nat)

  /**
   `lives` can follow each other from the store `r0` on the log `all`: each starts from an empty service on
   the store and the committed position that its predecessor left, and ends anywhere, with a safe commit.
   */
  ghost predicate Lived(c: Config, r0: Redis, all: seq<Message>, lives: seq<seq<Event>>)
    decreases |lives|, 0
  {
    lives != [] ==>
      var init, life := lives[..|lives| - 1], lives[|lives| - 1];
      && Lived(c, r0, all, init)
      && var left := LeftAfter(c, r0, all, init);
         && left.base <= |all|
         && Legal(c, Start(left.store), life)
         && CommitIsSafe(c, After(c, left.store, life))
         && After(c, left.store, life).log <= all[left.base..]
  }

  ghost function LeftAfter(c: Config, r0: Redis, all: seq<Message>, lives: seq<seq<Event>>): Left
    requires Lived(c, r0, all, lives)
    decreases |lives|, 1
  {
    if lives == [] then Left(r0, 0)
    else
      var left := LeftAfter(c, r0, all, lives[..|lives| - 1]);
      var s := After(c, left.store, lives[|lives| - 1]);
      Left(s.redis, left.base + s.committed)
  }

  /**
   Any number of crashes: after any chain of lives, what is still to be delivered completes the store that
   was left to the fold of the whole log over the very first store.
   */
  lemma {:induction false} LivesComplete(c: Config, r0: Redis, all: seq<Message>, lives: seq<seq<Event>>)
    requires Lived(c, r0, all, lives)
    ensures var left := LeftAfter(c, r0, all, lives);
      && left.base <= |all|
      && Applied(c.retention, left.store, Commands(Ops(c.parse, all[left.base..])))
         == Applied(c.retention, r0, Commands(Ops(c.parse, all)))
    decreases |lives|
  {
    hide Ops, Run, Next, Legal, Applied, Commands;
    if lives == [] {
      assert all[0..] == all;
    } else {
      var init, life := lives[..|lives| - 1], lives[|lives| - 1];
      LivesComplete(c, r0, all, init);
      var left := LeftAfter(c, r0, all, init);
      SafeStoreCompletes(c, left.store, life, all[left.base..]);
      var s := After(c, left.store, life);
      assert all[left.base..][s.committed..] == all[left.base + s.committed..];
    }
  }

  /** When the last of any number of lives has flushed the rest of the log, the store is the fold of all of it. */
  lemma LastLifeRecovers(c: Config, r0: Redis, all: seq<Message>, lives: seq<seq<Event>>, last: seq<Event>)
    requires Lived(c, r0, all, lives) && LeftAfter(c, r0, all, lives).base <= |all|
    requires var left := LeftAfter(c, r0, all, lives);
      && Legal(c, Start(left.store), last)
      && (var t := After(c, left.store, last);
          t.phase.Committing? && t.flushed == Ops(c.parse, all[left.base..]))
    ensures HoldsExactly(c.retention, r0, Ops(c.parse, all),
                         After(c, LeftAfter(c, r0, all, lives).store, last).redis)
  {
    hide Ops, Run, Next, Legal, Applied, Commands, HoldsExactly, Lived, LeftAfter;
    var left := LeftAfter(c, r0, all, lives);
    var t := After(c, left.store, last);
    LivesComplete(c, r0, all, lives);
    FlushRefinesFold(c, left.store, last);
    AppliedMeansLastWrites(c.retention, left.store, t.flushed, t.redis);
    AppliedMeansLastWrites(c.retention, r0, Ops(c.parse, all), t.redis);
  }

  /**
   Without that condition a restart loses data, and no fault is needed: after two messages with a batch size
   of one the service dies with both committed. Nothing is delivered again, and the fields that only the
   second message writes are still what they were before either.
   */
  lemma CommittedGapIsLost(
    c: Config, r0: Redis, m: Message, op: Operation, next: Message, nextOp: Operation, slot: Slot)
    returns (events: seq<Event>)
    requires c.batchSize == 1 && c.queueMax == 2 && op.kind.EventKind?
    requires c.parse(m) == Accepted(op) && c.parse(next) == Accepted(nextOp)
    requires slot in OpWrites(nextOp) && slot !in OpWrites(op)
    ensures Legal(c, Start(r0), events) && FaultFree(events)
    ensures var s := After(c, r0, events);
      && s.committed <= |s.log| && s.log[s.committed..] == []
      && LastWrite(Ops(c.parse, s.log), slot) == Some(OpWrites(nextOp)[slot])
      && (slot in s.redis.hashes <==> slot in r0.hashes)
      && (slot in r0.hashes ==> s.redis.hashes[slot] == r0.hashes[slot])
  {
    hide Run, Next, Legal, Applied, Commands, FaultFree, CommitBounded, BatchBounded;
    events := DocumentedCommitOrderFails(c, r0, m, op, next, nextOp);
    var s := After(c, r0, events);
    InvariantHolds(c, r0, events);
    StoreIsFold(c, r0, s);
    assert LastWrite([op], slot) == None by { assert [op][..0] == []; }
    assert Ops(c.parse, s.log) == [op] + [] + [nextOp] + ToSeq(s.pending) + ToSeq(s.lost);
    LogOfTwo(c, s, op, nextOp);
  }

  lemma LogOfTwo(c: Config, s: State, op: Operation, nextOp: Operation)
    requires |s.log| == 2 && |Ops(c.parse, s.log)| >= 2 && [op, nextOp] <= Ops(c.parse, s.log)
    ensures Ops(c.parse, s.log) == [op, nextOp]
  {
    assert s.log[..1][..0] == [];
    assert |Ops(c.parse, s.log[..1])| <= 1;
  }
}

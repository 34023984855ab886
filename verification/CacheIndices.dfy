/** Retention over whole runs: what one trim evicted stays out, and a full index only moves forward. */
module CacheIndices {
  import opened TopN
  import opened CacheModel
  import opened CacheProtocol
  import opened CacheSafety
  import opened CacheTheorems

  /** Everything taken from the queue so far, in order. */
  function Dequeued(s: State): seq<Operation> {
    s.flushed + Live(s)
  }

  lemma DequeuedStep(c: Config, s: State, e: Event)
    requires Enabled(c, s, e)
    ensures Dequeued(s) <= Dequeued(Next(c, s, e))
  {
    if e.Resume? {
      DequeuedResume(c, s);
    } else {
      hide Next, Live;
      HandsStep(c, s, e);
    }
  }

  lemma DequeuedResume(c: Config, s: State)
    requires Enabled(c, s, Resume)
    ensures Dequeued(Next(c, s, Resume)) == Dequeued(s)
  {
  }

  /** What was taken from the queue stays taken, in the same order. */
  lemma {:induction false} DequeuedGrows(c: Config, r0: Redis, events: seq<Event>, k: nat)
    requires k <= |events| && Legal(c, Start(r0), events) && Legal(c, Start(r0), events[..k])
    ensures Dequeued(After(c, r0, events[..k])) <= Dequeued(After(c, r0, events))
    decreases |events|
  {
    hide Next, Enabled, Dequeued, RedisGood, CommitBounded, BatchBounded, Conserved;
    if k == |events| {
      assert events[..k] == events;
    } else {
      var init := events[..|events| - 1];
      assert init[..k] == events[..k];
      DequeuedGrows(c, r0, init, k);
      DequeuedStep(c, After(c, r0, init), events[|events| - 1]);
    }
  }

  lemma TouchedMore(kind: Kind, a: seq<Operation>, b: seq<Operation>)
    requires a <= b
    ensures Touched(kind, Commands(a)) <= Touched(kind, Commands(b))
  {
    hide Touched, Commands;
    assert b == a + b[|a|..];
    CommandsConcat(a, b[|a|..]);
    TouchedConcat(kind, Commands(a), Commands(b[|a|..]));
  }

  /** An index holds only initial windows and windows of operations taken from the queue. */
  ghost predicate IndexFromOps(r0: Redis, s: State) {
    forall kind: Kind :: s.redis.Index(kind) <= r0.Index(kind) + Touched(kind, Commands(Dequeued(s)))
  }

  /** One step adds to an index at most the window of the command it runs. */
  lemma IndexAdds(c: Config, s: State, e: Event, kind: Kind)
    requires Enabled(c, s, e)
    ensures var t := Next(c, s, e);
      t.redis.Index(kind) <= s.redis.Index(kind)
        + (if e.RunCommand? then Touched(kind, Commands(s.batch)) else {})
  {
    hide Commands;
    if e.RunCommand? && Commands(s.batch)[s.phase.next].ZAdd? {
      assert Commands(s.batch)[s.phase.next] in Commands(s.batch);
    }
  }

  lemma {:induction false} IndicesComeFromOps(c: Config, r0: Redis, events: seq<Event>)
    requires Legal(c, Start(r0), events)
    ensures IndexFromOps(r0, After(c, r0, events))
    decreases |events|
  {
    hide Next, Enabled, RedisGood, CommitBounded, BatchBounded, Conserved, Touched, Commands;
    if events != [] {
      var init, e := events[..|events| - 1], events[|events| - 1];
      var s, t := After(c, r0, init), After(c, r0, events);
      IndicesComeFromOps(c, r0, init);
      DequeuedStep(c, s, e);
      forall kind: Kind
        ensures t.redis.Index(kind) <= r0.Index(kind) + Touched(kind, Commands(Dequeued(t)))
      {
        IndexAdds(c, s, e, kind);
        TouchedMore(kind, Dequeued(s), Dequeued(t));
        if e.RunCommand? { BatchTouches(c, s, kind); }
      }
    }
  }

  lemma BatchTouches(c: Config, s: State, kind: Kind)
    requires Enabled(c, s, RunCommand)
    ensures Touched(kind, Commands(s.batch)) <= Touched(kind, Commands(Dequeued(s)))
  {
    hide Touched, Commands;
    CommandsConcat(s.flushed, s.batch);
    TouchedConcat(kind, Commands(s.flushed), Commands(s.batch));
  }

  /** The index right after a successful flush. */
  lemma FlushedIndex(c: Config, r0: Redis, events: seq<Event>, kind: Kind)
    requires Legal(c, Start(r0), events) && After(c, r0, events).phase.Committing?
    ensures var s := After(c, r0, events);
      && s.redis.Index(kind) == Retained(c.retention, r0.Index(kind), Touched(kind, Commands(s.flushed)))
      && Dequeued(s) == s.flushed
  {
    hide Next, Enabled, Run, Legal, Touched, Commands, Retained, Writes, Conserved, CommitBounded, BatchBounded;
    var s := After(c, r0, events);
    InvariantHolds(c, r0, events);
    assert s.flushed + [] == s.flushed;
    CommandsOfNothing();
    AppliedNothing(c.retention, s.redis);
  }

  /** In a trim in progress, its index has been touched by operations taken from the queue. */
  lemma TrimHasCause(c: Config, r0: Redis, events: seq<Event>)
    requires Legal(c, Start(r0), events) && After(c, r0, events).phase.Removing?
    ensures var s := After(c, r0, events);
      Touched(s.phase.kind, Commands(Dequeued(s))) != {}
  {
    hide Next, Enabled, Run, Legal, Touched, Commands, Conserved, CommitBounded, BatchBounded;
    var s := After(c, r0, events);
    InvariantHolds(c, r0, events);
    CommandsConcat(s.flushed, s.batch);
    TouchedConcat(s.phase.kind, Commands(s.flushed), Commands(s.batch));
  }

  /**
   Over every run: a window that a trim removes after `k` events is in no index of its kind after any later
   successful flush, even if late operations add it again or the flush that removed it failed and is retried.
   */
  lemma EvictedStaysOutOverRuns(c: Config, r0: Redis, events: seq<Event>, k: nat, w: int)
    requires k <= |events| && Legal(c, Start(r0), events) && Legal(c, Start(r0), events[..k])
    requires After(c, r0, events[..k]).phase.Removing? && After(c, r0, events).phase.Committing?
    requires var s := After(c, r0, events[..k]);
      w in s.redis.Index(s.phase.kind) && w !in Next(c, s, RemoveExcess).redis.Index(s.phase.kind)
    ensures w !in After(c, r0, events).redis.Index(After(c, r0, events[..k]).phase.kind)
  {
    hide Run, Legal, Touched, Commands, Top, DropLowest, RedisGood, Conserved, CommitBounded, BatchBounded;
    var s, u := After(c, r0, events[..k]), After(c, r0, events);
    var kind := s.phase.kind;
    SizeIsCurrent(c, r0, events[..k]);
    TrimBySizeIsTrim(c, s.redis, kind);
    IndicesComeFromOps(c, r0, events[..k]);
    TrimHasCause(c, r0, events[..k]);
    DequeuedGrows(c, r0, events, k);
    FlushedIndex(c, r0, events, kind);
    TouchedMore(kind, Dequeued(s), Dequeued(u));
    OutrankedIsDropped(c.retention, s.redis.Index(kind), r0.Index(kind) + Touched(kind, Commands(u.flushed)), w);
  }

  /** The size a trim works with is still the size of the index. */
  lemma SizeIsCurrent(c: Config, r0: Redis, events: seq<Event>)
    requires Legal(c, Start(r0), events) && After(c, r0, events).phase.Removing?
    ensures var s := After(c, r0, events); s.phase.size == |s.redis.Index(s.phase.kind)|
  {
    hide Next, Enabled, Run, Legal, Touched, Commands, Conserved, CommitBounded, BatchBounded;
    InvariantHolds(c, r0, events);
  }

  /** From one successful flush to a later one, an index changes only by adding windows and trimming. */
  lemma LaterFlushTrimsEarlier(c: Config, r0: Redis, events: seq<Event>, k: nat, kind: Kind)
    requires k <= |events| && Legal(c, Start(r0), events) && Legal(c, Start(r0), events[..k])
    requires After(c, r0, events[..k]).phase.Committing? && After(c, r0, events).phase.Committing?
    ensures var s, u := After(c, r0, events[..k]), After(c, r0, events);
      u.redis.Index(kind) == Retained(c.retention, s.redis.Index(kind), Touched(kind, Commands(u.flushed)))
  {
    hide Next, Enabled, Run, Legal, Touched, Commands, Retained;
    var s, u := After(c, r0, events[..k]), After(c, r0, events);
    FlushedIndex(c, r0, events[..k], kind);
    FlushedIndex(c, r0, events, kind);
    DequeuedGrows(c, r0, events, k);
    TouchedMore(kind, s.flushed, u.flushed);
    var before, after := Touched(kind, Commands(s.flushed)), Touched(kind, Commands(u.flushed));
    RetainedConcat(c.retention, r0.Index(kind), before, after);
    assert before + after == after;
  }

  /** Over every run: from one successful flush to a later one, the smallest window of a full index never decreases. */
  lemma FullIndexFloorRisesOverRuns(
    c: Config, r0: Redis, events: seq<Event>, k: nat, kind: Kind, floor: int, later: int)
    requires k <= |events| && Legal(c, Start(r0), events) && Legal(c, Start(r0), events[..k])
    requires After(c, r0, events[..k]).phase.Committing? && After(c, r0, events).phase.Committing?
    requires var index := After(c, r0, events[..k]).redis.Index(kind);
      |index| == c.retention && floor in index && forall y :: y in index ==> floor <= y
    requires later in After(c, r0, events).redis.Index(kind)
    ensures floor <= later
  {
    hide Next, Enabled, Run, Legal, Touched, Commands, Top;
    var index := After(c, r0, events[..k]).redis.Index(kind);
    var touched := Touched(kind, Commands(After(c, r0, events).flushed));
    LaterFlushTrimsEarlier(c, r0, events, k, kind);
    if touched != {} {
      FullIndexFloorRises(c.retention, index, touched, floor, later);
    }
  }
}

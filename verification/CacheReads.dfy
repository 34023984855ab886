/** What readers of the cache can see at any moment, including in the middle of a flush. */
module CacheReads {
  import opened Wrappers
  import opened TopN
  import opened CacheModel
  import opened MessageParser
  import opened CacheProtocol
  import opened CacheSafety
  import opened CacheTheorems

  // ---------------------------------------------------------------- measures of one message stay together

  /** The stored fields among `slots`. */
  function Restrict(hashes: map<Slot, Value>, slots: set<Slot>): map<Slot, Value> {
    map slot | slot in hashes && slot in slots :: hashes[slot]
  }

  /** Every operation writes all of `slots` or none of them. */
  ghost predicate WrittenTogether(ops: seq<Operation>, slots: set<Slot>) {
    forall op :: op in ops ==> OpWrites(op).Keys == slots || OpWrites(op).Keys !! slots
  }

  /** The fields among `slots` are the initial ones, or those of one single operation. */
  ghost predicate Untorn(r0: Redis, ops: seq<Operation>, hashes: map<Slot, Value>, slots: set<Slot>) {
    || Restrict(hashes, slots) == Restrict(r0.hashes, slots)
    || exists op :: op in ops && OpWrites(op).Keys == slots && Restrict(hashes, slots) == OpWrites(op)
  }

  lemma {:induction false} CommandComesFromOp(ops: seq<Operation>, i: nat) returns (op: Operation)
    requires i < |Commands(ops)|
    ensures op in ops && Commands(ops)[i] in OpCommands(op)
    decreases |ops|
  {
    var init := ops[..|ops| - 1];
    if i < |Commands(init)| {
      op := CommandComesFromOp(init, i);
    } else {
      op := ops[|ops| - 1];
      assert Commands(ops)[i] == OpCommands(op)[i - |Commands(init)|];
    }
  }

  lemma RestrictMerge(hashes: map<Slot, Value>, writes: map<Slot, Value>, slots: set<Slot>)
    ensures writes.Keys == slots ==> Restrict(hashes + writes, slots) == writes
    ensures writes.Keys !! slots ==> Restrict(hashes + writes, slots) == Restrict(hashes, slots)
  {
  }

  /** One command of an operation from the log cannot tear a pair. */
  lemma UntornCommand(r0: Redis, ops: seq<Operation>, r: Redis, slots: set<Slot>, op: Operation, cmd: Command)
    requires WrittenTogether(ops, slots) && Untorn(r0, ops, r.hashes, slots)
    requires op in ops && cmd in OpCommands(op)
    ensures Untorn(r0, ops, Execute(r, cmd).hashes, slots)
  {
    hide Restrict, FieldWrites;
    RestrictMerge(r.hashes, OpWrites(op), slots);
  }

  /** Only running a command touches the hashes. */
  lemma HashesMove(c: Config, s: State, e: Event)
    requires Enabled(c, s, e) && !e.RunCommand?
    ensures Next(c, s, e).redis.hashes == s.redis.hashes
  {
    hide Touched, Commands;
  }

  lemma BatchIsDelivered(c: Config, s: State, op: Operation)
    requires Conserved(c, s) && InFlush(s.phase) && op in s.batch
    ensures op in Ops(c.parse, s.log)
  {
    hide Ops;
    var i :| 0 <= i < |s.batch| && s.batch[i] == op;
    assert Ops(c.parse, s.log)[|s.flushed| + i] == op;
  }

  lemma LogGrows(c: Config, s: State, e: Event)
    requires Enabled(c, s, e)
    ensures forall op :: op in Ops(c.parse, s.log) ==> op in Ops(c.parse, Next(c, s, e).log)
  {
    hide Touched, Commands, TrimBySize, Execute, Ops;
    if e.Deliver? { OpsSnoc(c.parse, s.log, e.msg); }
  }

  lemma UntornMore(r0: Redis, a: seq<Operation>, b: seq<Operation>, hashes: map<Slot, Value>, slots: set<Slot>)
    requires Untorn(r0, a, hashes, slots) && forall op :: op in a ==> op in b
    ensures Untorn(r0, b, hashes, slots)
  {
    hide Restrict, OpWrites;
  }

  lemma UntornStep(c: Config, r0: Redis, s: State, e: Event, slots: set<Slot>)
    requires Invariant(c, r0, s) && Enabled(c, s, e)
    requires WrittenTogether(Ops(c.parse, s.log), slots) && Untorn(r0, Ops(c.parse, s.log), s.redis.hashes, slots)
    ensures Untorn(r0, Ops(c.parse, Next(c, s, e).log), Next(c, s, e).redis.hashes, slots)
  {
    var ops, s' := Ops(c.parse, s.log), Next(c, s, e);
    assert Untorn(r0, ops, s'.redis.hashes, slots) by {
      if e.RunCommand? {
        UntornRun(c, s, r0, slots);
      } else {
        HashesMove(c, s, e);
      }
    }
    hide Untorn, Next, Ops;
    LogGrows(c, s, e);
    UntornMore(r0, ops, Ops(c.parse, s'.log), s'.redis.hashes, slots);
  }

  lemma UntornRun(c: Config, s: State, r0: Redis, slots: set<Slot>)
    requires Conserved(c, s) && Enabled(c, s, RunCommand)
    requires WrittenTogether(Ops(c.parse, s.log), slots) && Untorn(r0, Ops(c.parse, s.log), s.redis.hashes, slots)
    ensures Untorn(r0, Ops(c.parse, s.log), Next(c, s, RunCommand).redis.hashes, slots)
  {
    hide Ops, Commands, OpCommands, Untorn, WrittenTogether;
    var op := CommandComesFromOp(s.batch, s.phase.next);
    BatchIsDelivered(c, s, op);
    UntornCommand(r0, Ops(c.parse, s.log), s.redis, slots, op, Commands(s.batch)[s.phase.next]);
  }

  /** In every reachable state, mid-pipeline or after any failure, fields written together are seen together. */
  lemma {:induction false} PairsNeverTear(c: Config, r0: Redis, events: seq<Event>, slots: set<Slot>)
    requires Legal(c, Start(r0), events)
    requires WrittenTogether(Ops(c.parse, After(c, r0, events).log), slots)
    ensures var s := After(c, r0, events); Untorn(r0, Ops(c.parse, s.log), s.redis.hashes, slots)
    decreases |events|
  {
    hide Next, Enabled, Untorn, Invariant;
    if events == [] {
      assert Untorn(r0, Ops(c.parse, []), r0.hashes, slots) by { UntornInitially(c, r0, slots); }
    } else {
      var init, e := events[..|events| - 1], events[|events| - 1];
      var s := After(c, r0, init);
      LogGrows(c, s, e);
      PairsNeverTear(c, r0, init, slots);
      InvariantHolds(c, r0, init);
      UntornStep(c, r0, s, e, slots);
    }
  }

  lemma UntornInitially(c: Config, r0: Redis, slots: set<Slot>)
    ensures Untorn(r0, Ops(c.parse, []), r0.hashes, slots)
  {
  }

  /** The parser's operations write whole footprints, so the results here apply to every (window, tag). */
  lemma {:induction false} ParserWritesTogether(env: Env, log: seq<Message>, kind: Kind, window: int, tag: string)
    ensures WrittenTogether(Ops(m => ParseMessage(env, m), log), Footprint(kind, window, tag))
    decreases |log|
  {
    hide ParseMessage, Footprint, OpWrites;
    if log != [] {
      var init, msg := log[..|log| - 1], log[|log| - 1];
      ParserWritesTogether(env, init, kind, window, tag);
      if ParseMessage(env, msg).Accepted? {
        var op := ParseMessage(env, msg).op;
        var own := ParsedWritesFootprint(env, msg);
        FootprintsDisjoint(op.kind, op.window, own, kind, window, tag);
      }
    }
  }

  /** With the real parser: both measures of one event type or device category in one window never tear. */
  lemma CountAndUsersNeverTear(
    c: Config, env: Env, r0: Redis, events: seq<Event>, kind: Kind, window: int, tag: string)
    requires c.parse == (m => ParseMessage(env, m)) && Legal(c, Start(r0), events)
    ensures var s := After(c, r0, events);
      Untorn(r0, Ops(c.parse, s.log), s.redis.hashes, Footprint(kind, window, tag))
  {
    hide Next, Enabled, Ops, Untorn, Footprint, Start;
    var s := After(c, r0, events);
    ParserWritesTogether(env, s.log, kind, window, tag);
    PairsNeverTear(c, r0, events, Footprint(kind, window, tag));
  }

  // ---------------------------------------------------------------- the last message wins

  /** The most recent operation that writes exactly `slots`. */
  function LastFor(ops: seq<Operation>, slots: set<Slot>): Option<Operation> {
    if ops == [] then None
    else if OpWrites(ops[|ops| - 1]).Keys == slots then Some(ops[|ops| - 1])
    else LastFor(ops[..|ops| - 1], slots)
  }

  lemma {:induction false} FoldShowsLast(h: map<Slot, Value>, ops: seq<Operation>, slots: set<Slot>)
    requires WrittenTogether(ops, slots)
    ensures Restrict(h + Writes(Commands(ops)), slots) ==
      (match LastFor(ops, slots) case Some(op) => OpWrites(op) case None => Restrict(h, slots))
    decreases |ops|
  {
    hide Restrict, OpWrites, Writes, OpCommands;
    if ops == [] {
      assert h + Writes([]) == h by { WritesOfNothing(h); }
    } else {
      var init, op := ops[..|ops| - 1], ops[|ops| - 1];
      var before := Writes(Commands(init));
      FoldShowsLast(h, init, slots);
      WritesOfOp(Commands(init), op);
      MergeAssociative(h, before, OpWrites(op));
      RestrictMerge(h + before, OpWrites(op), slots);
    }
  }

  lemma WritesOfNothing(h: map<Slot, Value>)
    ensures h + Writes([]) == h
  {
  }

  /** After every successful flush such a group of fields is the last flushed operation's, or still the initial one. */
  lemma FlushShowsLastMessage(c: Config, r0: Redis, events: seq<Event>, slots: set<Slot>)
    requires Legal(c, Start(r0), events) && After(c, r0, events).phase.Committing?
    requires WrittenTogether(Ops(c.parse, After(c, r0, events).log), slots)
    ensures var s := After(c, r0, events);
      Restrict(s.redis.hashes, slots) ==
        (match LastFor(s.flushed, slots) case Some(op) => OpWrites(op) case None => Restrict(r0.hashes, slots))
  {
    hide Next, Enabled, Writes, Commands, Restrict, LastFor, Retained, Conserved, CommitBounded, Ops, OpWrites;
    var s := After(c, r0, events);
    InvariantHolds(c, r0, events);
    FlushedIsPrefix(c, s);
    AppliedNothing(c.retention, s.redis);
    CommandsOfNothing();
    assert s.flushed + [] == s.flushed;
    FoldShowsLast(r0.hashes, s.flushed, slots);
  }

  /** With the real parser, for the two measures of one event type or device category in one window. */
  lemma FlushShowsLastMeasures(
    c: Config, env: Env, r0: Redis, events: seq<Event>, kind: Kind, window: int, tag: string)
    requires c.parse == (m => ParseMessage(env, m))
    requires Legal(c, Start(r0), events) && After(c, r0, events).phase.Committing?
    ensures var s := After(c, r0, events);
      var slots := Footprint(kind, window, tag);
      Restrict(s.redis.hashes, slots) ==
        (match LastFor(s.flushed, slots) case Some(op) => OpWrites(op) case None => Restrict(r0.hashes, slots))
  {
    hide Next, Enabled, Ops, Footprint, Start, Restrict, LastFor, OpWrites, WrittenTogether;
    ParserWritesTogether(env, After(c, r0, events).log, kind, window, tag);
    FlushShowsLastMessage(c, r0, events, Footprint(kind, window, tag));
  }

  /** Neighbouring operations on different fields can be applied in either order. */
  lemma IndependentOpsCommute(
    n: nat, r: Redis, before: seq<Operation>, a: Operation, b: Operation, after: seq<Operation>)
    requires OpWrites(a).Keys !! OpWrites(b).Keys
    ensures Applied(n, r, Commands(before + [a, b] + after)) == Applied(n, r, Commands(before + [b, a] + after))
  {
    hide Applied, OpCommands, OpWrites;
    var mid := Applied(n, r, Commands(before));
    forall x, y | (x == a && y == b) || (x == b && y == a)
      ensures Applied(n, r, Commands(before + [x, y] + after))
           == Applied(n, Applied(n, mid, Commands([x, y])), Commands(after))
    {
      CommandsConcat(before, [x, y]);
      CommandsConcat(before + [x, y], after);
      AppliedConcat(n, r, Commands(before), Commands([x, y]));
      AppliedConcat(n, r, Commands(before + [x, y]), Commands(after));
    }
    PairCommutes(n, mid, a, b);
  }

  function OwnWindow(kind: Kind, op: Operation): set<int> {
    if kind == op.kind then {op.window} else {}
  }

  lemma PairEffect(n: nat, a: Operation, b: Operation)
    ensures Writes(Commands([a, b])) == OpWrites(a) + OpWrites(b)
    ensures forall kind :: Touched(kind, Commands([a, b])) == OwnWindow(kind, a) + OwnWindow(kind, b)
  {
    CommandsOfOne(a);
    CommandsOfOne(b);
    CommandsConcat([a], [b]);
    assert [a] + [b] == [a, b];
    hide Commands, OpCommands, OpWrites, Touched;
    WritesOfOp([], a);
    WritesOfOp([] + OpCommands(a), b);
    TouchedByNothing();
    assert Writes([]) + OpWrites(a) == OpWrites(a);
    forall kind: Kind ensures Touched(kind, Commands([a, b])) == OwnWindow(kind, a) + OwnWindow(kind, b) {
      assert Touched(kind, []) == {};
    }
  }

  lemma PairCommutes(n: nat, r: Redis, a: Operation, b: Operation)
    requires OpWrites(a).Keys !! OpWrites(b).Keys
    ensures Applied(n, r, Commands([a, b])) == Applied(n, r, Commands([b, a]))
  {
    PairEffect(n, a, b);
    PairEffect(n, b, a);
    hide Commands, Touched, Writes, OpWrites;
    assert OpWrites(a) + OpWrites(b) == OpWrites(b) + OpWrites(a);
    forall kind: Kind ensures Touched(kind, Commands([a, b])) == Touched(kind, Commands([b, a])) {}
  }

  // ---------------------------------------------------------------- range reads

  /** A trim in progress cannot be seen by a range read of at most the retention count, and removes no hash. */
  lemma TrimIsInvisible(c: Config, r0: Redis, events: seq<Event>, kind: Kind, limit: nat)
    requires Legal(c, Start(r0), events) && After(c, r0, events).phase.Removing? && limit <= c.retention
    ensures var s := After(c, r0, events);
      var t := Next(c, s, RemoveExcess);
      && ZRevRange(t.redis.Index(kind), limit) == ZRevRange(s.redis.Index(kind), limit)
      && t.redis.hashes == s.redis.hashes
  {
    hide ZRevRange, Top, DropLowest, Touched, Commands;
    InvariantHolds(c, r0, events);
    var s := After(c, r0, events);
    TrimBySizeIsTrim(c, s.redis, s.phase.kind);
    ZRevRangeIgnoresTrim(s.redis.Index(s.phase.kind), c.retention, limit);
  }
}

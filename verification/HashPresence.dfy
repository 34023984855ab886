/**
 When an indexed window has a hash. A pipeline sends `hset` before `zadd`, but Redis may reject the one and
 run the other, so an index can name a window that has nothing to show. Expiry is left aside here; module
 HashExpiry adds it.
 */
module HashPresence {
  import opened TopN
  import opened CacheModel
  import opened MessageParser
  import opened CacheProtocol
  import opened CacheSafety
  import opened CacheTheorems
  import opened CacheReads
  import opened FlushSteps
  import opened Repository

  ghost predicate IndexBacked(r: Redis) {
    forall kind, w :: w in r.Index(kind) ==> HasHash(r.hashes, HashKey(kind, w))
  }

  /** Operations carry at least one field, as the parser guarantees. */
  ghost predicate NoEmptyOps(ops: seq<Operation>) {
    forall op :: op in ops ==> op.fields != map[]
  }

  predicate IsHSet(cmd: Command, key: HashKey) {
    cmd.HSet? && cmd.key == key && cmd.fields != map[]
  }

  /** `e` is Redis's answer to an `hset` of the window: RunCommand or RejectCommand. */
  predicate AnswersHSet(s: State, e: Event, key: HashKey) {
    && (e.RunCommand? || e.RejectCommand?)
    && s.phase.Executing? && s.phase.next < |Commands(s.batch)|
    && IsHSet(Commands(s.batch)[s.phase.next], key)
  }

  /** All answers that the `hset`s of one window got during a run, in order. */
  function HSetReplies(c: Config, start: State, events: seq<Event>, key: HashKey): seq<Event>
    requires Legal(c, start, events)
    decreases |events|
  {
    if events == [] then []
    else
      var init, e := events[..|events| - 1], events[|events| - 1];
      HSetReplies(c, start, init, key) + (if AnswersHSet(Run(c, start, init), e, key) then [e] else [])
  }

  predicate HSetRan(c: Config, r0: Redis, events: seq<Event>, key: HashKey)
    requires Legal(c, Start(r0), events)
  {
    RunCommand in HSetReplies(c, Start(r0), events, key)
  }

  predicate HSetRejected(c: Config, r0: Redis, events: seq<Event>, key: HashKey)
    requires Legal(c, Start(r0), events)
  {
    RejectCommand in HSetReplies(c, Start(r0), events, key)
  }

  // ---------------------------------------------------------------- which hashes exist

  lemma ExecutedHash(r: Redis, cmd: Command, key: HashKey)
    ensures HasHash(Execute(r, cmd).hashes, key) <==> HasHash(r.hashes, key) || IsHSet(cmd, key)
  {
    var after := Execute(r, cmd).hashes;
    if HasHash(r.hashes, key) {
      var slot :| slot in r.hashes && slot.key == key;
      assert slot in after;
    }
    if IsHSet(cmd, key) {
      var f :| f in cmd.fields;
      assert Slot(key, f) in after;
    }
  }

  lemma HashStep(c: Config, s: State, e: Event, key: HashKey)
    requires Enabled(c, s, e)
    ensures HasHash(Next(c, s, e).redis.hashes, key)
      <==> HasHash(s.redis.hashes, key) || (e.RunCommand? && AnswersHSet(s, e, key))
  {
    hide Touched, Commands, Execute, HasHash, IsHSet;
    if e.RunCommand? {
      ExecutedHash(s.redis, Commands(s.batch)[s.phase.next], key);
    } else {
      HashesMove(c, s, e);
    }
  }

  /** In every reachable state a window has a hash exactly if it had one initially or one of its `hset`s ran. */
  lemma {:induction false} HashExists(c: Config, r0: Redis, events: seq<Event>, key: HashKey)
    requires Legal(c, Start(r0), events)
    ensures HasHash(After(c, r0, events).redis.hashes, key) <==> HasHash(r0.hashes, key) || HSetRan(c, r0, events, key)
    decreases |events|
  {
    hide Next, Enabled, HasHash, AnswersHSet;
    if events != [] {
      var init, e := events[..|events| - 1], events[|events| - 1];
      HashExists(c, r0, init, key);
      HashStep(c, After(c, r0, init), e, key);
    }
  }

  // ---------------------------------------------------------------- an indexed window was answered

  /** The `hset` of the window was answered, if it was not indexed from the start. */
  ghost predicate Answered(c: Config, r0: Redis, events: seq<Event>, kind: Kind, w: int)
    requires Legal(c, Start(r0), events)
  {
    w in r0.Index(kind) || HSetReplies(c, Start(r0), events, HashKey(kind, w)) != []
  }

  ghost predicate IndexAnswered(c: Config, r0: Redis, events: seq<Event>)
    requires Legal(c, Start(r0), events)
  {
    var s := After(c, r0, events);
    && (forall kind, w :: w in s.redis.Index(kind) ==> Answered(c, r0, events, kind, w))
    && (s.phase.Executing? ==> AnsweredTo(c, r0, events, Commands(s.batch), s.phase.next))
  }

  /** Of the first `i` commands each `hset` has been answered. */
  ghost predicate AnsweredTo(c: Config, r0: Redis, events: seq<Event>, cmds: seq<Command>, i: nat)
    requires Legal(c, Start(r0), events)
  {
    && i <= |cmds|
    && forall j :: 0 <= j < i && cmds[j].HSet? ==>
         Answered(c, r0, events, cmds[j].key.kind, cmds[j].key.window)
  }

  /** In a pipeline every `zadd` comes after the `hset` of the same window. */
  lemma {:induction false} AddFollowsHash(ops: seq<Operation>, i: nat)
    requires i < |Commands(ops)| && Commands(ops)[i].ZAdd?
    ensures i >= 2 && Commands(ops)[i - 2].HSet?
    ensures Commands(ops)[i - 2].key == HashKey(Commands(ops)[i].kind, Commands(ops)[i].window)
    decreases |ops|
  {
    var init := ops[..|ops| - 1];
    if i < |Commands(init)| {
      AddFollowsHash(init, i);
    } else {
      var cmds := OpCommands(ops[|ops| - 1]);
      assert Commands(ops)[i] == cmds[i - |Commands(init)|];
      assert Commands(ops)[i - 2] == cmds[i - 2 - |Commands(init)|];
    }
  }

  lemma HSetHasFields(ops: seq<Operation>, i: nat)
    requires NoEmptyOps(ops) && i < |Commands(ops)| && Commands(ops)[i].HSet?
    ensures Commands(ops)[i].fields != map[]
  {
    var op := CommandComesFromOp(ops, i);
  }

  lemma BatchHasFields(c: Config, s: State)
    requires Conserved(c, s) && NoEmptyOps(Ops(c.parse, s.log))
    ensures InFlush(s.phase) ==> NoEmptyOps(s.batch)
  {
    hide Ops, Conserved;
    if InFlush(s.phase) {
      forall op | op in s.batch ensures op.fields != map[] { BatchIsDelivered(c, s, op); }
    }
  }

  /** What one step may do to the command in progress. */
  lemma CommandStep(c: Config, s: State, e: Event)
    requires Enabled(c, s, e)
    ensures var t := Next(c, s, e);
      t.phase.Executing? && t.phase.next > 0 ==>
        && s.phase.Executing? && t.batch == s.batch
        && (|| t.phase.next == s.phase.next
            || (t.phase.next == s.phase.next + 1 && (e.RunCommand? || e.RejectCommand?)))
  {
    hide Touched, Commands, TrimBySize, Execute;
  }

  /** What one step may do to indices. */
  lemma IndexStep(c: Config, s: State, e: Event)
    requires Enabled(c, s, e)
    ensures forall kind, w :: w in Next(c, s, e).redis.Index(kind) ==>
      w in s.redis.Index(kind) || (e.RunCommand? && Commands(s.batch)[s.phase.next] == ZAdd(kind, w))
  {
    hide Touched, Commands, CommandWrites;
  }

  /** An answer stays an answer. */
  lemma AnsweredMore(c: Config, r0: Redis, events: seq<Event>, kind: Kind, w: int)
    requires events != [] && Legal(c, Start(r0), events)
    requires Answered(c, r0, events[..|events| - 1], kind, w)
    ensures Answered(c, r0, events, kind, w)
  {
    hide Next, Enabled, AnswersHSet;
  }

  /** The command in progress is an `hset`, and its answer arrives. */
  lemma AnsweredNow(c: Config, r0: Redis, events: seq<Event>, cmd: Command)
    requires events != [] && Legal(c, Start(r0), events) && cmd.HSet? && cmd.fields != map[]
    requires var s, e := After(c, r0, events[..|events| - 1]), events[|events| - 1];
      && (e.RunCommand? || e.RejectCommand?) && Enabled(c, s, e)
      && cmd == Commands(s.batch)[s.phase.next]
    ensures Answered(c, r0, events, cmd.key.kind, cmd.key.window)
  {
    hide Next, Commands;
  }

  lemma AnsweredToStep(c: Config, r0: Redis, events: seq<Event>)
    requires events != [] && Legal(c, Start(r0), events) && IndexAnswered(c, r0, events[..|events| - 1])
    requires var s := After(c, r0, events[..|events| - 1]); InFlush(s.phase) ==> NoEmptyOps(s.batch)
    ensures var t := After(c, r0, events); t.phase.Executing? ==>
      AnsweredTo(c, r0, events, Commands(t.batch), t.phase.next)
  {
    hide Next, Enabled, Commands, Answered, HSetReplies;
    var init, e := events[..|events| - 1], events[|events| - 1];
    var s, t := After(c, r0, init), After(c, r0, events);
    CommandStep(c, s, e);
    if t.phase.Executing? && t.phase.next > 0 {
      var cmds := Commands(s.batch);
      assert t.phase.next <= |cmds| by { CommandFits(c, s, e); }
      forall j | 0 <= j < t.phase.next && cmds[j].HSet?
        ensures Answered(c, r0, events, cmds[j].key.kind, cmds[j].key.window)
      {
        if j < s.phase.next {
          AnsweredMore(c, r0, events, cmds[j].key.kind, cmds[j].key.window);
        } else {
          HSetHasFields(s.batch, j);
          assert Enabled(c, s, e);
          AnsweredNow(c, r0, events, cmds[j]);
        }
      }
    }
  }

  lemma CommandFits(c: Config, s: State, e: Event)
    requires Enabled(c, s, e) && s.phase.Executing? && s.phase.next <= |Commands(s.batch)|
    ensures e.RunCommand? || e.RejectCommand? ==> s.phase.next < |Commands(s.batch)|
  {
  }

  lemma IndexAnsweredStep(c: Config, r0: Redis, events: seq<Event>)
    requires events != [] && Legal(c, Start(r0), events) && IndexAnswered(c, r0, events[..|events| - 1])
    requires var s := After(c, r0, events[..|events| - 1]); InFlush(s.phase) ==> NoEmptyOps(s.batch)
    ensures IndexAnswered(c, r0, events)
  {
    AnsweredToStep(c, r0, events);
    hide Next, Commands, Answered, HSetReplies;
    var init, e := events[..|events| - 1], events[|events| - 1];
    var s, t := After(c, r0, init), After(c, r0, events);
    IndexStep(c, s, e);
    forall kind, w | w in t.redis.Index(kind) ensures Answered(c, r0, events, kind, w) {
      if w !in s.redis.Index(kind) {
        AddFollowsHash(s.batch, s.phase.next);
      }
      AnsweredMore(c, r0, events, kind, w);
    }
  }

  /** Every window in an index was there from the start, or its `hset` has been answered. */
  lemma {:induction false} IndexedWereAnswered(c: Config, r0: Redis, events: seq<Event>)
    requires Legal(c, Start(r0), events) && NoEmptyOps(Ops(c.parse, After(c, r0, events).log))
    ensures IndexAnswered(c, r0, events)
    decreases |events|
  {
    hide Next, Enabled, Answered, Invariant, Ops, NoEmptyOps;
    if events != [] {
      var init, e := events[..|events| - 1], events[|events| - 1];
      var s := After(c, r0, init);
      FieldsBefore(c, s, e);
      IndexedWereAnswered(c, r0, init);
      InvariantHolds(c, r0, init);
      assert Conserved(c, s) by { InvariantConserves(c, r0, s); }
      BatchHasFields(c, s);
      IndexAnsweredStep(c, r0, events);
    } else {
      StartAnswered(c, r0);
    }
  }

  lemma StartAnswered(c: Config, r0: Redis)
    ensures IndexAnswered(c, r0, [])
  {
  }

  lemma InvariantConserves(c: Config, r0: Redis, s: State)
    requires Invariant(c, r0, s)
    ensures Conserved(c, s)
  {
  }

  lemma FieldsBefore(c: Config, s: State, e: Event)
    requires Enabled(c, s, e) && NoEmptyOps(Ops(c.parse, Next(c, s, e).log))
    ensures NoEmptyOps(Ops(c.parse, s.log))
  {
    hide Next, Enabled, Ops;
    LogGrows(c, s, e);
  }

  // ---------------------------------------------------------------- indexed windows without a hash

  /**
   An indexed window lacks its hash exactly if it had none initially and every `hset` of it that Redis
   answered so far was rejected. No other command and no lost connection can cause it.
   */
  lemma MissingHashExactly(c: Config, r0: Redis, events: seq<Event>, kind: Kind, w: int)
    requires Legal(c, Start(r0), events) && IndexBacked(r0)
    requires NoEmptyOps(Ops(c.parse, After(c, r0, events).log))
    requires w in After(c, r0, events).redis.Index(kind)
    ensures var key := HashKey(kind, w);
      !HasHash(After(c, r0, events).redis.hashes, key)
      <==> !HasHash(r0.hashes, key) && HSetRejected(c, r0, events, key) && !HSetRan(c, r0, events, key)
  {
    hide Next, Enabled, Ops, HasHash, NoEmptyOps, AnswersHSet, Run, Legal;
    var key := HashKey(kind, w);
    HashExists(c, r0, events, key);
    IndexedWereAnswered(c, r0, events);
    if HSetReplies(c, Start(r0), events, key) != [] {
      RepliesAre(c, Start(r0), events, key);
    }
  }

  lemma {:induction false} RepliesAre(c: Config, start: State, events: seq<Event>, key: HashKey)
    requires Legal(c, start, events)
    ensures forall e :: e in HSetReplies(c, start, events, key) ==> e.RunCommand? || e.RejectCommand?
    ensures HSetReplies(c, start, events, key) != [] ==>
      RunCommand in HSetReplies(c, start, events, key) || RejectCommand in HSetReplies(c, start, events, key)
    decreases |events|
  {
    hide Next, Enabled;
    if events != [] {
      RepliesAre(c, start, events[..|events| - 1], key);
    }
  }

  /**
   Every indexed window has a hash if and only if each of them that had an `hset` rejected had a hash
   initially or has also had an `hset` that ran.
   */
  lemma IndexedWindowsHaveHashes(c: Config, r0: Redis, events: seq<Event>)
    requires Legal(c, Start(r0), events) && IndexBacked(r0)
    requires NoEmptyOps(Ops(c.parse, After(c, r0, events).log))
    ensures var r := After(c, r0, events).redis;
      IndexBacked(r) <==>
        forall kind, w :: w in r.Index(kind) && HSetRejected(c, r0, events, HashKey(kind, w)) ==>
          HasHash(r0.hashes, HashKey(kind, w)) || HSetRan(c, r0, events, HashKey(kind, w))
  {
    hide Next, Enabled, Ops, HasHash, NoEmptyOps, Run, Legal, HSetRejected, HSetRan;
    var r := After(c, r0, events).redis;
    forall kind, w | w in r.Index(kind)
      ensures HasHash(r.hashes, HashKey(kind, w)) <==>
        (HSetRejected(c, r0, events, HashKey(kind, w)) ==>
          HasHash(r0.hashes, HashKey(kind, w)) || HSetRan(c, r0, events, HashKey(kind, w)))
    {
      MissingHashExactly(c, r0, events, kind, w);
    }
  }

  /** Rejected commands cannot leave an indexed window without a hash beyond the next successful flush. */
  lemma FlushRestoresHashes(c: Config, r0: Redis, events: seq<Event>)
    requires Legal(c, Start(r0), events) && After(c, r0, events).phase.Committing?
    requires IndexBacked(r0) && NoEmptyOps(After(c, r0, events).flushed)
    ensures IndexBacked(After(c, r0, events).redis)
  {
    var s := After(c, r0, events);
    FlushRefinesFold(c, r0, events);
    hide Next, Enabled, Run, Legal, LastWrite;
    forall kind, w | w in s.redis.Index(kind) ensures HasHash(s.redis.hashes, HashKey(kind, w)) {
      if w in r0.Index(kind) {
        var slot :| slot in r0.hashes && slot.key == HashKey(kind, w);
        assert slot in s.redis.hashes;
      } else {
        var op :| op in s.flushed && op.kind == kind && op.window == w;
        var f :| f in op.fields;
        assert Slot(HashKey(kind, w), f) in OpWrites(op);
        LastWriteExists(s.flushed, Slot(HashKey(kind, w), f));
      }
    }
  }

  // ---------------------------------------------------------------- reads that race with flushes

  lemma {:induction false} PrefixLegal(c: Config, start: State, events: seq<Event>, k: nat)
    requires Legal(c, start, events) && k <= |events|
    ensures Legal(c, start, events[..k])
    ensures forall key :: HSetReplies(c, start, events[..k], key) <= HSetReplies(c, start, events, key)
    ensures forall op ::
        op in Ops(c.parse, Run(c, start, events[..k]).log) ==> op in Ops(c.parse, Run(c, start, events).log)
    decreases |events|
  {
    hide Next, Enabled, AnswersHSet, Ops;
    if k == |events| {
      assert events[..k] == events;
    } else {
      var init := events[..|events| - 1];
      PrefixLegal(c, start, init, k);
      assert init[..k] == events[..k];
      LogGrows(c, Run(c, start, init), events[|events| - 1]);
    }
  }

  /**
   A reader takes its ids after `k` events of a run and fetches a hash at its end. A listed window is found
   exactly if it had a hash initially or one of its `hset`s has run by then; and that is so for every
   listed window none of whose `hset`s had been rejected when the ids were taken.
   */
  lemma ReadFindsEveryWindow(c: Config, r0: Redis, events: seq<Event>, k: nat, kind: Kind, limit: nat, w: int)
    requires k <= |events| && Legal(c, Start(r0), events) && Legal(c, Start(r0), events[..k]) && IndexBacked(r0)
    requires NoEmptyOps(Ops(c.parse, After(c, r0, events[..k]).log))
    requires w in ZRevRange(After(c, r0, events[..k]).redis.Index(kind), limit)
    ensures var key := HashKey(kind, w);
      && (HasHash(After(c, r0, events).redis.hashes, key) <==> HasHash(r0.hashes, key) || HSetRan(c, r0, events, key))
      && (!HSetRejected(c, r0, events[..k], key) ==> HasHash(After(c, r0, events).redis.hashes, key))
  {
    hide Next, Enabled, Ops, HasHash, ZRevRange, Run, Legal, NoEmptyOps, HSetReplies;
    var key := HashKey(kind, w);
    var index := After(c, r0, events[..k]).redis.Index(kind);
    ZRevRangeListsTop(index, limit);
    assert w in Top(limit, index);
    PrefixLegal(c, Start(r0), events, k);
    HashExists(c, r0, events, key);
    HashExists(c, r0, events[..k], key);
    MissingHashExactly(c, r0, events[..k], kind, w);
  }

  /** The i-th hash was fetched after `stops[i]` events, not before the ids were taken. */
  ghost predicate FetchedAt(
    c: Config, r0: Redis, events: seq<Event>, k: nat, stops: seq<nat>, fetched: seq<map<Slot, Value>>)
  {
    && |fetched| == |stops|
    && forall i :: 0 <= i < |stops| ==> FetchAt(c, r0, events, k, stops[i], fetched[i])
  }

  ghost predicate FetchAt(c: Config, r0: Redis, events: seq<Event>, k: nat, stop: nat, hashes: map<Slot, Value>) {
    k <= stop <= |events| && Legal(c, Start(r0), events[..stop])
    && hashes == After(c, r0, events[..stop]).redis.hashes
  }

  ghost predicate HSetRanBy(c: Config, r0: Redis, events: seq<Event>, stop: nat, key: HashKey) {
    stop <= |events| && Legal(c, Start(r0), events[..stop]) && HSetRan(c, r0, events[..stop], key)
  }

  /**
   A whole `_get_last_windows` during a run, its ids taken after `k` events and its hashes at later stops:
   it returns exactly the listed windows if and only if each of them had a hash initially or an `hset` that
   ran before its fetch. With no rejected `hset` of a listed window before the ids were taken, it always does.
   */
  lemma WholeReadReturnsListed(
    c: Config, r0: Redis, events: seq<Event>, k: nat, isFloat: string -> bool, kind: Kind, limit: nat,
    stops: seq<nat>, fetched: seq<map<Slot, Value>>)
    requires k <= |events| && Legal(c, Start(r0), events[..k]) && IndexBacked(r0)
    requires NoEmptyOps(Ops(c.parse, After(c, r0, events[..k]).log))
    requires FetchedAt(c, r0, events, k, stops, fetched)
    requires |stops| == |ZRevRange(After(c, r0, events[..k]).redis.Index(kind), limit)|
    ensures var ids := ZRevRange(After(c, r0, events[..k]).redis.Index(kind), limit);
      && (WindowsOf(Rows(isFloat, kind, ids, fetched)) == ids <==>
            forall i :: 0 <= i < |ids| ==>
              HasHash(r0.hashes, HashKey(kind, ids[i])) || HSetRanBy(c, r0, events, stops[i], HashKey(kind, ids[i])))
      && ((forall i :: 0 <= i < |ids| ==> !HSetRejected(c, r0, events[..k], HashKey(kind, ids[i]))) ==>
            WindowsOf(Rows(isFloat, kind, ids, fetched)) == ids)
  {
    hide Next, Enabled, Ops, HasHash, ZRevRange, Run, Legal, NoEmptyOps, Rows, WindowsOf;
    hide HSetRan, HSetRejected, IndexBacked;
    var ids := ZRevRange(After(c, r0, events[..k]).redis.Index(kind), limit);
    forall i | 0 <= i < |ids|
      ensures HasHash(fetched[i], HashKey(kind, ids[i])) <==>
        HasHash(r0.hashes, HashKey(kind, ids[i])) || HSetRanBy(c, r0, events, stops[i], HashKey(kind, ids[i]))
      ensures !HSetRejected(c, r0, events[..k], HashKey(kind, ids[i])) ==> HasHash(fetched[i], HashKey(kind, ids[i]))
    {
      assert FetchAt(c, r0, events, k, stops[i], fetched[i]);
      assert events[..stops[i]][..k] == events[..k];
      ReadFindsEveryWindow(c, r0, events[..stops[i]], k, kind, limit, ids[i]);
    }
    RowsCoverIds(isFloat, kind, ids, fetched);
  }

  /** The real parser never makes an operation without fields. */
  lemma {:induction false} ParsedOpsHaveFields(env: Env, log: seq<Message>)
    ensures NoEmptyOps(Ops(m => ParseMessage(env, m), log))
    decreases |log|
  {
    hide ParseMessage;
    if log != [] {
      ParsedOpsHaveFields(env, log[..|log| - 1]);
      if ParseMessage(env, log[|log| - 1]).Accepted? {
        var tag := ParsedWritesFootprint(env, log[|log| - 1]);
      }
    }
  }

  /** With the real parser: a window is listed but not found only after Redis rejected its `hset`, and never ran one. */
  lemma ParsedWindowsAreFound(
    c: Config, env: Env, r0: Redis, events: seq<Event>, k: nat, kind: Kind, limit: nat, w: int)
    requires c.parse == (m => ParseMessage(env, m)) && IndexBacked(r0)
    requires k <= |events| && Legal(c, Start(r0), events) && Legal(c, Start(r0), events[..k])
    requires w in ZRevRange(After(c, r0, events[..k]).redis.Index(kind), limit)
    ensures HasHash(After(c, r0, events).redis.hashes, HashKey(kind, w)) <==>
      (HSetRejected(c, r0, events[..k], HashKey(kind, w)) ==>
        HasHash(r0.hashes, HashKey(kind, w)) || HSetRan(c, r0, events, HashKey(kind, w)))
  {
    hide Next, Enabled, Ops, HasHash, ZRevRange, Run, Legal, NoEmptyOps, HSetRan, HSetRejected, ParseMessage;
    ParsedOpsHaveFields(env, After(c, r0, events[..k]).log);
    ReadFindsEveryWindow(c, r0, events, k, kind, limit, w);
  }

  // ---------------------------------------------------------------- the gap, reached

  /**
   One message is enough: Redis rejects its `hset` and runs its `zadd`. The window is then in the index,
   has no hash, and a read that lists it shows no row for it.
   */
  lemma RejectedHSetLeavesGap(c: Config, r0: Redis, m: Message, op: Operation, isFloat: string -> bool)
    returns (events: seq<Event>)
    requires c.parse(m) == Accepted(op) && !HasHash(r0.hashes, HashKey(op.kind, op.window))
    ensures Legal(c, Start(r0), events)
    ensures var r := After(c, r0, events).redis;
      && op.window in r.Index(op.kind) && !HasHash(r.hashes, HashKey(op.kind, op.window))
      && Rows(isFloat, op.kind, [op.window], [r.hashes]) == []
  {
    hide Legal, Run, Commands, HasHash, Touched, TrimBySize;
    CommandsOfOne(op);
    var s := Start(r0);
    NoSteps(c, s);
    events := [];
    Extend(c, Start(r0), events, s, Deliver(m));
    s, events := Next(c, s, Deliver(m)), events + [Deliver(m)];
    var due := Enter(if c.timeout > 0.0 then c.timeout else 0.0);
    Extend(c, Start(r0), events, s, due);
    s, events := Next(c, s, due), events + [due];
    assert s.batch == [op] && s.phase == Executing(0, false, false) && s.redis == r0;
    Extend(c, Start(r0), events, s, RejectCommand);
    s, events := Next(c, s, RejectCommand), events + [RejectCommand];
    Extend(c, Start(r0), events, s, RunCommand);
    s, events := Next(c, s, RunCommand), events + [RunCommand];
    Extend(c, Start(r0), events, s, RunCommand);
    s, events := Next(c, s, RunCommand), events + [RunCommand];
    NoRow(isFloat, op, s.redis.hashes);
  }

  lemma NoRow(isFloat: string -> bool, op: Operation, hashes: map<Slot, Value>)
    requires !HasHash(hashes, HashKey(op.kind, op.window))
    ensures Rows(isFloat, op.kind, [op.window], [hashes]) == []
  {
    hide HasHash, HashOf;
    HasHashNonEmpty(hashes, HashKey(op.kind, op.window));
    assert [op.window][..0] == [] && [hashes][..0] == [];
  }
}

/** CacheRepository over a Redis that may fail at any command (services/cache/.../redis/repository.py). */
module Repository {
  import opened Wrappers
  import opened TopN
  import opened CacheModel
  import opened CacheProtocol
  import opened FlushSteps
  import opened KeySpace

  /** The hash stored under `key`; empty exactly when Redis has no such key. */
  function HashOf(hashes: map<Slot, Value>, key: HashKey): map<string, Value> {
    map slot | slot in hashes && slot.key == key :: slot.field := hashes[slot]
  }

  /** The server. Its methods are single round trips, except that a pipeline is many commands in one. */
  class RedisServer {
    var hashes: map<Slot, Value>
    var events: set<int>
    var perfs: set<int>

    function Store(): Redis
      reads this
    {
      Redis(hashes, events, perfs)
    }

    method Load(r: Redis)
      modifies this
      ensures Store() == r
    {
      hashes, events, perfs := r.hashes, r.events, r.perfs;
    }

    /** Any other traffic between two round trips of a reader: flushes add fields and move the indices. */
    method OtherClients()
      modifies this
      ensures old(hashes).Keys <= hashes.Keys
    {
      if * {
        var writes: map<Slot, Value> := *;
        hashes := hashes + writes;
        events := *;
        perfs := *;
      }
    }

    /** A round trip for one command, or an exception before or after the server ran it. */
    method Call(cmd: Command) returns (ok: bool, ghost effects: seq<Effect>)
      modifies this
      ensures ok ==> effects == [Ran(cmd)]
      ensures effects == [] || effects == [Ran(cmd)]
      ensures Store() == if effects == [] then old(Store()) else Execute(old(Store()), cmd)
    {
      if * { return false, []; }
      Load(Execute(Store(), cmd));
      ok := *;
      effects := [Ran(cmd)];
    }

    /**
     `pipe.execute()` with `transaction=False`: the server may reject any command and go on, or the
     connection may break anywhere; success means every command ran.
     */
    method ExecutePipeline(pipe: seq<Command>, ghost n: nat)
      returns (ok: bool, ghost effects: seq<Effect>, ghost replies: seq<Event>, ghost lost: bool)
      modifies this
      ensures forall e :: e in effects ==> Allowed(e, pipe)
      ensures Store() == RunEffects(n, old(Store()), effects)
      ensures ok ==> hashes == old(hashes) + Writes(pipe)
      ensures ok ==> forall kind :: Store().Index(kind) == old(Store()).Index(kind) + Touched(kind, pipe)
      ensures AreReplies(replies) && |replies| <= |pipe| && (!lost ==> |replies| == |pipe|)
      ensures Store() == Replied(old(Store()), pipe, replies)
      ensures ok <==> !lost && RejectCommand !in replies
      ensures ok ==> effects == AllRan(pipe)
    {
      hide Touched, Writes, Execute, AllRan, Replied, RunEffects, Allowed;
      NothingSent(n, Store(), pipe);
      effects, replies := [], [];
      var rejected := false;
      for i := 0 to |pipe|
        invariant forall e :: e in effects ==> Allowed(e, pipe)
        invariant Store() == RunEffects(n, old(Store()), effects)
        invariant !rejected ==> hashes == old(hashes) + Writes(pipe[..i])
        invariant !rejected ==>
          forall kind :: Store().Index(kind) == old(Store()).Index(kind) + Touched(kind, pipe[..i])
        invariant |replies| == i && AreReplies(replies) && (rejected <==> RejectCommand in replies)
        invariant Store() == Replied(old(Store()), pipe, replies)
        invariant !rejected ==> effects == AllRan(pipe[..i])
      {
        if * { return false, effects, replies, true; }
        ghost var before := Store();
        if * {
          rejected := true;
          RepliesSnoc(old(Store()), pipe, replies, RejectCommand);
          replies := replies + [RejectCommand];
        } else {
          Load(Execute(Store(), pipe[i]));
          EffectsSnoc(n, old(Store()), effects, Ran(pipe[i]));
          OneMoreRan(n, before, pipe, i);
          effects := effects + [Ran(pipe[i])];
          RepliesSnoc(old(Store()), pipe, replies, RunCommand);
          replies := replies + [RunCommand];
          if !rejected { PipelineStep(old(Store()), pipe, i, before); }
        }
      }
      assert pipe[..|pipe|] == pipe;
      var broken := *;
      ok, lost := !rejected && !broken, broken;
    }

    method ZCard(kind: Kind) returns (ok: bool, size: nat)
      ensures ok ==> size == |Store().Index(kind)|
    {
      ok, size := *, |Store().Index(kind)|;
    }

    /** `zremrangebyrank key 0 last`. */
    method ZRemRangeByRank(kind: Kind, last: nat) returns (ok: bool, ghost removed: bool)
      modifies this
      ensures ok ==> removed
      ensures Store() == if removed
                         then old(Store()).WithIndex(kind, DropLowest(last + 1, old(Store()).Index(kind)))
                         else old(Store())
    {
      if * { return false, false; }
      Load(Store().WithIndex(kind, DropLowest(last + 1, Store().Index(kind))));
      ok, removed := *, true;
    }
  }

  /** Every command, once and in order. */
  function AllRan(pipe: seq<Command>): seq<Effect> {
    seq(|pipe|, i requires 0 <= i < |pipe| => Ran(pipe[i]))
  }

  lemma NothingSent(n: nat, r: Redis, pipe: seq<Command>)
    ensures RunEffects(n, r, []) == r && Replied(r, pipe, []) == r
    ensures AllRan(pipe[..0]) == [] && r.hashes + Writes(pipe[..0]) == r.hashes
    ensures forall kind :: r.Index(kind) + Touched(kind, pipe[..0]) == r.Index(kind)
  {
    assert pipe[..0] == [];
    TouchedByNothing();
  }

  lemma OneMoreRan(n: nat, r: Redis, pipe: seq<Command>, i: nat)
    requires i < |pipe|
    ensures AllRan(pipe[..i + 1]) == AllRan(pipe[..i]) + [Ran(pipe[i])]
    ensures Allowed(Ran(pipe[i]), pipe) && RunEffect(n, r, Ran(pipe[i])) == Execute(r, pipe[i])
  {
  }

  lemma RepliesSnoc(r: Redis, pipe: seq<Command>, replies: seq<Event>, e: Event)
    requires |replies| < |pipe|
    ensures Replied(r, pipe, replies + [e]) ==
      if e.RunCommand? then Execute(Replied(r, pipe, replies), pipe[|replies|]) else Replied(r, pipe, replies)
  {
    assert (replies + [e])[..|replies|] == replies;
  }

  lemma EffectsSnoc(n: nat, r: Redis, effects: seq<Effect>, e: Effect)
    ensures RunEffects(n, r, effects + [e]) == RunEffect(n, RunEffects(n, r, effects), e)
  {
    assert (effects + [e])[..|effects + [e]| - 1] == effects;
  }

  lemma {:induction false} EffectsConcat(n: nat, r: Redis, a: seq<Effect>, b: seq<Effect>)
    ensures RunEffects(n, r, a + b) == RunEffects(n, RunEffects(n, r, a), b)
    decreases |b|
  {
    if b == [] {
      assert a + b == a;
    } else {
      var init := b[..|b| - 1];
      EffectsConcat(n, r, a, init);
      assert (a + b)[..|a + b| - 1] == a + init;
    }
  }

  lemma PipelineStep(r: Redis, pipe: seq<Command>, i: nat, before: Redis)
    requires i < |pipe|
    requires before.hashes == r.hashes + Writes(pipe[..i])
    requires forall kind :: before.Index(kind) == r.Index(kind) + Touched(kind, pipe[..i])
    ensures var after := Execute(before, pipe[i]);
      && after.hashes == r.hashes + Writes(pipe[..i + 1])
      && (forall kind :: after.Index(kind) == r.Index(kind) + Touched(kind, pipe[..i + 1]))
  {
    hide Touched, CommandWrites;
    var after := Execute(before, pipe[i]);
    assert pipe[..i + 1][..i] == pipe[..i] && pipe[..i + 1][i] == pipe[i];
    MergeAssociative(r.hashes, Writes(pipe[..i]), CommandWrites(pipe[i]));
    assert after.hashes == before.hashes + CommandWrites(pipe[i]) by { HashesAfter(before, pipe[i]); }
    forall kind: Kind ensures after.Index(kind) == r.Index(kind) + Touched(kind, pipe[..i + 1]) {
      TouchedSnoc(kind, pipe, i);
    }
  }

  class CacheRepository {
    const r: RedisServer
    const retention: nat

    constructor (r: RedisServer, retention: nat)
      ensures this.r == r && this.retention == retention
    {
      this.r, this.retention := r, retention;
    }

    /** `_trim_index`. It may fail in either round trip, before or after the removal took effect. */
    method TrimIndex(kind: Kind) returns (ok: bool, ghost trimmed: bool)
      modifies r
      ensures ok ==> trimmed
      ensures r.Store() == if trimmed then Trim(retention, old(r.Store()), kind) else old(r.Store())
    {
      hide Top, DropLowest;
      var size;
      ok, size := r.ZCard(kind);
      trimmed := false;
      if !ok { return; }
      TopSize(retention, r.Store().Index(kind));
      if size > retention {
        var excess: nat := size - retention;
        DropExcessIsTop(retention, r.Store().Index(kind));
        ok, trimmed := r.ZRemRangeByRank(kind, excess - 1);
      } else {
        trimmed := true;
      }
    }

    /**
     `pipeline_apply`. On success the store is what applying the batch once should give. On an exception
     it is whatever some of the batch's own commands and trims made of it. Either way the attempt is a run of
     the pipeline's state machine, from any state `s` that is about to flush this batch to this store.
     */
    method PipelineApply(ops: seq<Operation>, ghost c: Config, ghost s: State)
      returns (ok: bool, ghost effects: seq<Effect>, ghost steps: seq<Event>)
      requires c.retention == retention && s.batch == ops && s.redis == r.Store()
      requires s.phase.Executing? && s.phase.next == 0 && !s.phase.rejected
      modifies r
      ensures forall e :: e in effects ==> Allowed(e, Commands(ops))
      ensures r.Store() == RunEffects(retention, old(r.Store()), effects)
      ensures ok ==> r.Store() == Applied(retention, old(r.Store()), Commands(ops))
      ensures ok ==> effects == AllRan(Commands(ops)) + TrimsFor(ops)
      ensures Legal(c, s, steps)
      ensures Run(c, s, steps) ==
        (var t := s.(redis := r.Store());
         if ok then t.(phase := Persisted(s.phase.final)) else FailFlush(t, s.phase.final))
    {
      hide Top, Touched, Writes, OpCommands, Applied, Trim, Legal, Run, RunEffects, Replied, Allowed, TrimsFor, Windows;
      hide AllRan;
      ghost var r0 := r.Store();
      if ops == [] {
        EmptyBatchApplied(c, s, r0);
        NoOpsNoEffects();
        return true, [], [FinishPipeline];
      }
      var pipe, sawEvent, sawPerf := QueueCommands(ops);
      ghost var replies, lost;
      ok, effects, replies, lost := r.ExecutePipeline(pipe, retention);
      PipelineRun(c, s, replies, lost);
      steps := replies + [PipelineEnd(lost)];
      if !ok { return; }
      ghost var ran := r.Store();
      ghost var trimmed;
      if sawEvent {
        ok, trimmed := TrimIndex(EventKind);
        TrimmedEffect(retention, r0, effects, EventKind, trimmed, pipe);
        effects := effects + TrimEffects(EventKind, trimmed);
        TrimStep(c, s, steps, ran, EventKind, ok, trimmed);
        steps := steps + TrimEvents(ok, trimmed);
        if !ok { return; }
      }
      ghost var mid := r.Store();
      if sawPerf {
        ok, trimmed := TrimIndex(PerfKind);
        TrimmedEffect(retention, r0, effects, PerfKind, trimmed, pipe);
        effects := effects + TrimEffects(PerfKind, trimmed);
        TrimStep(c, s, steps, mid, PerfKind, ok, trimmed);
        steps := steps + TrimEvents(ok, trimmed);
        if !ok { return; }
      }
      TrimsComplete(retention, r0, pipe, ran, r.Store(), sawEvent, sawPerf);
      TrimsForPipe(ops, sawEvent, sawPerf);
    }

    /** The loop over the operations: three commands each, and which indices they touch. */
    method QueueCommands(ops: seq<Operation>) returns (pipe: seq<Command>, sawEvent: bool, sawPerf: bool)
      ensures pipe == Commands(ops)
      ensures sawEvent <==> Touched(EventKind, pipe) != {}
      ensures sawPerf <==> Touched(PerfKind, pipe) != {}
    {
      hide Touched, OpCommands;
      pipe, sawEvent, sawPerf := [], false, false;
      assert forall kind :: Touched(kind, []) == {} by { TouchedByNothing(); }
      for i := 0 to |ops|
        invariant pipe == Commands(ops[..i])
        invariant sawEvent <==> Touched(EventKind, pipe) != {}
        invariant sawPerf <==> Touched(PerfKind, pipe) != {}
      {
        assert ops[..i + 1][..i] == ops[..i];
        WritesOfOp(pipe, ops[i]);
        if ops[i].kind.EventKind? { sawEvent := true; } else { sawPerf := true; }
        pipe := pipe + OpCommands(ops[i]);
      }
      assert ops[..|ops|] == ops;
    }

    /** `store_event_window` and `store_performance_window`: the same commands in separate round trips. */
    method StoreWindow(kind: Kind, window: int, fields: map<string, Value>)
      returns (ok: bool, ghost effects: seq<Effect>)
      modifies r
      ensures var cmds := OpCommands(Operation(kind, window, fields));
        && (forall e :: e in effects ==> Allowed(e, cmds))
        && r.Store() == RunEffects(retention, old(r.Store()), effects)
        && (ok ==> r.Store() == Applied(retention, old(r.Store()), cmds))
      ensures ok ==> var key := HashKey(kind, window);
        effects == [Ran(HSet(key, fields)), Ran(Expire(key)), Ran(ZAdd(kind, window)), Trimmed(kind)]
    {
      var op := Operation(kind, window, fields);
      ghost var r0 := r.Store();
      ghost var more;
      var key := HashKey(kind, window);
      TouchedByOp(op);
      ok, effects := r.Call(HSet(key, fields));
      assert [Ran(HSet(key, fields))][..0] == [];
      if !ok { return; }
      ok, more := r.Call(Expire(key));
      EffectsConcat(retention, r0, effects, more);
      effects := effects + more;
      if !ok { return; }
      ok, more := r.Call(ZAdd(kind, window));
      assert [Ran(ZAdd(kind, window))][..0] == [];
      EffectsConcat(retention, r0, effects, more);
      effects := effects + more;
      if !ok { return; }
      ghost var ran := r.Store();
      ghost var trimmed;
      ok, trimmed := TrimIndex(kind);
      TrimmedEffect(retention, r0, effects, kind, trimmed, OpCommands(op));
      effects := effects + TrimEffects(kind, trimmed);
      if !ok { return; }
      TrimsComplete(retention, r0, OpCommands(op), ran, r.Store(), kind.EventKind?, kind.PerfKind?);
    }
  }

  /** One trim of each index that the operations touch, events first. */
  function TrimsFor(ops: seq<Operation>): seq<Effect> {
    (if Windows(EventKind, ops) != {} then [Trimmed(EventKind)] else [])
    + (if Windows(PerfKind, ops) != {} then [Trimmed(PerfKind)] else [])
  }

  lemma TrimsForPipe(ops: seq<Operation>, sawEvent: bool, sawPerf: bool)
    requires sawEvent <==> Touched(EventKind, Commands(ops)) != {}
    requires sawPerf <==> Touched(PerfKind, Commands(ops)) != {}
    ensures TrimsFor(ops) ==
      (if sawEvent then [Trimmed(EventKind)] else []) + (if sawPerf then [Trimmed(PerfKind)] else [])
  {
    TouchedAreWindows(EventKind, ops);
    TouchedAreWindows(PerfKind, ops);
  }

  lemma NoOpsNoEffects()
    ensures AllRan(Commands([])) + TrimsFor([]) == []
  {
  }

  /** The trace a trim leaves, if it took effect. */
  function TrimEffects(kind: Kind, trimmed: bool): seq<Effect> {
    if trimmed then [Trimmed(kind)] else []
  }

  lemma TrimmedEffect(n: nat, r: Redis, effects: seq<Effect>, kind: Kind, trimmed: bool, pipe: seq<Command>)
    requires Touched(kind, pipe) != {} && forall e :: e in effects ==> Allowed(e, pipe)
    ensures forall e :: e in effects + TrimEffects(kind, trimmed) ==> Allowed(e, pipe)
    ensures RunEffects(n, r, effects + TrimEffects(kind, trimmed))
         == if trimmed then Trim(n, RunEffects(n, r, effects), kind) else RunEffects(n, r, effects)
  {
    hide Trim, Touched;
    if trimmed {
      EffectsSnoc(n, r, effects, Trimmed(kind));
    } else {
      assert effects + [] == effects;
    }
  }

  /** A flush that has come to the trim of `kind` goes through it. */
  lemma TrimStep(
    c: Config, s: State, steps: seq<Event>, before: Redis, kind: Kind, ok: bool, trimmed: bool)
    requires Legal(c, s, steps) && s.phase.Executing? && (ok ==> trimmed)
    requires Run(c, s, steps) == s.(redis := before, phase := Counting(kind, s.phase.final))
    ensures Legal(c, s, steps + TrimEvents(ok, trimmed))
    ensures Run(c, s, steps + TrimEvents(ok, trimmed)) ==
      (var t := s.(redis := if trimmed then Trim(c.retention, before, kind) else before);
       if ok then AfterTrim(t, kind, s.phase.final) else FailFlush(t, s.phase.final))
  {
    hide Legal, Run, Trim, TrimEvents, Touched, Commands;
    TrimRun(c, Run(c, s, steps), ok, trimmed);
    RunConcat(c, s, steps, TrimEvents(ok, trimmed));
  }

  lemma EmptyBatchApplied(c: Config, s: State, r: Redis)
    requires s.batch == [] && s.phase.Executing? && s.phase.next == 0 && !s.phase.rejected
    ensures Legal(c, s, [FinishPipeline])
    ensures Run(c, s, [FinishPipeline]) == s.(phase := Persisted(s.phase.final))
    ensures r == Applied(c.retention, r, Commands([])) && RunEffects(c.retention, r, []) == r
  {
    hide Legal, Run, Applied, Touched;
    CommandsOfNothing();
    TouchedByNothing();
    AppliedNothing(c.retention, r);
    OneStep(c, s, FinishPipeline);
  }

  lemma TouchedByOp(op: Operation)
    ensures Writes(OpCommands(op)) == OpWrites(op)
    ensures forall kind :: Touched(kind, OpCommands(op)) == if kind == op.kind then {op.window} else {}
  {
    WritesOfOp([], op);
    assert [] + OpCommands(op) == OpCommands(op);
    TouchedByNothing();
    assert Writes([]) + OpWrites(op) == OpWrites(op);
  }

  /** Running everything and trimming what was touched is applying the batch. */
  lemma TrimsComplete(n: nat, r0: Redis, pipe: seq<Command>, ran: Redis, now: Redis, sawEvent: bool, sawPerf: bool)
    requires ran.hashes == r0.hashes + Writes(pipe)
    requires forall kind :: ran.Index(kind) == r0.Index(kind) + Touched(kind, pipe)
    requires sawEvent == (Touched(EventKind, pipe) != {}) && sawPerf == (Touched(PerfKind, pipe) != {})
    requires var mid := if sawEvent then Trim(n, ran, EventKind) else ran;
      now == if sawPerf then Trim(n, mid, PerfKind) else mid
    ensures now == Applied(n, r0, pipe)
  {
    hide Top, Touched, Writes;
    assert ran.Index(EventKind) == ran.events && ran.Index(PerfKind) == ran.perfs;
    assert r0.Index(EventKind) == r0.events && r0.Index(PerfKind) == r0.perfs;
    assert r0.events + {} == r0.events && r0.perfs + {} == r0.perfs;
  }

  // ---------------------------------------------------------------- readers

  /** One returned window; its measures are what `_convert_types` made of the hash. */
  datatype Row = Row(window: int, cells: map<string, Cell>)

  function ConvertAll(isFloat: string -> bool, data: map<string, Value>): map<string, Cell> {
    map k | k in data :: Convert(isFloat, Encode(data[k]))
  }

  /** The rows for `ids` when the hash of `ids[i]` is fetched from `fetched[i]`; missing hashes are skipped. */
  function Rows(isFloat: string -> bool, kind: Kind, ids: seq<int>, fetched: seq<map<Slot, Value>>): seq<Row>
    requires |ids| == |fetched|
  {
    if ids == [] then []
    else
      var last := |ids| - 1;
      var data := HashOf(fetched[last], HashKey(kind, ids[last]));
      Rows(isFloat, kind, ids[..last], fetched[..last]) +
      (if data == map[] then [] else [Row(ids[last], ConvertAll(isFloat, data))])
  }

  function WindowsOf(rows: seq<Row>): seq<int> {
    seq(|rows|, i requires 0 <= i < |rows| => rows[i].window)
  }

  /** The order in which values are converted does not matter; `_convert_types` fills `out` key by key. */
  method ConvertTypes(isFloat: string -> bool, data: map<string, Value>) returns (out: map<string, Cell>)
    ensures out == ConvertAll(isFloat, data)
  {
    out := map[];
    var todo := data.Keys;
    while todo != {}
      invariant todo <= data.Keys
      invariant out.Keys == data.Keys - todo
      invariant forall k :: k in out ==> out[k] == Convert(isFloat, Encode(data[k]))
      decreases |todo|
    {
      hide Convert, Encode;
      var k :| k in todo;
      out := out[k := Convert(isFloat, Encode(data[k]))];
      todo := todo - {k};
    }
  }

  /**
   How many ids `zrevrange key 0 (limit - 1)` answers at most. A negative end counts from the last rank, so
   limit 0 asks for everything and a negative limit for all but the lowest ones.
   */
  function RequestedCount(limit: int, size: nat): nat {
    if limit >= 1 then limit else if size + limit > 0 then size + limit else 0
  }

  /** A positive limit lists exactly that many of the largest windows, or all there are. */
  lemma PositiveLimit(index: set<int>, limit: int)
    requires limit >= 1
    ensures var ids := ZRevRange(index, RequestedCount(limit, |index|));
      |ids| == Min(limit, |index|) && Lists(ids, Top(limit, index))
  {
    hide Top, ZRevRange, Lists;
    ZRevRangeListsTop(index, limit);
    TopSize(limit, index);
    ListsSize(ZRevRange(index, limit), Top(limit, index));
  }

  /** A limit of 0 or less drops exactly that many of the smallest windows. */
  lemma NonPositiveLimit(index: set<int>, limit: int)
    requires limit <= 0
    ensures var ids := ZRevRange(index, RequestedCount(limit, |index|));
      && |ids| == RequestedCount(limit, |index|)
      && Lists(ids, if -limit <= |index| then DropLowest(-limit, index) else {})
  {
    hide Top, DropLowest, ZRevRange, Lists;
    var count := RequestedCount(limit, |index|);
    ZRevRangeListsTop(index, count);
    TopSize(count, index);
    ListsSize(ZRevRange(index, count), Top(count, index));
    if limit == 0 {
      NothingDropped(index);
    } else if -limit <= |index| {
      DropExcessIsTop(count, index);
    } else {
      assert Top(0, index) == {} by { TopOfNone(index); }
    }
  }

  lemma NothingDropped(index: set<int>)
    ensures DropLowest(0, index) == index
  {
  }

  lemma TopOfNone(index: set<int>)
    ensures Top(0, index) == {}
  {
  }

  /** The rows seen so far grow by the hash just fetched, if there is one. */
  lemma RowsSnoc(
    isFloat: string -> bool, kind: Kind, ids: seq<int>, i: nat, fetched: seq<map<Slot, Value>>, now: map<Slot, Value>)
    requires i < |ids| && |fetched| == i
    ensures var data := HashOf(now, HashKey(kind, ids[i]));
      Rows(isFloat, kind, ids[..i + 1], fetched + [now]) ==
        Rows(isFloat, kind, ids[..i], fetched)
        + (if data == map[] then [] else [Row(ids[i], ConvertAll(isFloat, data))])
  {
    hide HashOf, ConvertAll;
    assert ids[..i + 1][..i] == ids[..i] && (fetched + [now])[..i] == fetched;
  }

  /** `hgetall` of one listed window and its row, if there is a hash. `None` is an exception. */
  method FetchRow(repo: CacheRepository, isFloat: string -> bool, kind: Kind, w: int)
    returns (row: Option<seq<Row>>)
    modifies repo.r
    ensures old(repo.r.hashes).Keys <= repo.r.hashes.Keys
    ensures row.Some? ==>
      var data := HashOf(repo.r.hashes, HashKey(kind, w));
      row.value == if data == map[] then [] else [Row(w, ConvertAll(isFloat, data))]
  {
    hide HashOf, ConvertAll;
    repo.r.OtherClients();
    if * { return None; }
    var data := HashOf(repo.r.hashes, HashKey(kind, w));
    if data == map[] { return Some([]); }
    var cells := ConvertTypes(isFloat, data);
    row := Some([Row(w, cells)]);
  }

  /**
   `_get_last_windows`: ids first, then one hash per round trip with other clients in between. Any round
   trip may raise; `None` is that exception, and no rows are returned with it. `fetched` names the hashes as
   they were at each fetch; no window ever disappears from them.
   */
  method GetLastWindows(repo: CacheRepository, isFloat: string -> bool, kind: Kind, limit: int)
    returns (results: Option<seq<Row>>, ghost fetched: seq<map<Slot, Value>>)
    modifies repo.r
    ensures var index := old(repo.r.Store()).Index(kind);
      var ids := ZRevRange(index, RequestedCount(limit, |index|));
      && |fetched| <= |ids|
      && (forall i :: 0 <= i < |fetched| ==> old(repo.r.hashes).Keys <= fetched[i].Keys)
      && (results.Some? ==> |fetched| == |ids| && results.value == Rows(isFloat, kind, ids, fetched))
  {
    hide ZRevRange, HashOf, ConvertAll, Rows;
    var r := repo.r;
    fetched := [];
    if * { return None, []; }
    var index := r.Store().Index(kind);
    var ids := ZRevRange(index, RequestedCount(limit, |index|));
    var rows := [];
    assert Rows(isFloat, kind, ids[..0], []) == [] by { NoRows(isFloat, kind, ids[..0]); }
    for i := 0 to |ids|
      invariant |fetched| == i && old(r.hashes).Keys <= r.hashes.Keys
      invariant forall j :: 0 <= j < i ==> old(r.hashes).Keys <= fetched[j].Keys
      invariant rows == Rows(isFloat, kind, ids[..i], fetched)
    {
      var row := FetchRow(repo, isFloat, kind, ids[i]);
      if row.None? { return None, fetched; }
      RowsSnoc(isFloat, kind, ids, i, fetched, r.hashes);
      fetched := fetched + [r.hashes];
      rows := rows + row.value;
    }
    assert ids[..|ids|] == ids;
    results := Some(rows);
  }

  lemma NoRows(isFloat: string -> bool, kind: Kind, ids: seq<int>)
    requires ids == []
    ensures Rows(isFloat, kind, ids, []) == []
  {
  }

  /**
   `get_latest_event_window`: the newest event window, if it is indexed and its hash is there. The outer
   `None` is an exception of one of the two round trips.
   */
  method GetLatestEventWindow(repo: CacheRepository, isFloat: string -> bool)
    returns (result: Option<Option<Row>>, ghost fetched: seq<map<Slot, Value>>)
    modifies repo.r
    ensures var ids := ZRevRange(old(repo.r.events), 1);
      && |fetched| <= |ids|
      && (forall i :: 0 <= i < |fetched| ==> old(repo.r.hashes).Keys <= fetched[i].Keys)
      && (result.Some? ==>
            |fetched| == |ids| && ToSeq(result.value) == Rows(isFloat, EventKind, ids, fetched))
  {
    hide ZRevRange, HashOf, ConvertAll, Rows;
    var r := repo.r;
    if * { return None, []; }
    var ids := ZRevRange(r.events, 1);
    assert |ids| <= 1 by { ZRevRangeListsTop(r.events, 1); }
    assert Rows(isFloat, EventKind, ids[..0], []) == [] by { NoRows(isFloat, EventKind, ids[..0]); }
    if ids == [] {
      assert ids[..0] == ids;
      return Some(None), [];
    }
    var row := FetchRow(repo, isFloat, EventKind, ids[0]);
    if row.None? { return None, []; }
    RowsSnoc(isFloat, EventKind, ids, 0, [], r.hashes);
    fetched := [] + [r.hashes];
    assert ids[..1] == ids;
    result := Some(if row.value == [] then None else Some(row.value[0]));
  }

  lemma WindowsSnoc(rows: seq<Row>, row: Row)
    ensures WindowsOf(rows + [row]) == WindowsOf(rows) + [row.window]
  {
  }

  lemma DescendingSnoc(ws: seq<int>, w: int)
    requires StrictlyDescending(ws) && forall x :: x in ws ==> x > w
    ensures StrictlyDescending(ws + [w])
  {
    forall i, j | 0 <= i < j < |ws| + 1 ensures (ws + [w])[i] > (ws + [w])[j] {
      assert (ws + [w])[i] in ws;
    }
  }

  /** Rows name some of the ids, in the ids' strictly descending order. */
  lemma {:induction false} RowsFollowIds(
    isFloat: string -> bool, kind: Kind, ids: seq<int>, fetched: seq<map<Slot, Value>>)
    requires |ids| == |fetched| && StrictlyDescending(ids)
    ensures var rows := Rows(isFloat, kind, ids, fetched);
      && |rows| <= |ids|
      && (forall w :: w in WindowsOf(rows) ==> w in ids)
      && StrictlyDescending(WindowsOf(rows))
    decreases |ids|
  {
    hide HashOf, ConvertAll, StrictlyDescending;
    if ids != [] {
      var last := |ids| - 1;
      var init := Rows(isFloat, kind, ids[..last], fetched[..last]);
      assert ids == ids[..last] + [ids[last]];
      DescendingInit(ids[..last], ids[last]);
      RowsFollowIds(isFloat, kind, ids[..last], fetched[..last]);
      var data := HashOf(fetched[last], HashKey(kind, ids[last]));
      assert init + [] == init;
      if data != map[] {
        WindowsSnoc(init, Row(ids[last], ConvertAll(isFloat, data)));
        DescendingSnoc(WindowsOf(init), ids[last]);
      }
    } else {
      assert StrictlyDescending([]) by { DescendingEmpty(); }
    }
  }

  lemma DescendingEmpty()
    ensures StrictlyDescending([])
  {
  }

  lemma DescendingInit(init: seq<int>, last: int)
    requires StrictlyDescending(init + [last])
    ensures StrictlyDescending(init)
    ensures forall x :: x in init ==> x > last
  {
    var all := init + [last];
    forall i, j | 0 <= i < j < |init| ensures init[i] > init[j] {
      assert all[i] == init[i] && all[j] == init[j];
    }
    forall i | 0 <= i < |init| ensures init[i] > last {
      assert all[i] == init[i] && all[|init|] == last;
    }
  }

  /** A row always has something to show. */
  lemma {:induction false} RowsAreNonEmpty(
    isFloat: string -> bool, kind: Kind, ids: seq<int>, fetched: seq<map<Slot, Value>>)
    requires |ids| == |fetched|
    ensures forall row :: row in Rows(isFloat, kind, ids, fetched) ==> row.cells != map[]
    decreases |ids|
  {
    hide HashOf, ConvertAll;
    if ids != [] {
      var last := |ids| - 1;
      RowsAreNonEmpty(isFloat, kind, ids[..last], fetched[..last]);
      var data := HashOf(fetched[last], HashKey(kind, ids[last]));
      if data != map[] { ConvertKeeps(isFloat, data); }
    }
  }

  lemma ConvertKeeps(isFloat: string -> bool, data: map<string, Value>)
    requires data != map[]
    ensures ConvertAll(isFloat, data) != map[]
  {
    var k :| k in data;
    assert k in ConvertAll(isFloat, data);
  }

  /** The read returns exactly the listed windows if and only if every one had a hash when it was fetched. */
  lemma {:induction false} RowsCoverIds(
    isFloat: string -> bool, kind: Kind, ids: seq<int>, fetched: seq<map<Slot, Value>>)
    requires |ids| == |fetched|
    ensures |WindowsOf(Rows(isFloat, kind, ids, fetched))| <= |ids|
    ensures WindowsOf(Rows(isFloat, kind, ids, fetched)) == ids
      <==> forall i :: 0 <= i < |ids| ==> HasHash(fetched[i], HashKey(kind, ids[i]))
    decreases |ids|
  {
    hide ConvertAll, HashOf, HasHash, WindowsOf;
    if ids == [] {
      assert WindowsOf([]) == [] by { WindowsOfNone(); }
    } else {
      var last := |ids| - 1;
      var before := Rows(isFloat, kind, ids[..last], fetched[..last]);
      RowsCoverIds(isFloat, kind, ids[..last], fetched[..last]);
      var data := HashOf(fetched[last], HashKey(kind, ids[last]));
      HasHashNonEmpty(fetched[last], HashKey(kind, ids[last]));
      if data == map[] {
        assert before + [] == before;
      } else {
        WindowsSnoc(before, Row(ids[last], ConvertAll(isFloat, data)));
        assert ids == ids[..last] + [ids[last]];
        assert |WindowsOf(before)| == last ==>
          (WindowsOf(before) + [ids[last]] == ids <==> WindowsOf(before) == ids[..last]);
      }
    }
  }

  lemma WindowsOfNone()
    ensures WindowsOf([]) == []
  {
  }

  lemma HasHashNonEmpty(hashes: map<Slot, Value>, key: HashKey)
    ensures HasHash(hashes, key) <==> HashOf(hashes, key) != map[]
  {
    if HasHash(hashes, key) {
      var slot :| slot in hashes && slot.key == key;
      HashHasField(hashes, slot);
    }
    if HashOf(hashes, key) != map[] {
      var f :| f in HashOf(hashes, key);
      assert Slot(key, f) in hashes;
    }
  }

  /** The hash under a key has exactly the fields stored there, with their values. */
  lemma HashOfExactly(hashes: map<Slot, Value>, key: HashKey, f: string)
    ensures f in HashOf(hashes, key) <==> Slot(key, f) in hashes
    ensures f in HashOf(hashes, key) ==> HashOf(hashes, key)[f] == hashes[Slot(key, f)]
  {
    if f in HashOf(hashes, key) {
      var slot :| slot in hashes && slot.key == key && slot.field == f;
      assert slot == Slot(key, f);
    }
    if Slot(key, f) in hashes { HashHasField(hashes, Slot(key, f)); }
  }

  /** A row shows one listed window as its hash was when it was fetched: the same fields, each value converted. */
  ghost predicate ShowsHash(isFloat: string -> bool, row: Row, hashes: map<Slot, Value>, kind: Kind, w: int) {
    && row.window == w
    && (forall f :: f in row.cells <==> Slot(HashKey(kind, w), f) in hashes)
    && (forall f :: f in row.cells ==> row.cells[f] == Convert(isFloat, Encode(hashes[Slot(HashKey(kind, w), f)])))
  }

  lemma MadeRowShows(isFloat: string -> bool, hashes: map<Slot, Value>, kind: Kind, w: int)
    ensures ShowsHash(isFloat, Row(w, ConvertAll(isFloat, HashOf(hashes, HashKey(kind, w)))), hashes, kind, w)
  {
    hide Convert, Encode, HashOf;
    forall f: string
      ensures f in HashOf(hashes, HashKey(kind, w)) <==> Slot(HashKey(kind, w), f) in hashes
      ensures f in HashOf(hashes, HashKey(kind, w)) ==>
        HashOf(hashes, HashKey(kind, w))[f] == hashes[Slot(HashKey(kind, w), f)]
    {
      HashOfExactly(hashes, HashKey(kind, w), f);
    }
  }

  /** Every row shows the hash of some listed window, as it was when that hash was fetched. */
  lemma {:induction false} RowsShowHashes(
    isFloat: string -> bool, kind: Kind, ids: seq<int>, fetched: seq<map<Slot, Value>>, row: Row)
    requires |ids| == |fetched| && row in Rows(isFloat, kind, ids, fetched)
    ensures exists i :: 0 <= i < |ids| && ShowsHash(isFloat, row, fetched[i], kind, ids[i])
    decreases |ids|
  {
    hide HashOf, ConvertAll, ShowsHash;
    var last := |ids| - 1;
    if row in Rows(isFloat, kind, ids[..last], fetched[..last]) {
      RowsShowHashes(isFloat, kind, ids[..last], fetched[..last], row);
      var i :| 0 <= i < last && ShowsHash(isFloat, row, fetched[..last][i], kind, ids[..last][i]);
      assert ShowsHash(isFloat, row, fetched[i], kind, ids[i]);
    } else {
      MadeRowShows(isFloat, fetched[last], kind, ids[last]);
      assert ShowsHash(isFloat, row, fetched[last], kind, ids[last]);
    }
  }

  lemma HashHasField(hashes: map<Slot, Value>, slot: Slot)
    requires slot in hashes
    ensures slot.field in HashOf(hashes, slot.key) && HashOf(hashes, slot.key)[slot.field] == hashes[slot]
  {
  }

  /**
   Reader stability: the rows of a read of at most the retention count are the newest indexed windows in
   strictly descending order, whether a pending trim had run before the ids were taken or not.
   */
  lemma ReadIsStable(
    isFloat: string -> bool, kind: Kind, n: nat, index: set<int>, limit: nat, fetched: seq<map<Slot, Value>>)
    requires limit <= n && |fetched| == |ZRevRange(index, limit)|
    ensures var rows := Rows(isFloat, kind, ZRevRange(index, limit), fetched);
      && ZRevRange(Top(n, index), limit) == ZRevRange(index, limit)
      && |rows| <= limit
      && StrictlyDescending(WindowsOf(rows))
      && (forall w :: w in WindowsOf(rows) ==> w in Top(limit, index))
  {
    hide Top, ZRevRange, Rows;
    ZRevRangeIgnoresTrim(index, n, limit);
    ZRevRangeListsTop(index, limit);
    RowsFollowIds(isFloat, kind, ZRevRange(index, limit), fetched);
  }
}

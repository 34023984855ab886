/**
 `consume_loop` and `redis_batch_worker` in their own form. At each `await` of the worker the consume
 loop may run any number of steps; what it does is bounded by the messages in `inbox`.

 Everything the service does is recorded in `trace`, and `Valid` says that the trace is a legal run of the
 state machine of module CacheProtocol which leads to exactly the fields of the service and to its store.
 */
module Worker {
  import opened Wrappers
  import opened CacheModel
  import opened MessageParser
  import opened CacheProtocol
  import opened CacheSafety
  import opened CacheTheorems
  import opened FlushSteps
  import opened Repository

  /** The run `trace` leads from an empty service to `s`. */
  ghost predicate Reached(c: Config, r0: Redis, trace: seq<Event>, s: State) {
    Legal(c, Start(r0), trace) && s == Run(c, Start(r0), trace)
  }

  lemma ReachedExtend(c: Config, r0: Redis, trace: seq<Event>, s: State, e: Event)
    requires Reached(c, r0, trace, s) && Enabled(c, s, e)
    ensures Reached(c, r0, trace + [e], Next(c, s, e))
  {
    hide Enabled, Next;
    Extend(c, Start(r0), trace, s, e);
  }

  lemma ReachedConcat(c: Config, r0: Redis, trace: seq<Event>, s: State, steps: seq<Event>)
    requires Reached(c, r0, trace, s) && Legal(c, s, steps)
    ensures Reached(c, r0, trace + steps, Run(c, s, steps))
  {
    hide Enabled, Next;
    RunConcat(c, Start(r0), trace, steps);
  }

  /** Only the consume loop's part of the state differs, and its queue only grew at the end. */
  ghost predicate ProducerMoved(s: State, t: State) {
    && t == s.(log := t.log, queue := t.queue, pending := t.pending, lost := t.lost, stopped := t.stopped)
    && s.log <= t.log && s.queue <= t.queue
    && (s.stopped ==> t == s)
  }

  /** `position` is how much had been delivered when the worker resumed after a flush, at step `k` of the trace. */
  ghost predicate TakenAt(c: Config, r0: Redis, trace: seq<Event>, k: nat, position: nat) {
    && k < |trace| && trace[k] == Resume
    && Legal(c, Start(r0), trace[..k]) && |Run(c, Start(r0), trace[..k]).log| == position
  }

  lemma TakenHere(c: Config, r0: Redis, trace: seq<Event>, s: State)
    requires Reached(c, r0, trace, s)
    ensures TakenAt(c, r0, trace + [Resume], |trace|, |s.log|)
  {
    hide Legal, Run;
    assert (trace + [Resume])[..|trace|] == trace;
  }

  lemma TakenStays(c: Config, r0: Redis, trace: seq<Event>, longer: seq<Event>, k: nat, position: nat)
    requires TakenAt(c, r0, trace, k, position) && trace <= longer
    ensures TakenAt(c, r0, longer, k, position)
  {
    assert longer[..k] == trace[..k];
  }

  /** The last step is the answer to a commit: if it is positive, `position` is now the committed one. */
  predicate Answered(trace: seq<Event>, before: nat, position: nat, now: nat) {
    && trace != [] && trace[|trace| - 1].CommitReturned?
    && now == if trace[|trace| - 1].ok then position else before
  }

  /** A flush that has not failed so far. */
  predicate KeepsBatch(s: State, t: State) {
    && t.batch == s.batch && t.failures == s.failures && t.dropped == s.dropped
    && t.now == s.now && t.lastFlush == s.lastFlush
  }

  /** A flush that raised: the batch is kept for a retry, or dropped if it was the last one. */
  predicate GaveUp(s: State, t: State, final: bool) {
    && t.now == s.now && t.lastFlush == s.lastFlush
    && if final then t.batch == [] && t.dropped == s.batch && t.failures == s.failures
       else t.batch == s.batch && t.dropped == s.dropped && t.failures == s.failures + 1
  }

  class CacheService {
    const c: Config
    const repo: CacheRepository

    var inbox: seq<Message>            // what Kafka will deliver
    var log: seq<Message>              // delivered so far; |log| is the consumer position
    var queue: seq<Operation>
    var pending: Option<Operation>     // blocked in queue.put
    var lost: Option<Operation>        // its put was cancelled
    var stopped: bool                  // stop_event
    var committed: nat
    var clock: real                    // time.monotonic(), counted from the start of the worker

    ghost const r0: Redis              // the store at the start
    ghost var trace: seq<Event>
    ghost var state: State             // where the trace leads

    constructor (c: Config, r: RedisServer, inbox: seq<Message>)
      ensures this.c == c && repo.r == r && this.inbox == inbox && r0 == r.Store()
      ensures Valid() && trace == [] && state == Start(r0)
    {
      this.c, this.inbox := c, inbox;
      repo := new CacheRepository(r, c.retention);
      log, queue, pending, lost, stopped, committed, clock := [], [], None, None, false, 0, 0.0;
      r0, trace, state := r.Store(), [], Start(r.Store());
      new;
      NoSteps(c, Start(r0));
    }

    ghost predicate Valid()
      reads this, repo.r
    {
      && repo.retention == c.retention
      && Reached(c, r0, trace, state)
      && state.log == log && state.queue == queue && state.pending == pending && state.lost == lost
      && state.stopped == stopped && state.committed == committed && state.now <= clock
      && state.redis == repo.r.Store()
    }

    /** What is still to come, weighted so that every step of the consume loop reduces it or keeps it. */
    function Work(): nat
      reads this
    {
      3 * |inbox| + (if pending.Some? then 2 else 0) + |queue|
    }

    /** Record one step. */
    ghost method Happens(e: Event)
      requires Reached(c, r0, trace, state) && Enabled(c, state, e)
      modifies this`trace, this`state
      ensures Reached(c, r0, trace, state)
      ensures trace == old(trace) + [e] && state == Next(c, old(state), e)
    {
      hide Reached, Enabled, Next;
      ReachedExtend(c, r0, trace, state, e);
      trace, state := trace + [e], Next(c, state, e);
    }

    // ------------------------------------------------------------ the consume loop

    /** One pass of the `async for` body up to its suspension: parse, and put or block. */
    method HandleMessage()
      requires Valid() && !stopped && pending.None? && inbox != []
      modifies this`inbox, this`log, this`queue, this`pending, this`stopped, this`trace, this`state
      ensures Valid() && Work() < old(Work())
      ensures old(trace) < trace && ProducerMoved(old(state), state)
    {
      hide Reached;
      var msg := inbox[0];
      inbox, log := inbox[1..], log + [msg];
      match c.parse(msg) {
        case Skipped =>
        case Accepted(op) =>
          if Full(c, queue) { pending := Some(op); } else { queue := queue + [op]; }
        case Raised =>
          stopped := true;
      }
      Happens(Deliver(msg));
    }

    /** `stop_event.set()` in the `finally` of the consume loop; a blocked `put` is cancelled with it. */
    method StopProducer()
      requires Valid()
      modifies this`pending, this`lost, this`stopped, this`trace, this`state
      ensures Valid() && stopped && Work() <= old(Work())
      ensures if old(stopped) then trace == old(trace)
              else trace == old(trace) + [Stop] && lost == old(pending) && pending.None?
      ensures old(trace) <= trace && ProducerMoved(old(state), state)
    {
      hide Reached;
      if !stopped {
        lost, pending, stopped := pending, None, true;
        Happens(Stop);
      }
    }

    /** A blocked `put` goes through. */
    method FinishPut()
      requires Valid() && pending.Some? && !stopped && !Full(c, queue)
      modifies this`queue, this`pending, this`trace, this`state
      ensures Valid() && Work() < old(Work())
      ensures old(trace) < trace && ProducerMoved(old(state), state)
    {
      hide Reached;
      queue, pending := queue + [pending.value], None;
      Happens(Unblock);
    }

    /** The worker is suspended: the consume loop makes any number of steps. */
    method Suspend()
      requires Valid()
      modifies this`inbox, this`log, this`queue, this`pending, this`lost, this`stopped, this`trace, this`state
      ensures Valid() && Work() <= old(Work())
      ensures old(trace) <= trace && ProducerMoved(old(state), state)
    {
      hide Reached;
      var budget := *;
      while budget > 0 && !stopped
        invariant Valid() && Work() <= old(Work())
        invariant old(trace) <= trace && ProducerMoved(old(state), state)
        decreases budget
      {
        budget := budget - 1;
        if pending.Some? && !Full(c, queue) {
          FinishPut();
        } else if * {
          StopProducer();
        } else if pending.None? && inbox != [] {
          HandleMessage();
        }
      }
    }

    // ------------------------------------------------------------ the worker

    /** The worker suspends on an empty queue. */
    method Wait(last: bool)
      requires Valid() && state.phase.Head? && queue == [] && !stopped
      modifies this
      ensures Valid() && old(trace) <= trace && Work() <= old(Work()) && (last ==> stopped) && clock == old(clock)
      ensures ProducerMoved(old(state).(phase := Waiting), state)
    {
      hide Reached;
      Happens(Enter(clock));
      if last { StopProducer(); }
      Suspend();
    }

    /** `time.monotonic()`. */
    method ReadClock() returns (now: real)
      modifies this`clock
      ensures old(clock) <= clock && now == clock
    {
      var passed: real := *;
      if passed > 0.0 { clock := clock + passed; }
      now := clock;
    }

    /**
     `wait_for(queue.get(), timeout)`, the append and the reading of the clock. A wait on an empty queue
     suspends the worker; `last` says that the service is stopped during it at the latest. A flush starts
     exactly if the batch is not empty and the commit interval has passed or the batch is full.
     */
    method GetItem(batch: seq<Operation>, lastFlush: real, last: bool) returns (grown: seq<Operation>, now: real)
      requires Valid() && state.phase.Head? && state.batch == batch && (queue != [] || !stopped)
      requires lastFlush == state.lastFlush
      modifies this
      ensures Valid() && old(trace) <= trace && Work() <= old(Work())
      ensures state.batch == grown && state.dropped == old(state.dropped)
      ensures state.now == now == clock && old(clock) <= now && state.lastFlush == lastFlush
      ensures state.phase ==
        if grown != [] && (now - lastFlush >= c.timeout || |grown| >= c.batchSize) then Executing(0, false, false)
        else Head
      ensures old(stopped) ==> stopped
      ensures if old(queue) != [] then Work() < old(Work()) && stopped == old(stopped) else last ==> stopped
    {
      hide Reached, Touched, Commands, TrimBySize, Execute;
      if queue == [] { Wait(last); }
      grown := batch;
      now := ReadClock();
      if queue != [] {
        grown := Take(batch, now);
      } else {
        Happens(TimedOut(now));
      }
    }

    /** `batch.append(item)` for the head of the queue, before the clock shows `now`. */
    method Take(batch: seq<Operation>, now: real) returns (grown: seq<Operation>)
      requires Valid() && (state.phase.Head? || state.phase.Waiting?) && state.batch == batch && queue != []
      requires state.now <= now == clock
      modifies this`queue, this`trace, this`state
      ensures Valid() && old(trace) < trace && grown == batch + [old(queue)[0]] && queue == old(queue)[1..]
      ensures state == old(state).(batch := grown, queue := queue, now := now, phase := state.phase)
      ensures state.phase ==
        if now - old(state).lastFlush >= c.timeout || |grown| >= c.batchSize then Executing(0, false, false) else Head
    {
      hide Reached, Touched, Commands, TrimBySize, Execute;
      grown, queue := batch + [queue[0]], queue[1..];
      Happens(if state.phase.Head? then Enter(now) else GotItem(now));
    }

    /** `await repo.pipeline_apply(batch)`, while messages may arrive. */
    method Apply(batch: seq<Operation>, final: bool) returns (ok: bool)
      requires Valid() && state.batch == batch && state.phase == Executing(0, false, final)
      modifies this, repo.r
      ensures Valid() && old(trace) <= trace && Work() <= old(Work())
      ensures old(stopped) ==> stopped && queue == old(queue)
      ensures old(log) <= log && committed == old(committed)
      ensures state.flushed == old(state.flushed)
      ensures if ok then state.phase == Persisted(final) && KeepsBatch(old(state), state)
              else state.phase == (if final then Done else BackingOff) && GaveUp(old(state), state, final)
    {
      hide Reached, Applied, Commands, RunEffects, Allowed;
      Suspend();
      ghost var effects, steps;
      ok, effects, steps := repo.PipelineApply(batch, c, state);
      ReachedConcat(c, r0, trace, state, steps);
      trace, state := trace + steps, Run(c, state, steps);
    }

    /** The flush is persisted, and the worker takes the position for its commit. */
    method TakePosition(final: bool) returns (position: nat, ghost at: nat)
      requires Valid() && state.phase == Persisted(final)
      modifies this
      ensures Valid() && old(trace) <= trace && Work() <= old(Work())
      ensures old(stopped) ==> stopped && queue == old(queue)
      ensures state.phase == Committing(position, final) && |old(trace)| <= at
      ensures position == |log| && TakenAt(c, r0, trace, at, position)
      ensures state.flushed == old(state.flushed + state.batch) && KeepsBatch(old(state), state)
      ensures old(log) <= log && committed == old(committed)
      ensures HoldsExactly(c.retention, r0, state.flushed, repo.r.Store())
    {
      hide Reached, HoldsExactly, TakenAt, Touched, Commands, TrimBySize, Execute;
      Suspend();                  // the last reply is on its way
      position, at := |log|, |trace|;
      TakenHere(c, r0, trace, state);
      Happens(Resume);
      FlushIsFold();
    }

    /** Everything after a successful `pipeline_apply`: `commit()` for the position of that moment. */
    method Commit(final: bool) returns (position: nat, ghost at: nat)
      requires Valid() && state.phase == Persisted(final)
      modifies this
      ensures Valid() && old(trace) <= trace && Work() <= old(Work())
      ensures old(stopped) ==> stopped && queue == old(queue)
      ensures state.phase == if final then Done else Head
      ensures state.flushed == old(state.flushed + state.batch)
      ensures state.batch == [] && state.failures == 0 && state.dropped == old(state.dropped)
      ensures state.lastFlush == if final then old(state.lastFlush) else old(state.now)
      ensures |old(trace)| <= at && TakenAt(c, r0, trace, at, position)
      ensures |old(log)| <= position <= |log| && Answered(trace, old(committed), position, committed)
      ensures HoldsExactly(c.retention, r0, state.flushed, repo.r.Store())
    {
      hide Reached, HoldsExactly, TakenAt, Touched, Commands, TrimBySize, Execute;
      position, at := TakePosition(final);
      ghost var taken := trace;
      Suspend();
      var acknowledged := *;      // a commit that fails is only logged
      if acknowledged { committed := position; }
      Happens(CommitReturned(acknowledged));
      TakenStays(c, r0, taken, trace, at, position);
    }

    /**
     One flush of the loop or, if `final`, the one after it: a failed one is left for the next iteration
     to retry, or dropped.
     */
    method Flush(batch: seq<Operation>, final: bool) returns (ok: bool, position: nat, ghost at: nat)
      requires Valid() && state.batch == batch && state.phase == Executing(0, false, final)
      modifies this, repo.r
      ensures Valid() && old(trace) <= trace && Work() <= old(Work())
      ensures old(stopped) ==> stopped && queue == old(queue)
      ensures state.phase == if final then Done else Head
      ensures state.flushed == if ok then old(state.flushed) + batch else old(state.flushed)
      ensures if ok then state.batch == [] && state.failures == 0 && state.dropped == old(state.dropped)
              else GaveUp(old(state), state, final)
      ensures state.lastFlush == if ok && !final then old(state.now) else old(state.lastFlush)
      ensures ok ==> |old(trace)| <= at && TakenAt(c, r0, trace, at, position)
      ensures ok ==> |old(log)| <= position <= |log| && Answered(trace, old(committed), position, committed)
      ensures ok ==> HoldsExactly(c.retention, r0, state.flushed, repo.r.Store())
      ensures !ok ==> committed == old(committed)
    {
      hide Reached, HoldsExactly, TakenAt;
      position, at := 0, 0;
      ok := Apply(batch, final);
      if ok {
        position, at := Commit(final);
      } else if !final {
        Suspend();                // asyncio.sleep(0.2)
        Happens(Wake);
      }
    }

    /** Right after a flush the store is the fold of everything flushed. */
    lemma FlushIsFold()
      requires Valid() && state.phase.Committing?
      ensures HoldsExactly(c.retention, r0, state.flushed, repo.r.Store())
    {
      hide HoldsExactly, Legal, Run;
      FlushRefinesFold(c, r0, trace);
    }

    /** What holds when the worker has ended and given up `dropped`. */
    ghost predicate LeftBehind(dropped: seq<Operation>)
      reads this, repo.r
    {
      && stopped && queue == [] && pending.None? && committed <= |log|
      && Ops(c.parse, log) == state.flushed + dropped + ToSeq(lost)
      && Legal(c, Start(r0), trace) && (dropped != [] <==> FinalFlushFailed(c, Start(r0), trace))
      && (dropped == [] ==> HoldsExactly(c.retention, r0, state.flushed, repo.r.Store()))
      && Applied(c.retention, repo.r.Store(), Commands(dropped))
         == Applied(c.retention, r0, Commands(state.flushed + dropped))
      && (c.queueMax > 0 ==> |Ops(c.parse, log[..committed])| <= |state.flushed| + c.queueMax + 1)
    }

    /**
     `redis_batch_worker`, for a service that is stopped after at most `patience` more waits on an empty
     queue. It ends, and everything the service has done is a legal run of the state machine; `dropped` is what a
     failed final flush gave up, and nothing else is.
     */
    method RedisBatchWorker(patience: nat) returns (dropped: seq<Operation>)
      requires Valid() && state.phase.Head? && state.batch == [] && state.lastFlush == clock
      modifies this, repo.r
      ensures Valid() && old(trace) <= trace && state.phase.Done? && state.dropped == dropped
      ensures LeftBehind(dropped)
      ensures |dropped| <= BatchLimit(c) - 1 + state.failures
    {
      hide Reached, LeftBehind, HoldsExactly, TakenAt, Answered;
      var batch: seq<Operation> := [];
      var left: nat := patience;
      var lastFlush := clock;
      while !stopped || queue != []
        invariant Valid() && old(trace) <= trace
        invariant state.phase.Head? && state.batch == batch && state.dropped == old(state.dropped)
        invariant state.lastFlush == lastFlush
        decreases if stopped then 0 else left + 1, Work()
      {
        var waits, now := queue == [], lastFlush;
        batch, now := GetItem(batch, lastFlush, left == 0);
        if waits && left > 0 { left := left - 1; }
        if batch != [] && (now - lastFlush >= c.timeout || |batch| >= c.batchSize) {
          var ok, _, _ := Flush(batch, false);
          if ok { batch, lastFlush := [], now; }
        }
      }
      HeadIsBounded();
      Happens(Enter(clock));
      dropped := [];
      if batch != [] {
        var ok, _, _ := Flush(batch, true);
        if !ok { dropped := batch; }
      }
      AtExit();
    }

    lemma HeadIsBounded()
      requires Valid() && state.phase.Head?
      ensures |state.batch| <= BatchLimit(c) - 1 + state.failures && state.dropped == []
    {
      hide Legal, Run;
      InvariantHolds(c, r0, trace);
    }

    lemma AtExit()
      requires Valid() && state.phase.Done?
      ensures LeftBehind(state.dropped)
    {
      hide Legal, Run, Ops, HoldsExactly, Applied, Commands, FinalFlushFailed;
      ExitAccounting(c, r0, trace);
      InvariantHolds(c, r0, trace);
    }
  }
}

/** Shutdown: after stop is set the worker drains the queue and ends, even if every Redis write fails. */
module CacheDrain {
  import opened CacheModel
  import opened CacheProtocol
  import opened CacheSafety

  /** How far a phase is from the next loop head or from the end, within one iteration. */
  function Stage(p: Phase): nat {
    match p
    case Waiting => 9
    case Executing(_, _, _) => 8
    case Counting(kind, _) => if kind.EventKind? then 7 else 5
    case Removing(kind, _, _) => if kind.EventKind? then 6 else 4
    case Persisted(_) => 3
    case Committing(_, _) => 2
    case BackingOff => 2
    case Head => 1
    case Done => 0
  }

  predicate InFinalFlush(p: Phase) {
    p.Done? || ((InFlush(p) || p.Committing?) && p.final)
  }

  /** 1 while the loop runs, 0 from the final flush on. */
  function LoopOpen(s: State): nat {
    if InFinalFlush(s.phase) then 0 else 1
  }

  function CommandsLeft(s: State): nat {
    if s.phase.Executing? && s.phase.next <= |Commands(s.batch)| then |Commands(s.batch)| - s.phase.next else 0
  }

  /** Lexicographic comparison of (queue length, loop still open, stage, commands left). */
  predicate Closer(t: State, s: State) {
    || |t.queue| < |s.queue|
    || (|t.queue| == |s.queue| && LoopOpen(t) < LoopOpen(s))
    || (|t.queue| == |s.queue| && LoopOpen(t) == LoopOpen(s) && Stage(t.phase) < Stage(s.phase))
    || (|t.queue| == |s.queue| && LoopOpen(t) == LoopOpen(s) && Stage(t.phase) == Stage(s.phase)
        && CommandsLeft(t) < CommandsLeft(s))
  }

  /** What the worker's queue looks like once stop is set: no producer, and a final flush has nothing behind it. */
  predicate Draining(s: State) {
    s.stopped && s.pending.None? && (InFinalFlush(s.phase) ==> s.queue == [])
  }

  lemma StoppedIsDraining(c: Config, r0: Redis, events: seq<Event>)
    requires Legal(c, Start(r0), events) && Run(c, Start(r0), events).stopped
    ensures Draining(Run(c, Start(r0), events))
  {
    InvariantHolds(c, r0, events);
  }

  /** Every possible step after stop brings the end closer, whether Redis cooperates or not. */
  lemma DrainStep(c: Config, s: State, e: Event)
    requires Draining(s) && Enabled(c, s, e)
    ensures Draining(Next(c, s, e)) && Closer(Next(c, s, e), s)
  {
    hide Touched, Commands, TrimBySize, Execute;
  }

  /** Some step is possible until the worker is done. */
  lemma DrainNeverStuck(c: Config, s: State)
    requires Draining(s) && !s.phase.Done?
    requires s.phase.Executing? ==> s.phase.next <= |Commands(s.batch)|
    ensures exists e :: Enabled(c, s, e)
  {
    var e := match s.phase
      case Head => Enter(s.now)
      case Waiting => TimedOut(s.now)
      case Executing(next, _, _) => if next < |Commands(s.batch)| then RunCommand else FinishPipeline
      case Counting(_, _) => ReadSize
      case Removing(_, _, _) => RemoveExcess
      case Persisted(_) => Resume
      case Committing(_, _) => CommitReturned(true)
      case BackingOff => Wake
      case Done => Wake;
    assert s.phase.Done? || Enabled(c, s, e);
  }

  /** However the steps are chosen, a stopped worker that keeps stepping reaches its end. */
  lemma {:induction false} DrainEnds(c: Config, states: nat -> State, events: nat -> Event, i: nat)
    requires Draining(states(i))
    requires forall j: nat :: !states(j).phase.Done? ==>
      Enabled(c, states(j), events(j)) && states(j + 1) == Next(c, states(j), events(j))
    ensures exists j: nat :: j >= i && states(j).phase.Done?
    decreases |states(i).queue|, LoopOpen(states(i)), Stage(states(i).phase), CommandsLeft(states(i))
  {
    hide Next, Enabled, Stage, LoopOpen, CommandsLeft, Draining;
    if !states(i).phase.Done? {
      assert Enabled(c, states(i), events(i)) && states(i + 1) == Next(c, states(i), events(i));
      DrainStep(c, states(i), events(i));
      DrainEnds(c, states, events, i + 1);
    }
  }

  /** How often the loop condition was tested. */
  function LoopTests(events: seq<Event>): nat {
    if events == [] then 0
    else LoopTests(events[..|events| - 1]) + (if events[|events| - 1].Enter? then 1 else 0)
  }

  function FinalBit(s: State): nat {
    1 - LoopOpen(s)
  }

  lemma DrainTestStep(c: Config, s: State, e: Event)
    requires Draining(s) && Enabled(c, s, e)
    ensures var t := Next(c, s, e);
      (if e.Enter? then 1 else 0) + |t.queue| + FinalBit(s) <= |s.queue| + FinalBit(t)
  {
    hide Touched, Commands, TrimBySize, Execute;
  }

  /** After stop the loop runs at most once per queued operation; one more test of its condition ends it. */
  lemma {:induction false} DrainIterations(c: Config, s: State, events: seq<Event>)
    requires Draining(s) && Legal(c, s, events)
    ensures var t := Run(c, s, events);
      && Draining(t)
      && LoopTests(events) + |t.queue| + FinalBit(s) <= |s.queue| + FinalBit(t)
    decreases |events|
  {
    hide Next, Enabled, Draining, LoopOpen;
    if events != [] {
      var init, e := events[..|events| - 1], events[|events| - 1];
      DrainIterations(c, s, init);
      DrainStep(c, Run(c, s, init), e);
      DrainTestStep(c, Run(c, s, init), e);
    }
  }
}

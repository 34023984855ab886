/** What a flush attempt amounts to, as steps of the cache pipeline's state machine. */
module FlushSteps {
  import opened CacheModel
  import opened CacheProtocol
  import opened CacheSafety

  lemma NoSteps(c: Config, s: State)
    ensures Legal(c, s, []) && Run(c, s, []) == s
  {
  }

  lemma OneStep(c: Config, s: State, e: Event)
    requires Enabled(c, s, e)
    ensures Legal(c, s, [e]) && Run(c, s, [e]) == Next(c, s, e)
  {
    hide Enabled, Next;
    assert [e][..0] == [];
  }

  /** Runs can be put one after the other. */
  lemma {:induction false} RunConcat(c: Config, s: State, a: seq<Event>, b: seq<Event>)
    requires Legal(c, s, a) && Legal(c, Run(c, s, a), b)
    ensures Legal(c, s, a + b) && Run(c, s, a + b) == Run(c, Run(c, s, a), b)
    decreases |b|
  {
    hide Enabled, Next;
    if b == [] {
      assert a + b == a;
    } else {
      RunConcat(c, s, a, b[..|b| - 1]);
      assert (a + b)[..|a + b| - 1] == a + b[..|b| - 1];
    }
  }

  // ---------------------------------------------------------------- the pipeline

  /** Redis's answers to the first commands of a pipeline: each was run or rejected. */
  predicate AreReplies(replies: seq<Event>) {
    forall i :: 0 <= i < |replies| ==> replies[i].RunCommand? || replies[i].RejectCommand?
  }

  /** The store after these answers. */
  function Replied(r: Redis, cmds: seq<Command>, replies: seq<Event>): Redis
    requires |replies| <= |cmds|
  {
    if replies == [] then r
    else
      var last := |replies| - 1;
      var before := Replied(r, cmds, replies[..last]);
      if replies[last].RunCommand? then Execute(before, cmds[last]) else before
  }

  lemma {:induction false} RepliesRun(c: Config, s: State, replies: seq<Event>)
    requires AreReplies(replies) && |replies| <= |Commands(s.batch)|
    requires s.phase.Executing? && s.phase.next == 0 && !s.phase.rejected
    ensures Legal(c, s, replies)
    ensures Run(c, s, replies) ==
      s.(redis := Replied(s.redis, Commands(s.batch), replies),
         phase := Executing(|replies|, RejectCommand in replies, s.phase.final))
    decreases |replies|
  {
    hide Execute, Commands, Touched, TrimBySize;
    if replies != [] {
      RepliesRun(c, s, replies[..|replies| - 1]);
    }
  }

  /** How a pipeline ends: with its last answer, or with a lost connection. */
  function PipelineEnd(lost: bool): Event {
    if lost then ConnectionLost else FinishPipeline
  }

  lemma PipelineRun(c: Config, s: State, replies: seq<Event>, lost: bool)
    requires AreReplies(replies) && |replies| <= |Commands(s.batch)| && (!lost ==> |replies| == |Commands(s.batch)|)
    requires s.phase.Executing? && s.phase.next == 0 && !s.phase.rejected
    ensures Legal(c, s, replies + [PipelineEnd(lost)])
    ensures Run(c, s, replies + [PipelineEnd(lost)]) ==
      (var t := s.(redis := Replied(s.redis, Commands(s.batch), replies));
       if lost || RejectCommand in replies then FailFlush(t, s.phase.final)
       else AfterPipeline(t, false, s.phase.final))
  {
    hide Execute, Commands, Touched, TrimBySize, Replied, Legal, Run;
    RepliesRun(c, s, replies);
    var t := Run(c, s, replies);
    OneStep(c, t, PipelineEnd(lost));
    RunConcat(c, s, replies, [PipelineEnd(lost)]);
  }

  // ---------------------------------------------------------------- a trim

  /** The steps of `_trim_index`, by its outcome. */
  function TrimEvents(ok: bool, trimmed: bool): seq<Event> {
    (if ok || trimmed then [ReadSize, RemoveExcess] else []) + (if ok then [] else [ConnectionLost])
  }

  lemma TrimRun(c: Config, s: State, ok: bool, trimmed: bool)
    requires s.phase.Counting? && (ok ==> trimmed)
    ensures Legal(c, s, TrimEvents(ok, trimmed))
    ensures Run(c, s, TrimEvents(ok, trimmed)) ==
      (var t := s.(redis := if trimmed then Trim(c.retention, s.redis, s.phase.kind) else s.redis);
       if ok then AfterTrim(t, s.phase.kind, s.phase.final) else FailFlush(t, s.phase.final))
  {
    hide Commands, Touched, Trim, Legal, Run, TrimBySize;
    var t := s;
    NoSteps(c, s);
    if trimmed {
      TrimBySizeIsTrim(c, s.redis, s.phase.kind);
      var u := Next(c, s, ReadSize);
      OneStep(c, s, ReadSize);
      OneStep(c, u, RemoveExcess);
      RunConcat(c, s, [ReadSize], [RemoveExcess]);
      assert [ReadSize] + [RemoveExcess] == [ReadSize, RemoveExcess];
      t := Next(c, u, RemoveExcess);
    }
    var steps := if trimmed then [ReadSize, RemoveExcess] else [];
    assert Legal(c, s, steps) && Run(c, s, steps) == t;
    if ok {
      assert TrimEvents(ok, trimmed) == steps;
    } else {
      OneStep(c, t, ConnectionLost);
      RunConcat(c, s, steps, [ConnectionLost]);
    }
  }
}

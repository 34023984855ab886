/** How the consume loop ends by itself: a message that the parser cannot convert is fatal. */
module ConsumeLoop {
  import opened Wrappers
  import opened CacheModel
  import opened MessageParser
  import opened CacheProtocol
  import opened CacheSafety
  import opened CacheTheorems

  /** Both measures of the message's topic can be converted. */
  ghost predicate MeasuresConvert(env: Env, topic: string, fields: map<string, Json>) {
    if topic == "event_metrics"
    then (exists n :: Counts(env, fields, "event_count", n)) && (exists n :: Counts(env, fields, "user_count", n))
    else
      && (exists x :: Measures(env, fields, "avg_load_time", x))
      && (exists x :: Measures(env, fields, "p95_load_time", x))
  }

  /** Of a handled topic, and either no object at all, or named and with a measure that does not convert. */
  ghost predicate Fatal(env: Env, msg: Message) {
    Handled(msg.topic) &&
    if msg.value.NotObject? then msg.value.truthy
    else Named(env, msg.topic, msg.value.fields) && !MeasuresConvert(env, msg.topic, msg.value.fields)
  }

  lemma IntConverts(env: Env, fields: map<string, Json>, name: string)
    ensures IntField(env, fields, name).Some? <==> exists n :: Counts(env, fields, name, n)
  {
    if IntField(env, fields, name).Some? {
      assert Counts(env, fields, name, IntField(env, fields, name).value.n);
    }
  }

  lemma FloatConverts(env: Env, fields: map<string, Json>, name: string)
    ensures FloatField(env, fields, name).Some? <==> exists x :: Measures(env, fields, name, x)
  {
    if FloatField(env, fields, name).Some? {
      assert Measures(env, fields, name, FloatField(env, fields, name).value.text);
    }
  }

  lemma RaisesExactly(env: Env, msg: Message)
    ensures ParseMessage(env, msg).Raised? <==> Fatal(env, msg)
  {
    SkippedExactly(env, msg);
    if msg.value.Object? {
      var fields := msg.value.fields;
      IntConverts(env, fields, "event_count");
      IntConverts(env, fields, "user_count");
      FloatConverts(env, fields, "avg_load_time");
      FloatConverts(env, fields, "p95_load_time");
      hide Named, MeasuresConvert, IntField, FloatField, Counts, Measures, CoerceTs;
    }
  }

  /** An unbounded queue, or fewer operations in it than `redis_queue_max_size`. */
  predicate HasRoom(c: Config, queue: seq<Operation>) {
    c.queueMax <= 0 || |queue| < c.queueMax
  }

  /**
   What the loop does with a message: a skipped one only moves the position, an operation goes to the end of
   the queue or blocks if there is no room, and a raise stops the loop.
   */
  lemma DeliveryExactly(c: Config, s: State, msg: Message)
    requires Enabled(c, s, Deliver(msg))
    ensures Next(c, s, Deliver(msg)) ==
      var t := s.(log := s.log + [msg]);
      match c.parse(msg)
      case Skipped => t
      case Accepted(op) => if HasRoom(c, s.queue) then t.(queue := s.queue + [op]) else t.(pending := Some(op))
      case Raised => t.(stopped := true)
  {
  }

  /** Messages are taken while the loop runs and no put is blocked; a blocked put needs exactly room. */
  lemma PutsExactly(c: Config, s: State, msg: Message)
    ensures Enabled(c, s, Deliver(msg)) <==> !s.stopped && s.pending.None?
    ensures Enabled(c, s, Unblock) <==> s.pending.Some? && HasRoom(c, s.queue)
    ensures Enabled(c, s, Unblock) ==>
      Next(c, s, Unblock) == s.(queue := s.queue + [s.pending.value], pending := None)
  {
  }

  /** The loop was stopped from outside, or its last message raised; no earlier message did. */
  ghost predicate StoppedBy(c: Config, s: State, events: seq<Event>) {
    && (forall i :: 0 <= i < |s.log| - 1 ==> !c.parse(s.log[i]).Raised?)
    && (s.stopped <==> Stop in events || LastRaised(c, s))
    && !(Stop in events && LastRaised(c, s))
  }

  predicate LastRaised(c: Config, s: State) {
    s.log != [] && c.parse(s.log[|s.log| - 1]).Raised?
  }

  lemma StoppedByDelivery(c: Config, s: State, events: seq<Event>, msg: Message)
    requires StoppedBy(c, s, events) && Enabled(c, s, Deliver(msg))
    ensures StoppedBy(c, Receive(c, s, msg), events + [Deliver(msg)])
  {
    assert Stop in events + [Deliver(msg)] <==> Stop in events;
    var t := Receive(c, s, msg);
    assert t.log == s.log + [msg];
    forall i | 0 <= i < |t.log| - 1 ensures !c.parse(t.log[i]).Raised? {
      assert !LastRaised(c, s);
      assert t.log[i] == s.log[i];
    }
  }

  /** Only the consume loop's own steps touch the log and the stop event. */
  lemma OthersDoNotStop(c: Config, s: State, e: Event)
    requires Enabled(c, s, e) && !e.Deliver? && !e.Stop?
    ensures Next(c, s, e).log == s.log && Next(c, s, e).stopped == s.stopped
  {
    hide Touched, Commands, TrimBySize, Execute;
  }

  lemma StoppedByStep(c: Config, s: State, events: seq<Event>, e: Event)
    requires StoppedBy(c, s, events) && Enabled(c, s, e)
    ensures StoppedBy(c, Next(c, s, e), events + [e])
  {
    assert Stop in events + [e] <==> Stop in events || e == Stop;
    if e.Deliver? {
      StoppedByDelivery(c, s, events, e.msg);
    } else if !e.Stop? {
      hide Next;
      OthersDoNotStop(c, s, e);
    }
  }

  lemma {:induction false} RunStopsBy(c: Config, r0: Redis, events: seq<Event>)
    requires Legal(c, Start(r0), events)
    ensures StoppedBy(c, After(c, r0, events), events)
    decreases |events|
  {
    hide Next, Enabled, StoppedBy;
    if events == [] {
      NotStopped(c, r0);
    } else {
      var init, e := events[..|events| - 1], events[|events| - 1];
      RunStopsBy(c, r0, init);
      StoppedByStep(c, After(c, r0, init), init, e);
      assert init + [e] == events;
    }
  }

  lemma NotStopped(c: Config, r0: Redis)
    ensures StoppedBy(c, Start(r0), [])
  {
  }

  /**
   With the real parser: the loop is stopped if and only if it was stopped from outside or has received a
   fatal message, never both. A fatal message is the last one delivered, and every operation delivered
   before it is still flushed, in hand, queued, or the one cancelled put.
   */
  lemma StopsAtFirstFatal(c: Config, env: Env, r0: Redis, events: seq<Event>)
    requires c.parse == (m => ParseMessage(env, m)) && Legal(c, Start(r0), events)
    ensures var s := After(c, r0, events);
      var fatal := s.log != [] && Fatal(env, s.log[|s.log| - 1]);
      && (forall i :: 0 <= i < |s.log| - 1 ==> !Fatal(env, s.log[i]))
      && (s.stopped <==> Stop in events || fatal)
      && !(Stop in events && fatal)
      && (fatal ==>
            Ops(c.parse, s.log[..|s.log| - 1]) == s.flushed + Live(s) + s.queue + ToSeq(s.pending) + ToSeq(s.lost))
  {
    hide ParseMessage, Fatal, Next, Enabled, Run, Legal, RedisGood, CommitBounded, BatchBounded;
    var s := After(c, r0, events);
    RunStopsBy(c, r0, events);
    InvariantHolds(c, r0, events);
    forall i | 0 <= i < |s.log| ensures c.parse(s.log[i]).Raised? <==> Fatal(env, s.log[i]) {
      RaisesExactly(env, s.log[i]);
    }
    if s.log != [] {
      assert s.log == s.log[..|s.log| - 1] + [s.log[|s.log| - 1]];
    }
  }
}

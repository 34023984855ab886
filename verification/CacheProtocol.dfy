/**
 The cache pipeline as a state machine: the consume loop and the Redis worker interleave at every
 `await`, and Redis may reject any single command or lose the connection at any point.

 One event is what runs between two suspension points. `flushed`, `dropped` and `lost` are history:
 no event reads them.
 */
module CacheProtocol {
  import opened Wrappers
  import opened TopN
  import opened CacheModel
  import opened MessageParser

  /** Settings, and the parser as the consume loop sees it. `timeout` is the commit interval, in seconds. */
  datatype Config = Config(retention: nat, batchSize: int, queueMax: int, timeout: real, parse: Message -> Parsed)

  /** Where the worker is suspended; `final` marks the flush after the loop. */
  datatype Phase =
    | Head                                                    // about to test the loop condition
    | Waiting                                                 // in queue.get with a timeout
    | Executing(next: nat, rejected: bool, final: bool)       // pipeline sent, `next` commands answered
    | Counting(kind: Kind, final: bool)                       // zcard sent
    | Removing(kind: Kind, size: nat, final: bool)            // zcard answered
    | Persisted(final: bool)                                  // last reply on its way to the worker
    | Committing(position: nat, final: bool)                  // commit() in flight for this position
    | BackingOff                                              // asyncio.sleep(0.2) after a failure
    | Done

  datatype State = State(
    // consume loop
    log: seq<Message>,             // delivered messages; |log| is the consumer position
    pending: Option<Operation>,    // blocked in queue.put
    stopped: bool,                 // stop_event
    queue: seq<Operation>,
    // worker
    phase: Phase,
    batch: seq<Operation>,
    failures: nat,                 // failed flushes since the batch was last cleared
    now: real,                     // the last reading of the clock, in seconds since the worker started
    lastFlush: real,               // last_flush
    // outside world
    redis: Redis,
    committed: nat,                // committed position in the log
    // history
    flushed: seq<Operation>,
    dropped: seq<Operation>,
    lost: Option<Operation>)

  datatype Event =
    | Deliver(msg: Message) | Unblock | Stop
    | Enter(now: real) | GotItem(now: real) | TimedOut(now: real)    // `now` is what the clock shows
    | RunCommand | RejectCommand | FinishPipeline | ReadSize | RemoveExcess | Resume
    | ConnectionLost | CommitReturned(ok: bool) | Wake

  function Start(r: Redis): State {
    State([], None, false, [], Head, [], 0, 0.0, 0.0, r, 0, [], [], None)
  }

  /** `asyncio.Queue.full`: a non-positive maxsize means unbounded. */
  predicate Full(c: Config, queue: seq<Operation>) {
    0 < c.queueMax <= |queue|
  }

  predicate InFlush(p: Phase) {
    p.Executing? || p.Counting? || p.Removing? || p.Persisted?
  }

  /** Which event may happen next. */
  predicate Enabled(c: Config, s: State, e: Event) {
    match e
    case Deliver(_) => !s.stopped && s.pending.None?
    case Unblock => s.pending.Some? && !Full(c, s.queue)
    case Stop => !s.stopped
    case Enter(now) => s.phase.Head? && s.now <= now
    case GotItem(now) => s.phase.Waiting? && s.queue != [] && s.now <= now
    case TimedOut(now) => s.phase.Waiting? && s.now <= now
    case RunCommand => s.phase.Executing? && s.phase.next < |Commands(s.batch)|
    case RejectCommand => s.phase.Executing? && s.phase.next < |Commands(s.batch)|
    case FinishPipeline => s.phase.Executing? && s.phase.next == |Commands(s.batch)|
    case ReadSize => s.phase.Counting?
    case RemoveExcess => s.phase.Removing?
    case Resume => s.phase.Persisted?
    case ConnectionLost => InFlush(s.phase)
    case CommitReturned(_) => s.phase.Committing?
    case Wake => s.phase.BackingOff?
  }

  /** The clock is read and the flush decision taken, after `queue.get` returned or timed out. */
  function AfterGet(c: Config, s: State, now: real): State {
    if s.batch != [] && (now - s.lastFlush >= c.timeout || |s.batch| >= c.batchSize)
    then s.(phase := Executing(0, false, false), now := now)
    else s.(phase := Head, now := now)
  }

  function TakeItem(s: State): State
    requires s.queue != []
  {
    s.(batch := s.batch + [s.queue[0]], queue := s.queue[1..])
  }

  /** The loop condition and, if an item is ready, the `get` that does not suspend. */
  function EnterLoop(c: Config, s: State, now: real): State {
    if s.queue != [] then AfterGet(c, TakeItem(s), now)
    else if !s.stopped then s.(phase := Waiting)
    else if s.batch != [] then s.(phase := Executing(0, false, true))
    else s.(phase := Done)
  }

  /** An exception out of `pipeline_apply`: retry later, or drop the batch if the loop is over. */
  function FailFlush(s: State, final: bool): State {
    if final then s.(phase := Done, dropped := s.batch, batch := [])
    else s.(phase := BackingOff, failures := s.failures + 1)
  }

  function AfterPipeline(s: State, rejected: bool, final: bool): State {
    if rejected then FailFlush(s, final)
    else if Touched(EventKind, Commands(s.batch)) != {} then s.(phase := Counting(EventKind, final))
    else if Touched(PerfKind, Commands(s.batch)) != {} then s.(phase := Counting(PerfKind, final))
    else s.(phase := Persisted(final))
  }

  function AfterTrim(s: State, kind: Kind, final: bool): State {
    if kind.EventKind? && Touched(PerfKind, Commands(s.batch)) != {} then s.(phase := Counting(PerfKind, final))
    else s.(phase := Persisted(final))
  }

  /** The body of `_trim_index` after zcard answered `size`. */
  function TrimBySize(c: Config, r: Redis, kind: Kind, size: nat): Redis {
    if size > c.retention then r.WithIndex(kind, DropLowest(size - c.retention, r.Index(kind))) else r
  }

  function Receive(c: Config, s: State, msg: Message): State {
    var s' := s.(log := s.log + [msg]);
    match c.parse(msg)
    case Skipped => s'
    case Accepted(op) => if Full(c, s.queue) then s'.(pending := Some(op)) else s'.(queue := s.queue + [op])
    case Raised => s'.(stopped := true)
  }

  function Next(c: Config, s: State, e: Event): State
    requires Enabled(c, s, e)
  {
    match e
    case Deliver(msg) => Receive(c, s, msg)
    case Unblock => s.(queue := s.queue + [s.pending.value], pending := None)
    case Stop => s.(stopped := true, lost := s.pending, pending := None)
    case Enter(now) => EnterLoop(c, s, now)
    case GotItem(now) => AfterGet(c, TakeItem(s), now)
    case TimedOut(now) => AfterGet(c, s, now)
    case RunCommand =>
      s.(redis := Execute(s.redis, Commands(s.batch)[s.phase.next]), phase := s.phase.(next := s.phase.next + 1))
    case RejectCommand => s.(phase := s.phase.(next := s.phase.next + 1, rejected := true))
    case FinishPipeline => AfterPipeline(s, s.phase.rejected, s.phase.final)
    case ReadSize => s.(phase := Removing(s.phase.kind, |s.redis.Index(s.phase.kind)|, s.phase.final))
    case RemoveExcess =>
      AfterTrim(s.(redis := TrimBySize(c, s.redis, s.phase.kind, s.phase.size)), s.phase.kind, s.phase.final)
    case Resume => s.(flushed := s.flushed + s.batch, phase := Committing(|s.log|, s.phase.final))
    case ConnectionLost => FailFlush(s, s.phase.final)
    case CommitReturned(ok) =>
      s.(committed := if ok then s.phase.position else s.committed, batch := [], failures := 0,
         lastFlush := if s.phase.final then s.lastFlush else s.now,
         phase := if s.phase.final then Done else Head)
    case Wake => s.(phase := Head)
  }

  /** `events` can happen in this order from `s`. */
  predicate Legal(c: Config, s: State, events: seq<Event>)
    decreases |events|, 0
  {
    events != [] ==>
      && Legal(c, s, events[..|events| - 1])
      && Enabled(c, Run(c, s, events[..|events| - 1]), events[|events| - 1])
  }

  function Run(c: Config, s: State, events: seq<Event>): State
    requires Legal(c, s, events)
    decreases |events|, 1
  {
    if events == [] then s else Next(c, Run(c, s, events[..|events| - 1]), events[|events| - 1])
  }

  /** The operations of the delivered messages, in delivery order. */
  function Ops(parse: Message -> Parsed, log: seq<Message>): seq<Operation> {
    if log == [] then []
    else Ops(parse, log[..|log| - 1]) +
         (match parse(log[|log| - 1]) case Accepted(op) => [op] case _ => [])
  }

  /** Operations taken from the queue whose persistence is still open, or given up. */
  function Live(s: State): seq<Operation> {
    if s.phase.Committing? then [] else if s.phase.Done? then s.dropped else s.batch
  }

  // ---------------------------------------------------------------- what every reachable state satisfies

  /** Each delivered operation is in exactly one place, and the places are in delivery order. */
  ghost predicate Conserved(c: Config, s: State) {
    && Ops(c.parse, s.log) == s.flushed + Live(s) + s.queue + ToSeq(s.pending) + ToSeq(s.lost)
    && (s.pending.Some? ==> s.lost.None? && !s.stopped)
    && (s.lost.Some? ==> s.stopped)
    && (s.dropped != [] ==> s.phase.Done?)
    && (s.phase.Done? ==> s.stopped && s.queue == [] && s.batch == [])
    && (InFlush(s.phase) || s.phase.Committing? ==> s.batch != [] && (s.phase.final ==> s.stopped && s.queue == []))
    && (c.queueMax > 0 ==> |s.queue| <= c.queueMax)
  }

  /** The store that one pass over everything taken from the queue would give. */
  function Goal(c: Config, r0: Redis, s: State): Redis {
    Applied(c.retention, r0, Commands(s.flushed + Live(s)))
  }

  /** Applying what is not persisted yet to the present store gives exactly that. */
  ghost predicate Replayable(c: Config, r0: Redis, s: State) {
    Applied(c.retention, s.redis, Commands(Live(s))) == Goal(c, r0, s)
  }

  /** The first `i` commands have run on `r`, and the others would complete its hashes. */
  ghost predicate ExecutedTo(cmds: seq<Command>, goal: Redis, r: Redis, i: nat) {
    && i <= |cmds|
    && r.hashes + Writes(cmds[i..]) == goal.hashes
    && (forall kind :: Touched(kind, cmds[..i]) <= r.Index(kind))
  }

  /** All commands have run and the trim of `kind` is next. */
  ghost predicate Trimming(cmds: seq<Command>, goal: Redis, r: Redis, kind: Kind) {
    && r.hashes == goal.hashes
    && Touched(kind, cmds) != {}
    && Touched(kind, cmds) <= r.Index(kind)
    && (if kind.EventKind? then Touched(PerfKind, cmds) <= r.perfs else r.events == goal.events)
  }

  /** How far a flush that has met no error so far has come. */
  ghost predicate FlushProgress(cmds: seq<Command>, goal: Redis, r: Redis, p: Phase) {
    match p
    case Executing(next, rejected, _) => next <= |cmds| && (!rejected ==> ExecutedTo(cmds, goal, r, next))
    case Counting(kind, _) => Trimming(cmds, goal, r, kind)
    case Removing(kind, size, _) => Trimming(cmds, goal, r, kind) && size == |r.Index(kind)|
    case Persisted(_) => r == goal
    case _ => true
  }

  ghost predicate RedisGood(c: Config, r0: Redis, s: State) {
    Replayable(c, r0, s) && FlushProgress(Commands(s.batch), Goal(c, r0, s), s.redis, s.phase)
  }

  /** How many delivered operations a position covers. */
  function Covered(c: Config, s: State, position: nat): nat
    requires position <= |s.log|
  {
    |Ops(c.parse, s.log[..position])|
  }

  ghost predicate CommitBounded(c: Config, s: State) {
    && s.committed <= |s.log|
    && (s.phase.Committing? ==> s.committed <= s.phase.position <= |s.log|)
    && (c.queueMax > 0 ==>
         && Covered(c, s, s.committed) <= |s.flushed| + c.queueMax + 1
         && (s.phase.Committing? ==> Covered(c, s, s.phase.position) <= |s.flushed| + c.queueMax + 1))
  }

  function BatchLimit(c: Config): nat {
    if c.batchSize >= 1 then c.batchSize else 1
  }

  ghost predicate BatchBounded(c: Config, s: State) {
    if InFlush(s.phase) || s.phase.Committing?
    then |s.batch| <= BatchLimit(c) + s.failures
    else |s.batch| <= BatchLimit(c) - 1 + s.failures
  }

  ghost predicate Invariant(c: Config, r0: Redis, s: State) {
    && Conserved(c, s)
    && RedisGood(c, r0, s)
    && CommitBounded(c, s)
    && BatchBounded(c, s)
  }
}

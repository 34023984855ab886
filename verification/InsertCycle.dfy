/**
 One insert cycle of `process_batches` as a state machine: a task per non-empty topic batch, a semaphore,
 bounded retries and the shared `any_insert_failed` flag. One event is what a task does between awaits.
 */
module InsertCycle {
  const MAX_RETRIES := 3

  /** A task of the cycle; `attempts` counts failed inserts so far. */
  datatype Status =
    | Created                         // not started yet
    | Queued                          // waiting for the semaphore
    | Inserting(attempts: nat)        // holds a permit, insert_rows running in a thread
    | Sleeping(attempts: nat)         // holds a permit, in asyncio.sleep between attempts
    | Acknowledged(attempts: nat)     // insert_rows returned
    | Failed                          // third failure: raised, caught, flag set
    | Skipped                         // returned at once because the flag was set

  datatype Cycle = Cycle(
    tasks: seq<Status>,
    failed: bool,                     // any_insert_failed
    permits: nat,                     // free permits of the semaphore
    inFlight: nat,                    // IN_FLIGHT_INSERTS
    landed: multiset<nat>,            // row copies this cycle put into the table
    records: nat,                     // STORAGE_RECORDS
    stored: nat,                      // STORAGE_BATCHES
    retries: nat,                     // STORAGE_RETRIES
    errors: nat)                      // STORAGE_ERRORS

  /** The rows of each task's batch, named by the offsets of their records. */
  type Rows = seq<set<nat>>

  datatype Event =
    | Begin(i: nat)                   // first step of the task: test the flag, try the semaphore
    | QueueUp(i: nat)                 // the same, but others are ahead at the semaphore
    | Acquire(i: nat)                 // woken by a release; the flag is not tested again
    | InsertOk(i: nat)
    | InsertRaises(i: nat, rows: set<nat>)   // the rows that landed nevertheless
    | WakeUp(i: nat)                  // end of the sleep between attempts

  function NotStarted(n: nat, permits: nat): Cycle {
    Cycle(seq(n, _ => Created), false, permits, 0, multiset{}, 0, 0, 0, 0)
  }

  predicate Enabled(rows: Rows, s: Cycle, e: Event)
    requires |rows| == |s.tasks|
  {
    && e.i < |s.tasks|
    && var t := s.tasks[e.i];
       match e
       case Begin(_) => t.Created?
       case QueueUp(_) => t.Created? && !s.failed
       case Acquire(_) => t.Queued? && s.permits > 0
       case InsertOk(_) => t.Inserting?
       case InsertRaises(i, landed) => t.Inserting? && landed <= rows[i]
       case WakeUp(_) => t.Sleeping?
  }

  /** `async with semaphore` succeeds and the guarded body starts. */
  function Enter(s: Cycle, i: nat): Cycle
    requires i < |s.tasks| && s.permits > 0
  {
    s.(tasks := s.tasks[i := Inserting(0)], permits := s.permits - 1, inFlight := s.inFlight + 1)
  }

  /** The `finally` of the guarded body and the release of the semaphore; a gauge at 0 stays there. */
  function Leave(s: Cycle, i: nat, t: Status): Cycle
    requires i < |s.tasks|
  {
    s.(tasks := s.tasks[i := t], permits := s.permits + 1, inFlight := if s.inFlight > 0 then s.inFlight - 1 else 0)
  }

  function Next(rows: Rows, s: Cycle, e: Event): Cycle
    requires |rows| == |s.tasks| && Enabled(rows, s, e)
  {
    var i, t := e.i, s.tasks[e.i];
    match e
    case Begin(_) =>
      if s.failed then s.(tasks := s.tasks[i := Skipped])
      else if s.permits > 0 then Enter(s, i)
      else s.(tasks := s.tasks[i := Queued])
    case QueueUp(_) => s.(tasks := s.tasks[i := Queued])
    case Acquire(_) => Enter(s, i)
    case InsertOk(_) =>
      Leave(s.(landed := s.landed + multiset(rows[i]), records := s.records + |rows[i]|, stored := s.stored + 1),
            i, Acknowledged(t.attempts))
    case InsertRaises(_, some) =>
      var s' := s.(landed := s.landed + multiset(some), retries := s.retries + 1);
      if t.attempts + 1 >= MAX_RETRIES then Leave(s'.(failed := true, errors := s.errors + 1), i, Failed)
      else s'.(tasks := s.tasks[i := Sleeping(t.attempts + 1)])
    case WakeUp(_) => s.(tasks := s.tasks[i := Inserting(t.attempts)])
  }

  predicate Legal(rows: Rows, s: Cycle, events: seq<Event>)
    requires |rows| == |s.tasks|
    decreases |events|, 0
  {
    events != [] ==>
      && Legal(rows, s, events[..|events| - 1])
      && Enabled(rows, Run(rows, s, events[..|events| - 1]), events[|events| - 1])
  }

  function Run(rows: Rows, s: Cycle, events: seq<Event>): (r: Cycle)
    requires |rows| == |s.tasks| && Legal(rows, s, events)
    ensures |r.tasks| == |rows|
    decreases |events|, 1
  {
    if events == [] then s
    else Next(rows, Run(rows, s, events[..|events| - 1]), events[|events| - 1])
  }

  predicate Finished(t: Status) {
    t.Acknowledged? || t.Failed? || t.Skipped?
  }

  /** `gather` has returned. */
  predicate AllFinished(s: Cycle) {
    forall i :: 0 <= i < |s.tasks| ==> Finished(s.tasks[i])
  }

  // ---------------------------------------------------------------- totals over tasks

  function Total(weight: (nat, Status) -> nat, tasks: seq<Status>): nat {
    if tasks == [] then 0
    else Total(weight, tasks[..|tasks| - 1]) + weight(|tasks| - 1, tasks[|tasks| - 1])
  }

  /** Changing one task changes a total by that task's share. */
  lemma {:induction false} TotalUpdate(weight: (nat, Status) -> nat, tasks: seq<Status>, i: nat, t: Status)
    requires i < |tasks|
    ensures Total(weight, tasks[i := t]) + weight(i, tasks[i]) == Total(weight, tasks) + weight(i, t)
    decreases |tasks|
  {
    var last := |tasks| - 1;
    if i == last {
      assert tasks[i := t][..last] == tasks[..last];
    } else {
      assert tasks[i := t][..last] == tasks[..last][i := t];
      TotalUpdate(weight, tasks[..last], i, t);
    }
  }

  lemma {:induction false} TotalSame(a: (nat, Status) -> nat, b: (nat, Status) -> nat, tasks: seq<Status>)
    requires forall i: nat :: i < |tasks| ==> a(i, tasks[i]) == b(i, tasks[i])
    ensures Total(a, tasks) == Total(b, tasks)
    decreases |tasks|
  {
    if tasks != [] {
      TotalSame(a, b, tasks[..|tasks| - 1]);
    }
  }

  lemma {:induction false} TotalZero(weight: (nat, Status) -> nat, tasks: seq<Status>)
    requires forall i: nat :: i < |tasks| ==> weight(i, tasks[i]) == 0
    ensures Total(weight, tasks) == 0
    decreases |tasks|
  {
    if tasks != [] {
      TotalZero(weight, tasks[..|tasks| - 1]);
    }
  }

  lemma {:induction false} TotalPositive(weight: (nat, Status) -> nat, tasks: seq<Status>, i: nat)
    requires i < |tasks|
    ensures weight(i, tasks[i]) <= Total(weight, tasks)
    decreases |tasks|
  {
    if i < |tasks| - 1 {
      TotalPositive(weight, tasks[..|tasks| - 1], i);
    }
  }

  function Bit(b: bool): nat {
    if b then 1 else 0
  }

  function Holds(i: nat, t: Status): nat {
    Bit(t.Inserting? || t.Sleeping?)
  }

  function FailedAttempts(i: nat, t: Status): nat {
    match t
    case Inserting(a) => a
    case Sleeping(a) => a
    case Acknowledged(a) => a
    case Failed => MAX_RETRIES
    case _ => 0
  }

  function IsStored(i: nat, t: Status): nat {
    Bit(t.Acknowledged?)
  }

  function IsFailed(i: nat, t: Status): nat {
    Bit(t.Failed?)
  }

  function StoredRows(rows: Rows): (nat, Status) -> nat {
    (i: nat, t: Status) => if t.Acknowledged? && i < |rows| then |rows[i]| else 0
  }

  // ---------------------------------------------------------------- what every reachable state satisfies

  /** How many copies of each of its rows a task may have put into the table. */
  predicate CopiesFit(t: Status, copies: nat) {
    match t
    case Created => copies == 0
    case Queued => copies == 0
    case Skipped => copies == 0
    case Inserting(a) => copies <= a
    case Sleeping(a) => copies <= a
    case Acknowledged(a) => 1 <= copies <= a + 1
    case Failed => copies <= MAX_RETRIES
  }

  predicate AttemptsFit(t: Status) {
    match t
    case Inserting(a) => a < MAX_RETRIES
    case Sleeping(a) => 1 <= a < MAX_RETRIES
    case Acknowledged(a) => a < MAX_RETRIES
    case _ => true
  }

  ghost predicate DisjointRows(rows: Rows) {
    forall i, j :: 0 <= i < j < |rows| ==> rows[i] !! rows[j]
  }

  ghost predicate FlagInvariant(s: Cycle) {
    && (s.failed <==> exists i :: 0 <= i < |s.tasks| && s.tasks[i].Failed?)
    && (forall i :: 0 <= i < |s.tasks| && s.tasks[i].Skipped? ==> s.failed)
    && (forall i :: 0 <= i < |s.tasks| ==> AttemptsFit(s.tasks[i]))
  }

  ghost predicate CounterInvariant(rows: Rows, max: nat, s: Cycle) {
    && s.permits + Total(Holds, s.tasks) == max
    && s.inFlight == Total(Holds, s.tasks)
    && s.retries == Total(FailedAttempts, s.tasks)
    && s.stored == Total(IsStored, s.tasks)
    && s.errors == Total(IsFailed, s.tasks)
    && s.records == Total(StoredRows(rows), s.tasks)
  }

  ghost predicate TableInvariant(rows: Rows, s: Cycle)
    requires |rows| == |s.tasks|
  {
    && (forall i, r :: 0 <= i < |rows| && r in rows[i] ==> CopiesFit(s.tasks[i], s.landed[r]))
    && (forall r :: r in s.landed ==> exists i :: 0 <= i < |rows| && r in rows[i])
  }

  lemma FlagStep(rows: Rows, s: Cycle, e: Event)
    requires |rows| == |s.tasks| && FlagInvariant(s) && Enabled(rows, s, e)
    ensures FlagInvariant(Next(rows, s, e)) && (s.failed ==> Next(rows, s, e).failed)
  {
    var s' := Next(rows, s, e);
    assert |s'.tasks| == |s.tasks|;
    if s'.failed {
      if s.failed {
        var k :| 0 <= k < |s.tasks| && s.tasks[k].Failed?;
        assert k != e.i && s'.tasks[k].Failed?;
      } else {
        assert s'.tasks[e.i].Failed?;
      }
    }
  }

  /** The totals after task `i` moved to status `t`. */
  lemma TotalsMove(rows: Rows, tasks: seq<Status>, i: nat, t: Status)
    requires i < |tasks|
    ensures Holds(i, tasks[i]) <= Total(Holds, tasks)
    ensures Total(Holds, tasks[i := t]) + Holds(i, tasks[i]) == Total(Holds, tasks) + Holds(i, t)
    ensures Total(FailedAttempts, tasks[i := t]) + FailedAttempts(i, tasks[i])
         == Total(FailedAttempts, tasks) + FailedAttempts(i, t)
    ensures Total(IsStored, tasks[i := t]) + IsStored(i, tasks[i]) == Total(IsStored, tasks) + IsStored(i, t)
    ensures Total(IsFailed, tasks[i := t]) + IsFailed(i, tasks[i]) == Total(IsFailed, tasks) + IsFailed(i, t)
    ensures Total(StoredRows(rows), tasks[i := t]) + StoredRows(rows)(i, tasks[i])
         == Total(StoredRows(rows), tasks) + StoredRows(rows)(i, t)
  {
    hide Total, Holds, FailedAttempts, IsStored, IsFailed, StoredRows;
    TotalPositive(Holds, tasks, i);
    TotalUpdate(Holds, tasks, i, t);
    TotalUpdate(FailedAttempts, tasks, i, t);
    TotalUpdate(IsStored, tasks, i, t);
    TotalUpdate(IsFailed, tasks, i, t);
    TotalUpdate(StoredRows(rows), tasks, i, t);
  }

  lemma CounterStep(rows: Rows, max: nat, s: Cycle, e: Event)
    requires |rows| == |s.tasks| && CounterInvariant(rows, max, s) && Enabled(rows, s, e)
    requires AttemptsFit(s.tasks[e.i])
    ensures CounterInvariant(rows, max, Next(rows, s, e))
  {
    hide Total;
    TotalsMove(rows, s.tasks, e.i, Next(rows, s, e).tasks[e.i]);
  }

  /** Copies of the rows of the other tasks do not change. */
  lemma TableStep(rows: Rows, s: Cycle, e: Event)
    requires |rows| == |s.tasks| && DisjointRows(rows) && TableInvariant(rows, s) && Enabled(rows, s, e)
    requires AttemptsFit(s.tasks[e.i])
    ensures TableInvariant(rows, Next(rows, s, e))
  {
    var s' := Next(rows, s, e);
    forall i, r | 0 <= i < |rows| && r in rows[i]
      ensures CopiesFit(s'.tasks[i], s'.landed[r])
    {
      if i != e.i {
        assert r !in rows[e.i];
      }
    }
    forall r | r in s'.landed
      ensures exists i :: 0 <= i < |rows| && r in rows[i]
    {
      if r !in s.landed {
        assert r in rows[e.i];
      }
    }
  }

  ghost predicate Invariant(rows: Rows, max: nat, s: Cycle) {
    && |rows| == |s.tasks|
    && FlagInvariant(s)
    && CounterInvariant(rows, max, s)
    && TableInvariant(rows, s)
  }

  lemma NotStartedInvariant(rows: Rows, max: nat)
    ensures Invariant(rows, max, NotStarted(|rows|, max))
  {
    var s := NotStarted(|rows|, max);
    TotalZero(Holds, s.tasks);
    TotalZero(FailedAttempts, s.tasks);
    TotalZero(IsStored, s.tasks);
    TotalZero(IsFailed, s.tasks);
    TotalZero(StoredRows(rows), s.tasks);
  }

  lemma InvariantStep(rows: Rows, max: nat, s: Cycle, e: Event)
    requires DisjointRows(rows) && Invariant(rows, max, s) && Enabled(rows, s, e)
    ensures Invariant(rows, max, Next(rows, s, e))
  {
    assert AttemptsFit(s.tasks[e.i]);
    assert |Next(rows, s, e).tasks| == |s.tasks|;
    hide FlagInvariant, CounterInvariant, TableInvariant, Next;
    FlagStep(rows, s, e);
    CounterStep(rows, max, s, e);
    TableStep(rows, s, e);
  }

  /** Over every interleaving of the tasks and every pattern of failures. */
  lemma {:induction false} InvariantHolds(rows: Rows, max: nat, events: seq<Event>)
    requires DisjointRows(rows) && Legal(rows, NotStarted(|rows|, max), events)
    ensures Invariant(rows, max, Run(rows, NotStarted(|rows|, max), events))
    decreases |events|
  {
    hide Invariant, Next, Enabled, DisjointRows;
    if events == [] {
      NotStartedInvariant(rows, max);
    } else {
      InvariantHolds(rows, max, events[..|events| - 1]);
      InvariantStep(rows, max, Run(rows, NotStarted(|rows|, max), events[..|events| - 1]), events[|events| - 1]);
    }
  }

  // ---------------------------------------------------------------- what the cycle may conclude

  /** In every reachable state free permits and holders add up, and the gauge shows the holders, within the limit. */
  lemma SemaphoreAndGauge(rows: Rows, max: nat, events: seq<Event>)
    requires DisjointRows(rows) && Legal(rows, NotStarted(|rows|, max), events)
    ensures var s := Run(rows, NotStarted(|rows|, max), events);
      && s.permits + Total(Holds, s.tasks) == max
      && s.inFlight == Total(Holds, s.tasks) <= max
      && (AllFinished(s) ==> s.permits == max && s.inFlight == 0)
  {
    InvariantHolds(rows, max, events);
    var s := Run(rows, NotStarted(|rows|, max), events);
    if AllFinished(s) { TotalZero(Holds, s.tasks); }
  }

  /**
   Commit implies all inserted: when `gather` has returned, the flag is clear exactly if every batch of
   the cycle was acknowledged. A task is skipped only while the flag is set, and the flag is set only by
   a task that failed three times.
   */
  lemma CommitMeansAllInserted(rows: Rows, max: nat, events: seq<Event>)
    requires DisjointRows(rows) && Legal(rows, NotStarted(|rows|, max), events)
    requires AllFinished(Run(rows, NotStarted(|rows|, max), events))
    ensures var s := Run(rows, NotStarted(|rows|, max), events);
      && (!s.failed <==> forall i :: 0 <= i < |s.tasks| ==> s.tasks[i].Acknowledged?)
      && (s.failed <==> exists i :: 0 <= i < |s.tasks| && s.tasks[i].Failed?)
  {
    InvariantHolds(rows, max, events);
    var s := Run(rows, NotStarted(|rows|, max), events);
    assert forall i :: 0 <= i < |s.tasks| ==> Finished(s.tasks[i]);
  }

  /** An acknowledged row is in the table one to three times per consumption, any other at most three times. */
  lemma RowMultiplicity(rows: Rows, max: nat, events: seq<Event>, i: nat, r: nat)
    requires DisjointRows(rows) && Legal(rows, NotStarted(|rows|, max), events)
    requires i < |rows| && r in rows[i]
    ensures var s := Run(rows, NotStarted(|rows|, max), events);
      && s.landed[r] <= 3
      && (s.tasks[i].Acknowledged? ==> s.landed[r] >= 1)
      && (s.tasks[i].Skipped? ==> s.landed[r] == 0)
  {
    InvariantHolds(rows, max, events);
    var s := Run(rows, NotStarted(|rows|, max), events);
    assert CopiesFit(s.tasks[i], s.landed[r]) && AttemptsFit(s.tasks[i]);
  }

  function IsSkipped(i: nat, t: Status): nat {
    Bit(t.Skipped?)
  }

  lemma {:induction false} OutcomesAddUp(tasks: seq<Status>)
    requires forall i :: 0 <= i < |tasks| ==> Finished(tasks[i])
    ensures Total(IsStored, tasks) + Total(IsFailed, tasks) + Total(IsSkipped, tasks) == |tasks|
    decreases |tasks|
  {
    if tasks != [] {
      OutcomesAddUp(tasks[..|tasks| - 1]);
    }
  }

  /** The counters of a finished cycle account for every task and every attempt. */
  lemma CountersAddUp(rows: Rows, max: nat, events: seq<Event>)
    requires DisjointRows(rows) && Legal(rows, NotStarted(|rows|, max), events)
    requires AllFinished(Run(rows, NotStarted(|rows|, max), events))
    ensures var s := Run(rows, NotStarted(|rows|, max), events);
      && s.stored + s.errors + Total(IsSkipped, s.tasks) == |rows|
      && s.retries == Total(FailedAttempts, s.tasks)
      && s.records == Total(StoredRows(rows), s.tasks)
  {
    InvariantHolds(rows, max, events);
    OutcomesAddUp(Run(rows, NotStarted(|rows|, max), events).tasks);
  }

  // ---------------------------------------------------------------- attempts, counted in the schedule

  /** How many inserts of task `i` raised. */
  function Raises(events: seq<Event>, i: nat): nat {
    if events == [] then 0
    else
      var e := events[|events| - 1];
      Raises(events[..|events| - 1], i) + Bit(e.InsertRaises? && e.i == i)
  }

  /** How many inserts of task `i` returned. */
  function Returns(events: seq<Event>, i: nat): nat {
    if events == [] then 0
    else
      var e := events[|events| - 1];
      Returns(events[..|events| - 1], i) + Bit(e.InsertOk? && e.i == i)
  }

  /** What a status says about the attempts made. */
  predicate AttemptsMade(t: Status, raised: nat, returned: nat) {
    match t
    case Inserting(a) => raised == a <= 2 && returned == 0
    case Sleeping(a) => 1 <= raised == a <= 2 && returned == 0
    case Acknowledged(a) => raised == a <= 2 && returned == 1
    case Failed => raised == 3 && returned == 0
    case _ => raised == 0 && returned == 0
  }

  lemma AttemptsStep(rows: Rows, s: Cycle, e: Event, i: nat, raised: nat, returned: nat)
    requires |rows| == |s.tasks| && i < |s.tasks| && Enabled(rows, s, e) && AttemptsMade(s.tasks[i], raised, returned)
    ensures |Next(rows, s, e).tasks| == |s.tasks|
    ensures AttemptsMade(Next(rows, s, e).tasks[i], raised + Bit(e.InsertRaises? && e.i == i),
                         returned + Bit(e.InsertOk? && e.i == i))
  {
  }

  lemma {:induction false} AttemptsCounted(rows: Rows, max: nat, events: seq<Event>, i: nat)
    requires i < |rows| && Legal(rows, NotStarted(|rows|, max), events)
    ensures AttemptsMade(Run(rows, NotStarted(|rows|, max), events).tasks[i], Raises(events, i), Returns(events, i))
    decreases |events|
  {
    hide Next, Enabled, AttemptsMade, Bit;
    if events == [] {
      assert AttemptsMade(Created, 0, 0) by { NoAttempts(); }
    } else {
      var init := events[..|events| - 1];
      AttemptsCounted(rows, max, init, i);
      AttemptsStep(rows, Run(rows, NotStarted(|rows|, max), init), events[|events| - 1], i,
                   Raises(init, i), Returns(init, i));
    }
  }

  lemma NoAttempts()
    ensures AttemptsMade(Created, 0, 0)
  {
  }

  /**
   Over every schedule a batch gets up to three attempts: its task has failed if and only if exactly three of
   its inserts raised, and is acknowledged if and only if one of them returned, after at most two that raised.
   A third attempt is always made before giving up, and none after one that returned.
   */
  lemma ThreeAttempts(rows: Rows, max: nat, events: seq<Event>, i: nat)
    requires i < |rows| && Legal(rows, NotStarted(|rows|, max), events)
    ensures var t := Run(rows, NotStarted(|rows|, max), events).tasks[i];
      && (t.Failed? <==> Raises(events, i) == 3)
      && (t.Acknowledged? <==> Returns(events, i) == 1)
      && (t.Acknowledged? ==> Raises(events, i) <= 2)
      && Raises(events, i) <= 3 && Returns(events, i) <= 1
      && (t.Skipped? ==> Raises(events, i) == 0 && Returns(events, i) == 0)
  {
    hide Legal, Run, Raises, Returns;
    AttemptsCounted(rows, max, events, i);
  }

  /** The first step of a task: skipped exactly if the flag is set, and otherwise it enters or waits. */
  lemma FirstStepExactly(rows: Rows, s: Cycle, e: Event)
    requires |rows| == |s.tasks| && Enabled(rows, s, e) && s.tasks[e.i].Created?
    ensures var t := Next(rows, s, e).tasks[e.i];
      && (t == Skipped <==> s.failed)
      && (!s.failed ==> t == Queued || (t == Inserting(0) && s.permits > 0))
      && (!s.failed && s.permits == 0 ==> t == Queued)
  {
  }

  /** A task that waits for the semaphore does not look at the flag again: with a permit it inserts. */
  lemma AcquireExactly(rows: Rows, s: Cycle, i: nat)
    requires |rows| == |s.tasks| && i < |s.tasks| && s.tasks[i].Queued?
    ensures Enabled(rows, s, Acquire(i)) <==> s.permits > 0
    ensures s.permits > 0 ==> Next(rows, s, Acquire(i)).tasks[i] == Inserting(0)
  {
  }

  // ---------------------------------------------------------------- the cycle ends

  /** Steps a task can still make. */
  function StepsLeft(i: nat, t: Status): nat {
    match t
    case Created => 8
    case Queued => 7
    case Inserting(a) => if a < MAX_RETRIES then 2 * (MAX_RETRIES - a) else 1
    case Sleeping(a) => if a < MAX_RETRIES then 2 * (MAX_RETRIES - a) + 1 else 2
    case _ => 0
  }

  lemma StepsDecrease(rows: Rows, s: Cycle, e: Event)
    requires |rows| == |s.tasks| && Enabled(rows, s, e)
    ensures Total(StepsLeft, Next(rows, s, e).tasks) < Total(StepsLeft, s.tasks)
  {
    hide Total;
    TotalUpdate(StepsLeft, s.tasks, e.i, Next(rows, s, e).tasks[e.i]);
  }

  lemma {:induction false} TotalBound(weight: (nat, Status) -> nat, tasks: seq<Status>, most: nat)
    requires forall i: nat :: i < |tasks| ==> weight(i, tasks[i]) <= most
    ensures Total(weight, tasks) <= most * |tasks|
    decreases |tasks|
  {
    if tasks != [] {
      TotalBound(weight, tasks[..|tasks| - 1], most);
    }
  }

  /** No schedule makes more than eight steps per task. */
  lemma {:induction false} CycleIsFinite(rows: Rows, max: nat, events: seq<Event>)
    requires Legal(rows, NotStarted(|rows|, max), events)
    ensures |events| + Total(StepsLeft, Run(rows, NotStarted(|rows|, max), events).tasks) <= 8 * |rows|
    decreases |events|
  {
    hide Next, Enabled, Total, StepsLeft;
    var start := NotStarted(|rows|, max);
    if events == [] {
      assert Total(StepsLeft, start.tasks) <= 8 * |rows| by { NotStartedSteps(|rows|, max); }
    } else {
      var init := events[..|events| - 1];
      CycleIsFinite(rows, max, init);
      StepsDecrease(rows, Run(rows, start, init), events[|events| - 1]);
    }
  }

  lemma NotStartedSteps(n: nat, max: nat)
    ensures Total(StepsLeft, NotStarted(n, max).tasks) <= 8 * n
  {
    TotalBound(StepsLeft, NotStarted(n, max).tasks, 8);
  }

  /** With at least one permit the tasks never block each other for good. */
  lemma CycleNeverStuck(rows: Rows, max: nat, s: Cycle) returns (e: Event)
    requires Invariant(rows, max, s) && max >= 1 && !AllFinished(s)
    ensures Enabled(rows, s, e)
  {
    var i: nat :| i < |s.tasks| && !Finished(s.tasks[i]);
    match s.tasks[i] {
      case Created => e := Begin(i);
      case Inserting(_) => e := InsertOk(i);
      case Sleeping(_) => e := WakeUp(i);
      case Queued =>
        if s.permits > 0 {
          e := Acquire(i);
        } else {
          var k := SomeHolder(s.tasks);
          e := if s.tasks[k].Inserting? then InsertOk(k) else WakeUp(k);
        }
      case _ =>
        assert false;
        e := Begin(i);
    }
  }

  lemma {:induction false} SomeHolder(tasks: seq<Status>) returns (k: nat)
    requires Total(Holds, tasks) > 0
    ensures k < |tasks| && (tasks[k].Inserting? || tasks[k].Sleeping?)
    decreases |tasks|
  {
    var last := |tasks| - 1;
    if tasks[last].Inserting? || tasks[last].Sleeping? {
      k := last;
    } else {
      k := SomeHolder(tasks[..last]);
    }
  }

  // ---------------------------------------------------------------- two concrete schedules of a single task

  lemma Extend(rows: Rows, start: Cycle, events: seq<Event>, s: Cycle, e: Event)
    requires |rows| == |start.tasks| && Legal(rows, start, events) && s == Run(rows, start, events)
    requires Enabled(rows, s, e)
    ensures Legal(rows, start, events + [e]) && Run(rows, start, events + [e]) == Next(rows, s, e)
  {
    hide Next, Enabled;
    assert (events + [e])[..|events + [e]| - 1] == events;
  }

  /** The only insert works at once. */
  lemma SingleTaskSucceeds(rows: Rows, max: nat) returns (events: seq<Event>)
    requires |rows| == 1 && max >= 1
    ensures Legal(rows, NotStarted(1, max), events)
    ensures var end := Run(rows, NotStarted(1, max), events); AllFinished(end) && !end.failed
  {
    var start := NotStarted(1, max);
    var s := start;
    events := [];
    Extend(rows, start, events, s, Begin(0));
    s, events := Next(rows, s, Begin(0)), events + [Begin(0)];
    Extend(rows, start, events, s, InsertOk(0));
    s, events := Next(rows, s, InsertOk(0)), events + [InsertOk(0)];
  }

  /** One failed attempt and the sleep after it. */
  lemma SingleTaskRetries(rows: Rows, start: Cycle, before: seq<Event>, s0: Cycle, k: nat)
    returns (events: seq<Event>, s: Cycle)
    requires |rows| == |start.tasks| == 1 && Legal(rows, start, before) && s0 == Run(rows, start, before)
    requires s0.tasks == [Inserting(k)] && k + 1 < MAX_RETRIES
    ensures Legal(rows, start, events) && s == Run(rows, start, events) && s.tasks == [Inserting(k + 1)]
    ensures s.failed == s0.failed
  {
    hide Legal, Run;
    var raises := InsertRaises(0, {});
    Extend(rows, start, before, s0, raises);
    events, s := before + [raises], Next(rows, s0, raises);
    Extend(rows, start, events, s, WakeUp(0));
    events, s := events + [WakeUp(0)], Next(rows, s, WakeUp(0));
  }

  /** The only insert raises twice and returns at the third attempt: the batch is stored. */
  lemma SingleTaskRecovers(rows: Rows, max: nat) returns (events: seq<Event>)
    requires |rows| == 1 && max >= 1
    ensures Legal(rows, NotStarted(1, max), events) && Raises(events, 0) == 2 && Returns(events, 0) == 1
    ensures var end := Run(rows, NotStarted(1, max), events);
      AllFinished(end) && !end.failed && end.tasks[0].Acknowledged?
  {
    var start := NotStarted(1, max);
    assert Legal(rows, start, []) && Run(rows, start, []) == start;
    hide Legal, Run, Raises, Returns;
    Extend(rows, start, [], start, Begin(0));
    var s := Next(rows, start, Begin(0));
    events := [] + [Begin(0)];
    assert s.tasks == [Inserting(0)] && !s.failed;
    hide NotStarted;
    events, s := SingleTaskRetries(rows, start, events, s, 0);
    events, s := SingleTaskRetries(rows, start, events, s, 1);
    Extend(rows, start, events, s, InsertOk(0));
    events, s := events + [InsertOk(0)], Next(rows, s, InsertOk(0));
    assert Legal(rows, NotStarted(1, max), events) && s == Run(rows, NotStarted(1, max), events);
    AttemptsCounted(rows, max, events, 0);
    assert s.tasks == [Acknowledged(2)];
  }

  /** The only insert fails three times and nothing lands. */
  lemma SingleTaskFails(rows: Rows, max: nat) returns (events: seq<Event>)
    requires |rows| == 1 && max >= 1
    ensures Legal(rows, NotStarted(1, max), events)
    ensures var end := Run(rows, NotStarted(1, max), events);
      AllFinished(end) && end.failed && end.tasks[0].Failed?
  {
    var start := NotStarted(1, max);
    assert Legal(rows, start, []) && Run(rows, start, []) == start;
    hide Legal, Run;
    Extend(rows, start, [], start, Begin(0));
    var s := Next(rows, start, Begin(0));
    events := [] + [Begin(0)];
    hide Next, Enabled, NotStarted;
    assert s.tasks == [Inserting(0)];
    events, s := SingleTaskRetries(rows, start, events, s, 0);
    events, s := SingleTaskRetries(rows, start, events, s, 1);
    events, s := SingleTaskGivesUp(rows, start, events, s);
  }

  /** The third failed attempt. */
  lemma SingleTaskGivesUp(rows: Rows, start: Cycle, before: seq<Event>, s0: Cycle)
    returns (events: seq<Event>, s: Cycle)
    requires |rows| == |start.tasks| == 1 && Legal(rows, start, before) && s0 == Run(rows, start, before)
    requires s0.tasks == [Inserting(2)]
    ensures Legal(rows, start, events) && s == Run(rows, start, events) && s.tasks == [Failed] && s.failed
  {
    hide Legal, Run;
    Extend(rows, start, before, s0, InsertRaises(0, {}));
    events, s := before + [InsertRaises(0, {})], Next(rows, s0, InsertRaises(0, {}));
  }
}

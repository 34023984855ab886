/** `process_batches` in its own form: the tasks of a cycle under the event loop, and the outer loop. */
module Processor {
  import opened StorageConsumer
  import opened InsertCycle
  import opened StorageRuns
  import opened StorageTheorems

  function BatchRows(batches: seq<seq<Record>>): (rows: Rows)
    ensures |rows| == |batches|
  {
    seq(|batches|, i requires 0 <= i < |batches| => Offsets(batches[i]))
  }

  /** The tasks of one cycle with what they share. `rows` names the rows of each task's batch. */
  class InsertTasks {
    const batches: seq<seq<Record>>
    ghost const rows: Rows
    var tasks: seq<Status>
    var anyInsertFailed: bool
    var permits: nat
    var inFlight: nat
    var records: nat
    var stored: nat
    var retries: nat
    var errors: nat
    ghost var landed: multiset<nat>      // what ClickHouse received

    ghost function View(): Cycle
      reads this
    {
      Cycle(tasks, anyInsertFailed, permits, inFlight, landed, records, stored, retries, errors)
    }

    /** Each batch holds a record once, so its rows are as many as its records. */
    ghost predicate Fits() {
      rows == BatchRows(batches) && forall i :: 0 <= i < |batches| ==> Increasing(batches[i])
    }

    constructor (batches: seq<seq<Record>>, maxConcurrentInserts: nat)
      requires forall i :: 0 <= i < |batches| ==> Increasing(batches[i])
      ensures this.batches == batches && rows == BatchRows(batches) && Fits()
      ensures View() == NotStarted(|batches|, maxConcurrentInserts)
    {
      this.batches, rows := batches, BatchRows(batches);
      tasks, anyInsertFailed := seq(|batches|, _ => Created), false;
      permits, inFlight, records, stored, retries, errors := maxConcurrentInserts, 0, 0, 0, 0, 0;
      landed := multiset{};
    }

    /** Entry of `_insert_topic`: the flag test and the semaphore. */
    method Start(i: nat) returns (ghost e: Event)
      requires |rows| == |tasks| && i < |tasks| && tasks[i].Created?
      modifies this
      ensures Enabled(rows, old(View()), e) && View() == Next(rows, old(View()), e)
    {
      e := Begin(i);
      var first := *;                 // nobody is ahead at the semaphore
      if anyInsertFailed {
        tasks := tasks[i := Skipped];
      } else if permits > 0 && first {
        EnterBody(i);
      } else {
        if permits > 0 { e := QueueUp(i); }
        tasks := tasks[i := Queued];
      }
    }

    /** The semaphore is granted and the guarded body starts its first attempt. */
    method EnterBody(i: nat)
      requires i < |tasks| && permits > 0
      modifies this
      ensures View() == Enter(old(View()), i)
    {
      permits, inFlight, tasks := permits - 1, inFlight + 1, tasks[i := Inserting(0)];
    }

    /** The `finally` clause and the end of `async with semaphore`. */
    method LeaveBody(i: nat, t: Status)
      requires i < |tasks|
      modifies this
      ensures View() == Leave(old(View()), i, t)
    {
      if inFlight > 0 { inFlight := inFlight - 1; }
      permits, tasks := permits + 1, tasks[i := t];
    }

    /** `insert_rows` returned or raised; when it raises, any part of the batch may have landed. */
    method FinishAttempt(i: nat) returns (ghost e: Event)
      requires Fits() && |rows| == |tasks| && i < |tasks| && tasks[i].Inserting?
      modifies this
      ensures Enabled(rows, old(View()), e) && View() == Next(rows, old(View()), e)
    {
      hide Increasing, Offsets;
      var attempts := tasks[i].attempts;
      if * {
        IncreasingSize(batches[i]);
        landed := landed + multiset(rows[i]);
        stored, records := stored + 1, records + |batches[i]|;
        LeaveBody(i, Acknowledged(attempts));
        return InsertOk(i);
      }
      ghost var some: set<nat> := *;
      some := some * rows[i];
      landed := landed + multiset(some);
      attempts, retries := attempts + 1, retries + 1;
      if attempts >= MAX_RETRIES {
        anyInsertFailed, errors := true, errors + 1;
        LeaveBody(i, Failed);
      } else {
        tasks := tasks[i := Sleeping(attempts)];
      }
      e := InsertRaises(i, some);
    }

    /** Let task `i` run until it suspends again. */
    method Step(i: nat) returns (ghost e: Event)
      requires Fits() && |rows| == |tasks|
      requires i < |tasks| && !Finished(tasks[i]) && (tasks[i].Queued? ==> permits > 0)
      modifies this
      ensures Enabled(rows, old(View()), e) && View() == Next(rows, old(View()), e)
    {
      match tasks[i] {
        case Created => e := Start(i);
        case Queued => EnterBody(i); e := Acquire(i);
        case Inserting(_) => e := FinishAttempt(i);
        case Sleeping(attempts) => tasks, e := tasks[i := Inserting(attempts)], WakeUp(i);
        case _ => assert false;
      }
    }

    predicate CanRun(i: int)
      reads this
    {
      0 <= i < |tasks| && !Finished(tasks[i]) && (tasks[i].Queued? ==> permits > 0)
    }

    /** `asyncio.gather`: the event loop picks any runnable task, until all have returned. */
    method Gather(ghost max: nat) returns (ghost events: seq<Event>)
      requires Fits() && DisjointRows(rows) && max >= 1 && View() == NotStarted(|rows|, max)
      modifies this
      ensures |rows| == |tasks| && Legal(rows, NotStarted(|rows|, max), events)
      ensures View() == Run(rows, NotStarted(|rows|, max), events) && AllFinished(View())
    {
      hide Next, Enabled, StepsLeft, Total, Invariant;
      ghost var start := NotStarted(|rows|, max);
      events := [];
      while exists i :: 0 <= i < |tasks| && !Finished(tasks[i])
        invariant |rows| == |tasks|
        invariant Legal(rows, start, events) && View() == Run(rows, start, events)
        decreases Total(StepsLeft, tasks)
      {
        InvariantHolds(rows, max, events);
        SomeTaskCanRun(max);
        var i: nat :| i < |tasks| && CanRun(i);
        ghost var before := View();
        ghost var e := Step(i);
        StepsDecrease(rows, before, e);
        Extend(rows, start, events, before, e);
        events := events + [e];
      }
    }

    lemma SomeTaskCanRun(max: nat)
      requires Invariant(rows, max, View()) && max >= 1 && !AllFinished(View())
      ensures exists i: nat :: i < |tasks| && CanRun(i)
    {
      var e := CycleNeverStuck(rows, max, View());
      assert CanRun(e.i);
    }
  }

  /** The service between passes. The ledger is history, kept beside the consumer it describes. */
  class StorageService {
    const c: Setup
    const consumer: KafkaBatchConsumer
    var committed: nat
    var storedRecords: nat               // STORAGE_RECORDS
    ghost var ledger: Ledger

    ghost predicate Valid()
      reads this, consumer, consumer.buffers.Values
    {
      && consumer.Valid()
      && consumer.topics == c.topics && consumer.iso == c.iso
      && NoDuplicates(c.topics) && c.max >= 1
      && ledger.buffers == ItemsOf(consumer.buffers)
      && |ledger.polled| == consumer.position
      && ledger.committed == committed
      && Accounted(c, ledger, {})
    }

    constructor (c: Setup)
      requires NoDuplicates(c.topics) && c.max >= 1
      ensures Valid() && this.c == c && ledger == Initial(c) && storedRecords == 0
      ensures fresh(consumer) && forall t :: t in consumer.buffers ==> fresh(consumer.buffers[t])
    {
      this.c, committed, storedRecords, ledger := c, 0, 0, Initial(c);
      consumer := new KafkaBatchConsumer(c.topics, c.iso);
      new;
      hide Accounted, NoDuplicates;
      InitialAccounted(c);
    }

    /** The batches that get a task: non-empty ones, in dictionary order. */
    method CollectTasks(batches: map<string, RecordList>) returns (tasks: seq<seq<Record>>, total: nat)
      requires batches == map[] || batches.Keys == (set t | t in c.topics)
      requires forall t :: t in ItemsOf(batches) ==> Increasing(ItemsOf(batches)[t])
      ensures BatchRows(tasks) == CycleRows(c, ItemsOf(batches))
      ensures forall i :: 0 <= i < |tasks| ==> Increasing(tasks[i])
      ensures total == 0 <==> tasks == []
    {
      hide Offsets, Increasing;
      ghost var items := ItemsOf(batches);
      tasks, total := [], 0;
      if batches == map[] {
        NoBatchesNoRows(c);
        return;
      }
      assert c.topics[..0] == [];
      for i := 0 to |c.topics|
        invariant |tasks| == |TaskTopics(c.topics[..i], items)|
        invariant forall j :: 0 <= j < |tasks| ==>
          var t := TaskTopics(c.topics[..i], items)[j]; t in items && tasks[j] == items[t]
        invariant total == 0 <==> tasks == []
      {
        assert c.topics[..i + 1][..i] == c.topics[..i];
        var batch := batches[c.topics[i]].items;
        total := total + |batch|;
        if batch != [] { tasks := tasks + [batch]; }
      }
      assert c.topics[..|c.topics|] == c.topics;
    }

    /** The plain fields of the ledger after a pass whose insert cycle ended as in `p`. */
    lemma PassFields(s: Ledger, p: Pass, rows: Rows)
      requires NoDuplicates(c.topics) && Accounted(c, s, {})
      requires rows == CycleRows(c, PollOf(c, s, p).batches)
      requires Legal(rows, NotStarted(|rows|, c.max), p.events)
      requires AllFinished(Run(rows, NotStarted(|rows|, c.max), p.events))
      ensures Possible(c, s, p)
      ensures var t := AfterPass(c, s, p);
        && Accounted(c, t, {})
        && t.buffers == PollOf(c, s, p).buffers && |t.polled| == |s.polled| + |p.msgs|
        && t.committed ==
          if rows != [] && !Run(rows, NotStarted(|rows|, c.max), p.events).failed && p.commitOk
          then |t.polled| else s.committed
      ensures PassRecords(c, s, p) == Run(rows, NotStarted(|rows|, c.max), p.events).records
    {
      hide Poll, CycleRows, Legal, Run, Accounted, NoDuplicates, AllFinished, PassRecords;
      PassAccounted(c, s, p);
      RecordsCountAcknowledged(c, s, p);
    }

    lemma PollShape(s: Ledger, p: Pass)
      requires NoDuplicates(c.topics) && Accounted(c, s, {})
      ensures var batches := PollOf(c, s, p).batches;
        && (batches == map[] || batches.Keys == (set t | t in c.topics))
        && DisjointRows(CycleRows(c, batches))
        && forall t :: t in batches ==> Increasing(batches[t])
    {
      hide Poll;
      PollPlaces(c, s, p);
      CycleRowsAre(c, PollOf(c, s, p).batches, |s.polled| + |p.msgs|);
    }

    /** Create the tasks and wait for all of them. */
    method InsertAll(batches: seq<seq<Record>>) returns (failed: bool, records: nat, ghost events: seq<Event>)
      requires forall i :: 0 <= i < |batches| ==> Increasing(batches[i])
      requires DisjointRows(BatchRows(batches)) && c.max >= 1
      ensures var rows := BatchRows(batches);
        && Legal(rows, NotStarted(|rows|, c.max), events)
        && (var end := Run(rows, NotStarted(|rows|, c.max), events);
            AllFinished(end) && failed == end.failed && records == end.records)
    {
      var cycle := new InsertTasks(batches, c.max);
      events := cycle.Gather(c.max);
      failed, records := cycle.anyInsertFailed, cycle.records;
    }

    /** The insert tasks and, unless one of them failed, `consumer.commit()`. */
    method InsertAndCommit(tasks: seq<seq<Record>>) returns (ghost events: seq<Event>, ghost acknowledged: bool)
      requires forall i :: 0 <= i < |tasks| ==> Increasing(tasks[i])
      requires DisjointRows(BatchRows(tasks)) && c.max >= 1
      modifies this`committed, this`storedRecords
      ensures var rows := BatchRows(tasks);
        && Legal(rows, NotStarted(|rows|, c.max), events)
        && (var end := Run(rows, NotStarted(|rows|, c.max), events);
            && AllFinished(end) && (acknowledged ==> !end.failed)
            && storedRecords == old(storedRecords) + end.records)
      ensures committed == if acknowledged then consumer.position else old(committed)
    {
      var failed, records;
      failed, records, events := InsertAll(tasks);
      storedRecords := storedRecords + records;
      acknowledged := false;
      if !failed {
        var ok := *;
        if ok { committed := consumer.position; }
        acknowledged := ok;
      }
    }

    /** Poll, and collect the tasks: none if the poll raised or brought no records. */
    method PollForTasks(msgs: seq<Msg>) returns (tasks: seq<seq<Record>>, total: nat)
      requires consumer.Valid() && consumer.topics == c.topics && consumer.iso == c.iso
      requires NoDuplicates(c.topics) && Accounted(c, ledger, {})
      requires ledger.buffers == ItemsOf(consumer.buffers) && |ledger.polled| == consumer.position
      modifies consumer, consumer.buffers.Values
      ensures consumer.Valid() && consumer.buffers == old(consumer.buffers)
      ensures consumer.position == old(consumer.position) + |msgs|
      ensures var poll := PollOf(c, ledger, Pass(msgs, [], false));
        && ItemsOf(consumer.buffers) == poll.buffers
        && BatchRows(tasks) == CycleRows(c, poll.batches) && DisjointRows(BatchRows(tasks))
      ensures (forall i :: 0 <= i < |tasks| ==> Increasing(tasks[i])) && (total == 0 <==> tasks == [])
    {
      hide Poll, Accounted, NoDuplicates, CycleRows, DisjointRows, ItemsOf, Increasing, BatchRows;
      ghost var p := Pass(msgs, [], false);
      PollShape(ledger, p);
      var raised, batches := consumer.ConsumeBatch(msgs);
      assert ItemsOf(batches) == PollOf(c, ledger, p).batches;
      assert batches == map[] || batches.Keys == (set t | t in c.topics) by { ItemsKeys(batches); }
      tasks, total := CollectTasks(batches);
      RaisedHasNoRows(p, ledger, raised);
    }

    /** One pass of the loop for the messages that `consume` handed out. */
    method RunPass(msgs: seq<Msg>) returns (ghost p: Pass)
      requires Valid()
      modifies this, consumer, consumer.buffers.Values
      ensures Valid() && consumer.buffers == old(consumer.buffers)
      ensures Possible(c, old(ledger), p) && ledger == AfterPass(c, old(ledger), p)
      ensures p.msgs == msgs
      ensures storedRecords == old(storedRecords) + PassRecords(c, old(ledger), p)
    {
      hide Poll, Accounted, NoDuplicates, Legal, Run, AllFinished, AfterPass, Possible, PassRecords;
      hide CycleRows, DisjointRows, ItemsOf, Increasing, BatchRows;
      ghost var before := ledger;
      p := Pass(msgs, [], false);
      var tasks, total := PollForTasks(msgs);
      if total == 0 {
        NoTasks(c.max);
      } else {
        ghost var events, acknowledged := InsertAndCommit(tasks);
        p := Pass(msgs, events, acknowledged);
      }
      PassFields(before, p, BatchRows(tasks));
      ledger := AfterPass(c, before, p);
    }

    lemma ItemsKeys(batches: map<string, RecordList>)
      ensures ItemsOf(batches).Keys == batches.Keys
      ensures ItemsOf(batches) == map[] ==> batches == map[]
    {
      assert ItemsOf(batches).Keys == batches.Keys;
    }

    lemma RaisedHasNoRows(p: Pass, s: Ledger, raised: bool)
      requires raised == PollOf(c, s, p).raised
      ensures raised ==> CycleRows(c, PollOf(c, s, p).batches) == []
    {
      NoBatchesNoRows(c);
    }

    lemma NoTasks(max: nat)
      ensures Legal([], NotStarted(0, max), []) && AllFinished(Run([], NotStarted(0, max), []))
      ensures Run([], NotStarted(0, max), []).records == 0
    {
    }

    /** `process_batches`, for a service that is shut down after the given polls. */
    method ProcessBatches(polls: seq<seq<Msg>>) returns (ghost passes: seq<Pass>)
      requires Valid() && ledger == Initial(c) && storedRecords == 0
      modifies this, consumer, consumer.buffers.Values
      ensures Valid()
      ensures |passes| == |polls| && forall i :: 0 <= i < |polls| ==> passes[i].msgs == polls[i]
      ensures PossibleAll(c, passes) && ledger == After(c, passes)
      ensures storedRecords == RunRecords(c, passes)
    {
      hide Possible, AfterPass, Accounted, PassRecords;
      passes := [];
      for i := 0 to |polls|
        invariant Valid() && consumer.buffers == old(consumer.buffers)
        invariant |passes| == i && forall j :: 0 <= j < i ==> passes[j].msgs == polls[j]
        invariant PossibleAll(c, passes) && ledger == After(c, passes)
        invariant storedRecords == RunRecords(c, passes)
      {
        ghost var p := RunPass(polls[i]);
        assert (passes + [p])[..i] == passes;
        passes := passes + [p];
      }
    }
  }
}

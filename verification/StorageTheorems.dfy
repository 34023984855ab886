/** What the ledger means for the storage service, over every run. */
module StorageTheorems {
  import opened Wrappers
  import opened StorageConsumer
  import opened InsertCycle
  import opened StorageRuns
  import TopN

  /** The insert cycle of a pass, at the end of `gather`. */
  function EndOf(c: Setup, s: Ledger, p: Pass): Cycle
    requires Possible(c, s, p)
  {
    var rows := CycleRows(c, PollOf(c, s, p).batches);
    Run(rows, NotStarted(|rows|, c.max), p.events)
  }

  /** `STORAGE_RECORDS` grows in a pass by the number of records in its acknowledged batches. */
  lemma RecordsCountAcknowledged(c: Setup, s: Ledger, p: Pass)
    requires NoDuplicates(c.topics) && Accounted(c, s, {}) && Possible(c, s, p)
    ensures EndOf(c, s, p).records == PassRecords(c, s, p)
  {
    hide BuffersFit, Legal, Run, Poll, Total, TaskTopics, CycleRows, DisjointRows, AllFinished;
    var batches := PollOf(c, s, p).batches;
    var rows, topics, end := CycleRows(c, batches), TaskTopics(c.topics, batches), EndOf(c, s, p);
    PollPlaces(c, s, p);
    CycleRowsAre(c, batches, |s.polled| + |p.msgs|);
    CountersAddUp(rows, c.max, p.events);
    forall i: nat | i < |end.tasks|
      ensures StoredRows(rows)(i, end.tasks[i]) == AckedRecords(topics, batches)(i, end.tasks[i])
    {
      RowsCountRecords(c, batches, |s.polled| + |p.msgs|, i);
    }
    TotalSame(StoredRows(rows), AckedRecords(topics, batches), end.tasks);
  }

  lemma AckedIsAll(rows: Rows, tasks: seq<Status>)
    requires |rows| == |tasks| && forall i :: 0 <= i < |tasks| ==> tasks[i].Acknowledged?
    ensures AckedRows(rows, tasks) == AllRows(rows)
  {
  }

  /** Each way of not storing a message has its own visible cause in the pass where it happens. */
  lemma LossesHaveCauses(c: Setup, s: Ledger, p: Pass)
    requires NoDuplicates(c.topics) && Accounted(c, s, {}) && Possible(c, s, p)
    ensures var t := AfterPass(c, s, p);
      && (t.unacked != s.unacked ==> EndOf(c, s, p).failed)
      && (t.abandoned != s.abandoned ==> PollOf(c, s, p).raised)
      && (forall o :: o in t.undecodable - s.undecodable ==> |s.polled| <= o < |t.polled| && t.polled[o].BadJson?)
  {
    hide Buffered, BuffersFit, Legal, Run, DisjointRows, Scan, AckedRows, AllRows;
    var poll, rows := PollOf(c, s, p), CycleRows(c, PollOf(c, s, p).batches);
    PollPlaces(c, s, p);
    CycleRowsAre(c, poll.batches, |s.polled| + |p.msgs|);
    if !EndOf(c, s, p).failed {
      CommitMeansAllInserted(rows, c.max, p.events);
      AckedIsAll(rows, EndOf(c, s, p).tasks);
      assert AllRows(rows) - AllRows(rows) == {};
      assert s.unacked + {} == s.unacked;
    }
    if !poll.raised {
      assert Places(p.msgs, poll.examined, |p.msgs|, |s.polled|, CarriesData) == {} by {
        assert poll.examined == |p.msgs|;
      }
      assert s.abandoned + {} == s.abandoned;
    }
  }

  /**
   At every commit the position covers everything polled, nothing is left in a buffer, every batch of the
   cycle was acknowledged, and so each message is stored or has one of the three named fates.
   */
  lemma CommitPoint(c: Setup, passes: seq<Pass>, p: Pass)
    requires NoDuplicates(c.topics) && PossibleAll(c, passes) && Possible(c, After(c, passes), p)
    requires Commits(c, After(c, passes), p)
    ensures var s := After(c, passes);
      var t := AfterPass(c, s, p);
      && t.committed == |t.polled|
      && Buffered(t.buffers) == {}
      && t.unacked == s.unacked
      && t.acked + t.unacked + t.undecodable + t.abandoned == Places(t.polled, 0, |t.polled|, 0, CarriesData)
      && t.acked !! t.unacked !! t.undecodable !! t.abandoned
  {
    hide PossibleAll, Possible, Buffered, BuffersFit, Places, TableFits, Legal, Run;
    hide AckedRows, AllRows, PollOf, CycleRows, AfterPoll;
    var s := After(c, passes);
    LedgerHolds(c, passes);
    PassAccounted(c, s, p);
    LossesHaveCauses(c, s, p);
  }

  /**
   When a pass commits: exactly if its poll returned at least one record, the insert of every non-empty batch
   returned, and the broker accepted. Then the position is everything polled; otherwise it stays.
   */
  lemma PassCommitsExactly(c: Setup, s: Ledger, p: Pass)
    requires NoDuplicates(c.topics) && Accounted(c, s, {}) && Possible(c, s, p)
    ensures var t, batches := AfterPass(c, s, p), PollOf(c, s, p).batches;
      var stored :=
        && (exists topic :: topic in batches && batches[topic] != [])
        && (forall i :: 0 <= i < |EndOf(c, s, p).tasks| ==> EndOf(c, s, p).tasks[i].Acknowledged?)
        && p.commitOk;
      && |EndOf(c, s, p).tasks| == |TaskTopics(c.topics, batches)|
      && t.committed == (if stored then |s.polled| + |p.msgs| else s.committed)
  {
    hide BuffersFit, Legal, Run, Poll, DisjointRows, AllFinished, NoDuplicates, AckedRows, AllRows;
    var batches, rows := PollOf(c, s, p).batches, CycleRows(c, PollOf(c, s, p).batches);
    PollPlaces(c, s, p);
    CycleRowsAre(c, batches, |s.polled| + |p.msgs|);
    CommitMeansAllInserted(rows, c.max, p.events);
    TaskTopicsAre(c.topics, batches);
    if topic :| topic in batches && batches[topic] != [] {
      assert topic in c.topics;
      assert topic in TaskTopics(c.topics, batches);
    }
    if rows != [] { assert TaskTopics(c.topics, batches)[0] in batches; }
  }

  /** Every data message below the committed position was acknowledged and is in the table. */
  ghost predicate StoredBelowCommit(s: Ledger) {
    forall o: nat :: o < s.committed && o < |s.polled| && CarriesData(s.polled[o]) ==>
      o in s.acked && 1 <= s.table[o] <= 3
  }

  /** No message with one of the three named fates lies below the committed position. */
  ghost predicate NoneNamedBelowCommit(s: Ledger) {
    forall o :: o in s.unacked || o in s.undecodable || o in s.abandoned ==> s.committed <= o
  }

  /** "Committed means stored" holds exactly while none of the three fates was committed past. */
  lemma StoredUnlessNamed(c: Setup, passes: seq<Pass>)
    requires NoDuplicates(c.topics) && PossibleAll(c, passes)
    ensures StoredBelowCommit(After(c, passes)) <==> NoneNamedBelowCommit(After(c, passes))
  {
    hide PossibleAll, After, Buffered, BuffersFit;
    var s := After(c, passes);
    LedgerHolds(c, passes);
    var data := Places(s.polled, 0, |s.polled|, 0, CarriesData);
    forall o: nat | o < s.committed && CarriesData(s.polled[o])
      ensures o in s.acked || o in s.unacked || o in s.undecodable || o in s.abandoned
    {
      assert 0 + o in data;
      assert o !in Buffered(s.buffers) + {};
    }
    forall o | o in s.unacked || o in s.undecodable || o in s.abandoned
      ensures o < |s.polled| && CarriesData(s.polled[o]) && o !in s.acked
    {
      assert o in data;
    }
  }

  // ---------------------------------------------------------------- what a later commit passes over

  lemma {:induction false} PrefixPossible(c: Setup, passes: seq<Pass>, k: nat)
    requires PossibleAll(c, passes) && k <= |passes|
    ensures PossibleAll(c, passes[..k])
    ensures k < |passes| ==> Possible(c, After(c, passes[..k]), passes[k])
    decreases |passes|
  {
    hide Possible;
    var last := |passes| - 1;
    if k < last {
      PrefixPossible(c, passes[..last], k);
      assert passes[..last][..k] == passes[..k];
    } else if k == |passes| {
      assert passes[..k] == passes;
    }
  }

  /** Some pass from the `from`-th on commits. */
  ghost predicate CommitsSince(c: Setup, passes: seq<Pass>, from: nat)
    requires PossibleAll(c, passes)
  {
    exists k: nat :: from <= k < |passes| && CommitsAt(c, passes, k)
  }

  ghost predicate CommitsAt(c: Setup, passes: seq<Pass>, k: nat)
    requires PossibleAll(c, passes) && k < |passes|
  {
    PrefixPossible(c, passes, k);
    Commits(c, After(c, passes[..k]), passes[k])
  }

  /** The committed position moves only at commits, and then past everything polled before. */
  lemma {:induction false} CommittedMoves(c: Setup, passes: seq<Pass>, from: nat)
    requires NoDuplicates(c.topics) && PossibleAll(c, passes) && from <= |passes|
    ensures PossibleAll(c, passes[..from])
    ensures var s, t := After(c, passes[..from]), After(c, passes);
      && |s.polled| <= |t.polled|
      && (CommitsSince(c, passes, from) ==> |s.polled| <= t.committed)
      && (!CommitsSince(c, passes, from) ==> t.committed == s.committed)
    decreases |passes|
  {
    hide Possible, CommitsAt, NoDuplicates, After, AfterPass, PossibleAll;
    PrefixPossible(c, passes, from);
    if from == |passes| {
      assert passes[..from] == passes;
    } else {
      var last := |passes| - 1;
      var init := passes[..last];
      PrefixPossible(c, passes, last);
      CommittedMoves(c, init, from);
      assert init[..from] == passes[..from];
      forall k: nat | k < last ensures CommitsAt(c, passes, k) <==> CommitsAt(c, init, k) {
        SameCommit(c, passes, last, k);
      }
      PassMoves(c, passes);
    }
  }

  lemma SameCommit(c: Setup, passes: seq<Pass>, last: nat, k: nat)
    requires PossibleAll(c, passes) && k < last <= |passes| && PossibleAll(c, passes[..last])
    ensures CommitsAt(c, passes, k) <==> CommitsAt(c, passes[..last], k)
  {
    hide Commits, Possible, After;
    PrefixPossible(c, passes, k);
    PrefixPossible(c, passes[..last], k);
    assert passes[..last][..k] == passes[..k];
  }

  lemma PassMoves(c: Setup, passes: seq<Pass>)
    requires PossibleAll(c, passes) && passes != []
    ensures var last := |passes| - 1;
      var s, t := After(c, passes[..last]), After(c, passes);
      && |t.polled| == |s.polled| + |passes[last].msgs|
      && t.committed == (if CommitsAt(c, passes, last) then |t.polled| else s.committed)
  {
    hide CycleRows, Legal, Run;
  }

  /**
   A message that was polled but not acknowledged is redelivered after a restart only while no later
   cycle commits: it lies below the committed position exactly if some pass since then has committed.
   */
  lemma PassedOverByNextCommit(c: Setup, passes: seq<Pass>, from: nat, o: nat)
    requires NoDuplicates(c.topics) && PossibleAll(c, passes) && from <= |passes| && PossibleAll(c, passes[..from])
    requires var s := After(c, passes[..from]);
      s.committed <= o && o in s.unacked + s.undecodable + s.abandoned
    ensures o < After(c, passes).committed <==> CommitsSince(c, passes, from)
  {
    hide PossibleAll, After, Buffered, BuffersFit, TableFits, CommitsSince;
    LedgerHolds(c, passes[..from]);
    var s := After(c, passes[..from]);
    assert o in Places(s.polled, 0, |s.polled|, 0, CarriesData);
    CommittedMoves(c, passes, from);
  }

  // ---------------------------------------------------------------- which passes lose messages

  /** The messages with one of the three fates. */
  function Named(s: Ledger): set<nat> {
    s.unacked + s.undecodable + s.abandoned
  }

  /** No insert failed for good, no data was left unexamined by a raise, no examined JSON was broken. */
  ghost predicate CleanPass(c: Setup, s: Ledger, p: Pass)
    requires Possible(c, s, p)
  {
    var poll := PollOf(c, s, p);
    && !EndOf(c, s, p).failed
    && (forall i :: 0 <= i < |p.msgs| && i < poll.examined ==> !p.msgs[i].BadJson?)
    && (forall i :: 0 <= i < |p.msgs| && i >= poll.examined ==> !CarriesData(p.msgs[i]))
  }

  /** A task that failed for good leaves rows of its own unacknowledged. */
  lemma FailureLeavesRows(c: Setup, batches: Buffers, next: nat, events: seq<Event>)
    requires NoDuplicates(c.topics) && BuffersFit(batches, next)
    requires batches == map[] || batches.Keys == (set t | t in c.topics)
    requires var rows := CycleRows(c, batches);
      Legal(rows, NotStarted(|rows|, c.max), events) && AllFinished(Run(rows, NotStarted(|rows|, c.max), events))
    ensures var rows := CycleRows(c, batches);
      var end := Run(rows, NotStarted(|rows|, c.max), events);
      end.failed <==> AllRows(rows) - AckedRows(rows, end.tasks) != {}
  {
    hide Legal, Run, BuffersFit, NoDuplicates, Offsets;
    var rows := CycleRows(c, batches);
    var end := Run(rows, NotStarted(|rows|, c.max), events);
    CycleRowsAre(c, batches, next);
    CommitMeansAllInserted(rows, c.max, events);
    if end.failed {
      var i :| 0 <= i < |end.tasks| && end.tasks[i].Failed?;
      var r := SomeRow(c, batches, i);
      NotAcked(rows, end.tasks, i, r);
      assert r in AllRows(rows) - AckedRows(rows, end.tasks);
    } else {
      AckedIsAll(rows, end.tasks);
      assert AllRows(rows) - AllRows(rows) == {};
    }
  }

  lemma SomeRow(c: Setup, batches: Buffers, i: nat) returns (r: nat)
    requires i < |CycleRows(c, batches)|
    ensures r in CycleRows(c, batches)[i]
  {
    TaskTopicsAre(c.topics, batches);
    var batch := batches[TaskTopics(c.topics, batches)[i]];
    r := batch[0].offset;
    assert batch[0] in batch;
  }

  lemma NotAcked(rows: Rows, tasks: seq<Status>, i: nat, r: nat)
    requires |rows| == |tasks| && DisjointRows(rows) && i < |rows| && r in rows[i] && !tasks[i].Acknowledged?
    ensures r !in AckedRows(rows, tasks)
  {
    forall j | 0 <= j < |rows| && tasks[j].Acknowledged? ensures r !in rows[j] {
      if i < j { assert rows[i] !! rows[j]; } else { assert rows[j] !! rows[i]; }
    }
  }

  lemma PlacesAreSome(msgs: seq<Msg>, from: nat, to: nat, base: nat, kind: Msg -> bool)
    requires to <= |msgs|
    ensures Places(msgs, from, to, base, kind) != {} <==> exists i :: from <= i < to && kind(msgs[i])
    ensures forall o :: o in Places(msgs, from, to, base, kind) ==> base + from <= o < base + to
  {
    if i :| from <= i < to && kind(msgs[i]) {
      assert base + i in Places(msgs, from, to, base, kind);
    }
  }

  /** What a pass adds to the three fates: rows in hand that stay open, broken JSON, unexamined data. */
  function OpenRows(c: Setup, s: Ledger, p: Pass): set<nat>
    requires Possible(c, s, p)
  {
    var rows := CycleRows(c, PollOf(c, s, p).batches);
    AllRows(rows) - AckedRows(rows, EndOf(c, s, p).tasks)
  }

  lemma NamedAfter(c: Setup, s: Ledger, p: Pass)
    requires Possible(c, s, p)
    ensures var poll, base := PollOf(c, s, p), |s.polled|;
      && poll.examined <= |p.msgs|
      && Named(AfterPass(c, s, p)) == Named(s) + OpenRows(c, s, p)
         + Places(p.msgs, 0, poll.examined, base, IsBadJson)
         + Places(p.msgs, poll.examined, |p.msgs|, base, CarriesData)
  {
    hide Legal, Run, AckedRows, Places, AllFinished, Poll, CycleRows;
    PollExamined(c.iso, s.buffers, p.msgs, |s.polled|);
  }

  /** The open rows were in hand: none has a fate yet, and none lies below the committed position. */
  lemma OpenRowsAreHeld(c: Setup, s: Ledger, p: Pass)
    requires NoDuplicates(c.topics) && Accounted(c, s, {}) && Possible(c, s, p)
    ensures OpenRows(c, s, p) !! Named(s)
    ensures forall o :: o in OpenRows(c, s, p) ==> s.committed <= o < |s.polled| + |p.msgs|
    ensures OpenRows(c, s, p) != {} <==> EndOf(c, s, p).failed
  {
    hide Buffered, BuffersFit, Legal, Run, DisjointRows, Poll, AckedRows, AllRows, Places, NoDuplicates, TableFits;
    hide AllFinished, CycleRows;
    var poll := PollOf(c, s, p);
    PollPlaces(c, s, p);
    PollAccounted(c, s, p);
    CycleRowsAre(c, poll.batches, |s.polled| + |p.msgs|);
    FailureLeavesRows(c, poll.batches, |s.polled| + |p.msgs|, p.events);
  }

  /** Where a pass puts messages that it does not store: none for a clean pass, else behind the committed position. */
  lemma NamedGrow(c: Setup, s: Ledger, p: Pass)
    requires NoDuplicates(c.topics) && Accounted(c, s, {}) && Possible(c, s, p)
    ensures var t := AfterPass(c, s, p);
      && Named(s) <= Named(t)
      && (CleanPass(c, s, p) <==> Named(t) == Named(s))
      && (forall o :: o in Named(t) - Named(s) ==> s.committed <= o < |t.polled|)
  {
    var poll, base := PollOf(c, s, p), |s.polled|;
    NamedAfter(c, s, p);
    OpenRowsAreHeld(c, s, p);
    NamedAreOld(c, s);
    PassSizes(c, s, p);
    hide Accounted, Possible, NoDuplicates, AfterPass, PollOf, EndOf, OpenRows, Named, Places;
    PlacesAreSome(p.msgs, 0, poll.examined, base, IsBadJson);
    PlacesAreSome(p.msgs, poll.examined, |p.msgs|, base, CarriesData);
    Grown(Named(s), OpenRows(c, s, p), Places(p.msgs, 0, poll.examined, base, IsBadJson),
          Places(p.msgs, poll.examined, |p.msgs|, base, CarriesData), s.committed, |s.polled|, base + |p.msgs|);
  }

  lemma Grown(named: set<nat>, a: set<nat>, b: set<nat>, d: set<nat>, low: nat, mid: nat, high: nat)
    requires a !! named && forall o :: o in named ==> o < mid
    requires forall o :: o in a ==> low <= o < high
    requires low <= mid && (forall o :: o in b ==> mid <= o < high) && (forall o :: o in d ==> mid <= o < high)
    ensures var all := named + a + b + d;
      && named <= all
      && (all == named <==> a == {} && b == {} && d == {})
      && (forall o :: o in all - named ==> low <= o < high)
  {
    assert b !! named && d !! named;
    assert named + a + b + d - named == a + b + d;
    if named + a + b + d == named {
      assert a + b + d == {};
    }
  }

  lemma PassSizes(c: Setup, s: Ledger, p: Pass)
    requires Accounted(c, s, {}) && Possible(c, s, p)
    ensures |AfterPass(c, s, p).polled| == |s.polled| + |p.msgs| && s.committed <= |s.polled|
  {
    hide Legal, Run, Poll, CycleRows, AllFinished;
  }

  lemma NamedAreOld(c: Setup, s: Ledger)
    requires Accounted(c, s, {})
    ensures forall o :: o in Named(s) ==> o < |s.polled|
  {
    hide Buffered, BuffersFit, TableFits, Places;
    PlacesBelow(s.polled);
  }

  /** The `k`-th pass of a run is clean. */
  ghost predicate CleanAt(c: Setup, passes: seq<Pass>, k: nat)
    requires PossibleAll(c, passes) && k < |passes|
  {
    PrefixPossible(c, passes, k);
    CleanPass(c, After(c, passes[..k]), passes[k])
  }

  lemma SameClean(c: Setup, passes: seq<Pass>, last: nat, k: nat)
    requires PossibleAll(c, passes) && k < last <= |passes| && PossibleAll(c, passes[..last])
    ensures CleanAt(c, passes, k) <==> CleanAt(c, passes[..last], k)
  {
    hide CleanPass, Possible, After;
    PrefixPossible(c, passes, k);
    PrefixPossible(c, passes[..last], k);
    assert passes[..last][..k] == passes[..k];
  }

  /** A message with one of the three fates got it in a pass that was not clean, behind the position of that time. */
  lemma {:induction false} NamedByPass(c: Setup, passes: seq<Pass>, o: nat) returns (k: nat)
    requires NoDuplicates(c.topics) && PossibleAll(c, passes) && o in Named(After(c, passes))
    ensures k < |passes| && PossibleAll(c, passes[..k]) && !CleanAt(c, passes, k)
    ensures After(c, passes[..k]).committed <= o
    decreases |passes|
  {
    hide Possible, AfterPass, CleanPass, CleanAt, NoDuplicates, Named;
    if passes == [] {
      NothingNamed(c);
      assert false;
    } else {
      var last := |passes| - 1;
      PrefixPossible(c, passes, last);
      if o in Named(After(c, passes[..last])) {
        k := NamedByPass(c, passes[..last], o);
        assert passes[..last][..k] == passes[..k];
        SameClean(c, passes, last, k);
      } else {
        k := last;
        LedgerHolds(c, passes[..last]);
        NamedGrow(c, After(c, passes[..last]), passes[last]);
        assert o in Named(After(c, passes)) - Named(After(c, passes[..last]));
        UncleanHere(c, passes);
      }
    }
  }

  lemma NothingNamed(c: Setup)
    ensures Named(Initial(c)) == {}
  {
  }

  lemma UncleanHere(c: Setup, passes: seq<Pass>)
    requires PossibleAll(c, passes) && passes != []
    requires !CleanPass(c, After(c, passes[..|passes| - 1]), passes[|passes| - 1])
    ensures !CleanAt(c, passes, |passes| - 1)
  {
    hide CleanPass, Possible, After;
  }

  /** A pass that was not clean leaves a message with one of the three fates, for good. */
  lemma {:induction false} UncleanNames(c: Setup, passes: seq<Pass>, k: nat) returns (o: nat)
    requires NoDuplicates(c.topics) && PossibleAll(c, passes) && k < |passes| && !CleanAt(c, passes, k)
    ensures o in Named(After(c, passes)) && PossibleAll(c, passes[..k + 1])
    ensures o < |After(c, passes[..k + 1]).polled|
    decreases |passes|
  {
    hide Possible, AfterPass, CleanPass, Named, NoDuplicates;
    var last := |passes| - 1;
    PrefixPossible(c, passes, last);
    LedgerHolds(c, passes[..last]);
    NamedGrow(c, After(c, passes[..last]), passes[last]);
    if k < last {
      SameClean(c, passes, last, k);
      o := UncleanNames(c, passes[..last], k);
      assert passes[..last][..k + 1] == passes[..k + 1];
    } else {
      assert passes[..k + 1] == passes;
      var before, now := Named(After(c, passes[..last])), Named(After(c, passes));
      assert now == before + (now - before);
      o := TopN.SomeMember(Named(After(c, passes)) - Named(After(c, passes[..last])));
    }
  }

  /**
   Over whole runs: everything below the committed position is stored if and only if every pass up to the
   last commit was clean. An unclean pass after which no commit came yet does no harm.
   */
  lemma StoredUnlessUnclean(c: Setup, passes: seq<Pass>)
    requires NoDuplicates(c.topics) && PossibleAll(c, passes)
    ensures StoredBelowCommit(After(c, passes)) <==>
      forall k: nat :: k < |passes| && CommitsSince(c, passes, k) ==> CleanAt(c, passes, k)
  {
    hide Possible, After, CommitsSince, CleanAt, StoredBelowCommit, PossibleAll, NoDuplicates;
    StoredUnlessNamed(c, passes);
    forall k: nat | k < |passes| && CommitsSince(c, passes, k) && !CleanAt(c, passes, k)
      ensures !NoneNamedBelowCommit(After(c, passes))
    {
      var o := UncleanNames(c, passes, k);
      CommitPasses(c, passes, k);
    }
    if !NoneNamedBelowCommit(After(c, passes)) {
      var o: nat :| o in Named(After(c, passes)) && o < After(c, passes).committed;
      var k := NamedByPass(c, passes, o);
      CommittedMoves(c, passes, k);
    }
  }

  /** A commit by the `k`-th pass or a later one covers everything polled in the `k`-th. */
  lemma CommitPasses(c: Setup, passes: seq<Pass>, k: nat)
    requires NoDuplicates(c.topics) && PossibleAll(c, passes) && k < |passes| && CommitsSince(c, passes, k)
    ensures PossibleAll(c, passes[..k + 1])
    ensures |After(c, passes[..k + 1]).polled| <= After(c, passes).committed
  {
    hide Possible, After, PossibleAll, NoDuplicates, CommitsAt;
    CommittedMoves(c, passes, k + 1);
    if !CommitsSince(c, passes, k + 1) {
      assert CommitsAt(c, passes, k);
      SameCommitUpTo(c, passes, k);
      PassMoves(c, passes[..k + 1]);
    }
  }

  lemma SameCommitUpTo(c: Setup, passes: seq<Pass>, k: nat)
    requires PossibleAll(c, passes) && k < |passes| && PossibleAll(c, passes[..k + 1]) && CommitsAt(c, passes, k)
    ensures CommitsAt(c, passes[..k + 1], k)
  {
    hide Commits, Possible, After;
    PrefixPossible(c, passes, k);
    PrefixPossible(c, passes[..k + 1], k);
    assert passes[..k + 1][..k] == passes[..k];
  }

  // ---------------------------------------------------------------- the documented reprocessing, refuted

  /** A poll of one good message from empty buffers. */
  lemma OneMessagePoll(iso: string -> Option<int>, topic: string, fields: map<string, Val>, base: nat)
    ensures Poll(iso, map[topic := []], [Data(topic, fields)], base) ==
      Polled(false, map[topic := []], map[topic := [Record(base, Normalize(iso, fields))]], 1)
  {
    hide Normalize;
    var buffers: Buffers := map[topic := []];
    var msgs := [Data(topic, fields)];
    var record := Record(base, Normalize(iso, fields));
    assert msgs[..0] == [];
    assert Scan(iso, buffers, [], base) == Scanned(buffers, 0, false);
    assert Examine(iso, buffers, msgs[0], base) == Some(buffers[topic := buffers[topic] + [record]]);
    assert buffers[topic] + [record] == [record];
    assert buffers[topic := [record]] == map[topic := [record]];
    assert Scan(iso, buffers, msgs, base) == Scanned(map[topic := [record]], 1, false);
  }

  /** It makes one task with one row. */
  lemma OneMessagePass(c: Setup, topic: string, fields: map<string, Val>, s: Ledger, p: Pass)
    requires c.topics == [topic] && s.buffers == map[topic := []] && p.msgs == [Data(topic, fields)]
    ensures PollOf(c, s, p).buffers == map[topic := []]
    ensures CycleRows(c, PollOf(c, s, p).batches) == [{|s.polled|}]
  {
    hide Normalize, Poll;
    OneMessagePoll(c.iso, topic, fields, |s.polled|);
    var record := Record(|s.polled|, Normalize(c.iso, fields));
    var batches := PollOf(c, s, p).batches;
    assert batches == map[topic := [record]];
    assert [topic][..0] == [];
    assert TaskTopics(c.topics, batches) == [topic];
    assert Offsets([record]) == {|s.polled|};
  }

  /** A pass whose only insert fails for good: the message is not acknowledged and nothing is committed. */
  lemma FailingPass(c: Setup, topic: string, fields: map<string, Val>) returns (p: Pass)
    requires c.topics == [topic] && c.max >= 1
    ensures p.msgs == [Data(topic, fields)] && Possible(c, Initial(c), p)
    ensures var t := AfterPass(c, Initial(c), p);
      t.polled == [Data(topic, fields)] && t.buffers == map[topic := []] && 0 in t.unacked && t.committed == 0
  {
    hide PollOf, CycleRows, Scan, Legal, Run, AckedRows, AllRows;
    var s := Initial(c);
    var failing := SingleTaskFails([{0}], c.max);
    p := Pass([Data(topic, fields)], failing, true);
    OneMessagePass(c, topic, fields, s, p);
    assert Possible(c, s, p);
    OneRow(EndOf(c, s, p).tasks);
  }

  /** A pass that inserts one message at once and commits. */
  lemma GoodPass(c: Setup, topic: string, fields: map<string, Val>, s: Ledger) returns (p: Pass)
    requires c.topics == [topic] && c.max >= 1 && s.buffers == map[topic := []]
    ensures p.msgs == [Data(topic, fields)] && Possible(c, s, p)
    ensures var t := AfterPass(c, s, p);
      t.polled == s.polled + [Data(topic, fields)] && s.unacked <= t.unacked && t.committed == |t.polled|
  {
    hide PollOf, CycleRows, Scan, Legal, Run, AckedRows, AllRows;
    var succeeding := SingleTaskSucceeds([{|s.polled|}], c.max);
    p := Pass([Data(topic, fields)], succeeding, true);
    OneMessagePass(c, topic, fields, s, p);
    assert Possible(c, s, p);
  }

  /**
   The documentation says that on an insert failure offsets are not committed and messages will reprocess.
   One failed cycle followed by one good cycle commits past the message that was never acknowledged.
   */
  lemma DocumentedReprocessingFails(c: Setup, topic: string, fields: map<string, Val>)
    returns (passes: seq<Pass>)
    requires c.topics == [topic] && c.max >= 1
    ensures PossibleAll(c, passes)
    ensures var s := After(c, passes);
      0 in s.unacked && s.polled == [Data(topic, fields), Data(topic, fields)] && s.committed == 2
  {
    hide Possible, AfterPass;
    var failed := FailingPass(c, topic, fields);
    var s := AfterPass(c, Initial(c), failed);
    var good := GoodPass(c, topic, fields, s);
    OneMorePass(c, [], Initial(c), failed);
    OneMorePass(c, [] + [failed], s, good);
    passes := [] + [failed] + [good];
  }

  lemma OneMorePass(c: Setup, passes: seq<Pass>, s: Ledger, p: Pass)
    requires PossibleAll(c, passes) && s == After(c, passes) && Possible(c, s, p)
    ensures PossibleAll(c, passes + [p]) && After(c, passes + [p]) == AfterPass(c, s, p)
  {
    hide Possible, AfterPass;
    assert (passes + [p])[..|passes + [p]| - 1] == passes;
  }

  lemma OneRow(tasks: seq<Status>)
    requires |tasks| == 1 && tasks[0].Failed?
    ensures AllRows([{0}]) == {0} && AckedRows([{0}], tasks) == {}
  {
    assert 0 in [{0}][0];
  }
}

/**
 The storage service over whole runs: poll, insert cycle, conditional commit, again. A message is named
 by its place in delivery order. The ledger sets are history; the service reads only the buffers.
 */
module StorageRuns {
  import opened Wrappers
  import opened StorageConsumer
  import opened InsertCycle

  /** Settings: subscribed topics in dictionary order, timestamp parsing, concurrent inserts allowed. */
  datatype Setup = Setup(topics: seq<string>, iso: string -> Option<int>, max: nat)

  ghost predicate NoDuplicates(topics: seq<string>) {
    forall i, j :: 0 <= i < j < |topics| ==> topics[i] != topics[j]
  }

  datatype Ledger = Ledger(
    buffers: Buffers,
    polled: seq<Msg>,            // everything `consume` handed out; its length is the consumer position
    committed: nat,              // committed position
    table: multiset<nat>,        // row copies in ClickHouse
    acked: set<nat>,             // in a batch whose insert returned
    unacked: set<nat>,           // in a batch that failed or was skipped
    undecodable: set<nat>,       // JSONDecodeError
    abandoned: set<nat>)         // at or behind the message that made a poll raise

  function Initial(c: Setup): Ledger {
    Ledger(map t | t in c.topics :: [], [], 0, multiset{}, {}, {}, {}, {})
  }

  predicate CarriesData(msg: Msg) {
    msg.Data? || msg.BadJson? || msg.Poison?
  }

  predicate IsRecord(msg: Msg) {
    msg.Data?
  }

  predicate IsBadJson(msg: Msg) {
    msg.BadJson?
  }

  function Offsets(records: seq<Record>): set<nat> {
    set r | r in records :: r.offset
  }

  function Buffered(buffers: Buffers): set<nat> {
    set t, r | t in buffers && r in buffers[t] :: r.offset
  }

  /** The topics that get an insert task, in dictionary order. */
  function TaskTopics(topics: seq<string>, batches: Buffers): seq<string> {
    if topics == [] then []
    else
      var t := topics[|topics| - 1];
      TaskTopics(topics[..|topics| - 1], batches) + (if t in batches && batches[t] != [] then [t] else [])
  }

  lemma {:induction false} TaskTopicsAre(topics: seq<string>, batches: Buffers)
    ensures forall t :: t in TaskTopics(topics, batches) <==> t in topics && t in batches && batches[t] != []
    ensures NoDuplicates(topics) ==> NoDuplicates(TaskTopics(topics, batches))
    decreases |topics|
  {
    if topics != [] {
      var init, last := topics[..|topics| - 1], topics[|topics| - 1];
      TaskTopicsAre(init, batches);
      assert topics == init + [last];
      if NoDuplicates(topics) {
        assert last !in init;
      }
    }
  }

  /** Tasks are created in the order of the dictionary. */
  ghost predicate InTopicOrder(some: seq<string>, topics: seq<string>) {
    forall i, j :: 0 <= i < j < |some| ==> Before(some[i], some[j], topics)
  }

  ghost predicate Before(a: string, b: string, topics: seq<string>) {
    exists k, l :: 0 <= k < l < |topics| && topics[k] == a && topics[l] == b
  }

  lemma BeforeMore(a: string, b: string, init: seq<string>, topics: seq<string>)
    requires Before(a, b, init) && init <= topics
    ensures Before(a, b, topics)
  {
    var k, l :| 0 <= k < l < |init| && init[k] == a && init[l] == b;
    assert topics[k] == a && topics[l] == b;
  }

  lemma {:induction false} TaskTopicsInOrder(topics: seq<string>, batches: Buffers)
    ensures InTopicOrder(TaskTopics(topics, batches), topics)
    decreases |topics|
  {
    if topics != [] {
      var last := |topics| - 1;
      var init := topics[..last];
      var some, all := TaskTopics(init, batches), TaskTopics(topics, batches);
      TaskTopicsInOrder(init, batches);
      TaskTopicsAre(init, batches);
      forall i, j | 0 <= i < j < |all| ensures Before(all[i], all[j], topics) {
        if j < |some| {
          assert Before(some[i], some[j], init);
          BeforeMore(some[i], some[j], init, topics);
        } else {
          assert all[i] == some[i] && some[i] in init;
          var k :| 0 <= k < |init| && init[k] == some[i];
          assert topics[k] == all[i] && topics[last] == all[j];
        }
      }
    }
  }

  /** The rows of each task. */
  function RowsOf(topics: seq<string>, batches: Buffers): Rows
    requires forall t :: t in topics ==> t in batches
  {
    seq(|topics|, i requires 0 <= i < |topics| => Offsets(batches[topics[i]]))
  }

  function CycleRows(c: Setup, batches: Buffers): Rows {
    TaskTopicsAre(c.topics, batches);
    RowsOf(TaskTopics(c.topics, batches), batches)
  }

  function AckedRows(rows: Rows, tasks: seq<Status>): set<nat>
    requires |rows| == |tasks|
  {
    set i, r | 0 <= i < |rows| && tasks[i].Acknowledged? && r in rows[i] :: r
  }

  function AllRows(rows: Rows): set<nat> {
    set i, r | 0 <= i < |rows| && r in rows[i] :: r
  }

  /** One pass of the loop: what the poll handed out, how the tasks interleaved, whether the commit worked. */
  datatype Pass = Pass(msgs: seq<Msg>, events: seq<Event>, commitOk: bool)

  function PollOf(c: Setup, s: Ledger, p: Pass): Polled {
    Poll(c.iso, s.buffers, p.msgs, |s.polled|)
  }

  /** The insert cycle of a pass runs to the end of `gather`. */
  predicate Possible(c: Setup, s: Ledger, p: Pass) {
    var rows := CycleRows(c, PollOf(c, s, p).batches);
    Legal(rows, NotStarted(|rows|, c.max), p.events) && AllFinished(Run(rows, NotStarted(|rows|, c.max), p.events))
  }

  function Places(msgs: seq<Msg>, from: nat, to: nat, base: nat, kind: Msg -> bool): set<nat>
    requires to <= |msgs|
  {
    set i | from <= i < to && kind(msgs[i]) :: base + i
  }

  /** The ledger right after the poll. */
  function AfterPoll(c: Setup, s: Ledger, p: Pass): Ledger {
    var poll := PollOf(c, s, p);
    PollExamined(c.iso, s.buffers, p.msgs, |s.polled|);
    var base := |s.polled|;
    s.(buffers := poll.buffers, polled := s.polled + p.msgs,
       undecodable := s.undecodable + Places(p.msgs, 0, poll.examined, base, IsBadJson),
       abandoned := s.abandoned + Places(p.msgs, poll.examined, |p.msgs|, base, CarriesData))
  }

  lemma PollExamined(iso: string -> Option<int>, buffers: Buffers, msgs: seq<Msg>, base: nat)
    ensures Poll(iso, buffers, msgs, base).examined <= |msgs|
  {
  }

  /** The ledger after a finished cycle. */
  function Settle(s: Ledger, rows: Rows, end: Cycle, committed: nat): Ledger
    requires |rows| == |end.tasks|
  {
    s.(table := s.table + end.landed,
       acked := s.acked + AckedRows(rows, end.tasks),
       unacked := s.unacked + (AllRows(rows) - AckedRows(rows, end.tasks)),
       committed := committed)
  }

  /** Insert, and commit the consumer position unless some batch failed. A pass without records does neither. */
  function AfterPass(c: Setup, s: Ledger, p: Pass): Ledger
    requires Possible(c, s, p)
  {
    var rows := CycleRows(c, PollOf(c, s, p).batches);
    var s' := AfterPoll(c, s, p);
    if rows == [] then s'
    else
      var end := Run(rows, NotStarted(|rows|, c.max), p.events);
      Settle(s', rows, end, if !end.failed && p.commitOk then |s'.polled| else s.committed)
  }

  /** The pass reached the commit branch and the commit went through. */
  predicate Commits(c: Setup, s: Ledger, p: Pass)
    requires Possible(c, s, p)
  {
    var rows := CycleRows(c, PollOf(c, s, p).batches);
    rows != [] && !Run(rows, NotStarted(|rows|, c.max), p.events).failed && p.commitOk
  }

  /** The records of the batches that a pass stores, which is what `STORAGE_RECORDS` should grow by. */
  function PassRecords(c: Setup, s: Ledger, p: Pass): nat
    requires Possible(c, s, p)
  {
    var batches := PollOf(c, s, p).batches;
    var rows := CycleRows(c, batches);
    Total(AckedRecords(TaskTopics(c.topics, batches), batches), Run(rows, NotStarted(|rows|, c.max), p.events).tasks)
  }

  predicate PossibleAll(c: Setup, passes: seq<Pass>)
    decreases |passes|, 0
  {
    passes != [] ==>
      && PossibleAll(c, passes[..|passes| - 1])
      && Possible(c, After(c, passes[..|passes| - 1]), passes[|passes| - 1])
  }

  function After(c: Setup, passes: seq<Pass>): Ledger
    requires PossibleAll(c, passes)
    decreases |passes|, 1
  {
    if passes == [] then Initial(c)
    else AfterPass(c, After(c, passes[..|passes| - 1]), passes[|passes| - 1])
  }

  /** The records stored over a run. */
  function RunRecords(c: Setup, passes: seq<Pass>): nat
    requires PossibleAll(c, passes)
    decreases |passes|
  {
    if passes == [] then 0
    else
      var init := passes[..|passes| - 1];
      RunRecords(c, init) + PassRecords(c, After(c, init), passes[|passes| - 1])
  }

  // ---------------------------------------------------------------- buffers as sets of places

  predicate Increasing(records: seq<Record>) {
    forall i, j :: 0 <= i < j < |records| ==> records[i].offset < records[j].offset
  }

  /** Buffers hold each place once, and only places below `next`. */
  ghost predicate BuffersFit(buffers: Buffers, next: nat) {
    && (forall t :: t in buffers ==> Increasing(buffers[t]))
    && (forall t, r :: t in buffers && r in buffers[t] ==> r.offset < next)
    && (forall t, u :: t in buffers && u in buffers && t != u ==> Offsets(buffers[t]) !! Offsets(buffers[u]))
  }

  /** Batches of distinct places have as many rows as records. */
  lemma {:induction false} IncreasingSize(records: seq<Record>)
    requires Increasing(records)
    ensures |Offsets(records)| == |records|
    decreases |records|
  {
    if records != [] {
      var init, last := records[..|records| - 1], records[|records| - 1];
      IncreasingSize(init);
      assert records == init + [last];
      assert Offsets(records) == Offsets(init) + {last.offset};
      assert last.offset !in Offsets(init);
    }
  }

  /** The acknowledged batch sizes, counted in records. */
  function AckedRecords(topics: seq<string>, batches: Buffers): (nat, Status) -> nat {
    (i: nat, t: Status) =>
      if t.Acknowledged? && i < |topics| && topics[i] in batches then |batches[topics[i]]| else 0
  }

  /** Each task has as many rows as its batch has records. */
  lemma RowsCountRecords(c: Setup, batches: Buffers, next: nat, i: nat)
    requires BuffersFit(batches, next) && i < |CycleRows(c, batches)|
    ensures var topics := TaskTopics(c.topics, batches);
      i < |topics| && topics[i] in batches && |CycleRows(c, batches)[i]| == |batches[topics[i]]|
  {
    TaskTopicsAre(c.topics, batches);
    IncreasingSize(batches[TaskTopics(c.topics, batches)[i]]);
  }

  lemma IncreasingSnoc(list: seq<Record>, record: Record)
    requires Increasing(list) && forall r :: r in list ==> r.offset < record.offset
    ensures Increasing(list + [record]) && Offsets(list + [record]) == Offsets(list) + {record.offset}
  {
    var longer := list + [record];
    assert forall r :: r in longer <==> r in list || r == record;
    forall i, j | 0 <= i < j < |longer| ensures longer[i].offset < longer[j].offset {
      if j == |list| { assert list[i] in list; }
    }
  }

  lemma AppendFits(buffers: Buffers, next: nat, topic: string, record: Record)
    requires BuffersFit(buffers, next) && topic in buffers && record.offset == next
    ensures BuffersFit(buffers[topic := buffers[topic] + [record]], next + 1)
  {
    hide Increasing;
    var list := buffers[topic] + [record];
    IncreasingSnoc(buffers[topic], record);
    assert forall r :: r in list <==> r in buffers[topic] || r == record;
  }

  lemma AppendBuffers(buffers: Buffers, topic: string, record: Record)
    requires topic in buffers
    ensures Buffered(buffers[topic := buffers[topic] + [record]]) == Buffered(buffers) + {record.offset}
  {
    var after := buffers[topic := buffers[topic] + [record]];
    forall o | o in Buffered(buffers) + {record.offset} ensures o in Buffered(after) {
      if o == record.offset {
        assert record in after[topic];
      } else {
        var t, r :| t in buffers && r in buffers[t] && r.offset == o;
        assert r in after[t];
      }
    }
  }

  /** One message that does not raise. */
  lemma ExamineFits(iso: string -> Option<int>, buffers: Buffers, msg: Msg, offset: nat)
    requires BuffersFit(buffers, offset) && Examine(iso, buffers, msg, offset).Some?
    ensures var after := Examine(iso, buffers, msg, offset).value;
      && BuffersFit(after, offset + 1)
      && Buffered(after) == Buffered(buffers) + (if msg.Data? then {offset} else {})
      && !msg.Broken? && !msg.Poison?
  {
    hide Normalize, Buffered;
    if msg.Data? {
      AppendFits(buffers, offset, msg.topic, Record(offset, Normalize(iso, msg.fields)));
      AppendBuffers(buffers, msg.topic, Record(offset, Normalize(iso, msg.fields)));
    }
  }

  lemma PlacesSnoc(msgs: seq<Msg>, n: nat, base: nat, kind: Msg -> bool)
    requires n < |msgs|
    ensures Places(msgs, 0, n + 1, base, kind)
         == Places(msgs, 0, n, base, kind) + (if kind(msgs[n]) then {base + n} else {})
    ensures Places(msgs, 0, n, base, kind) == Places(msgs[..n], 0, n, base, kind)
  {
  }

  /** A scan adds to the buffers exactly the places of the records it got through. */
  lemma {:induction false} ScanFits(iso: string -> Option<int>, buffers: Buffers, msgs: seq<Msg>, base: nat)
    requires BuffersFit(buffers, base)
    ensures var scan := Scan(iso, buffers, msgs, base);
      && BuffersFit(scan.buffers, base + scan.examined)
      && Buffered(scan.buffers) == Buffered(buffers) + Places(msgs, 0, scan.examined, base, IsRecord)
      && (forall i :: 0 <= i < scan.examined ==> !msgs[i].Broken? && !msgs[i].Poison?)
    decreases |msgs|
  {
    hide Examine, Buffered, BuffersFit;
    if msgs != [] {
      var last := |msgs| - 1;
      var before := Scan(iso, buffers, msgs[..last], base);
      ScanFits(iso, buffers, msgs[..last], base);
      PlacesPrefix(msgs, last, before.examined, base, IsRecord);
      if !before.raised && Examine(iso, before.buffers, msgs[last], base + last).Some? {
        ExamineFits(iso, before.buffers, msgs[last], base + last);
        PlacesSnoc(msgs, last, base, IsRecord);
      }
    }
  }

  lemma PlacesPrefix(msgs: seq<Msg>, n: nat, to: nat, base: nat, kind: Msg -> bool)
    requires to <= n <= |msgs|
    ensures Places(msgs[..n], 0, to, base, kind) == Places(msgs, 0, to, base, kind)
  {
  }

  // ---------------------------------------------------------------- the ledger

  ghost predicate Disjoint(s: Ledger, held: set<nat>) {
    && s.acked !! s.unacked !! s.undecodable !! s.abandoned !! held
  }

  ghost predicate Complete(s: Ledger, held: set<nat>) {
    s.acked + s.unacked + s.undecodable + s.abandoned + held
      == Places(s.polled, 0, |s.polled|, 0, CarriesData)
  }

  /** How often a place may be in the table. */
  ghost predicate TableFits(s: Ledger) {
    && (forall o :: o in s.acked ==> 1 <= s.table[o] <= MAX_RETRIES)
    && (forall o :: o in s.unacked ==> s.table[o] <= MAX_RETRIES)
    && (forall o :: o in s.table ==> o in s.acked || o in s.unacked)
  }

  /**
   Every data message is in exactly one ledger set, or held: in a buffer, or in the batches of the pass
   in progress. Nothing below the committed position is held.
   */
  ghost predicate Accounted(c: Setup, s: Ledger, batched: set<nat>) {
    var held := Buffered(s.buffers) + batched;
    && BuffersFit(s.buffers, |s.polled|)
    && s.buffers.Keys == (set t | t in c.topics)
    && Disjoint(s, held) && Complete(s, held) && TableFits(s)
    && s.committed <= |s.polled|
    && (forall o :: o in held ==> s.committed <= o < |s.polled|)
  }

  lemma InitialAccounted(c: Setup)
    ensures Accounted(c, Initial(c), {})
  {
  }

  /** What a poll does to places: they move from the tail of the log into buffers, batches or the ledger. */
  lemma PollPlaces(c: Setup, s: Ledger, p: Pass)
    requires BuffersFit(s.buffers, |s.polled|)
    ensures var poll := PollOf(c, s, p);
      && poll.examined <= |p.msgs|
      && BuffersFit(poll.buffers, |s.polled| + |p.msgs|) && BuffersFit(poll.batches, |s.polled| + |p.msgs|)
      && poll.buffers.Keys == s.buffers.Keys
      && (poll.batches == map[] || poll.batches.Keys == s.buffers.Keys)
      && Buffered(poll.buffers) + Buffered(poll.batches)
         == Buffered(s.buffers) + Places(p.msgs, 0, poll.examined, |s.polled|, IsRecord)
      && (poll.batches != map[] ==> Buffered(poll.buffers) == {} && poll.examined == |p.msgs|)
      && (forall i :: 0 <= i < poll.examined ==> !p.msgs[i].Broken? && !p.msgs[i].Poison?)
  {
    hide Scan, BuffersFit, Places, Buffered;
    NothingBuffered(s.buffers, |s.polled| + |p.msgs|);
    if p.msgs == [] {
      assert Places(p.msgs, 0, 0, |s.polled|, IsRecord) == {} by { NoPlaces(p.msgs, |s.polled|); }
    } else {
      ScanFits(c.iso, s.buffers, p.msgs, |s.polled|);
      var scan := Scan(c.iso, s.buffers, p.msgs, |s.polled|);
      FitsLater(scan.buffers, |s.polled| + scan.examined, |s.polled| + |p.msgs|);
    }
  }

  lemma FitsLater(buffers: Buffers, next: nat, later: nat)
    requires BuffersFit(buffers, next) && next <= later
    ensures BuffersFit(buffers, later)
  {
  }

  lemma NothingBuffered(buffers: Buffers, next: nat)
    ensures BuffersFit(Emptied(buffers), next) && Buffered(Emptied(buffers)) == {}
    ensures BuffersFit(map[], next) && Buffered(map[]) == {}
  {
  }

  lemma NoPlaces(msgs: seq<Msg>, base: nat)
    ensures Places(msgs, 0, 0, base, IsRecord) == {}
  {
  }

  /** The data places of a longer log. */
  lemma PlacesAppend(a: seq<Msg>, b: seq<Msg>, examined: nat)
    requires examined <= |b| && forall i :: 0 <= i < examined ==> !b[i].Broken? && !b[i].Poison?
    ensures Places(a + b, 0, |a + b|, 0, CarriesData)
         == Places(a, 0, |a|, 0, CarriesData)
          + Places(b, 0, examined, |a|, IsRecord)
          + Places(b, 0, examined, |a|, IsBadJson)
          + Places(b, examined, |b|, |a|, CarriesData)
  {
    var left := Places(a + b, 0, |a + b|, 0, CarriesData);
    var earlier := Places(a, 0, |a|, 0, CarriesData);
    var later := Places(b, 0, |b|, |a|, CarriesData);
    assert left == earlier + later by {
      forall o | o in left ensures o in earlier + later {
        if o < |a| {
          assert (a + b)[o] == a[o] && o == 0 + o;
        } else {
          assert (a + b)[o] == b[o - |a|] && o == |a| + (o - |a|);
        }
      }
      forall o | o in earlier ensures o in left {
        assert (a + b)[o] == a[o] && o == 0 + o;
      }
      forall o | o in later ensures o in left {
        assert (a + b)[o] == b[o - |a|] && o == 0 + o;
      }
    }
    PlacesSplit(b, examined, |a|);
  }

  lemma PlacesSplit(b: seq<Msg>, examined: nat, base: nat)
    requires examined <= |b| && forall i :: 0 <= i < examined ==> !b[i].Broken? && !b[i].Poison?
    ensures Places(b, 0, |b|, base, CarriesData)
         == Places(b, 0, examined, base, IsRecord) + Places(b, 0, examined, base, IsBadJson)
          + Places(b, examined, |b|, base, CarriesData)
  {
  }

  /** The places of one poll lie behind the log and fall into three disjoint kinds. */
  lemma NewPlaces(b: seq<Msg>, examined: nat, base: nat)
    requires examined <= |b|
    ensures var data := Places(b, 0, examined, base, IsRecord);
      var bad := Places(b, 0, examined, base, IsBadJson);
      var rest := Places(b, examined, |b|, base, CarriesData);
      && data !! bad !! rest
      && forall o :: o in data + bad + rest ==> base <= o < base + |b|
  {
    var data := Places(b, 0, examined, base, IsRecord);
    var bad := Places(b, 0, examined, base, IsBadJson);
    assert forall o :: o in data ==> b[o - base].Data?;
    assert forall o :: o in bad ==> b[o - base].BadJson?;
  }

  /** Five disjoint sets stay disjoint when new, higher places are added to three of them. */
  lemma GrowDisjoint(a: set<nat>, b: set<nat>, u: set<nat>, v: set<nat>, w: set<nat>,
                     newU: set<nat>, newV: set<nat>, newW: set<nat>, bound: nat)
    requires a !! b !! u !! v !! w
    requires forall o :: o in a + b + u + v + w ==> o < bound
    requires newU !! newV !! newW
    requires forall o :: o in newU + newV + newW ==> bound <= o
    ensures a !! b !! (u + newU) !! (v + newV) !! (w + newW)
  {
    assert (a + b + u + v + w) !! (newU + newV + newW);
  }

  lemma PlacesBelow(msgs: seq<Msg>)
    ensures forall o :: o in Places(msgs, 0, |msgs|, 0, CarriesData) ==> o < |msgs|
  {
  }

  /** A poll keeps the books, with the returned batches in hand. */
  lemma PollAccounted(c: Setup, s: Ledger, p: Pass)
    requires Accounted(c, s, {})
    ensures Accounted(c, AfterPoll(c, s, p), Buffered(PollOf(c, s, p).batches))
  {
    hide Buffered, BuffersFit, Places, PollOf, TableFits;
    var poll, t := PollOf(c, s, p), AfterPoll(c, s, p);
    var base, held, held' := |s.polled|, Buffered(s.buffers), Buffered(poll.buffers) + Buffered(poll.batches);
    assert Buffered(s.buffers) + {} == held;
    PollPlaces(c, s, p);
    NewPlaces(p.msgs, poll.examined, base);
    PlacesBelow(s.polled);
    var data := Places(p.msgs, 0, poll.examined, base, IsRecord);
    var bad := Places(p.msgs, 0, poll.examined, base, IsBadJson);
    var rest := Places(p.msgs, poll.examined, |p.msgs|, base, CarriesData);
    assert held' == held + data;
    assert t.undecodable == s.undecodable + bad && t.abandoned == s.abandoned + rest;
    assert bad + rest + data == data + bad + rest;
    GrowDisjoint(s.acked, s.unacked, s.undecodable, s.abandoned, held, bad, rest, data, base);
    PlacesAppend(s.polled, p.msgs, poll.examined);
    assert s.acked + s.unacked + (s.undecodable + bad) + (s.abandoned + rest) + (held + data)
        == (s.acked + s.unacked + s.undecodable + s.abandoned + held) + data + bad + rest;
    assert TableFits(t) by { SameTable(s, t); }
    assert Disjoint(t, held');
    assert Complete(t, held');
    assert forall o :: o in held' ==> s.committed <= o < |t.polled|;
    assert t.buffers.Keys == (set t | t in c.topics);
    assert BuffersFit(t.buffers, |t.polled|);
  }

  lemma SameTable(s: Ledger, t: Ledger)
    requires TableFits(s) && t.acked == s.acked && t.unacked == s.unacked && t.table == s.table
    ensures TableFits(t)
  {
  }

  lemma CycleRowsAre(c: Setup, batches: Buffers, next: nat)
    requires NoDuplicates(c.topics) && BuffersFit(batches, next)
    requires batches == map[] || batches.Keys == (set t | t in c.topics)
    ensures AllRows(CycleRows(c, batches)) == Buffered(batches)
    ensures DisjointRows(CycleRows(c, batches))
  {
    hide BuffersFit, TaskTopics, NoDuplicates;
    var topics, rows := TaskTopics(c.topics, batches), CycleRows(c, batches);
    TaskTopicsAre(c.topics, batches);
    forall o | o in Buffered(batches) ensures o in AllRows(rows) {
      var t, r :| t in batches && r in batches[t] && r.offset == o;
      assert t in topics;
      var i :| 0 <= i < |topics| && topics[i] == t;
      assert o in rows[i];
    }
    forall o | o in AllRows(rows) ensures o in Buffered(batches) {
      var i :| 0 <= i < |rows| && o in rows[i];
      var r :| r in batches[topics[i]] && r.offset == o;
    }
    forall i, j | 0 <= i < j < |rows| ensures rows[i] !! rows[j] {
      assert topics[i] != topics[j] by { DistinctAt(topics, i, j); }
      FitDisjoint(batches, next, topics[i], topics[j]);
    }
  }

  lemma DistinctAt(topics: seq<string>, i: nat, j: nat)
    requires NoDuplicates(topics) && i < j < |topics|
    ensures topics[i] != topics[j]
  {
  }

  lemma FitDisjoint(buffers: Buffers, next: nat, t: string, u: string)
    requires BuffersFit(buffers, next) && t in buffers && u in buffers && t != u
    ensures Offsets(buffers[t]) !! Offsets(buffers[u])
  {
  }

  lemma SettleSets(a: set<nat>, b: set<nat>, u: set<nat>, v: set<nat>, all: set<nat>, acked: set<nat>)
    requires a !! b !! u !! v !! all && acked <= all
    ensures (a + acked) !! (b + (all - acked)) !! u !! v !! {}
    ensures a + acked + (b + (all - acked)) + u + v + {} == a + b + u + v + all
  {
  }

  lemma SettleTable(s: Ledger, rows: Rows, end: Cycle, committed: nat)
    requires |rows| == |end.tasks| && TableFits(s)
    requires AllRows(rows) !! s.acked && AllRows(rows) !! s.unacked
    requires forall o :: o in end.landed ==> o in AllRows(rows) && end.landed[o] <= MAX_RETRIES
    requires forall o :: o in AckedRows(rows, end.tasks) ==> 1 <= end.landed[o] <= MAX_RETRIES
    ensures TableFits(Settle(s, rows, end, committed))
  {
    AckedAreRows(rows, end.tasks);
    hide AllRows, AckedRows;
    var t := Settle(s, rows, end, committed);
    forall o | o in t.table || o in t.acked || o in t.unacked
      ensures o in AllRows(rows) ==> t.table[o] == end.landed[o]
      ensures o !in AllRows(rows) ==> t.table[o] == s.table[o]
    {
      assert t.table[o] == s.table[o] + end.landed[o];
      if o in AllRows(rows) { assert o !in s.table; } else { assert o !in end.landed; }
    }
  }

  /** A finished cycle acknowledges the rows in hand or not, and puts at least the former in the table. */
  lemma CycleAccounted(c: Setup, s: Ledger, rows: Rows, events: seq<Event>, committed: nat)
    requires Accounted(c, s, AllRows(rows)) && DisjointRows(rows)
    requires Legal(rows, NotStarted(|rows|, c.max), events)
    requires Buffered(s.buffers) == {}
    requires s.committed <= committed <= |s.polled|
    ensures Accounted(c, Settle(s, rows, Run(rows, NotStarted(|rows|, c.max), events), committed), {})
  {
    hide AckedRows, AllRows, Legal, Run, BuffersFit, TableFits, DisjointRows, Places, Buffered;
    var end := Run(rows, NotStarted(|rows|, c.max), events);
    var acked := AckedRows(rows, end.tasks);
    assert {} + AllRows(rows) == AllRows(rows);
    AckedAreRows(rows, end.tasks);
    LandedFits(rows, c.max, events);
    SettleSets(s.acked, s.unacked, s.undecodable, s.abandoned, AllRows(rows), acked);
    SettleTable(s, rows, end, committed);
  }

  lemma AckedAreRows(rows: Rows, tasks: seq<Status>)
    requires |rows| == |tasks|
    ensures AckedRows(rows, tasks) <= AllRows(rows)
  {
  }

  /** What a cycle leaves in the table, by row. */
  lemma LandedFits(rows: Rows, max: nat, events: seq<Event>)
    requires DisjointRows(rows) && Legal(rows, NotStarted(|rows|, max), events)
    ensures var end := Run(rows, NotStarted(|rows|, max), events);
      && (forall o :: o in end.landed ==> o in AllRows(rows) && end.landed[o] <= MAX_RETRIES)
      && (forall o :: o in AckedRows(rows, end.tasks) ==> 1 <= end.landed[o] <= MAX_RETRIES)
  {
    var end := Run(rows, NotStarted(|rows|, max), events);
    InvariantHolds(rows, max, events);
    forall o | o in end.landed ensures o in AllRows(rows) && end.landed[o] <= MAX_RETRIES {
      var i :| 0 <= i < |rows| && o in rows[i];
      RowMultiplicity(rows, max, events, i, o);
    }
    forall o | o in AckedRows(rows, end.tasks) ensures 1 <= end.landed[o] <= MAX_RETRIES {
      var i :| 0 <= i < |rows| && end.tasks[i].Acknowledged? && o in rows[i];
      RowMultiplicity(rows, max, events, i, o);
    }
  }

  // ---------------------------------------------------------------- whole runs

  lemma PassAccounted(c: Setup, s: Ledger, p: Pass)
    requires NoDuplicates(c.topics) && Accounted(c, s, {}) && Possible(c, s, p)
    ensures Accounted(c, AfterPass(c, s, p), {})
    ensures Commits(c, s, p) ==> Buffered(AfterPass(c, s, p).buffers) == {}
  {
    hide Disjoint, Complete, TableFits, BuffersFit, Buffered, NoDuplicates, Legal, Run;
    hide DisjointRows, AllRows, AckedRows;
    var poll, t := PollOf(c, s, p), AfterPoll(c, s, p);
    var rows := CycleRows(c, poll.batches);
    PollAccounted(c, s, p);
    PollPlaces(c, s, p);
    CycleRowsAre(c, poll.batches, |t.polled|);
    if rows == [] {
      assert AllRows([]) == {} by { NoRows(); }
    } else {
      assert poll.batches != map[] by { NoBatchesNoRows(c); }
      CycleAccounted(c, t, rows, p.events, AfterPass(c, s, p).committed);
    }
  }

  lemma NoRows()
    ensures AllRows([]) == {}
  {
  }

  lemma NoBatchesNoRows(c: Setup)
    ensures CycleRows(c, map[]) == []
  {
    NoBatchesNoTasks(c.topics);
  }

  lemma {:induction false} NoBatchesNoTasks(topics: seq<string>)
    ensures TaskTopics(topics, map[]) == []
    decreases |topics|
  {
    if topics != [] {
      NoBatchesNoTasks(topics[..|topics| - 1]);
    }
  }

  /** In every reachable state every data message polled so far is in exactly one place. */
  lemma {:induction false} LedgerHolds(c: Setup, passes: seq<Pass>)
    requires NoDuplicates(c.topics) && PossibleAll(c, passes)
    ensures Accounted(c, After(c, passes), {})
    decreases |passes|
  {
    hide Accounted, AfterPass, Possible;
    if passes == [] {
      InitialAccounted(c);
    } else {
      LedgerHolds(c, passes[..|passes| - 1]);
      PassAccounted(c, After(c, passes[..|passes| - 1]), passes[|passes| - 1]);
    }
  }
}

/** KafkaBatchConsumer: per-topic buffers that survive an exception in the middle of a poll. */
module StorageConsumer {
  import opened Wrappers

  /** A decoded field: a string, a parsed timestamp, or anything else. */
  datatype Val = Text(s: string) | Time(at: int) | Plain(id: nat)

  /** A buffered record. `offset` is its place in delivery order; it only names the record. */
  datatype Record = Record(offset: nat, fields: map<string, Val>)

  /** What one consumed message turns out to be. */
  datatype Msg =
    | Eof                                               // _PARTITION_EOF marker, carries no data
    | Broken                                            // any other error object: the poll raises
    | BadJson                                           // JSONDecodeError: skipped
    | Poison                                            // any other exception while decoding: the poll raises
    | Data(topic: string, fields: map<string, Val>)

  type Buffers = map<string, seq<Record>>

  const TS_FIELDS := ["window_start", "window_end", "start_time", "end_time"]

  /** `_maybe_parse_timestamp` on a string, applied only to strings. */
  function ParseTimestamp(iso: string -> Option<int>, v: Val): Val {
    if v.Text? && iso(v.s).Some? then Time(iso(v.s).value) else v
  }

  function Normalize(iso: string -> Option<int>, fields: map<string, Val>): map<string, Val> {
    map k | k in fields :: if k in TS_FIELDS then ParseTimestamp(iso, fields[k]) else fields[k]
  }

  // ---------------------------------------------------------------- specification of a poll

  /** One message: the buffers after it, or `None` if it raises. An unsubscribed topic is a KeyError. */
  function Examine(iso: string -> Option<int>, buffers: Buffers, msg: Msg, offset: nat): Option<Buffers> {
    match msg
    case Eof => Some(buffers)
    case BadJson => Some(buffers)
    case Broken => None
    case Poison => None
    case Data(topic, fields) =>
      if topic in buffers
      then Some(buffers[topic := buffers[topic] + [Record(offset, Normalize(iso, fields))]])
      else None
  }

  /** `examined` messages were handled; if `raised`, the next one raised. */
  datatype Scanned = Scanned(buffers: Buffers, examined: nat, raised: bool)

  function Scan(iso: string -> Option<int>, buffers: Buffers, msgs: seq<Msg>, base: nat): (r: Scanned)
    ensures r.examined <= |msgs| && (r.raised <==> r.examined < |msgs|)
    ensures r.buffers.Keys == buffers.Keys
  {
    if msgs == [] then Scanned(buffers, 0, false)
    else
      var last := |msgs| - 1;
      var before := Scan(iso, buffers, msgs[..last], base);
      if before.raised then before
      else match Examine(iso, before.buffers, msgs[last], base + last)
        case None => Scanned(before.buffers, last, true)
        case Some(after) => Scanned(after, last + 1, false)
  }

  function Emptied(buffers: Buffers): Buffers {
    map topic | topic in buffers :: []
  }

  datatype Polled = Polled(raised: bool, buffers: Buffers, batches: Buffers, examined: nat)

  /** `consume_batch` when `consume` handed out `msgs`, the first of them at place `base`. */
  function Poll(iso: string -> Option<int>, buffers: Buffers, msgs: seq<Msg>, base: nat): Polled {
    if msgs == [] then Polled(false, buffers, map[], 0)
    else
      var scan := Scan(iso, buffers, msgs, base);
      if scan.raised then Polled(true, scan.buffers, map[], scan.examined)
      else Polled(false, Emptied(buffers), scan.buffers, |msgs|)
  }

  /** The record that one message contributes to a topic, if any. */
  function DecodedOne(iso: string -> Option<int>, topic: string, msg: Msg, offset: nat): seq<Record> {
    if msg.Data? && msg.topic == topic then [Record(offset, Normalize(iso, msg.fields))] else []
  }

  /** The records that the messages of one topic decode to, in order. */
  function Decoded(iso: string -> Option<int>, topic: string, msgs: seq<Msg>, base: nat): seq<Record> {
    if msgs == [] then []
    else
      var last := |msgs| - 1;
      Decoded(iso, topic, msgs[..last], base) + DecodedOne(iso, topic, msgs[last], base + last)
  }

  lemma ExamineAppends(iso: string -> Option<int>, buffers: Buffers, msg: Msg, offset: nat, topic: string)
    requires topic in buffers && Examine(iso, buffers, msg, offset).Some?
    ensures var after := Examine(iso, buffers, msg, offset).value;
      topic in after && after[topic] == buffers[topic] + DecodedOne(iso, topic, msg, offset)
  {
    hide Normalize;
  }

  /** A scan appends to each buffer exactly the records of its topic among the messages it got through. */
  lemma {:induction false} ScanAppends(
    iso: string -> Option<int>, buffers: Buffers, msgs: seq<Msg>, base: nat, topic: string)
    requires topic in buffers
    ensures var scan := Scan(iso, buffers, msgs, base);
      scan.buffers[topic] == buffers[topic] + Decoded(iso, topic, msgs[..scan.examined], base)
    decreases |msgs|
  {
    hide Examine, DecodedOne;
    if msgs != [] {
      var last := |msgs| - 1;
      var before := Scan(iso, buffers, msgs[..last], base);
      ScanAppends(iso, buffers, msgs[..last], base, topic);
      assert msgs[..last][..before.examined] == msgs[..before.examined];
      if !before.raised && Examine(iso, before.buffers, msgs[last], base + last).Some? {
        ExamineAppends(iso, before.buffers, msgs[last], base + last, topic);
        assert msgs[..last + 1] == msgs;
      }
    }
  }

  /** Messages decode one after the other. */
  lemma {:induction false} DecodedConcat(
    iso: string -> Option<int>, topic: string, a: seq<Msg>, b: seq<Msg>, base: nat)
    ensures Decoded(iso, topic, a + b, base) == Decoded(iso, topic, a, base) + Decoded(iso, topic, b, base + |a|)
    decreases |b|
  {
    hide DecodedOne;
    if b == [] {
      assert a + b == a;
    } else {
      var last := |b| - 1;
      assert (a + b)[..|a + b| - 1] == a + b[..last];
      DecodedConcat(iso, topic, a, b[..last], base);
    }
  }

  // ---------------------------------------------------------------- what a poll answers

  /** The field names that hold timestamps. */
  predicate IsTimestampName(name: string) {
    name == "window_start" || name == "window_end" || name == "start_time" || name == "end_time"
  }

  /** A record keeps its fields, except that a text under a timestamp name that parses becomes its time. */
  lemma NormalizeExactly(iso: string -> Option<int>, fields: map<string, Val>)
    ensures Normalize(iso, fields).Keys == fields.Keys
    ensures forall k, s, t :: k in fields && IsTimestampName(k) && fields[k] == Text(s) && iso(s) == Some(t) ==>
      Normalize(iso, fields)[k] == Time(t)
    ensures forall k :: k in fields && (!IsTimestampName(k) || !fields[k].Text? || iso(fields[k].s).None?) ==>
      Normalize(iso, fields)[k] == fields[k]
  {
  }

  /** What makes a poll raise: an error other than a partition's end, an undecodable value, an unknown topic. */
  predicate RaisesOn(topics: set<string>, msg: Msg) {
    msg.Broken? || msg.Poison? || (msg.Data? && msg.topic !in topics)
  }

  lemma {:induction false} ScanRaisesExactly(iso: string -> Option<int>, buffers: Buffers, msgs: seq<Msg>, base: nat)
    ensures var scan := Scan(iso, buffers, msgs, base);
      && (forall i :: 0 <= i < scan.examined ==> !RaisesOn(buffers.Keys, msgs[i]))
      && (scan.examined < |msgs| ==> RaisesOn(buffers.Keys, msgs[scan.examined]))
    decreases |msgs|
  {
    hide Normalize;
    if msgs != [] {
      ScanRaisesExactly(iso, buffers, msgs[..|msgs| - 1], base);
    }
  }

  /**
   When a poll raises, and what it has examined: everything before the first message that raises, or everything.
   The end of a partition and broken JSON never raise.
   */
  lemma PollRaisesExactly(iso: string -> Option<int>, buffers: Buffers, msgs: seq<Msg>, base: nat)
    ensures var p := Poll(iso, buffers, msgs, base);
      && (p.raised <==> exists i :: 0 <= i < |msgs| && RaisesOn(buffers.Keys, msgs[i]))
      && p.examined <= |msgs|
      && (forall i :: 0 <= i < p.examined ==> !RaisesOn(buffers.Keys, msgs[i]))
      && (p.raised ==> p.examined < |msgs| && RaisesOn(buffers.Keys, msgs[p.examined]))
      && (!p.raised ==> p.examined == |msgs|)
  {
    hide Scan, Emptied;
    if msgs != [] { ScanRaisesExactly(iso, buffers, msgs, base); }
  }

  /** What a poll returns: nothing without messages or after a raise, else every topic's records. */
  lemma PollReturnsExactly(iso: string -> Option<int>, buffers: Buffers, msgs: seq<Msg>, base: nat)
    ensures var p := Poll(iso, buffers, msgs, base);
      && (msgs == [] ==> p.batches == map[] && p.buffers == buffers)
      && (p.raised ==> p.batches == map[])
      && (msgs != [] && (forall i :: 0 <= i < |msgs| ==> !RaisesOn(buffers.Keys, msgs[i])) ==>
            && p.batches.Keys == p.buffers.Keys == buffers.Keys
            && forall t :: t in buffers ==>
                 p.batches[t] == buffers[t] + Decoded(iso, t, msgs, base) && p.buffers[t] == [])
  {
    hide Normalize, Scan, Decoded;
    PollRaisesExactly(iso, buffers, msgs, base);
    if msgs != [] && forall i :: 0 <= i < |msgs| ==> !RaisesOn(buffers.Keys, msgs[i]) {
      assert msgs[..|msgs|] == msgs;
      forall t | t in buffers ensures var p := Poll(iso, buffers, msgs, base);
        t in p.batches && p.batches[t] == buffers[t] + Decoded(iso, t, msgs, base) && p.buffers[t] == []
      {
        PollMovesRecords(iso, buffers, msgs, base, t);
      }
    }
  }

  /** The records of a topic, by place: one for each of its data messages, with its own fields. */
  lemma {:induction false} DecodedExactly(
    iso: string -> Option<int>, topic: string, msgs: seq<Msg>, base: nat, r: Record)
    ensures r in Decoded(iso, topic, msgs, base) <==>
      exists i :: 0 <= i < |msgs| && msgs[i].Data? && msgs[i].topic == topic
                  && r == Record(base + i, Normalize(iso, msgs[i].fields))
    decreases |msgs|
  {
    hide Normalize;
    if msgs != [] {
      var last := |msgs| - 1;
      DecodedExactly(iso, topic, msgs[..last], base, r);
      assert forall i :: 0 <= i < last ==> msgs[..last][i] == msgs[i];
      assert r in Decoded(iso, topic, msgs, base) <==>
        r in Decoded(iso, topic, msgs[..last], base) || r in DecodedOne(iso, topic, msgs[last], base + last);
    }
  }

  predicate InOrder(records: seq<Record>, from: nat, to: nat) {
    && (forall i :: 0 <= i < |records| ==> from <= records[i].offset < to)
    && (forall i, j :: 0 <= i < j < |records| ==> records[i].offset < records[j].offset)
  }

  lemma InOrderSnoc(init: seq<Record>, one: seq<Record>, from: nat, last: nat)
    requires InOrder(init, from, last) && from <= last && |one| <= 1 && (one != [] ==> one[0].offset == last)
    ensures InOrder(init + one, from, last + 1)
  {
  }

  /** They are in delivery order. */
  lemma {:induction false} DecodedInOrder(iso: string -> Option<int>, topic: string, msgs: seq<Msg>, base: nat)
    ensures InOrder(Decoded(iso, topic, msgs, base), base, base + |msgs|)
    decreases |msgs|
  {
    hide Normalize, InOrder;
    if msgs == [] {
      assert InOrder([], base, base) by { NoneInOrder(base); }
    } else {
      var last := |msgs| - 1;
      DecodedInOrder(iso, topic, msgs[..last], base);
      InOrderSnoc(Decoded(iso, topic, msgs[..last], base), DecodedOne(iso, topic, msgs[last], base + last),
                  base, base + last);
    }
  }

  lemma NoneInOrder(base: nat)
    ensures InOrder([], base, base)
  {
  }

  // ---------------------------------------------------------------- whole sequences of polls

  /** Everything a sequence of polls got through, with places; unexamined messages leave a hole (an `Eof`). */
  function Visible(polled: Polled, msgs: seq<Msg>): seq<Msg>
    requires polled.examined <= |msgs|
  {
    msgs[..polled.examined] + seq(|msgs| - polled.examined, _ => Eof)
  }

  datatype PollRun = PollRun(buffers: Buffers, returned: Buffers, seen: seq<Msg>)

  function Returned(before: Buffers, batches: Buffers): Buffers {
    map topic | topic in before :: before[topic] + (if topic in batches then batches[topic] else [])
  }

  function PollNext(iso: string -> Option<int>, s: PollRun, msgs: seq<Msg>): PollRun {
    var p := Poll(iso, s.buffers, msgs, |s.seen|);
    PollRun(p.buffers, Returned(s.returned, p.batches), s.seen + Visible(p, msgs))
  }

  function PollAll(iso: string -> Option<int>, s: PollRun, polls: seq<seq<Msg>>): PollRun {
    if polls == [] then s else PollNext(iso, PollAll(iso, s, polls[..|polls| - 1]), polls[|polls| - 1])
  }

  function Fresh(topics: set<string>): PollRun {
    var empty := map topic | topic in topics :: [];
    PollRun(empty, empty, [])
  }

  ghost predicate PollConserved(iso: string -> Option<int>, s: PollRun) {
    && s.returned.Keys == s.buffers.Keys
    && forall topic :: topic in s.buffers ==>
         s.returned[topic] + s.buffers[topic] == Decoded(iso, topic, s.seen, 0)
  }

  lemma {:induction false} HolesDecodeToNothing(iso: string -> Option<int>, topic: string, n: nat, base: nat)
    ensures Decoded(iso, topic, seq(n, _ => Eof), base) == []
    decreases n
  {
    if n > 0 {
      assert seq(n, _ => Eof)[..n - 1] == seq(n - 1, _ => Eof);
      HolesDecodeToNothing(iso, topic, n - 1, base);
    }
  }

  lemma PollConservedStep(iso: string -> Option<int>, s: PollRun, msgs: seq<Msg>)
    requires PollConserved(iso, s)
    ensures PollConserved(iso, PollNext(iso, s, msgs))
  {
    hide Decoded, Poll, Emptied;
    var p := Poll(iso, s.buffers, msgs, |s.seen|);
    var t := PollNext(iso, s, msgs);
    assert p.buffers.Keys == s.buffers.Keys by { PollKeepsTopics(iso, s.buffers, msgs, |s.seen|); }
    forall topic | topic in s.buffers
      ensures t.returned[topic] + t.buffers[topic] == Decoded(iso, topic, t.seen, 0)
    {
      PollMovesRecords(iso, s.buffers, msgs, |s.seen|, topic);
      SeenDecodes(iso, topic, s.seen, msgs[..p.examined], |msgs| - p.examined);
      var batch := if topic in p.batches then p.batches[topic] else [];
      var more := Decoded(iso, topic, msgs[..p.examined], |s.seen|);
      assert s.returned[topic] + batch + p.buffers[topic] == s.returned[topic] + (batch + p.buffers[topic]);
      assert s.returned[topic] + (s.buffers[topic] + more) == s.returned[topic] + s.buffers[topic] + more;
    }
  }

  lemma PollKeepsTopics(iso: string -> Option<int>, buffers: Buffers, msgs: seq<Msg>, base: nat)
    ensures var p := Poll(iso, buffers, msgs, base); p.buffers.Keys == buffers.Keys && p.examined <= |msgs|
  {
  }

  /** Holes left by unexamined messages decode to nothing. */
  lemma SeenDecodes(iso: string -> Option<int>, topic: string, seen: seq<Msg>, examined: seq<Msg>, holes: nat)
    ensures Decoded(iso, topic, seen + (examined + seq(holes, _ => Eof)), 0)
         == Decoded(iso, topic, seen, 0) + Decoded(iso, topic, examined, |seen|)
  {
    hide Decoded;
    var rest := seq(holes, _ => Eof);
    DecodedConcat(iso, topic, seen, examined + rest, 0);
    DecodedConcat(iso, topic, examined, rest, |seen|);
    HolesDecodeToNothing(iso, topic, holes, |seen| + |examined|);
  }

  /** One poll: what was buffered plus what it decoded is what it returns plus what stays buffered. */
  lemma PollMovesRecords(iso: string -> Option<int>, buffers: Buffers, msgs: seq<Msg>, base: nat, topic: string)
    requires topic in buffers
    ensures var p := Poll(iso, buffers, msgs, base);
      && p.examined <= |msgs| && topic in p.buffers
      && (if topic in p.batches then p.batches[topic] else []) + p.buffers[topic]
         == buffers[topic] + Decoded(iso, topic, msgs[..p.examined], base)
  {
    hide Normalize;
    if msgs != [] {
      ScanAppends(iso, buffers, msgs, base, topic);
    }
  }

  /**
   Over any sequence of polls, including empty and raising ones: per topic, everything returned so far
   followed by the buffer is exactly what the examined messages decode to, in order.
   */
  lemma {:induction false} PollConservation(iso: string -> Option<int>, topics: set<string>, polls: seq<seq<Msg>>)
    ensures PollConserved(iso, PollAll(iso, Fresh(topics), polls))
    decreases |polls|
  {
    hide PollNext, Normalize;
    if polls != [] {
      PollConservation(iso, topics, polls[..|polls| - 1]);
      PollConservedStep(iso, PollAll(iso, Fresh(topics), polls[..|polls| - 1]), polls[|polls| - 1]);
    }
  }

  // ---------------------------------------------------------------- the consumer object

  /** A Python list. */
  class RecordList {
    var items: seq<Record>

    constructor (items: seq<Record>)
      ensures this.items == items
    {
      this.items := items;
    }
  }

  function ItemsOf(lists: map<string, RecordList>): Buffers
    reads lists.Values
  {
    map topic | topic in lists :: lists[topic].items
  }

  ghost predicate Distinct(lists: map<string, RecordList>) {
    forall a, b :: a in lists && b in lists && lists[a] == lists[b] ==> a == b
  }

  class KafkaBatchConsumer {
    const topics: seq<string>
    const iso: string -> Option<int>
    var buffers: map<string, RecordList>
    var position: nat                     // messages handed out by the client so far

    ghost predicate Valid()
      reads this
    {
      && buffers.Keys == (set t | t in topics)
      && Distinct(buffers)
    }

    constructor (topics: seq<string>, iso: string -> Option<int>)
      ensures this.topics == topics && this.iso == iso && position == 0
      ensures Valid() && ItemsOf(buffers) == Fresh(set t | t in topics).buffers
      ensures forall t :: t in buffers ==> fresh(buffers[t])
    {
      this.topics, this.iso, position := topics, iso, 0;
      buffers := map[];
      new;
      for i := 0 to |topics|
        invariant buffers.Keys == (set t | t in topics[..i])
        invariant position == 0 && Distinct(buffers)
        invariant forall t :: t in buffers ==> fresh(buffers[t])
        invariant forall t :: t in buffers ==> buffers[t].items == []
      {
        var list := new RecordList([]);
        buffers := buffers[topics[i] := list];
      }
      assert topics[..|topics|] == topics;
    }

    /** The in-place timestamp rewrite of one record. */
    method NormalizeInPlace(fields: map<string, Val>) returns (value: map<string, Val>)
      ensures value == Normalize(iso, fields)
    {
      value := fields;
      for i := 0 to |TS_FIELDS|
        invariant value.Keys == fields.Keys
        invariant forall k :: k in fields ==>
          value[k] == if k in TS_FIELDS[..i] then ParseTimestamp(iso, fields[k]) else fields[k]
      {
        var field := TS_FIELDS[i];
        assert TS_FIELDS[..i + 1] == TS_FIELDS[..i] + [field];
        assert field !in TS_FIELDS[..i];
        if field in value && value[field].Text? {
          value := value[field := ParseTimestamp(iso, value[field])];
        }
      }
      assert TS_FIELDS[..|TS_FIELDS|] == TS_FIELDS;
    }

    /** `self.buffers[topic].append(value)`. */
    method Append(topic: string, record: Record)
      requires Valid() && topic in buffers
      modifies buffers[topic]
      ensures ItemsOf(buffers) == old(ItemsOf(buffers))[topic := old(ItemsOf(buffers))[topic] + [record]]
    {
      var list := buffers[topic];
      list.items := list.items + [record];
      forall t | t in buffers && t != topic ensures buffers[t].items == old(buffers[t].items) {
        assert buffers[t] != list;
      }
    }

    /** `{k: v.copy() for k, v in self.buffers.items()}`. */
    method CopyBuffers() returns (result: map<string, RecordList>)
      requires Valid()
      ensures ItemsOf(result) == ItemsOf(buffers)
      ensures Distinct(result) && forall t :: t in result ==> fresh(result[t])
    {
      result := map[];
      for i := 0 to |topics|
        invariant result.Keys == (set t | t in topics[..i])
        invariant Distinct(result)
        invariant forall t :: t in result ==> fresh(result[t]) && t in buffers && result[t].items == buffers[t].items
      {
        var copy := new RecordList(buffers[topics[i]].items);
        result := result[topics[i] := copy];
      }
      assert topics[..|topics|] == topics;
    }

    /** `for v in self.buffers.values(): v.clear()`. */
    method ClearBuffers()
      requires Valid()
      modifies buffers.Values
      ensures ItemsOf(buffers) == Emptied(old(ItemsOf(buffers)))
    {
      for i := 0 to |topics|
        invariant forall t :: t in topics[..i] ==> buffers[t].items == []
      {
        assert topics[i] in buffers && topics[..i + 1] == topics[..i] + [topics[i]];
        buffers[topics[i]].items := [];
      }
      assert topics[..|topics|] == topics;
    }

    /** The body of the message loop; `ok` is false when it raises. */
    method HandleMessage(msg: Msg, offset: nat) returns (ok: bool)
      requires Valid()
      modifies buffers.Values
      ensures Examine(iso, old(ItemsOf(buffers)), msg, offset) == if ok then Some(ItemsOf(buffers)) else None
      ensures !ok ==> ItemsOf(buffers) == old(ItemsOf(buffers))
    {
      hide Normalize;
      match msg {
        case Eof => ok := true;
        case BadJson => ok := true;
        case Broken => ok := false;
        case Poison => ok := false;
        case Data(topic, fields) =>
          var value := NormalizeInPlace(fields);
          ok := topic in buffers;
          if ok { Append(topic, Record(offset, value)); }
      }
    }

    /** The message loop, up to the first message that raises. */
    method HandleMessages(messages: seq<Msg>, base: nat) returns (raised: bool)
      requires Valid()
      modifies buffers.Values
      ensures var scan := Scan(iso, old(ItemsOf(buffers)), messages, base);
        scan.raised == raised && scan.buffers == ItemsOf(buffers)
    {
      hide Examine;
      ghost var before := ItemsOf(buffers);
      for i := 0 to |messages|
        invariant Scan(iso, before, messages[..i], base) == Scanned(ItemsOf(buffers), i, false)
      {
        assert messages[..i + 1][..i] == messages[..i];
        var ok := HandleMessage(messages[i], base + i);
        if !ok {
          ScanStops(iso, before, messages, base, i);
          return true;
        }
      }
      assert messages[..|messages|] == messages;
      raised := false;
    }

    /**
     `consume_batch` for the messages that `consume` handed out. Returned lists are new objects: neither
     the buffers nor each other. The buffers stay the same objects.
     */
    method ConsumeBatch(messages: seq<Msg>) returns (raised: bool, result: map<string, RecordList>)
      requires Valid()
      modifies this`position, buffers.Values
      ensures Valid() && position == old(position) + |messages|
      ensures var p := Poll(iso, old(ItemsOf(buffers)), messages, old(position));
        raised == p.raised && ItemsOf(buffers) == p.buffers && ItemsOf(result) == p.batches
      ensures Distinct(result) && forall t :: t in result ==> fresh(result[t])
    {
      hide Scan;
      raised, result := false, map[];
      var base := position;
      position := position + |messages|;
      if messages == [] { return; }
      raised := HandleMessages(messages, base);
      if raised { return; }
      result := CopyBuffers();
      ClearBuffers();
    }
  }

  /** Once a message raises, the rest of the poll is not looked at. */
  lemma {:induction false} ScanStops(iso: string -> Option<int>, buffers: Buffers, msgs: seq<Msg>, base: nat, i: nat)
    requires i < |msgs|
    requires Scan(iso, buffers, msgs[..i], base).examined == i
    requires Examine(iso, Scan(iso, buffers, msgs[..i], base).buffers, msgs[i], base + i).None?
    ensures Scan(iso, buffers, msgs, base) == Scanned(Scan(iso, buffers, msgs[..i], base).buffers, i, true)
    decreases |msgs|
  {
    hide Normalize, Examine;
    var last := |msgs| - 1;
    if i < last {
      assert msgs[..last][..i] == msgs[..i];
      ScanStops(iso, buffers, msgs[..last], base, i);
    }
  }
}

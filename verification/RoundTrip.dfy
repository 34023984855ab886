/** From a Kafka message to what a reader of the cache gets back. */
module RoundTrip {
  import opened Wrappers
  import opened CacheModel
  import opened MessageParser
  import opened KeySpace
  import Decimal
  import Repository
  import CacheReads

  /** A stored field is read back as the conversion of its own text. */
  lemma AppliedFieldReadsBack(n: nat, r: Redis, op: Operation, isFloat: string -> bool, f: string)
    requires f in op.fields
    ensures var data := Repository.HashOf(Applied(n, r, Commands([op])).hashes, HashKey(op.kind, op.window));
      f in data && Repository.ConvertAll(isFloat, data)[f] == Convert(isFloat, Encode(op.fields[f]))
  {
    hide Retained, Touched, Convert, Encode;
    var key := HashKey(op.kind, op.window);
    CommandsOfOne(op);
    WritesOfOp([], op);
    var hashes := Applied(n, r, Commands([op])).hashes;
    assert Slot(key, f) in OpWrites(op);
    assert hashes[Slot(key, f)] == op.fields[f];
    Repository.HashHasField(hashes, Slot(key, f));
  }

  /**
   An event message whose counts convert, a missing one counting as 0: whatever was stored before, after
   applying it the reader of the window that the message names gets the message's own count and user count for
   its event type, as integers.
   */
  lemma EventMessageReadsBack(
    env: Env, fields: map<string, Json>, w: int, tag: string, count: int, users: int,
    n: nat, r: Redis, isFloat: string -> bool)
    requires StartsAt(env, fields, w)
    requires Tagged(fields, "event_type") && env.show(fields["event_type"]) == tag
    requires Counts(env, fields, "event_count", count) && Counts(env, fields, "user_count", users)
    ensures var parsed := ParseMessage(env, Message("event_metrics", Object(fields)));
      && parsed.Accepted?
      && (var data := Repository.HashOf(Applied(n, r, Commands([parsed.op])).hashes, HashKey(EventKind, w));
          && tag + ".count" in data && tag + ".users" in data
          && Repository.ConvertAll(isFloat, data)[tag + ".count"] == IntCell(count)
          && Repository.ConvertAll(isFloat, data)[tag + ".users"] == IntCell(users))
  {
    EventMessageParsed(env, fields, w, count, users);
    hide Applied, Commands, Convert, Encode, Repository.HashOf, Repository.ConvertAll, ParseMessage;
    hide StartsAt, Counts;
    var op := ParseMessage(env, Message("event_metrics", Object(fields))).op;
    SuffixesDiffer(EventKind, tag, tag);
    assert op.fields[tag + ".count"] == IntValue(count) && op.fields[tag + ".users"] == IntValue(users);
    AppliedFieldReadsBack(n, r, op, isFloat, tag + ".count");
    AppliedFieldReadsBack(n, r, op, isFloat, tag + ".users");
    ConvertUndoesEncode(isFloat, IntValue(count));
    ConvertUndoesEncode(isFloat, IntValue(users));
  }

  /** A performance message reads back as its two floats (a missing one is 0.0), unless spelled like an integer. */
  lemma PerfMessageReadsBack(
    env: Env, fields: map<string, Json>, w: int, tag: string, average: string, p95: string,
    n: nat, r: Redis, isFloat: string -> bool)
    requires StartsAt(env, fields, w)
    requires Tagged(fields, "device_category") && env.show(fields["device_category"]) == tag
    requires Measures(env, fields, "avg_load_time", average) && isFloat(average)
    requires Measures(env, fields, "p95_load_time", p95) && isFloat(p95)
    ensures var parsed := ParseMessage(env, Message("performance_metrics", Object(fields)));
      && parsed.Accepted?
      && (var data := Repository.HashOf(Applied(n, r, Commands([parsed.op])).hashes, HashKey(PerfKind, w));
          var cells := Repository.ConvertAll(isFloat, data);
          && tag + ".avg_load_time" in cells && tag + ".p95_load_time" in cells
          && (cells[tag + ".avg_load_time"] == FloatCell(average) <==> Decimal.Parse(average).None?)
          && (cells[tag + ".p95_load_time"] == FloatCell(p95) <==> Decimal.Parse(p95).None?))
  {
    PerfMessageParsed(env, fields, w, average, p95);
    hide Applied, Commands, Convert, Encode, Repository.HashOf, ParseMessage, StartsAt, Measures;
    var op := ParseMessage(env, Message("performance_metrics", Object(fields))).op;
    SuffixesDiffer(PerfKind, tag, tag);
    assert op.fields[tag + ".avg_load_time"] == FloatValue(average);
    assert op.fields[tag + ".p95_load_time"] == FloatValue(p95);
    AppliedFieldReadsBack(n, r, op, isFloat, tag + ".avg_load_time");
    AppliedFieldReadsBack(n, r, op, isFloat, tag + ".p95_load_time");
    ConvertUndoesEncode(isFloat, FloatValue(average));
    ConvertUndoesEncode(isFloat, FloatValue(p95));
  }

  /** Messages about different event types, devices, windows or topics can be applied in either order. */
  lemma DistinctMessagesCommute(
    env: Env, a: Message, b: Message, n: nat, r: Redis, before: seq<Operation>, after: seq<Operation>)
    returns (tagA: string, tagB: string)
    requires ParseMessage(env, a).Accepted? && ParseMessage(env, b).Accepted?
    ensures var x, y := ParseMessage(env, a).op, ParseMessage(env, b).op;
      && OpWrites(x).Keys == Footprint(x.kind, x.window, tagA)
      && OpWrites(y).Keys == Footprint(y.kind, y.window, tagB)
      && (x.kind != y.kind || x.window != y.window || tagA != tagB ==>
          Applied(n, r, Commands(before + [x, y] + after)) == Applied(n, r, Commands(before + [y, x] + after)))
  {
    hide ParseMessage, Footprint, OpWrites, Applied, Commands;
    var x, y := ParseMessage(env, a).op, ParseMessage(env, b).op;
    tagA := ParsedWritesFootprint(env, a);
    tagB := ParsedWritesFootprint(env, b);
    FootprintsDisjoint(x.kind, x.window, tagA, y.kind, y.window, tagB);
    if x.kind != y.kind || x.window != y.window || tagA != tagB {
      CacheReads.IndependentOpsCommute(n, r, before, x, y, after);
    }
  }
}

/**
 Kafka message to cache operation (services/cache/.../message_parser.py).

 ISO parsing and the conversions `int`, `float` and `str` of arbitrary JSON values are functions of
 an environment, so every result below holds for all of them.
 */
module MessageParser {
  import opened Wrappers
  import opened CacheModel

  /** A decoded JSON value; floats, arrays and objects are told apart by `id` only. */
  datatype Json =
    | Null
    | Bool(b: bool)
    | Int(n: int)
    | Str(s: string)
    | Other(id: nat, truthy: bool)

  predicate Truthy(j: Json) {
    match j
    case Null => false
    case Bool(b) => b
    case Int(n) => n != 0
    case Str(s) => s != ""
    case Other(_, truthy) => truthy
  }

  /** `msg.value`: a JSON object, or anything else. */
  datatype Payload = Object(fields: map<string, Json>) | NotObject(truthy: bool)

  datatype Message = Message(topic: string, value: Payload)

  datatype Env = Env(
    isoMillis: string -> Option<int>,    // fromisoformat then timestamp() * 1000
    toInt: Json -> Option<int>,          // int(x) of a text, a float or a compound; None is an exception
    toFloat: Json -> Option<string>,     // repr(float(x)) of a number, a text or a compound
    show: Json -> string)                // the text an f-string prints

  /** `Raised` is an exception out of the parser, which ends the consume loop. */
  datatype Parsed = Skipped | Accepted(op: Operation) | Raised

  /** `_coerce_ts`. A Python bool is an int. */
  function CoerceTs(env: Env, value: Option<Json>): Option<int> {
    match value
    case Some(Int(n)) => Some(n)
    case Some(Bool(b)) => Some(if b then 1 else 0)
    case Some(Str(s)) => env.isoMillis(s)
    case _ => None
  }

  function Get(fields: map<string, Json>, name: string): Option<Json> {
    if name in fields then Some(fields[name]) else None
  }

  /** `int(x)`. */
  function IntOf(env: Env, j: Json): Option<int> {
    match j
    case Null => None
    case Bool(b) => Some(if b then 1 else 0)
    case Int(n) => Some(n)
    case _ => env.toInt(j)
  }

  /** `float(x)`, by its repr. */
  function FloatOf(env: Env, j: Json): Option<string> {
    match j
    case Null => None
    case Bool(b) => Some(if b then "1.0" else "0.0")
    case _ => env.toFloat(j)
  }

  /** `int(payload.get(name, 0))`. */
  function IntField(env: Env, fields: map<string, Json>, name: string): Option<Value> {
    match if name in fields then IntOf(env, fields[name]) else Some(0)
    case Some(n) => Some(IntValue(n))
    case None => None
  }

  /** `float(payload.get(name, 0.0))`. */
  function FloatField(env: Env, fields: map<string, Json>, name: string): Option<Value> {
    match if name in fields then FloatOf(env, fields[name]) else Some("0.0")
    case Some(text) => Some(FloatValue(text))
    case None => None
  }

  /** The names of the two measures an operation of this kind stores. */
  function FirstSuffix(kind: Kind): string {
    if kind.EventKind? then ".count" else ".avg_load_time"
  }

  function SecondSuffix(kind: Kind): string {
    if kind.EventKind? then ".users" else ".p95_load_time"
  }

  function MakeOp(kind: Kind, window: int, tag: string, first: Option<Value>, second: Option<Value>): Parsed {
    if first.None? || second.None? then Raised
    else Accepted(Operation(kind, window,
                            map[tag + FirstSuffix(kind) := first.value, tag + SecondSuffix(kind) := second.value]))
  }

  function ParseFields(env: Env, topic: string, fields: map<string, Json>): Parsed {
    if topic == "event_metrics" then
      var window := CoerceTs(env, Get(fields, "window_start"));
      if window.None? || "event_type" !in fields || !Truthy(fields["event_type"]) then Skipped
      else MakeOp(EventKind, window.value, env.show(fields["event_type"]),
                  IntField(env, fields, "event_count"), IntField(env, fields, "user_count"))
    else if topic == "performance_metrics" then
      var window := CoerceTs(env, Get(fields, "window_start"));
      if window.None? || "device_category" !in fields || !Truthy(fields["device_category"]) then Skipped
      else MakeOp(PerfKind, window.value, env.show(fields["device_category"]),
                  FloatField(env, fields, "avg_load_time"), FloatField(env, fields, "p95_load_time"))
    else Skipped
  }

  /** `parse_message(msg.topic, msg.value or {})`; `.get` on a truthy non-object raises. */
  function ParseMessage(env: Env, msg: Message): Parsed {
    match msg.value
    case Object(fields) => ParseFields(env, msg.topic, fields)
    case NotObject(truthy) =>
      if truthy && (msg.topic == "event_metrics" || msg.topic == "performance_metrics") then Raised
      else ParseFields(env, msg.topic, map[])
  }

  // ---------------------------------------------------------------- what a message says

  /** The payload's `window_start` means `w`: an integer as it is, a boolean as 0 or 1, a text as its ISO time. */
  predicate StartsAt(env: Env, fields: map<string, Json>, w: int) {
    "window_start" in fields &&
    match fields["window_start"]
    case Int(n) => n == w
    case Bool(b) => w == if b then 1 else 0
    case Str(s) => env.isoMillis(s) == Some(w)
    case _ => false
  }

  /** The payload gives `n` for a count; a missing one is 0, and None is none. */
  predicate Counts(env: Env, fields: map<string, Json>, name: string, n: int) {
    if name !in fields then n == 0
    else
      match fields[name]
      case Int(m) => m == n
      case Bool(b) => n == if b then 1 else 0
      case Null => false
      case other => env.toInt(other) == Some(n)
  }

  /** The payload gives the float that prints as `text`; a missing one is 0.0, and None is none. */
  predicate Measures(env: Env, fields: map<string, Json>, name: string, text: string) {
    if name !in fields then text == "0.0"
    else
      match fields[name]
      case Bool(b) => text == if b then "1.0" else "0.0"
      case Null => false
      case other => env.toFloat(other) == Some(text)
  }

  /** The payload has a tag: not None, False, 0, an empty text or an empty compound. */
  predicate Tagged(fields: map<string, Json>, name: string) {
    name in fields && fields[name] !in {Null, Bool(false), Int(0), Str("")}
    && (fields[name].Other? ==> fields[name].truthy)
  }

  /** Every message of a handled topic with a start, a tag and two counts becomes exactly one operation. */
  lemma EventMessageParsed(env: Env, fields: map<string, Json>, w: int, count: int, users: int)
    requires StartsAt(env, fields, w) && Tagged(fields, "event_type")
    requires Counts(env, fields, "event_count", count) && Counts(env, fields, "user_count", users)
    ensures var tag := env.show(fields["event_type"]);
      ParseMessage(env, Message("event_metrics", Object(fields))) ==
        Accepted(Operation(EventKind, w, map[tag + ".count" := IntValue(count), tag + ".users" := IntValue(users)]))
  {
  }

  lemma PerfMessageParsed(env: Env, fields: map<string, Json>, w: int, average: string, p95: string)
    requires StartsAt(env, fields, w) && Tagged(fields, "device_category")
    requires Measures(env, fields, "avg_load_time", average) && Measures(env, fields, "p95_load_time", p95)
    ensures var tag := env.show(fields["device_category"]);
      ParseMessage(env, Message("performance_metrics", Object(fields))) ==
        Accepted(Operation(PerfKind, w,
          map[tag + ".avg_load_time" := FloatValue(average), tag + ".p95_load_time" := FloatValue(p95)]))
  {
  }

  /** The two topics that carry windows, and the name of their tag. */
  predicate Handled(topic: string) {
    topic == "event_metrics" || topic == "performance_metrics"
  }

  ghost predicate Named(env: Env, topic: string, fields: map<string, Json>) {
    && (exists w :: StartsAt(env, fields, w))
    && Tagged(fields, if topic == "event_metrics" then "event_type" else "device_category")
  }

  lemma StartIsCoerced(env: Env, fields: map<string, Json>)
    ensures (exists w :: StartsAt(env, fields, w)) <==> CoerceTs(env, Get(fields, "window_start")).Some?
  {
    if CoerceTs(env, Get(fields, "window_start")).Some? {
      assert StartsAt(env, fields, CoerceTs(env, Get(fields, "window_start")).value);
    }
  }

  /**
   A message is skipped exactly if its topic is not handled (session metrics among them), or it is empty, or it
   is an object without a usable start or without a tag.
   */
  lemma SkippedExactly(env: Env, msg: Message)
    ensures ParseMessage(env, msg).Skipped? <==>
      || !Handled(msg.topic)
      || (msg.value.NotObject? && !msg.value.truthy)
      || (msg.value.Object? && !Named(env, msg.topic, msg.value.fields))
  {
    StartIsCoerced(env, if msg.value.Object? then msg.value.fields else map[]);
    if msg.value.NotObject? {
      assert Get(map[], "window_start").None?;
    }
  }

  // ---------------------------------------------------------------- what an operation writes

  /** The two slots that a message about `tag` in one window writes together. */
  function Footprint(kind: Kind, window: int, tag: string): set<Slot> {
    {Slot(HashKey(kind, window), tag + FirstSuffix(kind)), Slot(HashKey(kind, window), tag + SecondSuffix(kind))}
  }

  /** Every operation the parser makes writes exactly one footprint. */
  lemma ParsedWritesFootprint(env: Env, msg: Message) returns (tag: string)
    requires ParseMessage(env, msg).Accepted?
    ensures var op := ParseMessage(env, msg).op;
      op.fields != map[] && OpWrites(op).Keys == Footprint(op.kind, op.window, tag)
  {
    var fields := if msg.value.Object? then msg.value.fields else map[];
    var op := ParseMessage(env, msg).op;
    tag := env.show(fields[if op.kind.EventKind? then "event_type" else "device_category"]);
    var first, second := tag + FirstSuffix(op.kind), tag + SecondSuffix(op.kind);
    assert op.fields.Keys == {first, second};
    assert first in op.fields;
  }

  lemma SuffixesDiffer(kind: Kind, a: string, b: string)
    ensures a + FirstSuffix(kind) != b + SecondSuffix(kind)
  {
    var first, second := a + FirstSuffix(kind), b + SecondSuffix(kind);
    if kind.EventKind? {
      assert first[|first| - 1] == 't' && second[|second| - 1] == 's';
    } else {
      assert first[|first| - 13] == 'a' && second[|second| - 13] == 'p';
    }
  }

  lemma AppendInjective(a: string, b: string, suffix: string)
    requires a + suffix == b + suffix
    ensures a == b
  {
    assert a == (a + suffix)[..|a|] && b == (b + suffix)[..|b|];
  }

  /** Footprints of different kinds, windows or tags share no slot: a tag with dots cannot forge another's field. */
  lemma FootprintsDisjoint(kindA: Kind, a: int, tagA: string, kindB: Kind, b: int, tagB: string)
    ensures (kindA == kindB && a == b && tagA == tagB) || Footprint(kindA, a, tagA) !! Footprint(kindB, b, tagB)
  {
    if kindA == kindB && a == b && tagA != tagB {
      SuffixesDiffer(kindA, tagA, tagB);
      SuffixesDiffer(kindA, tagB, tagA);
      if tagA + FirstSuffix(kindA) == tagB + FirstSuffix(kindA) {
        AppendInjective(tagA, tagB, FirstSuffix(kindA));
      }
      if tagA + SecondSuffix(kindA) == tagB + SecondSuffix(kindA) {
        AppendInjective(tagA, tagB, SecondSuffix(kindA));
      }
    }
  }
}

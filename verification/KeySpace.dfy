/** How the structured cache state is spelled as Redis keys and text, and read back from it. */
module KeySpace {
  import opened Wrappers
  import opened Decimal
  import opened CacheModel
  import RedisKeys

  function MetricType(kind: Kind): string {
    if kind.EventKind? then "event" else "performance"
  }

  function KeyText(key: HashKey): string {
    RedisKeys.WindowKey(MetricType(key.kind), key.window).value
  }

  /** The sorted-set index of a kind. */
  function IndexText(kind: Kind): string {
    RedisKeys.IndexKey(MetricType(kind)).value
  }

  /** How the keys are spelled. */
  lemma KeysAreSpelled(w: int)
    ensures KeyText(HashKey(EventKind, w)) == "metrics:event:" + Print(w)
    ensures KeyText(HashKey(PerfKind, w)) == "metrics:perf:" + Print(w)
    ensures IndexText(EventKind) == "metrics:event:windows" && IndexText(PerfKind) == "metrics:perf:windows"
  {
    assert MetricType(EventKind) == "event" && MetricType(PerfKind) == "performance";
  }

  /** The text redis-py sends for a value. */
  function Encode(v: Value): string {
    match v
    case IntValue(n) => Print(n)
    case FloatValue(text) => text
  }

  lemma KeyTextInjective(a: HashKey, b: HashKey)
    requires KeyText(a) == KeyText(b)
    ensures a == b
  {
    RedisKeys.WindowKeyInjective(MetricType(a.kind), a.window, MetricType(b.kind), b.window);
  }

  /** Hash commands and sorted-set commands never address the same Redis key. */
  lemma KeyTextIsNotIndexKey(key: HashKey)
    ensures !RedisKeys.IsIndexKey(KeyText(key))
  {
    RedisKeys.WindowKeyIsNotIndexKey(MetricType(key.kind), key.window);
  }

  datatype TextSlot = TextSlot(key: string, field: string)

  function SlotText(slot: Slot): TextSlot {
    TextSlot(KeyText(slot.key), slot.field)
  }

  ghost predicate Injective<S(!new), T(!new)>(f: S -> T) {
    forall a, b :: f(a) == f(b) ==> a == b
  }

  /** `m` with its keys and values translated. */
  ghost function Translated<S(!new), T(!new), V, W>(f: S -> T, g: V -> W, m: map<S, V>): map<T, W>
    requires Injective(f)
  {
    map s | s in m :: f(s) := g(m[s])
  }

  lemma TranslatedMerge<S(!new), T(!new), V, W>(f: S -> T, g: V -> W, a: map<S, V>, b: map<S, V>)
    requires Injective(f)
    ensures Translated(f, g, a + b) == Translated(f, g, a) + Translated(f, g, b)
  {
    var left, right := Translated(f, g, a + b), Translated(f, g, a) + Translated(f, g, b);
    forall t | t in left || t in right
      ensures t in left && t in right && left[t] == right[t]
    {
      var s :| (s in a || s in b) && f(s) == t;
      assert s in a + b;
    }
  }

  lemma SlotTextInjective()
    ensures Injective(SlotText)
  {
    forall a: Slot, b: Slot | SlotText(a) == SlotText(b) ensures a == b {
      KeyTextInjective(a.key, b.key);
    }
  }

  /** The hashes as Redis stores them. */
  ghost function Spelled(hashes: map<Slot, Value>): map<TextSlot, string> {
    SlotTextInjective();
    Translated(SlotText, Encode, hashes)
  }

  /** Writing slots and then spelling them is writing the spelled slots: printing keys never merges two windows. */
  lemma SpelledWrites(hashes: map<Slot, Value>, writes: map<Slot, Value>)
    ensures Spelled(hashes + writes) == Spelled(hashes) + Spelled(writes)
  {
    SlotTextInjective();
    TranslatedMerge(SlotText, Encode, hashes, writes);
  }

  // ---------------------------------------------------------------- reading back

  /** What `_convert_types` makes of one stored text. */
  datatype Cell = IntCell(n: int) | FloatCell(text: string) | TextCell(text: string)

  /** `int(v)`, else `float(v)`, else the text; `isFloat` says which texts `float` accepts. */
  function Convert(isFloat: string -> bool, text: string): Cell {
    match Parse(text)
    case Some(n) => IntCell(n)
    case None => if isFloat(text) then FloatCell(text) else TextCell(text)
  }

  /** An integer text becomes an integer, any other float text a float, and everything else stays text. */
  lemma ConvertExactly(isFloat: string -> bool, text: string)
    ensures forall n :: Convert(isFloat, text) == IntCell(n) <==> Parse(text) == Some(n)
    ensures Convert(isFloat, text) == FloatCell(text) <==> Parse(text).None? && isFloat(text)
    ensures Convert(isFloat, text) == TextCell(text) <==> Parse(text).None? && !isFloat(text)
  {
  }

  function Original(v: Value): Cell {
    match v
    case IntValue(n) => IntCell(n)
    case FloatValue(text) => FloatCell(text)
  }

  /** A stored value reads back as itself, exactly when a float's repr is not spelled like an integer. */
  lemma ConvertUndoesEncode(isFloat: string -> bool, v: Value)
    requires v.FloatValue? ==> isFloat(v.text)
    ensures Convert(isFloat, Encode(v)) == Original(v) <==> v.IntValue? || Parse(v.text).None?
  {
    if v.IntValue? {
      ParseOfPrint(v.n);
    }
  }
}

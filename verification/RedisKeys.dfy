/** Key patterns of the cache keyspace (shared/constants/redis_keys.py). */
module RedisKeys {
  import opened Wrappers
  import opened Decimal

  const WINDOW_EVENT_PREFIX := "metrics:event:"
  const WINDOW_PERF_PREFIX := "metrics:perf:"
  const WINDOW_SESSION_PREFIX := "metrics:session:"

  const WINDOW_EVENT_INDEX := "metrics:event:windows"
  const WINDOW_PERF_INDEX := "metrics:perf:windows"
  const WINDOW_SESSION_INDEX := "metrics:session:windows"

  /** The pattern a metric type is registered under; an unknown type is a ValueError. */
  function Prefix(metricType: string): Option<string> {
    if metricType == "event" then Some(WINDOW_EVENT_PREFIX)
    else if metricType == "performance" then Some(WINDOW_PERF_PREFIX)
    else if metricType == "session" then Some(WINDOW_SESSION_PREFIX)
    else None
  }

  function WindowKey(metricType: string, windowStart: int): Option<string> {
    match Prefix(metricType)
    case None => None
    case Some(prefix) => Some(prefix + Print(windowStart))
  }

  predicate IsIndexKey(key: string) {
    key in [WINDOW_EVENT_INDEX, WINDOW_PERF_INDEX, WINDOW_SESSION_INDEX]
  }

  /** The text after a pattern can be read back from the key. */
  lemma SuffixOf(prefix: string, suffix: string)
    ensures (prefix + suffix)[|prefix|..] == suffix
  {
  }

  /** The three patterns already differ at character 8. */
  lemma PrefixesDiverge(typeA: string, typeB: string)
    requires Prefix(typeA).Some? && Prefix(typeB).Some? && typeA != typeB
    ensures |Prefix(typeA).value| > 8 && |Prefix(typeB).value| > 8
    ensures Prefix(typeA).value[8] != Prefix(typeB).value[8]
  {
  }

  /** Character 8 of a window key is its pattern's, and the character after the pattern is the number's. */
  lemma WindowKeyShape(metricType: string, w: int)
    requires Prefix(metricType).Some?
    ensures var p := Prefix(metricType).value; var key := WindowKey(metricType, w).value;
      8 < |p| < |key| && key[8] == p[8] && key[|p|] == Print(w)[0]
  {
  }

  /** A window key determines both the metric type and the window start it was made from. */
  lemma WindowKeyInjective(typeA: string, a: int, typeB: string, b: int)
    requires WindowKey(typeA, a).Some? && WindowKey(typeA, a) == WindowKey(typeB, b)
    ensures typeA == typeB && a == b
  {
    WindowKeyShape(typeA, a);
    WindowKeyShape(typeB, b);
    if typeA != typeB {
      PrefixesDiverge(typeA, typeB);
    } else {
      SuffixOf(Prefix(typeA).value, Print(a));
      SuffixOf(Prefix(typeA).value, Print(b));
      PrintInjective(a, b);
    }
  }

  /** The window start can be recovered from its key by stripping the pattern and calling `int`. */
  lemma WindowKeyRoundTrip(metricType: string, w: int)
    requires Prefix(metricType).Some?
    ensures WindowKey(metricType, w).Some?
    ensures var p := Prefix(metricType).value; var key := WindowKey(metricType, w).value;
      |p| <= |key| && Parse(key[|p|..]) == Some(w)
  {
    SuffixOf(Prefix(metricType).value, Print(w));
    ParseOfPrint(w);
  }

  /** The sorted-set index of a metric type. */
  function IndexKey(metricType: string): Option<string> {
    if metricType == "event" then Some(WINDOW_EVENT_INDEX)
    else if metricType == "performance" then Some(WINDOW_PERF_INDEX)
    else if metricType == "session" then Some(WINDOW_SESSION_INDEX)
    else None
  }

  /** An index key starts like the window keys of its type and goes on with a letter. */
  lemma IndexKeyShape(metricType: string)
    requires Prefix(metricType).Some?
    ensures IndexKey(metricType).Some?
    ensures var p, key := Prefix(metricType).value, IndexKey(metricType).value;
      8 < |p| < |key| && key[8] == p[8] && key[|p|] == 'w'
  {
  }

  lemma NotThisIndex(metricType: string, w: int, indexType: string)
    requires Prefix(metricType).Some? && Prefix(indexType).Some?
    ensures WindowKey(metricType, w).Some? && WindowKey(metricType, w) != IndexKey(indexType)
  {
    hide Prefix, IndexKey, Print;
    WindowKeyShape(metricType, w);
    IndexKeyShape(indexType);
    if metricType != indexType {
      PrefixesDiverge(metricType, indexType);
    }
  }

  /** No window key of any type is the key of any sorted-set index. */
  lemma WindowKeyIsNotIndexKey(metricType: string, w: int)
    requires WindowKey(metricType, w).Some?
    ensures !IsIndexKey(WindowKey(metricType, w).value)
  {
    assert Prefix(metricType).Some? by { KnownType(metricType, w); }
    hide WindowKey;
    NotThisIndex(metricType, w, "event");
    NotThisIndex(metricType, w, "performance");
    NotThisIndex(metricType, w, "session");
  }

  lemma KnownType(metricType: string, w: int)
    requires WindowKey(metricType, w).Some?
    ensures Prefix(metricType).Some?
  {
    hide Print;
  }
}

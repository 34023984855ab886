/**
 The cache's Redis state and what a batch of operations should do to it.

 A Redis hash exists exactly while it has a field, so all hashes together are one map from
 (key, field) slots to values. Hash keys are kept structured here; module KeySpace shows that
 printing them loses nothing. The window indices are sorted sets with score == member.
 */
module CacheModel {
  import opened Wrappers
  import opened TopN

  datatype Kind = EventKind | PerfKind

  /** A field value as the parser produces it; a float is identified by its Python `repr`. */
  datatype Value = IntValue(n: int) | FloatValue(text: string)

  datatype Operation = Operation(kind: Kind, window: int, fields: map<string, Value>)

  datatype HashKey = HashKey(kind: Kind, window: int)

  datatype Slot = Slot(key: HashKey, field: string)

  datatype Redis = Redis(hashes: map<Slot, Value>, events: set<int>, perfs: set<int>) {
    function Index(kind: Kind): set<int> {
      if kind.EventKind? then events else perfs
    }

    function WithIndex(kind: Kind, index: set<int>): Redis {
      if kind.EventKind? then this.(events := index) else this.(perfs := index)
    }
  }

  /** The window has a hash to show. */
  ghost predicate HasHash(hashes: map<Slot, Value>, key: HashKey) {
    exists slot :: slot in hashes && slot.key == key
  }

  // ---------------------------------------------------------------- pipeline commands

  datatype Command =
    | HSet(key: HashKey, fields: map<string, Value>)
    | Expire(key: HashKey)
    | ZAdd(kind: Kind, window: int)

  /** The three commands `pipeline_apply` queues for one operation. */
  function OpCommands(op: Operation): seq<Command> {
    var key := HashKey(op.kind, op.window);
    [HSet(key, op.fields), Expire(key), ZAdd(op.kind, op.window)]
  }

  function Commands(ops: seq<Operation>): seq<Command> {
    if ops == [] then [] else Commands(ops[..|ops| - 1]) + OpCommands(ops[|ops| - 1])
  }

  /**
   Each operation contributes exactly three commands, in the order of the batch: its fields go to the hash of its
   own kind and window, that hash is renewed, and the window is added to the index of its kind.
   */
  lemma {:induction false} CommandsInTriples(ops: seq<Operation>, k: nat)
    requires k < |ops|
    ensures |Commands(ops)| == 3 * |ops|
    ensures Commands(ops)[3 * k] == HSet(HashKey(ops[k].kind, ops[k].window), ops[k].fields)
    ensures Commands(ops)[3 * k + 1] == Expire(HashKey(ops[k].kind, ops[k].window))
    ensures Commands(ops)[3 * k + 2] == ZAdd(ops[k].kind, ops[k].window)
    decreases |ops|
  {
    var init := ops[..|ops| - 1];
    if init == [] {
      CommandsOfOne(ops[0]);
      assert ops == [ops[0]];
    } else if k < |init| {
      CommandsInTriples(init, k);
    } else {
      CommandsInTriples(init, 0);
    }
  }

  function FieldWrites(key: HashKey, fields: map<string, Value>): map<Slot, Value> {
    map f | f in fields :: Slot(key, f) := fields[f]
  }

  function CommandWrites(c: Command): map<Slot, Value> {
    if c.HSet? then FieldWrites(c.key, c.fields) else map[]
  }

  /** What Redis does for one command. Expiry is not modelled, so EXPIRE changes nothing here. */
  function Execute(r: Redis, c: Command): Redis {
    match c
    case HSet(_, _) => r.(hashes := r.hashes + CommandWrites(c))
    case Expire(_) => r
    case ZAdd(kind, window) => r.WithIndex(kind, r.Index(kind) + {window})
  }

  function Trim(n: nat, r: Redis, kind: Kind): Redis {
    r.WithIndex(kind, Top(n, r.Index(kind)))
  }

  // ---------------------------------------------------------------- what a command list should achieve

  /** The slots a command list writes, each with the value written last. */
  function Writes(cmds: seq<Command>): map<Slot, Value> {
    if cmds == [] then map[] else Writes(cmds[..|cmds| - 1]) + CommandWrites(cmds[|cmds| - 1])
  }

  /** The window starts a command list adds to the index of `kind`. */
  function Touched(kind: Kind, cmds: seq<Command>): set<int> {
    set c | c in cmds && c.ZAdd? && c.kind == kind :: c.window
  }

  /** An index nobody touches is left alone, even if it is over-full; otherwise the newest `n` stay. */
  function Retained(n: nat, index: set<int>, touched: set<int>): set<int> {
    if touched == {} then index else Top(n, index + touched)
  }

  /** Every command once, in order, then one trim of each touched index. */
  function Applied(n: nat, r: Redis, cmds: seq<Command>): Redis {
    Redis(r.hashes + Writes(cmds),
          Retained(n, r.events, Touched(EventKind, cmds)),
          Retained(n, r.perfs, Touched(PerfKind, cmds)))
  }

  lemma CommandsOfNothing()
    ensures Commands([]) == []
  {
  }

  lemma CommandsOfOne(op: Operation)
    ensures Commands([op]) == OpCommands(op)
  {
    assert [op][..0] == [];
    assert [] + OpCommands(op) == OpCommands(op);
  }

  lemma {:induction false} CommandsConcat(a: seq<Operation>, b: seq<Operation>)
    ensures Commands(a + b) == Commands(a) + Commands(b)
  {
    if b == [] {
      assert a + b == a;
    } else {
      var all := a + b;
      assert all[..|all| - 1] == a + b[..|b| - 1];
      CommandsConcat(a, b[..|b| - 1]);
    }
  }

  lemma HashesAfter(r: Redis, cmd: Command)
    ensures Execute(r, cmd).hashes == r.hashes + CommandWrites(cmd)
  {
  }

  lemma MergeAssociative<K, V>(a: map<K, V>, b: map<K, V>, c: map<K, V>)
    ensures a + b + c == a + (b + c)
  {
  }

  lemma {:induction false} WritesConcat(a: seq<Command>, b: seq<Command>)
    ensures Writes(a + b) == Writes(a) + Writes(b)
  {
    if b == [] {
      assert a + b == a;
    } else {
      var init, last := b[..|b| - 1], b[|b| - 1];
      assert (a + b)[..|a + b| - 1] == a + init;
      WritesConcat(a, init);
      MergeAssociative(Writes(a), Writes(init), CommandWrites(last));
    }
  }

  lemma TouchedConcat(kind: Kind, a: seq<Command>, b: seq<Command>)
    ensures Touched(kind, a + b) == Touched(kind, a) + Touched(kind, b)
  {
    forall w | w in Touched(kind, a) + Touched(kind, b) ensures w in Touched(kind, a + b) {
      var c := ZAdd(kind, w);
      assert c in a + b;
    }
  }

  lemma TouchedSnoc(kind: Kind, cmds: seq<Command>, i: nat)
    requires i < |cmds|
    ensures Touched(kind, cmds[..i + 1]) ==
      Touched(kind, cmds[..i]) + (if cmds[i].ZAdd? && cmds[i].kind == kind then {cmds[i].window} else {})
  {
    assert cmds[..i + 1] == cmds[..i] + [cmds[i]];
    TouchedConcat(kind, cmds[..i], [cmds[i]]);
    assert cmds[i] in [cmds[i]];
  }

  lemma TouchedByNothing()
    ensures forall kind :: Touched(kind, []) == {}
  {
  }

  lemma RetainedConcat(n: nat, index: set<int>, a: set<int>, b: set<int>)
    ensures Retained(n, Retained(n, index, a), b) == Retained(n, index, a + b)
  {
    if a == {} {
      assert a + b == b;
    } else if b == {} {
      assert a + b == a;
    } else {
      TopAbsorb(n, index + a, b);
      assert index + a + b == index + (a + b);
    }
  }

  lemma RetainedCommandsConcat(n: nat, index: set<int>, kind: Kind, a: seq<Command>, b: seq<Command>)
    ensures Retained(n, Retained(n, index, Touched(kind, a)), Touched(kind, b))
         == Retained(n, index, Touched(kind, a + b))
  {
    TouchedConcat(kind, a, b);
    RetainedConcat(n, index, Touched(kind, a), Touched(kind, b));
  }

  /** Splitting a command list into successive flushes changes nothing. */
  lemma AppliedConcat(n: nat, r: Redis, a: seq<Command>, b: seq<Command>)
    ensures Applied(n, Applied(n, r, a), b) == Applied(n, r, a + b)
  {
    WritesConcat(a, b);
    RetainedCommandsConcat(n, r.events, EventKind, a, b);
    RetainedCommandsConcat(n, r.perfs, PerfKind, a, b);
    MergeAssociative(r.hashes, Writes(a), Writes(b));
  }

  lemma AppliedNothing(n: nat, r: Redis)
    ensures Applied(n, r, []) == r
  {
  }

  // ---------------------------------------------------------------- replay

  /** One thing a failed attempt at a batch may still have done to Redis. */
  datatype Effect = Ran(command: Command) | Trimmed(kind: Kind)

  predicate Allowed(e: Effect, cmds: seq<Command>) {
    match e
    case Ran(c) => c in cmds
    case Trimmed(kind) => Touched(kind, cmds) != {}
  }

  function RunEffect(n: nat, r: Redis, e: Effect): Redis {
    match e
    case Ran(c) => Execute(r, c)
    case Trimmed(kind) => Trim(n, r, kind)
  }

  function RunEffects(n: nat, r: Redis, effects: seq<Effect>): Redis {
    if effects == [] then r
    else RunEffect(n, RunEffects(n, r, effects[..|effects| - 1]), effects[|effects| - 1])
  }

  lemma {:induction false} CommandWritesCovered(c: Command, cmds: seq<Command>)
    requires c in cmds
    ensures CommandWrites(c).Keys <= Writes(cmds).Keys
  {
    var last := |cmds| - 1;
    if c != cmds[last] {
      CommandWritesCovered(c, cmds[..last]);
    }
  }

  lemma AbsorbWrites<K, V>(m: map<K, V>, early: map<K, V>, all: map<K, V>)
    requires early.Keys <= all.Keys
    ensures m + early + all == m + all
  {
  }

  lemma AbsorbHSet(n: nat, r: Redis, c: Command, cmds: seq<Command>)
    requires c in cmds && c.HSet?
    ensures Applied(n, Execute(r, c), cmds) == Applied(n, r, cmds)
  {
    hide Writes, Touched, Retained, CommandWrites;
    CommandWritesCovered(c, cmds);
    AbsorbWrites(r.hashes, CommandWrites(c), Writes(cmds));
  }

  lemma AbsorbZAdd(n: nat, r: Redis, c: Command, cmds: seq<Command>)
    requires c in cmds && c.ZAdd?
    ensures Applied(n, Execute(r, c), cmds) == Applied(n, r, cmds)
  {
    hide Writes, Top;
    var index, touched := r.Index(c.kind), Touched(c.kind, cmds);
    assert c.window in touched;
    assert index + {c.window} + touched == index + touched;
  }

  /** A command that the batch is going to run again anyway leaves no trace. */
  lemma AbsorbCommand(n: nat, r: Redis, c: Command, cmds: seq<Command>)
    requires c in cmds
    ensures Applied(n, Execute(r, c), cmds) == Applied(n, r, cmds)
  {
    hide Applied;
    match c {
      case HSet(_, _) => AbsorbHSet(n, r, c, cmds);
      case Expire(_) =>
      case ZAdd(_, _) => AbsorbZAdd(n, r, c, cmds);
    }
  }

  /** So does a trim of an index that the batch touches. */
  lemma AbsorbTrim(n: nat, r: Redis, kind: Kind, cmds: seq<Command>)
    requires Touched(kind, cmds) != {}
    ensures Applied(n, Trim(n, r, kind), cmds) == Applied(n, r, cmds)
  {
    TopAbsorb(n, r.Index(kind), Touched(kind, cmds));
  }

  /**
   Idempotent replay: whatever a failed attempt at `batch` left behind, applying a batch that
   extends it gives exactly the state of applying the extension once to the state before the attempt.
   */
  lemma {:induction false} ReplayIsIdempotent(
    n: nat, r: Redis, effects: seq<Effect>, batch: seq<Operation>, more: seq<Operation>)
    requires forall e :: e in effects ==> Allowed(e, Commands(batch))
    ensures Applied(n, RunEffects(n, r, effects), Commands(batch + more)) == Applied(n, r, Commands(batch + more))
    decreases |effects|
  {
    if effects != [] {
      var e := effects[|effects| - 1];
      var before := RunEffects(n, r, effects[..|effects| - 1]);
      ReplayIsIdempotent(n, r, effects[..|effects| - 1], batch, more);
      assert Allowed(e, Commands(batch));
      CommandsConcat(batch, more);
      match e {
        case Ran(c) =>
          AbsorbCommand(n, before, c, Commands(batch + more));
        case Trimmed(kind) =>
          TouchedConcat(kind, Commands(batch), Commands(more));
          AbsorbTrim(n, before, kind, Commands(batch + more));
      }
    }
  }

  // ---------------------------------------------------------------- meaning of the fold

  function OpWrites(op: Operation): map<Slot, Value> {
    FieldWrites(HashKey(op.kind, op.window), op.fields)
  }

  /** The value of the most recent operation that wrote `slot`. */
  function LastWrite(ops: seq<Operation>, slot: Slot): Option<Value> {
    if ops == [] then None
    else if slot in OpWrites(ops[|ops| - 1]) then Some(OpWrites(ops[|ops| - 1])[slot])
    else LastWrite(ops[..|ops| - 1], slot)
  }

  lemma {:induction false} LastWriteConcat(a: seq<Operation>, b: seq<Operation>, x: Slot)
    ensures LastWrite(a + b, x) == if LastWrite(b, x).Some? then LastWrite(b, x) else LastWrite(a, x)
    decreases |b|
  {
    hide OpWrites;
    if b == [] {
      assert a + b == a;
    } else {
      assert (a + b)[..|a + b| - 1] == a + b[..|b| - 1];
      LastWriteConcat(a, b[..|b| - 1], x);
    }
  }

  /** A slot has a last write exactly if some operation writes it. */
  lemma {:induction false} LastWriteExists(ops: seq<Operation>, x: Slot)
    ensures LastWrite(ops, x).Some? <==> exists op :: op in ops && x in OpWrites(op)
    decreases |ops|
  {
    hide OpWrites;
    if ops != [] {
      var init, last := ops[..|ops| - 1], ops[|ops| - 1];
      LastWriteExists(init, x);
      assert forall op :: op in ops <==> op in init || op == last;
    }
  }

  /** The window starts of the operations of one kind. */
  function Windows(kind: Kind, ops: seq<Operation>): set<int> {
    set op | op in ops && op.kind == kind :: op.window
  }

  lemma WritesSnoc(cmds: seq<Command>, c: Command)
    ensures Writes(cmds + [c]) == Writes(cmds) + CommandWrites(c)
  {
    assert (cmds + [c])[..|cmds|] == cmds;
  }

  /** The writes of one more operation. */
  lemma OpAddsWrites(cmds: seq<Command>, op: Operation)
    ensures Writes(cmds + OpCommands(op)) == Writes(cmds) + OpWrites(op)
  {
    hide Writes;
    var key := HashKey(op.kind, op.window);
    var c1, c2, c3 := HSet(key, op.fields), Expire(key), ZAdd(op.kind, op.window);
    WritesSnoc(cmds, c1);
    WritesSnoc(cmds + [c1], c2);
    WritesSnoc(cmds + [c1] + [c2], c3);
    assert cmds + [c1] + [c2] + [c3] == cmds + OpCommands(op);
    assert Writes(cmds) + OpWrites(op) + map[] + map[] == Writes(cmds) + OpWrites(op);
  }

  /** The window that one more operation touches. */
  lemma OpTouches(kind: Kind, cmds: seq<Command>, op: Operation)
    ensures Touched(kind, cmds + OpCommands(op)) == Touched(kind, cmds) + (if kind == op.kind then {op.window} else {})
  {
    TouchedConcat(kind, cmds, OpCommands(op));
    assert ZAdd(op.kind, op.window) == OpCommands(op)[2];
  }

  lemma WritesOfOp(cmds: seq<Command>, op: Operation)
    ensures Writes(cmds + OpCommands(op)) == Writes(cmds) + OpWrites(op)
    ensures forall kind ::
        Touched(kind, cmds + OpCommands(op)) == Touched(kind, cmds) + (if kind == op.kind then {op.window} else {})
  {
    hide Writes, OpWrites, Touched, OpCommands;
    OpAddsWrites(cmds, op);
    forall kind: Kind
      ensures Touched(kind, cmds + OpCommands(op))
           == Touched(kind, cmds) + (if kind == op.kind then {op.window} else {})
    {
      OpTouches(kind, cmds, op);
    }
  }

  lemma WindowsSnoc(kind: Kind, ops: seq<Operation>, op: Operation)
    ensures Windows(kind, ops + [op]) == Windows(kind, ops) + (if kind == op.kind then {op.window} else {})
  {
    forall w | w in Windows(kind, ops) ensures w in Windows(kind, ops + [op]) {
      var o :| o in ops && o.kind == kind && o.window == w;
      assert o in ops + [op];
    }
    assert op in ops + [op];
  }

  lemma {:induction false} TouchedAreWindows(kind: Kind, ops: seq<Operation>)
    ensures Touched(kind, Commands(ops)) == Windows(kind, ops)
    decreases |ops|
  {
    hide Windows, OpCommands;
    if ops == [] {
      assert Windows(kind, []) == {} by { NoWindows(kind); }
    } else {
      var init, op := ops[..|ops| - 1], ops[|ops| - 1];
      hide Touched;
      TouchedAreWindows(kind, init);
      OpTouches(kind, Commands(init), op);
      WindowsSnoc(kind, init, op);
      assert ops == init + [op];
    }
  }

  lemma NoWindows(kind: Kind)
    ensures Windows(kind, []) == {}
  {
  }

  lemma {:induction false} WritesAreLast(ops: seq<Operation>, slot: Slot)
    ensures slot in Writes(Commands(ops)) <==> LastWrite(ops, slot).Some?
    ensures slot in Writes(Commands(ops)) ==> LastWrite(ops, slot) == Some(Writes(Commands(ops))[slot])
    decreases |ops|
  {
    hide OpWrites, OpCommands;
    if ops != [] {
      var init, op := ops[..|ops| - 1], ops[|ops| - 1];
      hide Writes;
      WritesAreLast(init, slot);
      OpAddsWrites(Commands(init), op);
    }
  }

  /** Each stored field is the one the last operation naming it wrote, and the index gains exactly the windows seen. */
  lemma CommandsMeanLastWrites(ops: seq<Operation>, slot: Slot)
    ensures slot in Writes(Commands(ops)) <==> LastWrite(ops, slot).Some?
    ensures slot in Writes(Commands(ops)) ==> LastWrite(ops, slot) == Some(Writes(Commands(ops))[slot])
    ensures forall kind :: Touched(kind, Commands(ops)) == Windows(kind, ops)
  {
    hide Touched, Windows, Writes, LastWrite, Commands;
    WritesAreLast(ops, slot);
    forall kind: Kind ensures Touched(kind, Commands(ops)) == Windows(kind, ops) {
      TouchedAreWindows(kind, ops);
    }
  }

  /** What the cache should hold after applying `ops` in order to `r`, said without commands or batches. */
  ghost predicate HoldsExactly(n: nat, r: Redis, ops: seq<Operation>, now: Redis) {
    && (forall slot ::
          match LastWrite(ops, slot)
          case Some(v) => slot in now.hashes && now.hashes[slot] == v
          case None => (slot in now.hashes <==> slot in r.hashes)
                       && (slot in r.hashes ==> now.hashes[slot] == r.hashes[slot]))
    && (forall kind: Kind :: now.Index(kind) ==
          if Windows(kind, ops) == {} then r.Index(kind) else Top(n, r.Index(kind) + Windows(kind, ops)))
  }

  /** Applying the commands meets this reading. */
  lemma AppliedHolds(n: nat, r: Redis, ops: seq<Operation>)
    ensures HoldsExactly(n, r, ops, Applied(n, r, Commands(ops)))
  {
    hide LastWrite, Writes, Touched, Commands, Windows;
    var goal := Applied(n, r, Commands(ops));
    forall slot: Slot
      ensures match LastWrite(ops, slot)
        case Some(v) => slot in goal.hashes && goal.hashes[slot] == v
        case None => (slot in goal.hashes <==> slot in r.hashes)
                     && (slot in r.hashes ==> goal.hashes[slot] == r.hashes[slot])
    {
      CommandsMeanLastWrites(ops, slot);
    }
    CommandsMeanLastWrites(ops, Slot(HashKey(EventKind, 0), ""));
  }

  /** No two states meet it. */
  lemma HoldsExactlyIsUnique(n: nat, r: Redis, ops: seq<Operation>, a: Redis, b: Redis)
    requires HoldsExactly(n, r, ops, a) && HoldsExactly(n, r, ops, b)
    ensures a == b
  {
    hide LastWrite, Windows, Top;
    assert a.Index(EventKind) == b.Index(EventKind) && a.Index(PerfKind) == b.Index(PerfKind);
    forall slot: Slot
      ensures (slot in a.hashes <==> slot in b.hashes)
      ensures slot in a.hashes ==> a.hashes[slot] == b.hashes[slot]
    {
      var last := LastWrite(ops, slot);
    }
    assert a.hashes == b.hashes;
  }

  /** `Applied` is the only state that meets this reading. */
  lemma AppliedMeansLastWrites(n: nat, r: Redis, ops: seq<Operation>, now: Redis)
    ensures now == Applied(n, r, Commands(ops)) <==> HoldsExactly(n, r, ops, now)
  {
    hide HoldsExactly, Applied, Commands;
    AppliedHolds(n, r, ops);
    if HoldsExactly(n, r, ops, now) {
      HoldsExactlyIsUnique(n, r, ops, now, Applied(n, r, Commands(ops)));
    }
  }
}

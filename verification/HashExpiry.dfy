/**
 Expiry of window hashes, on top of the runs of CacheProtocol: when each command runs decides whether the
 hash of a window is still there. `hset` keeps a deadline, `expire` sets a new one, and a hash is removed with
 all its fields when its deadline is reached.
 */
module HashExpiry {
  import opened Wrappers
  import opened CacheModel
  import opened CacheProtocol
  import opened CacheSafety
  import opened CacheTheorems
  import opened HashPresence

  /** A command about one window's hash that Redis ran, and when. */
  datatype Touch = Wrote(at: int) | Renewed(at: int)

  /** The hash as Redis keeps it: not there, or there until its deadline, if it has one. */
  datatype Clock = Gone | Kept(deadline: Option<int>)

  function Tick(k: Clock, now: int): Clock {
    if k.Kept? && k.deadline.Some? && k.deadline.value <= now then Gone else k
  }

  function OnTouch(ttl: int, k: Clock, t: Touch): Clock {
    var now := Tick(k, t.at);
    match t
    case Wrote(_) => if now.Gone? then Kept(None) else now
    case Renewed(at) => if now.Gone? then Gone else Kept(Some(at + ttl))
  }

  function ClockAfter(ttl: int, start: Clock, touches: seq<Touch>): Clock {
    if touches == [] then start
    else OnTouch(ttl, ClockAfter(ttl, start, touches[..|touches| - 1]), touches[|touches| - 1])
  }

  predicate Visible(ttl: int, start: Clock, touches: seq<Touch>, now: int) {
    Tick(ClockAfter(ttl, start, touches), now).Kept?
  }

  // ---------------------------------------------------------------- the touches of a run

  function TouchOf(s: State, e: Event, at: int, key: HashKey): seq<Touch> {
    if e.RunCommand? && s.phase.Executing? && s.phase.next < |Commands(s.batch)| then
      var cmd := Commands(s.batch)[s.phase.next];
      if IsHSet(cmd, key) then [Wrote(at)] else if cmd == Expire(key) then [Renewed(at)] else []
    else []
  }

  /** What a run does to one window's hash; `times[i]` is when event `i` happens. */
  function Touches(c: Config, start: State, events: seq<Event>, times: seq<int>, key: HashKey): seq<Touch>
    requires Legal(c, start, events) && |times| == |events|
    decreases |events|
  {
    if events == [] then []
    else
      var last := |events| - 1;
      Touches(c, start, events[..last], times[..last], key)
      + TouchOf(Run(c, start, events[..last]), events[last], times[last], key)
  }

  lemma TouchStep(c: Config, s: State, e: Event, at: int, key: HashKey)
    requires Enabled(c, s, e)
    ensures HasHash(Next(c, s, e).redis.hashes, key)
      <==> HasHash(s.redis.hashes, key) || TouchOf(s, e, at, key) == [Wrote(at)]
  {
    hide Next, HasHash, Commands, IsHSet;
    HashStep(c, s, e, key);
  }

  lemma ClockSnoc(ttl: int, start: Clock, touches: seq<Touch>, more: seq<Touch>)
    requires |more| <= 1
    ensures ClockAfter(ttl, start, touches + more) ==
      if more == [] then ClockAfter(ttl, start, touches) else OnTouch(ttl, ClockAfter(ttl, start, touches), more[0])
  {
    if more == [] {
      assert touches + more == touches;
    } else {
      assert (touches + more)[..|touches + more| - 1] == touches;
    }
  }

  /** A hash that is visible was written: expiry only removes hashes. */
  lemma {:induction false} VisibleHasHash(
    c: Config, r0: Redis, events: seq<Event>, times: seq<int>, key: HashKey, ttl: int, start: Clock)
    requires Legal(c, Start(r0), events) && |times| == |events|
    requires start.Kept? ==> HasHash(r0.hashes, key)
    ensures ClockAfter(ttl, start, Touches(c, Start(r0), events, times, key)).Kept? ==>
      HasHash(After(c, r0, events).redis.hashes, key)
    decreases |events|
  {
    hide Next, Enabled, HasHash, TouchOf, OnTouch;
    if events != [] {
      var last := |events| - 1;
      var s := After(c, r0, events[..last]);
      var touches := Touches(c, Start(r0), events[..last], times[..last], key);
      VisibleHasHash(c, r0, events[..last], times[..last], key, ttl, start);
      TouchStep(c, s, events[last], times[last], key);
      TouchIsOne(s, events[last], times[last], key);
      ClockSnoc(ttl, start, touches, TouchOf(s, events[last], times[last], key));
      RenewedWasKept(ttl, ClockAfter(ttl, start, touches), times[last]);
    }
  }

  lemma TouchIsOne(s: State, e: Event, at: int, key: HashKey)
    ensures var t := TouchOf(s, e, at, key); t == [] || t == [Wrote(at)] || t == [Renewed(at)]
  {
  }

  lemma RenewedWasKept(ttl: int, k: Clock, at: int)
    ensures OnTouch(ttl, k, Renewed(at)).Kept? ==> k.Kept?
  {
  }

  /** No deadline set so far has been reached. */
  predicate NoneDue(ttl: int, touches: seq<Touch>, now: int) {
    forall t :: t in touches ==> t.at <= now && (t.Renewed? ==> now < t.at + ttl)
  }

  /** While no deadline has been reached the clock tells only whether the window was ever written. */
  lemma {:induction false} YoungClock(ttl: int, start: Clock, touches: seq<Touch>, now: int)
    requires NoneDue(ttl, touches, now) && (start.Kept? ==> start.deadline.None?)
    ensures var k := ClockAfter(ttl, start, touches);
      && (k.Kept? && k.deadline.Some? ==> now < k.deadline.value)
      && (k.Kept? <==> start.Kept? || exists t :: t in touches && t.Wrote?)
    decreases |touches|
  {
    if touches != [] {
      var init, last := touches[..|touches| - 1], touches[|touches| - 1];
      YoungClock(ttl, start, init, now);
      assert forall t :: t in touches <==> t in init || t == last;
    }
  }

  lemma {:induction false} WrittenMeansHash(
    c: Config, r0: Redis, events: seq<Event>, times: seq<int>, key: HashKey)
    requires Legal(c, Start(r0), events) && |times| == |events|
    ensures HasHash(After(c, r0, events).redis.hashes, key) <==>
      HasHash(r0.hashes, key) || exists t :: t in Touches(c, Start(r0), events, times, key) && t.Wrote?
    decreases |events|
  {
    hide Next, Enabled, HasHash, TouchOf;
    if events != [] {
      var last := |events| - 1;
      var s := After(c, r0, events[..last]);
      var touches := Touches(c, Start(r0), events[..last], times[..last], key);
      var more := TouchOf(s, events[last], times[last], key);
      WrittenMeansHash(c, r0, events[..last], times[..last], key);
      TouchStep(c, s, events[last], times[last], key);
      TouchIsOne(s, events[last], times[last], key);
      assert forall t :: t in touches + more <==> t in touches || t in more;
      assert Wrote(times[last]) in more <==> more == [Wrote(times[last])];
    }
  }

  /** Until the first deadline of a window is reached, it is visible exactly if it has a hash without expiry. */
  lemma YoungHashesAreVisible(
    c: Config, r0: Redis, events: seq<Event>, times: seq<int>, key: HashKey, ttl: int, start: Clock, now: int)
    requires Legal(c, Start(r0), events) && |times| == |events|
    requires (start.Kept? <==> HasHash(r0.hashes, key)) && (start.Kept? ==> start.deadline.None?)
    requires NoneDue(ttl, Touches(c, Start(r0), events, times, key), now)
    ensures Visible(ttl, start, Touches(c, Start(r0), events, times, key), now)
      <==> HasHash(After(c, r0, events).redis.hashes, key)
  {
    hide Legal, Run, HasHash, ClockAfter, Touches, NoneDue;
    WrittenMeansHash(c, r0, events, times, key);
    YoungClock(ttl, start, Touches(c, Start(r0), events, times, key), now);
  }

  // ---------------------------------------------------------------- after a write

  /** The old deadline falls between the `hset` and the `expire` that should have renewed it. */
  predicate LapsesBetween(k: Clock, wrote: int, renewed: int) {
    k.Kept? && k.deadline.Some? && wrote < k.deadline.value <= renewed
  }

  /**
   A window last written at `a` and renewed at `b` is visible at `now` if and only if `now` is less than
   the time to live after `b`, unless its old deadline fell between the two commands.
   */
  lemma VisibleAfterWrite(ttl: int, start: Clock, touches: seq<Touch>, a: int, b: int, now: int)
    requires a <= b <= now
    ensures Visible(ttl, start, touches + [Wrote(a), Renewed(b)], now) <==>
      now < b + ttl && !LapsesBetween(ClockAfter(ttl, start, touches), a, b)
  {
    var k := ClockAfter(ttl, start, touches);
    ClockSnoc(ttl, start, touches, [Wrote(a)]);
    ClockSnoc(ttl, start, touches + [Wrote(a)], [Renewed(b)]);
    assert touches + [Wrote(a)] + [Renewed(b)] == touches + [Wrote(a), Renewed(b)];
  }

  // ---------------------------------------------------------------- every expire follows its hset

  /** In a pipeline every `expire` comes right after the `hset` of the same window. */
  lemma {:induction false} ExpireFollowsHSet(ops: seq<Operation>, i: nat, key: HashKey)
    requires i < |Commands(ops)| && Commands(ops)[i] == Expire(key)
    ensures i >= 1 && Commands(ops)[i - 1].HSet? && Commands(ops)[i - 1].key == key
    decreases |ops|
  {
    var init := ops[..|ops| - 1];
    if i < |Commands(init)| {
      ExpireFollowsHSet(init, i, key);
    } else {
      var cmds := OpCommands(ops[|ops| - 1]);
      assert Commands(ops)[i] == cmds[i - |Commands(init)|];
      assert Commands(ops)[i - 1] == cmds[i - 1 - |Commands(init)|];
    }
  }

  /** Each renewal directly follows a write, and so will the one that comes next. */
  ghost predicate Paired(s: State, touches: seq<Touch>, key: HashKey) {
    && (forall i :: 0 <= i < |touches| && touches[i].Renewed? ==> i > 0 && touches[i - 1].Wrote?)
    && (RenewsNext(s, key) ==> touches != [] && touches[|touches| - 1].Wrote?)
  }

  predicate RenewsNext(s: State, key: HashKey) {
    s.phase.Executing? && s.phase.next < |Commands(s.batch)| && Commands(s.batch)[s.phase.next] == Expire(key)
  }

  /** A step after which an `expire` of the window is next has just handled its `hset`. */
  lemma RenewComesNext(c: Config, s: State, e: Event, key: HashKey)
    requires Enabled(c, s, e) && RenewsNext(Next(c, s, e), key)
    requires InFlush(s.phase) ==> NoEmptyOps(s.batch)
    requires s.phase.Executing? ==> s.phase.next <= |Commands(s.batch)|
    ensures (RenewsNext(s, key) && !e.RunCommand? && !e.RejectCommand?) || AnswersHSet(s, e, key)
  {
    hide Touched, Commands, Execute, TrimBySize;
    var t := Next(c, s, e);
    ExpireFollowsHSet(t.batch, t.phase.next, key);
    CommandStep(c, s, e);
    if t.phase.next == s.phase.next + 1 && (e.RunCommand? || e.RejectCommand?) {
      HSetHasFields(s.batch, s.phase.next);
    }
  }

  lemma PairedStep(c: Config, s: State, e: Event, at: int, touches: seq<Touch>, key: HashKey)
    requires Enabled(c, s, e) && Paired(s, touches, key)
    requires InFlush(s.phase) ==> NoEmptyOps(s.batch)
    requires s.phase.Executing? ==> s.phase.next <= |Commands(s.batch)|
    requires !(e.RejectCommand? && AnswersHSet(s, e, key))
    ensures Paired(Next(c, s, e), touches + TouchOf(s, e, at, key), key)
  {
    hide Next, Commands;
    var more := touches + TouchOf(s, e, at, key);
    TouchIsOne(s, e, at, key);
    if RenewsNext(Next(c, s, e), key) { RenewComesNext(c, s, e, key); }
  }

  /** Without a rejected `hset` of the window, each `expire` that ran came right after an `hset` that ran. */
  lemma {:induction false} RenewalsFollowWrites(
    c: Config, r0: Redis, events: seq<Event>, times: seq<int>, key: HashKey)
    requires Legal(c, Start(r0), events) && |times| == |events|
    requires NoEmptyOps(Ops(c.parse, After(c, r0, events).log)) && !HSetRejected(c, r0, events, key)
    ensures Paired(After(c, r0, events), Touches(c, Start(r0), events, times, key), key)
    decreases |events|
  {
    hide Next, Enabled, Ops, NoEmptyOps, Paired, TouchOf, AnswersHSet, Invariant;
    if events == [] {
      StartPaired(r0, key);
    } else {
      var last := |events| - 1;
      var init, e := events[..last], events[last];
      var s := After(c, r0, init);
      FieldsBefore(c, s, e);
      RenewalsFollowWrites(c, r0, init, times[..last], key);
      InvariantHolds(c, r0, init);
      assert Conserved(c, s) by { InvariantConserves(c, r0, s); }
      BatchHasFields(c, s);
      NextFits(c, r0, s);
      PairedStep(c, s, e, times[last], Touches(c, Start(r0), init, times[..last], key), key);
    }
  }

  lemma StartPaired(r0: Redis, key: HashKey)
    ensures Paired(Start(r0), [], key)
  {
  }

  lemma NextFits(c: Config, r0: Redis, s: State)
    requires Invariant(c, r0, s)
    ensures s.phase.Executing? ==> s.phase.next <= |Commands(s.batch)|
  {
    hide Commands, Conserved, CommitBounded, BatchBounded;
  }

  /**
   When a hash can be seen, exactly: after a run in which no `hset` of the window was rejected and whose
   last command about it was the `expire` at `b`, following the `hset` at `a`, the hash is there at `now` if
   and only if less than the time to live has passed since `b`, unless its old deadline fell between `a` and `b`.
   */
  lemma HashVisibleExactly(
    c: Config, r0: Redis, events: seq<Event>, times: seq<int>, key: HashKey, ttl: int, start: Clock, now: int)
    requires Legal(c, Start(r0), events) && |times| == |events|
    requires NoEmptyOps(Ops(c.parse, After(c, r0, events).log)) && !HSetRejected(c, r0, events, key)
    requires forall i, j :: 0 <= i <= j < |times| ==> times[i] <= times[j] <= now
    requires var touches := Touches(c, Start(r0), events, times, key);
      touches != [] && touches[|touches| - 1].Renewed?
    ensures var touches := Touches(c, Start(r0), events, times, key);
      var n := |touches|;
      && n >= 2 && touches[n - 2].Wrote?
      && (Visible(ttl, start, touches, now) <==>
            && now < touches[n - 1].at + ttl
            && !LapsesBetween(ClockAfter(ttl, start, touches[..n - 2]), touches[n - 2].at, touches[n - 1].at))
  {
    hide Legal, Run, Next, Ops, NoEmptyOps, ClockAfter, Touches, HSetReplies;
    var touches := Touches(c, Start(r0), events, times, key);
    var n := |touches|;
    RenewalsFollowWrites(c, r0, events, times, key);
    TouchesInOrder(c, Start(r0), events, times, key, now);
    assert touches == touches[..n - 2] + [Wrote(touches[n - 2].at), Renewed(touches[n - 1].at)];
    VisibleAfterWrite(ttl, start, touches[..n - 2], touches[n - 2].at, touches[n - 1].at, now);
  }

  predicate InOrder(touches: seq<Touch>, now: int) {
    && (forall i :: 0 <= i < |touches| ==> touches[i].at <= now)
    && (forall i, j :: 0 <= i <= j < |touches| ==> touches[i].at <= touches[j].at)
  }

  lemma {:induction false} TouchesInOrder(
    c: Config, start: State, events: seq<Event>, times: seq<int>, key: HashKey, now: int)
    requires Legal(c, start, events) && |times| == |events|
    requires forall i, j :: 0 <= i <= j < |times| ==> times[i] <= times[j] <= now
    ensures InOrder(Touches(c, start, events, times, key), now)
    decreases |events|
  {
    hide Next, Enabled, TouchOf;
    if events != [] {
      var last := |events| - 1;
      TouchesInOrder(c, start, events[..last], times[..last], key, times[last]);
      TouchIsOne(Run(c, start, events[..last]), events[last], times[last], key);
    }
  }

  // ---------------------------------------------------------------- a flush renews what it writes

  /** Which of the touches are writes. */
  function Kinds(touches: seq<Touch>): seq<bool> {
    seq(|touches|, i requires 0 <= i < |touches| => touches[i].Wrote?)
  }

  /** What a command does to the hash of `key`: a write, a renewal, or nothing. */
  function KindOf(cmd: Command, key: HashKey): seq<bool> {
    if IsHSet(cmd, key) then [true] else if cmd == Expire(key) then [false] else []
  }

  function CommandKinds(cmds: seq<Command>, key: HashKey): seq<bool> {
    if cmds == [] then [] else CommandKinds(cmds[..|cmds| - 1], key) + KindOf(cmds[|cmds| - 1], key)
  }

  lemma CommandKindsSnoc(cmds: seq<Command>, i: nat, key: HashKey)
    requires i < |cmds|
    ensures CommandKinds(cmds[..i + 1], key) == CommandKinds(cmds[..i], key) + KindOf(cmds[i], key)
  {
    assert cmds[..i + 1][..i] == cmds[..i];
  }

  lemma CommandKindsOfOp(before: seq<Command>, op: Operation, key: HashKey)
    requires op.fields != map[]
    ensures CommandKinds(before + OpCommands(op), key) ==
      CommandKinds(before, key) + (if HashKey(op.kind, op.window) == key then [true, false] else [])
  {
    var all := before + OpCommands(op);
    var n := |before|;
    assert all[..n] == before && all[..n + 3] == all;
    CommandKindsSnoc(all, n, key);
    CommandKindsSnoc(all, n + 1, key);
    CommandKindsSnoc(all, n + 2, key);
  }

  /** The last thing a batch does to a window that it writes is to renew it, right after writing it. */
  lemma {:induction false} BatchRenewsLast(ops: seq<Operation>, key: HashKey)
    requires NoEmptyOps(ops) && exists op :: op in ops && HashKey(op.kind, op.window) == key
    ensures var kinds := CommandKinds(Commands(ops), key);
      |kinds| >= 2 && kinds[|kinds| - 2] && !kinds[|kinds| - 1]
    decreases |ops|
  {
    hide OpCommands, CommandKinds;
    var init, op := ops[..|ops| - 1], ops[|ops| - 1];
    CommandKindsOfOp(Commands(init), op, key);
    if HashKey(op.kind, op.window) != key {
      var other :| other in ops && HashKey(other.kind, other.window) == key;
      assert other in init;
      BatchRenewsLast(init, key);
      assert CommandKinds(Commands(init), key) + [] == CommandKinds(Commands(init), key);
    }
  }

  /** How far a flush attempt without a rejection has touched the window since it started with `t0`. */
  ghost predicate Renewing(s: State, t0: seq<Touch>, t: seq<Touch>, key: HashKey) {
    && t0 <= t
    && match s.phase
       case Executing(next, rejected, _) =>
         && next <= |Commands(s.batch)|
         && (!rejected ==> Kinds(t) == Kinds(t0) + CommandKinds(Commands(s.batch)[..next], key))
       case Counting(_, _) => Kinds(t) == Kinds(t0) + CommandKinds(Commands(s.batch), key)
       case Removing(_, _, _) => Kinds(t) == Kinds(t0) + CommandKinds(Commands(s.batch), key)
       case Persisted(_) => Kinds(t) == Kinds(t0) + CommandKinds(Commands(s.batch), key)
       case Committing(_, _) => Kinds(t) == Kinds(t0) + CommandKinds(Commands(s.batch), key)
       case _ => false
  }

  lemma KindsConcat(a: seq<Touch>, b: seq<Touch>)
    ensures Kinds(a + b) == Kinds(a) + Kinds(b)
  {
  }

  lemma RenewingCommand(c: Config, s: State, e: Event, at: int, t0: seq<Touch>, t: seq<Touch>, key: HashKey)
    requires Renewing(s, t0, t, key) && Enabled(c, s, e) && (e.RunCommand? || e.RejectCommand?)
    ensures Renewing(Next(c, s, e), t0, t + TouchOf(s, e, at, key), key)
  {
    hide Commands, Execute, Kinds, CommandKinds, IsHSet;
    var cmds, i := Commands(s.batch), s.phase.next;
    CommandKindsSnoc(cmds, i, key);
    KindsConcat(t, TouchOf(s, e, at, key));
    if e.RunCommand? {
      assert Kinds(TouchOf(s, e, at, key)) == KindOf(cmds[i], key) by { KindsOfTouch(s, e, at, key); }
      assert Kinds(t0) + CommandKinds(cmds[..i], key) + KindOf(cmds[i], key)
          == Kinds(t0) + (CommandKinds(cmds[..i], key) + KindOf(cmds[i], key));
    }
  }

  lemma KindsOfTouch(s: State, e: Event, at: int, key: HashKey)
    requires e.RunCommand? && s.phase.Executing? && s.phase.next < |Commands(s.batch)|
    ensures Kinds(TouchOf(s, e, at, key)) == KindOf(Commands(s.batch)[s.phase.next], key)
  {
  }

  /** Any other step that stays in the flush, or ends it well, touches nothing. */
  lemma RenewingOther(c: Config, s: State, e: Event, at: int, t0: seq<Touch>, t: seq<Touch>, key: HashKey)
    requires Renewing(s, t0, t, key) && Enabled(c, s, e) && !e.RunCommand? && !e.RejectCommand?
    requires InFlush(Next(c, s, e).phase) || Next(c, s, e).phase.Committing?
    ensures Renewing(Next(c, s, e), t0, t + TouchOf(s, e, at, key), key)
  {
    hide Touched, Commands, TrimBySize, Kinds, CommandKinds;
    assert t + TouchOf(s, e, at, key) == t;
    if e.FinishPipeline? { assert Commands(s.batch)[..s.phase.next] == Commands(s.batch); }
  }

  lemma RenewingStarts(s: State, t: seq<Touch>, key: HashKey)
    requires s.phase.Executing? && s.phase.next == 0
    ensures Renewing(s, t, t, key)
  {
    assert Commands(s.batch)[..0] == [];
    assert Kinds(t) + [] == Kinds(t);
  }

  /** A step into a flush from outside starts it at its first command. */
  lemma FlushEntered(c: Config, s: State, e: Event, at: int, key: HashKey)
    requires Enabled(c, s, e) && !InFlush(s.phase) && !s.phase.Committing?
    requires InFlush(Next(c, s, e).phase) || Next(c, s, e).phase.Committing?
    ensures var p := Next(c, s, e).phase; p.Executing? && p.next == 0 && !p.rejected
    ensures TouchOf(s, e, at, key) == []
  {
  }

  /** In every reachable state of a flush: where the attempt started, and what it has touched since. */
  lemma {:induction false} FlushTouches(
    c: Config, r0: Redis, events: seq<Event>, times: seq<int>, key: HashKey) returns (k: nat)
    requires Legal(c, Start(r0), events) && |times| == |events|
    requires InFlush(After(c, r0, events).phase) || After(c, r0, events).phase.Committing?
    ensures k <= |events| && Legal(c, Start(r0), events[..k])
    ensures var p := After(c, r0, events[..k]).phase; p.Executing? && p.next == 0 && !p.rejected
    ensures Renewing(After(c, r0, events), Touches(c, Start(r0), events[..k], times[..k], key),
                     Touches(c, Start(r0), events, times, key), key)
    decreases |events|
  {
    hide Next, Enabled, TouchOf, Renewing, Commands;
    if events == [] {
      assert false;
    } else {
      var last := |events| - 1;
      var s, e := After(c, r0, events[..last]), events[last];
      var touches := Touches(c, Start(r0), events[..last], times[..last], key);
      if InFlush(s.phase) || s.phase.Committing? {
        k := FlushTouches(c, r0, events[..last], times[..last], key);
        assert events[..last][..k] == events[..k] && times[..last][..k] == times[..k];
        var t0 := Touches(c, Start(r0), events[..k], times[..k], key);
        if e.RunCommand? || e.RejectCommand? {
          RenewingCommand(c, s, e, times[last], t0, touches, key);
        } else {
          RenewingOther(c, s, e, times[last], t0, touches, key);
        }
      } else {
        k := |events|;
        assert events[..k] == events && times[..k] == times;
        FlushEntered(c, s, e, times[last], key);
        RenewingStarts(After(c, r0, events), Touches(c, Start(r0), events, times, key), key);
      }
    }
  }

  /**
   Right after each successful flush, every window that the flushed batch writes was last written and then
   renewed by that very flush, and by nothing since.
   */
  lemma FlushRenewsItsWindows(
    c: Config, r0: Redis, events: seq<Event>, times: seq<int>, key: HashKey) returns (k: nat)
    requires Legal(c, Start(r0), events) && |times| == |events|
    requires After(c, r0, events).phase.Committing? && NoEmptyOps(After(c, r0, events).batch)
    requires exists op :: op in After(c, r0, events).batch && HashKey(op.kind, op.window) == key
    ensures k <= |events| && Legal(c, Start(r0), events[..k])
    ensures var p := After(c, r0, events[..k]).phase; p.Executing? && p.next == 0 && !p.rejected
    ensures var t0, t := Touches(c, Start(r0), events[..k], times[..k], key), Touches(c, Start(r0), events, times, key);
      t0 <= t && |t| >= |t0| + 2 && t[|t| - 2].Wrote? && t[|t| - 1].Renewed?
  {
    hide Legal, Run, NoEmptyOps, Touches, CommandKinds, Commands;
    k := FlushTouches(c, r0, events, times, key);
    BatchRenewsLast(After(c, r0, events).batch, key);
    var t0, t := Touches(c, Start(r0), events[..k], times[..k], key), Touches(c, Start(r0), events, times, key);
    var kinds := CommandKinds(Commands(After(c, r0, events).batch), key);
    assert Kinds(t) == Kinds(t0) + kinds;
    assert Kinds(t)[|t| - 2] == kinds[|kinds| - 2] && Kinds(t)[|t| - 1] == kinds[|kinds| - 1];
  }

  /**
   So after each successful flush the hash of every window it wrote can be seen until the time to live after its
   renewal in that flush, and not from then on, whatever else happens that does not touch the window again:
   `later` is any continuation of the run. The one exception is an old deadline between the write and the renewal.
   */
  lemma FlushedHashVisibility(
    c: Config, r0: Redis, events: seq<Event>, times: seq<int>, later: seq<Event>, laterTimes: seq<int>,
    key: HashKey, ttl: int, start: Clock, now: int)
    requires Legal(c, Start(r0), events) && |times| == |events|
    requires After(c, r0, events).phase.Committing? && NoEmptyOps(After(c, r0, events).batch)
    requires exists op :: op in After(c, r0, events).batch && HashKey(op.kind, op.window) == key
    requires forall i, j :: 0 <= i <= j < |times| ==> times[i] <= times[j] <= now
    requires Legal(c, Start(r0), later) && |laterTimes| == |later| && events <= later && times <= laterTimes
    requires Touches(c, Start(r0), later, laterTimes, key) == Touches(c, Start(r0), events, times, key)
    ensures var t := Touches(c, Start(r0), events, times, key);
      var n := |t|;
      && n >= 2 && t[n - 2].Wrote? && t[n - 1].Renewed?
      && (Visible(ttl, start, Touches(c, Start(r0), later, laterTimes, key), now) <==>
            now < t[n - 1].at + ttl && !LapsesBetween(ClockAfter(ttl, start, t[..n - 2]), t[n - 2].at, t[n - 1].at))
  {
    hide Legal, Run, NoEmptyOps, Touches, ClockAfter;
    var k := FlushRenewsItsWindows(c, r0, events, times, key);
    var t := Touches(c, Start(r0), events, times, key);
    var n := |t|;
    TouchesInOrder(c, Start(r0), events, times, key, now);
    assert t == t[..n - 2] + [Wrote(t[n - 2].at), Renewed(t[n - 1].at)];
    VisibleAfterWrite(ttl, start, t[..n - 2], t[n - 2].at, t[n - 1].at, now);
  }
}

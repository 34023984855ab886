/**
 Crash and restart of the storage service. A life ends anywhere: between two passes, or in the middle of one,
 with some inserts done and no commit. The next one starts with empty buffers at the committed position, on
 the table that was left.
 */
module StorageRestart {
  import opened Wrappers
  import opened StorageConsumer
  import opened InsertCycle
  import opened StorageRuns
  import opened StorageTheorems

  /** Whole passes, then perhaps one that was cut off before its commit. */
  datatype Life = Life(passes: seq<Pass>, cut: Option<Pass>)

  /** The inserts of a pass that was cut off have come any way. */
  predicate CutOff(c: Setup, s: Ledger, p: Pass) {
    var rows := CycleRows(c, PollOf(c, s, p).batches);
    Legal(rows, NotStarted(|rows|, c.max), p.events)
  }

  predicate PossibleLife(c: Setup, life: Life) {
    PossibleAll(c, life.passes) && (life.cut.Some? ==> CutOff(c, After(c, life.passes), life.cut.value))
  }

  /** The ledger of a life after its last whole pass. */
  function LedgerOf(c: Setup, life: Life): Ledger
    requires PossibleLife(c, life)
  {
    After(c, life.passes)
  }

  function PolledIn(c: Setup, life: Life): seq<Msg>
    requires PossibleLife(c, life)
  {
    LedgerOf(c, life).polled + (if life.cut.Some? then life.cut.value.msgs else [])
  }

  /** The row copies that one life adds to the table, by place in its own delivery. */
  function TableOf(c: Setup, life: Life): multiset<nat>
    requires PossibleLife(c, life)
  {
    var s := LedgerOf(c, life);
    s.table +
    (if life.cut.None? then multiset{}
     else
       var rows := CycleRows(c, PollOf(c, s, life.cut.value).batches);
       Run(rows, NotStarted(|rows|, c.max), life.cut.value.events).landed)
  }

  /** What a pass that was cut off put into the table: rows that were not there, each at most three times. */
  lemma CutOffCopies(c: Setup, s: Ledger, p: Pass, o: nat)
    requires NoDuplicates(c.topics) && Accounted(c, s, {}) && CutOff(c, s, p)
    ensures var rows := CycleRows(c, PollOf(c, s, p).batches);
      var landed := Run(rows, NotStarted(|rows|, c.max), p.events).landed;
      landed[o] <= MAX_RETRIES && (o in landed ==> o !in s.table && o < |s.polled| + |p.msgs|)
  {
    hide Buffered, BuffersFit, Legal, Run, DisjointRows, Poll, AllRows, AckedRows, Places, NoDuplicates, CycleRows;
    var poll := PollOf(c, s, p);
    PollPlaces(c, s, p);
    PollAccounted(c, s, p);
    CycleRowsAre(c, poll.batches, |s.polled| + |p.msgs|);
    LandedFits(CycleRows(c, poll.batches), c.max, p.events);
  }

  /** One life puts each row into the table at most three times, and only rows it has polled. */
  lemma LifeCopies(c: Setup, life: Life, o: nat)
    requires NoDuplicates(c.topics) && PossibleLife(c, life)
    ensures TableOf(c, life)[o] <= 3
    ensures o in TableOf(c, life) ==> o < |PolledIn(c, life)|
  {
    hide Legal, Run, After, CutOff, PollOf, CycleRows, PossibleAll;
    var s := LedgerOf(c, life);
    LedgerHolds(c, life.passes);
    TableIsPolled(c, s, o);
    hide Accounted;
    if life.cut.Some? {
      CutOffCopies(c, s, life.cut.value, o);
    }
  }

  lemma TableIsPolled(c: Setup, s: Ledger, o: nat)
    requires Accounted(c, s, {})
    ensures s.table[o] <= MAX_RETRIES && (o in s.table ==> o < |s.polled|)
    ensures s.committed <= |s.polled|
  {
    hide Buffered, BuffersFit, Places;
    PlacesBelow(s.polled);
  }

  // ---------------------------------------------------------------- any number of lives

  /** `lives` follow each other on the log `all`. */
  predicate LivedOn(c: Setup, all: seq<Msg>, lives: seq<Life>)
    decreases |lives|, 0
  {
    lives != [] ==>
      var init, life := lives[..|lives| - 1], lives[|lives| - 1];
      && LivedOn(c, all, init)
      && Base(c, all, init) <= |all|
      && PossibleLife(c, life)
      && PolledIn(c, life) <= all[Base(c, all, init)..]
  }

  /** The committed position after these lives, from which the next one is delivered. */
  function Base(c: Setup, all: seq<Msg>, lives: seq<Life>): nat
    requires LivedOn(c, all, lives)
    decreases |lives|, 1
  {
    if lives == [] then 0
    else Base(c, all, lives[..|lives| - 1]) + LedgerOf(c, lives[|lives| - 1]).committed
  }

  /** How many copies of message `o` are in the table. */
  function Copies(c: Setup, all: seq<Msg>, lives: seq<Life>, o: nat): nat
    requires LivedOn(c, all, lives)
    decreases |lives|
  {
    if lives == [] then 0
    else
      var init, life := lives[..|lives| - 1], lives[|lives| - 1];
      var base := Base(c, all, init);
      Copies(c, all, init, o) + (if base <= o then TableOf(c, life)[o - base] else 0)
  }

  /** In how many lives message `o` was polled. */
  function TimesPolled(c: Setup, all: seq<Msg>, lives: seq<Life>, o: nat): nat
    requires LivedOn(c, all, lives)
    decreases |lives|
  {
    if lives == [] then 0
    else
      var init, life := lives[..|lives| - 1], lives[|lives| - 1];
      var base := Base(c, all, init);
      TimesPolled(c, all, init, o) + (if base <= o < base + |PolledIn(c, life)| then 1 else 0)
  }

  /** A message polled in k lives has at most 3k copies, wherever the lives were cut off. */
  lemma {:induction false} CopiesAreBounded(c: Setup, all: seq<Msg>, lives: seq<Life>, o: nat)
    requires NoDuplicates(c.topics) && LivedOn(c, all, lives)
    ensures Copies(c, all, lives, o) <= 3 * TimesPolled(c, all, lives, o)
    decreases |lives|
  {
    hide PossibleLife, TableOf, PolledIn, NoDuplicates, LedgerOf;
    if lives != [] {
      var init, life := lives[..|lives| - 1], lives[|lives| - 1];
      var base := Base(c, all, init);
      CopiesAreBounded(c, all, init, o);
      if base <= o { LifeCopies(c, life, o - base); }
    }
  }

  /** An insert of message `o` was acknowledged in some life. */
  predicate AckedInSome(c: Setup, all: seq<Msg>, lives: seq<Life>, o: nat)
    requires LivedOn(c, all, lives)
    decreases |lives|
  {
    lives != [] &&
    var init, life := lives[..|lives| - 1], lives[|lives| - 1];
    var base := Base(c, all, init);
    AckedInSome(c, all, init, o) || (base <= o && o - base in LedgerOf(c, life).acked)
  }

  /** An acknowledged message is in the table. */
  lemma {:induction false} AckedIsStored(c: Setup, all: seq<Msg>, lives: seq<Life>, o: nat)
    requires NoDuplicates(c.topics) && LivedOn(c, all, lives) && AckedInSome(c, all, lives, o)
    ensures Copies(c, all, lives, o) >= 1
    decreases |lives|
  {
    hide PossibleAll, After, NoDuplicates, Buffered, BuffersFit, Places, CutOff, PollOf, CycleRows, Run, Legal;
    var init, life := lives[..|lives| - 1], lives[|lives| - 1];
    if AckedInSome(c, all, init, o) {
      AckedIsStored(c, all, init, o);
    } else {
      LedgerHolds(c, life.passes);
    }
  }

  /** In its own life, what lies below the committed position was acknowledged or has one of the three fates. */
  lemma BelowCommit(c: Setup, s: Ledger, o: nat)
    requires Accounted(c, s, {}) && o < s.committed && CarriesData(s.polled[o])
    ensures o in s.acked <==> o !in Named(s)
  {
    hide Buffered, BuffersFit, TableFits;
    assert 0 + o in Places(s.polled, 0, |s.polled|, 0, CarriesData);
    assert o !in Buffered(s.buffers) + {};
  }

  lemma LifeBelowCommit(c: Setup, life: Life, o: nat)
    requires NoDuplicates(c.topics) && PossibleLife(c, life)
    ensures var s := LedgerOf(c, life);
      && s.committed <= |s.polled| && s.polled <= PolledIn(c, life)
      && (o < s.committed && CarriesData(s.polled[o]) ==> (o in s.acked <==> o !in Named(s)))
  {
    hide PossibleAll, After, NoDuplicates, Named, CutOff, Buffered, BuffersFit, Places;
    var s := LedgerOf(c, life);
    LedgerHolds(c, life.passes);
    if o < s.committed && CarriesData(s.polled[o]) { BelowCommit(c, s, o); }
  }

  /** The last of several lives. */
  lemma LastLife(c: Setup, all: seq<Msg>, lives: seq<Life>)
    requires LivedOn(c, all, lives) && lives != []
    ensures var init, life := lives[..|lives| - 1], lives[|lives| - 1];
      && LivedOn(c, all, init) && PossibleLife(c, life)
      && Base(c, all, init) <= |all| && PolledIn(c, life) <= all[Base(c, all, init)..]
      && Base(c, all, lives) == Base(c, all, init) + LedgerOf(c, life).committed
  {
    hide PossibleLife, PolledIn, LedgerOf;
  }

  /** In the life that commits past a message, acknowledged is the same as having none of the three fates. */
  lemma LastLifeDecides(c: Setup, all: seq<Msg>, lives: seq<Life>, o: nat)
    requires NoDuplicates(c.topics) && LivedOn(c, all, lives) && lives != []
    requires LivedOn(c, all, lives[..|lives| - 1]) && PossibleLife(c, lives[|lives| - 1])
    requires Base(c, all, lives[..|lives| - 1]) <= o < Base(c, all, lives) && o < |all| && CarriesData(all[o])
    ensures var base, s := Base(c, all, lives[..|lives| - 1]), LedgerOf(c, lives[|lives| - 1]);
      o - base in s.acked <==> o - base !in Named(s)
  {
    hide LedgerOf, NoDuplicates, Named, PossibleLife, CarriesData, LivedOn, Base, PolledIn;
    LastLife(c, all, lives);
    var base, life := Base(c, all, lives[..|lives| - 1]), lives[|lives| - 1];
    var s := LedgerOf(c, life);
    LifeBelowCommit(c, life, o - base);
    assert s.polled[o - base] == PolledIn(c, life)[o - base] == all[base..][o - base] == all[o];
  }

  lemma NoLives(c: Setup, all: seq<Msg>)
    ensures Base(c, all, []) == 0
  {
  }

  lemma AckedLast(c: Setup, all: seq<Msg>, lives: seq<Life>, o: nat)
    requires LivedOn(c, all, lives) && lives != []
    requires LivedOn(c, all, lives[..|lives| - 1]) && PossibleLife(c, lives[|lives| - 1])
    ensures var init, life := lives[..|lives| - 1], lives[|lives| - 1];
      AckedInSome(c, all, lives, o) <==>
        || AckedInSome(c, all, init, o)
        || (Base(c, all, init) <= o && o - Base(c, all, init) in LedgerOf(c, life).acked)
  {
    hide PossibleLife, PolledIn, LedgerOf;
  }

  /** A message below the committed position is never delivered again. */
  lemma {:induction false} PolledNoMore(c: Setup, all: seq<Msg>, lives: seq<Life>, k: nat, o: nat)
    requires LivedOn(c, all, lives) && k <= |lives| && LivedOn(c, all, lives[..k]) && o < Base(c, all, lives[..k])
    ensures o < Base(c, all, lives) && TimesPolled(c, all, lives, o) == TimesPolled(c, all, lives[..k], o)
    decreases |lives|
  {
    hide LedgerOf, PossibleLife, PolledIn;
    if k == |lives| {
      assert lives[..k] == lives;
    } else {
      var init := lives[..|lives| - 1];
      assert init[..k] == lives[..k];
      PolledNoMore(c, all, init, k, o);
    }
  }

  /**
   Which messages are stored: a data message below the position that any number of lives have committed was
   committed by exactly one of them, the `j`-th (and never polled again, by `PolledNoMore`). It is stored if
   and only if an earlier life already had its insert acknowledged, or it has none of the three fates in the
   `j`-th.
   */
  lemma {:induction false} StoredAcrossLives(c: Setup, all: seq<Msg>, lives: seq<Life>, o: nat) returns (j: nat)
    requires NoDuplicates(c.topics) && LivedOn(c, all, lives)
    requires o < Base(c, all, lives) && o < |all| && CarriesData(all[o])
    ensures j < |lives| && LivedOn(c, all, lives[..j]) && Base(c, all, lives[..j]) <= o
    ensures var base := Base(c, all, lives[..j]);
      && PossibleLife(c, lives[j])
      && o < base + LedgerOf(c, lives[j]).committed
      && (AckedInSome(c, all, lives, o) <==>
            AckedInSome(c, all, lives[..j], o) || o - base !in Named(LedgerOf(c, lives[j])))
    ensures LivedOn(c, all, lives[..j + 1]) && o < Base(c, all, lives[..j + 1])
    decreases |lives|
  {
    hide LedgerOf, NoDuplicates, Named, PossibleLife, CarriesData, PolledIn, Base, AckedInSome;
    if lives == [] {
      assert Base(c, all, []) == 0 by { NoLives(c, all); }
      assert false;
    }
    LastLife(c, all, lives);
    AckedLast(c, all, lives, o);
    var last := |lives| - 1;
    var init := lives[..last];
    if o < Base(c, all, init) {
      j := StoredAcrossLives(c, all, init, o);
      assert init[..j] == lives[..j] && init[..j + 1] == lives[..j + 1];
    } else {
      j := last;
      assert lives[..j + 1] == lives;
      LastLifeDecides(c, all, lives, o);
    }
  }
}

/**
 Sorted-set retention. A window index is a sorted set whose score is its member, so it is a set
 of integers and a rank is the number of smaller members.
 */
module TopN {

  function Above(s: set<int>, x: int): set<int> {
    set y | y in s && y > x
  }

  function Below(s: set<int>, x: int): set<int> {
    set y | y in s && y < x
  }

  /** The `n` largest members. */
  function Top(n: nat, s: set<int>): set<int> {
    set x | x in s && |Above(s, x)| < n
  }

  /** `zremrangebyrank key 0 (excess - 1)`: what is left has rank at least `excess`. */
  function DropLowest(excess: nat, s: set<int>): set<int> {
    set x | x in s && |Below(s, x)| >= excess
  }

  function Min(a: nat, b: nat): nat {
    if a <= b then a else b
  }

  lemma SomeMember<T>(s: set<T>) returns (x: T)
    requires s != {}
    ensures x in s
  {
    x :| x in s;
  }

  lemma SubsetSize(a: set<int>, b: set<int>)
    requires a <= b
    ensures |a| <= |b|
    ensures |a| == |b| ==> a == b
  {
    assert b == a + (b - a);
  }

  lemma AboveMonotone(a: set<int>, b: set<int>, x: int)
    requires a <= b
    ensures |Above(a, x)| <= |Above(b, x)|
  {
    SubsetSize(Above(a, x), Above(b, x));
  }

  lemma AboveSmaller(s: set<int>, x: int)
    requires x in s
    ensures |Above(s, x)| < |s|
  {
    SubsetSize(Above(s, x), s - {x});
  }

  lemma {:induction false} LeastExists(s: set<int>) returns (m: int)
    requires s != {}
    ensures m in s && forall y :: y in s ==> m <= y
    decreases |s|
  {
    var x := SomeMember(s);
    m := x;
    var rest := s - {x};
    if rest != {} {
      var best := LeastExists(rest);
      if best < x { m := best; }
    }
    forall y | y in s ensures m <= y {
      if y != x { assert y in rest; }
    }
  }

  lemma {:induction false} GreatestExists(s: set<int>) returns (m: int)
    requires s != {}
    ensures m in s && forall y :: y in s ==> y <= m
    decreases |s|
  {
    var x := SomeMember(s);
    m := x;
    var rest := s - {x};
    if rest != {} {
      var best := GreatestExists(rest);
      if best > x { m := best; }
    }
    forall y | y in s ensures y <= m {
      if y != x { assert y in rest; }
    }
  }

  /** Exactly min(n, |s|) members are kept. */
  lemma {:induction false} TopSize(n: nat, s: set<int>)
    ensures |Top(n, s)| == Min(n, |s|)
    ensures |s| <= n ==> Top(n, s) == s
    decreases |s|
  {
    if |s| <= n {
      forall x | x in s ensures x in Top(n, s) { AboveSmaller(s, x); }
      assert Top(n, s) == s;
    } else {
      var m := LeastExists(s);
      var rest := s - {m};
      assert Above(s, m) == rest;
      forall x | x in rest ensures Above(s, x) == Above(rest, x) {}
      assert Top(n, s) == Top(n, rest);
      TopSize(n, rest);
    }
  }

  /** Everything left out is smaller than everything kept. */
  lemma TopDominates(n: nat, s: set<int>, kept: int, gone: int)
    requires kept in Top(n, s) && gone in s - Top(n, s)
    ensures gone < kept
  {
    if kept <= gone {
      SubsetSize(Above(s, gone), Above(s, kept));
    }
  }

  /** These three facts leave only one choice for the kept set. */
  lemma TopUnique(n: nat, s: set<int>, t: set<int>)
    requires t <= s && |t| == Min(n, |s|)
    requires forall kept, gone :: kept in t && gone in s - t ==> gone < kept
    ensures t == Top(n, s)
  {
    TopSize(n, s);
    var top := Top(n, s);
    if !(t <= top) {
      var x :| x in t && x !in top;
      if top <= t {
        SubsetSize(top, t);
        assert false;
      }
      var y :| y in top && y !in t;
      assert y in s - t;
      TopDominates(n, s, y, x);
    }
    SubsetSize(t, top);
  }

  /** A member outranked by `n` others is dropped, whatever else is in the set. */
  lemma OutrankedIsDropped(n: nat, a: set<int>, b: set<int>, x: int)
    requires x in a && x !in Top(n, a) && a <= b
    ensures x !in Top(n, b)
  {
    AboveMonotone(a, b, x);
  }

  /** Trimming early does not change what a later trim keeps: retention does not depend on batching. */
  lemma TopAbsorb(n: nat, a: set<int>, b: set<int>)
    ensures Top(n, Top(n, a) + b) == Top(n, a + b)
  {
    var kept := Top(n, a);
    forall x | x in Top(n, a + b)
      ensures x in Top(n, kept + b)
    {
      AboveMonotone(a, a + b, x);
      AboveMonotone(kept + b, a + b, x);
    }
    forall x | x in Top(n, kept + b)
      ensures x in Top(n, a + b)
    {
      KeptAboveSuffices(n, a, b, x);
    }
  }

  /** Counting only retained members above `x` never lets a member in that the full count keeps out. */
  lemma KeptAboveSuffices(n: nat, a: set<int>, b: set<int>, x: int)
    requires |Above(Top(n, a) + b, x)| < n
    ensures |Above(a + b, x)| < n
  {
    var kept := Top(n, a);
    if Above(a, x) <= kept {
      assert Above(a + b, x) == Above(kept + b, x);
    } else {
      var y :| y in Above(a, x) && y !in kept;
      TopSize(n, a);
      if |a| <= n { assert false; }
      forall z | z in kept ensures z in Above(kept + b, x) { TopDominates(n, a, z, y); }
      SubsetSize(kept, Above(kept + b, x));
    }
  }

  /** Narrowing in two stages is narrowing once. */
  lemma TopOfTop(m: nat, n: nat, s: set<int>)
    requires m <= n
    ensures Top(m, Top(n, s)) == Top(m, s)
  {
    TopSize(n, s);
    TopSize(m, s);
    TopSize(m, Top(n, s));
    var t := Top(m, s);
    assert t <= Top(n, s);
    forall kept, gone | kept in t && gone in Top(n, s) - t ensures gone < kept {
      TopDominates(m, s, kept, gone);
    }
    TopUnique(m, Top(n, s), t);
  }

  /** Removing the `size - n` lowest ranks keeps exactly the `n` largest. */
  lemma DropExcessIsTop(n: nat, s: set<int>)
    requires |s| > n
    ensures DropLowest(|s| - n, s) == Top(n, s)
  {
    forall x | x in s
      ensures |Below(s, x)| + |Above(s, x)| + 1 == |s|
    {
      assert s == Below(s, x) + Above(s, x) + {x};
    }
  }

  /** An evicted window stays out after any later additions and trim, even if it is added again. */
  lemma EvictedStaysOut(n: nat, s: set<int>, added: set<int>, x: int)
    requires x in s - Top(n, s)
    ensures x !in Top(n, Top(n, s) + added)
  {
    TopAbsorb(n, s, added);
    OutrankedIsDropped(n, s, s + added, x);
  }

  /** Once an index is full, its smallest retained window never decreases. */
  lemma FullIndexFloorRises(n: nat, full: set<int>, added: set<int>, floor: int, later: int)
    requires |full| == n
    requires floor in full && forall y :: y in full ==> floor <= y
    requires later in Top(n, full + added)
    ensures floor <= later
  {
    if later < floor {
      SubsetSize(full, Above(full + added, later));
      assert false;
    }
  }

  // ---------------------------------------------------------------- reading ranks

  function Greatest(s: set<int>): (m: int)
    requires s != {}
    ensures m in s && forall y :: y in s ==> y <= m
  {
    assert exists m :: m in s && forall y :: y in s ==> y <= m by {
      var m := GreatestExists(s);
    }
    var m :| m in s && forall y :: y in s ==> y <= m;
    m
  }

  /** Members from the highest rank down. */
  function Descending(s: set<int>): (ids: seq<int>)
    ensures |ids| == |s|
    decreases |s|
  {
    if s == {} then [] else [Greatest(s)] + Descending(s - {Greatest(s)})
  }

  /** `zrevrange key 0 (count - 1)` for `count >= 1`. */
  function ZRevRange(s: set<int>, count: nat): (ids: seq<int>) {
    Descending(s)[..Min(count, |s|)]
  }

  predicate StrictlyDescending(ids: seq<int>) {
    forall i, j :: 0 <= i < j < |ids| ==> ids[i] > ids[j]
  }

  /** `ids` names each member of `s` once, from the largest down. */
  ghost predicate Lists(ids: seq<int>, s: set<int>) {
    && StrictlyDescending(ids)
    && (forall x :: x in ids <==> x in s)
  }

  lemma ListsCons(g: int, ids: seq<int>, s: set<int>)
    requires Lists(ids, s) && forall x :: x in s ==> x < g
    ensures Lists([g] + ids, {g} + s)
  {
    var all := [g] + ids;
    forall i, j | 0 <= i < j < |all| ensures all[i] > all[j] {
      assert all[j] == ids[j - 1] && ids[j - 1] in ids;
    }
  }

  lemma DescendingUnfolds(s: set<int>)
    ensures s == {} ==> Lists(Descending(s), s)
    ensures s != {} ==> Descending(s) == [Greatest(s)] + Descending(s - {Greatest(s)})
  {
  }

  lemma {:induction false} DescendingLists(s: set<int>)
    ensures Lists(Descending(s), s)
    decreases |s|
  {
    hide Lists, Descending;
    DescendingUnfolds(s);
    if s != {} {
      var g, rest := Greatest(s), s - {Greatest(s)};
      DescendingLists(rest);
      ListsCons(g, Descending(rest), rest);
      assert {g} + rest == s;
    }
  }

  lemma {:induction false} ListsSize(ids: seq<int>, s: set<int>)
    requires Lists(ids, s)
    ensures |ids| == |s|
    decreases |ids|
  {
    if ids == [] {
      if s != {} {
        var x := SomeMember(s);
        assert false;
      }
    } else {
      assert forall x :: x in ids[1..] ==> x != ids[0];
      ListsSize(ids[1..], s - {ids[0]});
    }
  }

  lemma {:induction false} ListsUnique(a: seq<int>, b: seq<int>, s: set<int>)
    requires Lists(a, s) && Lists(b, s)
    ensures a == b
    decreases |a|
  {
    ListsSize(a, s);
    ListsSize(b, s);
    if a != [] {
      assert a[0] in b && b[0] in a;
      assert a[0] == b[0];
      ListsUnique(a[1..], b[1..], s - {a[0]});
    }
  }

  /** A range read lists exactly the `count` largest members, each once, in strictly descending order. */
  lemma ZRevRangeListsTop(s: set<int>, count: nat)
    ensures |ZRevRange(s, count)| <= count
    ensures Lists(ZRevRange(s, count), Top(count, s))
  {
    DescendingLists(s);
    PrefixListsTop(Descending(s), s, count);
  }

  lemma PrefixListsTop(all: seq<int>, s: set<int>, count: nat)
    requires Lists(all, s) && |all| == |s|
    ensures Lists(all[..Min(count, |s|)], Top(count, s))
  {
    hide Top;
    var ids, rest := all[..Min(count, |s|)], all[Min(count, |s|)..];
    var t := set x | x in ids;
    ListsSize(ids, t);
    assert all == ids + rest;
    forall kept, gone | kept in t && gone in s - t
      ensures gone < kept
    {
      assert gone in all && gone !in ids;
      assert gone in rest;
    }
    TopUnique(count, s, t);
  }

  /** A pending trim is invisible to a read of at most `n` ids. */
  lemma ZRevRangeIgnoresTrim(s: set<int>, n: nat, count: nat)
    requires count <= n
    ensures ZRevRange(Top(n, s), count) == ZRevRange(s, count)
  {
    ZRevRangeListsTop(s, count);
    ZRevRangeListsTop(Top(n, s), count);
    TopOfTop(count, n, s);
    ListsUnique(ZRevRange(s, count), ZRevRange(Top(n, s), count), Top(count, s));
  }
}

/** Sets of numbers in ascending order: the least element, and the listing `ORDER BY id` gives. */
module Ascending {
  import opened Sums

  predicate Increasing(ids: seq<nat>) {
    forall i, j :: 0 <= i < j < |ids| ==> ids[i] < ids[j]
  }

  ghost function Elements(ids: seq<nat>): set<nat> {
    set k | 0 <= k < |ids| :: ids[k]
  }

  ghost predicate IsLeast(m: nat, s: set<nat>) {
    m in s && forall x :: x in s ==> m <= x
  }

  lemma {:induction false} HasLeast(s: set<nat>) returns (m: nat)
    requires s != {}
    ensures IsLeast(m, s)
  {
    m :| m in s;
    if !IsLeast(m, s) {
      var x :| x in s && x < m;
      var below := set y | y in s && y < m;
      assert m !in below && x in below;
      var least := HasLeast(below);
      forall y | y in s ensures least <= y { if y < m { assert y in below; } }
      m := least;
    }
  }

  ghost function Least(s: set<nat>): (m: nat)
    requires s != {}
    ensures IsLeast(m, s)
  {
    SomeLeast(s);
    var m :| IsLeast(m, s);
    m
  }

  lemma SomeLeast(s: set<nat>)
    requires s != {}
    ensures exists m :: IsLeast(m, s)
  {
    var m := HasLeast(s);
  }

  ghost function InOrder(s: set<nat>): (ids: seq<nat>)
    ensures |ids| == |s| && Elements(ids) == s
  {
    if s == {} then []
    else
      var m := Least(s);
      var rest := InOrder(s - {m});
      ElementsCons(m, rest);
      [m] + rest
  }

  lemma IncreasingInsert(ids: seq<nat>, at: nat, x: nat)
    requires Increasing(ids) && at <= |ids|
    requires forall k :: 0 <= k < at ==> ids[k] < x
    requires at < |ids| ==> x < ids[at]
    ensures Increasing(ids[..at] + [x] + ids[at..])
  {
  }

  lemma ElementsCons(m: nat, rest: seq<nat>)
    ensures Elements([m] + rest) == {m} + Elements(rest)
  {
    var all := [m] + rest;
    forall x | x in {m} + Elements(rest) ensures x in Elements(all) {
      if x == m { assert all[0] == x; } else {
        var k :| 0 <= k < |rest| && rest[k] == x;
        assert all[k + 1] == x;
      }
    }
  }

  lemma ElementsSnoc(ids: seq<nat>, x: nat)
    ensures Elements(ids + [x]) == Elements(ids) + {x}
  {
    var all := ids + [x];
    forall y | y in Elements(ids) + {x} ensures y in Elements(all) {
      if y in Elements(ids) {
        var k :| 0 <= k < |ids| && ids[k] == y;
        assert all[k] == y;
      } else {
        assert all[|ids|] == y;
      }
    }
  }

  lemma {:induction false} InOrderIncreasing(s: set<nat>)
    ensures Increasing(InOrder(s))
  {
    if s != {} {
      var m := Least(s);
      var rest := InOrder(s - {m});
      InOrderIncreasing(s - {m});
      forall k | 0 <= k < |rest| ensures m < rest[k] {
        assert rest[k] in Elements(rest);
      }
    }
  }

  /** Only one increasing sequence has given elements. */
  lemma {:induction false} IncreasingIsInOrder(ids: seq<nat>)
    requires Increasing(ids)
    ensures ids == InOrder(Elements(ids))
  {
    if ids != [] {
      var m, rest := ids[0], ids[1..];
      assert ids == [m] + rest;
      ElementsCons(m, rest);
      assert ids[0] in Elements(ids);
      forall x | x in Elements(rest) ensures m < x {
        var k :| 0 <= k < |rest| && rest[k] == x;
        assert ids[k + 1] == x;
      }
      assert Least(Elements(ids)) == m;
      assert Elements(ids) - {m} == Elements(rest);
      IncreasingIsInOrder(rest);
    }
  }

  /** Listing a set by taking its least element again and again. */
  lemma TakeLeast(rows: seq<nat>, left: set<nat>, ids: set<nat>)
    requires rows + InOrder(left) == InOrder(ids)
    ensures rows == InOrder(ids)[..|rows|] && |rows| + |left| == |ids|
    ensures left != {} ==> rows + [Least(left)] + InOrder(left - {Least(left)}) == InOrder(ids)
  {
    assert (rows + InOrder(left))[..|rows|] == rows;
    if left != {} {
      var m := Least(left);
      assert rows + ([m] + InOrder(left - {m})) == rows + [m] + InOrder(left - {m});
    }
  }

  lemma {:induction false} IncreasingSize(ids: seq<nat>)
    requires Increasing(ids)
    ensures |Elements(ids)| == |ids|
  {
    IncreasingIsInOrder(ids);
  }

  lemma PrefixBelow(ids: seq<nat>, k: nat)
    requires Increasing(ids) && k <= |ids|
    ensures Elements(ids[..k]) <= Elements(ids)
    ensures forall x, y :: x in Elements(ids[..k]) && y in Elements(ids) && y !in Elements(ids[..k]) ==> x < y
  {
  }

  lemma PrefixIsLowest(s: set<nat>, k: nat)
    requires k <= |s|
    ensures var low := Elements(InOrder(s)[..k]);
            && low <= s && |low| == k
            && (forall x, y :: x in low && y in s && y !in low ==> x < y)
  {
    InOrderIncreasing(s);
    hide InOrder, Elements;
    PrefixBelow(InOrder(s), k);
    IncreasingSize(InOrder(s)[..k]);
  }

  /** The `k` least elements. */
  ghost function Lowest(s: set<nat>, k: nat): (low: set<nat>)
    requires k <= |s|
    ensures low <= s && |low| == k
    ensures forall x, y :: x in low && y in s && y !in low ==> x < y
  {
    PrefixIsLowest(s, k);
    Elements(InOrder(s)[..k])
  }

  /** Any `k` elements that lie below all the others are the `k` lowest. */
  lemma LowestUnique(s: set<nat>, low: set<nat>)
    requires low <= s
    requires forall x, y :: x in low && y in s && y !in low ==> x < y
    ensures |low| <= |s| && low == Lowest(s, |low|)
  {
    SubsetCount(low, s);
    var other := Lowest(s, |low|);
    if low <= other {
      SubsetCount(low, other);
    } else if other <= low {
      SubsetCount(other, low);
    }
  }
}

/** Which orders a sweep takes. */
module Sweep {
  import opened Words
  import opened Ascending
  import opened Tables
  import opened Orders

  function OverdueIn(orders: map<nat, Order>, now: int): set<nat> {
    set o | o in orders && Overdue(orders[o], now)
  }

  /** `ORDER BY expires_at, id`. */
  predicate Before(orders: map<nat, Order>, a: nat, b: nat)
    requires a in orders && b in orders && orders[a].expiresAt.Some? && orders[b].expiresAt.Some?
  {
    var x, y := orders[a].expiresAt.value, orders[b].expiresAt.value;
    x < y || (x == y && a < b)
  }

  /** The orders of `taken` have expired, all others are as they were, and nothing that is left was
      due before anything that was taken. */
  ghost predicate Swept(before: map<nat, Order>, after: map<nat, Order>, taken: set<nat>, now: int) {
    && taken <= OverdueIn(before, now)
    && after.Keys == before.Keys
    && (forall o :: o in before ==> after[o] == if o in taken then before[o].(status := Expired) else before[o])
    && (forall a, b :: a in taken && b in OverdueIn(before, now) && b !in taken ==> Before(before, a, b))
  }

  lemma SweptLeaves(before: map<nat, Order>, after: map<nat, Order>, taken: set<nat>, now: int)
    requires Swept(before, after, taken, now)
    ensures OverdueIn(after, now) == OverdueIn(before, now) - taken
    ensures |OverdueIn(after, now)| == |OverdueIn(before, now)| - |taken|
  {
  }

  // ---- one batch, with a clock reading for every order ---------------------------------------

  /** The rows of the query: the earliest overdue orders in order, at most `limit` of them. */
  ghost predicate DueBatch(orders: map<nat, Order>, ids: seq<nat>, limit: nat, now: int) {
    && (forall k :: 0 <= k < |ids| ==> ids[k] in OverdueIn(orders, now))
    && (forall j, k :: 0 <= j < k < |ids| ==> Before(orders, ids[j], ids[k]))
    && (forall k, b :: 0 <= k < |ids| && b in OverdueIn(orders, now) && b !in ids ==> Before(orders, ids[k], b))
    && |ids| == (if |OverdueIn(orders, now)| <= limit then |OverdueIn(orders, now)| else limit)
  }

  /** Just the orders of `taken` have expired. */
  ghost predicate ExpiredIn(before: map<nat, Order>, after: map<nat, Order>, taken: set<nat>) {
    && taken <= before.Keys && after.Keys == before.Keys
    && (forall o :: o in before ==> after[o] == if o in taken then before[o].(status := Expired) else before[o])
  }

  function PendingIn(orders: map<nat, Order>): set<nat> {
    set o | o in orders && orders[o].status == Pending
  }

  ghost predicate Known(orders: map<nat, Order>, ids: seq<nat>) {
    forall k :: 0 <= k < |ids| ==> ids[k] in orders
  }

  /** The first `n` of the batch that are still overdue when their own transaction reads the clock. */
  ghost function Passed(orders: map<nat, Order>, ids: seq<nat>, clock: nat -> int, n: nat): (taken: set<nat>)
    requires n <= |ids| && Known(orders, ids)
    ensures forall o :: o in taken ==> o in ids[..n] && o in orders && orders[o].status == Pending
  {
    if n == 0 then {}
    else Passed(orders, ids, clock, n - 1) + (if Overdue(orders[ids[n - 1]], clock(n - 1)) then {ids[n - 1]} else {})
  }

  /** One more order of the batch dealt with. */
  lemma OneMorePass(before: map<nat, Order>, mid: map<nat, Order>, after: map<nat, Order>, ids: seq<nat>, clock: nat -> int,
                    n: nat, limit: nat, now: int)
    requires n < |ids| && Known(before, ids) && DueBatch(before, ids, limit, now)
    requires ExpiredIn(before, mid, Passed(before, ids, clock, n)) && ids[n] in mid
    requires after == if Overdue(mid[ids[n]], clock(n)) then mid[ids[n] := mid[ids[n]].(status := Expired)] else mid
    ensures ExpiredIn(before, after, Passed(before, ids, clock, n + 1))
    ensures |Passed(before, ids, clock, n + 1)|
            == |Passed(before, ids, clock, n)| + (if Overdue(mid[ids[n]], clock(n)) then 1 else 0)
  {
    hide DueBatch, ExpiredIn, Overdue, Passed;
    NotRepeated(before, ids, limit, now, n);
    var taken := Passed(before, ids, clock, n);
    PassedStep(before, ids, clock, n);
    ExpiredStep(before, mid, taken, ids[n]);
  }

  lemma PassedStep(orders: map<nat, Order>, ids: seq<nat>, clock: nat -> int, n: nat)
    requires n < |ids| && Known(orders, ids)
    ensures Passed(orders, ids, clock, n + 1)
            == Passed(orders, ids, clock, n) + (if Overdue(orders[ids[n]], clock(n)) then {ids[n]} else {})
  {
  }

  lemma ExpiredStep(before: map<nat, Order>, mid: map<nat, Order>, taken: set<nat>, o: nat)
    requires ExpiredIn(before, mid, taken) && o in before && o !in taken
    ensures o in mid && mid[o] == before[o]
    ensures ExpiredIn(before, mid[o := mid[o].(status := Expired)], taken + {o})
    ensures taken + {} == taken
  {
  }

  lemma NotRepeated(orders: map<nat, Order>, ids: seq<nat>, limit: nat, now: int, n: nat)
    requires n < |ids| && DueBatch(orders, ids, limit, now)
    ensures ids[n] !in ids[..n]
  {
    assert forall k :: 0 <= k < n ==> ids[k] != ids[n];
  }

  /** If the clock does not go back behind the query, the whole batch passes. */
  lemma {:induction false} AllPass(orders: map<nat, Order>, ids: seq<nat>, clock: nat -> int, n: nat, limit: nat, now: int)
    requires n <= |ids| && Known(orders, ids) && DueBatch(orders, ids, limit, now) && forall k :: clock(k) >= now
    ensures Passed(orders, ids, clock, n) == Elements(ids[..n])
  {
    if n == 0 {
      assert Elements(ids[..0]) == {};
    } else {
      AllPass(orders, ids, clock, n - 1, limit, now);
      assert ids[..n] == ids[..n - 1] + [ids[n - 1]];
      ElementsSnoc(ids[..n - 1], ids[n - 1]);
      assert ids[n - 1] in OverdueIn(orders, now);
    }
  }

  lemma {:induction false} BatchCount(orders: map<nat, Order>, ids: seq<nat>)
    requires forall k :: 0 <= k < |ids| ==> ids[k] in orders && orders[ids[k]].expiresAt.Some?
    requires forall j, k :: 0 <= j < k < |ids| ==> Before(orders, ids[j], ids[k])
    ensures |Elements(ids)| == |ids|
  {
    if ids == [] {
      assert Elements(ids) == {};
    } else {
      var n := |ids| - 1;
      BatchCount(orders, ids[..n]);
      assert ids == ids[..n] + [ids[n]];
      ElementsSnoc(ids[..n], ids[n]);
      assert forall k :: 0 <= k < n ==> ids[k] != ids[n];
    }
  }

  /** And then the batch is a sweep of the earliest orders. */
  lemma BatchIsSweep(before: map<nat, Order>, after: map<nat, Order>, ids: seq<nat>, limit: nat, now: int)
    requires DueBatch(before, ids, limit, now) && ExpiredIn(before, after, Elements(ids))
    ensures Swept(before, after, Elements(ids), now) && |Elements(ids)| == |ids|
  {
    BatchCount(before, ids);
  }

  // ---- sweep after sweep ---------------------------------------------------------------------

  lemma ExpiredTrans(a: map<nat, Order>, b: map<nat, Order>, c: map<nat, Order>, s: set<nat>, t: set<nat>)
    requires ExpiredIn(a, b, s) && ExpiredIn(b, c, t)
    ensures ExpiredIn(a, c, s + t)
  {
  }

  lemma FewerPending(before: map<nat, Order>, after: map<nat, Order>, taken: set<nat>)
    requires ExpiredIn(before, after, taken) && taken <= PendingIn(before)
    ensures |PendingIn(after)| == |PendingIn(before)| - |taken|
  {
    assert PendingIn(before) == PendingIn(after) + taken;
  }

  /** What is overdue is what was overdue and has not been taken. */
  lemma StillOverdue(before: map<nat, Order>, after: map<nat, Order>, taken: set<nat>, now: int)
    requires ExpiredIn(before, after, taken)
    ensures OverdueIn(after, now) == OverdueIn(before, now) - taken
  {
  }
}

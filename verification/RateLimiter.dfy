/** The fixed-window rate limiter, and what it lets through over any stretch of time. */
module RateLimiter {
  import opened Words

  /** A client address, which is only ever compared. */
  type Key = nat

  datatype Bucket = Bucket(started: int, count: nat)

  /** The instant that stands for no time at all. */
  const NO_TIME := 0

  datatype Config = Config(limit: nat, window: nat)

  predicate Usable(cfg: Config) {
    cfg.limit >= 1 && cfg.window >= 1
  }

  // ---- one call ------------------------------------------------------------------------------

  function Current(cfg: Config, b: Option<Bucket>, now: int): Bucket {
    if b.None? || b.value.started == NO_TIME || now - b.value.started >= cfg.window then Bucket(now, 0) else b.value
  }

  function Allow(cfg: Config, b: Option<Bucket>, now: int): (Option<Bucket>, bool) {
    var c := Current(cfg, b, now);
    if c.count >= cfg.limit then (b, false) else (Some(c.(count := c.count + 1)), true)
  }

  class FixedWindowLimiter {
    const cfg: Config
    var buckets: map<Key, Bucket>

    constructor (limit: int, window: int)
      ensures cfg == Config(if limit < 1 then 1 else limit, if window <= 0 then 1_000 else window)
      ensures Usable(cfg) && buckets == map[]
    {
      cfg := Config(if limit < 1 then 1 else limit, if window <= 0 then 1_000 else window);
      buckets := map[];
    }

    /** The key's own bucket decides and changes; nobody else's does. `now` was read before the lock was taken. */
    method AllowKey(key: Key, now: int) returns (ok: bool)
      modifies this
      ensures (Lookup(buckets, key), ok) == Allow(cfg, Lookup(old(buckets), key), now)
      ensures forall k :: k != key ==> Lookup(buckets, k) == Lookup(old(buckets), k)
    {
      var b := if key in buckets then buckets[key] else Bucket(NO_TIME, 0);
      if b.started == NO_TIME || now - b.started >= cfg.window {
        b := Bucket(now, 0);
      }
      if b.count >= cfg.limit {
        return false;
      }
      buckets := buckets[key := Bucket(b.started, b.count + 1)];
      ok := true;
    }
  }

  // ---- the calls of one key ------------------------------------------------------------------

  /** The key's bucket after some calls, and the moments of the calls that were let through. */
  function After(cfg: Config, calls: seq<int>): (Option<Bucket>, seq<int>) {
    if calls == [] then (None, [])
    else
      var n := |calls| - 1;
      var (b, admitted) := After(cfg, calls[..n]);
      var (next, ok) := Allow(cfg, b, calls[n]);
      (next, if ok then admitted + [calls[n]] else admitted)
  }

  // ---- readings ------------------------------------------------------------------------------

  /** Readings in the order in which the lock is taken, none of them more than `lag` behind an earlier one. */
  ghost predicate LagsAtMost(calls: seq<int>, lag: nat) {
    forall i, j :: 0 <= i < j < |calls| ==> calls[i] <= calls[j] + lag
  }

  ghost predicate NeverZero(calls: seq<int>) {
    forall i :: 0 <= i < |calls| ==> calls[i] != NO_TIME
  }

  /** A call reads the clock first and gets the lock later. */
  datatype Arrival = Arrival(read: int, entered: int)

  function Readings(arrivals: seq<Arrival>): seq<int> {
    seq(|arrivals|, i requires 0 <= i < |arrivals| => arrivals[i].read)
  }

  /**
   * On a clock that never goes back, readings lag no more than calls wait for the lock. So they are in
   * order if the reading is taken under the lock, and not in general, since it is taken before.
   */
  lemma LagIsWaiting(arrivals: seq<Arrival>, wait: nat)
    requires forall i, j :: 0 <= i < j < |arrivals| ==> arrivals[i].entered <= arrivals[j].entered
    requires forall i :: 0 <= i < |arrivals| ==> 0 <= arrivals[i].entered - arrivals[i].read <= wait
    ensures LagsAtMost(Readings(arrivals), wait)
  {
    forall i, j | 0 <= i < j < |arrivals| ensures arrivals[i].read <= arrivals[j].read + wait {
      assert arrivals[i].read <= arrivals[i].entered <= arrivals[j].entered;
    }
  }

  // ---- counting over an interval -------------------------------------------------------------

  /** How many moments fall in `[from, to)`. */
  function Within(a: seq<int>, from: int, to: int): nat {
    if a == [] then 0
    else Within(a[..|a| - 1], from, to) + (if from <= a[|a| - 1] < to then 1 else 0)
  }

  lemma {:induction false} WithinConcat(a: seq<int>, b: seq<int>, from: int, to: int)
    ensures Within(a + b, from, to) == Within(a, from, to) + Within(b, from, to)
  {
    if b == [] {
      assert a + b == a;
    } else {
      var n := |b| - 1;
      assert (a + b)[..|a + b| - 1] == a + b[..n];
      WithinConcat(a, b[..n], from, to);
    }
  }

  lemma {:induction false} NoneWithin(a: seq<int>, from: int, to: int)
    requires forall i :: 0 <= i < |a| ==> !(from <= a[i] < to)
    ensures Within(a, from, to) == 0
  {
    if a != [] { NoneWithin(a[..|a| - 1], from, to); }
  }

  lemma {:induction false} AllWithin(a: seq<int>, from: int, to: int)
    requires forall i :: 0 <= i < |a| ==> from <= a[i] < to
    ensures Within(a, from, to) == |a|
  {
    if a != [] { AllWithin(a[..|a| - 1], from, to); }
  }

  lemma {:induction false} AtMostAll(a: seq<int>, from: int, to: int)
    ensures Within(a, from, to) <= |a|
    ensures a != [] && !(from <= a[0] < to) ==> Within(a, from, to) <= |a| - 1
  {
    if a != [] { AtMostAll(a[..|a| - 1], from, to); }
  }

  // ---- the calls let through, bucket by bucket -----------------------------------------------

  /** The calls one bucket let through: its opening call, then calls within a window and a lag of it. */
  ghost predicate GroupOk(cfg: Config, lag: nat, g: seq<int>) {
    && 1 <= |g| <= cfg.limit && g[0] != NO_TIME
    && forall i :: 0 <= i < |g| ==> g[0] <= g[i] + lag && g[i] < g[0] + cfg.window
  }

  /** Each bucket opens at least a window after the one before. */
  ghost predicate GroupsOk(cfg: Config, lag: nat, gs: seq<seq<int>>) {
    && (forall k :: 0 <= k < |gs| ==> GroupOk(cfg, lag, gs[k]))
    && (forall j, k :: 0 <= j && k == j + 1 && k < |gs| ==> gs[j][0] + cfg.window <= gs[k][0])
  }

  function Flat(gs: seq<seq<int>>): seq<int> {
    if gs == [] then [] else Flat(gs[..|gs| - 1]) + gs[|gs| - 1]
  }

  lemma FlatSnoc(gs: seq<seq<int>>, g: seq<int>)
    ensures Flat(gs + [g]) == Flat(gs) + g
  {
    assert (gs + [g])[..|gs|] == gs;
  }

  /** The bucket there is now is the last one. */
  ghost predicate IsLast(b: Option<Bucket>, gs: seq<seq<int>>) {
    if gs == [] then b == None
    else |gs[|gs| - 1]| > 0 && b == Some(Bucket(gs[|gs| - 1][0], |gs[|gs| - 1]|))
  }

  ghost predicate ReadsLater(lag: nat, gs: seq<seq<int>>, t: int) {
    gs != [] && gs[|gs| - 1] != [] ==> gs[|gs| - 1][0] <= t + lag
  }

  lemma Admit(cfg: Config, lag: nat, b: Option<Bucket>, gs: seq<seq<int>>, t: int) returns (next: seq<seq<int>>)
    requires Usable(cfg) && GroupsOk(cfg, lag, gs) && IsLast(b, gs)
    requires t != NO_TIME && ReadsLater(lag, gs, t)
    ensures var (c, ok) := Allow(cfg, b, t);
      && GroupsOk(cfg, lag, next) && IsLast(c, next) && Flat(next) == (if ok then Flat(gs) + [t] else Flat(gs))
      && (next != [] ==> next[|next| - 1][0] == t || (gs != [] && next[|next| - 1][0] == gs[|gs| - 1][0]))
  {
    var (c, ok) := Allow(cfg, b, t);
    next := gs;
    if ok && Current(cfg, b, t).count == 0 {
      next := gs + [[t]];
      FlatSnoc(gs, [t]);
    } else if ok {
      var front, last := gs[..|gs| - 1], gs[|gs| - 1];
      next := front + [last + [t]];
      FlatSnoc(front, last + [t]);
      assert Flat(front) + (last + [t]) == Flat(gs) + [t];
    }
  }

  /** Whatever the readings, the calls let through fall into such groups. */
  lemma {:induction false} Grouped(cfg: Config, calls: seq<int>, lag: nat) returns (gs: seq<seq<int>>)
    requires Usable(cfg) && NeverZero(calls) && LagsAtMost(calls, lag)
    ensures GroupsOk(cfg, lag, gs) && IsLast(After(cfg, calls).0, gs) && Flat(gs) == After(cfg, calls).1
    ensures gs != [] ==> gs[|gs| - 1][0] in calls
  {
    gs := [];
    if calls != [] {
      hide Flat, Allow;
      var n := |calls| - 1;
      var before := Grouped(cfg, calls[..n], lag);
      assert ReadsLater(lag, before, calls[n]) by {
        if before != [] {
          var i :| 0 <= i < n && calls[i] == before[|before| - 1][0];
        }
      }
      gs := Admit(cfg, lag, After(cfg, calls[..n]).0, before, calls[n]);
    }
  }

  // ---- at most so many in a window -----------------------------------------------------------

  ghost predicate OpensBelow(gs: seq<seq<int>>, bound: int) {
    gs != [] && gs[|gs| - 1] != [] ==> gs[|gs| - 1][0] < bound
  }

  lemma SplitLast(cfg: Config, lag: nat, gs: seq<seq<int>>, from: int)
    requires gs != [] && GroupsOk(cfg, lag, gs)
    ensures var front, last := gs[..|gs| - 1], gs[|gs| - 1];
      && Within(Flat(gs), from, from + cfg.window)
         == Within(Flat(front), from, from + cfg.window) + Within(last, from, from + cfg.window)
      && GroupsOk(cfg, lag, front) && OpensBelow(front, last[0] - cfg.window + 1)
      && Within(last, from, from + cfg.window) <= (if from <= last[0] < from + cfg.window then cfg.limit else cfg.limit - 1)
      && (last[0] <= from - cfg.window || last[0] >= from + cfg.window + lag ==> Within(last, from, from + cfg.window) == 0)
  {
    var front, last := gs[..|gs| - 1], gs[|gs| - 1];
    WithinConcat(Flat(front), last, from, from + cfg.window);
    AtMostAll(last, from, from + cfg.window);
    if last[0] <= from - cfg.window || last[0] >= from + cfg.window + lag {
      NoneWithin(last, from, from + cfg.window);
    }
  }

  /** Buckets that opened a window before the interval or earlier have nothing in it. */
  lemma {:induction false} LongBefore(cfg: Config, lag: nat, gs: seq<seq<int>>, from: int)
    requires Usable(cfg) && GroupsOk(cfg, lag, gs) && OpensBelow(gs, from - cfg.window + 1)
    ensures Within(Flat(gs), from, from + cfg.window) == 0
  {
    if gs != [] {
      SplitLast(cfg, lag, gs, from);
      LongBefore(cfg, lag, gs[..|gs| - 1], from);
    }
  }

  /** Of those that opened before it only the last has, and not its opening call. */
  lemma OpenedBefore(cfg: Config, lag: nat, gs: seq<seq<int>>, from: int)
    requires Usable(cfg) && GroupsOk(cfg, lag, gs) && OpensBelow(gs, from)
    ensures Within(Flat(gs), from, from + cfg.window) <= cfg.limit - 1
  {
    if gs != [] {
      SplitLast(cfg, lag, gs, from);
      LongBefore(cfg, lag, gs[..|gs| - 1], from);
    }
  }

  /** One that opens with the interval or before it lets its limit through there, and all before it nothing more. */
  lemma OpenedBy(cfg: Config, lag: nat, gs: seq<seq<int>>, from: int)
    requires Usable(cfg) && GroupsOk(cfg, lag, gs) && OpensBelow(gs, from + 1)
    ensures Within(Flat(gs), from, from + cfg.window) <= cfg.limit
  {
    if OpensBelow(gs, from) {
      OpenedBefore(cfg, lag, gs, from);
    } else {
      SplitLast(cfg, lag, gs, from);
      LongBefore(cfg, lag, gs[..|gs| - 1], from);
    }
  }

  /** At most one opens inside it, or two at its ends. */
  lemma OpenedInside(cfg: Config, lag: nat, gs: seq<seq<int>>, from: int)
    requires Usable(cfg) && GroupsOk(cfg, lag, gs) && OpensBelow(gs, from + cfg.window + 1)
    ensures Within(Flat(gs), from, from + cfg.window) <= 2 * cfg.limit - 1
  {
    hide Within, Flat, GroupOk;
    if OpensBelow(gs, from) {
      OpenedBefore(cfg, lag, gs, from);
    } else if OpensBelow(gs, from + cfg.window) {
      SplitLast(cfg, lag, gs, from);
      OpenedBefore(cfg, lag, gs[..|gs| - 1], from);
    } else {
      SplitLast(cfg, lag, gs, from);
      OpenedBy(cfg, lag, gs[..|gs| - 1], from);
    }
  }

  /** For each further window that readings may lag, one more bucket has calls in it, but not its opening call. */
  lemma {:induction false} OpenedAfter(cfg: Config, lag: nat, gs: seq<seq<int>>, from: int, m: nat)
    requires Usable(cfg) && GroupsOk(cfg, lag, gs) && OpensBelow(gs, from + cfg.window + m * cfg.window + 1)
    ensures Within(Flat(gs), from, from + cfg.window) <= 2 * cfg.limit - 1 + m * (cfg.limit - 1)
    decreases m
  {
    hide Within, Flat, GroupOk;
    if m == 0 || OpensBelow(gs, from + cfg.window + 1) {
      OpenedInside(cfg, lag, gs, from);
    } else {
      SplitLast(cfg, lag, gs, from);
      assert m * cfg.window == (m - 1) * cfg.window + cfg.window;
      OpenedAfter(cfg, lag, gs[..|gs| - 1], from, m - 1);
      assert m * (cfg.limit - 1) == (m - 1) * (cfg.limit - 1) + cfg.limit - 1;
    }
  }

  lemma {:induction false} GroupsBound(cfg: Config, lag: nat, gs: seq<seq<int>>, from: int, m: nat)
    requires Usable(cfg) && GroupsOk(cfg, lag, gs) && lag <= m * cfg.window + 1
    ensures Within(Flat(gs), from, from + cfg.window) <= 2 * cfg.limit - 1 + m * (cfg.limit - 1)
  {
    if gs != [] && gs[|gs| - 1][0] > from + cfg.window + m * cfg.window {
      SplitLast(cfg, lag, gs, from);
      GroupsBound(cfg, lag, gs[..|gs| - 1], from, m);
    } else {
      OpenedAfter(cfg, lag, gs, from, m);
    }
  }

  /**
   * If no reading lags more than `m` windows and a tick behind one that got the lock before it, no half-open
   * interval of one window has more than `2 * limit - 1 + m * (limit - 1)` readings of calls let through.
   */
  lemma WindowBound(cfg: Config, calls: seq<int>, m: nat, from: int)
    requires Usable(cfg) && NeverZero(calls) && LagsAtMost(calls, m * cfg.window + 1)
    ensures Within(After(cfg, calls).1, from, from + cfg.window) <= 2 * cfg.limit - 1 + m * (cfg.limit - 1)
  {
    var gs := Grouped(cfg, calls, m * cfg.window + 1);
    GroupsBound(cfg, m * cfg.window + 1, gs, from, m);
  }

  /** With readings in the order of the lock that is `2 * limit - 1`. */
  lemma InOrderBound(cfg: Config, calls: seq<int>, from: int)
    requires Usable(cfg) && NeverZero(calls) && LagsAtMost(calls, 0)
    ensures Within(After(cfg, calls).1, from, from + cfg.window) <= 2 * cfg.limit - 1
  {
    WindowBound(cfg, calls, 0, from);
  }

  /** With readings that lag at most a window, `3 * limit - 2`. */
  lemma WithinAWindowBound(cfg: Config, calls: seq<int>, from: int)
    requires Usable(cfg) && NeverZero(calls) && LagsAtMost(calls, cfg.window)
    ensures Within(After(cfg, calls).1, from, from + cfg.window) <= 3 * cfg.limit - 2
  {
    WindowBound(cfg, calls, 1, from);
  }

  // ---- the bound is met ----------------------------------------------------------------------

  function Repeat(t: int, k: nat): seq<int> {
    if k == 0 then [] else Repeat(t, k - 1) + [t]
  }

  lemma {:induction false} Repeats(t: int, k: nat)
    ensures |Repeat(t, k)| == k && forall i :: 0 <= i < k ==> Repeat(t, k)[i] == t
  {
    if k > 0 { Repeats(t, k - 1); }
  }

  lemma OneMore(cfg: Config, calls: seq<int>, t: int)
    ensures var (b, a) := After(cfg, calls);
      var (next, ok) := Allow(cfg, b, t);
      After(cfg, calls + [t]) == (next, if ok then a + [t] else a)
  {
  }

  /** While there is room in a bucket its calls are let through. */
  lemma {:induction false} Fill(cfg: Config, calls: seq<int>, t: int, k: nat)
    requires Usable(cfg) && After(cfg, calls).0.Some?
    requires var b := After(cfg, calls).0.value;
      b.started != NO_TIME && t - b.started < cfg.window && b.count + k <= cfg.limit
    ensures var (b, a) := After(cfg, calls);
      After(cfg, calls + Repeat(t, k)) == (Some(Bucket(b.value.started, b.value.count + k)), a + Repeat(t, k))
  {
    hide After;
    var (b, a) := After(cfg, calls);
    if k == 0 {
      assert calls + [] == calls && a + [] == a;
    } else {
      Fill(cfg, calls, t, k - 1);
      OneMore(cfg, calls + Repeat(t, k - 1), t);
      assert calls + Repeat(t, k) == calls + Repeat(t, k - 1) + [t];
      assert a + Repeat(t, k) == a + Repeat(t, k - 1) + [t];
    }
  }

  /** A bucket opened at `s` and filled up with calls that read `t`. */
  function Full(cfg: Config, s: int, t: int): seq<int>
    requires Usable(cfg)
  {
    [s] + Repeat(t, cfg.limit - 1)
  }

  lemma FullGoesThrough(cfg: Config, calls: seq<int>, s: int, t: int)
    requires Usable(cfg) && After(cfg, calls).1 == calls && s != NO_TIME && t - s < cfg.window
    requires var b := After(cfg, calls).0; b.None? || s - b.value.started >= cfg.window
    ensures After(cfg, calls + Full(cfg, s, t)) == (Some(Bucket(s, cfg.limit)), calls + Full(cfg, s, t))
  {
    hide After;
    OneMore(cfg, calls, s);
    Fill(cfg, calls + [s], t, cfg.limit - 1);
    assert calls + [s] + Repeat(t, cfg.limit - 1) == calls + Full(cfg, s, t);
  }

  lemma FullWithin(cfg: Config, s: int, t: int, from: int, to: int)
    requires Usable(cfg) && from <= t < to
    ensures Within(Full(cfg, s, t), from, to) == cfg.limit - 1 + (if from <= s < to then 1 else 0)
  {
    Repeats(t, cfg.limit - 1);
    AllWithin(Repeat(t, cfg.limit - 1), from, to);
    WithinConcat([s], Repeat(t, cfg.limit - 1), from, to);
    assert [s][..0] == [];
  }

  /** A second bucket is filled at once, or, if a window is a single tick, one tick late. */
  function SecondFill(cfg: Config, t: int): int {
    if cfg.window == 1 then t else t + cfg.window
  }

  /**
   * A bucket filled up just before it ends, one filled at once, and then a bucket for each window that
   * readings may lag, opened on time and filled up with calls whose readings are from the second.
   */
  function Burst(cfg: Config, t: int, m: nat): seq<int>
    requires Usable(cfg)
  {
    var w := cfg.window;
    if m == 0 then Full(cfg, t, t + w - 1) + Full(cfg, t + w, SecondFill(cfg, t))
    else Burst(cfg, t, m - 1) + Full(cfg, t + w + m * w, t + 2 * w - 2)
  }

  lemma {:induction false} BurstGoesThrough(cfg: Config, t: int, m: nat)
    requires Usable(cfg) && t > 0
    ensures After(cfg, Burst(cfg, t, m))
            == (Some(Bucket(t + cfg.window + m * cfg.window, cfg.limit)), Burst(cfg, t, m))
  {
    hide After, Full;
    var w := cfg.window;
    if m == 0 {
      NoCalls(cfg);
      FullGoesThrough(cfg, [], t, t + w - 1);
      assert [] + Full(cfg, t, t + w - 1) == Full(cfg, t, t + w - 1);
      FullGoesThrough(cfg, Full(cfg, t, t + w - 1), t + w, SecondFill(cfg, t));
    } else {
      BurstGoesThrough(cfg, t, m - 1);
      assert m * w == (m - 1) * w + w && (m - 1) * w >= 0;
      FullGoesThrough(cfg, Burst(cfg, t, m - 1), t + w + m * w, t + 2 * w - 2);
    }
  }

  lemma NoCalls(cfg: Config)
    ensures After(cfg, []) == (None, [])
  {
  }

  lemma {:induction false} BurstCount(cfg: Config, t: int, m: nat)
    requires Usable(cfg)
    ensures var from := t + cfg.window - 1;
      Within(Burst(cfg, t, m), from, from + cfg.window) == 2 * cfg.limit - 1 + m * (cfg.limit - 1)
  {
    hide Within, Full;
    var w, from := cfg.window, t + cfg.window - 1;
    if m == 0 {
      FullWithin(cfg, t, t + w - 1, from, from + w);
      FullWithin(cfg, t + w, SecondFill(cfg, t), from, from + w);
      WithinConcat(Full(cfg, t, t + w - 1), Full(cfg, t + w, SecondFill(cfg, t)), from, from + w);
    } else {
      BurstCount(cfg, t, m - 1);
      assert m * w == (m - 1) * w + w && (m - 1) * w >= 0;
      assert m * (cfg.limit - 1) == (m - 1) * (cfg.limit - 1) + cfg.limit - 1;
      FullWithin(cfg, t + w + m * w, t + 2 * w - 2, from, from + w);
      WithinConcat(Burst(cfg, t, m - 1), Full(cfg, t + w + m * w, t + 2 * w - 2), from, from + w);
    }
  }

  lemma FullReads(cfg: Config, s: int, t: int)
    requires Usable(cfg)
    ensures |Full(cfg, s, t)| > 0 && Full(cfg, s, t)[0] == s
    ensures forall i :: 0 < i < |Full(cfg, s, t)| ==> Full(cfg, s, t)[i] == t
  {
    Repeats(t, cfg.limit - 1);
  }

  /** How far the readings of a burst lag: two ticks, and a window for each bucket after the third. */
  function LagOf(cfg: Config, m: nat): nat {
    if m > 0 then (m - 1) * cfg.window + 2 else if cfg.window == 1 then 1 else 0
  }

  lemma {:induction false} BurstLag(cfg: Config, t: int, m: nat)
    requires Usable(cfg) && t > 0
    ensures LagsAtMost(Burst(cfg, t, m), LagOf(cfg, m)) && NeverZero(Burst(cfg, t, m))
    ensures forall i :: 0 <= i < |Burst(cfg, t, m)| ==> 0 < Burst(cfg, t, m)[i] <= t + cfg.window + m * cfg.window
  {
    hide Full;
    var w := cfg.window;
    if m == 0 {
      FullReads(cfg, t, t + w - 1);
      FullReads(cfg, t + w, SecondFill(cfg, t));
    } else {
      BurstLag(cfg, t, m - 1);
      assert m * w == (m - 1) * w + w && (m - 1) * w >= 0;
      assert m > 1 ==> (m - 1) * w == (m - 2) * w + w;
      FullReads(cfg, t + w + m * w, t + 2 * w - 2);
    }
  }

  /**
   * The bound is met, for every limit, window and `m`, by calls whose readings lag no more than `LagOf` says, and
   * so, if a window is longer than one tick, no more than `m` windows. In particular there is no bound without one
   * on the lag.
   */
  lemma BoundIsMet(cfg: Config, t: int, m: nat)
    requires Usable(cfg) && t > 0
    ensures NeverZero(Burst(cfg, t, m)) && LagsAtMost(Burst(cfg, t, m), LagOf(cfg, m))
    ensures cfg.window >= 2 ==> LagsAtMost(Burst(cfg, t, m), m * cfg.window)
    ensures var from := t + cfg.window - 1;
      Within(After(cfg, Burst(cfg, t, m)).1, from, from + cfg.window) == 2 * cfg.limit - 1 + m * (cfg.limit - 1)
  {
    hide After, Within, Burst;
    BurstLag(cfg, t, m);
    BurstGoesThrough(cfg, t, m);
    BurstCount(cfg, t, m);
    assert m > 0 ==> m * cfg.window == (m - 1) * cfg.window + cfg.window;
  }

  // ---- exactly how many ----------------------------------------------------------------------

  /** Whatever the calls, with readings that lag so much, at most `most` are let through in any one window. */
  ghost predicate NeverOver(cfg: Config, lag: nat, most: nat) {
    forall calls: seq<int>, from: int :: Fine(cfg, lag, most, calls, from)
  }

  ghost predicate Fine(cfg: Config, lag: nat, most: nat, calls: seq<int>, from: int) {
    NeverZero(calls) && LagsAtMost(calls, lag) ==> Within(After(cfg, calls).1, from, from + cfg.window) <= most
  }

  /** How many buckets may open after an interval and still have calls in it. */
  function Stragglers(cfg: Config, lag: nat): (m: nat)
    requires Usable(cfg)
    ensures lag <= m * cfg.window + 1
    ensures m > 0 ==> LagOf(cfg, m) <= lag
  {
    if lag <= 1 then 0
    else
      var q := (lag - 2) / cfg.window;
      WholeWindows(lag - 2, cfg.window);
      q + 1
  }

  lemma WholeWindows(n: nat, w: nat)
    requires w > 0
    ensures n / w * w <= n < (n / w + 1) * w
    ensures (n / w + 1) * w == n / w * w + w
  {
  }

  function Most(cfg: Config, lag: nat): nat
    requires Usable(cfg)
  {
    if cfg.window == 1 && lag == 0 then cfg.limit
    else 2 * cfg.limit - 1 + Stragglers(cfg, lag) * (cfg.limit - 1)
  }

  /** If a window is a single tick and readings are in order, it lets one bucket's limit through. */
  lemma {:induction false} OneTick(cfg: Config, gs: seq<seq<int>>, from: int)
    requires Usable(cfg) && cfg.window == 1 && GroupsOk(cfg, 0, gs)
    ensures Within(Flat(gs), from, from + 1) <= cfg.limit
  {
    if OpensBelow(gs, from + 1) {
      OpenedBy(cfg, 0, gs, from);
    } else {
      SplitLast(cfg, 0, gs, from);
      OneTick(cfg, gs[..|gs| - 1], from);
    }
  }

  lemma AtMostMost(cfg: Config, lag: nat)
    requires Usable(cfg)
    ensures NeverOver(cfg, lag, Most(cfg, lag))
  {
    hide After, Within, GroupsOk, Flat;
    forall calls: seq<int>, from: int ensures Fine(cfg, lag, Most(cfg, lag), calls, from) {
      if NeverZero(calls) && LagsAtMost(calls, lag) {
        var gs := Grouped(cfg, calls, lag);
        if cfg.window == 1 && lag == 0 {
          OneTick(cfg, gs, from);
        } else {
          GroupsBound(cfg, lag, gs, from, Stragglers(cfg, lag));
        }
      }
    }
  }

  lemma MostIsMet(cfg: Config, lag: nat, most: nat)
    requires Usable(cfg) && most < Most(cfg, lag)
    ensures !NeverOver(cfg, lag, most)
  {
    hide After, Within, Burst, Full;
    if cfg.window == 1 && lag == 0 {
      NoCalls(cfg);
      FullReads(cfg, 1, 1);
      FullGoesThrough(cfg, [], 1, 1);
      assert [] + Full(cfg, 1, 1) == Full(cfg, 1, 1);
      FullWithin(cfg, 1, 1, 1, 2);
      assert !Fine(cfg, lag, most, Full(cfg, 1, 1), 1);
    } else {
      var m := Stragglers(cfg, lag);
      BoundIsMet(cfg, 1, m);
      assert !Fine(cfg, lag, most, Burst(cfg, 1, m), cfg.window);
    }
  }

  /** For every limit, window and lag: this many calls, and no fewer, is what a window is sure not to exceed. */
  lemma MostExactly(cfg: Config, lag: nat, most: nat)
    requires Usable(cfg)
    ensures NeverOver(cfg, lag, most) <==> Most(cfg, lag) <= most
  {
    hide After, Within;
    if Most(cfg, lag) <= most {
      AtMostMost(cfg, lag);
      forall calls: seq<int>, from: int ensures Fine(cfg, lag, most, calls, from) {
        assert Fine(cfg, lag, Most(cfg, lag), calls, from);
      }
    } else {
      MostIsMet(cfg, lag, most);
    }
  }

  /**
   * Twice the limit is never exceeded exactly when no reading can lag more than a tick, or the limit is one,
   * or it is two and no reading can lag more than a window and a tick.
   */
  lemma TwiceTheLimitExactly(cfg: Config, lag: nat)
    requires Usable(cfg)
    ensures NeverOver(cfg, lag, 2 * cfg.limit)
       <==> lag <= 1 || cfg.limit == 1 || (cfg.limit == 2 && lag <= cfg.window + 1)
  {
    hide NeverOver;
    MostExactly(cfg, lag, 2 * cfg.limit);
    var m := Stragglers(cfg, lag);
    if lag > 1 {
      WholeWindows(lag - 2, cfg.window);
      assert m == 1 <==> lag <= cfg.window + 1 by { OneWindow(lag - 2, cfg.window); }
      TwiceArithmetic(cfg.limit, m);
    }
  }

  lemma OneWindow(n: nat, w: nat)
    requires w > 0
    ensures n / w == 0 <==> n < w
  {
  }

  lemma TwiceArithmetic(limit: nat, m: nat)
    requires limit >= 1 && m >= 1
    ensures 2 * limit - 1 + m * (limit - 1) <= 2 * limit <==> limit == 1 || (limit == 2 && m == 1)
  {
    if limit > 2 { assert m * (limit - 1) >= limit - 1; }
  }

  /** Three a window of ten: nine calls, two of them two ticks late, of which seven fall in one window. */
  lemma OutOfOrderExceeds()
    ensures var cfg, calls := Config(3, 10), [1, 10, 10, 11, 11, 11, 21, 19, 19];
      && NeverZero(calls) && LagsAtMost(calls, cfg.window)
      && After(cfg, calls).1 == calls && Within(calls, 10, 20) == 7 > 2 * cfg.limit
  {
    var cfg, calls := Config(3, 10), [1, 10, 10, 11, 11, 11, 21, 19, 19];
    assert Repeat(10, 2) == [10, 10] && Repeat(11, 2) == [11, 11] && Repeat(19, 2) == [19, 19];
    assert Burst(cfg, 1, 0) == [1, 10, 10, 11, 11, 11];
    assert calls == Burst(cfg, 1, 1);
    BurstLag(cfg, 1, 1);
    BurstGoesThrough(cfg, 1, 1);
    BurstCount(cfg, 1, 1);
  }

  // ---- refusals ------------------------------------------------------------------------------

  /**
   * Nobody is turned away unless the whole limit was let through around that reading: in the window just
   * past, give or take what readings lag. With readings in the order of the lock it is that window exactly.
   */
  lemma RefusalIsEarned(cfg: Config, calls: seq<int>, t: int, lag: nat)
    requires Usable(cfg) && NeverZero(calls + [t]) && LagsAtMost(calls + [t], lag)
    requires !Allow(cfg, After(cfg, calls).0, t).1
    ensures Within(After(cfg, calls).1, t - cfg.window - lag + 1, t + lag + 1) >= cfg.limit
  {
    var all := calls + [t];
    assert forall i :: 0 <= i < |calls| ==> calls[i] == all[i] && all[i] <= all[|calls|] + lag;
    var gs := Grouped(cfg, calls, lag);
    ReadEarlier(cfg, calls);
    var front, last := gs[..|gs| - 1], gs[|gs| - 1];
    forall i | 0 <= i < |last| ensures t - cfg.window - lag < last[i] <= t + lag {
      assert (Flat(front) + last)[|Flat(front)| + i] == last[i];
      assert last[i] in After(cfg, calls).1;
    }
    AllWithin(last, t - cfg.window - lag + 1, t + lag + 1);
    WithinConcat(Flat(front), last, t - cfg.window - lag + 1, t + lag + 1);
  }

  /** What was let through was called. */
  lemma {:induction false} ReadEarlier(cfg: Config, calls: seq<int>)
    ensures forall x :: x in After(cfg, calls).1 ==> x in calls
  {
    if calls != [] { ReadEarlier(cfg, calls[..|calls| - 1]); }
  }

  /** A call whose reading is one tick behind can be refused though nothing was let through up to that reading. */
  lemma StragglerRefused(cfg: Config, t: int)
    requires Usable(cfg) && t > 0
    ensures var calls := Full(cfg, t + 1, t + 1);
      && LagsAtMost(calls + [t], 1) && After(cfg, calls).1 == calls
      && !Allow(cfg, After(cfg, calls).0, t).1 && Within(calls, t - cfg.window + 1, t + 1) == 0
  {
    hide After, Within, Full;
    var calls := Full(cfg, t + 1, t + 1);
    NoCalls(cfg);
    FullReads(cfg, t + 1, t + 1);
    FullGoesThrough(cfg, [], t + 1, t + 1);
    assert [] + calls == calls;
    NoneWithin(calls, t - cfg.window + 1, t + 1);
  }
}

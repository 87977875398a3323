/**
 * Ids made of a millisecond, a node and a sequence number. The clock is arbitrary: a call is given the
 * readings the clock would return, one after another, and may find that they run out while it waits.
 */
module Snowflake {
  import opened Words

  const EPOCH: int := 1577836800000
  const NODES: nat := 1024
  const MAX_SEQUENCE: nat := 4095
  const TIMES: nat := 0x200_0000_0000            // 41 bits
  const NODE_UNIT: nat := 0x1000                 // a shift by 12
  const TIME_UNIT: nat := 0x40_0000              // a shift by 22

  datatype State = State(node: nat, lastTime: int, sequence: nat)

  datatype Outcome = Id(id: nat) | MovedBackward(lag: nat) | BeforeEpoch | Overflow | Waiting

  ghost predicate Valid(g: State) {
    g.node < NODES && g.sequence <= MAX_SEQUENCE
  }

  function Pack(time: int, node: nat, sequence: nat): int {
    (time - EPOCH) * TIME_UNIT + node * NODE_UNIT + sequence
  }

  // ---- one call ------------------------------------------------------------------------------

  /** Waiting for a millisecond later than `last`. */
  datatype Wait = Still | Back(lag: nat) | At(time: int)

  function WaitFor(last: int, readings: seq<int>): (w: Wait)
    ensures w.At? ==> w.time > last && w.time in readings
  {
    if readings == [] then Still
    else if readings[0] < last then Back(last - readings[0])
    else if readings[0] > last then At(readings[0])
    else WaitFor(last, readings[1..])
  }

  /** The last part of a call, once its millisecond and sequence number are settled. */
  function Issue(g: State, now: int, sequence: nat): (State, Outcome)
    requires now >= EPOCH
  {
    if now - EPOCH >= TIMES then (g.(sequence := sequence), Overflow)
    else
      var s := if now == EPOCH && g.node == 0 && sequence == 0 then 1 else sequence;
      (State(g.node, now, s), Id(Pack(now, g.node, s)))
  }

  function Call(g: State, readings: seq<int>): (State, Outcome) {
    if readings == [] then (g, Waiting)
    else
      var now := readings[0];
      if now < g.lastTime then (g, MovedBackward(g.lastTime - now))
      else if now < EPOCH then (g, BeforeEpoch)
      else if now > g.lastTime then Issue(g, now, 0)
      else if g.sequence < MAX_SEQUENCE then Issue(g, now, g.sequence + 1)
      else
        match WaitFor(g.lastTime, readings[1..])
        case Still => (g, Waiting)
        case Back(lag) => (g, MovedBackward(lag))
        case At(time) => Issue(g, time, 0)
  }

  class Generator {
    const node: nat
    var lastTime: int
    var sequence: nat

    ghost function View(): State
      reads this
    {
      State(node, lastTime, sequence)
    }

    /** A generator for a fresh node id, which has issued nothing. */
    constructor (node: nat)
      requires node < NODES
      ensures View() == State(node, 0, 0)
    {
      this.node, lastTime, sequence := node, 0, 0;
    }

    /** A generator for a process that may have had a predecessor on the same node. */
    constructor Restarted(node: nat, now: int)
      requires node < NODES
      ensures View() == Restart(node, now)
    {
      this.node, lastTime, sequence := node, now, MAX_SEQUENCE;
    }

    method NextID(readings: seq<int>) returns (r: Outcome)
      requires Valid(View())
      modifies this
      ensures (View(), r) == Call(old(View()), readings)
      ensures Valid(View())
    {
      if readings == [] {
        return Waiting;
      }
      var now := readings[0];
      if now < lastTime {
        return MovedBackward(lastTime - now);
      }
      if now < EPOCH {
        return BeforeEpoch;
      }
      if now == lastTime {
        if sequence == MAX_SEQUENCE {
          var i := 1;
          while now <= lastTime
            invariant 1 <= i <= |readings|
            invariant View() == old(View())
            invariant now == lastTime ==> WaitFor(lastTime, readings[1..]) == WaitFor(lastTime, readings[i..])
            invariant now >= lastTime && (now > lastTime ==> WaitFor(lastTime, readings[1..]) == At(now))
            decreases now <= lastTime, |readings| - i
          {
            if i == |readings| {
              return Waiting;
            }
            now := readings[i];
            assert readings[i..][0] == now && readings[i..][1..] == readings[i + 1..];
            if now < lastTime {
              return MovedBackward(lastTime - now);
            }
            i := i + 1;
          }
          sequence := 0;
        } else {
          sequence := sequence + 1;
        }
      } else {
        sequence := 0;
      }
      var delta := now - EPOCH;
      if delta >= TIMES {
        return Overflow;
      }
      lastTime := now;
      if delta == 0 && node == 0 && sequence == 0 {
        sequence := 1;
      }
      r := Id(delta * TIME_UNIT + node * NODE_UNIT + sequence);
    }
  }

  /** A generator for the process that starts now; node ids out of range are refused. */
  method NewSnowflake(nodeID: int, now: int) returns (g: Option<Generator>)
    ensures g.None? <==> nodeID < 0 || nodeID >= NODES
    ensures g.Some? ==> fresh(g.value) && g.value.View() == Restart(nodeID, now) && Valid(g.value.View())
  {
    if nodeID < 0 || nodeID >= NODES {
      return None;
    }
    var made := new Generator.Restarted(nodeID, now);
    g := Some(made);
  }

  // ---- packing -------------------------------------------------------------------------------

  function TimeOf(id: nat): int { id / TIME_UNIT + EPOCH }
  function NodeOf(id: nat): nat { id / NODE_UNIT % NODES }
  function SequenceOf(id: nat): nat { id % NODE_UNIT }

  /** The three fields do not overlap, so joining them with `|` adds them up and they can be read back. */
  lemma FieldsDoNotOverlap(delta: bv64, node: bv64, sequence: bv64)
    requires delta < 0x200_0000_0000 && node < 0x400 && sequence < 0x1000
    ensures var id := (delta << 22) | (node << 12) | sequence;
      && id == (delta << 22) + (node << 12) + sequence
      && id >> 22 == delta && (id >> 12) & 0x3FF == node && id & 0xFFF == sequence
      && id < 0x8000_0000_0000_0000
  {
  }

  /** An id is a positive 63-bit number from which its parts are read back. */
  lemma Unpacks(time: int, node: nat, sequence: nat)
    requires 0 <= time - EPOCH < TIMES && node < NODES && sequence <= MAX_SEQUENCE
    ensures 0 <= Pack(time, node, sequence) < TWO_63
    ensures var id := Pack(time, node, sequence);
      TimeOf(id) == time && NodeOf(id) == node && SequenceOf(id) == sequence
  {
    var id := Pack(time, node, sequence);
    var rest := node * NODE_UNIT + sequence;
    assert id == (time - EPOCH) * TIME_UNIT + rest && 0 <= rest < TIME_UNIT;
    assert id / NODE_UNIT == (time - EPOCH) * NODES + node;
  }

  /** Where a generator stands: everything it issued so far is at or below this. */
  function Mark(g: State): int {
    Pack(g.lastTime, g.node, g.sequence)
  }

  lemma LaterPacksHigher(t: int, u: int, node: nat, s: nat, r: nat)
    requires t < u && s <= MAX_SEQUENCE
    ensures Pack(t, node, s) < Pack(u, node, r)
  {
    assert (u - EPOCH) * TIME_UNIT >= (t - EPOCH) * TIME_UNIT + TIME_UNIT;
  }

  // ---- what one call does --------------------------------------------------------------------

  ghost predicate TooLate(readings: seq<int>) {
    exists x :: x in readings && x - EPOCH >= TIMES
  }

  /** An id is above the mark, and becomes the mark; it is a reading of the clock, packed. */
  lemma CallIssues(g: State, readings: seq<int>)
    requires Valid(g)
    ensures var (h, r) := Call(g, readings);
      && Valid(h) && h.node == g.node
      && (r.Id? ==>
            && r.id > Mark(g) && r.id == Mark(h) && 0 < r.id < TWO_63
            && h.lastTime in readings && h.lastTime - EPOCH < TIMES && TimeOf(r.id) == h.lastTime && NodeOf(r.id) == g.node)
      && (!r.Id? && !r.Overflow? ==> h == g)
      && (r.Overflow? ==> h.lastTime == g.lastTime && TooLate(readings))
  {
    if readings != [] {
      var (h, r) := Call(g, readings);
      if r.Overflow? {
        assert readings[0] in readings;
        var late := WaitFor(g.lastTime, readings[1..]);
        assert late.At? ==> late.time in readings;
      }
      if r.Id? {
        Unpacks(h.lastTime, g.node, h.sequence);
        if h.lastTime > g.lastTime {
          LaterPacksHigher(g.lastTime, h.lastTime, g.node, g.sequence, h.sequence);
        }
        PackPositive(h);
      }
    }
  }

  lemma PackPositive(h: State)
    requires 0 <= h.lastTime - EPOCH && (h.lastTime == EPOCH && h.node == 0 ==> h.sequence > 0)
    ensures Mark(h) > 0
  {
  }

  // ---- runs ----------------------------------------------------------------------------------

  /** The outcomes of calls made one after another, each with the clock readings it gets. */
  function Outcomes(g: State, calls: seq<seq<int>>): seq<Outcome>
    decreases |calls|
  {
    if calls == [] then []
    else
      var (h, r) := Call(g, calls[0]);
      [r] + Outcomes(h, calls[1..])
  }

  lemma {:induction false} OutcomesCount(g: State, calls: seq<seq<int>>)
    ensures |Outcomes(g, calls)| == |calls|
    decreases |calls|
  {
    if calls != [] { OutcomesCount(Call(g, calls[0]).0, calls[1..]); }
  }

  /** The call numbered `j` issues an id, and no call before it overflows. */
  ghost predicate Continues(g: State, calls: seq<seq<int>>, j: nat) {
    && j < |Outcomes(g, calls)| && Outcomes(g, calls)[j].Id?
    && forall i :: 0 <= i < j ==> !Outcomes(g, calls)[i].Overflow?
  }

  /** The first outcome, and the rest as the outcomes from the state after the first call. */
  lemma FirstAndRest(g: State, calls: seq<seq<int>>, j: nat)
    requires 0 < j < |Outcomes(g, calls)|
    ensures calls != []
    ensures var h := Call(g, calls[0]).0;
      && j - 1 < |Outcomes(h, calls[1..])| && Outcomes(h, calls[1..])[j - 1] == Outcomes(g, calls)[j]
      && Outcomes(g, calls)[0] == Call(g, calls[0]).1
      && (Continues(g, calls, j) ==> Continues(h, calls[1..], j - 1) && !Call(g, calls[0]).1.Overflow?)
  {
    var (h, r) := Call(g, calls[0]);
    var outcomes, rest := Outcomes(g, calls), Outcomes(h, calls[1..]);
    assert outcomes == [r] + rest;
    assert forall i :: 0 <= i < |rest| ==> rest[i] == outcomes[i + 1];
  }

  /** Every id of a run without an overflow before it is above the mark the run started from. */
  lemma {:induction false} AboveTheMark(g: State, calls: seq<seq<int>>, j: nat)
    requires Valid(g) && Continues(g, calls, j)
    ensures Mark(g) < Outcomes(g, calls)[j].id && 0 < Outcomes(g, calls)[j].id < TWO_63
    decreases |calls|
  {
    hide Call, Mark, NodeOf, TimeOf, TooLate;
    CallIssues(g, calls[0]);
    if j > 0 {
      FirstAndRest(g, calls, j);
      AboveTheMark(Call(g, calls[0]).0, calls[1..], j - 1);
    }
  }

  /**
   * Ids are positive, fit 63 bits and strictly increase, whatever the clock does, as long as no
   * timestamp has overflowed before them.
   */
  lemma {:induction false} StrictlyIncreasing(g: State, calls: seq<seq<int>>, i: nat, j: nat)
    requires Valid(g) && i < j && Continues(g, calls, j) && Outcomes(g, calls)[i].Id?
    ensures 0 < Outcomes(g, calls)[i].id < Outcomes(g, calls)[j].id < TWO_63
    decreases |calls|
  {
    hide Call, Mark, NodeOf, TimeOf, TooLate, Outcomes;
    FirstAndRest(g, calls, j);
    CallIssues(g, calls[0]);
    var h := Call(g, calls[0]).0;
    if i == 0 {
      AboveTheMark(h, calls[1..], j - 1);
    } else {
      FirstAndRest(g, calls, i);
      StrictlyIncreasing(h, calls[1..], i - 1, j - 1);
    }
  }

  /** Two generators with different nodes never issue the same id. */
  lemma NodesNeverCollide(g: State, h: State, calls: seq<seq<int>>, others: seq<seq<int>>, i: nat, j: nat)
    requires Valid(g) && Valid(h) && g.node != h.node
    requires i < |Outcomes(g, calls)| && Outcomes(g, calls)[i].Id?
    requires j < |Outcomes(h, others)| && Outcomes(h, others)[j].Id?
    ensures Outcomes(g, calls)[i].id != Outcomes(h, others)[j].id
  {
    IssuedByNode(g, calls, i);
    IssuedByNode(h, others, j);
  }

  /** An id carries its generator's node and a time that was read from the clock. */
  lemma {:induction false} IssuedByNode(g: State, calls: seq<seq<int>>, j: nat)
    requires Valid(g) && j < |Outcomes(g, calls)| && Outcomes(g, calls)[j].Id?
    ensures NodeOf(Outcomes(g, calls)[j].id) == g.node
    ensures j < |calls| && TimeOf(Outcomes(g, calls)[j].id) in calls[j]
    decreases |calls|
  {
    var (h, r) := Call(g, calls[0]);
    CallIssues(g, calls[0]);
    if j > 0 {
      assert Outcomes(h, calls[1..])[j - 1] == Outcomes(g, calls)[j];
      IssuedByNode(h, calls[1..], j - 1);
    }
  }

  // ---- when a call issues --------------------------------------------------------------------

  /**
   * The reading that decides a call: the first one, or, when the millisecond of the first is used up, the
   * first that shows another.
   */
  ghost predicate Decides(g: State, readings: seq<int>, k: nat) {
    && k < |readings|
    && (forall j :: 0 <= j < k ==> readings[j] == g.lastTime)
    && (k > 0 ==> UsedUp(g))
    && (readings[k] == g.lastTime ==> !UsedUp(g))
  }

  /** The last millisecond has no number left. */
  predicate UsedUp(g: State) {
    g.sequence == MAX_SEQUENCE && g.lastTime >= EPOCH
  }

  /** What the deciding reading makes of the call. */
  function Verdict(g: State, now: int): Outcome {
    if now < g.lastTime then MovedBackward(g.lastTime - now)
    else if now < EPOCH then BeforeEpoch
    else if now >= EPOCH + TIMES then Overflow
    else Id(Pack(now, g.node, NumberAt(g, now)))
  }

  /** Numbers of a millisecond follow on each other from 0; the very first id is not 0. */
  function NumberAt(g: State, now: int): nat {
    if now == g.lastTime then g.sequence + 1
    else if now == EPOCH && g.node == 0 then 1
    else 0
  }

  lemma {:induction false} WaitsFor(last: int, readings: seq<int>, k: nat)
    requires k < |readings| && readings[k] != last && forall j :: 0 <= j < k ==> readings[j] == last
    ensures WaitFor(last, readings) == if readings[k] < last then Back(last - readings[k]) else At(readings[k])
    decreases k
  {
    if k > 0 { WaitsFor(last, readings[1..], k - 1); }
  }

  /** A call that has a deciding reading gives what that reading makes of it, and issues whenever it can. */
  lemma CallDecides(g: State, readings: seq<int>, k: nat)
    requires Valid(g) && Decides(g, readings, k)
    ensures Call(g, readings).1 == Verdict(g, readings[k])
  {
    if k > 0 {
      assert readings[0] == g.lastTime;
      WaitsFor(g.lastTime, readings[1..], k - 1);
    } else if readings[0] == g.lastTime && g.lastTime >= EPOCH {
      assert g.sequence < MAX_SEQUENCE;
    }
  }

  lemma {:induction false} WaitsOnlyForSame(last: int, readings: seq<int>)
    ensures WaitFor(last, readings) == Still <==> forall j :: 0 <= j < |readings| ==> readings[j] == last
  {
    if readings != [] {
      WaitsOnlyForSame(last, readings[1..]);
      assert readings == [readings[0]] + readings[1..];
    }
  }

  /** A call waits exactly when its millisecond is used up and the clock never shows another, or never shows anything. */
  lemma WaitsExactlyWhen(g: State, readings: seq<int>)
    requires Valid(g)
    ensures Call(g, readings).1 == Waiting
       <==> readings == [] || (UsedUp(g) && forall j :: 0 <= j < |readings| ==> readings[j] == g.lastTime)
  {
    if readings != [] {
      WaitsOnlyForSame(g.lastTime, readings[1..]);
      assert readings == [readings[0]] + readings[1..];
    }
  }

  /** The clock shows one millisecond to `n` calls. */
  function Stuck(t: int, n: nat): seq<seq<int>> {
    seq(n, _ => [t])
  }

  /** One millisecond is good for exactly 4096 ids, one fewer at the very first: then calls wait. */
  lemma {:induction false} IdsOfAMillisecond(g: State, t: int, n: nat, j: nat)
    requires Valid(g) && g.lastTime <= t && EPOCH <= t < EPOCH + TIMES && j < n
    ensures j < |Outcomes(g, Stuck(t, n))|
    ensures Outcomes(g, Stuck(t, n))[j] ==
      if Left(g, t) > j then Id(Pack(t, g.node, MAX_SEQUENCE + 1 - Left(g, t) + j)) else Waiting
    decreases n
  {
    OutcomesCount(g, Stuck(t, n));
    var (h, r) := Call(g, [t]);
    CallDecidesFirst(g, t);
    assert Stuck(t, n)[0] == [t] && Stuck(t, n)[1..] == Stuck(t, n - 1);
    hide Call, Pack;
    if j > 0 {
      IdsOfAMillisecond(h, t, n - 1, j - 1);
    }
  }

  /** How many numbers the millisecond has left. */
  function Left(g: State, t: int): nat
    requires Valid(g)
  {
    if g.lastTime == t then MAX_SEQUENCE - g.sequence
    else if t == EPOCH && g.node == 0 then MAX_SEQUENCE
    else MAX_SEQUENCE + 1
  }

  lemma CallDecidesFirst(g: State, t: int)
    requires Valid(g) && g.lastTime <= t && EPOCH <= t < EPOCH + TIMES
    ensures var (h, r) := Call(g, [t]);
      && Valid(h) && h.node == g.node && h.lastTime == t
      && (if Left(g, t) > 0 then r == Id(Pack(t, g.node, MAX_SEQUENCE + 1 - Left(g, t))) && Left(h, t) == Left(g, t) - 1
          else r == Waiting && h == g)
  {
    hide Pack;
  }

  // ---- overflow ------------------------------------------------------------------------------

  /**
   * A call that overflows forgets its sequence number but not its millisecond. Whatever comes next is
   * above all that was issued exactly when that number was zero already.
   */
  lemma AfterOverflowExactly(g: State, readings: seq<int>)
    requires Valid(g) && 0 <= g.lastTime - EPOCH < TIMES && Call(g, readings).1.Overflow?
    ensures (forall next: seq<seq<int>>, j: nat :: Continues(Call(g, readings).0, next, j) ==> Outcomes(Call(g, readings).0, next)[j].id > Mark(g))
       <==> g.sequence == 0
  {
    var h := Call(g, readings).0;
    CallIssues(g, readings);
    assert h == g.(sequence := 0);
    if g.sequence == 0 {
      forall next: seq<seq<int>>, j: nat | Continues(h, next, j) ensures Outcomes(h, next)[j].id > Mark(g) { AboveTheMark(h, next, j); }
    } else {
      var next := [[g.lastTime]];
      assert Call(h, next[0]).1 == Id(Pack(g.lastTime, g.node, 1));
      assert Continues(h, next, 0);
    }
  }

  /** The clock never goes back, within a call or between calls. */
  ghost predicate Monotone(from: int, calls: seq<seq<int>>) {
    && (forall i, x :: 0 <= i < |calls| && x in calls[i] ==> from <= x)
    && (forall i, j, x, y :: 0 <= i < j < |calls| && x in calls[i] && y in calls[j] ==> x <= y)
  }

  lemma MonotoneTail(from: int, calls: seq<seq<int>>, x: int)
    requires Monotone(from, calls) && calls != [] && (x in calls[0] || x == from)
    ensures Monotone(x, calls[1..])
  {
    assert forall i :: 0 <= i < |calls[1..]| ==> calls[1..][i] == calls[i + 1];
  }

  /** Past the last timestamp nothing is issued any more. */
  lemma {:induction false} NothingAfterTheEnd(g: State, calls: seq<seq<int>>, j: nat)
    requires Valid(g) && Monotone(EPOCH + TIMES, calls) && j < |Outcomes(g, calls)|
    ensures !Outcomes(g, calls)[j].Id?
    decreases |calls|
  {
    var (h, r) := Call(g, calls[0]);
    CallIssues(g, calls[0]);
    if j > 0 {
      MonotoneTail(EPOCH + TIMES, calls, EPOCH + TIMES);
      assert Outcomes(h, calls[1..])[j - 1] == Outcomes(g, calls)[j];
      NothingAfterTheEnd(h, calls[1..], j - 1);
    }
  }

  /** On a clock that never goes back no id is issued after an overflow. */
  lemma {:induction false} NoOverflowBefore(g: State, calls: seq<seq<int>>, from: int, i: nat, j: nat)
    requires Valid(g) && Monotone(from, calls) && i < j < |Outcomes(g, calls)| && Outcomes(g, calls)[j].Id?
    ensures !Outcomes(g, calls)[i].Overflow?
    decreases |calls|
  {
    hide Call, Mark, NodeOf, TimeOf, Outcomes;
    FirstAndRest(g, calls, j);
    CallIssues(g, calls[0]);
    var (h, r) := Call(g, calls[0]);
    if i > 0 {
      FirstAndRest(g, calls, i);
      MonotoneTail(from, calls, from);
      NoOverflowBefore(h, calls[1..], from, i - 1, j - 1);
    } else if r.Overflow? {
      var x :| x in calls[0] && x - EPOCH >= TIMES;
      MonotoneTail(from, calls, x);
      NothingAfterTheEnd(h, calls[1..], j - 1);
    }
  }

  /** So there, ids strictly increase with no condition at all. */
  lemma IncreasingOnMonotoneClock(g: State, calls: seq<seq<int>>, from: int, i: nat, j: nat)
    requires Valid(g) && Monotone(from, calls) && i < j < |Outcomes(g, calls)|
    requires Outcomes(g, calls)[i].Id? && Outcomes(g, calls)[j].Id?
    ensures 0 < Outcomes(g, calls)[i].id < Outcomes(g, calls)[j].id < TWO_63
  {
    forall x: nat | x < j ensures !Outcomes(g, calls)[x].Overflow? {
      NoOverflowBefore(g, calls, from, x, j);
    }
    StrictlyIncreasing(g, calls, i, j);
  }

  // ---- restarts ------------------------------------------------------------------------------

  /** The state a generator starts in when the clock reads `now`. */
  function Restart(node: nat, now: int): State {
    State(node, now, MAX_SEQUENCE)
  }

  /**
   * A restarted generator issues only ids above all those of its predecessor on the same node, provided
   * the clock at the restart is not behind what the predecessor read.
   */
  lemma RestartIssuesHigher(g: State, before: seq<seq<int>>, now: int, after: seq<seq<int>>, i: nat, j: nat)
    requires Valid(g)
    requires forall k, x :: 0 <= k < |before| && x in before[k] ==> x <= now
    requires i < |Outcomes(g, before)| && Outcomes(g, before)[i].Id?
    requires Continues(Restart(g.node, now), after, j)
    ensures Outcomes(g, before)[i].id < Outcomes(Restart(g.node, now), after)[j].id
  {
    var id := Outcomes(g, before)[i].id;
    IssuedByNode(g, before, i);
    assert TimeOf(id) <= now;
    AtMostMark(id, g.node, now);
    AboveTheMark(Restart(g.node, now), after, j);
  }

  lemma AtMostMark(id: nat, node: nat, now: int)
    requires NodeOf(id) == node && TimeOf(id) <= now
    ensures id <= Mark(Restart(node, now))
  {
    var t := id / TIME_UNIT;
    assert id / NODE_UNIT == t * NODES + id / NODE_UNIT % NODES by {
      assert id / NODE_UNIT / NODES == t;
    }
    assert id == id / NODE_UNIT * NODE_UNIT + id % NODE_UNIT;
    assert id == t * TIME_UNIT + node * NODE_UNIT + id % NODE_UNIT;
    assert t * TIME_UNIT <= (now - EPOCH) * TIME_UNIT;
  }
}

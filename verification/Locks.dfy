/**
 * The listing rows that create transactions lock, one row at a time and each held to the end of its
 * transaction. A transaction that wants a row another holds waits for it.
 */
module Locks {
  import opened Ascending
  import opened Sums
  import opened Cart

  /** The rows a transaction locks, in its order, and how many it has by now. */
  datatype Tx = Tx(rows: seq<nat>, taken: nat)

  type Txs = map<nat, Tx>

  ghost predicate Holds(t: Txs, a: nat, row: nat) {
    a in t && exists k :: 0 <= k < t[a].taken && k < |t[a].rows| && t[a].rows[k] == row
  }

  predicate Waiting(t: Txs, a: nat) {
    a in t && t[a].taken < |t[a].rows|
  }

  function Wanted(t: Txs, a: nat): nat
    requires Waiting(t, a)
  {
    t[a].rows[t[a].taken]
  }

  ghost predicate WaitsFor(t: Txs, a: nat, b: nat) {
    Waiting(t, a) && a != b && Holds(t, b, Wanted(t, a))
  }

  ghost predicate Granted(t: Txs, a: nat) {
    Waiting(t, a) && forall b :: !WaitsFor(t, a, b)
  }

  // ---- steps ---------------------------------------------------------------------------------

  datatype Step = Begin(a: nat, rows: seq<nat>) | Acquire(a: nat) | End(a: nat)

  ghost predicate Enabled(t: Txs, step: Step) {
    match step
    case Begin(a, rows) => a !in t && Increasing(rows)
    case Acquire(a) => Granted(t, a)
    case End(a) => a in t          // a commit, or a rollback at any point
  }

  function Next(t: Txs, step: Step): Txs
    requires step.Acquire? ==> step.a in t
  {
    match step
    case Begin(a, rows) => t[a := Tx(rows, 0)]
    case Acquire(a) => t[a := t[a].(taken := t[a].taken + 1)]
    case End(a) => t - {a}
  }

  ghost predicate TxOk(tx: Tx) {
    Increasing(tx.rows) && tx.taken <= |tx.rows|
  }

  /** Rows are taken in ascending order, and no row by two transactions. */
  ghost predicate Inv(t: Txs) {
    && (forall a :: a in t ==> TxOk(t[a]))
    && (forall a, b, row :: Holds(t, a, row) && Holds(t, b, row) ==> a == b)
  }

  lemma StepKeeps(t: Txs, step: Step)
    requires Inv(t) && Enabled(t, step)
    ensures Inv(Next(t, step))
  {
    var u := Next(t, step);
    forall a, b, row | Holds(u, a, row) && Holds(u, b, row) ensures a == b {
      if a != b {
        HeldBefore(t, step, a, row);
        HeldBefore(t, step, b, row);
        if step.Acquire? && step.a == a { OthersDoNot(t, a, b); }
        if step.Acquire? && step.a == b { OthersDoNot(t, b, a); }
      }
    }
  }

  lemma OthersDoNot(t: Txs, a: nat, b: nat)
    requires Granted(t, a) && a != b
    ensures !Holds(t, b, Wanted(t, a))
  {
    assert !WaitsFor(t, a, b);
  }

  lemma HeldBefore(t: Txs, step: Step, a: nat, row: nat)
    requires Enabled(t, step) && Holds(Next(t, step), a, row)
    ensures Holds(t, a, row) || (step == Acquire(a) && row == Wanted(t, a))
  {
  }

  ghost predicate Legal(t: Txs, steps: seq<Step>)
    decreases |steps|
  {
    steps == [] || (Enabled(t, steps[0]) && Legal(Next(t, steps[0]), steps[1..]))
  }

  ghost function Run(t: Txs, steps: seq<Step>): Txs
    requires Legal(t, steps)
    decreases |steps|
  {
    if steps == [] then t else Run(Next(t, steps[0]), steps[1..])
  }

  lemma {:induction false} RunKeeps(t: Txs, steps: seq<Step>)
    requires Inv(t) && Legal(t, steps)
    ensures Inv(Run(t, steps))
    decreases |steps|
  {
    if steps != [] {
      StepKeeps(t, steps[0]);
      RunKeeps(Next(t, steps[0]), steps[1..]);
    }
  }

  // ---- no cycle of waits ---------------------------------------------------------------------

  /** Whoever is waited for wants, if anything, a row further up. */
  lemma WaitsGoUp(t: Txs, a: nat, b: nat)
    requires Inv(t) && WaitsFor(t, a, b) && Waiting(t, b)
    ensures Wanted(t, a) < Wanted(t, b)
  {
  }

  /** Each transaction of the chain waits for the next. */
  ghost predicate Chain(t: Txs, c: seq<nat>) {
    (forall i :: 0 <= i < |c| ==> Waiting(t, c[i])) && (forall i :: 0 <= i < |c| - 1 ==> WaitsFor(t, c[i], c[i + 1]))
  }

  lemma {:induction false} ChainGoesUp(t: Txs, c: seq<nat>)
    requires Inv(t) && Chain(t, c) && |c| >= 2
    ensures Wanted(t, c[0]) < Wanted(t, c[|c| - 1])
  {
    var n := |c| - 1;
    WaitsGoUp(t, c[n - 1], c[n]);
    if n > 1 { ChainGoesUp(t, c[..n]); }
  }

  /** In no reachable state do transactions wait for each other in a circle. */
  lemma NoDeadlock(steps: seq<Step>, c: seq<nat>)
    requires Legal(map[], steps) && c != []
    ensures !(Chain(Run(map[], steps), c) && WaitsFor(Run(map[], steps), c[|c| - 1], c[0]))
  {
    RunKeeps(map[], steps);
    var t := Run(map[], steps);
    if Chain(t, c) && WaitsFor(t, c[|c| - 1], c[0]) {
      WaitsGoUp(t, c[|c| - 1], c[0]);
      if |c| >= 2 { ChainGoesUp(t, c); }
    }
  }

  // ---- and everyone gets through -------------------------------------------------------------

  /** Some transaction can always go on: it holds all its rows, or the next one is free. */
  lemma SomeoneCanGo(t: Txs) returns (a: nat)
    requires Inv(t) && t != map[]
    ensures a in t && (Waiting(t, a) ==> Granted(t, a))
  {
    a :| a in t;
    a := GoUp(t, a);
  }

  ghost function Above(t: Txs, row: nat): set<nat> {
    set a | a in t && Waiting(t, a) && Wanted(t, a) > row
  }

  lemma {:induction false} GoUp(t: Txs, from: nat) returns (a: nat)
    requires Inv(t) && from in t
    ensures a in t && (Waiting(t, a) ==> Granted(t, a))
    decreases if Waiting(t, from) then |Above(t, Wanted(t, from))| + 1 else 0
  {
    a := from;
    if Waiting(t, from) && !Granted(t, from) {
      var b :| WaitsFor(t, from, b);
      if Waiting(t, b) {
        WaitsGoUp(t, from, b);
        assert b in Above(t, Wanted(t, from)) && b !in Above(t, Wanted(t, b));
        assert Above(t, Wanted(t, b)) <= Above(t, Wanted(t, from)) - {b};
        SubsetCount(Above(t, Wanted(t, b)), Above(t, Wanted(t, from)) - {b});
      }
      a := GoUp(t, b);
    }
  }

  function ToDo(t: Txs): map<nat, nat> {
    map a | a in t :: (if t[a].taken <= |t[a].rows| then |t[a].rows| - t[a].taken else 0) + 1
  }

  /** From every reachable state the transactions under way can all be brought to their end. */
  lemma {:induction false} EveryoneFinishes(t: Txs) returns (steps: seq<Step>)
    requires Inv(t)
    ensures Legal(t, steps) && Run(t, steps) == map[]
    ensures forall i :: 0 <= i < |steps| ==> !steps[i].Begin?
    ensures forall i :: 0 <= i < |steps| && steps[i].End? ==> steps[i].a in t
    decreases Total(ToDo(t))
  {
    if t == map[] {
      steps := [];
    } else {
      var a := SomeoneCanGo(t);
      var step := if Waiting(t, a) then Acquire(a) else End(a);
      StepKeeps(t, step);
      LessToDo(t, step);
      var rest := EveryoneFinishes(Next(t, step));
      steps := [step] + rest;
      assert steps[1..] == rest;
    }
  }

  lemma LessToDo(t: Txs, step: Step)
    requires Inv(t) && Enabled(t, step) && !step.Begin?
    ensures Total(ToDo(Next(t, step))) < Total(ToDo(t))
  {
    var a := step.a;
    assert TxOk(t[a]);
    TakeOut(ToDo(t), a);
    if step.End? {
      assert ToDo(t - {a}) == ToDo(t) - {a};
    } else {
      OneRowLess(t, a);
      TakeOut(ToDo(Next(t, step)), a);
    }
  }

  lemma OneRowLess(t: Txs, a: nat)
    requires Waiting(t, a)
    ensures ToDo(Next(t, Acquire(a)))[a] + 1 == ToDo(t)[a]
    ensures ToDo(Next(t, Acquire(a))) - {a} == ToDo(t) - {a}
  {
  }

  // ---- the order of the cart is what does it -------------------------------------------------

  /** The rows of a create transaction are those of a normalized cart, so its list is one the steps allow. */
  lemma CartsBegin(t: Txs, a: nat, items: seq<Item>)
    requires a !in t && Normalized(items).Some?
    ensures Enabled(t, Begin(a, Ids(Normalized(items).value)))
  {
    MergedIsNormal(items);
  }

  /** Two transactions that lock the same two rows the other way round can come to wait for each other. */
  lemma UnorderedDeadlocks(r: nat, s: nat)
    requires r != s
    ensures var t := Next(Next(map[0 := Tx([r, s], 0), 1 := Tx([s, r], 0)], Acquire(0)), Acquire(1));
      && Granted(map[0 := Tx([r, s], 0), 1 := Tx([s, r], 0)], 0)
      && Granted(Next(map[0 := Tx([r, s], 0), 1 := Tx([s, r], 0)], Acquire(0)), 1)
      && WaitsFor(t, 0, 1) && WaitsFor(t, 1, 0)
  {
    var t := Next(Next(map[0 := Tx([r, s], 0), 1 := Tx([s, r], 0)], Acquire(0)), Acquire(1));
    assert t[0].rows[0] == r && t[1].rows[0] == s;
    assert Holds(t, 0, r) && Holds(t, 1, s);
  }
}

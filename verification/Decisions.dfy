/** Every row was deserved: at some moment of the run its message was in order, or had just that reason against it. */
module Decisions {
  import opened Words
  import opened Cart
  import opened Tables
  import opened Orders
  import opened ShopInvariant
  import opened Idempotency
  import opened Inventory
  import opened Refusals
  import opened Delivery
  import opened Exactly
  import Runs = ShopRuns

  /** The step that turns the message away: its items cannot be normalized, or its transaction is refused. */
  ghost predicate TurnsDown(y: Sys, step: Step, at: Place, reason: Reason) {
    && Enabled(y, step) && (step.TurnAway? || step.Transact?)
    && y.workers[step.w].phase.at == at
    && match step
       case TurnAway(w) => reason == InvalidRequest && Normalized(EventOf(y, w).items).None?
       case Transact(w, now, keys, locked, lost) =>
         !y.workers[w].phase.seen && RefusedFor(y.db, EventOf(y, w), now, keys, locked, reason)
  }

  /** The body of its transaction, on the tables of that moment, refuses the command. */
  ghost predicate RefusedFor(db: Db, event: Event, now: int, keys: Keys, locked: set<nat>, reason: Reason) {
    && Normal(Merged(event.items)) && FreshKeys(db, keys, |Merged(event.items)|)
    && CreateBody(db, event, Merged(event.items), now, keys, locked).1 == Refused(reason)
  }

  ghost predicate IsTurning(y: Sys, w: nat, at: Place, reason: Reason) {
    w in y.workers && y.workers[w].phase == Turning(at, reason)
  }

  /** A worker comes to turn a message away only by a refusal. */
  lemma TurnsOnlyOnRefusal(y: Sys, step: Step, w: nat, at: Place, reason: Reason)
    requires Enabled(y, step) && IsTurning(Next(y, step), w, at, reason) && !IsTurning(y, w, at, reason)
    ensures TurnsDown(y, step, at, reason)
  {
    hide Sensible, CreateBody, Reject, Normalized, Merged, FreshKeys, Normal, Runs.Next, Runs.Enabled;
    if step.Transact? { CommandIsNormal(EventOf(y, step.w).items); }
  }

  /** So one that is turning a message away got there by a refusal earlier in the run. */
  lemma {:induction false} WhyTurning(ys: seq<Sys>, steps: seq<Step>, n: nat, w: nat, at: Place, reason: Reason) returns (m: nat)
    requires SysRun(ys, steps) && n < |ys| && IsTurning(ys[n], w, at, reason)
    ensures m < n && TurnsDown(ys[m], steps[m], at, reason)
  {
    hide Enabled, Next, TurnsDown;
    if n > 0 {
      if IsTurning(ys[n - 1], w, at, reason) {
        m := WhyTurning(ys, steps, n - 1, w, at, reason);
      } else {
        m := n - 1;
        TurnsOnlyOnRefusal(ys[m], steps[m], w, at, reason);
      }
    }
  }

  predicate RejectedAs(requests: map<string, Request>, id: string, buyer: nat, reason: Reason) {
    id in requests && requests[id] == Rejected(buyer, reason)
  }

  /** Only a worker that is turning a message away writes a rejected row, for that message and that reason. */
  lemma RejectsOnlyWhenTurning(y: Sys, step: Step, id: string, buyer: nat, reason: Reason)
    requires Inv(y.db) && Enabled(y, step)
    requires RejectedAs(Next(y, step).db.requests, id, buyer, reason) && id !in y.db.requests
    ensures step.InsertRejection?
    ensures IsTurning(y, step.w, y.workers[step.w].phase.at, reason)
    ensures EventOf(y, step.w).requestId == id && EventOf(y, step.w).buyer == buyer
  {
    hide Inv, CreateBody, Normalized, Merged, FreshKeys, Normal, Sensible, Runs.Next, Runs.Enabled;
    ShopMoves(y, step);
    match step
    case Transact(w, now, keys, locked, lost) =>
      CommandIsNormal(EventOf(y, w).items);
      NoRejection(y.db, EventOf(y, w), Merged(EventOf(y, w).items), now, keys, locked);
    case InsertRejection(w) => RejectionAdds(y, w);
    case Other(s) => OthersAddNoRow(y.db, s);
    case _ =>
  }

  lemma NoRejection(db: Db, event: Event, lines: seq<Item>, now: int, keys: Keys, locked: set<nat>)
    requires Normal(lines) && FreshKeys(db, keys, |lines|)
    ensures var requests := CreateBody(db, event, lines, now, keys, locked).0.requests;
      requests == db.requests || requests == db.requests[event.requestId := Created(event.buyer, keys.order)]
  {
    hide PriceFrom, ReserveFrom, OrderNoTaken, AllListed;
  }

  lemma {:induction false} LogForever(ys: seq<Sys>, steps: seq<Step>, m: nat, n: nat)
    requires SysRun(ys, steps) && m <= n < |ys|
    ensures LogGrows(ys[m].log, ys[n].log)
  {
    hide Enabled, Next, Starts, LogGrows;
    if m == n {
      LogSame(ys[m].log);
    } else {
      LogForever(ys, steps, m, n - 1);
      LogStep(ys[n - 1], steps[n - 1]);
      LogTrans(ys[m].log, ys[n - 1].log, ys[n].log);
    }
  }

  lemma LogStep(y: Sys, step: Step)
    requires Enabled(y, step)
    ensures LogGrows(y.log, Next(y, step).log)
  {
    hide Sensible, CreateOrder, Reject, Normalized, Merged, Runs.Next;
  }

  lemma LogTrans(a: map<nat, seq<Message>>, b: map<nat, seq<Message>>, c: map<nat, seq<Message>>)
    requires LogGrows(a, b) && LogGrows(b, c)
    ensures LogGrows(a, c)
  {
  }

  /** The transaction made the order of this row, from the message at that place. */
  ghost predicate MadeFor(y: Sys, step: Step, at: Place, o: nat) {
    && Enabled(y, step) && step.Transact? && y.workers[step.w].phase.at == at && step.keys.order == o
    && !y.workers[step.w].phase.seen
    && Made(y.db, EventOf(y, step.w), step.now, step.keys, step.locked)
  }

  ghost predicate Made(db: Db, event: Event, now: int, keys: Keys, locked: set<nat>) {
    && Normal(Merged(event.items)) && FreshKeys(db, keys, |Merged(event.items)|)
    && CreateBody(db, event, Merged(event.items), now, keys, locked).1.Made?
  }

  predicate CreatedAs(requests: map<string, Request>, id: string, buyer: nat, o: nat) {
    id in requests && requests[id] == Created(buyer, o)
  }

  lemma CreatesOnlyWhenMade(y: Sys, step: Step, id: string, buyer: nat, o: nat)
    requires Inv(y.db) && Enabled(y, step)
    requires CreatedAs(Next(y, step).db.requests, id, buyer, o) && id !in y.db.requests
    ensures step.Transact? && MadeFor(y, step, y.workers[step.w].phase.at, o)
    ensures EventOf(y, step.w).requestId == id && EventOf(y, step.w).buyer == buyer
  {
    hide Inv, CreateBody, Normalized, Merged, FreshKeys, Normal, Sensible, Runs.Next, Runs.Enabled;
    ShopMoves(y, step);
    match step
    case Transact(w, now, keys, locked, lost) =>
      CommandIsNormal(EventOf(y, w).items);
      NoRejection(y.db, EventOf(y, w), Merged(EventOf(y, w).items), now, keys, locked);
      NotMadeKeeps(y.db, EventOf(y, w), Merged(EventOf(y, w).items), now, keys, locked);
    case InsertRejection(w) => RejectionAdds(y, w);
    case Other(s) => OthersAddNoRow(y.db, s);
    case _ =>
  }

  /** The message there is a command under that id by that buyer. */
  ghost predicate Asks(log: map<nat, seq<Message>>, at: Place, id: string, buyer: nat) {
    Has(log, at) && Sensible(At(log, at)) && At(log, at).event.requestId == id && At(log, at).event.buyer == buyer
  }

  /** The step makes the message there into that row, or turns it down for that row's reason. */
  ghost predicate Decides(y: Sys, step: Step, at: Place, id: string, row: Request) {
    && Asks(y.log, at, id, row.buyer)
    && match row
       case Created(_, o) => MadeFor(y, step, at, o)
       case Rejected(_, reason) => TurnsDown(y, step, at, reason)
  }

  lemma TurningAsks(ys: seq<Sys>, steps: seq<Step>, n: nat, w: nat) returns (m: nat)
    requires SysRun(ys, steps) && n < |steps| && steps[n] == InsertRejection(w)
    ensures m < n
    ensures var phase := ys[n].workers[w].phase;
      Decides(ys[m], steps[m], phase.at, EventOf(ys[n], w).requestId, Rejected(EventOf(ys[n], w).buyer, phase.reason))
  {
    hide Sensible, TurnsDown, Starts, Next;
    assert Enabled(ys[n], steps[n]);
    var phase := ys[n].workers[w].phase;
    m := WhyTurning(ys, steps, n, w, phase.at, phase.reason);
    LogForever(ys, steps, m, n);
    TurnsDownBusy(ys[m], steps[m], phase.at, phase.reason);
  }

  lemma TurnsDownBusy(y: Sys, step: Step, at: Place, reason: Reason)
    requires TurnsDown(y, step, at, reason)
    ensures Has(y.log, at) && Sensible(At(y.log, at))
  {
  }

  /** Each row was decided at one moment of the run, by its own message. */
  lemma {:induction false} WhyDecided(ys: seq<Sys>, steps: seq<Step>, n: nat, id: string) returns (m: nat, at: Place)
    requires SysRun(ys, steps) && n < |ys| && id in ys[n].db.requests
    ensures m < n && Decides(ys[m], steps[m], at, id, ys[n].db.requests[id])
  {
    hide Enabled, Next, Decides, SysOk;
    if n > 0 {
      if id in ys[n - 1].db.requests {
        DecisionsAreFinal(ys, steps, n - 1, n, id);
        m, at := WhyDecided(ys, steps, n - 1, id);
      } else {
        m, at := DecidedNow(ys, steps, n - 1, id);
      }
    }
  }

  lemma DecidedNow(ys: seq<Sys>, steps: seq<Step>, n: nat, id: string) returns (m: nat, at: Place)
    requires SysRun(ys, steps) && n < |steps| && id !in ys[n].db.requests && id in ys[n + 1].db.requests
    ensures m <= n && Decides(ys[m], steps[m], at, id, ys[n + 1].db.requests[id])
  {
    hide Next, Inv, Sensible, MadeFor, WorkersOk, CommitsOk, RowsOk, Starts, TurnsDown;
    SysAlways(ys, steps, n);
    assert Enabled(ys[n], steps[n]);
    match ys[n + 1].db.requests[id]
    case Created(buyer, o) =>
      CreatesOnlyWhenMade(ys[n], steps[n], id, buyer, o);
      m, at := n, ys[n].workers[steps[n].w].phase.at;
    case Rejected(buyer, reason) =>
      RejectsOnlyWhenTurning(ys[n], steps[n], id, buyer, reason);
      m := TurningAsks(ys, steps, n, steps[n].w);
      at := ys[n].workers[steps[n].w].phase.at;
  }

  // ---- the whole of it -----------------------------------------------------------------------

  /** The code rows the step finds locked by others. */
  function LockedAt(step: Step): set<nat> {
    if step.Transact? then step.locked else {}
  }

  /** A rejected request had its reason against it, a created one none. */
  ghost predicate Deserved(db: Db, items: seq<Item>, locked: set<nat>, row: Request) {
    match row
    case Created(_, _) => forall reason :: !Deserves(db, items, locked, reason)
    case Rejected(_, reason) => Deserves(db, items, locked, reason)
  }

  lemma DecidedDeservedly(y: Sys, step: Step, at: Place, id: string, row: Request)
    requires Decides(y, step, at, id, row)
    ensures Deserved(y.db, At(y.log, at).event.items, LockedAt(step), row)
  {
    hide CreateBody, Deserves, Merged, FreshKeys, Normal, TrimSpace, Accepted;
    var event := At(y.log, at).event;
    match row
    case Created(_, o) => MadeDeservesNone(y.db, event, step.now, step.keys, step.locked);
    case Rejected(_, reason) =>
      if step.TurnAway? {
        NotAcceptedIsInvalid(y.db, event.items, {});
      } else {
        RefusedOnlyDeservedly(y.db, event, step.now, step.keys, step.locked, reason);
      }
  }

  lemma MadeDeservesNone(db: Db, event: Event, now: int, keys: Keys, locked: set<nat>)
    requires Made(db, event, now, keys, locked) && Accepted(event.items)
    ensures forall reason :: !Deserves(db, event.items, locked, reason)
  {
    hide CreateBody, Merged, FreshKeys, Normal, Accepted, OrderNoTaken, InStock;
    MadeExactlyWhen(db, event, Merged(event.items), now, keys, locked);
    hide Deserves;
    forall reason ensures !Deserves(db, event.items, locked, reason) {
      RefusedDeservedly(db, event, now, keys, locked, reason);
    }
  }

  /** What was made at that moment is still there, item by item. */
  lemma StillCarries(ys: seq<Sys>, steps: seq<Step>, m: nat, n: nat, at: Place, o: nat)
    requires m < n < |ys| && m < |steps| && Has(ys[m].log, at) && At(ys[m].log, at).Command?
    requires SysRun(ys, steps) && MadeFor(ys[m], steps[m], at, o)
    ensures Normalized(At(ys[m].log, at).event.items).Some? && |At(ys[m].log, at).event.requestId| <= REQUEST_ID_WIDTH
    ensures Carries(ys[n].db.items, o, Merged(At(ys[m].log, at).event.items))
  {
    hide Inv, WorkersOk, CommitsOk, RowsOk, Starts, CreateBody, Carries, Sensible, Normalized, Merged, FreshKeys, Normal, Runs.ItemsLater,
         Runs.Later;
    SysAlways(ys, steps, m);
    SysForever(ys, steps, m + 1, n);
    LaterParts(ys[m + 1].db, ys[n].db);
    var event := EventOf(ys[m], steps[m].w);
    CommandIsNormal(event.items);
    MadeCarries(ys[m].db, event, Merged(event.items), steps[m].now, steps[m].keys, steps[m].locked);
    MadeIsNext(ys[m], steps[m], at, o);
    MadeOrderThere(ys[m].db, event, Merged(event.items), steps[m].now, steps[m].keys, steps[m].locked);
    CarriesStays(ys[m + 1].db.items, ys[m + 1].db.orders, ys[n].db.items, o, Merged(event.items));
  }

  lemma MadeIsNext(y: Sys, step: Step, at: Place, o: nat)
    requires MadeFor(y, step, at, o)
    ensures var event := EventOf(y, step.w);
      Next(y, step).db == CreateBody(y.db, event, Merged(event.items), step.now, step.keys, step.locked).0
  {
    hide CreateBody, Sensible, Normalized, Merged, FreshKeys, Normal;
  }

  lemma MadeOrderThere(db: Db, event: Event, lines: seq<Item>, now: int, keys: Keys, locked: set<nat>)
    requires Normal(lines) && FreshKeys(db, keys, |lines|)
    ensures CreateBody(db, event, lines, now, keys, locked).1.Made? ==> keys.order in CreateBody(db, event, lines, now, keys, locked).0.orders
  {
  }

  /**
   * However often a command is delivered and to however many workers: a request has one row; one message that
   * was sent under that id by that buyer was decided into it at one moment of the run. If it was rejected, it
   * deserved that at that moment. If it was made into an order, nothing was wrong with it; the order is its
   * buyer's and carries exactly the normalized lines of that message; and no other request names it.
   */
  lemma ExactlyOnce(ys: seq<Sys>, steps: seq<Step>, n: nat, id: string) returns (m: nat, at: Place)
    requires SysRun(ys, steps) && n < |ys| && id in ys[n].db.requests
    ensures m < n && Decides(ys[m], steps[m], at, id, ys[n].db.requests[id])
    ensures Deserved(ys[m].db, At(ys[m].log, at).event.items, LockedAt(steps[m]), ys[n].db.requests[id])
    ensures MadeFrom(ys[n].log, ys[n].db.items, id, ys[n].db.requests[id], at)
    ensures ys[n].db.requests[id].Created? ==>
      var o := ys[n].db.requests[id].order;
      && o in ys[n].db.orders && ys[n].db.orders[o].buyer == ys[n].db.requests[id].buyer
      && forall other :: OrderedBy(ys[n].db.requests, other, o) ==> other == id
  {
    RunLength(ys, steps);
    hide SysRun, SysOk, Deserved, Sensible, Carries, Merged, Normalized, TurnsDown, MadeFor;
    m, at := WhyDecided(ys, steps, n, id);
    DecidedDeservedly(ys[m], steps[m], at, id, ys[n].db.requests[id]);
    LogForever(ys, steps, m, n);
    RowFits(ys, steps, n, id);
    if ys[n].db.requests[id].Created? {
      StillCarries(ys, steps, m, n, at, ys[n].db.requests[id].order);
      OneRowAnOrder(ys, steps, n, id);
    }
  }

  lemma RunLength(ys: seq<Sys>, steps: seq<Step>)
    requires SysRun(ys, steps)
    ensures |ys| == |steps| + 1
  {
  }

  lemma RowFits(ys: seq<Sys>, steps: seq<Step>, n: nat, id: string)
    requires SysRun(ys, steps) && n < |ys| && id in ys[n].db.requests
    ensures |id| <= REQUEST_ID_WIDTH
  {
    hide SysRun, SysOk;
    SysAlways(ys, steps, n);
    RowIdsFit(ys[n], id);
  }

  /** The order a created row names is there, is its buyer's, and is named by no other row. */
  lemma OneRowAnOrder(ys: seq<Sys>, steps: seq<Step>, n: nat, id: string)
    requires SysRun(ys, steps) && n < |ys| && id in ys[n].db.requests && ys[n].db.requests[id].Created?
    ensures var o := ys[n].db.requests[id].order;
      && o in ys[n].db.orders && ys[n].db.orders[o].buyer == ys[n].db.requests[id].buyer
      && forall other :: OrderedBy(ys[n].db.requests, other, o) ==> other == id
  {
    SysAlways(ys, steps, n);
    ItemsFromInv(ys[n].db);
    hide Inv, WorkersOk, CommitsOk, RowsOk, SysRun, ItemsOk;
    var requests := ys[n].db.requests;
    forall other | OrderedBy(requests, other, requests[id].order) ensures other == id {
      assert SameOrder(requests, other, id);
    }
  }

  // ---- a worker on its own -------------------------------------------------------------------

  /** What the steps of a worker come to: the tables of `Process`, and a message to commit unless that is an error. */
  ghost predicate Processes(y: Sys, z: Sys, w: nat, next: Db, handling: Handling) {
    && z.db == next && z.log == y.log && z.committed == y.committed
    && w in y.workers && !y.workers[w].phase.Idle? && w in z.workers
    && z.workers[w] == if handling.Error? then RESTARTED else y.workers[w].(phase := Processed(y.workers[w].phase.at))
  }

  /** One step further. */
  lemma OneStep(y: Sys, step: Step, rest: seq<Step>)
    requires Enabled(y, step) && Legal(Next(y, step), rest)
    ensures Legal(y, [step] + rest) && RunOn(y, [step] + rest) == RunOn(Next(y, step), rest)
  {
    assert ([step] + rest)[1..] == rest;
  }

  lemma RejectingAlone(y: Sys, w: nat)
    requires Busy(y, w) && y.workers[w].phase.Turning?
    ensures Enabled(y, InsertRejection(w))
    ensures var (next, handling) := Refuse(y.db, EventOf(y, w), y.workers[w].phase.reason);
      Processes(y, Next(y, InsertRejection(w)), w, next, handling)
  {
    hide Sensible;
  }

  lemma FailingAlone(y: Sys, w: nat)
    requires Busy(y, w) && y.workers[w].phase.Failing?
    ensures Enabled(y, LookAgain(w))
    ensures Processes(y, Next(y, LookAgain(w)), w, y.db, if EventOf(y, w).requestId in y.db.requests then AlreadyKnown else Error)
  {
    hide Sensible;
  }

  /** The worker goes on with its message. */
  ghost predicate GoesOn(y: Sys, z: Sys, w: nat) {
    && z.log == y.log && z.committed == y.committed && Busy(y, w) && Busy(z, w)
    && z.workers[w] == y.workers[w].(phase := z.workers[w].phase) && z.workers[w].phase.at == y.workers[w].phase.at
  }

  lemma ProcessesOn(y: Sys, z: Sys, end: Sys, w: nat, next: Db, handling: Handling)
    requires GoesOn(y, z, w) && Processes(z, end, w, next, handling)
    ensures Processes(y, end, w, next, handling)
  {
    hide Sensible;
  }

  /** What `Process` comes to after the transaction. */
  ghost function StillToDo(z: Sys, w: nat, seen: bool): (Db, Handling)
    requires Busy(z, w)
  {
    match z.workers[w].phase
    case Turning(_, reason) => Refuse(z.db, EventOf(z, w), reason)
    case Failing(_) => (z.db, if EventOf(z, w).requestId in z.db.requests then AlreadyKnown else Error)
    case _ => (z.db, if seen then AlreadyKnown else MadeOrder)
  }

  /** The transaction, and what its outcome means to `Process`; a request that was seen is acknowledged at once. */
  lemma TransactingOn(y: Sys, w: nat, now: int, keys: Keys, locked: set<nat>)
    requires Enabled(y, Transact(w, now, keys, locked, false)) && ProcessKeys(y.db, EventOf(y, w), keys)
    requires y.workers[w].phase.seen == (EventOf(y, w).requestId in y.db.requests)
    ensures var z := Next(y, Transact(w, now, keys, locked, false));
      && GoesOn(y, z, w)
      && Process(y.db, EventOf(y, w), now, keys, locked) == StillToDo(z, w, y.workers[w].phase.seen)
      && (z.workers[w].phase.Turning? || z.workers[w].phase.Failing? || z.workers[w].phase.Processed?)
      && (y.workers[w].phase.seen ==> z.workers[w].phase.Processed?)
  {
    hide TrimSpace, CreateBody, Refuse, Merged, FreshKeys, Normal, Accepted;
    var event := EventOf(y, w);
    CommandIsNormal(event.items);
    NotMadeKeeps(y.db, event, Merged(event.items), now, keys, locked);
    NeverDuplicate(y.db, event, Merged(event.items), now, keys, locked);
    var z := Next(y, Transact(w, now, keys, locked, false));
    assert GoesOn(y, z, w) && EventOf(z, w) == event;
    var (next, outcome) := CreateFor(y.db, event, now, keys, locked);
    assert z.db == next && z.workers[w].phase == AfterCreate(y.workers[w].phase.at, outcome, false);
    assert !outcome.Made? ==> next == y.db;
  }

  lemma NeverDuplicate(db: Db, event: Event, lines: seq<Item>, now: int, keys: Keys, locked: set<nat>)
    requires Normal(lines) && FreshKeys(db, keys, |lines|)
    ensures !CreateBody(db, event, lines, now, keys, locked).1.Duplicate?
  {
    hide PriceFrom, ReserveFrom, OrderNoTaken, AllListed;
  }

  lemma TransactingAlone(y: Sys, w: nat, now: int, keys: Keys, locked: set<nat>) returns (steps: seq<Step>)
    requires Enabled(y, Transact(w, now, keys, locked, false)) && ProcessKeys(y.db, EventOf(y, w), keys)
    requires y.workers[w].phase.seen == (EventOf(y, w).requestId in y.db.requests)
    ensures Legal(y, steps)
    ensures var (next, handling) := Process(y.db, EventOf(y, w), now, keys, locked);
      Processes(y, RunOn(y, steps), w, next, handling)
  {
    hide Process, Refuse, Next, Enabled, Sensible, ProcessKeys;
    TransactingOn(y, w, now, keys, locked);
    var step := Transact(w, now, keys, locked, false);
    var z := Next(y, step);
    var (next, handling) := Process(y.db, EventOf(y, w), now, keys, locked);
    var rest: seq<Step> := [];
    if z.workers[w].phase.Turning? {
      RejectingAlone(z, w);
      rest := [InsertRejection(w)] + [];
      OneStep(z, InsertRejection(w), []);
    } else if z.workers[w].phase.Failing? {
      FailingAlone(z, w);
      rest := [LookAgain(w)] + [];
      OneStep(z, LookAgain(w), []);
    }
    ProcessesOn(y, z, RunOn(z, rest), w, next, handling);
    steps := [step] + rest;
    OneStep(y, step, rest);
  }

  /** A worker that nothing interrupts does in its steps what `Process` does in one. */
  lemma AloneIsProcess(y: Sys, w: nat, now: int, keys: Keys, locked: set<nat>) returns (steps: seq<Step>)
    requires Busy(y, w) && y.workers[w].phase.Got? && ProcessKeys(y.db, EventOf(y, w), keys)
    ensures Legal(y, steps)
    ensures var (next, handling) := Process(y.db, EventOf(y, w), now, keys, locked);
      Processes(y, RunOn(y, steps), w, next, handling)
  {
    hide CreateOrder, Refuse, Merged, FreshKeys, Normal, Accepted, TrimSpace, Processes;
    var (next, handling) := Process(y.db, EventOf(y, w), now, keys, locked);
    if Normalized(EventOf(y, w).items).None? {
      var z := Next(y, TurnAway(w));
      assert GoesOn(y, z, w);
      RejectingAlone(z, w);
      OneStep(z, InsertRejection(w), []);
      ProcessesOn(y, z, Next(z, InsertRejection(w)), w, next, handling);
      steps := [TurnAway(w)] + ([InsertRejection(w)] + []);
      OneStep(y, TurnAway(w), [InsertRejection(w)] + []);
    } else {
      var z := Next(y, Look(w));
      assert GoesOn(y, z, w);
      var rest := TransactingAlone(z, w, now, keys, locked);
      ProcessesOn(y, z, RunOn(z, rest), w, next, handling);
      steps := [Look(w)] + rest;
      OneStep(y, Look(w), rest);
    }
  }
}

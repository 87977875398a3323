/**
 * Order commands on their way: a topic that delivers each message at least once to workers that read,
 * transact, fall back and commit in separate steps, and that may stop and start over at any point.
 */
module Delivery {
  import opened Words
  import opened Ascending
  import opened Cart
  import opened Tables
  import opened Orders
  import opened Payments
  import opened ShopInvariant
  import opened Reserving
  import opened Keeping
  import Runs = ShopRuns

  datatype Message = Command(event: Event) | Garbage

  datatype Place = Place(partition: nat, offset: nat)

  /** Where a worker is with the message it has fetched. */
  datatype Phase =
    | Idle
    | Got(at: Place)
    | Checked(at: Place, seen: bool)
    | Turning(at: Place, reason: Reason)
    | Failing(at: Place)
    | Processed(at: Place)

  /** A worker and its reader: the next offset of every partition it was assigned. */
  datatype Worker = Worker(next: map<nat, nat>, phase: Phase)

  datatype Sys = Sys(db: Db, log: map<nat, seq<Message>>, committed: map<nat, nat>, workers: map<nat, Worker>)

  const RESTARTED := Worker(map[], Idle)

  datatype Step =
    | Publish(partition: nat, message: Message)
    | Assign(w: nat, partition: nat)
    | Restart(w: nat)
    | Fetch(w: nat, partition: nat)
    | TurnAway(w: nat)
    | Look(w: nat)
    | Transact(w: nat, now: int, keys: Keys, locked: set<nat>, lost: bool)    // a commit whose reply may be lost
    | Abort(w: nat)
    | InsertRejection(w: nat)
    | LookAgain(w: nat)
    | Commit(w: nat)
    | Other(step: Runs.Step)

  function LogOf(y: Sys, p: nat): seq<Message> {
    if p in y.log then y.log[p] else []
  }

  function Committed(y: Sys, p: nat): nat {
    if p in y.committed then y.committed[p] else 0
  }

  /** A command that `Process` does not turn away with an error before it looks at the items. */
  predicate Sensible(m: Message) {
    m.Command? && m.event.buyer != 0 && TrimSpace(m.event.requestId) != ""
  }

  predicate Has(log: map<nat, seq<Message>>, at: Place) {
    at.partition in log && at.offset < |log[at.partition]|
  }

  function At(log: map<nat, seq<Message>>, at: Place): Message
    requires Has(log, at)
  {
    log[at.partition][at.offset]
  }

  /** The worker is busy with a sensible command. */
  ghost predicate Busy(y: Sys, w: nat) {
    && w in y.workers && !y.workers[w].phase.Idle?
    && Has(y.log, y.workers[w].phase.at) && Sensible(At(y.log, y.workers[w].phase.at))
  }

  function EventOf(y: Sys, w: nat): Event
    requires Busy(y, w)
  {
    At(y.log, y.workers[w].phase.at).event
  }

  // ---- the steps -----------------------------------------------------------------------------

  ghost predicate Enabled(y: Sys, step: Step) {
    match step
    case Publish(p, m) => true
    case Assign(w, p) => w in y.workers
    case Restart(w) => true
    case Fetch(w, p) =>
      && w in y.workers && y.workers[w].phase.Idle?
      && p in y.workers[w].next && y.workers[w].next[p] < |LogOf(y, p)|
    case TurnAway(w) => Busy(y, w) && y.workers[w].phase.Got? && Normalized(EventOf(y, w).items).None?
    case Look(w) => Busy(y, w) && y.workers[w].phase.Got? && Normalized(EventOf(y, w).items).Some?
    case Transact(w, now, keys, locked, lost) =>
      && Busy(y, w) && y.workers[w].phase.Checked? && Normalized(EventOf(y, w).items).Some?
      && FreshKeys(y.db, keys, |Merged(EventOf(y, w).items)|)
    case Abort(w) => Busy(y, w) && y.workers[w].phase.Checked?
    case InsertRejection(w) => Busy(y, w) && y.workers[w].phase.Turning?
    case LookAgain(w) => Busy(y, w) && y.workers[w].phase.Failing?
    case Commit(w) => w in y.workers && y.workers[w].phase.Processed?
    case Other(step) => !step.Create? && !step.TurnDown? && Runs.Enabled(y.db, step)
  }

  function SetPhase(y: Sys, w: nat, phase: Phase): Sys
    requires w in y.workers
  {
    y.(workers := y.workers[w := y.workers[w].(phase := phase)])
  }

  /** An error ends the consumer; it is started again with a new reader. */
  function Started(y: Sys, w: nat): Sys {
    y.(workers := y.workers[w := RESTARTED])
  }

  /** The command of a worker as the shop's own step. */
  ghost function ShopStep(y: Sys, step: Step): Runs.Step
    requires Enabled(y, step) && (step.Transact? || step.InsertRejection? || step.Other?)
  {
    match step
    case Transact(w, now, keys, locked, lost) =>
      Runs.Create(EventOf(y, w), Merged(EventOf(y, w).items), now, keys, locked, y.workers[w].phase.seen)
    case InsertRejection(w) => Runs.TurnDown(EventOf(y, w), y.workers[w].phase.reason)
    case Other(step) => step
  }

  /** A business refusal comes from the transaction's own body; any other outcome has to come back from the commit. */
  function AfterCreate(at: Place, outcome: Outcome, lost: bool): Phase {
    match outcome
    case Made => if lost then Failing(at) else Processed(at)
    case Duplicate => if lost then Failing(at) else Processed(at)
    case Refused(reason) => Turning(at, reason)
    case Failed => Failing(at)
  }

  lemma CommandIsNormal(items: seq<Item>)
    requires Normalized(items).Some?
    ensures Normal(Merged(items)) && Merged(items) != []
  {
    MergedIsNormal(items);
    assert items[0].listing == Ids(items)[0];
    assert Ids(items)[0] in Listings(items);
    assert Elements(InOrder(Listings(items))) == Listings(items);
  }

  ghost function Next(y: Sys, step: Step): Sys
    requires Enabled(y, step)
  {
    match step
    case Publish(p, m) => y.(log := y.log[p := LogOf(y, p) + [m]])
    case Assign(w, p) => y.(workers := y.workers[w := y.workers[w].(next := y.workers[w].next[p := Committed(y, p)])])
    case Restart(w) => Started(y, w)
    case Fetch(w, p) =>
      var n := y.workers[w].next[p];
      y.(workers := y.workers[w := Worker(y.workers[w].next[p := n + 1], Got(Place(p, n)))])
    case TurnAway(w) => SetPhase(y, w, Turning(y.workers[w].phase.at, InvalidRequest))
    case Look(w) => SetPhase(y, w, Checked(y.workers[w].phase.at, EventOf(y, w).requestId in y.db.requests))
    case Transact(w, now, keys, locked, lost) =>
      CommandIsNormal(EventOf(y, w).items);
      var c := y.workers[w].phase;
      var (db, outcome) := CreateOrder(y.db, EventOf(y, w), Merged(EventOf(y, w).items), now, keys, locked, c.seen);
      SetPhase(y, w, AfterCreate(c.at, outcome, lost)).(db := db)
    case Abort(w) => SetPhase(y, w, Failing(y.workers[w].phase.at))
    case InsertRejection(w) =>
      var (db, ok) := Reject(y.db, EventOf(y, w), y.workers[w].phase.reason);
      if ok then SetPhase(y, w, Processed(y.workers[w].phase.at)).(db := db) else Started(y, w)
    case LookAgain(w) =>
      if EventOf(y, w).requestId in y.db.requests then SetPhase(y, w, Processed(y.workers[w].phase.at))
      else Started(y, w)
    case Commit(w) =>
      var at := y.workers[w].phase.at;
      SetPhase(y, w, Idle).(committed := y.committed[at.partition := at.offset + 1])
    case Other(step) => y.(db := Runs.Next(y.db, step))
  }

  // ---- the shop under the workers ------------------------------------------------------------

  /** Each step leaves the tables alone or is one of the shop's transactions. */
  lemma ShopMoves(y: Sys, step: Step)
    requires Enabled(y, step)
    ensures if step.Transact? || step.InsertRejection? || step.Other?
            then Runs.Enabled(y.db, ShopStep(y, step)) && Next(y, step).db == Runs.Next(y.db, ShopStep(y, step))
            else Next(y, step).db == y.db
  {
    hide CreateBody, Sensible;
    if step.Transact? { CommandIsNormal(EventOf(y, step.w).items); }
  }

  lemma ShopStays(y: Sys, step: Step)
    requires Inv(y.db) && Enabled(y, step)
    ensures Inv(Next(y, step).db) && Runs.Later(y.db, Next(y, step).db)
  {
    hide Inv, Enabled, Next, Runs.Later, Runs.Next;
    ShopMoves(y, step);
    if step.Transact? || step.InsertRejection? || step.Other? {
      Runs.StepKeeps(y.db, ShopStep(y, step));
      Runs.StepLater(y.db, ShopStep(y, step));
    } else {
      Runs.LaterRefl(y.db);
    }
  }

  // ---- what is done stays done ---------------------------------------------------------------

  /** A sensible command whose request has its row. */
  ghost predicate Done(log: map<nat, seq<Message>>, requests: map<string, Request>, at: Place) {
    Has(log, at) && Sensible(At(log, at)) && At(log, at).event.requestId in requests
  }

  ghost predicate AllDoneBelow(log: map<nat, seq<Message>>, requests: map<string, Request>, at: Place) {
    forall o: nat :: o < at.offset ==> Done(log, requests, Place(at.partition, o))
  }

  ghost predicate InFlight(worker: Worker, at: Place) {
    !worker.phase.Idle? && worker.phase.at == at
  }

  /** Behind a reader's position everything is done, except what the worker is busy with. */
  ghost predicate PositionOk(log: map<nat, seq<Message>>, requests: map<string, Request>, worker: Worker) {
    forall p, o: nat :: p in worker.next && o < worker.next[p] ==>
      Done(log, requests, Place(p, o)) || InFlight(worker, Place(p, o))
  }

  ghost predicate PhaseOk(log: map<nat, seq<Message>>, requests: map<string, Request>, phase: Phase) {
    phase.Idle? ||
    (&& Has(log, phase.at) && AllDoneBelow(log, requests, phase.at)
     && (phase.Got? || Sensible(At(log, phase.at)))
     && (phase.Checked? ==> Normalized(At(log, phase.at).event.items).Some? && (phase.seen ==> Done(log, requests, phase.at)))
     && (phase.Processed? ==> Done(log, requests, phase.at)))
  }

  ghost predicate WorkerOk(log: map<nat, seq<Message>>, requests: map<string, Request>, worker: Worker) {
    PositionOk(log, requests, worker) && PhaseOk(log, requests, worker.phase)
  }

  ghost predicate CommitsOk(y: Sys) {
    forall p :: AllDoneBelow(y.log, y.db.requests, Place(p, Committed(y, p)))
  }

  ghost predicate WorkersOk(y: Sys) {
    forall w :: w in y.workers ==> WorkerOk(y.log, y.db.requests, y.workers[w])
  }

  /** Logs that only grow at their ends. */
  ghost predicate LogGrows(a: map<nat, seq<Message>>, b: map<nat, seq<Message>>) {
    forall at :: Has(a, at) ==> Has(b, at) && At(b, at) == At(a, at)
  }

  lemma WorkerStays(a: map<nat, seq<Message>>, b: map<nat, seq<Message>>, q: map<string, Request>, r: map<string, Request>, worker: Worker)
    requires LogGrows(a, b) && q.Keys <= r.Keys && WorkerOk(a, q, worker)
    ensures WorkerOk(b, r, worker)
  {
  }

  lemma BelowStays(a: map<nat, seq<Message>>, b: map<nat, seq<Message>>, q: map<string, Request>, r: map<string, Request>, at: Place)
    requires LogGrows(a, b) && q.Keys <= r.Keys && AllDoneBelow(a, q, at)
    ensures AllDoneBelow(b, r, at)
  {
  }

  /** What moves in a step: nothing but its own worker, which is all right after it. */
  lemma OthersStay(y: Sys, z: Sys, w: nat)
    requires WorkersOk(y) && LogGrows(y.log, z.log) && y.db.requests.Keys <= z.db.requests.Keys
    requires z.workers == y.workers || (w in z.workers && z.workers == y.workers[w := z.workers[w]]
                                        && WorkerOk(z.log, z.db.requests, z.workers[w]))
    ensures WorkersOk(z)
  {
    hide LogGrows, WorkerOk;
    forall x | x in z.workers ensures WorkerOk(z.log, z.db.requests, z.workers[x]) {
      if z.workers == y.workers || x != w { WorkerStays(y.log, z.log, y.db.requests, z.db.requests, y.workers[x]); }
    }
  }

  lemma CommitsStay(y: Sys, z: Sys)
    requires CommitsOk(y) && LogGrows(y.log, z.log) && y.db.requests.Keys <= z.db.requests.Keys
    requires z.committed == y.committed
    ensures CommitsOk(z)
  {
    forall p ensures AllDoneBelow(z.log, z.db.requests, Place(p, Committed(z, p))) {
      BelowStays(y.log, z.log, y.db.requests, z.db.requests, Place(p, Committed(y, p)));
    }
  }

  // ---- each kind of step ---------------------------------------------------------------------

  /** The worker stays with the message it has. */
  lemma PhaseMoves(log: map<nat, seq<Message>>, q: map<string, Request>, r: map<string, Request>, worker: Worker, phase: Phase)
    requires WorkerOk(log, q, worker) && q.Keys <= r.Keys && !worker.phase.Idle?
    requires !phase.Idle? && phase.at == worker.phase.at && PhaseOk(log, r, phase)
    ensures WorkerOk(log, r, worker.(phase := phase))
  {
  }

  lemma FetchOk(y: Sys, w: nat, p: nat)
    requires WorkersOk(y) && Enabled(y, Fetch(w, p))
    ensures WorkerOk(y.log, y.db.requests, Next(y, Fetch(w, p)).workers[w])
  {
    hide Done;
    assert WorkerOk(y.log, y.db.requests, y.workers[w]);
  }

  lemma AssignOk(y: Sys, w: nat, p: nat)
    requires WorkersOk(y) && CommitsOk(y) && w in y.workers
    ensures WorkerOk(y.log, y.db.requests, Next(y, Assign(w, p)).workers[w])
  {
    hide Done, PhaseOk;
    assert WorkerOk(y.log, y.db.requests, y.workers[w]);
    assert AllDoneBelow(y.log, y.db.requests, Place(p, Committed(y, p)));
  }

  lemma CommitOk(y: Sys, w: nat)
    requires WorkersOk(y) && CommitsOk(y) && Enabled(y, Commit(w))
    ensures WorkersOk(Next(y, Commit(w))) && CommitsOk(Next(y, Commit(w)))
  {
    hide Done;
    var z := Next(y, Commit(w));
    var worker, at := y.workers[w], y.workers[w].phase.at;
    assert WorkerOk(y.log, y.db.requests, worker);
    forall p ensures AllDoneBelow(z.log, z.db.requests, Place(p, Committed(z, p))) {
      assert AllDoneBelow(y.log, y.db.requests, Place(p, Committed(y, p)));
    }
    OthersStay(y, z, w);
  }

  lemma PublishOk(y: Sys, p: nat, m: Message)
    requires WorkersOk(y) && CommitsOk(y)
    ensures LogGrows(y.log, Next(y, Publish(p, m)).log)
    ensures WorkersOk(Next(y, Publish(p, m))) && CommitsOk(Next(y, Publish(p, m)))
  {
    var z := Next(y, Publish(p, m));
    assert LogGrows(y.log, z.log);
    hide LogGrows, WorkersOk, CommitsOk;
    OthersStay(y, z, 0);
    CommitsStay(y, z);
  }

  /** The steps a worker takes with a message once it has it. */
  ghost predicate Works(step: Step, w: nat) {
    || step == TurnAway(w) || step == Look(w) || step == Abort(w) || step == InsertRejection(w) || step == LookAgain(w)
    || (step.Transact? && step.w == w)
  }

  /** It goes on with the same message, or starts over. */
  lemma WorkGoesOn(y: Sys, step: Step, w: nat)
    requires Enabled(y, step) && Works(step, w) && Busy(y, w)
    ensures var z := Next(y, step);
      && w in z.workers
      && (z.workers[w] == RESTARTED
          || (&& !z.workers[w].phase.Idle? && !z.workers[w].phase.Got?
              && z.workers[w] == y.workers[w].(phase := z.workers[w].phase) && z.workers[w].phase.at == y.workers[w].phase.at
              && (z.workers[w].phase.Checked? ==> Normalized(EventOf(y, w).items).Some?)))
  {
    hide Sensible, CreateOrder, Reject, Normalized, Merged;
  }

  lemma WorksBusy(y: Sys, step: Step, w: nat)
    requires Enabled(y, step) && Works(step, w)
    ensures Busy(y, w)
  {
  }

  /** A command the worker has dealt with has its row. */
  lemma ProcessedHasRow(y: Sys, step: Step, w: nat)
    requires WorkersOk(y) && Enabled(y, step) && Works(step, w) && y.db.requests.Keys <= Next(y, step).db.requests.Keys
    ensures w in Next(y, step).workers
    ensures WorkerOk(y.log, Next(y, step).db.requests, Next(y, step).workers[w])
  {
    hide AllDoneBelow, PositionOk, Sensible, Next, Enabled, Works, Normalized;
    WorksBusy(y, step, w);
    WorkGoesOn(y, step, w);
    var z := Next(y, step);
    var worker := y.workers[w];
    assert WorkerOk(y.log, y.db.requests, worker);
    BelowStays(y.log, y.log, y.db.requests, z.db.requests, worker.phase.at);
    if z.workers[w] == RESTARTED {
      FreshWorkerOk(y.log, z.db.requests);
    } else {
      RowIsThere(y, step, w);
      PhaseMoves(y.log, y.db.requests, z.db.requests, worker, z.workers[w].phase);
    }
  }

  lemma RowIsThere(y: Sys, step: Step, w: nat)
    requires Enabled(y, step) && Works(step, w) && Busy(y, w)
    requires y.workers[w].phase.Checked? && y.workers[w].phase.seen ==> EventOf(y, w).requestId in y.db.requests
    ensures w in Next(y, step).workers
    ensures Next(y, step).workers[w].phase.Processed? ==> EventOf(y, w).requestId in Next(y, step).db.requests
    ensures Next(y, step).workers[w].phase.Checked? && Next(y, step).workers[w].phase.seen ==>
              EventOf(y, w).requestId in Next(y, step).db.requests
  {
    hide Sensible, PriceFrom, ReserveFrom, FreshKeys, OrderNoTaken, Normal, Normalized;
  }

  lemma QueueStays(y: Sys, step: Step)
    requires Inv(y.db) && WorkersOk(y) && CommitsOk(y) && Enabled(y, step)
    ensures WorkersOk(Next(y, step)) && CommitsOk(Next(y, step))
  {
    var z := Next(y, step);
    RequestsGrow(y, step);
    hide Inv, WorkersOk, CommitsOk, WorkerOk, LogGrows, Sensible;
    match step
    case Publish(p, m) => PublishOk(y, p, m);
    case Assign(w, p) => AssignOk(y, w, p); LogSame(y.log); OthersStay(y, z, w); CommitsStay(y, z);
    case Restart(w) => FreshWorkerOk(y.log, y.db.requests); LogSame(y.log); OthersStay(y, z, w); CommitsStay(y, z);
    case Fetch(w, p) => FetchOk(y, w, p); LogSame(y.log); OthersStay(y, z, w); CommitsStay(y, z);
    case Commit(w) => CommitOk(y, w);
    case Other(s) => LogSame(y.log); OthersStay(y, z, 0); CommitsStay(y, z);
    case TurnAway(w) => WorkStays(y, step, w);
    case Look(w) => WorkStays(y, step, w);
    case Abort(w) => WorkStays(y, step, w);
    case Transact(w, now, keys, locked, lost) => WorkStays(y, step, w);
    case InsertRejection(w) => WorkStays(y, step, w);
    case LookAgain(w) => WorkStays(y, step, w);
  }

  lemma WorkStays(y: Sys, step: Step, w: nat)
    requires WorkersOk(y) && CommitsOk(y) && Enabled(y, step) && Works(step, w)
    requires y.db.requests.Keys <= Next(y, step).db.requests.Keys
    ensures WorkersOk(Next(y, step)) && CommitsOk(Next(y, step))
  {
    hide WorkersOk, CommitsOk, WorkerOk, LogGrows, Enabled, Next, Works;
    ProcessedHasRow(y, step, w);
    OnlyWorkerMoves(y, step, w);
    LogSame(y.log);
    OthersStay(y, Next(y, step), w);
    CommitsStay(y, Next(y, step));
  }

  lemma OnlyWorkerMoves(y: Sys, step: Step, w: nat)
    requires Enabled(y, step) && Works(step, w)
    ensures var z := Next(y, step);
      z.log == y.log && z.committed == y.committed && w in z.workers && z.workers == y.workers[w := z.workers[w]]
  {
    hide Sensible, CreateOrder, Reject, Normalized, Merged;
  }

  lemma LogSame(log: map<nat, seq<Message>>)
    ensures LogGrows(log, log)
  {
  }

  lemma FreshWorkerOk(log: map<nat, seq<Message>>, requests: map<string, Request>)
    ensures WorkerOk(log, requests, RESTARTED)
  {
  }

  lemma RequestsGrow(y: Sys, step: Step)
    requires Inv(y.db) && Enabled(y, step)
    ensures y.db.requests.Keys <= Next(y, step).db.requests.Keys
    ensures Runs.Extends(y.db.requests, Next(y, step).db.requests)
  {
    ShopStays(y, step);
    hide Inv, Enabled, Next;
  }
}

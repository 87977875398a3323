/** The ten minutes: until when an order can be paid, from when on it expires, and that these are one moment. */
module Deadlines {
  import opened Words
  import opened Ascending
  import opened Sums
  import opened Cart
  import opened Tables
  import opened Orders
  import opened Payments
  import opened ShopInvariant
  import opened Reserving
  import opened Paying
  import opened ShopRuns
  import opened Promises
  import opened Idempotency
  import opened Sweep

  // ---- paying --------------------------------------------------------------------------------

  /** The order waits for its payment and its time is not up. */
  predicate Payable(order: Order, now: int) {
    order.status == Pending && match order.expiresAt case Some(deadline) => now < deadline case None => true
  }

  /** The call names a buyer, an order of theirs, and a key. */
  predicate Names(orders: map<nat, Order>, buyer: nat, rawKey: string, rawOrderNo: string, o: nat) {
    && buyer != 0 && TrimSpace(rawKey) != "" && TrimSpace(rawOrderNo) != ""
    && o in orders && orders[o].orderNo == TrimSpace(rawOrderNo) && orders[o].buyer == buyer
  }

  /** Each answer to a call that names an order, and exactly when it is given. */
  lemma AnsweredExactly(db: Db, buyer: nat, rawKey: string, rawOrderNo: string, now: int, paymentNo: string, o: nat)
    requires Inv(db) && WordTotals(db) && Names(db.orders, buyer, rawKey, rawOrderNo, o)
    ensures var result := Pay(db, buyer, rawKey, rawOrderNo, now, paymentNo).1;
      var key := (buyer, TrimSpace(rawKey));
      if key in db.attempts then
        result == if db.attempts[key].order == o then Done(Receipt(db.attempts[key].paymentNo, db.orders[o].total))
                  else IdempotencyConflict
      else if !Payable(db.orders[o], now) then result == OrderUnavailable
      else if buyer !in db.balances then result == PaymentFailed
      else if db.balances[buyer] < db.orders[o].total then result == InsufficientBalance
      else result == if AttemptRefused(db.attempts, key.1, paymentNo) then PaymentFailed
                     else Done(Receipt(paymentNo, db.orders[o].total))
  {
    hide StockOk, MoneyOk, UsersOk, DebitsOk, RequestsOk, OrdersOk, UniqueOrderNos, Pay, AttemptRefused, Settled;
    SameOrderNoIn(db, TrimSpace(rawOrderNo), buyer, o);
    PayIsPlain(db, buyer, rawKey, rawOrderNo, now, paymentNo);
    if (buyer, TrimSpace(rawKey)) in db.attempts {
      assert AttemptOk((buyer, TrimSpace(rawKey)), db.attempts[(buyer, TrimSpace(rawKey))], db.orders);
    }
  }

  lemma SameOrderNoIn(db: Db, orderNo: string, buyer: nat, o: nat)
    requires Inv(db) && IsOrderOf(db.orders, o, orderNo, buyer)
    ensures HasOrder(db.orders, orderNo, buyer) && OrderOf(db.orders, orderNo, buyer) == o
  {
    NumbersUnique(db);
    hide Inv;
    SameOrderNo(db.orders, orderNo, buyer, o);
  }

  /** Money and key are in order: nothing but the deadline can stop the payment. */
  ghost predicate Affordable(db: Db, buyer: nat, rawKey: string, paymentNo: string, o: nat) {
    && o in db.orders && (buyer, TrimSpace(rawKey)) !in db.attempts
    && buyer in db.balances && db.balances[buyer] >= db.orders[o].total
    && |TrimSpace(rawKey)| <= PAYMENT_KEY_WIDTH && !PaymentNoTaken(db.attempts, paymentNo)
  }

  /** A payment changes the tables exactly when it is affordable and in time, and then the order is paid at that moment. */
  lemma PaysExactlyInTime(db: Db, buyer: nat, rawKey: string, rawOrderNo: string, now: int, paymentNo: string, o: nat)
    requires Inv(db) && WordTotals(db) && Names(db.orders, buyer, rawKey, rawOrderNo, o)
    ensures var next := Pay(db, buyer, rawKey, rawOrderNo, now, paymentNo).0;
      && (next != db <==> Affordable(db, buyer, rawKey, paymentNo, o) && Payable(db.orders[o], now))
      && (next != db ==> next.orders == db.orders[o := db.orders[o].(status := Paid, paidAt := Some(now))])
  {
    hide StockOk, MoneyOk, UsersOk, DebitsOk, RequestsOk, OrdersOk, UniqueOrderNos, AttemptsOk, Pay, PaymentNoTaken;
    SameOrderNoIn(db, TrimSpace(rawOrderNo), buyer, o);
    PayIsPlain(db, buyer, rawKey, rawOrderNo, now, paymentNo);
    if Affordable(db, buyer, rawKey, paymentNo, o) && Payable(db.orders[o], now) {
      assert Settled(db, buyer, TrimSpace(rawKey), o, now, paymentNo).orders[o].status == Paid;
    }
  }

  /** What a payment writes: the money, its ledger row and attempt, and every code held for the order bound to its item and sold. */
  lemma PaymentWrites(db: Db, buyer: nat, rawKey: string, rawOrderNo: string, now: int, paymentNo: string, o: nat)
    requires Inv(db) && WordTotals(db) && Names(db.orders, buyer, rawKey, rawOrderNo, o)
    requires Affordable(db, buyer, rawKey, paymentNo, o) && Payable(db.orders[o], now)
    ensures var next, total := Pay(db, buyer, rawKey, rawOrderNo, now, paymentNo).0, db.orders[o].total;
      && next.balances == db.balances[buyer := db.balances[buyer] - total]
      && next.ledger == db.ledger + [Entry(buyer, -(total as int), db.balances[buyer] - total, ForOrder(o))]
      && next.attempts == db.attempts[(buyer, TrimSpace(rawKey)) := Attempt(paymentNo, o, total, db.orders[o].expiresAt)]
      && next.codes.Keys == db.codes.Keys
      && forall c :: c in db.codes ==> CodePaid(db, next, c, o, now)
  {
    hide StockOk, MoneyOk, UsersOk, DebitsOk, RequestsOk, OrdersOk, UniqueOrderNos, AttemptsOk, Pay, PaymentNoTaken, Bind, Sell, MoveItems;
    SameOrderNoIn(db, TrimSpace(rawOrderNo), buyer, o);
    PayIsPlain(db, buyer, rawKey, rawOrderNo, now, paymentNo);
    var next := Settled(db, buyer, TrimSpace(rawKey), o, now, paymentNo);
    CodesSold(db, next, o, now);
  }

  /** A code held for the order is sold and bound to its item, any other code and binding is as it was. */
  predicate CodePaid(db: Db, next: Db, c: nat, o: nat, now: int)
    requires c in db.codes
  {
    && c in next.codes
    && if db.codes[c].status == Reserved && db.codes[c].order == Some(o) then
         && db.codes[c].item.Some? && c in next.bindings && next.bindings[c] == Binding(db.codes[c].item.value, now)
         && next.codes[c] == Code(db.codes[c].listing, Sold, None, None, None)
       else Lookup(next.bindings, c) == Lookup(db.bindings, c) && next.codes[c] == db.codes[c]
  }

  lemma CodesSold(db: Db, next: Db, o: nat, now: int)
    requires Inv(db) && next.codes == Sell(db.codes, HeldCodes(db.codes, o))
    requires next.bindings == Bind(db.bindings, db.codes, HeldCodes(db.codes, o), now)
    ensures next.codes.Keys == db.codes.Keys && forall c :: c in db.codes ==> CodePaid(db, next, c, o, now)
  {
    hide BooksOk, ItemsOk, Holdings, BindingsOk, Deliveries;
    forall c | c in db.codes ensures CodePaid(db, next, c, o, now) { assert CodeOk(db.codes[c], db.items, db.orders); }
  }

  /** A call that names no order changes nothing and says so. */
  lemma NamelessIsRefused(db: Db, buyer: nat, rawKey: string, rawOrderNo: string, now: int, paymentNo: string)
    requires WordTotals(db) && forall o :: !Names(db.orders, buyer, rawKey, rawOrderNo, o)
    ensures Pay(db, buyer, rawKey, rawOrderNo, now, paymentNo)
            == (db, if buyer == 0 || TrimSpace(rawKey) == "" || TrimSpace(rawOrderNo) == "" then InvalidPayment else OrderUnavailable)
  {
    if HasOrder(db.orders, TrimSpace(rawOrderNo), buyer) {
      var o := OrderOf(db.orders, TrimSpace(rawOrderNo), buyer);
      assert buyer != 0 && TrimSpace(rawKey) != "" && TrimSpace(rawOrderNo) != "" ==> Names(db.orders, buyer, rawKey, rawOrderNo, o);
    }
  }

  // ---- expiring ------------------------------------------------------------------------------

  /** The order waits for its payment and its time is up. */
  predicate Due(order: Order, now: int) {
    order.status == Pending && match order.expiresAt case Some(deadline) => deadline <= now case None => false
  }

  /** A code reserved for the order is on sale again, naming nothing; any other code is as it was. */
  predicate CodeFreed(before: map<nat, Code>, after: map<nat, Code>, c: nat, o: nat)
    requires c in before
  {
    && c in after
    && after[c] == if before[c].status == Reserved && before[c].order == Some(o)
                   then Code(before[c].listing, CodeStatus.Available, None, None, None) else before[c]
  }

  lemma ReleaseFrees(codes: map<nat, Code>, o: nat)
    ensures Release(codes, o).Keys == codes.Keys && forall c :: c in codes ==> CodeFreed(codes, Release(codes, o), c, o)
  {
  }

  /** An order expires exactly when it is pending and its deadline has come; then its reserved codes, and no others, go back on sale. */
  lemma ExpiresExactlyWhenDue(db: Db, o: nat, now: int)
    ensures var next := ExpireOne(db, o, now);
      && (next != db <==> o in db.orders && Due(db.orders[o], now))
      && next.orders == (if o in db.orders && Due(db.orders[o], now) then db.orders[o := db.orders[o].(status := Expired)] else db.orders)
      && (next != db ==> next.codes.Keys == db.codes.Keys && forall c :: c in db.codes ==> CodeFreed(db.codes, next.codes, c, o))
  {
    hide Release, MoveItems, CodeFreed;
    ReleaseFrees(db.codes, o);
    var next := ExpireOne(db, o, now);
    if o in db.orders && Due(db.orders[o], now) {
      assert next.orders[o].status != db.orders[o].status;
    }
  }

  predicate HasStatus(orders: map<nat, Order>, o: nat, status: OrderStatus) {
    o in orders && orders[o].status == status
  }

  /** The order paid for and the order expired: of two that compete for a pending order, the clock decides. */
  lemma PaidOrExpired(db: Db, buyer: nat, rawKey: string, rawOrderNo: string, now: int, paymentNo: string, o: nat)
    requires Inv(db) && WordTotals(db) && Names(db.orders, buyer, rawKey, rawOrderNo, o)
    requires Affordable(db, buyer, rawKey, paymentNo, o) && db.orders[o].status == Pending
    ensures HasStatus(Pay(db, buyer, rawKey, rawOrderNo, now, paymentNo).0.orders, o, Paid)
            <==> !HasStatus(ExpireOne(db, o, now).orders, o, Expired)
  {
    hide Inv, Pay, ExpireOne, Affordable, WordTotals, Names;
    PaysExactlyInTime(db, buyer, rawKey, rawOrderNo, now, paymentNo, o);
    assert o in db.orders by { NamesIt(db.orders, buyer, rawKey, rawOrderNo, o); }
    ExpiresExactlyWhenDue(db, o, now);
    HasDeadline(db, o);
  }

  lemma NamesIt(orders: map<nat, Order>, buyer: nat, rawKey: string, rawOrderNo: string, o: nat)
    requires Names(orders, buyer, rawKey, rawOrderNo, o)
    ensures o in orders
  {
  }

  lemma HasDeadline(db: Db, o: nat)
    requires Inv(db) && o in db.orders
    ensures db.orders[o].expiresAt.Some?
  {
    assert OrderOk(o, db.orders[o], db.items);
  }

  /** The batch of a sweep holds only orders that are due, and leaves one out only when it is full of ones due no later. */
  lemma BatchExactly(orders: map<nat, Order>, ids: seq<nat>, limit: nat, now: int)
    requires DueBatch(orders, ids, limit, now)
    ensures forall k :: 0 <= k < |ids| ==> ids[k] in orders && Due(orders[ids[k]], now)
    ensures forall o :: o in orders && Due(orders[o], now) && o !in ids ==>
      && |ids| == limit
      && forall k :: 0 <= k < |ids| ==>
           orders[ids[k]].expiresAt.value < orders[o].expiresAt.value
           || (orders[ids[k]].expiresAt.value == orders[o].expiresAt.value && ids[k] < o)
  {
    assert forall k :: 0 <= k < |ids| ==> ids[k] in OverdueIn(orders, now);
    forall o | o in orders && Due(orders[o], now) && o !in ids ensures |ids| == limit {
      assert o in OverdueIn(orders, now);
      if |ids| == |OverdueIn(orders, now)| {
        BatchCount(orders, ids);
        SubsetCount(Elements(ids), OverdueIn(orders, now));
      }
    }
  }

  // ---- signing up ----------------------------------------------------------------------------

  /** Somebody new is always let in, and with a password in role user has 500 yuan; anybody known is refused. */
  lemma RegistersExactly(db: Db, user: nat, bonus: bool)
    requires Inv(db)
    ensures var (next, ok) := Register(db, user, bonus);
      if user in db.users then !ok && next == db
      else ok && next == if !bonus then db.(users := db.users + {user})
                         else db.(users := db.users + {user}, balances := db.balances[user := 50_000],
                                  ledger := db.ledger + [Entry(user, 50_000, 50_000, ForRegistration(user))])
  {
    hide StockOk, UniqueOrderNos, OrdersOk, RequestsOk, MoneyOk, AttemptsOk, DebitsOk;
  }

  // ---- runs ----------------------------------------------------------------------------------

  /** An order that is paid was paid before its deadline. */
  predicate PaidInTime(order: Order) {
    order.status == Paid ==> order.paidAt.Some? && (order.expiresAt.Some? ==> order.paidAt.value < order.expiresAt.value)
  }

  ghost predicate AllPaidInTime(orders: map<nat, Order>) {
    forall o :: o in orders ==> PaidInTime(orders[o])
  }

  /** What one transaction may do to an order that is there: pay it in time, expire it when it is due, or leave it. */
  ghost predicate Moves(step: Step, o: nat, before: Order, after: Order) {
    || after == before
    || (step.PayFor? && Payable(before, step.now) && after == before.(status := Paid, paidAt := Some(step.now)))
    || (step.Expire? && step.order == o && Due(before, step.now) && after == before.(status := Expired))
  }

  lemma PayMoves(db: Db, step: Step, o: nat)
    requires Inv(db) && Enabled(db, step) && step.PayFor? && o in Next(db, step).orders
    ensures o in db.orders && Moves(step, o, db.orders[o], Next(db, step).orders[o])
  {
    hide Inv, Pay;
    if p :| Names(db.orders, step.buyer, step.key, step.orderNo, p) {
      PaysExactlyInTime(db, step.buyer, step.key, step.orderNo, step.now, step.paymentNo, p);
    } else {
      NamelessIsRefused(db, step.buyer, step.key, step.orderNo, step.now, step.paymentNo);
    }
  }

  /** A new order: pending for ten minutes from the reading its transaction took. */
  ghost predicate Opens(step: Step, o: nat, order: Order) {
    step.Create? && o == step.keys.order && order.status == Pending && order.expiresAt == Some(step.now + 600_000)
  }

  lemma CreateMoves(db: Db, step: Step, o: nat)
    requires Enabled(db, step) && step.Create? && o in Next(db, step).orders
    ensures if o in db.orders then Next(db, step).orders[o] == db.orders[o] else Opens(step, o, Next(db, step).orders[o])
  {
    hide PriceFrom, ReserveFrom, OrderNoTaken, AllListed;
  }

  /** Each transaction does to each order one of these things. */
  lemma EveryOrderMoves(db: Db, step: Step, o: nat)
    requires Inv(db) && Enabled(db, step) && o in Next(db, step).orders
    ensures if o in db.orders then Moves(step, o, db.orders[o], Next(db, step).orders[o])
            else Opens(step, o, Next(db, step).orders[o])
  {
    hide Inv, Next, Enabled, Moves, Opens;
    match step
    case Create(event, lines, now, keys, locked, seen) => CreateMoves(db, step, o); StaysPut(step, o);
    case PayFor(buyer, key, orderNo, now, paymentNo) => PayMoves(db, step, o);
    case Expire(order, now) => ExpireMoves(db, step, o);
    case TurnDown(event, reason) => OrdersUntouched(db, step); StaysPut(step, o);
    case SignUp(user, bonus) => OrdersUntouched(db, step); StaysPut(step, o);
    case Relist(id, listing) => OrdersUntouched(db, step); StaysPut(step, o);
  }

  lemma StaysPut(step: Step, o: nat)
    ensures forall order :: Moves(step, o, order, order)
  {
  }

  lemma ExpireMoves(db: Db, step: Step, o: nat)
    requires Enabled(db, step) && step.Expire? && o in Next(db, step).orders
    ensures o in db.orders && Moves(step, o, db.orders[o], Next(db, step).orders[o])
  {
    hide ExpireOne;
    ExpiresExactlyWhenDue(db, step.order, step.now);
  }

  lemma OrdersUntouched(db: Db, step: Step)
    requires Enabled(db, step) && (step.TurnDown? || step.SignUp? || step.Relist?)
    ensures Next(db, step).orders == db.orders
  {
    hide Reject, Register, Pay, CreateOrder, ExpireOne, FreshKeys, Normal;
    match step
    case TurnDown(event, reason) => RejectLeaves(db, event, reason);
    case SignUp(user, bonus) => RegisterLeaves(db, user, bonus);
    case Relist(id, listing) =>
  }

  lemma RejectLeaves(db: Db, event: Event, reason: Reason)
    ensures Reject(db, event, reason).0.orders == db.orders
  {
  }

  lemma RegisterLeaves(db: Db, user: nat, bonus: bool)
    ensures Register(db, user, bonus).0.orders == db.orders
  {
    hide Referenced;
  }

  /** In every state of every run each paid order was paid before its deadline. */
  lemma {:induction false} PaidInTimeInRuns(dbs: seq<Db>, steps: seq<Step>, n: nat)
    requires Run(dbs, steps) && n < |dbs| && Inv(dbs[0]) && AllPaidInTime(dbs[0].orders)
    ensures AllPaidInTime(dbs[n].orders)
  {
    hide Inv, Next, Enabled;
    if n > 0 {
      PaidInTimeInRuns(dbs, steps, n - 1);
      Always(dbs, steps, n - 1);
      forall o | o in dbs[n].orders ensures PaidInTime(dbs[n].orders[o]) {
        EveryOrderMoves(dbs[n - 1], steps[n - 1], o);
      }
    }
  }

  ghost predicate Decision(step: Step, o: nat, before: Order, after: Order) {
    Moves(step, o, before, after) && after.status != Pending
  }

  /** An order that has been decided since was decided by one transaction: a payment in time or an expiry in due time. */
  lemma {:induction false} DecidedBy(dbs: seq<Db>, steps: seq<Step>, m: nat, n: nat, o: nat) returns (k: nat)
    requires Run(dbs, steps) && m < n < |dbs| && Inv(dbs[0])
    requires o in dbs[m].orders && dbs[m].orders[o].status == Pending
    requires o in dbs[n].orders && dbs[n].orders[o].status != Pending
    ensures m <= k < n && |dbs| == |steps| + 1 && o in dbs[k].orders && o in dbs[k + 1].orders
    ensures dbs[k].orders[o] == dbs[m].orders[o] && dbs[k + 1].orders[o] == dbs[n].orders[o]
    ensures Decision(steps[k], o, dbs[m].orders[o], dbs[n].orders[o])
  {
    hide Inv, Run, Later, Decision, OrderLater;
    RunBounds(dbs, steps);
    ThereBefore(dbs, steps, m, n, o);
    if dbs[n - 1].orders[o].status == Pending {
      k := n - 1;
      DecidedLast(dbs, steps, m, n, o);
    } else {
      k := DecidedBy(dbs, steps, m, n - 1, o);
    }
  }

  lemma RunBounds(dbs: seq<Db>, steps: seq<Step>)
    requires Run(dbs, steps)
    ensures |dbs| == |steps| + 1
  {
  }

  lemma DecidedLast(dbs: seq<Db>, steps: seq<Step>, m: nat, n: nat, o: nat)
    requires Run(dbs, steps) && m < n < |dbs| && Inv(dbs[0])
    requires o in dbs[m].orders && o in dbs[n - 1].orders && dbs[n - 1].orders[o].status == Pending
    requires o in dbs[n].orders && dbs[n].orders[o].status != Pending
    ensures dbs[n - 1].orders[o] == dbs[m].orders[o] && Decision(steps[n - 1], o, dbs[m].orders[o], dbs[n].orders[o])
  {
    hide Inv, Next, Enabled, Later, Moves;
    Always(dbs, steps, n - 1);
    PendingSince(dbs, steps, m, n - 1, o);
    EveryOrderMoves(dbs[n - 1], steps[n - 1], o);
  }

  lemma ThereBefore(dbs: seq<Db>, steps: seq<Step>, m: nat, n: nat, o: nat)
    requires Run(dbs, steps) && m < n < |dbs| && Inv(dbs[0]) && o in dbs[m].orders
    ensures o in dbs[n - 1].orders && o in dbs[n].orders
    ensures dbs[n - 1].orders[o].status != Pending ==> dbs[n].orders[o] == dbs[n - 1].orders[o]
  {
    hide Inv, Next, Enabled, Later;
    Forever(dbs, steps, m, n - 1);
    Forever(dbs, steps, n - 1, n);
    StillThere(dbs[m], dbs[n - 1], o);
    StillThere(dbs[n - 1], dbs[n], o);
  }

  lemma StillThere(a: Db, b: Db, o: nat)
    requires Later(a, b) && o in a.orders
    ensures o in b.orders && OrderLater(a.orders[o], b.orders[o])
  {
  }

  /** As long as an order is pending it is what it was. */
  lemma {:induction false} PendingSince(dbs: seq<Db>, steps: seq<Step>, m: nat, n: nat, o: nat)
    requires Run(dbs, steps) && m <= n < |dbs| && Inv(dbs[0])
    requires o in dbs[m].orders && o in dbs[n].orders && dbs[n].orders[o].status == Pending
    ensures dbs[n].orders[o] == dbs[m].orders[o]
  {
    hide Inv, Next, Enabled, Later;
    if m < n {
      Forever(dbs, steps, m, n - 1);
      Always(dbs, steps, n - 1);
      StillThere(dbs[m], dbs[n - 1], o);
      EveryOrderMoves(dbs[n - 1], steps[n - 1], o);
      PendingSince(dbs, steps, m, n - 1, o);
    }
  }

  /** No order expires in its first ten minutes, whatever sweeps and clocks do; nor is it paid after them. */
  lemma TenMinutes(dbs: seq<Db>, steps: seq<Step>, j: nat, n: nat) returns (k: nat)
    requires Run(dbs, steps) && j < n < |dbs| && Inv(dbs[0])
    requires steps[j].Create? && steps[j].keys.order in dbs[j + 1].orders
    requires steps[j].keys.order in dbs[n].orders && dbs[n].orders[steps[j].keys.order].status != Pending
    ensures j < k < n
    ensures var o, made := steps[j].keys.order, steps[j].now;
      if dbs[n].orders[o].status == Expired then steps[k].Expire? && steps[k].order == o && steps[k].now >= made + 600_000
      else steps[k].PayFor? && dbs[n].orders[o].paidAt == Some(steps[k].now) && steps[k].now < made + 600_000
  {
    hide Inv, Next, Later;
    var o := steps[j].keys.order;
    assert Enabled(dbs[j], steps[j]);
    Always(dbs, steps, j);
    NewOrder(dbs[j], steps[j]);
    EveryOrderMoves(dbs[j], steps[j], o);
    k := DecidedBy(dbs, steps, j + 1, n, o);
  }

  lemma NewOrder(db: Db, step: Step)
    requires Enabled(db, step) && step.Create?
    ensures step.keys.order !in db.orders
  {
  }
}

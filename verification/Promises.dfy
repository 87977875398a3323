/** What the shop promises, read off the invariant and the runs. */
module Promises {
  import opened Words
  import opened Sums
  import opened Cart
  import opened Tables
  import opened Orders
  import opened Payments
  import opened ShopInvariant
  import opened Reserving
  import opened Paying
  import opened ShopRuns

  // ---- who owns which code -------------------------------------------------------------------

  ghost predicate OwnsForPending(db: Db, i: nat) {
    && i in db.items
    && |HeldFor(db.codes, i)| == db.items[i].quantity
    && (forall c :: c in HeldFor(db.codes, i) ==>
          db.codes[c].listing == db.items[i].listing && db.codes[c].order == Some(db.items[i].order))
    && BoundTo(db.bindings, i) == {}
  }

  ghost predicate OwnsForPaid(db: Db, i: nat) {
    && i in db.items
    && |BoundTo(db.bindings, i)| == db.items[i].quantity
    && (forall c :: c in BoundTo(db.bindings, i) ==>
          c in db.codes && db.codes[c].status == Sold && db.codes[c].listing == db.items[i].listing)
    && HeldFor(db.codes, i) == {}
  }

  ghost predicate OwnsNothing(db: Db, i: nat) {
    HeldFor(db.codes, i) == {} && BoundTo(db.bindings, i) == {}
  }

  /** The item's share in a state, by the status of its order. */
  ghost predicate Owns(db: Db, i: nat) {
    && i in db.items && db.items[i].order in db.orders
    && match db.orders[db.items[i].order].status
       case Pending => OwnsForPending(db, i)
       case Paid => OwnsForPaid(db, i)
       case Expired => OwnsNothing(db, i)
  }

  lemma OwnsAlways(db: Db, i: nat)
    requires StockOk(db) && i in db.items
    ensures Owns(db, i)
  {
    hide BindingsOk;
    HeldForOrder(db.codes, db.items, db.orders, i);
    BoundIsSold(db.bindings, db.codes, db.items, i);
  }

  lemma BoundIsSold(bindings: map<nat, Binding>, codes: map<nat, Code>, items: map<nat, OrderItem>, i: nat)
    requires BindingsOk(bindings, codes, items) && i in items
    ensures forall c :: c in BoundTo(bindings, i) ==> c in codes && codes[c].status == Sold && codes[c].listing == items[i].listing
  {
  }

  /** In every state of every run each item of a pending order owns exactly its quantity of reserved
      codes of its listing, each item of a paid order exactly its quantity of sold ones, an expired
      order's items nothing; and no code serves two items. */
  lemma OwnershipInRuns(dbs: seq<Db>, steps: seq<Step>, n: nat)
    requires Run(dbs, steps) && n < |dbs| && Inv(dbs[0])
    ensures forall i :: i in dbs[n].items ==> Owns(dbs[n], i)
    ensures forall i, j :: i != j ==> HeldFor(dbs[n].codes, i) !! HeldFor(dbs[n].codes, j)
    ensures forall i, j :: i != j ==> BoundTo(dbs[n].bindings, i) !! BoundTo(dbs[n].bindings, j)
    ensures forall i, j :: HeldFor(dbs[n].codes, i) !! BoundTo(dbs[n].bindings, j)
  {
    Always(dbs, steps, n);
    var db := dbs[n];
    StockFromInv(db);
    hide Inv, Run;
    forall i | i in db.items ensures Owns(db, i) { OwnsAlways(db, i); }
    hide StockOk, Owns;
    forall i, j ensures HeldFor(db.codes, i) !! BoundTo(db.bindings, j) { HeldNotBound(db, i, j); }
  }

  lemma HeldNotBound(db: Db, i: nat, j: nat)
    requires Inv(db)
    ensures HeldFor(db.codes, i) !! BoundTo(db.bindings, j)
  {
  }

  // ---- conservation of codes -----------------------------------------------------------------

  function OfListing(codes: map<nat, Code>, l: nat): set<nat> {
    set c | c in codes && codes[c].listing == l
  }

  function InStatus(codes: map<nat, Code>, l: nat, status: CodeStatus): set<nat> {
    set c | c in codes && codes[c].listing == l && codes[c].status == status
  }

  lemma StatusesAddUp(codes: map<nat, Code>, l: nat)
    ensures |OfListing(codes, l)| == |InStatus(codes, l, Submitted)| + |InStatus(codes, l, Available)|
                                   + |InStatus(codes, l, Reserved)| + |InStatus(codes, l, Sold)|
  {
    var a, b := InStatus(codes, l, Submitted) + InStatus(codes, l, Available), InStatus(codes, l, Reserved) + InStatus(codes, l, Sold);
    assert a !! b;
    assert OfListing(codes, l) == a + b;
  }

  /** Codes move between statuses; the number of codes of a listing stays what it was, and the sold
      ones stay sold. */
  lemma StockConserved(dbs: seq<Db>, steps: seq<Step>, m: nat, n: nat, l: nat)
    requires Run(dbs, steps) && m <= n < |dbs| && Inv(dbs[0])
    ensures |InStatus(dbs[n].codes, l, Submitted)| + |InStatus(dbs[n].codes, l, Available)|
              + |InStatus(dbs[n].codes, l, Reserved)| + |InStatus(dbs[n].codes, l, Sold)|
         == |InStatus(dbs[m].codes, l, Submitted)| + |InStatus(dbs[m].codes, l, Available)|
              + |InStatus(dbs[m].codes, l, Reserved)| + |InStatus(dbs[m].codes, l, Sold)|
    ensures InStatus(dbs[m].codes, l, Sold) <= InStatus(dbs[n].codes, l, Sold)
  {
    Forever(dbs, steps, m, n);
    StatusesAddUp(dbs[m].codes, l);
    StatusesAddUp(dbs[n].codes, l);
    hide Inv, Run;
    assert OfListing(dbs[n].codes, l) == OfListing(dbs[m].codes, l);
  }

  // ---- one order a request -------------------------------------------------------------------

  /** Every order was made for exactly one request, and every created row names exactly one order of
      the same buyer. */
  lemma OneOrderPerRequest(dbs: seq<Db>, steps: seq<Step>, n: nat, o: nat) returns (id: string)
    requires Run(dbs, steps) && n < |dbs| && Inv(dbs[0]) && o in dbs[n].orders
    ensures id in dbs[n].requests && dbs[n].requests[id] == Created(dbs[n].orders[o].buyer, o)
    ensures forall q :: q in dbs[n].requests && dbs[n].requests[q].Created? && dbs[n].requests[q].order == o ==> q == id
  {
    Always(dbs, steps, n);
    hide StockOk, MoneyOk, AttemptsOk, DebitsOk, UsersOk, OrdersOk, UniqueOrderNos, Run;
    var db := dbs[n];
    assert o in Requested(db.requests);
    id :| id in db.requests && db.requests[id].Created? && db.requests[id].order == o;
    forall q | q in db.requests && db.requests[q].Created? && db.requests[q].order == o ensures q == id {
      assert SameOrder(db.requests, q, id);
    }
  }

  /** A row, once written, is the row for ever: a created request stays created for its order, a
      rejected one never gets an order. */
  lemma RowsAreFinal(dbs: seq<Db>, steps: seq<Step>, m: nat, n: nat, id: string)
    requires Run(dbs, steps) && m <= n < |dbs| && Inv(dbs[0]) && id in dbs[m].requests
    ensures id in dbs[n].requests && dbs[n].requests[id] == dbs[m].requests[id]
  {
    Forever(dbs, steps, m, n);
  }

  // ---- money ---------------------------------------------------------------------------------

  function DebitsFor(ledger: seq<Entry>, o: nat): set<nat> {
    set n | 0 <= n < |ledger| && ledger[n].reference == ForOrder(o)
  }

  lemma SingleDebit(ledger: seq<Entry>, orders: map<nat, Order>, o: nat)
    requires DebitsOk(ledger, orders) && o in orders
    ensures |DebitsFor(ledger, o)| == if orders[o].status == Paid then 1 else 0
    ensures forall n :: n in DebitsFor(ledger, o) ==> ledger[n].amount == -(orders[o].total as int) && ledger[n].user == orders[o].buyer
  {
    forall n | n in DebitsFor(ledger, o)
      ensures ledger[n].amount == -(orders[o].total as int) && ledger[n].user == orders[o].buyer && orders[o].status == Paid
    {
      assert DebitOk(ledger[n], orders);
    }
    if orders[o].status == Paid {
      var n :| 0 <= n < |ledger| && ledger[n].reference.ForOrder? && ledger[n].reference.order == o;
      assert DebitsFor(ledger, o) == {n};
    } else {
      assert DebitsFor(ledger, o) == {};
    }
  }

  /** Price times quantity, item by item. */
  function Worth(items: map<nat, OrderItem>, o: nat): map<nat, nat> {
    map i | i in items && items[i].order == o :: items[i].price * items[i].quantity
  }

  /** In every state of every run: an order's total is the sum of price times quantity over its
      items, within 64 bits; a balance is its opening plus its ledger and what the ledger last wrote;
      and a paid order has exactly one debit, of its total, on its buyer, every other order none. */
  lemma MoneyInRuns(dbs: seq<Db>, steps: seq<Step>, n: nat)
    requires Run(dbs, steps) && n < |dbs| && Inv(dbs[0])
    ensures forall o :: o in dbs[n].orders ==>
      dbs[n].orders[o].total == Total(Worth(dbs[n].items, o)) < TWO_64
    ensures forall u :: u in dbs[n].balances ==>
      && dbs[n].balances[u] == Opening(dbs[n].opening, u) + Net(dbs[n].ledger, u)
      && (LastAfter(dbs[n].ledger, u).Some? ==> LastAfter(dbs[n].ledger, u).value == dbs[n].balances[u])
    ensures forall o :: o in dbs[n].orders ==> |DebitsFor(dbs[n].ledger, o)| == if dbs[n].orders[o].status == Paid then 1 else 0
    ensures forall o, k :: o in dbs[n].orders && k in DebitsFor(dbs[n].ledger, o) ==>
      dbs[n].ledger[k].amount == -(dbs[n].orders[o].total as int) && dbs[n].ledger[k].user == dbs[n].orders[o].buyer
  {
    Always(dbs, steps, n);
    hide Run;
    var db := dbs[n];
    forall o | o in db.orders
      ensures db.orders[o].total == Total(Worth(db.items, o)) < TWO_64
    {
      TotalIsSum(db.orders, db.items, o);
    }
    hide CodesOk, ItemsOk, Holdings, BindingsOk, Deliveries, OrdersOk, RequestsOk, AttemptsOk, DebitsOk, UsersOk, UniqueOrderNos;
    forall o | o in db.orders
      ensures |DebitsFor(db.ledger, o)| == if db.orders[o].status == Paid then 1 else 0
      ensures forall k :: k in DebitsFor(db.ledger, o) ==>
        db.ledger[k].amount == -(db.orders[o].total as int) && db.ledger[k].user == db.orders[o].buyer
    {
      SingleDebit(db.ledger, db.orders, o);
    }
  }

  lemma TotalIsSum(orders: map<nat, Order>, items: map<nat, OrderItem>, o: nat)
    requires OrdersOk(orders, items) && ItemsOk(items, orders) && o in orders
    ensures orders[o].total == Total(Worth(items, o)) < TWO_64
  {
    assert OrderOk(o, orders[o], items);
    LinesAreWorth(items, orders, o);
  }

  lemma LinesAreWorth(items: map<nat, OrderItem>, orders: map<nat, Order>, o: nat)
    requires ItemsOk(items, orders)
    ensures Lines(items, o) == Worth(items, o)
  {
  }

  // ---- payments ------------------------------------------------------------------------------

  function HeldByAny(codes: map<nat, Code>, ids: set<nat>): set<nat> {
    set c | c in codes && codes[c].status == Reserved && codes[c].item.Some? && codes[c].item.value in ids
  }

  lemma {:induction false} HeldAddUp(codes: map<nat, Code>, items: map<nat, OrderItem>, ids: set<nat>)
    requires forall i :: i in ids ==> i in items && |HeldFor(codes, i)| == items[i].quantity
    ensures |HeldByAny(codes, ids)| == Total(Quantities(items, ids))
  {
    if ids == {} {
      assert HeldByAny(codes, ids) == {};
      assert Quantities(items, ids) == map[];
    } else {
      var i :| i in ids;
      HeldAddUp(codes, items, ids - {i});
      TakeOut(Quantities(items, ids), i);
      assert Quantities(items, ids) - {i} == Quantities(items, ids - {i});
      HeldSplit(codes, ids, i);
    }
  }

  lemma HeldSplit(codes: map<nat, Code>, ids: set<nat>, i: nat)
    requires i in ids
    ensures |HeldByAny(codes, ids)| == |HeldByAny(codes, ids - {i})| + |HeldFor(codes, i)|
  {
    assert HeldByAny(codes, ids) == HeldByAny(codes, ids - {i}) + HeldFor(codes, i);
    assert HeldByAny(codes, ids - {i}) !! HeldFor(codes, i);
  }

  /** A pending order holds exactly as many codes as its items add up to, and at least one. */
  lemma HeldIsExpected(db: Db, o: nat)
    requires Inv(db) && o in db.orders && db.orders[o].status == Pending
    ensures |HeldCodes(db.codes, o)| == Expected(db.items, o) == Total(Quantities(db.items, ItemsOf(db.items, o)))
    ensures 0 < Expected(db.items, o) < TWO_63
  {
    hide CodesOk, ItemsOk, Holdings, BindingsOk, Deliveries, RequestsOk, MoneyOk, AttemptsOk, DebitsOk, UsersOk, UniqueOrderNos;
    var ids := ItemsOf(db.items, o);
    OwnItemsHeld(db.codes, db.items, db.orders, o);
    HeldAddUp(db.codes, db.items, ids);
    HeldOfOrder(db.codes, db.items, db.orders, o);
    Fewer(HeldCodes(db.codes, o), db.codes);
    assert OrderOk(o, db.orders[o], db.items);
    hide OrdersOk, OrderOk;
    var i :| i in ids;
    AtLeastOne(Quantities(db.items, ids), i);
    hide HeldFor, HeldCodes, Quantities;
    SmallWord(Total(Quantities(db.items, ids)));
  }

  lemma SmallWord(n: nat)
    requires n < TWO_63
    ensures n % TWO_64 == n
  {
  }

  lemma OwnItemsHeld(codes: map<nat, Code>, items: map<nat, OrderItem>, orders: map<nat, Order>, o: nat)
    requires ItemsOk(items, orders) && Holdings(codes, items) && o in orders && orders[o].status == Pending
    ensures forall i :: i in ItemsOf(items, o) ==> |HeldFor(codes, i)| == items[i].quantity > 0
  {
  }

  lemma HeldOfOrder(codes: map<nat, Code>, items: map<nat, OrderItem>, orders: map<nat, Order>, o: nat)
    requires CodesOk(codes, items, orders)
    ensures HeldByAny(codes, ItemsOf(items, o)) == HeldCodes(codes, o)
  {
  }

  lemma Fewer(some: set<nat>, codes: map<nat, Code>)
    requires some <= codes.Keys
    ensures |some| <= |codes|
  {
    assert codes.Keys == some + (codes.Keys - some);
    assert |codes.Keys| == |codes|;
  }

  /** The payment a reader expects: no counting of codes, and no failure once the money is there,
      other than a key that is too wide or a random payment number that is taken. */
  ghost function PlainPay(db: Db, buyer: nat, rawKey: string, rawOrderNo: string, now: int, paymentNo: string): (Db, Payment) {
    var orderNo, key := TrimSpace(rawOrderNo), TrimSpace(rawKey);
    if buyer == 0 || orderNo == "" || key == "" then (db, InvalidPayment)
    else if !HasOrder(db.orders, orderNo, buyer) then (db, OrderUnavailable)
    else
      var o := OrderOf(db.orders, orderNo, buyer);
      if (buyer, key) in db.attempts then
        (db, if db.attempts[(buyer, key)].order == o then Done(ReceiptOf(db.attempts[(buyer, key)])) else IdempotencyConflict)
      else if !Open(db.orders[o], now) then (db, OrderUnavailable)
      else if buyer !in db.balances || (db.balances[buyer] >= db.orders[o].total && AttemptRefused(db.attempts, key, paymentNo)) then (db, PaymentFailed)
      else if db.balances[buyer] < db.orders[o].total then (db, InsufficientBalance)
      else (Settled(db, buyer, key, o, now, paymentNo), Done(Receipt(paymentNo, db.orders[o].total)))
  }

  /** In reachable states the payment transaction is the plain one: the count check and the late
      missing-item and duplicate-binding failures are unreachable, and failing calls change nothing. */
  lemma PayIsPlain(db: Db, buyer: nat, rawKey: string, rawOrderNo: string, now: int, paymentNo: string)
    requires Inv(db) && WordTotals(db)
    ensures Pay(db, buyer, rawKey, rawOrderNo, now, paymentNo) == PlainPay(db, buyer, rawKey, rawOrderNo, now, paymentNo)
  {
    var orderNo, key := TrimSpace(rawOrderNo), TrimSpace(rawKey);
    hide StockOk, BooksOk, Settle, Expected;
    if HasOrder(db.orders, orderNo, buyer) {
      var o := OrderOf(db.orders, orderNo, buyer);
      if Open(db.orders[o], now) {
        HeldIsExpected(db, o);
        if buyer in db.balances && db.orders[o].total <= db.balances[buyer] {
          SettleSucceeds(db, buyer, key, o, now, paymentNo);
        }
      }
    }
  }

  /** The only thing a payment does to the codes. */
  lemma PayEffect(db: Db, buyer: nat, rawKey: string, rawOrderNo: string, now: int, paymentNo: string) returns (o: nat)
    requires Inv(db) && WordTotals(db)
    ensures var codes := Pay(db, buyer, rawKey, rawOrderNo, now, paymentNo).0.codes;
            codes == db.codes || codes == Sell(db.codes, HeldCodes(db.codes, o))
  {
    hide Inv, Settle, Sell, Pay;
    o := PayCases(db, buyer, rawKey, rawOrderNo, now, paymentNo);
    if Pay(db, buyer, rawKey, rawOrderNo, now, paymentNo).0 != db {
      SettleSucceeds(db, buyer, TrimSpace(rawKey), o, now, paymentNo);
    }
  }
}

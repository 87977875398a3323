/** Calling again: retried payments, reused keys, and exactly when an order is made. */
module Idempotency {
  import opened Words
  import opened Ascending
  import opened Cart
  import opened Tables
  import opened Orders
  import opened Payments
  import opened ShopInvariant
  import opened Reserving
  import opened Paying
  import opened ShopRuns
  import opened Promises

  lemma SameOrderNo(orders: map<nat, Order>, orderNo: string, buyer: nat, o: nat)
    requires UniqueOrderNos(orders) && IsOrderOf(orders, o, orderNo, buyer)
    ensures HasOrder(orders, orderNo, buyer) && OrderOf(orders, orderNo, buyer) == o
  {
  }

  lemma NumbersUnique(db: Db)
    requires Inv(db)
    ensures UniqueOrderNos(db.orders) && AttemptsOk(db.attempts, db.orders) && WordTotals(db)
  {
  }

  /** What a successful payment leaves behind. */
  ghost predicate PaidBy(db: Db, buyer: nat, rawKey: string, rawOrderNo: string, receipt: Receipt) {
    var orderNo, key := TrimSpace(rawOrderNo), TrimSpace(rawKey);
    && buyer != 0 && orderNo != "" && key != ""
    && (buyer, key) in db.attempts
    && ReceiptOf(db.attempts[(buyer, key)]) == receipt
    && IsOrderOf(db.orders, db.attempts[(buyer, key)].order, orderNo, buyer)
  }

  lemma PayLeaves(db: Db, buyer: nat, rawKey: string, rawOrderNo: string, now: int, paymentNo: string)
    requires Inv(db) && WordTotals(db)
    ensures var (next, result) := Pay(db, buyer, rawKey, rawOrderNo, now, paymentNo);
            result.Done? ==> PaidBy(next, buyer, rawKey, rawOrderNo, result.receipt)
  {
    hide Inv, Pay;
    PayIsPlain(db, buyer, rawKey, rawOrderNo, now, paymentNo);
  }

  lemma PaidByLasts(a: Db, b: Db, buyer: nat, rawKey: string, rawOrderNo: string, receipt: Receipt)
    requires Later(a, b) && PaidBy(a, buyer, rawKey, rawOrderNo, receipt)
    ensures PaidBy(b, buyer, rawKey, rawOrderNo, receipt)
  {
  }

  lemma PaidByAnswers(db: Db, buyer: nat, rawKey: string, rawOrderNo: string, receipt: Receipt, now: int, paymentNo: string)
    requires Inv(db) && WordTotals(db) && PaidBy(db, buyer, rawKey, rawOrderNo, receipt)
    ensures Pay(db, buyer, rawKey, rawOrderNo, now, paymentNo) == (db, Done(receipt))
  {
    hide StockOk, MoneyOk, UsersOk, DebitsOk, RequestsOk, AttemptsOk, OrdersOk, UniqueOrderNos;
    SameOrderNo(db.orders, TrimSpace(rawOrderNo), buyer, db.attempts[(buyer, TrimSpace(rawKey))].order);
  }

  /** Once a payment call succeeded, the same call made at any later point of any run, at any time
      and with any fresh payment number, returns the same receipt and changes nothing. */
  lemma RetryReturnsTheReceipt(dbs: seq<Db>, steps: seq<Step>, m: nat, n: nat,
                               buyer: nat, key: string, orderNo: string, now: int, paymentNo: string,
                               later: int, otherNo: string)
    requires Run(dbs, steps) && m < n < |dbs| && Inv(dbs[0])
    requires steps[m] == PayFor(buyer, key, orderNo, now, paymentNo)
    ensures WordTotals(dbs[n]) && WordTotals(dbs[m])
    ensures var result := Pay(dbs[m], buyer, key, orderNo, now, paymentNo).1;
            result.Done? ==> Pay(dbs[n], buyer, key, orderNo, later, otherNo) == (dbs[n], result)
  {
    Always(dbs, steps, m);
    Always(dbs, steps, n);
    Forever(dbs, steps, m + 1, n);
    NumbersUnique(dbs[n]);
    NumbersUnique(dbs[m]);
    hide Inv, Later, Pay;
    assert Next(dbs[m], steps[m]) == Pay(dbs[m], buyer, key, orderNo, now, paymentNo).0;
    RetryAnswers(dbs[m], dbs[n], buyer, key, orderNo, now, paymentNo, later, otherNo);
  }

  lemma RetryAnswers(a: Db, b: Db, buyer: nat, key: string, orderNo: string, now: int, paymentNo: string, later: int, otherNo: string)
    requires Inv(a) && WordTotals(a) && Inv(b) && WordTotals(b)
    requires Later(Pay(a, buyer, key, orderNo, now, paymentNo).0, b)
    ensures var result := Pay(a, buyer, key, orderNo, now, paymentNo).1;
            result.Done? ==> Pay(b, buyer, key, orderNo, later, otherNo) == (b, result)
  {
    hide Inv, Later, Pay, PaidBy;
    PayLeaves(a, buyer, key, orderNo, now, paymentNo);
    var (next, result) := Pay(a, buyer, key, orderNo, now, paymentNo);
    if result.Done? {
      PaidByLasts(next, b, buyer, key, orderNo, result.receipt);
      PaidByAnswers(b, buyer, key, orderNo, result.receipt, later, otherNo);
    }
  }

  /** A used key is refused for every other order of the buyer, and a paid or expired order is
      refused under every new key; both leave the tables as they are. */
  lemma ReuseIsRefused(db: Db, buyer: nat, rawKey: string, rawOrderNo: string, now: int, paymentNo: string, o: nat)
    requires Inv(db) && WordTotals(db)
    requires buyer != 0 && TrimSpace(rawKey) != "" && TrimSpace(rawOrderNo) != ""
    requires IsOrderOf(db.orders, o, TrimSpace(rawOrderNo), buyer)
    ensures (buyer, TrimSpace(rawKey)) in db.attempts && db.attempts[(buyer, TrimSpace(rawKey))].order != o ==>
              Pay(db, buyer, rawKey, rawOrderNo, now, paymentNo) == (db, IdempotencyConflict)
    ensures (buyer, TrimSpace(rawKey)) !in db.attempts && db.orders[o].status != Pending ==>
              Pay(db, buyer, rawKey, rawOrderNo, now, paymentNo) == (db, OrderUnavailable)
  {
    hide StockOk, MoneyOk, UsersOk, DebitsOk, RequestsOk, AttemptsOk, OrdersOk, UniqueOrderNos;
    SameOrderNo(db.orders, TrimSpace(rawOrderNo), buyer, o);
  }

  /** A call that does not succeed leaves every table as it was. */
  lemma FailureChangesNothing(db: Db, buyer: nat, rawKey: string, rawOrderNo: string, now: int, paymentNo: string)
    requires Inv(db) && WordTotals(db)
    ensures !Pay(db, buyer, rawKey, rawOrderNo, now, paymentNo).1.Done? ==> Pay(db, buyer, rawKey, rawOrderNo, now, paymentNo).0 == db
  {
    hide Inv, Pay;
    PayIsPlain(db, buyer, rawKey, rawOrderNo, now, paymentNo);
  }

  // ---- exactly when an order is made ---------------------------------------------------------

  ghost predicate InStock(codes: map<nat, Code>, lines: seq<Item>, locked: set<nat>) {
    forall k :: 0 <= k < |lines| ==> lines[k].quantity < TWO_63 && |Free(codes, lines[k].listing, locked)| >= lines[k].quantity
  }

  /** Reserving for one listing leaves the free codes of the others alone. */
  lemma OthersStayFree(codes: map<nat, Code>, listing: nat, picked: set<nat>, o: nat, i: nat, until: int, locked: set<nat>, other: nat)
    requires other != listing && forall c :: c in picked ==> c in codes && codes[c].listing == listing
    ensures Free(Hold(codes, picked, o, i, until), other, locked) == Free(codes, other, locked)
  {
  }

  /** So after the first line the rest of a sorted list is in stock exactly when it was before. */
  lemma RestInStock(stage: Stage, listings: map<nat, Listing>, o: nat, until: int,
                    lines: seq<Item>, i: nat, locked: set<nat>, next: Stage)
    requires lines != [] && lines[0].listing in listings && Increasing(Ids(lines))
    requires ReserveLine(stage, listings, o, until, lines[0], i, locked) == Some(next)
    ensures InStock(next.codes, lines[1..], locked) <==> InStock(stage.codes, lines[1..], locked)
  {
    var rest := lines[1..];
    var picked := Lowest(Free(stage.codes, lines[0].listing, locked), lines[0].quantity);
    forall k | 0 <= k < |rest| ensures Free(next.codes, rest[k].listing, locked) == Free(stage.codes, rest[k].listing, locked) {
      assert Ids(lines)[0] < Ids(lines)[k + 1];
      OthersStayFree(stage.codes, lines[0].listing, picked, o, i, until, locked, rest[k].listing);
    }
  }

  lemma InStockCons(codes: map<nat, Code>, lines: seq<Item>, locked: set<nat>)
    requires lines != []
    ensures InStock(codes, lines, locked) <==>
              lines[0].quantity < TWO_63 && |Free(codes, lines[0].listing, locked)| >= lines[0].quantity && InStock(codes, lines[1..], locked)
  {
  }

  /** The loop succeeds exactly when each line finds enough free codes in the tables it started from. */
  lemma {:induction false} ReserveIffInStock(stage: Stage, listings: map<nat, Listing>, o: nat, until: int,
                                             lines: seq<Item>, ids: seq<nat>, locked: set<nat>)
    requires AllListed(listings, lines) && |ids| == |lines| && Increasing(Ids(lines))
    ensures ReserveFrom(stage, listings, o, until, lines, ids, locked).Some? <==> InStock(stage.codes, lines, locked)
    decreases lines
  {
    if lines != [] {
      InStockCons(stage.codes, lines, locked);
      assert Ids(lines[1..]) == Ids(lines)[1..];
      hide InStock, Free;
      var first := ReserveLine(stage, listings, o, until, lines[0], ids[0], locked);
      if first.Some? {
        RestInStock(stage, listings, o, until, lines, ids[0], locked, first.value);
        ReserveIffInStock(first.value, listings, o, until, lines[1..], ids[1..], locked);
      }
    }
  }

  /** An order is made exactly when every listing is on sale, the price fits 64 bits, the stock is
      there, and the keys are free; otherwise nothing changes. */
  lemma MadeExactlyWhen(db: Db, event: Event, lines: seq<Item>, now: int, keys: Keys, locked: set<nat>)
    requires Normal(lines) && FreshKeys(db, keys, |lines|)
    ensures var (next, outcome) := CreateBody(db, event, lines, now, keys, locked);
      && (outcome == Made <==>
            && AllListed(db.listings, lines)
            && (forall k :: 0 <= k < |lines| ==> db.listings[lines[k].listing].active)
            && Cost(db.listings, lines) <= MAX_UINT
            && InStock(db.codes, lines, locked)
            && event.buyer in db.users && !OrderNoTaken(db.orders, keys.orderNo)
            && event.requestId !in db.requests && |event.requestId| <= REQUEST_ID_WIDTH)
      && (outcome != Made ==> next == db)
      && (outcome == Made ==> keys.order in next.orders && next.orders[keys.order].total == Cost(db.listings, lines))
  {
    hide InStock, OrderNoTaken, Cost, PriceFrom, ReserveFrom, AllListed;
    PriceIsCost(db.listings, lines, 0);
    if PriceFrom(db.listings, lines, 0).Priced? {
      ReserveIffInStock(Stage(db.items, db.codes), db.listings, keys.order, now + PAYMENT_WINDOW, lines, keys.items, locked);
    }
  }

  // ---- what expiry undoes --------------------------------------------------------------------

  /** Codes on sale name nothing. */
  ghost predicate Clean(codes: map<nat, Code>) {
    forall c :: c in codes && codes[c].status == Available ==>
      codes[c].order.None? && codes[c].item.None? && codes[c].until.None?
  }

  lemma ReleaseAfterHold(codes: map<nat, Code>, picked: set<nat>, o: nat, i: nat, until: int)
    requires Clean(codes) && forall c :: c in picked ==> c in codes && codes[c].status == Available
    ensures Clean(Hold(codes, picked, o, i, until))
    ensures Release(Hold(codes, picked, o, i, until), o) == Release(codes, o)
  {
  }

  lemma {:induction false} ReleaseAfterReserve(stage: Stage, listings: map<nat, Listing>, o: nat, until: int,
                                               lines: seq<Item>, ids: seq<nat>, locked: set<nat>, done: Stage)
    requires Clean(stage.codes) && AllListed(listings, lines) && |ids| == |lines|
    requires ReserveFrom(stage, listings, o, until, lines, ids, locked) == Some(done)
    ensures Release(done.codes, o) == Release(stage.codes, o)
    decreases lines
  {
    hide Release, Clean, Hold;
    if lines != [] {
      var first := ReserveLine(stage, listings, o, until, lines[0], ids[0], locked).value;
      var free := Free(stage.codes, lines[0].listing, locked);
      ReleaseAfterHold(stage.codes, Lowest(free, lines[0].quantity), o, ids[0], until);
      ReleaseAfterReserve(first, listings, o, until, lines[1..], ids[1..], locked, done);
    }
  }

  lemma NothingHeldYet(db: Db, o: nat)
    requires Inv(db) && o !in db.orders
    ensures Clean(db.codes) && Release(db.codes, o) == db.codes
  {
    hide ItemsOk, Holdings, BindingsOk, Deliveries, BooksOk;
    forall c | c in db.codes ensures !HeldBy(db.codes[c], o) {
      assert CodeOk(db.codes[c], db.items, db.orders);
    }
    forall c | c in db.codes && db.codes[c].status == Available
      ensures db.codes[c].order.None? && db.codes[c].item.None? && db.codes[c].until.None?
    {
      assert CodeOk(db.codes[c], db.items, db.orders);
    }
  }

  /** The rows of a made order: pending, for ten minutes, at the price of its lines, and its codes and items. */
  lemma MadeRows(db: Db, event: Event, lines: seq<Item>, now: int, keys: Keys, locked: set<nat>)
    requires Normal(lines) && FreshKeys(db, keys, |lines|)
    requires CreateBody(db, event, lines, now, keys, locked).1.Made?
    ensures keys.order !in db.orders && AllListed(db.listings, lines) && |keys.items| == |lines|
    ensures var next := CreateBody(db, event, lines, now, keys, locked).0;
      && next.orders == db.orders[keys.order := Order(keys.orderNo, event.buyer, Cost(db.listings, lines), Pending,
                                                      Some(now + PAYMENT_WINDOW), None)]
      && next.requests == db.requests[event.requestId := Created(event.buyer, keys.order)]
      && ReserveFrom(Stage(db.items, db.codes), db.listings, keys.order, now + PAYMENT_WINDOW, lines, keys.items, locked)
         == Some(Stage(next.items, next.codes))
  {
    PriceIsCost(db.listings, lines, 0);
    PricedAreListed(db.listings, lines, 0);
    hide PriceFrom, ReserveFrom, OrderNoTaken, Cost, AllListed;
  }

  /** An order that expires unpaid gives back precisely what making it took: every code is as it was. */
  lemma ExpiryUndoesCreation(db: Db, event: Event, lines: seq<Item>, now: int, keys: Keys, locked: set<nat>, later: int)
    requires Inv(db) && Normal(lines) && FreshKeys(db, keys, |lines|)
    requires CreateBody(db, event, lines, now, keys, locked).1.Made? && later >= now + PAYMENT_WINDOW
    ensures var expired := ExpireOne(CreateBody(db, event, lines, now, keys, locked).0, keys.order, later);
      expired.codes == db.codes && expired.orders[keys.order].status == Expired
  {
    hide Inv, Release, Clean, CreateBody, FreshKeys, Normal, MoveItems;
    MadeRows(db, event, lines, now, keys, locked);
    NothingHeldYet(db, keys.order);
    var next := CreateBody(db, event, lines, now, keys, locked).0;
    ReleaseAfterReserve(Stage(db.items, db.codes), db.listings, keys.order, now + PAYMENT_WINDOW, lines, keys.items, locked,
                        Stage(next.items, next.codes));
  }
}

/** Runs of the shop: any interleaving of its transactions, and what holds over all of them. */
module ShopRuns {
  import opened Words
  import opened Sums
  import opened Cart
  import opened Tables
  import opened Orders
  import opened Payments
  import opened ShopInvariant
  import opened Reserving
  import opened Keeping
  import opened Paying

  datatype Step =
    | Create(event: Event, lines: seq<Item>, now: int, keys: Keys, locked: set<nat>, seen: bool)
    | TurnDown(event: Event, reason: Reason)
    | Expire(order: nat, now: int)
    | PayFor(buyer: nat, key: string, orderNo: string, now: int, paymentNo: string)
    | SignUp(user: nat, bonus: bool)
    | Relist(id: nat, listing: Listing)         // a seller edits or adds a listing

  ghost predicate WordTotals(db: Db) {
    forall o :: o in db.orders ==> db.orders[o].total < TWO_64
  }

  ghost predicate Enabled(db: Db, step: Step) {
    match step
    case Create(event, lines, now, keys, locked, seen) => Normal(lines) && lines != [] && FreshKeys(db, keys, |lines|)
    case PayFor(buyer, key, orderNo, now, paymentNo) => WordTotals(db)
    case _ => true
  }

  ghost function Next(db: Db, step: Step): Db
    requires Enabled(db, step)
  {
    match step
    case Create(event, lines, now, keys, locked, seen) => CreateOrder(db, event, lines, now, keys, locked, seen).0
    case TurnDown(event, reason) => Reject(db, event, reason).0
    case Expire(order, now) => ExpireOne(db, order, now)
    case PayFor(buyer, key, orderNo, now, paymentNo) => Pay(db, buyer, key, orderNo, now, paymentNo).0
    case SignUp(user, bonus) => Register(db, user, bonus).0
    case Relist(id, listing) => db.(listings := db.listings[id := listing])
  }

  /** Every transaction keeps the invariant and the stock there is. */
  lemma StepKeeps(db: Db, step: Step)
    requires Inv(db) && Enabled(db, step)
    ensures Inv(Next(db, step)) && SameStock(db.codes, Next(db, step).codes)
  {
    hide Pay, CreateBody, ExpireOne, Inv, SameStock, Normal, FreshKeys, WordTotals;
    match step
    case Create(event, lines, now, keys, locked, seen) =>
      if seen { SameStockRefl(db.codes); } else { CreateKeeps(db, event, lines, now, keys, locked); }
    case TurnDown(event, reason) => RejectKeeps(db, event, reason); SameStockRefl(db.codes);
    case Expire(order, now) => ExpireKeeps(db, order, now);
    case PayFor(buyer, key, orderNo, now, paymentNo) => PayKeeps(db, buyer, key, orderNo, now, paymentNo);
    case SignUp(user, bonus) => RegisterKeeps(db, user, bonus); SameStockRefl(db.codes);
    case Relist(id, listing) => RelistKeeps(db, id, listing); SameStockRefl(db.codes);
  }

  lemma RelistKeeps(db: Db, id: nat, listing: Listing)
    requires Inv(db)
    ensures Inv(db.(listings := db.listings[id := listing]))
  {
  }

  // ---- what never changes back ---------------------------------------------------------------

  ghost predicate Extends<K, V>(a: map<K, V>, b: map<K, V>) {
    a.Keys <= b.Keys && forall k :: k in a ==> b[k] == a[k]
  }

  predicate OrderLater(a: Order, b: Order) {
    && b.orderNo == a.orderNo && b.buyer == a.buyer && b.total == a.total && b.expiresAt == a.expiresAt
    && (a.status != Pending ==> b == a)
  }

  /** What an order was made of stays: its items change only their status, and it gets no new ones. */
  ghost predicate ItemsLater(a: map<nat, OrderItem>, orders: map<nat, Order>, b: map<nat, OrderItem>) {
    && (forall i :: i in a ==> i in b && b[i].(status := a[i].status) == a[i])
    && (forall i :: i in b && i !in a ==> b[i].order !in orders)
  }

  ghost predicate OrdersLater(a: map<nat, Order>, b: map<nat, Order>) {
    a.Keys <= b.Keys && forall o :: o in a ==> OrderLater(a[o], b[o])
  }

  lemma PutLater<K, V>(a: map<K, V>, k: K, v: V)
    requires k !in a
    ensures Extends(a, a[k := v])
  {
  }

  lemma PutOrderLater(a: map<nat, Order>, o: nat, order: Order)
    requires o in a ==> OrderLater(a[o], order)
    ensures OrdersLater(a, a[o := order])
  {
  }

  /** What a later state owes to an earlier one. */
  ghost predicate Later(a: Db, b: Db) {
    && SameStock(a.codes, b.codes)
    && Extends(a.bindings, b.bindings)
    && Extends(a.requests, b.requests)
    && Extends(a.attempts, b.attempts)
    && a.ledger <= b.ledger
    && OrdersLater(a.orders, b.orders)
    && ItemsLater(a.items, a.orders, b.items)
  }

  lemma LaterRefl(a: Db)
    ensures Later(a, a)
  {
  }

  lemma LaterTrans(a: Db, b: Db, c: Db)
    requires Later(a, b) && Later(b, c)
    ensures Later(a, c)
  {
    hide SameStock;
    SameStockTrans(a.codes, b.codes, c.codes);
    ItemsLaterTrans(a.items, a.orders, b.items, b.orders, c.items);
    hide ItemsLater;
  }

  lemma ItemsLaterTrans(a: map<nat, OrderItem>, orders: map<nat, Order>, b: map<nat, OrderItem>, more: map<nat, Order>, c: map<nat, OrderItem>)
    requires ItemsLater(a, orders, b) && ItemsLater(b, more, c) && orders.Keys <= more.Keys
    ensures ItemsLater(a, orders, c)
  {
  }

  lemma SettledLater(db: Db, buyer: nat, key: string, o: nat, now: int, paymentNo: string)
    requires StockOk(db) && o in db.orders && db.orders[o].status == Pending && (buyer, key) !in db.attempts
    requires buyer in db.balances && db.orders[o].total <= db.balances[buyer]
    ensures Later(db, Settled(db, buyer, key, o, now, paymentNo))
  {
    BindLater(db.bindings, db.codes, db.items, o, now);
    SellSameStock(db.codes, o);
    hide StockOk, SameStock, Extends, OrdersLater, ItemsLater, Bind, Sell, MoveItems, HeldCodes;
    var next := Settled(db, buyer, key, o, now, paymentNo);
    PutLater(db.attempts, (buyer, key), next.attempts[(buyer, key)]);
    PutOrderLater(db.orders, o, next.orders[o]);
    MovedItemsLater(db.items, db.orders, o, Paid);
    ExtendsRefl(db.requests);
  }

  lemma BindLater(bindings: map<nat, Binding>, codes: map<nat, Code>, items: map<nat, OrderItem>, o: nat, now: int)
    requires BindingsOk(bindings, codes, items)
    ensures Extends(bindings, Bind(bindings, codes, HeldCodes(codes, o), now))
  {
  }

  lemma ExtendsRefl<K, V>(a: map<K, V>)
    ensures Extends(a, a)
  {
  }

  lemma PayLater(db: Db, buyer: nat, rawKey: string, rawOrderNo: string, now: int, paymentNo: string)
    requires Inv(db) && WordTotals(db)
    ensures Later(db, Pay(db, buyer, rawKey, rawOrderNo, now, paymentNo).0)
  {
    hide Inv, Later, Settle, Pay, Settled;
    var o := PayCases(db, buyer, rawKey, rawOrderNo, now, paymentNo);
    LaterRefl(db);
    if Pay(db, buyer, rawKey, rawOrderNo, now, paymentNo).0 != db {
      SettleSucceeds(db, buyer, TrimSpace(rawKey), o, now, paymentNo);
      StockFromInv(db);
      SettledLater(db, buyer, TrimSpace(rawKey), o, now, paymentNo);
    }
  }

  lemma StockFromInv(db: Db)
    requires Inv(db)
    ensures StockOk(db)
  {
  }

  lemma CreateLater(db: Db, event: Event, lines: seq<Item>, now: int, keys: Keys, locked: set<nat>)
    requires Inv(db) && Normal(lines) && lines != [] && FreshKeys(db, keys, |lines|)
    ensures Later(db, CreateBody(db, event, lines, now, keys, locked).0)
  {
    CreateKeeps(db, event, lines, now, keys, locked);
    assert keys.order !in db.orders;
    hide SameStock, ItemsLater, WithItems, Inv, Extends, OrdersLater, PriceFrom, ReserveFrom, OrderNoTaken, Normal, FreshKeys, AllListed, NewIds;
    var (next, outcome) := CreateBody(db, event, lines, now, keys, locked);
    if outcome.Made? {
      CreateItems(db, event, lines, now, keys, locked);
      PutLater(db.requests, event.requestId, next.requests[event.requestId]);
      PutOrderLater(db.orders, keys.order, next.orders[keys.order]);
      ExtendsRefl(db.bindings);
      ExtendsRefl(db.attempts);
    } else {
      LaterRefl(db);
    }
  }

  lemma CreateItems(db: Db, event: Event, lines: seq<Item>, now: int, keys: Keys, locked: set<nat>)
    requires Inv(db) && Normal(lines) && lines != [] && FreshKeys(db, keys, |lines|)
    requires CreateBody(db, event, lines, now, keys, locked).1.Made?
    ensures AllListed(db.listings, lines)
    ensures CreateBody(db, event, lines, now, keys, locked).0.items == WithItems(db.items, db.listings, keys.order, lines, keys.items)
    ensures ItemsLater(db.items, db.orders, CreateBody(db, event, lines, now, keys, locked).0.items)
  {
    StageFromInv(db);
    KeysReservable(db, lines, keys);
    hide Inv, StageOk, PriceFrom, ReserveFrom, ItemsLater, OrderNoTaken, SameStock, Normal, FreshKeys, Reservable, AllListed, NewIds;
    PricedAreListed(db.listings, lines, 0);
    var next := CreateBody(db, event, lines, now, keys, locked).0;
    StageStarts(Stage(db.items, db.codes), db.orders, db.bindings, keys.order, next.orders[keys.order]);
    ReserveKeepsStage(Stage(db.items, db.codes), db.listings, next.orders, db.bindings, keys.order, now + PAYMENT_WINDOW,
                      lines, keys.items, locked, Stage(next.items, next.codes));
    NewItemsLater(db.items, db.orders, db.listings, keys.order, lines, keys.items);
  }

  lemma KeysReservable(db: Db, lines: seq<Item>, keys: Keys)
    requires Normal(lines) && FreshKeys(db, keys, |lines|)
    ensures NewIds(db.items, keys.items) && keys.order !in db.orders && |keys.items| == |lines|
    ensures forall k :: 0 <= k < |lines| ==> WellFormed(lines[k])
    ensures AllListed(db.listings, lines) ==> Reservable(db.items, db.listings, lines, keys.items)
  {
  }

  lemma StageFromInv(db: Db)
    requires Inv(db)
    ensures StageOk(Stage(db.items, db.codes), db.orders, db.bindings)
  {
  }

  lemma NewItemsLater(items: map<nat, OrderItem>, orders: map<nat, Order>, listings: map<nat, Listing>, o: nat, lines: seq<Item>, ids: seq<nat>)
    requires AllListed(listings, lines) && |ids| == |lines| && NewIds(items, ids) && o !in orders
    ensures ItemsLater(items, orders, WithItems(items, listings, o, lines, ids))
  {
    ItemsAddUp(items, listings, o, lines, ids);
    var all := WithItems(items, listings, o, lines, ids);
    hide WithItems, NewIds;
    forall i | i in all && i !in items ensures all[i].order == o {
      var k :| 0 <= k < |ids| && ids[k] == i;
    }
  }

  lemma ExpireLater(db: Db, order: nat, now: int)
    requires SameStock(db.codes, ExpireOne(db, order, now).codes)
    ensures Later(db, ExpireOne(db, order, now))
  {
    MovedItemsLater(db.items, db.orders, order, Expired);
    hide SameStock, Release, MoveItems, ItemsLater;
    LaterRefl(db);
    if order in db.orders && Overdue(db.orders[order], now) {
      MovedLater(db, order, db.orders[order].(status := Expired), Release(db.codes, order), MoveItems(db.items, order, Expired));
    }
    hide Later;
  }

  lemma MovedItemsLater(items: map<nat, OrderItem>, orders: map<nat, Order>, o: nat, status: OrderStatus)
    ensures ItemsLater(items, orders, MoveItems(items, o, status))
  {
  }

  lemma MovedLater(db: Db, o: nat, order: Order, codes: map<nat, Code>, items: map<nat, OrderItem>)
    requires o in db.orders && OrderLater(db.orders[o], order) && SameStock(db.codes, codes) && ItemsLater(db.items, db.orders, items)
    ensures Later(db, db.(orders := db.orders[o := order], codes := codes, items := items))
  {
  }

  lemma RejectLater(db: Db, event: Event, reason: Reason)
    ensures Later(db, Reject(db, event, reason).0)
  {
    LaterRefl(db);
    if Reject(db, event, reason).0 != db {
      RowLater(db, event.requestId, Rejected(event.buyer, reason));
    }
    hide Later;
  }

  lemma RowLater(db: Db, id: string, row: Request)
    requires id !in db.requests
    ensures Later(db, db.(requests := db.requests[id := row]))
  {
  }

  lemma RegisterLater(db: Db, user: nat, bonus: bool)
    ensures Later(db, Register(db, user, bonus).0)
  {
    LaterRefl(db);
    hide Later, Referenced;
    if Register(db, user, bonus).0 != db {
      if bonus {
        UserLater(db, user, db.balances[user := REGISTRATION_BONUS],
                  [Entry(user, REGISTRATION_BONUS, REGISTRATION_BONUS, ForRegistration(user))]);
      } else {
        UserLater(db, user, db.balances, []);
        assert db.ledger + [] == db.ledger;
      }
    }
  }

  lemma UserLater(db: Db, user: nat, balances: map<nat, nat>, entries: seq<Entry>)
    ensures Later(db, db.(users := db.users + {user}, balances := balances, ledger := db.ledger + entries))
  {
  }

  lemma RelistLater(db: Db, id: nat, listing: Listing)
    ensures Later(db, db.(listings := db.listings[id := listing]))
  {
  }

  lemma StepLater(db: Db, step: Step)
    requires Inv(db) && Enabled(db, step)
    ensures Later(db, Next(db, step))
  {
    StepKeeps(db, step);
    hide Inv, Later, SameStock;
    match step
    case Create(event, lines, now, keys, locked, seen) =>
      if seen { LaterRefl(db); } else { CreateLater(db, event, lines, now, keys, locked); }
    case TurnDown(event, reason) => RejectLater(db, event, reason);
    case Expire(order, now) => ExpireLater(db, order, now);
    case PayFor(buyer, key, orderNo, now, paymentNo) => PayLater(db, buyer, key, orderNo, now, paymentNo);
    case SignUp(user, bonus) => RegisterLater(db, user, bonus);
    case Relist(id, listing) => RelistLater(db, id, listing);
  }

  // ---- runs ----------------------------------------------------------------------------------

  /** A run: states and the steps between them. */
  ghost predicate Run(dbs: seq<Db>, steps: seq<Step>) {
    && |dbs| == |steps| + 1
    && (forall n :: 0 <= n < |steps| ==> Enabled(dbs[n], steps[n]) && dbs[n + 1] == Next(dbs[n], steps[n]))
  }

  /** The invariant holds in every state of every run of a shop that starts well. */
  lemma {:induction false} Always(dbs: seq<Db>, steps: seq<Step>, n: nat)
    requires Run(dbs, steps) && n < |dbs| && Inv(dbs[0])
    ensures Inv(dbs[n])
  {
    hide Inv, Next, Enabled;
    if n > 0 {
      Always(dbs, steps, n - 1);
      StepKeeps(dbs[n - 1], steps[n - 1]);
    }
  }

  /** Sold codes, bindings, request rows, attempts, ledger rows and decided orders never change. */
  lemma {:induction false} Forever(dbs: seq<Db>, steps: seq<Step>, m: nat, n: nat)
    requires Run(dbs, steps) && m <= n < |dbs| && Inv(dbs[0])
    ensures Later(dbs[m], dbs[n])
  {
    hide Inv, Later, Next, Enabled;
    if m == n {
      LaterRefl(dbs[m]);
    } else {
      Forever(dbs, steps, m, n - 1);
      Always(dbs, steps, n - 1);
      StepLater(dbs[n - 1], steps[n - 1]);
      LaterTrans(dbs[m], dbs[n - 1], dbs[n]);
    }
  }
}

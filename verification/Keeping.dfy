/** Every transaction keeps the invariant of the tables. */
module Keeping {
  import opened Words
  import opened Ascending
  import opened Sums
  import opened Cart
  import opened Tables
  import opened Orders
  import opened Payments
  import opened ShopInvariant
  import opened Reserving

  // ---- create --------------------------------------------------------------------------------

  /** Adding an order that no item names yet changes nothing about the stock. */
  lemma StageStarts(stage: Stage, orders: map<nat, Order>, bindings: map<nat, Binding>, o: nat, order: Order)
    requires StageOk(stage, orders, bindings) && o !in orders
    ensures StageOk(stage, orders[o := order], bindings)
  {
  }

  lemma NoItemsYet(items: map<nat, OrderItem>, orders: map<nat, Order>, o: nat)
    requires ItemsOk(items, orders) && o !in orders
    ensures Lines(items, o) == map[]
  {
  }

  lemma NewOrderAddsUp(items: map<nat, OrderItem>, orders: map<nat, Order>, listings: map<nat, Listing>,
                       lines: seq<Item>, ids: seq<nat>, o: nat, order: Order)
    requires OrdersOk(orders, items) && ItemsOk(items, orders) && o !in orders
    requires AllListed(listings, lines) && |ids| == |lines| && NewIds(items, ids) && lines != []
    requires order.expiresAt.Some? && order.total == Cost(listings, lines) < TWO_64
    ensures OrdersOk(orders[o := order], WithItems(items, listings, o, lines, ids))
  {
    var all := WithItems(items, listings, o, lines, ids);
    ItemsAddUp(items, listings, o, lines, ids);
    NoItemsYet(items, orders, o);
    hide ItemsOk, NewIds, AllListed;
    assert ids[0] in ItemsOf(all, o);
    assert OrderOk(o, order, all);
    forall p | p in orders ensures OrderOk(p, orders[p], all) {
      OrderUntouched(p, orders[p], items, all);
    }
  }

  lemma OrderUntouched(p: nat, order: Order, items: map<nat, OrderItem>, all: map<nat, OrderItem>)
    requires OrderOk(p, order, items) && Lines(all, p) == Lines(items, p)
    ensures OrderOk(p, order, all)
  {
  }

  lemma RequestAdded(requests: map<string, Request>, orders: map<nat, Order>, id: string, o: nat, order: Order)
    requires RequestsOk(requests, orders) && id !in requests && o !in orders
    ensures RequestsOk(requests[id := Created(order.buyer, o)], orders[o := order])
  {
    var more, next := requests[id := Created(order.buyer, o)], orders[o := order];
    forall p | p in next.Keys ensures p in Requested(more) {
      if p == o {
        assert more[id].Created? && more[id].order == p;
      } else {
        assert p in Requested(requests);
        var r :| r in requests && requests[r].Created? && requests[r].order == p;
        assert more[r] == requests[r];
      }
    }
    forall r | r in more && more[r].Created? ensures more[r].order in next && (r != id ==> more[r].order != o) {
    }
    assert Requested(more) == next.Keys;
    forall r, q | SameOrder(more, r, q) ensures r == q {
      if r != id && q != id { assert SameOrder(requests, r, q); }
    }
  }

  /** Payments look only at paid orders. */
  lemma UnpaidChange(attempts: map<PaymentKey, Attempt>, ledger: seq<Entry>, orders: map<nat, Order>, o: nat, order: Order)
    requires AttemptsOk(attempts, orders) && DebitsOk(ledger, orders)
    requires o in orders ==> orders[o].status == Pending
    requires order.status != Paid
    ensures AttemptsOk(attempts, orders[o := order]) && DebitsOk(ledger, orders[o := order])
  {
  }

  lemma SameSize(a: map<nat, Code>, b: map<nat, Code>)
    requires a.Keys == b.Keys
    ensures |a| == |b|
  {
  }

  /** The row set of a successful creation, and the invariant it keeps. */
  lemma CreateKeeps(db: Db, event: Event, lines: seq<Item>, now: int, keys: Keys, locked: set<nat>)
    requires Inv(db) && Normal(lines) && lines != [] && FreshKeys(db, keys, |lines|)
    ensures Inv(CreateBody(db, event, lines, now, keys, locked).0)
    ensures SameStock(db.codes, CreateBody(db, event, lines, now, keys, locked).0.codes)
  {
    hide CodesOk, ItemsOk, Holdings, BindingsOk, Deliveries, OrdersOk, RequestsOk, MoneyOk, AttemptsOk, DebitsOk, UsersOk, UniqueOrderNos, SameStock;
    hide PriceFrom, ReserveFrom, OrderNoTaken, WithItems, Cost;
    var (next, outcome) := CreateBody(db, event, lines, now, keys, locked);
    if outcome.Made? {
      PricedAreListed(db.listings, lines, 0);
      PriceIsCost(db.listings, lines, 0);
      var o, until := keys.order, now + PAYMENT_WINDOW;
      var order := next.orders[o];
      var orders := db.orders[o := order];
      StageStarts(Stage(db.items, db.codes), db.orders, db.bindings, o, order);
      ReserveKeepsStage(Stage(db.items, db.codes), db.listings, orders, db.bindings, o, until,
                        lines, keys.items, locked, Stage(next.items, next.codes));
      SameSize(db.codes, next.codes);
      NewOrderAddsUp(db.items, db.orders, db.listings, lines, keys.items, o, order);
      RequestAdded(db.requests, db.orders, event.requestId, o, order);
      UnpaidChange(db.attempts, db.ledger, db.orders, o, order);
      NewNumber(db.orders, o, order);
    } else {
      SameStockRefl(db.codes);
    }
  }

  lemma SameStockRefl(codes: map<nat, Code>)
    ensures SameStock(codes, codes)
  {
  }

  lemma NewNumber(orders: map<nat, Order>, o: nat, order: Order)
    requires UniqueOrderNos(orders) && o !in orders && !OrderNoTaken(orders, order.orderNo)
    ensures UniqueOrderNos(orders[o := order])
  {
  }

  // ---- reject --------------------------------------------------------------------------------

  lemma RejectionAdded(requests: map<string, Request>, orders: map<nat, Order>, id: string, request: Request)
    requires RequestsOk(requests, orders) && id !in requests && request.Rejected?
    ensures RequestsOk(requests[id := request], orders)
  {
    var more := requests[id := request];
    forall r, q | SameOrder(more, r, q) ensures r == q {
      assert SameOrder(requests, r, q);
    }
    forall p | p in Requested(requests) ensures p in Requested(more) {
      var r :| r in requests && requests[r].Created? && requests[r].order == p;
      assert more[r] == requests[r];
    }
    assert Requested(more) == Requested(requests);
  }

  lemma RejectKeeps(db: Db, event: Event, reason: Reason)
    requires Inv(db)
    ensures Inv(Reject(db, event, reason).0)
  {
    hide CodesOk, ItemsOk, Holdings, BindingsOk, Deliveries, OrdersOk, RequestsOk, MoneyOk, AttemptsOk, DebitsOk, UsersOk, UniqueOrderNos;
    if Reject(db, event, reason).0 != db {
      RejectionAdded(db.requests, db.orders, event.requestId, Rejected(event.buyer, reason));
    }
  }

  // ---- moving an order out of the pending state ----------------------------------------------

  lemma LinesMoved(items: map<nat, OrderItem>, o: nat, status: OrderStatus)
    ensures forall p :: Lines(MoveItems(items, o, status), p) == Lines(items, p)
    ensures forall p :: ItemsOf(MoveItems(items, o, status), p) == ItemsOf(items, p)
  {
  }

  lemma MoveKeepsItems(items: map<nat, OrderItem>, orders: map<nat, Order>, o: nat, order: Order)
    requires ItemsOk(items, orders) && o in orders && orders[o].status == Pending
    ensures ItemsOk(MoveItems(items, o, order.status), orders[o := order])
  {
  }

  /** An order that changes only its status and payment time keeps the rest of the books. */
  lemma MoveKeepsBooks(items: map<nat, OrderItem>, orders: map<nat, Order>, requests: map<string, Request>, o: nat, order: Order)
    requires UniqueOrderNos(orders) && OrdersOk(orders, items) && RequestsOk(requests, orders)
    requires o in orders && order == orders[o].(status := order.status, paidAt := order.paidAt)
    ensures UniqueOrderNos(orders[o := order])
    ensures OrdersOk(orders[o := order], MoveItems(items, o, order.status))
    ensures RequestsOk(requests, orders[o := order])
  {
    LinesMoved(items, o, order.status);
  }

  // ---- expire --------------------------------------------------------------------------------

  lemma ReleaseKeepsCodes(codes: map<nat, Code>, items: map<nat, OrderItem>, orders: map<nat, Order>, o: nat, order: Order)
    requires CodesOk(codes, items, orders) && o in orders
    requires order.expiresAt == orders[o].expiresAt
    ensures CodesOk(Release(codes, o), MoveItems(items, o, order.status), orders[o := order])
  {
  }

  lemma ReleaseKeepsHoldings(codes: map<nat, Code>, items: map<nat, OrderItem>, orders: map<nat, Order>, o: nat)
    requires CodesOk(codes, items, orders) && Holdings(codes, items)
    ensures Holdings(Release(codes, o), MoveItems(items, o, Expired))
  {
    var next, moved := Release(codes, o), MoveItems(items, o, Expired);
    forall i | i in items
      ensures |HeldFor(next, i)| == if moved[i].status == Pending then moved[i].quantity else 0
    {
      forall c | c in codes && codes[c].status == Reserved && codes[c].item == Some(i)
        ensures codes[c].order == Some(items[i].order)
      {
        assert CodeOk(codes[c], items, orders);
      }
      if items[i].order == o {
        assert HeldFor(next, i) == {};
      } else {
        assert HeldFor(next, i) == HeldFor(codes, i);
      }
    }
  }

  lemma ReleaseKeepsBindings(bindings: map<nat, Binding>, codes: map<nat, Code>, items: map<nat, OrderItem>, o: nat)
    requires BindingsOk(bindings, codes, items) && Deliveries(bindings, items)
    ensures BindingsOk(bindings, Release(codes, o), MoveItems(items, o, Expired))
    ensures Deliveries(bindings, MoveItems(items, o, Expired))
  {
  }

  lemma ReleaseSameStock(codes: map<nat, Code>, o: nat)
    ensures SameStock(codes, Release(codes, o))
  {
  }

  lemma ExpireKeeps(db: Db, o: nat, now: int)
    requires Inv(db)
    ensures Inv(ExpireOne(db, o, now))
    ensures SameStock(db.codes, ExpireOne(db, o, now).codes)
  {
    hide CodesOk, ItemsOk, Holdings, BindingsOk, Deliveries, OrdersOk, RequestsOk, MoneyOk, AttemptsOk, DebitsOk, UsersOk, UniqueOrderNos, SameStock;
    var next := ExpireOne(db, o, now);
    if next == db {
      SameStockRefl(db.codes);
    } else {
      var order := next.orders[o];
      MoveKeepsItems(db.items, db.orders, o, order);
      MoveKeepsBooks(db.items, db.orders, db.requests, o, order);
      ReleaseKeepsCodes(db.codes, db.items, db.orders, o, order);
      ReleaseKeepsHoldings(db.codes, db.items, db.orders, o);
      ReleaseKeepsBindings(db.bindings, db.codes, db.items, o);
      UnpaidChange(db.attempts, db.ledger, db.orders, o, order);
      SameSize(db.codes, next.codes);
      ReleaseSameStock(db.codes, o);
    }
  }
}

/** Paying and registering keep the invariant; and what a payment meets in a state that has it. */
module Paying {
  import opened Words
  import opened Ascending
  import opened Sums
  import opened Tables
  import opened Orders
  import opened Payments
  import opened ShopInvariant
  import opened Reserving
  import opened Keeping

  // ---- the binding loop in closed form -------------------------------------------------------

  function Bind(bindings: map<nat, Binding>, codes: map<nat, Code>, held: set<nat>, now: int): map<nat, Binding> {
    bindings + map c | c in held && c in codes && codes[c].item.Some? :: Binding(codes[c].item.value, now)
  }

  function Sell(codes: map<nat, Code>, held: set<nat>): map<nat, Code> {
    map c | c in codes :: if c in held then AsSold(codes[c]) else codes[c]
  }

  ghost predicate Bindable(bindings: map<nat, Binding>, codes: map<nat, Code>, ids: seq<nat>) {
    && (forall k :: 0 <= k < |ids| ==> ids[k] in codes && ids[k] !in bindings && codes[ids[k]].item.Some?)
    && (forall j, k :: 0 <= j < k < |ids| ==> ids[j] != ids[k])
  }

  lemma BindStep(bindings: map<nat, Binding>, codes: map<nat, Code>, c: nat, rest: set<nat>, now: int)
    requires c in codes && codes[c].item.Some? && c !in rest
    ensures Bind(bindings[c := Binding(codes[c].item.value, now)], codes[c := AsSold(codes[c])], rest, now)
         == Bind(bindings, codes, {c} + rest, now)
  {
  }

  lemma SellStep(codes: map<nat, Code>, c: nat, rest: set<nat>)
    requires c in codes && c !in rest
    ensures Sell(codes[c := AsSold(codes[c])], rest) == Sell(codes, {c} + rest)
  {
  }

  lemma BindableTail(bindings: map<nat, Binding>, codes: map<nat, Code>, ids: seq<nat>, binding: Binding, code: Code)
    requires Bindable(bindings, codes, ids) && ids != []
    ensures Bindable(bindings[ids[0] := binding], codes[ids[0] := code], ids[1..])
    ensures ids[0] !in Elements(ids[1..])
  {
  }

  lemma {:induction false} BindAll(bindings: map<nat, Binding>, codes: map<nat, Code>, ids: seq<nat>, now: int)
    requires Bindable(bindings, codes, ids)
    ensures BindFrom(bindings, codes, ids, now) == Bound(Bind(bindings, codes, Elements(ids), now), Sell(codes, Elements(ids)))
    decreases ids
  {
    hide Bind, Sell;
    if ids == [] {
      BindNone(bindings, codes, now);
    } else {
      var c, rest := ids[0], ids[1..];
      assert ids == [c] + rest;
      ElementsCons(c, rest);
      var binding := Binding(codes[c].item.value, now);
      BindableTail(bindings, codes, ids, binding, AsSold(codes[c]));
      BindAll(bindings[c := binding], codes[c := AsSold(codes[c])], rest, now);
      BindStep(bindings, codes, c, Elements(rest), now);
      SellStep(codes, c, Elements(rest));
    }
  }

  lemma BindNone(bindings: map<nat, Binding>, codes: map<nat, Code>, now: int)
    ensures Bind(bindings, codes, Elements([]), now) == bindings && Sell(codes, Elements([])) == codes
  {
  }

  /** In a good state every held code can be bound: the late failures of the loop do not happen. */
  lemma HeldIsBindable(db: Db, o: nat)
    requires StockOk(db)
    ensures Bindable(db.bindings, db.codes, HeldInOrder(db.codes, o))
    ensures Elements(HeldInOrder(db.codes, o)) == HeldCodes(db.codes, o)
  {
    var ids := HeldInOrder(db.codes, o);
    InOrderIncreasing(HeldCodes(db.codes, o));
    NothingBoundTwice(db.bindings, db.codes, db.items, o);
    hide ItemsOk, Holdings, Deliveries;
    forall k | 0 <= k < |ids| ensures ids[k] !in db.bindings && db.codes[ids[k]].item.Some? {
      assert ids[k] in Elements(ids);
      assert CodeOk(db.codes[ids[k]], db.items, db.orders);
    }
  }

  // ---- stock ---------------------------------------------------------------------------------

  lemma SellKeepsCodes(codes: map<nat, Code>, items: map<nat, OrderItem>, orders: map<nat, Order>, o: nat, order: Order)
    requires CodesOk(codes, items, orders) && o in orders
    requires order.expiresAt == orders[o].expiresAt
    ensures CodesOk(Sell(codes, HeldCodes(codes, o)), MoveItems(items, o, order.status), orders[o := order])
  {
  }

  lemma HeldForOrder(codes: map<nat, Code>, items: map<nat, OrderItem>, orders: map<nat, Order>, i: nat)
    requires CodesOk(codes, items, orders) && i in items
    ensures forall c :: c in HeldFor(codes, i) ==> codes[c].order == Some(items[i].order) && codes[c].listing == items[i].listing
  {
  }

  lemma SellKeepsHoldings(codes: map<nat, Code>, items: map<nat, OrderItem>, orders: map<nat, Order>, o: nat)
    requires CodesOk(codes, items, orders) && Holdings(codes, items)
    ensures Holdings(Sell(codes, HeldCodes(codes, o)), MoveItems(items, o, Paid))
  {
    var next, moved := Sell(codes, HeldCodes(codes, o)), MoveItems(items, o, Paid);
    forall i | i in items
      ensures |HeldFor(next, i)| == if moved[i].status == Pending then moved[i].quantity else 0
    {
      HeldForOrder(codes, items, orders, i);
      if items[i].order == o {
        assert HeldFor(next, i) == {};
      } else {
        assert HeldFor(next, i) == HeldFor(codes, i);
      }
    }
  }

  lemma SellKeepsBindings(bindings: map<nat, Binding>, codes: map<nat, Code>, items: map<nat, OrderItem>,
                          orders: map<nat, Order>, o: nat, now: int)
    requires CodesOk(codes, items, orders) && BindingsOk(bindings, codes, items)
    ensures var held := HeldCodes(codes, o);
            BindingsOk(Bind(bindings, codes, held, now), Sell(codes, held), MoveItems(items, o, Paid))
  {
  }

  lemma SellKeepsDeliveries(bindings: map<nat, Binding>, codes: map<nat, Code>, items: map<nat, OrderItem>,
                            orders: map<nat, Order>, o: nat, now: int)
    requires CodesOk(codes, items, orders) && ItemsOk(items, orders) && BindingsOk(bindings, codes, items)
    requires Holdings(codes, items) && Deliveries(bindings, items)
    requires o in orders && orders[o].status == Pending
    ensures Deliveries(Bind(bindings, codes, HeldCodes(codes, o), now), MoveItems(items, o, Paid))
  {
    var held, moved := HeldCodes(codes, o), MoveItems(items, o, Paid);
    var next := Bind(bindings, codes, held, now);
    NothingBoundTwice(bindings, codes, items, o);
    forall i | i in items
      ensures |BoundTo(next, i)| == if moved[i].status == Paid then moved[i].quantity else 0
    {
      BoundAfter(bindings, codes, items, orders, o, i, now);
    }
  }

  lemma NothingBoundTwice(bindings: map<nat, Binding>, codes: map<nat, Code>, items: map<nat, OrderItem>, o: nat)
    requires BindingsOk(bindings, codes, items)
    ensures HeldCodes(codes, o) !! bindings.Keys
  {
  }

  /** The codes an item of the order held are what is bound to it; other items keep their bindings. */
  lemma BoundAfter(bindings: map<nat, Binding>, codes: map<nat, Code>, items: map<nat, OrderItem>,
                   orders: map<nat, Order>, o: nat, i: nat, now: int)
    requires CodesOk(codes, items, orders) && i in items && HeldCodes(codes, o) !! bindings.Keys
    ensures var next := BoundTo(Bind(bindings, codes, HeldCodes(codes, o), now), i);
            if items[i].order == o then next == BoundTo(bindings, i) + HeldFor(codes, i) && BoundTo(bindings, i) !! HeldFor(codes, i)
            else next == BoundTo(bindings, i)
  {
  }

  // ---- money ---------------------------------------------------------------------------------

  lemma NetSnoc(ledger: seq<Entry>, entry: Entry)
    ensures forall u :: Net(ledger + [entry], u) == Net(ledger, u) + (if entry.user == u then entry.amount else 0)
    ensures forall u :: LastAfter(ledger + [entry], u) == if entry.user == u then Some(entry.after) else LastAfter(ledger, u)
  {
  }

  lemma BookKeepsMoney(opening: map<nat, nat>, balances: map<nat, nat>, ledger: seq<Entry>, entry: Entry)
    requires MoneyOk(opening, balances, ledger) && entry.after < TWO_63
    requires entry.user in balances ==> entry.after == balances[entry.user] + entry.amount
    requires entry.user !in balances ==> entry.after == entry.amount
    ensures MoneyOk(opening, balances[entry.user := entry.after], ledger + [entry])
  {
    NetSnoc(ledger, entry);
    if entry.user !in balances {
      NoEntries(ledger, entry.user);
    }
  }

  lemma {:induction false} NoEntries(ledger: seq<Entry>, user: nat)
    requires forall n :: 0 <= n < |ledger| ==> ledger[n].user != user
    ensures Net(ledger, user) == 0
  {
    if ledger != [] {
      NoEntries(ledger[..|ledger| - 1], user);
    }
  }

  lemma AttemptAdded(attempts: map<PaymentKey, Attempt>, orders: map<nat, Order>, key: PaymentKey, attempt: Attempt, order: Order)
    requires AttemptsOk(attempts, orders) && key !in attempts
    requires attempt.order in orders && orders[attempt.order].status == Pending
    requires order.status == Paid && order.buyer == key.0 && order.total == attempt.amount
    ensures AttemptsOk(attempts[key := attempt], orders[attempt.order := order])
  {
    var more, next := attempts[key := attempt], orders[attempt.order := order];
    forall k | k in attempts ensures attempts[k].order != attempt.order && AttemptOk(k, attempts[k], next) {
      assert AttemptOk(k, attempts[k], orders);
    }
    forall p | p in next && next[p].status == Paid ensures p in Attempted(more) {
      if p == attempt.order {
        assert more[key].order == p;
      } else {
        assert p in Attempted(attempts);
        var k :| k in attempts && attempts[k].order == p;
        assert more[k] == attempts[k];
      }
    }
  }

  lemma PendingNotDebited(ledger: seq<Entry>, orders: map<nat, Order>, o: nat)
    requires DebitsOk(ledger, orders) && o in orders && orders[o].status != Paid
    ensures !Referenced(ledger, ForOrder(o))
  {
  }

  lemma DebitAdded(ledger: seq<Entry>, orders: map<nat, Order>, o: nat, order: Order, entry: Entry)
    requires DebitsOk(ledger, orders) && o in orders && orders[o].status == Pending && !Referenced(ledger, ForOrder(o))
    requires entry.reference == ForOrder(o) && order.status == Paid && entry.user == order.buyer && entry.amount == -(order.total as int)
    ensures DebitsOk(ledger + [entry], orders[o := order])
  {
    var more, next := ledger + [entry], orders[o := order];
    forall n | 0 <= n < |more| ensures DebitOk(more[n], next) {
      if n < |ledger| { assert DebitOk(ledger[n], orders); assert ledger[n].reference != ForOrder(o); }
    }
    forall p | p in next && next[p].status == Paid ensures p in Debited(more) {
      if p == o {
        assert more[|ledger|].reference == ForOrder(p);
      } else {
        assert p in Debited(ledger);
        var n :| 0 <= n < |ledger| && ledger[n].reference.ForOrder? && ledger[n].reference.order == p;
        assert more[n] == ledger[n];
      }
    }
    forall m, n | 0 <= m < n < |more| ensures more[m].reference != more[n].reference {
      if n == |ledger| { assert ledger[m].reference != ForOrder(o); }
    }
  }

  // ---- the transaction -----------------------------------------------------------------------

  /** The tables after a settlement. */
  ghost function Settled(db: Db, buyer: nat, key: string, o: nat, now: int, paymentNo: string): Db
    requires o in db.orders && buyer in db.balances && db.orders[o].total <= db.balances[buyer]
  {
    var order, held := db.orders[o], HeldCodes(db.codes, o);
    var left := db.balances[buyer] - order.total;
    db.(balances := db.balances[buyer := left],
        ledger := db.ledger + [Entry(buyer, -(order.total as int), left, ForOrder(o))],
        attempts := db.attempts[(buyer, key) := Attempt(paymentNo, o, order.total, order.expiresAt)],
        orders := db.orders[o := order.(status := Paid, paidAt := Some(now))],
        bindings := Bind(db.bindings, db.codes, held, now),
        codes := Sell(db.codes, held),
        items := MoveItems(db.items, o, Paid))
  }

  lemma BalanceIsSigned(opening: map<nat, nat>, balances: map<nat, nat>, ledger: seq<Entry>, user: nat)
    requires MoneyOk(opening, balances, ledger) && user in balances
    ensures balances[user] < TWO_63
  {
  }

  /** A settlement goes through unless its key is too wide or its random payment number is taken: no other of its failures
      can happen in a good state, and the signed conversion of the amount is exact. */
  lemma SettleSucceeds(db: Db, buyer: nat, key: string, o: nat, now: int, paymentNo: string)
    requires Inv(db) && o in db.orders && db.orders[o].total < TWO_64 && db.orders[o].status == Pending
    requires buyer in db.balances && db.orders[o].total <= db.balances[buyer]
    ensures Settle(db, buyer, key, o, now, paymentNo) ==
            if AttemptRefused(db.attempts, key, paymentNo) then (db, PaymentFailed)
            else (Settled(db, buyer, key, o, now, paymentNo), Done(Receipt(paymentNo, db.orders[o].total)))
  {
    hide CodesOk, ItemsOk, Holdings, BindingsOk, Deliveries, OrdersOk, RequestsOk, MoneyOk, AttemptsOk, DebitsOk, UsersOk, UniqueOrderNos;
    PendingNotDebited(db.ledger, db.orders, o);
    BindHeld(db, o, now);
    BalanceIsSigned(db.opening, db.balances, db.ledger, buyer);
    SignedExactly(db.orders[o].total);
    hide BindFrom, Bind, Sell, AttemptRefused, Referenced, HeldInOrder, HeldCodes, MoveItems, Signed, Negated, StockOk, BooksOk;
  }

  lemma BindHeld(db: Db, o: nat, now: int)
    requires StockOk(db)
    ensures BindFrom(db.bindings, db.codes, HeldInOrder(db.codes, o), now)
         == Bound(Bind(db.bindings, db.codes, HeldCodes(db.codes, o), now), Sell(db.codes, HeldCodes(db.codes, o)))
  {
    HeldIsBindable(db, o);
    hide StockOk, BindFrom, Bind, Sell, Bindable, HeldInOrder, HeldCodes;
    BindAll(db.bindings, db.codes, HeldInOrder(db.codes, o), now);
  }

  lemma SignedExactly(total: nat)
    requires total < TWO_63
    ensures Negated(Signed(total)) == -(total as int)
  {
  }

  lemma SettledStock(db: Db, buyer: nat, key: string, o: nat, now: int, paymentNo: string)
    requires StockOk(db) && o in db.orders && db.orders[o].status == Pending
    requires buyer in db.balances && db.orders[o].total <= db.balances[buyer]
    ensures StockOk(Settled(db, buyer, key, o, now, paymentNo))
    ensures SameStock(db.codes, Settled(db, buyer, key, o, now, paymentNo).codes)
  {
    hide CodesOk, ItemsOk, Holdings, BindingsOk, Deliveries, SameStock;
    var next := Settled(db, buyer, key, o, now, paymentNo);
    var order := next.orders[o];
    MoveKeepsItems(db.items, db.orders, o, order);
    SellKeepsCodes(db.codes, db.items, db.orders, o, order);
    SellKeepsHoldings(db.codes, db.items, db.orders, o);
    SellKeepsBindings(db.bindings, db.codes, db.items, db.orders, o, now);
    SellKeepsDeliveries(db.bindings, db.codes, db.items, db.orders, o, now);
    SameSize(db.codes, next.codes);
    SellSameStock(db.codes, o);
  }

  lemma SettledBooks(db: Db, buyer: nat, key: string, o: nat, now: int, paymentNo: string)
    requires BooksOk(db) && o in db.orders && db.orders[o].status == Pending
    requires db.orders[o].buyer == buyer && (buyer, key) !in db.attempts
    requires buyer in db.balances && db.orders[o].total <= db.balances[buyer]
    ensures BooksOk(Settled(db, buyer, key, o, now, paymentNo))
  {
    hide OrdersOk, RequestsOk, MoneyOk, AttemptsOk, DebitsOk, UsersOk, UniqueOrderNos;
    var next := Settled(db, buyer, key, o, now, paymentNo);
    var order, entry := next.orders[o], next.ledger[|db.ledger|];
    PendingNotDebited(db.ledger, db.orders, o);
    MoveKeepsBooks(db.items, db.orders, db.requests, o, order);
    BalanceIsSigned(db.opening, db.balances, db.ledger, buyer);
    BookKeepsMoney(db.opening, db.balances, db.ledger, entry);
    AttemptAdded(db.attempts, db.orders, (buyer, key), next.attempts[(buyer, key)], order);
    DebitAdded(db.ledger, db.orders, o, order, entry);
    UserBooked(db.users, db.balances, db.ledger, entry);
  }

  lemma SettleKeeps(db: Db, buyer: nat, key: string, o: nat, now: int, paymentNo: string)
    requires Inv(db) && o in db.orders && db.orders[o].total < TWO_64 && db.orders[o].status == Pending
    requires db.orders[o].buyer == buyer && (buyer, key) !in db.attempts
    requires buyer in db.balances && db.orders[o].total <= db.balances[buyer]
    ensures Inv(Settle(db, buyer, key, o, now, paymentNo).0)
    ensures SameStock(db.codes, Settle(db, buyer, key, o, now, paymentNo).0.codes)
  {
    SettleSucceeds(db, buyer, key, o, now, paymentNo);
    hide StockOk, BooksOk, SameStock, Settled;
    if AttemptRefused(db.attempts, key, paymentNo) {
      SameStockRefl(db.codes);
    } else {
      SettledStock(db, buyer, key, o, now, paymentNo);
      SettledBooks(db, buyer, key, o, now, paymentNo);
    }
  }

  lemma UserBooked(users: set<nat>, balances: map<nat, nat>, ledger: seq<Entry>, entry: Entry)
    requires UsersOk(users, balances, ledger) && (entry.user in users || entry.user in balances)
    requires entry.reference.ForRegistration? ==> entry.reference.user in users
    ensures UsersOk(users, balances[entry.user := entry.after], ledger + [entry])
  {
  }

  lemma SellSameStock(codes: map<nat, Code>, o: nat)
    ensures SameStock(codes, Sell(codes, HeldCodes(codes, o)))
  {
  }

  lemma TotalsFit(db: Db)
    requires OrdersOk(db.orders, db.items)
    ensures forall o :: o in db.orders ==> db.orders[o].total < TWO_64
  {
  }

  /** A payment either changes nothing or settles an open order of the buyer under a new key. */
  lemma PayCases(db: Db, buyer: nat, rawKey: string, rawOrderNo: string, now: int, paymentNo: string) returns (o: nat)
    requires forall o :: o in db.orders ==> db.orders[o].total < TWO_64
    ensures var (next, result) := Pay(db, buyer, rawKey, rawOrderNo, now, paymentNo);
            next == db ||
              (&& o in db.orders && db.orders[o].status == Pending && db.orders[o].buyer == buyer
               && (buyer, TrimSpace(rawKey)) !in db.attempts
               && buyer in db.balances && db.orders[o].total <= db.balances[buyer]
               && (next, result) == Settle(db, buyer, TrimSpace(rawKey), o, now, paymentNo))
  {
    hide Settle, Expected, HeldCodes, TrimSpace;
    o := if HasOrder(db.orders, TrimSpace(rawOrderNo), buyer) then OrderOf(db.orders, TrimSpace(rawOrderNo), buyer) else 0;
  }

  lemma PayKeeps(db: Db, buyer: nat, rawKey: string, rawOrderNo: string, now: int, paymentNo: string)
    requires Inv(db)
    ensures forall o :: o in db.orders ==> db.orders[o].total < TWO_64
    ensures Inv(Pay(db, buyer, rawKey, rawOrderNo, now, paymentNo).0)
    ensures SameStock(db.codes, Pay(db, buyer, rawKey, rawOrderNo, now, paymentNo).0.codes)
  {
    TotalsFit(db);
    hide Inv, SameStock, Settle, Pay;
    var o := PayCases(db, buyer, rawKey, rawOrderNo, now, paymentNo);
    if Pay(db, buyer, rawKey, rawOrderNo, now, paymentNo).0 == db {
      SameStockRefl(db.codes);
    } else {
      SettleKeeps(db, buyer, TrimSpace(rawKey), o, now, paymentNo);
    }
  }

  lemma UserAdded(db: Db, user: nat)
    requires Inv(db)
    ensures Inv(db.(users := db.users + {user}))
  {
  }

  lemma BonusAdded(db: Db, user: nat)
    requires Inv(db) && user !in db.balances && !Referenced(db.ledger, ForRegistration(user)) && user in db.users
    ensures var entry := Entry(user, REGISTRATION_BONUS, REGISTRATION_BONUS, ForRegistration(user));
            Inv(db.(balances := db.balances[user := REGISTRATION_BONUS], ledger := db.ledger + [entry]))
  {
    hide CodesOk, ItemsOk, Holdings, BindingsOk, Deliveries, OrdersOk, RequestsOk, MoneyOk, AttemptsOk, DebitsOk, UsersOk, UniqueOrderNos, Referenced;
    var entry := Entry(user, REGISTRATION_BONUS, REGISTRATION_BONUS, ForRegistration(user));
    BookKeepsMoney(db.opening, db.balances, db.ledger, entry);
    BonusBooked(db.ledger, db.orders, entry);
    UserBooked(db.users, db.balances, db.ledger, entry);
  }

  lemma RegisterKeeps(db: Db, user: nat, bonus: bool)
    requires Inv(db)
    ensures Inv(Register(db, user, bonus).0)
  {
    hide Inv, Referenced;
    UserAdded(db, user);
    if user !in db.balances && !Referenced(db.ledger, ForRegistration(user)) {
      BonusAdded(db.(users := db.users + {user}), user);
    }
  }

  lemma BonusBooked(ledger: seq<Entry>, orders: map<nat, Order>, entry: Entry)
    requires DebitsOk(ledger, orders) && entry.reference.ForRegistration? && !Referenced(ledger, entry.reference)
    ensures DebitsOk(ledger + [entry], orders)
  {
    var more := ledger + [entry];
    forall n | 0 <= n < |more| ensures DebitOk(more[n], orders) {
      if n < |ledger| { assert DebitOk(ledger[n], orders); }
    }
    forall p | p in Debited(ledger) ensures p in Debited(more) {
      var n :| 0 <= n < |ledger| && ledger[n].reference.ForOrder? && ledger[n].reference.order == p;
      assert more[n] == ledger[n];
    }
  }
}

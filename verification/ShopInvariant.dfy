/** What is true of the tables between transactions. Every part names only the tables it is about. */
module ShopInvariant {
  import opened Words
  import opened Sums
  import opened Tables
  import opened Orders
  import opened Payments

  // ---- codes and items -----------------------------------------------------------------------

  /** A reserved code names a pending item of its own listing and that item's order; any other code
      names nothing. */
  predicate CodeOk(code: Code, items: map<nat, OrderItem>, orders: map<nat, Order>) {
    if code.status == Reserved then
      && code.order.Some? && code.item.Some?
      && code.item.value in items && code.order.value in orders
      && items[code.item.value].order == code.order.value
      && items[code.item.value].listing == code.listing
      && items[code.item.value].status == Pending
      && code.until == orders[code.order.value].expiresAt
    else code.order.None? && code.item.None? && code.until.None?
  }

  ghost predicate CodesOk(codes: map<nat, Code>, items: map<nat, OrderItem>, orders: map<nat, Order>) {
    forall c :: c in codes ==> CodeOk(codes[c], items, orders)
  }

  ghost predicate ItemsOk(items: map<nat, OrderItem>, orders: map<nat, Order>) {
    forall i :: i in items ==>
      && items[i].order in orders
      && items[i].status == orders[items[i].order].status
      && items[i].line == items[i].price * items[i].quantity
      && items[i].quantity > 0
  }

  function HeldFor(codes: map<nat, Code>, item: nat): set<nat> {
    set c | c in codes && codes[c].status == Reserved && codes[c].item == Some(item)
  }

  /** A pending item owns exactly its quantity of reserved codes, any other item none. */
  ghost predicate Holdings(codes: map<nat, Code>, items: map<nat, OrderItem>) {
    forall i :: i in items ==>
      |HeldFor(codes, i)| == if items[i].status == Pending then items[i].quantity else 0
  }

  // ---- bindings ------------------------------------------------------------------------------

  predicate BindingOk(code: nat, item: nat, codes: map<nat, Code>, items: map<nat, OrderItem>) {
    && code in codes && codes[code].status == Sold
    && item in items && items[item].status == Paid && items[item].listing == codes[code].listing
  }

  /** Exactly the sold codes are bound, each to a paid item of its listing. */
  ghost predicate BindingsOk(bindings: map<nat, Binding>, codes: map<nat, Code>, items: map<nat, OrderItem>) {
    && (forall b :: b in bindings ==> BindingOk(b, bindings[b].item, codes, items))
    && (forall c :: c in codes && codes[c].status == Sold ==> c in bindings)
  }

  function BoundTo(bindings: map<nat, Binding>, item: nat): set<nat> {
    set b | b in bindings && bindings[b].item == item
  }

  /** A paid item has exactly its quantity of bindings, any other item none. */
  ghost predicate Deliveries(bindings: map<nat, Binding>, items: map<nat, OrderItem>) {
    forall i :: i in items ==>
      |BoundTo(bindings, i)| == if items[i].status == Paid then items[i].quantity else 0
  }

  // ---- orders and requests -------------------------------------------------------------------

  function Lines(items: map<nat, OrderItem>, order: nat): map<nat, nat> {
    map i | i in items && items[i].order == order :: items[i].line
  }

  /** An order has items, expires, and its total is the sum of its lines within 64 bits. */
  ghost predicate OrderOk(o: nat, order: Order, items: map<nat, OrderItem>) {
    && order.expiresAt.Some?
    && order.total < TWO_64
    && order.total == Total(Lines(items, o))
    && ItemsOf(items, o) != {}
  }

  ghost predicate OrdersOk(orders: map<nat, Order>, items: map<nat, OrderItem>) {
    forall o :: o in orders ==> OrderOk(o, orders[o], items)
  }

  function Requested(requests: map<string, Request>): set<nat> {
    set r | r in requests && requests[r].Created? :: requests[r].order
  }

  predicate SameOrder(requests: map<string, Request>, r: string, q: string) {
    r in requests && q in requests && requests[r].Created? && requests[q].Created? && requests[r].order == requests[q].order
  }

  /** Created rows and orders are in one-to-one correspondence, and agree on the buyer. */
  ghost predicate RequestsOk(requests: map<string, Request>, orders: map<nat, Order>) {
    && Requested(requests) == orders.Keys
    && (forall r, q :: SameOrder(requests, r, q) ==> r == q)
    && (forall r :: r in requests && requests[r].Created? ==>
          requests[r].order in orders && requests[r].buyer == orders[requests[r].order].buyer)
  }

  // ---- money ---------------------------------------------------------------------------------

  /** The ledger's account of one user. */
  function Net(ledger: seq<Entry>, user: nat): int {
    if ledger == [] then 0
    else
      var last := ledger[|ledger| - 1];
      Net(ledger[..|ledger| - 1], user) + (if last.user == user then last.amount else 0)
  }

  /** The balance the ledger last wrote down for a user. */
  function LastAfter(ledger: seq<Entry>, user: nat): Option<nat> {
    if ledger == [] then None
    else
      var last := ledger[|ledger| - 1];
      if last.user == user then Some(last.after) else LastAfter(ledger[..|ledger| - 1], user)
  }

  function Opening(opening: map<nat, nat>, user: nat): nat {
    if user in opening then opening[user] else 0
  }

  /** Every balance is its opening plus its ledger, is what the ledger last wrote, and is a signed word. */
  ghost predicate MoneyOk(opening: map<nat, nat>, balances: map<nat, nat>, ledger: seq<Entry>) {
    && (forall u :: u in balances ==>
          && balances[u] == Opening(opening, u) + Net(ledger, u)
          && balances[u] < TWO_63
          && (LastAfter(ledger, u).Some? ==> LastAfter(ledger, u).value == balances[u]))
    && opening.Keys <= balances.Keys
    && (forall n :: 0 <= n < |ledger| ==> ledger[n].user in balances)
  }

  // ---- payments ------------------------------------------------------------------------------

  function Attempted(attempts: map<PaymentKey, Attempt>): set<nat> {
    set k | k in attempts :: attempts[k].order
  }

  predicate AttemptOk(key: PaymentKey, attempt: Attempt, orders: map<nat, Order>) {
    && attempt.order in orders
    && orders[attempt.order].status == Paid
    && orders[attempt.order].buyer == key.0
    && orders[attempt.order].total == attempt.amount
  }

  /** Attempts and paid orders are in one-to-one correspondence, and agree on buyer and amount. */
  ghost predicate AttemptsOk(attempts: map<PaymentKey, Attempt>, orders: map<nat, Order>) {
    && (forall k :: k in attempts ==> AttemptOk(k, attempts[k], orders))
    && (forall k, q :: k in attempts && q in attempts && attempts[k].order == attempts[q].order ==> k == q)
    && (forall o :: o in orders && orders[o].status == Paid ==> o in Attempted(attempts))
  }

  function Debited(ledger: seq<Entry>): set<nat> {
    set n | 0 <= n < |ledger| && ledger[n].reference.ForOrder? :: ledger[n].reference.order
  }

  predicate DebitOk(entry: Entry, orders: map<nat, Order>) {
    entry.reference.ForOrder? ==>
      && entry.reference.order in orders
      && orders[entry.reference.order].status == Paid
      && orders[entry.reference.order].buyer == entry.user
      && entry.amount == -(orders[entry.reference.order].total as int)
  }

  /** Exactly the paid orders are debited, each once, for its total, on its buyer's account. */
  ghost predicate DebitsOk(ledger: seq<Entry>, orders: map<nat, Order>) {
    && (forall n :: 0 <= n < |ledger| ==> DebitOk(ledger[n], orders))
    && (forall m, n :: 0 <= m < n < |ledger| ==> ledger[m].reference != ledger[n].reference)
    && (forall o :: o in orders && orders[o].status == Paid ==> o in Debited(ledger))
  }

  /** Everybody with money is a user, and bonuses went to users. */
  ghost predicate UsersOk(users: set<nat>, balances: map<nat, nat>, ledger: seq<Entry>) {
    && balances.Keys <= users
    && (forall n :: 0 <= n < |ledger| && ledger[n].reference.ForRegistration? ==> ledger[n].reference.user in users)
  }

  // ---- all of it -----------------------------------------------------------------------------

  ghost predicate StockOk(db: Db) {
    && CodesOk(db.codes, db.items, db.orders)
    && ItemsOk(db.items, db.orders)
    && Holdings(db.codes, db.items)
    && BindingsOk(db.bindings, db.codes, db.items)
    && Deliveries(db.bindings, db.items)
    && |db.codes| < TWO_63
  }

  ghost predicate BooksOk(db: Db) {
    && UniqueOrderNos(db.orders)
    && OrdersOk(db.orders, db.items)
    && RequestsOk(db.requests, db.orders)
    && MoneyOk(db.opening, db.balances, db.ledger)
    && AttemptsOk(db.attempts, db.orders)
    && DebitsOk(db.ledger, db.orders)
    && UsersOk(db.users, db.balances, db.ledger)
  }

  ghost predicate Inv(db: Db) {
    StockOk(db) && BooksOk(db)
  }

  /** A shop that has listings, users and stock, and no orders yet. */
  ghost predicate Fresh(db: Db) {
    && db.orders == map[] && db.items == map[] && db.requests == map[] && db.attempts == map[] && db.bindings == map[]
    && db.ledger == []
    && db.balances == db.opening && db.balances.Keys <= db.users
    && (forall u :: u in db.balances ==> db.balances[u] < TWO_63)
    && |db.codes| < TWO_63
    && (forall c :: c in db.codes ==> var code := db.codes[c];
          (code.status == Submitted || code.status == Available) && code.order.None? && code.item.None? && code.until.None?)
  }

  lemma FreshHolds(db: Db)
    requires Fresh(db)
    ensures Inv(db)
  {
  }
}

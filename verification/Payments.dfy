/** The balance payment transaction and the registration hook as functions of the tables. */
module Payments {
  import opened Words
  import opened Ascending
  import opened Sums
  import opened Tables
  import opened Orders

  datatype Receipt = Receipt(paymentNo: string, amount: nat)

  datatype Payment = Done(receipt: Receipt) | InvalidPayment | OrderUnavailable | IdempotencyConflict
                   | InsufficientBalance | PaymentFailed

  function ReceiptOf(attempt: Attempt): Receipt {
    Receipt(attempt.paymentNo, attempt.amount)
  }

  predicate IsOrderOf(orders: map<nat, Order>, o: nat, orderNo: string, buyer: nat) {
    o in orders && orders[o].orderNo == orderNo && orders[o].buyer == buyer
  }

  ghost predicate HasOrder(orders: map<nat, Order>, orderNo: string, buyer: nat) {
    exists o :: IsOrderOf(orders, o, orderNo, buyer)
  }

  ghost function OrderOf(orders: map<nat, Order>, orderNo: string, buyer: nat): (o: nat)
    requires HasOrder(orders, orderNo, buyer)
    ensures IsOrderOf(orders, o, orderNo, buyer)
  {
    var o :| IsOrderOf(orders, o, orderNo, buyer);
    o
  }

  function ItemsOf(items: map<nat, OrderItem>, order: nat): set<nat> {
    set i | i in items && items[i].order == order
  }

  function HeldCodes(codes: map<nat, Code>, order: nat): set<nat> {
    set c | c in codes && HeldBy(codes[c], order)
  }

  function Quantities(items: map<nat, OrderItem>, ids: set<nat>): map<nat, nat> {
    map i | i in ids && i in items :: items[i].quantity
  }

  /** The number of codes an order needs, added up in unsigned words. */
  ghost function Expected(items: map<nat, OrderItem>, order: nat): (n: nat)
    ensures n < TWO_64
  {
    Total(Quantities(items, ItemsOf(items, order))) % TWO_64
  }

  ghost predicate PaymentNoTaken(attempts: map<PaymentKey, Attempt>, paymentNo: string) {
    exists k :: k in attempts && attempts[k].paymentNo == paymentNo
  }

  /** The attempt row does not go in: its key is too wide, or its number is taken. */
  ghost predicate AttemptRefused(attempts: map<PaymentKey, Attempt>, key: string, paymentNo: string) {
    |key| > PAYMENT_KEY_WIDTH || PaymentNoTaken(attempts, paymentNo)
  }

  /** The unique key on ledger references. */
  ghost predicate Referenced(ledger: seq<Entry>, reference: Reference) {
    exists n :: 0 <= n < |ledger| && ledger[n].reference == reference
  }

  // ---- binding codes -------------------------------------------------------------------------

  datatype Binds = Bound(bindings: map<nat, Binding>, codes: map<nat, Code>) | NotBound(result: Payment)

  /** Bind and sell the codes one after the other; the first failure ends the transaction. */
  function BindFrom(bindings: map<nat, Binding>, codes: map<nat, Code>, ids: seq<nat>, now: int): Binds
    requires forall k :: 0 <= k < |ids| ==> ids[k] in codes
    decreases ids
  {
    if ids == [] then Bound(bindings, codes)
    else if codes[ids[0]].item.None? then NotBound(OrderUnavailable)
    else if ids[0] in bindings then NotBound(PaymentFailed)
    else BindFrom(bindings[ids[0] := Binding(codes[ids[0]].item.value, now)],
                  codes[ids[0] := AsSold(codes[ids[0]])], ids[1..], now)
  }

  function AsSold(code: Code): Code {
    code.(status := Sold, order := None, item := None, until := None)
  }

  // ---- the transaction -----------------------------------------------------------------------

  predicate Open(order: Order, now: int) {
    order.status == Pending && (order.expiresAt.Some? ==> order.expiresAt.value > now)
  }

  /** The writes, reached with an order that can be paid and money enough. */
  ghost function Settle(db: Db, buyer: nat, key: string, o: nat, now: int, paymentNo: string): (Db, Payment)
    requires o in db.orders && db.orders[o].total < TWO_64
    requires buyer in db.balances && db.orders[o].total <= db.balances[buyer]
  {
    var order := db.orders[o];
    var left := db.balances[buyer] - order.total;
    if Referenced(db.ledger, ForOrder(o)) || AttemptRefused(db.attempts, key, paymentNo) then (db, PaymentFailed)
    else match BindFrom(db.bindings, db.codes, HeldInOrder(db.codes, o), now)
      case NotBound(result) => (db, result)
      case Bound(bindings, codes) =>
        (db.(balances := db.balances[buyer := left],
             ledger := db.ledger + [Entry(buyer, Negated(Signed(order.total)), left, ForOrder(o))],
             attempts := db.attempts[(buyer, key) := Attempt(paymentNo, o, order.total, order.expiresAt)],
             orders := db.orders[o := order.(status := Paid, paidAt := Some(now))],
             bindings := bindings,
             codes := codes,
             items := MoveItems(db.items, o, Paid)),
         Done(Receipt(paymentNo, order.total)))
  }

  ghost function HeldInOrder(codes: map<nat, Code>, o: nat): (ids: seq<nat>)
    ensures forall k :: 0 <= k < |ids| ==> ids[k] in codes
  {
    var ids := InOrder(HeldCodes(codes, o));
    assert forall k :: 0 <= k < |ids| ==> ids[k] in Elements(ids);
    ids
  }

  ghost function Pay(db: Db, buyer: nat, rawKey: string, rawOrderNo: string, now: int, paymentNo: string): (Db, Payment)
    requires forall o :: o in db.orders ==> db.orders[o].total < TWO_64
  {
    var orderNo, key := TrimSpace(rawOrderNo), TrimSpace(rawKey);
    if buyer == 0 || orderNo == "" || key == "" then (db, InvalidPayment)
    else if !HasOrder(db.orders, orderNo, buyer) then (db, OrderUnavailable)
    else
      var o := OrderOf(db.orders, orderNo, buyer);
      if (buyer, key) in db.attempts then
        var attempt := db.attempts[(buyer, key)];
        if attempt.order != o then (db, IdempotencyConflict) else (db, Done(ReceiptOf(attempt)))
      else if !Open(db.orders[o], now) then (db, OrderUnavailable)
      else
        var expected := Expected(db.items, o);
        if expected == 0 || |HeldCodes(db.codes, o)| != Signed(expected) then (db, OrderUnavailable)
        else if buyer !in db.balances then (db, PaymentFailed)
        else if db.balances[buyer] < db.orders[o].total then (db, InsufficientBalance)
        else Settle(db, buyer, key, o, now, paymentNo)
  }

  // ---- registration --------------------------------------------------------------------------

  /** Creating a user, with the registration bonus for accounts of role user that have a password. */
  ghost function Register(db: Db, user: nat, bonus: bool): (Db, bool) {
    if user in db.users then (db, false)
    else if !bonus then (db.(users := db.users + {user}), true)
    else if user in db.balances || Referenced(db.ledger, ForRegistration(user)) then (db, false)
    else (db.(users := db.users + {user},
              balances := db.balances[user := REGISTRATION_BONUS],
              ledger := db.ledger + [Entry(user, REGISTRATION_BONUS, REGISTRATION_BONUS, ForRegistration(user))]),
          true)
  }
}

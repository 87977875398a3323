/** The tables of the shop: one map a table, keyed by the column its primary or unique key names. */
module Tables {
  import opened Words
  import opened Cart

  datatype OrderStatus = Pending | Paid | Expired
  datatype CodeStatus = Submitted | Available | Reserved | Sold

  datatype Listing = Listing(price: nat, active: bool)

  datatype Code = Code(listing: nat, status: CodeStatus, order: Option<nat>, item: Option<nat>, until: Option<int>)

  datatype Order = Order(orderNo: string, buyer: nat, total: nat, status: OrderStatus,
                         expiresAt: Option<int>, paidAt: Option<int>)

  datatype OrderItem = OrderItem(order: nat, listing: nat, price: nat, quantity: nat, line: nat, status: OrderStatus)

  /** The terminal row of an order request; there is no other kind of row. */
  datatype Request = Created(buyer: nat, order: nat) | Rejected(buyer: nat, reason: Reason)

  /** Why a request was turned down. */
  datatype Reason = InvalidRequest | ListingUnavailable | OutOfStock

  datatype Reference = ForOrder(order: nat) | ForRegistration(user: nat)
  datatype Entry = Entry(user: nat, amount: int, after: nat, reference: Reference)
  datatype Attempt = Attempt(paymentNo: string, order: nat, amount: nat, expiresAt: Option<int>)
  datatype Binding = Binding(item: nat, at: int)

  /** A buyer and a trimmed idempotency key: the unique key of payment attempts. */
  type PaymentKey = (nat, string)

  datatype Db = Db(
    users: set<nat>,
    opening: map<nat, nat>,               // balances that were loaded without a ledger row
    listings: map<nat, Listing>,
    codes: map<nat, Code>,
    orders: map<nat, Order>,
    items: map<nat, OrderItem>,
    requests: map<string, Request>,
    balances: map<nat, nat>,
    ledger: seq<Entry>,
    attempts: map<PaymentKey, Attempt>,
    bindings: map<nat, Binding>)          // by activation code

  /** An order command as it travels through the topic. */
  datatype Event = Event(requestId: string, buyer: nat, items: seq<Item>)

  /** The keys a transaction draws: auto-increment ids and a random order number. */
  datatype Keys = Keys(order: nat, orderNo: string, items: seq<nat>)

  const PAYMENT_WINDOW: int := 600_000    // milliseconds
  const REGISTRATION_BONUS: nat := 50_000
  const REQUEST_ID_WIDTH: nat := 64
  const PAYMENT_KEY_WIDTH: nat := 128

  ghost predicate FreshKeys(db: Db, keys: Keys, n: nat) {
    && keys.order !in db.orders
    && |keys.items| == n
    && (forall i :: 0 <= i < n ==> keys.items[i] !in db.items)
    && (forall i, j :: 0 <= i < j < n ==> keys.items[i] != keys.items[j])
  }

  /** The unique key on order numbers. */
  ghost predicate UniqueOrderNos(orders: map<nat, Order>) {
    forall a, b :: a in orders && b in orders && orders[a].orderNo == orders[b].orderNo ==> a == b
  }

  ghost predicate OrderNoTaken(orders: map<nat, Order>, orderNo: string) {
    exists o :: o in orders && orders[o].orderNo == orderNo
  }
}

/** The order transactions as functions of the tables: create, reject, expire. */
module Orders {
  import opened Words
  import opened Ascending
  import opened Cart
  import opened Tables

  datatype Outcome = Made | Duplicate | Refused(reason: Reason) | Failed

  // ---- pricing -------------------------------------------------------------------------------

  datatype Price = Priced(fen: nat) | NoPrice(reason: Reason)

  /** The price of one line, if its listing is on sale and the product fits 64 bits. */
  function LinePrice(listings: map<nat, Listing>, line: Item): Option<nat>
    requires WellFormed(line)
  {
    if line.listing !in listings || !listings[line.listing].active then None
    else if listings[line.listing].price > MAX_UINT / line.quantity then None
    else Some(listings[line.listing].price * line.quantity)
  }

  function PriceFrom(listings: map<nat, Listing>, lines: seq<Item>, total: nat): Price
    requires forall k :: 0 <= k < |lines| ==> WellFormed(lines[k])
    requires total <= MAX_UINT
  {
    if lines == [] then Priced(total)
    else match LinePrice(listings, lines[0])
      case None => NoPrice(ListingUnavailable)
      case Some(amount) =>
        if total > MAX_UINT - amount then NoPrice(InvalidRequest)
        else PriceFrom(listings, lines[1..], total + amount)
  }

  // ---- reserving -----------------------------------------------------------------------------

  datatype Stage = Stage(items: map<nat, OrderItem>, codes: map<nat, Code>)

  /** The codes of a listing that are for sale and that no other transaction has locked. */
  ghost function Free(codes: map<nat, Code>, listing: nat, locked: set<nat>): set<nat> {
    set c | c in codes && codes[c].listing == listing && codes[c].status == Available && c !in locked
  }

  function Hold(codes: map<nat, Code>, picked: set<nat>, order: nat, item: nat, until: int): map<nat, Code> {
    map c | c in codes ::
      if c in picked
      then codes[c].(status := Reserved, order := Some(order), item := Some(item), until := Some(until))
      else codes[c]
  }

  function NewItem(listings: map<nat, Listing>, order: nat, line: Item): OrderItem
    requires line.listing in listings
  {
    var price := listings[line.listing].price;
    OrderItem(order, line.listing, price, line.quantity, price * line.quantity, Pending)
  }

  /** One order item: its row, and the lowest free codes of its listing. A quantity that is negative
      as a signed word never matches a row count. */
  ghost function ReserveLine(stage: Stage, listings: map<nat, Listing>, order: nat, until: int,
                             line: Item, item: nat, locked: set<nat>): Option<Stage>
    requires line.listing in listings
  {
    var free := Free(stage.codes, line.listing, locked);
    if line.quantity >= TWO_63 || |free| < line.quantity then None
    else Some(Stage(stage.items[item := NewItem(listings, order, line)],
                    Hold(stage.codes, Lowest(free, line.quantity), order, item, until)))
  }

  ghost predicate AllListed(listings: map<nat, Listing>, lines: seq<Item>) {
    forall k :: 0 <= k < |lines| ==> lines[k].listing in listings
  }

  ghost function ReserveFrom(stage: Stage, listings: map<nat, Listing>, order: nat, until: int,
                             lines: seq<Item>, items: seq<nat>, locked: set<nat>): Option<Stage>
    requires AllListed(listings, lines) && |items| == |lines|
    decreases lines
  {
    if lines == [] then Some(stage)
    else match ReserveLine(stage, listings, order, until, lines[0], items[0], locked)
      case None => None
      case Some(next) => ReserveFrom(next, listings, order, until, lines[1..], items[1..], locked)
  }

  lemma {:induction false} PricedAreListed(listings: map<nat, Listing>, lines: seq<Item>, total: nat)
    requires forall k :: 0 <= k < |lines| ==> WellFormed(lines[k])
    requires total <= MAX_UINT && PriceFrom(listings, lines, total).Priced?
    ensures AllListed(listings, lines)
  {
    if lines != [] {
      var amount := LinePrice(listings, lines[0]).value;
      PricedAreListed(listings, lines[1..], total + amount);
      assert lines == [lines[0]] + lines[1..];
    }
  }

  // ---- the transactions ----------------------------------------------------------------------

  /** The body of the create transaction once the request row was not found. The row may have been
      inserted by somebody else since: then the unique key stops the insert. */
  ghost function CreateBody(db: Db, event: Event, lines: seq<Item>, now: int, keys: Keys, locked: set<nat>): (r: (Db, Outcome))
    requires Normal(lines) && FreshKeys(db, keys, |lines|)
  {
    match PriceFrom(db.listings, lines, 0)
    case NoPrice(reason) => (db, Refused(reason))
    case Priced(total) =>
      PricedAreListed(db.listings, lines, 0);
      if event.buyer !in db.users || OrderNoTaken(db.orders, keys.orderNo) then (db, Failed)
      else
        var until := now + PAYMENT_WINDOW;
        match ReserveFrom(Stage(db.items, db.codes), db.listings, keys.order, until, lines, keys.items, locked)
        case None => (db, Refused(OutOfStock))
        case Some(stage) =>
          if |event.requestId| > REQUEST_ID_WIDTH || event.requestId in db.requests then (db, Failed)
          else
            (db.(orders := db.orders[keys.order := Order(keys.orderNo, event.buyer, total, Pending, Some(until), None)],
                 items := stage.items,
                 codes := stage.codes,
                 requests := db.requests[event.requestId := Created(event.buyer, keys.order)]),
             Made)
  }

  /** The create transaction; `seen` is what its first read of the request row found. */
  ghost function CreateOrder(db: Db, event: Event, lines: seq<Item>, now: int, keys: Keys, locked: set<nat>, seen: bool): (Db, Outcome)
    requires Normal(lines) && FreshKeys(db, keys, |lines|)
  {
    if seen then (db, Duplicate) else CreateBody(db, event, lines, now, keys, locked)
  }

  /** Insert a rejected row unless a row is there. */
  function Reject(db: Db, event: Event, reason: Reason): (Db, bool) {
    if event.requestId in db.requests then (db, true)
    else if |event.requestId| > REQUEST_ID_WIDTH || event.buyer !in db.users then (db, false)
    else (db.(requests := db.requests[event.requestId := Rejected(event.buyer, reason)]), true)
  }

  predicate HeldBy(code: Code, order: nat) {
    code.order == Some(order) && code.status == Reserved
  }

  function Release(codes: map<nat, Code>, order: nat): map<nat, Code> {
    map c | c in codes ::
      if HeldBy(codes[c], order)
      then codes[c].(status := Available, order := None, item := None, until := None)
      else codes[c]
  }

  function MoveItems(items: map<nat, OrderItem>, order: nat, status: OrderStatus): map<nat, OrderItem> {
    map i | i in items ::
      if items[i].order == order && items[i].status == Pending then items[i].(status := status) else items[i]
  }

  predicate Overdue(order: Order, now: int) {
    order.status == Pending && order.expiresAt.Some? && order.expiresAt.value <= now
  }

  /** The listings that get codes back when an order expires. */
  function Released(codes: map<nat, Code>, order: nat): set<nat> {
    set c | c in codes && HeldBy(codes[c], order) :: codes[c].listing
  }

  function ExpireOne(db: Db, order: nat, now: int): Db {
    if order !in db.orders || !Overdue(db.orders[order], now) then db
    else db.(orders := db.orders[order := db.orders[order].(status := Expired)],
             codes := Release(db.codes, order),
             items := MoveItems(db.items, order, Expired))
  }
}

/** Why a request is refused: the first line of its cart that stops the pricing, or else the stock. */
module Refusals {
  import opened Words
  import opened Cart
  import opened Tables
  import opened Orders
  import opened Reserving
  import opened Idempotency
  import opened Inventory

  predicate ForSale(listings: map<nat, Listing>, line: Item) {
    line.listing in listings && listings[line.listing].active
  }

  /** The lines before `k` are for sale, and what they cost together fits 64 bits on top of `total`. */
  ghost predicate PricedUpTo(listings: map<nat, Listing>, lines: seq<Item>, total: nat, k: nat) {
    && k <= |lines|
    && (forall j :: 0 <= j < k ==> ForSale(listings, lines[j]))
    && AllListed(listings, lines[..k]) && total + Cost(listings, lines[..k]) <= MAX_UINT
  }

  /** The pricing gets as far as line `k`, which is not for sale or too dear by itself. */
  ghost predicate Unavailable(listings: map<nat, Listing>, lines: seq<Item>, total: nat, k: nat) {
    && k < |lines| && PricedUpTo(listings, lines, total, k)
    && (ForSale(listings, lines[k]) ==> listings[lines[k].listing].price * lines[k].quantity > MAX_UINT)
  }

  /** The pricing gets as far as line `k`, which is for sale and only with the lines before it too dear. */
  ghost predicate TooDear(listings: map<nat, Listing>, lines: seq<Item>, total: nat, k: nat) {
    && k < |lines| && PricedUpTo(listings, lines, total, k) && ForSale(listings, lines[k])
    && listings[lines[k].listing].price * lines[k].quantity <= MAX_UINT
    && total + Cost(listings, lines[..k]) + listings[lines[k].listing].price * lines[k].quantity > MAX_UINT
  }

  /** With the first line priced, the pricing stops in the rest where it stops in the whole. */
  lemma StopsLater(listings: map<nat, Listing>, lines: seq<Item>, total: nat, k: nat)
    requires lines != [] && ForSale(listings, lines[0])
    requires total + listings[lines[0].listing].price * lines[0].quantity <= MAX_UINT
    ensures var rest, sum := lines[1..], total + listings[lines[0].listing].price * lines[0].quantity;
      && (Unavailable(listings, rest, sum, k) <==> Unavailable(listings, lines, total, k + 1))
      && (TooDear(listings, rest, sum, k) <==> TooDear(listings, lines, total, k + 1))
  {
    if k < |lines[1..]| {
      assert lines[1..][k] == lines[k + 1];
      CostLater(listings, lines, total, k);
    }
  }

  lemma CostLater(listings: map<nat, Listing>, lines: seq<Item>, total: nat, k: nat)
    requires lines != [] && k < |lines[1..]| && ForSale(listings, lines[0])
    ensures var rest, sum := lines[1..], total + listings[lines[0].listing].price * lines[0].quantity;
      && (PricedUpTo(listings, rest, sum, k) <==> PricedUpTo(listings, lines, total, k + 1))
      && (AllListed(listings, lines[..k + 1]) ==>
            AllListed(listings, rest[..k]) && sum + Cost(listings, rest[..k]) == total + Cost(listings, lines[..k + 1]))
  {
    assert lines[..k + 1] == [lines[0]] + lines[1..][..k];
    assert lines[..k + 1][1..] == lines[1..][..k];
    assert forall j :: 0 <= j < k ==> lines[1..][j] == lines[j + 1];
  }

  /** The pricing stops at no line, or at one for one reason. */
  lemma {:induction false} StopsExactly(listings: map<nat, Listing>, lines: seq<Item>, total: nat)
    requires forall k :: 0 <= k < |lines| ==> WellFormed(lines[k])
    requires total <= MAX_UINT
    ensures PriceFrom(listings, lines, total) != NoPrice(OutOfStock)
    ensures PriceFrom(listings, lines, total) == NoPrice(ListingUnavailable) <==> exists k: nat :: Unavailable(listings, lines, total, k)
    ensures PriceFrom(listings, lines, total) == NoPrice(InvalidRequest) <==> exists k: nat :: TooDear(listings, lines, total, k)
  {
    if lines != [] {
      var line := lines[0];
      assert lines[..0] == [];
      if ForSale(listings, line) {
        GuardIsExact(listings[line.listing].price, line.quantity);
      }
      if ForSale(listings, line) && total + listings[line.listing].price * line.quantity <= MAX_UINT {
        StopsExactly(listings, lines[1..], total + listings[line.listing].price * line.quantity);
        LaterStops(listings, lines, total);
      } else {
        FirstStops(listings, lines, total);
      }
    }
  }

  lemma LaterStops(listings: map<nat, Listing>, lines: seq<Item>, total: nat)
    requires lines != [] && ForSale(listings, lines[0])
    requires total + listings[lines[0].listing].price * lines[0].quantity <= MAX_UINT
    ensures var rest, sum := lines[1..], total + listings[lines[0].listing].price * lines[0].quantity;
      && ((exists k: nat :: Unavailable(listings, rest, sum, k)) <==> exists k: nat :: Unavailable(listings, lines, total, k))
      && ((exists k: nat :: TooDear(listings, rest, sum, k)) <==> exists k: nat :: TooDear(listings, lines, total, k))
  {
    var rest, sum := lines[1..], total + listings[lines[0].listing].price * lines[0].quantity;
    forall k: nat
      ensures Unavailable(listings, rest, sum, k) ==> Unavailable(listings, lines, total, k + 1)
      ensures TooDear(listings, rest, sum, k) ==> TooDear(listings, lines, total, k + 1)
    {
      StopsLater(listings, lines, total, k);
    }
    forall k: nat
      ensures Unavailable(listings, lines, total, k) ==> k > 0 && Unavailable(listings, rest, sum, k - 1)
      ensures TooDear(listings, lines, total, k) ==> k > 0 && TooDear(listings, rest, sum, k - 1)
    {
      if k > 0 {
        StopsLater(listings, lines, total, k - 1);
      } else {
        NotAtFirst(listings, lines, total);
      }
    }
  }

  lemma NotAtFirst(listings: map<nat, Listing>, lines: seq<Item>, total: nat)
    requires lines != [] && ForSale(listings, lines[0])
    requires total + listings[lines[0].listing].price * lines[0].quantity <= MAX_UINT
    ensures !Unavailable(listings, lines, total, 0) && !TooDear(listings, lines, total, 0)
  {
    assert lines[..0] == [];
  }

  /** Nothing past the first line is priced when the first line is not. */
  lemma FirstStops(listings: map<nat, Listing>, lines: seq<Item>, total: nat)
    requires lines != [] && total <= MAX_UINT
    requires ForSale(listings, lines[0]) ==> total + listings[lines[0].listing].price * lines[0].quantity > MAX_UINT
    ensures (exists k: nat :: Unavailable(listings, lines, total, k)) <==>
              (ForSale(listings, lines[0]) ==> listings[lines[0].listing].price * lines[0].quantity > MAX_UINT)
    ensures (exists k: nat :: TooDear(listings, lines, total, k)) <==>
              ForSale(listings, lines[0]) && listings[lines[0].listing].price * lines[0].quantity <= MAX_UINT
  {
    assert lines[..0] == [];
    assert PricedUpTo(listings, lines, total, 0);
    forall k: nat | k > 0 ensures !PricedUpTo(listings, lines, total, k) {
      if k <= |lines| && ForSale(listings, lines[0]) && AllListed(listings, lines[..k]) {
        assert lines[..k][0] == lines[0];
        assert Cost(listings, lines[..k]) >= listings[lines[0].listing].price * lines[0].quantity;
      }
    }
    var unavailable := ForSale(listings, lines[0]) ==> listings[lines[0].listing].price * lines[0].quantity > MAX_UINT;
    assert unavailable == Unavailable(listings, lines, total, 0);
    assert unavailable == !TooDear(listings, lines, total, 0);
  }

  /** Every line is for sale and the price of the cart fits 64 bits. */
  ghost predicate Priceable(listings: map<nat, Listing>, lines: seq<Item>) {
    PricedUpTo(listings, lines, 0, |lines|)
  }

  /**
   * What the create transaction answers and why. The cart is looked at first, line by line, then the buyer
   * and the order number, then the stock, and last the row.
   */
  lemma RefusedExactlyWhen(db: Db, event: Event, lines: seq<Item>, now: int, keys: Keys, locked: set<nat>)
    requires Normal(lines) && FreshKeys(db, keys, |lines|)
    ensures var outcome := CreateBody(db, event, lines, now, keys, locked).1;
      var accepted := event.buyer in db.users && !OrderNoTaken(db.orders, keys.orderNo);
      var noRow := event.requestId !in db.requests && |event.requestId| <= REQUEST_ID_WIDTH;
      && (outcome == Refused(ListingUnavailable) <==> exists k: nat :: Unavailable(db.listings, lines, 0, k))
      && (outcome == Refused(InvalidRequest) <==> exists k: nat :: TooDear(db.listings, lines, 0, k))
      && (outcome == Refused(OutOfStock) <==> Priceable(db.listings, lines) && accepted && !InStock(db.codes, lines, locked))
      && (outcome == Failed <==>
            Priceable(db.listings, lines) && (!accepted || (InStock(db.codes, lines, locked) && !noRow)))
  {
    hide InStock, OrderNoTaken, Cost, PriceFrom, ReserveFrom, AllListed, Unavailable, TooDear;
    StopsExactly(db.listings, lines, 0);
    PriceIsCost(db.listings, lines, 0);
    assert lines[..|lines|] == lines;
    if PriceFrom(db.listings, lines, 0).Priced? {
      ReserveIffInStock(Stage(db.items, db.codes), db.listings, keys.order, now + PAYMENT_WINDOW, lines, keys.items, locked);
    }
    ListedIfForSale(db.listings, lines);
  }

  lemma ListedIfForSale(listings: map<nat, Listing>, lines: seq<Item>)
    ensures AllListed(listings, lines) && (forall k :: 0 <= k < |lines| ==> listings[lines[k].listing].active)
            <==> forall k :: 0 <= k < |lines| ==> ForSale(listings, lines[k])
  {
  }

  // ---- what the buyer is told ----------------------------------------------------------------

  /** What a request has to have wrong with it, at the moment of its transaction, for this reason to be its answer. */
  ghost predicate Deserves(db: Db, items: seq<Item>, locked: set<nat>, reason: Reason) {
    match reason
    case InvalidRequest => !Accepted(items) || exists k: nat :: TooDear(db.listings, Merged(items), 0, k)
    case ListingUnavailable => Accepted(items) && exists k: nat :: Unavailable(db.listings, Merged(items), 0, k)
    case OutOfStock => Accepted(items) && Priceable(db.listings, Merged(items)) && !InStock(db.codes, Merged(items), locked)
  }

  lemma RefusedDeservedly(db: Db, event: Event, now: int, keys: Keys, locked: set<nat>, reason: Reason)
    requires Accepted(event.items) && Normal(Merged(event.items)) && FreshKeys(db, keys, |Merged(event.items)|)
    requires event.buyer in db.users && !OrderNoTaken(db.orders, keys.orderNo)
    ensures CreateBody(db, event, Merged(event.items), now, keys, locked).1 == Refused(reason)
            <==> Deserves(db, event.items, locked, reason)
  {
    hide CreateBody, Accepted, Merged, Normal, FreshKeys, InStock, OrderNoTaken, Priceable, Unavailable, TooDear;
    RefusedExactlyWhen(db, event, Merged(event.items), now, keys, locked);
  }

  lemma RefusedOnlyDeservedly(db: Db, event: Event, now: int, keys: Keys, locked: set<nat>, reason: Reason)
    requires Accepted(event.items) && Normal(Merged(event.items)) && FreshKeys(db, keys, |Merged(event.items)|)
    requires CreateBody(db, event, Merged(event.items), now, keys, locked).1 == Refused(reason)
    ensures Deserves(db, event.items, locked, reason)
  {
    hide CreateBody, Accepted, Merged, Normal, FreshKeys, InStock, OrderNoTaken, Priceable, Unavailable, TooDear;
    RefusedExactlyWhen(db, event, Merged(event.items), now, keys, locked);
  }

  /** A request the database can take a row for, and keys it can use. */
  ghost predicate Submitted(db: Db, event: Event, keys: Keys) {
    && event.buyer != 0 && TrimSpace(event.requestId) != "" && |event.requestId| <= REQUEST_ID_WIDTH
    && event.requestId !in db.requests && event.buyer in db.users && !OrderNoTaken(db.orders, keys.orderNo)
  }

  /** The rejected row with a reason it deserves is all that is new. */
  ghost predicate TurnedDownFor(db: Db, event: Event, locked: set<nat>, reason: Reason, next: Db) {
    && Deserves(db, event.items, locked, reason)
    && next == db.(requests := db.requests[event.requestId := Rejected(event.buyer, reason)])
  }

  lemma NewIsDecided(db: Db, event: Event, lines: seq<Item>, now: int, keys: Keys, locked: set<nat>)
    requires Normal(lines) && FreshKeys(db, keys, |lines|) && Submitted(db, event, keys)
    ensures var (next, outcome) := CreateBody(db, event, lines, now, keys, locked);
      && (outcome.Made? || outcome.Refused?)
      && (outcome.Made? ==> next.requests == db.requests[event.requestId := Created(event.buyer, keys.order)])
      && (outcome.Refused? ==> next == db)
  {
    hide PriceFrom, ReserveFrom, OrderNoTaken, TrimSpace, AllListed;
  }

  /** `Process` leaves a new request with the row it deserves: created if nothing is wrong with it, otherwise rejected for what is. */
  lemma ProcessDecides(db: Db, event: Event, now: int, keys: Keys, locked: set<nat>)
    requires ProcessKeys(db, event, keys) && Submitted(db, event, keys)
    ensures var (next, handling) := Process(db, event, now, keys, locked);
      && (handling == MadeOrder || handling == TurnedDown)
      && (handling == MadeOrder ==> next.requests == db.requests[event.requestId := Created(event.buyer, keys.order)]
                                    && forall reason :: !Deserves(db, event.items, locked, reason))
      && (handling == TurnedDown ==> exists reason :: TurnedDownFor(db, event, locked, reason, next))
  {
    hide CreateBody, Deserves, Merged, OrderNoTaken, FreshKeys, Normal, TrimSpace, Accepted;
    if Accepted(event.items) {
      MergedIsNormal(event.items);
      NewIsDecided(db, event, Merged(event.items), now, keys, locked);
      forall reason ensures CreateBody(db, event, Merged(event.items), now, keys, locked).1 == Refused(reason)
                            <==> Deserves(db, event.items, locked, reason) {
        RefusedDeservedly(db, event, now, keys, locked, reason);
      }
      var outcome := CreateBody(db, event, Merged(event.items), now, keys, locked).1;
      assert outcome.Refused? ==> TurnedDownFor(db, event, locked, outcome.reason, Process(db, event, now, keys, locked).0);
    } else {
      NotAcceptedIsInvalid(db, event.items, locked);
      assert TurnedDownFor(db, event, locked, InvalidRequest, Process(db, event, now, keys, locked).0);
    }
  }

  lemma NotAcceptedIsInvalid(db: Db, items: seq<Item>, locked: set<nat>)
    requires !Accepted(items)
    ensures Deserves(db, items, locked, InvalidRequest)
  {
  }

  /** A request that has its row is known, unless its cart is not even acceptable; either way nothing changes. */
  lemma ProcessKnows(db: Db, event: Event, now: int, keys: Keys, locked: set<nat>)
    requires ProcessKeys(db, event, keys) && event.requestId in db.requests
    requires event.buyer != 0 && TrimSpace(event.requestId) != ""
    ensures Process(db, event, now, keys, locked) == (db, if Accepted(event.items) then AlreadyKnown else TurnedDown)
  {
    hide CreateBody, Merged, Accepted, FreshKeys;
  }
}

/** The inventory display cache beside the tables: whole service operations, and the agreement of
    every cached number with the number of codes on sale. */
module Inventory {
  import opened Words
  import opened Ascending
  import opened Cart
  import opened Tables
  import opened Orders
  import opened Payments
  import opened ShopInvariant
  import opened Reserving
  import opened Keeping
  import opened Paying
  import opened ShopRuns
  import opened Promises

  type Cache = map<nat, nat>

  function OnSale(codes: map<nat, Code>, l: nat): set<nat> {
    InStatus(codes, l, CodeStatus.Available)
  }

  /** Every cached number is the number of codes on sale. */
  ghost predicate Agrees(cache: Cache, codes: map<nat, Code>) {
    forall l :: l in cache ==> cache[l] == |OnSale(codes, l)|
  }

  /** The decrement script: it never creates an entry and never goes below zero. */
  function Minus(n: nat, amount: nat): nat {
    if n < amount then 0 else n - amount
  }

  function Decremented(cache: Cache, reserved: map<nat, nat>): Cache {
    map l | l in cache :: if l in reserved then Minus(cache[l], reserved[l]) else cache[l]
  }

  ghost function ReservedBy(lines: seq<Item>): map<nat, nat> {
    map l | l in Listings(lines) :: QuantityOf(lines, l)
  }

  // ---- creating ------------------------------------------------------------------------------

  lemma HoldTakes(codes: map<nat, Code>, picked: set<nat>, o: nat, i: nat, until: int, listing: nat, l: nat)
    requires picked <= OnSale(codes, listing)
    ensures |OnSale(Hold(codes, picked, o, i, until), l)| + (if l == listing then |picked| else 0) == |OnSale(codes, l)|
  {
    var next := Hold(codes, picked, o, i, until);
    if l == listing {
      assert OnSale(codes, l) == OnSale(next, l) + picked;
    } else {
      assert OnSale(next, l) == OnSale(codes, l);
    }
  }

  lemma LineTakes(stage: Stage, listings: map<nat, Listing>, o: nat, until: int, line: Item, i: nat, locked: set<nat>, next: Stage, l: nat)
    requires line.listing in listings
    requires ReserveLine(stage, listings, o, until, line, i, locked) == Some(next)
    ensures |OnSale(next.codes, l)| + Units(line, l) == |OnSale(stage.codes, l)|
  {
    var picked := Lowest(Free(stage.codes, line.listing, locked), line.quantity);
    HoldTakes(stage.codes, picked, o, i, until, line.listing, l);
  }

  lemma QuantityCons(line: Item, rest: seq<Item>, l: nat)
    ensures QuantityOf([line] + rest, l) == Units(line, l) + QuantityOf(rest, l)
  {
    QuantityConcat([line], rest, l);
    QuantityOne(line, l);
  }

  /** Reserving takes from every listing exactly what the lines ask of it. */
  lemma {:induction false} ReserveTakes(stage: Stage, listings: map<nat, Listing>, o: nat, until: int,
                                        lines: seq<Item>, ids: seq<nat>, locked: set<nat>, done: Stage, l: nat)
    requires AllListed(listings, lines) && |ids| == |lines|
    requires ReserveFrom(stage, listings, o, until, lines, ids, locked) == Some(done)
    ensures |OnSale(done.codes, l)| + QuantityOf(lines, l) == |OnSale(stage.codes, l)|
    decreases lines
  {
    if lines != [] {
      assert lines == [lines[0]] + lines[1..];
      var next := ReserveLine(stage, listings, o, until, lines[0], ids[0], locked).value;
      LineTakes(stage, listings, o, until, lines[0], ids[0], locked, next, l);
      QuantityCons(lines[0], lines[1..], l);
      ReserveTakes(next, listings, o, until, lines[1..], ids[1..], locked, done, l);
    }
  }

  lemma CreateTakes(db: Db, event: Event, lines: seq<Item>, now: int, keys: Keys, locked: set<nat>, l: nat)
    requires Normal(lines) && FreshKeys(db, keys, |lines|)
    requires CreateBody(db, event, lines, now, keys, locked).1.Made?
    ensures |OnSale(CreateBody(db, event, lines, now, keys, locked).0.codes, l)| + QuantityOf(lines, l) == |OnSale(db.codes, l)|
  {
    var next := CreateBody(db, event, lines, now, keys, locked).0;
    PricedAreListed(db.listings, lines, 0);
    hide OnSale, PriceFrom;
    ReserveTakes(Stage(db.items, db.codes), db.listings, keys.order, now + PAYMENT_WINDOW, lines, keys.items, locked,
                 Stage(next.items, next.codes), l);
  }

  /** After a creation the decremented cache agrees again, and the decrement did not have to clamp. */
  lemma CreateAgrees(cache: Cache, db: Db, event: Event, lines: seq<Item>, now: int, keys: Keys, locked: set<nat>)
    requires Agrees(cache, db.codes) && Normal(lines) && FreshKeys(db, keys, |lines|)
    requires CreateBody(db, event, lines, now, keys, locked).1.Made?
    ensures Agrees(Decremented(cache, ReservedBy(lines)), CreateBody(db, event, lines, now, keys, locked).0.codes)
    ensures forall l :: l in cache && l in ReservedBy(lines) ==> cache[l] >= ReservedBy(lines)[l]
  {
    var next := CreateBody(db, event, lines, now, keys, locked).0;
    hide CreateBody, OnSale;
    forall l ensures |OnSale(next.codes, l)| + QuantityOf(lines, l) == |OnSale(db.codes, l)| {
      CreateTakes(db, event, lines, now, keys, locked, l);
    }
    forall l | l !in Listings(lines) ensures QuantityOf(lines, l) == 0 { NoUnitsOutside(lines, l); }
  }

  // ---- expiring ------------------------------------------------------------------------------

  /** Only the listings that get codes back change, and their entries are dropped. */
  lemma ExpireAgrees(cache: Cache, db: Db, o: nat, now: int)
    requires Agrees(cache, db.codes)
    ensures var next := ExpireOne(db, o, now);
            Agrees(if next == db then cache else cache - Released(db.codes, o), next.codes)
  {
    var next := ExpireOne(db, o, now);
    if next != db {
      forall l | l !in Released(db.codes, o) ensures OnSale(next.codes, l) == OnSale(db.codes, l) {
      }
    }
  }

  lemma PayAgrees(cache: Cache, db: Db, buyer: nat, key: string, orderNo: string, now: int, paymentNo: string)
    requires Agrees(cache, db.codes) && Inv(db) && WordTotals(db)
    ensures Agrees(cache, Pay(db, buyer, key, orderNo, now, paymentNo).0.codes)
  {
    var o := PayEffect(db, buyer, key, orderNo, now, paymentNo);
    hide Inv, Pay;
    forall l ensures OnSale(Sell(db.codes, HeldCodes(db.codes, o)), l) == OnSale(db.codes, l) { SellTakesNone(db.codes, o, l); }
    hide Sell, OnSale;
  }

  lemma SellTakesNone(codes: map<nat, Code>, o: nat, l: nat)
    ensures OnSale(Sell(codes, HeldCodes(codes, o)), l) == OnSale(codes, l)
  {
  }

  // ---- whole operations ----------------------------------------------------------------------

  datatype Handling = MadeOrder | AlreadyKnown | TurnedDown | Error

  ghost predicate ProcessKeys(db: Db, event: Event, keys: Keys) {
    Normalized(event.items).Some? ==> FreshKeys(db, keys, |Merged(event.items)|)
  }

  ghost function CreateFor(db: Db, event: Event, now: int, keys: Keys, locked: set<nat>): (Db, Outcome)
    requires Accepted(event.items) && ProcessKeys(db, event, keys)
  {
    MergedIsNormal(event.items);
    CreateOrder(db, event, Merged(event.items), now, keys, locked, event.requestId in db.requests)
  }

  ghost function Refuse(db: Db, event: Event, reason: Reason): (Db, Handling) {
    var (next, ok) := Reject(db, event, reason);
    (next, if ok then TurnedDown else Error)
  }

  /** `Process` run to completion: validate, normalise, create, and turn business errors into a row. */
  ghost function Process(db: Db, event: Event, now: int, keys: Keys, locked: set<nat>): (Db, Handling)
    requires ProcessKeys(db, event, keys)
  {
    if event.buyer == 0 || TrimSpace(event.requestId) == "" then (db, Error)
    else if !Accepted(event.items) then Refuse(db, event, InvalidRequest)
    else
      var (next, outcome) := CreateFor(db, event, now, keys, locked);
      match outcome
      case Made => (next, MadeOrder)
      case Duplicate => (next, AlreadyKnown)
      case Refused(reason) => Refuse(db, event, reason)
      case Failed => (db, if event.requestId in db.requests then AlreadyKnown else Error)
  }

  ghost function ProcessCache(cache: Cache, event: Event, handling: Handling): Cache {
    if handling.MadeOrder? then Decremented(cache, ReservedBy(Merged(event.items))) else cache
  }

  lemma RefuseKeepsCodes(db: Db, event: Event, reason: Reason)
    ensures Refuse(db, event, reason).0.codes == db.codes && !Refuse(db, event, reason).1.MadeOrder?
  {
  }

  lemma NotMadeUnchanged(db: Db, event: Event, lines: seq<Item>, now: int, keys: Keys, locked: set<nat>)
    requires Normal(lines) && FreshKeys(db, keys, |lines|)
    ensures !CreateBody(db, event, lines, now, keys, locked).1.Made? ==> CreateBody(db, event, lines, now, keys, locked).0 == db
  {
  }

  lemma ProcessAgrees(cache: Cache, db: Db, event: Event, now: int, keys: Keys, locked: set<nat>)
    requires Agrees(cache, db.codes) && ProcessKeys(db, event, keys)
    ensures var (next, handling) := Process(db, event, now, keys, locked);
            Agrees(ProcessCache(cache, event, handling), next.codes)
  {
    hide Agrees, CreateBody, Refuse;
    forall reason ensures Refuse(db, event, reason).0.codes == db.codes && !Refuse(db, event, reason).1.MadeOrder? { RefuseKeepsCodes(db, event, reason); }
    if Accepted(event.items) {
      MergedIsNormal(event.items);
      NotMadeUnchanged(db, event, Merged(event.items), now, keys, locked);
      if CreateFor(db, event, now, keys, locked).1.Made? {
        CreateAgrees(cache, db, event, Merged(event.items), now, keys, locked);
      }
    }
  }

  /** What a reader is told; `Refreshing` while somebody else counts. */
  datatype Answer = Count(units: nat) | Refreshing | NoListing

  /** `Available`: the cached number, or the count, which is then cached. */
  function Available(cache: Cache, codes: map<nat, Code>, l: nat): (Cache, nat) {
    if l in cache then (cache, cache[l]) else (cache[l := |OnSale(codes, l)|], |OnSale(codes, l)|)
  }

  // ---- runs of whole operations --------------------------------------------------------------

  datatype Op =
    | Handle(event: Event, now: int, keys: Keys, locked: set<nat>)
    | Sweep(order: nat, now: int)
    | Buy(buyer: nat, key: string, orderNo: string, now: int, paymentNo: string)
    | Ask(listing: nat)
    | Vanish(listing: nat)
    | Enrol(user: nat, bonus: bool)
    | Edit(id: nat, row: Listing)             // a seller edits or adds a listing

  ghost predicate Allowed(db: Db, op: Op) {
    match op
    case Handle(event, now, keys, locked) => ProcessKeys(db, event, keys)
    case Buy(buyer, key, orderNo, now, paymentNo) => WordTotals(db)
    case _ => true
  }

  ghost function Perform(db: Db, cache: Cache, op: Op): (Db, Cache)
    requires Allowed(db, op)
  {
    match op
    case Handle(event, now, keys, locked) =>
      var (next, handling) := Process(db, event, now, keys, locked);
      (next, ProcessCache(cache, event, handling))
    case Sweep(order, now) =>
      var next := ExpireOne(db, order, now);
      (next, if next == db then cache else cache - Released(db.codes, order))
    case Buy(buyer, key, orderNo, now, paymentNo) => (Pay(db, buyer, key, orderNo, now, paymentNo).0, cache)
    case Ask(listing) => (db, Available(cache, db.codes, listing).0)
    case Vanish(listing) => (db, cache - {listing})
    case Enrol(user, bonus) => (Register(db, user, bonus).0, cache)
    case Edit(id, row) => (db.(listings := db.listings[id := row]), cache)
  }

  lemma ProcessKeeps(db: Db, event: Event, now: int, keys: Keys, locked: set<nat>)
    requires Inv(db) && ProcessKeys(db, event, keys)
    ensures Inv(Process(db, event, now, keys, locked).0)
  {
    hide Inv, CreateBody, Reject;
    forall reason ensures Inv(Refuse(db, event, reason).0) { RejectKeeps(db, event, reason); }
    if Accepted(event.items) {
      MergedIsNormal(event.items);
      CreateKeeps(db, event, Merged(event.items), now, keys, locked);
    }
  }

  lemma PerformAgrees(db: Db, cache: Cache, op: Op)
    requires Inv(db) && Agrees(cache, db.codes) && Allowed(db, op)
    ensures Inv(Perform(db, cache, op).0) && Agrees(Perform(db, cache, op).1, Perform(db, cache, op).0.codes)
  {
    hide Inv, Process, ExpireOne, Pay;
    match op
    case Handle(event, now, keys, locked) => hide Agrees; ProcessKeeps(db, event, now, keys, locked); ProcessAgrees(cache, db, event, now, keys, locked);
    case Sweep(order, now) => hide Agrees; ExpireKeeps(db, order, now); ExpireAgrees(cache, db, order, now);
    case Buy(buyer, key, orderNo, now, paymentNo) => hide Agrees; PayKeeps(db, buyer, key, orderNo, now, paymentNo); PayAgrees(cache, db, buyer, key, orderNo, now, paymentNo);
    case Ask(listing) =>
    case Vanish(listing) =>
    case Enrol(user, bonus) => RegisterKeeps(db, user, bonus);
    case Edit(id, row) => RelistKeeps(db, id, row);
  }

  ghost predicate Operations(dbs: seq<Db>, caches: seq<Cache>, ops: seq<Op>) {
    && |dbs| == |caches| == |ops| + 1
    && (forall n :: 0 <= n < |ops| ==> Allowed(dbs[n], ops[n]) && (dbs[n + 1], caches[n + 1]) == Perform(dbs[n], caches[n], ops[n]))
  }

  /** In every run of completed operations, with entries vanishing at any time, what `Available`
      answers is the number of codes on sale at that moment. */
  lemma {:induction false} AvailableIsExact(dbs: seq<Db>, caches: seq<Cache>, ops: seq<Op>, n: nat, l: nat)
    requires Operations(dbs, caches, ops) && n < |dbs|
    requires Inv(dbs[0]) && Agrees(caches[0], dbs[0].codes)
    ensures Inv(dbs[n]) && Agrees(caches[n], dbs[n].codes)
    ensures Available(caches[n], dbs[n].codes, l).1 == |OnSale(dbs[n].codes, l)|
  {
    hide Inv, Agrees, Perform, Allowed, Available;
    if n > 0 {
      AvailableIsExact(dbs, caches, ops, n - 1, l);
      PerformAgrees(dbs[n - 1], caches[n - 1], ops[n - 1]);
    }
    AnswersExactly(caches[n], dbs[n].codes, l);
  }

  lemma AnswersExactly(cache: Cache, codes: map<nat, Code>, l: nat)
    requires Agrees(cache, codes)
    ensures Available(cache, codes, l).1 == |OnSale(codes, l)|
  {
  }

  /** Agreement needs the operations whole. When the count of an `Available` is taken, then an order
      commits and finds no entry to decrement, and only then the count is cached, the cache is wrong:
      this happens for every order that takes a code of the listing. */
  lemma LateFillDisagrees(db: Db, event: Event, lines: seq<Item>, now: int, keys: Keys, locked: set<nat>, l: nat)
    requires Normal(lines) && FreshKeys(db, keys, |lines|) && l in Listings(lines)
    requires CreateBody(db, event, lines, now, keys, locked).1.Made?
    ensures var counted := |OnSale(db.codes, l)|;
            var next := CreateBody(db, event, lines, now, keys, locked).0;
            var cache := Decremented(map[], ReservedBy(lines));
            !Agrees(cache[l := counted], next.codes)
  {
    CreateTakes(db, event, lines, now, keys, locked, l);
    var k := ListedAt(lines, l);
    PositiveQuantity(lines, k);
  }
}

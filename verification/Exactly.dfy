/** What delivery at least once amounts to: one terminal row a request, made from a message that was sent. */
module Exactly {
  import opened Words
  import opened Ascending
  import opened Cart
  import opened Tables
  import opened Orders
  import opened Payments
  import opened ShopInvariant
  import opened Reserving
  import opened Keeping
  import opened Paying
  import opened Delivery
  import Runs = ShopRuns

  const NO_ID: string := ""

  // ---- what an order is made of --------------------------------------------------------------

  predicate IsLine(item: OrderItem, o: nat, line: Item) {
    item.order == o && item.listing == line.listing && item.quantity == line.quantity
  }

  ghost predicate HasLine(items: map<nat, OrderItem>, o: nat, line: Item) {
    exists i :: i in items && IsLine(items[i], o, line)
  }

  ghost predicate FromLine(lines: seq<Item>, o: nat, item: OrderItem) {
    exists k :: 0 <= k < |lines| && IsLine(item, o, lines[k])
  }

  predicate OneListing(a: OrderItem, b: OrderItem, o: nat) {
    a.order == o && b.order == o && a.listing == b.listing
  }

  ghost predicate OneItemEach(items: map<nat, OrderItem>, o: nat) {
    forall i, j :: i in items && j in items && OneListing(items[i], items[j], o) ==> i == j
  }

  /** The items of an order are the lines of a cart, one each. */
  ghost predicate Carries(items: map<nat, OrderItem>, o: nat, lines: seq<Item>) {
    && (forall k :: 0 <= k < |lines| ==> HasLine(items, o, lines[k]))
    && (forall i :: i in items && items[i].order == o ==> FromLine(lines, o, items[i]))
    && OneItemEach(items, o)
  }

  lemma CarriesStays(a: map<nat, OrderItem>, orders: map<nat, Order>, b: map<nat, OrderItem>, o: nat, lines: seq<Item>)
    requires Carries(a, o, lines) && Runs.ItemsLater(a, orders, b) && o in orders
    ensures Carries(b, o, lines)
  {
  }

  lemma NewOrderCarries(items: map<nat, OrderItem>, orders: map<nat, Order>, listings: map<nat, Listing>, o: nat,
                        lines: seq<Item>, ids: seq<nat>)
    requires ItemsOk(items, orders) && o !in orders && Increasing(Ids(lines))
    requires AllListed(listings, lines) && |ids| == |lines| && NewIds(items, ids)
    ensures Carries(WithItems(items, listings, o, lines, ids), o, lines)
  {
    hide WithItems, AllListed, NewIds, ItemsOk, Carries, RowPerLine;
    NewRows(items, orders, listings, o, lines, ids);
    RowsCarry(WithItems(items, listings, o, lines, ids), o, lines, ids);
  }

  ghost predicate AtId(ids: seq<nat>, i: nat, k: nat) {
    0 <= k < |ids| && ids[k] == i
  }

  ghost predicate RowPerLine(all: map<nat, OrderItem>, o: nat, lines: seq<Item>, ids: seq<nat>) {
    && |ids| == |lines|
    && (forall k :: 0 <= k < |lines| ==> ids[k] in all && IsLine(all[ids[k]], o, lines[k]))
    && (forall i :: i in all && all[i].order == o ==> exists k: nat :: AtId(ids, i, k))
  }

  lemma RowsCarry(all: map<nat, OrderItem>, o: nat, lines: seq<Item>, ids: seq<nat>)
    requires Increasing(Ids(lines)) && RowPerLine(all, o, lines, ids)
    ensures Carries(all, o, lines)
  {
    hide FromLine, HasLine, OneItemEach, RowPerLine;
    forall k | 0 <= k < |lines| ensures HasLine(all, o, lines[k]) { LineHasRow(all, o, lines, ids, k); }
    forall i | i in all && all[i].order == o ensures FromLine(lines, o, all[i]) { RowHasLine(all, o, lines, ids, i); }
    RowsApart(all, o, lines, ids);
  }

  lemma LineHasRow(all: map<nat, OrderItem>, o: nat, lines: seq<Item>, ids: seq<nat>, k: nat)
    requires RowPerLine(all, o, lines, ids) && k < |lines|
    ensures HasLine(all, o, lines[k])
  {
  }

  lemma RowHasLine(all: map<nat, OrderItem>, o: nat, lines: seq<Item>, ids: seq<nat>, i: nat)
    requires RowPerLine(all, o, lines, ids) && i in all && all[i].order == o
    ensures FromLine(lines, o, all[i])
  {
  }

  lemma RowsApart(all: map<nat, OrderItem>, o: nat, lines: seq<Item>, ids: seq<nat>)
    requires Increasing(Ids(lines)) && RowPerLine(all, o, lines, ids)
    ensures OneItemEach(all, o)
  {
    forall i, j | i in all && j in all && OneListing(all[i], all[j], o) ensures i == j {
      var k: nat :| AtId(ids, i, k);
      var m: nat :| AtId(ids, j, m);
      assert IsLine(all[ids[k]], o, lines[k]) && IsLine(all[ids[m]], o, lines[m]);
      assert Ids(lines)[k] == Ids(lines)[m];
    }
  }

  /** The new order's rows are just those with the new ids. */
  lemma NewRows(items: map<nat, OrderItem>, orders: map<nat, Order>, listings: map<nat, Listing>, o: nat,
                lines: seq<Item>, ids: seq<nat>)
    requires ItemsOk(items, orders) && o !in orders
    requires AllListed(listings, lines) && |ids| == |lines| && NewIds(items, ids)
    ensures RowPerLine(WithItems(items, listings, o, lines, ids), o, lines, ids)
  {
    var all := WithItems(items, listings, o, lines, ids);
    ItemsAddUp(items, listings, o, lines, ids);
    hide WithItems;
    forall i | i in all && all[i].order == o ensures exists k: nat :: AtId(ids, i, k) {
      assert i !in items;
      assert i in Elements(ids);
      var k: nat :| k < |ids| && ids[k] == i;
      assert AtId(ids, i, k);
    }
  }

  // ---- where rows come from ------------------------------------------------------------------

  /** The row is the outcome of that message. */
  ghost predicate MadeFrom(log: map<nat, seq<Message>>, items: map<nat, OrderItem>, id: string, row: Request, at: Place) {
    && Has(log, at) && Sensible(At(log, at))
    && var event := At(log, at).event;
    && event.requestId == id && event.buyer == row.buyer && |id| <= REQUEST_ID_WIDTH
    && (row.Created? ==> Normalized(event.items).Some? && Carries(items, row.order, Merged(event.items)))
  }

  ghost predicate Sourced(log: map<nat, seq<Message>>, items: map<nat, OrderItem>, id: string, row: Request) {
    exists at :: MadeFrom(log, items, id, row, at)
  }

  ghost predicate RowsOk(y: Sys) {
    forall id :: id in y.db.requests ==> Sourced(y.log, y.db.items, id, y.db.requests[id])
  }

  lemma SourcedStays(y: Sys, z: Sys, id: string)
    requires RequestsOk(y.db.requests, y.db.orders) && id in y.db.requests
    requires Sourced(y.log, y.db.items, id, y.db.requests[id])
    requires LogGrows(y.log, z.log) && Runs.ItemsLater(y.db.items, y.db.orders, z.db.items)
    ensures Sourced(z.log, z.db.items, id, y.db.requests[id])
  {
    hide Carries, Normalized, Runs.ItemsLater;
    var row := y.db.requests[id];
    var at :| MadeFrom(y.log, y.db.items, id, row, at);
    if row.Created? {
      CarriesStays(y.db.items, y.db.orders, z.db.items, row.order, Merged(At(y.log, at).event.items));
    }
    assert MadeFrom(z.log, z.db.items, id, row, at);
  }

  /** A step that adds no row but perhaps one, which is sourced. */
  lemma RowsStay(y: Sys, z: Sys, id: string)
    requires RowsOk(y) && RequestsOk(y.db.requests, y.db.orders)
    requires LogGrows(y.log, z.log) && Runs.ItemsLater(y.db.items, y.db.orders, z.db.items)
    requires Runs.Extends(y.db.requests, z.db.requests) && z.db.requests.Keys <= y.db.requests.Keys + {id}
    requires id in z.db.requests && id !in y.db.requests ==> Sourced(z.log, z.db.items, id, z.db.requests[id])
    ensures RowsOk(z)
  {
    hide Sourced, RequestsOk, LogGrows, Runs.ItemsLater;
    forall r | r in z.db.requests ensures Sourced(z.log, z.db.items, r, z.db.requests[r]) {
      if r in y.db.requests { SourcedStays(y, z, r); }
    }
  }

  lemma MadeIsSourced(log: map<nat, seq<Message>>, db: Db, at: Place, now: int, keys: Keys, locked: set<nat>)
    requires Inv(db) && Has(log, at) && Sensible(At(log, at))
    requires var event := At(log, at).event;
      && Normalized(event.items).Some? && Normal(Merged(event.items)) && FreshKeys(db, keys, |Merged(event.items)|)
      && CreateBody(db, event, Merged(event.items), now, keys, locked).1.Made?
    ensures var event := At(log, at).event;
      var next := CreateBody(db, event, Merged(event.items), now, keys, locked).0;
      && next.requests == db.requests[event.requestId := Created(event.buyer, keys.order)]
      && Sourced(log, next.items, event.requestId, next.requests[event.requestId])
  {
    var event := At(log, at).event;
    var lines := Merged(event.items);
    CommandIsNormal(event.items);
    MadeCarries(db, event, lines, now, keys, locked);
    hide Carries, Inv, CreateBody, FreshKeys, Normalized, Normal, Merged;
    var next := CreateBody(db, event, lines, now, keys, locked).0;
    assert MadeFrom(log, next.items, event.requestId, next.requests[event.requestId], at);
  }

  lemma MadeCarries(db: Db, event: Event, lines: seq<Item>, now: int, keys: Keys, locked: set<nat>)
    requires Inv(db) && Normal(lines) && lines != [] && FreshKeys(db, keys, |lines|)
    requires CreateBody(db, event, lines, now, keys, locked).1.Made?
    ensures var next := CreateBody(db, event, lines, now, keys, locked).0;
      && |event.requestId| <= REQUEST_ID_WIDTH
      && next.requests == db.requests[event.requestId := Created(event.buyer, keys.order)]
      && Carries(next.items, keys.order, lines)
  {
    Runs.CreateItems(db, event, lines, now, keys, locked);
    Runs.KeysReservable(db, lines, keys);
    ItemsFromInv(db);
    MadeRow(db, event, lines, now, keys, locked);
    hide Carries, Inv, CreateBody, FreshKeys, WithItems, Runs.ItemsLater, ItemsOk, AllListed, NewIds;
    NewOrderCarries(db.items, db.orders, db.listings, keys.order, lines, keys.items);
  }

  lemma MadeRow(db: Db, event: Event, lines: seq<Item>, now: int, keys: Keys, locked: set<nat>)
    requires Normal(lines) && FreshKeys(db, keys, |lines|)
    requires CreateBody(db, event, lines, now, keys, locked).1.Made?
    ensures |event.requestId| <= REQUEST_ID_WIDTH
    ensures CreateBody(db, event, lines, now, keys, locked).0.requests
            == db.requests[event.requestId := Created(event.buyer, keys.order)]
  {
  }

  lemma ItemsFromInv(db: Db)
    requires Inv(db)
    ensures ItemsOk(db.items, db.orders) && RequestsOk(db.requests, db.orders)
  {
  }

  lemma LaterParts(a: Db, b: Db)
    requires Runs.Later(a, b)
    ensures Runs.Extends(a.requests, b.requests) && Runs.ItemsLater(a.items, a.orders, b.items)
  {
  }

  lemma TransactRows(y: Sys, w: nat, now: int, keys: Keys, locked: set<nat>, lost: bool)
    requires Inv(y.db) && RowsOk(y) && Enabled(y, Transact(w, now, keys, locked, lost))
    ensures RowsOk(Next(y, Transact(w, now, keys, locked, lost)))
  {
    var step := Transact(w, now, keys, locked, lost);
    var z := Next(y, step);
    var event := EventOf(y, w);
    ItemsFromInv(y.db);
    CommandIsNormal(event.items);
    ShopStays(y, step);
    LogSame(y.log);
    hide Inv, Sourced, RowsOk, LogGrows, Runs.ItemsLater, CreateBody, Sensible, Normalized, Normal, FreshKeys, SameStock;
    if z.db != y.db {
      NotMadeKeeps(y.db, event, Merged(event.items), now, keys, locked);
      MadeIsSourced(y.log, y.db, y.workers[w].phase.at, now, keys, locked);
    }
    RowsStay(y, z, event.requestId);
  }

  lemma NotMadeKeeps(db: Db, event: Event, lines: seq<Item>, now: int, keys: Keys, locked: set<nat>)
    requires Normal(lines) && FreshKeys(db, keys, |lines|)
    ensures !CreateBody(db, event, lines, now, keys, locked).1.Made? ==> CreateBody(db, event, lines, now, keys, locked).0 == db
  {
  }

  lemma RejectionAdds(y: Sys, w: nat)
    requires Enabled(y, InsertRejection(w))
    ensures var z := Next(y, InsertRejection(w));
      var event := EventOf(y, w);
      && z.log == y.log && z.db.items == y.db.items
      && z.db.requests.Keys <= y.db.requests.Keys + {event.requestId}
      && (event.requestId in z.db.requests && event.requestId !in y.db.requests ==>
            |event.requestId| <= REQUEST_ID_WIDTH
            && z.db.requests[event.requestId] == Rejected(event.buyer, y.workers[w].phase.reason))
  {
    hide Sensible;
  }

  lemma RejectionRows(y: Sys, w: nat)
    requires Inv(y.db) && RowsOk(y) && Enabled(y, InsertRejection(w))
    ensures RowsOk(Next(y, InsertRejection(w)))
  {
    hide Inv, RowsOk, LogGrows, Runs.Later, Runs.ItemsLater, Runs.Extends, Sensible, Normalized, Carries, RequestsOk, Next, Sourced;
    var z := Next(y, InsertRejection(w));
    ItemsFromInv(y.db);
    ShopStays(y, InsertRejection(w));
    LaterParts(y.db, z.db);
    LogSame(y.log);
    RejectionAdds(y, w);
    var at, event := y.workers[w].phase.at, EventOf(y, w);
    if event.requestId in z.db.requests && event.requestId !in y.db.requests {
      RejectedSourced(z.log, z.db.items, at, z.db.requests[event.requestId]);
    }
    RowsStay(y, z, event.requestId);
  }

  lemma RejectedSourced(log: map<nat, seq<Message>>, items: map<nat, OrderItem>, at: Place, row: Request)
    requires Has(log, at) && Sensible(At(log, at)) && |At(log, at).event.requestId| <= REQUEST_ID_WIDTH
    requires row.Rejected? && row.buyer == At(log, at).event.buyer
    ensures Sourced(log, items, At(log, at).event.requestId, row)
  {
    assert MadeFrom(log, items, At(log, at).event.requestId, row, at);
  }

  lemma OthersAddNoRow(db: Db, step: Runs.Step)
    requires Inv(db) && Runs.Enabled(db, step) && !step.Create? && !step.TurnDown?
    ensures Runs.Next(db, step).requests == db.requests
  {
    hide Inv, Pay, ExpireOne, Register;
    match step
    case PayFor(buyer, key, orderNo, now, paymentNo) => PayAddsNoRow(db, buyer, key, orderNo, now, paymentNo);
    case Expire(order, now) => ExpireAddsNoRow(db, order, now);
    case SignUp(user, bonus) => RegisterAddsNoRow(db, user, bonus);
    case Relist(id, listing) =>
    case Create(event, lines, now, keys, locked, seen) =>
    case TurnDown(event, reason) =>
  }

  lemma ExpireAddsNoRow(db: Db, o: nat, now: int)
    ensures ExpireOne(db, o, now).requests == db.requests
  {
  }

  lemma RegisterAddsNoRow(db: Db, user: nat, bonus: bool)
    ensures Register(db, user, bonus).0.requests == db.requests
  {
  }

  lemma PayAddsNoRow(db: Db, buyer: nat, key: string, orderNo: string, now: int, paymentNo: string)
    requires Inv(db) && Runs.WordTotals(db)
    ensures Pay(db, buyer, key, orderNo, now, paymentNo).0.requests == db.requests
  {
    hide Inv, Pay, Settle;
    var o := PayCases(db, buyer, key, orderNo, now, paymentNo);
    if Pay(db, buyer, key, orderNo, now, paymentNo).0 != db {
      SettleAddsNoRow(db, buyer, TrimSpace(key), o, now, paymentNo);
    }
  }

  lemma SettleAddsNoRow(db: Db, buyer: nat, key: string, o: nat, now: int, paymentNo: string)
    requires o in db.orders && db.orders[o].total < TWO_64
    requires buyer in db.balances && db.orders[o].total <= db.balances[buyer]
    ensures Settle(db, buyer, key, o, now, paymentNo).0.requests == db.requests
  {
  }

  lemma OtherRows(y: Sys, step: Runs.Step)
    requires Inv(y.db) && RowsOk(y) && Enabled(y, Other(step))
    ensures RowsOk(Next(y, Other(step)))
  {
    hide Inv, RowsOk, LogGrows, Runs.Later, Runs.ItemsLater, Runs.Extends, Runs.Next, Runs.Enabled, Sourced, RequestsOk;
    ItemsFromInv(y.db);
    OthersAddNoRow(y.db, step);
    ShopStays(y, Other(step));
    LaterParts(y.db, Runs.Next(y.db, step));
    LogSame(y.log);
    RowsStay(y, Next(y, Other(step)), NO_ID);
  }

  lemma SourcesStay(y: Sys, step: Step)
    requires Inv(y.db) && WorkersOk(y) && CommitsOk(y) && RowsOk(y) && Enabled(y, step)
    ensures RowsOk(Next(y, step))
  {
    hide Inv, RowsOk, WorkersOk, CommitsOk, LogGrows;
    match step
    case Transact(w, now, keys, locked, lost) => TransactRows(y, w, now, keys, locked, lost);
    case InsertRejection(w) => RejectionRows(y, w);
    case Other(s) => OtherRows(y, s);
    case Publish(p, m) => PublishOk(y, p, m); QuietRows(y, step);
    case Assign(w, p) => LogSame(y.log); QuietRows(y, step);
    case Restart(w) => LogSame(y.log); QuietRows(y, step);
    case Fetch(w, p) => LogSame(y.log); QuietRows(y, step);
    case TurnAway(w) => LogSame(y.log); QuietRows(y, step);
    case Look(w) => LogSame(y.log); QuietRows(y, step);
    case Abort(w) => LogSame(y.log); QuietRows(y, step);
    case LookAgain(w) => LogSame(y.log); QuietRows(y, step);
    case Commit(w) => LogSame(y.log); QuietRows(y, step);
  }

  /** Steps that leave the tables alone. */
  lemma QuietRows(y: Sys, step: Step)
    requires Inv(y.db) && RowsOk(y) && Enabled(y, step) && LogGrows(y.log, Next(y, step).log)
    requires !step.Transact? && !step.InsertRejection? && !step.Other?
    ensures RowsOk(Next(y, step))
  {
    ItemsFromInv(y.db);
    ShopMoves(y, step);
    ShopStays(y, step);
    hide Inv, RowsOk, LogGrows, Runs.ItemsLater, SameStock, Sourced, Next, Enabled;
    RowsStay(y, Next(y, step), NO_ID);
  }

  // ---- runs ----------------------------------------------------------------------------------

  ghost predicate SysOk(y: Sys) {
    Inv(y.db) && WorkersOk(y) && CommitsOk(y) && RowsOk(y)
  }

  /** A shop without requests, a topic of any contents, nothing committed, and workers that have just started. */
  ghost predicate Starts(y: Sys) {
    && Inv(y.db) && y.db.requests == map[] && y.committed == map[]
    && (forall w :: w in y.workers ==> y.workers[w] == RESTARTED)
  }

  lemma StartIsOk(y: Sys)
    requires Starts(y)
    ensures SysOk(y)
  {
    hide Inv;
  }

  lemma SysStepKeeps(y: Sys, step: Step)
    requires SysOk(y) && Enabled(y, step)
    ensures SysOk(Next(y, step)) && Runs.Later(y.db, Next(y, step).db)
  {
    hide Inv, WorkersOk, CommitsOk, RowsOk, Next, Enabled, Runs.Later;
    ShopStays(y, step);
    QueueStays(y, step);
    SourcesStay(y, step);
  }

  ghost predicate SysRun(ys: seq<Sys>, steps: seq<Step>) {
    && |ys| == |steps| + 1 && Starts(ys[0])
    && (forall n :: 0 <= n < |steps| ==> Enabled(ys[n], steps[n]) && ys[n + 1] == Next(ys[n], steps[n]))
  }

  lemma {:induction false} SysAlways(ys: seq<Sys>, steps: seq<Step>, n: nat)
    requires SysRun(ys, steps) && n < |ys|
    ensures SysOk(ys[n])
  {
    hide SysOk, Starts, Enabled, Next;
    if n == 0 {
      StartIsOk(ys[0]);
    } else {
      SysAlways(ys, steps, n - 1);
      SysStepKeeps(ys[n - 1], steps[n - 1]);
    }
  }

  lemma {:induction false} SysForever(ys: seq<Sys>, steps: seq<Step>, m: nat, n: nat)
    requires SysRun(ys, steps) && m <= n < |ys|
    ensures Runs.Later(ys[m].db, ys[n].db)
  {
    hide SysOk, Starts, Enabled, Next, Runs.Later;
    if m == n {
      Runs.LaterRefl(ys[m].db);
    } else {
      SysForever(ys, steps, m, n - 1);
      SysAlways(ys, steps, n - 1);
      SysStepKeeps(ys[n - 1], steps[n - 1]);
      Runs.LaterTrans(ys[m].db, ys[n - 1].db, ys[n].db);
    }
  }

  /** Every message below a partition's committed offset is a command, and its request has been decided. */
  lemma CommittedAreDecided(ys: seq<Sys>, steps: seq<Step>, n: nat, at: Place)
    requires SysRun(ys, steps) && n < |ys| && at.offset < Committed(ys[n], at.partition)
    ensures Has(ys[n].log, at) && Sensible(At(ys[n].log, at))
    ensures At(ys[n].log, at).event.requestId in ys[n].db.requests
  {
    SysAlways(ys, steps, n);
    hide Inv, Enabled, Next, WorkersOk, RowsOk, Starts, SysRun;
    assert AllDoneBelow(ys[n].log, ys[n].db.requests, Place(at.partition, Committed(ys[n], at.partition)));
    assert Delivery.Done(ys[n].log, ys[n].db.requests, Place(at.partition, at.offset));
  }

  /** So a message that no worker can process holds its partition up for good. */
  lemma PoisonBlocks(ys: seq<Sys>, steps: seq<Step>, n: nat, at: Place)
    requires SysRun(ys, steps) && n < |ys| && Has(ys[n].log, at)
    requires !Sensible(At(ys[n].log, at)) || |At(ys[n].log, at).event.requestId| > REQUEST_ID_WIDTH
    ensures Committed(ys[n], at.partition) <= at.offset
  {
    hide SysRun, SysOk;
    if at.offset < Committed(ys[n], at.partition) {
      CommittedAreDecided(ys, steps, n, at);
      SysAlways(ys, steps, n);
      RowIdsFit(ys[n], At(ys[n].log, at).event.requestId);
    }
  }

  lemma RowIdsFit(y: Sys, id: string)
    requires SysOk(y) && id in y.db.requests
    ensures |id| <= REQUEST_ID_WIDTH
  {
  }

  /** A decision is final. */
  lemma DecisionsAreFinal(ys: seq<Sys>, steps: seq<Step>, m: nat, n: nat, id: string)
    requires SysRun(ys, steps) && m <= n < |ys| && id in ys[m].db.requests
    ensures id in ys[n].db.requests && ys[n].db.requests[id] == ys[m].db.requests[id]
  {
    hide SysRun, Runs.Later;
    SysForever(ys, steps, m, n);
    LaterParts(ys[m].db, ys[n].db);
  }

  predicate OrderedBy(requests: map<string, Request>, id: string, o: nat) {
    id in requests && requests[id].Created? && requests[id].order == o
  }

  /** Every order there is was asked for. */
  lemma NoOrderUnasked(ys: seq<Sys>, steps: seq<Step>, n: nat, o: nat) returns (id: string)
    requires SysRun(ys, steps) && n < |ys| && o in ys[n].db.orders
    ensures OrderedBy(ys[n].db.requests, id, o)
  {
    hide SysRun, Inv, WorkersOk, CommitsOk, RowsOk, RequestsOk, ItemsOk;
    SysAlways(ys, steps, n);
    ItemsFromInv(ys[n].db);
    id := OrderHasRow(ys[n].db.requests, ys[n].db.orders, o);
  }

  lemma OrderHasRow(requests: map<string, Request>, orders: map<nat, Order>, o: nat) returns (id: string)
    requires RequestsOk(requests, orders) && o in orders
    ensures OrderedBy(requests, id, o)
  {
    assert o in Requested(requests);
    id :| id in requests && requests[id].Created? && requests[id].order == o;
  }

  /** Delivering a decided command again, in whatever phase another worker decided it, changes no table. */
  lemma RedeliveryChangesNothing(y: Sys, step: Step)
    requires Enabled(y, step) && (step.Transact? || step.InsertRejection?)
    requires EventOf(y, step.w).requestId in y.db.requests
    ensures Next(y, step).db == y.db
  {
    hide PriceFrom, ReserveFrom, OrderNoTaken, FreshKeys, Normalized, Normal, Sensible, Merged;
  }

  // ---- and it is delivered -------------------------------------------------------------------

  ghost predicate Legal(y: Sys, steps: seq<Step>)
    decreases |steps|
  {
    steps == [] || (Enabled(y, steps[0]) && Legal(Next(y, steps[0]), steps[1..]))
  }

  ghost function RunOn(y: Sys, steps: seq<Step>): Sys
    requires Legal(y, steps)
    decreases |steps|
  {
    if steps == [] then y else RunOn(Next(y, steps[0]), steps[1..])
  }

  /** A request that was validly submitted, and keys the database will accept for it. */
  ghost predicate Deliverable(y: Sys, event: Event, keys: Keys) {
    && |event.requestId| <= REQUEST_ID_WIDTH && event.buyer in y.db.users
    && (Normalized(event.items).Some? ==>
          FreshKeys(y.db, keys, |Merged(event.items)|) && !OrderNoTaken(y.db.orders, keys.orderNo))
  }

  function StepsLeft(phase: Phase): nat {
    match phase
    case Idle => 0
    case Got(_) => 4
    case Checked(_, _) => 3
    case Turning(_, _) => 2
    case Failing(_) => 2
    case Processed(_) => 1
  }

  /** The step a worker takes next with its message. */
  ghost function Onward(y: Sys, w: nat, now: int, keys: Keys, locked: set<nat>, lost: bool): Step
    requires Busy(y, w)
  {
    match y.workers[w].phase
    case Got(_) => if Normalized(EventOf(y, w).items).Some? then Look(w) else TurnAway(w)
    case Checked(_, _) => Transact(w, now, keys, locked, lost)
    case Turning(_, _) => InsertRejection(w)
    case Failing(_) => LookAgain(w)
    case Processed(_) => Commit(w)
    case Idle => Commit(w)
  }

  /** The worker is on a straight way to its commit. */
  ghost predicate OnItsWay(y: Sys, w: nat, keys: Keys) {
    && Busy(y, w)
    && (if y.workers[w].phase.Processed? || y.workers[w].phase.Failing? then EventOf(y, w).requestId in y.db.requests
        else Deliverable(y, EventOf(y, w), keys))
    && (y.workers[w].phase.Checked? ==> Normalized(EventOf(y, w).items).Some?
                                        && y.workers[w].phase.seen == (EventOf(y, w).requestId in y.db.requests))
  }

  /** With an accepted order number, a known buyer and no row in the way the transaction does not fail. */
  lemma DoesNotFail(db: Db, event: Event, lines: seq<Item>, now: int, keys: Keys, locked: set<nat>, seen: bool)
    requires Normal(lines) && FreshKeys(db, keys, |lines|) && !OrderNoTaken(db.orders, keys.orderNo)
    requires |event.requestId| <= REQUEST_ID_WIDTH && event.buyer in db.users && seen == (event.requestId in db.requests)
    ensures var (next, outcome) := CreateOrder(db, event, lines, now, keys, locked, seen);
      && !outcome.Failed? && (!outcome.Made? ==> next == db) && (!outcome.Refused? ==> event.requestId in next.requests)
  {
  }

  lemma TransactGoesOnward(y: Sys, w: nat, now: int, keys: Keys, locked: set<nat>, lost: bool)
    requires OnItsWay(y, w, keys) && y.workers[w].phase.Checked?
    ensures Enabled(y, Transact(w, now, keys, locked, lost))
    ensures var z := Next(y, Transact(w, now, keys, locked, lost));
      && OnItsWay(z, w, keys) && z.workers[w].phase.at == y.workers[w].phase.at && z.log == y.log
      && StepsLeft(z.workers[w].phase) < StepsLeft(y.workers[w].phase)
  {
    hide CreateOrder, Normal, Normalized, Merged, FreshKeys, OrderNoTaken, Sensible;
    var event := EventOf(y, w);
    CommandIsNormal(event.items);
    DoesNotFail(y.db, event, Merged(event.items), now, keys, locked, y.workers[w].phase.seen);
    var z := Next(y, Transact(w, now, keys, locked, lost));
    assert Busy(z, w) && EventOf(z, w) == event;
    var (db, outcome) := CreateOrder(y.db, event, Merged(event.items), now, keys, locked, y.workers[w].phase.seen);
    assert z.db == db && z.workers[w].phase == AfterCreate(y.workers[w].phase.at, outcome, lost);
    assert outcome.Refused? ==> db == y.db;
    assert z.db == y.db ==> Deliverable(z, event, keys);
    assert !outcome.Refused? ==> event.requestId in z.db.requests;
    assert !outcome.Failed?;
  }

  lemma QuietGoesOnward(y: Sys, w: nat, now: int, keys: Keys, locked: set<nat>, lost: bool)
    requires OnItsWay(y, w, keys) && !y.workers[w].phase.Processed? && !y.workers[w].phase.Checked?
    ensures Enabled(y, Onward(y, w, now, keys, locked, lost))
    ensures var z := Next(y, Onward(y, w, now, keys, locked, lost));
      && OnItsWay(z, w, keys) && z.workers[w].phase.at == y.workers[w].phase.at && z.log == y.log
      && StepsLeft(z.workers[w].phase) < StepsLeft(y.workers[w].phase)
  {
    hide CreateOrder, Normal, Normalized, Merged, FreshKeys, OrderNoTaken, Sensible;
    var z := Next(y, Onward(y, w, now, keys, locked, lost));
    assert Busy(z, w) && EventOf(z, w) == EventOf(y, w);
    assert !z.workers[w].phase.Processed? ==> z.db == y.db;
    assert z.db == y.db && !y.workers[w].phase.Failing? ==> Deliverable(z, EventOf(z, w), keys);
  }

  lemma GoesOnward(y: Sys, w: nat, now: int, keys: Keys, locked: set<nat>, lost: bool)
    requires OnItsWay(y, w, keys) && !y.workers[w].phase.Processed?
    ensures Enabled(y, Onward(y, w, now, keys, locked, lost))
    ensures var z := Next(y, Onward(y, w, now, keys, locked, lost));
      && OnItsWay(z, w, keys) && z.workers[w].phase.at == y.workers[w].phase.at && z.log == y.log
      && StepsLeft(z.workers[w].phase) < StepsLeft(y.workers[w].phase)
  {
    hide Enabled, Next, Deliverable, Sensible;
    if y.workers[w].phase.Checked? {
      assert Onward(y, w, now, keys, locked, lost) == Transact(w, now, keys, locked, lost);
      TransactGoesOnward(y, w, now, keys, locked, lost);
    } else {
      QuietGoesOnward(y, w, now, keys, locked, lost);
    }
  }

  /** A worker left to itself brings a validly submitted message to its row and commits it, even if the reply of its transaction is lost. */
  lemma {:induction false} Finishes(y: Sys, w: nat, now: int, keys: Keys, locked: set<nat>, lost: bool) returns (steps: seq<Step>)
    requires OnItsWay(y, w, keys)
    ensures Legal(y, steps)
    ensures var z := RunOn(y, steps);
      && Committed(z, y.workers[w].phase.at.partition) == y.workers[w].phase.at.offset + 1
      && EventOf(y, w).requestId in z.db.requests
    decreases StepsLeft(y.workers[w].phase)
  {
    var step := Onward(y, w, now, keys, locked, lost);
    if y.workers[w].phase.Processed? {
      steps := [step];
    } else {
      GoesOnward(y, w, now, keys, locked, lost);
      var rest := Finishes(Next(y, step), w, now, keys, locked, lost);
      steps := [step] + rest;
      assert steps[1..] == rest;
    }
  }

  /**
   * So a partition whose next message is validly submitted gets past it: an idle worker that is assigned the
   * partition fetches the message at the committed offset, and goes all the way to the commit.
   */
  lemma Advances(y: Sys, w: nat, p: nat, now: int, keys: Keys, locked: set<nat>, lost: bool) returns (steps: seq<Step>)
    requires w in y.workers && y.workers[w].phase.Idle?
    requires var at := Place(p, Committed(y, p)); Has(y.log, at) && Sensible(At(y.log, at)) && Deliverable(y, At(y.log, at).event, keys)
    ensures Legal(y, steps)
    ensures var z := RunOn(y, steps);
      && Committed(z, p) == Committed(y, p) + 1
      && At(y.log, Place(p, Committed(y, p))).event.requestId in z.db.requests
  {
    hide TrimSpace, Deliverable;
    var a := Next(y, Assign(w, p));
    var b := Next(a, Fetch(w, p));
    assert b.workers[w].phase == Got(Place(p, Committed(y, p)));
    assert b.log == y.log && b.db == y.db;
    DeliverableSame(y, b, At(y.log, Place(p, Committed(y, p))).event, keys);
    var rest := Finishes(b, w, now, keys, locked, lost);
    steps := [Assign(w, p), Fetch(w, p)] + rest;
    assert steps[1..] == [Fetch(w, p)] + rest;
    assert steps[1..][1..] == rest;
    assert Legal(a, steps[1..]) && RunOn(a, steps[1..]) == RunOn(b, rest);
  }

  lemma DeliverableSame(y: Sys, z: Sys, event: Event, keys: Keys)
    requires Deliverable(y, event, keys) && z.db == y.db
    ensures Deliverable(z, event, keys)
  {
  }
}

/** The shop as the services run it: the tables and the display cache are fields, every transaction
    is a method that writes them in place and restores them when it fails. */
module Shop {
  import opened Words
  import opened Ascending
  import opened Sums
  import opened Cart
  import opened Tables
  import opened Orders
  import opened Payments
  import opened ShopInvariant
  import opened Keeping
  import opened Promises
  import opened Inventory
  import opened Sweep
  import opened Refusals
  import opened Deadlines

  class Database {
    var users: set<nat>
    const opening: map<nat, nat>
    var listings: map<nat, Listing>
    var codes: map<nat, Code>
    var orders: map<nat, Order>
    var items: map<nat, OrderItem>
    var requests: map<string, Request>
    var balances: map<nat, nat>
    var ledger: seq<Entry>
    var attempts: map<PaymentKey, Attempt>
    var bindings: map<nat, Binding>
    var cache: Cache

    function View(): Db
      reads this
    {
      Db(users, opening, listings, codes, orders, items, requests, balances, ledger, attempts, bindings)
    }

    constructor (db: Db)
      ensures View() == db && cache == map[]
    {
      users, opening, listings, codes, orders, items := db.users, db.opening, db.listings, db.codes, db.orders, db.items;
      requests, balances, ledger, attempts, bindings := db.requests, db.balances, db.ledger, db.attempts, db.bindings;
      cache := map[];
    }

    /** Rolling a transaction back. */
    method Restore(saved: Db)
      requires saved.opening == opening
      modifies this
      ensures View() == saved && cache == old(cache)
    {
      users, listings, codes, orders, items := saved.users, saved.listings, saved.codes, saved.orders, saved.items;
      requests, balances, ledger, attempts, bindings := saved.requests, saved.balances, saved.ledger, saved.attempts, saved.bindings;
    }

    // ---- queries -----------------------------------------------------------------------------

    method LeastOf(ids: set<nat>) returns (m: nat)
      requires ids != {}
      ensures m == Least(ids)
    {
      m :| m in ids;
      var rest := ids;
      while rest != {}
        invariant rest <= ids && m in ids
        invariant forall x :: x in ids && x !in rest ==> m <= x
      {
        var x :| x in rest;
        rest := rest - {x};
        if x < m { m := x; }
      }
      assert IsLeast(m, ids);
    }

    /** Rows of a set of ids in ascending order, at most `limit` of them. */
    method OrderById(ids: set<nat>, limit: Option<nat>) returns (rows: seq<nat>)
      ensures rows == if limit.Some? && limit.value < |ids| then InOrder(ids)[..limit.value] else InOrder(ids)
    {
      hide InOrder;
      var left := ids;
      rows := [];
      while left != {} && (limit.None? || |rows| < limit.value)
        invariant rows + InOrder(left) == InOrder(ids)
        invariant limit.Some? ==> |rows| <= limit.value
      {
        TakeLeast(rows, left, ids);
        var m := LeastOf(left);
        rows, left := rows + [m], left - {m};
      }
      TakeLeast(rows, left, ids);
    }

    method OrderNoInUse(orderNo: string) returns (used: bool)
      ensures used == OrderNoTaken(orders, orderNo)
    {
      used := exists o | o in orders :: orders[o].orderNo == orderNo;
    }

    method ReferenceInUse(reference: Reference) returns (used: bool)
      ensures used == Referenced(ledger, reference)
    {
      used := exists n | 0 <= n < |ledger| :: ledger[n].reference == reference;
    }

    method PaymentNoInUse(paymentNo: string) returns (used: bool)
      ensures used == PaymentNoTaken(attempts, paymentNo)
    {
      used := exists k | k in attempts :: attempts[k].paymentNo == paymentNo;
    }

    // ---- creating an order -------------------------------------------------------------------

    /** The pricing loop. */
    method PriceLines(lines: seq<Item>) returns (price: Price)
      requires forall k :: 0 <= k < |lines| ==> WellFormed(lines[k])
      ensures price == PriceFrom(listings, lines, 0)
      ensures price == NoPrice(ListingUnavailable) <==> exists k: nat :: Unavailable(listings, lines, 0, k)
      ensures price == NoPrice(InvalidRequest) <==> exists k: nat :: TooDear(listings, lines, 0, k)
      ensures price != NoPrice(OutOfStock)
    {
      StopsExactly(listings, lines, 0);
      hide Unavailable, TooDear;
      var total: nat := 0;
      for i := 0 to |lines|
        invariant total <= MAX_UINT
        invariant PriceFrom(listings, lines, 0) == PriceFrom(listings, lines[i..], total)
      {
        var line := lines[i];
        assert lines[i..][1..] == lines[i + 1..];
        if line.listing !in listings {
          return NoPrice(ListingUnavailable);
        }
        var listing := listings[line.listing];
        if !listing.active || listing.price > MAX_UINT / line.quantity {
          return NoPrice(ListingUnavailable);
        }
        var amount := listing.price * line.quantity;
        if total > MAX_UINT - amount {
          return NoPrice(InvalidRequest);
        }
        total := total + amount;
      }
      price := Priced(total);
    }

    /** One order item: insert it, select the lowest free codes, reserve them. A quantity that is
        negative as a signed word puts no limit on the selection, and then never matches its size. */
    method ReserveItem(order: nat, until: int, line: Item, item: nat, locked: set<nat>) returns (ok: bool)
      requires line.listing in listings && line.quantity <= MAX_UINT
      modifies this`items, this`codes
      ensures var next := ReserveLine(Stage(old(items), old(codes)), listings, order, until, line, item, locked);
              ok == next.Some? && (ok ==> Stage(items, codes) == next.value)
    {
      items := items[item := NewItem(listings, order, line)];
      var free := set c | c in codes && codes[c].listing == line.listing && codes[c].status == CodeStatus.Available && c !in locked;
      assert free == Free(codes, line.listing, locked);
      var limit := if line.quantity < TWO_63 then Some(line.quantity) else None;
      var ids := OrderById(free, limit);
      if |ids| != Signed(line.quantity) {
        return false;
      }
      var picked := set k | 0 <= k < |ids| :: ids[k];
      FullPick(free, line.quantity, ids, picked);
      hide Lowest, InOrder, Elements, Free;
      codes := Hold(codes, picked, order, item, until);
      ok := true;
    }

    /** The loop over the lines; it also adds up what it reserved of each listing. */
    method ReserveLines(order: nat, until: int, lines: seq<Item>, ids: seq<nat>, locked: set<nat>) returns (ok: bool, reserved: map<nat, nat>)
      requires AllListed(listings, lines) && |ids| == |lines| && Normal(lines)
      modifies this`items, this`codes
      ensures var stage := ReserveFrom(Stage(old(items), old(codes)), listings, order, until, lines, ids, locked);
              ok == stage.Some? && (ok ==> Stage(items, codes) == stage.value && reserved == ReservedBy(lines))
    {
      NormalIsWellFormed(lines);
      NoneReserved(lines);
      RestStart(Stage(items, codes), listings, order, until, lines, ids, locked);
      LinesListed(listings, lines);
      hide Normal, ReservedBy, ReserveLine, WellFormed, ReserveFrom, RestFrom, AllListed, AddedTo;
      reserved := map[];
      for i := 0 to |lines|
        invariant ReserveFrom(Stage(old(items), old(codes)), listings, order, until, lines, ids, locked)
               == RestFrom(Stage(items, codes), listings, order, until, lines, ids, i, locked)
        invariant reserved == ReservedBy(lines[..i])
      {
        ReservedStep(lines, i);
        RestStep(Stage(items, codes), listings, order, until, lines, ids, i, locked);
        ok := ReserveItem(order, until, lines[i], ids[i], locked);
        if !ok {
          return;
        }
        reserved := AddedTo(reserved, lines[i]);
      }
      RestEnd(Stage(items, codes), listings, order, until, lines, ids, locked);
      assert lines[..|lines|] == lines;
      ok := true;
    }

    /** The create transaction; `seen` is what its first read of the request row found. */
    method CreateOrder(event: Event, lines: seq<Item>, now: int, keys: Keys, locked: set<nat>, seen: bool) returns (outcome: Outcome)
      requires Normal(lines) && FreshKeys(View(), keys, |lines|)
      modifies this
      ensures View() == Orders.CreateOrder(old(View()), event, lines, now, keys, locked, seen).0
      ensures outcome == Orders.CreateOrder(old(View()), event, lines, now, keys, locked, seen).1
      ensures cache == if outcome.Made? then Decremented(old(cache), ReservedBy(lines)) else old(cache)
    {
      hide Normal, FreshKeys, OrderNoTaken, ReserveFrom, PriceFrom, Decremented, ReservedBy, AllListed;
      if seen {
        return Duplicate;
      }
      var before := View();
      NormalIsWellFormed(lines);
      var price := PriceLines(lines);
      if price.NoPrice? {
        return Refused(price.reason);
      }
      PricedAreListed(listings, lines, 0);
      FreshForLines(View(), keys, |lines|);
      var until := now + PAYMENT_WINDOW;
      var used := OrderNoInUse(keys.orderNo);
      if event.buyer !in users || used {
        return Failed;
      }
      orders := orders[keys.order := Order(keys.orderNo, event.buyer, price.fen, Pending, Some(until), None)];
      var ok, reserved := ReserveLines(keys.order, until, lines, keys.items, locked);
      if !ok {
        Restore(before);
        return Refused(OutOfStock);
      }
      if |event.requestId| > REQUEST_ID_WIDTH || event.requestId in requests {
        Restore(before);
        return Failed;
      }
      requests := requests[event.requestId := Created(event.buyer, keys.order)];
      DecrementCache(reserved);
      outcome := Made;
    }

    /** After the commit: decrement the entries that exist, in map order. */
    method DecrementCache(reserved: map<nat, nat>)
      modifies this`cache
      ensures cache == Decremented(old(cache), reserved)
    {
      var left := reserved.Keys;
      while left != {}
        invariant left <= reserved.Keys
        invariant cache == Decremented(old(cache), reserved - left)
      {
        var l :| l in left;
        left := left - {l};
        if l in cache {
          cache := cache[l := Minus(cache[l], reserved[l])];
        }
      }
    }

    // ---- rejecting, expiring -----------------------------------------------------------------

    /** Insert a rejected row unless a row is there. */
    method Reject(event: Event, reason: Reason) returns (ok: bool)
      modifies this
      ensures View() == Orders.Reject(old(View()), event, reason).0 && ok == Orders.Reject(old(View()), event, reason).1
      ensures cache == old(cache)
    {
      if event.requestId in requests {
        return true;
      }
      if |event.requestId| > REQUEST_ID_WIDTH || event.buyer !in users {
        return false;
      }
      requests := requests[event.requestId := Rejected(event.buyer, reason)];
      ok := true;
    }

    /** Expire one order: its codes go back on sale, and the listings that got some are returned. */
    method ExpireOne(order: nat, now: int) returns (found: bool, freed: set<nat>, changed: bool)
      modifies this
      ensures View() == Orders.ExpireOne(old(View()), order, now) && cache == old(cache)
      ensures found == (order in old(orders)) && changed == (order in old(orders) && Overdue(old(orders)[order], now))
      ensures freed == if changed then Released(old(codes), order) else {}
      ensures changed <==> order in old(orders) && Due(old(orders)[order], now)
    {
      if order !in orders {
        return false, {}, false;
      }
      if orders[order].status != Pending || orders[order].expiresAt.None? || orders[order].expiresAt.value > now {
        return true, {}, false;
      }
      orders := orders[order := orders[order].(status := Expired)];
      freed := {};
      var held := HeldCodes(codes, order);
      var left := held;
      while left != {}
        invariant left <= held && held == HeldCodes(codes, order) && unchanged(`codes) && unchanged(`items)
        invariant freed == set c | c in held && c !in left :: codes[c].listing
      {
        var c :| c in left;
        left := left - {c};
        freed := freed + {codes[c].listing};
      }
      codes := Release(codes, order);
      items := MoveItems(items, order, Expired);
      return true, freed, true;
    }

    /** The order that is due first. */
    method FirstOverdue(now: int, due: set<nat>) returns (o: nat)
      requires due != {} && due <= OverdueIn(orders, now)
      ensures o in due && forall b :: b in due && b != o ==> Before(orders, o, b)
    {
      o :| o in due;
      var rest := due - {o};
      while rest != {}
        invariant rest <= due && o in due && o !in rest
        invariant forall b :: b in due && b !in rest && b != o ==> Before(orders, o, b)
      {
        var b :| b in rest;
        rest := rest - {b};
        if Before(orders, b, o) { o := b; }
      }
    }

    /** The query of a sweep: `ORDER BY expires_at, id LIMIT`. */
    method DueOrders(limit: nat, now: int) returns (ids: seq<nat>)
      ensures DueBatch(orders, ids, limit, now)
      ensures forall k :: 0 <= k < |ids| ==> ids[k] in orders && Due(orders[ids[k]], now)
    {
      ids := [];
      var all := OverdueIn(orders, now);
      var due := all;
      while |ids| < limit && due != {}
        invariant due <= all && |ids| + |due| == |all| && |ids| <= limit
        invariant forall k :: 0 <= k < |ids| ==> ids[k] in all && ids[k] !in due
        invariant forall b :: b in all && b !in due ==> b in ids
        invariant forall j, k :: 0 <= j < k < |ids| ==> Before(orders, ids[j], ids[k])
        invariant forall k, b :: 0 <= k < |ids| && b in due ==> Before(orders, ids[k], b)
      {
        var o := FirstOverdue(now, due);
        ids := ids + [o];
        due := due - {o};
      }
    }

    /** One order of a sweep, with its cache entries. */
    method ExpireAndDrop(o: nat, now: int) returns (changed: bool)
      requires o in orders
      modifies this
      ensures changed == Overdue(old(orders)[o], now)
      ensures orders == if changed then old(orders)[o := old(orders)[o].(status := Expired)] else old(orders)
      ensures old(Inv(View())) ==> Inv(View())
      ensures Agrees(old(cache), old(codes)) ==> Agrees(cache, codes)
    {
      hide Inv, Agrees, Overdue, Orders.ExpireOne, Released;
      ghost var db := View();
      ExpiredOrders(db, o, now);
      if Inv(db) { ExpireKeeps(db, o, now); }
      if Agrees(cache, codes) { ExpireAgrees(cache, db, o, now); }
      var found, freed;
      found, freed, changed := ExpireOne(o, now);
      assert !changed ==> cache - freed == cache;
      cache := cache - freed;
    }

    /**
     * `ExpirePending`: the earliest overdue orders, at most `limit` of them, are looked up at one clock
     * reading and then expired one by one, each if it is overdue at a reading of its own; the cache entries
     * of the listings that got codes back are dropped. The first order whose transaction fails, at position
     * `reach`, ends the sweep with an error. With none, and unless the clock goes back, the whole batch expires.
     */
    method ExpirePending(limit: int, now: int, clock: nat -> int, reach: nat)
      returns (ok: bool, failed: bool, expired: nat, ghost ids: seq<nat>)
      modifies this
      ensures ok == (limit > 0)
      ensures !ok ==> View() == old(View()) && cache == old(cache) && expired == 0
      ensures ok ==> DueBatch(old(orders), ids, limit, now) && Known(old(orders), ids) && failed == (reach < |ids|)
      ensures ok ==> ExpiredIn(old(orders), orders, Passed(old(orders), ids, clock, Reached(ids, reach)))
      ensures ok ==> expired == |Passed(old(orders), ids, clock, Reached(ids, reach))|
      ensures ok && !failed && (forall k :: clock(k) >= now) ==>
        Swept(old(orders), orders, Elements(ids), now) && expired == |ids|
      ensures old(Inv(View())) ==> Inv(View())
      ensures Agrees(old(cache), old(codes)) ==> Agrees(cache, codes)
    {
      ids := [];
      if limit <= 0 {
        return false, false, 0, ids;
      }
      ghost var before := orders;
      var batch := DueOrders(limit, now);
      ids := batch;
      expired := ExpireBatch(batch, Reached(batch, reach), clock, limit, now);
      ok, failed := true, reach < |batch|;
      if !failed && forall k :: clock(k) >= now {
        AllPass(before, ids, clock, |ids|, limit, now);
        assert ids[..|ids|] == ids;
        BatchIsSweep(before, orders, ids, limit, now);
      }
    }

    method ExpireBatch(ids: seq<nat>, n: nat, clock: nat -> int, ghost limit: nat, ghost now: int) returns (expired: nat)
      requires DueBatch(orders, ids, limit, now) && n <= |ids|
      modifies this
      ensures Known(old(orders), ids)
      ensures ExpiredIn(old(orders), orders, Passed(old(orders), ids, clock, n))
      ensures expired == |Passed(old(orders), ids, clock, n)|
      ensures old(Inv(View())) ==> Inv(View())
      ensures Agrees(old(cache), old(codes)) ==> Agrees(cache, codes)
    {
      hide Inv, Agrees, DueBatch, ExpiredIn, Passed, Known, Overdue;
      BatchKnown(orders, ids, limit, now);
      NoneExpired(orders);
      NonePassed(orders, ids, clock);
      expired := 0;
      var i := 0;
      while i < n
        invariant 0 <= i <= n && Known(old(orders), ids)
        invariant ExpiredIn(old(orders), orders, Passed(old(orders), ids, clock, i))
        invariant expired == |Passed(old(orders), ids, clock, i)|
        invariant old(Inv(View())) ==> Inv(View())
        invariant Agrees(old(cache), old(codes)) ==> Agrees(cache, codes)
      {
        ghost var mid := orders;
        SameKeys(old(orders), mid, Passed(old(orders), ids, clock, i), ids, i);
        var changed := ExpireAndDrop(ids[i], clock(i));
        OneMorePass(old(orders), mid, orders, ids, clock, i, limit, now);
        if changed {
          expired := expired + 1;
        }
        i := i + 1;
      }
    }

    /**
     * The sweeping worker: sweep again as long as a sweep came back full. Sweep `s` looks its batch up at the
     * reading `look(s)`, expires its order `k` at `tick(s, k)`, and fails at its order `reach(s)`, if it gets
     * there, which ends the round. On a clock that does not go back, what has expired when it rests was overdue
     * at the last look, and if no sweep failed it is all that was.
     */
    method Drain(batch: nat, look: nat -> int, tick: (nat, nat) -> int, reach: nat -> nat) returns (last: nat, failed: bool)
      requires batch > 0
      modifies this
      ensures exists taken :: taken <= PendingIn(old(orders)) && ExpiredIn(old(orders), orders, taken)
      ensures Forward(look, tick) ==> exists taken ::
        taken <= OverdueIn(old(orders), look(last)) && ExpiredIn(old(orders), orders, taken)
      ensures Forward(look, tick) && !failed ==> ExpiredIn(old(orders), orders, OverdueIn(old(orders), look(last)))
      ensures Forward(look, tick) && !failed ==> OverdueIn(orders, look(last)) == {}
      ensures old(Inv(View())) ==> Inv(View())
      ensures Agrees(old(cache), old(codes)) ==> Agrees(cache, codes)
    {
      hide Inv, Agrees, Swept, DueBatch, Forward, ExpiredIn;
      ghost var taken: set<nat> := {};
      NoneExpired(orders);
      last := 0;
      while true
        invariant taken <= PendingIn(old(orders)) && ExpiredIn(old(orders), orders, taken)
        invariant Forward(look, tick) ==> taken <= OverdueIn(old(orders), look(last))
        invariant old(Inv(View())) ==> Inv(View())
        invariant Agrees(old(cache), old(codes)) ==> Agrees(cache, codes)
        decreases |PendingIn(orders)|
      {
        ghost var before := orders;
        var ok, expired;
        ghost var ids;
        ok, failed, expired, ids := ExpirePending(batch, look(last), Row(tick, last), reach(last));
        ghost var n := Reached(ids, reach(last));
        ghost var more := Passed(before, ids, Row(tick, last), n);
        RowsFollow(look, tick, last);
        OneMoreSweep(old(orders), before, orders, taken, more, ids, n, batch, look, tick, last, expired);
        taken := taken + more;
        if failed || expired != batch {
          break;
        }
        LaterOverdue(old(orders), look, tick, last);
        last := last + 1;
      }
    }

    // ---- paying ------------------------------------------------------------------------------

    method Pay(buyer: nat, rawKey: string, rawOrderNo: string, now: int, paymentNo: string) returns (result: Payment)
      requires UniqueOrderNos(orders) && forall o :: o in orders ==> orders[o].total < TWO_64
      modifies this
      ensures View() == Payments.Pay(old(View()), buyer, rawKey, rawOrderNo, now, paymentNo).0
      ensures result == Payments.Pay(old(View()), buyer, rawKey, rawOrderNo, now, paymentNo).1
      ensures cache == old(cache)
    {
      var orderNo, key := TrimSpace(rawOrderNo), TrimSpace(rawKey);
      if buyer == 0 || orderNo == "" || key == "" {
        return InvalidPayment;
      }
      var order := FindOrder(orderNo, buyer);
      if order.None? {
        return OrderUnavailable;
      }
      var o := order.value;
      if (buyer, key) in attempts {
        var attempt := attempts[(buyer, key)];
        if attempt.order != o {
          return IdempotencyConflict;
        }
        return Done(ReceiptOf(attempt));
      }
      if orders[o].status != Pending || (orders[o].expiresAt.Some? && orders[o].expiresAt.value <= now) {
        return OrderUnavailable;
      }
      var expected := CountQuantities(o);
      var held := HeldCodes(codes, o);
      if expected == 0 || |held| != Signed(expected) {
        return OrderUnavailable;
      }
      if buyer !in balances {
        return PaymentFailed;
      }
      if balances[buyer] < orders[o].total {
        return InsufficientBalance;
      }
      hide Payments.Settle, Expected;
      result := Settle(buyer, key, o, now, paymentNo);
    }

    method FindOrder(orderNo: string, buyer: nat) returns (o: Option<nat>)
      requires UniqueOrderNos(orders)
      ensures o == if HasOrder(orders, orderNo, buyer) then Some(OrderOf(orders, orderNo, buyer)) else None
    {
      if !exists p | p in orders :: IsOrderOf(orders, p, orderNo, buyer) {
        return None;
      }
      var p :| p in orders && IsOrderOf(orders, p, orderNo, buyer);
      o := Some(p);
    }

    /** The writes of a payment, undone when an insert is refused. */
    method Settle(buyer: nat, key: string, o: nat, now: int, paymentNo: string) returns (result: Payment)
      requires o in orders && orders[o].total < TWO_64
      requires buyer in balances && orders[o].total <= balances[buyer]
      modifies this
      ensures View() == Payments.Settle(old(View()), buyer, key, o, now, paymentNo).0
      ensures result == Payments.Settle(old(View()), buyer, key, o, now, paymentNo).1
      ensures cache == old(cache)
    {
      hide Referenced, AttemptRefused, BindFrom, MoveItems, Signed, Negated, HeldInOrder;
      var before := View();
      var order := orders[o];
      var ids := HeldIds(o);
      var booked := WriteBooks(buyer, key, o, order, paymentNo);
      if !booked {
        Restore(before);
        return PaymentFailed;
      }
      var failure := HandOver(o, order, ids, now);
      if failure.Some? {
        Restore(before);
        return failure.value;
      }
      result := Done(Receipt(paymentNo, order.total));
    }

    /** The order is paid, its codes are bound and sold, and its items follow. */
    method HandOver(o: nat, order: Order, ids: seq<nat>, now: int) returns (failure: Option<Payment>)
      requires forall k :: 0 <= k < |ids| ==> ids[k] in codes
      modifies this`orders, this`bindings, this`codes, this`items
      ensures match BindFrom(old(bindings), old(codes), ids, now)
              case Bound(b, c) =>
                && failure.None? && bindings == b && codes == c
                && orders == old(orders)[o := order.(status := Paid, paidAt := Some(now))]
                && items == MoveItems(old(items), o, Paid)
              case NotBound(result) => failure == Some(result)
    {
      hide BindFrom, MoveItems;
      orders := orders[o := order.(status := Paid, paidAt := Some(now))];
      failure := BindCodes(ids, now);
      if failure.None? {
        items := MoveItems(items, o, Paid);
      }
    }

    method HeldIds(o: nat) returns (ids: seq<nat>)
      ensures ids == HeldInOrder(codes, o)
      ensures forall k :: 0 <= k < |ids| ==> ids[k] in codes
    {
      ids := OrderById(HeldCodes(codes, o), None);
    }

    /** Balance, ledger row and attempt row, with the unique keys of the last two. */
    method WriteBooks(buyer: nat, key: string, o: nat, order: Order, paymentNo: string) returns (ok: bool)
      requires order.total < TWO_64 && buyer in balances && order.total <= balances[buyer]
      modifies this`balances, this`ledger, this`attempts
      ensures ok == !(Referenced(old(ledger), ForOrder(o)) || AttemptRefused(old(attempts), key, paymentNo))
      ensures ok ==>
        && balances == old(balances)[buyer := old(balances)[buyer] - order.total]
        && ledger == old(ledger) + [Entry(buyer, Negated(Signed(order.total)), old(balances)[buyer] - order.total, ForOrder(o))]
        && attempts == old(attempts)[(buyer, key) := Attempt(paymentNo, o, order.total, order.expiresAt)]
    {
      hide Referenced, PaymentNoTaken;
      balances := balances[buyer := balances[buyer] - order.total];
      var debited := ReferenceInUse(ForOrder(o));
      if debited {
        return false;
      }
      ledger := ledger + [Entry(buyer, Negated(Signed(order.total)), balances[buyer], ForOrder(o))];
      var used := PaymentNoInUse(paymentNo);
      if used || |key| > PAYMENT_KEY_WIDTH {
        return false;
      }
      attempts := attempts[(buyer, key) := Attempt(paymentNo, o, order.total, order.expiresAt)];
      ok := true;
    }

    /** The number of codes the items of an order need, added up in unsigned words. */
    method CountQuantities(order: nat) returns (expected: nat)
      ensures expected == Expected(items, order)
    {
      expected := 0;
      var ids := ItemsOf(items, order);
      var left := ids;
      while left != {}
        invariant left <= ids
        invariant expected == Total(Quantities(items, ids - left)) % TWO_64
      {
        var i :| i in left;
        assert Quantities(items, ids - (left - {i})) == Quantities(items, ids - left)[i := items[i].quantity];
        PutIn(Quantities(items, ids - left), i, items[i].quantity);
        expected := AddWrapped(expected, items[i].quantity);
        left := left - {i};
      }
      assert ids - left == ids;
    }

    /** Bind and sell the codes one after the other. */
    method BindCodes(ids: seq<nat>, now: int) returns (failure: Option<Payment>)
      requires forall k :: 0 <= k < |ids| ==> ids[k] in codes
      modifies this`bindings, this`codes
      ensures match BindFrom(old(bindings), old(codes), ids, now)
              case Bound(b, c) => failure.None? && bindings == b && codes == c
              case NotBound(result) => failure == Some(result)
    {
      for i := 0 to |ids|
        invariant forall k :: 0 <= k < |ids| ==> ids[k] in codes
        invariant BindFrom(old(bindings), old(codes), ids, now) == BindFrom(bindings, codes, ids[i..], now)
      {
        assert ids[i..][1..] == ids[i + 1..];
        var code := codes[ids[i]];
        if code.item.None? {
          return Some(OrderUnavailable);
        }
        if ids[i] in bindings {
          return Some(PaymentFailed);
        }
        bindings := bindings[ids[i] := Binding(code.item.value, now)];
        codes := codes[ids[i] := AsSold(code)];
      }
      failure := None;
    }

    /** Inserting a user, with the hook that grants the registration bonus. */
    method Register(user: nat, bonus: bool) returns (ok: bool)
      modifies this
      ensures View() == Payments.Register(old(View()), user, bonus).0 && ok == Payments.Register(old(View()), user, bonus).1
      ensures cache == old(cache)
    {
      hide Referenced;
      var before := View();
      if user in users {
        return false;
      }
      users := users + {user};
      if bonus {
        ok := GrantBonus(user);
        if !ok {
          Restore(before);
          return false;
        }
      }
      ok := true;
    }

    /** The hook that runs after the insert. */
    method GrantBonus(user: nat) returns (ok: bool)
      modifies this`balances, this`ledger
      ensures ok == !(user in old(balances) || Referenced(old(ledger), ForRegistration(user)))
      ensures ok ==> balances == old(balances)[user := REGISTRATION_BONUS]
      ensures ok ==> ledger == old(ledger) + [Entry(user, REGISTRATION_BONUS, REGISTRATION_BONUS, ForRegistration(user))]
    {
      if user in balances {
        return false;
      }
      balances := balances[user := REGISTRATION_BONUS];
      var granted := ReferenceInUse(ForRegistration(user));
      if granted {
        return false;
      }
      ledger := ledger + [Entry(user, REGISTRATION_BONUS, REGISTRATION_BONUS, ForRegistration(user))];
      ok := true;
    }

    // ---- whole operations --------------------------------------------------------------------

    /** `Process`: validate, normalise, create, and turn business errors into a rejected row. */
    method Process(event: Event, now: int, keys: Keys, locked: set<nat>) returns (handling: Handling)
      requires ProcessKeys(View(), event, keys)
      modifies this
      ensures View() == Inventory.Process(old(View()), event, now, keys, locked).0
      ensures handling == Inventory.Process(old(View()), event, now, keys, locked).1
      ensures cache == ProcessCache(old(cache), event, handling)
    {
      if event.buyer == 0 || TrimSpace(event.requestId) == "" {
        return Error;
      }
      var lines := NormalizeItems(event.items);
      if lines.None? {
        var ok := Reject(event, InvalidRequest);
        return if ok then TurnedDown else Error;
      }
      MergedIsNormal(event.items);
      var outcome := CreateOrder(event, lines.value, now, keys, locked, event.requestId in requests);
      match outcome {
        case Made => handling := MadeOrder;
        case Duplicate => handling := AlreadyKnown;
        case Refused(reason) =>
          var ok := Reject(event, reason);
          handling := if ok then TurnedDown else Error;
        case Failed => handling := if event.requestId in requests then AlreadyKnown else Error;
      }
    }

    /** `Available`: a cached number is believed; otherwise whoever gets the rebuild lock counts and caches. */
    method Available(listing: nat, lockHeld: bool) returns (answer: Answer)
      modifies this`cache
      ensures answer.NoListing? <==> listing == 0
      ensures answer.Refreshing? <==> listing != 0 && listing !in old(cache) && lockHeld
      ensures answer.Count? ==> (cache, answer.units) == Inventory.Available(old(cache), codes, listing)
      ensures !answer.Count? ==> cache == old(cache)
      ensures answer.Count? && Agrees(old(cache), codes) ==> answer.units == |OnSale(codes, listing)| && Agrees(cache, codes)
    {
      if listing == 0 {
        return NoListing;
      }
      if listing in cache {
        return Count(cache[listing]);
      }
      if lockHeld {
        return Refreshing;
      }
      var onSale := OnSale(codes, listing);
      cache := cache[listing := |onSale|];
      answer := Count(|onSale|);
    }
  }

  // ---- auxiliary facts ---------------------------------------------------------------------

  lemma FullPick(free: set<nat>, quantity: nat, ids: seq<nat>, picked: set<nat>)
    requires quantity <= MAX_UINT && |ids| == Signed(quantity) && picked == Elements(ids)
    requires ids == if quantity < TWO_63 && quantity < |free| then InOrder(free)[..quantity] else InOrder(free)
    ensures quantity < TWO_63 && quantity <= |free| && picked == Lowest(free, quantity)
  {
    hide InOrder, Elements;
    assert InOrder(free)[..|free|] == InOrder(free);
  }

  /** A clock that does not go back, within a sweep or from one sweep to a later one. */
  ghost predicate Forward(look: nat -> int, tick: (nat, nat) -> int) {
    && (forall s: nat, k: nat :: look(s) <= tick(s, k))
    && (forall r: nat, s: nat :: r <= s ==> look(r) <= look(s))
  }

  /** How much of its batch a sweep deals with that would fail at its order `reach`. */
  function Reached(ids: seq<nat>, reach: nat): (n: nat)
    ensures n <= |ids| && (n == |ids| <==> reach >= |ids|)
  {
    if reach < |ids| then reach else |ids|
  }

  /** The readings of one sweep. */
  function Row(tick: (nat, nat) -> int, s: nat): nat -> int {
    (k: nat) => tick(s, k)
  }

  lemma RowsFollow(look: nat -> int, tick: (nat, nat) -> int, s: nat)
    ensures Forward(look, tick) ==> forall k :: Row(tick, s)(k) >= look(s)
  {
  }

  lemma NonePassed(orders: map<nat, Order>, ids: seq<nat>, clock: nat -> int)
    requires Known(orders, ids)
    ensures Passed(orders, ids, clock, 0) == {}
  {
  }

  lemma BatchKnown(orders: map<nat, Order>, ids: seq<nat>, limit: nat, now: int)
    requires DueBatch(orders, ids, limit, now)
    ensures Known(orders, ids)
  {
  }

  lemma SameKeys(before: map<nat, Order>, after: map<nat, Order>, taken: set<nat>, ids: seq<nat>, i: nat)
    requires ExpiredIn(before, after, taken) && Known(before, ids) && i < |ids|
    ensures ids[i] in after
  {
  }

  lemma ExpiredOrders(db: Db, o: nat, now: int)
    requires o in db.orders
    ensures var next := Orders.ExpireOne(db, o, now);
      if Overdue(db.orders[o], now) then next != db && next.orders == db.orders[o := db.orders[o].(status := Expired)]
      else next == db
  {
    hide Release, MoveItems;
    assert Overdue(db.orders[o], now) ==> Orders.ExpireOne(db, o, now).orders[o].status != db.orders[o].status;
  }

  lemma NoneExpired(orders: map<nat, Order>)
    ensures ExpiredIn(orders, orders, {})
  {
  }

  lemma LaterOverdue(orders: map<nat, Order>, look: nat -> int, tick: (nat, nat) -> int, s: nat)
    ensures Forward(look, tick) ==> OverdueIn(orders, look(s)) <= OverdueIn(orders, look(s + 1))
  {
  }

  /** One sweep more: fewer orders are pending, and after one that was not full nothing is overdue. */
  lemma OneMoreSweep(first: map<nat, Order>, before: map<nat, Order>, after: map<nat, Order>, taken: set<nat>, more: set<nat>,
                     ids: seq<nat>, n: nat, batch: nat, look: nat -> int, tick: (nat, nat) -> int, s: nat, expired: nat)
    requires taken <= PendingIn(first) && ExpiredIn(first, before, taken)
    requires DueBatch(before, ids, batch, look(s)) && Known(before, ids) && n <= |ids|
    requires more == Passed(before, ids, Row(tick, s), n) && ExpiredIn(before, after, more) && expired == |more|
    requires Forward(look, tick) ==> taken <= OverdueIn(first, look(s))
    requires Forward(look, tick) && n == |ids| ==> Swept(before, after, Elements(ids), look(s)) && expired == |ids|
    ensures taken + more <= PendingIn(first) && ExpiredIn(first, after, taken + more)
    ensures |PendingIn(after)| == |PendingIn(before)| - expired
    ensures Forward(look, tick) ==> taken + more <= OverdueIn(first, look(s))
    ensures Forward(look, tick) && n == |ids| && expired != batch ==>
      OverdueIn(after, look(s)) == {} && taken + more == OverdueIn(first, look(s))
  {
    hide DueBatch, Forward, Swept, Row;
    assert more <= PendingIn(before);
    ExpiredTrans(first, before, after, taken, more);
    FewerPending(before, after, more);
    StillPending(first, before, taken);
    hide ExpiredIn, Passed;
    if Forward(look, tick) {
      OnlyOverdue(first, before, taken, more, ids, batch, look(s));
      if n == |ids| && expired != batch { ForwardSweep(first, before, after, taken, more, ids, batch, look(s)); }
    }
  }

  lemma StillPending(before: map<nat, Order>, after: map<nat, Order>, taken: set<nat>)
    requires ExpiredIn(before, after, taken)
    ensures PendingIn(after) <= PendingIn(before)
  {
  }

  /** What a sweep takes was overdue when it looked. */
  lemma OnlyOverdue(first: map<nat, Order>, before: map<nat, Order>, taken: set<nat>, more: set<nat>, ids: seq<nat>,
                    batch: nat, now: int)
    requires ExpiredIn(first, before, taken) && DueBatch(before, ids, batch, now)
    requires taken <= OverdueIn(first, now) && forall o :: o in more ==> o in ids
    ensures more <= OverdueIn(before, now) && taken + more <= OverdueIn(first, now)
  {
    StillOverdue(first, before, taken, now);
    hide ExpiredIn;
    assert forall o :: o in more ==> o in OverdueIn(before, now);
  }

  lemma ForwardSweep(first: map<nat, Order>, before: map<nat, Order>, after: map<nat, Order>, taken: set<nat>, more: set<nat>,
                     ids: seq<nat>, batch: nat, now: int)
    requires ExpiredIn(first, before, taken) && ExpiredIn(before, after, more) && ExpiredIn(first, after, taken + more)
    requires DueBatch(before, ids, batch, now) && Swept(before, after, Elements(ids), now) && |more| == |ids|
    requires taken + more <= OverdueIn(first, now) && |ids| != batch
    ensures OverdueIn(after, now) == {} && taken + more == OverdueIn(first, now)
  {
    StillOverdue(first, after, taken + more, now);
    SweptLeaves(before, after, Elements(ids), now);
    BatchCount(before, ids);
  }

  lemma NormalIsWellFormed(lines: seq<Item>)
    requires Normal(lines)
    ensures forall k :: 0 <= k < |lines| ==> WellFormed(lines[k]) && lines[k].quantity <= MAX_UINT
  {
  }

  /** What the loop has still to do after `i` lines. */
  ghost function RestFrom(stage: Stage, listings: map<nat, Listing>, order: nat, until: int, lines: seq<Item>, ids: seq<nat>, i: nat, locked: set<nat>): Option<Stage>
    requires AllListed(listings, lines) && i <= |lines| == |ids|
  {
    ReserveFrom(stage, listings, order, until, lines[i..], ids[i..], locked)
  }

  lemma RestStart(stage: Stage, listings: map<nat, Listing>, order: nat, until: int, lines: seq<Item>, ids: seq<nat>, locked: set<nat>)
    requires AllListed(listings, lines) && |lines| == |ids|
    ensures RestFrom(stage, listings, order, until, lines, ids, 0, locked) == ReserveFrom(stage, listings, order, until, lines, ids, locked)
  {
  }

  lemma RestStep(stage: Stage, listings: map<nat, Listing>, order: nat, until: int, lines: seq<Item>, ids: seq<nat>, i: nat, locked: set<nat>)
    requires AllListed(listings, lines) && i < |lines| == |ids|
    ensures RestFrom(stage, listings, order, until, lines, ids, i, locked) ==
      match ReserveLine(stage, listings, order, until, lines[i], ids[i], locked)
      case None => None
      case Some(next) => RestFrom(next, listings, order, until, lines, ids, i + 1, locked)
  {
  }

  lemma RestEnd(stage: Stage, listings: map<nat, Listing>, order: nat, until: int, lines: seq<Item>, ids: seq<nat>, locked: set<nat>)
    requires AllListed(listings, lines) && |lines| == |ids|
    ensures RestFrom(stage, listings, order, until, lines, ids, |lines|, locked) == Some(stage)
  {
  }

  lemma LinesListed(listings: map<nat, Listing>, lines: seq<Item>)
    requires AllListed(listings, lines)
    ensures forall k :: 0 <= k < |lines| ==> lines[k].listing in listings
  {
  }

  lemma NoneReserved(lines: seq<Item>)
    ensures ReservedBy(lines[..0]) == map[]
  {
  }

  lemma FreshForLines(db: Db, keys: Keys, n: nat)
    requires FreshKeys(db, keys, n)
    ensures |keys.items| == n
  {
  }

  function AddedTo(reserved: map<nat, nat>, line: Item): map<nat, nat> {
    reserved[line.listing := (if line.listing in reserved then reserved[line.listing] else 0) + line.quantity]
  }

  lemma ReservedStep(lines: seq<Item>, i: nat)
    requires i < |lines|
    ensures ReservedBy(lines[..i + 1]) == AddedTo(ReservedBy(lines[..i]), lines[i])
  {
    MergeStep(lines, i);
  }
}

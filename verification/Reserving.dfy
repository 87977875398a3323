/** Creating an order keeps the stock in order: the reservation of each line, and then the whole loop. */
module Reserving {
  import opened Words
  import opened Ascending
  import opened Sums
  import opened Cart
  import opened Tables
  import opened Orders
  import opened Payments
  import opened ShopInvariant

  /** What no order transaction touches: the codes there are, their listings, and the sold ones. */
  ghost predicate SameStock(old': map<nat, Code>, new': map<nat, Code>) {
    && old'.Keys == new'.Keys
    && (forall c :: c in old' ==> new'[c].listing == old'[c].listing)
    && (forall c :: c in old' && old'[c].status == Sold ==> new'[c] == old'[c])
  }

  /** The parts of the invariant that a half-built order already satisfies. */
  ghost predicate StageOk(stage: Stage, orders: map<nat, Order>, bindings: map<nat, Binding>) {
    && CodesOk(stage.codes, stage.items, orders)
    && ItemsOk(stage.items, orders)
    && Holdings(stage.codes, stage.items)
    && BindingsOk(bindings, stage.codes, stage.items)
    && Deliveries(bindings, stage.items)
  }

  lemma HoldKeepsCodesOk(codes: map<nat, Code>, items: map<nat, OrderItem>, orders: map<nat, Order>,
                         picked: set<nat>, o: nat, i: nat, until: int, item: OrderItem)
    requires CodesOk(codes, items, orders) && i !in items
    requires o in orders && orders[o].expiresAt == Some(until)
    requires item.order == o && item.status == Pending
    requires forall c :: c in picked ==> c in codes && codes[c].listing == item.listing
    ensures CodesOk(Hold(codes, picked, o, i, until), items[i := item], orders)
  {
  }

  lemma HoldKeepsHoldings(codes: map<nat, Code>, items: map<nat, OrderItem>, orders: map<nat, Order>,
                          picked: set<nat>, o: nat, i: nat, until: int, item: OrderItem)
    requires CodesOk(codes, items, orders) && Holdings(codes, items) && i !in items
    requires item.status == Pending && |picked| == item.quantity
    requires forall c :: c in picked ==> c in codes && codes[c].status == Available
    ensures Holdings(Hold(codes, picked, o, i, until), items[i := item])
  {
    var next := Hold(codes, picked, o, i, until);
    forall c | c in codes && codes[c].status == Reserved ensures codes[c].item != Some(i) {
      assert CodeOk(codes[c], items, orders);
    }
    assert HeldFor(next, i) == picked;
    forall j | j in items ensures HeldFor(next, j) == HeldFor(codes, j) {
    }
  }

  lemma HoldKeepsBindings(bindings: map<nat, Binding>, codes: map<nat, Code>, items: map<nat, OrderItem>,
                          picked: set<nat>, o: nat, i: nat, until: int, item: OrderItem)
    requires BindingsOk(bindings, codes, items) && Deliveries(bindings, items) && i !in items
    requires item.status == Pending
    requires forall c :: c in picked ==> c in codes && codes[c].status == Available
    ensures BindingsOk(bindings, Hold(codes, picked, o, i, until), items[i := item])
    ensures Deliveries(bindings, items[i := item])
  {
  }

  lemma LineGrows(items: map<nat, OrderItem>, i: nat, item: OrderItem)
    requires i !in items
    ensures Total(Lines(items[i := item], item.order)) == Total(Lines(items, item.order)) + item.line
    ensures forall p :: p != item.order ==> Lines(items[i := item], p) == Lines(items, p)
  {
    PutIn(Lines(items, item.order), i, item.line);
    assert Lines(items[i := item], item.order) == Lines(items, item.order)[i := item.line];
  }

  /** One pass of the loop. */
  lemma LineKeepsStage(stage: Stage, listings: map<nat, Listing>, orders: map<nat, Order>, bindings: map<nat, Binding>,
                       o: nat, until: int, line: Item, i: nat, locked: set<nat>, next: Stage)
    requires StageOk(stage, orders, bindings) && i !in stage.items
    requires line.listing in listings && WellFormed(line)
    requires o in orders && orders[o].status == Pending && orders[o].expiresAt == Some(until)
    requires ReserveLine(stage, listings, o, until, line, i, locked) == Some(next)
    ensures StageOk(next, orders, bindings)
    ensures SameStock(stage.codes, next.codes)
    ensures next.items == stage.items[i := NewItem(listings, o, line)]
  {
    var item := NewItem(listings, o, line);
    var picked := Lowest(Free(stage.codes, line.listing, locked), line.quantity);
    HoldKeepsCodesOk(stage.codes, stage.items, orders, picked, o, i, until, item);
    HoldKeepsHoldings(stage.codes, stage.items, orders, picked, o, i, until, item);
    HoldKeepsBindings(bindings, stage.codes, stage.items, picked, o, i, until, item);
  }

  /** The rows an order gets: one a line, in the order of the lines. */
  ghost function WithItems(items: map<nat, OrderItem>, listings: map<nat, Listing>, o: nat, lines: seq<Item>, ids: seq<nat>): map<nat, OrderItem>
    requires AllListed(listings, lines) && |ids| == |lines|
    decreases lines
  {
    if lines == [] then items
    else WithItems(items[ids[0] := NewItem(listings, o, lines[0])], listings, o, lines[1..], ids[1..])
  }

  ghost predicate NewIds(items: map<nat, OrderItem>, ids: seq<nat>) {
    && (forall k :: 0 <= k < |ids| ==> ids[k] !in items)
    && (forall j, k :: 0 <= j < k < |ids| ==> ids[j] != ids[k])
  }

  ghost predicate Reservable(items: map<nat, OrderItem>, listings: map<nat, Listing>, lines: seq<Item>, ids: seq<nat>) {
    && AllListed(listings, lines) && |ids| == |lines| && NewIds(items, ids)
    && (forall k :: 0 <= k < |lines| ==> WellFormed(lines[k]))
  }

  lemma ReservableTail(items: map<nat, OrderItem>, listings: map<nat, Listing>, lines: seq<Item>, ids: seq<nat>, item: OrderItem)
    requires Reservable(items, listings, lines, ids) && lines != []
    ensures Reservable(items[ids[0] := item], listings, lines[1..], ids[1..])
  {
  }

  lemma SameStockTrans(a: map<nat, Code>, b: map<nat, Code>, c: map<nat, Code>)
    requires SameStock(a, b) && SameStock(b, c)
    ensures SameStock(a, c)
  {
  }

  lemma {:induction false} ReserveKeepsStage(stage: Stage, listings: map<nat, Listing>, orders: map<nat, Order>, bindings: map<nat, Binding>,
                                             o: nat, until: int, lines: seq<Item>, ids: seq<nat>, locked: set<nat>, done: Stage)
    requires StageOk(stage, orders, bindings)
    requires Reservable(stage.items, listings, lines, ids)
    requires o in orders && orders[o].status == Pending && orders[o].expiresAt == Some(until)
    requires ReserveFrom(stage, listings, o, until, lines, ids, locked) == Some(done)
    ensures StageOk(done, orders, bindings)
    ensures SameStock(stage.codes, done.codes)
    ensures done.items == WithItems(stage.items, listings, o, lines, ids)
    decreases lines
  {
    if lines != [] {
      var first := ReserveLine(stage, listings, o, until, lines[0], ids[0], locked).value;
      LineKeepsStage(stage, listings, orders, bindings, o, until, lines[0], ids[0], locked, first);
      ReservableTail(stage.items, listings, lines, ids, NewItem(listings, o, lines[0]));
      ReserveKeepsStage(first, listings, orders, bindings, o, until, lines[1..], ids[1..], locked, done);
      SameStockTrans(stage.codes, first.codes, done.codes);
    }
  }

  // ---- totals --------------------------------------------------------------------------------

  /** The mathematical price of a list of lines. */
  ghost function Cost(listings: map<nat, Listing>, lines: seq<Item>): nat
    requires AllListed(listings, lines)
  {
    if lines == [] then 0
    else listings[lines[0].listing].price * lines[0].quantity + Cost(listings, lines[1..])
  }

  lemma GuardIsExact(price: nat, quantity: nat)
    requires quantity > 0
    ensures price > MAX_UINT / quantity <==> price * quantity > MAX_UINT
  {
    var q := MAX_UINT / quantity;
    assert q * quantity <= MAX_UINT < (q + 1) * quantity;
    if price > q {
      assert price * quantity >= (q + 1) * quantity;
    } else {
      assert price * quantity <= q * quantity;
    }
  }

  /** The guarded loop prices a list exactly when every listing is on sale, every line fits 64 bits
      and so does the sum; and then it returns the sum. */
  lemma {:induction false} PriceIsCost(listings: map<nat, Listing>, lines: seq<Item>, total: nat)
    requires forall k :: 0 <= k < |lines| ==> WellFormed(lines[k])
    requires total <= MAX_UINT
    ensures PriceFrom(listings, lines, total).Priced? <==>
              && AllListed(listings, lines)
              && (forall k :: 0 <= k < |lines| ==> listings[lines[k].listing].active)
              && total + Cost(listings, lines) <= MAX_UINT
    ensures PriceFrom(listings, lines, total).Priced? ==>
              && AllListed(listings, lines)
              && PriceFrom(listings, lines, total) == Priced(total + Cost(listings, lines))
  {
    if lines != [] {
      assert lines == [lines[0]] + lines[1..];
      var line := lines[0];
      if line.listing in listings && listings[line.listing].active {
        GuardIsExact(listings[line.listing].price, line.quantity);
        var amount := listings[line.listing].price * line.quantity;
        if total + amount <= MAX_UINT {
          PriceIsCost(listings, lines[1..], total + amount);
        }
      }
    }
  }

  /** The rows of the new order add up to its cost; the rows of other orders are untouched. */
  lemma {:induction false} ItemsAddUp(items: map<nat, OrderItem>, listings: map<nat, Listing>, o: nat, lines: seq<Item>, ids: seq<nat>)
    requires AllListed(listings, lines) && |ids| == |lines| && NewIds(items, ids)
    ensures var all := WithItems(items, listings, o, lines, ids);
            && Total(Lines(all, o)) == Total(Lines(items, o)) + Cost(listings, lines)
            && (forall p :: p != o ==> Lines(all, p) == Lines(items, p))
            && (forall i :: i in items ==> i in all && all[i] == items[i])
            && (forall k :: 0 <= k < |lines| ==> ids[k] in all && all[ids[k]] == NewItem(listings, o, lines[k]))
            && all.Keys == items.Keys + Elements(ids)
    decreases lines
  {
    if lines == [] {
      assert Elements(ids) == {};
    } else {
      var item := NewItem(listings, o, lines[0]);
      LineGrows(items, ids[0], item);
      ItemsAddUp(items[ids[0] := item], listings, o, lines[1..], ids[1..]);
      assert ids == [ids[0]] + ids[1..];
      ElementsCons(ids[0], ids[1..]);
    }
  }
}

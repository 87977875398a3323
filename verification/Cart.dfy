/** The shopping cart as the order service normalises it: entries of one listing are merged, with an
    overflow guard on the 64-bit quantity, and the result is sorted by listing. */
module Cart {
  import opened Words
  import opened Ascending

  datatype Item = Item(listing: nat, quantity: nat)

  /** How many units of listing `l` the list asks for in all. */
  function QuantityOf(items: seq<Item>, l: nat): nat {
    if items == [] then 0
    else QuantityOf(items[..|items| - 1], l) + Units(items[|items| - 1], l)
  }

  function Units(item: Item, l: nat): nat {
    if item.listing == l then item.quantity else 0
  }

  function Ids(items: seq<Item>): (ids: seq<nat>)
    ensures |ids| == |items|
  {
    seq(|items|, k requires 0 <= k < |items| => items[k].listing)
  }

  ghost function Listings(items: seq<Item>): set<nat> {
    Elements(Ids(items))
  }

  predicate WellFormed(item: Item) {
    item.listing != 0 && item.quantity != 0
  }

  /** The lists that are accepted: nothing missing, no listing over the 64-bit bound. */
  ghost predicate Accepted(items: seq<Item>) {
    && items != []
    && (forall k :: 0 <= k < |items| ==> WellFormed(items[k]))
    && (forall l :: l in Listings(items) ==> QuantityOf(items, l) <= MAX_UINT)
  }

  /** What the order transaction relies on: listings strictly ascending, ids and quantities not zero. */
  predicate Normal(lines: seq<Item>) {
    && Increasing(Ids(lines))
    && (forall k :: 0 <= k < |lines| ==> WellFormed(lines[k]) && lines[k].quantity <= MAX_UINT)
  }

  /** Each listing asked for appears with its whole quantity, and nothing else appears. */
  ghost predicate Merges(items: seq<Item>, lines: seq<Item>) {
    && Listings(lines) == Listings(items)
    && (forall k :: 0 <= k < |lines| ==> lines[k].quantity == QuantityOf(items, lines[k].listing))
  }

  /** The normal form: one line a listing, in ascending order. */
  ghost function Merged(items: seq<Item>): seq<Item> {
    var ids := InOrder(Listings(items));
    seq(|ids|, k requires 0 <= k < |ids| => Item(ids[k], QuantityOf(items, ids[k])))
  }

  /** `normalizeItems` as a function of its input. */
  ghost function Normalized(items: seq<Item>): Option<seq<Item>> {
    if Accepted(items) then Some(Merged(items)) else None
  }

  lemma Listed(items: seq<Item>, k: nat)
    requires k < |items|
    ensures items[k].listing in Listings(items)
  {
    assert Ids(items)[k] == items[k].listing;
  }

  lemma ListedAt(items: seq<Item>, l: nat) returns (k: nat)
    requires l in Listings(items)
    ensures k < |items| && items[k].listing == l
  {
    k :| 0 <= k < |items| && Ids(items)[k] == l;
  }

  lemma ListingsSnoc(items: seq<Item>, item: Item)
    ensures Listings(items + [item]) == Listings(items) + {item.listing}
  {
    assert Ids(items + [item]) == Ids(items) + [item.listing];
    ElementsSnoc(Ids(items), item.listing);
  }

  lemma MergedMerges(items: seq<Item>)
    ensures Increasing(Ids(Merged(items))) && Merges(items, Merged(items))
  {
    InOrderIncreasing(Listings(items));
    assert Ids(Merged(items)) == InOrder(Listings(items));
  }

  /** A sorted list that merges the request is the normal form. */
  lemma NormalFormUnique(items: seq<Item>, lines: seq<Item>)
    requires Increasing(Ids(lines)) && Merges(items, lines)
    ensures lines == Merged(items)
  {
    IncreasingIsInOrder(Ids(lines));
    var ids := InOrder(Listings(items));
    assert Ids(lines) == ids;
    forall k | 0 <= k < |lines| ensures lines[k] == Merged(items)[k] {
      assert Ids(lines)[k] == lines[k].listing;
    }
  }

  lemma {:induction false} NoUnitsOutside(items: seq<Item>, l: nat)
    requires l !in Listings(items)
    ensures QuantityOf(items, l) == 0
  {
    if items != [] {
      var front := items[..|items| - 1];
      assert items == front + [items[|items| - 1]];
      ListingsSnoc(front, items[|items| - 1]);
      NoUnitsOutside(front, l);
    }
  }

  /** A prefix asks for no more than the whole, so rejecting at the first overflow is rejecting the list. */
  lemma {:induction false} PrefixQuantity(items: seq<Item>, n: nat, l: nat)
    requires n <= |items|
    ensures QuantityOf(items[..n], l) <= QuantityOf(items, l)
    decreases |items|
  {
    if n == |items| {
      assert items[..n] == items;
    } else {
      var front := items[..|items| - 1];
      assert front[..n] == items[..n];
      PrefixQuantity(front, n, l);
    }
  }

  lemma {:induction false} QuantityConcat(a: seq<Item>, b: seq<Item>, l: nat)
    ensures QuantityOf(a + b, l) == QuantityOf(a, l) + QuantityOf(b, l)
  {
    if b == [] {
      assert a + b == a;
    } else {
      var front := b[..|b| - 1];
      assert (a + b)[..|a + b| - 1] == a + front;
      QuantityConcat(a, front, l);
    }
  }

  lemma QuantityOne(item: Item, l: nat)
    ensures QuantityOf([item], l) == Units(item, l)
  {
  }

  lemma DropBoth<T>(front: seq<T>, last: T, before: seq<T>, after: seq<T>)
    requires multiset(front + [last]) == multiset(before + [last] + after)
    ensures multiset(front) == multiset(before + after)
  {
    assert multiset(front + [last]) == multiset(front) + multiset{last};
    assert multiset(before + [last] + after) == multiset(before + after) + multiset{last};
    assert multiset(front) == multiset(front + [last]) - multiset{last};
  }

  lemma {:induction false} QuantityPermutation(a: seq<Item>, b: seq<Item>, l: nat)
    requires multiset(a) == multiset(b)
    ensures QuantityOf(a, l) == QuantityOf(b, l)
  {
    assert |multiset(a)| == |multiset(b)|;
    if a != [] {
      var front, last := a[..|a| - 1], a[|a| - 1];
      assert a == front + [last];
      assert last in multiset(b);
      var j :| 0 <= j < |b| && b[j] == last;
      var before, after := b[..j], b[j + 1..];
      assert b == before + [last] + after;
      DropBoth(front, last, before, after);
      QuantityPermutation(front, before + after, l);
      QuantityConcat(before, after, l);
      QuantityConcat(before + [last], after, l);
      QuantityConcat(before, [last], l);
      QuantityOne(last, l);
    }
  }

  lemma PermutationListings(a: seq<Item>, b: seq<Item>)
    requires multiset(a) == multiset(b)
    ensures Listings(a) <= Listings(b)
    ensures forall k :: 0 <= k < |a| ==> a[k] in b
  {
    forall k | 0 <= k < |a| ensures a[k] in b { assert a[k] in multiset(a); }
    forall l | l in Listings(a) ensures l in Listings(b) {
      var k := ListedAt(a, l);
      var j :| 0 <= j < |b| && b[j] == a[k];
      Listed(b, j);
    }
  }

  /** The order in which the client listed the entries does not matter, to success or to result. */
  lemma OrderIndependent(a: seq<Item>, b: seq<Item>)
    requires multiset(a) == multiset(b)
    ensures Normalized(a) == Normalized(b)
  {
    forall l ensures QuantityOf(a, l) == QuantityOf(b, l) { QuantityPermutation(a, b, l); }
    PermutationListings(a, b);
    PermutationListings(b, a);
    assert |multiset(a)| == |multiset(b)|;
    assert Accepted(a) <==> Accepted(b);
    MergedMerges(a);
    NormalFormUnique(b, Merged(a));
  }

  /** In a sorted list the quantity of a listing is the quantity of its one entry. */
  lemma {:induction false} SortedQuantity(lines: seq<Item>, k: nat)
    requires Increasing(Ids(lines)) && k < |lines|
    ensures QuantityOf(lines, lines[k].listing) == lines[k].quantity
    decreases |lines|
  {
    var front := lines[..|lines| - 1];
    assert Ids(front) == Ids(lines)[..|lines| - 1];
    assert Ids(lines)[k] < Ids(lines)[|lines| - 1] || k == |lines| - 1;
    if k == |lines| - 1 {
      assert forall j :: 0 <= j < |front| ==> Ids(front)[j] < Ids(lines)[k];
      NoUnitsOutside(front, lines[k].listing);
    } else {
      SortedQuantity(front, k);
    }
  }

  /** No unit is lost or invented: every listing keeps its total quantity. */
  lemma QuantityPreserved(items: seq<Item>, l: nat)
    ensures QuantityOf(Merged(items), l) == QuantityOf(items, l)
  {
    MergedMerges(items);
    var lines := Merged(items);
    if l in Listings(lines) {
      var k := ListedAt(lines, l);
      SortedQuantity(lines, k);
    } else {
      NoUnitsOutside(lines, l);
      NoUnitsOutside(items, l);
    }
  }

  lemma PositiveQuantity(items: seq<Item>, j: nat)
    requires j < |items|
    ensures QuantityOf(items, items[j].listing) >= items[j].quantity
  {
  }

  lemma MergedIsNormal(items: seq<Item>)
    requires Accepted(items)
    ensures Normal(Merged(items)) && Merged(items) != []
  {
    MergedMerges(items);
    var lines := Merged(items);
    Listed(items, 0);
    forall k | 0 <= k < |lines| ensures WellFormed(lines[k]) && lines[k].quantity <= MAX_UINT {
      Listed(lines, k);
      var j := ListedAt(items, lines[k].listing);
      PositiveQuantity(items, j);
    }
  }

  /** What `Submit` publishes is normal, and the consumer's own normalisation leaves it as it is. */
  lemma RepublishIsIdentity(items: seq<Item>)
    requires Accepted(items)
    ensures Normal(Merged(items)) && Merged(items) != []
    ensures Normalized(Merged(items)) == Some(Merged(items))
  {
    MergedIsNormal(items);
    var lines := Merged(items);
    forall l | l in Listings(lines) ensures QuantityOf(lines, l) <= MAX_UINT { QuantityPreserved(items, l); }
    forall k | 0 <= k < |lines| ensures lines[k].quantity == QuantityOf(lines, lines[k].listing) {
      SortedQuantity(lines, k);
    }
    NormalFormUnique(lines, lines);
  }

  ghost predicate SortedPermutation(sorted: seq<Item>, lines: seq<Item>) {
    && Increasing(Ids(sorted))
    && multiset(sorted) == multiset(lines)
  }

  lemma InsertAt(sorted: seq<Item>, at: nat, item: Item)
    requires Increasing(Ids(sorted)) && at <= |sorted|
    requires forall k :: 0 <= k < at ==> sorted[k].listing < item.listing
    requires at < |sorted| ==> item.listing < sorted[at].listing
    ensures Increasing(Ids(sorted[..at] + [item] + sorted[at..]))
  {
    var ids := Ids(sorted);
    IncreasingInsert(ids, at, item.listing);
    assert Ids(sorted[..at] + [item] + sorted[at..]) == ids[..at] + [item.listing] + ids[at..];
  }

  lemma InsertBag(sorted: seq<Item>, at: nat, item: Item)
    requires at <= |sorted|
    ensures multiset(sorted[..at] + [item] + sorted[at..]) == multiset(sorted) + multiset{item}
  {
    assert sorted == sorted[..at] + sorted[at..];
  }

  lemma Insertable(lines: seq<Item>, i: nat, sorted: seq<Item>)
    requires i < |lines| && multiset(sorted) == multiset(lines[..i])
    requires forall j :: 0 <= j < i ==> lines[j].listing != lines[i].listing
    ensures forall k :: 0 <= k < |sorted| ==> sorted[k].listing != lines[i].listing
  {
    PermutationListings(sorted, lines[..i]);
  }

  /** The library sort, by listing. */
  method SortByListing(lines: seq<Item>) returns (sorted: seq<Item>)
    requires forall i, j :: 0 <= i < j < |lines| ==> lines[i].listing != lines[j].listing
    ensures SortedPermutation(sorted, lines)
  {
    sorted := [];
    for i := 0 to |lines|
      invariant SortedPermutation(sorted, lines[..i])
    {
      Insertable(lines, i, sorted);
      var next := InsertSorted(sorted, lines[i]);
      assert lines[..i + 1] == lines[..i] + [lines[i]];
      sorted := next;
    }
    assert lines[..|lines|] == lines;
  }

  method InsertSorted(sorted: seq<Item>, item: Item) returns (next: seq<Item>)
    requires Increasing(Ids(sorted))
    requires forall k :: 0 <= k < |sorted| ==> sorted[k].listing != item.listing
    ensures Increasing(Ids(next)) && multiset(next) == multiset(sorted) + multiset{item}
  {
    var at := 0;
    while at < |sorted| && sorted[at].listing < item.listing
      invariant 0 <= at <= |sorted|
      invariant forall k :: 0 <= k < at ==> sorted[k].listing < item.listing
    {
      at := at + 1;
    }
    InsertAt(sorted, at, item);
    InsertBag(sorted, at, item);
    next := sorted[..at] + [item] + sorted[at..];
  }

  lemma MergeStep(items: seq<Item>, i: nat)
    requires i < |items|
    ensures Listings(items[..i + 1]) == Listings(items[..i]) + {items[i].listing}
    ensures forall l :: QuantityOf(items[..i + 1], l) == QuantityOf(items[..i], l) + Units(items[i], l)
    ensures items[i].listing !in Listings(items[..i]) ==> QuantityOf(items[..i], items[i].listing) == 0
  {
    assert items[..i + 1] == items[..i] + [items[i]];
    assert items[..i + 1][..i] == items[..i];
    ListingsSnoc(items[..i], items[i]);
    if items[i].listing !in Listings(items[..i]) {
      NoUnitsOutside(items[..i], items[i].listing);
    }
  }

  lemma OverflowRejects(items: seq<Item>, i: nat)
    requires i < |items|
    requires !WellFormed(items[i]) || QuantityOf(items[..i], items[i].listing) + items[i].quantity > MAX_UINT
    ensures !Accepted(items)
  {
    MergeStep(items, i);
    PrefixQuantity(items, i + 1, items[i].listing);
    Listed(items, i);
  }

  /** What the map holds after the first `n` entries. */
  ghost predicate Tally(merged: map<nat, nat>, items: seq<Item>, n: nat)
    requires n <= |items|
  {
    && (forall k :: 0 <= k < n ==> WellFormed(items[k]))
    && merged.Keys == Listings(items[..n])
    && (forall l :: l in merged ==> merged[l] == QuantityOf(items[..n], l) <= MAX_UINT)
  }

  lemma TallyStep(merged: map<nat, nat>, items: seq<Item>, n: nat, soFar: nat)
    requires n < |items| && Tally(merged, items, n)
    requires soFar == if items[n].listing in merged then merged[items[n].listing] else 0
    ensures if WellFormed(items[n]) && soFar + items[n].quantity <= MAX_UINT
            then Tally(merged[items[n].listing := soFar + items[n].quantity], items, n + 1)
            else !Accepted(items)
  {
    MergeStep(items, n);
    if WellFormed(items[n]) && soFar + items[n].quantity <= MAX_UINT {
      assert merged[items[n].listing := soFar + items[n].quantity].Keys == merged.Keys + {items[n].listing};
    } else {
      OverflowRejects(items, n);
    }
  }

  lemma TallyDone(merged: map<nat, nat>, items: seq<Item>)
    requires Tally(merged, items, |items|) && items != []
    ensures Accepted(items) && merged.Keys == Listings(items)
    ensures forall l :: l in merged ==> merged[l] == QuantityOf(items, l)
  {
    assert items[..|items|] == items;
  }

  predicate Blank(items: seq<Item>, k: nat) {
    k < |items| && (items[k].listing == 0 || items[k].quantity == 0)
  }

  predicate TooMany(items: seq<Item>, l: nat) {
    QuantityOf(items, l) > MAX_UINT
  }

  /** A list is turned away exactly when it is empty, names no listing or no units somewhere, or asks too much of one listing. */
  lemma TurnedAwayExactly(items: seq<Item>)
    ensures Normalized(items).None? <==> items == [] || (exists k: nat :: Blank(items, k)) || exists l: nat :: TooMany(items, l)
  {
    hide Listings, Merged;
    forall l: nat | TooMany(items, l) ensures !Accepted(items) {
      if l !in Listings(items) { NoUnitsOutside(items, l); }
    }
    forall k: nat | Blank(items, k) ensures !Accepted(items) {
      assert !WellFormed(items[k]);
    }
    if items != [] && !(exists k: nat :: Blank(items, k)) && !(exists l: nat :: TooMany(items, l)) {
      forall l | l in Listings(items) ensures QuantityOf(items, l) <= MAX_UINT { assert !TooMany(items, l); }
      forall k | 0 <= k < |items| ensures WellFormed(items[k]) { assert !Blank(items, k); }
      assert Accepted(items);
    }
  }

  /** `normalizeItems`: merge into a map with the overflow guard, copy out in map order, sort. It
      fails exactly for an empty list, a zero id or quantity, or a listing over the 64-bit bound. */
  method NormalizeItems(items: seq<Item>) returns (r: Option<seq<Item>>)
    ensures r == Normalized(items)
    ensures r.None? <==> items == [] || (exists k: nat :: Blank(items, k)) || exists l: nat :: TooMany(items, l)
  {
    TurnedAwayExactly(items);
    hide Tally, Listings;
    if |items| == 0 {
      return None;
    }
    var merged: map<nat, nat> := map[];
    TallyStart(items);
    for i := 0 to |items|
      invariant Tally(merged, items, i)
    {
      var item := items[i];
      var soFar := if item.listing in merged then merged[item.listing] else 0;
      TallyStep(merged, items, i, soFar);
      if item.listing == 0 || item.quantity == 0 || soFar > MAX_UINT - item.quantity {
        return None;
      }
      merged := merged[item.listing := soFar + item.quantity];
    }
    TallyDone(merged, items);
    var lines := CopyOut(merged);
    var sorted := SortByListing(lines);
    SortedMerges(items, merged, lines, sorted);
    r := Some(sorted);
  }

  lemma TallyStart(items: seq<Item>)
    ensures Tally(map[], items, 0)
  {
  }

  lemma SortedMerges(items: seq<Item>, merged: map<nat, nat>, lines: seq<Item>, sorted: seq<Item>)
    requires Listings(lines) == merged.Keys == Listings(items)
    requires forall l :: l in merged ==> merged[l] == QuantityOf(items, l)
    requires forall k :: 0 <= k < |lines| ==> lines[k].listing in merged && lines[k].quantity == merged[lines[k].listing]
    requires SortedPermutation(sorted, lines)
    ensures sorted == Merged(items)
  {
    PermutationListings(lines, sorted);
    PermutationListings(sorted, lines);
    NormalFormUnique(items, sorted);
  }

  /** Ranging over the map: every entry once, in no particular order. */
  method CopyOut(merged: map<nat, nat>) returns (lines: seq<Item>)
    ensures forall i, j :: 0 <= i < j < |lines| ==> lines[i].listing != lines[j].listing
    ensures Listings(lines) == merged.Keys
    ensures forall k :: 0 <= k < |lines| ==> lines[k].listing in merged && lines[k].quantity == merged[lines[k].listing]
  {
    lines := [];
    var left := merged.Keys;
    while left != {}
      invariant left <= merged.Keys
      invariant Listings(lines) == merged.Keys - left
      invariant forall i, j :: 0 <= i < j < |lines| ==> lines[i].listing != lines[j].listing
      invariant forall k :: 0 <= k < |lines| ==> lines[k].listing in merged && lines[k].quantity == merged[lines[k].listing]
    {
      var l :| l in left;
      ListingsSnoc(lines, Item(l, merged[l]));
      forall k | 0 <= k < |lines| ensures lines[k].listing != l { Listed(lines, k); }
      lines := lines + [Item(l, merged[l])];
      left := left - {l};
    }
  }
}

/**
 * The load tester's traffic: which listing each request goes to, how many codes each listing is seeded
 * with, and whether a run can be served from them. Listings are named by their position in the profile.
 */
module TrafficMix {

  datatype Mix = Mix(listings: nat, hot: nat, percent: nat)

  /** The mixes a seed accepts: no hot listings and no hot share, or some of both. */
  predicate Sound(x: Mix) {
    x.listings > 0 && (x.hot == 0 <==> x.percent == 0) && x.hot < x.listings && x.percent < 100
  }

  predicate Uniform(x: Mix) {
    x.hot == 0 || x.percent == 0
  }

  /** Whether a request is one of the hot ones. */
  predicate Hot(x: Mix, index: nat) {
    var w := index % 100;
    (w + 1) * x.percent / 100 > w * x.percent / 100
  }

  function ListingFor(x: Mix, index: nat): (l: nat)
    requires Sound(x)
    ensures l < x.listings
  {
    if Uniform(x) then index % x.listings
    else
      var w := index % 100;
      var before := w * x.percent / 100;
      if Hot(x, index) then (index / 100 * x.percent + before) % x.hot
      else
        ShareIsLess(w, x.percent);
        x.hot + (index / 100 * (100 - x.percent) + (w - before)) % (x.listings - x.hot)
  }

  lemma ShareIsLess(w: nat, percent: nat)
    requires percent < 100
    ensures w * percent / 100 <= w
  {
    assert w * percent <= w * 100;
  }

  // ---- the share of hot requests -------------------------------------------------------------

  function HotAmong(x: Mix, n: nat): nat {
    if n == 0 then 0 else HotAmong(x, n - 1) + (if Hot(x, n - 1) then 1 else 0)
  }

  /** A hundred requests carry exactly `percent` hot ones, so windows of a hundred can be split off. */
  lemma SplitWindow(n: nat, percent: nat)
    ensures n * percent / 100 == n / 100 * percent + n % 100 * percent / 100
    ensures (n + 1) * percent / 100 == n / 100 * percent + (n % 100 + 1) * percent / 100
  {
    var q, w := n / 100, n % 100;
    assert n == 100 * q + w;
    assert n * percent == 100 * (q * percent) + w * percent;
    assert (n + 1) * percent == 100 * (q * percent) + (w + 1) * percent;
  }

  /** Among the first `n` requests the hot ones are exactly the rounded-down share. */
  lemma {:induction false} HotShareIsExact(x: Mix, n: nat)
    requires x.percent < 100
    ensures HotAmong(x, n) == n * x.percent / 100
  {
    if n > 0 {
      HotShareIsExact(x, n - 1);
      SplitWindow(n - 1, x.percent);
      assert n * x.percent == (n - 1) * x.percent + x.percent;
      assert (n - 1) % 100 * x.percent + x.percent == ((n - 1) % 100 + 1) * x.percent;
    }
  }

  lemma RoundedSum(a: nat, b: nat)
    ensures a / 100 + b / 100 <= (a + b) / 100 <= a / 100 + (b + 99) / 100
  {
  }

  lemma Spread(a: nat, b: nat, k: nat)
    ensures (a + b) * k == a * k + b * k
  {
  }

  /** And every run of `m` requests has that share rounded down or up, wherever it starts. */
  lemma EveryWindowIsEven(x: Mix, start: nat, m: nat)
    requires x.percent < 100
    ensures var hot := HotAmong(x, start + m) - HotAmong(x, start);
      m * x.percent / 100 <= hot <= (m * x.percent + 99) / 100
  {
    HotShareIsExact(x, start);
    HotShareIsExact(x, start + m);
    Spread(start, m, x.percent);
    RoundedSum(start * x.percent, m * x.percent);
  }

  // ---- round-robin within a kind -------------------------------------------------------------

  /** How often `l` comes up when `0, 1, .., m - 1` are dealt round `k` places. */
  function Dealt(m: nat, k: nat, l: nat): nat
    requires k > 0
  {
    if m == 0 then 0 else Dealt(m - 1, k, l) + (if (m - 1) % k == l then 1 else 0)
  }

  lemma DivisionStep(m: nat, k: nat)
    requires k > 0
    ensures if m % k == k - 1 then (m + 1) / k == m / k + 1 && (m + 1) % k == 0
            else (m + 1) / k == m / k && (m + 1) % k == m % k + 1
  {
    var q, r := m / k, m % k;
    assert m == q * k + r;
    if r == k - 1 {
      assert m + 1 == (q + 1) * k;
      Quotient(m + 1, k, q + 1, 0);
    } else {
      Quotient(m + 1, k, q, r + 1);
    }
  }

  lemma Scaled(a: nat, b: nat, k: nat)
    requires a < b
    ensures a * k + k <= b * k
  {
    assert b * k == (a + 1) * k + (b - a - 1) * k;
    assert (b - a - 1) * k >= 0;
  }

  lemma Quotient(m: nat, k: nat, q: nat, r: nat)
    requires k > 0 && m == q * k + r && r < k
    ensures m / k == q && m % k == r
  {
    var p, s := m / k, m % k;
    assert m == p * k + s;
    if p < q { Scaled(p, q, k); }
    if q < p { Scaled(q, p, k); }
  }

  lemma {:induction false} DealtExactly(m: nat, k: nat, l: nat)
    requires l < k
    ensures Dealt(m, k, l) == m / k + (if l < m % k then 1 else 0)
  {
    if m == 0 {
      Quotient(0, k, 0, 0);
    } else {
      DealtExactly(m - 1, k, l);
      DivisionStep(m - 1, k);
    }
  }

  // ---- requests to a listing -----------------------------------------------------------------

  /** How many of the first `n` requests go to a listing. */
  function Requests(x: Mix, n: nat, l: nat): nat
    requires Sound(x)
  {
    if n == 0 then 0 else Requests(x, n - 1, l) + (if ListingFor(x, n - 1) == l then 1 else 0)
  }

  lemma OrdinaryIndex(n: nat, percent: nat)
    requires percent < 100
    ensures n * percent / 100 <= n && n % 100 * percent / 100 <= n % 100
    ensures n / 100 * (100 - percent) + (n % 100 - n % 100 * percent / 100) == n - n * percent / 100
  {
    SplitWindow(n, percent);
    ShareIsLess(n, percent);
    ShareIsLess(n % 100, percent);
    Spread(100 - percent, percent, n / 100);
  }

  /** The hot requests are numbered through across windows, and so are the others. */
  lemma Numbered(x: Mix, n: nat)
    requires Sound(x) && !Uniform(x)
    ensures HotAmong(x, n) <= n
    ensures ListingFor(x, n) == (if Hot(x, n) then HotAmong(x, n) % x.hot
                                 else x.hot + (n - HotAmong(x, n)) % (x.listings - x.hot))
  {
    hide Hot, HotAmong;
    HotShareIsExact(x, n);
    SplitWindow(n, x.percent);
    OrdinaryIndex(n, x.percent);
  }

  /** Each listing's share of the first `n` requests: its kind's requests dealt round its kind. */
  lemma {:induction false} RequestsExactly(x: Mix, n: nat, l: nat)
    requires Sound(x) && l < x.listings
    ensures HotAmong(x, n) <= n
    ensures Requests(x, n, l) ==
      if Uniform(x) then Dealt(n, x.listings, l)
      else if l < x.hot then Dealt(HotAmong(x, n), x.hot, l)
      else Dealt(n - HotAmong(x, n), x.listings - x.hot, l - x.hot)
  {
    if n > 0 {
      RequestsExactly(x, n - 1, l);
      if !Uniform(x) { Numbered(x, n - 1); }
    }
  }

  predicate SameKind(x: Mix, a: nat, b: nat) {
    a < x.hot <==> b < x.hot
  }

  /** Listings of one kind are served evenly at every moment: their counts never differ by more than one. */
  lemma ServedEvenly(x: Mix, n: nat, a: nat, b: nat)
    requires Sound(x) && a < x.listings && b < x.listings && SameKind(x, a, b)
    ensures Requests(x, n, a) <= Requests(x, n, b) + 1
  {
    RequestsExactly(x, n, a);
    RequestsExactly(x, n, b);
    if Uniform(x) {
      DealtExactly(n, x.listings, a);
      DealtExactly(n, x.listings, b);
    } else if a < x.hot {
      DealtExactly(HotAmong(x, n), x.hot, a);
      DealtExactly(HotAmong(x, n), x.hot, b);
    } else {
      DealtExactly(n - HotAmong(x, n), x.listings - x.hot, a - x.hot);
      DealtExactly(n - HotAmong(x, n), x.listings - x.hot, b - x.hot);
    }
  }

  // ---- codes and demand ----------------------------------------------------------------------

  /** The codes a seed makes: one for every request there could be, for the listing it would go to. */
  method Seed(x: Mix, codeCount: nat) returns (stock: array?<nat>)
    ensures stock != null <==> Sound(x) && codeCount >= x.listings
    ensures stock != null ==> fresh(stock) && stock.Length == x.listings
                              && forall l :: 0 <= l < x.listings ==> stock[l] == Requests(x, codeCount, l)
  {
    if !Sound(x) || codeCount < x.listings {
      return null;
    }
    stock := new nat[x.listings](_ => 0);
    var index := 0;
    while index < codeCount
      invariant 0 <= index <= codeCount
      invariant forall l :: 0 <= l < x.listings ==> stock[l] == Requests(x, index, l)
    {
      var l := ListingFor(x, index);
      stock[l] := stock[l] + 1;
      index := index + 1;
    }
  }

  lemma {:induction false} RequestsGrow(x: Mix, n: nat, m: nat, l: nat)
    requires Sound(x) && n <= m
    ensures Requests(x, n, l) <= Requests(x, m, l)
    ensures Requests(x, n, l) < Requests(x, m, l) <==> exists i :: n <= i < m && ListingFor(x, i) == l
    decreases m - n
  {
    if n < m {
      RequestsGrow(x, n, m - 1, l);
      if ListingFor(x, m - 1) == l {
        assert n <= m - 1 < m && ListingFor(x, m - 1) == l;
      }
    }
  }

  /** A run of no more requests than there are codes finds a code for each at its listing. */
  lemma DemandFits(x: Mix, codeCount: nat, n: nat, l: nat)
    requires Sound(x) && n <= codeCount
    ensures Requests(x, n, l) <= Requests(x, codeCount, l)
  {
    RequestsGrow(x, n, codeCount, l);
  }

  /**
   * The warm-up takes one code more of the first listing. The run still fits exactly when one of the codes
   * it does not use is of that listing, which is never so for a run as long as the codes.
   */
  lemma WarmUpFitsExactly(x: Mix, codeCount: nat, n: nat)
    requires Sound(x) && n <= codeCount
    ensures (forall l: nat :: Requests(x, n, l) + (if l == 0 then 1 else 0) <= Requests(x, codeCount, l))
       <==> exists i :: n <= i < codeCount && ListingFor(x, i) == 0
    ensures n == codeCount ==> Requests(x, n, 0) + 1 > Requests(x, codeCount, 0)
  {
    forall l: nat ensures Requests(x, n, l) <= Requests(x, codeCount, l) {
      RequestsGrow(x, n, codeCount, l);
    }
    RequestsGrow(x, n, codeCount, 0);
    if forall l: nat :: Requests(x, n, l) + (if l == 0 then 1 else 0) <= Requests(x, codeCount, l) {
      assert Requests(x, n, 0) + (if 0 == 0 then 1 else 0) <= Requests(x, codeCount, 0);
    }
  }

  /**
   * The seed asks for as many codes as listings so that every listing gets one. With hot listings that is
   * not enough: each kind's own share of the codes has to reach round it.
   */
  lemma EveryListingSeededExactly(x: Mix, codeCount: nat)
    requires Sound(x)
    ensures (forall l :: 0 <= l < x.listings ==> Requests(x, codeCount, l) > 0)
       <==> if Uniform(x) then codeCount >= x.listings
            else codeCount * x.percent / 100 >= x.hot
                 && codeCount - codeCount * x.percent / 100 >= x.listings - x.hot
  {
    HotShareIsExact(x, codeCount);
    forall l | 0 <= l < x.listings
      ensures Requests(x, codeCount, l) > 0
         <==> if Uniform(x) then l < codeCount
              else if l < x.hot then l < HotAmong(x, codeCount)
              else l - x.hot < codeCount - HotAmong(x, codeCount)
    {
      RequestsExactly(x, codeCount, l);
      if Uniform(x) { DealtSome(codeCount, x.listings, l); }
      else if l < x.hot { DealtSome(HotAmong(x, codeCount), x.hot, l); }
      else { DealtSome(codeCount - HotAmong(x, codeCount), x.listings - x.hot, l - x.hot); }
    }
    var last := x.listings - 1;
    assert Requests(x, codeCount, last) > 0
      <==> if Uniform(x) then last < codeCount else last - x.hot < codeCount - HotAmong(x, codeCount);
    if !Uniform(x) {
      assert Requests(x, codeCount, x.hot - 1) > 0 <==> x.hot - 1 < HotAmong(x, codeCount);
    }
  }

  lemma {:induction false} DealtSome(m: nat, k: nat, l: nat)
    requires l < k
    ensures Dealt(m, k, l) > 0 <==> l < m
  {
    DealtExactly(m, k, l);
    if m < k { Quotient(m, k, 0, m); } else { assert m / k >= 1; }
  }

  /** Two codes for two listings, one of them hot for one request in a hundred: the hot one gets no code. */
  lemma HotListingLeftOut()
    ensures Sound(Mix(2, 1, 1)) && Requests(Mix(2, 1, 1), 2, 0) == 0
  {
    var x := Mix(2, 1, 1);
    HotShareIsExact(x, 2);
    RequestsExactly(x, 2, 0);
  }
}

/** Adding up the values of a finite map, and counting the elements of a set. */
module Sums {

  ghost function Total(m: map<nat, nat>): nat {
    if m == map[] then 0
    else
      var k :| k in m;
      m[k] + Total(m - {k})
  }

  /** Any key may be taken out first. */
  lemma {:induction false} TakeOut(m: map<nat, nat>, k: nat)
    requires k in m
    ensures Total(m) == m[k] + Total(m - {k})
  {
    var j :| j in m && Total(m) == m[j] + Total(m - {j});
    if j != k {
      TakeOut(m - {j}, k);
      TakeOut(m - {k}, j);
      assert m - {j} - {k} == m - {k} - {j};
    }
  }

  lemma PutIn(m: map<nat, nat>, k: nat, v: nat)
    requires k !in m
    ensures Total(m[k := v]) == Total(m) + v
  {
    TakeOut(m[k := v], k);
    assert m[k := v] - {k} == m;
  }

  lemma AtLeastOne(m: map<nat, nat>, k: nat)
    requires k in m
    ensures Total(m) >= m[k]
  {
  }

  lemma {:induction false} SubsetCount<T>(a: set<T>, b: set<T>)
    requires a <= b
    ensures |a| <= |b| && (|a| == |b| ==> a == b)
  {
    if a != {} {
      var x :| x in a;
      SubsetCount(a - {x}, b - {x});
    }
  }
}

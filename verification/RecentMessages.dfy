/** A user's most recent messages, put together from the most recent sent and the most recent received. */
module RecentMessages {
  import opened Sums

  const RECENT_MESSAGE_LIMIT: nat := 15

  datatype Message = Message(id: nat, sender: nat, recipient: nat, at: int)

  /** Later first; of two at the same moment the larger id. */
  predicate Newer(a: Message, b: Message) {
    a.at > b.at || (a.at == b.at && a.id > b.id)
  }

  /** Messages have a primary key. */
  ghost predicate Keyed(rows: set<Message>) {
    forall a, b :: a in rows && b in rows && a.id == b.id ==> a == b
  }

  ghost function Sent(rows: set<Message>, user: nat): set<Message> {
    set m | m in rows && m.sender == user
  }

  ghost function Received(rows: set<Message>, user: nat): set<Message> {
    set m | m in rows && m.recipient == user
  }

  ghost predicate NewestFirst(s: seq<Message>) {
    forall i, j :: 0 <= i < j < |s| ==> Newer(s[i], s[j])
  }

  ghost predicate NoneMissed(rows: set<Message>, s: seq<Message>) {
    forall m, v :: m in rows && m !in s && v in s ==> Newer(v, m)
  }

  /** What a query ordered by time and id, both descending, and limited to `k` rows returns. */
  ghost predicate IsTop(rows: set<Message>, k: nat, s: seq<Message>) {
    && NewestFirst(s)
    && (forall m :: m in s ==> m in rows)
    && |s| == (if |rows| < k then |rows| else k)
    && NoneMissed(rows, s)
  }

  // ---- counting ------------------------------------------------------------------------------

  ghost function Elements(s: seq<Message>): set<Message> {
    set m | m in s
  }

  lemma {:induction false} DistinctCount(s: seq<Message>)
    requires NewestFirst(s)
    ensures |Elements(s)| == |s|
  {
    if s == [] {
      assert Elements(s) == {};
    } else {
      var n := |s| - 1;
      DistinctCount(s[..n]);
      assert Elements(s) == Elements(s[..n]) + {s[n]};
      assert s[n] !in s[..n];
    }
  }

  // ---- one page at most ----------------------------------------------------------------------

  lemma Stranger(a: seq<Message>, b: seq<Message>, m: Message) returns (n: Message)
    requires NewestFirst(a) && NewestFirst(b) && |a| == |b| && m in a && m !in b
    ensures n in b && n !in a
  {
    DistinctCount(a);
    DistinctCount(b);
    if Elements(b) <= Elements(a) {
      SubsetCount(Elements(b), Elements(a) - {m});
    }
    n :| n in Elements(b) && n !in Elements(a);
  }

  lemma NoStranger(rows: set<Message>, k: nat, a: seq<Message>, b: seq<Message>)
    requires Keyed(rows) && IsTop(rows, k, a) && IsTop(rows, k, b)
    ensures Elements(a) <= Elements(b)
  {
    forall m | m in a ensures m in b {
      if m !in b {
        var _ := Stranger(a, b, m);
      }
    }
  }

  /** The rows of a query are determined by the table. */
  lemma TopIsUnique(rows: set<Message>, k: nat, a: seq<Message>, b: seq<Message>)
    requires Keyed(rows) && IsTop(rows, k, a) && IsTop(rows, k, b)
    ensures a == b
  {
    NoStranger(rows, k, a, b);
    NoStranger(rows, k, b, a);
    SameOrder(a, b);
  }

  lemma {:induction false} SameOrder(a: seq<Message>, b: seq<Message>)
    requires NewestFirst(a) && NewestFirst(b) && |a| == |b| && Elements(a) == Elements(b)
    ensures a == b
  {
    if a != [] {
      var n := |a| - 1;
      assert a[n] in Elements(b) && b[n] in Elements(a);
      var i :| 0 <= i <= n && b[i] == a[n];
      var j :| 0 <= j <= n && a[j] == b[n];
      assert a[n] == b[n];
      assert Elements(a[..n]) == Elements(a) - {a[n]};
      assert Elements(b[..n]) == Elements(b) - {b[n]};
      SameOrder(a[..n], b[..n]);
      assert a == a[..n] + [a[n]] && b == b[..n] + [b[n]];
    }
  }

  /** And there always are such rows. */
  lemma {:induction false} TopExists(rows: set<Message>, k: nat) returns (s: seq<Message>)
    requires Keyed(rows)
    ensures IsTop(rows, k, s)
  {
    s := [];
    if k > 0 && rows != {} {
      var first := NewestOf(rows);
      var rest := TopExists(rows - {first}, k - 1);
      s := [first] + rest;
    }
  }

  lemma {:induction false} NewestOf(rows: set<Message>) returns (first: Message)
    requires Keyed(rows) && rows != {}
    ensures first in rows && forall m :: m in rows && m != first ==> Newer(first, m)
  {
    var x :| x in rows;
    first := x;
    if rows - {x} == {} {
      assert rows == {x};
    } else {
      var y := NewestOf(rows - {x});
      first := if Newer(x, y) then x else y;
      assert forall m :: m in rows ==> m == x || m in rows - {x};
    }
  }

  // ---- merging -------------------------------------------------------------------------------

  ghost predicate Sorted(s: seq<Message>) {
    forall i, j :: 0 <= i < j < |s| ==> !Newer(s[j], s[i])
  }

  /** What the merge keeps: the first elements of the sorted list, without repetition. */
  ghost predicate Kept(all: seq<Message>, k: nat, views: seq<Message>) {
    && NewestFirst(views) && |views| <= k
    && (forall m :: m in views ==> m in all)
    && (forall m, v :: m in all && m !in views && v in views ==> Newer(v, m))
    && (|views| < k ==> forall m :: m in all ==> m in views)
  }

  /** A row that one of the two queries cut off has a full page of newer rows in front of it. */
  lemma CutOffIsOlder(rows: set<Message>, part: seq<Message>, all: seq<Message>, k: nat, views: seq<Message>,
                      m: Message)
    requires k > 0 && IsTop(rows, k, part) && Kept(all, k, views)
    requires forall x :: x in part ==> x in all
    requires m in rows && m !in part
    requires Keyed(rows + Elements(all))
    ensures |views| == k
    ensures forall v :: v in views && v != m ==> Newer(v, m)
  {
    DistinctCount(part);
    DistinctCount(views);
    assert |part| == k by {
      if |part| < k { SubsetCount(Elements(part), rows - {m}); }
    }
    if |views| < k {
      SubsetCount(Elements(part), Elements(views));
    }
    forall v | v in views && v != m ensures Newer(v, m) {
      if !Newer(v, m) {
        assert v in rows + Elements(all) && m in rows + Elements(all);
        forall x | x in part ensures x in views && x != v {
          assert Newer(x, m);
        }
        assert v in Elements(views);
        assert Elements(part) <= Elements(views) - {v};
        SubsetCount(Elements(part), Elements(views) - {v});
      }
    }
  }

  /**
   * Merging the newest sent with the newest received gives the newest of both together, also when a
   * message is in both, and however the two limits cut.
   */
  lemma MergeIsTop(a: set<Message>, b: set<Message>, k: nat, sent: seq<Message>, received: seq<Message>,
                   all: seq<Message>, views: seq<Message>)
    requires k > 0 && Keyed(a + b)
    requires IsTop(a, k, sent) && IsTop(b, k, received)
    requires forall m :: m in all <==> m in sent || m in received
    requires Kept(all, k, views)
    ensures IsTop(a + b, k, views)
  {
    DistinctCount(views);
    assert Elements(views) <= a + b;
    SubsetCount(Elements(views), a + b);
    assert forall m :: m in Elements(all) ==> m in a + b;
    forall m | m in a + b && m !in views
      ensures |views| == k && forall v :: v in views ==> Newer(v, m)
    {
      if m in a && m !in sent {
        CutOffIsOlder(a, sent, all, k, views, m);
      } else if m in b && m !in received {
        CutOffIsOlder(b, received, all, k, views, m);
      }
    }
    if |views| < k {
      assert Elements(views) == a + b;
    }
  }

  // ---- the operation -------------------------------------------------------------------------

  /** The library sort, by whatever method: a sorted list of the same elements. */
  method SortNewestFirst(s: seq<Message>) returns (all: seq<Message>)
    ensures Sorted(all) && (forall m :: m in all <==> m in s)
  {
    all := [];
    var i := 0;
    while i < |s|
      invariant 0 <= i <= |s|
      invariant Sorted(all) && (forall m :: m in all <==> m in s[..i])
    {
      var j := 0;
      while j < |all| && !Newer(s[i], all[j])
        invariant 0 <= j <= |all|
        invariant forall x :: 0 <= x < j ==> !Newer(s[i], all[x])
      {
        j := j + 1;
      }
      PutInOrder(all, s[i], j);
      assert s[..i + 1] == s[..i] + [s[i]];
      all := all[..j] + [s[i]] + all[j..];
      i := i + 1;
    }
    assert s[..i] == s;
  }

  lemma PutInOrder(all: seq<Message>, m: Message, j: nat)
    requires Sorted(all) && j <= |all|
    requires forall x :: 0 <= x < j ==> !Newer(m, all[x])
    requires j < |all| ==> Newer(m, all[j])
    ensures Sorted(all[..j] + [m] + all[j..])
    ensures forall x :: x in all[..j] + [m] + all[j..] <==> x in all || x == m
  {
  }

  method FirstDistinct(all: seq<Message>, limit: nat) returns (views: seq<Message>)
    requires Sorted(all) && Keyed(Elements(all)) && limit > 0
    ensures Kept(all, limit, views)
  {
    views := [];
    var seen: set<nat> := {};
    var i := 0;
    while i < |all|
      invariant 0 <= i <= |all|
      invariant NewestFirst(views) && |views| < limit
      invariant forall m :: m in views <==> m in all[..i]
      invariant forall n :: n in seen <==> exists m :: m in views && m.id == n
    {
      assert all[i] in Elements(all) && forall m :: m in all[..i] ==> m in Elements(all);
      assert all[..i + 1] == all[..i] + [all[i]];
      if all[i].id !in seen {
        forall v | v in views ensures Newer(v, all[i]) {
          var x :| 0 <= x < i && all[x] == v;
        }
        seen := seen + {all[i].id};
        views := views + [all[i]];
        if |views| == limit {
          RestIsOlder(all, i, views);
          return;
        }
      }
      i := i + 1;
    }
    assert all[..i] == all;
  }

  lemma RestIsOlder(all: seq<Message>, i: nat, views: seq<Message>)
    requires Sorted(all) && Keyed(Elements(all)) && i < |all|
    requires forall m :: m in views <==> m in all[..i + 1]
    ensures forall m, v :: m in all && m !in views && v in views ==> Newer(v, m)
  {
  }

  function PageSize(limit: int): nat {
    if limit <= 0 || limit > RECENT_MESSAGE_LIMIT then RECENT_MESSAGE_LIMIT else limit
  }

  /** `sent` and `received` are the answers of the two queries. */
  method Recent(ghost rows: set<Message>, user: nat, limit: int, sent: seq<Message>, received: seq<Message>)
    returns (views: seq<Message>)
    requires Keyed(rows)
    requires IsTop(Sent(rows, user), PageSize(limit), sent)
    requires IsTop(Received(rows, user), PageSize(limit), received)
    ensures IsTop(Sent(rows, user) + Received(rows, user), PageSize(limit), views)
    ensures forall m :: m in views ==> m in rows && (m.sender == user || m.recipient == user)
    ensures forall i, j :: 0 <= i < j < |views| ==>
      views[i].at > views[j].at || (views[i].at == views[j].at && views[i].id > views[j].id)
    ensures forall m, v :: m in rows && (m.sender == user || m.recipient == user) && m !in views && v in views ==>
      v.at > m.at || (v.at == m.at && v.id > m.id)
  {
    var all := SortNewestFirst(sent + received);
    assert forall m :: m in all <==> m in sent || m in received;
    assert forall m :: m in Elements(all) ==> m in rows;
    views := FirstDistinct(all, PageSize(limit));
    MergeIsTop(Sent(rows, user), Received(rows, user), PageSize(limit), sent, received, all, views);
  }
}

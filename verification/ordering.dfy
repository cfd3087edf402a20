/** Sorting a listing by `order`. The engine sorts with the comparator
    `a.order > b.order ? 1 : -1`, which orders numeric keys by value and leaves
    the place of non-numeric keys, and of ties, to the sort implementation.
    The model fixes one admissible outcome: a stable insertion sort under a
    total preorder that agrees with numeric order on numbers and puts
    non-numeric keys first. */
module Ordering {
  import opened JsValues
  import opened DocumentStore

  /** `a` may come before `b`. */
  predicate OrderLe(a: Json, b: Json)
  {
    a.Num? ==> b.Num? && a.n <= b.n
  }

  /** `OrderLe` is a total preorder. */
  lemma OrderLeTotalPreorder(a: Json, b: Json, c: Json)
    ensures OrderLe(a, a)
    ensures OrderLe(a, b) || OrderLe(b, a)
    ensures OrderLe(a, b) && OrderLe(b, c) ==> OrderLe(a, c)
  {
  }

  /** Non-decreasing by `order`. */
  ghost predicate Sorted(s: seq<Doc>)
  {
    forall i, j :: 0 <= i < j < |s| ==> OrderLe(s[i].order, s[j].order)
  }

  /** Numerically ordered keys of a sorted listing never decrease. */
  lemma SortedNumbersNonDecreasing(s: seq<Doc>, i: int, j: int)
    requires Sorted(s) && 0 <= i < j < |s| && s[i].order.Num?
    ensures s[j].order.Num? && s[i].order.n <= s[j].order.n
  {
  }

  /** Inserts `d` before the first element it may precede. */
  function Insert(d: Doc, s: seq<Doc>): (r: seq<Doc>)
    ensures multiset(r) == multiset(s) + multiset{d}
  {
    if s == [] then [d]
    else if OrderLe(d.order, s[0].order) then [d] + s
    else
      assert s == [s[0]] + s[1..];
      [s[0]] + Insert(d, s[1..])
  }

  /** Every element of a sorted sequence may follow its head. */
  lemma HeadFirst(s: seq<Doc>, j: int)
    requires Sorted(s) && 0 < j < |s|
    ensures OrderLe(s[0].order, s[j].order)
  {
  }

  /** Putting `d` in front of a sorted sequence whose head it may precede. */
  lemma ConsSorted(d: Doc, s: seq<Doc>)
    requires Sorted(s) && (s == [] || OrderLe(d.order, s[0].order))
    ensures Sorted([d] + s)
  {
    var r := [d] + s;
    forall i, j | 0 <= i < j < |r| ensures OrderLe(r[i].order, r[j].order) {
      assert r[j] == s[j - 1];
      if i == 0 {
        if j > 1 {
          HeadFirst(s, j - 1);
        }
        OrderLeTotalPreorder(d.order, s[0].order, s[j - 1].order);
      } else {
        assert r[i] == s[i - 1];
      }
    }
  }

  lemma {:induction false} InsertSorted(d: Doc, s: seq<Doc>)
    requires Sorted(s)
    ensures Sorted(Insert(d, s))
  {
    if s != [] && !OrderLe(d.order, s[0].order) {
      var t := Insert(d, s[1..]);
      SortedTail(s);
      InsertSorted(d, s[1..]);
      forall j | 0 <= j < |t| ensures OrderLe(s[0].order, t[j].order) {
        assert t[j] in multiset(t);
        if t[j] != d {
          assert t[j] in multiset(s[1..]);
          var k :| 0 <= k < |s[1..]| && s[1..][k] == t[j];
          HeadFirst(s, k + 1);
        }
      }
      ConsSorted(s[0], t);
    } else {
      ConsSorted(d, s);
    }
  }

  /** The listing order: a permutation of `s` that is sorted by `order`. */
  function SortByOrder(s: seq<Doc>): (r: seq<Doc>)
    ensures multiset(r) == multiset(s)
    ensures Sorted(r)
  {
    if s == [] then []
    else
      var t := SortByOrder(s[1..]);
      InsertSorted(s[0], t);
      assert s == [s[0]] + s[1..];
      Insert(s[0], t)
  }

  lemma SortedTail(s: seq<Doc>)
    requires Sorted(s) && s != []
    ensures Sorted(s[1..])
  {
    forall i, j | 0 <= i < j < |s[1..]| ensures OrderLe(s[1..][i].order, s[1..][j].order) {
      assert s[1..][i] == s[i + 1] && s[1..][j] == s[j + 1];
    }
  }

  lemma TailMultiset(s: seq<Doc>)
    requires s != []
    ensures multiset(s[1..]) == multiset(s) - multiset{s[0]}
  {
    assert s == [s[0]] + s[1..];
  }

  /** Two sorted arrangements with the same records and distinct numeric
      keys start with the same record. */
  lemma SortedHeads(a: seq<Doc>, b: seq<Doc>)
    requires Sorted(a) && Sorted(b) && multiset(a) == multiset(b) && a != []
    requires forall i :: 0 <= i < |a| ==> a[i].order.Num?
    requires forall i, j :: 0 <= i < j < |a| ==> a[i].order != a[j].order
    ensures b != [] && a[0] == b[0]
  {
    assert a[0] in multiset(b);
    assert b[0] in multiset(a);
    var k :| 0 <= k < |a| && a[k] == b[0];
    var m :| 0 <= m < |b| && b[m] == a[0];
  }

  /** With numeric, pairwise distinct keys, the sorted arrangement of a
      collection of records is unique. */
  lemma {:induction false} SortedUnique(a: seq<Doc>, b: seq<Doc>)
    requires Sorted(a) && Sorted(b) && multiset(a) == multiset(b)
    requires forall i :: 0 <= i < |a| ==> a[i].order.Num?
    requires forall i, j :: 0 <= i < j < |a| ==> a[i].order != a[j].order
    ensures a == b
    decreases |a|
  {
    if a == [] {
      assert |b| == |multiset(b)| == 0;
    } else {
      SortedHeads(a, b);
      TailMultiset(a);
      TailMultiset(b);
      SortedTail(a);
      SortedTail(b);
      forall i, j | 0 <= i < j < |a[1..]| ensures a[1..][i].order != a[1..][j].order {
        assert a[1..][i] == a[i + 1] && a[1..][j] == a[j + 1];
      }
      SortedUnique(a[1..], b[1..]);
      assert a == [a[0]] + a[1..] && b == [b[0]] + b[1..];
    }
  }
}

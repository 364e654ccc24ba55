/** Sorting, as a function, and why a strict order leaves no choice. */
module Ordering {

  ghost predicate IsStrict<T(!new)>(less: (T, T) -> bool) {
    && (forall x :: !less(x, x))
    && (forall x, y, z :: less(x, y) && less(y, z) ==> less(x, z))
  }

  ghost predicate IsAscending<T>(less: (T, T) -> bool, s: seq<T>) {
    forall i, j | 0 <= i < j < |s| :: less(s[i], s[j])
  }

  /** No two elements tie. */
  ghost predicate AreComparable<T>(less: (T, T) -> bool, s: seq<T>) {
    forall i, j | 0 <= i < j < |s| :: less(s[i], s[j]) || less(s[j], s[i])
  }

  function Insert<T>(less: (T, T) -> bool, x: T, s: seq<T>): (r: seq<T>)
    ensures multiset(r) == multiset(s) + multiset{x} && |r| == |s| + 1
  {
    if s == [] || less(x, s[0]) then [x] + s
    else
      assert s == [s[0]] + s[1..];
      [s[0]] + Insert(less, x, s[1..])
  }

  function Sort<T>(less: (T, T) -> bool, s: seq<T>): (r: seq<T>)
    ensures multiset(r) == multiset(s) && |r| == |s|
  {
    if s == [] then []
    else
      assert s == s[..|s| - 1] + [s[|s| - 1]];
      Insert(less, s[|s| - 1], Sort(less, s[..|s| - 1]))
  }

  lemma InSort<T>(less: (T, T) -> bool, s: seq<T>, x: T)
    ensures x in Sort(less, s) <==> x in s
  {
    assert x in Sort(less, s) <==> x in multiset(Sort(less, s));
    assert x in s <==> x in multiset(s);
  }

  lemma {:induction false} InsertAscends<T(!new)>(less: (T, T) -> bool, x: T, s: seq<T>)
    requires IsStrict(less) && IsAscending(less, s)
    requires forall y | y in s :: less(x, y) || less(y, x)
    ensures IsAscending(less, Insert(less, x, s))
  {
    if s != [] && !less(x, s[0]) {
      var rest := Insert(less, x, s[1..]);
      assert forall y | y in s[1..] :: y in s;
      InsertAscends(less, x, s[1..]);
      forall j | 0 <= j < |rest| ensures less(s[0], rest[j]) {
        assert rest[j] in multiset(rest);
        assert rest[j] == x || rest[j] in s[1..];
      }
    } else if s != [] {
      forall j | 0 <= j < |s| ensures less(x, s[j]) {
        assert j > 0 ==> less(s[0], s[j]);
      }
    }
  }

  /** Sorting sorts: the same elements, each before every greater one. */
  lemma {:induction false} SortAscends<T(!new)>(less: (T, T) -> bool, s: seq<T>)
    requires IsStrict(less) && AreComparable(less, s)
    ensures IsAscending(less, Sort(less, s))
  {
    if s != [] {
      var front, x := s[..|s| - 1], s[|s| - 1];
      SortAscends(less, front);
      forall y | y in Sort(less, front) ensures less(x, y) || less(y, x) {
        InSort(less, front, y);
        var i :| 0 <= i < |front| && front[i] == y;
        assert less(s[i], s[|s| - 1]) || less(s[|s| - 1], s[i]);
      }
      InsertAscends(less, x, Sort(less, front));
    }
  }

  /** Two ascending sequences of the same elements are the same sequence. */
  lemma {:induction false} AscendingIsUnique<T(!new)>(less: (T, T) -> bool, a: seq<T>, b: seq<T>)
    requires IsStrict(less) && IsAscending(less, a) && IsAscending(less, b)
    requires forall x :: x in a <==> x in b
    ensures a == b
  {
    assert a != [] ==> a[0] in a;
    assert b != [] ==> b[0] in b;
    if a != [] {
      HeadIsLeast(less, a, b[0]);
      HeadIsLeast(less, b, a[0]);
      forall x ensures x in a[1..] <==> x in b[1..] {
        TailLacksHead(less, a, x);
        TailLacksHead(less, b, x);
      }
      AscendingIsUnique(less, a[1..], b[1..]);
      assert a == [a[0]] + a[1..] && b == [b[0]] + b[1..];
    }
  }

  lemma HeadIsLeast<T(!new)>(less: (T, T) -> bool, s: seq<T>, x: T)
    requires IsAscending(less, s) && x in s
    ensures x == s[0] || less(s[0], x)
  {
    var i :| 0 <= i < |s| && s[i] == x;
  }

  lemma TailLacksHead<T(!new)>(less: (T, T) -> bool, s: seq<T>, x: T)
    requires IsStrict(less) && IsAscending(less, s) && s != []
    ensures x in s[1..] <==> x in s && x != s[0]
  {
    if x in s[1..] {
      var i :| 0 <= i < |s[1..]| && s[1..][i] == x;
      assert less(s[0], s[i + 1]);
    }
    assert s == [s[0]] + s[1..];
  }

  /** A strict order with ties: what is not before nor after an element may stand for it. */
  ghost predicate IsWeak<T(!new)>(less: (T, T) -> bool) {
    IsStrict(less) && forall x, y, z :: less(x, z) ==> less(x, y) || less(y, z)
  }

  ghost predicate NothingPrecedes<T>(less: (T, T) -> bool, s: seq<T>, x: T) {
    forall y | y in s :: !less(y, x)
  }

  lemma {:induction false} InsertKeepsLeast<T(!new)>(less: (T, T) -> bool, x: T, s: seq<T>)
    requires IsWeak(less) && (s != [] ==> NothingPrecedes(less, s, s[0]))
    ensures NothingPrecedes(less, Insert(less, x, s), Insert(less, x, s)[0])
  {
    var r := Insert(less, x, s);
    forall y | y in r ensures !less(y, r[0]) {
      assert y in multiset(r);
      assert y == x || y in s;
    }
  }

  /** The first of a sorted sequence has nothing before it, ties or not. */
  lemma {:induction false} SortHasLeastFirst<T(!new)>(less: (T, T) -> bool, s: seq<T>)
    requires IsWeak(less) && s != []
    ensures NothingPrecedes(less, s, Sort(less, s)[0]) && Sort(less, s)[0] in s
  {
    var front, x := s[..|s| - 1], s[|s| - 1];
    if front != [] {
      SortHasLeastFirst(less, front);
      forall y | y in Sort(less, front) ensures !less(y, Sort(less, front)[0]) {
        InSort(less, front, y);
      }
    }
    InsertKeepsLeast(less, x, Sort(less, front));
    forall y | y in s ensures !less(y, Sort(less, s)[0]) {
      InSort(less, s, y);
    }
    InSort(less, s, Sort(less, s)[0]);
  }

  // ------------------------------------------------------------------ the first of a sequence

  /** In an ascending sequence, what a pivot does not precede comes first. */
  lemma {:induction false} PivotSplits<T(!new)>(less: (T, T) -> bool, s: seq<T>, pivot: T) returns (n: nat)
    requires IsStrict(less) && IsAscending(less, s)
    ensures n <= |s| && forall i | 0 <= i < |s| :: i < n <==> !less(pivot, s[i])
  {
    if s == [] {
      n := 0;
    } else {
      var front, last := s[..|s| - 1], s[|s| - 1];
      n := PivotSplits(less, front, pivot);
      if n == |front| && !less(pivot, last) {
        n := |s|;
      } else if n < |front| {
        assert less(pivot, front[n]) && less(s[n], last);
      }
    }
  }

  lemma {:induction false} PlaceOf<T(!new)>(less: (T, T) -> bool, top: seq<T>, s: seq<T>, k: nat) returns (i: nat)
    requires IsStrict(less) && IsAscending(less, top) && IsAscending(less, s) && k < |top|
    requires forall x | x in top :: x in s
    ensures k <= i < |s| && s[i] == top[k]
  {
    assert top[k] in s;
    i :| 0 <= i < |s| && s[i] == top[k];
    if k > 0 {
      var j := PlaceOf(less, top, s, k - 1);
      assert less(top[k - 1], top[k]);
      InOrder(less, s, i, j);
    }
  }

  lemma InOrder<T(!new)>(less: (T, T) -> bool, s: seq<T>, i: nat, j: nat)
    requires IsStrict(less) && IsAscending(less, s) && i < |s| && j < |s|
    ensures i <= j ==> !less(s[j], s[i])
  {
    if i < j {
      assert less(s[i], s[j]);
    }
  }

  /** Two ascending sequences that hold the same `top`, and agree down to its last, begin alike. */
  lemma TopsAgree<T(!new)>(less: (T, T) -> bool, a: seq<T>, b: seq<T>, top: seq<T>)
    requires IsStrict(less) && IsAscending(less, a) && IsAscending(less, b) && IsAscending(less, top)
    requires top != [] && (forall x | x in top :: x in a && x in b)
    requires forall x | !less(top[|top| - 1], x) :: x in a <==> x in b
    ensures |top| <= |a| && |top| <= |b| && a[..|top|] == b[..|top|]
  {
    var k := |top|;
    var pivot := top[k - 1];
    var n := PivotSplits(less, a, pivot);
    var m := PivotSplits(less, b, pivot);
    var i := PlaceOf(less, top, a, k - 1);
    var j := PlaceOf(less, top, b, k - 1);
    forall x ensures x in a[..n] <==> x in b[..m] {
      InFirst(less, a, pivot, n, x);
      InFirst(less, b, pivot, m, x);
    }
    AscendingIsUnique(less, a[..n], b[..m]);
    assert a[..k] == a[..n][..k] && b[..k] == b[..m][..k];
  }

  lemma InFirst<T(!new)>(less: (T, T) -> bool, s: seq<T>, pivot: T, n: nat, x: T)
    requires n <= |s| && forall i | 0 <= i < |s| :: i < n <==> !less(pivot, s[i])
    ensures x in s[..n] <==> x in s && !less(pivot, x)
  {
    if x in s && !less(pivot, x) {
      var i :| 0 <= i < |s| && s[i] == x;
      assert s[..n][i] == x;
    }
  }
}

/** Ordering of result rows: SQL `ORDER BY` and Python's stable `sorted`.
    Both are modelled by one stable insertion sort over a total preorder
    `le`, where `le(a, b)` means "a may come before b". */
module Sorting {
  import opened Common

  ghost predicate TotalPreorder<T(!new)>(le: (T, T) -> bool) {
    && (forall a, b :: le(a, b) || le(b, a))
    && (forall a, b, c :: le(a, b) && le(b, c) ==> le(a, c))
  }

  /** `le` is also antisymmetric: no two distinct values tie. */
  ghost predicate TotalOrder<T(!new)>(le: (T, T) -> bool) {
    && TotalPreorder(le)
    && (forall a, b :: le(a, b) && le(b, a) ==> a == b)
  }

  ghost predicate SortedBy<T>(s: seq<T>, le: (T, T) -> bool) {
    forall i, j :: 0 <= i < j < |s| ==> le(s[i], s[j])
  }

  /** `x` goes before the first element it may precede, hence before every
      element it ties with: inserting the earlier input elements last keeps
      the sort stable. */
  function InsertBy<T>(x: T, s: seq<T>, le: (T, T) -> bool): seq<T> {
    if s == [] || le(x, s[0]) then [x] + s
    else [s[0]] + InsertBy(x, s[1..], le)
  }

  /** The elements of `s` that tie with `c` under `le`, in order. */
  function Ties<T>(s: seq<T>, le: (T, T) -> bool, c: T): seq<T> {
    if s == [] then []
    else (if le(s[0], c) && le(c, s[0]) then [s[0]] else []) + Ties(s[1..], le, c)
  }

  lemma {:induction false} InsertByPerm<T>(x: T, s: seq<T>, le: (T, T) -> bool)
    ensures multiset(InsertBy(x, s, le)) == multiset(s) + multiset{x}
  {
    if !(s == [] || le(x, s[0])) {
      InsertByPerm(x, s[1..], le);
      assert s == [s[0]] + s[1..];
    }
  }

  lemma {:induction false} InsertBySorted<T(!new)>(x: T, s: seq<T>, le: (T, T) -> bool)
    requires TotalPreorder(le) && SortedBy(s, le)
    ensures SortedBy(InsertBy(x, s, le), le)
  {
    if s == [] || le(x, s[0]) {
      forall z | z in s ensures le(x, z) {
        var k :| 0 <= k < |s| && s[k] == z;
        assert le(s[0], s[k]) || k == 0;
      }
      SortedCons(x, s, le);
    } else {
      InsertBySorted(x, s[1..], le);
      InsertByPerm(x, s[1..], le);
      var tail := InsertBy(x, s[1..], le);
      forall z | z in tail ensures le(s[0], z) {
        assert z in multiset(tail);
        if z != x {
          assert z in multiset(s[1..]);
          var k :| 0 <= k < |s[1..]| && s[1..][k] == z;
          assert s[k + 1] == z;
        }
      }
      SortedCons(s[0], tail, le);
    }
  }

  /** An element that may precede every element of a sorted sequence can
      be put in front of it. */
  lemma SortedCons<T>(y: T, t: seq<T>, le: (T, T) -> bool)
    requires SortedBy(t, le) && forall z :: z in t ==> le(y, z)
    ensures SortedBy([y] + t, le)
  {
    var r := [y] + t;
    forall i, j | 0 <= i < j < |r| ensures le(r[i], r[j]) {
      assert r[j] == t[j - 1];
      if i > 0 {
        assert r[i] == t[i - 1];
      }
    }
  }

  /** Insertion keeps the relative order of every tie class. */
  lemma {:induction false} InsertByTies<T(!new)>(x: T, s: seq<T>, le: (T, T) -> bool, c: T)
    requires TotalPreorder(le)
    ensures Ties(InsertBy(x, s, le), le, c)
         == (if le(x, c) && le(c, x) then [x] else []) + Ties(s, le, c)
  {
    if s == [] || le(x, s[0]) {
      TiesCons(x, s, le, c);
    } else {
      var t := InsertBy(x, s[1..], le);
      InsertByTies(x, s[1..], le, c);
      TiesCons(s[0], t, le, c);
      TiesCons(s[0], s[1..], le, c);
      assert s == [s[0]] + s[1..];
      if le(x, c) && le(c, x) {
        // s[0] sorts strictly before x, so it cannot tie with c
        assert !(le(s[0], c) && le(c, s[0]));
      }
    }
  }

  /** The ties of a sequence that starts with `y`. */
  lemma TiesCons<T>(y: T, t: seq<T>, le: (T, T) -> bool, c: T)
    ensures Ties([y] + t, le, c) == (if le(y, c) && le(c, y) then [y] else []) + Ties(t, le, c)
  {
    assert ([y] + t)[1..] == t;
  }

  /** Stable insertion sort. */
  function SortBy<T(!new)>(s: seq<T>, le: (T, T) -> bool): (r: seq<T>)
    requires TotalPreorder(le)
    ensures multiset(r) == multiset(s)
    ensures SortedBy(r, le)
    ensures |r| == |s|
  {
    if s == [] then []
    else
      var rest := SortBy(s[1..], le);
      InsertByPerm(s[0], rest, le);
      InsertBySorted(s[0], rest, le);
      assert s == [s[0]] + s[1..];
      InsertBy(s[0], rest, le)
  }

  /** Stability: elements that tie keep the order they had in the input. */
  lemma {:induction false} SortByStable<T(!new)>(s: seq<T>, le: (T, T) -> bool, c: T)
    requires TotalPreorder(le)
    ensures Ties(SortBy(s, le), le, c) == Ties(s, le, c)
  {
    if s != [] {
      SortByStable(s[1..], le, c);
      InsertByTies(s[0], SortBy(s[1..], le), le, c);
    }
  }

  /** Under a total order there is only one sorted arrangement of a multiset. */
  lemma {:induction false} SortedUnique<T(!new)>(a: seq<T>, b: seq<T>, le: (T, T) -> bool)
    requires TotalOrder(le)
    requires SortedBy(a, le) && SortedBy(b, le)
    requires multiset(a) == multiset(b)
    ensures a == b
  {
    if a != [] {
      SameHead(a, b, le);
      TailMultiset(a);
      TailMultiset(b);
      SortedTail(a, le);
      SortedTail(b, le);
      SortedUnique(a[1..], b[1..], le);
      assert a == [a[0]] + a[1..] && b == [b[0]] + b[1..];
    }
  }

  /** Dropping the head removes one occurrence of it from the multiset. */
  lemma TailMultiset<T>(a: seq<T>)
    requires a != []
    ensures multiset(a[1..]) == multiset(a) - multiset{a[0]}
  {
    assert a == [a[0]] + a[1..];
  }

  /** Two sorted arrangements of one non-empty multiset, under a total
      order, start with the same element. */
  lemma SameHead<T(!new)>(a: seq<T>, b: seq<T>, le: (T, T) -> bool)
    requires TotalOrder(le)
    requires SortedBy(a, le) && SortedBy(b, le)
    requires multiset(a) == multiset(b) && a != []
    ensures b != [] && a[0] == b[0]
  {
    assert a[0] in multiset(b);
    var j :| 0 <= j < |b| && b[j] == a[0];
    assert b[0] in multiset(a);
    var i :| 0 <= i < |a| && a[i] == b[0];
    assert le(a[0], a[i]) || i == 0;
    assert le(b[0], b[j]) || j == 0;
  }

  /** The tail of a sorted sequence is sorted. */
  lemma SortedTail<T>(a: seq<T>, le: (T, T) -> bool)
    requires SortedBy(a, le) && a != []
    ensures SortedBy(a[1..], le)
  {
    forall i, j | 0 <= i < j < |a[1..]| ensures le(a[1..][i], a[1..][j]) {
      assert a[1..][i] == a[i + 1] && a[1..][j] == a[j + 1];
    }
  }

  /** Sorting by a total order forgets the input order entirely. */
  lemma SortByCanonical<T(!new)>(s: seq<T>, t: seq<T>, le: (T, T) -> bool)
    requires TotalOrder(le)
    requires multiset(s) == multiset(t)
    ensures SortBy(s, le) == SortBy(t, le)
  {
    SortedUnique(SortBy(s, le), SortBy(t, le), le);
  }

  /** The first element of a sorted sequence precedes every element. */
  lemma FirstIsLeast<T>(s: seq<T>, le: (T, T) -> bool, x: T)
    requires SortedBy(s, le) && |s| > 0 && x in s && x != s[0]
    ensures le(s[0], x)
  {
    var k :| 0 <= k < |s| && s[k] == x;
  }
}

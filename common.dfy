/** Values shared by every part of the model: optional (nullable) values and
    a few facts about sequences used as query results. */
module Common {

  /** A nullable column, or Python's None. */
  datatype Option<+T> = None | Some(value: T)

  /** The elements of `s` that satisfy `p`, in their original order (a
      Python list comprehension with an `if` clause, or a SQL `WHERE`). */
  function Filter<T(!new)>(s: seq<T>, p: T -> bool): (r: seq<T>)
    ensures |r| <= |s|
    ensures forall x :: x in r ==> x in s && p(x)
    ensures forall x {:trigger multiset(r)[x]} :: multiset(r)[x] == if p(x) then multiset(s)[x] else 0
  {
    if s == [] then []
    else
      assert s == [s[0]] + s[1..];
      (if p(s[0]) then [s[0]] else []) + Filter(s[1..], p)
  }

  lemma {:induction false} FilterAppend<T(!new)>(a: seq<T>, b: seq<T>, p: T -> bool)
    ensures Filter(a + b, p) == Filter(a, p) + Filter(b, p)
  {
    if a == [] {
      assert a + b == b;
    } else {
      var x, t := a[0], a[1..];
      assert a == [x] + t;
      assert a + b == [x] + (t + b);
      FilterCons(x, t + b, p);
      FilterCons(x, t, p);
      FilterAppend(t, b, p);
      var head := if p(x) then [x] else [];
      assert Filter(a + b, p) == head + (Filter(t, p) + Filter(b, p));
    }
  }

  /** Filtering a sequence that starts with `x`. */
  lemma FilterCons<T(!new)>(x: T, s: seq<T>, p: T -> bool)
    ensures Filter([x] + s, p) == (if p(x) then [x] else []) + Filter(s, p)
  {
    assert ([x] + s)[1..] == s;
  }

  /** A filter every element passes keeps the sequence whole. */
  lemma {:induction false} FilterAll<T(!new)>(s: seq<T>, p: T -> bool)
    requires forall x :: x in s ==> p(x)
    ensures Filter(s, p) == s
  {
    if s != [] {
      assert s[0] in s;
      assert forall x :: x in s[1..] ==> x in s;
      FilterAll(s[1..], p);
      assert s == [s[0]] + s[1..];
    }
  }

  /** A filter no element passes leaves nothing. */
  lemma {:induction false} FilterNone<T(!new)>(s: seq<T>, p: T -> bool)
    requires forall x :: x in s ==> !p(x)
    ensures Filter(s, p) == []
  {
    if s != [] {
      assert s[0] in s;
      assert forall x :: x in s[1..] ==> x in s;
      FilterNone(s[1..], p);
    }
  }

  /** Two filters that agree on every element keep the same elements. */
  lemma {:induction false} FilterAgree<T(!new)>(s: seq<T>, p: T -> bool, q: T -> bool)
    requires forall x :: x in s ==> p(x) == q(x)
    ensures Filter(s, p) == Filter(s, q)
  {
    if s != [] {
      assert s[0] in s;
      assert forall x :: x in s[1..] ==> x in s;
      FilterAgree(s[1..], p, q);
    }
  }

  /** Every element occurs at most once. */
  ghost predicate NoDup<T(!new)>(s: seq<T>) {
    forall x :: multiset(s)[x] <= 1
  }

  /** Some enumeration of a finite set: the order in which a database engine
      hands out the groups of a `GROUP BY` is not specified, and this
      function stands for that unspecified choice. */
  ghost function SetToSeq<T(!new)>(s: set<T>): (r: seq<T>)
    ensures |r| == |s|
    ensures forall x :: multiset(r)[x] == if x in s then 1 else 0
  {
    if s == {} then []
    else
      var x :| x in s;
      var rest := SetToSeq(s - {x});
      assert forall y :: multiset([x] + rest)[y] == if y in s then 1 else 0;
      [x] + rest
  }

  /** The elements of `s` as a set. */
  function Elems<T(!new)>(s: seq<T>): (r: set<T>)
    ensures forall x :: x in r <==> x in s
  {
    set x | x in s
  }

  /** A sequence without repetitions is as long as its set of elements. */
  lemma {:induction false} NoDupCard<T(!new)>(s: seq<T>)
    requires NoDup(s)
    ensures |Elems(s)| == |s|
  {
    if s != [] {
      assert s == [s[0]] + s[1..];
      assert multiset(s) == multiset{s[0]} + multiset(s[1..]);
      assert NoDup(s[1..]) by {
        forall x ensures multiset(s[1..])[x] <= 1 {
          assert multiset(s[1..])[x] <= multiset(s)[x];
        }
      }
      assert multiset(s)[s[0]] == 1 + multiset(s[1..])[s[0]];
      assert s[0] !in s[1..];
      assert Elems(s) == {s[0]} + Elems(s[1..]);
      NoDupCard(s[1..]);
    }
  }

  /** Without repetitions, different positions hold different values. */
  lemma NoDupDistinct<T(!new)>(s: seq<T>, i: int, j: int)
    requires NoDup(s) && 0 <= i < j < |s|
    ensures s[i] != s[j]
  {
    assert s == s[..j] + [s[j]] + s[j + 1..];
    assert multiset(s)[s[j]] == multiset(s[..j])[s[j]] + 1 + multiset(s[j + 1..])[s[j]];
    assert s[j] !in s[..j];
    assert s[i] in s[..j];
  }

  /** A permutation of a sequence without repetitions has none either. */
  lemma NoDupPerm<T(!new)>(s: seq<T>, t: seq<T>)
    requires NoDup(s) && multiset(s) == multiset(t)
    ensures NoDup(t)
  {
  }

  /** `[f(x) for x in s]`. */
  function Map<T, U>(s: seq<T>, f: T -> U): (r: seq<U>)
    ensures |r| == |s|
    ensures forall i :: 0 <= i < |s| ==> r[i] == f(s[i])
  {
    seq(|s|, i requires 0 <= i < |s| => f(s[i]))
  }

  /** Mapping one more element of `s` appends its image. */
  lemma MapSnoc<T, U>(s: seq<T>, i: nat, f: T -> U)
    requires i < |s|
    ensures Map(s[..i + 1], f) == Map(s[..i], f) + [f(s[i])]
  {
    assert s[..i + 1] == s[..i] + [s[i]];
    MapAppend(s[..i], [s[i]], f);
  }

  lemma MapAppend<T, U>(a: seq<T>, b: seq<T>, f: T -> U)
    ensures Map(a + b, f) == Map(a, f) + Map(b, f)
  {
  }

  /** Projecting a sequence without repetitions: each value occurs as often
      as there are distinct elements that project to it (a `SELECT` that
      drops the grouping key keeps one row per group). */
  lemma {:induction false} MapMultiset<T(!new), U(!new)>(s: seq<T>, f: T -> U, y: U)
    requires NoDup(s)
    ensures multiset(Map(s, f))[y] == |set x | x in s && f(x) == y|
  {
    if s == [] {
      assert (set x | x in s && f(x) == y) == {};
    } else {
      var rest := s[1..];
      NoDupTail(s);
      MapMultiset(rest, f, y);
      assert Map(s, f) == [f(s[0])] + Map(rest, f);
      assert multiset(Map(s, f))[y] == (if f(s[0]) == y then 1 else 0) + multiset(Map(rest, f))[y];
      ProjectionSplit(s, f, y);
    }
  }

  /** The elements of `S` that `f` sends to `y`. */
  ghost function Preimage<T(!new), U(!new)>(S: set<T>, f: T -> U, y: U): set<T> {
    set x | x in S && f(x) == y
  }

  /** `MapMultiset` for a sequence that enumerates the set `S`. */
  lemma MapMultisetOfSet<T(!new), U(!new)>(s: seq<T>, S: set<T>, f: T -> U, y: U)
    requires NoDup(s) && forall x :: x in s <==> x in S
    ensures multiset(Map(s, f))[y] == |Preimage(S, f, y)|
  {
    MapMultiset(s, f, y);
    assert (set x | x in s && f(x) == y) == Preimage(S, f, y);
  }

  /** The tail of a sequence without repetitions has none and lacks the head. */
  lemma NoDupTail<T(!new)>(s: seq<T>)
    requires NoDup(s) && |s| > 0
    ensures NoDup(s[1..]) && s[0] !in s[1..]
  {
    assert s == [s[0]] + s[1..];
    assert multiset(s) == multiset{s[0]} + multiset(s[1..]);
    assert multiset(s)[s[0]] == 1 + multiset(s[1..])[s[0]];
    forall x ensures multiset(s[1..])[x] <= 1 {
      assert multiset(s[1..])[x] <= multiset(s)[x];
    }
  }

  lemma ProjectionSplit<T(!new), U(!new)>(s: seq<T>, f: T -> U, y: U)
    requires |s| > 0 && s[0] !in s[1..]
    ensures |set x | x in s && f(x) == y|
         == (if f(s[0]) == y then 1 else 0) + |set x | x in s[1..] && f(x) == y|
  {
    var here := set x | x in s && f(x) == y;
    var there := set x | x in s[1..] && f(x) == y;
    assert forall x :: x in s <==> x == s[0] || x in s[1..] by {
      assert s == [s[0]] + s[1..];
    }
    if f(s[0]) == y {
      assert here == {s[0]} + there;
    } else {
      assert here == there;
    }
  }
}

/** The Python post-processing shared by the report scripts: the rows tied
    with the first (largest) count, display windows over long listings, and
    truncation of long names, titles and default values. */
module Display {
  import opened Common

  /** Counts never grow along `s` (`ORDER BY count DESC`). */
  ghost predicate NonIncreasing<T>(s: seq<T>, count: T -> int) {
    forall i, j :: 0 <= i < j < |s| ==> count(s[i]) >= count(s[j])
  }

  /** The rows of `s` whose count is `c`, in order. */
  function WithCount<T>(s: seq<T>, count: T -> int, c: int): seq<T> {
    if s == [] then []
    else (if count(s[0]) == c then [s[0]] else []) + WithCount(s[1..], count, c)
  }

  lemma {:induction false} WithCountMultiset<T>(s: seq<T>, count: T -> int, c: int, x: T)
    ensures multiset(WithCount(s, count, c))[x] == if count(x) == c then multiset(s)[x] else 0
  {
    if s != [] {
      WithCountMultiset(s[1..], count, c, x);
      assert s == [s[0]] + s[1..];
    }
  }

  /** Every row kept by `WithCount` is a row of `s` with the count asked
      for. */
  lemma {:induction false} WithCountMember<T>(s: seq<T>, count: T -> int, c: int, x: T)
    requires x in WithCount(s, count, c)
    ensures x in s && count(x) == c
  {
    if s != [] && !(count(s[0]) == c && x == s[0]) {
      WithCountMember(s[1..], count, c, x);
    }
  }

  /** `[row for row in results if count(row) == count(results[0])]`. */
  function TiedWithFirst<T>(s: seq<T>, count: T -> int): seq<T>
    requires |s| > 0
  {
    WithCount(s, count, count(s[0]))
  }

  /** On a result ordered by count descending, the first count is the
      largest. */
  lemma FirstIsMaximum<T>(s: seq<T>, count: T -> int, x: T)
    requires NonIncreasing(s, count) && x in s
    ensures count(x) <= count(s[0])
  {
    var k :| 0 <= k < |s| && s[k] == x;
  }

  /** On a result ordered by count descending, the rows tied with the first
      are exactly the rows with the largest count, each as often as in the
      result, and the first row is among them: all ties are kept. */
  lemma TiedWithFirstIsMaximum<T>(s: seq<T>, count: T -> int, x: T)
    requires |s| > 0 && NonIncreasing(s, count)
    ensures x in s ==> count(x) <= count(s[0])
    ensures multiset(TiedWithFirst(s, count))[x]
         == if x in s && (forall y :: y in s ==> count(y) <= count(x)) then multiset(s)[x] else 0
    ensures |TiedWithFirst(s, count)| > 0 && TiedWithFirst(s, count)[0] == s[0]
  {
    WithCountMultiset(s, count, count(s[0]), x);
    if x in s {
      FirstIsMaximum(s, count, x);
    }
    if x in s && count(x) == count(s[0]) {
      forall y | y in s ensures count(y) <= count(x) {
        FirstIsMaximum(s, count, y);
      }
    }
    if x in s && (forall y :: y in s ==> count(y) <= count(x)) {
      assert count(s[0]) <= count(x);
    }
  }

  /** What a listing shows: the first rows, and how many more it reports
      ("... et N autres") when it stops early. */
  datatype Page<T> = Page(shown: seq<T>, hidden: nat)

  /** `results[:limit]`, followed by `total - limit` when `total > limit`. */
  function Paginate<T>(s: seq<T>, limit: nat): (p: Page<T>)
    ensures |p.shown| == if |s| < limit then |s| else limit
    ensures p.shown == s[..|p.shown|]
    ensures |p.shown| + p.hidden == |s|
    ensures p.hidden > 0 <==> |s| > limit
  {
    if |s| > limit then Page(s[..limit], |s| - limit) else Page(s, 0)
  }

  /** `s[:width - 3] + "..." if len(s) > width else s`: a text longer than
      `width` is cut to exactly `width` characters ending in an ellipsis. */
  function Ellipsize(s: string, width: nat): (r: string)
    requires width >= 3
    ensures |r| == if |s| > width then width else |s|
    ensures |s| <= width ==> r == s
    ensures |s| > width ==> r[..width - 3] == s[..width - 3] && r[width - 3..] == "..."
  {
    if |s| > width then s[..width - 3] + "..." else s
  }

  /** A text longer than `width` shows its first `width - 3` characters
      followed by "...". */
  lemma EllipsizeCut(s: string, width: nat)
    requires width >= 3 && |s| > width
    ensures Ellipsize(s, width) == s[..width - 3] + "..."
  {
  }

  /** Truncating twice is truncating once. */
  lemma EllipsizeIdempotent(s: string, width: nat)
    requires width >= 3
    ensures Ellipsize(Ellipsize(s, width), width) == Ellipsize(s, width)
  {
  }

  /** `s[:n] if len(s) > n else s`: a plain cut, with no ellipsis. */
  function Clip(s: string, n: nat): (r: string)
    ensures |r| == if |s| > n then n else |s|
    ensures r == s[..|r|]
  {
    if |s| > n then s[..n] else s
  }
}

/** Artists who held several responsibilities on the same film, bucketed by
    number of roles, with the frequency table of role combinations
    (scripts/bddr/exercice9_artists_multiple_roles_per_film.py). */
module RolesPerFilm {
  import opened Common
  import opened Text
  import opened Sorting
  import opened Display
  import opened Tables

  /** `(idArtist, primaryName, idFilm, primaryTitle, role_count, year)`. */
  datatype PairRow = PairRow(
    idArtist: string, primaryName: string, idFilm: string, primaryTitle: string,
    roleCount: nat, year: Option<int>)

  // ---------------------------------------------------------------------
  // get_artists_with_multiple_roles_per_film
  // ---------------------------------------------------------------------

  /** `MAX(f.startYear)` over the films of one group: NULL years are
      ignored, and the maximum is NULL when every year is. */
  function MaxStartYear(films: seq<Film>, idFilm: string, title: string): (r: Option<int>)
    ensures r.None? <==> !exists f :: f in films && f.idFilm == idFilm && f.primaryTitle == title && f.startYear.Some?
    ensures r.Some? ==> exists f :: f in films && f.idFilm == idFilm && f.primaryTitle == title && f.startYear == r
    ensures forall f :: f in films && f.idFilm == idFilm && f.primaryTitle == title && f.startYear.Some?
                        ==> r.Some? && f.startYear.value <= r.value
  {
    if films == [] then None
    else
      assert films == [films[0]] + films[1..];
      var rest := MaxStartYear(films[1..], idFilm, title);
      var f := films[0];
      if f.idFilm == idFilm && f.primaryTitle == title && f.startYear.Some? then
        if rest.Some? && rest.value >= f.startYear.value then rest else f.startYear
      else rest
  }

  /** The groups of `tArtist a JOIN tJob j ON a.idArtist = j.idArtist JOIN
      tFilm f ON j.idFilm = f.idFilm WHERE j.category IS NOT NULL GROUP BY
      a.idArtist, a.primaryName, f.idFilm, f.primaryTitle`. */
  ghost function PairGroups(db: Database): set<(string, string, string, string)> {
    set a, j, f | a in db.artists && j in db.jobs && f in db.films
                  && a.idArtist == j.idArtist && j.idFilm == f.idFilm && j.category.Some?
      :: (a.idArtist, a.primaryName, f.idFilm, f.primaryTitle)
  }

  ghost function PairRows(db: Database): set<PairRow> {
    set k | k in PairGroups(db) && |PairCategories(db.jobs, k.0, k.2)| > 1
      :: PairRow(k.0, k.1, k.2, k.3, |PairCategories(db.jobs, k.0, k.2)|, MaxStartYear(db.films, k.2, k.3))
  }

  /** `ORDER BY role_count DESC, a.primaryName, f.primaryTitle`. */
  predicate ByRolesNameTitle(a: PairRow, b: PairRow) {
    || a.roleCount > b.roleCount
    || (a.roleCount == b.roleCount && a.primaryName != b.primaryName && LexLe(a.primaryName, b.primaryName))
    || (a.roleCount == b.roleCount && a.primaryName == b.primaryName && LexLe(a.primaryTitle, b.primaryTitle))
  }

  lemma ByRolesNameTitlePreorder()
    ensures TotalPreorder(ByRolesNameTitle)
  {
    forall a, b ensures ByRolesNameTitle(a, b) || ByRolesNameTitle(b, a) {
      LexLeTotal(a.primaryName, b.primaryName);
      LexLeTotal(a.primaryTitle, b.primaryTitle);
    }
    forall a, b, c | ByRolesNameTitle(a, b) && ByRolesNameTitle(b, c) ensures ByRolesNameTitle(a, c) {
      if a.roleCount == b.roleCount == c.roleCount {
        if a.primaryName == b.primaryName && b.primaryName == c.primaryName {
          LexLeTrans(a.primaryTitle, b.primaryTitle, c.primaryTitle);
        } else if a.primaryName != b.primaryName && b.primaryName != c.primaryName {
          LexLeTrans(a.primaryName, b.primaryName, c.primaryName);
          if a.primaryName == c.primaryName {
            LexLeAntisym(a.primaryName, b.primaryName);
          }
        }
      }
    }
  }

  /** The query's rows. The script does not catch driver exceptions, so
      only the tables are an input here. */
  ghost function MultipleRolesPerFilm(db: Database): seq<PairRow> {
    ByRolesNameTitlePreorder();
    SortBy(SetToSeq(PairRows(db)), ByRolesNameTitle)
  }

  /** A row for (artist, film) is in the result, exactly once, iff the
      artist had more than one distinct non-null category on that film; its
      `role_count` is that number and its `year` the largest `startYear`. */
  lemma {:induction false} PerFilmMembership(db: Database, r: PairRow)
    ensures multiset(MultipleRolesPerFilm(db))[r]
         == if && (exists a :: a in db.artists && a.idArtist == r.idArtist && a.primaryName == r.primaryName)
               && (exists f :: f in db.films && f.idFilm == r.idFilm && f.primaryTitle == r.primaryTitle)
               && r.roleCount == |PairCategories(db.jobs, r.idArtist, r.idFilm)|
               && r.roleCount > 1
               && r.year == MaxStartYear(db.films, r.idFilm, r.primaryTitle)
            then 1 else 0
  {
    ByRolesNameTitlePreorder();
    assert multiset(MultipleRolesPerFilm(db)) == multiset(SetToSeq(PairRows(db)));
    PairRowsMembership(db, r);
  }

  /** The grouped rows before ordering: the condition of `PerFilmMembership`. */
  lemma PairRowsMembership(db: Database, r: PairRow)
    ensures r in PairRows(db)
        <==> && (exists a :: a in db.artists && a.idArtist == r.idArtist && a.primaryName == r.primaryName)
             && (exists f :: f in db.films && f.idFilm == r.idFilm && f.primaryTitle == r.primaryTitle)
             && r.roleCount == |PairCategories(db.jobs, r.idArtist, r.idFilm)|
             && r.roleCount > 1
             && r.year == MaxStartYear(db.films, r.idFilm, r.primaryTitle)
  {
    if && (exists a :: a in db.artists && a.idArtist == r.idArtist && a.primaryName == r.primaryName)
       && (exists f :: f in db.films && f.idFilm == r.idFilm && f.primaryTitle == r.primaryTitle)
       && r.roleCount == |PairCategories(db.jobs, r.idArtist, r.idFilm)|
       && r.roleCount > 1
       && r.year == MaxStartYear(db.films, r.idFilm, r.primaryTitle)
    {
      var a :| a in db.artists && a.idArtist == r.idArtist && a.primaryName == r.primaryName;
      var f :| f in db.films && f.idFilm == r.idFilm && f.primaryTitle == r.primaryTitle;
      PairCategoriesWitness(db.jobs, r.idArtist, r.idFilm);
      var j :| j in db.jobs && j.idArtist == r.idArtist && j.idFilm == r.idFilm && j.category.Some?;
      assert (r.idArtist, r.primaryName, r.idFilm, r.primaryTitle) in PairGroups(db);
    }
  }

  /** Rows come by `role_count` descending, then artist name, then title. */
  lemma PerFilmOrder(db: Database)
    ensures var rows := MultipleRolesPerFilm(db);
      forall i, j :: 0 <= i < j < |rows| ==>
        || rows[i].roleCount > rows[j].roleCount
        || (rows[i].roleCount == rows[j].roleCount && rows[i].primaryName != rows[j].primaryName
            && LexLe(rows[i].primaryName, rows[j].primaryName))
        || (rows[i].roleCount == rows[j].roleCount && rows[i].primaryName == rows[j].primaryName
            && LexLe(rows[i].primaryTitle, rows[j].primaryTitle))
  {
    ByRolesNameTitlePreorder();
  }

  // ---------------------------------------------------------------------
  // get_roles_for_artist_in_film
  // ---------------------------------------------------------------------

  /** SQL Server's ascending order on a nullable text column: NULL first. */
  predicate NullsFirstLe(a: Option<string>, b: Option<string>) {
    a.None? || (b.Some? && LexLe(a.value, b.value))
  }

  lemma NullsFirstLePreorder()
    ensures TotalPreorder(NullsFirstLe)
  {
    forall a, b ensures NullsFirstLe(a, b) || NullsFirstLe(b, a) {
      if a.Some? && b.Some? { LexLeTotal(a.value, b.value); }
    }
    forall a, b, c | NullsFirstLe(a, b) && NullsFirstLe(b, c) ensures NullsFirstLe(a, c) {
      if a.Some? { LexLeTrans(a.value, b.value, c.value); }
    }
  }

  /** As written: `SELECT DISTINCT j.category FROM tJob j WHERE j.idArtist =
      ? AND j.idFilm = ? ORDER BY j.category`, with no `IS NOT NULL`: a
      NULL category of the pair comes back as `None`. */
  ghost function RawPairRoleList(db: Database, idArtist: string, idFilm: string): seq<Option<string>> {
    NullsFirstLePreorder();
    SortBy(SetToSeq(set j | j in db.jobs && j.idArtist == idArtist && j.idFilm == idFilm :: j.category),
           NullsFirstLe)
  }

  /** Python's `sep.join(items)` on a list that may hold `None`: the join
      raises `TypeError` (here `None`) as soon as one item is not a string. */
  function JoinItems(items: seq<Option<string>>, sep: string): (r: Option<string>)
    ensures r.None? <==> None in items
  {
    if None in items then None
    else Some(Join(seq(|items|, i requires 0 <= i < |items| => items[i].value), sep))
  }

  /** The lookup with the `category IS NOT NULL` filter the count uses: the
      distinct non-null categories of the pair, in ascending order. */
  ghost function PairRoleList(db: Database, idArtist: string, idFilm: string): seq<string> {
    LexLeIsTotalOrder();
    SortBy(SetToSeq(PairCategories(db.jobs, idArtist, idFilm)), LexLe)
  }

  /** The filtered lookup lists each counted category once, sorted, so it
      holds exactly `role_count` roles for every result row. */
  lemma PairRoleListSpec(db: Database, idArtist: string, idFilm: string)
    ensures var r := PairRoleList(db, idArtist, idFilm);
      && (forall c :: c in r <==> c in PairCategories(db.jobs, idArtist, idFilm))
      && SortedBy(r, LexLe)
      && NoDup(r)
      && |r| == |PairCategories(db.jobs, idArtist, idFilm)|
  {
    LexLeIsTotalOrder();
    var cats := PairCategories(db.jobs, idArtist, idFilm);
    var listed := SetToSeq(cats);
    var r := SortBy(listed, LexLe);
    assert r == PairRoleList(db, idArtist, idFilm);
    forall c ensures c in r <==> c in cats {
      assert c in r <==> multiset(r)[c] > 0;
    }
    NoDupPerm(listed, r);
  }

  /** One artist with two non-null categories and one NULL category on
      the same film. */
  function NullCategoryExample(): Database {
    Database(
      [Artist("nm1", "nm1", "Ann", None)],
      [Job("nm1", "tt1", Some("actor")), Job("nm1", "tt1", Some("director")), Job("nm1", "tt1", None)],
      [Film("tt1", "Movie A", Some(2000), None)],
      [])
  }

  lemma ExamplePairIsReported()
    ensures PairRow("nm1", "Ann", "tt1", "Movie A", 2, Some(2000)) in MultipleRolesPerFilm(NullCategoryExample())
  {
    var db := NullCategoryExample();
    var r := PairRow("nm1", "Ann", "tt1", "Movie A", 2, Some(2000));
    ExampleCategories();
    assert MaxStartYear(db.films, "tt1", "Movie A") == Some(2000) by {
      assert db.films[0] in db.films;
    }
    assert db.artists[0] in db.artists;
    PerFilmMembership(db, r);
    assert multiset(MultipleRolesPerFilm(db))[r] == 1;
  }

  /** The example pair's non-null categories are the two named ones. */
  lemma ExampleCategories()
    ensures |PairCategories(NullCategoryExample().jobs, "nm1", "tt1")| == 2
  {
    var db := NullCategoryExample();
    var cats := PairCategories(db.jobs, "nm1", "tt1");
    assert "actor" in cats by { assert db.jobs[0] in db.jobs; }
    assert "director" in cats by { assert db.jobs[1] in db.jobs; }
    assert cats <= {"actor", "director"};
    assert cats == {"actor", "director"};
  }

  lemma ExampleLookupHoldsNull()
    ensures None in RawPairRoleList(NullCategoryExample(), "nm1", "tt1")
  {
    var db := NullCategoryExample();
    NullsFirstLePreorder();
    var raw := set j | j in db.jobs && j.idArtist == "nm1" && j.idFilm == "tt1" :: j.category;
    assert db.jobs[2] in db.jobs;
    assert None in raw;
    assert multiset(SetToSeq(raw))[None] == 1;
  }

  /** A NULL category next to two others on the same film: the pair is
      reported with `role_count` 2, and the unfiltered lookup hands `None`
      to `" + ".join`, which raises. */
  lemma NullCategoryBreaksRoleDisplay()
    ensures var db := NullCategoryExample();
      && PairRow("nm1", "Ann", "tt1", "Movie A", 2, Some(2000)) in MultipleRolesPerFilm(db)
      && JoinItems(RawPairRoleList(db, "nm1", "tt1"), " + ").None?
  {
    ExamplePairIsReported();
    ExampleLookupHoldsNull();
  }

  /** With the filter, every reported pair's roles can be joined, and the
      joined text is made of exactly `role_count` roles. */
  lemma FilteredRolesAlwaysJoin(db: Database, r: PairRow)
    requires r in MultipleRolesPerFilm(db)
    ensures var roles := PairRoleList(db, r.idArtist, r.idFilm);
      && |roles| == r.roleCount
      && JoinItems(Present(roles), " + ")
         == Some(Join(roles, " + "))
  {
    RoleListMatchesCount(db, r);
    JoinPresentItems(PairRoleList(db, r.idArtist, r.idFilm), " + ");
  }

  /** A reported pair's filtered lookup lists `role_count` roles. */
  lemma RoleListMatchesCount(db: Database, r: PairRow)
    requires r in MultipleRolesPerFilm(db)
    ensures |PairRoleList(db, r.idArtist, r.idFilm)| == r.roleCount
  {
    PerFilmMembership(db, r);
    PairRoleListSpec(db, r.idArtist, r.idFilm);
  }

  /** The lookup's texts as the items Python receives, none of them `None`. */
  function Present(parts: seq<string>): (items: seq<Option<string>>)
    ensures |items| == |parts|
    ensures forall i :: 0 <= i < |parts| ==> items[i] == Some(parts[i])
  {
    seq(|parts|, i requires 0 <= i < |parts| => Some(parts[i]))
  }

  /** Joining items that are all present is joining their texts. */
  lemma JoinPresentItems(parts: seq<string>, sep: string)
    ensures JoinItems(Present(parts), sep) == Some(Join(parts, sep))
  {
    var items := Present(parts);
    assert None !in items;
    assert seq(|items|, i requires 0 <= i < |items| => items[i].value) == parts;
  }

  // ---------------------------------------------------------------------
  // main: buckets by number of roles
  // ---------------------------------------------------------------------

  /** `max(row[4] for row in results)`, 0 for no rows. */
  function MaxRoleCount(rows: seq<PairRow>): (m: nat)
    ensures forall r :: r in rows ==> r.roleCount <= m
    ensures |rows| > 0 ==> exists r :: r in rows && r.roleCount == m
  {
    if rows == [] then 0
    else
      assert rows == [rows[0]] + rows[1..];
      var rest := MaxRoleCount(rows[1..]);
      if rows[0].roleCount >= rest then rows[0].roleCount else rest
  }

  function RoleCountOf(r: PairRow): int {
    r.roleCount
  }

  /** One `num_roles` iteration: the cases with that many roles. */
  datatype Bucket = Bucket(numRoles: nat, cases: seq<PairRow>)

  /** `for num_roles in range(top, 0, -1): cases = [r for r in results if
      r[4] == num_roles]`. */
  function BucketsFrom(rows: seq<PairRow>, top: nat): (bs: seq<Bucket>)
    ensures |bs| == top
    ensures forall i :: 0 <= i < top ==> bs[i].numRoles == top - i
    decreases top
  {
    if top == 0 then []
    else [Bucket(top, WithCount(rows, RoleCountOf, top))] + BucketsFrom(rows, top - 1)
  }

  function Buckets(rows: seq<PairRow>): seq<Bucket> {
    BucketsFrom(rows, MaxRoleCount(rows))
  }

  /** The cases of all buckets, in bucket order. */
  function AllCases(bs: seq<Bucket>): seq<PairRow> {
    if bs == [] then [] else bs[0].cases + AllCases(bs[1..])
  }

  lemma {:induction false} BucketsFromMultiset(rows: seq<PairRow>, top: nat, x: PairRow)
    ensures multiset(AllCases(BucketsFrom(rows, top)))[x]
         == if 1 <= x.roleCount <= top then multiset(rows)[x] else 0
    decreases top
  {
    if top > 0 {
      var bs := BucketsFrom(rows, top);
      assert bs[1..] == BucketsFrom(rows, top - 1);
      BucketsFromMultiset(rows, top - 1, x);
      WithCountMultiset(rows, RoleCountOf, top, x);
    }
  }

  /** Each bucket `k` holds exactly the rows with `role_count == k`, every
      row of the result lands in one bucket, as often as it occurs, and the
      bucket for a single role is empty. */
  lemma BucketsPartition(db: Database)
    ensures var rows := MultipleRolesPerFilm(db);
      var bs := Buckets(rows);
      && (forall i, r :: 0 <= i < |bs| && r in bs[i].cases ==> r.roleCount == bs[i].numRoles)
      && multiset(AllCases(bs)) == multiset(rows)
      && (|bs| > 0 ==> bs[|bs| - 1].numRoles == 1 && bs[|bs| - 1].cases == [])
  {
    var rows := MultipleRolesPerFilm(db);
    forall r | r in rows ensures r.roleCount > 1 {
      PerFilmMembership(db, r);
    }
    BucketsOfMultiRoleRows(rows);
  }

  /** Every case of a bucket has the bucket's role count. */
  lemma BucketsHoldTheirCount(rows: seq<PairRow>)
    ensures var bs := Buckets(rows);
      forall i, r :: 0 <= i < |bs| && r in bs[i].cases ==> r.roleCount == bs[i].numRoles
  {
    var bs := Buckets(rows);
    var top := MaxRoleCount(rows);
    forall i, r | 0 <= i < |bs| && r in bs[i].cases ensures r.roleCount == bs[i].numRoles {
      BucketCase(rows, top, i, r);
    }
  }

  /** A case of bucket `i` has the bucket's count. */
  lemma BucketCase(rows: seq<PairRow>, top: nat, i: nat, r: PairRow)
    requires i < top && r in BucketsFrom(rows, top)[i].cases
    ensures r.roleCount == BucketsFrom(rows, top)[i].numRoles
  {
    BucketAt(rows, top, i);
    WithCountMember(rows, RoleCountOf, top - i, r);
  }

  /** The buckets together hold every row whose count is positive, as
      often as it occurs. */
  lemma BucketsKeepRows(rows: seq<PairRow>)
    requires forall r :: r in rows ==> r.roleCount > 0
    ensures multiset(AllCases(Buckets(rows))) == multiset(rows)
  {
    var top := MaxRoleCount(rows);
    forall x ensures multiset(AllCases(Buckets(rows)))[x] == multiset(rows)[x] {
      BucketsFromMultiset(rows, top, x);
    }
  }

  /** With every count above 1, the last bucket is the empty bucket 1. */
  lemma LastBucketEmpty(rows: seq<PairRow>)
    requires forall r :: r in rows ==> r.roleCount > 1
    ensures var bs := Buckets(rows);
      |bs| > 0 ==> bs[|bs| - 1].numRoles == 1 && bs[|bs| - 1].cases == []
  {
    var bs := Buckets(rows);
    var top := MaxRoleCount(rows);
    if |bs| > 0 {
      BucketAt(rows, top, |bs| - 1);
      var last := bs[|bs| - 1].cases;
      if last != [] {
        WithCountMember(rows, RoleCountOf, 1, last[0]);
        assert false;
      }
    }
  }

  lemma BucketsOfMultiRoleRows(rows: seq<PairRow>)
    requires forall r :: r in rows ==> r.roleCount > 1
    ensures var bs := Buckets(rows);
      && (forall i, r :: 0 <= i < |bs| && r in bs[i].cases ==> r.roleCount == bs[i].numRoles)
      && multiset(AllCases(bs)) == multiset(rows)
      && (|bs| > 0 ==> bs[|bs| - 1].numRoles == 1 && bs[|bs| - 1].cases == [])
  {
    BucketsHoldTheirCount(rows);
    BucketsKeepRows(rows);
    LastBucketEmpty(rows);
  }

  lemma {:induction false} BucketAt(rows: seq<PairRow>, top: nat, i: nat)
    requires i < top
    ensures BucketsFrom(rows, top)[i] == Bucket(top - i, WithCount(rows, RoleCountOf, top - i))
    decreases top
  {
    if i > 0 {
      BucketAt(rows, top - 1, i - 1);
    }
  }

  const CasesPerBucket: nat := 20

  /** One displayed case: the artist cut to 39 characters, the title to 44,
      and the roles joined with " + ". */
  datatype CaseLine = CaseLine(artist: string, film: string, roles: string)

  ghost function CaseLineOf(db: Database, r: PairRow): CaseLine {
    CaseLine(Clip(r.primaryName, 39), Clip(r.primaryTitle, 44), Join(PairRoleList(db, r.idArtist, r.idFilm), " + "))
  }

  // ---------------------------------------------------------------------
  // main: the combination_counts table
  // ---------------------------------------------------------------------

  /** `" + ".join(sorted(roles))`. */
  function CombinationKey(roles: seq<string>): string {
    LexLeIsTotalOrder();
    Join(SortBy(roles, LexLe), " + ")
  }

  /** The key does not depend on the order in which the roles come. */
  lemma CombinationKeyIgnoresOrder(a: seq<string>, b: seq<string>)
    requires multiset(a) == multiset(b)
    ensures CombinationKey(a) == CombinationKey(b)
  {
    LexLeIsTotalOrder();
    SortByCanonical(a, b, LexLe);
  }

  /** For a reported pair, the key is its (already sorted) role list joined
      with " + ". */
  lemma CombinationKeyOfPair(db: Database, idArtist: string, idFilm: string)
    ensures CombinationKey(PairRoleList(db, idArtist, idFilm)) == Join(PairRoleList(db, idArtist, idFilm), " + ")
  {
    LexLeIsTotalOrder();
    var roles := PairRoleList(db, idArtist, idFilm);
    PairRoleListSpec(db, idArtist, idFilm);
    SortedUnique(SortBy(roles, LexLe), roles, LexLe);
  }

  /** One entry of `combination_counts`. */
  datatype Combination = Combination(key: string, cases: nat)

  /** The distinct keys in order of first appearance: the key order of a
      Python dict filled from `keys`. */
  function FirstSeen(keys: seq<string>): (r: seq<string>)
    ensures forall k :: k in r <==> k in keys
    ensures NoDup(r)
  {
    if keys == [] then []
    else
      var prefix := FirstSeen(keys[..|keys| - 1]);
      var k := keys[|keys| - 1];
      assert keys == keys[..|keys| - 1] + [k];
      if k in prefix then prefix else prefix + [k]
  }

  /** The dict after the loop: every key once, in first-seen order, with the
      number of times it occurs. */
  function Tally(keys: seq<string>): seq<Combination> {
    var order := FirstSeen(keys);
    seq(|order|, i requires 0 <= i < |order| => Combination(order[i], multiset(keys)[order[i]]))
  }

  /** The loop of `main` over the result rows, with the dict's keys kept in
      insertion order beside it. */
  method CountCombinations(keys: seq<string>) returns (combos: seq<Combination>)
    ensures combos == Tally(keys)
  {
    var counts: map<string, nat> := map[];
    var order: seq<string> := [];
    var i := 0;
    while i < |keys|
      invariant 0 <= i <= |keys|
      invariant order == FirstSeen(keys[..i])
      invariant forall k :: k in counts <==> k in order
      invariant forall k :: k in counts ==> counts[k] == multiset(keys[..i])[k]
    {
      var key := keys[i];
      assert keys[..i + 1] == keys[..i] + [key];
      assert keys[..i + 1][..i] == keys[..i];
      assert multiset(keys[..i + 1]) == multiset(keys[..i]) + multiset{key};
      if key !in counts {
        order := order + [key];
      }
      counts := counts[key := (if key in counts then counts[key] else 0) + 1];
      i := i + 1;
    }
    assert keys[..i] == keys;
    combos := seq(|order|, j requires 0 <= j < |order| => Combination(order[j], counts[order[j]]));
    assert forall j :: 0 <= j < |order| ==> combos[j] == Tally(keys)[j];
  }

  function SumCases(combos: seq<Combination>): nat {
    if combos == [] then 0 else SumCases(combos[..|combos| - 1]) + combos[|combos| - 1].cases
  }

  function SumOccurrences(order: seq<string>, m: multiset<string>): nat {
    if order == [] then 0 else SumOccurrences(order[..|order| - 1], m) + m[order[|order| - 1]]
  }

  lemma {:induction false} SumOccurrencesAdd(order: seq<string>, m: multiset<string>, k: string)
    ensures SumOccurrences(order, m + multiset{k}) == SumOccurrences(order, m) + multiset(order)[k]
  {
    if order != [] {
      var init := order[..|order| - 1];
      SumOccurrencesAdd(init, m, k);
      assert order == init + [order[|order| - 1]];
    }
  }

  lemma {:induction false} SumCasesOfTally(order: seq<string>, m: multiset<string>)
    ensures SumCases(seq(|order|, i requires 0 <= i < |order| => Combination(order[i], m[order[i]])))
         == SumOccurrences(order, m)
  {
    if order != [] {
      var init := order[..|order| - 1];
      SumCasesOfTally(init, m);
      var all := seq(|order|, i requires 0 <= i < |order| => Combination(order[i], m[order[i]]));
      assert all[..|all| - 1] == seq(|init|, i requires 0 <= i < |init| => Combination(init[i], m[init[i]]));
    }
  }

  lemma {:induction false} SumOccurrencesOfFirstSeen(keys: seq<string>)
    ensures SumOccurrences(FirstSeen(keys), multiset(keys)) == |keys|
  {
    if keys != [] {
      var init := keys[..|keys| - 1];
      var k := keys[|keys| - 1];
      assert keys == init + [k];
      SumOccurrencesOfFirstSeen(init);
      var prefix := FirstSeen(init);
      SumOccurrencesAdd(prefix, multiset(init), k);
      if k in prefix {
        assert multiset(prefix)[k] == 1;
      } else {
        assert multiset(prefix)[k] == 0;
        assert (prefix + [k])[..|prefix|] == prefix;
        SumOccurrencesAdd(prefix, multiset(init), k);
      }
    }
  }

  /** The counts of `combination_counts` add up to the number of result
      rows, and each counts the rows whose key it is. */
  lemma TallyAccountsForEveryRow(keys: seq<string>)
    ensures SumCases(Tally(keys)) == |keys|
    ensures forall c :: c in Tally(keys) ==> c.key in keys && c.cases == multiset(keys)[c.key] && c.cases > 0
  {
    SumCasesOfTally(FirstSeen(keys), multiset(keys));
    SumOccurrencesOfFirstSeen(keys);
    var order := FirstSeen(keys);
    forall c | c in Tally(keys)
      ensures c.key in keys && c.cases == multiset(keys)[c.key] && c.cases > 0
    {
      var i :| 0 <= i < |order| && Tally(keys)[i] == c;
      assert c.key == order[i] && order[i] in order;
      assert c.key in multiset(keys);
    }
  }

  /** `sorted(..., key=lambda x: x[1], reverse=True)`: by count, largest
      first; Python's sort is stable, also in reverse. */
  predicate ByCasesDesc(a: Combination, b: Combination) {
    a.cases >= b.cases
  }

  function RankCombinations(combos: seq<Combination>): seq<Combination> {
    assert TotalPreorder(ByCasesDesc);
    SortBy(combos, ByCasesDesc)
  }

  /** The ranking is a permutation of the table with counts non-increasing,
      and combinations with equal counts stay in first-seen order. */
  lemma RankCombinationsSpec(combos: seq<Combination>, c: Combination)
    ensures var ranked := RankCombinations(combos);
      && multiset(ranked) == multiset(combos)
      && (forall i, j :: 0 <= i < j < |ranked| ==> ranked[i].cases >= ranked[j].cases)
      && Ties(ranked, ByCasesDesc, c) == Ties(combos, ByCasesDesc, c)
  {
    assert TotalPreorder(ByCasesDesc);
    SortByStable(combos, ByCasesDesc, c);
  }

  const CombinationsShown: nat := 10

  /** What `main` shows when there are results. */
  datatype Report = Report(
    totalCases: nat,
    maxRoles: nat,
    buckets: seq<(nat, Page<CaseLine>)>,
    topCombinations: seq<Combination>)

  ghost function CombinationKeys(db: Database, rows: seq<PairRow>): seq<string> {
    seq(|rows|, i requires 0 <= i < |rows| => CombinationKey(PairRoleList(db, rows[i].idArtist, rows[i].idFilm)))
  }

  /** One bucket as displayed: its role count and the first 20 cases. */
  ghost function BucketPage(db: Database, b: Bucket): (nat, Page<CaseLine>) {
    (b.numRoles,
     Paginate(seq(|b.cases|, j requires 0 <= j < |b.cases| => CaseLineOf(db, b.cases[j])), CasesPerBucket))
  }

  /** The ten most frequent combinations. */
  ghost function TopCombinations(db: Database, rows: seq<PairRow>): seq<Combination> {
    Paginate(RankCombinations(Tally(CombinationKeys(db, rows))), CombinationsShown).shown
  }

  /** The statistics `main` prints for non-empty result rows. */
  ghost function ReportOf(db: Database, rows: seq<PairRow>): Report {
    var bs := Buckets(rows);
    Report(
      |rows|,
      MaxRoleCount(rows),
      Map(bs, (b: Bucket) => BucketPage(db, b)),
      TopCombinations(db, rows))
  }

  /** `main`, with the role lookups filtered on `category IS NOT NULL`;
      `None` is the "Aucun artiste ..." message for an empty result. */
  ghost function MainReport(db: Database): Option<Report> {
    var rows := MultipleRolesPerFilm(db);
    if rows == [] then None else Some(ReportOf(db, rows))
  }

  /** On the ordered result, `max(...)` is the first row's count. */
  lemma MaxIsFirst(db: Database)
    requires MultipleRolesPerFilm(db) != []
    ensures var rows := MultipleRolesPerFilm(db); MaxRoleCount(rows) == rows[0].roleCount
  {
    var rows := MultipleRolesPerFilm(db);
    var k :| 0 <= k < |rows| && rows[k].roleCount == MaxRoleCount(rows);
    if k > 0 {
      PerFilmOrder(db);
      assert rows[0].roleCount >= rows[k].roleCount;
    }
  }

  /** On rows ordered by count descending, the largest count is the first. */
  lemma MaxOfOrdered(rows: seq<PairRow>)
    requires rows != [] && NonIncreasing(rows, RoleCountOf)
    ensures MaxRoleCount(rows) == rows[0].roleCount
  {
    var k :| 0 <= k < |rows| && rows[k].roleCount == MaxRoleCount(rows);
    assert RoleCountOf(rows[0]) >= RoleCountOf(rows[k]);
  }

  /** The bucket at position `i` is numbered `max - i` and shows the line
      of each of its first 20 cases, in result order, counting the rest. */
  lemma BucketPageSpec(db: Database, rows: seq<PairRow>, i: nat)
    requires i < MaxRoleCount(rows)
    ensures BucketShown(db, rows, BucketPage(db, Buckets(rows)[i]), i)
  {
    var b := Buckets(rows)[i];
    BucketAt(rows, MaxRoleCount(rows), i);
    assert b == Bucket(MaxRoleCount(rows) - i, WithCount(rows, RoleCountOf, MaxRoleCount(rows) - i));
    BucketPageOf(db, b);
  }

  /** The page of a bucket holds the lines of its first 20 cases, in
      order, and counts the rest. */
  lemma BucketPageOf(db: Database, b: Bucket)
    ensures var page := BucketPage(db, b).1;
      && BucketPage(db, b).0 == b.numRoles
      && |page.shown| == (if |b.cases| < CasesPerBucket then |b.cases| else CasesPerBucket)
      && (forall j :: 0 <= j < |page.shown| ==> page.shown[j] == CaseLineOf(db, b.cases[j]))
      && |page.shown| + page.hidden == |b.cases|
      && (page.hidden > 0 <==> |b.cases| > CasesPerBucket)
      && (page.shown == [] <==> b.cases == [])
  {
  }

  /** A displayed case shows the artist name cut to its first 39
      characters and the title cut to its first 44, each unchanged when it
      fits, and the pair's distinct non-null categories in ascending
      order, `role_count` of them, joined with " + ". */
  lemma CaseLineSpec(db: Database, r: PairRow)
    requires r in MultipleRolesPerFilm(db)
    ensures var line := CaseLineOf(db, r);
      var roles := PairRoleList(db, r.idArtist, r.idFilm);
      && (|r.primaryName| <= 39 ==> line.artist == r.primaryName)
      && (|r.primaryName| > 39 ==> line.artist == r.primaryName[..39])
      && (|r.primaryTitle| <= 44 ==> line.film == r.primaryTitle)
      && (|r.primaryTitle| > 44 ==> line.film == r.primaryTitle[..44])
      && line.roles == Join(roles, " + ")
      && (forall c :: c in roles <==> c in PairCategories(db.jobs, r.idArtist, r.idFilm))
      && SortedBy(roles, LexLe)
      && NoDup(roles)
      && |roles| == r.roleCount
  {
    RoleListMatchesCount(db, r);
    PairRoleListSpec(db, r.idArtist, r.idFilm);
  }

  /** The combinations shown are the head of the ranking: its first ten,
      or all of it when shorter, largest count first. */
  lemma TopCombinationsSpec(db: Database, rows: seq<PairRow>)
    ensures var ranked := RankCombinations(Tally(CombinationKeys(db, rows)));
      var top := TopCombinations(db, rows);
      && |ranked| == |Tally(CombinationKeys(db, rows))|
      && |top| == (if |ranked| < 10 then |ranked| else 10)
      && top == ranked[..|top|]
      && (forall i, j :: 0 <= i < j < |top| ==> top[i].cases >= top[j].cases)
  {
    var ranked := RankCombinations(Tally(CombinationKeys(db, rows)));
    RankCombinationsSpec(Tally(CombinationKeys(db, rows)), Combination("", 0));
    assert |multiset(ranked)| == |multiset(Tally(CombinationKeys(db, rows)))|;
    var top := TopCombinations(db, rows);
    assert top == ranked[..|top|];
  }

  /** Empty results stop before any statistics; otherwise buckets run from
      the largest role count down to 1, each showing the lines of the
      first 20 cases with that count and reporting the rest, and the combinations listed are the first ten of
      the ranking (or all of it), largest count first. */
  lemma MainReportSpec(db: Database)
    ensures var rows := MultipleRolesPerFilm(db);
      && (MainReport(db).None? <==> rows == [])
      && (MainReport(db).Some? ==>
            var rep := MainReport(db).value;
            && rep.totalCases == |rows|
            && |rep.buckets| == rep.maxRoles
            && rep.maxRoles == rows[0].roleCount
            && (forall i :: 0 <= i < |rep.buckets| ==> BucketShown(db, rows, rep.buckets[i], i))
            && TopShown(db, rows, rep.topCombinations))
  {
    var rows := MultipleRolesPerFilm(db);
    if rows != [] {
      MaxIsFirst(db);
      ReportOfSpec(db, rows);
    }
  }

  /** `top` is the first ten of the ranked role combinations of the rows,
      or all of them when there are fewer, largest count first. */
  ghost predicate TopShown(db: Database, rows: seq<PairRow>, top: seq<Combination>) {
    var ranked := RankCombinations(Tally(CombinationKeys(db, rows)));
    && |top| == (if |ranked| < CombinationsShown then |ranked| else CombinationsShown)
    && top == ranked[..|top|]
    && forall i, j :: 0 <= i < j < |top| ==> top[i].cases >= top[j].cases
  }

  /** A displayed bucket at position `i` is numbered `max - i` and shows
      the lines of the first `min(20, cases)` of the rows with that count,
      in result order, counting the rest; it shows nothing, and so prints
      no heading, exactly when no row has that count. */
  ghost predicate BucketShown(db: Database, rows: seq<PairRow>, b: (nat, Page<CaseLine>), i: int) {
    var cases := WithCount(rows, RoleCountOf, MaxRoleCount(rows) - i);
    && b.0 == MaxRoleCount(rows) - i
    && |b.1.shown| == (if |cases| < CasesPerBucket then |cases| else CasesPerBucket)
    && (forall j :: 0 <= j < |b.1.shown| ==> b.1.shown[j] == CaseLineOf(db, cases[j]))
    && |b.1.shown| + b.1.hidden == |cases|
    && (b.1.hidden > 0 <==> |cases| > CasesPerBucket)
    && (b.1.shown == [] <==> cases == [])
  }

  /** The buckets of the statistics: one per role count from the maximum
      down to 1, each showing the lines of the first 20 cases with that
      count and counting the rest. */
  lemma ReportBucketsSpec(db: Database, rows: seq<PairRow>)
    ensures var pages := Map(Buckets(rows), (b: Bucket) => BucketPage(db, b));
      && |pages| == MaxRoleCount(rows)
      && forall i :: 0 <= i < |pages| ==> BucketShown(db, rows, pages[i], i)
  {
    var bs := Buckets(rows);
    var pages := Map(bs, (b: Bucket) => BucketPage(db, b));
    assert |bs| == MaxRoleCount(rows);
    forall i | 0 <= i < |pages| ensures BucketShown(db, rows, pages[i], i) {
      BucketPageSpec(db, rows, i);
    }
  }

  /** The statistics of any rows: one bucket per role count from the
      maximum down to 1, each showing the lines of its first 20 cases, and
      the first ten
      combinations of the ranking, largest count first. */
  lemma ReportOfSpec(db: Database, rows: seq<PairRow>)
    ensures var rep := ReportOf(db, rows);
      && rep.totalCases == |rows|
      && |rep.buckets| == rep.maxRoles == MaxRoleCount(rows)
      && (forall i :: 0 <= i < |rep.buckets| ==> BucketShown(db, rows, rep.buckets[i], i))
      && TopShown(db, rows, rep.topCombinations)
  {
    ReportBucketsSpec(db, rows);
    TopCombinationsSpec(db, rows);
  }
}

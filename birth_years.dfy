/** The most frequent birth year among artists, and the top-N years by
    frequency (scripts/bddr/exercice4_most_common_birth_year.py). */
module BirthYears {
  import opened Common
  import opened Sorting
  import opened Tables

  /** `(birthYear, artist_count)`. */
  datatype YearCount = YearCount(year: int, artistCount: nat)

  /** `WHERE birthYear <> 0 AND birthYear IS NOT NULL`. */
  predicate ValidBirthYear(a: Artist) {
    a.birthYear.Some? && a.birthYear.value != 0
  }

  /** `COUNT(*)` in the group of year `y`: artist rows, not distinct artists. */
  function BornIn(artists: seq<Artist>, y: int): (n: nat)
    ensures n <= |artists|
    ensures n > 0 <==> exists a :: a in artists && a.birthYear == Some(y)
  {
    if artists == [] then 0
    else
      assert artists == [artists[0]] + artists[1..];
      (if artists[0].birthYear == Some(y) then 1 else 0) + BornIn(artists[1..], y)
  }

  /** The groups of `GROUP BY birthYear` after the `WHERE`. */
  function ValidYears(artists: seq<Artist>): set<int> {
    set a | a in artists && ValidBirthYear(a) :: a.birthYear.value
  }

  ghost function YearCounts(db: Database): set<YearCount> {
    set y | y in ValidYears(db.artists) :: YearCount(y, BornIn(db.artists, y))
  }

  /** `ORDER BY artist_count DESC`, with nothing to break ties. */
  predicate ByCountDesc(a: YearCount, b: YearCount) {
    a.artistCount >= b.artistCount
  }

  /** All groups, in the engine's order. */
  ghost function RankedYears(db: Database): seq<YearCount> {
    assert TotalPreorder(ByCountDesc);
    SortBy(SetToSeq(YearCounts(db)), ByCountDesc)
  }

  /** `get_top_birth_years(limit)`: `TOP {limit}` of the ranking, or `None`
      when the query raises; a negative `TOP` is rejected by the engine. */
  ghost function TopBirthYears(conn: Conn, limit: int): Option<seq<YearCount>> {
    if conn.Down? || limit < 0 then None
    else
      var ranked := RankedYears(conn.db);
      Some(if |ranked| <= limit then ranked else ranked[..limit])
  }

  /** `get_most_common_birth_year()`: the `TOP 1` row as `(year, count)`,
      or `(None, None)` when there is no row or the query raises. */
  ghost function MostCommonBirthYear(conn: Conn): (Option<int>, Option<nat>) {
    match TopBirthYears(conn, 1)
    case None => (None, None)
    case Some(rows) => if rows == [] then (None, None) else (Some(rows[0].year), Some(rows[0].artistCount))
  }

  /** A year is ranked, once, iff some artist row has it and it is neither
      0 nor NULL; its count is the number of rows with that year. */
  lemma {:induction false} RankedYearsMembership(db: Database, r: YearCount)
    ensures multiset(RankedYears(db))[r]
         == if r.year != 0 && r.artistCount == BornIn(db.artists, r.year) && r.artistCount > 0 then 1 else 0
  {
    assert TotalPreorder(ByCountDesc);
    assert multiset(RankedYears(db)) == multiset(SetToSeq(YearCounts(db)));
    if r.year != 0 && r.artistCount == BornIn(db.artists, r.year) && r.artistCount > 0 {
      var a :| a in db.artists && a.birthYear == Some(r.year);
      assert r.year in ValidYears(db.artists);
      assert r in YearCounts(db);
    }
    if r in YearCounts(db) {
      var a :| a in db.artists && ValidBirthYear(a) && r.year == a.birthYear.value;
    }
  }

  /** The ranking holds one row per valid year. */
  lemma RankedYearsLength(db: Database)
    ensures |RankedYears(db)| == |ValidYears(db.artists)|
  {
    assert TotalPreorder(ByCountDesc);
    YearCountsCard(db);
  }

  /** Different positions of the ranking hold different years. */
  lemma RankedYearsDistinct(db: Database, i: int, j: int)
    requires 0 <= i < j < |RankedYears(db)|
    ensures RankedYears(db)[i].year != RankedYears(db)[j].year
  {
    var ranked := RankedYears(db);
    RankedYearsMembership(db, ranked[i]);
    RankedYearsMembership(db, ranked[j]);
    if ranked[i].year == ranked[j].year {
      assert ranked[i] == ranked[j];
      MultiplicityOfTwo(ranked, i, j);
    }
  }

  /** No valid year has a larger count than the first of the ranking. */
  lemma FirstRankedIsMost(db: Database, r: YearCount)
    requires r in RankedYears(db)
    ensures r.artistCount <= RankedYears(db)[0].artistCount
  {
    assert TotalPreorder(ByCountDesc);
    if r != RankedYears(db)[0] {
      FirstIsLeast(RankedYears(db), ByCountDesc, r);
    }
  }

  /** Year 0 and NULL never appear; every row's count is the number of
      artist rows born that year; counts never grow; no year is repeated. */
  lemma TopBirthYearsSpec(db: Database, limit: int)
    requires limit >= 0
    ensures var rows := TopBirthYears(Up(db), limit).value;
      && |rows| == (if |ValidYears(db.artists)| <= limit then |ValidYears(db.artists)| else limit)
      && (forall r :: r in rows ==> r.year != 0 && r.artistCount == BornIn(db.artists, r.year) > 0)
      && (forall i, j :: 0 <= i < j < |rows| ==> rows[i].artistCount >= rows[j].artistCount)
      && (forall i, j :: 0 <= i < j < |rows| ==> rows[i].year != rows[j].year)
      && (|rows| > 0 ==> rows[0] == RankedYears(db)[0])
  {
    var ranked := RankedYears(db);
    var rows := TopBirthYears(Up(db), limit).value;
    TopIsPrefix(db, limit);
    forall r | r in rows ensures r.year != 0 && r.artistCount == BornIn(db.artists, r.year) > 0 {
      assert r in ranked;
      RankedYearsMembership(db, r);
    }
    forall i, j | 0 <= i < j < |rows| ensures rows[i].artistCount >= rows[j].artistCount {
      assert rows[i] == ranked[i] && rows[j] == ranked[j];
      RankedYearsOrdered(db, i, j);
    }
    forall i, j | 0 <= i < j < |rows| ensures rows[i].year != rows[j].year {
      RankedYearsDistinct(db, i, j);
    }
  }

  lemma TopIsPrefix(db: Database, limit: int)
    requires limit >= 0
    ensures var rows := TopBirthYears(Up(db), limit).value;
      && |rows| == (if |ValidYears(db.artists)| <= limit then |ValidYears(db.artists)| else limit)
      && rows == RankedYears(db)[..|rows|]
  {
    RankedYearsLength(db);
  }

  lemma RankedYearsOrdered(db: Database, i: int, j: int)
    requires 0 <= i < j < |RankedYears(db)|
    ensures RankedYears(db)[i].artistCount >= RankedYears(db)[j].artistCount
  {
    assert TotalPreorder(ByCountDesc);
  }

  lemma MultiplicityOfTwo<T>(s: seq<T>, i: int, j: int)
    requires 0 <= i < j < |s| && s[i] == s[j]
    ensures multiset(s)[s[i]] >= 2
  {
    assert s == s[..j] + [s[j]] + s[j + 1..];
    assert s[i] in s[..j];
    assert multiset(s)[s[i]] == multiset(s[..j])[s[i]] + 1 + multiset(s[j + 1..])[s[i]];
  }

  lemma YearCountsCard(db: Database)
    ensures |YearCounts(db)| == |ValidYears(db.artists)|
  {
    var years := ValidYears(db.artists);
    var f := (y: int) => YearCount(y, BornIn(db.artists, y));
    assert YearCounts(db) == set y | y in years :: f(y);
    InjectiveImageCard(years, f);
  }

  /** A map that never sends two years to the same row keeps the size. */
  lemma {:induction false} InjectiveImageCard(years: set<int>, f: int -> YearCount)
    requires forall y :: f(y).year == y
    ensures |set y | y in years :: f(y)| == |years|
    decreases |years|
  {
    if years != {} {
      var y := PickYear(years);
      var rest := years - {y};
      InjectiveImageCard(rest, f);
      assert (set x | x in years :: f(x)) == (set x | x in rest :: f(x)) + {f(y)};
      assert f(y) !in (set x | x in rest :: f(x));
    }
  }

  lemma PickYear<T>(years: set<T>) returns (y: T)
    requires years != {}
    ensures y in years
  {
    y :| y in years;
  }

  /** The `TOP 1` year is a valid birth year whose count is at least every
      other valid year's (which year wins a tie is the engine's choice);
      `(None, None)` exactly when there is no valid year or on error. */
  lemma MostCommonBirthYearSpec(conn: Conn)
    ensures MostCommonBirthYear(conn).0.None? <==> MostCommonBirthYear(conn).1.None?
    ensures MostCommonBirthYear(conn).0.None? <==> conn.Down? || ValidYears(conn.db.artists) == {}
    ensures MostCommonBirthYear(conn).0.Some? ==>
      var year := MostCommonBirthYear(conn).0.value;
      var count := MostCommonBirthYear(conn).1.value;
      && year != 0
      && count == BornIn(conn.db.artists, year) > 0
      && forall a :: a in conn.db.artists && ValidBirthYear(a) ==> BornIn(conn.db.artists, a.birthYear.value) <= count
  {
    if conn.Up? {
      var db := conn.db;
      TopBirthYearsSpec(db, 1);
      if ValidYears(db.artists) != {} {
        forall a | a in db.artists && ValidBirthYear(a)
          ensures BornIn(db.artists, a.birthYear.value) <= RankedYears(db)[0].artistCount
        {
          ValidYearAtMostFirst(db, a);
        }
      }
    }
  }

  /** The year of any artist with a valid year is born by no more artists
      than the first ranked year. */
  lemma ValidYearAtMostFirst(db: Database, a: Artist)
    requires a in db.artists && ValidBirthYear(a)
    ensures |RankedYears(db)| > 0
    ensures BornIn(db.artists, a.birthYear.value) <= RankedYears(db)[0].artistCount
  {
    var r := YearCount(a.birthYear.value, BornIn(db.artists, a.birthYear.value));
    RankedYearsMembership(db, r);
    assert multiset(RankedYears(db))[r] > 0;
    FirstRankedIsMost(db, r);
  }

  /** The top-10 list's first count is the count `main` announced: both
      are the largest count of a valid year. */
  lemma TopAgreesWithMostCommon(db: Database)
    requires MostCommonBirthYear(Up(db)).1.Some?
    ensures var top := TopBirthYears(Up(db), 10).value;
      |top| > 0 && top[0].artistCount == MostCommonBirthYear(Up(db)).1.value
  {
    TopBirthYearsSpec(db, 10);
    TopBirthYearsSpec(db, 1);
  }

  /** What `main` prints: the year, its count and the top-10 list (empty
      when that second query fails). */
  datatype Report = Report(year: int, count: nat, top: seq<YearCount>)

  /** Which of `main`'s two lookups raise. Each opens its own connection,
      so the top-10 query can fail after the first one succeeded. */
  datatype Faults = Faults(mostCommon: bool, top: bool)

  /** `main`; `None` is "Impossible de trouver ...". */
  ghost function MainReport(db: Database, f: Faults): Option<Report> {
    match MostCommonBirthYear(Open(db, f.mostCommon))
    case (Some(y), Some(c)) =>
      var top := TopBirthYears(Open(db, f.top), 10);
      Some(Report(y, c, if top.Some? then top.value else []))
    case _ => None
  }

  /** The report exists iff the first lookup runs and there is a valid
      year; it then announces a most common year with its true count. The
      top-10 list is empty when its own lookup fails; otherwise it is the
      head of the ranking, ten years or all of them, and starts with the
      announced count. */
  lemma MainReportSpec(db: Database, f: Faults)
    ensures MainReport(db, f).Some? <==> !f.mostCommon && ValidYears(db.artists) != {}
    ensures MainReport(db, f).Some? ==>
      var rep := MainReport(db, f).value;
      && rep.year != 0
      && rep.count == BornIn(db.artists, rep.year)
      && (forall a :: a in db.artists && ValidBirthYear(a) ==> BornIn(db.artists, a.birthYear.value) <= rep.count)
      && (f.top ==> rep.top == [])
      && (!f.top ==>
            && |rep.top| == (if |ValidYears(db.artists)| <= 10 then |ValidYears(db.artists)| else 10)
            && rep.top == RankedYears(db)[..|rep.top|]
            && rep.top[0].artistCount == rep.count)
  {
    MostCommonBirthYearSpec(Open(db, f.mostCommon));
    if MainReport(db, f).Some? {
      TopAgreesWithMostCommon(db);
      TopIsPrefix(db, 10);
    }
  }
}

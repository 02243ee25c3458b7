/** Artists credited in more than one film in `tPrincipal`, with the most
    prolific among them (scripts/bddr/exercice5_artists_multiple_films.py). */
module MultipleFilms {
  import opened Common
  import opened Text
  import opened Sorting
  import opened Display
  import opened Tables

  /** One group of `GROUP BY a.nconst, a.primaryName`, before the key is
      dropped from the `SELECT` list. */
  datatype ArtistFilms = ArtistFilms(nconst: string, primaryName: string, filmCount: nat)

  /** A returned row: `(primaryName, film_count)`. */
  datatype NameCount = NameCount(primaryName: string, filmCount: nat)

  /** `COUNT(DISTINCT p.tconst)` for one `nconst`. */
  function FilmsOf(principals: seq<Principal>, nconst: string): set<string> {
    set p | p in principals && p.nconst == nconst :: p.tconst
  }

  ghost function ArtistGroups(db: Database): set<(string, string)> {
    set a, p | a in db.artists && p in db.principals && a.nconst == p.nconst :: (a.nconst, a.primaryName)
  }

  /** The groups kept by `HAVING COUNT(DISTINCT p.tconst) > 1`. */
  ghost function ProlificGroups(db: Database): set<ArtistFilms> {
    set k | k in ArtistGroups(db) && |FilmsOf(db.principals, k.0)| > 1
      :: ArtistFilms(k.0, k.1, |FilmsOf(db.principals, k.0)|)
  }

  /** `ORDER BY film_count DESC, a.primaryName`; two artists with the same
      name and count are left in the engine's order. */
  predicate ByFilmsThenName(a: ArtistFilms, b: ArtistFilms) {
    a.filmCount > b.filmCount || (a.filmCount == b.filmCount && LexLe(a.primaryName, b.primaryName))
  }

  lemma ByFilmsThenNamePreorder()
    ensures TotalPreorder(ByFilmsThenName)
  {
    forall a, b ensures ByFilmsThenName(a, b) || ByFilmsThenName(b, a) {
      LexLeTotal(a.primaryName, b.primaryName);
    }
    forall a, b, c | ByFilmsThenName(a, b) && ByFilmsThenName(b, c) ensures ByFilmsThenName(a, c) {
      if a.filmCount == b.filmCount == c.filmCount {
        LexLeTrans(a.primaryName, b.primaryName, c.primaryName);
      }
    }
  }

  ghost function OrderedGroups(db: Database): seq<ArtistFilms> {
    ByFilmsThenNamePreorder();
    SortBy(SetToSeq(ProlificGroups(db)), ByFilmsThenName)
  }

  function NameCountOf(g: ArtistFilms): NameCount {
    NameCount(g.primaryName, g.filmCount)
  }

  /** `get_artists_with_multiple_films()`: the rows, or `None` when the
      query raises. */
  ghost function ArtistsWithMultipleFilms(conn: Conn): Option<seq<NameCount>> {
    match conn
    case Down => None
    case Up(db) => Some(Map(OrderedGroups(db), NameCountOf))
  }

  /** A group (artist id, name) is kept, once, iff the artist has more than
      one distinct film; its count is that number. */
  lemma {:induction false} GroupMembership(db: Database, g: ArtistFilms)
    ensures multiset(OrderedGroups(db))[g]
         == if && (exists a :: a in db.artists && a.nconst == g.nconst && a.primaryName == g.primaryName)
               && g.filmCount == |FilmsOf(db.principals, g.nconst)|
               && g.filmCount > 1
            then 1 else 0
  {
    ByFilmsThenNamePreorder();
    assert multiset(OrderedGroups(db)) == multiset(SetToSeq(ProlificGroups(db)));
    if && (exists a :: a in db.artists && a.nconst == g.nconst && a.primaryName == g.primaryName)
       && g.filmCount == |FilmsOf(db.principals, g.nconst)|
       && g.filmCount > 1
    {
      var a :| a in db.artists && a.nconst == g.nconst && a.primaryName == g.primaryName;
      var t :| t in FilmsOf(db.principals, g.nconst);
      var p :| p in db.principals && p.nconst == g.nconst && p.tconst == t;
      assert (g.nconst, g.primaryName) in ArtistGroups(db);
      assert g in ProlificGroups(db);
    }
  }

  lemma OrderedGroupsAreTheGroups(db: Database)
    ensures NoDup(OrderedGroups(db))
    ensures forall g :: g in OrderedGroups(db) <==> g in ProlificGroups(db)
  {
    var groups := OrderedGroups(db);
    ByFilmsThenNamePreorder();
    assert multiset(groups) == multiset(SetToSeq(ProlificGroups(db)));
    forall g ensures multiset(groups)[g] <= 1 && (g in groups <==> g in ProlificGroups(db)) {
      assert multiset(groups)[g] == multiset(SetToSeq(ProlificGroups(db)))[g];
    }
  }

  /** The groups whose row reads `r`. */
  ghost function GroupsShowing(db: Database, r: NameCount): set<ArtistFilms> {
    Preimage(ProlificGroups(db), NameCountOf, r)
  }

  /** Each row `(name, count)` occurs once per distinct artist id with that
      name and more than one film: grouping by `nconst` keeps namesakes
      apart. */
  lemma RowMultiplicity(db: Database, r: NameCount)
    ensures multiset(ArtistsWithMultipleFilms(Up(db)).value)[r] == |GroupsShowing(db, r)|
  {
    OrderedGroupsAreTheGroups(db);
    MapMultisetOfSet(OrderedGroups(db), ProlificGroups(db), NameCountOf, r);
  }

  /** Every reported artist has more than one film. */
  lemma RowsAboveOne(db: Database, r: NameCount)
    requires r in ArtistsWithMultipleFilms(Up(db)).value
    ensures r.filmCount > 1
  {
    var groups := OrderedGroups(db);
    var i :| 0 <= i < |groups| && NameCountOf(groups[i]) == r;
    OrderedGroupsAreTheGroups(db);
    assert groups[i] in ProlificGroups(db);
  }

  /** Two artists with different ids but the same name and film count give
      two equal rows. */
  lemma NamesakesKeptApart(db: Database, a: ArtistFilms, b: ArtistFilms)
    requires a in ProlificGroups(db) && b in ProlificGroups(db)
    requires a.nconst != b.nconst && a.primaryName == b.primaryName && a.filmCount == b.filmCount
    ensures multiset(ArtistsWithMultipleFilms(Up(db)).value)[NameCountOf(a)] >= 2
  {
    var r := NameCountOf(a);
    RowMultiplicity(db, r);
    var showing := GroupsShowing(db, r);
    assert a in showing;
    assert NameCountOf(b) == r;
    assert b in showing;
    TwoMembers(a, b, showing);
  }

  /** A set holding two different elements has at least two. */
  lemma TwoMembers<T>(a: T, b: T, s: set<T>)
    requires a != b && a in s && b in s
    ensures |s| >= 2
  {
    assert {a, b} <= s;
    assert s == {a, b} + (s - {a, b});
  }

  /** Rows come by film count descending, then by name. */
  lemma RowOrder(db: Database)
    ensures var rows := ArtistsWithMultipleFilms(Up(db)).value;
      forall i, j :: 0 <= i < j < |rows| ==>
        rows[i].filmCount > rows[j].filmCount
        || (rows[i].filmCount == rows[j].filmCount && LexLe(rows[i].primaryName, rows[j].primaryName))
  {
    ByFilmsThenNamePreorder();
  }

  function FilmCountOf(r: NameCount): int {
    r.filmCount
  }

  function NameOf(r: NameCount): string {
    r.primaryName
  }

  /** `most_prolific`: the names of the rows tied with the first. */
  function MostProlific(rows: seq<NameCount>): seq<string>
    requires |rows| > 0
  {
    Map(TiedWithFirst(rows, FilmCountOf), NameOf)
  }

  /** On rows ordered by count, a name is listed iff some row with that
      name reaches the first row's count. */
  lemma MostProlificNames(rows: seq<NameCount>, n: string)
    requires |rows| > 0 && NonIncreasing(rows, FilmCountOf)
    ensures n in MostProlific(rows) <==> exists y :: y in rows && y.primaryName == n && y.filmCount == rows[0].filmCount
  {
    var tied := TiedWithFirst(rows, FilmCountOf);
    if n in MostProlific(rows) {
      var i :| 0 <= i < |tied| && tied[i].primaryName == n;
      WithCountMultiset(rows, FilmCountOf, rows[0].filmCount, tied[i]);
      assert tied[i] in rows;
    }
    if exists y :: y in rows && y.primaryName == n && y.filmCount == rows[0].filmCount {
      var y :| y in rows && y.primaryName == n && y.filmCount == rows[0].filmCount;
      WithCountMultiset(rows, FilmCountOf, rows[0].filmCount, y);
      assert y in tied;
      var i :| 0 <= i < |tied| && tied[i] == y;
      assert MostProlific(rows)[i] == n;
    }
  }

  /** `max_films` is the largest count, the tied rows are exactly the rows
      reaching it (each as often as it occurs), and `most_prolific` lists
      the names of those rows. */
  lemma MostProlificSpec(db: Database, x: NameCount)
    requires |ArtistsWithMultipleFilms(Up(db)).value| > 0
    ensures var rows := ArtistsWithMultipleFilms(Up(db)).value;
      && (x in rows ==> x.filmCount <= rows[0].filmCount)
      && multiset(TiedWithFirst(rows, FilmCountOf))[x]
         == (if x.filmCount == rows[0].filmCount then multiset(rows)[x] else 0)
      && (x.primaryName in MostProlific(rows) <==> exists y :: y in rows && y.primaryName == x.primaryName && y.filmCount == rows[0].filmCount)
  {
    var rows := ArtistsWithMultipleFilms(Up(db)).value;
    RowOrder(db);
    assert NonIncreasing(rows, FilmCountOf);
    if x in rows {
      FirstIsMaximum(rows, FilmCountOf, x);
    }
    WithCountMultiset(rows, FilmCountOf, rows[0].filmCount, x);
    MostProlificNames(rows, x.primaryName);
  }

  const ListingLimit: nat := 20
  const ProlificLimit: nat := 5

  /** What `main` prints after a successful query: the first 20 rows, the
      total, and, when there is at least one row, the largest count with
      the first 5 names that reach it. */
  datatype Report = Report(listing: Page<NameCount>, total: nat, prolific: Option<(nat, Page<string>)>)

  /** `main`; `None` is "Impossible de récupérer les artistes.". */
  ghost function MainReport(conn: Conn): Option<Report> {
    match ArtistsWithMultipleFilms(conn)
    case None => None
    case Some(rows) =>
      Some(Report(
        Paginate(rows, ListingLimit),
        |rows|,
        if |rows| == 0 then None else Some((rows[0].filmCount, Paginate(MostProlific(rows), ProlificLimit)))))
  }

  /** The report is missing only when the query raised; the listing shows
      the first `min(20, total)` rows and counts the rest; the prolific part
      appears iff there are rows, announces the first row's count, which no
      row exceeds, and shows the first `min(5, ties)` tied names with the
      rest counted. */
  lemma MainReportSpec(conn: Conn)
    ensures MainReport(conn).None? <==> conn.Down?
    ensures MainReport(conn).Some? ==>
      var rows := ArtistsWithMultipleFilms(conn).value;
      var rep := MainReport(conn).value;
      && rep.total == |rows|
      && |rep.listing.shown| == (if |rows| < 20 then |rows| else 20)
      && rep.listing.shown == rows[..|rep.listing.shown|]
      && |rep.listing.shown| + rep.listing.hidden == |rows|
      && (rep.listing.hidden > 0 <==> |rows| > 20)
      && (rep.prolific.Some? <==> |rows| > 0)
      && (rep.prolific.Some? ==>
            var top := rep.prolific.value.1;
            && rep.prolific.value.0 == rows[0].filmCount
            && (forall r :: r in rows ==> r.filmCount <= rep.prolific.value.0)
            && |top.shown| == (if |MostProlific(rows)| < 5 then |MostProlific(rows)| else 5)
            && top.shown == MostProlific(rows)[..|top.shown|]
            && |top.shown| + top.hidden == |MostProlific(rows)|
            && (top.hidden > 0 <==> |MostProlific(rows)| > 5))
  {
    if conn.Up? && |ArtistsWithMultipleFilms(conn).value| > 0 {
      forall r | r in ArtistsWithMultipleFilms(conn).value
        ensures r.filmCount <= ArtistsWithMultipleFilms(conn).value[0].filmCount
      {
        MostProlificSpec(conn.db, r);
      }
    }
  }
}

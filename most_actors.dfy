/** The film(s) with the most distinct actors, their details, and the top
    ten films by number of actors
    (scripts/bddr/exercice8_films_most_actors.py). */
module MostActors {
  import opened Common
  import opened Sorting
  import opened Display
  import opened Tables

  /** `(idFilm, primaryTitle, actor_count)`. */
  datatype FilmCount = FilmCount(idFilm: string, primaryTitle: string, actorCount: nat)

  const ActedIn: string := "acted in"

  /** `COUNT(DISTINCT j.idArtist)` for one film `WHERE j.category = 'acted in'`. */
  function Actors(jobs: seq<Job>, idFilm: string): set<string> {
    set j | j in jobs && j.idFilm == idFilm && j.category == Some(ActedIn) :: j.idArtist
  }

  /** The groups of `tFilm f JOIN tJob j ON f.idFilm = j.idFilm WHERE
      j.category = 'acted in' GROUP BY f.idFilm, f.primaryTitle`. */
  ghost function FilmGroups(db: Database): set<(string, string)> {
    set f, j | f in db.films && j in db.jobs && f.idFilm == j.idFilm && j.category == Some(ActedIn)
      :: (f.idFilm, f.primaryTitle)
  }

  ghost function FilmCounts(db: Database): set<FilmCount> {
    set k | k in FilmGroups(db) :: FilmCount(k.0, k.1, |Actors(db.jobs, k.0)|)
  }

  function ActorCountOf(r: FilmCount): int {
    r.actorCount
  }

  /** `ORDER BY actor_count DESC`, with nothing to break ties. */
  predicate ByActorsDesc(a: FilmCount, b: FilmCount) {
    a.actorCount >= b.actorCount
  }

  /** `get_films_with_actor_count()`: the rows, or `None` when the query
      raises. The order among films with equal counts is the engine's. */
  ghost function FilmsWithActorCount(conn: Conn): Option<seq<FilmCount>> {
    match conn
    case Down => None
    case Up(db) =>
      assert TotalPreorder(ByActorsDesc);
      Some(SortBy(SetToSeq(FilmCounts(db)), ByActorsDesc))
  }

  /** Every film with at least one actor is in the result once, with its
      number of distinct actors; films without actors are not. */
  lemma {:induction false} FilmsWithActorCountMembership(db: Database, r: FilmCount)
    ensures FilmsWithActorCount(Up(db)).Some?
    ensures multiset(FilmsWithActorCount(Up(db)).value)[r]
         == if && (exists f :: f in db.films && f.idFilm == r.idFilm && f.primaryTitle == r.primaryTitle)
               && r.actorCount == |Actors(db.jobs, r.idFilm)|
               && r.actorCount > 0
            then 1 else 0
  {
    assert TotalPreorder(ByActorsDesc);
    var rows := FilmsWithActorCount(Up(db)).value;
    assert multiset(rows) == multiset(SetToSeq(FilmCounts(db)));
    if r in FilmCounts(db) {
      var k :| k in FilmGroups(db) && r == FilmCount(k.0, k.1, |Actors(db.jobs, k.0)|);
      var f, j :| f in db.films && j in db.jobs && f.idFilm == j.idFilm && j.category == Some(ActedIn)
                  && k == (f.idFilm, f.primaryTitle);
      assert j.idArtist in Actors(db.jobs, r.idFilm);
    }
    if && (exists f :: f in db.films && f.idFilm == r.idFilm && f.primaryTitle == r.primaryTitle)
       && r.actorCount == |Actors(db.jobs, r.idFilm)|
       && r.actorCount > 0
    {
      var f :| f in db.films && f.idFilm == r.idFilm && f.primaryTitle == r.primaryTitle;
      var id :| id in Actors(db.jobs, r.idFilm);
      var j :| j in db.jobs && j.idFilm == r.idFilm && j.category == Some(ActedIn) && j.idArtist == id;
      assert (r.idFilm, r.primaryTitle) in FilmGroups(db);
    }
  }

  /** Counts never grow along the result. */
  lemma FilmsWithActorCountOrder(db: Database)
    ensures NonIncreasing(FilmsWithActorCount(Up(db)).value, ActorCountOf)
  {
    assert TotalPreorder(ByActorsDesc);
  }

  /** `films_with_max_actors`: the rows tied with the first. */
  function FilmsWithMaxActors(rows: seq<FilmCount>): seq<FilmCount>
    requires |rows| > 0
  {
    TiedWithFirst(rows, ActorCountOf)
  }

  /** `max_actor_count = results[0][2]` is the largest count, and
      `films_with_max_actors` holds exactly the films that reach it: all
      the tied films, each once. */
  lemma FilmsWithMaxActorsSpec(db: Database, x: FilmCount)
    requires |FilmsWithActorCount(Up(db)).value| > 0
    ensures var rows := FilmsWithActorCount(Up(db)).value;
      && (x in rows ==> x.actorCount <= rows[0].actorCount)
      && multiset(FilmsWithMaxActors(rows))[x]
         == (if x in rows && (forall y :: y in rows ==> y.actorCount <= x.actorCount) then 1 else 0)
      && FilmsWithMaxActors(rows)[0] == rows[0]
  {
    var rows := FilmsWithActorCount(Up(db)).value;
    FilmsWithActorCountOrder(db);
    TiedWithFirstIsMaximum(rows, ActorCountOf, x);
    FilmsWithActorCountMembership(db, x);
  }

  /** The dict returned by `get_film_details`. */
  datatype FilmDetails = FilmDetails(idFilm: string, title: string, year: Option<int>, runtime: Option<int>)

  /** `fetchone()` on `SELECT ... FROM tFilm WHERE idFilm = ?`: one
      matching row. The query has no `ORDER BY`; the model picks the first
      in table order. */
  function FirstFilmWithId(films: seq<Film>, idFilm: string): (r: Option<Film>)
    ensures r.None? <==> !exists f :: f in films && f.idFilm == idFilm
    ensures r.Some? ==> r.value in films && r.value.idFilm == idFilm
    ensures r.Some? ==> exists i :: 0 <= i < |films| && films[i] == r.value
                          && forall k :: 0 <= k < i ==> films[k].idFilm != idFilm
  {
    var i := FirstIndexWithId(films, idFilm);
    if i < |films| then Some(films[i]) else None
  }

  /** The position of the first row with the id, `|films|` when none has
      it. */
  function FirstIndexWithId(films: seq<Film>, idFilm: string): (i: nat)
    ensures i <= |films|
    ensures i < |films| ==> films[i].idFilm == idFilm
    ensures forall k :: 0 <= k < i ==> films[k].idFilm != idFilm
  {
    if films == [] || films[0].idFilm == idFilm then 0
    else 1 + FirstIndexWithId(films[1..], idFilm)
  }

  /** `get_film_details(film_id)`: `None` when no film has the id or when
      the query raises. */
  function GetFilmDetails(conn: Conn, idFilm: string): (r: Option<FilmDetails>)
    ensures conn.Down? ==> r.None?
    ensures conn.Up? ==> (r.Some? <==> exists f :: f in conn.db.films && f.idFilm == idFilm)
    ensures r.Some? ==> exists f :: f in conn.db.films && f.idFilm == idFilm
                          && r.value == FilmDetails(f.idFilm, f.primaryTitle, f.startYear, f.runtimeMinutes)
  {
    match conn
    case Down => None
    case Up(db) =>
      match FirstFilmWithId(db.films, idFilm)
      case None => None
      case Some(f) => Some(FilmDetails(f.idFilm, f.primaryTitle, f.startYear, f.runtimeMinutes))
  }

  /** Python truthiness of a nullable number: NULL and 0 are both false. */
  predicate Truthy(v: Option<int>) {
    v.Some? && v.value != 0
  }

  /** The block printed for one of the winning films. */
  datatype WinnerBlock = WinnerBlock(
    rank: nat, title: string, idFilm: string, year: Option<int>, runtime: Option<int>, actorCount: nat)

  /** The year and the duration are printed only when the details were
      found and the value is truthy. */
  function WinnerBlockOf(conn: Conn, rank: nat, r: FilmCount): (b: WinnerBlock)
    ensures b.year.Some? <==> (GetFilmDetails(conn, r.idFilm).Some? && Truthy(GetFilmDetails(conn, r.idFilm).value.year))
    ensures b.runtime.Some? <==> (GetFilmDetails(conn, r.idFilm).Some? && Truthy(GetFilmDetails(conn, r.idFilm).value.runtime))
    ensures b.year.Some? ==> b.year.value != 0 && b.year == GetFilmDetails(conn, r.idFilm).value.year
    ensures b.runtime.Some? ==> b.runtime.value != 0 && b.runtime == GetFilmDetails(conn, r.idFilm).value.runtime
  {
    var details := GetFilmDetails(conn, r.idFilm);
    WinnerBlock(rank, r.primaryTitle, r.idFilm,
      if details.Some? && Truthy(details.value.year) then details.value.year else None,
      if details.Some? && Truthy(details.value.runtime) then details.value.runtime else None,
      r.actorCount)
  }

  /** One line of the top-ten table. */
  datatype TopLine = TopLine(rank: nat, title: string, actorCount: nat)

  const TopShown: nat := 10

  /** What `main` prints after a successful, non-empty query. */
  datatype Report = Report(maxActorCount: nat, winners: seq<WinnerBlock>, top: seq<TopLine>)

  /** Which of `main`'s lookups raise. Each opens its own connection: the
      films query, and one details lookup per winning film (`details`, by
      position among the winners). */
  datatype Faults = Faults(films: bool, details: set<nat>)

  /** The numbered blocks of `films_with_max_actors`, the details lookups
      at positions in `fails` raising. */
  function Winners(db: Database, fails: set<nat>, rows: seq<FilmCount>): seq<WinnerBlock>
    requires |rows| > 0
  {
    var winners := FilmsWithMaxActors(rows);
    seq(|winners|, i requires 0 <= i < |winners| => WinnerBlockOf(Open(db, i in fails), i + 1, winners[i]))
  }

  /** The top-ten table, `enumerate(results[:10], 1)`: the first ten rows
      (or all of them), ranked from 1, a title longer than 50 characters
      cut to its first 47 followed by "...". */
  function TopTable(rows: seq<FilmCount>): (top: seq<TopLine>)
    ensures |top| == if |rows| < 10 then |rows| else 10
    ensures forall i :: 0 <= i < |top| ==>
              && top[i].rank == i + 1
              && top[i].actorCount == rows[i].actorCount
              && (|rows[i].primaryTitle| <= 50 ==> top[i].title == rows[i].primaryTitle)
              && (|rows[i].primaryTitle| > 50 ==> top[i].title == rows[i].primaryTitle[..47] + "...")
  {
    var shown := Paginate(rows, TopShown).shown;
    var top := seq(|shown|, i requires 0 <= i < |shown| => TopLine(i + 1, Ellipsize(shown[i].primaryTitle, 50), shown[i].actorCount));
    assert forall i :: 0 <= i < |top| && |rows[i].primaryTitle| > 50 ==>
      top[i].title == top[i].title[..47] + top[i].title[47..];
    top
  }

  /** `main`: `None` is "Impossible de récupérer les films.", printed when
      the query raised or returned no rows. */
  ghost function MainReport(db: Database, f: Faults): Option<Report> {
    var results := FilmsWithActorCount(Open(db, f.films));
    if results.None? || |results.value| == 0 then None
    else
      Some(ReportOf(db, f, results.value))
  }

  /** The report on the (non-empty) rows of the query. */
  function ReportOf(db: Database, f: Faults, rows: seq<FilmCount>): Report
    requires |rows| > 0
  {
    Report(rows[0].actorCount, Winners(db, f.details, rows), TopTable(rows))
  }

  /** On rows ordered by count, there is one block per film tied with the
      first (largest) count, in order, numbered from 1, each with that
      film's id, title and count; its year and duration are absent when its
      details lookup raised. */
  lemma WinnersSpec(db: Database, fails: set<nat>, rows: seq<FilmCount>)
    requires |rows| > 0 && NonIncreasing(rows, ActorCountOf)
    ensures var ws := Winners(db, fails, rows);
      && |ws| == |FilmsWithMaxActors(rows)| > 0
      && (forall r :: r in rows ==> r.actorCount <= rows[0].actorCount)
      && forall i :: 0 <= i < |ws| ==>
           && ws[i].rank == i + 1
           && ws[i].idFilm == FilmsWithMaxActors(rows)[i].idFilm
           && ws[i].title == FilmsWithMaxActors(rows)[i].primaryTitle
           && ws[i].actorCount == rows[0].actorCount
           && DetailsShown(db, i in fails, FilmsWithMaxActors(rows)[i], ws[i])
  {
    var winners := FilmsWithMaxActors(rows);
    forall r | r in rows ensures r.actorCount <= rows[0].actorCount {
      FirstIsMaximum(rows, ActorCountOf, r);
    }
    TiedWithFirstIsMaximum(rows, ActorCountOf, rows[0]);
    forall i | 0 <= i < |winners|
      ensures var w := Winners(db, fails, rows)[i];
        && w.rank == i + 1
        && w.idFilm == winners[i].idFilm
        && w.title == winners[i].primaryTitle
        && w.actorCount == rows[0].actorCount
        && DetailsShown(db, i in fails, winners[i], w)
    {
      WinnerAt(db, fails, rows, i);
    }
  }

  /** The block at position `i` shows the `i`-th tied film. */
  lemma WinnerAt(db: Database, fails: set<nat>, rows: seq<FilmCount>, i: nat)
    requires |rows| > 0 && i < |FilmsWithMaxActors(rows)|
    ensures var w := Winners(db, fails, rows)[i];
      && w.rank == i + 1
      && w.idFilm == FilmsWithMaxActors(rows)[i].idFilm
      && w.title == FilmsWithMaxActors(rows)[i].primaryTitle
      && w.actorCount == rows[0].actorCount
      && DetailsShown(db, i in fails, FilmsWithMaxActors(rows)[i], w)
  {
    var winners := FilmsWithMaxActors(rows);
    WithCountMultiset(rows, ActorCountOf, rows[0].actorCount, winners[i]);
    assert Winners(db, fails, rows)[i] == WinnerBlockOf(Open(db, i in fails), i + 1, winners[i]);
  }

  /** The year and duration of the block `w` for the film `r`: absent when
      its details lookup raised, and otherwise the film's year and duration
      from the details, each kept only when it is set and non-zero. */
  ghost predicate DetailsShown(db: Database, failed: bool, r: FilmCount, w: WinnerBlock) {
    var details := GetFilmDetails(Up(db), r.idFilm);
    && (failed ==> w.year.None? && w.runtime.None?)
    && (!failed ==>
          && w.year == (if details.Some? && Truthy(details.value.year) then details.value.year else None)
          && w.runtime == (if details.Some? && Truthy(details.value.runtime) then details.value.runtime else None))
  }

  /** What `main` promises about its report on `rows`: the announced
      maximum is the first row's count and bounds every film's count; there
      is one block per film tied with the first, in order, numbered from 1,
      carrying that film's id, title, details and the maximum; and the table
      is the top ten. */
  ghost predicate ReportShown(db: Database, f: Faults, rows: seq<FilmCount>, rep: Report) {
    && |rows| > 0
    && rep.maxActorCount == rows[0].actorCount
    && (forall r :: r in rows ==> r.actorCount <= rep.maxActorCount)
    && |rep.winners| == |FilmsWithMaxActors(rows)| > 0
    && (forall i :: 0 <= i < |rep.winners| ==>
          && rep.winners[i].rank == i + 1
          && rep.winners[i].idFilm == FilmsWithMaxActors(rows)[i].idFilm
          && rep.winners[i].title == FilmsWithMaxActors(rows)[i].primaryTitle
          && rep.winners[i].actorCount == rep.maxActorCount
          && DetailsShown(db, i in f.details, FilmsWithMaxActors(rows)[i], rep.winners[i]))
    && rep.top == TopTable(rows)
  }

  /** On rows ordered by count, the report keeps `ReportShown`. */
  lemma ReportOfSpec(db: Database, f: Faults, rows: seq<FilmCount>)
    requires |rows| > 0 && NonIncreasing(rows, ActorCountOf)
    ensures ReportShown(db, f, rows, ReportOf(db, f, rows))
  {
    WinnersSpec(db, f.details, rows);
  }

  /** The report exists iff the films query ran and found a film with an
      actor, and then `ReportShown` holds of it. */
  lemma MainReportSpec(db: Database, f: Faults)
    ensures MainReport(db, f).Some? <==> !f.films && |FilmsWithActorCount(Up(db)).value| > 0
    ensures MainReport(db, f).Some? ==> ReportShown(db, f, FilmsWithActorCount(Up(db)).value, MainReport(db, f).value)
  {
    if MainReport(db, f).Some? {
      var rows := FilmsWithActorCount(Up(db)).value;
      FilmsWithActorCountOrder(db);
      ReportOfSpec(db, f, rows);
    }
  }
}

/** Artists who held more than one kind of responsibility over their career
    (scripts/bddr/exercice6_artists_multiple_roles.py). */
module MultipleRoles {
  import opened Common
  import opened Text
  import opened Sorting
  import opened Display
  import opened Tables

  /** `(idArtist, primaryName, role_count)`. */
  datatype RoleRow = RoleRow(idArtist: string, primaryName: string, roleCount: nat)

  /** `(category, artist_count)`. */
  datatype CategoryStat = CategoryStat(category: string, artistCount: nat)

  // ---------------------------------------------------------------------
  // get_artist_roles
  // ---------------------------------------------------------------------

  /** `SELECT DISTINCT category FROM tJob WHERE idArtist = ? AND category IS
      NOT NULL ORDER BY category`; a failing query gives `[]`. */
  ghost function ArtistRoleList(conn: Conn, idArtist: string): seq<string> {
    match conn
    case Down => []
    case Up(db) =>
      LexLeIsTotalOrder();
      SortBy(SetToSeq(Categories(db.jobs, idArtist)), LexLe)
  }

  /** The list holds each non-null category of the artist exactly once, in
      ascending order, so its length is the artist's `role_count`. */
  lemma ArtistRoleListSpec(db: Database, idArtist: string)
    ensures var r := ArtistRoleList(Up(db), idArtist);
      && (forall c :: c in r <==> c in Categories(db.jobs, idArtist))
      && (forall i, j :: 0 <= i < j < |r| ==> LexLe(r[i], r[j]) && r[i] != r[j])
      && |r| == |Categories(db.jobs, idArtist)|
  {
    LexLeIsTotalOrder();
    var cats := Categories(db.jobs, idArtist);
    var listed := SetToSeq(cats);
    var r := SortBy(listed, LexLe);
    assert r == ArtistRoleList(Up(db), idArtist);
    assert multiset(r) == multiset(listed);
    forall c ensures c in r <==> c in cats {
      assert c in r <==> multiset(r)[c] > 0;
    }
    assert NoDup(listed);
    NoDupPerm(listed, r);
    forall i, j | 0 <= i < j < |r| ensures r[i] != r[j] {
      NoDupDistinct(r, i, j);
    }
  }

  /** A failed lookup shows no role at all. */
  lemma ArtistRoleListOnError(idArtist: string)
    ensures ArtistRoleList(Down, idArtist) == []
  {
  }

  // ---------------------------------------------------------------------
  // get_artists_with_multiple_roles
  // ---------------------------------------------------------------------

  /** The groups of `tArtist a JOIN tJob j ON a.idArtist = j.idArtist WHERE
      j.category IS NOT NULL GROUP BY a.idArtist, a.primaryName`. */
  ghost function ArtistGroups(db: Database): set<(string, string)> {
    set a, j | a in db.artists && j in db.jobs && a.idArtist == j.idArtist && j.category.Some?
      :: (a.idArtist, a.primaryName)
  }

  /** The groups kept by `HAVING COUNT(DISTINCT j.category) > 1`. */
  ghost function MultiRoleRows(db: Database): set<RoleRow> {
    set k | k in ArtistGroups(db) && |Categories(db.jobs, k.0)| > 1
      :: RoleRow(k.0, k.1, |Categories(db.jobs, k.0)|)
  }

  /** `ORDER BY role_count DESC, a.primaryName`. */
  predicate ByRolesThenName(a: RoleRow, b: RoleRow) {
    a.roleCount > b.roleCount || (a.roleCount == b.roleCount && LexLe(a.primaryName, b.primaryName))
  }

  lemma ByRolesThenNamePreorder()
    ensures TotalPreorder(ByRolesThenName)
  {
    forall a, b ensures ByRolesThenName(a, b) || ByRolesThenName(b, a) {
      LexLeTotal(a.primaryName, b.primaryName);
    }
    forall a, b, c | ByRolesThenName(a, b) && ByRolesThenName(b, c) ensures ByRolesThenName(a, c) {
      if a.roleCount == b.roleCount == c.roleCount {
        LexLeTrans(a.primaryName, b.primaryName, c.primaryName);
      }
    }
  }

  /** `get_artists_with_multiple_roles()`: the rows, or `None` when the query
      raises. */
  ghost function ArtistsWithMultipleRoles(conn: Conn): Option<seq<RoleRow>> {
    match conn
    case Down => None
    case Up(db) =>
      ByRolesThenNamePreorder();
      Some(SortBy(SetToSeq(MultiRoleRows(db)), ByRolesThenName))
  }

  /** An artist row (id, name) is in the result, exactly once, iff the artist
      has more than one distinct non-null category; its `role_count` is that
      number. Nothing else is in the result. */
  lemma {:induction false} MultipleRolesMembership(db: Database, r: RoleRow)
    ensures ArtistsWithMultipleRoles(Up(db)).Some?
    ensures multiset(ArtistsWithMultipleRoles(Up(db)).value)[r]
         == if && (exists a :: a in db.artists && a.idArtist == r.idArtist && a.primaryName == r.primaryName)
               && r.roleCount == |Categories(db.jobs, r.idArtist)|
               && r.roleCount > 1
            then 1 else 0
  {
    ByRolesThenNamePreorder();
    var rows := ArtistsWithMultipleRoles(Up(db)).value;
    assert multiset(rows) == multiset(SetToSeq(MultiRoleRows(db)));
    var n := |Categories(db.jobs, r.idArtist)|;
    if (exists a :: a in db.artists && a.idArtist == r.idArtist && a.primaryName == r.primaryName)
       && r.roleCount == n && n > 1
    {
      var a :| a in db.artists && a.idArtist == r.idArtist && a.primaryName == r.primaryName;
      CategoriesWitness(db.jobs, r.idArtist);
      var j :| j in db.jobs && j.idArtist == r.idArtist && j.category.Some?;
      assert (r.idArtist, r.primaryName) in ArtistGroups(db);
      assert r == RoleRow(r.idArtist, r.primaryName, n);
      assert r in MultiRoleRows(db);
    }
  }

  /** Rows come by `role_count` descending, then by name ascending. */
  lemma MultipleRolesOrder(db: Database)
    ensures var rows := ArtistsWithMultipleRoles(Up(db)).value;
      forall i, j :: 0 <= i < j < |rows| ==>
        rows[i].roleCount > rows[j].roleCount
        || (rows[i].roleCount == rows[j].roleCount && LexLe(rows[i].primaryName, rows[j].primaryName))
  {
    ByRolesThenNamePreorder();
  }

  /** For every listed artist the role lookup shows `role_count` roles. */
  lemma RolesShownMatchCount(db: Database, r: RoleRow)
    requires r in ArtistsWithMultipleRoles(Up(db)).value
    ensures |ArtistRoleList(Up(db), r.idArtist)| == r.roleCount
  {
    MultipleRolesMembership(db, r);
    ArtistRoleListSpec(db, r.idArtist);
  }

  // ---------------------------------------------------------------------
  // get_role_statistics
  // ---------------------------------------------------------------------

  /** The non-null categories of `tJob` (`GROUP BY category`). */
  function AllCategories(jobs: seq<Job>): set<string> {
    set j | j in jobs && j.category.Some? :: j.category.value
  }

  /** `COUNT(DISTINCT idArtist)` within one category. */
  function CategoryArtists(jobs: seq<Job>, category: string): set<string> {
    set j | j in jobs && j.category == Some(category) :: j.idArtist
  }

  ghost function CategoryStats(db: Database): set<CategoryStat> {
    set c | c in AllCategories(db.jobs) :: CategoryStat(c, |CategoryArtists(db.jobs, c)|)
  }

  /** `ORDER BY artist_count DESC`, with no tie-breaker. */
  predicate ByArtistCount(a: CategoryStat, b: CategoryStat) {
    a.artistCount >= b.artistCount
  }

  ghost function RoleStatistics(conn: Conn): Option<seq<CategoryStat>> {
    match conn
    case Down => None
    case Up(db) =>
      assert TotalPreorder(ByArtistCount);
      Some(SortBy(SetToSeq(CategoryStats(db)), ByArtistCount))
  }

  /** One row per non-null category, holding the number of distinct artists
      with a job in that category (at least one); counts never increase down
      the list. */
  lemma {:induction false} RoleStatisticsSpec(db: Database, s: CategoryStat)
    ensures RoleStatistics(Up(db)).Some?
    ensures var rows := RoleStatistics(Up(db)).value;
      && multiset(rows)[s]
         == (if s.category in AllCategories(db.jobs) && s.artistCount == |CategoryArtists(db.jobs, s.category)|
             then 1 else 0)
      && (s in rows ==> s.artistCount >= 1)
      && (forall i, j :: 0 <= i < j < |rows| ==> rows[i].artistCount >= rows[j].artistCount)
  {
    assert TotalPreorder(ByArtistCount);
    var rows := RoleStatistics(Up(db)).value;
    assert multiset(rows) == multiset(SetToSeq(CategoryStats(db)));
    if s in rows {
      assert s in CategoryStats(db);
      var j :| j in db.jobs && j.category == Some(s.category);
      assert j.idArtist in CategoryArtists(db.jobs, s.category);
    }
  }

  // ---------------------------------------------------------------------
  // main
  // ---------------------------------------------------------------------

  /** What `main` shows about the multi-role artists: how many there are,
      the first 25 with the roles of each joined by ", ", and, when there is
      at least one, the most versatile ones, at most 5, with their roles. */
  datatype Report = Report(
    total: nat,
    listing: Page<RoleRow>,
    listedRoles: seq<string>,
    mostVersatile: Option<Page<RoleRow>>,
    versatileRoles: seq<string>)

  /** Everything `main` prints: the role statistics (nothing when that query
      raises or finds no category), then the artists report, where `None`
      stands for "Impossible de récupérer les artistes.". */
  datatype Output = Output(statistics: seq<CategoryStat>, artists: Option<Report>)

  /** Which of `main`'s lookups raise. Each opens its own connection: the
      statistics, the artists query, and one role lookup per listed artist
      (`listing`, by position) and per shown most-versatile artist
      (`versatile`, by position). */
  datatype Faults = Faults(statistics: bool, artists: bool, listing: set<nat>, versatile: set<nat>)

  const ListingLimit: nat := 25
  const VersatileLimit: nat := 5

  /** The role count, as the key of the most-versatile selection. */
  function RoleCount(r: RoleRow): int {
    r.roleCount
  }

  /** `", ".join(get_artist_roles(artist_id))` for each shown row, the
      lookups at positions in `fails` raising. */
  ghost function RolesLines(db: Database, fails: set<nat>, shown: seq<RoleRow>): seq<string> {
    seq(|shown|, i requires 0 <= i < |shown| => Join(ArtistRoleList(Open(db, i in fails), shown[i].idArtist), ", "))
  }

  /** `main`. */
  ghost function MainReport(db: Database, f: Faults): Output {
    var stats := RoleStatistics(Open(db, f.statistics));
    Output(
      if stats.Some? then stats.value else [],
      match ArtistsWithMultipleRoles(Open(db, f.artists))
      case None => None
      case Some(rows) => Some(ReportOf(db, f, rows)))
  }

  /** What `main` shows for the rows the artists query returned. */
  ghost function ReportOf(db: Database, f: Faults, rows: seq<RoleRow>): Report {
    var listing := Paginate(rows, ListingLimit);
    var versatile := if |rows| == 0 then None else Some(Paginate(TiedWithFirst(rows, RoleCount), VersatileLimit));
    Report(
      |rows|,
      listing,
      RolesLines(db, f.listing, listing.shown),
      versatile,
      if versatile.Some? then RolesLines(db, f.versatile, versatile.value.shown) else [])
  }

  /** The roles printed beside `shown`: an empty line where the lookup
      raised, otherwise the artist's categories joined by ", ", as many as
      the row's `role_count`. */
  ghost predicate RolesShown(db: Database, fails: set<nat>, shown: seq<RoleRow>, lines: seq<string>) {
    && |lines| == |shown|
    && forall i :: 0 <= i < |shown| ==>
         && (i in fails ==> lines[i] == "")
         && (i !in fails ==>
               && lines[i] == Join(ArtistRoleList(Up(db), shown[i].idArtist), ", ")
               && |ArtistRoleList(Up(db), shown[i].idArtist)| == shown[i].roleCount)
  }

  /** Rows whose `role_count` is the artist's number of distinct non-null
      categories, as the artists query returns them. */
  ghost predicate CountsAreCategories(db: Database, rows: seq<RoleRow>) {
    forall r :: r in rows ==> r.roleCount == |Categories(db.jobs, r.idArtist)|
  }

  lemma RolesLinesSpec(db: Database, fails: set<nat>, shown: seq<RoleRow>)
    requires CountsAreCategories(db, shown)
    ensures RolesShown(db, fails, shown, RolesLines(db, fails, shown))
  {
    forall i | 0 <= i < |shown| && i !in fails
      ensures |ArtistRoleList(Up(db), shown[i].idArtist)| == shown[i].roleCount
    {
      assert shown[i] in shown;
      ArtistRoleListSpec(db, shown[i].idArtist);
    }
  }

  /** `top` is `most_versatile[:5]` with `len(most_versatile) - 5` more
      reported: the first rows tied with the largest role count, at least
      one and at most five, each a row of `rows` no other row beats. */
  ghost predicate MostVersatileShown(rows: seq<RoleRow>, top: Page<RoleRow>) {
    && |rows| > 0
    && var ties := TiedWithFirst(rows, RoleCount);
    && |top.shown| == (if |ties| < VersatileLimit then |ties| else VersatileLimit)
    && top.shown == ties[..|top.shown|]
    && |top.shown| + top.hidden == |ties|
    && (top.hidden > 0 <==> |ties| > VersatileLimit)
    && 0 < |top.shown|
    && forall r :: r in top.shown ==> r in rows && forall q :: q in rows ==> q.roleCount <= r.roleCount
  }

  /** On rows ordered by role count descending, the most-versatile page
      shows the first of the rows tied with the largest count, at least one,
      and reports the rest; the ties are all the rows with the largest
      count, as often as they occur. */
  lemma MostVersatileSpec(rows: seq<RoleRow>, x: RoleRow)
    requires |rows| > 0 && NonIncreasing(rows, RoleCount)
    ensures MostVersatileShown(rows, Paginate(TiedWithFirst(rows, RoleCount), VersatileLimit))
    ensures multiset(TiedWithFirst(rows, RoleCount))[x]
         == if x in rows && (forall q :: q in rows ==> q.roleCount <= x.roleCount) then multiset(rows)[x] else 0
  {
    var ties := TiedWithFirst(rows, RoleCount);
    var top := Paginate(ties, VersatileLimit);
    TiedWithFirstIsMaximum(rows, RoleCount, x);
    TiedWithFirstIsMaximum(rows, RoleCount, rows[0]);
    forall r | r in top.shown
      ensures r in rows && forall q :: q in rows ==> q.roleCount <= r.roleCount
    {
      assert r in ties;
      TiedWithFirstIsMaximum(rows, RoleCount, r);
      assert multiset(ties)[r] > 0;
    }
  }

  /** What `main` promises about its report on `rows`: the listing shows
      `min(25, total)` rows from the top and reports the others, each with
      its roles; the most-versatile page exists exactly when there is a row,
      and shows its rows with their roles. */
  ghost predicate ReportShown(db: Database, f: Faults, rows: seq<RoleRow>, rep: Report) {
    && rep.total == |rows|
    && |rep.listing.shown| == (if rep.total < ListingLimit then rep.total else ListingLimit)
    && rep.listing.shown == rows[..|rep.listing.shown|]
    && (rep.listing.hidden > 0 <==> rep.total > ListingLimit)
    && rep.listing.hidden + |rep.listing.shown| == rep.total
    && RolesShown(db, f.listing, rep.listing.shown, rep.listedRoles)
    && (rep.mostVersatile.Some? <==> rep.total > 0)
    && (rep.mostVersatile.Some? ==>
          && MostVersatileShown(rows, rep.mostVersatile.value)
          && RolesShown(db, f.versatile, rep.mostVersatile.value.shown, rep.versatileRoles))
    && (rep.mostVersatile.None? ==> rep.versatileRoles == [])
  }

  /** On rows ordered by role count descending whose counts are the
      artists' category counts, the report keeps `ReportShown`. */
  lemma ReportOfSpec(db: Database, f: Faults, rows: seq<RoleRow>)
    requires NonIncreasing(rows, RoleCount) && CountsAreCategories(db, rows)
    ensures ReportShown(db, f, rows, ReportOf(db, f, rows))
  {
    var listing := Paginate(rows, ListingLimit);
    RolesLinesSpec(db, f.listing, listing.shown);
    if |rows| > 0 {
      MostVersatileSpec(rows, rows[0]);
      var ties := TiedWithFirst(rows, RoleCount);
      var top := Paginate(ties, VersatileLimit);
      forall r | r in top.shown ensures r.roleCount == |Categories(db.jobs, r.idArtist)| {
        assert r in rows;
      }
      RolesLinesSpec(db, f.versatile, top.shown);
    }
  }

  /** The artists report exists iff the artists query runs, and then keeps
      `ReportShown` on that query's rows. */
  lemma MainReportSpec(db: Database, f: Faults)
    ensures MainReport(db, f).artists.Some? <==> !f.artists
    ensures MainReport(db, f).artists.Some? ==>
      ReportShown(db, f, ArtistsWithMultipleRoles(Up(db)).value, MainReport(db, f).artists.value)
  {
    if !f.artists {
      var rows := ArtistsWithMultipleRoles(Up(db)).value;
      assert MainReport(db, f).artists == Some(ReportOf(db, f, rows));
      QueryRowsShape(db);
      ReportOfSpec(db, f, rows);
    }
  }

  /** The artists query's rows come by role count descending, and each
      count is the artist's number of distinct non-null categories. */
  lemma QueryRowsShape(db: Database)
    ensures NonIncreasing(ArtistsWithMultipleRoles(Up(db)).value, RoleCount)
    ensures CountsAreCategories(db, ArtistsWithMultipleRoles(Up(db)).value)
  {
    var rows := ArtistsWithMultipleRoles(Up(db)).value;
    MultipleRolesOrder(db);
    forall i, j | 0 <= i < j < |rows| ensures RoleCount(rows[i]) >= RoleCount(rows[j]) {
    }
    forall r | r in rows ensures r.roleCount == |Categories(db.jobs, r.idArtist)| {
      MultipleRolesMembership(db, r);
    }
  }

  /** The statistics printed are empty when their query raises; otherwise
      one row per non-null category with its number of distinct artists,
      counts never increasing. */
  lemma StatisticsShownSpec(db: Database, f: Faults, s: CategoryStat)
    ensures var stats := MainReport(db, f).statistics;
      && (f.statistics ==> stats == [])
      && (!f.statistics ==>
            && multiset(stats)[s]
               == (if s.category in AllCategories(db.jobs) && s.artistCount == |CategoryArtists(db.jobs, s.category)|
                   then 1 else 0)
            && forall i, j :: 0 <= i < j < |stats| ==> stats[i].artistCount >= stats[j].artistCount)
  {
    RoleStatisticsSpec(db, s);
  }
}

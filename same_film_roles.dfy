/** The listing of every (artist, film) pair where the artist held several
    responsibilities, ordered by artist and title
    (scripts/bddr/exercice9_multiple_roles_same_film.py). */
module SameFilmRoles {
  import opened Common
  import opened Text
  import opened Sorting
  import opened Display
  import opened Tables
  import RolesPerFilm

  /** `(idArtist, primaryName, idFilm, primaryTitle, role_count)`. */
  datatype FilmRoleRow = FilmRoleRow(
    idArtist: string, primaryName: string, idFilm: string, primaryTitle: string, roleCount: nat)

  /** The groups of the three-table join, with no filter on the category:
      `GROUP BY a.idArtist, a.primaryName, j.idFilm, f.primaryTitle`. */
  ghost function FilmGroups(db: Database): set<(string, string, string, string)> {
    set a, j, f | a in db.artists && j in db.jobs && f in db.films
                  && a.idArtist == j.idArtist && j.idFilm == f.idFilm
      :: (a.idArtist, a.primaryName, j.idFilm, f.primaryTitle)
  }

  /** `HAVING COUNT(DISTINCT j.category) > 1`; the count skips NULLs. */
  ghost function FilmRoleRows(db: Database): set<FilmRoleRow> {
    set k | k in FilmGroups(db) && |PairCategories(db.jobs, k.0, k.2)| > 1
      :: FilmRoleRow(k.0, k.1, k.2, k.3, |PairCategories(db.jobs, k.0, k.2)|)
  }

  /** `ORDER BY a.primaryName, f.primaryTitle`. */
  predicate ByNameThenTitle(a: FilmRoleRow, b: FilmRoleRow) {
    || (a.primaryName != b.primaryName && LexLe(a.primaryName, b.primaryName))
    || (a.primaryName == b.primaryName && LexLe(a.primaryTitle, b.primaryTitle))
  }

  lemma ByNameThenTitlePreorder()
    ensures TotalPreorder(ByNameThenTitle)
  {
    forall a, b ensures ByNameThenTitle(a, b) || ByNameThenTitle(b, a) {
      LexLeTotal(a.primaryName, b.primaryName);
      LexLeTotal(a.primaryTitle, b.primaryTitle);
    }
    forall a, b, c | ByNameThenTitle(a, b) && ByNameThenTitle(b, c) ensures ByNameThenTitle(a, c) {
      if a.primaryName == b.primaryName && b.primaryName == c.primaryName {
        LexLeTrans(a.primaryTitle, b.primaryTitle, c.primaryTitle);
      } else if a.primaryName != b.primaryName && b.primaryName != c.primaryName {
        LexLeTrans(a.primaryName, b.primaryName, c.primaryName);
        if a.primaryName == c.primaryName {
          LexLeAntisym(a.primaryName, b.primaryName);
        }
      }
    }
  }

  /** `get_artists_with_multiple_roles_in_film()`; driver exceptions are not
      caught by the script and are not modelled. */
  ghost function MultipleRolesInFilm(db: Database): seq<FilmRoleRow> {
    ByNameThenTitlePreorder();
    SortBy(SetToSeq(FilmRoleRows(db)), ByNameThenTitle)
  }

  /** A pair is listed, once, iff the artist had more than one distinct
      non-null category on the film; NULL categories never count. */
  lemma {:induction false} SameFilmMembership(db: Database, r: FilmRoleRow)
    ensures multiset(MultipleRolesInFilm(db))[r]
         == if && (exists a :: a in db.artists && a.idArtist == r.idArtist && a.primaryName == r.primaryName)
               && (exists f :: f in db.films && f.idFilm == r.idFilm && f.primaryTitle == r.primaryTitle)
               && r.roleCount == |PairCategories(db.jobs, r.idArtist, r.idFilm)|
               && r.roleCount > 1
            then 1 else 0
  {
    ByNameThenTitlePreorder();
    assert multiset(MultipleRolesInFilm(db)) == multiset(SetToSeq(FilmRoleRows(db)));
    FilmRoleRowsMembership(db, r);
  }

  /** The grouped rows before ordering: the condition of
      `SameFilmMembership`. */
  lemma FilmRoleRowsMembership(db: Database, r: FilmRoleRow)
    ensures r in FilmRoleRows(db)
        <==> && (exists a :: a in db.artists && a.idArtist == r.idArtist && a.primaryName == r.primaryName)
             && (exists f :: f in db.films && f.idFilm == r.idFilm && f.primaryTitle == r.primaryTitle)
             && r.roleCount == |PairCategories(db.jobs, r.idArtist, r.idFilm)|
             && r.roleCount > 1
  {
    if && (exists a :: a in db.artists && a.idArtist == r.idArtist && a.primaryName == r.primaryName)
       && (exists f :: f in db.films && f.idFilm == r.idFilm && f.primaryTitle == r.primaryTitle)
       && r.roleCount == |PairCategories(db.jobs, r.idArtist, r.idFilm)|
       && r.roleCount > 1
    {
      var a :| a in db.artists && a.idArtist == r.idArtist && a.primaryName == r.primaryName;
      var f :| f in db.films && f.idFilm == r.idFilm && f.primaryTitle == r.primaryTitle;
      PairCategoriesWitness(db.jobs, r.idArtist, r.idFilm);
      var j :| j in db.jobs && j.idArtist == r.idArtist && j.idFilm == r.idFilm && j.category.Some?;
      assert (r.idArtist, r.primaryName, r.idFilm, r.primaryTitle) in FilmGroups(db);
    }
  }

  /** Leaving out `WHERE j.category IS NOT NULL` changes nothing: this
      script lists exactly the pairs, with the same counts, that the
      per-film report finds, only without the year. */
  lemma SameFilmAgreesWithPerFilm(db: Database, r: FilmRoleRow)
    ensures multiset(MultipleRolesInFilm(db))[r]
         == multiset(RolesPerFilm.MultipleRolesPerFilm(db))[
              RolesPerFilm.PairRow(r.idArtist, r.primaryName, r.idFilm, r.primaryTitle, r.roleCount,
                                   RolesPerFilm.MaxStartYear(db.films, r.idFilm, r.primaryTitle))]
  {
    SameFilmMembership(db, r);
    RolesPerFilm.PerFilmMembership(db,
      RolesPerFilm.PairRow(r.idArtist, r.primaryName, r.idFilm, r.primaryTitle, r.roleCount,
                           RolesPerFilm.MaxStartYear(db.films, r.idFilm, r.primaryTitle)));
  }

  /** Rows come by artist name, then title. */
  lemma SameFilmOrder(db: Database)
    ensures var rows := MultipleRolesInFilm(db);
      forall i, j :: 0 <= i < j < |rows| ==>
        || (rows[i].primaryName != rows[j].primaryName && LexLe(rows[i].primaryName, rows[j].primaryName))
        || (rows[i].primaryName == rows[j].primaryName && LexLe(rows[i].primaryTitle, rows[j].primaryTitle))
  {
    ByNameThenTitlePreorder();
  }

  /** Every pair of the per-film report is listed here too. */
  lemma PerFilmPairListed(db: Database, p: RolesPerFilm.PairRow)
    requires p in RolesPerFilm.MultipleRolesPerFilm(db)
    ensures FilmRoleRow(p.idArtist, p.primaryName, p.idFilm, p.primaryTitle, p.roleCount) in MultipleRolesInFilm(db)
  {
    var r := FilmRoleRow(p.idArtist, p.primaryName, p.idFilm, p.primaryTitle, p.roleCount);
    RolesPerFilm.PerFilmMembership(db, p);
    SameFilmAgreesWithPerFilm(db, r);
  }

  /** The NULL-category example of the per-film report breaks this listing
      too: the pair is listed and `", ".join` receives `None`. */
  lemma NullCategoryBreaksListing()
    ensures var db := RolesPerFilm.NullCategoryExample();
      && FilmRoleRow("nm1", "Ann", "tt1", "Movie A", 2) in MultipleRolesInFilm(db)
      && RolesPerFilm.JoinItems(RolesPerFilm.RawPairRoleList(db, "nm1", "tt1"), ", ").None?
  {
    RolesPerFilm.ExamplePairIsReported();
    PerFilmPairListed(RolesPerFilm.NullCategoryExample(), RolesPerFilm.PairRow("nm1", "Ann", "tt1", "Movie A", 2, Some(2000)));
    RolesPerFilm.ExampleLookupHoldsNull();
  }

  /** One printed line: artist and title cut with an ellipsis to 40 and 50
      characters, roles joined with ", ". */
  datatype Line = Line(artist: string, film: string, roles: string)

  ghost function LineOf(db: Database, r: FilmRoleRow): Line {
    Line(Ellipsize(r.primaryName, 40), Ellipsize(r.primaryTitle, 50),
         Join(RolesPerFilm.PairRoleList(db, r.idArtist, r.idFilm), ", "))
  }

  /** `main` with the role lookup filtered on `category IS NOT NULL`: the
      header count and one line per row; `None` is the "Aucun artiste ..."
      message. */
  ghost function Listing(db: Database): Option<(nat, seq<Line>)> {
    var rows := MultipleRolesInFilm(db);
    if rows == [] then None
    else
      var count: nat := |rows|;
      Some((count, Map(rows, (r: FilmRoleRow) => LineOf(db, r))))
  }

  /** The header announces as many pairs as there are lines, and line `i`
      shows row `i`. */
  lemma ListingSpec(db: Database)
    ensures var rows := MultipleRolesInFilm(db);
      && (Listing(db).None? <==> rows == [])
      && (Listing(db).Some? ==>
            && Listing(db).value.0 == |Listing(db).value.1| == |rows|
            && forall i :: 0 <= i < |rows| ==> Listing(db).value.1[i] == LineOf(db, rows[i]))
  {
  }

  /** Each line shows the artist name cut to its first 37 characters and
      "..." when longer than 40, the title cut to 47 and "..." when longer
      than 50, each unchanged otherwise, and the pair's distinct non-null
      categories in ascending order, `role_count` of them, joined with ", ". */
  lemma LineOfSpec(db: Database, r: FilmRoleRow)
    requires r in MultipleRolesInFilm(db)
    ensures var line := LineOf(db, r);
      var roles := RolesPerFilm.PairRoleList(db, r.idArtist, r.idFilm);
      && (|r.primaryName| <= 40 ==> line.artist == r.primaryName)
      && (|r.primaryName| > 40 ==> line.artist == r.primaryName[..37] + "...")
      && (|r.primaryTitle| <= 50 ==> line.film == r.primaryTitle)
      && (|r.primaryTitle| > 50 ==> line.film == r.primaryTitle[..47] + "...")
      && line.roles == Join(roles, ", ")
      && (forall c :: c in roles <==> c in PairCategories(db.jobs, r.idArtist, r.idFilm))
      && SortedBy(roles, LexLe)
      && NoDup(roles)
      && |roles| == r.roleCount
  {
    SameFilmMembership(db, r);
    RolesPerFilm.PairRoleListSpec(db, r.idArtist, r.idFilm);
    NameColumns(db, r);
  }

  /** The artist and title columns of a line. */
  lemma NameColumns(db: Database, r: FilmRoleRow)
    ensures var line := LineOf(db, r);
      && (|r.primaryName| <= 40 ==> line.artist == r.primaryName)
      && (|r.primaryName| > 40 ==> line.artist == r.primaryName[..37] + "...")
      && (|r.primaryTitle| <= 50 ==> line.film == r.primaryTitle)
      && (|r.primaryTitle| > 50 ==> line.film == r.primaryTitle[..47] + "...")
  {
    if |r.primaryName| > 40 {
      EllipsizeCut(r.primaryName, 40);
    }
    if |r.primaryTitle| > 50 {
      EllipsizeCut(r.primaryTitle, 50);
    }
  }
}

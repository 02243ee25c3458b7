/** The relational store the report scripts query: the tables `tArtist`,
    `tJob`, `tFilm` and `tPrincipal` as in-memory rows, and the connection
    through which a query either runs or raises. */
module Tables {
  import opened Common

  /** A row of `tArtist`. `idArtist` is the key the `tJob` queries join on,
      `nconst` the one the `tPrincipal` query joins on. */
  datatype Artist = Artist(idArtist: string, nconst: string, primaryName: string, birthYear: Option<int>)

  /** A row of `tJob`: one responsibility of an artist on a film. */
  datatype Job = Job(idArtist: string, idFilm: string, category: Option<string>)

  /** A row of `tFilm`. */
  datatype Film = Film(idFilm: string, primaryTitle: string, startYear: Option<int>, runtimeMinutes: Option<int>)

  /** A row of `tPrincipal`: artist `nconst` took part in film `tconst`. */
  datatype Principal = Principal(nconst: string, tconst: string)

  datatype Database = Database(artists: seq<Artist>, jobs: seq<Job>, films: seq<Film>, principals: seq<Principal>)

  /** What a query sees: the tables, or a driver exception. */
  datatype Conn = Up(db: Database) | Down

  /** The connection one lookup opens on the tables. Every lookup function
      creates its own connector, so one lookup can raise while another, run
      on the same tables, succeeds; `fails` says which happens. */
  function Open(db: Database, fails: bool): Conn {
    if fails then Down else Up(db)
  }

  /** `COUNT(DISTINCT j.category)` for one artist with `j.category IS NOT
      NULL`: the distinct non-null categories of the artist's jobs. */
  function Categories(jobs: seq<Job>, idArtist: string): set<string> {
    set j | j in jobs && j.idArtist == idArtist && j.category.Some? :: j.category.value
  }

  /** The distinct non-null categories of one artist on one film. */
  function PairCategories(jobs: seq<Job>, idArtist: string, idFilm: string): set<string> {
    set j | j in jobs && j.idArtist == idArtist && j.idFilm == idFilm && j.category.Some? :: j.category.value
  }

  /** A non-empty set of categories comes from some job of the artist. */
  lemma CategoriesWitness(jobs: seq<Job>, idArtist: string)
    requires |Categories(jobs, idArtist)| > 0
    ensures exists j :: j in jobs && j.idArtist == idArtist && j.category.Some?
  {
    var c :| c in Categories(jobs, idArtist);
  }

  lemma PairCategoriesWitness(jobs: seq<Job>, idArtist: string, idFilm: string)
    requires |PairCategories(jobs, idArtist, idFilm)| > 0
    ensures exists j :: j in jobs && j.idArtist == idArtist && j.idFilm == idFilm && j.category.Some?
  {
    var c :| c in PairCategories(jobs, idArtist, idFilm);
  }
}

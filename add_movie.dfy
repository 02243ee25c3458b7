/** Adding one movie to the graph, then reading it back and counting the
    movies (scripts/bddr/exercice_add_movie.py). */
module AddMovie {
  import opened Common
  import opened GraphStore

  /** The title of the movie the script adds. */
  const MovieTitle: string := "L'histoire de mon 20 au cours Infrastructure de donnees"

  /** Which of the three statements raise. */
  datatype Faults = Faults(create: bool, verify: bool, stats: bool)

  /** How `add_and_verify_movie` ends; `found` holds `m.title` of each
      movie with the title, `total` the count (absent when that query
      raised). */
  datatype Outcome =
    | CreateFailed
    | VerifyFailed(created: nat)
    | Verified(created: nat, found: seq<Option<string>>, total: Option<nat>)

  function NodeTitle(nodes: seq<Node>): nat -> Option<string> {
    (i: nat) => if i < |nodes| && nodes[i].Movie? then nodes[i].title else None
  }

  /** `MATCH (m:Movie {title: $title}) RETURN m.title AS title`. */
  function MovieRows(nodes: seq<Node>, title: string): seq<Option<string>> {
    Map(MoviesTitled(nodes, title), NodeTitle(nodes))
  }

  /** `add_and_verify_movie()`: create, verify, count; the first two stop
      the script when they raise. */
  method AddAndVerifyMovie(g: Store, faults: Faults) returns (out: Outcome)
    modifies g
    ensures faults.create ==> out == CreateFailed && g.State() == old(g.State())
    ensures !faults.create ==> g.nodes == old(g.nodes) + [Movie(Some(MovieTitle))] && g.edges == old(g.edges)
    ensures !faults.create && faults.verify ==> out == VerifyFailed(|old(g.nodes)|)
    ensures !faults.create && !faults.verify ==>
      out == Verified(|old(g.nodes)|, MovieRows(g.nodes, MovieTitle),
                      if faults.stats then None else Some(MovieCount(g.nodes)))
  {
    var title := MovieTitle;
    if faults.create {
      return CreateFailed;
    }
    var id := g.CreateMovie(title);
    if faults.verify {
      return VerifyFailed(id);
    }
    var found := MovieRows(g.nodes, title);
    var total := if faults.stats then None else Some(MovieCount(g.nodes));
    out := Verified(id, found, total);
  }

  /** Each run adds one movie, even when one with the same title exists:
      the count grows by exactly one. */
  lemma MovieCountGrows(nodes: seq<Node>, title: string)
    ensures MovieCount(nodes + [Movie(Some(title))]) == MovieCount(nodes) + 1
  {
    NodesWhereAppend(nodes, Movie(Some(title)), (n: Node) => n.Movie?);
  }

  /** The verification returns one row per movie with the title, the new
      one last; every row shows that title. */
  lemma NewMovieFound(nodes: seq<Node>, title: string)
    ensures var rows := MovieRows(nodes + [Movie(Some(title))], title);
      && rows == MovieRows(nodes, title) + [Some(title)]
      && forall k :: 0 <= k < |rows| ==> rows[k] == Some(title)
  {
    var after := nodes + [Movie(Some(title))];
    NodesWhereAppend(nodes, Movie(Some(title)), (n: Node) => IsMovieTitled(n, title));
    assert |MoviesTitled(after, title)| == |MoviesTitled(nodes, title)| + 1;
    MovieRowsShowTitle(nodes, title);
    MovieRowsShowTitle(after, title);
    var rows, before := MovieRows(after, title), MovieRows(nodes, title);
    assert rows == before + [Some(title)] by {
      forall k | 0 <= k < |rows| ensures rows[k] == (before + [Some(title)])[k] {
      }
    }
  }

  /** Every row of the verification shows the title looked for. */
  lemma MovieRowsShowTitle(nodes: seq<Node>, title: string)
    ensures var rows := MovieRows(nodes, title);
      forall k :: 0 <= k < |rows| ==> rows[k] == Some(title)
  {
    var ids := MoviesTitled(nodes, title);
    forall k | 0 <= k < |ids| ensures NodeTitle(nodes)(ids[k]) == Some(title) {
      assert ids[k] in ids;
    }
  }

  /** Not idempotent: a second run leaves two movies with the title where
      the first left one. */
  lemma TwoRunsTwoMovies(nodes: seq<Node>, title: string)
    ensures var twice := nodes + [Movie(Some(title))] + [Movie(Some(title))];
      && MovieCount(twice) == MovieCount(nodes) + 2
      && |MovieRows(twice, title)| == |MovieRows(nodes, title)| + 2
  {
    var once := nodes + [Movie(Some(title))];
    MovieCountGrows(nodes, title);
    MovieCountGrows(once, title);
    NewMovieFound(nodes, title);
    NewMovieFound(once, title);
  }
}

/** Merging the directors of a movie into the graph, one by one, then
    listing them, counting all `DIRECTED` links and summarising the movie
    (scripts/bddr/exercice_add_directors.py). */
module AddDirectors {
  import opened Common
  import opened GraphStore

  /** The movie and the directors the script adds. */
  const MovieTitle: string := "L'histoire de mon 20 au cours Infrastructure de donnees"
  const Directors: seq<Director> := [Director("Laurent", "Cabaret"), Director("Philippe", "Carlamar")]

  /** One pass of the loop body: the statement raises and changes nothing,
      or it runs. */
  function Step(g: Graph, d: Director, title: string, raises: bool): Graph {
    if raises then g else Merged(g, d, title)
  }

  /** The graph after the loop over `ds`; `failing` holds the positions of
      the directors whose statement raises. */
  function RunDirectors(g: Graph, ds: seq<Director>, title: string, failing: set<nat>): Graph
    decreases |ds|
  {
    if ds == [] then g
    else
      var k := |ds| - 1;
      Step(RunDirectors(g, ds[..k], title, failing), ds[k], title, k in failing)
  }

  /** What the loop prints for one director: the error, "Pas de résultat",
      or the person's full name. */
  datatype DirectorOutcome = Raised | NoResult | Added(name: string)

  function OutcomeOf(g: Graph, d: Director, title: string, raises: bool): DirectorOutcome {
    if raises then Raised
    else if MoviesTitled(g.nodes, title) == [] then NoResult
    else Added(FullName(d.firstName, d.lastName))
  }

  /** The outcomes of the loop over `ds`, each taken on the graph the
      earlier directors left. */
  function Outcomes(g: Graph, ds: seq<Director>, title: string, failing: set<nat>): (r: seq<DirectorOutcome>)
    ensures |r| == |ds|
    decreases |ds|
  {
    if ds == [] then []
    else
      var k := |ds| - 1;
      Outcomes(g, ds[..k], title, failing) + [OutcomeOf(RunDirectors(g, ds[..k], title, failing), ds[k], title, k in failing)]
  }

  /** `MATCH (p:Person)-[r:DIRECTED]->(m:Movie {title: $movie_title})
      RETURN p.name AS director_name, ...`: one name per relationship. */
  function DirectedRows(g: Graph, title: string): seq<Option<string>> {
    Map(EdgesInto(g.nodes, g.edges, Directed, title), NameOfSource(g.nodes))
  }

  /** `COLLECT(DISTINCT x.name)` over the persons linked by `rel` to a movie
      of the title; `COLLECT` drops NULL names. */
  function NamesInto(g: Graph, rel: RelType, title: string): set<string> {
    set e | e in g.edges && LinksInto(g.nodes, e, rel, title) && SourceName(g.nodes, e).Some?
      :: SourceName(g.nodes, e).value
  }

  /** The summary record: the title, its distinct directors and actors. */
  datatype MovieSummary = MovieSummary(title: string, directors: set<string>, actors: set<string>)

  /** The summary query; the movies of the title form one group, keyed by
      `m.title`, and there is no record when there is no such movie. */
  function Summary(g: Graph, title: string): Option<MovieSummary> {
    if MoviesTitled(g.nodes, title) == [] then None
    else Some(MovieSummary(title, NamesInto(g, Directed, title), NamesInto(g, ActedIn, title)))
  }

  /** Which statements raise: the positions of the failing directors, and
      each of the three queries after the loop. */
  datatype Faults = Faults(merge: set<nat>, verify: bool, stats: bool, summary: bool)

  datatype SummaryOutcome = SummaryRaised | NoMovie | Shown(summary: MovieSummary)

  /** What the script prints after the loop; none of these queries stops
      the ones after it. */
  datatype Report = Report(
    added: seq<DirectorOutcome>, verified: Option<seq<Option<string>>>, total: Option<nat>, summary: SummaryOutcome)

  /** A director statement returns a row iff a movie of the title exists:
      after the `MERGE` at least one person matches, and it directs every
      such movie. */
  lemma MergedRecords(g: Graph, d: Director, title: string)
    ensures MergedRows(g, d, title) > 0 <==> MoviesTitled(g.nodes, title) != []
  {
    MergeSettles(g, d, title);
    MergedKeepsTitles(g, d, title, title);
    var after := Merged(g, d, title);
    var persons := PersonsNamed(after.nodes, d.firstName, d.lastName);
    var movies := MoviesTitled(after.nodes, title);
    var keep := (e: Edge) => e.rel == Directed && e.src in persons && e.dst in movies;
    var rows := Filter(after.edges, keep);
    assert MergedRows(g, d, title) == |rows|;
    if movies != [] {
      var e := Edge(Directed, persons[0], movies[0]);
      assert persons[0] in persons && movies[0] in movies;
      assert e in after.edges;
      assert multiset(rows)[e] == multiset(after.edges)[e];
    }
    if rows != [] {
      assert rows[0] in rows;
    }
  }

  /** The loop over the directors: an error on one is printed and the loop
      goes on with the next. */
  method MergeDirectors(g: Store, directors: seq<Director>, title: string, failing: set<nat>)
    returns (added: seq<DirectorOutcome>)
    modifies g
    ensures g.State() == RunDirectors(old(g.State()), directors, title, failing)
    ensures added == Outcomes(old(g.State()), directors, title, failing)
  {
    ghost var start := g.State();
    added := [];
    for i := 0 to |directors|
      invariant g.State() == RunDirectors(start, directors[..i], title, failing)
      invariant added == Outcomes(start, directors[..i], title, failing)
    {
      var d := directors[i];
      assert directors[..i + 1][..i] == directors[..i];
      ghost var before := g.State();
      if i in failing {
        added := added + [Raised];
      } else {
        var records := g.MergeDirector(d.firstName, d.lastName, title);
        MergedRecords(before, d, title);
        added := added + [if records > 0 then Added(FullName(d.firstName, d.lastName)) else NoResult];
      }
      assert g.State() == Step(before, d, title, i in failing);
    }
    assert directors[..|directors|] == directors;
  }

  /** `add_and_verify_directors()`. */
  method AddAndVerifyDirectors(g: Store, faults: Faults) returns (report: Report)
    modifies g
    ensures g.State() == RunDirectors(old(g.State()), Directors, MovieTitle, faults.merge)
    ensures report.added == Outcomes(old(g.State()), Directors, MovieTitle, faults.merge)
    ensures report.verified == if faults.verify then None else Some(DirectedRows(g.State(), MovieTitle))
    ensures report.total == if faults.stats then None else Some(RelCount(g.nodes, g.edges, Directed))
    ensures report.summary ==
      if faults.summary then SummaryRaised
      else if Summary(g.State(), MovieTitle).None? then NoMovie
      else Shown(Summary(g.State(), MovieTitle).value)
  {
    var title := MovieTitle;
    var added := MergeDirectors(g, Directors, title, faults.merge);
    var verified := if faults.verify then None else Some(DirectedRows(g.State(), title));
    var total := if faults.stats then None else Some(RelCount(g.nodes, g.edges, Directed));
    var summary := Summary(g.State(), title);
    var shown := if faults.summary then SummaryRaised else if summary.None? then NoMovie else Shown(summary.value);
    report := Report(added, verified, total, shown);
  }

  // ---------------------------------------------------------------------
  // What a director statement leaves behind
  // ---------------------------------------------------------------------

  /** A person with the director's names exists, every such person carries
      the full name, and each is linked by `DIRECTED` to every movie of the
      title. */
  predicate Settled(g: Graph, d: Director, title: string) {
    var ps := PersonsNamed(g.nodes, d.firstName, d.lastName);
    && ps != []
    && (forall i :: i in ps ==> g.nodes[i].name == Some(FullName(d.firstName, d.lastName)))
    && (forall p, m :: p in ps && m in MoviesTitled(g.nodes, title) ==> Edge(Directed, p, m) in g.edges)
  }

  /** `SET` keeps every node's label, first and last name, and title. */
  lemma WithNameKeepsPatterns(nodes: seq<Node>, d: Director, i: int, first: string, last: string, title: string)
    requires 0 <= i < |nodes|
    ensures IsPersonNamed(WithName(nodes, d)[i], first, last) == IsPersonNamed(nodes[i], first, last)
    ensures IsMovieTitled(WithName(nodes, d)[i], title) == IsMovieTitled(nodes[i], title)
    ensures WithName(nodes, d)[i].Person? == nodes[i].Person?
  {
  }

  /** The persons matching the director after the statement: at least one,
      each carrying the full name. */
  lemma MergedPersons(g: Graph, d: Director, title: string)
    ensures var after := Merged(g, d, title).nodes;
      var ps := PersonsNamed(after, d.firstName, d.lastName);
      && ps != []
      && forall i :: i in ps ==> after[i].name == Some(FullName(d.firstName, d.lastName))
  {
    var f, l := d.firstName, d.lastName;
    var nodes1 := if PersonsNamed(g.nodes, f, l) == [] then g.nodes + [MergedPerson(d)] else g.nodes;
    var after := Merged(g, d, title).nodes;
    assert after == WithName(nodes1, d);
    var someone: nat := if PersonsNamed(g.nodes, f, l) == [] then |g.nodes| else PersonsNamed(g.nodes, f, l)[0];
    assert IsPersonNamed(nodes1[someone], f, l) by {
      if PersonsNamed(g.nodes, f, l) != [] {
        assert someone in PersonsNamed(g.nodes, f, l);
      }
    }
    WithNameKeepsPatterns(nodes1, d, someone, f, l, title);
    assert someone in PersonsNamed(after, f, l);
    forall i | i in PersonsNamed(after, f, l) ensures after[i].name == Some(FullName(f, l)) {
      WithNameKeepsPatterns(nodes1, d, i, f, l, title);
    }
  }

  /** After the statement every matching person is linked to every movie of
      the title. */
  lemma MergedLinks(g: Graph, d: Director, title: string)
    ensures var after := Merged(g, d, title);
      forall p, m :: p in PersonsNamed(after.nodes, d.firstName, d.lastName) && m in MoviesTitled(after.nodes, title)
        ==> Edge(Directed, p, m) in after.edges
  {
    var after := Merged(g, d, title);
    var ps := PersonsNamed(after.nodes, d.firstName, d.lastName);
    var ms := MoviesTitled(after.nodes, title);
    assert after.edges == MergeEdges(g.edges, Cross(ps, ms, Directed));
    forall p, m | p in ps && m in ms ensures Edge(Directed, p, m) in after.edges {
      assert Edge(Directed, p, m) in Cross(ps, ms, Directed);
    }
  }

  /** After the statement the director is settled. */
  lemma MergeSettles(g: Graph, d: Director, title: string)
    ensures Settled(Merged(g, d, title), d, title)
  {
    MergedPersons(g, d, title);
    MergedLinks(g, d, title);
  }

  /** On a settled graph the statement changes nothing. */
  lemma MergeOnSettled(g: Graph, d: Director, title: string)
    requires Settled(g, d, title)
    ensures Merged(g, d, title) == g
  {
    var f, l := d.firstName, d.lastName;
    var renamed := WithName(g.nodes, d);
    forall i | 0 <= i < |g.nodes| ensures renamed[i] == g.nodes[i] {
      if IsPersonNamed(g.nodes[i], f, l) {
        assert i in PersonsNamed(g.nodes, f, l);
      }
    }
    assert renamed == g.nodes;
    var wanted := Cross(PersonsNamed(g.nodes, f, l), MoviesTitled(g.nodes, title), Directed);
    MergeEdgesPresent(g.edges, wanted);
  }

  /** The statement for another director matches the same persons and
      movies as before for this director, leaves those persons as they were
      and only adds relationships. */
  lemma OtherMergeKeepsMatches(g: Graph, d: Director, other: Director, title: string)
    requires other != d
    ensures var after := Merged(g, other, title);
      && (forall i :: i in PersonsNamed(after.nodes, d.firstName, d.lastName) <==> i in PersonsNamed(g.nodes, d.firstName, d.lastName))
      && (forall i :: i in PersonsNamed(g.nodes, d.firstName, d.lastName) ==> after.nodes[i] == g.nodes[i])
      && (forall m :: m in MoviesTitled(after.nodes, title) <==> m in MoviesTitled(g.nodes, title))
      && (forall e :: e in g.edges ==> e in after.edges)
  {
    var f, l := d.firstName, d.lastName;
    var after := Merged(g, other, title);
    forall i | 0 <= i < |after.nodes|
      ensures IsPersonNamed(after.nodes[i], f, l) <==> i < |g.nodes| && IsPersonNamed(g.nodes[i], f, l)
      ensures IsPersonNamed(after.nodes[i], f, l) ==> after.nodes[i] == g.nodes[i]
      ensures IsMovieTitled(after.nodes[i], title) <==> i < |g.nodes| && IsMovieTitled(g.nodes[i], title)
    {
      OtherMergeKeepsNode(g, d, other, title, i);
    }
    assert |g.nodes| <= |after.nodes|;
  }

  /** Node by node: the statement for another director keeps this
      director's persons, and every movie, where they were. */
  lemma OtherMergeKeepsNode(g: Graph, d: Director, other: Director, title: string, i: nat)
    requires other != d && i < |Merged(g, other, title).nodes|
    ensures var after := Merged(g, other, title).nodes;
      && |g.nodes| <= |after|
      && (IsPersonNamed(after[i], d.firstName, d.lastName) <==> i < |g.nodes| && IsPersonNamed(g.nodes[i], d.firstName, d.lastName))
      && (IsPersonNamed(after[i], d.firstName, d.lastName) ==> after[i] == g.nodes[i])
      && (IsMovieTitled(after[i], title) <==> i < |g.nodes| && IsMovieTitled(g.nodes[i], title))
  {
    var nodes1 := if PersonsNamed(g.nodes, other.firstName, other.lastName) == [] then g.nodes + [MergedPerson(other)] else g.nodes;
    assert Merged(g, other, title).nodes == WithName(nodes1, other);
    assert i < |g.nodes| ==> nodes1[i] == g.nodes[i];
    WithNameKeepsPatterns(nodes1, other, i, d.firstName, d.lastName, title);
  }

  /** The statement for another director leaves a settled director settled:
      it renames only its own persons and only adds relationships. */
  lemma MergeKeepsSettled(g: Graph, d: Director, other: Director, title: string)
    requires Settled(g, d, title)
    ensures Settled(Merged(g, other, title), d, title)
  {
    if other == d {
      MergeSettles(g, d, title);
    } else {
      var f, l := d.firstName, d.lastName;
      var after := Merged(g, other, title);
      OtherMergeKeepsMatches(g, d, other, title);
      var ps := PersonsNamed(g.nodes, f, l);
      assert ps[0] in ps;
      assert ps[0] in PersonsNamed(after.nodes, f, l);
    }
  }

  /** After the loop every director whose statement did not raise is
      settled, whatever the others did. */
  lemma {:induction false} RunSettles(g: Graph, ds: seq<Director>, title: string, failing: set<nat>)
    ensures forall k :: 0 <= k < |ds| && k !in failing ==> Settled(RunDirectors(g, ds, title, failing), ds[k], title)
    decreases |ds|
  {
    if ds != [] {
      var last := |ds| - 1;
      var prev := RunDirectors(g, ds[..last], title, failing);
      RunSettles(g, ds[..last], title, failing);
      assert RunDirectors(g, ds, title, failing) == Step(prev, ds[last], title, last in failing);
      forall k | 0 <= k < |ds| && k !in failing ensures Settled(Step(prev, ds[last], title, last in failing), ds[k], title) {
        if k == last {
          MergeSettles(prev, ds[k], title);
        } else {
          assert ds[..last][k] == ds[k];
          assert Settled(prev, ds[k], title);
          if last !in failing {
            MergeKeepsSettled(prev, ds[k], ds[last], title);
          }
        }
      }
    }
  }

  /** On a graph where every director is settled the loop changes nothing,
      whichever statements raise. */
  lemma {:induction false} RunOnSettled(g: Graph, ds: seq<Director>, title: string, failing: set<nat>)
    requires forall k :: 0 <= k < |ds| ==> Settled(g, ds[k], title)
    ensures RunDirectors(g, ds, title, failing) == g
    decreases |ds|
  {
    if ds != [] {
      var last := |ds| - 1;
      RunOnSettled(g, ds[..last], title, failing);
      if last !in failing {
        MergeOnSettled(g, ds[last], title);
      }
    }
  }

  /** A second run after a run where nothing raised leaves the graph, and
      so the node and `DIRECTED` counts, as they were. */
  lemma DirectorsIdempotent(g: Graph, ds: seq<Director>, title: string, failing: set<nat>)
    ensures var once := RunDirectors(g, ds, title, {});
      var twice := RunDirectors(once, ds, title, failing);
      && twice == once
      && |twice.nodes| == |once.nodes|
      && RelCount(twice.nodes, twice.edges, Directed) == RelCount(once.nodes, once.edges, Directed)
  {
    var once := RunDirectors(g, ds, title, {});
    RunSettles(g, ds, title, {});
    RunOnSettled(once, ds, title, failing);
  }

  /** The loop neither adds nor removes a movie of the title. */
  lemma {:induction false} RunKeepsTitles(g: Graph, ds: seq<Director>, title: string, failing: set<nat>)
    ensures MoviesTitled(RunDirectors(g, ds, title, failing).nodes, title) == [] <==> MoviesTitled(g.nodes, title) == []
    decreases |ds|
  {
    if ds != [] {
      var last := |ds| - 1;
      RunKeepsTitles(g, ds[..last], title, failing);
      MergedKeepsTitles(RunDirectors(g, ds[..last], title, failing), ds[last], title, title);
    }
  }

  /** Without the movie the persons are still merged but no relationship
      is added. */
  lemma {:induction false} MovieAbsentNoLinks(g: Graph, ds: seq<Director>, title: string, failing: set<nat>)
    requires MoviesTitled(g.nodes, title) == []
    ensures RunDirectors(g, ds, title, failing).edges == g.edges
    ensures forall k :: 0 <= k < |ds| && k !in failing ==>
      PersonsNamed(RunDirectors(g, ds, title, failing).nodes, ds[k].firstName, ds[k].lastName) != []
    decreases |ds|
  {
    RunSettles(g, ds, title, failing);
    if ds != [] {
      var last := |ds| - 1;
      var prev := RunDirectors(g, ds[..last], title, failing);
      MovieAbsentNoLinks(g, ds[..last], title, failing);
      RunKeepsTitles(g, ds[..last], title, failing);
      if last !in failing {
        var d := ds[last];
        MergedKeepsTitles(prev, d, title, title);
        assert MoviesTitled(Merged(prev, d, title).nodes, title) == [];
        MergeEdgesPresent(prev.edges, []);
      }
    }
  }

  /** A settled director of a movie that exists shows up in the
      verification rows and in the summary's directors. */
  lemma SettledIsListed(g: Graph, d: Director, title: string)
    requires Settled(g, d, title) && MoviesTitled(g.nodes, title) != []
    ensures Some(FullName(d.firstName, d.lastName)) in DirectedRows(g, title)
    ensures Summary(g, title).Some? && FullName(d.firstName, d.lastName) in Summary(g, title).value.directors
  {
    var p := PersonsNamed(g.nodes, d.firstName, d.lastName)[0];
    var m := MoviesTitled(g.nodes, title)[0];
    assert p in PersonsNamed(g.nodes, d.firstName, d.lastName);
    assert m in MoviesTitled(g.nodes, title);
    var e := Edge(Directed, p, m);
    assert e in g.edges;
    assert LinksInto(g.nodes, e, Directed, title);
    var rows := EdgesInto(g.nodes, g.edges, Directed, title);
    assert multiset(rows)[e] > 0;
    var k :| 0 <= k < |rows| && rows[k] == e;
    assert DirectedRows(g, title)[k] == SourceName(g.nodes, e);
  }

  /** When the movie exists and no statement raised, every director appears
      in the verification rows and in the summary, and the summary exists. */
  lemma DirectorsListed(g: Graph, ds: seq<Director>, title: string)
    requires MoviesTitled(g.nodes, title) != []
    ensures var after := RunDirectors(g, ds, title, {});
      && Summary(after, title).Some?
      && forall d :: d in ds ==>
           && Some(FullName(d.firstName, d.lastName)) in DirectedRows(after, title)
           && FullName(d.firstName, d.lastName) in Summary(after, title).value.directors
  {
    var after := RunDirectors(g, ds, title, {});
    RunSettles(g, ds, title, {});
    RunKeepsTitles(g, ds, title, {});
    forall d | d in ds
      ensures Some(FullName(d.firstName, d.lastName)) in DirectedRows(after, title)
      ensures FullName(d.firstName, d.lastName) in Summary(after, title).value.directors
    {
      var k :| 0 <= k < |ds| && ds[k] == d;
      SettledIsListed(after, d, title);
    }
  }

  /** The summary is missing exactly when no movie has the title, and its
      lists hold exactly the non-null names linked to such a movie. */
  lemma SummarySpec(g: Graph, title: string, n: string)
    ensures Summary(g, title).None? <==> forall i :: 0 <= i < |g.nodes| ==> !IsMovieTitled(g.nodes[i], title)
    ensures Summary(g, title).Some? ==>
      (n in Summary(g, title).value.directors <==>
         exists e :: e in g.edges && LinksInto(g.nodes, e, Directed, title) && g.nodes[e.src].name == Some(n))
  {
    if MoviesTitled(g.nodes, title) != [] {
      assert MoviesTitled(g.nodes, title)[0] in MoviesTitled(g.nodes, title);
    }
  }
}

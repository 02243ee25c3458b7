/** Linking a person to a movie with `ACTED_IN`, then reading the link back,
    counting all such links and listing the movie's actors
    (scripts/bddr/exercice_add_acted_in_relation.py). */
module AddActedIn {
  import opened Common
  import opened GraphStore

  /** The person and the movie the script links. */
  const FirstName: string := "Joachim"
  const LastName: string := "Bisch Peuchet"
  const MovieTitle: string := "L'histoire de mon 20 au cours Infrastructure de donnees"

  /** `RETURN p.name AS person_name, type(r) AS relation_type, m.title AS movie_title`. */
  datatype LinkRow = LinkRow(personName: Option<string>, relationType: string, movieTitle: Option<string>)

  /** Which of the four statements raise. */
  datatype Faults = Faults(create: bool, verify: bool, stats: bool, actors: bool)

  /** How `add_and_verify_acted_in_relation` ends. `created` is the number
      of rows the creation returned ("Pas de résultat" when 0); the count
      and the actor listing are absent when their query raised. */
  datatype Outcome =
    | CreateFailed
    | VerifyFailed(created: nat)
    | Verified(created: nat, found: seq<LinkRow>, total: Option<nat>, actors: Option<seq<Option<string>>>)

  function RowOf(nodes: seq<Node>): Edge -> LinkRow {
    (e: Edge) => LinkRow(SourceName(nodes, e), "ACTED_IN",
                         if e.dst < |nodes| && nodes[e.dst].Movie? then nodes[e.dst].title else None)
  }

  /** `MATCH (p:Person {firstName, lastName})-[r:ACTED_IN]->(m:Movie {title})`. */
  predicate NamedLink(nodes: seq<Node>, e: Edge, first: string, last: string, title: string) {
    LinksInto(nodes, e, ActedIn, title) && IsPersonNamed(nodes[e.src], first, last)
  }

  /** The verification rows, one per matching relationship. */
  function LinkRows(nodes: seq<Node>, edges: seq<Edge>, first: string, last: string, title: string): seq<LinkRow> {
    Map(Filter(edges, (e: Edge) => NamedLink(nodes, e, first, last, title)), RowOf(nodes))
  }

  /** `MATCH (p:Person)-[r:ACTED_IN]->(m:Movie {title: $movie_title})
      RETURN p.name AS actor_name`: one name per relationship. */
  function ActorNames(nodes: seq<Node>, edges: seq<Edge>, title: string): seq<Option<string>> {
    Map(EdgesInto(nodes, edges, ActedIn, title), NameOfSource(nodes))
  }

  /** `add_and_verify_acted_in_relation()`: create, verify, count, list; the
      first two stop the script when they raise, the last two do not. */
  method AddAndVerifyActedIn(g: Store, faults: Faults) returns (out: Outcome)
    modifies g
    ensures faults.create ==> out == CreateFailed && g.State() == old(g.State())
    ensures !faults.create ==>
      g.nodes == old(g.nodes) && g.edges == old(g.edges) + ActedInEdges(old(g.nodes), FirstName, LastName, MovieTitle)
    ensures var created := |PersonsNamed(old(g.nodes), FirstName, LastName)| * |MoviesTitled(old(g.nodes), MovieTitle)|;
      && (!faults.create && faults.verify ==> out == VerifyFailed(created))
      && (!faults.create && !faults.verify ==>
            out == Verified(created, LinkRows(g.nodes, g.edges, FirstName, LastName, MovieTitle),
                            if faults.stats then None else Some(RelCount(g.nodes, g.edges, ActedIn)),
                            if faults.actors then None else Some(ActorNames(g.nodes, g.edges, MovieTitle))))
  {
    var first, last, title := FirstName, LastName, MovieTitle;
    if faults.create {
      return CreateFailed;
    }
    var created := g.CreateActedIn(first, last, title);
    if faults.verify {
      return VerifyFailed(created);
    }
    var found := LinkRows(g.nodes, g.edges, first, last, title);
    var total := if faults.stats then None else Some(RelCount(g.nodes, g.edges, ActedIn));
    var actors := if faults.actors then None else Some(ActorNames(g.nodes, g.edges, title));
    out := Verified(created, found, total, actors);
  }

  /** One relationship per (matching person, matching movie) pair, so none
      when either is missing ("Pas de résultat"). */
  lemma CreatedPerPair(nodes: seq<Node>, first: string, last: string, title: string)
    ensures |ActedInEdges(nodes, first, last, title)| == |PersonsNamed(nodes, first, last)| * |MoviesTitled(nodes, title)|
    ensures ActedInEdges(nodes, first, last, title) == [] <==>
      PersonsNamed(nodes, first, last) == [] || MoviesTitled(nodes, title) == []
  {
    var ps, ms := |PersonsNamed(nodes, first, last)|, |MoviesTitled(nodes, title)|;
    assert ps * ms == 0 <==> ps == 0 || ms == 0 by {
      if ps > 0 && ms > 0 {
        assert ps * ms >= ms;
      }
    }
  }

  /** The `ACTED_IN` count rises by exactly the number of pairs created. */
  lemma ActedInCountRises(nodes: seq<Node>, edges: seq<Edge>, first: string, last: string, title: string)
    ensures RelCount(nodes, edges + ActedInEdges(nodes, first, last, title), ActedIn)
         == RelCount(nodes, edges, ActedIn) + |PersonsNamed(nodes, first, last)| * |MoviesTitled(nodes, title)|
  {
    var created := ActedInEdges(nodes, first, last, title);
    var links := (e: Edge) => Links(nodes, e, ActedIn);
    CrossLinksInto(nodes, first, last, title, ActedIn);
    FilterAppend(edges, created, links);
    FilterAll(created, links);
  }

  /** The verification finds the rows it found before plus one per new
      relationship, each naming the matched person. */
  lemma LinkRowsGrow(nodes: seq<Node>, edges: seq<Edge>, first: string, last: string, title: string)
    ensures var created := ActedInEdges(nodes, first, last, title);
      LinkRows(nodes, edges + created, first, last, title)
        == LinkRows(nodes, edges, first, last, title) + Map(created, RowOf(nodes))
  {
    var created := ActedInEdges(nodes, first, last, title);
    var named := (e: Edge) => NamedLink(nodes, e, first, last, title);
    CrossLinksInto(nodes, first, last, title, ActedIn);
    FilterAppend(edges, created, named);
    FilterAll(created, named);
    MapAppend(Filter(edges, named), created, RowOf(nodes));
  }

  /** The actor listing gets one more name per new relationship: a person
      linked twice is listed twice. */
  lemma ActorNamesGrow(nodes: seq<Node>, edges: seq<Edge>, first: string, last: string, title: string)
    ensures var created := ActedInEdges(nodes, first, last, title);
      ActorNames(nodes, edges + created, title) == ActorNames(nodes, edges, title) + Map(created, NameOfSource(nodes))
  {
    var created := ActedInEdges(nodes, first, last, title);
    var into := (e: Edge) => LinksInto(nodes, e, ActedIn, title);
    CrossLinksInto(nodes, first, last, title, ActedIn);
    FilterAppend(edges, created, into);
    FilterAll(created, into);
    MapAppend(Filter(edges, into), created, NameOfSource(nodes));
  }

  /** Not idempotent: a second run adds every pair again, so the count and
      the actor listing both grow by twice the number of pairs. */
  lemma TwoRunsTwiceTheLinks(nodes: seq<Node>, edges: seq<Edge>, first: string, last: string, title: string)
    ensures var created := ActedInEdges(nodes, first, last, title);
      var twice := edges + created + created;
      && RelCount(nodes, twice, ActedIn) == RelCount(nodes, edges, ActedIn) + 2 * |created|
      && |ActorNames(nodes, twice, title)| == |ActorNames(nodes, edges, title)| + 2 * |created|
  {
    var created := ActedInEdges(nodes, first, last, title);
    var once := edges + created;
    ActedInCountRises(nodes, edges, first, last, title);
    ActedInCountRises(nodes, once, first, last, title);
    assert RelCount(nodes, once + created, ActedIn) == RelCount(nodes, edges, ActedIn) + 2 * |created|;
    ActorNamesGrow(nodes, edges, first, last, title);
    ActorNamesGrow(nodes, once, first, last, title);
    assert |ActorNames(nodes, once, title)| == |ActorNames(nodes, edges, title)| + |created|;
  }
}

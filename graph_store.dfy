/** The Neo4j graph that the four graph scripts change and read
    (scripts/bddr/exercice_add_person.py, exercice_add_movie.py,
    exercice_add_acted_in_relation.py, exercice_add_directors.py): nodes and
    typed relationships, the Cypher patterns the scripts match, and the
    statements that change the graph. */
module GraphStore {
  import opened Common

  /** A node with its label and properties. A property the node does not
      carry is `None` (a `Person` merged by its first and last name has no
      `name` until it is set). */
  datatype Node =
    | Person(name: Option<string>, firstName: Option<string>, lastName: Option<string>)
    | Movie(title: Option<string>)

  datatype RelType = ActedIn | Directed | OtherRel(relName: string)

  /** A relationship `(src)-[:rel]->(dst)`; nodes are known by their
      position in the store, which plays the part of the Neo4j identity. */
  datatype Edge = Edge(rel: RelType, src: nat, dst: nat)

  /** The whole graph as a value. */
  datatype Graph = Graph(nodes: seq<Node>, edges: seq<Edge>)

  /** Every relationship joins two nodes of the graph. */
  predicate WellFormed(g: Graph) {
    forall e :: e in g.edges ==> e.src < |g.nodes| && e.dst < |g.nodes|
  }

  /** `$first_name + ' ' + $last_name`. */
  function FullName(first: string, last: string): string {
    first + " " + last
  }

  /** `(p:Person {firstName: $first_name, lastName: $last_name})`. */
  predicate IsPersonNamed(n: Node, first: string, last: string) {
    n.Person? && n.firstName == Some(first) && n.lastName == Some(last)
  }

  /** `(m:Movie {title: $title})`. */
  predicate IsMovieTitled(n: Node, title: string) {
    n.Movie? && n.title == Some(title)
  }

  /** The positions of the nodes a node pattern matches, in store order. */
  function NodesWhere(nodes: seq<Node>, keep: Node -> bool): (ids: seq<nat>)
    ensures forall i :: i in ids <==> 0 <= i < |nodes| && keep(nodes[i])
    ensures forall a, b :: 0 <= a < b < |ids| ==> ids[a] < ids[b]
    decreases |nodes|
  {
    if nodes == [] then []
    else
      var last := |nodes| - 1;
      var init := nodes[..last];
      var front := NodesWhere(init, keep);
      assert forall i :: 0 <= i < last ==> init[i] == nodes[i];
      forall k | 0 <= k < |front| ensures front[k] < last {
        assert front[k] in front;
      }
      front + (if keep(nodes[last]) then [last] else [])
  }

  /** A node added at the end is matched after all the others, or not at all. */
  lemma NodesWhereAppend(nodes: seq<Node>, n: Node, keep: Node -> bool)
    ensures NodesWhere(nodes + [n], keep) == NodesWhere(nodes, keep) + (if keep(n) then [|nodes|] else [])
  {
    assert (nodes + [n])[..|nodes|] == nodes;
  }

  function PersonsNamed(nodes: seq<Node>, first: string, last: string): (ids: seq<nat>)
    ensures forall i :: i in ids <==> 0 <= i < |nodes| && IsPersonNamed(nodes[i], first, last)
  {
    NodesWhere(nodes, (n: Node) => IsPersonNamed(n, first, last))
  }

  function MoviesTitled(nodes: seq<Node>, title: string): (ids: seq<nat>)
    ensures forall i :: i in ids <==> 0 <= i < |nodes| && IsMovieTitled(nodes[i], title)
  {
    NodesWhere(nodes, (n: Node) => IsMovieTitled(n, title))
  }

  /** `MATCH (p:Person) RETURN COUNT(p)`. */
  function PersonCount(nodes: seq<Node>): nat {
    |NodesWhere(nodes, (n: Node) => n.Person?)|
  }

  /** `MATCH (m:Movie) RETURN COUNT(m)`. */
  function MovieCount(nodes: seq<Node>): nat {
    |NodesWhere(nodes, (n: Node) => n.Movie?)|
  }

  /** The relationship matches `(:Person)-[:rel]->(:Movie)`. */
  predicate Links(nodes: seq<Node>, e: Edge, rel: RelType) {
    e.rel == rel && e.src < |nodes| && e.dst < |nodes| && nodes[e.src].Person? && nodes[e.dst].Movie?
  }

  /** The relationship matches `(:Person)-[:rel]->(:Movie {title: $title})`. */
  predicate LinksInto(nodes: seq<Node>, e: Edge, rel: RelType, title: string) {
    Links(nodes, e, rel) && nodes[e.dst].title == Some(title)
  }

  /** `MATCH (p:Person)-[r:rel]->(m:Movie) RETURN COUNT(r)`. */
  function RelCount(nodes: seq<Node>, edges: seq<Edge>, rel: RelType): nat {
    |Filter(edges, (e: Edge) => Links(nodes, e, rel))|
  }

  /** The rows of `MATCH (p:Person)-[r:rel]->(m:Movie {title: $title})`,
      one per relationship. */
  function EdgesInto(nodes: seq<Node>, edges: seq<Edge>, rel: RelType, title: string): seq<Edge> {
    Filter(edges, (e: Edge) => LinksInto(nodes, e, rel, title))
  }

  /** `p.name` of the relationship's start node (NULL when it has none). */
  function SourceName(nodes: seq<Node>, e: Edge): Option<string> {
    if e.src < |nodes| && nodes[e.src].Person? then nodes[e.src].name else None
  }

  /** A node added to a well-formed graph has no relationships yet, so no
      relationship pattern sees it. */
  lemma AppendedNodeUnseen(g: Graph, n: Node, rel: RelType, title: string)
    requires WellFormed(g)
    ensures RelCount(g.nodes + [n], g.edges, rel) == RelCount(g.nodes, g.edges, rel)
    ensures EdgesInto(g.nodes + [n], g.edges, rel, title) == EdgesInto(g.nodes, g.edges, rel, title)
  {
    var after := g.nodes + [n];
    assert forall i :: 0 <= i < |g.nodes| ==> after[i] == g.nodes[i];
    FilterAgree(g.edges, (e: Edge) => Links(after, e, rel), (e: Edge) => Links(g.nodes, e, rel));
    FilterAgree(g.edges, (e: Edge) => LinksInto(after, e, rel, title), (e: Edge) => LinksInto(g.nodes, e, rel, title));
  }

  /** `p.name` for each row of a relationship pattern. */
  function NameOfSource(nodes: seq<Node>): Edge -> Option<string> {
    (e: Edge) => SourceName(nodes, e)
  }

  /** The relationships `(p)-[:rel]->(m)` for every `p` of `ps` and every
      `m` of `ms`: one per row of `MATCH (p ...) MATCH (m ...)`. */
  function Cross(ps: seq<nat>, ms: seq<nat>, rel: RelType): (es: seq<Edge>)
    ensures |es| == |ps| * |ms|
    ensures forall e :: e in es <==> e.rel == rel && e.src in ps && e.dst in ms
  {
    if ps == [] then []
    else
      var fan := Map(ms, (m: nat) => Edge(rel, ps[0], m));
      assert forall e :: e in fan <==> e.rel == rel && e.src == ps[0] && e.dst in ms by {
        forall e | e in fan ensures e.rel == rel && e.src == ps[0] && e.dst in ms {
          var k :| 0 <= k < |fan| && fan[k] == e;
          assert ms[k] in ms;
        }
        forall e: Edge | e.rel == rel && e.src == ps[0] && e.dst in ms ensures e in fan {
          var k :| 0 <= k < |ms| && ms[k] == e.dst;
          assert fan[k] == e;
        }
      }
      assert |ps| * |ms| == |ms| + |ps[1..]| * |ms|;
      assert forall p :: p in ps <==> p == ps[0] || p in ps[1..];
      fan + Cross(ps[1..], ms, rel)
  }

  /** Every relationship of `Cross` over matched persons and movies is a
      `(:Person)-[:rel]->(:Movie)` relationship into a movie of that title. */
  lemma CrossLinksInto(nodes: seq<Node>, first: string, last: string, title: string, rel: RelType)
    ensures forall e :: e in Cross(PersonsNamed(nodes, first, last), MoviesTitled(nodes, title), rel) ==>
      LinksInto(nodes, e, rel, title) && IsPersonNamed(nodes[e.src], first, last)
  {
  }

  /** `CREATE (p:Person {name: ..., firstName: ..., lastName: ...})`. */
  function NewPerson(first: string, last: string): Node {
    Person(Some(FullName(first, last)), Some(first), Some(last))
  }

  /** The relationships `MATCH (p:Person {...}) MATCH (m:Movie {...})
      CREATE (p)-[r:ACTED_IN]->(m)` adds. */
  function ActedInEdges(nodes: seq<Node>, first: string, last: string, title: string): seq<Edge> {
    Cross(PersonsNamed(nodes, first, last), MoviesTitled(nodes, title), ActedIn)
  }

  /** One director of the list `directors`. */
  datatype Director = Director(firstName: string, lastName: string)

  /** `SET p.name = $first_name + ' ' + $last_name` on every person the
      `MERGE` matched. */
  function WithName(nodes: seq<Node>, d: Director): (r: seq<Node>)
    ensures |r| == |nodes|
    ensures forall i :: 0 <= i < |nodes| ==>
      r[i] == if IsPersonNamed(nodes[i], d.firstName, d.lastName)
              then nodes[i].(name := Some(FullName(d.firstName, d.lastName))) else nodes[i]
  {
    seq(|nodes|, i requires 0 <= i < |nodes| =>
      if IsPersonNamed(nodes[i], d.firstName, d.lastName)
      then nodes[i].(name := Some(FullName(d.firstName, d.lastName))) else nodes[i])
  }

  /** `MERGE (p)-[r:DIRECTED]->(m)`, row by row: each relationship is added
      unless the very same one is already there. */
  function MergeEdges(edges: seq<Edge>, wanted: seq<Edge>): (r: seq<Edge>)
    ensures |edges| <= |r| && r[..|edges|] == edges
    ensures forall e :: e in r <==> e in edges || e in wanted
    decreases |wanted|
  {
    if wanted == [] then edges
    else
      assert forall e :: e in wanted <==> e == wanted[0] || e in wanted[1..];
      if wanted[0] in edges then MergeEdges(edges, wanted[1..])
      else
        var r := MergeEdges(edges + [wanted[0]], wanted[1..]);
        assert r[..|edges|] == r[..|edges| + 1][..|edges|];
        r
  }

  /** Merging relationships that are all present changes nothing. */
  lemma {:induction false} MergeEdgesPresent(edges: seq<Edge>, wanted: seq<Edge>)
    requires forall e :: e in wanted ==> e in edges
    ensures MergeEdges(edges, wanted) == edges
    decreases |wanted|
  {
    if wanted != [] {
      assert wanted[0] in wanted;
      assert forall e :: e in wanted[1..] ==> e in wanted;
      MergeEdgesPresent(edges, wanted[1..]);
    }
  }

  /** The person the `MERGE` creates when none matches: only the two
      properties of the pattern. */
  function MergedPerson(d: Director): Node {
    Person(None, Some(d.firstName), Some(d.lastName))
  }

  /** The graph after `MERGE (p:Person {firstName, lastName}) SET p.name =
      ... WITH p MATCH (m:Movie {title}) MERGE (p)-[r:DIRECTED]->(m)`. */
  function Merged(g: Graph, d: Director, title: string): Graph {
    var nodes1 := if PersonsNamed(g.nodes, d.firstName, d.lastName) == [] then g.nodes + [MergedPerson(d)] else g.nodes;
    var nodes2 := WithName(nodes1, d);
    var persons := PersonsNamed(nodes2, d.firstName, d.lastName);
    var movies := MoviesTitled(nodes2, title);
    Graph(nodes2, MergeEdges(g.edges, Cross(persons, movies, Directed)))
  }

  /** The rows the director statement returns. `MERGE (p)-[r:DIRECTED]->(m)`
      yields one row per relationship it matches or creates: once it has
      run, one per `DIRECTED` relationship from a matched person to a
      matched movie, so a pair already linked twice gives two rows. */
  function MergedRows(g: Graph, d: Director, title: string): nat {
    var after := Merged(g, d, title);
    var persons := PersonsNamed(after.nodes, d.firstName, d.lastName);
    var movies := MoviesTitled(after.nodes, title);
    |Filter(after.edges, (e: Edge) => e.rel == Directed && e.src in persons && e.dst in movies)|
  }

  /** The graph database. Each method is one Cypher statement that changes
      it; a statement that raises is not run at all (it is rolled back). */
  class Store {
    var nodes: seq<Node>
    var edges: seq<Edge>

    function State(): Graph
      reads this
    {
      Graph(nodes, edges)
    }

    /** `CREATE (p:Person {...}) RETURN p`: one new node, returned. */
    method CreatePerson(first: string, last: string) returns (id: nat)
      modifies this
      ensures nodes == old(nodes) + [NewPerson(first, last)]
      ensures edges == old(edges)
      ensures id == |old(nodes)| && nodes[id] == NewPerson(first, last)
    {
      id := |nodes|;
      nodes := nodes + [NewPerson(first, last)];
    }

    /** `CREATE (m:Movie {title: $title}) RETURN m`. */
    method CreateMovie(title: string) returns (id: nat)
      modifies this
      ensures nodes == old(nodes) + [Movie(Some(title))]
      ensures edges == old(edges)
      ensures id == |old(nodes)| && nodes[id] == Movie(Some(title))
    {
      id := |nodes|;
      nodes := nodes + [Movie(Some(title))];
    }

    /** `MATCH (p:Person {...}) MATCH (m:Movie {...}) CREATE
        (p)-[r:ACTED_IN]->(m) RETURN p, r, m`; `records` is the number of
        rows returned, one per created relationship. */
    method CreateActedIn(first: string, last: string, title: string) returns (records: nat)
      modifies this
      ensures nodes == old(nodes)
      ensures edges == old(edges) + ActedInEdges(old(nodes), first, last, title)
      ensures records == |PersonsNamed(old(nodes), first, last)| * |MoviesTitled(old(nodes), title)|
    {
      var created := ActedInEdges(nodes, first, last, title);
      edges := edges + created;
      records := |created|;
    }

    /** The director statement; `records` is the number of rows returned. */
    method MergeDirector(first: string, last: string, title: string) returns (records: nat)
      modifies this
      ensures State() == Merged(old(State()), Director(first, last), title)
      ensures records == MergedRows(old(State()), Director(first, last), title)
    {
      var d := Director(first, last);
      if PersonsNamed(nodes, first, last) == [] {
        nodes := nodes + [MergedPerson(d)];
      }
      nodes := WithName(nodes, d);
      var persons := PersonsNamed(nodes, first, last);
      var movies := MoviesTitled(nodes, title);
      edges := MergeEdges(edges, Cross(persons, movies, Directed));
      records := |Filter(edges, (e: Edge) => e.rel == Directed && e.src in persons && e.dst in movies)|;
    }
  }

  /** `MERGE` may add a person at the end and `SET` changes persons only:
      every node keeps its label, and every movie stays as it was. */
  lemma MergedKeepsMovies(g: Graph, d: Director, title: string)
    ensures var after := Merged(g, d, title).nodes;
      && |g.nodes| <= |after|
      && (forall i :: 0 <= i < |g.nodes| ==> after[i].Movie? == g.nodes[i].Movie?)
      && (forall i :: 0 <= i < |g.nodes| && g.nodes[i].Movie? ==> after[i] == g.nodes[i])
      && (forall i :: |g.nodes| <= i < |after| ==> after[i].Person?)
  {
    var nodes1 := if PersonsNamed(g.nodes, d.firstName, d.lastName) == [] then g.nodes + [MergedPerson(d)] else g.nodes;
    assert Merged(g, d, title).nodes == WithName(nodes1, d);
    RenamedKeepsMovies(g.nodes, nodes1, d);
  }

  /** `SET` on the nodes, after the `MERGE` may have appended its person,
      keeps every label and every movie. */
  lemma RenamedKeepsMovies(nodes: seq<Node>, nodes1: seq<Node>, d: Director)
    requires nodes1 == nodes || nodes1 == nodes + [MergedPerson(d)]
    ensures var after := WithName(nodes1, d);
      && |nodes| <= |after|
      && (forall i :: 0 <= i < |nodes| ==> after[i].Movie? == nodes[i].Movie?)
      && (forall i :: 0 <= i < |nodes| && nodes[i].Movie? ==> after[i] == nodes[i])
      && (forall i :: |nodes| <= i < |after| ==> after[i].Person?)
  {
    var after := WithName(nodes1, d);
    forall i | 0 <= i < |nodes|
      ensures after[i].Movie? == nodes[i].Movie? && (nodes[i].Movie? ==> after[i] == nodes[i])
    {
      assert nodes1[i] == nodes[i];
    }
  }

  /** A movie with the title exists after the director statement iff one
      existed before. */
  lemma MergedKeepsTitles(g: Graph, d: Director, title: string, t: string)
    ensures MoviesTitled(Merged(g, d, title).nodes, t) == [] <==> MoviesTitled(g.nodes, t) == []
  {
    var after := Merged(g, d, title).nodes;
    if MoviesTitled(g.nodes, t) != [] {
      var m := MoviesTitled(g.nodes, t)[0];
      assert m in MoviesTitled(g.nodes, t);
      MergedMovieAt(g, d, title, m, t);
      assert m in MoviesTitled(after, t);
    }
    if MoviesTitled(after, t) != [] {
      var m := MoviesTitled(after, t)[0];
      assert m in MoviesTitled(after, t);
      MergedMovieAt(g, d, title, m, t);
      assert m in MoviesTitled(g.nodes, t);
    }
  }

  /** A node of the merged graph is a movie of title `t` iff it was one
      before the statement. */
  lemma MergedMovieAt(g: Graph, d: Director, title: string, i: nat, t: string)
    requires i < |Merged(g, d, title).nodes|
    ensures IsMovieTitled(Merged(g, d, title).nodes[i], t) <==> i < |g.nodes| && IsMovieTitled(g.nodes[i], t)
  {
    MergedKeepsMovies(g, d, title);
  }

  /** Every statement keeps both ends of every relationship inside the graph. */
  lemma StatementsKeepWellFormed(g: Graph, first: string, last: string, title: string)
    requires WellFormed(g)
    ensures WellFormed(Graph(g.nodes + [NewPerson(first, last)], g.edges))
    ensures WellFormed(Graph(g.nodes + [Movie(Some(title))], g.edges))
    ensures WellFormed(Graph(g.nodes, g.edges + ActedInEdges(g.nodes, first, last, title)))
    ensures WellFormed(Merged(g, Director(first, last), title))
  {
    var after := Merged(g, Director(first, last), title);
    MergedKeepsMovies(g, Director(first, last), title);
    forall e | e in after.edges ensures e.src < |after.nodes| && e.dst < |after.nodes| {
      if e !in g.edges {
        assert e.src in PersonsNamed(after.nodes, first, last);
        assert e.dst in MoviesTitled(after.nodes, title);
      }
    }
  }
}

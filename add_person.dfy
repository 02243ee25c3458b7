/** Adding one person to the graph, then reading it back and counting the
    persons (scripts/bddr/exercice_add_person.py). */
module AddPerson {
  import opened Common
  import opened GraphStore

  /** The person the script adds. */
  const FirstName: string := "Joachim"
  const LastName: string := "Bisch Peuchet"

  /** `RETURN p.name AS name, p.firstName AS firstName, p.lastName AS lastName`. */
  datatype PersonRow = PersonRow(name: Option<string>, firstName: Option<string>, lastName: Option<string>)

  /** Which of the three statements raise. */
  datatype Faults = Faults(create: bool, verify: bool, stats: bool)

  /** How `add_and_verify_person` ends: after the creation error, after the
      verification error, or with the persons found and the count (absent
      when the count query raised). */
  datatype Outcome =
    | CreateFailed
    | VerifyFailed(created: nat)
    | Verified(created: nat, found: seq<PersonRow>, total: Option<nat>)

  function RowOf(n: Node): PersonRow {
    if n.Person? then PersonRow(n.name, n.firstName, n.lastName) else PersonRow(None, None, None)
  }

  function NodeRow(nodes: seq<Node>): nat -> PersonRow {
    (i: nat) => if i < |nodes| then RowOf(nodes[i]) else PersonRow(None, None, None)
  }

  /** `MATCH (p:Person {firstName: $first_name, lastName: $last_name})
      RETURN ...`: one row per matching node, in store order. */
  function PersonRows(nodes: seq<Node>, first: string, last: string): seq<PersonRow> {
    Map(PersonsNamed(nodes, first, last), NodeRow(nodes))
  }

  /** `add_and_verify_person()`: create, verify, count; the first two stop
      the script when they raise. */
  method AddAndVerifyPerson(g: Store, faults: Faults) returns (out: Outcome)
    modifies g
    ensures faults.create ==> out == CreateFailed && g.State() == old(g.State())
    ensures !faults.create ==> g.nodes == old(g.nodes) + [NewPerson(FirstName, LastName)] && g.edges == old(g.edges)
    ensures !faults.create && faults.verify ==> out == VerifyFailed(|old(g.nodes)|)
    ensures !faults.create && !faults.verify ==>
      out == Verified(|old(g.nodes)|, PersonRows(g.nodes, FirstName, LastName),
                      if faults.stats then None else Some(PersonCount(g.nodes)))
  {
    var first, last := FirstName, LastName;
    if faults.create {
      return CreateFailed;
    }
    var id := g.CreatePerson(first, last);
    if faults.verify {
      return VerifyFailed(id);
    }
    var found := PersonRows(g.nodes, first, last);
    var total := if faults.stats then None else Some(PersonCount(g.nodes));
    out := Verified(id, found, total);
  }

  /** Each run adds one person: the count grows by exactly one, whatever
      persons there were. */
  lemma PersonCountGrows(nodes: seq<Node>, first: string, last: string)
    ensures PersonCount(nodes + [NewPerson(first, last)]) == PersonCount(nodes) + 1
  {
    NodesWhereAppend(nodes, NewPerson(first, last), (n: Node) => n.Person?);
  }

  /** The verification finds every person it found before, then the new
      one with its full name, so at least one row. */
  lemma NewPersonFound(nodes: seq<Node>, first: string, last: string)
    ensures var rows := PersonRows(nodes + [NewPerson(first, last)], first, last);
      && rows == PersonRows(nodes, first, last) + [PersonRow(Some(FullName(first, last)), Some(first), Some(last))]
      && |rows| >= 1
  {
    var after := nodes + [NewPerson(first, last)];
    NodesWhereAppend(nodes, NewPerson(first, last), (n: Node) => IsPersonNamed(n, first, last));
    var added: seq<nat> := [|nodes|];
    MapAppend(PersonsNamed(nodes, first, last), added, NodeRow(after));
    var before := PersonsNamed(nodes, first, last);
    assert Map(before, NodeRow(after)) == Map(before, NodeRow(nodes)) by {
      forall k | 0 <= k < |before| ensures NodeRow(after)(before[k]) == NodeRow(nodes)(before[k]) {
        assert before[k] in before;
      }
    }
  }

  /** Not idempotent: two runs leave two identical new persons, the count
      two higher and two more rows found. */
  lemma TwoRunsTwoPersons(nodes: seq<Node>, first: string, last: string)
    ensures var twice := nodes + [NewPerson(first, last)] + [NewPerson(first, last)];
      && twice[|nodes|] == twice[|nodes| + 1]
      && PersonCount(twice) == PersonCount(nodes) + 2
      && |PersonRows(twice, first, last)| == |PersonRows(nodes, first, last)| + 2
  {
    var once := nodes + [NewPerson(first, last)];
    PersonCountGrows(nodes, first, last);
    PersonCountGrows(once, first, last);
    NewPersonFound(nodes, first, last);
    NewPersonFound(once, first, last);
  }
}

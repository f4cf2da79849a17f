/**
 * One level of the proximity graph.  For every node of the level it holds the two arrays of the
 * node's level data: the outgoing `links`, and `incoming`, the ids whose edge to the node is not
 * answered by an edge back.
 */
module LevelGraphs {
  import opened Seqs

  type Id = int

  /** Outgoing edges as sets: the view in which incoming arrays are judged. */
  type Adjacency = map<Id, set<Id>>

  datatype Graph = Graph(links: map<Id, seq<Id>>, incoming: map<Id, seq<Id>>)

  function AdjacencyOf(links: map<Id, seq<Id>>): Adjacency {
    map u | u in links :: Elems(links[u])
  }

  lemma AdjacencyUpdate(links: map<Id, seq<Id>>, u: Id, row: seq<Id>)
    ensures AdjacencyOf(links[u := row]) == AdjacencyOf(links)[u := Elems(row)]
  {
  }

  /** A row of outgoing links: distinct nodes of the level, no self-loop, at most `cap` of them. */
  ghost predicate RowOk(nodes: set<Id>, u: Id, row: seq<Id>, cap: nat) {
    NoDup(row) && u !in row && |row| <= cap && Elems(row) <= nodes
  }

  ghost predicate RowsOk(links: map<Id, seq<Id>>, cap: nat) {
    forall u | u in links :: RowOk(links.Keys, u, links[u], cap)
  }

  /** u points to v and v does not point back. */
  predicate OneWay(adj: Adjacency, u: Id, v: Id) {
    u in adj && v in adj && v in adj[u] && u !in adj[v]
  }

  /**
   * Every incoming array lists, without repetition, exactly the one-way edges into its node.
   * Nodes in `except` are left out of the account.
   */
  ghost predicate Exact(adj: Adjacency, incoming: map<Id, seq<Id>>, except: set<Id>) {
    && incoming.Keys == adj.Keys
    && forall v | v in adj && v !in except ::
         && NoDup(incoming[v])
         && forall u | u !in except :: u in incoming[v] <==> OneWay(adj, u, v)
  }

  /** Only the entry of u differs. */
  ghost predicate OnlyAt(before: map<Id, seq<Id>>, after: map<Id, seq<Id>>, u: Id) {
    && u in before && after.Keys == before.Keys
    && forall v | v in before && v != u :: after[v] == before[v]
  }

  lemma OnlyAtUpdate(before: map<Id, seq<Id>>, after: map<Id, seq<Id>>, u: Id)
    requires OnlyAt(before, after, u)
    ensures after == before[u := after[u]]
  {
    var updated := before[u := after[u]];
    assert updated.Keys == after.Keys;
    assert forall v | v in after :: after[v] == updated[v];
  }

  ghost predicate WellFormed(g: Graph, cap: nat) {
    RowsOk(g.links, cap) && Exact(AdjacencyOf(g.links), g.incoming, {})
  }

  /** The incoming array of v lists, once each, the nodes that point to v and are not pointed to by v. */
  ghost predicate RecordsExact(g: Graph, v: Id) {
    && v in g.links && v in g.incoming && NoDup(g.incoming[v])
    && forall u :: u in g.incoming[v] <==> u in g.links && v in g.links[u] && u !in g.links[v]
  }

  lemma ExactAt(g: Graph, v: Id)
    requires Exact(AdjacencyOf(g.links), g.incoming, {}) && v in g.links
    ensures RecordsExact(g, v)
  {
  }

  lemma ExactFromRecords(g: Graph)
    requires g.incoming.Keys == g.links.Keys && forall v | v in g.links :: RecordsExact(g, v)
    ensures Exact(AdjacencyOf(g.links), g.incoming, {})
  {
  }

  /** What dropping the edge u -> v does to the incoming arrays. */
  function DropIncoming(incoming: map<Id, seq<Id>>, u: Id, v: Id): map<Id, seq<Id>>
    requires u in incoming && v in incoming
  {
    if u in incoming[v] then incoming[v := SwapRemove(incoming[v], u)]
    else incoming[u := incoming[u] + [v]]
  }

  /** What creating the edge u -> v does to the incoming arrays. */
  function AddIncoming(incoming: map<Id, seq<Id>>, u: Id, v: Id): map<Id, seq<Id>>
    requires u in incoming && v in incoming
  {
    if v in incoming[u] then incoming[u := SwapRemove(incoming[u], v)]
    else incoming[v := incoming[v] + [u]]
  }

  lemma DropKeepsExact(adj: Adjacency, incoming: map<Id, seq<Id>>, except: set<Id>, u: Id, v: Id)
    requires Exact(adj, incoming, except)
    requires u in adj && v in adj && u != v && u !in except && v !in except && v in adj[u]
    ensures Exact(adj[u := adj[u] - {v}], DropIncoming(incoming, u, v), except)
  {
    if u in incoming[v] {
      SwapRemoveElems(incoming[v], u);
      assert Elems(incoming[v]) - {u} == Elems(SwapRemove(incoming[v], u));
      assert forall x :: x in SwapRemove(incoming[v], u) <==> x in Elems(SwapRemove(incoming[v], u));
    } else {
      NoDupAppend(incoming[u], v);
    }
  }

  lemma AddKeepsExact(adj: Adjacency, incoming: map<Id, seq<Id>>, except: set<Id>, u: Id, v: Id)
    requires Exact(adj, incoming, except)
    requires u in adj && v in adj && u != v && u !in except && v !in except && v !in adj[u]
    ensures Exact(adj[u := adj[u] + {v}], AddIncoming(incoming, u, v), except)
  {
    if v in incoming[u] {
      SwapRemoveElems(incoming[u], v);
      assert forall x :: x in SwapRemove(incoming[u], v) <==> x in Elems(SwapRemove(incoming[u], v));
    } else {
      NoDupAppend(incoming[v], u);
    }
  }

  /** Two nodes not yet connected point to each other: no incoming array changes. */
  lemma AddBothKeepsExact(adj: Adjacency, incoming: map<Id, seq<Id>>, u: Id, v: Id)
    requires Exact(adj, incoming, {})
    requires u in adj && v in adj && u != v && v !in adj[u] && u !in adj[v]
    ensures Exact(adj[u := adj[u] + {v}][v := adj[v] + {u}], incoming, {})
  {
    var after := adj[u := adj[u] + {v}][v := adj[v] + {u}];
    assert !OneWay(adj, u, v) && !OneWay(adj, v, u) && !OneWay(after, u, v) && !OneWay(after, v, u);
    forall x, y ensures OneWay(after, x, y) <==> OneWay(adj, x, y) {
    }
  }

  /** The arrays of one level, changed in place by the routines of the index. */
  class LevelGraph {
    var links: map<Id, seq<Id>>
    var incoming: map<Id, seq<Id>>

    constructor ()
      ensures links == map[] && incoming == map[]
    {
      links, incoming := map[], map[];
    }

    ghost function View(): Graph
      reads this
    {
      Graph(links, incoming)
    }

    /** Writes at a position of the array; the position after the last one is free capacity. */
    method SetLinkAtPos(u: Id, pos: nat, v: Id)
      requires u in links && pos <= |links[u]|
      modifies this`links
      ensures links == old(links)[u := if pos < |old(links[u])| then old(links[u])[pos := v]
                                       else old(links[u]) + [v]]
    {
      if pos < |links[u]| {
        links := links[u := links[u][pos := v]];
      } else {
        links := links[u := links[u] + [v]];
      }
    }

    method SetNumLinks(u: Id, n: nat)
      requires u in links && n <= |links[u]|
      modifies this`links
      ensures links == old(links)[u := old(links[u])[..n]]
    {
      links := links[u := links[u][..n]];
    }

    /** Empty arrays for a new node. */
    method AddNode(u: Id)
      modifies this
      ensures links == old(links)[u := []] && incoming == old(incoming)[u := []]
    {
      links, incoming := links[u := []], incoming[u := []];
    }

    /** Frees the arrays of a node. */
    method Destroy(u: Id)
      modifies this
      ensures links == old(links) - {u} && incoming == old(incoming) - {u}
    {
      links, incoming := links - {u}, incoming - {u};
    }

    /** Moves the arrays of a node to another id. */
    method Move(from: Id, to: Id)
      requires from in links && from in incoming && to !in links && to !in incoming
      modifies this
      ensures links == old(links)[to := old(links[from])] - {from}
      ensures incoming == old(incoming)[to := old(incoming[from])] - {from}
    {
      links, incoming := links[to := links[from]] - {from}, incoming[to := incoming[from]] - {from};
    }

    method SetLinks(u: Id, row: seq<Id>)
      requires u in links
      modifies this`links
      ensures links == old(links)[u := row]
    {
      links := links[u := row];
    }

    method AppendLink(u: Id, v: Id)
      requires u in links
      modifies this`links
      ensures links == old(links)[u := old(links[u]) + [v]]
    {
      links := links[u := links[u] + [v]];
    }

    method RemoveLink(u: Id, v: Id)
      requires u in links && v in links[u]
      modifies this`links
      ensures links == old(links)[u := SwapRemove(old(links[u]), v)]
    {
      var i := 0;
      while links[u][i] != v
        invariant i < |links[u]| && v !in links[u][..i]
        invariant links == old(links)
        decreases |links[u]| - i
      {
        i := i + 1;
      }
      var last := |links[u]| - 1;
      FirstOccurrence(links[u], v, i);
      links := links[u := links[u][i := links[u][last]]];
      links := links[u := links[u][..last]];
    }

    method NewIncoming(v: Id, u: Id)
      requires v in incoming
      modifies this`incoming
      ensures incoming == old(incoming)[v := old(incoming[v]) + [u]]
    {
      incoming := incoming[v := incoming[v] + [u]];
    }

    method RemoveIncomingIfExists(v: Id, u: Id) returns (found: bool)
      requires v in incoming
      modifies this`incoming
      ensures found <==> u in old(incoming[v])
      ensures incoming == old(incoming)[v := SwapRemove(old(incoming[v]), u)]
    {
      var i := 0;
      while i < |incoming[v]| && incoming[v][i] != u
        invariant i <= |incoming[v]| && u !in incoming[v][..i]
        invariant incoming == old(incoming)
      {
        i := i + 1;
      }
      found := i < |incoming[v]|;
      if found {
        FirstOccurrence(incoming[v], u, i);
        var last := |incoming[v]| - 1;
        incoming := incoming[v := incoming[v][i := incoming[v][last]]];
        incoming := incoming[v := incoming[v][..last]];
      }
    }

    method SwapIdInIncoming(v: Id, before: Id, after: Id)
      requires v in incoming && before in incoming[v]
      modifies this`incoming
      ensures incoming == old(incoming)[v := old(incoming[v])[IndexOf(old(incoming[v]), before) := after]]
    {
      var i := 0;
      while incoming[v][i] != before
        invariant i < |incoming[v]| && before !in incoming[v][..i]
        invariant incoming == old(incoming)
        decreases |incoming[v]| - i
      {
        i := i + 1;
      }
      FirstOccurrence(incoming[v], before, i);
      incoming := incoming[v := incoming[v][i := after]];
    }

    /** The incoming bookkeeping for a neighbour `removed` that u stops pointing to. */
    method MutuallyRemoveNeighbor(u: Id, removed: Id)
      requires u in incoming && removed in incoming
      modifies this`incoming
      ensures incoming == DropIncoming(old(incoming), u, removed)
    {
      var found := RemoveIncomingIfExists(removed, u);
      if !found {
        NewIncoming(u, removed);
      }
    }
  }

  lemma FirstOccurrence<T>(s: seq<T>, x: T, i: nat)
    requires i < |s| && s[i] == x && x !in s[..i]
    ensures IndexOf(s, x) == i
  {
  }
}

/**
 * Taking a live node out of one level of the graph: every node pointing to it gets its row rebuilt,
 * after which nothing at the level refers to the node any more.
 */
module InPlaceDelete {
  import opened Seqs
  import opened LevelGraphs
  import opened NeighborSelection

  /** What a live node n pointing to e may point to instead: its other links and the live links of e. */
  ghost function DetachSet(links: map<Id, seq<Id>>, e: Id, n: Id, deleted: set<Id>): set<Id>
    requires e in links && n in links
  {
    Elems(links[n]) - {e} + (Elems(links[e]) - deleted - {n})
  }

  /** How the row of n, which points to e, changes when e goes. */
  ghost predicate DetachedRow(links: map<Id, seq<Id>>, after: seq<Id>, e: Id, n: Id, deleted: set<Id>,
                              cap: nat, metric: Metric)
    requires e in links && n in links
  {
    var cands := DetachSet(links, e, n, deleted);
    if n in deleted then after == SwapRemove(links[n], e)
    else if |cands| <= cap then NoDup(after) && Elems(after) == cands
    else NoDup(after) && Elems(after) <= cands && WellChosen(cands, n, cap, metric, after)
  }

  /** With room for the links of both, a live node keeps its other links and inherits the live ones of the element. */
  lemma RoomInheritsAll(links: map<Id, seq<Id>>, after: seq<Id>, e: Id, n: Id, deleted: set<Id>, cap: nat, metric: Metric)
    requires e in links && n in links && n !in deleted && DetachedRow(links, after, e, n, deleted, cap, metric)
    requires NoDup(links[n]) && NoDup(links[e]) && |links[n]| + |links[e]| <= cap
    ensures forall v :: v in after <==> (v in links[n] && v != e) || (v in links[e] && v !in deleted && v != n)
  {
    NoDupSize(links[n]);
    NoDupSize(links[e]);
    InElems(links[n]);
    InElems(links[e]);
    InElems(after);
    SubsetCardinality(DetachSet(links, e, n, deleted), Elems(links[n]) + Elems(links[e]));
  }

  method CollectDetachCandidates(g: LevelGraph, e: Id, n: Id, deleted: set<Id>, ghost cap: nat)
    returns (candidates: seq<Id>)
    requires RowsOk(g.links, cap) && e in g.links && n in g.links && e != n
    ensures NoDup(candidates) && Elems(candidates) == DetachSet(g.links, e, n, deleted)
  {
    var row, others := g.links[n], g.links[e];
    assert RowOk(g.links.Keys, n, row, cap) && RowOk(g.links.Keys, e, others, cap);
    candidates := [];
    for j := 0 to |row|
      invariant NoDup(candidates)
      invariant forall x :: x in candidates <==> x in row[..j] && x != e && x !in others
    {
      ElemsStep(row, j);
      assert row[j] !in row[..j];
      if row[j] != e && row[j] !in others {
        candidates := candidates + [row[j]];
      }
    }
    assert row[..|row|] == row;
    for j := 0 to |others|
      invariant NoDup(candidates)
      invariant forall x :: x in candidates <==>
                  || (x in row && x != e && x !in others)
                  || (x in others[..j] && x != n && (x !in deleted || x in row))
    {
      ElemsStep(others, j);
      assert others[j] !in others[..j];
      if others[j] != n && (others[j] !in deleted || others[j] in row) {
        candidates := candidates + [others[j]];
      }
    }
    assert others[..|others|] == others;
    InElems(row);
    InElems(others);
    forall x ensures x in candidates <==> x in DetachSet(g.links, e, n, deleted) {
    }
    SameElems(candidates, DetachSet(g.links, e, n, deleted));
  }

  /** Settles the account of the links a rebuilt row no longer has. */
  method AccountForRemoved(g: LevelGraph, n: Id, original: seq<Id>, removed: seq<Id>, ghost e: Id,
                           ghost base: Adjacency)
    requires Exact(base[n := Elems(original) - {e}], g.incoming, {e}) && n in base && e in base && n != e
    requires NoDup(removed) && Elems(removed) <= base.Keys - {n, e}
    modifies g`incoming
    ensures Exact(base[n := Elems(original) - {e} - Elems(removed)], g.incoming, {e})
    ensures SameMentions(old(g.incoming), g.incoming, e)
  {
    ghost var row := Elems(original) - {e};
    assert row - Elems(removed[..0]) == row;
    for j := 0 to |removed|
      invariant Exact(base[n := row - Elems(removed[..j])], g.incoming, {e})
      invariant SameMentions(old(g.incoming), g.incoming, e)
    {
      ElemsStep(removed, j);
      var x := removed[j];
      InElems(original);
      assert row - Elems(removed[..j + 1]) == row - Elems(removed[..j]) - {x};
      if x in original {
        ghost var now := base[n := row - Elems(removed[..j])];
        DropKeepsExact(now, g.incoming, {e}, n, x);
        assert now[n := now[n] - {x}] == base[n := row - Elems(removed[..j + 1])];
        DropKeepsBystander(g.incoming, n, x, e);
        g.MutuallyRemoveNeighbor(n, x);
      }
    }
    assert removed[..|removed|] == removed;
  }

  /** The node e is mentioned in the same arrays as before, and its own array is unchanged. */
  ghost predicate SameMentions(before: map<Id, seq<Id>>, after: map<Id, seq<Id>>, e: Id) {
    && after.Keys == before.Keys && e in before && after[e] == before[e]
    && forall v | v in before :: e in after[v] <==> e in before[v]
  }

  /** Changing the edge between u and v leaves every mention of a third node alone. */
  lemma DropKeepsBystander(incoming: map<Id, seq<Id>>, u: Id, v: Id, e: Id)
    requires u in incoming && v in incoming && e in incoming && e != u && e != v && NoDup(incoming[v])
    ensures DropIncoming(incoming, u, v)[e] == incoming[e]
    ensures forall x | x in incoming :: e in DropIncoming(incoming, u, v)[x] <==> e in incoming[x]
  {
    SwapRemoveElems(incoming[v], u);
    InElems(incoming[v]);
    InElems(SwapRemove(incoming[v], u));
  }

  lemma AddKeepsBystander(incoming: map<Id, seq<Id>>, u: Id, v: Id, e: Id)
    requires u in incoming && v in incoming && e in incoming && e != u && e != v && NoDup(incoming[u])
    ensures AddIncoming(incoming, u, v)[e] == incoming[e]
    ensures forall x | x in incoming :: e in AddIncoming(incoming, u, v)[x] <==> e in incoming[x]
  {
    SwapRemoveElems(incoming[u], v);
    InElems(incoming[u]);
    InElems(SwapRemove(incoming[u], v));
  }

  /** Settles the account of the links a rebuilt row gained; `row` are the ones it had and kept. */
  method AccountForAdded(g: LevelGraph, n: Id, original: seq<Id>, ghost e: Id, ghost base: Adjacency)
    requires n in base && e in base && n != e && g.links.Keys == base.Keys
    requires NoDup(g.links[n]) && Elems(g.links[n]) <= base.Keys - {n, e}
    requires Exact(base[n := Elems(original) * Elems(g.links[n])], g.incoming, {e})
    requires forall v | v in base && v != n :: base[v] == Elems(g.links[v])
    modifies g`incoming
    ensures Exact(base[n := Elems(g.links[n])], g.incoming, {e})
    ensures SameMentions(old(g.incoming), g.incoming, e)
  {
    var row := g.links[n];
    ghost var had := Elems(original) * Elems(row);
    assert had + Elems(row[..0]) == had;
    for i := 0 to |row|
      invariant Exact(base[n := had + Elems(row[..i])], g.incoming, {e})
      invariant SameMentions(old(g.incoming), g.incoming, e)
    {
      HadStep(original, row, i);
      hide *;
      if row[i] !in original {
        AccountForNewLink(g, n, row[i], e, base, had + Elems(row[..i]));
      }
    }
    assert row[..|row|] == row;
    assert had + Elems(row) == Elems(row);
  }

  lemma HadStep(original: seq<Id>, row: seq<Id>, i: nat)
    requires i < |row| && NoDup(row)
    ensures var had := Elems(original) * Elems(row);
      && had + Elems(row[..i + 1]) == had + Elems(row[..i]) + {row[i]}
      && (row[i] in original <==> row[i] in had + Elems(row[..i]))
      && (row[i] in original ==> had + Elems(row[..i + 1]) == had + Elems(row[..i]))
    ensures row[i] in Elems(row)
  {
  }

  method AccountForNewLink(g: LevelGraph, n: Id, x: Id, ghost e: Id, ghost base: Adjacency, ghost row: set<Id>)
    requires n in base && e in base && x in base && g.links.Keys == base.Keys
    requires n != e && x != e && x != n && x !in row && base[x] == Elems(g.links[x])
    requires Exact(base[n := row], g.incoming, {e})
    modifies g`incoming
    ensures Exact(base[n := row + {x}], g.incoming, {e})
    ensures SameMentions(old(g.incoming), g.incoming, e)
  {
    ghost var now := base[n := row];
    AddKeepsExact(now, g.incoming, {e}, n, x);
    assert now[n := now[n] + {x}] == base[n := row + {x}];
    AddKeepsBystander(g.incoming, n, x, e);
    InElems(g.links[x]);
    if n in g.links[x] {
      // A link that used to be one-way is answered now, and must have been on record.
      assert x in g.incoming[n];
      var found := g.RemoveIncomingIfExists(n, x);
      assert found;
    } else {
      g.NewIncoming(x, n);
    }
  }

  /**
   * State of the level while e is being taken out, with the neighbours in `done` dealt with: rows that
   * pointed to e are rebuilt, and apart from e's own edges the incoming arrays are exact throughout.
   */
  ghost predicate Detaching(g0: Graph, g: Graph, e: Id, done: set<Id>, deleted: set<Id>, cap: nat, metric: Metric) {
    && e in g0.links && g.links.Keys == g0.links.Keys
    && RowsOk(g.links, cap) && Exact(AdjacencyOf(g.links), g.incoming, {e})
    && e in g.incoming && e in g0.incoming && g.incoming[e] == g0.incoming[e]
    && forall v | v in g0.links :: v in g.incoming && DetachedNode(g0, g, e, v, v in done, deleted, cap, metric)
  }

  ghost predicate DetachedNode(g0: Graph, g: Graph, e: Id, v: Id, done: bool, deleted: set<Id>, cap: nat, metric: Metric)
    requires e in g0.links && v in g0.links && v in g.links && v in g.incoming
  {
    && (if v != e && done && e in g0.links[v] then DetachedRow(g0.links, g.links[v], e, v, deleted, cap, metric)
        else g.links[v] == g0.links[v])
    && (v != e ==> (e in g.incoming[v] <==> OneWay(AdjacencyOf(g0.links), e, v) && !done))
  }

  /** Decides the new row of a live node pointing to e, and which candidates are left out of it. */
  method ChooseDetachedRow(g: LevelGraph, e: Id, n: Id, deleted: set<Id>, cap: nat, metric: Metric)
    returns (chosen: seq<Id>, removed: seq<Id>)
    requires RowsOk(g.links, cap) && e in g.links && n in g.links && e != n && n !in deleted
    ensures DetachedRow(g.links, chosen, e, n, deleted, cap, metric)
    ensures RowOk(g.links.Keys, n, chosen, cap) && Elems(chosen) <= g.links.Keys - {n, e}
    ensures NoDup(chosen)
    ensures NoDup(removed) && Elems(chosen) !! Elems(removed)
    ensures Elems(chosen) + Elems(removed) == DetachSet(g.links, e, n, deleted)
  {
    hide WellChosen, RowsOk, DetachSet;
    DetachSetInside(g.links, e, n, deleted, cap);
    chosen := CollectDetachCandidates(g, e, n, deleted, cap);
    removed := [];
    NoDupSize(chosen);
    if |chosen| > cap {
      chosen, removed := SelectAround(n, chosen, cap, metric);
    }
    InElems(chosen);
  }

  lemma DetachSetInside(links: map<Id, seq<Id>>, e: Id, n: Id, deleted: set<Id>, cap: nat)
    requires RowsOk(links, cap) && e in links && n in links
    ensures DetachSet(links, e, n, deleted) <= links.Keys - {n, e}
  {
    assert RowOk(links.Keys, n, links[n], cap) && RowOk(links.Keys, e, links[e], cap);
    InElems(links[n]);
    InElems(links[e]);
  }

  /** Points of the level outside e's own edges stay exact if only n's edge to e is forgotten. */
  lemma ForgetEdge(adj: Adjacency, incoming: map<Id, seq<Id>>, n: Id, e: Id)
    requires Exact(adj, incoming, {e}) && n in adj && n != e
    ensures Exact(adj[n := adj[n] - {e}], incoming, {e})
  {
  }

  lemma AdjacencyRows(links: map<Id, seq<Id>>)
    ensures AdjacencyOf(links).Keys == links.Keys
    ensures forall v | v in links :: AdjacencyOf(links)[v] == Elems(links[v])
  {
  }

  method RebuildRow(g: LevelGraph, e: Id, n: Id, deleted: set<Id>, cap: nat, metric: Metric)
    requires RowsOk(g.links, cap) && Exact(AdjacencyOf(g.links), g.incoming, {e})
    requires e in g.links && n in g.links && e != n && n !in deleted
    modifies g
    ensures OnlyAt(old(g.links), g.links, n)
    ensures DetachedRow(old(g.links), g.links[n], e, n, deleted, cap, metric)
    ensures RowOk(g.links.Keys, n, g.links[n], cap)
    ensures Exact(AdjacencyOf(old(g.links))[n := Elems(g.links[n])], g.incoming, {e})
    ensures SameMentions(old(g.incoming), g.incoming, e)
  {
    hide Exact, RowsOk, RowOk, DetachedRow, DetachSet, NoDup, AdjacencyOf, Elems;
    ghost var adj := AdjacencyOf(g.links);
    var row := g.links[n];
    var chosen, removed := ChooseDetachedRow(g, e, n, deleted, cap, metric);
    RemovedAndKept(g.links, e, n, deleted, cap, Elems(chosen), Elems(removed));
    AdjacencyRows(g.links);
    ForgetEdge(adj, g.incoming, n, e);
    g.SetLinks(n, chosen);
    AccountForRow(g, n, row, removed, e, adj);
  }

  /** The account of a rebuilt row: first what it lost, then what it gained. */
  method AccountForRow(g: LevelGraph, n: Id, original: seq<Id>, removed: seq<Id>, ghost e: Id,
                       ghost base: Adjacency)
    requires n in base && e in base && n != e && g.links.Keys == base.Keys
    requires NoDup(g.links[n]) && Elems(g.links[n]) <= base.Keys - {n, e}
    requires forall v | v in base && v != n :: base[v] == Elems(g.links[v])
    requires NoDup(removed) && Elems(removed) <= base.Keys - {n, e}
    requires Elems(original) - {e} - Elems(removed) == Elems(original) * Elems(g.links[n])
    requires Exact(base[n := Elems(original) - {e}], g.incoming, {e})
    modifies g`incoming
    ensures Exact(base[n := Elems(g.links[n])], g.incoming, {e})
    ensures SameMentions(old(g.incoming), g.incoming, e)
  {
    hide Exact, NoDup, Elems;
    AccountForRemoved(g, n, original, removed, e, base);
    AccountForAdded(g, n, original, e, base);
  }

  lemma RemovedAndKept(links: map<Id, seq<Id>>, e: Id, n: Id, deleted: set<Id>, cap: nat,
                       chosen: set<Id>, removed: set<Id>)
    requires RowsOk(links, cap) && e in links && n in links && e != n
    requires chosen !! removed && chosen + removed == DetachSet(links, e, n, deleted)
    ensures Elems(links[n]) - {e} - removed == Elems(links[n]) * chosen
    ensures removed <= links.Keys - {n, e}
  {
  }

  /** Rebuilds the row of a node pointing to e. */
  method RepairConnectionsForDeletion(g: LevelGraph, e: Id, n: Id, deleted: set<Id>, cap: nat, metric: Metric,
                                      ghost g0: Graph, ghost done: set<Id>)
    requires WellFormed(g0, cap) && Detaching(g0, g.View(), e, done, deleted, cap, metric)
    requires n in g.links && n != e && n !in done && e in g.links[n]
    modifies g
    ensures Detaching(g0, g.View(), e, done + {n}, deleted, cap, metric)
  {
    hide Detaching, WellFormed, RowsOk, Exact, DetachedRow, RowOk, SwapRemove, NoDup, AdjacencyOf, Elems;
    ghost var before := g.View();
    RowsAndRecords(g0, before, e, done, deleted, cap, metric);
    if n in deleted {
      // This neighbour is going to leave the graph as well: dropping the link is enough.
      RowDropped(before, e, n, deleted, cap, metric);
      g.RemoveLink(n, e);
    } else {
      RebuildRow(g, e, n, deleted, cap, metric);
    }
    RowRebuilt(g0, before, g.View(), e, n, done, deleted, cap, metric);
  }

  lemma RowsAndRecords(g0: Graph, g: Graph, e: Id, done: set<Id>, deleted: set<Id>, cap: nat, metric: Metric)
    requires Detaching(g0, g, e, done, deleted, cap, metric)
    ensures RowsOk(g.links, cap) && Exact(AdjacencyOf(g.links), g.incoming, {e}) && e in g.links && e in g.incoming
  {
    hide RowsOk, Exact, DetachedNode;
  }

  /** A row that just loses its link to e. */
  lemma RowDropped(g: Graph, e: Id, n: Id, deleted: set<Id>, cap: nat, metric: Metric)
    requires RowsOk(g.links, cap) && Exact(AdjacencyOf(g.links), g.incoming, {e}) && e in g.incoming
    requires e in g.links && n in g.links && n != e && n in deleted
    ensures var row := SwapRemove(g.links[n], e);
      && DetachedRow(g.links, row, e, n, deleted, cap, metric) && RowOk(g.links.Keys, n, row, cap)
      && Exact(AdjacencyOf(g.links)[n := Elems(row)], g.incoming, {e}) && SameMentions(g.incoming, g.incoming, e)
  {
    assert RowOk(g.links.Keys, n, g.links[n], cap);
    SwapRemoveElems(g.links[n], e);
    InElems(g.links[n]);
    InElems(SwapRemove(g.links[n], e));
    ForgetEdge(AdjacencyOf(g.links), g.incoming, n, e);
    hide SwapRemove, Exact, RowsOk;
  }

  lemma RowRebuilt(g0: Graph, before: Graph, after: Graph, e: Id, n: Id, done: set<Id>, deleted: set<Id>,
                   cap: nat, metric: Metric)
    requires WellFormed(g0, cap) && Detaching(g0, before, e, done, deleted, cap, metric)
    requires n in before.links && n != e && n !in done && e in before.links[n]
    requires OnlyAt(before.links, after.links, n)
    requires DetachedRow(before.links, after.links[n], e, n, deleted, cap, metric)
    requires RowOk(before.links.Keys, n, after.links[n], cap)
    requires Exact(AdjacencyOf(before.links)[n := Elems(after.links[n])], after.incoming, {e})
    requires SameMentions(before.incoming, after.incoming, e)
    ensures Detaching(g0, after, e, done + {n}, deleted, cap, metric)
  {
    hide DetachedRow, DetachedNode, RowOk, Exact, AdjacencyOf, Elems;
    OnlyAtUpdate(before.links, after.links, n);
    AdjacencyUpdate(before.links, n, after.links[n]);
    Untouched(g0, before, e, n, done, deleted, cap, metric);
    Untouched(g0, before, e, e, done, deleted, cap, metric);
    SameRow(before.links, g0.links, after.links[n], e, n, deleted, cap, metric);
    forall v | v in g0.links
      ensures v in after.incoming && DetachedNode(g0, after, e, v, v in done + {n}, deleted, cap, metric)
    {
      NodeAfter(g0, before, after, e, n, v, v in done, deleted, cap, metric);
    }
    forall v | v in after.links ensures RowOk(after.links.Keys, v, after.links[v], cap) {
      assert v != n ==> RowOk(before.links.Keys, v, before.links[v], cap);
    }
  }

  /** A node not dealt with yet, and e itself, have the rows they had. */
  lemma Untouched(g0: Graph, g: Graph, e: Id, n: Id, done: set<Id>, deleted: set<Id>, cap: nat, metric: Metric)
    requires WellFormed(g0, cap) && Detaching(g0, g, e, done, deleted, cap, metric)
    requires (n in g0.links || n in g.links) && (n !in done || n == e)
    ensures n in g0.links && n in g.links && g.links[n] == g0.links[n] && n in g.incoming
    ensures n != e ==> (e in g.incoming[n] <==> e !in g0.links[n] && n in g0.links[e])
  {
    hide Exact, RowsOk, DetachedRow;
    assert DetachedNode(g0, g, e, n, n in done, deleted, cap, metric);
    InElems(g0.links[n]);
    InElems(g0.links[e]);
  }

  /** What a new row has to be depends on the rows of the two nodes only. */
  lemma SameRow(links: map<Id, seq<Id>>, links0: map<Id, seq<Id>>, row: seq<Id>, e: Id, n: Id, deleted: set<Id>, cap: nat,
                metric: Metric)
    requires e in links && n in links && e in links0 && n in links0 && links[e] == links0[e] && links[n] == links0[n]
    ensures DetachedRow(links, row, e, n, deleted, cap, metric) <==> DetachedRow(links0, row, e, n, deleted, cap, metric)
  {
    hide WellChosen;
    assert DetachSet(links, e, n, deleted) == DetachSet(links0, e, n, deleted);
  }

  lemma NodeAfter(g0: Graph, before: Graph, after: Graph, e: Id, n: Id, v: Id, done: bool, deleted: set<Id>, cap: nat,
                  metric: Metric)
    requires e in g0.links && v in g0.links && v in before.links && v in before.incoming && n in g0.links && n != e
    requires DetachedNode(g0, before, e, v, done, deleted, cap, metric)
    requires OnlyAt(before.links, after.links, n) && SameMentions(before.incoming, after.incoming, e)
    requires e in g0.links[n] && DetachedRow(g0.links, after.links[n], e, n, deleted, cap, metric)
    ensures v in after.incoming && DetachedNode(g0, after, e, v, done || v == n, deleted, cap, metric)
  {
    hide DetachedRow;
    InElems(g0.links[n]);
  }

  /** Drops e from the record of a node it points to one-way. */
  method ForgetOneWay(g: LevelGraph, e: Id, n: Id, ghost g0: Graph, ghost done: set<Id>,
                      ghost deleted: set<Id>, ghost cap: nat, ghost metric: Metric)
    requires WellFormed(g0, cap) && Detaching(g0, g.View(), e, done, deleted, cap, metric)
    requires n in g.links && n != e && n !in done && n in g0.links[e] && e !in g.links[n]
    modifies g`incoming
    ensures Detaching(g0, g.View(), e, done + {n}, deleted, cap, metric)
  {
    hide Detaching, WellFormed, SwapRemove;
    Untouched(g0, g.View(), e, n, done, deleted, cap, metric);
    ghost var before := g.View();
    var found := g.RemoveIncomingIfExists(n, e);
    // The edge is on record in the arrays of its target.
    assert found;
    Forgotten(g0, before, g.View(), e, n, done, deleted, cap, metric);
  }

  lemma Forgotten(g0: Graph, before: Graph, after: Graph, e: Id, n: Id, done: set<Id>, deleted: set<Id>, cap: nat,
                  metric: Metric)
    requires WellFormed(g0, cap) && Detaching(g0, before, e, done, deleted, cap, metric)
    requires n in g0.links && n != e && n !in done && n in g0.links[e] && e !in g0.links[n] && n in before.incoming
    requires after == before.(incoming := before.incoming[n := SwapRemove(before.incoming[n], e)])
    ensures Detaching(g0, after, e, done + {n}, deleted, cap, metric)
  {
    hide DetachedRow, RowsOk, WellFormed;
    assert NoDup(before.incoming[n]);
    SwapRemoveElems(before.incoming[n], e);
    InElems(before.incoming[n]);
    InElems(SwapRemove(before.incoming[n], e));
    InElems(g0.links[n]);
    hide SwapRemove, NoDup;
    forall v | v in g0.links
      ensures v in after.incoming && DetachedNode(g0, after, e, v, v in done + {n}, deleted, cap, metric)
    {
      assert DetachedNode(g0, before, e, v, v in done, deleted, cap, metric);
    }
  }

  /**
   * Takes e out of the level: every neighbour pointing to e is repaired, every other neighbour of e
   * forgets it.  The arrays of e itself are left for the caller to free.
   */
  method DetachNode(g: LevelGraph, e: Id, deleted: set<Id>, cap: nat, metric: Metric)
    requires WellFormed(g.View(), cap) && e in g.links
    modifies g
    ensures Detaching(old(g.View()), g.View(), e, g.links.Keys - {e}, deleted, cap, metric)
  {
    ghost var g0 := g.View();
    assert RowOk(g.links.Keys, e, g.links[e], cap);
    InElems(g.links[e]);
    OneWayInto(g0, e, cap);
    DetachFromLinks(g, e, deleted, cap, metric, g0);
    DetachFromIncoming(g, e, deleted, cap, metric, g0);
    DetachIsComplete(g0, g.View(), e, deleted, cap, metric);
  }

  /** First half: the nodes e points to, repairing those that point back. */
  method DetachFromLinks(g: LevelGraph, e: Id, deleted: set<Id>, cap: nat, metric: Metric, ghost g0: Graph)
    requires WellFormed(g.View(), cap) && e in g.links && g0 == g.View()
    requires NoDup(g.links[e]) && Elems(g.links[e]) <= g.links.Keys - {e}
    modifies g
    ensures Detaching(g0, g.View(), e, Elems(g0.links[e]), deleted, cap, metric)
  {
    var row := g.links[e];
    hide Detaching, WellFormed;
    NothingDetached(g0, e, deleted, cap, metric);
    for i := 0 to |row|
      invariant Detaching(g0, g.View(), e, Elems(row[..i]), deleted, cap, metric)
    {
      ElemsStep(row, i);
      var n := row[i];
      assert n in Elems(row);
      Untouched(g0, g.View(), e, n, Elems(row[..i]), deleted, cap, metric);
      if e in g.links[n] {
        RepairConnectionsForDeletion(g, e, n, deleted, cap, metric, g0, Elems(row[..i]));
      } else {
        ForgetOneWay(g, e, n, g0, Elems(row[..i]), deleted, cap, metric);
      }
    }
    assert row[..|row|] == row;
  }

  /** Second half: the nodes on record as pointing to e one-way. */
  method DetachFromIncoming(g: LevelGraph, e: Id, deleted: set<Id>, cap: nat, metric: Metric, ghost g0: Graph)
    requires WellFormed(g0, cap) && e in g0.links
    requires Detaching(g0, g.View(), e, Elems(g0.links[e]), deleted, cap, metric)
    requires NoDup(g0.incoming[e])
    requires forall n | n in g0.incoming[e] :: n in g0.links && n != e && e in g0.links[n] && n !in Elems(g0.links[e])
    modifies g
    ensures Detaching(g0, g.View(), e, Elems(g0.links[e]) + Elems(g0.incoming[e]), deleted, cap, metric)
  {
    hide Detaching, WellFormed;
    SameRecord(g0, g.View(), e, Elems(g0.links[e]), deleted, cap, metric);
    var others := g.incoming[e];
    ghost var base := Elems(g0.links[e]);
    assert base + Elems(others[..0]) == base;
    for i := 0 to |others|
      invariant Detaching(g0, g.View(), e, base + Elems(others[..i]), deleted, cap, metric)
    {
      ElemsStep(others, i);
      var n := others[i];
      assert n in g0.incoming[e];
      Untouched(g0, g.View(), e, n, base + Elems(others[..i]), deleted, cap, metric);
      RepairConnectionsForDeletion(g, e, n, deleted, cap, metric, g0, base + Elems(others[..i]));
      assert base + Elems(others[..i]) + {n} == base + Elems(others[..i + 1]);
    }
    assert others[..|others|] == others;
  }

  lemma NothingDetached(g: Graph, e: Id, deleted: set<Id>, cap: nat, metric: Metric)
    requires WellFormed(g, cap) && e in g.links
    ensures Detaching(g, g, e, Elems(g.links[e][..0]), deleted, cap, metric)
  {
    hide DetachedRow;
  }

  lemma SameRecord(g0: Graph, g: Graph, e: Id, done: set<Id>, deleted: set<Id>, cap: nat, metric: Metric)
    requires Detaching(g0, g, e, done, deleted, cap, metric)
    ensures e in g.incoming && e in g0.incoming && g.incoming[e] == g0.incoming[e]
  {
    hide Exact, RowsOk, DetachedNode;
  }

  lemma OneWayInto(g: Graph, e: Id, cap: nat)
    requires WellFormed(g, cap) && e in g.links
    ensures NoDup(g.incoming[e])
    ensures forall n | n in g.incoming[e] :: n in g.links && n != e && e in g.links[n] && n !in Elems(g.links[e])
  {
  }

  /** The neighbours of e and the nodes on record as pointing to it are all there is to deal with. */
  lemma DetachIsComplete(g0: Graph, g: Graph, e: Id, deleted: set<Id>, cap: nat, metric: Metric)
    requires WellFormed(g0, cap) && e in g0.links
    requires Detaching(g0, g, e, Elems(g0.links[e]) + Elems(g0.incoming[e]), deleted, cap, metric)
    ensures Detaching(g0, g, e, g.links.Keys - {e}, deleted, cap, metric)
  {
  }

  /** The level without a node. */
  ghost function LevelWithout(g: Graph, e: Id): Graph {
    Graph(g.links - {e}, g.incoming - {e})
  }

  /** Once e is detached, nothing refers to it, and the level without it is well formed. */
  lemma DetachedIsGone(g0: Graph, g: Graph, e: Id, deleted: set<Id>, cap: nat, metric: Metric)
    requires WellFormed(g0, cap) && Detaching(g0, g, e, g.links.Keys - {e}, deleted, cap, metric)
    ensures Unmentioned(g, e)
    ensures WellFormed(LevelWithout(g, e), cap)
  {
    forall v | v in g.links && v != e ensures e !in g.links[v] && e !in g.incoming[v] {
      assert DetachedNode(g0, g, e, v, true, deleted, cap, metric);
      RowWithout(g0.links, g.links[v], e, v, deleted, cap, metric);
    }
    WithoutUnmentioned(g, e, cap);
  }

  /** No other node of the level refers to e. */
  ghost predicate Unmentioned(g: Graph, e: Id) {
    forall v | v in g.links && v != e :: v in g.incoming && e !in g.links[v] && e !in g.incoming[v]
  }

  lemma WithoutUnmentioned(g: Graph, e: Id, cap: nat)
    requires RowsOk(g.links, cap) && Exact(AdjacencyOf(g.links), g.incoming, {e}) && Unmentioned(g, e)
    ensures WellFormed(LevelWithout(g, e), cap)
  {
  }

  lemma RowWithout(links: map<Id, seq<Id>>, after: seq<Id>, e: Id, n: Id, deleted: set<Id>, cap: nat, metric: Metric)
    requires RowsOk(links, cap) && e in links && n in links && n != e
    requires if e in links[n] then DetachedRow(links, after, e, n, deleted, cap, metric) else after == links[n]
    ensures e !in after
  {
    assert RowOk(links.Keys, n, links[n], cap) && RowOk(links.Keys, e, links[e], cap);
    SwapRemoveElems(links[n], e);
    InElems(SwapRemove(links[n], e));
    InElems(after);
    InElems(links[e]);
  }
}

/** Connecting a newly stored node to the neighbours selected for it at one level. */
module Connect {
  import opened Seqs
  import opened LevelGraphs
  import opened NeighborSelection
  import opened Repair

  /** The simple case: both rows have room, and each node is appended to the other's row. */
  method LinkBothWays(g: LevelGraph, u: Id, v: Id, cap: nat)
    requires WellFormed(g.View(), cap) && u in g.links && v in g.links && u != v
    requires v !in g.links[u] && u !in g.links[v] && |g.links[u]| < cap && |g.links[v]| < cap
    modifies g`links
    ensures WellFormed(g.View(), cap)
    ensures g.links == old(g.links)[u := old(g.links[u]) + [v]][v := old(g.links[v]) + [u]]
  {
    BothWaysIsWellFormed(g.View(), u, v, cap);
    g.AppendLink(u, v);
    g.AppendLink(v, u);
  }

  /** The level with u and v appended to each other's rows. */
  function BothWays(g: Graph, u: Id, v: Id): Graph
    requires u in g.links && v in g.links
  {
    g.(links := g.links[u := g.links[u] + [v]][v := g.links[v] + [u]])
  }

  lemma BothWaysIsWellFormed(g: Graph, u: Id, v: Id, cap: nat)
    requires WellFormed(g, cap) && u in g.links && v in g.links && u != v
    requires v !in g.links[u] && u !in g.links[v] && |g.links[u]| < cap && |g.links[v]| < cap
    ensures WellFormed(BothWays(g, u, v), cap)
  {
    InElems(g.links[u]);
    InElems(g.links[v]);
    AddBothKeepsExact(AdjacencyOf(g.links), g.incoming, u, v);
    AppendedRow(g.links, u, v, cap);
    AppendedRow(g.links, v, u, cap);
    AdjacencyUpdate(g.links, u, g.links[u] + [v]);
    AdjacencyUpdate(g.links[u := g.links[u] + [v]], v, g.links[v] + [u]);
  }

  lemma AppendedRow(links: map<Id, seq<Id>>, u: Id, v: Id, cap: nat)
    requires RowsOk(links, cap) && u in links && v in links && u != v && v !in links[u] && |links[u]| < cap
    ensures RowOk(links.Keys, u, links[u] + [v], cap)
    ensures Elems(links[u] + [v]) == Elems(links[u]) + {v}
  {
  }

  /** The rows of the new node and its neighbour after the neighbour's links were reconsidered. */
  ghost predicate Revisited(before: map<Id, seq<Id>>, after: map<Id, seq<Id>>, newId: Id, neighbor: Id,
                            toUpdate: set<Id>, newChosen: bool, deleted: set<Id>, cap: nat)
    requires newId in before && neighbor in before
  {
    var kept := Without(before[neighbor], toUpdate - {newId});
    var connects := newId !in before[neighbor] && |before[newId]| < cap && newId !in deleted && neighbor !in deleted;
    && after.Keys == before.Keys
    && (forall v | v in before && v != newId && v != neighbor :: after[v] == before[v])
    && after[newId] == (if connects then before[newId] + [neighbor] else before[newId])
    && after[neighbor] == (if connects && newChosen && |kept| < cap then kept + [newId] else kept)
  }

  /**
   * The updating half of reconsidering a full neighbour: its array is compacted in place, links in
   * `toUpdate` are demoted to one-way edges or dropped, and the new node is connected in one direction
   * or both.  The neighbour's row may have changed since `toUpdate` was computed.
   */
  method UpdateRevisitedNeighbor(g: LevelGraph, newId: Id, neighbor: Id, toUpdate: seq<Id>, newChosen: bool,
                                 deleted: set<Id>, cap: nat)
    requires WellFormed(g.View(), cap) && newId in g.links && neighbor in g.links && newId != neighbor
    requires neighbor !in g.links[newId] && newId in toUpdate
    modifies g
    ensures WellFormed(g.View(), cap)
    ensures Revisited(old(g.links), g.links, newId, neighbor, Elems(toUpdate), newChosen, deleted, cap)
  {
    hide Exact, Without, RowOk, RowsOk, TwoRows;
    ghost var before := g.links;
    RowLengths(g.View(), newId, cap);
    ghost var newRow, row := before[newId], Without(before[neighbor], Elems(toUpdate) - {newId});
    var linked, idx := DropReconsidered(g, newId, neighbor, toUpdate, cap);
    var connects := !linked && |g.links[newId]| < cap && newId !in deleted && neighbor !in deleted;
    var both := connects && newChosen && idx < cap;
    if connects {
      ConnectNew(g, before, newId, neighbor, newRow, row, idx, both, cap);
      newRow := newRow + [neighbor];
      row := if both then row + [newId] else row;
    }
    FinishRows(g, before, newId, neighbor, newRow, row, if both then idx + 1 else idx, cap);
  }

  lemma RowLengths(g: Graph, u: Id, cap: nat)
    requires WellFormed(g, cap) && u in g.links
    ensures RowsOk(g.links, cap)
  {
  }

  /** Cuts off the stale entries. */
  method FinishRows(g: LevelGraph, ghost before: map<Id, seq<Id>>, u: Id, v: Id, ghost rowU: seq<Id>,
                    ghost rowV: seq<Id>, n: nat, ghost cap: nat)
    requires RowsOk(before, cap) && TwoRows(before, g.View(), u, v, rowU, rowV, cap) && n == |rowV|
    modifies g
    ensures WellFormed(g.View(), cap) && g.links.Keys == before.Keys
    ensures g.links[u] == rowU && g.links[v] == rowV
    ensures forall x | x in before && x != u && x != v :: g.links[x] == before[x]
  {
    hide Exact, RowOk;
    g.SetNumLinks(v, n);
    TwoRowsWellFormed(before, g.View(), u, v, rowU, rowV, cap);
  }

  /**
   * Only the rows of u and v differ from `before`: they stand for `rowU`, and for `rowV` followed by
   * stale entries.  The incoming arrays account for exactly that.
   */
  ghost predicate TwoRows(before: map<Id, seq<Id>>, now: Graph, u: Id, v: Id, rowU: seq<Id>, rowV: seq<Id>, cap: nat) {
    && u in before && v in before && u != v && now.links.Keys == before.Keys
    && (forall x | x in before && x != u && x != v :: now.links[x] == before[x])
    && now.links[u] == rowU && rowV <= now.links[v]
    && RowOk(before.Keys, u, rowU, cap) && RowOk(before.Keys, v, rowV, cap)
    && Exact(AdjacencyOf(before)[u := Elems(rowU)][v := Elems(rowV)], now.incoming, {})
  }

  lemma TwoRowsWellFormed(before: map<Id, seq<Id>>, now: Graph, u: Id, v: Id, rowU: seq<Id>, rowV: seq<Id>, cap: nat)
    requires RowsOk(before, cap) && TwoRows(before, now, u, v, rowU, rowV, cap) && now.links[v] == rowV
    ensures WellFormed(now, cap)
  {
    var adj := AdjacencyOf(before)[u := Elems(rowU)][v := Elems(rowV)];
    assert adj.Keys == now.links.Keys;
    forall x | x in before ensures adj[x] == AdjacencyOf(now.links)[x] {
    }
    assert adj == AdjacencyOf(now.links);
  }

  /** Appends the neighbour to the new node's row and, if asked to, writes the new node into the neighbour's. */
  method ConnectNew(g: LevelGraph, ghost before: map<Id, seq<Id>>, newId: Id, neighbor: Id,
                    ghost newRow: seq<Id>, ghost row: seq<Id>, pos: nat, both: bool, ghost cap: nat)
    requires TwoRows(before, g.View(), newId, neighbor, newRow, row, cap) && pos == |row|
    requires neighbor !in newRow && newId !in row && |newRow| < cap && (both ==> pos < cap)
    modifies g
    ensures TwoRows(before, g.View(), newId, neighbor, newRow + [neighbor], if both then row + [newId] else row, cap)
  {
    ghost var base := AdjacencyOf(before);
    ghost var adj := base[newId := Elems(newRow)][neighbor := Elems(row)];
    AppendToRow(before.Keys, newId, newRow, neighbor, cap);
    InElems(row);
    g.AppendLink(newId, neighbor);
    if both {
      AppendToRow(before.Keys, neighbor, row, newId, cap);
      AddBothKeepsExact(adj, g.incoming, newId, neighbor);
      assert adj[newId := adj[newId] + {neighbor}][neighbor := adj[neighbor] + {newId}]
          == base[newId := Elems(newRow + [neighbor])][neighbor := Elems(row + [newId])];
      g.SetLinkAtPos(neighbor, pos, newId);
    } else {
      AddKeepsExact(adj, g.incoming, {}, newId, neighbor);
      assert adj[newId := adj[newId] + {neighbor}] == base[newId := Elems(newRow + [neighbor])][neighbor := Elems(row)];
      g.NewIncoming(neighbor, newId);
    }
  }

  lemma AppendToRow(nodes: set<Id>, u: Id, row: seq<Id>, v: Id, cap: nat)
    requires RowOk(nodes, u, row, cap) && v in nodes && v !in row && v != u && |row| < cap
    ensures RowOk(nodes, u, row + [v], cap)
    ensures Elems(row + [v]) == Elems(row) + {v} && v !in Elems(row)
  {
  }

  /**
   * Compacts the neighbour's array.  A link to the new node that appeared in the meantime is kept and
   * reported as `linked`.
   */
  method DropReconsidered(g: LevelGraph, newId: Id, neighbor: Id, toUpdate: seq<Id>, ghost cap: nat)
    returns (linked: bool, idx: nat)
    requires WellFormed(g.View(), cap) && newId in g.links && neighbor in g.links && newId != neighbor
    requires newId in toUpdate
    modifies g
    ensures var kept := Without(old(g.links[neighbor]), Elems(toUpdate) - {newId});
      && idx == |kept| && (linked <==> newId in kept)
      && TwoRows(old(g.links), g.View(), newId, neighbor, old(g.links[newId]), kept, cap)
    ensures linked <==> newId in old(g.links[neighbor])
  {
    ghost var before, drop := g.links, Elems(toUpdate) - {newId};
    ghost var kept := Without(before[neighbor], drop);
    assert RowOk(before.Keys, newId, before[newId], cap) && RowOk(before.Keys, neighbor, before[neighbor], cap);
    assert Elems([newId]) == {newId};
    var left;
    left, idx := CompactRow(g, neighbor, toUpdate, [newId], cap);
    WithoutNoDup(before[neighbor], drop);
    InElems(left);
    InElems(before[neighbor]);
    assert left != [] ==> left[0] in left;
    linked := left == [];
    assert AdjacencyOf(before)[newId := Elems(before[newId])] == AdjacencyOf(before);
  }

  /** The new node and the links of a full row, with their distances to the row's owner. */
  function Competitors(row: seq<Id>, newId: Id, dist: real, owner: Id, metric: Metric): seq<Candidate> {
    [Candidate(dist, newId)] + seq(|row|, i requires 0 <= i < |row| => Candidate(metric(row[i], owner), row[i]))
  }

  /** The heuristic keeps `picked` of a full row and the new node, and leaves out `removed`. */
  ghost predicate Competed(row: seq<Id>, newId: Id, dist: real, owner: Id, metric: Metric, picked: seq<Candidate>,
                           removed: seq<Id>)
  {
    var cands := Competitors(row, newId, dist, owner, metric);
    Filtered(cands, |row|, metric, picked, removed) && Splits(cands, picked, removed)
  }

  /** Filters a full row and the new node together; choosing the new node costs a present link. */
  method CompeteForRow(row: seq<Id>, newId: Id, dist: real, owner: Id, metric: Metric)
    returns (removed: seq<Id>, ghost picked: seq<Candidate>)
    requires NoDup(row) && newId !in row
    ensures Competed(row, newId, dist, owner, metric, picked, removed)
    ensures newId !in removed ==> exists x :: x in removed && x in row
  {
    hide Filtered, NoDup, Splits;
    var candidates := Competitors(row, newId, dist, owner, metric);
    assert Ids(candidates) == [newId] + row;
    LeadNoDup(row, newId);
    var kept;
    kept, removed := SelectNeighbors(candidates, |row|, metric);
    picked := kept;
    SplitCosts(row, newId, candidates, picked, removed);
  }

  /** Choosing the new node costs a full row one of its links. */
  lemma CompetedCosts(row: seq<Id>, newId: Id, dist: real, owner: Id, metric: Metric, picked: seq<Candidate>,
                      removed: seq<Id>)
    requires NoDup(row) && newId !in row && Competed(row, newId, dist, owner, metric, picked, removed)
    ensures newId !in removed ==> |Without(row, Elems(removed) + {newId, owner} - {newId})| < |row|
  {
    hide Splits, Without, NoDup;
    var candidates := Competitors(row, newId, dist, owner, metric);
    assert Ids(candidates) == [newId] + row;
    SplitCosts(row, newId, candidates, picked, removed);
    if newId !in removed {
      var x :| x in removed && x in row;
      InElems(removed);
      DroppingShrinks(row, Elems(removed) + {newId, owner} - {newId}, x);
    }
  }

  lemma LeadNoDup(row: seq<Id>, newId: Id)
    requires NoDup(row) && newId !in row
    ensures NoDup([newId] + row)
  {
  }

  /** With fewer chosen than there are candidates, somebody is left out: if not the new node, a link. */
  lemma SplitCosts(row: seq<Id>, newId: Id, candidates: seq<Candidate>, picked: seq<Candidate>, removed: seq<Id>)
    requires NoDup(row) && newId !in row && Ids(candidates) == [newId] + row && |picked| <= |row|
    requires Splits(candidates, picked, removed)
    ensures newId !in removed ==> exists x :: x in removed && x in row
  {
    ElemsConcat([newId], row);
    assert Elems([newId]) == {newId};
    InElems(row);
    InElems(removed);
    NoDupSize(Ids(picked));
    NoDupSize([newId] + row);
    assert |Elems(Ids(picked)) + Elems(removed)| == |picked| + |Elems(removed)|;
    assert removed != [] ==> removed[0] in Elems(removed);
  }

  /**
   * Decides how a full neighbour's row changes.  `toUpdate` holds the links the filter leaves out, the
   * new node and the neighbour.
   */
  method PlanRevisit(g: LevelGraph, newId: Id, neighbor: Candidate, cap: nat, metric: Metric)
    returns (toUpdate: seq<Id>, newChosen: bool, ghost picked: seq<Candidate>, ghost removed: seq<Id>)
    requires WellFormed(g.View(), cap) && newId in g.links && neighbor.id in g.links && newId != neighbor.id
    requires newId !in g.links[neighbor.id] && |g.links[neighbor.id]| == cap
    ensures Competed(g.links[neighbor.id], newId, neighbor.dist, neighbor.id, metric, picked, removed)
    ensures (newChosen <==> newId !in removed) && Elems(toUpdate) == Elems(removed) + {newId, neighbor.id}
    ensures newChosen ==> |Without(g.links[neighbor.id], Elems(toUpdate) - {newId})| < cap
  {
    hide Competed, Without, NoDup;
    var row := g.links[neighbor.id];
    assert RowOk(g.links.Keys, neighbor.id, row, cap);
    toUpdate, picked := CompeteForRow(row, newId, neighbor.dist, neighbor.id, metric);
    removed := toUpdate;
    newChosen := newId !in toUpdate;
    if newChosen {
      toUpdate := toUpdate + [newId];
    }
    toUpdate := toUpdate + [neighbor.id];
    UpdatedSet(removed, newId, neighbor.id);
    if newChosen {
      ghost var x :| x in removed && x in row;
      DroppingShrinks(row, Elems(toUpdate) - {newId}, x);
    }
  }

  lemma UpdatedSet(removed: seq<Id>, newId: Id, owner: Id)
    ensures Elems(removed + [newId] + [owner]) == Elems(removed) + {newId, owner}
    ensures newId in removed ==> Elems(removed + [owner]) == Elems(removed) + {newId, owner}
    ensures forall x :: x in removed <==> x in Elems(removed)
  {
  }

  lemma DroppingShrinks(row: seq<Id>, drop: set<Id>, x: Id)
    requires NoDup(row) && x in row && x in drop
    ensures |Without(row, drop)| < |row|
  {
  }

  /** Reconsiders the links of a full neighbour in favour of the new node. */
  method RevisitNeighborConnections(g: LevelGraph, newId: Id, neighbor: Candidate, deleted: set<Id>, cap: nat,
                                    metric: Metric)
    returns (ghost picked: seq<Candidate>, ghost removed: seq<Id>)
    requires WellFormed(g.View(), cap) && newId in g.links && neighbor.id in g.links && newId != neighbor.id
    requires neighbor.id !in g.links[newId] && newId !in g.links[neighbor.id]
    requires |g.links[neighbor.id]| == cap
    modifies g
    ensures WellFormed(g.View(), cap)
    ensures Competed(old(g.links[neighbor.id]), newId, neighbor.dist, neighbor.id, metric, picked, removed)
    ensures Revisited(old(g.links), g.links, newId, neighbor.id, Elems(removed) + {newId, neighbor.id},
                      newId !in removed, deleted, cap)
    ensures newId !in removed ==>
              |Without(old(g.links[neighbor.id]), Elems(removed) + {newId, neighbor.id} - {newId})| < cap
  {
    hide Competed, WellFormed, Revisited, Without;
    var toUpdate, newChosen;
    toUpdate, newChosen, picked, removed := PlanRevisit(g, newId, neighbor, cap, metric);
    assert newId in Elems(toUpdate);
    UpdateRevisitedNeighbor(g, newId, neighbor.id, toUpdate, newChosen, deleted, cap);
  }

  /**
   * What connecting the new node does to the row of a live selected neighbour: it is appended if there is
   * room; otherwise the heuristic decides among the present links and the new node.
   */
  ghost predicate NeighborRow(before: seq<Id>, after: seq<Id>, newId: Id, neighbor: Candidate, cap: nat, metric: Metric) {
    && (|before| < cap ==> after == before + [newId])
    && (|before| >= cap ==> exists picked, removed ::
          && Competed(before, newId, neighbor.dist, neighbor.id, metric, picked, removed)
          && after == Without(before, Elems(removed)) + if newId in removed then [] else [newId])
  }

  lemma {:induction false} WithoutAgrees(s: seq<Id>, a: set<Id>, b: set<Id>)
    requires forall i | 0 <= i < |s| :: s[i] in a <==> s[i] in b
    ensures Without(s, a) == Without(s, b)
  {
    hide Without;
    if s != [] {
      var n := |s| - 1;
      WithoutAgrees(s[..n], a, b);
      WithoutStep(s, a, n);
      WithoutStep(s, b, n);
      assert s[..n + 1] == s;
    } else {
      WithoutNothing(a);
      WithoutNothing(b);
    }
  }

  lemma WithoutNothing(drop: set<Id>)
    ensures Without([], drop) == []
  {
  }

  lemma RevisitedRow(before: map<Id, seq<Id>>, after: map<Id, seq<Id>>, newId: Id, neighbor: Candidate,
                     picked: seq<Candidate>, removed: seq<Id>, deleted: set<Id>, cap: nat, metric: Metric)
    requires newId in before && neighbor.id in before && newId !in deleted && neighbor.id !in deleted
    requires |before[newId]| < cap == |before[neighbor.id]|
    requires newId !in before[neighbor.id] && neighbor.id !in before[neighbor.id]
    requires Competed(before[neighbor.id], newId, neighbor.dist, neighbor.id, metric, picked, removed)
    requires var toUpdate := Elems(removed) + {newId, neighbor.id};
      && Revisited(before, after, newId, neighbor.id, toUpdate, newId !in removed, deleted, cap)
      && (newId !in removed ==> |Without(before[neighbor.id], toUpdate - {newId})| < cap)
    ensures after[newId] == before[newId] + [neighbor.id]
    ensures NeighborRow(before[neighbor.id], after[neighbor.id], newId, neighbor, cap, metric)
  {
    hide Competed;
    InElems(removed);
    WithoutAgrees(before[neighbor.id], Elems(removed) + {newId, neighbor.id} - {newId}, Elems(removed));
  }

  /** The links after the new node was connected to the first k selected neighbours. */
  ghost predicate Connected(before: map<Id, seq<Id>>, after: map<Id, seq<Id>>, newId: Id, selected: seq<Candidate>,
                            deleted: set<Id>, cap: nat, metric: Metric)
    requires newId in before
  {
    && after.Keys == before.Keys
    && after[newId] == (if newId in deleted then [] else Without(Ids(selected), deleted))
    && (forall v | v in before && v != newId && (v !in Ids(selected) || v in deleted || newId in deleted) ::
          after[v] == before[v])
    && forall c | c in selected && c.id in before && c.id != newId && c.id !in deleted && newId !in deleted ::
         NeighborRow(before[c.id], after[c.id], newId, c, cap, metric)
  }

  /** Connects the new node to one selected neighbour. */
  method ConnectToNeighbor(g: LevelGraph, newId: Id, neighbor: Candidate, deleted: set<Id>, cap: nat, metric: Metric)
    requires WellFormed(g.View(), cap) && newId in g.links && neighbor.id in g.links && newId != neighbor.id
    requires neighbor.id !in g.links[newId] && newId !in g.links[neighbor.id] && |g.links[newId]| < cap
    modifies g
    ensures WellFormed(g.View(), cap)
    ensures g.links.Keys == old(g.links).Keys && newId !in g.links[newId]
    ensures forall v | v in g.links && v != newId && v != neighbor.id :: g.links[v] == old(g.links)[v]
    ensures newId in deleted || neighbor.id in deleted ==> g.links == old(g.links)
    ensures newId !in deleted && neighbor.id !in deleted ==>
              && g.links[newId] == old(g.links[newId]) + [neighbor.id]
              && NeighborRow(old(g.links[neighbor.id]), g.links[neighbor.id], newId, neighbor, cap, metric)
  {
    hide Competed;
    assert RowOk(g.links.Keys, newId, g.links[newId], cap);
    if newId in deleted || neighbor.id in deleted {
      return;
    }
    assert RowOk(g.links.Keys, neighbor.id, g.links[neighbor.id], cap);
    if |g.links[neighbor.id]| < cap {
      LinkBothWays(g, newId, neighbor.id, cap);
    } else {
      ghost var before := g.links;
      ghost var picked, removed := RevisitNeighborConnections(g, newId, neighbor, deleted, cap, metric);
      RevisitedRow(before, g.links, newId, neighbor, picked, removed, deleted, cap, metric);
    }
  }

  method Nearest(cands: seq<Candidate>) returns (next: Id)
    requires cands != []
    ensures exists c | c in cands :: c.id == next && forall d | d in cands :: c.dist <= d.dist
  {
    var best := cands[0];
    for i := 1 to |cands|
      invariant best in cands && forall d | d in cands[..i] :: best.dist <= d.dist
    {
      if cands[i].dist < best.dist {
        best := cands[i];
      }
      assert cands[..i + 1] == cands[..i] + [cands[i]];
    }
    assert cands[..|cands|] == cands;
    next := best.id;
  }

  /**
   * Selects neighbours among the candidates and connects the new node to each live one.  Returns the
   * nearest candidate, where the search on the level below starts.
   */
  method MutuallyConnectNewElement(g: LevelGraph, newId: Id, cands: seq<Candidate>, max: nat, cap: nat,
                                   deleted: set<Id>, metric: Metric)
    returns (next: Id, ghost selected: seq<Candidate>)
    requires WellFormed(g.View(), cap) && newId in g.links && g.links[newId] == []
    requires forall v | v in g.links :: newId !in g.links[v]
    requires cands != [] && NoDup(Ids(cands)) && Elems(Ids(cands)) <= g.links.Keys - {newId}
    requires 0 < max <= cap
    modifies g
    ensures WellFormed(g.View(), cap)
    ensures selected != [] && Elems(selected) <= Elems(cands)
    ensures |cands| < max ==> selected == cands
    ensures |cands| >= max ==> exists removed :: Filtered(cands, max, metric, selected, removed)
                                                && Splits(cands, selected, removed)
    ensures Connected(old(g.links), g.links, newId, selected, deleted, cap, metric)
    ensures exists c | c in cands :: c.id == next && forall d | d in cands :: c.dist <= d.dist
  {
    var picked, removed := SelectNeighbors(cands, max, metric);
    selected := picked;
    if |cands| < max {
      next := Nearest(cands);
    } else {
      next := picked[0].id;
      assert picked[0] in Elems(cands);
    }
    hide WellFormed, Filtered;
    ConnectToAll(g, newId, picked, cap, deleted, metric);
  }

  /** Connects the new node to the selected neighbours, one after the other. */
  method ConnectToAll(g: LevelGraph, newId: Id, selected: seq<Candidate>, cap: nat, deleted: set<Id>, metric: Metric)
    requires WellFormed(g.View(), cap) && newId in g.links && g.links[newId] == []
    requires forall v | v in g.links :: newId !in g.links[v]
    requires NoDup(Ids(selected)) && Elems(Ids(selected)) <= g.links.Keys - {newId} && |selected| <= cap
    modifies g
    ensures WellFormed(g.View(), cap)
    ensures Connected(old(g.links), g.links, newId, selected, deleted, cap, metric)
  {
    ghost var before := g.links;
    for k := 0 to |selected|
      invariant WellFormed(g.View(), cap)
      invariant Connected(before, g.links, newId, selected[..k], deleted, cap, metric)
      invariant Untouched(g.links, newId, Ids(selected[..k]))
    {
      ghost var mid := g.links;
      NextNeighbor(before, mid, newId, selected, k, deleted, cap, metric);
      hide WellFormed, Connected, Without, Untouched, NeighborRow;
      ConnectToNeighbor(g, newId, selected[k], deleted, cap, metric);
      ConnectedStep(before, mid, g.links, newId, selected, k, deleted, cap, metric);
    }
    assert selected[..|selected|] == selected;
  }

  /** Nodes not handled yet do not point to the new node. */
  ghost predicate Untouched(links: map<Id, seq<Id>>, newId: Id, done: seq<Id>) {
    forall v | v in links && v !in done :: newId !in links[v]
  }

  /** The ids of the selected neighbours, one by one. */
  lemma NextId(selected: seq<Candidate>, k: nat)
    requires NoDup(Ids(selected)) && k < |selected|
    ensures Ids(selected[..k]) == Ids(selected)[..k] && Ids(selected[..k + 1]) == Ids(selected)[..k + 1]
    ensures selected[..k + 1] == selected[..k] + [selected[k]]
    ensures selected[k].id !in Ids(selected[..k])
    ensures forall v :: v in Ids(selected[..k + 1]) <==> v in Ids(selected[..k]) || v == selected[k].id
    ensures forall c | c in selected[..k] :: c.id in Ids(selected[..k])
  {
  }

  lemma NextNeighbor(before: map<Id, seq<Id>>, mid: map<Id, seq<Id>>, newId: Id, selected: seq<Candidate>, k: nat,
                     deleted: set<Id>, cap: nat, metric: Metric)
    requires newId in before && NoDup(Ids(selected)) && Elems(Ids(selected)) <= before.Keys - {newId}
    requires k < |selected| <= cap
    requires Connected(before, mid, newId, selected[..k], deleted, cap, metric) && Untouched(mid, newId, Ids(selected[..k]))
    ensures var v := selected[k].id;
      && v in mid && v != newId && mid.Keys == before.Keys
      && v !in mid[newId] && newId !in mid[v] && |mid[newId]| < cap
  {
    hide NeighborRow;
    NextId(selected, k);
    InElems(Ids(selected));
    assert selected[k].id == Ids(selected)[k] && selected[k].id in Elems(Ids(selected));
  }

  lemma ConnectedStep(before: map<Id, seq<Id>>, mid: map<Id, seq<Id>>, after: map<Id, seq<Id>>, newId: Id,
                      selected: seq<Candidate>, k: nat, deleted: set<Id>, cap: nat, metric: Metric)
    requires newId in before && k < |selected| && NoDup(Ids(selected))
    requires newId != selected[k].id && selected[k].id in before
    requires Connected(before, mid, newId, selected[..k], deleted, cap, metric) && after.Keys == before.Keys
    requires Untouched(mid, newId, Ids(selected[..k])) && newId !in after[newId]
    requires forall v | v in before && v != newId && v != selected[k].id :: after[v] == mid[v]
    requires newId in deleted || selected[k].id in deleted ==> after == mid
    requires newId !in deleted && selected[k].id !in deleted ==>
               && after[newId] == mid[newId] + [selected[k].id]
               && NeighborRow(mid[selected[k].id], after[selected[k].id], newId, selected[k], cap, metric)
    ensures Connected(before, after, newId, selected[..k + 1], deleted, cap, metric)
    ensures Untouched(after, newId, Ids(selected[..k + 1]))
  {
    hide Without, NeighborRow, NoDup;
    NextId(selected, k);
    WithoutStep(Ids(selected), deleted, k);
    assert mid[selected[k].id] == before[selected[k].id];
    assert Ids(selected)[k] == selected[k].id;
  }
}

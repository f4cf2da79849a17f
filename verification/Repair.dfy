/**
 * Repairing a node whose neighbours were marked deleted.  The repair reads the node's surroundings,
 * decides what to keep, and only then locks everything it will touch and updates; the graph may have
 * changed in between, so the update has to be correct for whatever it was told to do.
 */
module Repair {
  import opened Seqs
  import opened LevelGraphs
  import opened NeighborSelection

  ghost predicate AnyPointsTo(links: map<Id, seq<Id>>, sources: set<Id>, v: Id) {
    exists d :: d in sources && d in links && v in links[d]
  }

  /** The live neighbours of u, and the live nodes its marked-deleted neighbours point to. */
  ghost function RepairCandidates(links: map<Id, seq<Id>>, u: Id, deleted: set<Id>): set<Id>
    requires u in links
  {
    set v | v in links && v !in deleted && v != u
            && (v in links[u] || AnyPointsTo(links, Elems(links[u]) * deleted, v))
  }

  /** All candidates if there is room for them, and otherwise what the heuristic keeps of them. */
  ghost predicate Picked(cands: set<Id>, u: Id, cap: nat, metric: Metric, chosen: seq<Id>) {
    && NoDup(chosen) && Elems(chosen) <= cands && |chosen| <= cap
    && (|cands| <= cap ==> Elems(chosen) == cands)
    && (|cands| > cap ==> WellChosen(cands, u, cap, metric, chosen))
  }

  /** What the reading half of a repair hands to the updating half. */
  ghost predicate RepairPlan(g: Graph, u: Id, deleted: set<Id>, cap: nat, metric: Metric,
                             toUpdate: seq<Id>, chosen: seq<Id>)
    requires u in g.links
  {
    var cands := RepairCandidates(g.links, u, deleted);
    && NoDup(toUpdate) && u !in toUpdate && Elems(toUpdate) <= g.links.Keys
    && Picked(cands, u, cap, metric, chosen)
    && Elems(toUpdate) == Elems(g.links[u]) + Elems(chosen)
  }

  /** Splits the row of u into its marked-deleted and its live entries. */
  method SplitRow(g: LevelGraph, u: Id, deleted: set<Id>) returns (gone: seq<Id>, kept: seq<Id>)
    requires u in g.links && NoDup(g.links[u])
    ensures NoDup(gone) && Elems(gone) == Elems(g.links[u]) * deleted
    ensures NoDup(kept) && Elems(kept) == Elems(g.links[u]) - deleted
  {
    var row := g.links[u];
    gone, kept := [], [];
    for i := 0 to |row|
      invariant NoDup(gone) && forall x :: x in gone <==> x in row[..i] && x in deleted
      invariant NoDup(kept) && forall x :: x in kept <==> x in row[..i] && x !in deleted
    {
      assert row[..i + 1] == row[..i] + [row[i]] && row[i] !in row[..i];
      if row[i] in deleted {
        gone := gone + [row[i]];
      } else {
        kept := kept + [row[i]];
      }
    }
    assert row[..|row|] == row;
    assert forall x :: x in gone <==> x in row && x in deleted;
    InElems(row);
    assert forall x :: x in Elems(row) * deleted <==> x in row && x in deleted;
    SameElems(gone, Elems(row) * deleted);
    SameElems(kept, Elems(row) - deleted);
  }

  /** Adds the live neighbours of one deleted neighbour that were not collected before. */
  method CollectFrom(g: LevelGraph, u: Id, deleted: set<Id>, d: Id, before: seq<Id>)
    returns (candidates: seq<Id>)
    requires d in g.links && NoDup(before)
    ensures NoDup(candidates)
    ensures forall x :: x in candidates <==> x in before || (x in g.links[d] && x !in deleted && x != u)
  {
    var row := g.links[d];
    candidates := before;
    for j := 0 to |row|
      invariant NoDup(candidates)
      invariant forall x :: x in candidates <==> x in before || (x in row[..j] && x !in deleted && x != u)
    {
      assert row[..j + 1] == row[..j] + [row[j]];
      if row[j] !in deleted && row[j] !in candidates && row[j] != u {
        candidates := candidates + [row[j]];
      }
    }
    assert row[..|row|] == row;
  }

  method CollectCandidates(g: LevelGraph, u: Id, deleted: set<Id>, gone: seq<Id>, kept: seq<Id>, ghost cap: nat)
    returns (candidates: seq<Id>)
    requires WellFormed(g.View(), cap) && u in g.links
    requires Elems(gone) == Elems(g.links[u]) * deleted
    requires NoDup(kept) && Elems(kept) == Elems(g.links[u]) - deleted
    ensures NoDup(candidates) && Elems(candidates) == RepairCandidates(g.links, u, deleted)
  {
    candidates := kept;
    InElems(kept);
    InElems(gone);
    InElems(g.links[u]);
    assert RowOk(g.links.Keys, u, g.links[u], cap);
    for i := 0 to |gone|
      invariant NoDup(candidates)
      invariant forall x :: x in candidates <==>
                  x !in deleted && x != u && (x in g.links[u] || AnyPointsTo(g.links, Elems(gone[..i]), x))
    {
      assert gone[i] in gone;
      candidates := CollectFrom(g, u, deleted, gone[i], candidates);
      assert Elems(gone[..i + 1]) == Elems(gone[..i]) + {gone[i]};
      forall x ensures AnyPointsTo(g.links, Elems(gone[..i + 1]), x)
                  <==> AnyPointsTo(g.links, Elems(gone[..i]), x) || x in g.links[gone[i]]
      {
      }
    }
    assert gone[..|gone|] == gone;
    InElems(candidates);
    forall x | x in candidates ensures x in g.links {
      if x !in g.links[u] {
        var d :| d in Elems(gone) && d in g.links && x in g.links[d];
        assert RowOk(g.links.Keys, d, g.links[d], cap) && x in Elems(g.links[d]);
      } else {
        assert x in Elems(g.links[u]);
      }
    }
    SameElems(candidates, RepairCandidates(g.links, u, deleted));
  }

  /**
   * The reading half.  `found` is false when no neighbour is marked deleted any more, in which case
   * there is nothing to do.
   */
  method PlanRepair(g: LevelGraph, u: Id, deleted: set<Id>, cap: nat, metric: Metric)
    returns (found: bool, toUpdate: seq<Id>, chosen: seq<Id>)
    requires WellFormed(g.View(), cap) && u in g.links
    ensures found <==> Elems(g.links[u]) * deleted != {}
    ensures found ==> RepairPlan(g.View(), u, deleted, cap, metric, toUpdate, chosen)
  {
    hide WellFormed, RepairCandidates, WellChosen, Without, NoDup;
    toUpdate, chosen := [], [];
    RowIsDistinct(g.View(), u, cap);
    var gone, kept := SplitRow(g, u, deleted);
    found := gone != [];
    if !found {
      return;
    }
    assert gone[0] in Elems(gone);
    var candidates := CollectCandidates(g, u, deleted, gone, kept, cap);
    var removed;
    chosen, removed := ChooseAmong(u, candidates, cap, metric);
    var rest := Without(removed, Elems(candidates) - Elems(g.links[u]));
    WithoutNoDup(removed, Elems(candidates) - Elems(g.links[u]));
    LiveAreCandidates(g.View(), u, deleted, cap);
    toUpdate := gone + rest + chosen;
    PlanIsComplete(g.View(), u, deleted, cap, gone, rest, chosen);
  }

  /** All candidates if there is room for them, and otherwise those the heuristic keeps. */
  method ChooseAmong(u: Id, candidates: seq<Id>, cap: nat, metric: Metric) returns (chosen: seq<Id>, removed: seq<Id>)
    requires NoDup(candidates)
    ensures Picked(Elems(candidates), u, cap, metric, chosen)
    ensures NoDup(removed) && Elems(chosen) !! Elems(removed)
    ensures Elems(chosen) + Elems(removed) == Elems(candidates)
  {
    hide WellChosen;
    NoDupSize(candidates);
    chosen, removed := candidates, [];
    if |candidates| > cap {
      chosen, removed := SelectAround(u, candidates, cap, metric);
    }
  }

  lemma LiveAreCandidates(g: Graph, u: Id, deleted: set<Id>, cap: nat)
    requires WellFormed(g, cap) && u in g.links
    ensures Elems(g.links[u]) - deleted <= RepairCandidates(g.links, u, deleted)
    ensures RepairCandidates(g.links, u, deleted) !! deleted
  {
    assert RowOk(g.links.Keys, u, g.links[u], cap);
    InElems(g.links[u]);
    hide WellFormed;
  }

  lemma RowIsDistinct(g: Graph, u: Id, cap: nat)
    requires WellFormed(g, cap) && u in g.links
    ensures NoDup(g.links[u])
  {
    assert RowOk(g.links.Keys, u, g.links[u], cap);
  }

  /** The lock list is duplicate-free and covers the node's links and the chosen neighbours. */
  lemma PlanIsComplete(g: Graph, u: Id, deleted: set<Id>, cap: nat,
                       gone: seq<Id>, rest: seq<Id>, chosen: seq<Id>)
    requires WellFormed(g, cap) && u in g.links
    requires NoDup(gone) && Elems(gone) == Elems(g.links[u]) * deleted
    requires NoDup(chosen) && Elems(chosen) <= RepairCandidates(g.links, u, deleted)
    requires NoDup(rest) && Elems(rest) == Elems(g.links[u]) - deleted - Elems(chosen)
    ensures NoDup(gone + rest + chosen) && u !in gone + rest + chosen
    ensures Elems(gone + rest + chosen) == Elems(g.links[u]) + Elems(chosen)
    ensures Elems(gone + rest + chosen) <= g.links.Keys
  {
    assert RowOk(g.links.Keys, u, g.links[u], cap);
    NoDupConcat(gone, rest);
    NoDupConcat(gone + rest, chosen);
    assert u !in Elems(g.links[u]) + Elems(chosen);
    InElems(gone + rest + chosen);
  }

  /** Chosen neighbours the update may still connect: not linked yet, live and fully inserted. */
  ghost function Eligible(row: seq<Id>, chosen: seq<Id>, barred: set<Id>): set<Id> {
    Elems(chosen) - Elems(row) - barred
  }

  /**
   * The new row of an updated node: the old one without the links to be dropped, in order, followed
   * by eligible chosen neighbours, all of them unless the row is full or the node may not gain links.
   */
  ghost predicate UpdatedRow(before: seq<Id>, after: seq<Id>, drop: set<Id>, eligible: set<Id>,
                             mayGrow: bool, cap: nat)
  {
    UpdatedBy(Without(before, drop), after, eligible, mayGrow, cap)
  }

  /**
   * The updating half of a repair.  Nothing is assumed about how `toUpdate` and `chosen` came about
   * beyond their being distinct ids of the level, chosen ones among those to update.  `barred` are the
   * nodes marked deleted or still being inserted.
   */
  method MutuallyUpdateForRepairedNode(g: LevelGraph, u: Id, toUpdate: seq<Id>, chosen: seq<Id>,
                                       barred: set<Id>, cap: nat)
    requires WellFormed(g.View(), cap) && u in g.links
    requires NoDup(chosen) && u !in chosen && Elems(chosen) <= Elems(toUpdate) * g.links.Keys
    modifies g
    ensures WellFormed(g.View(), cap)
    ensures OnlyAt(old(g.links), g.links, u)
    ensures UpdatedRow(old(g.links[u]), g.links[u], Elems(toUpdate) - Elems(chosen),
                       Eligible(old(g.links[u]), chosen, barred), u !in barred, cap)
  {
    ghost var row0, adj0 := g.links[u], AdjacencyOf(g.links);
    ghost var drop := Elems(toUpdate) - Elems(chosen);
    assert RowOk(g.links.Keys, u, row0, cap) && g.incoming.Keys == g.links.Keys;
    var left, idx := CompactRow(g, u, toUpdate, chosen, cap);
    ghost var kept := Without(row0, drop);
    WithoutNoDup(row0, drop);
    InElems(left);
    InElems(chosen);
    idx := ConnectChosen(g, u, kept, idx, left, barred, cap, adj0[u := Elems(kept)]);
    g.SetNumLinks(u, idx);
    UpdatedIsWellFormed(old(g.View()), g.View(), u, kept, Elems(left) - barred, u !in barred, cap);
  }

  lemma UpdatedIsWellFormed(before: Graph, after: Graph, u: Id, kept: seq<Id>, eligible: set<Id>,
                            mayGrow: bool, cap: nat)
    requires WellFormed(before, cap) && OnlyAt(before.links, after.links, u)
    requires Elems(kept) <= Elems(before.links[u]) && eligible <= before.links.Keys - {u}
    requires UpdatedBy(kept, after.links[u], eligible, mayGrow, cap)
    requires Exact(AdjacencyOf(before.links)[u := Elems(kept)][u := Elems(after.links[u])], after.incoming, {})
    ensures WellFormed(after, cap)
  {
    var row := after.links[u];
    assert RowOk(before.links.Keys, u, before.links[u], cap);
    assert row == kept + row[|kept|..];
    ElemsConcat(kept, row[|kept|..]);
    InElems(row);
    InElems(before.links[u]);
    OnlyAtUpdate(before.links, after.links, u);
    AdjacencyUpdate(before.links, u, row);
    assert AdjacencyOf(before.links)[u := Elems(kept)][u := Elems(row)] == AdjacencyOf(after.links);
    forall v | v in after.links ensures RowOk(after.links.Keys, v, after.links[v], cap) {
      assert v != u ==> RowOk(before.links.Keys, v, before.links[v], cap);
    }
  }

  /** Second pass: connects the chosen ids one by one, as far as flags and capacity allow. */
  method ConnectChosen(g: LevelGraph, u: Id, ghost kept: seq<Id>, start: nat, left: seq<Id>, barred: set<Id>,
                       cap: nat, ghost adj0: Adjacency)
    returns (idx: nat)
    requires u in g.links && start == |kept| <= cap && kept <= g.links[u] && NoDup(kept)
    requires NoDup(left) && Elems(left) !! Elems(kept) && u !in left && Elems(left) <= adj0.Keys
    requires u in adj0 && adj0[u] == Elems(kept) && Exact(adj0, g.incoming, {})
    modifies g
    ensures OnlyAt(old(g.links), g.links, u)
    ensures idx <= |g.links[u]|
    ensures UpdatedBy(kept, g.links[u][..idx], Elems(left) - barred, u !in barred, cap)
    ensures Exact(adj0[u := Elems(g.links[u][..idx])], g.incoming, {})
  {
    idx := start;
    ghost var row := kept;
    assert adj0 == adj0[u := Elems(row)];
    for j := 0 to |left|
      invariant OnlyAt(old(g.links), g.links, u)
      invariant idx == |row| <= |g.links[u]| && g.links[u][..idx] == row
      invariant UpdatedBy(kept, row, Elems(left[..j]) - barred, u !in barred, cap)
      invariant Exact(adj0[u := Elems(row)], g.incoming, {})
    {
      ElemsStep(left, j);
      if idx == cap || u in barred {
        break;
      }
      if left[j] !in barred {
        ghost var before := row;
        row := row + [left[j]];
        GrowRow(kept, before, left[j], Elems(left[..j]) - barred, cap);
        idx := ConnectOne(g, u, left[j], idx, adj0[u := Elems(before)]);
        assert adj0[u := Elems(before)][u := Elems(before) + {left[j]}] == adj0[u := Elems(row)];
        assert Elems(left[..j + 1]) - barred == Elems(left[..j]) - barred + {left[j]};
      } else {
        assert Elems(left[..j + 1]) - barred == Elems(left[..j]) - barred;
      }
    }
    assert left[..|left|] == left;
  }

  /** `row` extends `kept` by eligible ids: by all of them, unless it is full or may not grow. */
  ghost predicate UpdatedBy(kept: seq<Id>, row: seq<Id>, eligible: set<Id>, mayGrow: bool, cap: nat) {
    && kept <= row && NoDup(row) && |row| <= cap
    && Elems(row[|kept|..]) <= eligible
    && (!mayGrow ==> row == kept)
    && (mayGrow ==> |row| == cap || Elems(row[|kept|..]) == eligible)
  }

  lemma GrowRow(kept: seq<Id>, row: seq<Id>, c: Id, eligible: set<Id>, cap: nat)
    requires UpdatedBy(kept, row, eligible, true, cap) && |row| < cap
    requires c !in eligible && c !in Elems(kept)
    ensures UpdatedBy(kept, row + [c], eligible + {c}, true, cap)
    ensures c !in Elems(row) && Elems(row + [c]) == Elems(row) + {c}
  {
    assert row == kept + row[|kept|..];
    ElemsConcat(kept, row[|kept|..]);
    InElems(row);
    NoDupAppend(row, c);
    assert (row + [c])[|kept|..] == row[|kept|..] + [c];
    assert Elems(row[|kept|..] + [c]) == Elems(row[|kept|..]) + {c};
  }

  method ConnectOne(g: LevelGraph, u: Id, c: Id, pos: nat, ghost adj: Adjacency) returns (next: nat)
    requires u in g.links && pos <= |g.links[u]| && u != c
    requires u in adj && c in adj && c !in adj[u] && Exact(adj, g.incoming, {})
    modifies g
    ensures OnlyAt(old(g.links), g.links, u)
    ensures next == pos + 1 <= |g.links[u]| && g.links[u][..next] == old(g.links[u])[..pos] + [c]
    ensures Exact(adj[u := adj[u] + {c}], g.incoming, {})
  {
    assert g.incoming.Keys == adj.Keys;
    AddKeepsExact(adj, g.incoming, {}, u, c);
    hide Exact, SwapRemove;
    g.SetLinkAtPos(u, pos, c);
    next := pos + 1;
    var found := g.RemoveIncomingIfExists(u, c);
    if !found {
      g.NewIncoming(c, u);
    }
  }

  /**
   * First pass of the update: overwrites the links to keep towards the front of the array, in place,
   * while the account of the dropped ones is settled.  Returns the chosen ids not linked yet and the
   * number of links kept; what the array holds beyond it is stale.
   */
  method CompactRow(g: LevelGraph, u: Id, toUpdate: seq<Id>, chosen: seq<Id>, ghost cap: nat)
    returns (left: seq<Id>, idx: nat)
    requires WellFormed(g.View(), cap) && u in g.links
    requires NoDup(chosen) && Elems(chosen) <= Elems(toUpdate) * g.links.Keys
    modifies g
    ensures NoDup(left) && Elems(left) == Elems(chosen) - Elems(old(g.links[u]))
    ensures idx == |Without(old(g.links[u]), Elems(toUpdate) - Elems(chosen))|
    ensures OnlyAt(old(g.links), g.links, u) && |g.links[u]| == |old(g.links[u])|
    ensures g.links[u][..idx] == Without(old(g.links[u]), Elems(toUpdate) - Elems(chosen))
    ensures Exact(AdjacencyOf(old(g.links))[u := Elems(g.links[u][..idx])], g.incoming, {})
  {
    hide Exact, Without, Virtual, WellFormed, RowsOk, NoDup;
    ghost var row0, adj0 := g.links[u], AdjacencyOf(g.links);
    CompactingStarts(g.View(), u, toUpdate, chosen, cap);
    left, idx := chosen, 0;
    var i := 0;
    while i < |g.links[u]|
      invariant OnlyAt(old(g.links), g.links, u) && i <= |row0|
      invariant Compacting(g.View(), u, row0, adj0, toUpdate, chosen, left, i, idx)
    {
      left, idx := CompactStep(g, u, row0, adj0, toUpdate, chosen, left, i, idx);
      i := i + 1;
    }
    CompactingEnds(g.View(), u, row0, adj0, toUpdate, chosen, left, idx);
  }

  lemma CompactingStarts(g: Graph, u: Id, toUpdate: seq<Id>, chosen: seq<Id>, cap: nat)
    requires WellFormed(g, cap) && u in g.links && NoDup(chosen)
    ensures var row0, adj0 := g.links[u], AdjacencyOf(g.links);
      && NoDup(row0) && u !in row0 && Elems(row0) <= adj0.Keys && u in adj0
      && Compacting(g, u, row0, adj0, toUpdate, chosen, chosen, 0, 0)
  {
    var row0, adj0 := g.links[u], AdjacencyOf(g.links);
    var drop := Elems(toUpdate) - Elems(chosen);
    assert RowOk(g.links.Keys, u, row0, cap);
    assert row0[..0] == [] && row0[0..] == row0;
    assert adj0[u] == Elems(row0) == Virtual(row0, 0, drop);
    assert adj0 == adj0[u := Virtual(row0, 0, drop)];
    hide Exact, RowsOk;
  }

  lemma CompactingEnds(g: Graph, u: Id, row0: seq<Id>, adj0: Adjacency, toUpdate: seq<Id>, chosen: seq<Id>, left: seq<Id>,
                       idx: nat)
    requires Compacting(g, u, row0, adj0, toUpdate, chosen, left, |row0|, idx)
    ensures var drop := Elems(toUpdate) - Elems(chosen);
      && NoDup(left) && Elems(left) == Elems(chosen) - Elems(row0) && idx == |Without(row0, drop)|
      && idx <= |g.links[u]| && g.links[u][..idx] == Without(row0, drop)
      && Exact(adj0[u := Elems(g.links[u][..idx])], g.incoming, {})
  {
    hide Exact;
    var drop := Elems(toUpdate) - Elems(chosen);
    assert row0[..|row0|] == row0;
    assert Virtual(row0, |row0|, drop) == Elems(Without(row0, drop));
  }

  /** State of the first pass after i entries of the original row `row0`. */
  ghost predicate Compacting(g: Graph, u: Id, row0: seq<Id>, adj0: Adjacency,
                             toUpdate: seq<Id>, chosen: seq<Id>, left: seq<Id>, i: nat, idx: nat)
  {
    var drop := Elems(toUpdate) - Elems(chosen);
    && u in g.links && |g.links[u]| == |row0| && idx <= i <= |row0|
    && g.links[u][..idx] == Without(row0[..i], drop)
    && (forall k | i <= k < |row0| :: g.links[u][k] == row0[k])
    && NoDup(left) && Elems(left) == Elems(chosen) - Elems(row0[..i])
    && g.incoming.Keys == adj0.Keys
    && Exact(adj0[u := Virtual(row0, i, drop)], g.incoming, {})
  }

  method CompactStep(g: LevelGraph, u: Id, ghost row0: seq<Id>, ghost adj0: Adjacency,
                     toUpdate: seq<Id>, chosen: seq<Id>, left: seq<Id>, i: nat, idx: nat)
    returns (left': seq<Id>, idx': nat)
    requires Compacting(g.View(), u, row0, adj0, toUpdate, chosen, left, i, idx) && i < |row0|
    requires NoDup(row0) && u !in row0 && Elems(row0) <= adj0.Keys && u in adj0
    requires Elems(chosen) <= Elems(toUpdate)
    modifies g
    ensures OnlyAt(old(g.links), g.links, u)
    ensures Compacting(g.View(), u, row0, adj0, toUpdate, chosen, left', i + 1, idx')
  {
    hide Exact, Without, Virtual;
    ghost var drop := Elems(toUpdate) - Elems(chosen);
    left', idx' := left, idx;
    var v := g.links[u][i];
    VirtualStep(row0, i, drop);
    InElems(left);
    InElems(toUpdate);
    if v !in toUpdate {
      KeepLink(g, u, i, idx);
      idx' := idx + 1;
    } else if v in left {
      SwapRemoveElems(left, v);
      left' := SwapRemove(left, v);
      KeepLink(g, u, i, idx);
      idx' := idx + 1;
    } else {
      DropVirtual(adj0, g.incoming, u, row0, i, drop);
      g.MutuallyRemoveNeighbor(u, v);
    }
  }

  /** Overwrites position idx with the link at position i, not before it. */
  method KeepLink(g: LevelGraph, u: Id, i: nat, idx: nat)
    requires u in g.links && idx <= i < |g.links[u]|
    modifies g`links
    ensures OnlyAt(old(g.links), g.links, u) && |g.links[u]| == |old(g.links[u])|
    ensures g.links[u][..idx + 1] == old(g.links[u])[..idx] + [old(g.links[u])[i]]
    ensures forall k | i < k < |g.links[u]| :: g.links[u][k] == old(g.links[u])[k]
  {
    g.SetLinkAtPos(u, idx, g.links[u][i]);
  }

  /** The links a row stands for after i entries were looked at: those kept and those to come. */
  ghost function Virtual(row: seq<Id>, i: nat, drop: set<Id>): set<Id>
    requires i <= |row|
  {
    Elems(Without(row[..i], drop)) + Elems(row[i..])
  }

  lemma VirtualStep(row: seq<Id>, i: nat, drop: set<Id>)
    requires i < |row| && NoDup(row)
    ensures Without(row[..i + 1], drop) == Without(row[..i], drop) + (if row[i] in drop then [] else [row[i]])
    ensures row[i] in drop ==> Virtual(row, i + 1, drop) == Virtual(row, i, drop) - {row[i]}
    ensures row[i] !in drop ==> Virtual(row, i + 1, drop) == Virtual(row, i, drop)
    ensures row[i] in Virtual(row, i, drop) && row[i] in Elems(row)
    ensures Elems(row[..i + 1]) == Elems(row[..i]) + {row[i]} && row[i] !in Elems(row[..i])
  {
    hide Without, Elems;
    WithoutStep(row, drop, i);
    ElemsStep(row, i);
    var x, kept, rest := row[i], Without(row[..i], drop), row[i + 1..];
    assert row[i..] == [x] + rest;
    assert x !in rest && x !in row[..i];
    hide NoDup;
    ElemsConcat([x], rest);
    ElemsConcat(kept, if x in drop then [] else [x]);
    SingleElems(x);
    InElems(rest);
    InElems(kept);
    assert Virtual(row, i, drop) == Elems(kept) + ({x} + Elems(rest));
  }

  lemma SingleElems(x: Id)
    ensures Elems([x]) == {x}
    ensures var none: seq<Id> := []; Elems(none) == {}
  {
  }

  lemma DropVirtual(adj: Adjacency, incoming: map<Id, seq<Id>>, u: Id, row: seq<Id>, i: nat, drop: set<Id>)
    requires i < |row| && NoDup(row) && row[i] in drop
    requires u in adj && row[i] in adj && row[i] != u
    requires Exact(adj[u := Virtual(row, i, drop)], incoming, {})
    ensures Exact(adj[u := Virtual(row, i + 1, drop)], DropIncoming(incoming, u, row[i]), {})
  {
    VirtualStep(row, i, drop);
    var now := adj[u := Virtual(row, i, drop)];
    DropKeepsExact(now, incoming, {}, u, row[i]);
    assert now[u := now[u] - {row[i]}] == adj[u := Virtual(row, i + 1, drop)];
  }

  /**
   * A whole repair with nothing happening in between.  Afterwards the node has no marked-deleted
   * neighbour and gained live, fully inserted ones only: its neighbours are those picked from the
   * candidates, or those of them that it had before if it is itself deleted or in process.
   */
  method RepairNodeConnections(g: LevelGraph, u: Id, deleted: set<Id>, inProcess: set<Id>, cap: nat,
                               metric: Metric)
    requires WellFormed(g.View(), cap) && u in g.links
    modifies g
    ensures WellFormed(g.View(), cap) && OnlyAt(old(g.links), g.links, u)
    ensures Repaired(old(g.links), g.links[u], u, deleted, inProcess, cap, metric)
  {
    var found, toUpdate, chosen := PlanRepair(g, u, deleted, cap, metric);
    assert RowOk(g.links.Keys, u, g.links[u], cap);
    InElems(g.links[u]);
    if found {
      InElems(chosen);
      MutuallyUpdateForRepairedNode(g, u, toUpdate, chosen, deleted + inProcess, cap);
    }
    RepairOutcome(old(g.View()), g.links[u], u, deleted, inProcess, cap, metric, found, toUpdate, chosen);
  }

  ghost predicate Repaired(before: map<Id, seq<Id>>, after: seq<Id>, u: Id, deleted: set<Id>,
                           inProcess: set<Id>, cap: nat, metric: Metric)
    requires u in before
  {
    var cands := RepairCandidates(before, u, deleted);
    var now, gained := Elems(after), Elems(after) - Elems(before[u]);
    && now !! deleted && now <= cands && gained !! inProcess
    && (Elems(before[u]) * deleted != {} ==>
          exists chosen :: Picked(cands, u, cap, metric, chosen)
            && now == if u in deleted + inProcess then Elems(chosen) * Elems(before[u])
                      else Elems(chosen) - (inProcess - Elems(before[u])))
    && (Elems(before[u]) * deleted == {} ==> after == before[u])
  }

  /**
   * With room for all of them, the neighbours of a repaired node are its live ones and the live ones of its
   * deleted neighbours, apart from new ones that are still in process.
   */
  lemma RoomKeepsAll(before: map<Id, seq<Id>>, after: seq<Id>, u: Id, deleted: set<Id>, inProcess: set<Id>, cap: nat,
                     metric: Metric)
    requires u in before && u !in deleted + inProcess && Repaired(before, after, u, deleted, inProcess, cap, metric)
    requires |RepairCandidates(before, u, deleted)| <= cap && exists d :: d in deleted && d in before[u]
    ensures forall v :: v in after <==>
              && v in before && v !in deleted && v != u && (v in inProcess ==> v in before[u])
              && (v in before[u] || exists d :: d in deleted && d in before[u] && d in before && v in before[d])
  {
    InElems(before[u]);
    InElems(after);
    var d :| d in deleted && d in before[u];
    assert d in Elems(before[u]) * deleted;
    var sources := Elems(before[u]) * deleted;
    forall v
      ensures AnyPointsTo(before, sources, v) <==> exists d :: d in deleted && d in before[u] && d in before && v in before[d]
    {
      if d :| d in deleted && d in before[u] && d in before && v in before[d] {
        assert d in sources;
      }
    }
  }

  lemma RepairOutcome(g: Graph, after: seq<Id>, u: Id, deleted: set<Id>, inProcess: set<Id>, cap: nat,
                      metric: Metric, found: bool, toUpdate: seq<Id>, chosen: seq<Id>)
    requires WellFormed(g, cap) && u in g.links
    requires found <==> Elems(g.links[u]) * deleted != {}
    requires !found ==> after == g.links[u]
    requires found ==> RepairPlan(g, u, deleted, cap, metric, toUpdate, chosen)
    requires found ==> UpdatedRow(g.links[u], after, Elems(toUpdate) - Elems(chosen),
                                  Eligible(g.links[u], chosen, deleted + inProcess), u !in deleted + inProcess, cap)
    ensures Repaired(g.links, after, u, deleted, inProcess, cap, metric)
  {
    if found {
      PlanFacts(g, u, deleted, cap, metric, toUpdate, chosen);
      hide RepairPlan, Picked, UpdatedRow, RepairCandidates;
      UpdatedSets(g.links[u], after, RepairCandidates(g.links, u, deleted), toUpdate, chosen, u in deleted + inProcess,
                  deleted, inProcess, cap);
      RepairedByPlan(g.links, after, u, deleted, inProcess, cap, metric, chosen);
    } else {
      NothingRepaired(g, u, deleted, inProcess, cap, metric);
    }
  }

  lemma NothingRepaired(g: Graph, u: Id, deleted: set<Id>, inProcess: set<Id>, cap: nat, metric: Metric)
    requires WellFormed(g, cap) && u in g.links && Elems(g.links[u]) * deleted == {}
    ensures Repaired(g.links, g.links[u], u, deleted, inProcess, cap, metric)
  {
    assert RowOk(g.links.Keys, u, g.links[u], cap);
    InElems(g.links[u]);
    hide WellFormed, Picked, Elems;
    forall v | v in Elems(g.links[u]) ensures v in RepairCandidates(g.links, u, deleted) && v !in deleted {
      assert v !in Elems(g.links[u]) * deleted;
    }
  }

  lemma PlanFacts(g: Graph, u: Id, deleted: set<Id>, cap: nat, metric: Metric, toUpdate: seq<Id>, chosen: seq<Id>)
    requires WellFormed(g, cap) && u in g.links && RepairPlan(g, u, deleted, cap, metric, toUpdate, chosen)
    ensures var cands := RepairCandidates(g.links, u, deleted);
      && Picked(cands, u, cap, metric, chosen) && cands !! deleted && Elems(g.links[u]) - deleted <= cands
      && NoDup(g.links[u]) && NoDup(chosen) && Elems(chosen) <= cands && |chosen| <= cap
      && Elems(toUpdate) == Elems(g.links[u]) + Elems(chosen)
  {
    assert RowOk(g.links.Keys, u, g.links[u], cap);
    InElems(g.links[u]);
    hide WellFormed, WellChosen, NoDup, RowOk;
  }

  /** The links of an updated node, as sets. */
  lemma UpdatedSets(row: seq<Id>, after: seq<Id>, cands: set<Id>, toUpdate: seq<Id>, chosen: seq<Id>, barred: bool,
                    deleted: set<Id>, inProcess: set<Id>, cap: nat)
    requires NoDup(row) && NoDup(chosen) && Elems(row) - deleted <= cands && cands !! deleted
    requires Elems(chosen) <= cands && |chosen| <= cap && Elems(toUpdate) == Elems(row) + Elems(chosen)
    requires UpdatedRow(row, after, Elems(toUpdate) - Elems(chosen), Eligible(row, chosen, deleted + inProcess), !barred, cap)
    ensures var now := Elems(after);
      && now !! deleted && now <= cands && (now - Elems(row)) !! inProcess
      && (barred ==> now == Elems(chosen) * Elems(row))
      && (!barred ==> now == Elems(chosen) - (inProcess - Elems(row)))
  {
    hide Elems, NoDup, Without;
    var drop := Elems(toUpdate) - Elems(chosen);
    var kept := Without(row, drop);
    WithoutNoDup(row, drop);
    assert after == kept + after[|kept|..];
    ElemsConcat(kept, after[|kept|..]);
    NoDupSize(after);
    NoDupSize(chosen);
    SetsAfterRepair(Elems(row), cands, Elems(chosen), Elems(after[|kept|..]), Elems(after), deleted, inProcess);
    SubsetCardinality(Elems(after), Elems(chosen));
    if barred {
      assert after == kept;
    }
  }

  lemma RepairedByPlan(before: map<Id, seq<Id>>, after: seq<Id>, u: Id, deleted: set<Id>, inProcess: set<Id>, cap: nat,
                       metric: Metric, chosen: seq<Id>)
    requires u in before && Elems(before[u]) * deleted != {}
    requires var cands, now := RepairCandidates(before, u, deleted), Elems(after);
      && Picked(cands, u, cap, metric, chosen) && now !! deleted && now <= cands && (now - Elems(before[u])) !! inProcess
      && (u in deleted + inProcess ==> now == Elems(chosen) * Elems(before[u]))
      && (u !in deleted + inProcess ==> now == Elems(chosen) - (inProcess - Elems(before[u])))
    ensures Repaired(before, after, u, deleted, inProcess, cap, metric)
  {
    hide Elems, Picked, RepairCandidates;
    assert exists picked :: picked == chosen && Picked(RepairCandidates(before, u, deleted), u, cap, metric, picked);
  }

  lemma SetsAfterRepair(row: set<Id>, cands: set<Id>, chosen: set<Id>, added: set<Id>, now: set<Id>,
                        deleted: set<Id>, inProcess: set<Id>)
    requires row - deleted <= cands && cands !! deleted && chosen <= cands
    requires added <= chosen - row - (deleted + inProcess)
    requires now == (row - (row + chosen - chosen)) + added
    ensures now <= chosen && now !! deleted && now - row == added && added !! inProcess
    ensures added == chosen - row - (deleted + inProcess) ==> now == chosen - (inProcess - row)
    ensures now == chosen ==> now == chosen - (inProcess - row)
    ensures added == {} ==> now == chosen * row
  {
  }
}

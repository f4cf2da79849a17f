/**
 * What one locked section of an insertion or a repair does to the graph, and what it leaves alone: the
 * decisions it carries out were made earlier, under other locks, and the graph may have changed since.
 */
module GraphSteps {
  import opened Seqs
  import opened LevelGraphs
  import opened IndexModel
  import Connect
  import Repair

  /** Rows were rewritten; no new edge starts or ends at one of the barred elements. */
  ghost predicate Stepped(ix: Index, after: Index, barred: set<Id>) {
    && after == ix.(levels := after.levels) && |after.levels| == |ix.levels| && IndexOk(after)
    && forall l: nat, u, v | Edge(after, l, u, v) && !Edge(ix, l, u, v) :: u !in barred && v !in barred
  }

  lemma SteppedRelinks(ix: Index, after: Index, barred: set<Id>)
    requires Stepped(ix, after, barred) && ix.deleted <= barred
    ensures Relinked(ix, after)
  {
  }

  lemma LevelSteps(ix: Index, after: Index, level: nat, g: Graph, barred: set<Id>)
    requires IndexOk(ix) && level < |ix.levels| && after == ix.(levels := ix.levels[level := g])
    requires WellFormed(g, Cap(ix.max, level)) && g.links.Keys == ix.levels[level].links.Keys
    requires forall u, v | Link(g, u, v) && !Link(ix.levels[level], u, v) :: u !in barred && v !in barred
    ensures Stepped(ix, after, barred)
  {
    hide WellFormed, Link;
    forall l | 0 <= l < |after.levels| ensures LevelOk(after, l) {
      assert LevelOk(ix, l);
    }
  }

  /** The row of an element that is barred does not grow. */
  lemma BarredRowShrinks(ix: Index, after: Index, barred: set<Id>, level: nat, u: Id)
    requires IndexOk(ix) && Stepped(ix, after, barred) && u in barred
    requires level < |ix.levels| && u in ix.levels[level].links
    ensures u in after.levels[level].links && |after.levels[level].links[u]| <= |ix.levels[level].links[u]|
  {
    assert LevelOk(ix, level) && LevelOk(after, level);
    var row, row' := ix.levels[level].links[u], after.levels[level].links[u];
    assert RowOk(after.levels[level].links.Keys, u, row', Cap(ix.max, level));
    assert RowOk(ix.levels[level].links.Keys, u, row, Cap(ix.max, level));
    forall v | v in row' ensures v in row {
      assert Edge(after, level, u, v);
      assert Edge(ix, level, u, v);
    }
    NoDupSize(row);
    NoDupSize(row');
    InElems(row);
    SubsetCardinality(Elems(row'), Elems(row));
  }

  // ----- The updating half of a repair -----

  /** The outcome of the update of u at the level, for whatever plan was made, with the flags of the moment. */
  ghost predicate Rewired(ix: Index, after: Index, u: Id, level: nat, toUpdate: seq<Id>, chosen: seq<Id>) {
    && level < |ix.levels| == |after.levels| && after == ix.(levels := ix.levels[level := after.levels[level]])
    && WellFormed(after.levels[level], Cap(ix.max, level))
    && u in ix.levels[level].links && OnlyAt(ix.levels[level].links, after.levels[level].links, u)
    && Repair.UpdatedRow(ix.levels[level].links[u], after.levels[level].links[u], Elems(toUpdate) - Elems(chosen),
                         Repair.Eligible(ix.levels[level].links[u], chosen, ix.deleted + ix.inProcess),
                         u !in ix.deleted + ix.inProcess, Cap(ix.max, level))
  }

  /** Whatever happened since: nothing marked or in process gains an edge, and the targets are dropped. */
  lemma RewiredSteps(ix: Index, after: Index, u: Id, level: nat, targets: set<Id>, toUpdate: seq<Id>, chosen: seq<Id>)
    requires IndexOk(ix) && Rewired(ix, after, u, level, toUpdate, chosen)
    requires targets <= Elems(toUpdate) && targets !! Elems(chosen)
    ensures Stepped(ix, after, ix.deleted + ix.inProcess)
    ensures forall d | d in targets :: !Edge(after, level, u, d)
  {
    var g, g' := ix.levels[level], after.levels[level];
    var row, row', drop := g.links[u], g'.links[u], Elems(toUpdate) - Elems(chosen);
    var kept := Without(row, drop);
    assert row' == kept + row'[|kept|..];
    ElemsConcat(kept, row'[|kept|..]);
    InElems(row');
    InElems(row'[|kept|..]);
    hide WellFormed, Without, IndexOk;
    forall v | v in row' && v !in row
      ensures u !in ix.deleted + ix.inProcess && v !in ix.deleted + ix.inProcess
    {
      assert v in Elems(row'[|kept|..]);
    }
    forall a, b | Link(g', a, b) && !Link(g, a, b)
      ensures a !in ix.deleted + ix.inProcess && b !in ix.deleted + ix.inProcess
    {
      assert a == u;
    }
    LevelSteps(ix, after, level, g', ix.deleted + ix.inProcess);
    forall d | d in targets ensures d !in row' {
      assert d in drop;
    }
  }

  // ----- Connecting a new element -----

  /** All new edges are between the two. */
  ghost predicate OnlyBetween(ix: Index, after: Index, level: nat, id: Id, v: Id) {
    forall l: nat, a, b | Edge(after, l, a, b) && !Edge(ix, l, a, b) ::
      l == level && ((a == id && b == v) || (a == v && b == id))
  }

  ghost predicate RowGrew(ix: Index, after: Index, level: nat, id: Id) {
    && level < |ix.levels| && id in ix.levels[level].links
    && level < |after.levels| && id in after.levels[level].links
    && |after.levels[level].links[id]| <= |ix.levels[level].links[id]| + 1
  }

  /** The element `id` has the level, and so has the neighbour, and they are not connected. */
  ghost predicate Apart(ix: Index, level: nat, id: Id, v: Id) {
    && level < |ix.levels| && id in ix.levels[level].links && v in ix.levels[level].links && id != v
    && !Edge(ix, level, id, v) && !Edge(ix, level, v, id)
  }

  function Joined(ix: Index, level: nat, id: Id, v: Id): Index
    requires level < |ix.levels| && id in ix.levels[level].links && v in ix.levels[level].links
  {
    ix.(levels := ix.levels[level := Connect.BothWays(ix.levels[level], id, v)])
  }

  lemma JoinedSteps(ix: Index, level: nat, id: Id, v: Id, barred: set<Id>)
    requires IndexOk(ix) && Apart(ix, level, id, v) && id !in barred && v !in barred
    requires |ix.levels[level].links[id]| < Cap(ix.max, level) && |ix.levels[level].links[v]| < Cap(ix.max, level)
    ensures Stepped(ix, Joined(ix, level, id, v), barred)
  {
    var g, g' := ix.levels[level], Connect.BothWays(ix.levels[level], id, v);
    assert LevelOk(ix, level);
    Connect.BothWaysIsWellFormed(g, id, v, Cap(ix.max, level));
    hide WellFormed, IndexOk;
    LevelSteps(ix, Joined(ix, level, id, v), level, g', barred);
  }

  /** The outcome of reconsidering the neighbour v in favour of `id`, for whatever was decided. */
  ghost predicate Reconsidered(ix: Index, after: Index, level: nat, id: Id, v: Id, toUpdate: seq<Id>, chosen: bool) {
    && level < |ix.levels| == |after.levels| && after == ix.(levels := ix.levels[level := after.levels[level]])
    && WellFormed(after.levels[level], Cap(ix.max, level))
    && id in ix.levels[level].links && v in ix.levels[level].links
    && Connect.Revisited(ix.levels[level].links, after.levels[level].links, id, v, Elems(toUpdate), chosen, ix.deleted,
                         Cap(ix.max, level))
  }

  /** The only edges gained are those between the two, and only if both are live. */
  lemma ReconsideredSteps(ix: Index, after: Index, level: nat, id: Id, v: Id, toUpdate: seq<Id>, chosen: bool,
                          barred: set<Id>)
    requires IndexOk(ix) && Reconsidered(ix, after, level, id, v, toUpdate, chosen) && id != v
    requires forall x | x in barred && (x == id || x == v) :: x in ix.deleted
    ensures Stepped(ix, after, barred)
    ensures OnlyBetween(ix, after, level, id, v) && RowGrew(ix, after, level, id)
  {
    var g, g' := ix.levels[level], after.levels[level];
    hide WellFormed, IndexOk, Without;
    forall a, b | Link(g', a, b) && !Link(g, a, b)
      ensures (a == id && b == v) || (a == v && b == id)
      ensures a !in barred && b !in barred
    {
    }
    LevelSteps(ix, after, level, g', barred);
  }
}

/** The state of the whole graph index as a value: what the levels, flags and top levels amount to. */
module IndexModel {
  import opened Seqs
  import opened LevelGraphs
  import opened RemoveSwap

  /**
   * `max` is the index parameter M; `top` gives every element its highest level, so that the ids are
   * the positions of `top`; `deleted` and `inProcess` are the elements carrying the two flags.
   */
  datatype Index = Index(max: nat, top: seq<nat>, deleted: set<Id>, inProcess: set<Id>, levels: seq<Graph>)

  /** The degree bound of a level: doubled at the bottom. */
  function Cap(max: nat, level: nat): nat {
    if level == 0 then 2 * max else max
  }

  ghost predicate Within(ids: set<Id>, n: nat) {
    forall v | v in ids :: 0 <= v < n
  }

  function NodesAt(top: seq<nat>, level: nat): set<Id> {
    set v | 0 <= v < |top| && level <= top[v]
  }

  ghost predicate LevelOk(ix: Index, level: nat)
    requires level < |ix.levels|
  {
    && ix.levels[level].links.Keys == NodesAt(ix.top, level)
    && WellFormed(ix.levels[level], Cap(ix.max, level))
  }

  ghost predicate IndexOk(ix: Index) {
    && Within(ix.deleted, |ix.top|) && Within(ix.inProcess, |ix.top|)
    && (forall v | 0 <= v < |ix.top| :: ix.top[v] < |ix.levels|)
    && forall l | 0 <= l < |ix.levels| :: LevelOk(ix, l)
  }

  predicate Link(g: Graph, u: Id, v: Id) {
    u in g.links && v in g.links[u]
  }

  /** u points to v at the given level. */
  predicate Edge(ix: Index, level: nat, u: Id, v: Id) {
    level < |ix.levels| && Link(ix.levels[level], u, v)
  }

  ghost predicate NoInEdges(ix: Index, d: Id) {
    forall l: nat, u :: !Edge(ix, l, u, d)
  }

  /** The edges pointing to d, each of them once. */
  ghost predicate InEdgesOf(ix: Index, d: Id, edges: seq<(Id, nat)>) {
    && NoDup(edges)
    && (forall i | 0 <= i < |edges| :: Edge(ix, edges[i].1, edges[i].0, d))
    && forall l: nat, u | Edge(ix, l, u, d) :: (u, l) in edges
  }

  /** A level after the element d was freed and the last element took its id. */
  ghost function SwapOut(g: Graph, d: Id, last: Id): Graph
  {
    var freed := Freed(g, d);
    if d != last && last in freed.links then Renamed(freed, last, d) else freed
  }

  ghost function RemoveSwapIndex(ix: Index, d: Id): Index
    requires 0 <= d < |ix.top|
  {
    var last := |ix.top| - 1;
    Index(ix.max, LastMovedTo(ix.top, d),
          RenamedKeys(ix.deleted - {d}, last, d), RenamedKeys(ix.inProcess - {d}, last, d),
          seq(|ix.levels|, l requires 0 <= l < |ix.levels| => SwapOut(ix.levels[l], d, last)))
  }

  /** The links of r are those of g after `last` was renamed to d. */
  ghost predicate LinksRenamed(g: Graph, r: Graph, d: Id, last: Id) {
    forall u, v :: Link(r, u, v) <==> u != last && v != last && Link(g, Back(u, last, d), Back(v, last, d))
  }

  /** r is well formed, on the renamed nodes, with the renamed links of g. */
  ghost predicate SwappedOut(g: Graph, r: Graph, top: seq<nat>, level: nat, d: Id, cap: nat)
    requires 0 <= d < |top|
  {
    && WellFormed(r, cap) && r.links.Keys == NodesAt(LastMovedTo(top, d), level)
    && LinksRenamed(g, r, d, |top| - 1)
  }

  /** The level can do without d: nobody points to it, and only its own targets have it on record. */
  ghost predicate Detachable(g: Graph, d: Id, cap: nat) {
    if d in g.links then Removable(g, d, cap) else WellFormed(g, cap)
  }

  lemma DetachableFacts(g: Graph, d: Id, cap: nat)
    requires Detachable(g, d, cap)
    ensures g.incoming.Keys == g.links.Keys && RowsOk(g.links, cap)
    ensures forall v :: !Link(g, v, d)
  {
  }

  lemma UnreferencedIsDetachable(g: Graph, d: Id, cap: nat)
    requires WellFormed(g, cap) && forall v :: !Link(g, v, d)
    ensures Detachable(g, d, cap)
  {
    forall v | v in g.links ensures d !in g.links[v] {
      assert !Link(g, v, d);
    }
    if d in g.links {
      NoInEdgesIsRemovable(g, d, cap);
    }
  }

  lemma SwapOutLevel(g: Graph, top: seq<nat>, level: nat, d: Id, cap: nat)
    requires Detachable(g, d, cap) && g.links.Keys == NodesAt(top, level) && 0 <= d < |top|
    ensures g.incoming.Keys == g.links.Keys
    ensures SwappedOut(g, SwapOut(g, d, |top| - 1), top, level, d, cap)
  {
    hide SwappedOut, WellFormed, Detachable, RowsOk, Link;
    var last, freed := |top| - 1, Freed(g, d);
    DetachableFacts(g, d, cap);
    FreedLevel(g, d, cap);
    if d != last && last in freed.links {
      SwapOutMoved(g, freed, top, level, d, cap);
    } else {
      SwapOutDropped(g, top, level, d, cap);
    }
  }

  lemma SwapOutDropped(g: Graph, top: seq<nat>, level: nat, d: Id, cap: nat)
    requires RowsOk(g.links, cap) && g.links.Keys == NodesAt(top, level) && 0 <= d < |top|
    requires WellFormed(Freed(g, d), cap) && (d == |top| - 1 || |top| - 1 !in g.links)
    requires forall v :: !Link(g, v, d)
    ensures SwappedOut(g, Freed(g, d), top, level, d, cap)
  {
    NodesMoved(top, level, d);
    FreedLinks(g, d, |top| - 1, cap);
  }

  lemma SwapOutMoved(g: Graph, freed: Graph, top: seq<nat>, level: nat, d: Id, cap: nat)
    requires WellFormed(freed, cap) && g.links.Keys == NodesAt(top, level) && 0 <= d < |top| - 1
    requires freed.links == g.links - {d} && |top| - 1 in freed.links && d !in freed.incoming
    requires forall v :: !Link(g, v, d)
    ensures SwappedOut(g, Renamed(freed, |top| - 1, d), top, level, d, cap)
  {
    hide WellFormed, SameAround, RenamedArrays, Link, LinksRenamed, LastMovedTo;
    var last := |top| - 1;
    NodesMoved(top, level, d);
    RenamedIsIsomorphic(freed, last, d, cap);
    RenamedLinks(g, freed, Renamed(freed, last, d), d, last, cap);
  }

  lemma NodesMoved(top: seq<nat>, level: nat, d: Id)
    requires 0 <= d < |top|
    ensures var last := |top| - 1;
      NodesAt(LastMovedTo(top, d), level)
        == (if d == last || last !in NodesAt(top, level) then NodesAt(top, level) - {d}
            else RenamedKeys(NodesAt(top, level) - {d}, last, d))
    ensures forall v | v in NodesAt(top, level) :: 0 <= v < |top|
  {
  }

  lemma RenamedLinks(g: Graph, freed: Graph, r: Graph, d: Id, last: Id, cap: nat)
    requires d != last && freed.links == g.links - {d} && last in freed.links
    requires WellFormed(freed, cap) && WellFormed(r, cap) && Isomorphic(freed, r, last, d)
    requires forall v :: !Link(g, v, d)
    ensures LinksRenamed(g, r, d, last)
  {
    hide WellFormed, Isomorphic;
    EdgesInRows(freed, cap);
    EdgesInRows(r, cap);
    forall u, v ensures Link(r, u, v) <==> u != last && v != last && Link(g, Back(u, last, d), Back(v, last, d)) {
      if u != last && v != last {
        RenamedLink(freed, r, d, last, u, v);
      } else {
        RenamedNodes(freed, r, last, d);
      }
    }
  }

  lemma EdgesInRows(g: Graph, cap: nat)
    requires WellFormed(g, cap)
    ensures forall u, v | Link(g, u, v) :: v in g.links
  {
    EdgesInLevel(g, cap);
  }

  lemma RenamedNodes(freed: Graph, r: Graph, last: Id, d: Id)
    requires Isomorphic(freed, r, last, d) && d != last
    ensures last !in r.links
  {
  }

  lemma RenamedLink(freed: Graph, r: Graph, d: Id, last: Id, u: Id, v: Id)
    requires d != last && last in freed.links && d !in freed.links && Isomorphic(freed, r, last, d)
    requires u != last && v != last
    requires forall x, y | Link(freed, x, y) :: y in freed.links
    requires forall x, y | Link(r, x, y) :: y in r.links
    ensures Link(r, u, v) <==> Link(freed, Back(u, last, d), Back(v, last, d))
  {
    assert u in r.links ==> SameAround(freed, r, last, d, u);
    assert Link(r, u, v) ==> v in r.links;
  }

  /** Without renaming, either the freed id was the last one or the last element is not at this level. */
  lemma FreedLinks(g: Graph, d: Id, last: Id, cap: nat)
    requires RowsOk(g.links, cap) && (d == last || last !in g.links)
    requires forall v :: !Link(g, v, d)
    requires forall v | v in g.links :: 0 <= v <= last
    ensures LinksRenamed(g, Freed(g, d), d, last)
  {
    EdgesInLevel(g, cap);
    var freed := Freed(g, d);
    forall u, v ensures Link(freed, u, v) <==> u != last && v != last && Link(g, Back(u, last, d), Back(v, last, d)) {
      assert Link(freed, u, v) <==> u != d && Link(g, u, v);
    }
  }

  lemma FreedLevel(g: Graph, d: Id, cap: nat)
    requires Detachable(g, d, cap)
    ensures WellFormed(Freed(g, d), cap)
    ensures Freed(g, d).links == g.links - {d} && Freed(g, d).incoming.Keys == g.links.Keys - {d}
  {
    DetachableFacts(g, d, cap);
    if d in g.links {
      FreedIsWellFormed(g, d, cap);
    } else {
      FreedAbsent(g, d, cap);
    }
  }

  lemma FreedAbsent(g: Graph, d: Id, cap: nat)
    requires WellFormed(g, cap) && d !in g.links
    ensures Freed(g, d) == g
  {
  }

  lemma EdgesInLevel(g: Graph, cap: nat)
    requires RowsOk(g.links, cap)
    ensures forall u, v | Link(g, u, v) :: v in g.links
  {
  }

  /** Every level can do without d, and is otherwise in order. */
  ghost predicate ReadyToGo(ix: Index, d: Id) {
    && 0 <= d < |ix.top| && Within(ix.deleted, |ix.top|) && Within(ix.inProcess, |ix.top|)
    && (forall v | 0 <= v < |ix.top| :: ix.top[v] < |ix.levels|)
    && forall l | 0 <= l < |ix.levels| ::
         ix.levels[l].links.Keys == NodesAt(ix.top, l) && Detachable(ix.levels[l], d, Cap(ix.max, l))
  }

  lemma UnreferencedIsReady(ix: Index, d: Id)
    requires IndexOk(ix) && 0 <= d < |ix.top| && NoInEdges(ix, d)
    ensures ReadyToGo(ix, d)
  {
    hide WellFormed, Detachable, Link;
    forall l | 0 <= l < |ix.levels|
      ensures ix.levels[l].links.Keys == NodesAt(ix.top, l) && Detachable(ix.levels[l], d, Cap(ix.max, l))
    {
      assert LevelOk(ix, l);
      forall v ensures !Link(ix.levels[l], v, d) {
        assert !Edge(ix, l, v, d);
      }
      UnreferencedIsDetachable(ix.levels[l], d, Cap(ix.max, l));
    }
  }

  /**
   * Removing an element nobody points to leaves an index in order, isomorphic to the old one minus the
   * element: the last id is replaced by the freed one in edges, flags and top levels alike.
   */
  lemma RemoveSwapKeepsOk(ix: Index, d: Id)
    requires ReadyToGo(ix, d)
    ensures IndexOk(RemoveSwapIndex(ix, d))
    ensures forall l | 0 <= l < |ix.levels| ::
              LinksRenamed(ix.levels[l], RemoveSwapIndex(ix, d).levels[l], d, |ix.top| - 1)
  {
    hide WellFormed, LinksRenamed, SwapOut, Detachable;
    var r, last := RemoveSwapIndex(ix, d), |ix.top| - 1;
    forall l: nat | l < |ix.levels| ensures LevelOk(r, l) && LinksRenamed(ix.levels[l], r.levels[l], d, last) {
      SwapOutLevel(ix.levels[l], ix.top, l, d, Cap(ix.max, l));
    }
  }

  // ----- A new element -----

  const EMPTY_LEVEL := Graph(map[], map[])

  /** A level with the isolated node v. */
  function AddNode(g: Graph, v: Id): Graph {
    Graph(g.links[v := []], g.incoming[v := []])
  }

  /** The level l of the index, empty when there is none. */
  function LevelAt(ix: Index, l: nat): Graph {
    if l < |ix.levels| then ix.levels[l] else EMPTY_LEVEL
  }

  /** A new element of the given top level, marked as being in process; missing levels are created. */
  function StoreElement(ix: Index, level: nat): Index {
    var id, height := |ix.top|, if level < |ix.levels| then |ix.levels| else level + 1;
    ix.(top := ix.top + [level], inProcess := ix.inProcess + {id},
        levels := seq(height, l requires 0 <= l < height =>
          if l <= level then AddNode(LevelAt(ix, l), id) else LevelAt(ix, l)))
  }

  lemma AddNodeKeepsLevel(g: Graph, v: Id, cap: nat)
    requires WellFormed(g, cap) && v !in g.links
    ensures WellFormed(AddNode(g, v), cap)
    ensures forall u, w :: Link(AddNode(g, v), u, w) <==> Link(g, u, w)
  {
  }

  lemma LevelAtOk(ix: Index, l: nat)
    requires IndexOk(ix)
    ensures LevelAt(ix, l).links.Keys == NodesAt(ix.top, l) && WellFormed(LevelAt(ix, l), Cap(ix.max, l))
    ensures forall u, v :: Edge(ix, l, u, v) <==> Link(LevelAt(ix, l), u, v)
  {
    if l < |ix.levels| {
      assert LevelOk(ix, l);
    } else {
      forall v ensures v !in NodesAt(ix.top, l) {
      }
    }
  }

  lemma StoreLevel(ix: Index, level: nat, l: nat)
    requires IndexOk(ix) && l < |StoreElement(ix, level).levels|
    ensures LevelOk(StoreElement(ix, level), l)
    ensures forall u, v :: Edge(StoreElement(ix, level), l, u, v) <==> Edge(ix, l, u, v)
  {
    hide WellFormed, IndexOk;
    var after, id := StoreElement(ix, level), |ix.top|;
    LevelAtOk(ix, l);
    assert NodesAt(after.top, l) == NodesAt(ix.top, l) + if l <= level then {id} else {};
    assert id !in NodesAt(ix.top, l);
    AddNodeKeepsLevel(LevelAt(ix, l), id, Cap(ix.max, l));
    assert after.levels[l] == if l <= level then AddNode(LevelAt(ix, l), id) else LevelAt(ix, l);
  }

  lemma StoreKeepsOk(ix: Index, level: nat)
    requires IndexOk(ix)
    ensures IndexOk(StoreElement(ix, level))
  {
    hide LevelOk;
    var after := StoreElement(ix, level);
    forall l | 0 <= l < |after.levels| ensures LevelOk(after, l) {
      StoreLevel(ix, level, l);
    }
  }

  // ----- What the operations promise about edges to deleted elements -----

  /** Rows were rewritten, and no edge to a deleted element came into being. */
  ghost predicate Relinked(ix: Index, after: Index) {
    && after == ix.(levels := after.levels) && IndexOk(after)
    && forall l: nat, u, v | v in ix.deleted && Edge(after, l, u, v) :: Edge(ix, l, u, v)
  }

  /** Edges to deleted elements are old ones, under the new ids. */
  ghost predicate EdgesFollow(ix: Index, after: Index, d: Id) {
    forall l: nat, u, v | v in after.deleted && Edge(after, l, u, v) ::
      u != |ix.top| - 1 && Edge(ix, l, Back(u, |ix.top| - 1, d), Back(v, |ix.top| - 1, d))
  }

  /** An element was taken out on the spot, the last one taking its id. */
  ghost predicate TakenOut(ix: Index, after: Index, d: Id)
    requires 0 <= d < |ix.top|
  {
    && IndexOk(after) && after.max == ix.max && after.top == LastMovedTo(ix.top, d)
    && after.deleted == RenamedKeys(ix.deleted - {d}, |ix.top| - 1, d)
    && EdgesFollow(ix, after, d)
  }

  lemma ReadyFollows(ix: Index, d: Id)
    requires ReadyToGo(ix, d)
    ensures IndexOk(RemoveSwapIndex(ix, d)) && EdgesFollow(ix, RemoveSwapIndex(ix, d), d)
  {
    hide IndexOk, SwapOut, RenamedKeys, LastMovedTo, Detachable;
    RemoveSwapKeepsOk(ix, d);
    var after := RemoveSwapIndex(ix, d);
    forall l: nat, u, v | v in after.deleted && Edge(after, l, u, v)
      ensures u != |ix.top| - 1 && Edge(ix, l, Back(u, |ix.top| - 1, d), Back(v, |ix.top| - 1, d))
    {
      assert LinksRenamed(ix.levels[l], after.levels[l], d, |ix.top| - 1);
    }
  }

  lemma RemoveSwapFollows(ix: Index, d: Id)
    requires IndexOk(ix) && 0 <= d < |ix.top| && NoInEdges(ix, d)
    ensures IndexOk(RemoveSwapIndex(ix, d)) && EdgesFollow(ix, RemoveSwapIndex(ix, d), d)
  {
    UnreferencedIsReady(ix, d);
    ReadyFollows(ix, d);
  }

  lemma RemoveSwapShape(ix: Index, d: Id)
    requires 0 <= d < |ix.top|
    ensures RemoveSwapIndex(ix, d).top == LastMovedTo(ix.top, d) && |RemoveSwapIndex(ix, d).top| == |ix.top| - 1
    ensures RemoveSwapIndex(ix, d).deleted == RenamedKeys(ix.deleted - {d}, |ix.top| - 1, d)
  {
  }

  /** The flags have no part in the order of the levels. */
  lemma FlagsKeepOk(ix: Index, after: Index)
    requires IndexOk(ix) && after == ix.(deleted := after.deleted, inProcess := after.inProcess)
    requires Within(after.deleted, |ix.top|) && Within(after.inProcess, |ix.top|)
    ensures IndexOk(after)
    ensures forall l: nat, u, v :: Edge(after, l, u, v) <==> Edge(ix, l, u, v)
  {
    forall l | 0 <= l < |ix.levels| ensures LevelOk(after, l) {
      assert LevelOk(ix, l);
    }
  }
}

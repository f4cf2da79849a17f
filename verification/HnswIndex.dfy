/** The graph index: storing, connecting, marking and removing elements. */
module HnswIndexes {
  import opened Seqs
  import opened LevelGraphs
  import opened NeighborSelection
  import opened Heaps
  import opened VisitedNodes
  import opened GraphSearch
  import opened IndexModel
  import opened LabelLookup
  import Connect
  import Repair
  import InPlaceDelete
  import RemoveSwap
  import Integrity

  // ----- Links that come and go -----

  /** A level whose rows changed without a new edge to a deleted element. */
  ghost predicate LevelRelinked(g: Graph, after: Graph, deleted: set<Id>, cap: nat) {
    && WellFormed(after, cap) && after.links.Keys == g.links.Keys
    && forall u, v | v in deleted && Link(after, u, v) :: Link(g, u, v)
  }

  lemma ConnectedRelinks(g: Graph, after: Graph, newId: Id, selected: seq<Candidate>, deleted: set<Id>, cap: nat,
                         metric: Metric)
    requires newId in g.links && WellFormed(after, cap)
    requires Connect.Connected(g.links, after.links, newId, selected, deleted, cap, metric)
    ensures LevelRelinked(g, after, deleted, cap)
  {
    hide Connect.Competed, WellFormed, Without, Connect.NeighborRow;
    forall u, v | v in deleted && Link(after, u, v) ensures Link(g, u, v) {
      if u != newId && u in Ids(selected) && u !in deleted && newId !in deleted {
        var i :| 0 <= i < |selected| && Ids(selected)[i] == u;
        assert selected[i] in selected;
        RowGains(g.links[u], after.links[u], newId, selected[i], cap, metric);
      }
    }
  }

  lemma RowGains(before: seq<Id>, after: seq<Id>, newId: Id, neighbor: Candidate, cap: nat, metric: Metric)
    requires Connect.NeighborRow(before, after, newId, neighbor, cap, metric)
    ensures forall v | v in after :: v in before || v == newId
  {
    hide Connect.Competed;
  }

  /** The nodes a search found, or those of them the selection heuristic keeps. */
  ghost predicate Chosen(found: seq<Candidate>, max: nat, metric: Metric, selected: seq<Candidate>) {
    && selected != [] && Elems(selected) <= Elems(found)
    && if |found| < max then selected == found
       else exists removed :: Filtered(found, max, metric, selected, removed) && Splits(found, selected, removed)
  }

  /**
   * The neighbours that a search of a level leads to: those the heuristic keeps of the nodes found.  `next` is
   * the nearest node found, or where the search started when there is none.
   */
  ghost predicate SelectedBySearch(q: Search, max: nat, metric: Metric, selected: seq<Id>, next: Id) {
    exists visited, found :: Found(q, visited, found) && SelectedFrom(q, found, max, metric, selected, next)
  }

  ghost predicate SelectedFrom(q: Search, found: seq<Candidate>, max: nat, metric: Metric, selected: seq<Id>, next: Id) {
    if found == [] then selected == [] && next == q.entry
    else
      && (exists picked :: Chosen(found, max, metric, picked) && selected == Ids(picked))
      && exists c | c in found :: c.id == next && forall d | d in found :: c.dist <= d.dist
  }

  /** A level at which a new node was connected to what a search of it found; `next` is the nearest of it. */
  ghost predicate ConnectedBySearch(g: Graph, after: Graph, q: Search, id: Id, max: nat, cap: nat, metric: Metric,
                                    next: Id)
    requires id in g.links
  {
    exists visited, found :: Found(q, visited, found) && ConnectedToFound(g, after, q, found, id, max, cap, metric, next)
  }

  ghost predicate ConnectedToFound(g: Graph, after: Graph, q: Search, found: seq<Candidate>, id: Id, max: nat, cap: nat,
                                   metric: Metric, next: Id)
    requires id in g.links
  {
    if found == [] then after == g && next == q.entry
    else
      && (exists selected :: Chosen(found, max, metric, selected)
            && Connect.Connected(g.links, after.links, id, selected, q.deleted, cap, metric))
      && exists c | c in found :: c.id == next && forall d | d in found :: c.dist <= d.dist
  }

  /** A search of one level of the index, from the given node. */
  function SearchOf(ix: Index, l: nat, s: Search, start: Id): Search
    requires l < |ix.levels|
  {
    s.(links := ix.levels[l].links, entry := start)
  }

  /** The descent from the level `high`: the walk through level `high - k` starts at stops[k], dists[k] away. */
  ghost predicate Descended(ix: Index, s: Search, high: nat, stops: seq<Id>, dists: seq<real>) {
    && 0 < |stops| == |dists| <= high + 1 <= |ix.levels|
    && stops[0] == s.entry && dists[0] == s.dist(s.entry)
    && forall k: nat | k + 1 < |stops| ::
         GreedyEnds(SearchOf(ix, high - k, s, stops[k]), false, dists[k], stops[k + 1], dists[k + 1])
  }

  /** The descent through the levels above `bottom` ends at the node `last`. */
  ghost predicate DescendsTo(ix: Index, s: Search, high: nat, bottom: nat, last: Id) {
    exists stops, dists :: Descended(ix, s, high, stops, dists) && |stops| == high - bottom + 1 && stops[high - bottom] == last
  }

  lemma NoDescent(ix: Index, s: Search, high: nat)
    requires high < |ix.levels|
    ensures Descended(ix, s, high, [s.entry], [s.dist(s.entry)]) && DescendsTo(ix, s, high, high, s.entry)
  {
    hide GreedyEnds;
    assert Descended(ix, s, high, [s.entry], [s.dist(s.entry)]);
  }

  lemma DescendedStep(ix: Index, s: Search, high: nat, stops: seq<Id>, dists: seq<real>, next: Id, dist: real)
    requires Descended(ix, s, high, stops, dists) && |stops| <= high
    requires var k := |stops| - 1; GreedyEnds(SearchOf(ix, high - k, s, stops[k]), false, dists[k], next, dist)
    ensures Descended(ix, s, high, stops + [next], dists + [dist])
  {
    hide GreedyEnds;
  }

  /** At level l the search from `start` found neighbours, the node was connected to them, and `next` is the nearest. */
  ghost predicate LevelJoined(ix: Index, after: Index, s: Search, id: Id, l: int, start: Id, next: Id, metric: Metric) {
    && 0 <= l < |ix.levels| == |after.levels| && id in ix.levels[l].links
    && ConnectedBySearch(ix.levels[l], after.levels[l], SearchOf(ix, l, s, start), id, ix.max, Cap(ix.max, l), metric, next)
  }

  /** From the level `top` downwards, each level was searched from the nearest node found one level up. */
  ghost predicate JoinedAlong(ix: Index, after: Index, s: Search, id: Id, top: int, path: seq<Id>, metric: Metric) {
    forall k: nat | k + 1 < |path| :: LevelJoined(ix, after, s, id, top - k, path[k], path[k + 1], metric)
  }

  /**
   * What inserting a node amounts to: a greedy descent to the node's highest level, or to the highest there
   * is; from there down every level is searched from where the level above left off, and the node connected
   * to what is found.  The levels above are as they were.
   */
  ghost predicate Inserted(ix: Index, after: Index, s: Search, id: Id, level: nat, high: nat, metric: Metric) {
    var common := if level < high then level else high;
    exists path :: InsertedAlong(ix, after, s, id, common, high, path, metric)
  }

  ghost predicate InsertedAlong(ix: Index, after: Index, s: Search, id: Id, common: nat, high: nat, path: seq<Id>,
                                metric: Metric)
  {
    && |path| == common + 2 && DescendsTo(ix, s, high, common, path[0])
    && JoinedAlong(ix, after, s, id, common, path, metric)
    && |after.levels| == |ix.levels| && forall l | common < l < |ix.levels| :: after.levels[l] == ix.levels[l]
  }

  /** Flags that change afterwards make no difference. */
  lemma SameLevelsInserted(ix: Index, mid: Index, after: Index, s: Search, id: Id, level: nat, high: nat, metric: Metric)
    requires Inserted(ix, mid, s, id, level, high, metric) && after.levels == mid.levels
    requires RoomIsUsed(ix, mid, id, if level < high then level else high)
    ensures Inserted(ix, after, s, id, level, high, metric)
    ensures RoomIsUsed(ix, after, id, if level < high then level else high)
  {
    hide ConnectedBySearch, DescendsTo;
    var common := if level < high then level else high;
    var path :| InsertedAlong(ix, mid, s, id, common, high, path, metric);
    JoinedSame(ix, mid, after, s, id, common, path, metric);
    assert InsertedAlong(ix, after, s, id, common, high, path, metric);
  }

  lemma JoinedSame(ix: Index, mid: Index, after: Index, s: Search, id: Id, top: int, path: seq<Id>, metric: Metric)
    requires JoinedAlong(ix, mid, s, id, top, path, metric) && after.levels == mid.levels
    ensures JoinedAlong(ix, after, s, id, top, path, metric)
  {
    hide ConnectedBySearch;
    forall k: nat | k + 1 < |path| ensures LevelJoined(ix, after, s, id, top - k, path[k], path[k + 1], metric) {
      assert LevelJoined(ix, mid, s, id, top - k, path[k], path[k + 1], metric);
    }
  }

  lemma JoinedStep(ix: Index, mid: Index, after: Index, s: Search, id: Id, top: int, path: seq<Id>, next: Id, metric: Metric)
    requires path != [] && JoinedAlong(ix, mid, s, id, top, path, metric) && |after.levels| == |mid.levels|
    requires forall l | 0 <= l < |mid.levels| && l != top + 1 - |path| :: after.levels[l] == mid.levels[l]
    requires LevelJoined(ix, after, s, id, top + 1 - |path|, path[|path| - 1], next, metric)
    ensures JoinedAlong(ix, after, s, id, top, path + [next], metric)
  {
    hide ConnectedBySearch;
    var path' := path + [next];
    forall k: nat | k + 1 < |path'| ensures LevelJoined(ix, after, s, id, top - k, path'[k], path'[k + 1], metric) {
      if k + 1 < |path| {
        assert LevelJoined(ix, mid, s, id, top - k, path[k], path[k + 1], metric);
      }
    }
  }

  /**
   * The neighbours of the node that had room keep all their links, and get the node as one more: there is
   * room for 2 M links at the bottom and for M above.
   */
  ghost predicate RoomIsUsed(ix: Index, after: Index, id: Id, common: nat) {
    forall l: nat, v | l <= common && l < |ix.levels| == |after.levels| && Link(after.levels[l], id, v) ::
      && v in ix.levels[l].links && v in after.levels[l].links
      && (|ix.levels[l].links[v]| < (if l == 0 then 2 * ix.max else ix.max) ==>
            after.levels[l].links[v] == ix.levels[l].links[v] + [id])
  }

  lemma JoinedUsesRoom(ix: Index, after: Index, s: Search, id: Id, common: nat, path: seq<Id>, metric: Metric)
    requires JoinedAlong(ix, after, s, id, common, path, metric) && |path| == common + 2
    requires forall l: nat | l <= common && l < |ix.levels| :: Isolated(ix.levels[l], id)
    requires IndexOk(after) && after.max == ix.max && |after.levels| == |ix.levels|
    ensures RoomIsUsed(ix, after, id, common)
  {
    hide ConnectedBySearch, DescendsTo, Isolated;
    forall l: nat, v | l <= common && l < |ix.levels| == |after.levels| && Link(after.levels[l], id, v)
      ensures v in ix.levels[l].links && v in after.levels[l].links
      ensures |ix.levels[l].links[v]| < (if l == 0 then 2 * ix.max else ix.max) ==>
                after.levels[l].links[v] == ix.levels[l].links[v] + [id]
    {
      assert LevelJoined(ix, after, s, id, common - (common - l), path[common - l], path[common - l + 1], metric);
      assert LevelOk(after, l) && RowOk(after.levels[l].links.Keys, id, after.levels[l].links[id], Cap(after.max, l));
      LevelUsesRoom(ix.levels[l], after.levels[l], SearchOf(ix, l, s, path[common - l]), id, ix.max, Cap(ix.max, l), metric,
                    path[common - l + 1], v);
    }
  }

  lemma LevelUsesRoom(g: Graph, after: Graph, q: Search, id: Id, max: nat, cap: nat, metric: Metric, next: Id, v: Id)
    requires Isolated(g, id) && ConnectedBySearch(g, after, q, id, max, cap, metric, next) && Link(after, id, v)
    requires q.links == g.links && v != id
    ensures v in g.links && v in after.links
    ensures |g.links[v]| < cap ==> after.links[v] == g.links[v] + [id]
  {
    hide Connect.Competed;
    var visited: set<Id>, found: seq<Candidate> :| Found(q, visited, found)
      && ConnectedToFound(g, after, q, found, id, max, cap, metric, next);
    if found != [] {
      var selected: seq<Candidate> :| Chosen(found, max, metric, selected)
        && Connect.Connected(g.links, after.links, id, selected, q.deleted, cap, metric);
      InElems(found);
      InElems(selected);
      var i :| 0 <= i < |selected| && Ids(selected)[i] == v;
      assert selected[i] in selected && selected[i] in found;
    }
  }

  /** Started from a live node, a search finds live nodes, and a live new node gets links to some of them. */
  lemma LiveStartConnects(g: Graph, after: Graph, q: Search, id: Id, max: nat, cap: nat, metric: Metric, next: Id)
    requires id in g.links && ConnectedBySearch(g, after, q, id, max, cap, metric, next)
    requires SearchOk(q) && q.entry !in q.deleted && id !in q.deleted
    ensures next !in q.deleted && id in after.links && after.links[id] != []
    ensures forall v | v in after.links[id] :: LiveReachable(q, v)
  {
    var visited: set<Id>, found: seq<Candidate> :| Found(q, visited, found)
      && ConnectedToFound(g, after, q, found, id, max, cap, metric, next);
    EntryIsFound(q, visited, found);
    var selected: seq<Candidate> :| Chosen(found, max, metric, selected)
      && Connect.Connected(g.links, after.links, id, selected, q.deleted, cap, metric);
    var c :| c in found && c.id == next;
    InElems(found);
    InElems(selected);
    assert selected[0] in found && Ids(selected)[0] == selected[0].id;
    assert selected[0].id in after.links[id];
    forall v | v in after.links[id] ensures LiveReachable(q, v) {
      var i :| 0 <= i < |selected| && Ids(selected)[i] == v;
      assert selected[i] in found;
    }
  }

  lemma EntryIsFound(q: Search, visited: set<Id>, found: seq<Candidate>)
    requires Found(q, visited, found) && SearchOk(q) && q.entry !in q.deleted
    ensures found != []
  {
  }

  lemma RepairedRelinks(g: Graph, after: Graph, u: Id, deleted: set<Id>, inProcess: set<Id>, cap: nat, metric: Metric)
    requires WellFormed(g, cap) && WellFormed(after, cap) && OnlyAt(g.links, after.links, u)
    requires Repair.Repaired(g.links, after.links[u], u, deleted, inProcess, cap, metric)
    ensures LevelRelinked(g, after, deleted, cap)
    ensures forall d | d in deleted :: !Link(after, u, d)
  {
  }

  /** One row of one level was repaired, and everything else is as it was. */
  ghost predicate RowRepaired(ix: Index, after: Index, u: Id, level: nat, metric: Metric) {
    && level < |ix.levels| == |after.levels|
    && OnlyAt(ix.levels[level].links, after.levels[level].links, u)
    && Repair.Repaired(ix.levels[level].links, after.levels[level].links[u], u, ix.deleted, ix.inProcess, Cap(ix.max, level),
                       metric)
    && forall l | 0 <= l < |ix.levels| && l != level :: after.levels[l] == ix.levels[l]
  }

  lemma SameLevel(g: Graph, deleted: set<Id>, cap: nat)
    requires WellFormed(g, cap)
    ensures LevelRelinked(g, g, deleted, cap)
  {
  }

  /** The rows that pointed to e were rebuilt, all others are as they were. */
  ghost predicate RowsDetached(g0: Graph, g: Graph, e: Id, deleted: set<Id>, cap: nat, metric: Metric) {
    && e in g0.links && g.links.Keys == g0.links.Keys && g.links[e] == g0.links[e]
    && forall v | v in g0.links && v != e ::
         if e in g0.links[v] then InPlaceDelete.DetachedRow(g0.links, g.links[v], e, v, deleted, cap, metric)
         else g.links[v] == g0.links[v]
  }

  /** The element was detached at all its levels. */
  ghost predicate DetachedIn(ix: Index, mid: Index, id: Id, metric: Metric)
    requires 0 <= id < |ix.top|
  {
    && mid == ix.(levels := mid.levels) && |mid.levels| == |ix.levels|
    && forall l | 0 <= l < |ix.levels| ::
         if l <= ix.top[id] then RowsDetached(ix.levels[l], mid.levels[l], id, ix.deleted, Cap(ix.max, l), metric)
         else mid.levels[l] == ix.levels[l]
  }

  /** Replacing one level by a relinked one relinks the index. */
  lemma RelinkedLevel(ix: Index, after: Index, l: nat)
    requires IndexOk(ix) && l < |ix.levels| && |after.levels| == |ix.levels|
    requires after == ix.(levels := ix.levels[l := after.levels[l]])
    requires LevelRelinked(ix.levels[l], after.levels[l], ix.deleted, Cap(ix.max, l))
    ensures Relinked(ix, after)
  {
    hide WellFormed, Link;
    forall k | 0 <= k < |ix.levels| ensures LevelOk(after, k) {
      assert LevelOk(ix, k);
    }
  }

  lemma RelinkedStep(ix: Index, mid: Index, after: Index)
    requires Relinked(ix, mid) && Relinked(mid, after)
    ensures Relinked(ix, after)
  {
  }

  lemma RelinkedSelf(ix: Index)
    requires IndexOk(ix)
    ensures Relinked(ix, ix)
  {
  }

  lemma RelinkedIsOk(ix: Index, after: Index)
    requires Relinked(ix, after)
    ensures IndexOk(after)
  {
  }

  lemma FlagsAreIds(ix: Index)
    requires IndexOk(ix)
    ensures Within(ix.deleted, |ix.top|) && Within(ix.inProcess, |ix.top|)
  {
  }

  // ----- The entry point -----

  /** The entry point is a live element of the highest level there is among the live ones. */
  ghost predicate EntryOk(top: seq<nat>, dead: set<Id>, entry: Option<Id>, maxLevel: int) {
    match entry
    case None => maxLevel == -1 && forall v | 0 <= v < |top| :: v in dead
    case Some(e) =>
      && 0 <= e < |top| && e !in dead && top[e] == maxLevel
      && forall v | 0 <= v < |top| && v !in dead :: top[v] <= maxLevel
  }

  ghost function Views(gs: seq<LevelGraph>): (r: seq<Graph>)
    reads gs
    ensures |r| == |gs| && forall i | 0 <= i < |gs| :: r[i] == gs[i].View()
  {
    if gs == [] then [] else Views(gs[..|gs| - 1]) + [gs[|gs| - 1].View()]
  }

  /** The node v, stored but not connected yet, is on its own. */
  ghost predicate Isolated(g: Graph, v: Id) {
    && v in g.links && g.links[v] == []
    && forall u | u in g.links :: v !in g.links[u]
  }

  class HnswIndex {
    const max: nat
    const ef: nat
    const multi: bool
    const distance: (Blob, Blob) -> real

    var levels: seq<LevelGraph>
    var top: seq<nat>
    var labels: seq<Label>
    var blobs: seq<Blob>
    var deleted: set<Id>
    var inProcess: set<Id>
    var lookup: Lookup
    var entry: Option<Id>
    var maxLevel: int
    var numMarkedDeleted: int

    constructor (max: nat, ef: nat, multi: bool, distance: (Blob, Blob) -> real)
      requires max > 1 && ef > 0
      ensures Valid() && View() == Index(max, [], {}, {}, []) && Stored() == multiset{}
      ensures this.max == max && this.ef == ef && this.multi == multi && this.distance == distance && lookup == map[]
    {
      this.max, this.ef, this.multi, this.distance := max, ef, multi, distance;
      levels, top, labels, blobs := [], [], [], [];
      deleted, inProcess, lookup := {}, {}, map[];
      entry, maxLevel, numMarkedDeleted := None, -1, 0;
    }

    ghost function View(): Index
      reads this, levels
    {
      Index(max, top, deleted, inProcess, Views(levels))
    }

    /** The graph is in order; labels and entry point aside. */
    ghost predicate GraphOk()
      reads this, levels
    {
      && max > 1 && ef > 0
      && DistinctLevels()
      && IndexOk(View())
    }

    /** The distances between the stored vectors. */
    function ElementMetric(): (metric: Metric)
      reads this`blobs
      ensures forall a, b | 0 <= a < |blobs| && 0 <= b < |blobs| :: metric(a, b) == distance(blobs[a], blobs[b])
    {
      var (bs, f) := (blobs, distance);
      (a: Id, b: Id) => if 0 <= a < |bs| && 0 <= b < |bs| then f(bs[a], bs[b]) else 0.0
    }

    /** The distances of the stored vectors from a given one. */
    function DistanceTo(blob: Blob): (dist: Id -> real)
      reads this`blobs
      ensures forall v | 0 <= v < |blobs| :: dist(v) == distance(blob, blobs[v])
    {
      var (bs, f) := (blobs, distance);
      (v: Id) => if 0 <= v < |bs| then f(blob, bs[v]) else 0.0
    }

    function SearchAt(level: nat, start: Id, blob: Blob, count: nat): Search
      requires level < |levels|
      reads this, levels
    {
      Search(levels[level].links, deleted, inProcess, DistanceTo(blob), start, count)
    }

    lemma SearchCanStart(level: nat, start: Id, blob: Blob, count: nat)
      requires GraphOk() && level < |levels| && count > 0
      requires 0 <= start < |top| && top[start] >= level
      ensures SearchOk(SearchAt(level, start, blob, count))
      ensures forall v | v in levels[level].links :: 0 <= v < |top| && top[v] >= level
      ensures forall v | 0 <= v < |top| && top[v] >= level :: v in levels[level].links
      ensures WellFormed(levels[level].View(), Cap(max, level))
    {
      assert LevelOk(View(), level);
      var g := levels[level].View();
      EdgesInLevel(g, Cap(max, level));
      forall u, v | u in g.links && v in g.links[u] ensures v in g.links {
        assert Link(g, u, v);
      }
    }

    /** Finds neighbours for a stored element at one level and connects it to them. */
    method ConnectAt(level: nat, id: Id, start: Id, blob: Blob) returns (next: Id)
      requires GraphOk() && level < |levels| && id in inProcess && Isolated(levels[level].View(), id)
      requires 0 <= start < |top| && top[start] >= level && start != id
      modifies levels[level]
      ensures LevelRelinked(old(levels[level].View()), levels[level].View(), deleted, Cap(max, level))
      ensures 0 <= next < |top| && top[next] >= level && next != id
      ensures ConnectedBySearch(old(levels[level].View()), levels[level].View(), old(SearchAt(level, start, blob, ef)), id,
                                max, Cap(max, level), ElementMetric(), next)
    {
      hide IndexOk, Found, Filtered, LevelRelinked, SearchOk;
      SearchCanStart(level, start, blob, ef);
      var g := levels[level];
      ghost var before := g.View();
      var handler := new VisitedNodesHandler(|top|);
      var q := SearchAt(level, start, blob, ef);
      var found, visited := SearchLayer(q, handler);
      next := start;
      if found == [] {
        SameLevel(before, deleted, Cap(max, level));
        assert ConnectedToFound(before, g.View(), q, found, id, max, Cap(max, level), ElementMetric(), next);
        return;
      }
      FoundAreCandidates(q, visited, found, id);
      ghost var selected;
      next, selected := Connect.MutuallyConnectNewElement(g, id, found, max, Cap(max, level), deleted, ElementMetric());
      ConnectedRelinks(before, g.View(), id, selected, deleted, Cap(max, level), ElementMetric());
      assert Chosen(found, max, ElementMetric(), selected);
      assert ConnectedToFound(before, g.View(), q, found, id, max, Cap(max, level), ElementMetric(), next);
    }

    /** The element stands isolated at all its levels below `level`. */
    ghost predicate IsolatedBelow(id: Id, level: int)
      reads this`levels, levels
    {
      forall l | 0 <= l < level && l < |levels| :: Isolated(levels[l].View(), id)
    }

    lemma LevelChanged(before: Index, level: nat)
      requires level < |before.levels| && IndexOk(before)
      requires max > 1 && ef > 0 && DistinctLevels()
      requires View() == before.(levels := View().levels) && |levels| == |before.levels|
      requires forall l | 0 <= l < |levels| && l != level :: levels[l].View() == before.levels[l]
      requires LevelRelinked(before.levels[level], levels[level].View(), deleted, Cap(max, level))
      ensures GraphOk() && Relinked(before, View())
    {
      hide IndexOk, LevelRelinked, Relinked;
      var after := View();
      assert after.levels == before.levels[level := after.levels[level]];
      RelinkedLevel(before, after, level);
      RelinkedIsOk(before, after);
    }

    /** What the searches for a vector have in common: flags, distances, and the number of nodes to find. */
    function Quest(start: Id, blob: Blob): Search
      reads this`blobs, this`deleted, this`inProcess
    {
      Search(map[], deleted, inProcess, DistanceTo(blob), start, ef)
    }

    /** The element has neighbours at the level. */
    predicate Linked(id: Id, level: nat)
      reads this`levels, levels
    {
      level < |levels| && id in levels[level].links && levels[level].links[id] != []
    }

    /** Descends to the levels of the element and connects it at each of them. */
    method InsertElementToGraph(id: Id, elementLevel: nat, entryPoint: Id, globalMax: nat, blob: Blob)
      requires GraphOk() && id in inProcess && elementLevel < |levels| && IsolatedBelow(id, elementLevel + 1)
      requires 0 <= entryPoint < |top| && entryPoint != id && top[entryPoint] == globalMax
      modifies levels
      ensures GraphOk() && Relinked(old(View()), View())
      ensures Inserted(old(View()), View(), Quest(entryPoint, blob), id, elementLevel, globalMax, ElementMetric())
      ensures RoomIsUsed(old(View()), View(), id, if elementLevel < globalMax then elementLevel else globalMax)
      ensures entryPoint !in deleted && id !in deleted ==>
                forall l: nat | l <= elementLevel && l <= globalMax :: Linked(id, l)
    {
      hide GraphOk, Relinked, JoinedAlong, DescendsTo, Linked, IndexOk, Isolated, RoomIsUsed, Inserting, Views;
      ghost var before, s := View(), Quest(entryPoint, blob);
      EntryInLevels(entryPoint);
      var curr, common := entryPoint, globalMax;
      AreIsolated(id, elementLevel + 1);
      if elementLevel < globalMax {
        common := elementLevel;
        curr := Descend(entryPoint, globalMax, elementLevel, blob);
        assert curr != id;
      } else {
        NoDescent(before, s, globalMax);
      }
      ghost var path := [curr];
      InsertingStarts(id, common, curr, s);
      for level := common + 1 downto 0
        invariant Inserting(before, id, level, common, s, path) && path != [] && curr == path[|path| - 1]
        invariant DescendsTo(before, s, globalMax, common, path[0])
      {
        curr := ConnectLevel(level, id, curr, blob, before, common, s, path);
        path := path + [curr];
      }
      InsertingEnds(before, id, common, s, path);
      assert InsertedAlong(before, View(), s, id, common, globalMax, path, ElementMetric());
    }

    lemma AreIsolated(id: Id, level: nat)
      requires IsolatedBelow(id, level)
      ensures forall l: nat | l < level && l < |View().levels| :: Isolated(View().levels[l], id)
    {
      hide Isolated;
    }

    lemma EntryInLevels(e: Id)
      requires GraphOk() && 0 <= e < |top|
      ensures top[e] < |levels|
    {
    }

    /** The element was connected at the levels from `level` up to `common`; the path's end is where to go on. */
    ghost predicate Inserting(before: Index, id: Id, level: int, common: nat, s: Search, path: seq<Id>)
      reads this, levels
    {
      && GraphOk() && Relinked(before, View()) && IsolatedBelow(id, level)
      && common < |levels| == |before.levels| && id in inProcess
      && 0 <= level <= common + 1 && |path| == common + 2 - level
      && (forall l | 0 <= l < |levels| && (l < level || l > common) :: View().levels[l] == before.levels[l])
      && JoinedAlong(before, View(), s, id, common, path, ElementMetric())
      && (s.entry !in deleted && id !in deleted ==>
            path[|path| - 1] !in deleted && forall l: nat | level <= l <= common :: Linked(id, l))
      && var curr := path[|path| - 1];
        0 <= curr < |top| && curr != id && (level > 0 ==> top[curr] >= level - 1)
    }

    lemma InsertingStarts(id: Id, common: nat, curr: Id, s: Search)
      requires GraphOk() && id in inProcess && common < |levels| && IsolatedBelow(id, common + 1)
      requires 0 <= curr < |top| && curr != id && top[curr] >= common && (s.entry !in deleted ==> curr !in deleted)
      ensures Inserting(View(), id, common + 1, common, s, [curr])
    {
    }

    lemma InsertingEnds(before: Index, id: Id, common: nat, s: Search, path: seq<Id>)
      requires Inserting(before, id, 0, common, s, path)
      requires forall l: nat | l <= common && l < |before.levels| :: Isolated(before.levels[l], id)
      ensures GraphOk() && Relinked(before, View()) && RoomIsUsed(before, View(), id, common)
      ensures |path| == common + 2 && JoinedAlong(before, View(), s, id, common, path, ElementMetric())
      ensures |View().levels| == |before.levels|
      ensures forall l | common < l < |before.levels| :: View().levels[l] == before.levels[l]
      ensures s.entry !in deleted && id !in deleted ==> forall l: nat | l <= common :: Linked(id, l)
    {
      hide LevelJoined, Isolated, RoomIsUsed;
      JoinedUsesRoom(before, View(), s, id, common, path, ElementMetric());
    }

    method ConnectLevel(level: nat, id: Id, curr: Id, blob: Blob, ghost before: Index, ghost common: nat,
                        ghost s: Search, ghost path: seq<Id>)
      returns (next: Id)
      requires level <= common && Inserting(before, id, level + 1, common, s, path) && curr == path[|path| - 1]
      requires s == Quest(s.entry, blob)
      modifies levels[level]
      ensures Inserting(before, id, level, common, s, path + [next])
    {
      hide IndexOk, Relinked, LevelRelinked, ConnectedBySearch, JoinedAlong, WellFormed, SearchOk, Views;
      ghost var mid, q := View(), SearchAt(level, curr, blob, ef);
      SearchCanStart(level, curr, blob, ef);
      assert levels[level].View() == before.levels[level];
      assert q == SearchOf(before, level, s, curr);
      next := ConnectAt(level, id, curr, blob);
      LevelChanged(mid, level);
      RelinkedStep(before, mid, View());
      JoinedLevelLinks(before, level, id, curr, next, s);
      assert forall l | 0 <= l < |levels| && l != level :: levels[l].View() == mid.levels[l];
      JoinedStep(before, mid, View(), s, id, common, path, next, ElementMetric());
      forall l: nat | level < l <= common && s.entry !in deleted && id !in deleted ensures Linked(id, l) {
        assert old(Linked(id, l)) && levels[l].View() == mid.levels[l];
      }
    }

    lemma JoinedLevelLinks(before: Index, level: nat, id: Id, start: Id, next: Id, s: Search)
      requires level < |levels| == |before.levels| && id in before.levels[level].links
      requires SearchOk(SearchOf(before, level, s, start)) && s.deleted == deleted && before.max == max
      requires ConnectedBySearch(before.levels[level], levels[level].View(), SearchOf(before, level, s, start), id, max,
                                 Cap(max, level), ElementMetric(), next)
      ensures LevelJoined(before, View(), s, id, level, start, next, ElementMetric())
      ensures start !in deleted && id !in deleted ==> next !in deleted && Linked(id, level)
    {
      if start !in deleted && id !in deleted {
        LiveStartConnects(before.levels[level], levels[level].View(), SearchOf(before, level, s, start), id, max,
                          Cap(max, level), ElementMetric(), next);
      }
    }

    /** One walk of the descent. */
    method WalkLevel(level: nat, curr: Id, dist: real, blob: Blob) returns (next: Id, nextDist: real)
      requires GraphOk() && level < |levels| && 0 <= curr < |top| && top[curr] >= level && dist <= DistanceTo(blob)(curr)
      ensures GreedyEnds(SearchAt(level, curr, blob, ef), false, dist, next, nextDist)
      ensures 0 <= next < |top| && top[next] >= level && nextDist <= DistanceTo(blob)(next)
      ensures next == curr || next !in inProcess
      ensures curr !in deleted ==> next !in deleted
    {
      hide GreedyEnds, SearchOk, IndexOk, Reachable, Views, DistinctLevels;
      SearchCanStart(level, curr, blob, ef);
      var q := SearchAt(level, curr, blob, ef);
      next, nextDist := GreedySearchLevel(q, false, curr, dist);
      ReachableIsReady(q, next);
    }

    /** Searches greedily from the top level down to the one above `bottom`. */
    method Descend(start: Id, high: nat, bottom: nat, blob: Blob) returns (curr: Id)
      requires GraphOk() && bottom < high && 0 <= start < |top| && top[start] == high
      ensures 0 <= curr < |top| && top[curr] >= bottom + 1
      ensures curr == start || curr !in inProcess
      ensures start !in deleted ==> curr !in deleted
      ensures DescendsTo(View(), Quest(start, blob), high, bottom, curr)
    {
      hide GreedyEnds, Descended, SearchOk, IndexOk, Views, DistinctLevels;
      curr := start;
      var dist := DistanceTo(blob)(curr);
      EntryInLevels(start);
      ghost var stops, dists := [start], [dist];
      NoDescent(View(), Quest(start, blob), high);
      for level := high + 1 downto bottom + 1
        invariant 0 <= curr < |top| && top[curr] >= level - 1 && top[curr] >= bottom + 1
        invariant dist <= DistanceTo(blob)(curr)
        invariant curr == start || curr !in inProcess
        invariant start !in deleted ==> curr !in deleted
        invariant |stops| == |dists| == high + 2 - level && curr == stops[high + 1 - level] && dist == dists[high + 1 - level]
        invariant Descended(View(), Quest(start, blob), high, stops, dists)
      {
        var next, nextDist := WalkLevel(level, curr, dist, blob);
        assert SearchAt(level, curr, blob, ef) == SearchOf(View(), level, Quest(start, blob), curr);
        DescendedStep(View(), Quest(start, blob), high, stops, dists, next, nextDist);
        curr, dist := next, nextDist;
        stops, dists := stops + [curr], dists + [dist];
      }
    }

    /** Connects a stored element, unless it is the first one, and lifts its mark. */
    method IndexVector(id: Id, elementLevel: nat, prevEntry: Option<Id>, prevMax: int, blob: Blob)
      requires GraphOk() && id in inProcess && elementLevel < |levels| && IsolatedBelow(id, elementLevel + 1)
      requires prevEntry.Some? ==>
                 0 <= prevEntry.value < |top| && prevEntry.value != id && top[prevEntry.value] == prevMax
      modifies this`inProcess, levels
      ensures GraphOk() && Relinked(old(View()), View().(inProcess := old(inProcess)))
      ensures inProcess == old(inProcess) - {id}
      ensures prevEntry.Some? && prevEntry.value !in deleted && id !in deleted ==>
                forall l: nat | l <= elementLevel && l <= prevMax :: Linked(id, l)
      ensures prevEntry.Some? ==>
                && Inserted(old(View()), View(), old(Quest(prevEntry.value, blob)), id, elementLevel, prevMax, ElementMetric())
                && RoomIsUsed(old(View()), View(), id, if elementLevel < prevMax then elementLevel else prevMax)
      ensures prevEntry == None ==> View().levels == old(View().levels)
    {
      hide IndexOk, Relinked, Isolated, Linked, InsertedAlong, RoomIsUsed;
      RelinkedSelf(View());
      if prevEntry.Some? {
        InsertElementToGraph(id, elementLevel, prevEntry.value, prevMax, blob);
      }
      ghost var after := View();
      FlagsAreIds(after);
      inProcess := inProcess - {id};
      assert View() == after.(inProcess := inProcess);
      FlagsKeepOk(after, View());
      if prevEntry.Some? {
        SameLevelsInserted(old(View()), after, View(), old(Quest(prevEntry.value, blob)), id, elementLevel, prevMax,
                           ElementMetric());
      }
    }

    // ----- Storing -----

    /** Labels, entry point and counters; the lookup is of no concern for labels in `except`. */
    ghost predicate BooksOk(except: set<Label>)
      reads this`top, this`labels, this`blobs, this`deleted, this`lookup, this`entry, this`maxLevel, this`numMarkedDeleted
    {
      && |labels| == |top| && |blobs| == |top|
      && numMarkedDeleted == |deleted|
      && EntryOk(top, deleted, entry, maxLevel)
      && LookupOk(lookup, labels, deleted, except)
      && (!multi ==> forall key | key in lookup && key !in except :: |lookup[key]| == 1)
    }

    ghost predicate Valid()
      reads this, levels
    {
      GraphOk() && BooksOk({})
    }

    /** The vectors stored and not marked deleted, with their labels. */
    ghost function Stored(): multiset<Option<(Label, Blob)>>
      requires |labels| == |blobs|
      reads this
    {
      Contents(labels, blobs, deleted)
    }

    ghost predicate DistinctLevels()
      reads this`levels
    {
      forall i, j :: 0 <= i < j < |levels| ==> levels[i] != levels[j]
    }

    /** Creates the levels that are missing up to `level`. */
    method GrowLevels(level: nat)
      requires DistinctLevels()
      modifies this`levels
      ensures |levels| == if level < |old(levels)| then |old(levels)| else level + 1
      ensures |old(levels)| <= |levels| && levels[..|old(levels)|] == old(levels)
      ensures forall i | |old(levels)| <= i < |levels| :: fresh(levels[i])
      ensures DistinctLevels()
      ensures forall l | |old(levels)| <= l < |levels| :: levels[l].View() == EMPTY_LEVEL
    {
      ghost var given := levels;
      while |levels| <= level
        invariant |given| <= |levels| && levels[..|given|] == given
        invariant |levels| <= |given| || |levels| <= level + 1
        invariant forall i | |given| <= i < |levels| :: fresh(levels[i])
        invariant DistinctLevels()
        invariant forall l | |given| <= l < |levels| :: levels[l].View() == EMPTY_LEVEL
        decreases level + 1 - |levels|
      {
        var g := new LevelGraph();
        levels := levels + [g];
      }
    }

    /** Puts a new node into all levels up to its own. */
    method AddAtLevels(id: Id, level: nat)
      requires DistinctLevels() && level < |levels|
      modifies levels
      ensures forall k | 0 <= k < |levels| ::
                levels[k].View() == if k <= level then AddNode(old(levels[k].View()), id) else old(levels[k].View())
    {
      for l := 0 to level + 1
        invariant forall k | 0 <= k < |levels| ::
                    levels[k].View() == if k < l then AddNode(old(levels[k].View()), id) else old(levels[k].View())
      {
        levels[l].AddNode(id);
      }
    }

    method AddToLevels(id: Id, level: nat)
      requires GraphOk() && id == |top|
      modifies this`levels, levels
      ensures |old(levels)| <= |levels| && levels[..|old(levels)|] == old(levels)
      ensures forall i | |old(levels)| <= i < |levels| :: fresh(levels[i])
      ensures DistinctLevels() && Views(levels) == StoreElement(old(View()), level).levels
      ensures level < |levels| && IsolatedBelow(id, level + 1)
    {
      hide IndexOk, Isolated;
      ghost var before := View();
      GrowLevels(level);
      assert forall k | 0 <= k < |levels| :: levels[k].View() == LevelAt(before, k);
      AddAtLevels(id, level);
      forall l: nat | l <= level ensures Isolated(levels[l].View(), id) {
        NewNodeIsIsolated(before, l);
      }
    }

    /** The books with one more live element, which is the entry point if it is the highest. */
    lemma StoredBooks(top0: seq<nat>, entry0: Option<Id>, maxLevel0: int, level: nat)
      requires EntryOk(top0, deleted, entry0, maxLevel0) && Within(deleted, |top0|)
      requires top == top0 + [level]
      requires if level > maxLevel0 then entry == Some(|top0|) && maxLevel == level
               else entry == entry0 && maxLevel == maxLevel0
      ensures EntryOk(top, deleted, entry, maxLevel)
    {
    }

    /** The meta data of a new element. */
    method StoreData(key: Label, blob: Blob, level: nat)
      requires BooksOk({}) && Within(deleted, |top|) && (!multi ==> key !in lookup)
      modifies this`top, this`labels, this`blobs, this`inProcess, this`lookup, this`entry, this`maxLevel
      ensures BooksOk({})
      ensures top == old(top) + [level] && inProcess == old(inProcess) + {|old(top)|}
      ensures labels == old(labels) + [key] && blobs == old(blobs) + [blob]
      ensures lookup == WithId(old(lookup), key, |old(top)|)
      ensures if level > old(maxLevel) then entry == Some(|old(top)|) && maxLevel == level
              else entry == old(entry) && maxLevel == old(maxLevel)
    {
      hide LookupOk;
      var id := |top|;
      top, labels, blobs := top + [level], labels + [key], blobs + [blob];
      inProcess := inProcess + {id};
      AppendKeepsLookup(lookup, old(labels), deleted, key);
      lookup := lookup[key := (if key in lookup then lookup[key] else []) + [id]];
      if level > maxLevel {
        entry, maxLevel := Some(id), level;
      }
      StoredBooks(old(top), old(entry), old(maxLevel), level);
    }

    method StoreNewElement(key: Label, blob: Blob, level: nat)
      returns (id: Id, prevEntry: Option<Id>, prevMax: int)
      requires Valid() && (!multi ==> key !in lookup)
      modifies this, levels
      ensures Valid() && |old(levels)| <= |levels| && levels[..|old(levels)|] == old(levels)
      ensures forall i | |old(levels)| <= i < |levels| :: fresh(levels[i])
      ensures View() == StoreElement(old(View()), level)
      ensures id == |old(top)| && prevEntry == old(entry) && prevMax == old(maxLevel)
      ensures labels == old(labels) + [key] && blobs == old(blobs) + [blob]
      ensures lookup == WithId(old(lookup), key, id)
      ensures if level > prevMax then entry == Some(id) && maxLevel == level
              else entry == prevEntry && maxLevel == prevMax
      ensures level < |levels| && IsolatedBelow(id, level + 1)
    {
      hide BooksOk, IndexOk, IsolatedBelow, DistinctLevels, Views, StoreElement;
      ghost var before := View();
      FlagsAreIds(before);
      StoreKeepsOk(before, level);
      id, prevEntry, prevMax := |top|, entry, maxLevel;
      AddToLevels(id, level);
      StoreFields(before, level);
      StoreData(key, blob, level);
    }

    // ----- The entry point -----

    /** The rows of e can be read at all its levels. */
    ghost predicate RowsReadable(e: Id)
      requires 0 <= e < |top|
      reads this, levels
    {
      forall l: nat | l <= top[e] ::
        && l < |levels| && e in levels[l].links
        && forall v | v in levels[l].links[e] :: v != e && 0 <= v < |top| && top[v] >= l
    }

    lemma RowsAreReadable(e: Id)
      requires GraphOk() && 0 <= e < |top|
      ensures RowsReadable(e)
    {
      forall l: nat | l <= top[e]
        ensures l < |levels| && e in levels[l].links
        ensures forall v | v in levels[l].links[e] :: v != e && 0 <= v < |top| && top[v] >= l
      {
        assert LevelOk(View(), l);
        assert RowOk(levels[l].links.Keys, e, levels[l].links[e], Cap(max, l));
        InElems(levels[l].links[e]);
      }
    }

    /** Among the neighbours of e at its level: a live one, and whether one was seen that is still in process. */
    method LiveNeighbor(e: Id, level: nat) returns (ready: Option<Id>, busy: Option<Id>)
      requires 0 <= e < |top| && level <= top[e] && RowsReadable(e)
      ensures ready.Some? ==>
                && ready.value != e && 0 <= ready.value < |top| && ready.value !in deleted + inProcess
                && top[ready.value] >= level
      ensures busy.Some? ==> busy.value != e && 0 <= busy.value < |top| && busy.value !in deleted && top[busy.value] >= level
    {
      ready, busy := None, None;
      var row := levels[level].links[e];
      for i := 0 to |row|
        invariant ready == None
        invariant busy.Some? ==>
            busy.value != e && 0 <= busy.value < |top| && busy.value !in deleted && top[busy.value] >= level
      {
        var v := row[i];
        assert v in row;
        if v !in deleted {
          if v !in inProcess {
            return Some(v), busy;
          }
          busy := Some(v);
        }
      }
    }

    /** Among all elements of exactly this level: a live one, or else one that is still in process. */
    method LiveAtLevel(e: Id, level: nat, seen: Option<Id>) returns (ready: Option<Id>, busy: Option<Id>)
      requires seen.Some? ==> seen.value != e && 0 <= seen.value < |top| && seen.value !in deleted && top[seen.value] >= level
      ensures ready.Some? ==>
                && ready.value != e && 0 <= ready.value < |top| && ready.value !in deleted + inProcess
                && top[ready.value] == level
      ensures ready == None ==>
                forall v | 0 <= v < |top| && v !in deleted + inProcess && v != e :: top[v] != level
      ensures busy.Some? ==> busy.value != e && 0 <= busy.value < |top| && busy.value !in deleted && top[busy.value] >= level
      ensures ready == None && busy == None ==>
                forall v | 0 <= v < |top| && v !in deleted && v != e :: top[v] != level
    {
      ready, busy := None, seen;
      for v := 0 to |top|
        invariant ready == None
        invariant busy.Some? ==>
            busy.value != e && 0 <= busy.value < |top| && busy.value !in deleted && top[busy.value] >= level
        invariant forall w | 0 <= w < v && w !in deleted + inProcess && w != e :: top[w] != level
        invariant busy == None ==> forall w | 0 <= w < v && w !in deleted && w != e :: top[w] != level
      {
        if top[v] == level && v != e && v !in deleted {
          if v !in inProcess {
            return Some(v), busy;
          } else if busy == None {
            busy := Some(v);
          }
        }
      }
    }

    /**
     * Finds an entry point to replace the current one.  Only if no other live element of the highest level
     * is finished does it take one in process, for which the source waits first; by the time it is taken
     * it is in process no more.
     */
    method ReplaceEntryPoint()
      requires entry.Some? && EntryOk(top, deleted, entry, maxLevel) && RowsReadable(entry.value)
      modifies this`entry, this`maxLevel
      ensures EntryOk(top, deleted + {old(entry).value}, entry, maxLevel)
      ensures entry.Some? && entry.value in inProcess ==>
                forall v | 0 <= v < |top| && v !in deleted + inProcess && v != old(entry).value :: top[v] < maxLevel
    {
      var e := entry.value;
      while entry == Some(e)
        invariant entry == Some(e) || (entry == None && maxLevel == -1)
        invariant entry == Some(e) ==> 0 <= maxLevel <= top[e]
        invariant forall v | 0 <= v < |top| && v !in deleted && v != e :: top[v] <= maxLevel
        decreases maxLevel
      {
        var ready, busy := LiveNeighbor(e, maxLevel);
        if ready.Some? {
          entry := ready;
          return;
        }
        ready, busy := LiveAtLevel(e, maxLevel, busy);
        if ready.Some? {
          entry := ready;
          return;
        }
        if busy.Some? {
          entry := busy;
          return;
        }
        maxLevel := maxLevel - 1;
        if maxLevel < 0 {
          entry := None;
        }
      }
    }

    /** Makes sure that an element about to leave is not the entry point. */
    method LeaveEntryPoint(id: Id)
      requires EntryOk(top, deleted, entry, maxLevel)
      requires entry == Some(id) ==> RowsReadable(id)
      modifies this`entry, this`maxLevel
      ensures EntryOk(top, deleted + {id}, entry, maxLevel)
    {
      if entry == Some(id) {
        ReplaceEntryPoint();
      }
    }

    // ----- Marking -----

    /** Marks an element deleted; labels are the caller's business. */
    method MarkDeletedInternal(id: Id, ghost except: set<Label>)
      requires GraphOk() && BooksOk(except) && 0 <= id < |top|
      requires id !in deleted ==> labels[id] in except
      modifies this`entry, this`maxLevel, this`deleted, this`numMarkedDeleted
      ensures GraphOk() && BooksOk(except)
      ensures deleted == old(deleted) + {id}
    {
      hide IndexOk, LookupOk, RowsReadable, EntryOk, DistinctLevels, Views;
      if id !in deleted {
        ghost var before := View();
        FlagsAreIds(before);
        RowsAreReadable(id);
        LeaveEntryPoint(id);
        MarkKeepsLookup(lookup, labels, deleted, except, id);
        deleted := deleted + {id};
        numMarkedDeleted := numMarkedDeleted + 1;
        FlagsKeepOk(before, View());
      } else {
        assert deleted == deleted + {id};
      }
    }

    // ----- Removing -----

    /** Frees the element's arrays at all its levels; afterwards no level knows it. */
    method FreeAtLevels(id: Id)
      requires DistinctLevels() && ReadyToGo(View(), id)
      modifies levels
      ensures forall k | 0 <= k < |levels| ::
                levels[k].View() == RemoveSwap.Freed(old(levels[k].View()), id) && WellFormed(levels[k].View(), Cap(max, k))
    {
      hide Detachable, WellFormed, RemoveSwap.Freed;
      ghost var before := Views(levels);
      for l := 0 to top[id] + 1
        invariant forall k | 0 <= k < |levels| ::
                    if k < l then
                      levels[k].View() == RemoveSwap.Freed(before[k], id) && WellFormed(levels[k].View(), Cap(max, k))
                    else levels[k].View() == before[k]
      {
        DetachableHere(before[l], id, Cap(max, l));
        RemoveSwap.FreeNode(levels[l], id, Cap(max, l));
      }
      forall k: nat | top[id] < k < |levels|
        ensures RemoveSwap.Freed(before[k], id) == before[k] && WellFormed(before[k], Cap(max, k))
      {
        AbsentIsFree(before[k], id, Cap(max, k));
      }
    }

    /** Renames the last element at all its levels. */
    method RenameAtLevels(last: Id, id: Id)
      requires DistinctLevels() && 0 <= last < |top| && top[last] < |levels|
      requires forall k | 0 <= k < |levels| ::
                 WellFormed(levels[k].View(), Cap(max, k)) && id !in levels[k].links && id !in levels[k].incoming
                 && (last in levels[k].links <==> k <= top[last])
      modifies levels
      ensures forall k | 0 <= k < |levels| ::
                levels[k].View() == if last in old(levels[k].links) then RemoveSwap.Renamed(old(levels[k].View()), last, id)
                                    else old(levels[k].View())
    {
      hide WellFormed, RemoveSwap.Renamed;
      ghost var before := Views(levels);
      for l := 0 to top[last] + 1
        invariant forall k | 0 <= k < |levels| ::
                    levels[k].View() == if k < l then RemoveSwap.Renamed(before[k], last, id) else before[k]
      {
        RemoveSwap.RenameNode(levels[l], last, id, Cap(max, l));
      }
    }

    /** Replaces an id under its label, searching the list from its end. */
    method ReplaceIdOfLabel(key: Label, newId: Id, oldId: Id)
      requires key in lookup && oldId in lookup[key]
      modifies this`lookup
      ensures lookup == old(lookup)[key := ReplaceFromEnd(old(lookup[key]), oldId, newId)]
    {
      var i := |lookup[key]| - 1;
      while lookup[key][i] != oldId
        invariant 0 <= i < |lookup[key]| && lookup == old(lookup)
        invariant oldId in lookup[key][..i + 1] && oldId !in lookup[key][i + 1..]
        decreases i
      {
        i := i - 1;
      }
      ReplaceAt(lookup[key], oldId, newId, i);
      lookup := lookup[key := lookup[key][i := newId]];
    }

    /** The last element's label, data and flags move to the freed id. */
    method MoveData(id: Id)
      requires 0 <= id < |top| && |labels| == |top| && |blobs| == |top| && Within(deleted, |top|)
      requires EntryOk(top, deleted + {id}, entry, maxLevel)
      requires var last := |top| - 1;
        last != id && last !in deleted ==> labels[last] in lookup && last in lookup[labels[last]]
      modifies this`top, this`labels, this`blobs, this`deleted, this`inProcess, this`lookup, this`entry
      ensures top == LastMovedTo(old(top), id)
      ensures labels == LastMovedTo(old(labels), id) && blobs == LastMovedTo(old(blobs), id)
      ensures deleted == RenamedKeys(old(deleted) - {id}, |old(top)| - 1, id)
      ensures inProcess == RenamedKeys(old(inProcess) - {id}, |old(top)| - 1, id)
      ensures lookup == MovedLookup(old(lookup), old(labels), old(deleted), id)
      ensures EntryOk(top, deleted, entry, maxLevel)
    {
      var last := |top| - 1;
      if id != last {
        if last !in deleted {
          ReplaceIdOfLabel(labels[last], id, last);
        }
        if entry == Some(last) {
          entry := Some(id);
        }
      }
      MovedEntry(top, deleted, old(entry), maxLevel, id);
      top, labels, blobs := LastMovedTo(top, id), LastMovedTo(labels, id), LastMovedTo(blobs, id);
      deleted, inProcess := RenamedKeys(deleted - {id}, last, id), RenamedKeys(inProcess - {id}, last, id);
    }

    /** The lookup knows the last element, which is about to be renamed. */
    ghost predicate LastIsKnown(id: Id)
      requires |labels| == |top|
      reads this
    {
      var last := |top| - 1;
      0 <= last && last != id && last !in deleted ==> labels[last] in lookup && last in lookup[labels[last]]
    }

    /** Frees the element's arrays and lets the last element take its id, at every level. */
    method SwapOutAtLevels(id: Id)
      requires DistinctLevels() && ReadyToGo(View(), id)
      modifies levels
      ensures |Views(levels)| == |old(Views(levels))|
      ensures forall l | 0 <= l < |levels| ::
                Views(levels)[l] == SwapOut(old(Views(levels))[l], id, |top| - 1)
    {
      hide ReadyToGo, Detachable, RemoveSwap.Freed, RemoveSwap.Renamed, WellFormed, NodesAt, DistinctLevels, Views;
      FreedKeys(View(), id);
      FreeAtLevels(id);
      if id != |top| - 1 {
        RenameAtLevels(|top| - 1, id);
      }
    }

    /** Frees an element that nobody points to and gives its id to the last element. */
    method RemoveAndSwap(id: Id)
      requires max > 1 && ef > 0 && DistinctLevels() && ReadyToGo(View(), id)
      requires |labels| == |top| && |blobs| == |top| && LastIsKnown(id)
      requires EntryOk(top, deleted + {id}, entry, maxLevel)
      modifies this`top, this`labels, this`blobs, this`deleted, this`inProcess, this`lookup, this`entry, levels
      ensures GraphOk() && EntryOk(top, deleted, entry, maxLevel)
      ensures View() == RemoveSwapIndex(old(View()), id)
      ensures |top| == |old(top)| - 1 && deleted == RenamedKeys(old(deleted) - {id}, |old(top)| - 1, id)
      ensures labels == LastMovedTo(old(labels), id) && blobs == LastMovedTo(old(blobs), id)
      ensures lookup == MovedLookup(old(lookup), old(labels), old(deleted), id)
    {
      hide IndexOk, ReadyToGo, EntryOk, SwapOut, MovedLookup, RenamedKeys, LastMovedTo, RemoveSwapIndex, DistinctLevels, Views;
      ghost var before := View();
      ReadyFlags(before, id);
      SwapOutAtLevels(id);
      RemoveSwapFields(before, id, Views(levels));
      MoveData(id);
      assert View() == RemoveSwapIndex(before, id);
    }

    /** Detaches the element at all its levels. */
    method DetachAtLevels(id: Id)
      requires GraphOk() && 0 <= id < |top|
      modifies levels
      ensures ReadyToGo(View(), id) && RowsReadable(id) && DetachedIn(old(View()), View(), id, ElementMetric())
      ensures forall l: nat, u, v | v in deleted && Edge(View(), l, u, v) :: Edge(old(View()), l, u, v)
    {
      hide IndexOk, ReadyToGo, LevelDetached, Edge, RowsDetached;
      ghost var before := View();
      RowsAreReadable(id);
      LevelsOk(before);
      TopIsInside(before, id);
      DetachLevelByLevel(id);
      DetachedEverywhere(before, View(), id);
      RowsStayReadable(before, id);
    }

    method DetachLevelByLevel(id: Id)
      requires DistinctLevels() && 0 <= id < |top| && top[id] < |levels| && RowsReadable(id)
      requires forall l | 0 <= l < |levels| :: WellFormed(levels[l].View(), Cap(max, l))
      modifies levels
      ensures forall l | 0 <= l < |levels| ::
                if l <= top[id] then
                  && LevelDetached(old(levels[l].View()), levels[l].View(), id, Cap(max, l))
                  && RowsDetached(old(levels[l].View()), levels[l].View(), id, deleted, Cap(max, l), ElementMetric())
                else levels[l].View() == old(levels[l].View())
    {
      hide WellFormed, InPlaceDelete.Detaching, LevelDetached, RowsDetached;
      ghost var before := Views(levels);
      var metric := ElementMetric();
      for l := 0 to top[id] + 1
        invariant forall k | 0 <= k < |levels| ::
                    if k < l then
                      && LevelDetached(before[k], levels[k].View(), id, Cap(max, k))
                      && RowsDetached(before[k], levels[k].View(), id, deleted, Cap(max, k), metric)
                    else levels[k].View() == before[k]
      {
        InPlaceDelete.DetachNode(levels[l], id, deleted, Cap(max, l), metric);
        DetachedFacts(before[l], levels[l].View(), id, deleted, Cap(max, l), metric);
      }
    }

    lemma RowsStayReadable(before: Index, id: Id)
      requires 0 <= id < |top| && |before.levels| == |levels|
      requires forall l: nat | l <= top[id] ::
                 && l < |levels| && LevelDetached(before.levels[l], levels[l].View(), id, Cap(max, l))
                 && id in before.levels[l].links
                 && forall v | v in before.levels[l].links[id] :: v != id && 0 <= v < |top| && top[v] >= l
      ensures RowsReadable(id)
    {
    }

    /** What detaching makes of a level: nobody points to the element, no edge to a deleted one is new. */
    ghost predicate LevelDetached(g0: Graph, g: Graph, e: Id, cap: nat)
      reads this
    {
      && RemoveSwap.Removable(g, e, cap) && g.links.Keys == g0.links.Keys
      && e in g0.links && g.links[e] == g0.links[e]
      && forall u, v | v in deleted && Link(g, u, v) :: Link(g0, u, v)
    }

    lemma DetachedFacts(g0: Graph, g: Graph, e: Id, deleted: set<Id>, cap: nat, metric: Metric)
      requires WellFormed(g0, cap)
      requires InPlaceDelete.Detaching(g0, g, e, g.links.Keys - {e}, deleted, cap, metric)
      requires deleted == this.deleted
      ensures LevelDetached(g0, g, e, cap) && RowsDetached(g0, g, e, deleted, cap, metric)
    {
      hide InPlaceDelete.DetachedRow;
      RemoveSwap.DetachedIsRemovable(g0, g, e, deleted, cap, metric);
      forall u, v | v in deleted && Link(g, u, v) ensures Link(g0, u, v) {
        assert InPlaceDelete.DetachedNode(g0, g, e, u, u in g.links.Keys - {e}, deleted, cap, metric);
        DetachedLink(g0, g.links[u], e, u, v, deleted, cap, metric);
      }
      assert InPlaceDelete.DetachedNode(g0, g, e, e, false, deleted, cap, metric);
      forall v | v in g0.links && v != e
        ensures if e in g0.links[v] then InPlaceDelete.DetachedRow(g0.links, g.links[v], e, v, deleted, cap, metric)
                else g.links[v] == g0.links[v]
      {
        assert InPlaceDelete.DetachedNode(g0, g, e, v, v in g.links.Keys - {e}, deleted, cap, metric);
      }
    }

    lemma DetachedEverywhere(before: Index, after: Index, id: Id)
      requires IndexOk(before) && 0 <= id < |before.top| && after == before.(levels := after.levels)
      requires before.deleted == deleted && before.max == max && |after.levels| == |before.levels|
      requires forall l | 0 <= l < |before.levels| ::
                 if l <= before.top[id] then LevelDetached(before.levels[l], after.levels[l], id, Cap(max, l))
                 else after.levels[l] == before.levels[l]
      ensures ReadyToGo(after, id)
      ensures forall l: nat, u, v | v in deleted && Edge(after, l, u, v) :: Edge(before, l, u, v)
    {
      hide WellFormed;
      forall l | 0 <= l < |after.levels|
        ensures after.levels[l].links.Keys == NodesAt(after.top, l) && Detachable(after.levels[l], id, Cap(max, l))
      {
        assert LevelOk(before, l);
      }
    }

    lemma DetachedShape(before: Index, mid: Index, id: Id, metric: Metric)
      requires 0 <= id < |before.top| && DetachedIn(before, mid, id, metric)
      ensures mid == before.(levels := mid.levels)
    {
    }

    /**
     * Removes a live element right away: the nodes pointing to it are repaired, it leaves the entry
     * point, and the last element takes its id.
     */
    method RemoveVectorInPlace(id: Id, ghost except: set<Label>)
      requires GraphOk() && BooksOk(except) && 0 <= id < |top| && id !in deleted
      requires labels[id] in except && LastIsKnown(id)
      modifies this`top, this`labels, this`blobs, this`deleted, this`inProcess, this`lookup, this`entry, this`maxLevel, levels
      ensures GraphOk() && BooksOk(except) && TakenOut(old(View()), View(), id)
      ensures exists mid :: DetachedIn(old(View()), mid, id, old(ElementMetric())) && View() == RemoveSwapIndex(mid, id)
      ensures labels == LastMovedTo(old(labels), id) && blobs == LastMovedTo(old(blobs), id)
      ensures lookup == MovedLookup(old(lookup), old(labels), old(deleted), id) && lookup.Keys == old(lookup).Keys
    {
      hide IndexOk, ReadyToGo, EntryOk, LookupOk, MovedLookup, LastMovedTo, RemoveSwapIndex, RowsReadable, Edge,
        EdgesFollow, TakenOut, RenamedKeys, DistinctLevels, Views, DetachedIn;
      ghost var before := View();
      FlagsAreIds(before);
      DetachAtLevels(id);
      DetachedShape(before, View(), id, ElementMetric());
      ghost var mid := View();
      LeaveEntryPoint(id);
      ReadyFollows(mid, id);
      TakenOutAfter(before, mid, id);
      RemoveAndSwap(id);
      MovedBooks(old(lookup), old(labels), old(deleted), except, id);
      SameLength(old(labels), old(blobs), id);
    }

    /** Removes an element marked deleted that nobody points to any more. */
    method RemoveAndSwapMarkDeletedElement(id: Id)
      requires Valid() && 0 <= id < |top| && id in deleted && NoInEdges(View(), id)
      modifies this`top, this`labels, this`blobs, this`deleted, this`inProcess, this`lookup, this`entry,
        this`numMarkedDeleted, levels
      ensures Valid() && View() == RemoveSwapIndex(old(View()), id)
      ensures labels == LastMovedTo(old(labels), id) && blobs == LastMovedTo(old(blobs), id)
      ensures Stored() == old(Stored())
    {
      hide IndexOk, ReadyToGo, NoInEdges, EntryOk, LookupOk, MovedLookup, LastMovedTo, RemoveSwapIndex, Contents,
        RenamedKeys, DistinctLevels, Views;
      ghost var before := View();
      FlagsAreIds(before);
      UnreferencedIsReady(before, id);
      assert deleted + {id} == deleted;
      LiveIsKnown(id, {});
      RemoveAndSwap(id);
      numMarkedDeleted := numMarkedDeleted - 1;
      MovedBooks(old(lookup), old(labels), old(deleted), {}, id);
      SameLength(old(labels), old(blobs), id);
      MoveCounts(old(labels), old(blobs), old(deleted), id);
    }

    /** A live element whose label is accounted for is in the lookup. */
    lemma LiveIsKnown(id: Id, except: set<Label>)
      requires |labels| == |top| && LookupOk(lookup, labels, deleted, except)
      requires |top| > 0 && (|top| - 1 in deleted || |top| - 1 == id || labels[|top| - 1] !in except)
      ensures LastIsKnown(id)
    {
      var last := |top| - 1;
      if last != id && last !in deleted {
        assert LabelOk(lookup, labels, deleted, labels[last]);
        assert Has(labels, deleted, labels[last], last);
        assert lookup[labels[last]][0..] == lookup[labels[last]];
      }
    }

    // ----- Repairing -----

    /** Repairs one node at one level: afterwards it points to no element marked deleted. */
    method RepairNodeConnections(id: Id, level: nat)
      requires GraphOk() && 0 <= id < |top| && level <= top[id]
      modifies levels
      ensures GraphOk() && Relinked(old(View()), View())
      ensures forall d | d in deleted :: !Edge(View(), level, id, d)
      ensures RowRepaired(old(View()), View(), id, level, ElementMetric())
    {
      ghost var before := View();
      RowsAreReadable(id);
      LevelsOk(before);
      hide IndexOk, WellFormed, Repair.Repaired, Relinked, LevelRelinked;
      Repair.RepairNodeConnections(levels[level], id, deleted, inProcess, Cap(max, level), ElementMetric());
      RepairedRelinks(before.levels[level], levels[level].View(), id, deleted, inProcess, Cap(max, level), ElementMetric());
      LevelChanged(before, level);
    }

    // ----- The interface -----

    /** What is stored lost the vectors of one label and nothing else. */
    twostate predicate OnlyDropped(key: Label)
      requires |labels| == |blobs| && |old(labels)| == |old(blobs)|
      reads this
    {
      forall e :: Stored()[e] == if Of(e, key) then 0 else old(Stored())[e]
    }

    lemma BooksAreOk()
      requires Valid()
      ensures BooksOk({}) && |labels| == |blobs| == |top|
    {
    }

    lemma LabelsFit(except: set<Label>)
      requires BooksOk(except)
      ensures |labels| == |blobs| == |top|
    {
    }

    /** Something is stored under a label in the lookup. */
    lemma KnownIsStored(key: Label) returns (e: Option<(Label, Blob)>)
      requires Valid() && key in lookup
      ensures Of(e, key) && |labels| == |blobs| && Stored()[e] > 0
    {
      hide IndexOk, Contents;
      ListOfLabel(key);
      assert LabelOk(lookup, labels, deleted, key);
      var v := lookup[key][0];
      e := Some((key, blobs[v]));
      StoredAt(labels, blobs, deleted, v);
    }

    /** The list of a label holds distinct live elements. */
    lemma ListOfLabel(key: Label)
      requires BooksOk({}) && key in lookup
      ensures lookup[key] != [] && NoDup(lookup[key])
      ensures forall j | 0 <= j < |lookup[key]| :: Has(labels, deleted, key, lookup[key][j])
    {
      assert LabelOk(lookup, labels, deleted, key);
      assert lookup[key][0..] == lookup[key];
    }

    lemma StartDeleting(key: Label)
      requires BooksOk({}) && key in lookup
      ensures BooksOk({key}) && Tracks(lookup[key], 0, labels, deleted, key)
    {
      hide EntryOk, Tracks;
      assert LabelOk(lookup, labels, deleted, key);
    }

    /** The elements of the label that are left, and the last element among them, are in its list. */
    lemma TailIsKnown(id: Id, key: Label, i: nat)
      requires BooksOk({key}) && key in lookup && Tracks(lookup[key], i, labels, deleted, key) && 0 <= id < |top|
      ensures LastIsKnown(id)
    {
      hide EntryOk;
      var last := |top| - 1;
      if last != id && last !in deleted {
        if labels[last] == key {
          assert Has(labels, deleted, key, last);
          assert last in lookup[key][i..];
        } else {
          LiveIsKnown(id, {key});
        }
      }
    }

    /** With nothing left under a label, its list can go. */
    lemma FinishDeleting(key: Label)
      requires BooksOk({key}) && key in lookup && Tracks(lookup[key], |lookup[key]|, labels, deleted, key)
      ensures LookupOk(lookup - {key}, labels, deleted, {})
      ensures forall e | Of(e, key) :: Contents(labels, blobs, deleted)[e] == 0
    {
      hide EntryOk;
      forall v ensures !Has(labels, deleted, key, v) {
        assert lookup[key][|lookup[key]|..] == [];
      }
      NothingStored(labels, blobs, deleted, key);
      EraseKeepsLookup(lookup, labels, deleted, key);
    }

    /** Several elements: the list is gone through while removals rewrite it. */
    method DeleteAll(key: Label) returns (count: nat)
      requires Valid() && key in lookup
      modifies this, levels
      ensures Valid() && levels == old(levels) && key !in lookup && OnlyDropped(key)
      ensures count == |old(lookup)[key]| && |top| == |old(top)| - count
    {
      count := 0;
      StartDeleting(key);
      while count < |lookup[key]|
        invariant GraphOk() && BooksOk({key}) && levels == old(levels) && key in lookup
        invariant |lookup[key]| == |old(lookup)[key]| && count <= |lookup[key]|
        invariant Tracks(lookup[key], count, labels, deleted, key)
        invariant |top| == |old(top)| - count
        invariant forall e | !Of(e, key) :: Stored()[e] == old(Stored())[e]
      {
        DeleteNext(key, count);
        count := count + 1;
      }
      RemoveLabel(key);
    }

    method DeleteNext(key: Label, i: nat)
      requires GraphOk() && BooksOk({key}) && key in lookup && i < |lookup[key]|
      requires Tracks(lookup[key], i, labels, deleted, key)
      modifies this, levels
      ensures GraphOk() && BooksOk({key}) && levels == old(levels) && key in lookup
      ensures 0 <= old(lookup[key][i]) < |old(top)| && old(lookup[key][i]) !in old(deleted)
      ensures TakenOut(old(View()), View(), old(lookup[key][i]))
      ensures |lookup[key]| == |old(lookup)[key]| && |top| == |old(top)| - 1
      ensures Tracks(lookup[key], i + 1, labels, deleted, key)
      ensures lookup[key] == ListAfterMove(old(lookup[key]), old(labels), old(deleted), key, old(lookup[key][i]))
      ensures forall e | !Of(e, key) :: Stored()[e] == old(Stored())[e]
    {
      hide IndexOk, EntryOk, LookupOk, MovedLookup, LastMovedTo, Tracks, Contents, RenamedKeys, DistinctLevels, Views;
      var id := lookup[key][i];
      DeleteStep(lookup, labels, deleted, key, i);
      TailIsKnown(id, key, i);
      MoveCounts(labels, blobs, deleted, id);
      SameLength(labels, top, id);
      RemoveVectorInPlace(id, {key});
    }

    /** With the lone element of a label about to go, its label can be erased. */
    lemma ErasedBooks(key: Label, id: Id)
      requires BooksOk({key}) && key in lookup && lookup[key] == [id] && Tracks(lookup[key], 0, labels, deleted, key)
      requires 0 <= id < |top| && LastIsKnown(id)
      ensures LookupOk(lookup - {key}, labels, deleted, {key})
      ensures var last := |top| - 1;
        last != id && last !in deleted ==> labels[last] in lookup - {key} && last in (lookup - {key})[labels[last]]
    {
    }

    /** Erases a label all of whose elements were removed. */
    method RemoveLabel(key: Label)
      requires GraphOk() && BooksOk({key}) && key in lookup
      requires Tracks(lookup[key], |lookup[key]|, labels, deleted, key)
      modifies this`lookup
      ensures Valid() && lookup == old(lookup) - {key}
      ensures forall e | Of(e, key) :: Stored()[e] == 0
    {
      hide IndexOk, EntryOk, LookupOk, Tracks, Contents, DistinctLevels, Views;
      FinishDeleting(key);
      lookup := lookup - {key};
    }

    /** A single element: its label is erased first. */
    method DeleteOnly(key: Label) returns (count: nat)
      requires Valid() && key in lookup && !multi
      modifies this, levels
      ensures Valid() && levels == old(levels) && key !in lookup && OnlyDropped(key)
      ensures count == |old(lookup)[key]| && |top| == |old(top)| - count
    {
      hide IndexOk, EntryOk, MovedLookup, LastMovedTo, Tracks, Contents, RenamedKeys, DistinctLevels, Views;
      var id := lookup[key][0];
      StartDeleting(key);
      DeleteStep(lookup, labels, deleted, key, 0);
      LoneDeleted(lookup, labels, deleted, key, id);
      TailIsKnown(id, key, 0);
      MoveCounts(labels, blobs, deleted, id);
      SameLength(labels, blobs, id);
      SameLength(labels, top, id);
      NothingStored(LastMovedTo(labels, id), LastMovedTo(blobs, id), RenamedKeys(deleted - {id}, |labels| - 1, id), key);
      ErasedBooks(key, id);
      lookup := lookup - {key};
      RemoveVectorInPlace(id, {key});
      EraseKeepsLookup(lookup, labels, deleted, key);
      assert lookup - {key} == lookup;
      count := 1;
    }

    /** Nothing is stored under a label that is not in the lookup. */
    lemma UnknownLabel(key: Label)
      requires BooksOk({}) && key !in lookup
      ensures forall e | Of(e, key) :: Stored()[e] == 0
    {
      assert LabelOk(lookup, labels, deleted, key);
      NothingStored(labels, blobs, deleted, key);
    }

    /** Removes all elements with the label in place and returns how many there were. */
    method DeleteVector(key: Label) returns (count: nat)
      requires Valid()
      modifies this, levels
      ensures Valid() && levels == old(levels) && key !in lookup && OnlyDropped(key)
      ensures count == if key in old(lookup) then |old(lookup)[key]| else 0
      ensures |top| == |old(top)| - count
    {
      if key !in lookup {
        UnknownLabel(key);
        return 0;
      }
      if multi {
        count := DeleteAll(key);
      } else {
        count := DeleteOnly(key);
      }
    }

    /**
     * The last element was appended to the index `before`, whose entry point was `start` at the level `high`:
     * it is linked by the distances of its own vector, at every level it shares with the others.
     */
    ghost predicate Appended(before: Index, start: Option<Id>, high: int, blob: Blob, level: nat)
      reads this, levels
    {
      && var (id, stored, now) := (|before.top|, StoreElement(before, level), View());
      && top == before.top + [level] && deleted == before.deleted && inProcess == before.inProcess - {id}
      && |blobs| == |top| && blobs[id] == blob
      && Relinked(stored, now.(inProcess := stored.inProcess))
      && match start
         case None => now.levels == stored.levels
         case Some(e) =>
           && high >= 0
           && Inserted(stored, now, Search(map[], before.deleted, stored.inProcess, DistanceTo(blob), e, ef), id, level, high,
                       ElementMetric())
           && RoomIsUsed(stored, now, id, if level < high then level else high)
           && forall l: nat | l <= level && l <= high :: Linked(id, l)
    }

    lemma AppendedFacts(before: Index, start: Option<Id>, high: int, blob: Blob, level: nat)
      requires Appended(before, start, high, blob, level)
      ensures Relinked(StoreElement(before, level), View().(inProcess := before.inProcess + {|before.top|}))
      ensures top == before.top + [level] && deleted == before.deleted && inProcess == before.inProcess - {|before.top|}
      ensures start.Some? ==> forall l: nat | l <= level && l <= high :: Linked(|before.top|, l)
    {
      hide Inserted, RoomIsUsed, Relinked, Linked;
    }

    /** The distances an insertion goes by are those between the vectors. */
    ghost predicate Measured(blob: Blob)
      reads this`blobs
    {
      && (forall v | 0 <= v < |blobs| :: DistanceTo(blob)(v) == distance(blob, blobs[v]))
      && forall a, b | 0 <= a < |blobs| && 0 <= b < |blobs| :: ElementMetric()(a, b) == distance(blobs[a], blobs[b])
    }

    /** Stores a vector and connects it; the level is the one drawn at random. */
    method AppendVector(key: Label, blob: Blob, level: nat)
      requires Valid() && (!multi ==> key !in lookup)
      modifies this, levels
      ensures Valid() && fresh(Set(levels) - Set(old(levels)))
      ensures Stored() == old(Stored()) + multiset{Some((key, blob))}
      ensures Appended(old(View()), old(entry), old(maxLevel), blob, level) && Measured(blob)
      ensures lookup == WithId(old(lookup), key, |old(top)|)
    {
      hide IndexOk, EntryOk, LookupOk, Contents, DistinctLevels, Views, StoreElement, Isolated, Relinked, Edge, Linked,
        Inserted, RoomIsUsed;
      ghost var before := View();
      FlagsAreIds(before);
      AppendCounts(labels, blobs, deleted, key, blob);
      EntryIsThere();
      var id, prevEntry, prevMax := StoreNewElement(key, blob, level);
      StoreShape(before, level);
      IndexVector(id, level, prevEntry, prevMax, blob);
      assert inProcess == before.inProcess - {id};
    }

    lemma EntryIsThere()
      requires EntryOk(top, deleted, entry, maxLevel)
      ensures entry.Some? ==> 0 <= entry.value < |top| && top[entry.value] == maxLevel && entry.value !in deleted
    {
    }

    /** Adds a vector; an index with one vector for a label overwrites.  Returns the number of labels gained. */
    method AddVector(key: Label, blob: Blob, level: nat) returns (added: nat)
      requires Valid()
      modifies this, levels
      ensures Valid()
      ensures multi ==> added == 1 && Stored() == old(Stored()) + multiset{Some((key, blob))}
      ensures !multi ==> added == if key in old(lookup) then 0 else 1
      ensures !multi ==> forall e ::
                Stored()[e] == if Of(e, key) then (if e == Some((key, blob)) then 1 else 0) else old(Stored())[e]
      ensures Measured(blob) && exists before, start, high ::
                && Appended(before, start, high, blob, level) && EntryOk(before.top, before.deleted, start, high)
                && (added == 1 ==> before == old(View()) && start == old(entry) && high == old(maxLevel))
    {
      hide Appended, Measured;
      var known := key in lookup;
      if !multi {
        if known {
          var count := DeleteVector(key);
        } else {
          UnknownLabel(key);
        }
      }
      ghost var before, start, high := View(), entry, maxLevel;
      AppendVector(key, blob, level);
      assert Appended(before, start, high, blob, level) && EntryOk(before.top, before.deleted, start, high);
      added := if !multi && known then 0 else 1;
    }

    /** Marks all elements with the label deleted and returns their ids. */
    method MarkDelete(key: Label) returns (ids: seq<Id>)
      requires Valid()
      modifies this`lookup, this`entry, this`maxLevel, this`deleted, this`numMarkedDeleted
      ensures Valid() && key !in lookup && OnlyDropped(key)
      ensures NoDup(ids) && Elems(ids) !! old(deleted) && deleted == old(deleted) + Elems(ids)
      ensures forall id | id in ids :: 0 <= id < |top| && labels[id] == key
      ensures ids == if key in old(lookup) then old(lookup)[key] else []
      ensures lookup == old(lookup) - {key}
    {
      if key !in lookup {
        UnknownLabel(key);
        return [];
      }
      ids := MarkKnown(key);
    }

    method MarkKnown(key: Label) returns (ids: seq<Id>)
      requires Valid() && key in lookup
      modifies this`lookup, this`entry, this`maxLevel, this`deleted, this`numMarkedDeleted
      ensures Valid() && key !in lookup && OnlyDropped(key)
      ensures NoDup(ids) && Elems(ids) !! old(deleted) && deleted == old(deleted) + Elems(ids)
      ensures forall id | id in ids :: 0 <= id < |top| && labels[id] == key
      ensures ids == old(lookup)[key] && lookup == old(lookup) - {key}
    {
      hide IndexOk, EntryOk, LookupOk, Contents, Tracks, DistinctLevels, Views, NoneLeft, NoDup, Elems;
      ids := lookup[key];
      StartDeleting(key);
      TrackedIds(ids, labels, deleted, key);
      AllMarked(labels, blobs, deleted, ids, key);
      forall i | 0 <= i < |ids| ensures 0 <= ids[i] < |top| && labels[ids[i]] == key {
        assert Has(labels, deleted, key, ids[i]);
      }
      MarkAll(ids, key);
      EraseKeepsLookup(lookup, labels, deleted, key);
      lookup := lookup - {key};
    }

    method MarkAll(ids: seq<Id>, ghost key: Label)
      requires GraphOk() && BooksOk({key}) && NoDup(ids)
      requires forall i | 0 <= i < |ids| :: 0 <= ids[i] < |top| && labels[ids[i]] == key
      modifies this`entry, this`maxLevel, this`deleted, this`numMarkedDeleted
      ensures GraphOk() && BooksOk({key}) && deleted == old(deleted) + Elems(ids)
    {
      hide GraphOk, BooksOk, NoDup, Elems;
      NothingMarked(ids);
      for i := 0 to |ids|
        invariant GraphOk() && BooksOk({key})
        invariant deleted == old(deleted) + Elems(ids[..i])
      {
        ElemsStep(ids, i);
        MarkDeletedInternal(ids[i], {key});
      }
      assert ids[..|ids|] == ids;
    }

    /** No element has more than 2 M links at the bottom, or more than M at a level above. */
    lemma DegreesAreBounded(level: nat, u: Id)
      requires Valid() && level < |levels| && u in levels[level].links
      ensures |levels[level].links[u]| <= if level == 0 then 2 * max else max
    {
      assert LevelOk(View(), level);
      assert RowOk(levels[level].links.Keys, u, levels[level].links[u], Cap(max, level));
    }

    // ----- Collecting the edges to an element -----

    /** The nodes among the neighbours of `id` at a level that point back to it. */
    method CollectMutual(id: Id, level: nat) returns (mutual: seq<Id>)
      requires level < |levels| && id in levels[level].links && NoDup(levels[level].links[id])
      requires forall v | v in levels[level].links[id] :: v in levels[level].links
      ensures NoDup(mutual)
      ensures forall u :: u in mutual <==> u in levels[level].links[id] && id in levels[level].links[u]
    {
      var row := levels[level].links[id];
      mutual := [];
      for i := 0 to |row|
        invariant NoDup(mutual)
        invariant forall u :: u in mutual <==> u in row[..i] && id in levels[level].links[u]
      {
        ElemsStep(row, i);
        var u := row[i];
        assert u in row && u !in row[..i];
        if id in levels[level].links[u] {
          mutual := mutual + [u];
        }
      }
      assert row[..|row|] == row;
    }

    /** All edges to an element, at all its levels: the mutual ones and those on its record. */
    method SafeCollectAllNodeIncomingNeighbors(id: Id) returns (edges: seq<(Id, nat)>)
      requires GraphOk() && 0 <= id < |top|
      ensures InEdgesOf(View(), id, edges)
    {
      edges := [];
      TopIsInside(View(), id);
      for level := 0 to top[id] + 1
        invariant CollectedUpTo(View(), id, edges, level)
      {
        CollectLevel(View(), id, level);
        var mutual := CollectMutual(id, level);
        var others := levels[level].incoming[id];
        hide IndexOk;
        AppendLevel(View(), id, edges, level, mutual, others);
        edges := edges + At(mutual, level) + At(others, level);
      }
      CollectedAll(View(), id, edges);
    }

    // ----- The check -----

    method Graphs() returns (graphs: seq<Graph>)
      ensures graphs == Views(levels)
    {
      graphs := [];
      for l := 0 to |levels|
        invariant graphs == Views(levels)[..l]
      {
        graphs := graphs + [Graph(levels[l].links, levels[l].incoming)];
      }
    }

    /** The index's check of itself passes in every state that the operations lead to. */
    method CheckIntegrity() returns (report: Integrity.Report)
      requires Valid()
      ensures report.valid
      ensures report.connectionsToRepair == |Integrity.ToRepair(View())|
      ensures report.doubleConnections == |Integrity.MutualArcs(View())|
      ensures report.doubleConnections + report.unidirectional == |Integrity.Arcs(View())|
      ensures Integrity.IsLargest(View(), report.minInDegree) && Integrity.IsSmallest(View(), report.maxInDegree)
    {
      hide IndexOk, Views, EntryOk, LookupOk, Integrity.Shaped, Integrity.RowsSound, Integrity.IsLargest, Integrity.IsSmallest;
      var graphs := Graphs();
      Integrity.WellFormedIsAccepted(View());
      report := Integrity.CheckIntegrity(Index(max, top, deleted, inProcess, graphs), numMarkedDeleted);
    }
  }

  method TwoVectors(distance: (Blob, Blob) -> real, first: Blob, second: Blob) returns (hnsw: HnswIndex)
    ensures hnsw.Valid() && hnsw.top == [1, 0] && hnsw.Linked(1, 0)
  {
    hide IndexOk, Relinked, StoreElement, Contents, Views, LookupOk, HnswIndex.DistinctLevels, HnswIndex.Appended,
      HnswIndex.Measured;
    hnsw := new HnswIndex(2, 1, true, distance);
    ghost var before, start, high := hnsw.View(), hnsw.entry, hnsw.maxLevel;
    hnsw.AppendVector(1, first, 1);
    hnsw.AppendedFacts(before, start, high, first, 1);
    before, start, high := hnsw.View(), hnsw.entry, hnsw.maxLevel;
    hnsw.AppendVector(2, second, 0);
    hnsw.AppendedFacts(before, start, high, second, 0);
    assert hnsw.Linked(1, 0);
  }

  /** A case: after two additions the largest in-degree is reported as the smallest, and the other way round. */
  method ReportSwapped(distance: (Blob, Blob) -> real, first: Blob, second: Blob) returns (report: Integrity.Report)
    ensures report.valid && report.minInDegree > 0 == report.maxInDegree
  {
    hide IndexOk, Relinked, StoreElement, Contents, Views, LookupOk, Integrity.IsLargest, Integrity.IsSmallest,
      Integrity.Arcs, Integrity.MutualArcs, Integrity.ToRepair;
    var hnsw := TwoVectors(distance, first, second);
    report := hnsw.CheckIntegrity();
    Integrity.InDegreesComeSwapped(hnsw.View(), report);
  }

  lemma NothingMarked(ids: seq<Id>)
    ensures Elems(ids[..0]) == {}
  {
  }

  /** Marking an element does not concern the entries of other labels. */
  lemma MarkKeepsLookup(lookup: Lookup, labels: seq<Label>, dead: set<Id>, except: set<Label>, id: Id)
    requires LookupOk(lookup, labels, dead, except) && 0 <= id < |labels| && labels[id] in except
    ensures LookupOk(lookup, labels, dead + {id}, except)
  {
    forall key | key !in except ensures LabelOk(lookup, labels, dead + {id}, key) {
      assert LabelOk(lookup, labels, dead, key);
      assert forall v :: Has(labels, dead + {id}, key, v) <==> Has(labels, dead, key, v);
    }
  }

  /** The entry point follows the renaming. */
  lemma MovedEntry(top: seq<nat>, deleted: set<Id>, entry: Option<Id>, maxLevel: int, id: Id)
    requires 0 <= id < |top| && EntryOk(top, deleted + {id}, entry, maxLevel)
    ensures var last := |top| - 1;
      EntryOk(LastMovedTo(top, id), RenamedKeys(deleted - {id}, last, id),
              if entry == Some(last) then Some(id) else entry, maxLevel)
  {
    var last, top' := |top| - 1, LastMovedTo(top, id);
    var dead' := RenamedKeys(deleted - {id}, last, id);
    forall v | 0 <= v < |top'| && v !in dead'
      ensures Back(v, last, id) !in deleted + {id} && top'[v] == top[Back(v, last, id)]
    {
    }
  }

  /** After freeing d, a level holds the last element exactly if it did, and does not hold d. */
  lemma FreedKeys(ix: Index, d: Id)
    requires ReadyToGo(ix, d)
    ensures forall l | 0 <= l < |ix.levels| ::
              var freed := RemoveSwap.Freed(ix.levels[l], d);
              && d !in freed.links && d !in freed.incoming
              && (|ix.top| - 1 != d ==> (|ix.top| - 1 in freed.links <==> l <= ix.top[|ix.top| - 1]))
    ensures 0 <= d < |ix.top| && ix.top[|ix.top| - 1] < |ix.levels|
  {
    hide Detachable;
  }

  lemma ReadyFlags(ix: Index, id: Id)
    requires ReadyToGo(ix, id)
    ensures 0 <= id < |ix.top| && Within(ix.deleted, |ix.top|)
  {
  }

  lemma RemoveSwapFields(ix: Index, id: Id, levels: seq<Graph>)
    requires ReadyToGo(ix, id) && |levels| == |ix.levels|
    requires forall l | 0 <= l < |ix.levels| :: levels[l] == SwapOut(ix.levels[l], id, |ix.top| - 1)
    ensures RemoveSwapIndex(ix, id)
      == Index(ix.max, LastMovedTo(ix.top, id), RenamedKeys(ix.deleted - {id}, |ix.top| - 1, id),
               RenamedKeys(ix.inProcess - {id}, |ix.top| - 1, id), levels)
    ensures IndexOk(RemoveSwapIndex(ix, id)) && |LastMovedTo(ix.top, id)| == |ix.top| - 1
  {
    hide SwapOut, RenamedKeys, Detachable, IndexOk;
    RemoveSwapKeepsOk(ix, id);
    assert RemoveSwapIndex(ix, id).levels == levels;
  }

  lemma TopIsInside(ix: Index, id: Id)
    requires IndexOk(ix) && 0 <= id < |ix.top|
    ensures ix.top[id] < |ix.levels|
  {
  }

  lemma LevelsOk(ix: Index)
    requires IndexOk(ix)
    ensures forall l | 0 <= l < |ix.levels| :: WellFormed(ix.levels[l], Cap(ix.max, l))
  {
    hide WellFormed;
    forall l | 0 <= l < |ix.levels| ensures WellFormed(ix.levels[l], Cap(ix.max, l)) {
      assert LevelOk(ix, l);
    }
  }

  /** A rebuilt row has no link to a deleted node that it did not have before. */
  lemma DetachedLink(g0: Graph, row: seq<Id>, e: Id, u: Id, v: Id, deleted: set<Id>, cap: nat, metric: Metric)
    requires RowsOk(g0.links, cap) && e in g0.links && u in g0.links && v in deleted && v in row
    requires if u != e && e in g0.links[u] then InPlaceDelete.DetachedRow(g0.links, row, e, u, deleted, cap, metric)
             else row == g0.links[u]
    ensures v in g0.links[u]
  {
    assert RowOk(g0.links.Keys, u, g0.links[u], cap);
    SwapRemoveElems(g0.links[u], e);
    InElems(SwapRemove(g0.links[u], e));
    InElems(row);
    InElems(g0.links[u]);
  }

  lemma TakenOutAfter(before: Index, mid: Index, id: Id)
    requires 0 <= id < |before.top| && mid == before.(levels := mid.levels) && Within(before.deleted, |before.top|)
    requires forall l: nat, u, v | v in before.deleted && Edge(mid, l, u, v) :: Edge(before, l, u, v)
    requires IndexOk(RemoveSwapIndex(mid, id)) && EdgesFollow(mid, RemoveSwapIndex(mid, id), id)
    ensures TakenOut(before, RemoveSwapIndex(mid, id), id)
  {
    hide IndexOk, Edge;
  }

  /** Once the lone element of a label was removed, no live element has the label. */
  lemma LoneDeleted(lookup: Lookup, labels: seq<Label>, dead: set<Id>, key: Label, id: Id)
    requires key in lookup && lookup[key] == [id] && Tracks(lookup[key], 0, labels, dead, key)
    requires 0 <= id < |labels|
    ensures NoneLeft(LastMovedTo(labels, id), RenamedKeys(dead - {id}, |labels| - 1, id), key)
  {
    DeleteStep(lookup, labels, dead, key, 0);
    var after := MovedLookup(lookup, labels, dead, id)[key];
    assert after[1..] == [];
  }

  function Set(gs: seq<LevelGraph>): set<LevelGraph> {
    set g | g in gs
  }

  lemma StoreFields(ix: Index, level: nat)
    ensures StoreElement(ix, level)
      == Index(ix.max, ix.top + [level], ix.deleted, ix.inProcess + {|ix.top|}, StoreElement(ix, level).levels)
  {
  }

  lemma StoreShape(ix: Index, level: nat)
    ensures var after := StoreElement(ix, level);
      && |after.top| == |ix.top| + 1 && after.top[|ix.top|] == level && after.deleted == ix.deleted
      && (forall v | 0 <= v < |ix.top| :: after.top[v] == ix.top[v])
      && after.inProcess == ix.inProcess + {|ix.top|} && level < |after.levels|
  {
  }

  lemma TrackedIds(ids: seq<Id>, labels: seq<Label>, dead: set<Id>, key: Label)
    requires Tracks(ids, 0, labels, dead, key)
    ensures NoDup(ids) && Elems(ids) !! dead
    ensures forall v :: v in ids <==> Has(labels, dead, key, v)
  {
    assert ids[0..] == ids;
    forall v | v in dead ensures v !in ids {
      assert !Has(labels, dead, key, v);
    }
  }

  /** Marking all elements of a label drops exactly what is stored under it. */
  lemma AllMarked(labels: seq<Label>, blobs: seq<Blob>, dead: set<Id>, ids: seq<Id>, key: Label)
    requires |labels| == |blobs| && forall v :: v in ids <==> Has(labels, dead, key, v)
    ensures NoneLeft(labels, dead + Elems(ids), key)
    ensures forall e ::
              Contents(labels, blobs, dead + Elems(ids))[e] == if Of(e, key) then 0 else Contents(labels, blobs, dead)[e]
  {
    var dead' := dead + Elems(ids);
    forall i | 0 <= i < |labels| ensures i in dead' <==> i in dead || labels[i] in {key} {
      assert i in ids <==> Has(labels, dead, key, i);
    }
    DropCounts(labels, blobs, dead, dead', {key});
    forall v ensures !Has(labels, dead', key, v) {
      assert v in ids <==> Has(labels, dead, key, v);
    }
  }

  /** Edge sources of one level. */
  function At(ids: seq<Id>, level: nat): (r: seq<(Id, nat)>)
    ensures |r| == |ids| && forall i | 0 <= i < |ids| :: r[i] == (ids[i], level)
  {
    seq(|ids|, i requires 0 <= i < |ids| => (ids[i], level))
  }

  /** The edges to `id` at the levels below `bound`, each of them once. */
  ghost predicate CollectedUpTo(ix: Index, id: Id, edges: seq<(Id, nat)>, bound: nat) {
    NoDup(edges) && forall u, l: nat :: (u, l) in edges <==> l < bound && Edge(ix, l, u, id)
  }

  lemma CollectLevel(ix: Index, id: Id, level: nat)
    requires IndexOk(ix) && 0 <= id < |ix.top| && level <= ix.top[id]
    ensures level < |ix.levels| && id in ix.levels[level].links && id in ix.levels[level].incoming
    ensures NoDup(ix.levels[level].links[id]) && NoDup(ix.levels[level].incoming[id])
    ensures forall v | v in ix.levels[level].links[id] :: v in ix.levels[level].links
    ensures forall u :: Edge(ix, level, u, id) <==>
              || (u in ix.levels[level].links[id] && u in ix.levels[level].links && id in ix.levels[level].links[u])
              || u in ix.levels[level].incoming[id]
    ensures forall u | u in ix.levels[level].incoming[id] :: u !in ix.levels[level].links[id]
  {
    assert LevelOk(ix, level);
    var g := ix.levels[level];
    RemoveSwap.Neighborhood(g, id, Cap(ix.max, level));
    ExactAt(g, id);
    hide WellFormed;
  }

  lemma AppendLevel(ix: Index, id: Id, edges: seq<(Id, nat)>, level: nat, mutual: seq<Id>, others: seq<Id>)
    requires CollectedUpTo(ix, id, edges, level) && NoDup(mutual) && NoDup(others)
    requires forall u | u in others :: u !in mutual
    requires forall u :: Edge(ix, level, u, id) <==> u in mutual || u in others
    ensures CollectedUpTo(ix, id, edges + At(mutual, level) + At(others, level), level + 1)
  {
    hide Edge;
    AtMembers(mutual, level);
    AtMembers(others, level);
    var all := edges + At(mutual, level) + At(others, level);
    forall u, l: nat ensures (u, l) in all <==> l < level + 1 && Edge(ix, l, u, id) {
    }
    forall i | 0 <= i < |edges| ensures edges[i].1 < level {
      var (u, l) := edges[i];
      assert (u, l) in edges;
    }
    Disjoint(edges, At(mutual, level));
    forall x | x in At(others, level) ensures x !in edges + At(mutual, level) {
      var u := x.0;
      assert u in others && u !in mutual;
    }
    Disjoint(edges + At(mutual, level), At(others, level));
  }

  lemma AtMembers(ids: seq<Id>, level: nat)
    ensures forall u, l: nat :: (u, l) in At(ids, level) <==> l == level && u in ids
    ensures forall x | x in At(ids, level) :: x.0 in ids && x.1 == level
    ensures NoDup(ids) ==> NoDup(At(ids, level))
  {
  }

  lemma Disjoint<T>(a: seq<T>, b: seq<T>)
    requires NoDup(a) && NoDup(b) && forall x | x in b :: x !in a
    ensures NoDup(a + b)
  {
    forall i, j | 0 <= i < |a| && 0 <= j < |b| ensures a[i] != b[j] {
      assert b[j] in b;
    }
  }

  /** An element has no edges above its top level. */
  lemma CollectedAll(ix: Index, id: Id, edges: seq<(Id, nat)>)
    requires IndexOk(ix) && 0 <= id < |ix.top| && CollectedUpTo(ix, id, edges, ix.top[id] + 1)
    ensures InEdgesOf(ix, id, edges)
  {
    forall l: nat, u | Edge(ix, l, u, id) ensures l <= ix.top[id] {
      assert LevelOk(ix, l);
      LevelEdges(ix.levels[l], Cap(ix.max, l));
    }
    forall i | 0 <= i < |edges| ensures Edge(ix, edges[i].1, edges[i].0, id) {
      assert (edges[i].0, edges[i].1) in edges;
    }
  }

  lemma DetachableHere(g: Graph, d: Id, cap: nat)
    requires Detachable(g, d, cap) && d in g.links
    ensures RemoveSwap.Removable(g, d, cap)
  {
  }

  lemma AbsentIsFree(g: Graph, d: Id, cap: nat)
    requires Detachable(g, d, cap) && d !in g.links
    ensures RemoveSwap.Freed(g, d) == g && WellFormed(g, cap)
  {
  }

  lemma NewNodeIsIsolated(ix: Index, l: nat)
    requires IndexOk(ix)
    ensures Isolated(AddNode(LevelAt(ix, l), |ix.top|), |ix.top|)
  {
    hide WellFormed;
    LevelAtOk(ix, l);
    var g := LevelAt(ix, l);
    LevelEdges(g, Cap(ix.max, l));
    forall u | u in g.links ensures |ix.top| !in g.links[u] {
      assert Link(g, u, |ix.top|) ==> |ix.top| in g.links;
    }
  }

  lemma LevelEdges(g: Graph, cap: nat)
    requires WellFormed(g, cap)
    ensures forall u, v | Link(g, u, v) :: v in g.links
  {
  }

  lemma FoundAreCandidates(q: Search, visited: set<Id>, found: seq<Candidate>, id: Id)
    requires Found(q, visited, found) && id in q.inProcess && id != q.entry
    ensures NoDup(Ids(found)) && Elems(Ids(found)) <= q.links.Keys - {id}
    ensures forall c | c in found :: c.id in q.links && c.id != id
  {
    forall c | c in found ensures c.id in q.links && c.id != id {
      ReachableIsReady(q, c.id);
    }
    forall v | v in Ids(found) ensures v in q.links.Keys - {id} {
      var i :| 0 <= i < |found| && Ids(found)[i] == v;
      assert found[i] in found;
    }
  }
}

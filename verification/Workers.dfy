/**
 * The threads at work on the graph: insertions connecting their element, repairs, and deletions
 * collecting the edges to a marked element.  Each holds decisions made under locks that it no longer
 * has; the invariants say what remains true of them whatever the others do.
 */
module Workers {
  import opened Seqs
  import opened LevelGraphs
  import opened IndexModel
  import opened TieredJobs
  import opened RepairScheduling
  import opened GraphSteps

  /**
   * An insertion: with the levels below a bound still to come; with neighbours still to connect at a
   * level; or about to carry out what it decided about the links of a full neighbour.
   */
  datatype Insertion =
    | Climbing(id: Id, level: nat)
    | Connecting(id: Id, level: nat, rest: seq<Id>)
    | Revisiting(id: Id, level: nat, rest: seq<Id>, neighbor: Id, toUpdate: seq<Id>, chosen: bool)

  /**
   * The collection of the edges to a marked element: between two levels; or with a copy of the element's
   * links at the level, and those of them that are still to be asked whether they point back.
   */
  datatype Gather =
    | Gathering(id: Id, level: nat, found: seq<(Id, nat)>)
    | Asking(id: Id, level: nat, found: seq<(Id, nat)>, copy: set<Id>, left: set<Id>)

  // ----- Insertions -----

  /** Below the level the element has no edges yet. */
  ghost predicate UntouchedBelow(ix: Index, id: Id, level: nat) {
    forall l: nat, u | l < level :: !Edge(ix, l, id, u) && !Edge(ix, l, u, id)
  }

  /** Neighbours that were found for the element and are still to be connected, and have room in its row. */
  ghost predicate ToConnect(ix: Index, id: Id, level: nat, vs: seq<Id>) {
    && level < |ix.levels| && id in ix.levels[level].links && NoDup(vs)
    && |ix.levels[level].links[id]| + |vs| <= Cap(ix.max, level)
    && forall v | v in vs :: v !in ix.inProcess && Apart(ix, level, id, v)
  }

  function Pending(ins: Insertion): seq<Id> {
    match ins
    case Climbing(_, _) => []
    case Connecting(_, _, rest) => rest
    case Revisiting(_, _, rest, neighbor, _, _) => [neighbor] + rest
  }

  ghost predicate InsertionOk(ix: Index, ins: Insertion) {
    && 0 <= ins.id < |ix.top| && ins.id in ix.inProcess && UntouchedBelow(ix, ins.id, ins.level)
    && (!ins.Climbing? ==> ToConnect(ix, ins.id, ins.level, Pending(ins)))
    && (ins.Revisiting? ==> ins.id in ins.toUpdate)
  }

  // ----- Repairs -----

  ghost predicate HasLevel(ix: Index, u: Id, level: nat) {
    0 <= u < |ix.top| && level <= ix.top[u]
  }

  /**
   * The targets of a repair are marked, and no candidate or chosen node is one of them, although it may
   * have been marked since.
   */
  ghost predicate FlightOk(ix: Index, f: Flight) {
    && HasLevel(ix, f.node, f.level)
    && match f
       case Popped(_, _) => true
       case Reading(u, level, targets, row, cands, left) =>
         && targets <= ix.deleted && targets <= row && left <= targets && cands !! targets && u !in cands
         && (forall v | v in cands :: HasLevel(ix, v, level)) && forall d | d in targets :: HasLevel(ix, d, level)
       case Planned(u, level, targets, toUpdate, chosen) =>
         && targets <= ix.deleted && targets !! Elems(chosen) && targets <= Elems(toUpdate)
         && NoDup(chosen) && u !in chosen && Elems(chosen) <= Elems(toUpdate)
         && forall v | v in chosen :: HasLevel(ix, v, level)
  }

  // ----- Collecting the edges to a marked element -----

  /** All edges to the element below the level were found. */
  ghost predicate FoundBelow(ix: Index, id: Id, level: nat, found: seq<(Id, nat)>) {
    && (forall i | 0 <= i < |found| :: HasLevel(ix, found[i].0, found[i].1))
    && forall l: nat, u | l < level && Edge(ix, l, u, id) :: (u, l) in found
  }

  ghost predicate GatherOk(ix: Index, waiting: set<Id>, g: Gather) {
    && g.id in waiting && 0 <= g.id < |ix.top| && FoundBelow(ix, g.id, g.level, g.found)
    && (g.Asking? ==>
          && g.level <= ix.top[g.id]
          && (forall u | Edge(ix, g.level, g.id, u) :: u in g.copy)
          && forall u | Edge(ix, g.level, u, g.id) :: (u, g.level) in g.found || u in g.left || u !in g.copy)
  }

  // ----- What a step of one worker leaves of the others -----

  lemma SteppedKeys(ix: Index, after: Index, barred: set<Id>, l: nat)
    requires IndexOk(ix) && Stepped(ix, after, barred) && l < |ix.levels|
    ensures after.levels[l].links.Keys == ix.levels[l].links.Keys
  {
    assert LevelOk(ix, l) && LevelOk(after, l);
  }

  lemma StepLeavesInsertion(ix: Index, after: Index, barred: set<Id>, ins: Insertion)
    requires IndexOk(ix) && Stepped(ix, after, barred) && InsertionOk(ix, ins) && ins.id in barred
    ensures InsertionOk(after, ins)
  {
    hide IndexOk, Edge, Stepped;
    SteppedShape(ix, after, barred);
    forall l: nat, u | l < ins.level ensures !Edge(after, l, ins.id, u) && !Edge(after, l, u, ins.id) {
      SteppedNothing(ix, after, barred, l, ins.id, u);
    }
    if !ins.Climbing? {
      SteppedKeys(ix, after, barred, ins.level);
      BarredRowShrinks(ix, after, barred, ins.level, ins.id);
      forall v | v in Pending(ins) ensures Apart(after, ins.level, ins.id, v) {
        assert Apart(ix, ins.level, ins.id, v);
        SteppedNothing(ix, after, barred, ins.level, ins.id, v);
      }
    }
  }

  lemma SteppedShape(ix: Index, after: Index, barred: set<Id>)
    requires Stepped(ix, after, barred)
    ensures after == ix.(levels := after.levels) && |after.levels| == |ix.levels|
  {
  }

  lemma SteppedNothing(ix: Index, after: Index, barred: set<Id>, l: nat, u: Id, v: Id)
    requires Stepped(ix, after, barred) && u in barred
    ensures Edge(after, l, u, v) ==> Edge(ix, l, u, v)
    ensures Edge(after, l, v, u) ==> Edge(ix, l, v, u)
  {
  }

  lemma StepLeavesFlight(ix: Index, after: Index, barred: set<Id>, f: Flight)
    requires Stepped(ix, after, barred) && FlightOk(ix, f)
    ensures FlightOk(after, f)
  {
    hide IndexOk;
  }

  lemma StepLeavesGather(ix: Index, after: Index, barred: set<Id>, waiting: set<Id>, g: Gather)
    requires Stepped(ix, after, barred) && GatherOk(ix, waiting, g) && g.id in barred
    ensures GatherOk(after, waiting, g)
  {
    hide IndexOk, Edge, Stepped;
    SteppedShape(ix, after, barred);
    forall l: nat, u ensures Edge(after, l, u, g.id) ==> Edge(ix, l, u, g.id) {
      SteppedNothing(ix, after, barred, l, g.id, u);
    }
    forall l: nat, u ensures Edge(after, l, g.id, u) ==> Edge(ix, l, g.id, u) {
      SteppedNothing(ix, after, barred, l, g.id, u);
    }
  }

  /** Storing a new element. */
  lemma StoreEdges(ix: Index, level: nat, l: nat, u: Id, v: Id)
    requires IndexOk(ix)
    ensures Edge(StoreElement(ix, level), l, u, v) <==> Edge(ix, l, u, v)
  {
    var after := StoreElement(ix, level);
    if l < |after.levels| {
      StoreLevel(ix, level, l);
    }
  }

  lemma StoreLeavesInsertion(ix: Index, level: nat, ins: Insertion)
    requires IndexOk(ix) && InsertionOk(ix, ins)
    ensures InsertionOk(StoreElement(ix, level), ins)
  {
    hide Edge, WellFormed, LevelAt, AddNode;
    var after := StoreElement(ix, level);
    forall l: nat, u ensures Edge(after, l, ins.id, u) <==> Edge(ix, l, ins.id, u) {
      StoreEdges(ix, level, l, ins.id, u);
    }
    forall l: nat, u ensures Edge(after, l, u, ins.id) <==> Edge(ix, l, u, ins.id) {
      StoreEdges(ix, level, l, u, ins.id);
    }
    if !ins.Climbing? {
      StoreKeepsRows(ix, level, ins.level);
      assert LevelOk(ix, ins.level);
      forall v | v in Pending(ins) ensures v !in after.inProcess && Apart(after, ins.level, ins.id, v) {
        assert Apart(ix, ins.level, ins.id, v);
      }
    }
  }

  lemma StoreKeepsRows(ix: Index, level: nat, l: nat)
    requires IndexOk(ix) && l < |ix.levels|
    ensures var after := StoreElement(ix, level);
      l < |after.levels| && forall v | v in ix.levels[l].links ::
        v in after.levels[l].links && after.levels[l].links[v] == ix.levels[l].links[v]
  {
    assert LevelOk(ix, l);
    assert |ix.top| !in ix.levels[l].links;
  }

  lemma StoreLeavesFlight(ix: Index, level: nat, f: Flight)
    requires FlightOk(ix, f)
    ensures FlightOk(StoreElement(ix, level), f)
  {
    hide LevelAt, AddNode;
  }

  lemma StoreLeavesGather(ix: Index, level: nat, waiting: set<Id>, g: Gather)
    requires IndexOk(ix) && GatherOk(ix, waiting, g)
    ensures GatherOk(StoreElement(ix, level), waiting, g)
  {
    var after := StoreElement(ix, level);
    forall l: nat, u ensures Edge(after, l, u, g.id) <==> Edge(ix, l, u, g.id) {
      StoreEdges(ix, level, l, u, g.id);
    }
    forall l: nat, u ensures Edge(after, l, g.id, u) <==> Edge(ix, l, g.id, u) {
      StoreEdges(ix, level, l, g.id, u);
    }
    hide Edge, LevelAt, AddNode, IndexOk;
  }

  /** Marking elements, and an insertion that ends: the edges are the same. */
  lemma FlagsLeaveInsertion(ix: Index, after: Index, ins: Insertion)
    requires InsertionOk(ix, ins) && after == ix.(deleted := after.deleted, inProcess := after.inProcess)
    requires after.inProcess <= ix.inProcess && ins.id in after.inProcess
    ensures InsertionOk(after, ins)
  {
    forall l: nat, u, v ensures Edge(after, l, u, v) <==> Edge(ix, l, u, v) {
    }
    hide Edge;
    forall v | v in Pending(ins) && !ins.Climbing? ensures Apart(after, ins.level, ins.id, v) {
      assert Apart(ix, ins.level, ins.id, v);
    }
  }

  lemma FlagsLeaveFlight(ix: Index, after: Index, f: Flight)
    requires FlightOk(ix, f) && after == ix.(deleted := after.deleted, inProcess := after.inProcess)
    requires ix.deleted <= after.deleted
    ensures FlightOk(after, f)
  {
  }

  lemma FlagsLeaveGather(ix: Index, after: Index, waiting: set<Id>, waiting': set<Id>, g: Gather)
    requires GatherOk(ix, waiting, g) && after == ix.(deleted := after.deleted, inProcess := after.inProcess)
    requires g.id in waiting'
    ensures GatherOk(after, waiting', g)
  {
    forall l: nat, u, v ensures Edge(after, l, u, v) <==> Edge(ix, l, u, v) {
    }
    hide Edge;
  }

  // ----- What a worker's own step does -----

  /** A new element is on its own at all its levels. */
  lemma StoredIsUntouched(ix: Index, level: nat)
    requires IndexOk(ix)
    ensures var after := StoreElement(ix, level); InsertionOk(after, Climbing(|ix.top|, level + 1))
  {
    var after, id := StoreElement(ix, level), |ix.top|;
    forall l: nat, u ensures !Edge(after, l, id, u) && !Edge(after, l, u, id) {
      StoreEdges(ix, level, l, id, u);
      StoreEdges(ix, level, l, u, id);
      if l < |ix.levels| {
        assert LevelOk(ix, l);
        EdgesInLevel(ix.levels[l], Cap(ix.max, l));
      }
    }
    hide Edge, LevelAt, AddNode, IndexOk;
  }

  /** Neighbours a search found: elements of the level, no two the same, none in process, at most M. */
  ghost predicate Selection(ix: Index, id: Id, level: nat, selected: seq<Id>) {
    && level < |ix.levels| && id in ix.levels[level].links && NoDup(selected) && |selected| <= ix.max
    && forall v | v in selected :: v in ix.levels[level].links && v != id && v !in ix.inProcess
  }

  lemma SelectionIsToConnect(ix: Index, ins: Insertion, level: nat, selected: seq<Id>)
    requires IndexOk(ix) && InsertionOk(ix, ins) && ins.Climbing? && level < ins.level
    requires Selection(ix, ins.id, level, selected)
    ensures InsertionOk(ix, Connecting(ins.id, level, selected))
  {
    var row := ix.levels[level].links[ins.id];
    assert LevelOk(ix, level);
    forall v ensures v !in Elems(row) {
      assert !Edge(ix, level, ins.id, v);
    }
    assert Elems(row) == {};
    NoDupSize(row);
    forall v | v in selected ensures Apart(ix, level, ins.id, v) {
      assert !Edge(ix, level, ins.id, v) && !Edge(ix, level, v, ins.id);
    }
  }

  /** A neighbour that is not connected after all, because one of the two was marked deleted. */
  lemma SkippedIsOk(ix: Index, id: Id, level: nat, rest: seq<Id>)
    requires InsertionOk(ix, Connecting(id, level, rest)) && rest != []
    ensures InsertionOk(ix, Connecting(id, level, rest[1..]))
  {
    assert forall v | v in rest[1..] :: v in rest;
  }

  /** What the connection of one neighbour leaves of the others: it only brings edges between the two. */
  lemma ConnectedLeavesRest(ix: Index, after: Index, id: Id, level: nat, v: Id, rest: seq<Id>, barred: set<Id>)
    requires IndexOk(ix) && InsertionOk(ix, Connecting(id, level, [v] + rest)) && Stepped(ix, after, barred)
    requires RowGrew(ix, after, level, id) && OnlyBetween(ix, after, level, id, v)
    ensures InsertionOk(after, Connecting(id, level, rest))
  {
    hide IndexOk, Edge;
    var all := [v] + rest;
    SteppedKeys(ix, after, barred, level);
    forall w | w in rest ensures w !in after.inProcess && Apart(after, level, id, w) && w != v {
      assert w in all && Apart(ix, level, id, w);
      var i :| 0 <= i < |rest| && rest[i] == w;
      assert all[0] == v && all[i + 1] == w;
    }
    assert NoDup(rest) by {
      forall i, j | 0 <= i < j < |rest| ensures rest[i] != rest[j] {
        assert all[i + 1] != all[j + 1];
      }
    }
  }

  // ----- Collecting -----

  /** The element's links at the level were copied: all of them are to be asked. */
  lemma RowCopied(ix: Index, waiting: set<Id>, g: Gather)
    requires IndexOk(ix) && GatherOk(ix, waiting, g) && g.Gathering? && g.level <= ix.top[g.id]
    ensures g.level < |ix.levels| && g.id in ix.levels[g.level].links && g.id in ix.levels[g.level].incoming
    ensures var row := Elems(ix.levels[g.level].links[g.id]);
      GatherOk(ix, waiting, Asking(g.id, g.level, g.found, row, row))
  {
    assert LevelOk(ix, g.level);
    InElems(ix.levels[g.level].links[g.id]);
  }

  /** One of them was asked; it is found if it points back. */
  lemma NeighborAsked(ix: Index, waiting: set<Id>, g: Gather, u: Id)
    requires IndexOk(ix) && GatherOk(ix, waiting, g) && g.Asking? && u in g.left
    ensures var found := if Edge(ix, g.level, u, g.id) then g.found + [(u, g.level)] else g.found;
      GatherOk(ix, waiting, g.(left := g.left - {u}, found := found))
  {
    if Edge(ix, g.level, u, g.id) {
      assert LevelOk(ix, g.level);
    }
  }

  function AtLevel(ids: seq<Id>, level: nat): (r: seq<(Id, nat)>)
    ensures |r| == |ids| && forall i | 0 <= i < |ids| :: r[i] == (ids[i], level)
  {
    seq(|ids|, i requires 0 <= i < |ids| => (ids[i], level))
  }

  /** With all asked, the element's own record has the edges that are left: those that go one way only. */
  lemma RecordRead(ix: Index, waiting: set<Id>, g: Gather)
    requires IndexOk(ix) && GatherOk(ix, waiting, g) && g.Asking? && g.left == {}
    ensures g.level < |ix.levels| && g.id in ix.levels[g.level].incoming
    ensures var found := g.found + AtLevel(ix.levels[g.level].incoming[g.id], g.level);
      GatherOk(ix, waiting, Gathering(g.id, g.level + 1, found))
  {
    hide IndexOk, Edge, AtLevel;
    RecordAt(ix, g.id, g.level);
    var record := ix.levels[g.level].incoming[g.id];
    var found := g.found + AtLevel(record, g.level);
    forall i | 0 <= i < |found| ensures HasLevel(ix, found[i].0, found[i].1) {
      if i >= |g.found| {
        assert record[i - |g.found|] in record;
      }
    }
    forall l: nat, u | l < g.level + 1 && Edge(ix, l, u, g.id) ensures (u, l) in found {
      if l == g.level && (u, l) !in g.found {
        assert u !in g.copy;
        var i :| 0 <= i < |record| && record[i] == u;
        assert AtLevel(record, g.level)[i] == (u, l);
      }
    }
  }

  /** The record of an element holds the edges to it that are not answered. */
  lemma RecordAt(ix: Index, id: Id, level: nat)
    requires IndexOk(ix) && HasLevel(ix, id, level)
    ensures level < |ix.levels| && id in ix.levels[level].incoming
    ensures forall u | u in ix.levels[level].incoming[id] :: HasLevel(ix, u, level)
    ensures forall u | Edge(ix, level, u, id) && !Edge(ix, level, id, u) :: u in ix.levels[level].incoming[id]
  {
    assert LevelOk(ix, level);
    ExactAt(ix.levels[level], id);
  }

  /** Beyond its top level an element has no edges: everything was collected. */
  lemma AllCollected(ix: Index, waiting: set<Id>, g: Gather)
    requires IndexOk(ix) && GatherOk(ix, waiting, g) && g.Gathering? && g.level > ix.top[g.id]
    ensures Collected(ix, g.id, g.found)
  {
    forall l: nat, u | Edge(ix, l, u, g.id) ensures (u, l) in g.found {
      assert LevelOk(ix, l);
      EdgesInLevel(ix.levels[l], Cap(ix.max, l));
    }
  }
}

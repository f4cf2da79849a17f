/**
 * The threads' steps carried out on the index itself: what each locked section does to the arrays and
 * the job maps is the step of that name, for whatever the other threads did before.
 */
module Threads {
  import opened Seqs
  import opened LevelGraphs
  import opened NeighborSelection
  import opened GraphSearch
  import opened VisitedNodes
  import opened IndexModel
  import opened TieredJobs
  import opened SwapJobs
  import opened LabelLookup
  import opened HnswIndexes
  import opened TieredIndexes
  import opened GraphSteps
  import opened Workers
  import opened Interleaving
  import RepairScheduling
  import TieredProtocol
  import Connect
  import Repair

  // ----- Sections that update the graph -----

  /** The index after one of its levels was rewritten. */
  lemma LevelRewritten(hnsw: HnswIndex, before: Index, level: nat)
    requires level < |hnsw.levels| == |before.levels|
    requires hnsw.View() == before.(levels := hnsw.View().levels)
    requires forall l | 0 <= l < |hnsw.levels| && l != level :: hnsw.levels[l].View() == before.levels[l]
    ensures hnsw.View() == before.(levels := before.levels[level := hnsw.levels[level].View()])
  {
    assert hnsw.View().levels == before.levels[level := hnsw.levels[level].View()];
  }

  /** Carries out the plan of a repair. */
  method UpdateRepairedNode(hnsw: HnswIndex, u: Id, level: nat, toUpdate: seq<Id>, chosen: seq<Id>)
    requires hnsw.Valid() && HasLevel(hnsw.View(), u, level)
    requires NoDup(chosen) && u !in chosen && Elems(chosen) <= Elems(toUpdate)
    requires forall v | v in chosen :: HasLevel(hnsw.View(), v, level)
    modifies hnsw.levels
    ensures hnsw.Valid() && Rewired(old(hnsw.View()), hnsw.View(), u, level, toUpdate, chosen)
  {
    hide IndexOk, WellFormed, HnswIndexes.Views, Repair.UpdatedRow, Repair.Eligible;
    ghost var before := hnsw.View();
    LevelIsThere(before, u, level);
    LevelIsWellFormed(before, level);
    forall v | v in Elems(chosen) ensures v in Elems(toUpdate) * hnsw.levels[level].links.Keys {
      LevelIsThere(before, v, level);
    }
    Repair.MutuallyUpdateForRepairedNode(hnsw.levels[level], u, toUpdate, chosen, hnsw.deleted + hnsw.inProcess,
                                         Cap(hnsw.max, level));
    LevelRewritten(hnsw, before, level);
    RewiredSteps(before, hnsw.View(), u, level, {}, toUpdate, chosen);
    SteppedIsOk(before, hnsw.View(), before.deleted + before.inProcess);
  }

  lemma LevelIsWellFormed(ix: Index, level: nat)
    requires IndexOk(ix) && level < |ix.levels|
    ensures WellFormed(ix.levels[level], Cap(ix.max, level))
  {
    assert LevelOk(ix, level);
  }

  lemma SteppedIsOk(ix: Index, after: Index, barred: set<Id>)
    requires Stepped(ix, after, barred)
    ensures IndexOk(after)
  {
  }

  /**
   * The neighbours selected for a vector at a level: what the heuristic keeps of the nodes that a search from
   * `start` finds, going by the distances between the vectors.  The nearest node found is where to go on.
   */
  ghost predicate SelectedFor(hnsw: HnswIndex, level: nat, start: Id, blob: Blob, selected: seq<Id>, next: Id)
    reads hnsw, hnsw.levels
  {
    && level < |hnsw.levels|
    && var q := Search(hnsw.levels[level].links, hnsw.deleted, hnsw.inProcess, hnsw.DistanceTo(blob), start, hnsw.ef);
      && SelectedBySearch(q, hnsw.max, hnsw.ElementMetric(), selected, next)
      && (start !in hnsw.deleted ==> selected != [] && next !in hnsw.deleted)
      && (forall v | 0 <= v < |hnsw.blobs| :: q.dist(v) == hnsw.distance(blob, hnsw.blobs[v]))
      && forall a, b | 0 <= a < |hnsw.blobs| && 0 <= b < |hnsw.blobs| ::
           hnsw.ElementMetric()(a, b) == hnsw.distance(hnsw.blobs[a], hnsw.blobs[b])
  }

  /** Searches a level for an element in process, and selects its neighbours among the nodes found. */
  method SearchNeighbors(hnsw: HnswIndex, id: Id, level: nat, start: Id, blob: Blob)
    returns (selected: seq<Id>, next: Id)
    requires hnsw.Valid() && HasLevel(hnsw.View(), start, level) && HasLevel(hnsw.View(), id, level)
    requires start !in hnsw.inProcess && id in hnsw.inProcess
    ensures Selection(hnsw.View(), id, level, selected) && SelectedFor(hnsw, level, start, blob, selected, next)
    ensures HasLevel(hnsw.View(), next, level) && next !in hnsw.inProcess
  {
    hide IndexOk, HnswIndexes.Views, HnswIndex.BooksOk, Found, Filtered, Splits, SearchOk;
    LevelIsThere(hnsw.View(), id, level);
    LevelIsThere(hnsw.View(), start, level);
    hnsw.SearchCanStart(level, start, blob, hnsw.ef);
    var handler := new VisitedNodesHandler(|hnsw.top|);
    var q := hnsw.SearchAt(level, start, blob, hnsw.ef);
    var found, visited := SearchLayer(q, handler);
    FoundAreCandidates(q, visited, found, id);
    FoundAreReady(q, visited, found);
    var picked, removed := SelectNeighbors(found, hnsw.max, hnsw.ElementMetric());
    selected := Ids(picked);
    PickedIsSelection(hnsw.View(), id, level, found, picked, removed, hnsw.ElementMetric());
    PickedAreChosen(found, hnsw.max, hnsw.ElementMetric(), picked, removed);
    if start !in hnsw.deleted {
      EntryIsFound(q, visited, found);
    }
    next := start;
    if found != [] {
      next := Connect.Nearest(found);
      FoundIsLive(q, visited, found, next);
      NodeHasLevel(hnsw.View(), level, next);
    }
    assert SelectedFrom(q, found, hnsw.max, hnsw.ElementMetric(), selected, next);
  }

  lemma FoundIsLive(q: Search, visited: set<Id>, found: seq<Candidate>, v: Id)
    requires Found(q, visited, found) && exists c | c in found :: c.id == v
    ensures v !in q.deleted && v in q.links
  {
  }

  lemma NodeHasLevel(ix: Index, level: nat, v: Id)
    requires IndexOk(ix) && level < |ix.levels| && v in ix.levels[level].links
    ensures HasLevel(ix, v, level)
  {
    assert LevelOk(ix, level);
  }

  lemma PickedAreChosen(found: seq<Candidate>, max: nat, metric: Metric, picked: seq<Candidate>, removed: seq<Id>)
    requires Splits(found, picked, removed) && max > 0
    requires if |found| < max then picked == found else Filtered(found, max, metric, picked, removed)
    ensures found == [] ==> picked == []
    ensures found != [] ==> Chosen(found, max, metric, picked)
  {
  }

  /**
   * What is decided about a full neighbour: its links and the new element compete by their distances, and
   * those left out are to be updated, next to the two nodes themselves.
   */
  ghost predicate DecidedFor(hnsw: HnswIndex, id: Id, level: nat, v: Id, toUpdate: seq<Id>, chosen: bool)
    reads hnsw, hnsw.levels
  {
    && level < |hnsw.levels| && v in hnsw.levels[level].links && 0 <= id < |hnsw.blobs| && 0 <= v < |hnsw.blobs|
    && exists picked, removed ::
         && Connect.Competed(hnsw.levels[level].links[v], id, hnsw.distance(hnsw.blobs[id], hnsw.blobs[v]), v,
                             hnsw.ElementMetric(), picked, removed)
         && (chosen <==> id !in removed) && Elems(toUpdate) == Elems(removed) + {id, v}
  }

  /** Decides how the links of a full neighbour change. */
  method PlanNeighbor(hnsw: HnswIndex, id: Id, level: nat, v: Id) returns (toUpdate: seq<Id>, chosen: bool)
    requires hnsw.Valid() && Apart(hnsw.View(), level, id, v)
    requires id !in hnsw.levels[level].links[v] && |hnsw.levels[level].links[v]| == Cap(hnsw.max, level)
    ensures id in toUpdate && DecidedFor(hnsw, id, level, v, toUpdate, chosen)
  {
    hide IndexOk, WellFormed, HnswIndexes.Views, Connect.Competed;
    LevelIsWellFormed(hnsw.View(), level);
    NodesHaveVectors(hnsw, level, id);
    NodesHaveVectors(hnsw, level, v);
    var metric := hnsw.ElementMetric();
    ghost var picked, removed;
    toUpdate, chosen, picked, removed :=
      Connect.PlanRevisit(hnsw.levels[level], id, Candidate(metric(id, v), v), Cap(hnsw.max, level), metric);
    InElems(toUpdate);
  }

  lemma NodesHaveVectors(hnsw: HnswIndex, level: nat, v: Id)
    requires hnsw.Valid() && level < |hnsw.levels| && v in hnsw.levels[level].links
    ensures 0 <= v < |hnsw.blobs|
  {
    assert LevelOk(hnsw.View(), level);
  }

  /** Links an element and a neighbour with room to each other. */
  method LinkNeighbor(hnsw: HnswIndex, id: Id, level: nat, v: Id)
    requires hnsw.Valid() && Apart(hnsw.View(), level, id, v) && HasRoom(hnsw.View(), level, id, v)
    requires |hnsw.levels[level].links[id]| < Cap(hnsw.max, level)
    modifies hnsw.levels
    ensures hnsw.Valid() && hnsw.View() == GraphSteps.Joined(old(hnsw.View()), level, id, v)
  {
    hide IndexOk, WellFormed, HnswIndexes.Views;
    ghost var before := hnsw.View();
    LevelIsWellFormed(before, level);
    Connect.LinkBothWays(hnsw.levels[level], id, v, Cap(hnsw.max, level));
    LevelRewritten(hnsw, before, level);
    JoinedSteps(before, level, id, v, {});
    SteppedIsOk(before, hnsw.View(), {});
  }

  /** Carries out what was decided about the links of a full neighbour. */
  method UpdateNeighborLinks(hnsw: HnswIndex, id: Id, level: nat, v: Id, toUpdate: seq<Id>, chosen: bool)
    requires hnsw.Valid() && Apart(hnsw.View(), level, id, v) && id in toUpdate
    modifies hnsw.levels
    ensures hnsw.Valid() && Reconsidered(old(hnsw.View()), hnsw.View(), level, id, v, toUpdate, chosen)
  {
    hide IndexOk, WellFormed, HnswIndexes.Views, Connect.Revisited;
    ghost var before := hnsw.View();
    LevelIsWellFormed(before, level);
    Connect.UpdateRevisitedNeighbor(hnsw.levels[level], id, v, toUpdate, chosen, hnsw.deleted, Cap(hnsw.max, level));
    LevelRewritten(hnsw, before, level);
    ReconsideredSteps(before, hnsw.View(), level, id, v, toUpdate, chosen, {});
    SteppedIsOk(before, hnsw.View(), {});
  }

  /** The tiered index together with what its threads are holding between their locks. */
  class SharedIndex {
    const tiered: TieredIndex
    var flying: seq<Flight>
    var waiting: set<Id>
    var inserting: seq<Insertion>
    var gathering: seq<Gather>

    constructor (tiered: TieredIndex)
      requires tiered.Valid() && tiered.TierView() == TieredProtocol.EmptyTier(tiered.hnsw.max)
      ensures Valid() && this.tiered == tiered && Now() == EmptyState(tiered.hnsw.max)
    {
      this.tiered := tiered;
      flying, waiting, inserting, gathering := [], {}, [], [];
    }

    ghost function Now(): State
      reads this, tiered, tiered.hnsw, tiered.hnsw.levels
    {
      State(Tier(tiered.hnsw.View(), tiered.JobsView(), flying, waiting), inserting, gathering)
    }

    ghost predicate Valid()
      reads this, tiered, tiered.hnsw, tiered.hnsw.levels
    {
      tiered.hnsw.Valid() && Orderly(Now())
    }

    // ----- Insertions -----

    /** A new element is stored and starts to be connected. */
    method Store(key: Label, blob: Blob, level: nat)
      requires Valid() && (!tiered.hnsw.multi ==> key !in tiered.hnsw.lookup)
      modifies this`inserting, tiered.hnsw, tiered.hnsw.levels
      ensures Valid() && Did(old(Now()), Interleaving.Store(level), Now())
      ensures tiered.hnsw.labels == old(tiered.hnsw.labels) + [key] && tiered.hnsw.blobs == old(tiered.hnsw.blobs) + [blob]
      ensures tiered.hnsw.deleted == old(tiered.hnsw.deleted) && tiered.hnsw.top == old(tiered.hnsw.top) + [level]
      ensures tiered.hnsw.inProcess == old(tiered.hnsw.inProcess) + {|old(tiered.hnsw.top)|}
      ensures inserting == old(inserting) + [Climbing(|old(tiered.hnsw.top)|, level + 1)]
    {
      hide Orderly, IndexOk, HnswIndexes.Views, StoreElement, HnswIndex.BooksOk;
      ghost var s := Now();
      StepKeeps(s, Interleaving.Store(level));
      StoreShape(s.tier.ix, level);
      var id, prevEntry, prevMax := tiered.hnsw.StoreNewElement(key, blob, level);
      inserting := inserting + [Climbing(id, level + 1)];
    }

    /** The next neighbour is skipped or linked, or it is decided how its links change. */
    method ConnectNext(k: nat) returns (ghost step: InsertStep)
      requires Valid() && k < |inserting| && inserting[k].Connecting? && inserting[k].rest != []
      modifies this`inserting, tiered.hnsw.levels
      ensures Valid() && (step.ConnectNext? || step.Decide?) && Did(old(Now()), Insert(k, step), Now())
      ensures step.Decide? ==> var ins := old(inserting[k]);
                DecidedFor(tiered.hnsw, ins.id, ins.level, ins.rest[0], step.toUpdate, step.chosen)
    {
      hide Orderly, IndexOk, HnswIndexes.Views, Apart, HnswIndex.GraphOk, HnswIndex.BooksOk, Enabled, Apply, DecidedFor;
      var (id, level, v) := (inserting[k].id, inserting[k].level, inserting[k].rest[0]);
      InsertionFacts(Now(), k);
      step := InsertStep.ConnectNext;
      if id in tiered.hnsw.deleted || v in tiered.hnsw.deleted {
        SkipNext(k);
      } else if |tiered.hnsw.levels[level].links[v]| < Cap(tiered.hnsw.max, level) {
        LinkNext(k);
      } else {
        step := DecideNext(k);
      }
    }

    method SkipNext(k: nat)
      requires Valid() && k < |inserting| && inserting[k].Connecting? && inserting[k].rest != []
      requires inserting[k].id in tiered.hnsw.deleted || inserting[k].rest[0] in tiered.hnsw.deleted
      modifies this`inserting
      ensures Valid() && Did(old(Now()), Insert(k, InsertStep.ConnectNext), Now())
    {
      hide Orderly, IndexOk, HnswIndexes.Views, Apart, HnswIndex.GraphOk, HnswIndex.BooksOk;
      ghost var s := Now();
      InsertionFacts(s, k);
      StepKeeps(s, Insert(k, InsertStep.ConnectNext));
      inserting := inserting[k := Connecting(inserting[k].id, inserting[k].level, inserting[k].rest[1..])];
    }

    method LinkNext(k: nat)
      requires Valid() && k < |inserting| && inserting[k].Connecting? && inserting[k].rest != []
      requires inserting[k].id !in tiered.hnsw.deleted && inserting[k].rest[0] !in tiered.hnsw.deleted
      requires Apart(tiered.hnsw.View(), inserting[k].level, inserting[k].id, inserting[k].rest[0])
      requires HasRoom(tiered.hnsw.View(), inserting[k].level, inserting[k].id, inserting[k].rest[0])
      modifies this`inserting, tiered.hnsw.levels
      ensures Valid() && Did(old(Now()), Insert(k, InsertStep.ConnectNext), Now())
    {
      hide Orderly, IndexOk, HnswIndexes.Views, Apart, HnswIndex.GraphOk, HnswIndex.BooksOk, HasRoom;
      ghost var s := Now();
      InsertionFacts(s, k);
      StepKeeps(s, Insert(k, InsertStep.ConnectNext));
      LinkNeighbor(tiered.hnsw, inserting[k].id, inserting[k].level, inserting[k].rest[0]);
      inserting := inserting[k := Connecting(inserting[k].id, inserting[k].level, inserting[k].rest[1..])];
    }

    method DecideNext(k: nat) returns (ghost step: InsertStep)
      requires Valid() && k < |inserting| && inserting[k].Connecting? && inserting[k].rest != []
      requires inserting[k].id !in tiered.hnsw.deleted && inserting[k].rest[0] !in tiered.hnsw.deleted
      requires Apart(tiered.hnsw.View(), inserting[k].level, inserting[k].id, inserting[k].rest[0])
      requires !HasRoom(tiered.hnsw.View(), inserting[k].level, inserting[k].id, inserting[k].rest[0])
      modifies this`inserting
      ensures Valid() && step.Decide? && Did(old(Now()), Insert(k, step), Now())
      ensures var ins := old(inserting[k]);
        DecidedFor(tiered.hnsw, ins.id, ins.level, ins.rest[0], step.toUpdate, step.chosen)
    {
      hide Orderly, IndexOk, HnswIndexes.Views, Apart, HnswIndex.GraphOk, HnswIndex.BooksOk, DecidedFor;
      ghost var s := Now();
      var (id, level, v, rest) := (inserting[k].id, inserting[k].level, inserting[k].rest[0], inserting[k].rest[1..]);
      InsertionFacts(s, k);
      var toUpdate, chosen := PlanNeighbor(tiered.hnsw, id, level, v);
      step := Decide(toUpdate, chosen);
      StepKeeps(s, Insert(k, step));
      inserting := inserting[k := Revisiting(id, level, rest, v, toUpdate, chosen)];
    }

    /** A search of the next level, and the heuristic's choice among what it found. */
    method FindNeighbors(k: nat, level: nat, start: Id, blob: Blob) returns (selected: seq<Id>, next: Id)
      requires Valid() && k < |inserting| && inserting[k].Climbing? && level < inserting[k].level
      requires HasLevel(tiered.hnsw.View(), start, level) && start !in tiered.hnsw.inProcess
      requires HasLevel(tiered.hnsw.View(), inserting[k].id, level)
      modifies this`inserting
      ensures Valid() && Did(old(Now()), Insert(k, Select(level, selected)), Now())
      ensures SelectedFor(tiered.hnsw, level, start, blob, selected, next)
      ensures HasLevel(tiered.hnsw.View(), next, level) && next !in tiered.hnsw.inProcess
    {
      hide Orderly, IndexOk, HnswIndexes.Views, HnswIndex.BooksOk, HnswIndex.GraphOk, Selection, SelectedFor;
      ghost var s := Now();
      ClimbingFacts(s, k, level);
      selected, next := SearchNeighbors(tiered.hnsw, inserting[k].id, level, start, blob);
      StepKeeps(s, Insert(k, Select(level, selected)));
      inserting := inserting[k := Connecting(inserting[k].id, level, selected)];
    }

    /** Carries out what was decided about a full neighbour. */
    method UpdateNeighbor(k: nat)
      requires Valid() && k < |inserting| && inserting[k].Revisiting?
      modifies this`inserting, tiered.hnsw.levels
      ensures Valid() && Did(old(Now()), Insert(k, InsertStep.UpdateNeighbor(tiered.hnsw.View())), Now())
    {
      hide Orderly, IndexOk, HnswIndexes.Views, HnswIndex.GraphOk, HnswIndex.BooksOk, Reconsidered, Did, Apart;
      ghost var s := Now();
      var ins := inserting[k];
      RevisitingFacts(s, k);
      UpdateNeighborLinks(tiered.hnsw, ins.id, ins.level, ins.neighbor, ins.toUpdate, ins.chosen);
      UpdateIsDone(s, k, tiered.hnsw.View());
      inserting := inserting[k := Connecting(ins.id, ins.level, ins.rest)];
    }

    method EndLevel(k: nat)
      requires Valid() && k < |inserting| && inserting[k].Connecting? && inserting[k].rest == []
      modifies this`inserting
      ensures Valid() && Did(old(Now()), Insert(k, InsertStep.EndLevel), Now())
      ensures inserting == old(inserting)[k := Climbing(old(inserting)[k].id, old(inserting)[k].level)]
    {
      hide Inv, HnswIndexes.Views, HnswIndex.GraphOk, HnswIndex.BooksOk;
      ghost var s := Now();
      StepKeeps(s, Insert(k, InsertStep.EndLevel));
      inserting := inserting[k := Climbing(inserting[k].id, inserting[k].level)];
    }

    /** The element is connected at all its levels, and its mark is lifted. */
    method EndInsert(k: nat)
      requires Valid() && k < |inserting| && inserting[k].Climbing?
      modifies this`inserting, tiered.hnsw`inProcess
      ensures Valid() && Did(old(Now()), Interleaving.EndInsert(k), Now())
      ensures tiered.hnsw.inProcess == old(tiered.hnsw.inProcess) - {old(inserting)[k].id}
    {
      hide Orderly, IndexOk, HnswIndexes.Views, HnswIndex.BooksOk;
      ghost var s := Now();
      StepKeeps(s, Interleaving.EndInsert(k));
      tiered.hnsw.inProcess := tiered.hnsw.inProcess - {inserting[k].id};
      inserting := inserting[..k] + inserting[k + 1..];
      OrderlyIndex(Now());
    }

    // ----- Deletions -----

    /** The elements of a label are marked; their jobs are still to be opened. */
    method MarkLabel(key: Label) returns (ids: seq<Id>)
      requires Valid()
      modifies this`waiting, tiered.hnsw`lookup, tiered.hnsw`entry, tiered.hnsw`maxLevel, tiered.hnsw`deleted,
        tiered.hnsw`numMarkedDeleted
      ensures Valid() && Did(old(Now()), Mark(Elems(ids)), Now()) && key !in tiered.hnsw.lookup
      ensures ids == if key in old(tiered.hnsw.lookup) then old(tiered.hnsw.lookup)[key] else []
      ensures tiered.hnsw.deleted == old(tiered.hnsw.deleted) + Elems(ids) && waiting == old(waiting) + Elems(ids)
      ensures forall e :: tiered.hnsw.Stored()[e] == if Of(e, key) then 0 else old(tiered.hnsw.Stored())[e]
    {
      hide Orderly, IndexOk, HnswIndexes.Views, HnswIndex.BooksOk, HnswIndex.GraphOk, Contents;
      ghost var s := Now();
      ids := tiered.hnsw.MarkDelete(key);
      InElems(ids);
      StepKeeps(s, Mark(Elems(ids)));
      waiting := waiting + Elems(ids);
    }

    method StartGather(id: Id)
      requires Valid() && id in waiting && forall k | 0 <= k < |gathering| :: gathering[k].id != id
      modifies this`gathering
      ensures Valid() && Did(old(Now()), Interleaving.StartGather(id), Now())
      ensures gathering == old(gathering) + [Gathering(id, 0, [])]
    {
      hide Orderly, HnswIndexes.Views, HnswIndex.GraphOk, HnswIndex.BooksOk;
      ghost var s := Now();
      StepKeeps(s, Interleaving.StartGather(id));
      gathering := gathering + [Gathering(id, 0, [])];
    }

    /** Copies the element's links at the next level. */
    method CopyLinks(k: nat)
      requires Valid() && k < |gathering| && gathering[k].Gathering? && gathering[k].id in waiting
      requires HasLevel(tiered.hnsw.View(), gathering[k].id, gathering[k].level)
      modifies this`gathering
      ensures Valid() && Did(old(Now()), Collect(k, GatherStep.CopyLinks), Now())
    {
      hide Orderly, IndexOk, HnswIndexes.Views, HnswIndex.GraphOk, HnswIndex.BooksOk;
      ghost var s := Now();
      var g := gathering[k];
      GatheringFacts(s, k);
      LevelIsThere(s.tier.ix, g.id, g.level);
      StepKeeps(s, Collect(k, GatherStep.CopyLinks));
      var row := Elems(tiered.hnsw.levels[g.level].links[g.id]);
      gathering := gathering[k := Asking(g.id, g.level, g.found, row, row)];
    }

    /** Asks one of the copied neighbours whether it points back. */
    method Ask(k: nat, u: Id)
      requires Valid() && k < |gathering| && gathering[k].Asking? && u in gathering[k].left
      modifies this`gathering
      ensures Valid() && Did(old(Now()), Collect(k, GatherStep.Ask(u)), Now())
    {
      hide Orderly, IndexOk, HnswIndexes.Views, HnswIndex.GraphOk, HnswIndex.BooksOk;
      ghost var s := Now();
      var g := gathering[k];
      GatheringFacts(s, k);
      LevelInRange(s.tier.ix, s.tier.waiting, g);
      StepKeeps(s, Collect(k, GatherStep.Ask(u)));
      var found := g.found;
      if u in tiered.hnsw.levels[g.level].links && g.id in tiered.hnsw.levels[g.level].links[u] {
        found := found + [(u, g.level)];
      }
      gathering := gathering[k := Asking(g.id, g.level, found, g.copy, g.left - {u})];
    }

    /** Reads the element's record of one-way edges and goes on to the next level. */
    method ReadRecord(k: nat)
      requires Valid() && k < |gathering| && gathering[k].Asking? && gathering[k].left == {}
      modifies this`gathering
      ensures Valid() && Did(old(Now()), Collect(k, GatherStep.ReadRecord), Now())
    {
      hide Orderly, IndexOk, HnswIndexes.Views, HnswIndex.GraphOk, HnswIndex.BooksOk;
      ghost var s := Now();
      var g := gathering[k];
      GatheringFacts(s, k);
      RecordRead(s.tier.ix, s.tier.waiting, g);
      StepKeeps(s, Collect(k, GatherStep.ReadRecord));
      var others := tiered.hnsw.levels[g.level].incoming[g.id];
      gathering := gathering[k := Gathering(g.id, g.level + 1, g.found + AtLevel(others, g.level))];
    }

    /** Opens the element's swap job and schedules the repair of all edges that were found. */
    method OpenJob(k: nat)
      requires Valid() && k < |gathering| && gathering[k].Gathering?
      requires !HasLevel(tiered.hnsw.View(), gathering[k].id, gathering[k].level)
      modifies this`gathering, this`waiting, tiered
      ensures Valid() && Did(old(Now()), Open(k), Now())
    {
      hide Orderly, IndexOk, HnswIndexes.Views, HnswIndex.GraphOk, HnswIndex.BooksOk, JobsOk,
        RepairScheduling.OpenSwapJob;
      ghost var s := Now();
      var g := gathering[k];
      GatheringFacts(s, k);
      FoundAreInside(s.tier.ix, s.tier.waiting, g);
      OrderlyJobs(s);
      StepKeeps(s, Open(k));
      tiered.OpenJob(g.id, g.found);
      waiting := waiting - {g.id};
      gathering := gathering[..k] + gathering[k + 1..];
    }

    // ----- Repairs -----

    /** Takes a repair job out of the queue. */
    method PopRepairJob(h: Handle)
      requires Valid() && h in tiered.repair
      modifies this`flying, tiered`swap, tiered`ready, tiered`repair, tiered`idToRepair
      ensures Valid() && Did(old(Now()), Pop(h), Now())
    {
      hide Orderly, IndexOk, HnswIndexes.Views, HnswIndex.GraphOk, HnswIndex.BooksOk, JobsOk, TieredProtocol.PopJob;
      ghost var s := Now();
      OrderlyJobs(s);
      StepKeeps(s, Pop(h));
      flying := flying + [Popped(tiered.repair[h].node, tiered.repair[h].level)];
      tiered.PopRepairJob(h);
    }

    /** Reads the node's row; with no deleted neighbour in it there is nothing to repair. */
    method ReadLinks(i: nat)
      requires Valid() && i < |flying| && flying[i].Popped?
      modifies this`flying
      ensures Valid() && Did(old(Now()), Interleaving.Repair(i, RepairStep.ReadLinks), Now())
      ensures if exists d :: d in tiered.hnsw.deleted && Edge(tiered.hnsw.View(), old(flying)[i].level, old(flying)[i].node, d)
              then |flying| == |old(flying)| && flying[i].Reading?
              else flying == old(flying)[..i] + old(flying)[i + 1..]
    {
      hide Orderly, IndexOk, HnswIndexes.Views, HnswIndex.GraphOk, HnswIndex.BooksOk;
      ghost var s := Now();
      var f, hnsw := flying[i], tiered.hnsw;
      FlightFacts(s, i);
      LevelIsThere(s.tier.ix, f.node, f.level);
      StepKeeps(s, Interleaving.Repair(i, RepairStep.ReadLinks));
      var row := Elems(hnsw.levels[f.level].links[f.node]);
      var targets := row * hnsw.deleted;
      if targets == {} {
        flying := flying[..i] + flying[i + 1..];
      } else {
        NotEmpty(targets);
        ghost var d :| d in targets;
        assert d in hnsw.deleted && Edge(hnsw.View(), f.level, f.node, d);
        flying := flying[i := Reading(f.node, f.level, targets, row, row - hnsw.deleted, targets)];
      }
    }

    /** Collects the live neighbours of one deleted neighbour. */
    method ReadNeighbor(i: nat, d: Id)
      requires Valid() && i < |flying| && flying[i].Reading? && d in flying[i].left
      modifies this`flying
      ensures Valid() && Did(old(Now()), Interleaving.Repair(i, RepairStep.ReadNeighbor(d)), Now())
    {
      hide Orderly, IndexOk, HnswIndexes.Views, HnswIndex.GraphOk, HnswIndex.BooksOk;
      ghost var s := Now();
      var f, hnsw := flying[i], tiered.hnsw;
      FlightFacts(s, i);
      LevelIsThere(s.tier.ix, d, f.level);
      StepKeeps(s, Interleaving.Repair(i, RepairStep.ReadNeighbor(d)));
      var cands := f.cands + (Elems(hnsw.levels[f.level].links[d]) - hnsw.deleted - {f.node});
      flying := flying[i := Reading(f.node, f.level, f.targets, f.row, cands, f.left - {d})];
    }

    /** Chooses among the candidates, in whatever order they were collected. */
    method MakePlan(i: nat, order: seq<Id>) returns (toUpdate: seq<Id>, chosen: seq<Id>)
      requires Valid() && i < |flying| && flying[i].Reading? && flying[i].left == {}
      requires NoDup(order) && Elems(order) == flying[i].cands
      modifies this`flying
      ensures Valid() && Did(old(Now()), Interleaving.Repair(i, Plan(toUpdate, chosen)), Now())
      ensures Repair.Picked(old(flying)[i].cands, old(flying)[i].node, Cap(tiered.hnsw.max, old(flying)[i].level),
                            tiered.hnsw.ElementMetric(), chosen)
    {
      hide Orderly, IndexOk, HnswIndexes.Views, HnswIndex.GraphOk, HnswIndex.BooksOk, WellChosen, Did;
      ghost var s := Now();
      var f := flying[i];
      var removed;
      chosen, removed := Repair.ChooseAmong(f.node, order, Cap(tiered.hnsw.max, f.level), tiered.hnsw.ElementMetric());
      toUpdate := SeqOf(f.row + Elems(chosen));
      PlanIsMade(s, i, toUpdate, chosen);
      flying := flying[i := Planned(f.node, f.level, f.targets, toUpdate, chosen)];
    }

    /** Carries out the plan, with the flags of the moment. */
    method Rewire(i: nat)
      requires Valid() && i < |flying| && flying[i].Planned?
      modifies this`flying, tiered.hnsw.levels
      ensures Valid() && Did(old(Now()), Interleaving.Rewire(i, tiered.hnsw.View()), Now())
      ensures flying == old(flying)[..i] + old(flying)[i + 1..]
    {
      hide Orderly, IndexOk, HnswIndexes.Views, HnswIndex.GraphOk, HnswIndex.BooksOk, Rewired;
      ghost var s := Now();
      var f := flying[i];
      FlightFacts(s, i);
      UpdateRepairedNode(tiered.hnsw, f.node, f.level, f.toUpdate, f.chosen);
      StepKeeps(s, Interleaving.Rewire(i, tiered.hnsw.View()));
      flying := flying[..i] + flying[i + 1..];
    }

    // ----- Under the exclusive lock -----

    method CollectGarbage(order: seq<Id>, limit: nat)
      requires Valid() && Exclusive(Now()) && KeyOrder(tiered.JobsView(), order)
      modifies tiered, tiered.hnsw, tiered.hnsw.levels
      ensures Valid() && Did(old(Now()), Interleaving.CollectGarbage(order, limit), Now())
      ensures Cleared(old(Now()).tier, Now().tier, limit)
      ensures tiered.hnsw.Stored() == old(tiered.hnsw.Stored())
    {
      hide IndexOk, HnswIndexes.Views, HnswIndex.GraphOk, HnswIndex.BooksOk, SwapJobs.CollectGarbage, Inv, KeyOrder,
        Contents, Cleared;
      ghost var s := Now();
      StepKeeps(s, Interleaving.CollectGarbage(order, limit));
      tiered.ExecuteReadySwapJobs(order, limit);
      CollectGarbageKeepsInv(s.tier, order, limit);
    }

    /** Deletes a label in place, whatever the number of its elements. */
    method RemoveLabel(key: Label) returns (count: nat)
      requires Valid() && Exclusive(Now())
      modifies tiered, tiered.hnsw, tiered.hnsw.levels
      ensures tiered.hnsw.Valid() && key !in tiered.hnsw.lookup && tiered.hnsw.levels == old(tiered.hnsw.levels)
      ensures old(tiered.Valid()) && (Valid() <==> old(tiered.NoneForgotten(key)))
      ensures forall e :: tiered.hnsw.Stored()[e] == if Of(e, key) then 0 else old(tiered.hnsw.Stored())[e]
      ensures count == if key in old(tiered.hnsw.lookup) then |old(tiered.hnsw.lookup)[key]| else 0
    {
      hide Orderly, Inv, HnswIndex.GraphOk, HnswIndex.BooksOk, Contents, TieredIndex.NoneForgotten, TieredIndex.SomeForgotten;
      QuietIsOrderly(Now());
      count := tiered.DeleteLabelFromHNSWInplace(key);
      QuietIsOrderly(Now());
    }

    /** Deletes the one element of a label in place. */
    method RemoveNow(key: Label) returns (ghost id: Id)
      requires Valid() && Exclusive(Now()) && !tiered.hnsw.multi && key in tiered.hnsw.lookup
      modifies tiered, tiered.hnsw, tiered.hnsw.levels
      ensures Valid() && Did(old(Now()), Interleaving.RemoveNow(id, tiered.hnsw.View()), Now())
      ensures key !in tiered.hnsw.lookup
      ensures forall e :: tiered.hnsw.Stored()[e] == if Of(e, key) then 0 else old(tiered.hnsw.Stored())[e]
    {
      hide IndexOk, HnswIndexes.Views, HnswIndex.GraphOk, Inv, Contents, TakenOut, TieredProtocol.RemovedNow,
        EntryOk, LookupOk;
      ghost var s := Now();
      id := tiered.hnsw.lookup[key][0];
      tiered.RemoveOnly(key);
      StepKeeps(s, Interleaving.RemoveNow(id, tiered.hnsw.View()));
      TieredProtocol.RemoveNowKeepsInv(s.tier, id, tiered.hnsw.View());
      RemovedIsQuiet(s.tier, id, tiered.hnsw.View());
    }
  }

  /** With no thread at work, the invariant is the one of the index between two calls. */
  lemma QuietIsOrderly(s: State)
    requires Exclusive(s)
    ensures Orderly(s) <==> Inv(s.tier)
    ensures s.tier == Tier(s.tier.ix, s.tier.jobs, [], {})
  {
  }

  /** What an insertion may rely on when it comes to its next neighbour. */
  lemma InsertionFacts(s: State, k: nat)
    requires Orderly(s) && k < |s.inserting| && s.inserting[k].Connecting? && s.inserting[k].rest != []
    ensures IndexOk(s.tier.ix) && InsertionOk(s.tier.ix, s.inserting[k])
    ensures var (ins, ix) := (s.inserting[k], s.tier.ix);
      var v := ins.rest[0];
      && Apart(ix, ins.level, ins.id, v)
      && ins.level < |ix.levels| && ins.id in ix.levels[ins.level].links && v in ix.levels[ins.level].links && ins.id != v
      && v !in ix.levels[ins.level].links[ins.id] && ins.id !in ix.levels[ins.level].links[v]
      && |ix.levels[ins.level].links[ins.id]| < Cap(ix.max, ins.level)
      && |ix.levels[ins.level].links[v]| <= Cap(ix.max, ins.level)
  {
    InvIndex(s.tier);
    var (ins, ix) := (s.inserting[k], s.tier.ix);
    hide Inv, AllDistinct;
    NextIsApart(ix, ins);
    assert LevelOk(ix, ins.level);
    var g := ix.levels[ins.level];
    assert RowOk(g.links.Keys, ins.rest[0], g.links[ins.rest[0]], Cap(ix.max, ins.level));
    assert Link(g, ins.id, ins.rest[0]) <==> Edge(ix, ins.level, ins.id, ins.rest[0]);
  }

  lemma OrderlyIndex(s: State)
    requires Orderly(s)
    ensures IndexOk(s.tier.ix)
  {
  }

  lemma ClimbingFacts(s: State, k: nat, level: nat)
    requires Orderly(s) && k < |s.inserting| && HasLevel(s.tier.ix, s.inserting[k].id, level)
    ensures IndexOk(s.tier.ix) && InsertionOk(s.tier.ix, s.inserting[k]) && s.inserting[k].id in s.tier.ix.inProcess
    ensures level < |s.tier.ix.levels| && s.inserting[k].id in s.tier.ix.levels[level].links
  {
    OrderlyIndex(s);
    LevelIsThere(s.tier.ix, s.inserting[k].id, level);
  }

  lemma FoundAreReady(q: Search, visited: set<Id>, found: seq<Candidate>)
    requires Found(q, visited, found) && q.entry !in q.inProcess
    ensures forall c | c in found :: c.id !in q.inProcess
  {
    forall c | c in found ensures c.id !in q.inProcess {
      ReachableIsReady(q, c.id);
    }
  }

  lemma PickedIsSelection(ix: Index, id: Id, level: nat, found: seq<Candidate>, picked: seq<Candidate>,
                          removed: seq<Id>, metric: Metric)
    requires level < |ix.levels| && id in ix.levels[level].links
    requires forall c | c in found :: c.id in ix.levels[level].links && c.id != id && c.id !in ix.inProcess
    requires Splits(found, picked, removed)
    requires if |found| < ix.max then picked == found else Filtered(found, ix.max, metric, picked, removed)
    ensures Selection(ix, id, level, Ids(picked))
  {
    InElems(picked);
    InElems(found);
    forall v | v in Ids(picked) ensures v in ix.levels[level].links && v != id && v !in ix.inProcess {
      var i :| 0 <= i < |picked| && Ids(picked)[i] == v;
      assert picked[i] in found;
    }
  }

  lemma RevisitingFacts(s: State, k: nat)
    requires Orderly(s) && k < |s.inserting| && s.inserting[k].Revisiting?
    ensures InsertionOk(s.tier.ix, s.inserting[k])
    ensures Apart(s.tier.ix, s.inserting[k].level, s.inserting[k].id, s.inserting[k].neighbor)
    ensures s.inserting[k].id in s.inserting[k].toUpdate
  {
    hide Inv, AllDistinct;
    var (ins, ix) := (s.inserting[k], s.tier.ix);
    assert ins.neighbor == Pending(ins)[0];
  }

  lemma GatheringFacts(s: State, k: nat)
    requires Orderly(s) && k < |s.gathering|
    ensures IndexOk(s.tier.ix) && GatherOk(s.tier.ix, s.tier.waiting, s.gathering[k])
    ensures 0 <= s.gathering[k].id < |s.tier.ix.top|
  {
    OrderlyIndex(s);
  }

  lemma LevelInRange(ix: Index, waiting: set<Id>, g: Gather)
    requires IndexOk(ix) && GatherOk(ix, waiting, g) && g.Asking?
    ensures g.level < |ix.levels|
  {
    LevelIsThere(ix, g.id, g.level);
  }

  lemma FoundAreInside(ix: Index, waiting: set<Id>, g: Gather)
    requires GatherOk(ix, waiting, g)
    ensures forall i | 0 <= i < |g.found| :: 0 <= g.found[i].0 < |ix.top|
  {
  }

  lemma OrderlyJobs(s: State)
    requires Orderly(s)
    ensures JobsOk(s.tier.jobs, |s.tier.ix.top|)
  {
  }

  lemma PlanIsMade(s: State, i: nat, toUpdate: seq<Id>, chosen: seq<Id>)
    requires Orderly(s) && i < |s.tier.flying| && MayRepair(s.tier.ix, s.tier.flying[i], Plan(toUpdate, chosen))
    ensures var f := s.tier.flying[i];
      var after := s.(tier := s.tier.(flying := s.tier.flying[i := Planned(f.node, f.level, f.targets, toUpdate, chosen)]));
      Orderly(after) && Did(s, Interleaving.Repair(i, Plan(toUpdate, chosen)), after)
  {
    hide Orderly, IndexOk, FlightOk;
    FlightFacts(s, i);
    StepKeeps(s, Interleaving.Repair(i, Plan(toUpdate, chosen)));
  }

  lemma UpdateIsDone(s: State, k: nat, after: Index)
    requires Orderly(s) && k < |s.inserting| && s.inserting[k].Revisiting?
    requires var ins := s.inserting[k];
      Reconsidered(s.tier.ix, after, ins.level, ins.id, ins.neighbor, ins.toUpdate, ins.chosen)
    ensures var (ins, step) := (s.inserting[k], Insert(k, InsertStep.UpdateNeighbor(after)));
      var next := s.(tier := s.tier.(ix := after), inserting := s.inserting[k := Connecting(ins.id, ins.level, ins.rest)]);
      Orderly(next) && Did(s, step, next)
  {
    hide Orderly, IndexOk, Reconsidered;
    RevisitingFacts(s, k);
    StepKeeps(s, Insert(k, InsertStep.UpdateNeighbor(after)));
  }

  lemma FlightFacts(s: State, i: nat)
    requires Orderly(s) && i < |s.tier.flying|
    ensures IndexOk(s.tier.ix) && FlightOk(s.tier.ix, s.tier.flying[i])
  {
    OrderlyIndex(s);
  }
}

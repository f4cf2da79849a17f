/** The sections of one thread carried out on the index one after the other, with nothing in between. */
module UndisturbedThreads {
  import opened Seqs
  import opened LevelGraphs
  import opened NeighborSelection
  import opened GraphSearch
  import opened IndexModel
  import opened TieredJobs
  import opened LabelLookup
  import opened HnswIndexes
  import opened TieredIndexes
  import opened GraphSteps
  import opened Workers
  import opened Interleaving
  import opened Threads
  import opened Undisturbed
  import Connect
  import Repair

  // ----- A collection -----

  /** Collects the edges to a marked element, level by level. */
  method CollectEdges(shared: SharedIndex, k: nat)
    requires shared.Valid() && k < |shared.gathering| && shared.gathering[k] == Gathering(shared.gathering[k].id, 0, [])
    modifies shared`gathering
    ensures shared.Valid() && |shared.gathering| == |old(shared.gathering)| && shared.gathering[k].Gathering?
    ensures !HasLevel(shared.tiered.hnsw.View(), shared.gathering[k].id, shared.gathering[k].level)
    ensures shared.gathering[k].id == old(shared.gathering[k].id)
    ensures InEdgesOf(shared.tiered.hnsw.View(), shared.gathering[k].id, shared.gathering[k].found)
  {
    hide Orderly, IndexOk, HnswIndexes.Views, HnswIndex.GraphOk, HnswIndex.BooksOk, InEdgesOf, ExactSoFar, Did;
    ghost var ix := shared.tiered.hnsw.View();
    var id := shared.gathering[k].id;
    OrderlyWorkers(shared.Now());
    NothingFound(ix, id);
    while shared.gathering[k].level <= shared.tiered.hnsw.top[id]
      invariant shared.Valid() && |shared.gathering| == |old(shared.gathering)| && shared.gathering[k].Gathering?
      invariant shared.gathering[k].id == id && ExactSoFar(ix, shared.gathering[k])
      decreases shared.tiered.hnsw.top[id] + 1 - shared.gathering[k].level
    {
      CollectLevel(shared, k);
    }
    OrderlyWorkers(shared.Now());
    AllFound(ix, shared.waiting, shared.gathering[k]);
  }

  lemma NothingFound(ix: Index, id: Id)
    ensures ExactSoFar(ix, Gathering(id, 0, []))
  {
  }

  lemma AllFound(ix: Index, waiting: set<Id>, g: Gather)
    requires IndexOk(ix) && GatherOk(ix, waiting, g) && g.Gathering? && 0 <= g.id < |ix.top| && g.level > ix.top[g.id]
    requires ExactSoFar(ix, g)
    ensures InEdgesOf(ix, g.id, g.found)
  {
    hide IndexOk, Edge;
    AllCollected(ix, waiting, g);
  }

  /** One level of the collection: the links are copied and asked one by one, and then the record is read. */
  method CollectLevel(shared: SharedIndex, k: nat)
    requires shared.Valid() && k < |shared.gathering| && shared.gathering[k].Gathering?
    requires HasLevel(shared.tiered.hnsw.View(), shared.gathering[k].id, shared.gathering[k].level)
    requires ExactSoFar(shared.tiered.hnsw.View(), shared.gathering[k])
    modifies shared`gathering
    ensures shared.Valid() && |shared.gathering| == |old(shared.gathering)| && shared.gathering[k].Gathering?
    ensures shared.gathering[k].id == old(shared.gathering[k].id)
    ensures shared.gathering[k].level == old(shared.gathering[k].level) + 1
    ensures ExactSoFar(shared.tiered.hnsw.View(), shared.gathering[k])
  {
    hide Orderly, IndexOk, HnswIndexes.Views, HnswIndex.GraphOk, HnswIndex.BooksOk, ExactSoFar, Did, HasLevel;
    ghost var ix, s := shared.tiered.hnsw.View(), shared.Now();
    OrderlyWorkers(s);
    shared.CopyLinks(k);
    CollectStepDone(s, k, GatherStep.CopyLinks, shared.Now());
    while shared.gathering[k].left != {}
      invariant shared.Valid() && |shared.gathering| == |old(shared.gathering)| && shared.gathering[k].Asking?
      invariant shared.gathering[k].id == old(shared.gathering[k].id)
      invariant shared.gathering[k].level == old(shared.gathering[k].level)
      invariant ExactSoFar(ix, shared.gathering[k])
      decreases shared.gathering[k].left
    {
      NotEmpty(shared.gathering[k].left);
      var u :| u in shared.gathering[k].left;
      s := shared.Now();
      shared.Ask(k, u);
      CollectStepDone(s, k, GatherStep.Ask(u), shared.Now());
    }
    s := shared.Now();
    shared.ReadRecord(k);
    CollectStepDone(s, k, GatherStep.ReadRecord, shared.Now());
  }

  lemma CollectStepDone(s: State, k: nat, step: GatherStep, after: State)
    requires Did(s, Collect(k, step), after) && k < |s.gathering| && ExactSoFar(s.tier.ix, s.gathering[k])
    ensures after.tier == s.tier && |after.gathering| == |s.gathering| && after.gathering[k].id == s.gathering[k].id
    ensures ExactSoFar(s.tier.ix, after.gathering[k])
    ensures step.CopyLinks? ==> after.gathering[k].Asking? && after.gathering[k].level == s.gathering[k].level
    ensures step.Ask? ==> s.gathering[k].Asking? && after.gathering[k] == s.gathering[k].(
                            left := s.gathering[k].left - {step.neighbor}, found := after.gathering[k].found)
    ensures step.ReadRecord? ==> after.gathering[k].Gathering? && after.gathering[k].level == s.gathering[k].level + 1
  {
    hide Orderly, Enabled, Apply, ExactSoFar, IndexOk, Edge;
    CollectStep(s, k, step);
    ExactStep(s.tier.ix, s.tier.waiting, s.gathering[k], step);
  }

  // ----- A repair -----

  /** Carries out a repair job that was taken from the queue: it reads, plans and rewires. */
  method RunRepair(shared: SharedIndex, i: nat)
    requires shared.Valid() && i < |shared.flying| && shared.flying[i].Popped?
    modifies shared`flying, shared.tiered.hnsw.levels
    ensures shared.Valid() && shared.flying == old(shared.flying)[..i] + old(shared.flying)[i + 1..]
    ensures RowRepaired(old(shared.tiered.hnsw.View()), shared.tiered.hnsw.View(), old(shared.flying)[i].node,
                        old(shared.flying)[i].level, shared.tiered.hnsw.ElementMetric())
  {
    hide Orderly, IndexOk, HnswIndexes.Views, HnswIndex.GraphOk, HnswIndex.BooksOk, Did, CandidatesSoFar, RowRepaired,
      Repair.Picked, Rewired, Edge;
    var u, level, count := shared.flying[i].node, shared.flying[i].level, |shared.flying|;
    ghost var s, f := shared.Now(), shared.flying[i];
    OrderlyWorkers(s);
    shared.ReadLinks(i);
    if |shared.flying| < count {
      NothingToRepair(s.tier.ix, f, shared.tiered.hnsw.ElementMetric());
      return;
    }
    LinksReadDone(s, i, shared.Now());
    ReadRows(shared, i, u, level);
    var order := SeqOf(shared.flying[i].cands);
    ghost var r := shared.Now();
    var toUpdate, chosen := shared.MakePlan(i, order);
    PlanDone(r, i, toUpdate, chosen, shared.Now(), u, level);
    ghost var planned := shared.Now();
    shared.Rewire(i);
    RewireDone(r, planned, i, toUpdate, chosen, shared.Now(), u, level, shared.tiered.hnsw.ElementMetric());
  }

  /** Reads the rows of the deleted neighbours that are left. */
  method ReadRows(shared: SharedIndex, i: nat, ghost u: Id, ghost level: nat)
    requires shared.Valid() && i < |shared.flying|
    requires CandidatesSoFar(shared.tiered.hnsw.View(), shared.flying[i], u, level) && shared.flying[i].targets != {}
    modifies shared`flying
    ensures shared.Valid() && |shared.flying| == |old(shared.flying)|
    ensures shared.flying == old(shared.flying)[i := shared.flying[i]]
    ensures CandidatesSoFar(shared.tiered.hnsw.View(), shared.flying[i], u, level)
    ensures shared.flying[i].Reading? && shared.flying[i].left == {} && shared.flying[i].targets != {}
    ensures shared.flying[i].node == u && shared.flying[i].level == level
  {
    hide Orderly, IndexOk, HnswIndexes.Views, HnswIndex.GraphOk, HnswIndex.BooksOk, Did, CandidatesSoFar;
    ghost var ix := shared.tiered.hnsw.View();
    IsReading(ix, shared.flying[i], u, level);
    while shared.flying[i].left != {}
      invariant shared.Valid() && |shared.flying| == |old(shared.flying)|
      invariant shared.flying == old(shared.flying)[i := shared.flying[i]]
      invariant shared.flying[i].Reading? && shared.flying[i].targets != {}
      invariant CandidatesSoFar(ix, shared.flying[i], u, level)
      decreases shared.flying[i].left
    {
      NotEmpty(shared.flying[i].left);
      var d :| d in shared.flying[i].left;
      ghost var s := shared.Now();
      shared.ReadNeighbor(i, d);
      ReadNeighborDone(s, i, d, shared.Now(), u, level);
    }
    IsReading(ix, shared.flying[i], u, level);
  }

  lemma IsReading(ix: Index, f: Flight, u: Id, level: nat)
    requires CandidatesSoFar(ix, f, u, level)
    ensures f.Reading? && f.node == u && f.level == level
  {
  }

  lemma NothingToRepair(ix: Index, f: Flight, metric: Metric)
    requires IndexOk(ix) && FlightOk(ix, f) && forall d | d in ix.deleted :: !Edge(ix, f.level, f.node, d)
    ensures RowRepaired(ix, ix, f.node, f.level, metric)
  {
    hide Repair.Repaired;
    LevelIsThere(ix, f.node, f.level);
    assert LevelOk(ix, f.level);
    var row := Elems(ix.levels[f.level].links[f.node]);
    assert row * ix.deleted == {} by {
      forall d ensures d !in row * ix.deleted {
        assert d in row <==> Edge(ix, f.level, f.node, d);
      }
    }
    Repair.NothingRepaired(ix.levels[f.level], f.node, ix.deleted, ix.inProcess, Cap(ix.max, f.level), metric);
  }

  lemma LinksReadDone(s: State, i: nat, after: State)
    requires Did(s, Interleaving.Repair(i, RepairStep.ReadLinks), after) && i < |s.tier.flying| && s.tier.flying[i].Popped?
    requires |after.tier.flying| == |s.tier.flying|
    requires exists d :: d in s.tier.ix.deleted && Edge(s.tier.ix, s.tier.flying[i].level, s.tier.flying[i].node, d)
    ensures after.tier.flying == s.tier.flying[i := after.tier.flying[i]]
    ensures CandidatesSoFar(s.tier.ix, after.tier.flying[i], s.tier.flying[i].node, s.tier.flying[i].level)
    ensures after.tier.flying[i].targets != {}
  {
    hide Orderly, Enabled, Apply, IndexOk, FlightOk, RepairNext;
    var f, ix := s.tier.flying[i], s.tier.ix;
    ReadStep(s, i, RepairStep.ReadLinks);
    LinksRead(ix, f);
    RowInLevel(ix, f.level, f.node);
    var d :| d in ix.deleted && Edge(ix, f.level, f.node, d);
    assert d in Elems(ix.levels[f.level].links[f.node]) * ix.deleted;
    assert d in after.tier.flying[i].targets;
  }

  lemma ReadNeighborDone(s: State, i: nat, d: Id, after: State, u: Id, level: nat)
    requires Did(s, Interleaving.Repair(i, RepairStep.ReadNeighbor(d)), after) && i < |s.tier.flying|
    requires CandidatesSoFar(s.tier.ix, s.tier.flying[i], u, level)
    ensures |after.tier.flying| == |s.tier.flying| && after.tier.flying == s.tier.flying[i := after.tier.flying[i]]
    ensures CandidatesSoFar(s.tier.ix, after.tier.flying[i], u, level) && after.tier.flying[i].Reading?
    ensures after.tier.flying[i].left == s.tier.flying[i].left - {d}
    ensures after.tier.flying[i].targets == s.tier.flying[i].targets && d in s.tier.flying[i].left
  {
    hide Orderly, Enabled, Apply, IndexOk, FlightOk;
    ReadStep(s, i, RepairStep.ReadNeighbor(d));
    NeighborRead(s.tier.ix, s.tier.flying[i], d, u, level);
  }

  lemma PlanDone(s: State, i: nat, toUpdate: seq<Id>, chosen: seq<Id>, after: State, u: Id, level: nat)
    requires Did(s, Interleaving.Repair(i, Plan(toUpdate, chosen)), after) && i < |s.tier.flying|
    requires CandidatesSoFar(s.tier.ix, s.tier.flying[i], u, level)
    ensures after.tier.ix == s.tier.ix && MayRepair(s.tier.ix, s.tier.flying[i], Plan(toUpdate, chosen))
    ensures after.tier.flying
         == s.tier.flying[i := Planned(u, level, s.tier.flying[i].targets, toUpdate, chosen)]
  {
    hide Orderly, Enabled, Apply, IndexOk, FlightOk;
    ReadStep(s, i, Plan(toUpdate, chosen));
  }

  lemma RewireDone(r: State, planned: State, i: nat, toUpdate: seq<Id>, chosen: seq<Id>, after: State, u: Id, level: nat,
                   metric: Metric)
    requires IndexOk(r.tier.ix) && i < |r.tier.flying| && CandidatesSoFar(r.tier.ix, r.tier.flying[i], u, level)
    requires r.tier.flying[i].left == {} && r.tier.flying[i].targets != {}
    requires MayRepair(r.tier.ix, r.tier.flying[i], Plan(toUpdate, chosen)) && planned.tier.ix == r.tier.ix
    requires Repair.Picked(r.tier.flying[i].cands, u, Cap(r.tier.ix.max, level), metric, chosen)
    requires planned.tier.flying == r.tier.flying[i := Planned(u, level, r.tier.flying[i].targets, toUpdate, chosen)]
    requires Did(planned, Interleaving.Rewire(i, after.tier.ix), after)
    ensures RowRepaired(r.tier.ix, after.tier.ix, u, level, metric)
  {
    hide Orderly, Enabled, Apply, IndexOk, RowRepaired, Rewired, Repair.Picked, Repair.RepairCandidates, MayRepair;
    RewireStep(planned, i, after.tier.ix);
    AllRead(r.tier.ix, r.tier.flying[i], u, level);
    PlanCarriedOut(r.tier.ix, r.tier.flying[i], u, level, toUpdate, chosen, after.tier.ix, metric);
  }

  // ----- An insertion at one level -----

  /**
   * Connects an element at one level: searches it, goes through the neighbours selected, updates the full ones,
   * and returns where the search of the level below starts.
   */
  method RunLevel(shared: SharedIndex, k: nat, level: nat, start: Id, blob: Blob) returns (next: Id)
    requires shared.Valid() && k < |shared.inserting| && shared.inserting[k].Climbing? && level < shared.inserting[k].level
    requires HasLevel(shared.tiered.hnsw.View(), start, level) && start !in shared.tiered.hnsw.inProcess
    requires HasLevel(shared.tiered.hnsw.View(), shared.inserting[k].id, level)
    requires 0 <= shared.inserting[k].id < |shared.tiered.hnsw.blobs|
    requires blob == shared.tiered.hnsw.blobs[shared.inserting[k].id]
    modifies shared`inserting, shared.tiered.hnsw.levels
    ensures shared.Valid()
    ensures shared.inserting == old(shared.inserting)[k := Climbing(old(shared.inserting)[k].id, level)]
    ensures LevelJoined(old(shared.tiered.hnsw.View()), shared.tiered.hnsw.View(), shared.tiered.hnsw.Quest(start, blob),
                        old(shared.inserting)[k].id, level, start, next, shared.tiered.hnsw.ElementMetric())
    ensures forall l | 0 <= l < |shared.tiered.hnsw.View().levels| && l != level ::
              shared.tiered.hnsw.View().levels[l] == old(shared.tiered.hnsw.View()).levels[l]
    ensures HasLevel(shared.tiered.hnsw.View(), next, level) && next !in shared.tiered.hnsw.inProcess
  {
    hide Orderly, IndexOk, HnswIndexes.Views, HnswIndex.GraphOk, HnswIndex.BooksOk, Did, SelectedFor, LevelJoined,
      ConnectedSoFar, Found, SelectedFrom, Chosen, NoDup;
    var hnsw, id := shared.tiered.hnsw, shared.inserting[k].id;
    ghost var s, ix0 := shared.Now(), hnsw.View();
    var selected;
    selected, next := shared.FindNeighbors(k, level, start, blob);
    ghost var found, picked := FoundAndPicked(hnsw, id, level, start, blob, selected, next);
    assert hnsw.SearchAt(level, start, blob, hnsw.ef) == SearchOf(ix0, level, hnsw.Quest(start, blob), start);
    SelectDone(s, k, level, selected, picked, shared.Now(), hnsw.ElementMetric());
    if selected != [] {
      ConnectAll(shared, k, id, level, ix0, picked);
    }
    ghost var mid := shared.Now();
    shared.EndLevel(k);
    EndDone(mid, k, shared.Now());
    LevelIsJoined(ix0, hnsw.View(), mid.inserting[k], hnsw.Quest(start, blob), id, level, start, found, picked, next,
                  hnsw.ElementMetric());
  }

  /** What was found, and the candidates behind the selected ids. */
  lemma FoundAndPicked(hnsw: HnswIndex, id: Id, level: nat, start: Id, blob: Blob, selected: seq<Id>, next: Id)
    returns (found: seq<Candidate>, picked: seq<Candidate>)
    requires hnsw.Valid() && SelectedFor(hnsw, level, start, blob, selected, next)
    requires 0 <= id < |hnsw.blobs| && hnsw.blobs[id] == blob
    ensures level < |hnsw.levels| && exists visited :: Found(hnsw.SearchAt(level, start, blob, hnsw.ef), visited, found)
    ensures Ids(picked) == selected && (selected == [] <==> found == [])
    ensures SelectedFrom(hnsw.SearchAt(level, start, blob, hnsw.ef), found, hnsw.max, hnsw.ElementMetric(), selected, next)
    ensures found != [] ==> Chosen(found, hnsw.max, hnsw.ElementMetric(), picked)
    ensures forall i | 0 <= i < |picked| :: picked[i].dist == hnsw.ElementMetric()(id, picked[i].id)
  {
    hide Found, HnswIndex.BooksOk;
    var q := hnsw.SearchAt(level, start, blob, hnsw.ef);
    var visited: set<Id>, seen: seq<Candidate> :|
      Found(q, visited, seen) && SelectedFrom(q, seen, hnsw.max, hnsw.ElementMetric(), selected, next);
    found, picked := seen, [];
    if found != [] {
      picked :| Chosen(found, hnsw.max, hnsw.ElementMetric(), picked) && selected == Ids(picked);
      ChosenDistances(q, visited, found, hnsw.max, hnsw.ElementMetric(), picked);
      PickedAreNodes(q, visited, found, picked);
      forall i | 0 <= i < |picked| ensures picked[i].dist == hnsw.ElementMetric()(id, picked[i].id) {
        NodesHaveVectors(hnsw, level, picked[i].id);
      }
    }
  }

  lemma PickedAreNodes(q: Search, visited: set<Id>, found: seq<Candidate>, picked: seq<Candidate>)
    requires Found(q, visited, found) && Elems(picked) <= Elems(found)
    ensures forall i | 0 <= i < |picked| :: picked[i].id in q.links
  {
    InElems(found);
    forall i | 0 <= i < |picked| ensures picked[i].id in q.links {
      assert picked[i] in Elems(picked);
    }
  }

  /** Goes through the selected neighbours. */
  method ConnectAll(shared: SharedIndex, k: nat, id: Id, ghost level: nat, ghost ix0: Index, ghost selected: seq<Candidate>)
    requires shared.Valid() && k < |shared.inserting| && 0 <= id < |shared.tiered.hnsw.blobs|
    requires NoDup(Ids(selected))
    requires forall i | 0 <= i < |selected| :: selected[i].dist == shared.tiered.hnsw.ElementMetric()(id, selected[i].id)
    requires ConnectedSoFar(ix0, shared.tiered.hnsw.View(), shared.inserting[k], id, level, selected, 0,
                            shared.tiered.hnsw.ElementMetric())
    modifies shared`inserting, shared.tiered.hnsw.levels
    ensures shared.Valid() && |shared.inserting| == |old(shared.inserting)|
    ensures shared.inserting == old(shared.inserting)[k := Connecting(id, level, [])]
    ensures ConnectedSoFar(ix0, shared.tiered.hnsw.View(), shared.inserting[k], id, level, selected, |selected|,
                           shared.tiered.hnsw.ElementMetric())
  {
    hide Orderly, IndexOk, HnswIndexes.Views, HnswIndex.GraphOk, HnswIndex.BooksOk, Did, ConnectedSoFar, DecidedFor,
      DecidedBy, NoDup;
    ghost var n, metric := 0, shared.tiered.hnsw.ElementMetric();
    SoFarShape(ix0, shared.tiered.hnsw.View(), shared.inserting[k], id, level, selected, n, metric);
    while shared.inserting[k].Revisiting? || shared.inserting[k].rest != []
      invariant shared.Valid() && |shared.inserting| == |old(shared.inserting)|
      invariant shared.inserting == old(shared.inserting)[k := shared.inserting[k]]
      invariant ConnectedSoFar(ix0, shared.tiered.hnsw.View(), shared.inserting[k], id, level, selected, n, metric)
      invariant !shared.inserting[k].Climbing? && shared.inserting[k].id == id && shared.inserting[k].level == level
      invariant n <= |selected| && Pending(shared.inserting[k]) == Ids(selected)[n..]
      decreases |selected| - n, if shared.inserting[k].Revisiting? then 0 else 1
    {
      ghost var s := shared.Now();
      if shared.inserting[k].Revisiting? {
        shared.UpdateNeighbor(k);
        UpdateSoFar(ix0, s, k, shared.Now(), id, level, selected, n, metric);
        n := n + 1;
      } else {
        ghost var step := shared.ConnectNext(k);
        if step.Decide? {
          DecidedByMetric(shared, s, k, step);
        }
        ConnectSoFar(ix0, s, k, step, shared.Now(), id, level, selected, n, metric);
        n := if step.Decide? then n else n + 1;
      }
      SoFarShape(ix0, shared.tiered.hnsw.View(), shared.inserting[k], id, level, selected, n, metric);
    }
    assert n == |selected|;
  }

  lemma SoFarShape(ix0: Index, ix: Index, ins: Insertion, id: Id, level: nat, selected: seq<Candidate>, n: nat,
                   metric: Metric)
    requires ConnectedSoFar(ix0, ix, ins, id, level, selected, n, metric)
    ensures !ins.Climbing? && ins.id == id && ins.level == level && n <= |selected| && Pending(ins) == Ids(selected)[n..]
  {
  }

  /** A decision by the distances between the vectors is one by the metric. */
  lemma DecidedByMetric(shared: SharedIndex, s: State, k: nat, step: InsertStep)
    requires shared.Valid() && step.Decide? && Did(s, Insert(k, step), shared.Now())
    requires k < |s.inserting| && s.inserting[k].Connecting? && s.inserting[k].rest != []
    requires DecidedFor(shared.tiered.hnsw, s.inserting[k].id, s.inserting[k].level, s.inserting[k].rest[0], step.toUpdate,
                        step.chosen)
    ensures var ins := s.inserting[k];
      && ins.level < |s.tier.ix.levels| && ins.rest[0] in s.tier.ix.levels[ins.level].links
      && DecidedBy(s.tier.ix.levels[ins.level].links[ins.rest[0]], ins.id, ins.rest[0], step.toUpdate, step.chosen,
                   shared.tiered.hnsw.ElementMetric())
  {
    hide Orderly, IndexOk, Connect.Competed, HnswIndex.Valid;
    ConnectStep(s, k, step);
  }

  lemma UpdateSoFar(ix0: Index, s: State, k: nat, after: State, id: Id, level: nat, selected: seq<Candidate>, n: nat,
                    metric: Metric)
    requires Did(s, Insert(k, InsertStep.UpdateNeighbor(after.tier.ix)), after) && k < |s.inserting|
    requires s.inserting[k].Revisiting? && ConnectedSoFar(ix0, s.tier.ix, s.inserting[k], id, level, selected, n, metric)
    requires NoDup(Ids(selected)) && forall i | 0 <= i < |selected| :: selected[i].dist == metric(id, selected[i].id)
    ensures |after.inserting| == |s.inserting| && after.inserting == s.inserting[k := after.inserting[k]]
    ensures ConnectedSoFar(ix0, after.tier.ix, after.inserting[k], id, level, selected, n + 1, metric)
  {
    hide Orderly, Enabled, Apply, IndexOk, ConnectedSoFar, InsertionOk, MayInsert, InsertGraph, InsertNext;
    var step := InsertStep.UpdateNeighbor(after.tier.ix);
    ConnectStep(s, k, step);
    SoFarStep(ix0, s.tier.ix, s.inserting[k], step, id, level, selected, n, metric);
  }

  lemma ConnectSoFar(ix0: Index, s: State, k: nat, step: InsertStep, after: State, id: Id, level: nat,
                     selected: seq<Candidate>, n: nat, metric: Metric)
    requires Did(s, Insert(k, step), after) && (step.ConnectNext? || step.Decide?) && k < |s.inserting|
    requires s.inserting[k].Connecting? && s.inserting[k].rest != []
    requires ConnectedSoFar(ix0, s.tier.ix, s.inserting[k], id, level, selected, n, metric)
    requires NoDup(Ids(selected)) && forall i | 0 <= i < |selected| :: selected[i].dist == metric(id, selected[i].id)
    requires step.Decide? ==>
               && level < |s.tier.ix.levels| && s.inserting[k].rest[0] in s.tier.ix.levels[level].links
               && DecidedBy(s.tier.ix.levels[level].links[s.inserting[k].rest[0]], id, s.inserting[k].rest[0],
                            step.toUpdate, step.chosen, metric)
    ensures |after.inserting| == |s.inserting| && after.inserting == s.inserting[k := after.inserting[k]]
    ensures ConnectedSoFar(ix0, after.tier.ix, after.inserting[k], id, level, selected, if step.Decide? then n else n + 1,
                           metric)
    ensures after.inserting[k].Revisiting? <==> step.Decide?
  {
    hide Orderly, Enabled, Apply, IndexOk, ConnectedSoFar, InsertionOk, MayInsert, InsertGraph, DecidedBy;
    ConnectStep(s, k, step);
    SoFarStep(ix0, s.tier.ix, s.inserting[k], step, id, level, selected, n, metric);
  }

  lemma SelectDone(s: State, k: nat, level: nat, selected: seq<Id>, picked: seq<Candidate>, after: State, metric: Metric)
    requires Did(s, Insert(k, Select(level, selected)), after) && k < |s.inserting| && Ids(picked) == selected
    ensures |after.inserting| == |s.inserting| && after.tier.ix == s.tier.ix
    ensures after.inserting == s.inserting[k := Connecting(s.inserting[k].id, level, selected)] && NoDup(Ids(picked))
    ensures ConnectedSoFar(s.tier.ix, after.tier.ix, after.inserting[k], s.inserting[k].id, level, picked, 0, metric)
  {
    hide Orderly, Enabled, Apply, IndexOk, ConnectedSoFar, InsertionOk;
    ConnectStep(s, k, Select(level, selected));
    NothingConnected(s.tier.ix, s.inserting[k], level, picked, metric);
  }

  lemma EndDone(s: State, k: nat, after: State)
    requires Did(s, Insert(k, InsertStep.EndLevel), after)
    ensures after.tier.ix == s.tier.ix
  {
    hide Orderly, IndexOk;
    ConnectStep(s, k, InsertStep.EndLevel);
  }

  /** With all selected neighbours gone through, the level is as the whole insertion leaves it. */
  lemma LevelIsJoined(ix0: Index, ix: Index, ins: Insertion, s: Search, id: Id, level: nat, start: Id,
                      found: seq<Candidate>, picked: seq<Candidate>, next: Id, metric: Metric)
    requires ConnectedSoFar(ix0, ix, ins, id, level, picked, |picked|, metric) && s.deleted == ix0.deleted
    requires exists visited :: Found(SearchOf(ix0, level, s, start), visited, found)
    requires SelectedFrom(SearchOf(ix0, level, s, start), found, ix0.max, metric, Ids(picked), next)
    requires if found == [] then ix == ix0 else Chosen(found, ix0.max, metric, picked)
    ensures LevelJoined(ix0, ix, s, id, level, start, next, metric)
    ensures forall l | 0 <= l < |ix.levels| && l != level :: ix.levels[l] == ix0.levels[l]
  {
    hide Connect.Connected, Chosen, Found;
    assert picked[..|picked|] == picked;
    assert ConnectedToFound(ix0.levels[level], ix.levels[level], SearchOf(ix0, level, s, start), found, id, ix0.max,
                            Cap(ix0.max, level), metric, next);
  }

  // ----- A whole insertion -----

  /** The element was connected at the levels from `level` up to `common`, each level by its own sections. */
  ghost predicate Climbed(ix0: Index, ix: Index, s: Search, id: Id, level: int, common: nat, path: seq<Id>, metric: Metric) {
    && 0 <= level <= common + 1 && |path| == common + 2 - level
    && ix == ix0.(levels := ix.levels) && |ix.levels| == |ix0.levels|
    && (forall l | 0 <= l < |ix.levels| && (l < level || l > common) :: ix.levels[l] == ix0.levels[l])
    && JoinedAlong(ix0, ix, s, id, common, path, metric)
  }

  /** Connects a stored element at all its levels and lifts its mark. */
  method RunInsertion(shared: SharedIndex, k: nat, entryPoint: Id, high: nat, blob: Blob)
    requires shared.Valid() && k < |shared.inserting| && 0 <= shared.inserting[k].id < |shared.tiered.hnsw.blobs|
    requires shared.inserting[k].id < |shared.tiered.hnsw.top|
    requires shared.inserting[k] == Climbing(shared.inserting[k].id, shared.tiered.hnsw.top[shared.inserting[k].id] + 1)
    requires 0 <= entryPoint < |shared.tiered.hnsw.top| && shared.tiered.hnsw.top[entryPoint] == high
    requires entryPoint !in shared.tiered.hnsw.inProcess && blob == shared.tiered.hnsw.blobs[shared.inserting[k].id]
    modifies shared`inserting, shared.tiered.hnsw`inProcess, shared.tiered.hnsw.levels
    ensures shared.Valid() && shared.tiered.hnsw.inProcess == old(shared.tiered.hnsw.inProcess - {shared.inserting[k].id})
    ensures Inserted(old(shared.tiered.hnsw.View()), shared.tiered.hnsw.View(),
                     old(shared.tiered.hnsw.Quest(entryPoint, blob)), old(shared.inserting)[k].id,
                     shared.tiered.hnsw.top[old(shared.inserting)[k].id], high, shared.tiered.hnsw.ElementMetric())
  {
    hide Interleaving.Orderly, IndexOk, HnswIndexes.Views, HnswIndex.BooksOk, Did, LevelJoined, JoinedAlong, DescendsTo,
      Climbed, HnswIndex.DistinctLevels, InsertedAlong;
    var hnsw, id := shared.tiered.hnsw, shared.inserting[k].id;
    ghost var ix0, s := hnsw.View(), hnsw.Quest(entryPoint, blob);
    hnsw.EntryInLevels(entryPoint);
    var curr, common := entryPoint, high;
    if hnsw.top[id] < high {
      common := hnsw.top[id];
      curr := hnsw.Descend(entryPoint, high, common, blob);
    } else {
      NoDescent(ix0, s, high);
    }
    ghost var path := ClimbDown(shared, k, curr, common, blob, s);
    ghost var mid := hnsw.View();
    shared.EndInsert(k);
    ClimbingEnds(ix0, mid, hnsw.View(), s, id, common, high, path, hnsw.ElementMetric());
  }

  /** Level by level from `common` downwards, each from where the one above left off. */
  method ClimbDown(shared: SharedIndex, k: nat, start: Id, common: nat, blob: Blob, ghost s: Search)
    returns (ghost path: seq<Id>)
    requires shared.Valid() && k < |shared.inserting| && 0 <= shared.inserting[k].id < |shared.tiered.hnsw.blobs|
    requires shared.inserting[k].Climbing? && common < shared.inserting[k].level
    requires HasLevel(shared.tiered.hnsw.View(), shared.inserting[k].id, common)
    requires HasLevel(shared.tiered.hnsw.View(), start, common) && start !in shared.tiered.hnsw.inProcess
    requires blob == shared.tiered.hnsw.blobs[shared.inserting[k].id] && s == shared.tiered.hnsw.Quest(s.entry, blob)
    modifies shared`inserting, shared.tiered.hnsw.levels
    ensures shared.Valid() && |shared.inserting| == |old(shared.inserting)| && path != [] && path[0] == start
    ensures shared.inserting[k].Climbing? && shared.inserting[k].id == old(shared.inserting[k].id)
    ensures Climbed(old(shared.tiered.hnsw.View()), shared.tiered.hnsw.View(), s, shared.inserting[k].id, 0, common, path,
                    shared.tiered.hnsw.ElementMetric())
  {
    hide Interleaving.Orderly, IndexOk, HnswIndexes.Views, HnswIndex.BooksOk, HnswIndex.GraphOk, Did, LevelJoined,
      JoinedAlong, Climbed;
    var hnsw, id, curr := shared.tiered.hnsw, shared.inserting[k].id, start;
    ghost var ix0 := hnsw.View();
    path := [start];
    ClimbingStarts(ix0, s, id, common, start, hnsw.ElementMetric());
    for level := common + 1 downto 0
      invariant shared.Valid() && |shared.inserting| == |old(shared.inserting)|
      invariant shared.inserting[k].Climbing? && shared.inserting[k].id == id && shared.inserting[k].level >= level
      invariant path != [] && path[0] == start && curr == path[|path| - 1] && curr !in hnsw.inProcess
      invariant 0 <= curr < |hnsw.top| && hnsw.top[curr] + 1 >= level
      invariant Climbed(ix0, hnsw.View(), s, id, level, common, path, hnsw.ElementMetric())
    {
      ghost var mid := hnsw.View();
      var next := RunLevel(shared, k, level, curr, blob);
      SameQuest(mid, hnsw.View(), s, hnsw.Quest(curr, blob), id, level, curr, next, hnsw.ElementMetric());
      ClimbingStep(ix0, mid, hnsw.View(), s, id, level, common, path, next, hnsw.ElementMetric());
      curr := next;
      path := path + [next];
    }
  }

  lemma ClimbingStarts(ix0: Index, s: Search, id: Id, common: nat, curr: Id, metric: Metric)
    ensures Climbed(ix0, ix0, s, id, common + 1, common, [curr], metric)
  {
  }

  /** It makes no difference what the search started from at other levels. */
  lemma SameQuest(ix: Index, after: Index, s: Search, here: Search, id: Id, level: nat, start: Id, next: Id, metric: Metric)
    requires LevelJoined(ix, after, here, id, level, start, next, metric) && here == s.(entry := start)
    ensures LevelJoined(ix, after, s, id, level, start, next, metric)
  {
    hide ConnectedBySearch;
    assert SearchOf(ix, level, s, start) == SearchOf(ix, level, here, start);
  }

  lemma ClimbingStep(ix0: Index, mid: Index, after: Index, s: Search, id: Id, level: nat, common: nat, path: seq<Id>,
                     next: Id, metric: Metric)
    requires Climbed(ix0, mid, s, id, level + 1, common, path, metric) && after == mid.(levels := after.levels)
    requires LevelJoined(mid, after, s, id, level, path[|path| - 1], next, metric)
    requires forall l | 0 <= l < |after.levels| && l != level :: after.levels[l] == mid.levels[l]
    ensures Climbed(ix0, after, s, id, level, common, path + [next], metric)
  {
    hide ConnectedBySearch, JoinedAlong;
    assert LevelJoined(ix0, after, s, id, level, path[|path| - 1], next, metric);
    JoinedStep(ix0, mid, after, s, id, common, path, next, metric);
  }

  lemma ClimbingEnds(ix0: Index, mid: Index, after: Index, s: Search, id: Id, common: nat, high: nat, path: seq<Id>,
                     metric: Metric)
    requires Climbed(ix0, mid, s, id, 0, common, path, metric) && DescendsTo(ix0, s, high, common, path[0])
    requires after.levels == mid.levels
    ensures InsertedAlong(ix0, after, s, id, common, high, path, metric)
  {
    hide LevelJoined, DescendsTo;
    JoinedSame(ix0, mid, after, s, id, common, path, metric);
  }
}

/**
 * What the locked sections of a thread amount to when no other thread comes in between: a collection finds
 * exactly the edges to its element, a repair and an insertion have the outcome of the whole operation.
 */
module Undisturbed {
  import opened Seqs
  import opened LevelGraphs
  import opened NeighborSelection
  import opened GraphSearch
  import opened IndexModel
  import opened TieredJobs
  import opened RepairScheduling
  import opened HnswIndexes
  import opened GraphSteps
  import opened Workers
  import opened Interleaving
  import Connect
  import Repair

  // ----- A collection -----

  /** The thread collects at position k, and nobody else makes a step. */
  predicate OnlyCollects(steps: seq<Step>, k: nat) {
    forall i | 0 <= i < |steps| :: steps[i].Collect? && steps[i].k == k
  }

  /** What was found so far are edges to the element, each once: below the level, or of neighbours asked. */
  ghost predicate ExactSoFar(ix: Index, g: Gather) {
    && NoDup(g.found)
    && (forall i | 0 <= i < |g.found| :: Edge(ix, g.found[i].1, g.found[i].0, g.id))
    && (forall i | 0 <= i < |g.found| :: g.found[i].1 < g.level
          || (g.found[i].1 == g.level && g.Asking? && g.found[i].0 in g.copy && g.found[i].0 !in g.left))
    && (g.Asking? ==> g.left <= g.copy && forall u :: u in g.copy <==> Edge(ix, g.level, g.id, u))
  }

  lemma CollectStep(s: State, k: nat, step: GatherStep)
    requires Orderly(s) && Enabled(s, Collect(k, step))
    ensures IndexOk(s.tier.ix) && GatherOk(s.tier.ix, s.tier.waiting, s.gathering[k])
    ensures 0 <= s.gathering[k].id < |s.tier.ix.top| && MayGather(s.tier.ix, s.gathering[k], step)
    ensures var after := Apply(s, Collect(k, step));
      && Orderly(after) && after.tier == s.tier
      && after.gathering == s.gathering[k := GatherNext(s.tier.ix, s.tier.waiting, s.gathering[k], step)]
  {
    hide IndexOk, GatherOk, GatherNext, Inv;
    StepKeeps(s, Collect(k, step));
    OrderlyWorkers(s);
  }

  lemma OrderlyWorkers(s: State)
    requires Orderly(s)
    ensures IndexOk(s.tier.ix)
    ensures forall k | 0 <= k < |s.gathering| ::
              GatherOk(s.tier.ix, s.tier.waiting, s.gathering[k]) && 0 <= s.gathering[k].id < |s.tier.ix.top|
    ensures forall k | 0 <= k < |s.inserting| :: InsertionOk(s.tier.ix, s.inserting[k])
    ensures forall i | 0 <= i < |s.tier.flying| :: FlightOk(s.tier.ix, s.tier.flying[i])
  {
    hide IndexOk, InsertionOk, FlightOk, AllDistinct;
    InvIndex(s.tier);
  }

  lemma ExactStep(ix: Index, waiting: set<Id>, g: Gather, step: GatherStep)
    requires IndexOk(ix) && GatherOk(ix, waiting, g) && MayGather(ix, g, step) && ExactSoFar(ix, g)
    ensures ExactSoFar(ix, GatherNext(ix, waiting, g, step))
  {
    hide IndexOk, Edge, AtLevel;
    match step
    case CopyLinks =>
      LevelIsThere(ix, g.id, g.level);
    case Ask(u) =>
    case ReadRecord =>
      ExactRecord(ix, waiting, g);
  }

  /** The record has the edges that are not answered, so none of those that were found by asking. */
  lemma ExactRecord(ix: Index, waiting: set<Id>, g: Gather)
    requires IndexOk(ix) && GatherOk(ix, waiting, g) && g.Asking? && g.left == {} && ExactSoFar(ix, g)
    ensures g.level < |ix.levels| && g.id in ix.levels[g.level].incoming
    ensures ExactSoFar(ix, Gathering(g.id, g.level + 1, g.found + AtLevel(ix.levels[g.level].incoming[g.id], g.level)))
  {
    hide IndexOk, Edge, AtLevel;
    OneWayRecord(ix, g.id, g.level);
    var record := ix.levels[g.level].incoming[g.id];
    var more := AtLevel(record, g.level);
    forall i, j | 0 <= i < |g.found| && 0 <= j < |more| ensures g.found[i] != more[j] {
      assert record[j] in record;
    }
    var found := g.found + more;
    forall i | 0 <= i < |found| ensures Edge(ix, found[i].1, found[i].0, g.id) && found[i].1 < g.level + 1 {
      if i >= |g.found| {
        assert record[i - |g.found|] in record;
      }
    }
  }

  lemma OneWayRecord(ix: Index, id: Id, level: nat)
    requires IndexOk(ix) && HasLevel(ix, id, level)
    ensures level < |ix.levels| && id in ix.levels[level].incoming && NoDup(ix.levels[level].incoming[id])
    ensures forall u :: u in ix.levels[level].incoming[id] <==> Edge(ix, level, u, id) && !Edge(ix, level, id, u)
  {
    assert LevelOk(ix, level);
    var g := ix.levels[level];
    ExactAt(g, id);
    EdgesInLevel(g, Cap(ix.max, level));
    forall u ensures u in g.incoming[id] <==> Edge(ix, level, u, id) && !Edge(ix, level, id, u) {
      assert Link(g, u, id) ==> u in g.links;
    }
  }

  lemma {:induction false} CollectingIsExact(s: State, k: nat, steps: seq<Step>)
    requires Orderly(s) && Possible(s, steps) && OnlyCollects(steps, k)
    requires k < |s.gathering| && ExactSoFar(s.tier.ix, s.gathering[k])
    ensures var r := Run(s, steps);
      && r.tier == s.tier && |r.gathering| == |s.gathering| && r.gathering[k].id == s.gathering[k].id
      && Orderly(r) && ExactSoFar(s.tier.ix, r.gathering[k])
    decreases |steps|
  {
    hide Orderly, Enabled, Apply, ExactSoFar, IndexOk;
    if steps != [] {
      assert steps[0].Collect? && steps[0].k == k;
      var step := steps[0].gatherStep;
      CollectStep(s, k, step);
      ExactStep(s.tier.ix, s.tier.waiting, s.gathering[k], step);
      CollectingIsExact(Apply(s, steps[0]), k, steps[1..]);
    }
  }

  /** A collection with no step of another thread in between finds the edges to its element, each once. */
  lemma CollectsAlone(s: State, k: nat, steps: seq<Step>)
    requires Orderly(s) && Possible(s, steps) && OnlyCollects(steps, k)
    requires k < |s.gathering| && s.gathering[k] == Gathering(s.gathering[k].id, 0, [])
    ensures var (ix, id, r) := (s.tier.ix, s.gathering[k].id, Run(s, steps));
      && r.tier == s.tier && k < |r.gathering| && r.gathering[k].id == id && 0 <= id < |ix.top|
      && (r.gathering[k].Gathering? && r.gathering[k].level > ix.top[id] ==> InEdgesOf(ix, id, r.gathering[k].found))
  {
    hide Orderly, Possible, Run, IndexOk, Edge;
    CollectingIsExact(s, k, steps);
    var r := Run(s, steps);
    OrderlyWorkers(r);
    if r.gathering[k].Gathering? && r.gathering[k].level > s.tier.ix.top[s.gathering[k].id] {
      AllCollected(s.tier.ix, s.tier.waiting, r.gathering[k]);
    }
  }

  // ----- A repair -----

  /** The thread reads the rows of deleted neighbours for the repair at position i, and nobody else makes a step. */
  predicate OnlyReads(steps: seq<Step>, i: nat) {
    forall j | 0 <= j < |steps| :: steps[j].Repair? && steps[j].i == i && steps[j].repairStep.ReadNeighbor?
  }

  /** The candidates so far: the live neighbours, and those of the deleted neighbours that were read. */
  ghost predicate CandidatesSoFar(ix: Index, f: Flight, u: Id, level: nat) {
    && f.Reading? && f.node == u && f.level == level < |ix.levels| && u in ix.levels[level].links
    && var links := ix.levels[level].links;
      && f.row == Elems(links[u]) && f.targets == f.row * ix.deleted && f.left <= f.targets
      && forall v :: v in f.cands <==>
           v in links && v !in ix.deleted && v != u && (v in links[u] || Repair.AnyPointsTo(links, f.targets - f.left, v))
  }

  lemma ReadStep(s: State, i: nat, step: RepairStep)
    requires Orderly(s) && Enabled(s, Interleaving.Repair(i, step))
    ensures IndexOk(s.tier.ix) && FlightOk(s.tier.ix, s.tier.flying[i]) && MayRepair(s.tier.ix, s.tier.flying[i], step)
    ensures var (after, next) := (Apply(s, Interleaving.Repair(i, step)), RepairNext(s.tier.ix, s.tier.flying[i], step));
      && Orderly(after) && after.tier.ix == s.tier.ix
      && (next.Some? ==> after.tier.flying == s.tier.flying[i := next.value])
  {
    hide IndexOk, FlightOk, RepairNext, Inv;
    StepKeeps(s, Interleaving.Repair(i, step));
    OrderlyWorkers(s);
  }

  lemma LinksRead(ix: Index, f: Flight)
    requires IndexOk(ix) && FlightOk(ix, f) && f.Popped?
    ensures f.level < |ix.levels| && f.node in ix.levels[f.level].links
    ensures Elems(ix.levels[f.level].links[f.node]) * ix.deleted != {} ==>
              var next := RepairNext(ix, f, RepairStep.ReadLinks);
              next.Some? && CandidatesSoFar(ix, next.value, f.node, f.level)
  {
    LevelIsThere(ix, f.node, f.level);
    RowInLevel(ix, f.level, f.node);
  }

  lemma RowInLevel(ix: Index, level: nat, u: Id)
    requires IndexOk(ix) && level < |ix.levels| && u in ix.levels[level].links
    ensures forall v | v in Elems(ix.levels[level].links[u]) :: v in ix.levels[level].links && v != u
    ensures forall v :: v in Elems(ix.levels[level].links[u]) <==> v in ix.levels[level].links[u]
  {
    assert LevelOk(ix, level);
    assert RowOk(ix.levels[level].links.Keys, u, ix.levels[level].links[u], Cap(ix.max, level));
    InElems(ix.levels[level].links[u]);
  }

  lemma NeighborRead(ix: Index, f: Flight, d: Id, u: Id, level: nat)
    requires IndexOk(ix) && FlightOk(ix, f) && MayRepair(ix, f, RepairStep.ReadNeighbor(d)) && CandidatesSoFar(ix, f, u, level)
    ensures var next := RepairNext(ix, f, RepairStep.ReadNeighbor(d));
      next.Some? && CandidatesSoFar(ix, next.value, u, level)
  {
    hide IndexOk, Elems, HasLevel;
    LevelIsThere(ix, d, level);
    RowInLevel(ix, level, d);
    var links, read := ix.levels[level].links, f.targets - f.left;
    assert f.targets - (f.left - {d}) == read + {d};
    forall v ensures Repair.AnyPointsTo(links, read + {d}, v) <==> Repair.AnyPointsTo(links, read, v) || v in links[d] {
      if v in links[d] {
        assert d in read + {d};
      }
    }
  }

  lemma {:induction false} ReadingCollects(s: State, i: nat, steps: seq<Step>, u: Id, level: nat)
    requires Orderly(s) && Possible(s, steps) && OnlyReads(steps, i)
    requires i < |s.tier.flying| && CandidatesSoFar(s.tier.ix, s.tier.flying[i], u, level)
    ensures var r := Run(s, steps);
      && r.tier.ix == s.tier.ix && |r.tier.flying| == |s.tier.flying| && Orderly(r)
      && CandidatesSoFar(s.tier.ix, r.tier.flying[i], u, level)
    decreases |steps|
  {
    hide Orderly, Enabled, Apply, CandidatesSoFar, IndexOk, FlightOk, RepairNext;
    if steps != [] {
      assert steps[0].Repair? && steps[0].i == i && steps[0].repairStep.ReadNeighbor?;
      var step := steps[0].repairStep;
      ReadStep(s, i, step);
      NeighborRead(s.tier.ix, s.tier.flying[i], step.neighbor, u, level);
      ReadingCollects(Apply(s, steps[0]), i, steps[1..], u, level);
    }
  }

  function ReadingSteps(i: nat, others: seq<Step>): seq<Step> {
    [Interleaving.Repair(i, RepairStep.ReadLinks)] + others
  }

  function UpdatingSteps(i: nat, toUpdate: seq<Id>, chosen: seq<Id>, after: Index): seq<Step> {
    [Interleaving.Repair(i, Plan(toUpdate, chosen)), Interleaving.Rewire(i, after)]
  }

  /** With all rows read one after the other, the candidates are those of the whole repair. */
  lemma ReadsAlone(s: State, i: nat, others: seq<Step>, u: Id, level: nat)
    requires Orderly(s) && i < |s.tier.flying| && s.tier.flying[i] == Popped(u, level) && OnlyReads(others, i)
    requires Possible(s, ReadingSteps(i, others)) && exists d :: d in s.tier.ix.deleted && Edge(s.tier.ix, level, u, d)
    ensures var r := Run(s, ReadingSteps(i, others));
      && r.tier.ix == s.tier.ix && |r.tier.flying| == |s.tier.flying| && Orderly(r)
      && CandidatesSoFar(s.tier.ix, r.tier.flying[i], u, level) && r.tier.flying[i].targets != {}
      && (r.tier.flying[i].left == {} ==>
            r.tier.flying[i].cands == Repair.RepairCandidates(s.tier.ix.levels[level].links, u, s.tier.ix.deleted))
  {
    hide Orderly, Enabled, Apply, IndexOk, FlightOk, RepairNext;
    var first := Interleaving.Repair(i, RepairStep.ReadLinks);
    var steps := ReadingSteps(i, others);
    assert steps[0] == first && steps[1..] == others;
    ReadStep(s, i, RepairStep.ReadLinks);
    LinksRead(s.tier.ix, s.tier.flying[i]);
    RowInLevel(s.tier.ix, level, u);
    var d :| d in s.tier.ix.deleted && Edge(s.tier.ix, level, u, d);
    assert d in Elems(s.tier.ix.levels[level].links[u]) * s.tier.ix.deleted;
    ReadingCollects(Apply(s, first), i, others, u, level);
    var f := Run(s, steps).tier.flying[i];
    assert d in f.targets;
    if f.left == {} {
      AllRead(s.tier.ix, f, u, level);
    }
  }

  lemma AllRead(ix: Index, f: Flight, u: Id, level: nat)
    requires CandidatesSoFar(ix, f, u, level) && f.left == {}
    ensures f.cands == Repair.RepairCandidates(ix.levels[level].links, u, ix.deleted)
  {
    hide Repair.AnyPointsTo;
    assert f.targets - f.left == Elems(ix.levels[level].links[u]) * ix.deleted;
    var cands := Repair.RepairCandidates(ix.levels[level].links, u, ix.deleted);
    assert forall v :: v in f.cands <==> v in cands;
  }

  /**
   * A repair with no step of another thread in between: its reads, a plan that picks among the candidates, and
   * the plan carried out have the outcome of the whole repair.
   */
  lemma RepairsAlone(s: State, i: nat, others: seq<Step>, u: Id, level: nat, toUpdate: seq<Id>, chosen: seq<Id>,
                     after: Index, metric: Metric)
    requires Orderly(s) && i < |s.tier.flying| && s.tier.flying[i] == Popped(u, level) && OnlyReads(others, i)
    requires Possible(s, ReadingSteps(i, others)) && exists d :: d in s.tier.ix.deleted && Edge(s.tier.ix, level, u, d)
    requires var r := Run(s, ReadingSteps(i, others));
      && Orderly(r) && Possible(r, UpdatingSteps(i, toUpdate, chosen, after))
      && i < |r.tier.flying| && r.tier.flying[i].Reading?
      && Repair.Picked(r.tier.flying[i].cands, u, Cap(r.tier.ix.max, level), metric, chosen)
    ensures var done := Run(Run(s, ReadingSteps(i, others)), UpdatingSteps(i, toUpdate, chosen, after));
      RowRepaired(s.tier.ix, done.tier.ix, u, level, metric)
  {
    hide Orderly, Run, Possible, IndexOk, RowRepaired, Edge, ReadingSteps, Repair.Picked, Repair.RepairCandidates;
    ReadsAlone(s, i, others, u, level);
    UpdateAlone(Run(s, ReadingSteps(i, others)), i, u, level, toUpdate, chosen, after, metric);
  }

  lemma UpdateAlone(r: State, i: nat, u: Id, level: nat, toUpdate: seq<Id>, chosen: seq<Id>, after: Index, metric: Metric)
    requires Orderly(r) && Possible(r, UpdatingSteps(i, toUpdate, chosen, after)) && i < |r.tier.flying|
    requires CandidatesSoFar(r.tier.ix, r.tier.flying[i], u, level) && r.tier.flying[i].targets != {}
    requires r.tier.flying[i].left == {} ==>
               r.tier.flying[i].cands == Repair.RepairCandidates(r.tier.ix.levels[level].links, u, r.tier.ix.deleted)
    requires Repair.Picked(r.tier.flying[i].cands, u, Cap(r.tier.ix.max, level), metric, chosen)
    ensures RowRepaired(r.tier.ix, Run(r, UpdatingSteps(i, toUpdate, chosen, after)).tier.ix, u, level, metric)
  {
    hide Orderly, Enabled, IndexOk, FlightOk, RowRepaired, Apply, Run, Possible, Repair.Picked, Repair.RepairCandidates;
    var plan, rewire := Interleaving.Repair(i, Plan(toUpdate, chosen)), Interleaving.Rewire(i, after);
    RunTwo(r, plan, rewire);
    ReadStep(r, i, Plan(toUpdate, chosen));
    RewireStep(Apply(r, plan), i, after);
    PlanCarriedOut(r.tier.ix, r.tier.flying[i], u, level, toUpdate, chosen, after, metric);
  }

  lemma RunTwo(s: State, a: Step, b: Step)
    requires Orderly(s) && Possible(s, [a, b])
    ensures Enabled(s, a) && Orderly(Apply(s, a)) && Enabled(Apply(s, a), b) && Run(s, [a, b]) == Apply(Apply(s, a), b)
  {
    hide Orderly, Enabled, Apply;
    StepKeeps(s, a);
    StepKeeps(Apply(s, a), b);
    assert [a, b][1..] == [b] && [b][1..] == [];
    assert Run(Apply(s, a), [b]) == Run(Apply(Apply(s, a), b), []);
  }

  lemma RewireStep(s: State, i: nat, after: Index)
    requires Orderly(s) && Enabled(s, Interleaving.Rewire(i, after))
    ensures Apply(s, Interleaving.Rewire(i, after)).tier.ix == after
    ensures var f := s.tier.flying[i]; f.Planned? && Rewired(s.tier.ix, after, f.node, f.level, f.toUpdate, f.chosen)
  {
    hide Inv, IndexOk, Rewired;
  }

  lemma PlanCarriedOut(ix: Index, f: Flight, u: Id, level: nat, toUpdate: seq<Id>, chosen: seq<Id>, after: Index,
                       metric: Metric)
    requires IndexOk(ix) && CandidatesSoFar(ix, f, u, level) && MayRepair(ix, f, Plan(toUpdate, chosen))
    requires f.cands == Repair.RepairCandidates(ix.levels[level].links, u, ix.deleted)
    requires Repair.Picked(f.cands, u, Cap(ix.max, level), metric, chosen)
    requires Rewired(ix, after, u, level, toUpdate, chosen) && f.targets != {}
    ensures RowRepaired(ix, after, u, level, metric)
  {
    hide Repair.Repaired, Repair.Picked, Repair.UpdatedRow, Repair.RepairCandidates;
    assert LevelOk(ix, level);
    var g := ix.levels[level];
    RowInLevel(ix, level, u);
    InElems(toUpdate);
    Repair.RepairOutcome(g, after.levels[level].links[u], u, ix.deleted, ix.inProcess, Cap(ix.max, level), metric, true,
                         toUpdate, chosen);
  }

  // ----- An insertion at one level -----

  /** The thread connects its element at position k, and nobody else makes a step. */
  predicate OnlyConnects(steps: seq<Step>, k: nat) {
    forall j | 0 <= j < |steps| :: steps[j].Insert? && steps[j].k == k
      && (steps[j].insertStep.ConnectNext? || steps[j].insertStep.Decide? || steps[j].insertStep.UpdateNeighbor?)
  }

  /** A full row and the new element competed, by their distances; those left out are to be updated. */
  ghost predicate DecidedBy(row: seq<Id>, id: Id, v: Id, toUpdate: seq<Id>, chosen: bool, metric: Metric) {
    exists picked, removed ::
      && Connect.Competed(row, id, metric(id, v), v, metric, picked, removed)
      && (chosen <==> id !in removed) && Elems(toUpdate) == Elems(removed) + {id, v}
  }

  /** The state after a step that was possible. */
  ghost function After(s: State, step: Step): (after: State)
    requires Orderly(s) && Enabled(s, step)
    ensures Orderly(after)
  {
    StepKeeps(s, step);
    Apply(s, step)
  }

  /** Decisions about full neighbours are made by the heuristic. */
  ghost predicate Competes(s: State, k: nat, steps: seq<Step>, metric: Metric)
    requires Orderly(s) && Possible(s, steps) && OnlyConnects(steps, k)
    decreases |steps|
  {
    steps != [] ==>
      && (steps[0].insertStep.Decide? ==>
            (InsertingAt(s, k);
             var ins := s.inserting[k];
             DecidedBy(s.tier.ix.levels[ins.level].links[ins.rest[0]], ins.id, ins.rest[0], steps[0].insertStep.toUpdate,
                       steps[0].insertStep.chosen, metric)))
      && Competes(After(s, steps[0]), k, steps[1..], metric)
  }

  /** What is known of a thread that is connecting its element. */
  lemma InsertingAt(s: State, k: nat)
    requires Orderly(s) && k < |s.inserting|
    ensures IndexOk(s.tier.ix) && InsertionOk(s.tier.ix, s.inserting[k])
    ensures var (ix, ins) := (s.tier.ix, s.inserting[k]);
      && (!ins.Climbing? ==> ins.level < |ix.levels| && ins.id in ix.levels[ins.level].links)
      && (ins.Connecting? && ins.rest != [] ==> Apart(ix, ins.level, ins.id, ins.rest[0]))
      && (ins.Revisiting? ==> Apart(ix, ins.level, ins.id, ins.neighbor))
  {
    hide Inv, AllDistinct, Apart;
    OrderlyWorkers(s);
    var ins := s.inserting[k];
    if ins.Connecting? && ins.rest != [] {
      assert ins.rest[0] in ins.rest;
    }
    if ins.Revisiting? {
      assert Pending(ins)[0] == ins.neighbor;
    }
  }

  /** The element is connected to the first n of the selected neighbours, and maybe about to update the next. */
  ghost predicate ConnectedSoFar(ix0: Index, ix: Index, ins: Insertion, id: Id, level: nat, selected: seq<Candidate>, n: nat,
                                 metric: Metric)
  {
    && level < |ix0.levels| == |ix.levels| && ix == ix0.(levels := ix0.levels[level := ix.levels[level]])
    && id in ix0.levels[level].links && n <= |selected|
    && Connect.Connected(ix0.levels[level].links, ix.levels[level].links, id, selected[..n], ix0.deleted,
                         Cap(ix0.max, level), metric)
    && Connect.Untouched(ix.levels[level].links, id, Ids(selected[..n]))
    && ins.id == id && ins.level == level && !ins.Climbing? && Pending(ins) == Ids(selected)[n..]
    && (ins.Revisiting? ==>
          && ins.neighbor in ix.levels[level].links && !(ins.neighbor in ix0.deleted || id in ix0.deleted)
          && |ix.levels[level].links[ins.neighbor]| == Cap(ix0.max, level)
          && DecidedBy(ix.levels[level].links[ins.neighbor], id, ins.neighbor, ins.toUpdate, ins.chosen, metric))
  }

  lemma ConnectStep(s: State, k: nat, step: InsertStep)
    requires Orderly(s) && Enabled(s, Insert(k, step))
    ensures IndexOk(s.tier.ix) && InsertionOk(s.tier.ix, s.inserting[k]) && MayInsert(s.tier.ix, s.inserting[k], step)
    ensures var (after, ins) := (Apply(s, Insert(k, step)), s.inserting[k]);
      && Orderly(after) && after.tier.ix == InsertGraph(s.tier.ix, ins, step)
      && after.inserting == s.inserting[k := InsertNext(s.tier.ix, ins, step)]
  {
    hide Inv, IndexOk, InsertionOk, InsertGraph, InsertNext, MayInsert;
    StepKeeps(s, Insert(k, step));
    OrderlyWorkers(s);
  }

  /** The next of the selected neighbours. */
  lemma NextPending(selected: seq<Candidate>, n: nat, pending: seq<Id>)
    requires n <= |selected| && pending == Ids(selected)[n..] && pending != []
    ensures n < |selected| && pending[0] == selected[n].id && pending[1..] == Ids(selected)[n + 1..]
  {
  }

  /** One step brings the thread to the next neighbour, or leaves it with what it decided about this one. */
  lemma SoFarStep(ix0: Index, ix: Index, ins: Insertion, step: InsertStep, id: Id, level: nat, selected: seq<Candidate>,
                  n: nat, metric: Metric)
    requires IndexOk(ix) && InsertionOk(ix, ins) && MayInsert(ix, ins, step)
    requires ConnectedSoFar(ix0, ix, ins, id, level, selected, n, metric)
    requires NoDup(Ids(selected)) && forall i | 0 <= i < |selected| :: selected[i].dist == metric(id, selected[i].id)
    requires step.ConnectNext? || step.Decide? || step.UpdateNeighbor?
    requires step.Decide? ==>
               && ins.rest != [] && ins.rest[0] in ix.levels[level].links
               && DecidedBy(ix.levels[level].links[ins.rest[0]], id, ins.rest[0], step.toUpdate, step.chosen, metric)
    ensures var (after, next) := (InsertGraph(ix, ins, step), InsertNext(ix, ins, step));
      ConnectedSoFar(ix0, after, next, id, level, selected, if step.Decide? then n else n + 1, metric)
  {
    hide IndexOk, Connect.Connected, Connect.Untouched, DecidedBy, Reconsidered;
    NextPending(selected, n, Pending(ins));
    match step
    case ConnectNext =>
      NextIsApart(ix, ins);
      ConnectNextSoFar(ix0, ix, ins, id, level, selected, n, metric);
    case Decide(toUpdate, chosen) =>
      NextIsApart(ix, ins);
      FullRow(ix, level, ins.rest[0]);
    case UpdateNeighbor(after) =>
      UpdatedSoFar(ix0, ix, ins, after, id, level, selected, n, metric);
  }

  lemma FullRow(ix: Index, level: nat, v: Id)
    requires IndexOk(ix) && level < |ix.levels| && v in ix.levels[level].links
    ensures |ix.levels[level].links[v]| <= Cap(ix.max, level) && NoDup(ix.levels[level].links[v])
    ensures v !in ix.levels[level].links[v]
  {
    assert LevelOk(ix, level);
    assert RowOk(ix.levels[level].links.Keys, v, ix.levels[level].links[v], Cap(ix.max, level));
  }

  /** The neighbour was skipped, or linked at once. */
  lemma ConnectNextSoFar(ix0: Index, ix: Index, ins: Insertion, id: Id, level: nat, selected: seq<Candidate>, n: nat,
                         metric: Metric)
    requires IndexOk(ix) && InsertionOk(ix, ins) && MayInsert(ix, ins, InsertStep.ConnectNext)
    requires ConnectedSoFar(ix0, ix, ins, id, level, selected, n, metric)
    requires n < |selected| && ins.rest[0] == selected[n].id && ins.rest[1..] == Ids(selected)[n + 1..]
    requires NoDup(Ids(selected)) && Apart(ix, level, id, ins.rest[0])
    ensures var (after, next) := (InsertGraph(ix, ins, InsertStep.ConnectNext), InsertNext(ix, ins, InsertStep.ConnectNext));
      ConnectedSoFar(ix0, after, next, id, level, selected, n + 1, metric)
  {
    hide IndexOk, DecidedBy, Connect.Connected, Connect.Untouched;
    var (before, mid) := (ix0.levels[level].links, ix.levels[level].links);
    var after := InsertGraph(ix, ins, InsertStep.ConnectNext).levels[level].links;
    FullRow(ix, level, id);
    KeysSoFar(ix0, ix, id, level, selected, n, metric);
    Connect.ConnectedStep(before, mid, after, id, selected, n, ix0.deleted, Cap(ix0.max, level), metric);
  }

  lemma KeysSoFar(ix0: Index, ix: Index, id: Id, level: nat, selected: seq<Candidate>, n: nat, metric: Metric)
    requires level < |ix0.levels| == |ix.levels| && id in ix0.levels[level].links && n <= |selected|
    requires Connect.Connected(ix0.levels[level].links, ix.levels[level].links, id, selected[..n], ix0.deleted,
                               Cap(ix0.max, level), metric)
    ensures ix.levels[level].links.Keys == ix0.levels[level].links.Keys
  {
  }

  /** What was decided about a full neighbour was carried out. */
  lemma UpdatedSoFar(ix0: Index, ix: Index, ins: Insertion, after: Index, id: Id, level: nat, selected: seq<Candidate>,
                     n: nat, metric: Metric)
    requires IndexOk(ix) && InsertionOk(ix, ins) && MayInsert(ix, ins, InsertStep.UpdateNeighbor(after))
    requires ConnectedSoFar(ix0, ix, ins, id, level, selected, n, metric)
    requires n < |selected| && ins.neighbor == selected[n].id && ins.rest == Ids(selected)[n + 1..]
    requires NoDup(Ids(selected)) && selected[n].dist == metric(id, selected[n].id)
    ensures ConnectedSoFar(ix0, after, Connecting(id, level, ins.rest), id, level, selected, n + 1, metric)
  {
    hide IndexOk, WellFormed, Connect.Connected, Connect.Untouched, Connect.Competed, Connect.NeighborRow, Without;
    var (v, cap) := (selected[n].id, Cap(ix0.max, level));
    var (before, mid, now) := (ix0.levels[level].links, ix.levels[level].links, after.levels[level].links);
    PendingApart(ix, ins);
    FullRow(ix, level, v);
    KeysSoFar(ix0, ix, id, level, selected, n, metric);
    var picked, removed :| Connect.Competed(mid[v], id, metric(id, v), v, metric, picked, removed)
      && (ins.chosen <==> id !in removed) && Elems(ins.toUpdate) == Elems(removed) + {id, v};
    Connect.CompetedCosts(mid[v], id, metric(id, v), v, metric, picked, removed);
    Connect.RevisitedRow(mid, now, id, selected[n], picked, removed, ix0.deleted, cap, metric);
    NotInOwnRow(after, level, id);
    Connect.ConnectedStep(before, mid, now, id, selected, n, ix0.deleted, cap, metric);
  }

  lemma NotInOwnRow(ix: Index, level: nat, id: Id)
    requires level < |ix.levels| && WellFormed(ix.levels[level], Cap(ix.max, level)) && id in ix.levels[level].links
    ensures id !in ix.levels[level].links[id]
  {
    assert RowOk(ix.levels[level].links.Keys, id, ix.levels[level].links[id], Cap(ix.max, level));
  }

  /** The neighbour that is about to be updated, and the room for it. */
  lemma PendingApart(ix: Index, ins: Insertion)
    requires InsertionOk(ix, ins) && ins.Revisiting?
    ensures Apart(ix, ins.level, ins.id, ins.neighbor) && ins.id !in ix.levels[ins.level].links[ins.neighbor]
    ensures |ix.levels[ins.level].links[ins.id]| < Cap(ix.max, ins.level)
  {
    assert Pending(ins)[0] == ins.neighbor && Pending(ins)[0] in Pending(ins);
    assert Edge(ix, ins.level, ins.neighbor, ins.id) <==> ins.id in ix.levels[ins.level].links[ins.neighbor];
  }

  lemma {:induction false} ConnectingSoFar(ix0: Index, s: State, k: nat, steps: seq<Step>, id: Id, level: nat,
                                           selected: seq<Candidate>, n: nat, metric: Metric)
    returns (m: nat)
    requires Orderly(s) && Possible(s, steps) && OnlyConnects(steps, k) && Competes(s, k, steps, metric)
    requires k < |s.inserting| && ConnectedSoFar(ix0, s.tier.ix, s.inserting[k], id, level, selected, n, metric)
    requires NoDup(Ids(selected)) && forall i | 0 <= i < |selected| :: selected[i].dist == metric(id, selected[i].id)
    ensures var r := Run(s, steps);
      k < |r.inserting| && ConnectedSoFar(ix0, r.tier.ix, r.inserting[k], id, level, selected, m, metric)
    decreases |steps|
  {
    hide Orderly, Enabled, Apply, ConnectedSoFar, IndexOk, InsertionOk, MayInsert, InsertGraph, InsertNext, DecidedBy;
    if steps == [] {
      m := n;
    } else {
      assert steps[0].Insert? && steps[0].k == k;
      var step := steps[0].insertStep;
      InsertingAt(s, k);
      ConnectStep(s, k, step);
      DecisionAt(ix0, s, k, steps, id, level, selected, n, metric);
      SoFarStep(ix0, s.tier.ix, s.inserting[k], step, id, level, selected, n, metric);
      m := ConnectingSoFar(ix0, Apply(s, steps[0]), k, steps[1..], id, level, selected, if step.Decide? then n else n + 1,
                           metric);
    }
  }

  lemma DecisionAt(ix0: Index, s: State, k: nat, steps: seq<Step>, id: Id, level: nat, selected: seq<Candidate>, n: nat,
                   metric: Metric)
    requires Orderly(s) && Possible(s, steps) && OnlyConnects(steps, k) && Competes(s, k, steps, metric) && steps != []
    requires k < |s.inserting| && ConnectedSoFar(ix0, s.tier.ix, s.inserting[k], id, level, selected, n, metric)
    ensures var step := steps[0].insertStep;
      step.Decide? ==>
        && s.inserting[k].rest != [] && s.inserting[k].rest[0] in s.tier.ix.levels[level].links
        && DecidedBy(s.tier.ix.levels[level].links[s.inserting[k].rest[0]], id, s.inserting[k].rest[0], step.toUpdate,
                     step.chosen, metric)
  {
    hide Inv, IndexOk, DecidedBy, Apply, Connect.Connected, Connect.Untouched;
    InsertingAt(s, k);
  }

  /**
   * With no step of another thread in between, connecting an element to its selected neighbours section by
   * section leaves the level as the insertion of the element in one go does.
   */
  lemma ConnectsAlone(s: State, k: nat, level: nat, selected: seq<Candidate>, steps: seq<Step>, metric: Metric)
    requires Orderly(s) && k < |s.inserting| && s.inserting[k].Climbing?
    requires Enabled(s, Insert(k, Select(level, Ids(selected))))
    requires forall i | 0 <= i < |selected| :: selected[i].dist == metric(s.inserting[k].id, selected[i].id)
    requires var first := After(s, Insert(k, Select(level, Ids(selected))));
      Possible(first, steps) && OnlyConnects(steps, k) && Competes(first, k, steps, metric)
    ensures var (ix, id) := (s.tier.ix, s.inserting[k].id);
      var r := Run(After(s, Insert(k, Select(level, Ids(selected)))), steps);
      && k < |r.inserting| && level < |ix.levels| == |r.tier.ix.levels| && id in ix.levels[level].links
      && r.tier.ix == ix.(levels := ix.levels[level := r.tier.ix.levels[level]])
      && (r.inserting[k] == Connecting(id, level, []) ==>
            Connect.Connected(ix.levels[level].links, r.tier.ix.levels[level].links, id, selected, ix.deleted,
                              Cap(ix.max, level), metric))
  {
    hide Orderly, Possible, Run, Competes, OnlyConnects, IndexOk, Connect.Connected, Apply, Enabled;
    var step := Select(level, Ids(selected));
    var (ix, id) := (s.tier.ix, s.inserting[k].id);
    ConnectStep(s, k, step);
    NothingConnected(ix, s.inserting[k], level, selected, metric);
    var m := ConnectingSoFar(ix, After(s, Insert(k, step)), k, steps, id, level, selected, 0, metric);
    var r := Run(After(s, Insert(k, step)), steps);
    if r.inserting[k] == Connecting(id, level, []) {
      assert m == |selected| && selected[..m] == selected;
    }
  }

  lemma NothingConnected(ix: Index, ins: Insertion, level: nat, selected: seq<Candidate>, metric: Metric)
    requires IndexOk(ix) && InsertionOk(ix, ins) && MayInsert(ix, ins, Select(level, Ids(selected)))
    ensures ConnectedSoFar(ix, ix, Connecting(ins.id, level, Ids(selected)), ins.id, level, selected, 0, metric)
    ensures NoDup(Ids(selected))
  {
    hide IndexOk, Edge;
    var links := ix.levels[level].links;
    FullRow(ix, level, ins.id);
    InElems(links[ins.id]);
    forall v ensures v !in Elems(links[ins.id]) {
      assert !Edge(ix, level, ins.id, v);
      LinkIsEdge(ix, level, ins.id, v);
    }
    assert Elems(links[ins.id]) == {};
    NoDupSize(links[ins.id]);
    forall v | v in links ensures ins.id !in links[v] {
      assert !Edge(ix, level, v, ins.id);
      LinkIsEdge(ix, level, v, ins.id);
    }
    Connect.WithoutNothing(ix.deleted);
    assert selected[..0] == [];
  }

  lemma LinkIsEdge(ix: Index, level: nat, u: Id, v: Id)
    requires level < |ix.levels| && u in ix.levels[level].links
    ensures Edge(ix, level, u, v) <==> v in ix.levels[level].links[u]
  {
  }

  /** If the neighbours are those selected by a search, the level is as the whole insertion leaves it. */
  lemma InsertsAlone(s: State, k: nat, level: nat, q: Search, visited: set<Id>, found: seq<Candidate>,
                     selected: seq<Candidate>, steps: seq<Step>, metric: Metric, next: Id)
    requires Orderly(s) && k < |s.inserting| && s.inserting[k].Climbing?
    requires Enabled(s, Insert(k, Select(level, Ids(selected))))
    requires Found(q, visited, found) && found != [] && Chosen(found, s.tier.ix.max, metric, selected)
    requires q.deleted == s.tier.ix.deleted && forall v :: q.dist(v) == metric(s.inserting[k].id, v)
    requires exists c | c in found :: c.id == next && forall d | d in found :: c.dist <= d.dist
    requires var first := After(s, Insert(k, Select(level, Ids(selected))));
      && Possible(first, steps) && OnlyConnects(steps, k) && Competes(first, k, steps, metric)
      && k < |Run(first, steps).inserting|
      && Run(first, steps).inserting[k] == Connecting(s.inserting[k].id, level, [])
    ensures var (ix, id) := (s.tier.ix, s.inserting[k].id);
      var r := Run(After(s, Insert(k, Select(level, Ids(selected)))), steps);
      && level < |ix.levels| == |r.tier.ix.levels| && id in ix.levels[level].links
      && ConnectedBySearch(ix.levels[level], r.tier.ix.levels[level], q, id, ix.max, Cap(ix.max, level), metric, next)
  {
    hide Orderly, Possible, Run, Competes, OnlyConnects, IndexOk, Connect.Connected, Apply, Enabled, Chosen;
    ChosenDistances(q, visited, found, s.tier.ix.max, metric, selected);
    ConnectsAlone(s, k, level, selected, steps, metric);
    var (ix, id) := (s.tier.ix, s.inserting[k].id);
    var r := Run(After(s, Insert(k, Select(level, Ids(selected)))), steps);
    assert ConnectedToFound(ix.levels[level], r.tier.ix.levels[level], q, found, id, ix.max, Cap(ix.max, level), metric, next);
  }

  lemma ChosenDistances(q: Search, visited: set<Id>, found: seq<Candidate>, max: nat, metric: Metric,
                        selected: seq<Candidate>)
    requires Found(q, visited, found) && Chosen(found, max, metric, selected)
    ensures forall i | 0 <= i < |selected| :: selected[i].dist == q.dist(selected[i].id)
  {
    InElems(found);
    forall i | 0 <= i < |selected| ensures selected[i].dist == q.dist(selected[i].id) {
      assert selected[i] in Elems(selected);
    }
  }
}

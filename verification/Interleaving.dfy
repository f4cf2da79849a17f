/**
 * The tiered index with all its threads at work: a step is what one of them does under the locks it
 * holds, and a run is any sequence of steps.  Between two steps of a thread the others may do anything
 * they are allowed to, so that each decision may be stale by the time it is carried out.
 */
module Interleaving {
  import opened Seqs
  import opened LevelGraphs
  import opened IndexModel
  import opened TieredJobs
  import opened SwapJobs
  import opened RepairScheduling
  import opened TieredProtocol
  import opened GraphSteps
  import opened Workers

  datatype State = State(tier: Tier, inserting: seq<Insertion>, gathering: seq<Gather>)

  /**
   * An insertion takes what a search of the next level found; goes on to the next neighbour, which is
   * skipped, or linked at once, or, being full, decided about and updated later; and ends the level.
   */
  datatype InsertStep =
    | Select(level: nat, selected: seq<Id>)
    | ConnectNext
    | Decide(toUpdate: seq<Id>, chosen: bool)
    | UpdateNeighbor(after: Index)
    | EndLevel

  /** A deletion copies the links of its element at a level, asks each of them, and reads the record. */
  datatype GatherStep =
    | CopyLinks
    | Ask(neighbor: Id)
    | ReadRecord

  /** A repair reads the row, then the rows of the deleted neighbours, and makes its plan. */
  datatype RepairStep =
    | ReadLinks
    | ReadNeighbor(neighbor: Id)
    | Plan(toUpdate: seq<Id>, chosen: seq<Id>)

  datatype Step =
    | Store(level: nat)
    | Insert(k: nat, insertStep: InsertStep)
    | EndInsert(k: nat)
    | Mark(ids: set<Id>)
    | StartGather(id: Id)
    | Collect(k: nat, gatherStep: GatherStep)
    | Open(k: nat)
    | Pop(job: Handle)
    | Repair(i: nat, repairStep: RepairStep)
    | Rewire(i: nat, after: Index)
    | CollectGarbage(order: seq<Id>, limit: nat)
    | RemoveNow(id: Id, after: Index)

  // ----- The steps of an insertion -----

  ghost predicate MayInsert(ix: Index, ins: Insertion, step: InsertStep)
    requires InsertionOk(ix, ins)
  {
    match step
    case Select(level, selected) => ins.Climbing? && level < ins.level && Selection(ix, ins.id, level, selected)
    case ConnectNext =>
      && ins.Connecting? && ins.rest != []
      && (ins.id in ix.deleted || ins.rest[0] in ix.deleted || HasRoom(ix, ins.level, ins.id, ins.rest[0]))
    case Decide(toUpdate, chosen) =>
      && ins.Connecting? && ins.rest != [] && ins.id !in ix.deleted && ins.rest[0] !in ix.deleted
      && !HasRoom(ix, ins.level, ins.id, ins.rest[0]) && ins.id in toUpdate
    case UpdateNeighbor(after) =>
      ins.Revisiting? && Reconsidered(ix, after, ins.level, ins.id, ins.neighbor, ins.toUpdate, ins.chosen)
    case EndLevel => ins.Connecting? && ins.rest == []
  }

  /** There is room for one more link in the row of the neighbour. */
  ghost predicate HasRoom(ix: Index, level: nat, id: Id, v: Id)
    requires Apart(ix, level, id, v)
  {
    |ix.levels[level].links[v]| < Cap(ix.max, level)
  }

  lemma NextIsApart(ix: Index, ins: Insertion)
    requires InsertionOk(ix, ins) && ins.Connecting? && ins.rest != []
    ensures Apart(ix, ins.level, ins.id, ins.rest[0]) && ins.rest[0] !in ix.inProcess
  {
    assert ins.rest[0] in ins.rest;
  }

  ghost function InsertGraph(ix: Index, ins: Insertion, step: InsertStep): Index
    requires InsertionOk(ix, ins) && MayInsert(ix, ins, step)
  {
    match step
    case ConnectNext =>
      NextIsApart(ix, ins);
      if ins.id in ix.deleted || ins.rest[0] in ix.deleted then ix else Joined(ix, ins.level, ins.id, ins.rest[0])
    case UpdateNeighbor(after) => after
    case _ => ix
  }

  ghost function InsertNext(ix: Index, ins: Insertion, step: InsertStep): Insertion
    requires InsertionOk(ix, ins) && MayInsert(ix, ins, step)
  {
    match step
    case Select(level, selected) => Connecting(ins.id, level, selected)
    case ConnectNext => Connecting(ins.id, ins.level, ins.rest[1..])
    case Decide(toUpdate, chosen) => Revisiting(ins.id, ins.level, ins.rest[1..], ins.rest[0], toUpdate, chosen)
    case UpdateNeighbor(_) => Connecting(ins.id, ins.level, ins.rest)
    case EndLevel => Climbing(ins.id, ins.level)
  }

  /** All elements that an insertion must not connect to, apart from its own. */
  function BarredFor(ix: Index, id: Id): set<Id> {
    ix.deleted + (ix.inProcess - {id})
  }

  lemma NothingStepped(ix: Index, barred: set<Id>)
    requires IndexOk(ix)
    ensures Stepped(ix, ix, barred)
  {
  }

  lemma InsertStepKeeps(ix: Index, ins: Insertion, step: InsertStep)
    requires IndexOk(ix) && InsertionOk(ix, ins) && MayInsert(ix, ins, step)
    ensures Stepped(ix, InsertGraph(ix, ins, step), BarredFor(ix, ins.id))
    ensures InsertionOk(InsertGraph(ix, ins, step), InsertNext(ix, ins, step)) && InsertNext(ix, ins, step).id == ins.id
  {
    hide IndexOk, Stepped;
    NothingStepped(ix, BarredFor(ix, ins.id));
    match step
    case Select(level, selected) =>
      SelectionIsToConnect(ix, ins, level, selected);
    case ConnectNext =>
      ConnectKeeps(ix, ins);
    case Decide(toUpdate, chosen) =>
      assert [ins.rest[0]] + ins.rest[1..] == ins.rest;
    case UpdateNeighbor(after) =>
      UpdateKeeps(ix, ins, after);
    case EndLevel =>
      EndLevelIsOk(ix, ins);
  }

  lemma ConnectKeeps(ix: Index, ins: Insertion)
    requires IndexOk(ix) && InsertionOk(ix, ins) && MayInsert(ix, ins, ConnectNext)
    ensures Stepped(ix, InsertGraph(ix, ins, ConnectNext), BarredFor(ix, ins.id))
    ensures InsertionOk(InsertGraph(ix, ins, ConnectNext), InsertNext(ix, ins, ConnectNext))
  {
    hide IndexOk, Stepped, Reconsidered, Selection;
    var (id, level, v, rest) := (ins.id, ins.level, ins.rest[0], ins.rest[1..]);
    if id in ix.deleted || v in ix.deleted {
      NothingStepped(ix, BarredFor(ix, id));
      SkippedIsOk(ix, id, level, ins.rest);
    } else {
      assert [v] + rest == ins.rest && v in ins.rest;
      JoinedSteps(ix, level, id, v, BarredFor(ix, id));
      JoinedEdges(ix, level, id, v);
      ConnectedLeavesRest(ix, Joined(ix, level, id, v), id, level, v, rest, BarredFor(ix, id));
    }
  }

  lemma JoinedEdges(ix: Index, level: nat, id: Id, v: Id)
    requires Apart(ix, level, id, v)
    ensures RowGrew(ix, Joined(ix, level, id, v), level, id) && OnlyBetween(ix, Joined(ix, level, id, v), level, id, v)
  {
  }

  lemma UpdateKeeps(ix: Index, ins: Insertion, after: Index)
    requires IndexOk(ix) && InsertionOk(ix, ins) && MayInsert(ix, ins, UpdateNeighbor(after))
    ensures Stepped(ix, after, BarredFor(ix, ins.id))
    ensures InsertionOk(after, Connecting(ins.id, ins.level, ins.rest))
  {
    hide IndexOk, Stepped, Reconsidered, Selection;
    var (id, level, v, rest) := (ins.id, ins.level, ins.neighbor, ins.rest);
    assert v == ([v] + rest)[0];
    assert Apart(ix, level, id, v) && v !in ix.inProcess;
    ReconsideredSteps(ix, after, level, id, v, ins.toUpdate, ins.chosen, BarredFor(ix, id));
    ConnectedLeavesRest(ix, after, id, level, v, rest, BarredFor(ix, id));
  }

  lemma EndLevelIsOk(ix: Index, ins: Insertion)
    requires InsertionOk(ix, ins)
    ensures InsertionOk(ix, Climbing(ins.id, ins.level))
  {
  }

  // ----- The steps of a collection -----

  ghost predicate MayGather(ix: Index, g: Gather, step: GatherStep)
    requires 0 <= g.id < |ix.top|
  {
    match step
    case CopyLinks => g.Gathering? && g.level <= ix.top[g.id]
    case Ask(u) => g.Asking? && u in g.left
    case ReadRecord => g.Asking? && g.left == {}
  }

  ghost function GatherNext(ix: Index, waiting: set<Id>, g: Gather, step: GatherStep): (next: Gather)
    requires IndexOk(ix) && GatherOk(ix, waiting, g) && MayGather(ix, g, step)
    ensures GatherOk(ix, waiting, next) && next.id == g.id
  {
    match step
    case CopyLinks =>
      RowCopied(ix, waiting, g);
      var row := Elems(ix.levels[g.level].links[g.id]);
      Asking(g.id, g.level, g.found, row, row)
    case Ask(u) =>
      NeighborAsked(ix, waiting, g, u);
      g.(left := g.left - {u}, found := if Edge(ix, g.level, u, g.id) then g.found + [(u, g.level)] else g.found)
    case ReadRecord =>
      RecordRead(ix, waiting, g);
      Gathering(g.id, g.level + 1, g.found + AtLevel(ix.levels[g.level].incoming[g.id], g.level))
  }

  // ----- The steps of a repair -----

  ghost predicate MayRepair(ix: Index, f: Flight, step: RepairStep) {
    match step
    case ReadLinks => f.Popped?
    case ReadNeighbor(d) => f.Reading? && d in f.left
    case Plan(toUpdate, chosen) =>
      && f.Reading? && f.left == {} && NoDup(chosen) && Elems(chosen) <= f.cands && |chosen| <= Cap(ix.max, f.level)
      && NoDup(toUpdate) && Elems(toUpdate) == f.row + Elems(chosen)
  }

  lemma LevelIsThere(ix: Index, u: Id, level: nat)
    requires IndexOk(ix) && HasLevel(ix, u, level)
    ensures level < |ix.levels| && u in ix.levels[level].links && u !in ix.levels[level].links[u]
    ensures forall v | v in ix.levels[level].links[u] :: HasLevel(ix, v, level)
    ensures forall v :: Edge(ix, level, u, v) <==> v in Elems(ix.levels[level].links[u])
  {
    assert LevelOk(ix, level);
    var g := ix.levels[level];
    assert RowOk(g.links.Keys, u, g.links[u], Cap(ix.max, level));
    InElems(g.links[u]);
  }

  /** The repair is over when it finds no deleted neighbour. */
  ghost function RepairNext(ix: Index, f: Flight, step: RepairStep): (next: Option<Flight>)
    requires IndexOk(ix) && FlightOk(ix, f) && MayRepair(ix, f, step)
    ensures next.Some? ==> FlightOk(ix, next.value) && next.value.node == f.node && next.value.level == f.level
    ensures next.Some? ==> forall d | d in ix.deleted && Edge(ix, f.level, f.node, d) && Drops(f, f.node, f.level, d) ::
                             Drops(next.value, f.node, f.level, d)
    ensures next.None? ==> forall d | d in ix.deleted :: !Edge(ix, f.level, f.node, d)
  {
    match step
    case ReadLinks =>
      LevelIsThere(ix, f.node, f.level);
      var row := Elems(ix.levels[f.level].links[f.node]);
      var targets := row * ix.deleted;
      assert forall d | d in ix.deleted && Edge(ix, f.level, f.node, d) :: d in targets;
      if targets == {} then None else Some(Reading(f.node, f.level, targets, row, row - ix.deleted, targets))
    case ReadNeighbor(d) =>
      LevelIsThere(ix, d, f.level);
      var row := Elems(ix.levels[f.level].links[d]);
      Some(f.(cands := f.cands + (row - ix.deleted - {f.node}), left := f.left - {d}))
    case Plan(toUpdate, chosen) =>
      Some(Planned(f.node, f.level, f.targets, toUpdate, chosen))
  }

  // ----- The steps of all -----

  ghost predicate AllDistinct(inserting: seq<Insertion>, gathering: seq<Gather>) {
    && (forall j, k | 0 <= j < k < |inserting| :: inserting[j].id != inserting[k].id)
    && forall j, k | 0 <= j < k < |gathering| :: gathering[j].id != gathering[k].id
  }

  ghost predicate WorkersOk(ix: Index, waiting: set<Id>, flying: seq<Flight>, inserting: seq<Insertion>,
                            gathering: seq<Gather>)
  {
    && (forall i | 0 <= i < |flying| :: FlightOk(ix, flying[i]))
    && (forall k | 0 <= k < |inserting| :: InsertionOk(ix, inserting[k]))
    && forall k | 0 <= k < |gathering| :: GatherOk(ix, waiting, gathering[k])
  }

  /** The invariant: the books are kept, and what every thread holds is still good for its next step. */
  ghost predicate Orderly(s: State) {
    && Inv(s.tier) && AllDistinct(s.inserting, s.gathering)
    && WorkersOk(s.tier.ix, s.tier.waiting, s.tier.flying, s.inserting, s.gathering)
  }

  /** Nobody else holds the main lock. */
  ghost predicate Exclusive(s: State) {
    Quiet(s.tier) && s.inserting == [] && s.gathering == []
  }

  function Dropped<T>(xs: seq<T>, i: nat): seq<T>
    requires i < |xs|
  {
    xs[..i] + xs[i + 1..]
  }

  ghost predicate Enabled(s: State, step: Step)
    requires Orderly(s)
  {
    var t := s.tier;
    match step
    case Store(level) => true
    case Insert(k, insertStep) => k < |s.inserting| && MayInsert(t.ix, s.inserting[k], insertStep)
    case EndInsert(k) => k < |s.inserting| && s.inserting[k].Climbing?
    case Mark(ids) => ids !! t.ix.deleted && Within(ids, |t.ix.top|)
    case StartGather(id) => id in t.waiting && forall k | 0 <= k < |s.gathering| :: s.gathering[k].id != id
    case Collect(k, gatherStep) => k < |s.gathering| && MayGather(t.ix, s.gathering[k], gatherStep)
    case Open(k) => k < |s.gathering| && s.gathering[k].Gathering? && s.gathering[k].level > t.ix.top[s.gathering[k].id]
    case Pop(h) => h in t.jobs.repair
    case Repair(i, repairStep) => i < |t.flying| && MayRepair(t.ix, t.flying[i], repairStep)
    case Rewire(i, after) =>
      && i < |t.flying| && t.flying[i].Planned?
      && var f := t.flying[i]; Rewired(t.ix, after, f.node, f.level, f.toUpdate, f.chosen)
    case CollectGarbage(order, limit) => Exclusive(s) && KeyOrder(t.jobs, order)
    case RemoveNow(id, after) =>
      Exclusive(s) && 0 <= id < |t.ix.top| && id !in t.ix.deleted && TakenOut(t.ix, after, id)
  }

  ghost function Apply(s: State, step: Step): State
    requires Orderly(s) && Enabled(s, step)
  {
    var t := s.tier;
    match step
    case Store(level) =>
      s.(tier := t.(ix := StoreElement(t.ix, level)), inserting := s.inserting + [Climbing(|t.ix.top|, level + 1)])
    case Insert(k, insertStep) =>
      s.(tier := t.(ix := InsertGraph(t.ix, s.inserting[k], insertStep)),
         inserting := s.inserting[k := InsertNext(t.ix, s.inserting[k], insertStep)])
    case EndInsert(k) =>
      s.(tier := t.(ix := t.ix.(inProcess := t.ix.inProcess - {s.inserting[k].id})), inserting := Dropped(s.inserting, k))
    case Mark(ids) =>
      s.(tier := t.(ix := t.ix.(deleted := t.ix.deleted + ids), waiting := t.waiting + ids))
    case StartGather(id) => s.(gathering := s.gathering + [Gathering(id, 0, [])])
    case Collect(k, gatherStep) =>
      s.(gathering := s.gathering[k := GatherNext(t.ix, t.waiting, s.gathering[k], gatherStep)])
    case Open(k) =>
      var g := s.gathering[k];
      s.(tier := t.(jobs := OpenSwapJob(t.jobs, g.id, g.found), waiting := t.waiting - {g.id}),
         gathering := Dropped(s.gathering, k))
    case Pop(h) =>
      PopKeepsInv(t, h);
      s.(tier := Taken(t, h))
    case Repair(i, repairStep) =>
      (match RepairNext(t.ix, t.flying[i], repairStep)
       case Some(f) => s.(tier := t.(flying := t.flying[i := f]))
       case None => s.(tier := Landed(t, i)))
    case Rewire(i, after) => s.(tier := Landed(t, i).(ix := after))
    case CollectGarbage(order, limit) => s.(tier := SwapJobs.CollectGarbage(t, order, limit))
    case RemoveNow(id, after) => s.(tier := RemovedNow(t, id, after))
  }

  // ----- What each step keeps -----

  /** A step on the graph leaves all threads in order, apart from the insertions it may be for. */
  lemma StepLeavesOthers(s: State, after: Index, except: set<Id>)
    requires Orderly(s) && Stepped(s.tier.ix, after, s.tier.ix.deleted + (s.tier.ix.inProcess - except))
    ensures Inv(s.tier.(ix := after))
    ensures forall i | 0 <= i < |s.tier.flying| :: FlightOk(after, s.tier.flying[i])
    ensures forall k | 0 <= k < |s.inserting| && s.inserting[k].id !in except :: InsertionOk(after, s.inserting[k])
    ensures forall k | 0 <= k < |s.gathering| :: GatherOk(after, s.tier.waiting, s.gathering[k])
  {
    hide IndexOk, Stepped, Relinked, InsertionOk, GatherOk, FlightOk, AllDistinct;
    var ix, barred := s.tier.ix, s.tier.ix.deleted + (s.tier.ix.inProcess - except);
    SteppedRelinks(ix, after, barred);
    RelinkKeepsInv(s.tier, after);
    forall i | 0 <= i < |s.tier.flying| ensures FlightOk(after, s.tier.flying[i]) {
      StepLeavesFlight(ix, after, barred, s.tier.flying[i]);
    }
    forall k | 0 <= k < |s.inserting| && s.inserting[k].id !in except ensures InsertionOk(after, s.inserting[k]) {
      InsertionIsInProcess(ix, s.inserting[k]);
      StepLeavesInsertion(ix, after, barred, s.inserting[k]);
    }
    forall k | 0 <= k < |s.gathering| ensures GatherOk(after, s.tier.waiting, s.gathering[k]) {
      GatheredIsWaiting(ix, s.tier.waiting, s.gathering[k]);
      StepLeavesGather(ix, after, barred, s.tier.waiting, s.gathering[k]);
    }
  }

  lemma InsertionIsInProcess(ix: Index, ins: Insertion)
    requires InsertionOk(ix, ins)
    ensures 0 <= ins.id < |ix.top| && ins.id in ix.inProcess
  {
  }

  lemma GatheredIsWaiting(ix: Index, waiting: set<Id>, g: Gather)
    requires GatherOk(ix, waiting, g)
    ensures 0 <= g.id < |ix.top| && g.id in waiting
  {
  }

  lemma InsertKeeps(s: State, k: nat, step: InsertStep)
    requires Orderly(s) && Enabled(s, Insert(k, step))
    ensures Orderly(Apply(s, Insert(k, step)))
  {
    hide Inv, IndexOk, Stepped, InsertionOk, GatherOk, FlightOk, MayInsert, InsertGraph, InsertNext;
    InvIndex(s.tier);
    InsertStepKeeps(s.tier.ix, s.inserting[k], step);
    StepLeavesOthers(s, InsertGraph(s.tier.ix, s.inserting[k], step), {s.inserting[k].id});
  }

  lemma InvIndex(t: Tier)
    requires Inv(t)
    ensures IndexOk(t.ix) && t.waiting <= t.ix.deleted
  {
  }

  lemma StoreKeeps(s: State, level: nat)
    requires Orderly(s)
    ensures Orderly(Apply(s, Store(level)))
  {
    hide Inv, IndexOk, InsertionOk, GatherOk, FlightOk, StoreElement;
    var ix := s.tier.ix;
    InvIndex(s.tier);
    StoreKeepsInv(s.tier, level);
    StoredIsUntouched(ix, level);
    forall i | 0 <= i < |s.tier.flying| ensures FlightOk(StoreElement(ix, level), s.tier.flying[i]) {
      StoreLeavesFlight(ix, level, s.tier.flying[i]);
    }
    forall k | 0 <= k < |s.inserting|
      ensures InsertionOk(StoreElement(ix, level), s.inserting[k]) && s.inserting[k].id != |ix.top|
    {
      InsertionIsInProcess(ix, s.inserting[k]);
      StoreLeavesInsertion(ix, level, s.inserting[k]);
    }
    forall k | 0 <= k < |s.gathering| ensures GatherOk(StoreElement(ix, level), s.tier.waiting, s.gathering[k]) {
      StoreLeavesGather(ix, level, s.tier.waiting, s.gathering[k]);
    }
  }

  /** Flags were raised or lifted, elements marked or their jobs opened. */
  lemma FlagsLeaveWorkers(s: State, after: Index, waiting: set<Id>, id: Id)
    requires Orderly(s) && after == s.tier.ix.(deleted := after.deleted, inProcess := after.inProcess)
    requires s.tier.ix.deleted <= after.deleted
    requires s.tier.ix.inProcess - {id} <= after.inProcess <= s.tier.ix.inProcess
    requires forall k | 0 <= k < |s.gathering| && s.gathering[k].id != id :: s.gathering[k].id in waiting
    ensures forall i | 0 <= i < |s.tier.flying| :: FlightOk(after, s.tier.flying[i])
    ensures forall k | 0 <= k < |s.inserting| && s.inserting[k].id in after.inProcess :: InsertionOk(after, s.inserting[k])
    ensures forall k | 0 <= k < |s.gathering| && s.gathering[k].id in waiting :: GatherOk(after, waiting, s.gathering[k])
  {
    hide Inv, IndexOk, InsertionOk, GatherOk, FlightOk, AllDistinct;
    var ix := s.tier.ix;
    forall i | 0 <= i < |s.tier.flying| ensures FlightOk(after, s.tier.flying[i]) {
      FlagsLeaveFlight(ix, after, s.tier.flying[i]);
    }
    forall k | 0 <= k < |s.inserting| && s.inserting[k].id in after.inProcess ensures InsertionOk(after, s.inserting[k]) {
      FlagsLeaveInsertion(ix, after, s.inserting[k]);
    }
    forall k | 0 <= k < |s.gathering| && s.gathering[k].id in waiting ensures GatherOk(after, waiting, s.gathering[k]) {
      FlagsLeaveGather(ix, after, s.tier.waiting, waiting, s.gathering[k]);
    }
  }

  lemma EndInsertKeeps(s: State, k: nat)
    requires Orderly(s) && Enabled(s, EndInsert(k))
    ensures Orderly(Apply(s, EndInsert(k)))
  {
    hide Inv, IndexOk, InsertionOk, GatherOk, FlightOk;
    var id := s.inserting[k].id;
    var after := s.tier.ix.(inProcess := s.tier.ix.inProcess - {id});
    EndInsertKeepsInv(s.tier, id);
    forall j | 0 <= j < |s.inserting| ensures s.inserting[j].id in s.tier.ix.inProcess {
      InsertionIsInProcess(s.tier.ix, s.inserting[j]);
    }
    forall j | 0 <= j < |s.gathering| ensures s.gathering[j].id in s.tier.waiting {
      GatheredIsWaiting(s.tier.ix, s.tier.waiting, s.gathering[j]);
    }
    FlagsLeaveWorkers(s, after, s.tier.waiting, id);
  }

  lemma MarkKeeps(s: State, ids: set<Id>)
    requires Orderly(s) && Enabled(s, Mark(ids))
    ensures Orderly(Apply(s, Mark(ids)))
  {
    hide Inv, IndexOk, InsertionOk, GatherOk, FlightOk, AllDistinct, Within;
    var after := s.tier.ix.(deleted := s.tier.ix.deleted + ids);
    MarkKeepsInv(s.tier, ids);
    forall j | 0 <= j < |s.inserting| ensures s.inserting[j].id in s.tier.ix.inProcess {
      InsertionIsInProcess(s.tier.ix, s.inserting[j]);
    }
    forall j | 0 <= j < |s.gathering| ensures s.gathering[j].id in s.tier.waiting {
      GatheredIsWaiting(s.tier.ix, s.tier.waiting, s.gathering[j]);
    }
    FlagsLeaveWorkers(s, after, s.tier.waiting + ids, -1);
  }

  lemma StartGatherKeeps(s: State, id: Id)
    requires Orderly(s) && Enabled(s, StartGather(id))
    ensures Orderly(Apply(s, StartGather(id)))
  {
    hide InsertionOk, FlightOk, JobsOk, Covered, Paired;
    FlagsAreInside(s.tier);
    assert GatherOk(s.tier.ix, s.tier.waiting, Gathering(id, 0, []));
    hide GatherOk;
  }

  lemma FlagsAreInside(t: Tier)
    requires Inv(t)
    ensures forall d | d in t.waiting :: 0 <= d < |t.ix.top|
  {
  }

  lemma CollectKeeps(s: State, k: nat, step: GatherStep)
    requires Orderly(s) && Enabled(s, Collect(k, step))
    ensures Orderly(Apply(s, Collect(k, step)))
  {
    hide Inv, IndexOk, InsertionOk, FlightOk, GatherOk, GatherNext, MayGather;
    InvIndex(s.tier);
  }

  lemma OpenKeeps(s: State, k: nat)
    requires Orderly(s) && Enabled(s, Open(k))
    ensures Orderly(Apply(s, Open(k)))
  {
    hide Inv, IndexOk, InsertionOk, FlightOk, GatherOk, Collected, OpenSwapJob;
    var g := s.gathering[k];
    InvIndex(s.tier);
    AllCollected(s.tier.ix, s.tier.waiting, g);
    GatheredIsWaiting(s.tier.ix, s.tier.waiting, g);
    OpenKeepsInv(s.tier, g.id, g.found);
    forall j | 0 <= j < |s.inserting| ensures s.inserting[j].id in s.tier.ix.inProcess {
      InsertionIsInProcess(s.tier.ix, s.inserting[j]);
    }
    forall j | 0 <= j < |s.gathering| ensures s.gathering[j].id in s.tier.waiting {
      GatheredIsWaiting(s.tier.ix, s.tier.waiting, s.gathering[j]);
    }
    FlagsLeaveWorkers(s, s.tier.ix, s.tier.waiting - {g.id}, g.id);
  }

  lemma PopKeeps(s: State, h: Handle)
    requires Orderly(s) && Enabled(s, Pop(h))
    ensures Orderly(Apply(s, Pop(h)))
  {
    hide InsertionOk, GatherOk, IndexOk, JobsOk, Covered, Paired, ReadyOk, PopJob, AllDistinct;
    PopKeepsInv(s.tier, h);
  }

  lemma RepairKeeps(s: State, i: nat, step: RepairStep)
    requires Orderly(s) && Enabled(s, Repair(i, step))
    ensures Orderly(Apply(s, Repair(i, step)))
  {
    hide Inv, IndexOk, InsertionOk, GatherOk, FlightOk, Edge, RepairNext, MayRepair, AllDistinct, Relinked, Drops;
    var t := s.tier;
    InvIndex(t);
    match RepairNext(t.ix, t.flying[i], step)
    case Some(f) =>
      ProgressKeepsInv(t, i, f);
    case None =>
      NothingStepped(t.ix, t.ix.deleted);
      SteppedRelinks(t.ix, t.ix, t.ix.deleted);
      LandKeepsInv(t, i, t.ix);
  }

  lemma RewireKeeps(s: State, i: nat, after: Index)
    requires Orderly(s) && Enabled(s, Rewire(i, after))
    ensures Orderly(Apply(s, Rewire(i, after)))
  {
    hide Inv, IndexOk, InsertionOk, GatherOk, Edge, AllDistinct, Relinked, Rewired, Stepped;
    var t, f := s.tier, s.tier.flying[i];
    InvIndex(t);
    RewiredSteps(t.ix, after, f.node, f.level, f.targets, f.toUpdate, f.chosen);
    assert t.ix.deleted + (t.ix.inProcess - {}) == t.ix.deleted + t.ix.inProcess;
    StepLeavesOthers(s, after, {});
    SteppedRelinks(t.ix, after, t.ix.deleted + t.ix.inProcess);
    LandKeepsInv(t, i, after);
  }

  /** Every step of every thread, whatever the others did since its decision was made, keeps the invariant. */
  lemma StepKeeps(s: State, step: Step)
    requires Orderly(s) && Enabled(s, step)
    ensures Orderly(Apply(s, step))
  {
    hide Orderly, Inv, Enabled, Apply;
    match step
    case Store(level) => StoreKeeps(s, level);
    case Insert(k, insertStep) => InsertKeeps(s, k, insertStep);
    case EndInsert(k) => EndInsertKeeps(s, k);
    case Mark(ids) => MarkKeeps(s, ids);
    case StartGather(id) => StartGatherKeeps(s, id);
    case Collect(k, gatherStep) => CollectKeeps(s, k, gatherStep);
    case Open(k) => OpenKeeps(s, k);
    case Pop(h) => PopKeeps(s, h);
    case Repair(i, repairStep) => RepairKeeps(s, i, repairStep);
    case Rewire(i, after) => RewireKeeps(s, i, after);
    case CollectGarbage(_, _) => ExclusiveKeeps(s, step);
    case RemoveNow(_, _) => ExclusiveKeeps(s, step);
  }

  lemma ExclusiveKeeps(s: State, step: Step)
    requires Orderly(s) && Enabled(s, step) && (step.CollectGarbage? || step.RemoveNow?)
    ensures Orderly(Apply(s, step))
  {
    hide Inv, KeyOrder, TakenOut, SwapJobs.CollectGarbage, RemovedNow, IndexOk;
    match step
    case CollectGarbage(order, limit) =>
      CollectGarbageKeepsInv(s.tier, order, limit);
    case RemoveNow(id, after) =>
      RemoveNowKeepsInv(s.tier, id, after);
      RemovedIsQuiet(s.tier, id, after);
  }

  lemma RemovedIsQuiet(t: Tier, id: Id, after: Index)
    requires Inv(t) && Quiet(t) && 0 <= id < |t.ix.top| && id !in t.ix.deleted
    ensures Quiet(RemovedNow(t, id, after))
  {
  }

  /** A step that was possible was made. */
  ghost predicate Did(s: State, step: Step, after: State) {
    Orderly(s) && Enabled(s, step) && after == Apply(s, step)
  }

  // ----- Runs -----

  /** Each step is possible when its turn comes. */
  ghost predicate Possible(s: State, steps: seq<Step>)
    requires Orderly(s)
    decreases |steps|
  {
    steps != [] ==> Enabled(s, steps[0]) && (StepKeeps(s, steps[0]); Possible(Apply(s, steps[0]), steps[1..]))
  }

  ghost function Run(s: State, steps: seq<Step>): State
    requires Orderly(s) && Possible(s, steps)
    decreases |steps|
  {
    if steps == [] then s
    else
      StepKeeps(s, steps[0]);
      Run(Apply(s, steps[0]), steps[1..])
  }

  lemma {:induction false} RunKeeps(s: State, steps: seq<Step>)
    requires Orderly(s) && Possible(s, steps)
    ensures Orderly(Run(s, steps))
    decreases |steps|
  {
    hide Orderly, Enabled, Apply;
    if steps != [] {
      StepKeeps(s, steps[0]);
      RunKeeps(Apply(s, steps[0]), steps[1..]);
    }
  }

  ghost function EmptyState(max: nat): (s: State)
    ensures Orderly(s)
  {
    EmptyTierInv(max);
    State(EmptyTier(max), [], [])
  }

  /**
   * After any run, with any number of insertions, deletions and repairs at any point of their work: every
   * edge to an element that has a swap job is covered by a repair, pending or in hand; every counter is
   * the number of times that pending repairs list the job; and once no thread is at work, an element
   * whose counter is zero has no edges left to it.
   */
  lemma RunsAreSafe(max: nat, steps: seq<Step>)
    requires Possible(EmptyState(max), steps)
    ensures var s := Run(EmptyState(max), steps);
      var t := s.tier;
      && Orderly(s)
      && (forall l: nat, u, d | d in t.ix.deleted && d !in t.waiting && Edge(t.ix, l, u, d) ::
            Scheduled(t.jobs, u, l, d) || InHand(t.flying, u, l, d))
      && (forall d | d in t.ix.deleted && d !in t.waiting :: d in t.jobs.idToSwap && t.jobs.idToSwap[d] in t.jobs.swap
            && t.jobs.swap[t.jobs.idToSwap[d]].pending == |Listing(t.jobs.repair, t.jobs.idToSwap[d])|)
      && (Exclusive(s) ==> forall x | x in t.jobs.swap && t.jobs.swap[x].pending == 0 ::
            NoInEdges(t.ix, t.jobs.swap[x].deletedId))
  {
    hide Run, Possible, IndexOk, RepairsOk, Edge, Scheduled, InHand, NoInEdges, WorkersOk, AllDistinct;
    RunKeeps(EmptyState(max), steps);
    var s := Run(EmptyState(max), steps);
    var t := s.tier;
    forall d | d in t.ix.deleted && d !in t.waiting
      ensures d in t.jobs.idToSwap && t.jobs.idToSwap[d] in t.jobs.swap
        && t.jobs.swap[t.jobs.idToSwap[d]].pending == |Listing(t.jobs.repair, t.jobs.idToSwap[d])|
    {
      PairOf(t.jobs, Tracked(t), d);
    }
    if Exclusive(s) {
      assert Tracked(t) == t.ix.deleted;
      forall x | x in t.jobs.swap && t.jobs.swap[x].pending == 0 ensures NoInEdges(t.ix, t.jobs.swap[x].deletedId) {
        ZeroMeansUnreferenced(t.ix, t.jobs, x);
      }
    }
  }
}

/**
 * The bookkeeping of asynchronous deletion.  Deleting an element marks it, opens a swap job for it and
 * makes sure that every node pointing to it has a pending repair job listing the swap job; the element
 * is physically removed only when its swap job's counter of pending repairs is zero.
 */
module TieredJobs {
  import opened Seqs
  import opened LevelGraphs
  import opened IndexModel
  import opened RemoveSwap

  /** A pointer to a job. */
  type Handle = int

  datatype SwapJob = SwapJob(deletedId: Id, pending: int)

  datatype RepairJob = RepairJob(node: Id, level: nat, swaps: seq<Handle>)

  /**
   * `swap` and `repair` are the job objects that are alive, `idToSwap` and `idToRepair` the lookups
   * into them, `ready` the number of swap jobs without pending repairs; handles from `next` on are free.
   */
  datatype Jobs = Jobs(swap: map<Handle, SwapJob>, idToSwap: map<Id, Handle>,
                       repair: map<Handle, RepairJob>, idToRepair: map<Id, seq<Handle>>,
                       ready: int, next: Handle)

  /**
   * A repair job that has left the queue: just popped; or its row is read, with the deleted neighbours
   * found there as targets, the candidates collected so far, and the targets still to be read; or it has
   * made its plan, the nodes to update and those chosen as neighbours.
   */
  datatype Flight =
    | Popped(node: Id, level: nat)
    | Reading(node: Id, level: nat, targets: set<Id>, row: set<Id>, cands: set<Id>, left: set<Id>)
    | Planned(node: Id, level: nat, targets: set<Id>, toUpdate: seq<Id>, chosen: seq<Id>)

  /** `waiting` are the elements that are marked already while their swap job is not there yet. */
  datatype Tier = Tier(ix: Index, jobs: Jobs, flying: seq<Flight>, waiting: set<Id>)

  // ----- The invariant -----

  /** The places where pending repair jobs list a swap job, which one of them may do more than once. */
  ghost function Listing(repair: map<Handle, RepairJob>, s: Handle): set<(Handle, int)> {
    set h, i | h in repair && 0 <= i < |repair[h].swaps| && repair[h].swaps[i] == s :: (h, i)
  }

  lemma InListing(repair: map<Handle, RepairJob>, s: Handle, h: Handle)
    requires h in repair && s in repair[h].swaps
    ensures Listing(repair, s) != {}
  {
    var i :| 0 <= i < |repair[h].swaps| && repair[h].swaps[i] == s;
    assert (h, i) in Listing(repair, s);
  }

  /** The places in one list. */
  ghost function Places(swaps: seq<Handle>, s: Handle, h: Handle): set<(Handle, int)> {
    set i | 0 <= i < |swaps| && swaps[i] == s :: (h, i)
  }

  lemma {:induction false} PlacesCount(swaps: seq<Handle>, s: Handle, h: Handle)
    ensures |Places(swaps, s, h)| == multiset(swaps)[s]
  {
    hide Places;
    if swaps == [] {
      NoPlaces(s, h);
    } else {
      var n := |swaps| - 1;
      PlacesCount(swaps[..n], s, h);
      assert swaps == swaps[..n] + [swaps[n]];
      PlacesStep(swaps[..n], swaps[n], s, h);
    }
  }

  lemma NoPlaces(s: Handle, h: Handle)
    ensures Places([], s, h) == {}
  {
  }

  lemma InPlaces(swaps: seq<Handle>, s: Handle, h: Handle, p: (Handle, int))
    ensures p in Places(swaps, s, h) <==> p.0 == h && 0 <= p.1 < |swaps| && swaps[p.1] == s
  {
    assert p == (p.0, p.1);
  }

  lemma PlacesStep(front: seq<Handle>, x: Handle, s: Handle, h: Handle)
    ensures |Places(front + [x], s, h)| == |Places(front, s, h)| + if x == s then 1 else 0
  {
    hide Places;
    var last := (h, |front|);
    var more: set<(Handle, int)> := if x == s then {last} else {};
    forall p ensures p in Places(front + [x], s, h) <==> p in Places(front, s, h) + more {
      InPlaces(front + [x], s, h, p);
      InPlaces(front, s, h, p);
    }
    assert Places(front + [x], s, h) == Places(front, s, h) + more;
    InPlaces(front, s, h, last);
  }

  /** A job's list accounts for no more than the counter. */
  lemma PlacesBound(jobs: Jobs, h: Handle, s: Handle)
    requires h in jobs.repair && s in jobs.swap && CountersOk(jobs)
    ensures multiset(jobs.repair[h].swaps)[s] <= jobs.swap[s].pending
  {
    PlacesCount(jobs.repair[h].swaps, s, h);
    SubsetCardinality(Places(jobs.repair[h].swaps, s, h), Listing(jobs.repair, s));
  }

  ghost function Ready(swap: map<Handle, SwapJob>): set<Handle> {
    set s | s in swap && swap[s].pending == 0
  }

  /** Every counter is the number of times that pending repair jobs list the swap job. */
  ghost predicate CountersOk(jobs: Jobs) {
    forall s | s in jobs.swap :: jobs.swap[s].pending == |Listing(jobs.repair, s)|
  }

  /** The number of ready swap jobs, `extra` of which are no longer among the live ones. */
  ghost predicate ReadyOk(jobs: Jobs, extra: int) {
    jobs.ready == |Ready(jobs.swap)| + extra
  }

  /** Every tracked id leads to its swap job and every swap job is the one of a tracked id. */
  ghost predicate Paired(jobs: Jobs, tracked: set<Id>) {
    && (forall d | d in tracked ::
          d in jobs.idToSwap && jobs.idToSwap[d] in jobs.swap && jobs.swap[jobs.idToSwap[d]].deletedId == d)
    && forall s | s in jobs.swap ::
         var d := jobs.swap[s].deletedId; d in tracked && d in jobs.idToSwap && jobs.idToSwap[d] == s
  }

  ghost predicate JobOk(jobs: Jobs, h: Handle)
    requires h in jobs.repair
  {
    && (forall s | s in jobs.repair[h].swaps :: s in jobs.swap)
    && jobs.repair[h].node in jobs.idToRepair && h in jobs.idToRepair[jobs.repair[h].node]
  }

  /** The pending repairs of a node: one for each of the levels there are any for. */
  ghost predicate ListOk(jobs: Jobs, u: Id)
    requires u in jobs.idToRepair
  {
    && jobs.idToRepair[u] != [] && NoDup(jobs.idToRepair[u])
    && (forall h | h in jobs.idToRepair[u] :: h in jobs.repair && jobs.repair[h].node == u)
    && forall g, h | g in jobs.idToRepair[u] && h in jobs.idToRepair[u] && g != h ::
         jobs.repair[g].level != jobs.repair[h].level
  }

  /** Handles in use are below `next`. */
  ghost predicate HandlesOk(jobs: Jobs) {
    && (forall s | s in jobs.swap :: s < jobs.next)
    && (forall h | h in jobs.repair :: h < jobs.next)
  }

  ghost predicate RepairsOk(jobs: Jobs, n: nat) {
    && (forall h | h in jobs.repair :: JobOk(jobs, h) && 0 <= jobs.repair[h].node < n)
    && (forall u | u in jobs.idToRepair :: ListOk(jobs, u))
  }

  /** A pending repair job for (u, level) lists the swap job of d. */
  ghost predicate Scheduled(jobs: Jobs, u: Id, level: nat, d: Id) {
    d in jobs.idToSwap && exists h :: h in jobs.repair && JobFor(jobs.repair[h], u, level, jobs.idToSwap[d])
  }

  predicate JobFor(job: RepairJob, u: Id, level: nat, s: Handle) {
    job.node == u && job.level == level && s in job.swaps
  }

  ghost predicate InHand(flying: seq<Flight>, u: Id, level: nat, d: Id) {
    exists i :: 0 <= i < |flying| && Drops(flying[i], u, level, d)
  }

  /** A popped job will collect all the deleted neighbours there are; later on its targets are known. */
  predicate Drops(f: Flight, u: Id, level: nat, d: Id) {
    f.node == u && f.level == level && (!f.Popped? ==> d in f.targets)
  }

  /** Every edge to a tracked deleted element is about to be dropped. */
  ghost predicate Covered(ix: Index, jobs: Jobs, flying: seq<Flight>, tracked: set<Id>) {
    forall l: nat, u, d | d in tracked && Edge(ix, l, u, d) ::
      Scheduled(jobs, u, l, d) || InHand(flying, u, l, d)
  }

  ghost predicate JobsOk(jobs: Jobs, n: nat) {
    CountersOk(jobs) && RepairsOk(jobs, n) && HandlesOk(jobs)
  }

  /** The lookup of swap jobs and the count of ready ones do not matter to it. */
  lemma JobsOkIgnores(jobs: Jobs, after: Jobs, n: nat)
    requires JobsOk(jobs, n)
    requires after.swap == jobs.swap && after.repair == jobs.repair
    requires after.idToRepair == jobs.idToRepair && after.next == jobs.next
    ensures JobsOk(after, n)
  {
    forall h | h in after.repair ensures JobOk(after, h) {
      assert JobOk(jobs, h);
    }
    forall u | u in after.idToRepair ensures ListOk(after, u) {
      assert ListOk(jobs, u);
    }
  }

  /** Pending repairs are for levels that their nodes have. */
  ghost predicate LevelsInside(jobs: Jobs, top: seq<nat>) {
    forall h | h in jobs.repair ::
      0 <= jobs.repair[h].node < |top| && jobs.repair[h].level <= top[jobs.repair[h].node]
  }

  /** The elements that have a swap job. */
  function Tracked(t: Tier): set<Id> {
    t.ix.deleted - t.waiting
  }

  /** The invariant of the protocol. */
  ghost predicate Inv(t: Tier) {
    && IndexOk(t.ix) && t.waiting <= t.ix.deleted
    && t.jobs.idToSwap.Keys == Tracked(t) && Paired(t.jobs, Tracked(t))
    && JobsOk(t.jobs, |t.ix.top|) && ReadyOk(t.jobs, 0) && LevelsInside(t.jobs, t.ix.top)
    && Covered(t.ix, t.jobs, t.flying, Tracked(t))
  }

  lemma ScheduledIsListed(jobs: Jobs, u: Id, level: nat, d: Id)
    requires Scheduled(jobs, u, level, d)
    ensures |Listing(jobs.repair, jobs.idToSwap[d])| > 0
  {
    var h :| h in jobs.repair && JobFor(jobs.repair[h], u, level, jobs.idToSwap[d]);
    InListing(jobs.repair, jobs.idToSwap[d], h);
  }

  /** When no repair is in hand, a counter at zero means that no node points to the element. */
  lemma ZeroMeansUnreferenced(ix: Index, jobs: Jobs, s: Handle)
    requires Paired(jobs, ix.deleted) && CountersOk(jobs) && Covered(ix, jobs, [], ix.deleted)
    requires s in jobs.swap && jobs.swap[s].pending == 0
    ensures NoInEdges(ix, jobs.swap[s].deletedId)
  {
    var d := jobs.swap[s].deletedId;
    forall l: nat, u ensures !Edge(ix, l, u, d) {
      if Edge(ix, l, u, d) {
        assert Scheduled(jobs, u, l, d);
        ScheduledIsListed(jobs, u, l, d);
        assert false;
      }
    }
  }

  // ----- Retiring a repair job -----

  /** The swap jobs for which a list holds all that was pending. */
  ghost function LastFor(jobs: Jobs, swaps: seq<Handle>): set<Handle> {
    set s | s in swaps && s in jobs.swap && jobs.swap[s].pending == multiset(swaps)[s]
  }

  /** A repair job leaves the pending ones: the counters drop by what it lists. */
  ghost function Retire(jobs: Jobs, h: Handle): Jobs
    requires h in jobs.repair
  {
    var swaps := jobs.repair[h].swaps;
    jobs.(swap := map s | s in jobs.swap ::
                    jobs.swap[s].(pending := jobs.swap[s].pending - multiset(swaps)[s]),
          repair := jobs.repair - {h},
          ready := jobs.ready + |LastFor(jobs, swaps)|)
  }

  lemma RetireKeepsCounters(jobs: Jobs, h: Handle, extra: int)
    requires h in jobs.repair && CountersOk(jobs) && ReadyOk(jobs, extra)
    ensures CountersOk(Retire(jobs, h)) && ReadyOk(Retire(jobs, h), extra)
  {
    hide Listing, ReadyOk, Ready, LastFor;
    var after, swaps := Retire(jobs, h), jobs.repair[h].swaps;
    forall s | s in after.swap ensures after.swap[s].pending == |Listing(after.repair, s)| {
      PlacesCount(swaps, s, h);
      ListingWithout(jobs.repair, h, s);
    }
    forall s | s in jobs.swap ensures multiset(swaps)[s] <= jobs.swap[s].pending {
      PlacesBound(jobs, h, s);
    }
    RetireKeepsReady(jobs, h, extra);
  }

  lemma ListingWithout(repair: map<Handle, RepairJob>, h: Handle, s: Handle)
    requires h in repair
    ensures |Listing(repair - {h}, s)| == |Listing(repair, s)| - |Places(repair[h].swaps, s, h)|
  {
    assert Listing(repair, s) == Listing(repair - {h}, s) + Places(repair[h].swaps, s, h);
    assert Listing(repair - {h}, s) !! Places(repair[h].swaps, s, h);
  }

  lemma RetireKeepsReady(jobs: Jobs, h: Handle, extra: int)
    requires h in jobs.repair && ReadyOk(jobs, extra)
    requires forall s | s in jobs.swap :: multiset(jobs.repair[h].swaps)[s] <= jobs.swap[s].pending
    ensures ReadyOk(Retire(jobs, h), extra)
  {
    var after, swaps := Retire(jobs, h), jobs.repair[h].swaps;
    forall s | s in jobs.swap
      ensures s in Ready(after.swap) <==> s in Ready(jobs.swap) || s in LastFor(jobs, swaps)
      ensures !(s in Ready(jobs.swap) && s in LastFor(jobs, swaps))
    {
      assert s in swaps <==> multiset(swaps)[s] > 0;
    }
    assert Ready(after.swap) == Ready(jobs.swap) + LastFor(jobs, swaps);
  }

  /** Same swap jobs, for the same elements, whatever their counters. */
  ghost predicate SameSwaps(jobs: Jobs, after: Jobs) {
    && after.idToSwap == jobs.idToSwap && after.next == jobs.next
    && after.swap.Keys == jobs.swap.Keys
    && forall s | s in jobs.swap :: s in after.swap && after.swap[s].deletedId == jobs.swap[s].deletedId
  }

  lemma SameSwapsKeepPairs(jobs: Jobs, after: Jobs, tracked: set<Id>)
    requires SameSwaps(jobs, after) && Paired(jobs, tracked)
    ensures Paired(after, tracked)
  {
    forall d | d in tracked
      ensures d in after.idToSwap && after.idToSwap[d] in after.swap && after.swap[after.idToSwap[d]].deletedId == d
    {
      var s := jobs.idToSwap[d];
      assert s in jobs.swap && jobs.swap[s].deletedId == d;
      assert s in after.swap;
      assert after.swap[s].deletedId == d;
    }
  }

  ghost function RetireList(jobs: Jobs, hs: seq<Handle>): (r: Jobs)
    requires NoDup(hs) && forall h | h in hs :: h in jobs.repair
    ensures r.repair == jobs.repair - Elems(hs) && r.idToRepair == jobs.idToRepair && SameSwaps(jobs, r)
  {
    if hs == [] then jobs
    else
      var n := |hs| - 1;
      assert hs == hs[..n] + [hs[n]] && hs[n] !in hs[..n];
      Retire(RetireList(jobs, hs[..n]), hs[n])
  }

  lemma {:induction false} RetireListKeepsCounters(jobs: Jobs, hs: seq<Handle>, extra: int)
    requires NoDup(hs) && forall h | h in hs :: h in jobs.repair
    requires CountersOk(jobs) && ReadyOk(jobs, extra)
    ensures CountersOk(RetireList(jobs, hs)) && ReadyOk(RetireList(jobs, hs), extra)
  {
    if hs != [] {
      var n := |hs| - 1;
      RetireListKeepsCounters(jobs, hs[..n], extra);
      assert hs[n] !in hs[..n];
      RetireKeepsCounters(RetireList(jobs, hs[..n]), hs[n], extra);
    }
  }
}

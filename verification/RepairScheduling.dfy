/**
 * Opening a swap job: every node pointing to the deleted element gets the swap job listed in its
 * pending repair job for the level, or a new repair job when there is none.
 */
module RepairScheduling {
  import opened Seqs
  import opened LevelGraphs
  import opened IndexModel
  import opened TieredJobs

  /** The first of some pending jobs that is for the level. */
  function FirstAt(repair: map<Handle, RepairJob>, hs: seq<Handle>, level: nat): (r: Option<Handle>)
    ensures r.Some? ==> r.value in hs && r.value in repair && repair[r.value].level == level
    ensures r.None? ==> forall h | h in hs && h in repair :: repair[h].level != level
  {
    if hs == [] then None
    else
      var h := hs[0];
      if h in repair && repair[h].level == level then Some(h) else FirstAt(repair, hs[1..], level)
  }

  /** The pending repair job of u for the level. */
  function JobAt(jobs: Jobs, u: Id, level: nat): Option<Handle> {
    if u in jobs.idToRepair then FirstAt(jobs.repair, jobs.idToRepair[u], level) else None
  }

  /** The lookup with one more pending repair job of u. */
  function Enlisted(jobs: Jobs, u: Id, h: Handle): map<Id, seq<Handle>> {
    jobs.idToRepair[u := (if u in jobs.idToRepair then jobs.idToRepair[u] else []) + [h]]
  }

  /** Adds s to the pending repair of u at the level. */
  function AddRepair(jobs: Jobs, u: Id, level: nat, s: Handle): Jobs {
    match JobAt(jobs, u, level)
    case Some(h) => jobs.(repair := jobs.repair[h := jobs.repair[h].(swaps := jobs.repair[h].swaps + [s])])
    case None =>
      jobs.(repair := jobs.repair[jobs.next := RepairJob(u, level, [s])],
            idToRepair := Enlisted(jobs, u, jobs.next), next := jobs.next + 1)
  }

  /** The jobs with the swap job s of d on record, its counter at k. */
  function With(jobs: Jobs, s: Handle, d: Id, k: nat): Jobs {
    jobs.(swap := jobs.swap[s := SwapJob(d, k)])
  }

  /** Pending repairs stay, and go on listing what they listed. */
  ghost predicate Grows(repair: map<Handle, RepairJob>, after: map<Handle, RepairJob>) {
    forall h | h in repair ::
      && h in after && after[h].node == repair[h].node && after[h].level == repair[h].level
      && forall x | x in repair[h].swaps :: x in after[h].swaps
  }

  /** Only pending repairs for the given edges list s. */
  ghost predicate ListedOnlyBy(repair: map<Handle, RepairJob>, s: Handle, edges: seq<(Id, nat)>) {
    forall h | h in repair && s in repair[h].swaps :: (repair[h].node, repair[h].level) in edges
  }

  ghost predicate ListedBy(repair: map<Handle, RepairJob>, s: Handle, u: Id, level: nat) {
    exists h :: h in repair && JobFor(repair[h], u, level, s)
  }

  /** The repair job h, new or not, came to list s. */
  ghost predicate Listed(repair: map<Handle, RepairJob>, after: map<Handle, RepairJob>, h: Handle, s: Handle) {
    && after.Keys == repair.Keys + {h}
    && (forall x | x in repair && x != h :: after[x] == repair[x])
    && after[h].swaps == (if h in repair then repair[h].swaps else []) + [s]
    && (h in repair ==> after[h].node == repair[h].node && after[h].level == repair[h].level)
  }

  lemma ListedCounts(jobs: Jobs, after: Jobs, h: Handle, s: Handle, d: Id, k: nat)
    requires CountersOk(With(jobs, s, d, k)) && after.swap == jobs.swap && Listed(jobs.repair, after.repair, h, s)
    ensures CountersOk(With(after, s, d, k + 1))
  {
    var before, now := With(jobs, s, d, k), With(after, s, d, k + 1);
    forall x | x in now.swap ensures now.swap[x].pending == |Listing(after.repair, x)| {
      ListedAt(jobs.repair, after.repair, h, s, x);
      assert x in before.swap;
    }
  }

  predicate IsPlace(repair: map<Handle, RepairJob>, s: Handle, y: (Handle, int)) {
    y.0 in repair && 0 <= y.1 < |repair[y.0].swaps| && repair[y.0].swaps[y.1] == s
  }

  lemma ListedPlace(repair: map<Handle, RepairJob>, s: Handle, y: (Handle, int))
    ensures y in Listing(repair, s) <==> IsPlace(repair, s, y)
  {
    var (h, i) := y;
    assert IsPlace(repair, s, y) ==> (h, i) in Listing(repair, s);
  }

  lemma ListedAt(repair: map<Handle, RepairJob>, after: map<Handle, RepairJob>, h: Handle, s: Handle, x: Handle)
    requires Listed(repair, after, h, s)
    ensures |Listing(after, x)| == |Listing(repair, x)| + if x == s then 1 else 0
  {
    hide Listing;
    var place := (h, if h in repair then |repair[h].swaps| else 0);
    forall y ensures y in Listing(after, x) <==> y in Listing(repair, x) || (x == s && y == place) {
      ListedPlace(repair, x, y);
      ListedPlace(after, x, y);
      assert y.0 in after.Keys <==> y.0 in repair.Keys || y.0 == h;
      assert y.0 in repair && y.0 != h ==> after[y.0] == repair[y.0];
    }
    ListedPlace(repair, s, place);
    assert Listing(after, x) == Listing(repair, x) + (if x == s then {place} else {});
    assert place !in Listing(repair, s);
  }

  lemma ListedRepairs(jobs: Jobs, after: Jobs, h: Handle, s: Handle, n: nat)
    requires RepairsOk(jobs, n) && HandlesOk(jobs) && s in jobs.swap && after.swap.Keys == jobs.swap.Keys
    requires Listed(jobs.repair, after.repair, h, s) && 0 <= after.repair[h].node < n
    requires if h in jobs.repair then after.idToRepair == jobs.idToRepair && after.next == jobs.next
             else h == jobs.next && after.next == h + 1 && after.idToRepair == Enlisted(jobs, after.repair[h].node, h)
    requires h !in jobs.repair ==> NoneAt(jobs, after.repair[h].node, after.repair[h].level)
    ensures RepairsOk(after, n) && HandlesOk(after)
  {
    forall x | x in after.repair ensures JobOk(after, x) && 0 <= after.repair[x].node < n {
      if x in jobs.repair {
        assert JobOk(jobs, x);
      }
    }
    forall v | v in after.idToRepair ensures ListOk(after, v) {
      if v in jobs.idToRepair {
        assert ListOk(jobs, v);
        if h !in jobs.repair {
          NoDupAppend(jobs.idToRepair[v], h);
        }
      }
    }
  }

  /** The node has no pending repair for the level. */
  ghost predicate NoneAt(jobs: Jobs, u: Id, level: nat) {
    u in jobs.idToRepair ==> forall g | g in jobs.idToRepair[u] && g in jobs.repair :: jobs.repair[g].level != level
  }

  /** The job that comes to list one more swap job: the pending one, or a new one. */
  function HandleFor(jobs: Jobs, u: Id, level: nat): Handle {
    match JobAt(jobs, u, level) case Some(h) => h case None => jobs.next
  }

  lemma AddRepairForm(jobs: Jobs, u: Id, level: nat, s: Handle, edges: seq<(Id, nat)>)
    requires u in jobs.idToRepair ==> ListOk(jobs, u)
    requires jobs.next !in jobs.repair && ListedOnlyBy(jobs.repair, s, edges)
    ensures var after, h := AddRepair(jobs, u, level, s), HandleFor(jobs, u, level);
      && Listed(jobs.repair, after.repair, h, s) && after.repair[h].node == u && after.repair[h].level == level
      && (if h in jobs.repair then after.idToRepair == jobs.idToRepair && after.next == jobs.next
          else h == jobs.next && after.next == h + 1 && after.idToRepair == Enlisted(jobs, u, h))
      && after.swap == jobs.swap && after.idToSwap == jobs.idToSwap && after.ready == jobs.ready
      && (h !in jobs.repair ==> NoneAt(jobs, u, level))
  {
    hide FirstAt;
  }

  lemma ListedGrows(repair: map<Handle, RepairJob>, after: map<Handle, RepairJob>, h: Handle, s: Handle,
                    edges: seq<(Id, nat)>)
    requires Listed(repair, after, h, s) && ListedOnlyBy(repair, s, edges)
    ensures Grows(repair, after) && ListedBy(after, s, after[h].node, after[h].level)
    ensures ListedOnlyBy(after, s, edges + [(after[h].node, after[h].level)]) && Unlisted(repair, after, s)
  {
    assert JobFor(after[h], after[h].node, after[h].level, s);
    forall x | x in after && s in after[x].swaps
      ensures (after[x].node, after[x].level) in edges + [(after[h].node, after[h].level)]
    {
      assert x in repair.Keys || x == h;
    }
  }

  lemma WithKeepsLists(jobs: Jobs, s: Handle, d: Id, k: nat, n: nat, u: Id)
    requires JobsOk(With(jobs, s, d, k), n)
    ensures u in jobs.idToRepair ==> ListOk(jobs, u)
  {
    assert u in jobs.idToRepair ==> ListOk(With(jobs, s, d, k), u);
  }

  lemma AddRepairKeeps(jobs: Jobs, u: Id, level: nat, s: Handle, d: Id, k: nat, n: nat, edges: seq<(Id, nat)>)
    requires JobsOk(With(jobs, s, d, k), n) && 0 <= u < n
    requires ListedOnlyBy(jobs.repair, s, edges)
    ensures var after := AddRepair(jobs, u, level, s);
      && JobsOk(With(after, s, d, k + 1), n) && Grows(jobs.repair, after.repair)
      && ListedBy(after.repair, s, u, level) && ListedOnlyBy(after.repair, s, edges + [(u, level)])
      && Unlisted(jobs.repair, after.repair, s)
      && after.swap == jobs.swap && after.idToSwap == jobs.idToSwap && after.ready == jobs.ready
  {
    hide AddRepair, HandleFor, CountersOk, JobOk, ListOk, HandlesOk, Listed, ListedBy, ListedOnlyBy, Grows, Unlisted;
    var before, after, h := With(jobs, s, d, k), AddRepair(jobs, u, level, s), HandleFor(jobs, u, level);
    WithKeepsLists(jobs, s, d, k, n, u);
    NextIsFree(before, n);
    AddRepairForm(jobs, u, level, s, edges);
    ListedGrows(jobs.repair, after.repair, h, s, edges);
    ListedCounts(jobs, after, h, s, d, k);
    ListedRepairs(before, With(after, s, d, k + 1), h, s, n);
  }

  /** The swap job s of d is under way, with `edges` taken care of. */
  ghost predicate Opening(first: Jobs, jobs: Jobs, s: Handle, d: Id, edges: seq<(Id, nat)>, n: nat) {
    && JobsOk(With(jobs, s, d, |edges|), n) && Grows(first.repair, jobs.repair)
    && ListedOnlyBy(jobs.repair, s, edges) && Unlisted(first.repair, jobs.repair, s)
    && (forall i | 0 <= i < |edges| :: ListedBy(jobs.repair, s, edges[i].0, edges[i].1))
    && jobs.swap == first.swap && jobs.idToSwap == first.idToSwap && jobs.ready == first.ready
  }

  /** Adds s to the pending repairs for all the edges. */
  function AddRepairs(jobs: Jobs, edges: seq<(Id, nat)>, s: Handle): Jobs {
    if edges == [] then jobs
    else
      var k := |edges| - 1;
      AddRepair(AddRepairs(jobs, edges[..k], s), edges[k].0, edges[k].1, s)
  }

  lemma {:induction false} AddRepairsOpens(jobs: Jobs, edges: seq<(Id, nat)>, s: Handle, d: Id, n: nat)
    requires Opening(jobs, jobs, s, d, [], n)
    requires forall i | 0 <= i < |edges| :: 0 <= edges[i].0 < n
    ensures Opening(jobs, AddRepairs(jobs, edges, s), s, d, edges, n)
  {
    hide Opening, AddRepair;
    if edges != [] {
      var k := |edges| - 1;
      AddRepairsOpens(jobs, edges[..k], s, d, n);
      OpeningStep(jobs, AddRepairs(jobs, edges[..k], s), s, d, edges, k, n);
      assert edges[..k + 1] == edges;
    }
  }

  lemma OpeningStep(first: Jobs, jobs: Jobs, s: Handle, d: Id, edges: seq<(Id, nat)>, k: nat, n: nat)
    requires k < |edges| && 0 <= edges[k].0 < n && Opening(first, jobs, s, d, edges[..k], n)
    ensures Opening(first, AddRepair(jobs, edges[k].0, edges[k].1, s), s, d, edges[..k + 1], n)
  {
    hide JobsOk, AddRepair, ListOk, ListedOnlyBy;
    var (u, level) := edges[k];
    assert edges[..k + 1] == edges[..k] + [edges[k]];
    AddRepairKeeps(jobs, u, level, s, d, k, n, edges[..k]);
    var after := AddRepair(jobs, u, level, s);
    forall i | 0 <= i < k + 1 ensures ListedBy(after.repair, s, edges[i].0, edges[i].1) {
      if i < k {
        GrowsKeepsListed(jobs.repair, after.repair, s, edges[..k][i].0, edges[i].1);
      }
    }
  }

  lemma GrowsKeepsListed(repair: map<Handle, RepairJob>, after: map<Handle, RepairJob>, s: Handle, u: Id, level: nat)
    requires Grows(repair, after) && ListedBy(repair, s, u, level)
    ensures ListedBy(after, s, u, level)
  {
    var h :| h in repair && JobFor(repair[h], u, level, s);
    assert JobFor(after[h], u, level, s);
  }

  /** Opens the swap job of d and schedules the repair of all the edges to it. */
  function OpenSwapJob(jobs: Jobs, d: Id, edges: seq<(Id, nat)>): Jobs {
    var s := jobs.next;
    var added := AddRepairs(jobs.(next := s + 1), edges, s);
    added.(swap := added.swap[s := SwapJob(d, |edges|)], idToSwap := added.idToSwap[d := s],
           ready := added.ready + if edges == [] then 1 else 0)
  }

  lemma OpeningStarts(jobs: Jobs, d: Id, n: nat)
    requires JobsOk(jobs, n)
    ensures var first := jobs.(next := jobs.next + 1); Opening(first, first, jobs.next, d, [], n)
  {
    var s, first := jobs.next, jobs.(next := jobs.next + 1);
    assert s !in jobs.swap;
    forall h | h in jobs.repair ensures JobOk(With(first, s, d, 0), h) && s !in jobs.repair[h].swaps {
      assert JobOk(jobs, h);
    }
    forall u | u in jobs.idToRepair ensures ListOk(With(first, s, d, 0), u) {
      assert ListOk(jobs, u);
    }
    assert Listing(jobs.repair, s) == {};
  }

  lemma OpenedPairs(jobs: Jobs, after: Jobs, tracked: set<Id>, d: Id, k: nat)
    requires Paired(jobs, tracked) && jobs.next !in jobs.swap && d !in tracked
    requires after.swap == jobs.swap[jobs.next := SwapJob(d, k)] && after.idToSwap == jobs.idToSwap[d := jobs.next]
    requires ReadyOk(jobs, 0) && after.ready == jobs.ready + if k == 0 then 1 else 0
    ensures Paired(after, tracked + {d}) && ReadyOk(after, 0)
  {
    hide Paired, ReadyOk;
    OpenedReady(jobs, after, d, k);
    OpenedPair(jobs, after, tracked, d, k);
  }

  lemma OpenedReady(jobs: Jobs, after: Jobs, d: Id, k: nat)
    requires jobs.next !in jobs.swap && after.swap == jobs.swap[jobs.next := SwapJob(d, k)]
    requires ReadyOk(jobs, 0) && after.ready == jobs.ready + if k == 0 then 1 else 0
    ensures ReadyOk(after, 0)
  {
    assert Ready(after.swap) == Ready(jobs.swap) + if k == 0 then {jobs.next} else {};
  }

  lemma OpenedPair(jobs: Jobs, after: Jobs, tracked: set<Id>, d: Id, k: nat)
    requires Paired(jobs, tracked) && jobs.next !in jobs.swap && d !in tracked
    requires after.swap == jobs.swap[jobs.next := SwapJob(d, k)] && after.idToSwap == jobs.idToSwap[d := jobs.next]
    ensures Paired(after, tracked + {d})
  {
  }

  lemma OpenedCovered(t: Tier, after: Jobs, d: Id, edges: seq<(Id, nat)>)
    requires Covered(t.ix, t.jobs, t.flying, Tracked(t)) && Collected(t.ix, d, edges)
    requires Grows(t.jobs.repair, after.repair) && after.idToSwap == t.jobs.idToSwap[d := t.jobs.next]
    requires forall i | 0 <= i < |edges| :: ListedBy(after.repair, t.jobs.next, edges[i].0, edges[i].1)
    ensures Covered(t.ix, after, t.flying, Tracked(t) + {d})
  {
    hide Edge, InHand;
    forall l: nat, u, v | v in Tracked(t) + {d} && Edge(t.ix, l, u, v)
      ensures Scheduled(after, u, l, v) || InHand(t.flying, u, l, v)
    {
      if v == d {
        var i :| 0 <= i < |edges| && edges[i] == (u, l);
        assert ListedBy(after.repair, t.jobs.next, edges[i].0, edges[i].1);
      } else if Scheduled(t.jobs, u, l, v) {
        GrowsKeepsListed(t.jobs.repair, after.repair, t.jobs.idToSwap[v], u, l);
      }
    }
  }

  /**
   * What was collected under several locks: every edge to d is among the edges, which may by now be gone,
   * or have been found twice; their origins are elements that have the level.
   */
  ghost predicate Collected(ix: Index, d: Id, edges: seq<(Id, nat)>) {
    && (forall i | 0 <= i < |edges| :: 0 <= edges[i].0 < |ix.top| && edges[i].1 <= ix.top[edges[i].0])
    && forall l: nat, u | Edge(ix, l, u, d) :: (u, l) in edges
  }

  lemma InEdgesAreCollected(ix: Index, d: Id, edges: seq<(Id, nat)>)
    requires IndexOk(ix) && InEdgesOf(ix, d, edges)
    ensures Collected(ix, d, edges)
  {
    hide WellFormed;
    forall i | 0 <= i < |edges| ensures 0 <= edges[i].0 < |ix.top| && edges[i].1 <= ix.top[edges[i].0] {
      assert LevelOk(ix, edges[i].1);
    }
  }

  /** The jobs for the edges are for levels their nodes have. */
  lemma OpenedLevels(t: Tier, after: Jobs, d: Id, edges: seq<(Id, nat)>, s: Handle)
    requires Collected(t.ix, d, edges) && LevelsInside(t.jobs, t.ix.top)
    requires ListedOnlyBy(after.repair, s, edges) && Unlisted(t.jobs.repair, after.repair, s)
    ensures LevelsInside(after, t.ix.top)
  {
    forall h | h in after.repair
      ensures 0 <= after.repair[h].node < |t.ix.top| && after.repair[h].level <= t.ix.top[after.repair[h].node]
    {
      if s in after.repair[h].swaps {
        var i :| 0 <= i < |edges| && edges[i] == (after.repair[h].node, after.repair[h].level);
      }
    }
  }

  /** Repair jobs that do not list s are the old ones. */
  ghost predicate Unlisted(repair: map<Handle, RepairJob>, after: map<Handle, RepairJob>, s: Handle) {
    forall h | h in after && s !in after[h].swaps :: h in repair && after[h] == repair[h]
  }

  /** Opening the swap job of a marked element leaves everything in order. */
  lemma OpenKeepsInv(t: Tier, d: Id, edges: seq<(Id, nat)>)
    requires Inv(t) && d in t.waiting && Collected(t.ix, d, edges)
    ensures Inv(t.(jobs := OpenSwapJob(t.jobs, d, edges), waiting := t.waiting - {d}))
  {
    hide IndexOk, JobsOk, Covered, Paired, ReadyOk, AddRepairs, ListedOnlyBy, Grows, ListedBy, LevelsInside,
      Unlisted;
    var s, n, first := t.jobs.next, |t.ix.top|, t.jobs.(next := t.jobs.next + 1);
    var after := OpenSwapJob(t.jobs, d, edges);
    OpeningStarts(t.jobs, d, n);
    AddRepairsOpens(first, edges, s, d, n);
    JobsOkIgnores(With(AddRepairs(first, edges, s), s, d, |edges|), after, n);
    NextIsFree(t.jobs, n);
    OpenedPairs(t.jobs, after, Tracked(t), d, |edges|);
    OpenedCovered(t, after, d, edges);
    OpenedLevels(t, after, d, edges, s);
    assert t.ix.deleted - (t.waiting - {d}) == Tracked(t) + {d};
  }

  lemma NextIsFree(jobs: Jobs, n: nat)
    requires JobsOk(jobs, n)
    ensures jobs.next !in jobs.swap && jobs.next !in jobs.repair
  {
  }
}

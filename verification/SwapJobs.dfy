/**
 * Executing swap jobs.  Removing an element renames the last element to the freed id, which has to be
 * followed in every pending repair and swap job, while the batch keeps iterating over the lookup that
 * is being rewritten.
 */
module SwapJobs {
  import opened Seqs
  import opened LevelGraphs
  import opened IndexModel
  import opened RemoveSwap
  import opened TieredJobs

  // ----- One job -----

  /** The pending repairs of the element that is disposed of are called off. */
  ghost function RetireNode(jobs: Jobs, d: Id): (r: Jobs)
    requires d in jobs.idToRepair ==> ListOk(jobs, d)
    ensures SameSwaps(jobs, r)
  {
    if d in jobs.idToRepair then
      var retired := RetireList(jobs, jobs.idToRepair[d]);
      retired.(idToRepair := retired.idToRepair - {d})
    else jobs
  }

  /** The pending repairs of the last element follow it to its new id. */
  ghost function RenameNode(jobs: Jobs, last: Id, d: Id): Jobs {
    if last in jobs.idToRepair then
      jobs.(repair := map h | h in jobs.repair ::
                        if h in jobs.idToRepair[last] then jobs.repair[h].(node := d) else jobs.repair[h],
            idToRepair := jobs.idToRepair[d := jobs.idToRepair[last]] - {last})
    else jobs
  }

  /** The element that takes the freed id is itself waiting for its removal. */
  predicate MovesSwap(jobs: Jobs, d: Id, last: Id, removed: seq<Id>) {
    last != d && last in jobs.idToSwap && last !in removed
  }

  /** The swap job of the last element, if any, follows it as well; its old key goes stale. */
  ghost function Retarget(jobs: Jobs, d: Id, last: Id, removed: seq<Id>): Jobs
    requires MovesSwap(jobs, d, last, removed) ==> jobs.idToSwap[last] in jobs.swap
  {
    if MovesSwap(jobs, d, last, removed) then
      var s := jobs.idToSwap[last];
      jobs.(swap := jobs.swap[s := jobs.swap[s].(deletedId := d)], idToSwap := jobs.idToSwap[d := s])
    else jobs
  }

  /** The key of the lookup that has to be erased at the end of the batch. */
  function StaleKey(jobs: Jobs, d: Id, last: Id, removed: seq<Id>): Id {
    if MovesSwap(jobs, d, last, removed) then last else d
  }

  ghost function ExecuteSwapJob(jobs: Jobs, d: Id, last: Id, removed: seq<Id>): Jobs
    requires d in jobs.idToRepair ==> ListOk(jobs, d)
    requires MovesSwap(jobs, d, last, removed) ==> jobs.idToSwap[last] in jobs.swap
  {
    var retired := RetireNode(jobs, d);
    Retarget(RenameNode(retired, last, d), d, last, removed)
  }

  ghost function Dispose(jobs: Jobs, gone: set<Handle>): Jobs {
    jobs.(swap := jobs.swap - gone)
  }

  /** The swap job of d, when there is one. */
  function OwnJob(jobs: Jobs, d: Id, deleted: set<Id>): set<Handle>
    requires d in deleted ==> d in jobs.idToSwap
  {
    if d in deleted then {jobs.idToSwap[d]} else {}
  }

  // ----- What one job keeps -----

  /** The lookup of swap jobs within a batch: keys in `removed` are stale, all others exact. */
  ghost predicate KeysOk(jobs: Jobs, deleted: set<Id>, removed: seq<Id>) {
    && deleted <= jobs.idToSwap.Keys <= deleted + Elems(removed)
    && Elems(removed) !! deleted
  }

  /** An id that is down for erasure is not given to an element with a swap job. */
  predicate Reusable(d: Id, last: Id, deleted: set<Id>, removed: seq<Id>) {
    d in removed && d != last ==> last !in deleted
  }

  ghost predicate BatchOk(jobs: Jobs, n: nat, deleted: set<Id>, removed: seq<Id>, extra: int) {
    && JobsOk(jobs, n) && ReadyOk(jobs, extra) && Paired(jobs, deleted) && KeysOk(jobs, deleted, removed)
    && Within(deleted, n)
  }

  ghost predicate SameOutside(jobs: Jobs, after: Jobs, d: Id) {
    && SameSwaps(jobs, after) && after.repair.Keys <= jobs.repair.Keys
    && forall h | h in jobs.repair ::
         && (jobs.repair[h].node != d ==> h in after.repair)
         && (h in after.repair ==> after.repair[h] == jobs.repair[h] && jobs.repair[h].node != d)
  }

  lemma RetireNodeKeeps(jobs: Jobs, d: Id, n: nat, extra: int)
    requires JobsOk(jobs, n) && ReadyOk(jobs, extra)
    ensures JobsOk(RetireNode(jobs, d), n) && ReadyOk(RetireNode(jobs, d), extra)
    ensures SameOutside(jobs, RetireNode(jobs, d), d) && d !in RetireNode(jobs, d).idToRepair
  {
    var after := RetireNode(jobs, d);
    if d in jobs.idToRepair {
      var hs := jobs.idToRepair[d];
      RetireListKeepsCounters(jobs, hs, extra);
      InElems(hs);
      forall h | h in jobs.repair ensures jobs.repair[h].node == d <==> h in hs {
        assert JobOk(jobs, h);
      }
      forall u | u in after.idToRepair ensures ListOk(after, u) {
        assert ListOk(jobs, u);
      }
      forall h | h in after.repair ensures JobOk(after, h) {
        assert JobOk(jobs, h);
      }
    } else {
      forall h | h in jobs.repair ensures jobs.repair[h].node != d {
        assert JobOk(jobs, h);
      }
    }
  }

  /** Same jobs, those of `last` being for d now. */
  ghost predicate Followed(jobs: Jobs, after: Jobs, last: Id, d: Id) {
    && after.swap == jobs.swap && after.idToSwap == jobs.idToSwap && after.next == jobs.next
    && after.ready == jobs.ready && after.repair.Keys == jobs.repair.Keys
    && forall h | h in jobs.repair ::
         after.repair[h] == jobs.repair[h].(node := if jobs.repair[h].node == last then d else jobs.repair[h].node)
  }

  lemma RenameNodeKeeps(jobs: Jobs, last: nat, d: Id)
    requires JobsOk(jobs, last + 1) && 0 <= d <= last && d !in jobs.idToRepair
    ensures JobsOk(RenameNode(jobs, last, d), last) && Followed(jobs, RenameNode(jobs, last, d), last, d)
  {
    var after := RenameNode(jobs, last, d);
    forall h | h in jobs.repair
      ensures jobs.repair[h].node == last <==> last in jobs.idToRepair && h in jobs.idToRepair[last]
      ensures jobs.repair[h].node != d
    {
      assert JobOk(jobs, h);
    }
    forall s ensures Listing(after.repair, s) == Listing(jobs.repair, s) {
    }
    forall u | u in after.idToRepair ensures ListOk(after, u) {
      assert ListOk(jobs, if u == d then last else u);
    }
    forall h | h in after.repair ensures JobOk(after, h) && 0 <= after.repair[h].node < last {
      assert JobOk(jobs, h);
    }
  }

  /** The swap jobs are those of before without `gone`, with their counters. */
  ghost predicate SameCounters(jobs: Jobs, after: Jobs, gone: set<Handle>) {
    && after.repair == jobs.repair && after.idToRepair == jobs.idToRepair
    && after.next == jobs.next && after.ready == jobs.ready
    && after.swap.Keys == jobs.swap.Keys - gone
    && forall s | s in after.swap :: after.swap[s].pending == jobs.swap[s].pending
  }

  lemma SameCountersKeep(jobs: Jobs, after: Jobs, gone: set<Handle>, n: nat, extra: int)
    requires SameCounters(jobs, after, gone) && JobsOk(jobs, n) && ReadyOk(jobs, extra)
    requires gone <= Ready(jobs.swap)
    ensures JobsOk(after, n) && ReadyOk(after, extra + |gone|)
  {
    forall h | h in after.repair ensures JobOk(after, h) {
      assert JobOk(jobs, h);
      forall s | s in after.repair[h].swaps ensures s in after.swap {
        InListing(jobs.repair, s, h);
      }
    }
    forall u | u in after.idToRepair ensures ListOk(after, u) {
      assert ListOk(jobs, u);
    }
    forall s ensures s in Ready(after.swap) <==> s in Ready(jobs.swap) - gone {
      assert s in after.swap.Keys <==> s in jobs.swap.Keys && s !in gone;
    }
    assert Ready(after.swap) == Ready(jobs.swap) - gone;
  }

  lemma SettlePairs(jobs: Jobs, after: Jobs, d: Id, last: nat, deleted: set<Id>, removed: seq<Id>)
    requires Paired(jobs, deleted) && KeysOk(jobs, deleted, removed)
    requires Within(deleted, last + 1) && 0 <= d <= last && Reusable(d, last, deleted, removed)
    requires MovesSwap(jobs, d, last, removed) ==> jobs.idToSwap[last] in jobs.swap && last in deleted
    requires after == Dispose(Retarget(jobs, d, last, removed), OwnJob(jobs, d, deleted))
    ensures Paired(after, RenamedKeys(deleted - {d}, last, d))
  {
  }

  lemma SettleKeys(jobs: Jobs, after: Jobs, d: Id, last: nat, deleted: set<Id>, removed: seq<Id>)
    requires KeysOk(jobs, deleted, removed) && Within(deleted, last + 1) && 0 <= d <= last
    requires Reusable(d, last, deleted, removed)
    requires MovesSwap(jobs, d, last, removed) ==> last in deleted
    requires last in deleted && last != d ==> MovesSwap(jobs, d, last, removed)
    requires after.idToSwap == if MovesSwap(jobs, d, last, removed) then jobs.idToSwap[d := jobs.idToSwap[last]]
                               else jobs.idToSwap
    ensures KeysOk(after, RenamedKeys(deleted - {d}, last, d), removed + [StaleKey(jobs, d, last, removed)])
    ensures Within(RenamedKeys(deleted - {d}, last, d), last)
  {
  }

  lemma SettleFacts(jobs: Jobs, d: Id, last: nat, deleted: set<Id>, removed: seq<Id>)
    requires Paired(jobs, deleted) && KeysOk(jobs, deleted, removed)
    requires d in deleted ==> jobs.swap[jobs.idToSwap[d]].pending == 0
    ensures MovesSwap(jobs, d, last, removed) <==> last != d && last in deleted
    ensures MovesSwap(jobs, d, last, removed) ==> jobs.idToSwap[last] in jobs.swap
    ensures OwnJob(jobs, d, deleted) <= Ready(jobs.swap)
    ensures SameCounters(jobs, Dispose(Retarget(jobs, d, last, removed), OwnJob(jobs, d, deleted)),
                         OwnJob(jobs, d, deleted))
  {
  }

  lemma SettleKeeps(jobs: Jobs, d: Id, last: nat, deleted: set<Id>, removed: seq<Id>, extra: int)
    requires JobsOk(jobs, last) && ReadyOk(jobs, extra) && Paired(jobs, deleted) && KeysOk(jobs, deleted, removed)
    requires Within(deleted, last + 1) && 0 <= d <= last && Reusable(d, last, deleted, removed)
    requires d in deleted ==> jobs.swap[jobs.idToSwap[d]].pending == 0
    ensures MovesSwap(jobs, d, last, removed) ==> jobs.idToSwap[last] in jobs.swap && last in deleted
    ensures var after := Dispose(Retarget(jobs, d, last, removed), OwnJob(jobs, d, deleted));
      BatchOk(after, last, RenamedKeys(deleted - {d}, last, d), removed + [StaleKey(jobs, d, last, removed)],
              if d in deleted then extra + 1 else extra)
  {
    SettleFacts(jobs, d, last, deleted, removed);
    hide Paired, KeysOk, JobsOk, ReadyOk, RenamedKeys, Elems, SameCounters, Within, Ready;
    var after := Dispose(Retarget(jobs, d, last, removed), OwnJob(jobs, d, deleted));
    SettlePairs(jobs, after, d, last, deleted, removed);
    SettleKeys(jobs, after, d, last, deleted, removed);
    SameCountersKeep(jobs, after, OwnJob(jobs, d, deleted), last, extra);
  }

  /** The jobs after the one of d was executed and disposed of, as far as it had one. */
  ghost function Executed(jobs: Jobs, d: Id, last: Id, deleted: set<Id>, removed: seq<Id>): Jobs
    requires d in jobs.idToRepair ==> ListOk(jobs, d)
    requires MovesSwap(jobs, d, last, removed) ==> jobs.idToSwap[last] in jobs.swap
    requires d in deleted ==> d in jobs.idToSwap
  {
    Dispose(ExecuteSwapJob(jobs, d, last, removed), OwnJob(jobs, d, deleted))
  }

  /** What was scheduled still is, under the new ids. */
  ghost predicate KeepsSchedule(jobs: Jobs, after: Jobs, d: Id, last: Id, deleted: set<Id>) {
    forall u, l: nat, v | v in RenamedKeys(deleted - {d}, last, d) && u != last
      && Scheduled(jobs, Back(u, last, d), l, Back(v, last, d)) :: Scheduled(after, u, l, v)
  }

  lemma UnlistedStays(jobs: Jobs, after: Jobs, s: Handle)
    requires CountersOk(jobs) && CountersOk(after) && s in jobs.swap && s in after.swap && jobs.swap[s].pending == 0
    requires Fewer(jobs.repair, after.repair)
    ensures after.swap[s].pending == 0
  {
    forall y ensures y !in Listing(after.repair, s) {
      assert y !in Listing(jobs.repair, s);
    }
    assert Listing(after.repair, s) == {};
  }

  /** The pending repairs of all elements but d are there, with `last` renamed. */
  ghost predicate RepairsFollow(repair: map<Handle, RepairJob>, after: map<Handle, RepairJob>, d: Id, last: Id) {
    && (forall h | h in repair && repair[h].node != d ::
          && h in after
          && after[h] == repair[h].(node := if repair[h].node == last then d else repair[h].node))
    && forall h | h in after :: h in repair && repair[h].node != d
  }

  ghost predicate Carried(jobs: Jobs, after: Jobs, d: Id, last: Id) {
    SameSwaps(jobs, after) && RepairsFollow(jobs.repair, after.repair, d, last)
  }

  lemma LevelsFollow(jobs: Jobs, after: Jobs, d: Id, top: seq<nat>)
    requires LevelsInside(jobs, top) && 0 <= d < |top|
    requires RepairsFollow(jobs.repair, after.repair, d, |top| - 1)
    ensures LevelsInside(after, LastMovedTo(top, d))
  {
  }

  /** No repair job lists more than it did. */
  ghost predicate Fewer(repair: map<Handle, RepairJob>, after: map<Handle, RepairJob>) {
    forall h | h in after :: h in repair && after[h].swaps == repair[h].swaps
  }

  lemma CarryKeeps(jobs: Jobs, d: Id, last: nat, deleted: set<Id>, extra: int)
    requires JobsOk(jobs, last + 1) && ReadyOk(jobs, extra) && Paired(jobs, deleted) && 0 <= d <= last
    requires d in deleted ==> jobs.swap[jobs.idToSwap[d]].pending == 0
    ensures d in jobs.idToRepair ==> ListOk(jobs, d)
    ensures var after := RenameNode(RetireNode(jobs, d), last, d);
      && JobsOk(after, last) && ReadyOk(after, extra) && Paired(after, deleted) && Carried(jobs, after, d, last)
      && (d in deleted ==> after.swap[after.idToSwap[d]].pending == 0)
  {
    var retired := RetireNode(jobs, d);
    RetireNodeKeeps(jobs, d, last + 1, extra);
    var renamed := RenameNode(retired, last, d);
    RenameNodeKeeps(retired, last, d);
    SameSwapsKeepPairs(jobs, renamed, deleted);
    if d in deleted {
      UnlistedStays(jobs, renamed, jobs.idToSwap[d]);
    }
  }

  lemma ScheduleFollows(jobs: Jobs, renamed: Jobs, after: Jobs, d: Id, last: nat, deleted: set<Id>, removed: seq<Id>)
    requires Paired(jobs, deleted) && KeysOk(jobs, deleted, removed) && Carried(jobs, renamed, d, last)
    requires MovesSwap(jobs, d, last, removed) <==> last != d && last in deleted
    requires after.repair == renamed.repair
    requires after.idToSwap == if MovesSwap(jobs, d, last, removed) then jobs.idToSwap[d := jobs.idToSwap[last]]
                               else jobs.idToSwap
    ensures KeepsSchedule(jobs, after, d, last, deleted)
  {
  }

  lemma ExecuteKeeps(jobs: Jobs, d: Id, last: nat, deleted: set<Id>, removed: seq<Id>, extra: int)
    requires BatchOk(jobs, last + 1, deleted, removed, extra) && 0 <= d <= last && Reusable(d, last, deleted, removed)
    requires d in deleted ==> jobs.swap[jobs.idToSwap[d]].pending == 0
    ensures d in jobs.idToRepair ==> ListOk(jobs, d)
    ensures MovesSwap(jobs, d, last, removed) ==> jobs.idToSwap[last] in jobs.swap
    ensures BatchOk(Executed(jobs, d, last, deleted, removed), last, RenamedKeys(deleted - {d}, last, d),
                    removed + [StaleKey(jobs, d, last, removed)], if d in deleted then extra + 1 else extra)
    ensures KeepsSchedule(jobs, Executed(jobs, d, last, deleted, removed), d, last, deleted)
    ensures RepairsFollow(jobs.repair, Executed(jobs, d, last, deleted, removed).repair, d, last)
  {
    SettleFacts(jobs, d, last, deleted, removed);
    CarryKeeps(jobs, d, last, deleted, extra);
    hide RetireNode, RenameNode, JobsOk, ReadyOk, Paired, RenamedKeys, KeepsSchedule, SameCounters, Ready, ListOk;
    var renamed := RenameNode(RetireNode(jobs, d), last, d);
    SettleKeeps(renamed, d, last, deleted, removed, extra);
    ScheduleFollows(jobs, renamed, Executed(jobs, d, last, deleted, removed), d, last, deleted, removed);
  }

  /** What executing leaves in the lookups. */
  lemma ExecutedFrame(jobs: Jobs, d: Id, last: nat, deleted: set<Id>, removed: seq<Id>)
    requires JobsOk(jobs, last + 1) && Paired(jobs, deleted) && KeysOk(jobs, deleted, removed) && 0 <= d <= last
    requires d in deleted ==> jobs.swap[jobs.idToSwap[d]].pending == 0
    requires MovesSwap(jobs, d, last, removed) ==> jobs.idToSwap[last] in jobs.swap
    ensures d in jobs.idToRepair ==> ListOk(jobs, d)
    ensures var after := Executed(jobs, d, last, deleted, removed);
      && after.swap.Keys == jobs.swap.Keys - OwnJob(jobs, d, deleted) && Fewer(jobs.repair, after.repair)
      && after.idToSwap == if MovesSwap(jobs, d, last, removed) then jobs.idToSwap[d := jobs.idToSwap[last]] else jobs.idToSwap
  {
    hide RetireNode, RenameNode, JobsOk, Paired, KeysOk, Ready, ListOk;
    CarryKeeps(jobs, d, last, deleted, jobs.ready - |Ready(jobs.swap)|);
  }

  // ----- A batch -----

  /** A batch under way: the index, the jobs, and the keys to erase at the end. */
  datatype Batch = Batch(ix: Index, jobs: Jobs, removed: seq<Id>)

  ghost predicate BatchInOrder(b: Batch) {
    && IndexOk(b.ix) && BatchOk(b.jobs, |b.ix.top|, b.ix.deleted, b.removed, |b.removed|)
    && Covered(b.ix, b.jobs, [], b.ix.deleted) && LevelsInside(b.jobs, b.ix.top)
  }

  lemma FollowKeepsCovered(ix: Index, after: Index, jobs: Jobs, jobs': Jobs, d: Id)
    requires 0 <= d < |ix.top| && EdgesFollow(ix, after, d) && Covered(ix, jobs, [], ix.deleted)
    requires after.deleted == RenamedKeys(ix.deleted - {d}, |ix.top| - 1, d) && Within(ix.deleted, |ix.top|)
    requires KeepsSchedule(jobs, jobs', d, |ix.top| - 1, ix.deleted)
    ensures Covered(after, jobs', [], after.deleted)
  {
  }

  /** The swap job under `key` can be looked at, and executed when it is ready. */
  ghost predicate CanVisit(b: Batch, key: Id) {
    && BatchInOrder(b) && key in b.jobs.idToSwap && b.jobs.idToSwap[key] in b.jobs.swap
  }

  /** What executing the ready job s needs, and that its element can be removed. */
  lemma ReadyJobFacts(b: Batch, s: Handle)
    requires BatchInOrder(b) && s in b.jobs.swap && b.jobs.swap[s].pending == 0
    ensures var d, last := b.jobs.swap[s].deletedId, |b.ix.top| - 1;
      && 0 <= d <= last && d in b.ix.deleted && d !in b.removed && NoInEdges(b.ix, d)
      && d in b.jobs.idToSwap && b.jobs.idToSwap[d] == s && OwnJob(b.jobs, d, b.ix.deleted) == {s}
      && (d in b.jobs.idToRepair ==> ListOk(b.jobs, d)) && Within(b.ix.deleted, |b.ix.top|)
      && (MovesSwap(b.jobs, d, last, b.removed) ==> b.jobs.idToSwap[last] in b.jobs.swap)
  {
    var d, last := b.jobs.swap[s].deletedId, |b.ix.top| - 1;
    ZeroMeansUnreferenced(b.ix, b.jobs, s);
    InElems(b.removed);
    SettleFacts(b.jobs, d, last, b.ix.deleted, b.removed);
  }

  /** Executing the ready job s removes its element from the index and settles the lookups. */
  ghost function ExecuteReady(b: Batch, s: Handle): Batch
    requires BatchInOrder(b) && s in b.jobs.swap && b.jobs.swap[s].pending == 0
  {
    ReadyJobFacts(b, s);
    var d, last := b.jobs.swap[s].deletedId, |b.ix.top| - 1;
    Batch(RemoveSwapIndex(b.ix, d), Dispose(ExecuteSwapJob(b.jobs, d, last, b.removed), {s}),
          b.removed + [StaleKey(b.jobs, d, last, b.removed)])
  }

  lemma ExecuteKeepsOrder(b: Batch, s: Handle)
    requires BatchInOrder(b) && s in b.jobs.swap && b.jobs.swap[s].pending == 0
    ensures BatchInOrder(ExecuteReady(b, s))
  {
    hide BatchInOrder, IndexOk, BatchOk, Covered, NoInEdges, ListOk, Within, MovesSwap, RemoveSwapIndex,
      ExecuteSwapJob, Dispose, StaleKey, OwnJob;
    ReadyJobFacts(b, s);
    RemovalInBatch(b.ix, b.jobs, b.removed, b.jobs.swap[s].deletedId, s);
  }

  lemma RemovalInBatch(ix: Index, jobs: Jobs, removed: seq<Id>, d: Id, s: Handle)
    requires BatchInOrder(Batch(ix, jobs, removed)) && d in ix.deleted && 0 <= d < |ix.top| && d !in removed
    requires Within(ix.deleted, |ix.top|)
    requires NoInEdges(ix, d) && d in jobs.idToSwap && jobs.idToSwap[d] == s
    requires s in jobs.swap && jobs.swap[s].pending == 0
    requires d in jobs.idToRepair ==> ListOk(jobs, d)
    requires MovesSwap(jobs, d, |ix.top| - 1, removed) ==> jobs.idToSwap[|ix.top| - 1] in jobs.swap
    ensures BatchInOrder(Batch(RemoveSwapIndex(ix, d), Dispose(ExecuteSwapJob(jobs, d, |ix.top| - 1, removed), {s}),
                               removed + [StaleKey(jobs, d, |ix.top| - 1, removed)]))
  {
    hide IndexOk, BatchOk, Covered, NoInEdges, EdgesFollow, KeepsSchedule, RemoveSwapIndex, ExecuteSwapJob, Dispose,
      MovesSwap, ListOk, Within, RenamedKeys, LastMovedTo, LevelsInside, RepairsFollow;
    var last := |ix.top| - 1;
    var after, jobs' := RemoveSwapIndex(ix, d), Executed(jobs, d, last, ix.deleted, removed);
    assert jobs' == Dispose(ExecuteSwapJob(jobs, d, last, removed), {s});
    hide Executed;
    RemoveSwapFollows(ix, d);
    RemoveSwapShape(ix, d);
    ExecuteKeeps(jobs, d, last, ix.deleted, removed, |removed|);
    FollowKeepsCovered(ix, after, jobs, jobs', d);
    LevelsFollow(jobs, jobs', d, ix.top);
  }

  /** One turn of the batch. */
  ghost function Visit(b: Batch, key: Id): Batch
    requires CanVisit(b, key)
  {
    var s := b.jobs.idToSwap[key];
    if b.jobs.swap[s].pending == 0 then ExecuteReady(b, s) else b
  }

  /**
   * The batch has visited order[..i] of the keys, `first` being the jobs it started with.  Keys not
   * visited yet still lead to the job they led to at first, and that job is still there: lookups are
   * only rewritten under visited keys, and every job is disposed of under the key it started with.
   */
  ghost predicate Visiting(b: Batch, order: seq<Id>, i: nat, first: Jobs) {
    && BatchInOrder(b) && i <= |order|
    && b.jobs.idToSwap.Keys == first.idToSwap.Keys && KeysListed(first, order) && CountersOk(first)
    && (forall j | i <= j < |order| ::
          b.jobs.idToSwap[order[j]] == first.idToSwap[order[j]] && first.idToSwap[order[j]] in b.jobs.swap)
    && b.jobs.swap.Keys <= first.swap.Keys && Fewer(first.repair, b.jobs.repair)
    && (forall j | 0 <= j < i ::
          first.idToSwap[order[j]] in Ready(first.swap) ==> first.idToSwap[order[j]] !in b.jobs.swap)
  }

  /** `order` goes once over the keys of the lookup of swap jobs, each of which leads to a job of its own. */
  ghost predicate KeysListed(first: Jobs, order: seq<Id>) {
    && (forall j | 0 <= j < |order| :: order[j] in first.idToSwap && first.idToSwap[order[j]] in first.swap)
    && (forall k | k in first.idToSwap :: k in order)
    && forall j, k | 0 <= j < k < |order| :: first.idToSwap[order[j]] != first.idToSwap[order[k]]
  }

  /** What executing a job changes of the jobs. */
  lemma ExecuteReadyFrame(b: Batch, s: Handle)
    requires BatchInOrder(b) && s in b.jobs.swap && b.jobs.swap[s].pending == 0
    ensures var after, d, last := ExecuteReady(b, s), b.jobs.swap[s].deletedId, |b.ix.top| - 1;
      && d in b.jobs.idToSwap && b.jobs.idToSwap[d] == s && |after.removed| == |b.removed| + 1
      && after.jobs.swap.Keys == b.jobs.swap.Keys - {s} && Fewer(b.jobs.repair, after.jobs.repair)
      && after.jobs.idToSwap.Keys == b.jobs.idToSwap.Keys
      && forall k | k in b.jobs.idToSwap && k != d :: after.jobs.idToSwap[k] == b.jobs.idToSwap[k]
  {
    hide IndexOk, Covered, NoInEdges, ListOk, Within, RemoveSwapIndex, ExecuteSwapJob, Dispose, StaleKey;
    ReadyJobFacts(b, s);
    var d, last := b.jobs.swap[s].deletedId, |b.ix.top| - 1;
    ExecutedFrame(b.jobs, d, last, b.ix.deleted, b.removed);
  }

  lemma VisitKeeps(b: Batch, order: seq<Id>, i: nat, first: Jobs)
    requires Visiting(b, order, i, first) && i < |order|
    ensures CanVisit(b, order[i]) && Visiting(Visit(b, order[i]), order, i + 1, first)
  {
    hide BatchInOrder, ExecuteReady;
    var s := first.idToSwap[order[i]];
    if b.jobs.swap[s].pending == 0 {
      ExecuteReadyFrame(b, s);
      ExecuteKeepsOrder(b, s);
      var after := ExecuteReady(b, s);
      forall j | i < j < |order|
        ensures after.jobs.idToSwap[order[j]] == first.idToSwap[order[j]] && first.idToSwap[order[j]] in after.jobs.swap
      {
        assert first.idToSwap[order[j]] != first.idToSwap[order[i]];
        assert order[j] in b.jobs.idToSwap && order[j] != b.jobs.swap[s].deletedId;
      }
    } else {
      StillReady(b, s, first);
    }
  }

  lemma StillReady(b: Batch, s: Handle, first: Jobs)
    requires BatchInOrder(b) && s in b.jobs.swap && s in first.swap
    requires CountersOk(first) && Fewer(first.repair, b.jobs.repair)
    ensures s in Ready(first.swap) ==> b.jobs.swap[s].pending == 0
  {
    hide IndexOk, Covered, Paired, KeysOk, RepairsOk;
    if s in Ready(first.swap) {
      UnlistedStays(first, b.jobs, s);
    }
  }

  /** The batch from key i on; with a limit other than zero it stops when that many jobs were executed. */
  ghost function RunBatch(b: Batch, order: seq<Id>, i: nat, limit: nat, first: Jobs): Batch
    requires Visiting(b, order, i, first)
    decreases |order| - i
  {
    if i == |order| then b
    else
      VisitKeeps(b, order, i, first);
      var after := Visit(b, order[i]);
      if limit > 0 && |after.removed| >= limit then after else RunBatch(after, order, i + 1, limit, first)
  }

  /** Elements neither marked nor removed. */
  function LiveCount(ix: Index): int {
    |ix.top| - |ix.deleted|
  }

  lemma VisitCounts(b: Batch, key: Id)
    requires CanVisit(b, key)
    ensures LiveCount(Visit(b, key).ix) == LiveCount(b.ix)
    ensures |b.removed| <= |Visit(b, key).removed| <= |b.removed| + 1
    ensures |Visit(b, key).ix.top| + |Visit(b, key).removed| == |b.ix.top| + |b.removed|
    ensures |Visit(b, key).jobs.swap.Keys| + |Visit(b, key).removed| == |b.jobs.swap.Keys| + |b.removed|
  {
    hide BatchInOrder, IndexOk, Covered, BatchOk, NoInEdges, ExecuteSwapJob, Dispose, SwapOut;
    var s := b.jobs.idToSwap[key];
    if b.jobs.swap[s].pending == 0 {
      ReadyJobFacts(b, s);
      ExecuteReadyFrame(b, s);
      RenamedSize(b.ix.deleted - {b.jobs.swap[s].deletedId}, |b.ix.top| - 1, b.jobs.swap[s].deletedId);
    }
  }

  /**
   * From any key on, a batch keeps its order and counts; it executes no more jobs than the limit allows, and
   * unless it reaches the limit it goes through all the keys.
   */
  lemma {:induction false} RunBatchKeeps(b: Batch, order: seq<Id>, i: nat, limit: nat, first: Jobs)
    requires Visiting(b, order, i, first)
    ensures var r := RunBatch(b, order, i, limit, first);
      && BatchInOrder(r)
      && LiveCount(r.ix) == LiveCount(b.ix) && |r.ix.top| + |r.removed| == |b.ix.top| + |b.removed|
      && |r.jobs.swap.Keys| + |r.removed| == |b.jobs.swap.Keys| + |b.removed| && |b.removed| <= |r.removed|
      && (limit > 0 && |b.removed| < limit ==> |r.removed| <= limit)
      && (limit == 0 || |r.removed| < limit ==> Visiting(r, order, |order|, first))
    decreases |order| - i
  {
    hide BatchInOrder, Visit, LiveCount, KeysListed;
    if i < |order| {
      VisitKeeps(b, order, i, first);
      VisitCounts(b, order[i]);
      var after := Visit(b, order[i]);
      if !(limit > 0 && |after.removed| >= limit) {
        RunBatchKeeps(after, order, i + 1, limit, first);
      }
    }
  }

  // ----- Garbage collection -----

  /** Erases the stale keys at the end of a batch. */
  ghost function Finished(b: Batch): Tier {
    Tier(b.ix, b.jobs.(idToSwap := b.jobs.idToSwap - Elems(b.removed), ready := b.jobs.ready - |b.removed|), [], {})
  }

  /** `order` is an order in which the lookup of swap jobs can be gone through. */
  ghost predicate KeyOrder(jobs: Jobs, order: seq<Id>) {
    NoDup(order) && Elems(order) == jobs.idToSwap.Keys
  }

  /** Collection runs under the exclusive lock: no repair is in hand and nothing is half marked. */
  ghost predicate Quiet(t: Tier) {
    t.flying == [] && t.waiting == {}
  }

  lemma PairOf(jobs: Jobs, tracked: set<Id>, d: Id)
    requires Paired(jobs, tracked) && d in tracked
    ensures d in jobs.idToSwap && jobs.idToSwap[d] in jobs.swap && jobs.swap[jobs.idToSwap[d]].deletedId == d
  {
  }

  lemma BatchCanStart(t: Tier, order: seq<Id>)
    requires Inv(t) && Quiet(t) && KeyOrder(t.jobs, order)
    ensures Visiting(Batch(t.ix, t.jobs, []), order, 0, t.jobs)
  {
    hide LevelOk, Covered, RepairsOk, HandlesOk, CountersOk, ReadyOk;
    InElems(order);
    assert Tracked(t) == t.ix.deleted && KeysOk(t.jobs, t.ix.deleted, []);
    forall j | 0 <= j < |order| ensures order[j] in t.jobs.idToSwap && t.jobs.idToSwap[order[j]] in t.jobs.swap {
      PairOf(t.jobs, Tracked(t), order[j]);
    }
    forall k | k in t.jobs.idToSwap ensures k in order {
      assert k in t.jobs.idToSwap.Keys;
    }
    forall j, k | 0 <= j < k < |order| ensures t.jobs.idToSwap[order[j]] != t.jobs.idToSwap[order[k]] {
      PairOf(t.jobs, Tracked(t), order[j]);
      PairOf(t.jobs, Tracked(t), order[k]);
    }
  }

  ghost function CollectGarbage(t: Tier, order: seq<Id>, limit: nat): Tier
    requires Inv(t) && Quiet(t) && KeyOrder(t.jobs, order)
  {
    BatchCanStart(t, order);
    Finished(RunBatch(Batch(t.ix, t.jobs, []), order, 0, limit, t.jobs))
  }

  lemma FinishedKeepsInv(b: Batch)
    requires BatchInOrder(b)
    ensures Inv(Finished(b))
  {
    hide IndexOk;
    var t := Finished(b);
    assert t.jobs.idToSwap.Keys == b.ix.deleted;
    assert Paired(t.jobs, b.ix.deleted);
    JobsOkIgnores(b.jobs, t.jobs, |b.ix.top|);
    hide JobsOk, Paired;
    forall l: nat, u, d | d in b.ix.deleted && Edge(b.ix, l, u, d) ensures Scheduled(t.jobs, u, l, d) {
      assert Scheduled(b.jobs, u, l, d);
    }
  }

  /**
   * What a collection clears: no more than a limit allows, but as many as it allows or as were ready at the
   * start.  Below the limit, and without one, no job that was ready is left.
   */
  ghost predicate Cleared(t: Tier, after: Tier, limit: nat) {
    var removed := |t.ix.top| - |after.ix.top|;
    && removed >= 0 && (limit > 0 ==> removed <= limit)
    && (if 0 < limit <= |Ready(t.jobs.swap)| then removed == limit else removed >= |Ready(t.jobs.swap)|)
    && (limit == 0 || removed < limit ==> Ready(t.jobs.swap) !! after.jobs.swap.Keys)
  }

  /**
   * For any order of the keys and any limit, a collection leaves exactly the marked elements with a swap
   * job, each for its own element, with exact counters; it removes only elements that nobody points to
   * any more, and as many as the limit and the jobs that are ready allow.
   */
  lemma CollectGarbageKeepsInv(t: Tier, order: seq<Id>, limit: nat)
    requires Inv(t) && Quiet(t) && KeyOrder(t.jobs, order)
    ensures var after := CollectGarbage(t, order, limit);
      && Inv(after) && Quiet(after)
      && LiveCount(after.ix) == LiveCount(t.ix) && Cleared(t, after, limit)
  {
    hide BatchInOrder, Inv, LiveCount, KeyOrder, RunBatch, Visiting;
    BatchCanStart(t, order);
    var first := Batch(t.ix, t.jobs, []);
    RunBatchKeeps(first, order, 0, limit, t.jobs);
    var last := RunBatch(first, order, 0, limit, t.jobs);
    FinishedKeepsInv(last);
    if limit == 0 || |last.removed| < limit {
      AllReadyExecuted(t, order, last);
      assert Ready(t.jobs.swap) <= t.jobs.swap.Keys - last.jobs.swap.Keys;
      SubsetCardinality(Ready(t.jobs.swap), t.jobs.swap.Keys - last.jobs.swap.Keys);
      SwapKeysShrink(t.jobs, order, last);
    }
  }

  /** With as many jobs ready as the limit says, a collection uses it up. */
  lemma EnoughCleared(t: Tier, after: Tier, limit: nat)
    requires Inv(t) && Cleared(t, after, limit) && t.jobs.ready >= limit > 0
    ensures |after.ix.top| == |t.ix.top| - limit
  {
  }

  lemma SwapKeysShrink(first: Jobs, order: seq<Id>, b: Batch)
    requires Visiting(b, order, |order|, first)
    ensures b.jobs.swap.Keys <= first.swap.Keys
    ensures |first.swap.Keys - b.jobs.swap.Keys| == |first.swap.Keys| - |b.jobs.swap.Keys|
  {
  }

  lemma AllReadyExecuted(t: Tier, order: seq<Id>, b: Batch)
    requires Inv(t) && Quiet(t) && Visiting(b, order, |order|, t.jobs)
    ensures Ready(t.jobs.swap) !! b.jobs.swap.Keys
  {
    hide BatchInOrder, IndexOk, Covered, JobsOk, CountersOk, Fewer;
    forall s | s in Ready(t.jobs.swap) ensures s !in b.jobs.swap {
      var d := t.jobs.swap[s].deletedId;
      assert d in t.jobs.idToSwap && t.jobs.idToSwap[d] == s && d in order;
      var j :| 0 <= j < |order| && order[j] == d;
    }
  }
}

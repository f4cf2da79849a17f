/**
 * What the steps of the tiered index do to the jobs, and that each of them keeps the books: every edge
 * to a marked element is covered by a repair, and the counters are exact.
 */
module TieredProtocol {
  import opened Seqs
  import opened LevelGraphs
  import opened IndexModel
  import opened RemoveSwap
  import opened TieredJobs
  import opened SwapJobs
  import opened RepairScheduling

  // ----- The jobs' part of the steps -----

  /** A repair job leaves the queue, before it is executed. */
  ghost function PopJob(jobs: Jobs, h: Handle): Jobs
    requires h in jobs.repair && JobOk(jobs, h)
  {
    var u := jobs.repair[h].node;
    var hs := jobs.idToRepair[u];
    Retire(jobs, h).(idToRepair := if |hs| == 1 then jobs.idToRepair - {u} else jobs.idToRepair[u := SwapRemove(hs, h)])
  }

  /** The job is in hand. */
  ghost function Taken(t: Tier, h: Handle): Tier
    requires h in t.jobs.repair && JobOk(t.jobs, h)
  {
    t.(jobs := PopJob(t.jobs, h), flying := t.flying + [Popped(t.jobs.repair[h].node, t.jobs.repair[h].level)])
  }

  /** A repair in hand is done with. */
  function Landed(t: Tier, i: nat): Tier
    requires i < |t.flying|
  {
    t.(flying := t.flying[..i] + t.flying[i + 1..])
  }

  /** In-place deletion accounts for the element as ready, settles its jobs and erases the stale key. */
  ghost function RemovedNow(t: Tier, id: Id, after: Index): Tier
    requires Inv(t) && Quiet(t) && 0 <= id < |t.ix.top| && id !in t.ix.deleted
  {
    var last, jobs := |t.ix.top| - 1, t.jobs.(ready := t.jobs.ready + 1);
    RemoveNowFacts(t, id);
    Finished(Batch(after, ExecuteSwapJob(jobs, id, last, []), [StaleKey(jobs, id, last, [])]))
  }

  lemma RemoveNowFacts(t: Tier, id: Id)
    requires Inv(t) && Quiet(t) && 0 <= id < |t.ix.top|
    ensures var last, jobs := |t.ix.top| - 1, t.jobs.(ready := t.jobs.ready + 1);
      && BatchOk(jobs, |t.ix.top|, t.ix.deleted, [], 1) && Covered(t.ix, jobs, [], t.ix.deleted)
      && (id in jobs.idToRepair ==> ListOk(jobs, id))
      && (MovesSwap(jobs, id, last, []) ==> jobs.idToSwap[last] in jobs.swap)
  {
    hide LevelOk, CountersOk, HandlesOk, JobsOk;
    assert Tracked(t) == t.ix.deleted;
    var last, jobs := |t.ix.top| - 1, t.jobs.(ready := t.jobs.ready + 1);
    JobsOkIgnores(t.jobs, jobs, |t.ix.top|);
    assert KeysOk(jobs, t.ix.deleted, []);
    forall l: nat, u, d | d in t.ix.deleted && Edge(t.ix, l, u, d) ensures Scheduled(jobs, u, l, d) {
      assert Scheduled(t.jobs, u, l, d);
    }
    if id in jobs.idToRepair {
      ListIsOk(jobs, id, |t.ix.top|);
    }
    if last in jobs.idToSwap {
      PairOf(jobs, t.ix.deleted, last);
    }
  }

  lemma ListIsOk(jobs: Jobs, u: Id, n: nat)
    requires JobsOk(jobs, n) && u in jobs.idToRepair
    ensures ListOk(jobs, u)
  {
  }

  // ----- What each step keeps -----

  lemma StoreKeepsInv(t: Tier, level: nat)
    requires Inv(t)
    ensures Inv(t.(ix := StoreElement(t.ix, level)))
  {
    hide IndexOk, Edge, JobsOk, Paired, ReadyOk, Scheduled, InHand;
    var after := StoreElement(t.ix, level);
    StoreKeepsOk(t.ix, level);
    MoreIds(t.jobs, |t.ix.top|, |after.top|);
    forall l: nat, u, d | d in Tracked(t) && Edge(after, l, u, d)
      ensures Scheduled(t.jobs, u, l, d) || InHand(t.flying, u, l, d)
    {
      EdgeLevel(after, l, u, d);
      StoreLevel(t.ix, level, l);
    }
  }

  lemma EdgeLevel(ix: Index, l: nat, u: Id, v: Id)
    requires Edge(ix, l, u, v)
    ensures l < |ix.levels|
  {
  }

  lemma MoreIds(jobs: Jobs, n: nat, m: nat)
    requires JobsOk(jobs, n) && n <= m
    ensures JobsOk(jobs, m)
  {
  }

  /** Steps on the graph alone that bring no edge to a deleted element keep the invariant. */
  lemma RelinkKeepsInv(t: Tier, after: Index)
    requires Inv(t) && Relinked(t.ix, after)
    ensures Inv(t.(ix := after))
  {
  }

  lemma FlagsKeepInv(t: Tier, after: Index, waiting: set<Id>)
    requires Inv(t) && after == t.ix.(deleted := after.deleted, inProcess := after.inProcess)
    requires Within(after.deleted, |t.ix.top|) && Within(after.inProcess, |t.ix.top|)
    requires waiting <= after.deleted && after.deleted - waiting == Tracked(t)
    ensures Inv(t.(ix := after, waiting := waiting))
  {
    FlagsKeepOk(t.ix, after);
    hide IndexOk, Edge, JobsOk, Paired, ReadyOk, Scheduled, InHand;
    forall l: nat, u, d | d in Tracked(t) && Edge(after, l, u, d)
      ensures Scheduled(t.jobs, u, l, d) || InHand(t.flying, u, l, d)
    {
      assert Edge(t.ix, l, u, d);
    }
  }

  lemma EndInsertKeepsInv(t: Tier, id: Id)
    requires Inv(t)
    ensures Inv(t.(ix := t.ix.(inProcess := t.ix.inProcess - {id})))
  {
    FlagsKeepInv(t, t.ix.(inProcess := t.ix.inProcess - {id}), t.waiting);
  }

  lemma MarkKeepsInv(t: Tier, ids: set<Id>)
    requires Inv(t) && ids !! t.ix.deleted && Within(ids, |t.ix.top|)
    ensures Inv(t.(ix := t.ix.(deleted := t.ix.deleted + ids), waiting := t.waiting + ids))
  {
    FlagsKeepInv(t, t.ix.(deleted := t.ix.deleted + ids), t.waiting + ids);
  }

  lemma PopRepairs(jobs: Jobs, h: Handle, n: nat)
    requires JobsOk(jobs, n) && h in jobs.repair && JobOk(jobs, h) && CountersOk(Retire(jobs, h))
    ensures JobsOk(PopJob(jobs, h), n)
  {
    var after, u := PopJob(jobs, h), jobs.repair[h].node;
    var hs := jobs.idToRepair[u];
    SwapRemoveElems(hs, h);
    InElems(hs);
    InElems(SwapRemove(hs, h));
    assert ListOk(jobs, u);
    assert |hs| == 1 ==> forall x | x in hs :: x == hs[0];
    forall x | x in after.repair ensures JobOk(after, x) {
      assert JobOk(jobs, x);
    }
    forall v | v in after.idToRepair ensures ListOk(after, v) {
      assert ListOk(jobs, v);
    }
  }

  lemma PopKeepsInv(t: Tier, h: Handle)
    requires Inv(t) && h in t.jobs.repair
    ensures JobOk(t.jobs, h) && Inv(Taken(t, h))
  {
    hide IndexOk, Edge;
    assert JobOk(t.jobs, h);
    var jobs', job := PopJob(t.jobs, h), t.jobs.repair[h];
    RetireKeepsCounters(t.jobs, h, 0);
    PopRepairs(t.jobs, h, |t.ix.top|);
    SameSwapsKeepPairs(t.jobs, jobs', Tracked(t));
    PopKeepsCovered(t, jobs', h);
  }

  lemma PopKeepsCovered(t: Tier, jobs': Jobs, h: Handle)
    requires Covered(t.ix, t.jobs, t.flying, Tracked(t)) && h in t.jobs.repair
    requires jobs'.repair == t.jobs.repair - {h} && jobs'.idToSwap == t.jobs.idToSwap
    ensures Covered(t.ix, jobs', t.flying + [Popped(t.jobs.repair[h].node, t.jobs.repair[h].level)], Tracked(t))
  {
    hide Edge;
    var job := t.jobs.repair[h];
    var flying' := t.flying + [Popped(job.node, job.level)];
    forall l: nat, u, d | d in Tracked(t) && Edge(t.ix, l, u, d)
      ensures Scheduled(jobs', u, l, d) || InHand(flying', u, l, d)
    {
      if Scheduled(t.jobs, u, l, d) {
        var x :| x in t.jobs.repair && JobFor(t.jobs.repair[x], u, l, t.jobs.idToSwap[d]);
        if x == h {
          assert Drops(flying'[|t.flying|], u, l, d);
        } else {
          assert x in jobs'.repair && JobFor(jobs'.repair[x], u, l, jobs'.idToSwap[d]);
        }
      } else {
        var i :| 0 <= i < |t.flying| && Drops(t.flying[i], u, l, d);
        assert Drops(flying'[i], u, l, d);
      }
    }
  }

  /** A repair in hand goes on, knowing its targets: all edges it has to drop are among them. */
  lemma ProgressKeepsInv(t: Tier, i: nat, f: Flight)
    requires Inv(t) && i < |t.flying| && f.node == t.flying[i].node && f.level == t.flying[i].level
    requires forall d | d in Tracked(t) && Edge(t.ix, f.level, f.node, d) && Drops(t.flying[i], f.node, f.level, d) ::
               Drops(f, f.node, f.level, d)
    ensures Inv(t.(flying := t.flying[i := f]))
  {
    hide IndexOk, JobsOk, Paired, ReadyOk, Scheduled, Edge;
    var flying' := t.flying[i := f];
    forall l: nat, u, d | d in Tracked(t) && Edge(t.ix, l, u, d)
      ensures Scheduled(t.jobs, u, l, d) || InHand(flying', u, l, d)
    {
      if !Scheduled(t.jobs, u, l, d) {
        var j :| 0 <= j < |t.flying| && Drops(t.flying[j], u, l, d);
        assert Drops(flying'[j], u, l, d);
      }
    }
  }

  /** A repair in hand ends, with none of the edges left that it had to drop. */
  lemma LandKeepsInv(t: Tier, i: nat, after: Index)
    requires Inv(t) && i < |t.flying| && Relinked(t.ix, after)
    requires var f := t.flying[i];
      forall d | d in Tracked(t) && Drops(f, f.node, f.level, d) :: !Edge(after, f.level, f.node, d)
    ensures Inv(Landed(t, i).(ix := after))
  {
    hide IndexOk, JobsOk, Paired, ReadyOk, Scheduled, Edge;
    var flying' := Landed(t, i).flying;
    forall l: nat, u, d | d in Tracked(t) && Edge(after, l, u, d)
      ensures Scheduled(t.jobs, u, l, d) || InHand(flying', u, l, d)
    {
      assert Edge(t.ix, l, u, d);
      if !Scheduled(t.jobs, u, l, d) {
        var j :| 0 <= j < |t.flying| && Drops(t.flying[j], u, l, d);
        assert j != i;
        assert Drops(flying'[if j < i then j else j - 1], u, l, d);
      }
    }
  }

  lemma RemoveNowKeepsInv(t: Tier, id: Id, after: Index)
    requires Inv(t) && Quiet(t) && 0 <= id < |t.ix.top| && id !in t.ix.deleted && TakenOut(t.ix, after, id)
    ensures Inv(RemovedNow(t, id, after))
  {
    hide IndexOk, JobsOk, Paired, ReadyOk, Covered, ListOk, ExecuteSwapJob, KeysOk, EdgesFollow, KeepsSchedule;
    var last, jobs := |t.ix.top| - 1, t.jobs.(ready := t.jobs.ready + 1);
    RemoveNowFacts(t, id);
    ExecuteKeeps(jobs, id, last, t.ix.deleted, [], 1);
    var jobs' := ExecuteSwapJob(jobs, id, last, []);
    assert Executed(jobs, id, last, t.ix.deleted, []) == jobs';
    FollowKeepsCovered(t.ix, after, jobs, jobs', id);
    assert [] + [StaleKey(jobs, id, last, [])] == [StaleKey(jobs, id, last, [])];
    LevelsFollow(jobs, jobs', id, t.ix.top);
    FinishedKeepsInv(Batch(after, jobs', [StaleKey(jobs, id, last, [])]));
  }

  /** An index without elements. */
  function EmptyTier(max: nat): Tier {
    Tier(Index(max, [], {}, {}, []), Jobs(map[], map[], map[], map[], 0, 0), [], {})
  }

  lemma EmptyTierInv(max: nat)
    ensures Inv(EmptyTier(max))
  {
  }

  /**
   * Once all repairs were made, one collection without a limit removes every marked element, whatever
   * the order it goes through the jobs in.
   */
  lemma DrainedMeansClean(t: Tier, order: seq<Id>)
    requires Inv(t) && Quiet(t) && KeyOrder(t.jobs, order) && t.jobs.repair == map[]
    ensures var after := CollectGarbage(t, order, 0); Inv(after) && after.ix.deleted == {} && after.jobs.swap == map[]
  {
    hide IndexOk, Covered, RepairsOk, HandlesOk, CollectGarbage, Finished;
    CollectGarbageKeepsInv(t, order, 0);
    var after := CollectGarbage(t, order, 0);
    CollectionFrees(t, order, 0);
    forall s | s in t.jobs.swap ensures s in Ready(t.jobs.swap) {
      assert Listing(t.jobs.repair, s) == {};
    }
    assert after.jobs.swap.Keys == {};
    assert Tracked(after) == after.ix.deleted;
    forall d | d in after.ix.deleted ensures false {
      PairOf(after.jobs, Tracked(after), d);
    }
  }

  lemma CollectionFrees(t: Tier, order: seq<Id>, limit: nat)
    requires Inv(t) && Quiet(t) && KeyOrder(t.jobs, order)
    ensures CollectGarbage(t, order, limit).jobs.swap.Keys <= t.jobs.swap.Keys
  {
    BatchCanStart(t, order);
    hide Inv, Quiet, KeyOrder, BatchInOrder, KeysListed, CountersOk, Visit;
    RunBatchFrees(Batch(t.ix, t.jobs, []), order, 0, limit, t.jobs);
  }

  lemma {:induction false} RunBatchFrees(b: Batch, order: seq<Id>, i: nat, limit: nat, first: Jobs)
    requires Visiting(b, order, i, first)
    ensures RunBatch(b, order, i, limit, first).jobs.swap.Keys <= first.swap.Keys
    decreases |order| - i
  {
    hide BatchInOrder, Visit, KeysListed;
    if i < |order| {
      VisitKeeps(b, order, i, first);
      var after := Visit(b, order[i]);
      if !(limit > 0 && |after.removed| >= limit) {
        RunBatchFrees(after, order, i + 1, limit, first);
      }
    }
  }
}

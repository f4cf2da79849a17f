/** The tiered index at work on its graph: each method is one of the steps of the protocol, carried out. */
module TieredIndexes {
  import opened Seqs
  import opened LevelGraphs
  import opened IndexModel
  import opened TieredJobs
  import opened SwapJobs
  import opened RepairScheduling
  import TieredProtocol
  import opened HnswIndexes
  import opened LabelLookup
  import opened InPlaceLoop

  class TieredIndex {
    const hnsw: HnswIndex
    var swap: map<Handle, SwapJob>
    var idToSwap: map<Id, Handle>
    var repair: map<Handle, RepairJob>
    var idToRepair: map<Id, seq<Handle>>
    var ready: int
    var next: Handle

    constructor (hnsw: HnswIndex)
      requires hnsw.Valid() && hnsw.View() == Index(hnsw.max, [], {}, {}, [])
      ensures Valid() && this.hnsw == hnsw
    {
      this.hnsw := hnsw;
      swap, idToSwap, repair, idToRepair := map[], map[], map[], map[];
      ready, next := 0, 0;
      new;
      TieredProtocol.EmptyTierInv(hnsw.max);
      assert TierView() == TieredProtocol.EmptyTier(hnsw.max);
    }

    ghost function JobsView(): Jobs
      reads this
    {
      Jobs(swap, idToSwap, repair, idToRepair, ready, next)
    }

    /** Between the calls of one thread nothing is half done. */
    ghost function TierView(): Tier
      reads this, hnsw, hnsw.levels
    {
      Tier(hnsw.View(), JobsView(), [], {})
    }

    ghost predicate Valid()
      reads this, hnsw, hnsw.levels
    {
      hnsw.Valid() && Inv(TierView())
    }

    // ----- Retiring repair jobs -----

    /** One pending repair less for each time a swap job is listed. */
    method DecreasePending(swaps: seq<Handle>)
      requires Accounted(JobsView(), swaps)
      modifies this`swap, this`ready
      ensures Decreased(old(swap), swap, swaps)
      ensures ready == old(ready) + |LastFor(old(JobsView()), swaps)|
    {
      ghost var first := JobsView();
      assert LastFor(first, swaps[..0]) == {};
      for i := 0 to |swaps|
        invariant Decreased(first.swap, swap, swaps[..i])
        invariant ready == first.ready + |LastFor(first, swaps[..i])|
      {
        var s := swaps[i];
        DecreaseStep(first, swap, swaps, i);
        hide Decreased, Accounted;
        swap := swap[s := swap[s].(pending := swap[s].pending - 1)];
        if swap[s].pending == 0 {
          ready := ready + 1;
        }
      }
      assert swaps[..|swaps|] == swaps;
    }

    method RetireJob(h: Handle)
      requires h in repair && Accounted(JobsView(), repair[h].swaps)
      modifies this`swap, this`ready, this`repair
      ensures JobsView() == Retire(old(JobsView()), h)
    {
      ghost var first := JobsView();
      DecreasePending(repair[h].swaps);
      repair := repair - {h};
      DecreasedIsRetired(first, swap, h);
    }

    // ----- Swap jobs -----

    /** Calls off the pending repairs of the element that was disposed of. */
    method RetireNodeJobs(d: Id)
      requires d in idToRepair ==> ListOk(JobsView(), d)
      requires CountersOk(JobsView()) && forall h, s | h in repair && s in repair[h].swaps :: s in swap
      modifies this`swap, this`ready, this`repair, this`idToRepair
      ensures JobsView() == RetireNode(old(JobsView()), d)
    {
      if d in idToRepair {
        ghost var first := JobsView();
        var hs := idToRepair[d];
        for i := 0 to |hs|
          invariant JobsView() == RetireList(first, hs[..i])
        {
          RetireListStep(first, hs, i);
          RetireJob(hs[i]);
        }
        assert hs[..|hs|] == hs;
        idToRepair := idToRepair - {d};
      }
    }

    /** Lets the pending repairs of the last element follow it to its new id. */
    method RenameNodeJobs(last: Id, d: Id)
      requires last in idToRepair ==> ListOk(JobsView(), last)
      modifies this`repair, this`idToRepair
      ensures JobsView() == RenameNode(old(JobsView()), last, d)
    {
      if last in idToRepair {
        ghost var first := JobsView();
        var hs := idToRepair[last];
        for i := 0 to |hs|
          invariant NodesRenamed(first.repair, repair, hs[..i], d) && idToRepair == first.idToRepair
        {
          var h := hs[i];
          assert h in hs && h in first.repair;
          repair := repair[h := repair[h].(node := d)];
        }
        assert hs[..|hs|] == hs;
        RenamedIs(first, repair, hs, last, d);
        idToRepair := idToRepair[d := idToRepair[last]] - {last};
      }
    }

    /** Settles the lookups after the element d was removed; returns the keys to erase. */
    method ExecuteSwapJob(d: Id, removed: seq<Id>) returns (removed': seq<Id>)
      requires JobsOk(JobsView(), |hnsw.top| + 1) && 0 <= d <= |hnsw.top|
      requires MovesSwap(JobsView(), d, |hnsw.top|, removed) ==> idToSwap[|hnsw.top|] in swap
      modifies this
      ensures d in old(idToRepair) ==> ListOk(old(JobsView()), d)
      ensures JobsView() == SwapJobs.ExecuteSwapJob(old(JobsView()), d, |hnsw.top|, removed)
      ensures removed' == removed + [StaleKey(old(JobsView()), d, |hnsw.top|, removed)]
    {
      // The id that was last before the removal, and is gone now.
      var last := |hnsw.top|;
      ghost var first := JobsView();
      JobsFacts(first, last + 1);
      RetireNodeKeeps(first, d, last + 1, first.ready - |Ready(first.swap)|);
      RetireNodeJobs(d);
      ghost var retired := JobsView();
      RetiredLists(retired, last + 1);
      RenameNodeJobs(last, d);
      if last != d && last in idToSwap && last !in removed {
        removed' := removed + [last];
        var s := idToSwap[last];
        swap := swap[s := swap[s].(deletedId := d)];
        idToSwap := idToSwap[d := s];
      } else {
        removed' := removed + [d];
      }
    }

    /** Settles the jobs after an element was removed and frees its own job. */
    method SettleJob(s: Handle, d: Id, removed: seq<Id>) returns (removed': seq<Id>)
      requires JobsOk(JobsView(), |hnsw.top| + 1) && 0 <= d <= |hnsw.top|
      requires MovesSwap(JobsView(), d, |hnsw.top|, removed) ==> idToSwap[|hnsw.top|] in swap
      modifies this
      ensures d in old(idToRepair) ==> ListOk(old(JobsView()), d)
      ensures JobsView() == Dispose(SwapJobs.ExecuteSwapJob(old(JobsView()), d, |hnsw.top|, removed), {s})
      ensures removed' == removed + [StaleKey(old(JobsView()), d, |hnsw.top|, removed)]
    {
      hide ListOk, MovesSwap, SwapJobs.ExecuteSwapJob, JobsOk, StaleKey;
      removed' := ExecuteSwapJob(d, removed);
      swap := swap - {s};
    }

    /** Executes one ready job of a batch: the element leaves the graph and its jobs are settled. */
    method ExecuteReadyJob(s: Handle, removed: seq<Id>) returns (removed': seq<Id>)
      requires hnsw.Valid() && BatchInOrder(Batch(hnsw.View(), JobsView(), removed))
      requires s in swap && swap[s].pending == 0
      modifies this, hnsw, hnsw.levels
      ensures hnsw.Valid() && hnsw.levels == old(hnsw.levels) && hnsw.Stored() == old(hnsw.Stored())
      ensures Batch(hnsw.View(), JobsView(), removed') == ExecuteReady(old(Batch(hnsw.View(), JobsView(), removed)), s)
    {
      hide IndexOk, NoInEdges, Covered, ListOk, RemoveSwapIndex, JobsOk, Within, HnswIndexes.Views, MovesSwap,
        SwapJobs.ExecuteSwapJob, Dispose, StaleKey, BatchInOrder, OwnJob, HnswIndex.GraphOk, HnswIndex.BooksOk, Contents,
        LastMovedTo, RenamedKeys;
      ghost var b := Batch(hnsw.View(), JobsView(), removed);
      ReadyJobFacts(b, s);
      var d := swap[s].deletedId;
      RemoveSwapShape(b.ix, d);
      BatchJobs(b);
      hnsw.RemoveAndSwapMarkDeletedElement(d);
      removed' := SettleJob(s, d, removed);
    }

    /** The turns of a batch. */
    method RunJobs(order: seq<Id>, limit: nat) returns (removed: seq<Id>)
      requires hnsw.Valid() && Visiting(Batch(hnsw.View(), JobsView(), []), order, 0, JobsView())
      modifies this, hnsw, hnsw.levels
      ensures hnsw.Valid() && hnsw.levels == old(hnsw.levels) && hnsw.Stored() == old(hnsw.Stored())
      ensures Batch(hnsw.View(), JobsView(), removed)
           == RunBatch(old(Batch(hnsw.View(), JobsView(), [])), order, 0, limit, old(JobsView()))
    {
      hide BatchInOrder, ExecuteReady, KeysListed, CountersOk, Fewer, HnswIndexes.Views;
      ghost var first, b0 := JobsView(), Batch(hnsw.View(), JobsView(), []);
      ghost var b := b0;
      removed := [];
      var i := 0;
      while i < |order|
        invariant i <= |order| && hnsw.Valid() && hnsw.levels == old(hnsw.levels)
        invariant hnsw.Stored() == old(hnsw.Stored())
        invariant Batch(hnsw.View(), JobsView(), removed) == b && Visiting(b, order, i, first)
        invariant RunBatch(b, order, i, limit, first) == RunBatch(b0, order, 0, limit, first)
      {
        VisitKeeps(b, order, i, first);
        CanVisitIsInOrder(b, order[i]);
        hide Visiting, CanVisit;
        b := Visit(b, order[i]);
        var s := idToSwap[order[i]];
        if swap[s].pending == 0 {
          removed := ExecuteReadyJob(s, removed);
        }
        i := i + 1;
        if limit > 0 && |removed| >= limit {
          return;
        }
      }
    }

    /**
     * Collects garbage under the exclusive lock: goes through the swap jobs in whatever order the lookup
     * has, and with a limit other than zero stops when that many were executed.
     */
    method ExecuteReadySwapJobs(order: seq<Id>, limit: nat)
      requires Valid() && KeyOrder(JobsView(), order)
      modifies this, hnsw, hnsw.levels
      ensures Valid() && hnsw.levels == old(hnsw.levels)
      ensures TierView() == CollectGarbage(old(TierView()), order, limit) && Cleared(old(TierView()), TierView(), limit)
      ensures hnsw.Stored() == old(hnsw.Stored())
    {
      hide BatchInOrder, Inv, Visiting, KeyOrder, RunBatch, HnswIndexes.Views, Cleared;
      ghost var t := TierView();
      BatchCanStart(t, order);
      CollectGarbageKeepsInv(t, order, limit);
      var removed := RunJobs(order, limit);
      idToSwap := idToSwap - Elems(removed);
      ready := ready - |removed|;
    }

    /** Collects garbage once enough swap jobs are ready. */
    method CollectIfDue(threshold: nat)
      requires Valid()
      modifies this, hnsw, hnsw.levels
      ensures Valid() && hnsw.levels == old(hnsw.levels) && hnsw.Stored() == old(hnsw.Stored())
      ensures if old(ready) >= threshold then Cleared(old(TierView()), TierView(), threshold)
              else TierView() == old(TierView())
      ensures CollectedSince(|old(hnsw.top)|, threshold)
    {
      hide Inv, HnswIndexes.Views, HnswIndex.GraphOk, HnswIndex.BooksOk, Contents, SwapJobs.CollectGarbage, Cleared;
      hnsw.BooksAreOk();
      if ready >= threshold {
        var order := SeqOf(idToSwap.Keys);
        ghost var t := TierView();
        ExecuteReadySwapJobs(order, threshold);
        if threshold > 0 {
          EnoughCleared(t, TierView(), threshold);
        }
        hnsw.BooksAreOk();
      }
    }

    /** Of `size` elements as many as the threshold left the graph, or none because too few were ready. */
    ghost predicate CollectedSince(size: nat, threshold: nat)
      reads this`ready, hnsw`top
    {
      threshold > 0 ==> if |hnsw.top| == size then ready < threshold else |hnsw.top| == size - threshold
    }

    // ----- Asynchronous deletion -----

    /** Lists a swap job in the pending repair of a node, or starts a new one. */
    method ScheduleRepair(u: Id, level: nat, s: Handle)
      requires u in idToRepair ==> forall h | h in idToRepair[u] :: h in repair
      modifies this`repair, this`idToRepair, this`next
      ensures JobsView() == AddRepair(old(JobsView()), u, level, s)
    {
      var pending: Option<Handle> := None;
      if u in idToRepair {
        var hs := idToRepair[u];
        var i := 0;
        while i < |hs| && pending == None
          invariant i <= |hs|
          invariant pending == None ==> FirstAt(repair, hs, level) == FirstAt(repair, hs[i..], level)
          invariant pending.Some? ==> FirstAt(repair, hs, level) == pending
          decreases |hs| - i
        {
          assert hs[i] in hs;
          if repair[hs[i]].level == level {
            pending := Some(hs[i]);
          }
          i := i + 1;
        }
      }
      match pending
      case Some(h) =>
        repair := repair[h := repair[h].(swaps := repair[h].swaps + [s])];
      case None =>
        var h := next;
        next := next + 1;
        repair := repair[h := RepairJob(u, level, [s])];
        idToRepair := idToRepair[u := (if u in idToRepair then idToRepair[u] else []) + [h]];
    }

    /** Opens the swap job of a marked element. */
    method OpenJob(d: Id, edges: seq<(Id, nat)>)
      requires JobsOk(JobsView(), |hnsw.top|)
      requires forall i | 0 <= i < |edges| :: 0 <= edges[i].0 < |hnsw.top|
      modifies this
      ensures JobsView() == OpenSwapJob(old(JobsView()), d, edges)
    {
      hide JobsOk, AddRepair;
      ghost var jobs0, n := JobsView(), |hnsw.top|;
      var s := next;
      next := next + 1;
      ghost var first := JobsView();
      OpeningStarts(jobs0, d, n);
      for i := 0 to |edges|
        invariant JobsView() == AddRepairs(first, edges[..i], s)
      {
        TakenEdges(edges, i);
        AddRepairsOpens(first, edges[..i], s, d, n);
        OpenLists(first, JobsView(), s, d, edges[..i], n);
        ScheduleRepair(edges[i].0, edges[i].1, s);
      }
      assert edges[..|edges|] == edges;
      swap := swap[s := SwapJob(d, |edges|)];
      if edges == [] {
        ready := ready + 1;
      }
      idToSwap := idToSwap[d := s];
    }

    /** Opens the swap jobs of the elements just marked, one after the other. */
    method OpenJobs(ids: seq<Id>)
      requires hnsw.Valid() && NoDup(ids) && Inv(Tier(hnsw.View(), JobsView(), [], Elems(ids)))
      requires forall id | id in ids :: 0 <= id < |hnsw.top|
      modifies this
      ensures Valid()
    {
      hide Inv, HnswIndexes.Views, IndexOk, JobsOk;
      assert ids[0..] == ids;
      for i := 0 to |ids|
        invariant Inv(Tier(hnsw.View(), JobsView(), [], Elems(ids[i..])))
      {
        RestElems(ids, i);
        hide NoDup;
        assert ids[i] in ids;
        var edges := hnsw.SafeCollectAllNodeIncomingNeighbors(ids[i]);
        ghost var t := Tier(hnsw.View(), JobsView(), [], Elems(ids[i..]));
        OpenFacts(t, ids[i], edges);
        OpenKeepsInv(t, ids[i], edges);
        OpenJob(ids[i], edges);
      }
      assert Elems(ids[|ids|..]) == {};
    }

    /** Deletes a label asynchronously: its elements are marked and the repair of all edges to them scheduled. */
    method DeleteLabelFromHNSW(key: Label) returns (count: nat)
      requires Valid()
      modifies this, hnsw`lookup, hnsw`entry, hnsw`maxLevel, hnsw`deleted, hnsw`numMarkedDeleted
      ensures Valid() && key !in hnsw.lookup
      ensures forall e :: hnsw.Stored()[e] == if Of(e, key) then 0 else old(hnsw.Stored())[e]
      ensures count == (if key in old(hnsw.lookup) then |old(hnsw.lookup)[key]| else 0)
      ensures |hnsw.deleted| == |old(hnsw.deleted)| + count && hnsw.lookup == old(hnsw.lookup) - {key}
      ensures key in old(hnsw.lookup) ==> hnsw.deleted == old(hnsw.deleted) + Elems(old(hnsw.lookup)[key])
    {
      hide Inv, HnswIndexes.Views, IndexOk, Contents;
      ghost var t0 := TierView();
      var ids := hnsw.MarkDelete(key);
      NoDupSize(ids);
      MarkedIsOrdered(t0, ids, |hnsw.top|);
      OpenJobs(ids);
      count := |ids|;
    }

    // ----- Repair jobs -----

    /** Takes a pending repair job out of the lookups. */
    method PopRepairJob(h: Handle)
      requires JobsOk(JobsView(), |hnsw.top|) && h in repair
      modifies this`swap, this`ready, this`repair, this`idToRepair
      ensures JobOk(old(JobsView()), h)
      ensures JobsView() == TieredProtocol.PopJob(old(JobsView()), h)
    {
      JobsFacts(JobsView(), |hnsw.top|);
      assert JobOk(JobsView(), h);
      ListIsAccounted(JobsView(), |hnsw.top|, h);
      var u := repair[h].node;
      var hs := idToRepair[u];
      if |hs| == 1 {
        idToRepair := idToRepair - {u};
      } else {
        idToRepair := idToRepair[u := SwapRemove(hs, h)];
      }
      RetireJob(h);
    }

    /**
     * Executes a repair job.  A job that is not pending any more was invalidated when its node was
     * disposed of, and does nothing.
     */
    method ExecuteRepairJob(h: Handle)
      requires Valid()
      modifies this, hnsw.levels
      ensures Valid() && hnsw.Stored() == old(hnsw.Stored())
      ensures h in old(repair) ==>
                var (u, level) := (old(repair[h]).node, old(repair[h]).level);
                && (forall d | d in hnsw.deleted :: !Edge(hnsw.View(), level, u, d))
                && RowRepaired(old(hnsw.View()), hnsw.View(), u, level, hnsw.ElementMetric())
      ensures repair.Keys == old(repair).Keys - {h}
    {
      hide Inv, IndexOk, JobsOk, HnswIndexes.Views, Relinked, Edge, RowRepaired, Contents;
      if h !in repair {
        return;
      }
      ghost var t := TierView();
      RepairJobFacts(t, h);
      var u, level := repair[h].node, repair[h].level;
      TieredProtocol.PopKeepsInv(t, h);
      PopRepairJob(h);
      hnsw.RepairNodeConnections(u, level);
      RepairedIsOrdered(t, h, hnsw.View(), JobsView());
    }

    // ----- Inserting and removing directly -----

    /** Inserts a vector into the graph. */
    method InsertIntoHNSW(key: Label, blob: Blob, level: nat)
      requires Valid() && (!hnsw.multi ==> key !in hnsw.lookup)
      modifies hnsw, hnsw.levels
      ensures Valid() && hnsw.Stored() == old(hnsw.Stored()) + multiset{Some((key, blob))}
      ensures fresh(Set(hnsw.levels) - Set(old(hnsw.levels)))
      ensures hnsw.lookup == WithId(old(hnsw.lookup), key, |old(hnsw.top)|)
      ensures hnsw.Appended(old(hnsw.View()), old(hnsw.entry), old(hnsw.maxLevel), blob, level) && hnsw.Measured(blob)
      ensures hnsw.top == old(hnsw.top) + [level] && hnsw.deleted == old(hnsw.deleted)
    {
      hide Inv, IndexOk, HnswIndexes.Views, Relinked, StoreElement, Contents, HnswIndex.Appended, HnswIndex.Measured;
      ghost var t := TierView();
      hnsw.AppendVector(key, blob, level);
      hnsw.AppendedFacts(t.ix, old(hnsw.entry), old(hnsw.maxLevel), blob, level);
      InsertedIsOrdered(t, level, hnsw.View());
    }

    /** No element that waits for its removal would lose its key: always so with one vector for a label. */
    ghost predicate NoneForgotten(key: Label)
      requires Valid()
      reads this, hnsw, hnsw.levels
    {
      hnsw.multi && key in hnsw.lookup ==>
        (ListIsLabelList(hnsw, key); !Collides(hnsw.deleted, Turns(hnsw.lookup[key], 0, |hnsw.top|), |hnsw.top|, {}))
    }

    /** A marked element whose swap job cannot be found any more: it will never be removed. */
    ghost predicate SomeForgotten()
      reads this`idToSwap, hnsw`deleted
    {
      exists x :: x in hnsw.deleted && x !in idToSwap
    }

    /**
     * Deletes a label in place: its elements count as ready, each is taken out of the graph under the id it
     * has by then and its jobs are settled, and in the end the stale keys are erased.
     */
    method DeleteLabelFromHNSWInplace(key: Label) returns (count: nat)
      requires Valid()
      modifies this, hnsw, hnsw.levels
      ensures hnsw.Valid() && key !in hnsw.lookup && hnsw.levels == old(hnsw.levels)
      ensures if old(NoneForgotten(key)) then Valid() else !Valid() && SomeForgotten()
      ensures forall e :: hnsw.Stored()[e] == if Of(e, key) then 0 else old(hnsw.Stored())[e]
      ensures count == if key in old(hnsw.lookup) then |old(hnsw.lookup)[key]| else 0
    {
      hide Inv, IndexOk, HnswIndexes.Views, Collides, Turns, HnswIndex.GraphOk, Contents;
      if key !in hnsw.lookup {
        hnsw.UnknownLabel(key);
        return 0;
      }
      ForgottenIff(key);
      count := RemoveAll(key);
    }

    lemma ForgottenIff(key: Label)
      requires Valid() && key in hnsw.lookup
      ensures LabelList(hnsw.lookup[key], 0, |hnsw.top|) && |hnsw.lookup[key]| <= |hnsw.top|
      ensures NoneForgotten(key)
         <==> !Collides(hnsw.deleted, Turns(hnsw.lookup[key], 0, |hnsw.top|), |hnsw.top|, {})
    {
      hide Inv, IndexOk, HnswIndexes.Views, Collides, Turns, HnswIndex.GraphOk;
      ListIsLabelList(hnsw, key);
      if !hnsw.multi {
        SafeLabels(hnsw.deleted, Turns(hnsw.lookup[key], 0, |hnsw.top|), |hnsw.top|, {});
      }
    }

    /** The loop over the elements of a label, which their removal renames. */
    method RemoveAll(key: Label) returns (count: nat)
      requires Valid() && key in hnsw.lookup
      requires LabelList(hnsw.lookup[key], 0, |hnsw.top|) && |hnsw.lookup[key]| <= |hnsw.top|
      modifies this, hnsw, hnsw.levels
      ensures hnsw.Valid() && key !in hnsw.lookup && hnsw.levels == old(hnsw.levels)
      ensures if old(Collides(hnsw.deleted, Turns(hnsw.lookup[key], 0, |hnsw.top|), |hnsw.top|, {}))
              then !Valid() && SomeForgotten() else Valid()
      ensures forall e :: hnsw.Stored()[e] == if Of(e, key) then 0 else old(hnsw.Stored())[e]
      ensures count == |old(hnsw.lookup)[key]|
    {
      hide Inv, IndexOk, HnswIndexes.Views, Contents, InPlaceTurn, HnswIndex.GraphOk, HnswIndex.BooksOk, Tracks,
        Collides, Turns, LabelList;
      var removed := [];
      ghost var fits := !Collides(hnsw.deleted, Turns(hnsw.lookup[key], 0, |hnsw.top|), |hnsw.top|, {});
      TurnsStart(TierView(), hnsw.lookup[key]);
      hnsw.BooksAreOk();
      hnsw.StartDeleting(key);
      ready := ready + |hnsw.lookup[key]|;
      count := 0;
      while count < |hnsw.lookup[key]|
        invariant hnsw.GraphOk() && hnsw.BooksOk({key}) && key in hnsw.lookup && hnsw.levels == old(hnsw.levels)
        invariant count <= |hnsw.lookup[key]| == |old(hnsw.lookup)[key]|
        invariant Tracks(hnsw.lookup[key], count, hnsw.labels, hnsw.deleted, key)
        invariant InPlaceTurn(Batch(hnsw.View(), JobsView(), removed), hnsw.lookup[key], count, fits)
        invariant |hnsw.labels| == |hnsw.blobs|
        invariant forall e | !Of(e, key) :: hnsw.Stored()[e] == old(hnsw.Stored())[e]
      {
        removed := RemoveNext(key, count, removed, fits);
        count := count + 1;
      }
      TurnsEnd(Batch(hnsw.View(), JobsView(), removed), hnsw.lookup[key], fits);
      hnsw.RemoveLabel(key);
      idToSwap := idToSwap - Elems(removed);
      ready := ready - |removed|;
    }

    /** One turn of the loop. */
    method RemoveNext(key: Label, i: nat, removed: seq<Id>, ghost fits: bool) returns (removed': seq<Id>)
      requires hnsw.GraphOk() && hnsw.BooksOk({key}) && key in hnsw.lookup && i < |hnsw.lookup[key]|
      requires Tracks(hnsw.lookup[key], i, hnsw.labels, hnsw.deleted, key)
      requires InPlaceTurn(Batch(hnsw.View(), JobsView(), removed), hnsw.lookup[key], i, fits)
      requires |hnsw.labels| == |hnsw.blobs|
      modifies this, hnsw, hnsw.levels
      ensures hnsw.GraphOk() && hnsw.BooksOk({key}) && key in hnsw.lookup && hnsw.levels == old(hnsw.levels)
      ensures |hnsw.lookup[key]| == |old(hnsw.lookup)[key]|
      ensures Tracks(hnsw.lookup[key], i + 1, hnsw.labels, hnsw.deleted, key)
      ensures InPlaceTurn(Batch(hnsw.View(), JobsView(), removed'), hnsw.lookup[key], i + 1, fits)
      ensures |hnsw.labels| == |hnsw.blobs|
      ensures forall e | !Of(e, key) :: hnsw.Stored()[e] == old(hnsw.Stored())[e]
    {
      hide Inv, IndexOk, HnswIndexes.Views, Contents, InPlaceTurn, HnswIndex.GraphOk, HnswIndex.BooksOk, Tracks,
        TakenOut, JobsOk, MovesSwap, ListOk, SwapJobs.ExecuteSwapJob, NextList, ListAfterMove;
      ghost var b, ids := Batch(hnsw.View(), JobsView(), removed), hnsw.lookup[key];
      hnsw.LabelsFit({key});
      ListFollows(ids, i, hnsw.labels, hnsw.deleted, key);
      var id := hnsw.lookup[key][i];
      hnsw.DeleteNext(key, i);
      hnsw.LabelsFit({key});
      TurnFacts(b, ids, i, hnsw.View(), fits);
      TurnKeeps(b, ids, i, hnsw.View(), fits);
      removed' := ExecuteSwapJob(id, removed);
    }

    /** Settles the jobs after the element id was taken out on the spot. */
    method SettleNow(id: Id)
      requires JobsOk(JobsView(), |hnsw.top| + 1) && 0 <= id <= |hnsw.top|
      requires MovesSwap(JobsView(), id, |hnsw.top|, []) ==> idToSwap[|hnsw.top|] in swap
      modifies this
      ensures id in old(idToRepair) ==> ListOk(old(JobsView()), id)
      ensures JobsView() == SettledNow(old(JobsView()), id, |hnsw.top|)
    {
      hide JobsOk, ListOk, SwapJobs.ExecuteSwapJob;
      if id in idToRepair {
        TieredProtocol.ListIsOk(JobsView(), id, |hnsw.top| + 1);
      }
      ready := ready + 1;
      JobsOkIgnores(old(JobsView()), JobsView(), |hnsw.top| + 1);
      var removed := ExecuteSwapJob(id, []);
      idToSwap := idToSwap - Elems(removed);
      ready := ready - |removed|;
      assert [] + removed == removed;
    }

    method RemoveOnly(key: Label)
      requires Valid() && !hnsw.multi && key in hnsw.lookup
      modifies this, hnsw, hnsw.levels
      ensures Valid() && key !in hnsw.lookup
      ensures forall e :: hnsw.Stored()[e] == if Of(e, key) then 0 else old(hnsw.Stored())[e]
      ensures old(hnsw.lookup[key]) != [] && RemovedInPlace(old(TierView()), old(hnsw.lookup[key])[0], TierView())
    {
      hide Inv, IndexOk, HnswIndexes.Views, TakenOut, Contents, JobsOk, Tracks, EntryOk, LookupOk, MovesSwap, ListOk,
        SettledNow, TieredProtocol.RemovedNow;
      ghost var t := TierView();
      var id := hnsw.lookup[key][0];
      hnsw.StartDeleting(key);
      hnsw.DeleteNext(key, 0);
      hnsw.RemoveLabel(key);
      TakenOutSize(t.ix, hnsw.View(), id);
      InPlaceFacts(t, id, hnsw.View());
      SettleNow(id);
    }
  }

  /** Three vectors, the first and the last under one label. */
  method ThreeVectors(distance: (Blob, Blob) -> real, blobs: (Blob, Blob, Blob)) returns (tiered: TieredIndex)
    ensures fresh(tiered) && fresh(tiered.hnsw) && tiered.Valid()
    ensures forall i | 0 <= i < |tiered.hnsw.levels| :: fresh(tiered.hnsw.levels[i])
    ensures tiered.hnsw.multi && tiered.hnsw.lookup == map[1 := [0, 2], 2 := [1]]
    ensures |tiered.hnsw.top| == 3 && tiered.hnsw.deleted == {}
  {
    hide TieredIndex.Valid, HnswIndex.Valid, WithId, HnswIndexes.Views, Contents, HnswIndex.Appended, HnswIndex.Measured;
    var hnsw := new HnswIndex(2, 1, true, distance);
    NoLevels(hnsw);
    tiered := new TieredIndex(hnsw);
    tiered.InsertIntoHNSW(1, blobs.0, 0);
    tiered.InsertIntoHNSW(2, blobs.1, 0);
    tiered.InsertIntoHNSW(1, blobs.2, 0);
    ThreeListed();
    assert forall i | 0 <= i < |hnsw.levels| :: hnsw.levels[i] in Set(hnsw.levels);
  }

  /** A case: the other one is deleted, and waits for its removal when the label is deleted in place. */
  method ForgetOne(distance: (Blob, Blob) -> real, blobs: (Blob, Blob, Blob)) returns (tiered: TieredIndex)
    ensures tiered.hnsw.Valid() && !tiered.Valid() && tiered.SomeForgotten()
  {
    hide TieredIndex.Valid, HnswIndex.Valid, TieredIndex.SomeForgotten, Collides, Turns, HnswIndexes.Views, Contents;
    tiered := ThreeVectors(distance, blobs);
    var count := tiered.DeleteLabelFromHNSW(2);
    TurnsCollide();
    assert tiered.hnsw.deleted == {1};
    count := tiered.DeleteLabelFromHNSWInplace(1);
  }

  lemma ThreeListed()
    ensures WithId(WithId(WithId(map[], 1, 0), 2, 1), 1, 2) == map[1 := [0, 2], 2 := [1]]
  {
    var none: seq<Id> := [];
    assert none + [0] == [0] && none + [1] == [1] && [0] + [2] == [0, 2];
  }

  lemma NoLevels(hnsw: HnswIndex)
    requires hnsw.View().levels == []
    ensures hnsw.levels == []
  {
    assert |hnsw.View().levels| == |hnsw.levels|;
  }

  /** The swap jobs in the list are there, and their counters cover it. */
  ghost predicate Accounted(jobs: Jobs, swaps: seq<Handle>) {
    forall s | s in swaps :: s in jobs.swap && multiset(swaps)[s] <= jobs.swap[s].pending
  }

  lemma ListIsAccounted(jobs: Jobs, n: nat, h: Handle)
    requires JobsOk(jobs, n) && h in jobs.repair
    ensures Accounted(jobs, jobs.repair[h].swaps)
  {
    assert JobOk(jobs, h);
    RestIsAccounted(jobs, h);
  }

  /** The counters are lower by what the list holds. */
  ghost predicate Decreased(before: map<Handle, SwapJob>, after: map<Handle, SwapJob>, done: seq<Handle>) {
    && after.Keys == before.Keys
    && forall s | s in before ::
         s in after && after[s] == before[s].(pending := before[s].pending - multiset(done)[s])
  }

  lemma DecreaseStep(first: Jobs, now: map<Handle, SwapJob>, swaps: seq<Handle>, i: nat)
    requires i < |swaps| && Accounted(first, swaps) && Decreased(first.swap, now, swaps[..i])
    ensures var s := swaps[i];
      && s in now && s in first.swap
      && Decreased(first.swap, now[s := now[s].(pending := now[s].pending - 1)], swaps[..i + 1])
      && |LastFor(first, swaps[..i + 1])| == |LastFor(first, swaps[..i])| + if now[s].pending == 1 then 1 else 0
  {
    var s := swaps[i];
    assert s in swaps;
    assert swaps[..i + 1] == swaps[..i] + [s];
    LastForStep(first, swaps, i);
  }

  lemma LastForStep(first: Jobs, swaps: seq<Handle>, i: nat)
    requires i < |swaps| && Accounted(first, swaps) && swaps[i] in first.swap
    ensures |LastFor(first, swaps[..i + 1])|
         == |LastFor(first, swaps[..i])|
            + if first.swap[swaps[i]].pending == multiset(swaps[..i])[swaps[i]] + 1 then 1 else 0
  {
    var s, upTo := swaps[i], swaps[..i + 1];
    assert upTo == swaps[..i] + [s] && swaps == upTo + swaps[i + 1..];
    assert s in swaps && multiset(swaps)[s] == multiset(upTo)[s] + multiset(swaps[i + 1..])[s];
    assert first.swap[s].pending > multiset(swaps[..i])[s];
    assert LastFor(first, upTo)
        == LastFor(first, swaps[..i]) + if first.swap[s].pending == multiset(upTo)[s] then {s} else {};
    assert s !in LastFor(first, swaps[..i]);
  }

  lemma DecreasedIsRetired(first: Jobs, now: map<Handle, SwapJob>, h: Handle)
    requires h in first.repair && Decreased(first.swap, now, first.repair[h].swaps)
    ensures now == Retire(first, h).swap
  {
    var after := Retire(first, h).swap;
    assert now.Keys == after.Keys;
    forall s | s in now ensures now[s] == after[s] {
      assert s in first.swap;
    }
  }

  lemma RetireListStep(jobs: Jobs, hs: seq<Handle>, i: nat)
    requires i < |hs| && NoDup(hs) && forall h | h in hs :: h in jobs.repair
    requires CountersOk(jobs) && forall h, s | h in jobs.repair && s in jobs.repair[h].swaps :: s in jobs.swap
    ensures NoDup(hs[..i]) && NoDup(hs[..i + 1])
    ensures forall h | h in hs[..i + 1] :: h in jobs.repair
    ensures var r := RetireList(jobs, hs[..i]);
      && hs[i] in r.repair && r.repair[hs[i]] == jobs.repair[hs[i]]
      && Accounted(r, r.repair[hs[i]].swaps)
      && RetireList(jobs, hs[..i + 1]) == Retire(r, hs[i])
  {
    hide CountersOk, NoDup, Retire, Elems;
    TakenHandles(hs, i);
    RetireListKeepsCounters(jobs, hs[..i], jobs.ready - |Ready(jobs.swap)|);
    RestIsAccounted(RetireList(jobs, hs[..i]), hs[i]);
  }

  lemma TakenHandles(hs: seq<Handle>, i: nat)
    requires i < |hs| && NoDup(hs)
    ensures NoDup(hs[..i]) && NoDup(hs[..i + 1]) && hs[..i + 1][..i] == hs[..i] && hs[..i + 1][i] == hs[i]
    ensures hs[i] in hs && hs[i] !in Elems(hs[..i]) && forall h | h in hs[..i + 1] :: h in hs
    ensures forall h :: h in Elems(hs[..i]) <==> h in hs[..i]
  {
  }

  lemma RestIsAccounted(r: Jobs, h: Handle)
    requires h in r.repair && CountersOk(r) && forall s | s in r.repair[h].swaps :: s in r.swap
    ensures Accounted(r, r.repair[h].swaps)
  {
    forall s | s in r.repair[h].swaps ensures multiset(r.repair[h].swaps)[s] <= r.swap[s].pending {
      PlacesBound(r, h, s);
    }
  }

  ghost predicate NodesRenamed(before: map<Handle, RepairJob>, after: map<Handle, RepairJob>, done: seq<Handle>, d: Id) {
    && after.Keys == before.Keys
    && forall h | h in before :: h in after && after[h] == if h in done then before[h].(node := d) else before[h]
  }

  lemma RenamedIs(jobs: Jobs, after: map<Handle, RepairJob>, hs: seq<Handle>, last: Id, d: Id)
    requires last in jobs.idToRepair && jobs.idToRepair[last] == hs && NodesRenamed(jobs.repair, after, hs, d)
    ensures after == RenameNode(jobs, last, d).repair
  {
    var r := RenameNode(jobs, last, d).repair;
    assert after.Keys == r.Keys;
    forall h | h in after ensures after[h] == r[h] {
      assert h in jobs.repair;
    }
  }

  lemma JobsFacts(jobs: Jobs, n: nat)
    requires JobsOk(jobs, n)
    ensures forall u | u in jobs.idToRepair :: ListOk(jobs, u)
    ensures CountersOk(jobs) && forall h, s | h in jobs.repair && s in jobs.repair[h].swaps :: s in jobs.swap
  {
  }

  lemma RetiredLists(jobs: Jobs, n: nat)
    requires JobsOk(jobs, n)
    ensures forall u | u in jobs.idToRepair :: ListOk(jobs, u)
  {
  }

  lemma CanVisitIsInOrder(b: Batch, key: Id)
    requires CanVisit(b, key)
    ensures BatchInOrder(b) && key in b.jobs.idToSwap && b.jobs.idToSwap[key] in b.jobs.swap
  {
  }

  lemma BatchJobs(b: Batch)
    requires BatchInOrder(b)
    ensures JobsOk(b.jobs, |b.ix.top|)
  {
  }

  lemma TakenEdges(edges: seq<(Id, nat)>, i: nat)
    requires i < |edges|
    ensures edges[..i + 1][..i] == edges[..i]
  {
  }

  lemma OpenLists(first: Jobs, jobs: Jobs, s: Handle, d: Id, edges: seq<(Id, nat)>, n: nat)
    requires Opening(first, jobs, s, d, edges, n)
    ensures forall u, h | u in jobs.idToRepair && h in jobs.idToRepair[u] :: h in jobs.repair
  {
  }

  lemma MarkedIsOrdered(t: Tier, ids: seq<Id>, n: nat)
    requires Inv(t) && t.waiting == {} && Elems(ids) !! t.ix.deleted && n == |t.ix.top|
    requires forall id | id in ids :: 0 <= id < n
    ensures Inv(t.(ix := t.ix.(deleted := t.ix.deleted + Elems(ids)), waiting := Elems(ids)))
  {
    InElems(ids);
    TieredProtocol.MarkKeepsInv(t, Elems(ids));
    assert t.waiting + Elems(ids) == Elems(ids);
  }

  lemma RestElems(ids: seq<Id>, i: nat)
    requires i < |ids| && NoDup(ids)
    ensures ids[i] in Elems(ids[i..]) && Elems(ids[i + 1..]) == Elems(ids[i..]) - {ids[i]}
  {
  }

  lemma OpenFacts(t: Tier, d: Id, edges: seq<(Id, nat)>)
    requires Inv(t) && InEdgesOf(t.ix, d, edges)
    ensures JobsOk(t.jobs, |t.ix.top|) && Collected(t.ix, d, edges)
    ensures forall i | 0 <= i < |edges| :: 0 <= edges[i].0 < |t.ix.top|
  {
    InEdgesAreCollected(t.ix, d, edges);
  }

  lemma RepairJobFacts(t: Tier, h: Handle)
    requires Inv(t) && h in t.jobs.repair
    ensures var job := t.jobs.repair[h];
      0 <= job.node < |t.ix.top| && job.level <= t.ix.top[job.node]
    ensures JobsOk(t.jobs, |t.ix.top|) && JobOk(t.jobs, h)
  {
  }

  /** Popping a job, collecting and rewiring in one go. */
  lemma RepairedIsOrdered(t: Tier, h: Handle, after: Index, jobs: Jobs)
    requires Inv(t) && Quiet(t) && h in t.jobs.repair && JobOk(t.jobs, h) && jobs == TieredProtocol.PopJob(t.jobs, h)
    requires Relinked(t.ix, after)
    requires forall d | d in t.ix.deleted :: !Edge(after, t.jobs.repair[h].level, t.jobs.repair[h].node, d)
    ensures Inv(Tier(after, jobs, [], {}))
  {
    hide Inv, Edge, Relinked;
    TieredProtocol.PopKeepsInv(t, h);
    var taken := TieredProtocol.Taken(t, h);
    TieredProtocol.LandKeepsInv(taken, 0, after);
    assert TieredProtocol.Landed(taken, 0).(ix := after) == Tier(after, jobs, [], {});
  }

  /** Storing, connecting and lifting the mark in one go. */
  lemma InsertedIsOrdered(t: Tier, level: nat, after: Index)
    requires Inv(t) && Quiet(t)
    requires Relinked(StoreElement(t.ix, level), after.(inProcess := t.ix.inProcess + {|t.ix.top|}))
    requires after.inProcess == t.ix.inProcess - {|t.ix.top|}
    ensures Inv(Tier(after, t.jobs, [], {}))
  {
    hide Inv, Relinked;
    TieredProtocol.StoreKeepsInv(t, level);
    var stored := t.(ix := StoreElement(t.ix, level));
    var linked := after.(inProcess := stored.ix.inProcess);
    TieredProtocol.RelinkKeepsInv(stored, linked);
    TieredProtocol.EndInsertKeepsInv(stored.(ix := linked), |t.ix.top|);
    assert after == linked.(inProcess := linked.inProcess - {|t.ix.top|});
  }

  lemma TakenOutSize(ix: Index, after: Index, id: Id)
    requires 0 <= id < |ix.top| && TakenOut(ix, after, id)
    ensures |after.top| == |ix.top| - 1
  {
  }

  lemma ListIsLabelList(hnsw: HnswIndex, key: Label)
    requires hnsw.Valid() && key in hnsw.lookup
    ensures LabelList(hnsw.lookup[key], 0, |hnsw.top|) && |hnsw.lookup[key]| <= |hnsw.top|
  {
    hide IndexOk;
    hnsw.ListOfLabel(key);
    ListFits(hnsw.lookup[key], |hnsw.top|);
  }

  /**
   * Within the in-place loop, i elements of the list taken out: the books are kept, keys down for erasure
   * aside, and all elements of the label count as ready.
   */
  ghost predicate Turning(b: Batch, ids: seq<Id>, i: nat) {
    && IndexOk(b.ix) && BatchOk(b.jobs, |b.ix.top|, b.ix.deleted, b.removed, |ids|) && Leads(b.jobs)
    && Covered(b.ix, b.jobs, [], b.ix.deleted) && LevelsInside(b.jobs, b.ix.top)
    && LabelList(ids, i, |b.ix.top|) && |ids| <= |b.ix.top| + i && |b.removed| == i
  }

  /** A marked element has an id that is down for erasure. */
  ghost predicate Doomed(b: Batch) {
    && JobsOk(b.jobs, |b.ix.top|) && Leads(b.jobs)
    && exists x :: x in b.ix.deleted && x in b.removed
  }

  ghost predicate StillCollides(b: Batch, ids: seq<Id>, i: nat)
    requires i <= |ids| <= |b.ix.top| + i
  {
    Collides(b.ix.deleted, Turns(ids, i, |b.ix.top|), |b.ix.top|, Elems(b.removed))
  }

  /** Either no waiting element will be forgotten, or one will be, or one is already. */
  ghost predicate InPlaceTurn(b: Batch, ids: seq<Id>, i: nat, fits: bool) {
    || (Turning(b, ids, i) && (fits <==> !StillCollides(b, ids, i)))
    || (!fits && Doomed(b))
  }

  lemma TurnsStart(t: Tier, ids: seq<Id>)
    requires Inv(t) && Quiet(t) && LabelList(ids, 0, |t.ix.top|) && |ids| <= |t.ix.top|
    ensures InPlaceTurn(Batch(t.ix, t.jobs.(ready := t.jobs.ready + |ids|), []), ids, 0,
                        !Collides(t.ix.deleted, Turns(ids, 0, |t.ix.top|), |t.ix.top|, {}))
  {
    hide Collides, Turns, LabelList, IndexOk, JobsOk, Edge, Paired, Covered, LevelsInside, Ready, Leads, Within;
    var jobs := t.jobs.(ready := t.jobs.ready + |ids|);
    JobsOkIgnores(t.jobs, jobs, |t.ix.top|);
    assert Tracked(t) == t.ix.deleted;
    PairedJobs(t.jobs, jobs, t.ix.deleted);
    RepairsLeft(t.ix, t.jobs, jobs);
    FlagsAreIds(t.ix);
    var none: seq<Id> := [];
    assert Elems(none) == {};
  }

  lemma RepairsLeft(ix: Index, jobs: Jobs, after: Jobs)
    requires Covered(ix, jobs, [], ix.deleted) && LevelsInside(jobs, ix.top)
    requires after.repair == jobs.repair && after.idToSwap == jobs.idToSwap
    ensures Covered(ix, after, [], ix.deleted) && LevelsInside(after, ix.top)
  {
    hide Edge;
    forall l: nat, u, d | d in ix.deleted && Edge(ix, l, u, d) ensures Scheduled(after, u, l, d) {
      assert Scheduled(jobs, u, l, d);
    }
  }

  lemma PairedJobs(jobs: Jobs, after: Jobs, tracked: set<Id>)
    requires Paired(jobs, tracked) && jobs.idToSwap.Keys == tracked
    requires after.swap == jobs.swap && after.idToSwap == jobs.idToSwap
    ensures Paired(after, tracked) && Leads(after)
  {
  }

  lemma TurnsEnd(b: Batch, ids: seq<Id>, fits: bool)
    requires InPlaceTurn(b, ids, |ids|, fits)
    ensures fits ==> Inv(Finished(b))
    ensures !fits ==> !Inv(Finished(b)) && exists x :: x in b.ix.deleted && x !in Finished(b).jobs.idToSwap
  {
    hide LabelList, IndexOk, Covered, BatchOk, LevelsInside, JobsOk;
    if fits {
      FinishedKeepsInv(b);
    } else {
      assert Doomed(b);
      var x :| x in b.ix.deleted && x in b.removed;
      InElems(b.removed);
      assert x !in Finished(b).jobs.idToSwap;
    }
  }

  /** What settling the jobs of the next element needs. */
  lemma TurnFacts(b: Batch, ids: seq<Id>, i: nat, after: Index, fits: bool)
    requires InPlaceTurn(b, ids, i, fits) && i < |ids| && 0 <= ids[i] < |b.ix.top| && ids[i] !in b.ix.deleted
    requires TakenOut(b.ix, after, ids[i])
    ensures |after.top| == |b.ix.top| - 1 && JobsOk(b.jobs, |b.ix.top|) && Leads(b.jobs)
    ensures MovesSwap(b.jobs, ids[i], |b.ix.top| - 1, b.removed) ==> b.jobs.idToSwap[|b.ix.top| - 1] in b.jobs.swap
    ensures ids[i] in b.jobs.idToRepair ==> ListOk(b.jobs, ids[i])
  {
    hide IndexOk, Covered, LabelList, EdgesFollow, LevelsInside, StillCollides, BatchOk, JobsOk, ListOk;
    if Turning(b, ids, i) {
      BatchKeepsJobs(b.jobs, |b.ix.top|, b.ix.deleted, b.removed, |ids|);
    }
    JobsFacts(b.jobs, |b.ix.top|);
  }

  lemma NotYetDoomed(b: Batch, ids: seq<Id>, i: nat)
    requires Turning(b, ids, i)
    ensures !Doomed(b)
  {
    hide IndexOk, JobsOk, Paired, Covered, LevelsInside, LabelList, ReadyOk;
    InElems(b.removed);
  }

  lemma BatchKeepsJobs(jobs: Jobs, n: nat, deleted: set<Id>, removed: seq<Id>, extra: int)
    requires BatchOk(jobs, n, deleted, removed, extra)
    ensures JobsOk(jobs, n)
  {
  }

  lemma TurnKeeps(b: Batch, ids: seq<Id>, i: nat, after: Index, fits: bool)
    requires InPlaceTurn(b, ids, i, fits) && i < |ids| && 0 <= ids[i] < |b.ix.top| && ids[i] !in b.ix.deleted
    requires TakenOut(b.ix, after, ids[i])
    requires JobsOk(b.jobs, |b.ix.top|) && Leads(b.jobs)
    requires ids[i] in b.jobs.idToRepair ==> ListOk(b.jobs, ids[i])
    requires MovesSwap(b.jobs, ids[i], |b.ix.top| - 1, b.removed) ==> b.jobs.idToSwap[|b.ix.top| - 1] in b.jobs.swap
    ensures var d, last := ids[i], |b.ix.top| - 1;
      InPlaceTurn(Batch(after, SwapJobs.ExecuteSwapJob(b.jobs, d, last, b.removed),
                        b.removed + [StaleKey(b.jobs, d, last, b.removed)]), NextList(ids, i, |b.ix.top|), i + 1, fits)
  {
    hide Turning, JobsOk, ListOk, IndexOk, Leads, TakenOut, MovesSwap, SwapJobs.ExecuteSwapJob, StaleKey, NextList,
      StillCollides, LabelList, Doomed;
    if Turning(b, ids, i) {
      NotYetDoomed(b, ids, i);
    }
    if Turning(b, ids, i) && Reusable(ids[i], |b.ix.top| - 1, b.ix.deleted, b.removed) {
      TurnGoesOn(b, ids, i, after);
    } else {
      if Turning(b, ids, i) {
        TurnCollides(b, ids, i);
      }
      TurnDooms(b, ids[i], after);
    }
  }

  /** An element in the way of the turn is one that waits. */
  lemma TurnCollides(b: Batch, ids: seq<Id>, i: nat)
    requires Turning(b, ids, i) && i < |ids| && !Reusable(ids[i], |b.ix.top| - 1, b.ix.deleted, b.removed)
    ensures StillCollides(b, ids, i)
  {
    hide IndexOk, BatchOk, Covered, LevelsInside, LabelList, NextList;
    InElems(b.removed);
    assert Turns(ids, i, |b.ix.top|)[0] == ids[i];
  }

  /** An id down for erasure is given to a marked element, or one has it already. */
  lemma TurnDooms(b: Batch, d: Id, after: Index)
    requires 0 <= d < |b.ix.top| && d !in b.ix.deleted && TakenOut(b.ix, after, d)
    requires JobsOk(b.jobs, |b.ix.top|) && Leads(b.jobs)
    requires d in b.jobs.idToRepair ==> ListOk(b.jobs, d)
    requires MovesSwap(b.jobs, d, |b.ix.top| - 1, b.removed) ==> b.jobs.idToSwap[|b.ix.top| - 1] in b.jobs.swap
    requires Doomed(b) || !Reusable(d, |b.ix.top| - 1, b.ix.deleted, b.removed)
    ensures Doomed(Batch(after, SwapJobs.ExecuteSwapJob(b.jobs, d, |b.ix.top| - 1, b.removed),
                         b.removed + [StaleKey(b.jobs, d, |b.ix.top| - 1, b.removed)]))
  {
    hide JobsOk, ListOk, IndexOk, Leads, EdgesFollow, SwapJobs.ExecuteSwapJob;
    var last := |b.ix.top| - 1;
    LooseExecute(b.jobs, d, last, b.removed);
    var removed' := b.removed + [StaleKey(b.jobs, d, last, b.removed)];
    if Reusable(d, last, b.ix.deleted, b.removed) {
      var x :| x in b.ix.deleted && x in b.removed;
      var y := if x == last then d else x;
      assert y in after.deleted && y in removed';
    } else {
      assert d in after.deleted && d in removed';
    }
  }

  /** Settling keeps the jobs themselves in order, whatever became of their lookup. */
  lemma LooseExecute(jobs: Jobs, d: Id, last: nat, removed: seq<Id>)
    requires JobsOk(jobs, last + 1) && Leads(jobs) && 0 <= d <= last
    requires d in jobs.idToRepair ==> ListOk(jobs, d)
    requires MovesSwap(jobs, d, last, removed) ==> jobs.idToSwap[last] in jobs.swap
    ensures var after := SwapJobs.ExecuteSwapJob(jobs, d, last, removed); JobsOk(after, last) && Leads(after)
  {
    hide JobsOk, ListOk, RetireNode, RenameNode;
    var extra := jobs.ready - |Ready(jobs.swap)|;
    var retired := RetireNode(jobs, d);
    RetireNodeKeeps(jobs, d, last + 1, extra);
    RenameNodeKeeps(retired, last, d);
    var renamed := RenameNode(retired, last, d);
    var after := Retarget(renamed, d, last, removed);
    SameCountersKeep(renamed, after, {}, last, extra);
  }

  lemma TurnGoesOn(b: Batch, ids: seq<Id>, i: nat, after: Index)
    requires Turning(b, ids, i) && i < |ids| && 0 <= ids[i] < |b.ix.top| && ids[i] !in b.ix.deleted
    requires TakenOut(b.ix, after, ids[i]) && Reusable(ids[i], |b.ix.top| - 1, b.ix.deleted, b.removed)
    requires ids[i] in b.jobs.idToRepair ==> ListOk(b.jobs, ids[i])
    requires MovesSwap(b.jobs, ids[i], |b.ix.top| - 1, b.removed) ==> b.jobs.idToSwap[|b.ix.top| - 1] in b.jobs.swap
    ensures var d, last := ids[i], |b.ix.top| - 1;
      var next := Batch(after, SwapJobs.ExecuteSwapJob(b.jobs, d, last, b.removed),
                        b.removed + [StaleKey(b.jobs, d, last, b.removed)]);
      && Turning(next, NextList(ids, i, |b.ix.top|), i + 1)
      && (StillCollides(b, ids, i) <==> StillCollides(next, NextList(ids, i, |b.ix.top|), i + 1))
  {
    hide IndexOk, Covered, EdgesFollow, JobsOk, ReadyOk, LevelsInside, SwapJobs.ExecuteSwapJob, MovesSwap, StaleKey,
      KeepsSchedule, RepairsFollow, ListOk, Paired, BatchOk, LabelList, Collides, Turns, NextList, RenamedKeys;
    var d, last := ids[i], |b.ix.top| - 1;
    var jobs' := Executed(b.jobs, d, last, b.ix.deleted, b.removed);
    assert jobs' == SwapJobs.ExecuteSwapJob(b.jobs, d, last, b.removed);
    hide Executed;
    ExecuteKeeps(b.jobs, d, last, b.ix.deleted, b.removed, |ids|);
    BatchIds(b.jobs, last + 1, b.ix.deleted, b.removed, |ids|);
    FollowKeepsCovered(b.ix, after, b.jobs, jobs', d);
    LevelsFollow(b.jobs, jobs', d, b.ix.top);
    assert b.ix.deleted - {d} == b.ix.deleted;
    NextListOk(ids, i, |b.ix.top|);
    StaleIs(b.jobs, d, last, b.ix.deleted, b.removed, |ids|);
    BatchKeepsJobs(b.jobs, last + 1, b.ix.deleted, b.removed, |ids|);
    LooseExecute(b.jobs, d, last, b.removed);
    NextTurn(b.ix.deleted, ids, i, |b.ix.top|, b.removed, StaleKey(b.jobs, d, last, b.removed));
  }

  lemma StaleIs(jobs: Jobs, d: Id, last: nat, deleted: set<Id>, removed: seq<Id>, extra: int)
    requires BatchOk(jobs, last + 1, deleted, removed, extra) && d !in deleted
    ensures StaleKey(jobs, d, last, removed) == if last in deleted then last else d
  {
    hide JobsOk, ReadyOk;
    SettleFacts(jobs, d, last, deleted, removed);
  }

  lemma BatchIds(jobs: Jobs, n: nat, deleted: set<Id>, removed: seq<Id>, extra: int)
    requires BatchOk(jobs, n, deleted, removed, extra)
    ensures Within(deleted, n)
  {
  }

  /** Whether a turn will collide is up to the rest of them. */
  lemma NextTurn(deleted: set<Id>, ids: seq<Id>, i: nat, n: nat, removed: seq<Id>, key: Id)
    requires i < |ids| <= n + i && Reusable(ids[i], n - 1, deleted, removed) && ids[i] !in deleted
    requires key == if n - 1 in deleted then n - 1 else ids[i]
    ensures n > 0 && |NextList(ids, i, n)| <= n - 1 + i + 1
    ensures Collides(deleted, Turns(ids, i, n), n, Elems(removed))
       <==> Collides(RenamedKeys(deleted, n - 1, ids[i]), Turns(NextList(ids, i, n), i + 1, n - 1), n - 1,
                     Elems(removed + [key]))
  {
    hide NextList, RenamedKeys;
    var ds, rest := Turns(ids, i, n), Turns(NextList(ids, i, n), i + 1, n - 1);
    assert ds == [ids[i]] + rest;
    assert ds[0] == ids[i] && ds[1..] == rest;
    assert Elems(removed + [key]) == Elems(removed) + {key};
    InElems(removed);
  }

  /** The element was taken out of the graph on the spot, and its jobs were settled. */
  ghost predicate RemovedInPlace(t: Tier, id: Id, after: Tier) {
    && Inv(t) && Quiet(t) && 0 <= id < |t.ix.top| && id !in t.ix.deleted && TakenOut(t.ix, after.ix, id)
    && after == TieredProtocol.RemovedNow(t, id, after.ix)
  }

  ghost function SettledNow(jobs: Jobs, id: Id, last: Id): Jobs
    requires id in jobs.idToRepair ==> ListOk(jobs, id)
    requires MovesSwap(jobs, id, last, []) ==> jobs.idToSwap[last] in jobs.swap
  {
    var before := jobs.(ready := jobs.ready + 1);
    assert id in jobs.idToRepair ==> ListOk(before, id) by {
      if id in jobs.idToRepair {
        assert ListOk(jobs, id);
      }
    }
    var after := SwapJobs.ExecuteSwapJob(before, id, last, []);
    after.(idToSwap := after.idToSwap - {StaleKey(before, id, last, [])}, ready := after.ready - 1)
  }

  lemma InPlaceFacts(t: Tier, id: Id, after: Index)
    requires Inv(t) && Quiet(t) && 0 <= id < |t.ix.top| && id !in t.ix.deleted && TakenOut(t.ix, after, id)
    ensures JobsOk(t.jobs, |t.ix.top|)
    ensures id in t.jobs.idToRepair ==> ListOk(t.jobs, id)
    ensures MovesSwap(t.jobs, id, |t.ix.top| - 1, []) ==> t.jobs.idToSwap[|t.ix.top| - 1] in t.jobs.swap
    ensures Inv(Tier(after, SettledNow(t.jobs, id, |t.ix.top| - 1), [], {}))
    ensures RemovedInPlace(t, id, Tier(after, SettledNow(t.jobs, id, |t.ix.top| - 1), [], {}))
  {
    hide IndexOk, Inv, TakenOut, Covered, BatchOk, JobsOk, SwapJobs.ExecuteSwapJob, ListOk, SettledNow,
      TieredProtocol.RemovedNow;
    SettledFacts(t, id);
    SettledForm(t, id, after);
    TieredProtocol.RemoveNowKeepsInv(t, id, after);
  }

  lemma SettledFacts(t: Tier, id: Id)
    requires Inv(t) && Quiet(t) && 0 <= id < |t.ix.top|
    ensures JobsOk(t.jobs, |t.ix.top|)
    ensures id in t.jobs.idToRepair ==> ListOk(t.jobs, id)
    ensures MovesSwap(t.jobs, id, |t.ix.top| - 1, []) ==> t.jobs.idToSwap[|t.ix.top| - 1] in t.jobs.swap
  {
  }

  lemma SettledForm(t: Tier, id: Id, after: Index)
    requires Inv(t) && Quiet(t) && 0 <= id < |t.ix.top| && id !in t.ix.deleted
    requires id in t.jobs.idToRepair ==> ListOk(t.jobs, id)
    requires MovesSwap(t.jobs, id, |t.ix.top| - 1, []) ==> t.jobs.idToSwap[|t.ix.top| - 1] in t.jobs.swap
    ensures TieredProtocol.RemovedNow(t, id, after) == Tier(after, SettledNow(t.jobs, id, |t.ix.top| - 1), [], {})
  {
    hide Inv, SwapJobs.ExecuteSwapJob, ListOk;
    var key := StaleKey(t.jobs.(ready := t.jobs.ready + 1), id, |t.ix.top| - 1, []);
    assert Elems([key]) == {key};
  }
}

/**
 * Both tiers with all threads at work: the client's calls and the insert jobs, section by section, with
 * the steps of the graph's threads in between.  A call that takes a label out of the flat buffer takes it
 * out of the graph in a section of its own; until then what the graph has under the label counts for
 * nothing.
 */
module SharedTiers {
  import opened Seqs
  import opened LabelLookup
  import opened FlatBuffers
  import opened HnswIndexes
  import opened TieredIndexes
  import opened InsertJobs
  import opened Threads
  import Interleaving
  import SwapJobs
  import TieredJobs
  import IndexModel
  import opened Workers

  /** The elements that have the label. */
  function Under(labels: seq<Label>, pending: Option<Label>): set<Id> {
    set i | 0 <= i < |labels| && pending == Some(labels[i])
  }

  predicate OfPending(e: Entry, pending: Option<Label>) {
    pending.Some? && Of(e, pending.value)
  }

  lemma MaskedCounts(labels: seq<Label>, blobs: seq<Blob>, dead: set<Id>, pending: Option<Label>)
    requires |labels| == |blobs|
    ensures forall e :: Contents(labels, blobs, dead + Under(labels, pending))[e]
                     == if OfPending(e, pending) then 0 else Contents(labels, blobs, dead)[e]
  {
    hide Contents;
    DropCounts(labels, blobs, dead, dead + Under(labels, pending), if pending.Some? then {pending.value} else {});
  }

  lemma IsStored(plain: Entry -> nat, after: Entry -> nat, key: Label, blob: Blob, instead: bool)
    requires forall e :: after(e) == (if instead && Of(e, key) then 0 else plain(e)) + if e == Some((key, blob)) then 1 else 0
    ensures Stored(plain, after, key, blob, instead)
  {
  }

  lemma IsLost(plain: Entry -> nat, after: Entry -> nat, key: Label)
    requires forall e :: after(e) == if Of(e, key) then 0 else plain(e)
    ensures Lost(plain, after, key)
  {
  }

  /** A step of one of the graph's threads. */
  datatype Work =
    | FindNeighbors(k: nat, level: nat, start: Id, blob: Blob)
    | ConnectNext(k: nat)
    | UpdateNeighbor(k: nat)
    | EndLevel(k: nat)
    | EndInsert(k: nat)
    | StartGather(id: Id)
    | CopyLinks(k: nat)
    | Ask(k: nat, neighbor: Id)
    | ReadRecord(k: nat)
    | OpenJob(k: nat)
    | PopRepairJob(job: TieredJobs.Handle)
    | ReadLinks(i: nat)
    | ReadNeighbor(i: nat, neighbor: Id)
    | MakePlan(i: nat, order: seq<Id>)
    | Rewire(i: nat)

  /** The step that the work amounts to. */
  ghost predicate IsStepOf(work: Work, step: Interleaving.Step) {
    match work
    case FindNeighbors(k, level, _, _) =>
      step.Insert? && step.k == k && step.insertStep.Select? && step.insertStep.level == level
    case ConnectNext(k) => step.Insert? && step.k == k && (step.insertStep.ConnectNext? || step.insertStep.Decide?)
    case UpdateNeighbor(k) => step.Insert? && step.k == k && step.insertStep.UpdateNeighbor?
    case EndLevel(k) => step.Insert? && step.k == k && step.insertStep.EndLevel?
    case EndInsert(k) => step == Interleaving.EndInsert(k)
    case StartGather(id) => step == Interleaving.StartGather(id)
    case CopyLinks(k) => step.Collect? && step.k == k && step.gatherStep.CopyLinks?
    case Ask(k, u) => step.Collect? && step.k == k && step.gatherStep.Ask? && step.gatherStep.neighbor == u
    case ReadRecord(k) => step.Collect? && step.k == k && step.gatherStep.ReadRecord?
    case OpenJob(k) => step == Interleaving.Open(k)
    case PopRepairJob(h) => step == Interleaving.Pop(h)
    case ReadLinks(i) => step.Repair? && step.i == i && step.repairStep.ReadLinks?
    case ReadNeighbor(i, d) => step.Repair? && step.i == i && step.repairStep.ReadNeighbor? && step.repairStep.neighbor == d
    case MakePlan(i, _) => step.Repair? && step.i == i && step.repairStep.Plan?
    case Rewire(i) => step.Rewire? && step.i == i
  }

  class TwoTiers {
    // The flat buffer with its insert jobs; the graph is the one that the threads share.
    const front: FrontTier
    const shared: SharedIndex
    // The label that the client's call has taken out of the flat buffer but not out of the graph yet.
    var pending: Option<Label>

    constructor (front: FrontTier, shared: SharedIndex)
      requires front.Valid() && shared.Valid() && shared.tiered == front.back
      ensures Valid() && this.front == front && this.shared == shared && pending == None
    {
      this.front, this.shared, pending := front, shared, None;
      new;
      hide FrontTier.FlatOk, FrontTier.BackOk, HnswIndex.Valid, Contents, AddsUp, Copied, Transit, OnePerLabel,
        SharedIndex.Valid;
      front.BalancedParts();
      NothingMasked();
      IsBalanced();
    }

    /** What the graph holds, the pending label left out. */
    ghost function InGraph(): multiset<Entry>
      requires |front.back.hnsw.labels| == |front.back.hnsw.blobs|
      reads this`pending, front.back.hnsw
    {
      Contents(front.back.hnsw.labels, front.back.hnsw.blobs,
               front.back.hnsw.deleted + Under(front.back.hnsw.labels, pending))
    }

    ghost predicate Balanced()
      requires |front.flat.labels| == |front.flat.blobs| == |front.owner|
      requires |front.back.hnsw.labels| == |front.back.hnsw.blobs|
      reads this`pending, front, front.flat, front.back.hnsw
    {
      && AddsUp(front.plain, InGraph(), front.Waiting())
      && Copied(InGraph(), front.flat.labels, front.flat.blobs, Transit(front.owner, front.running))
    }

    /** Jobs and contents are right. */
    ghost predicate InOrder()
      reads this`pending, front, front.flat, front.back.hnsw, front.back.hnsw.levels
    {
      front.FlatOk() && front.BackOk() && Balanced() && (!front.flat.multi ==> OnePerLabel(front.plain))
    }

    ghost predicate Valid()
      reads this, front, front.flat, front.back.hnsw, front.back.hnsw.levels, shared, shared.tiered, shared.tiered.hnsw,
        shared.tiered.hnsw.levels
    {
      shared.tiered == front.back && shared.Valid() && InOrder()
    }

    lemma InGraphIs()
      requires |front.back.hnsw.labels| == |front.back.hnsw.blobs|
      ensures forall e :: InGraph()[e] == if OfPending(e, pending) then 0 else front.InGraph()[e]
    {
      MaskedCounts(front.back.hnsw.labels, front.back.hnsw.blobs, front.back.hnsw.deleted, pending);
    }

    lemma NothingMasked()
      requires |front.back.hnsw.labels| == |front.back.hnsw.blobs| && pending == None
      ensures InGraph() == front.InGraph()
    {
      hide Contents;
      assert front.back.hnsw.deleted + Under(front.back.hnsw.labels, pending) == front.back.hnsw.deleted;
    }

    lemma Parts()
      requires InOrder()
      ensures |front.flat.labels| == |front.flat.blobs| == |front.owner|
      ensures |front.back.hnsw.labels| == |front.back.hnsw.blobs| && front.back.hnsw.multi == front.flat.multi
      ensures AddsUp(front.plain, InGraph(), front.Waiting())
      ensures Copied(InGraph(), front.flat.labels, front.flat.blobs, Transit(front.owner, front.running))
    {
      hide JobsOk, LookupOk, HnswIndex.Valid, AddsUp, Copied, Transit, Contents;
    }

    lemma IsBalanced()
      requires front.FlatOk() && front.BackOk()
      requires |front.flat.labels| == |front.flat.blobs| == |front.owner|
      requires |front.back.hnsw.labels| == |front.back.hnsw.blobs|
      requires AddsUp(front.plain, InGraph(), front.Waiting())
      requires Copied(InGraph(), front.flat.labels, front.flat.blobs, Transit(front.owner, front.running))
      ensures Balanced()
    {
      hide JobsOk, LookupOk, HnswIndex.Valid, AddsUp, Copied, Transit, Contents;
    }

    lemma IsBackOk()
      requires shared.Valid() && shared.tiered == front.back && front.back.hnsw.multi == front.flat.multi
      ensures front.BackOk() && |front.back.hnsw.labels| == |front.back.hnsw.blobs|
    {
      hide Interleaving.Orderly;
      front.back.hnsw.BooksAreOk();
    }

    // ----- The client's sections -----

    /**
     * Puts a vector into the flat buffer, with a new insert job.  With one vector for a label an existing
     * one is overwritten and its job invalidated, and the label is still to be taken out of the graph.
     */
    method PutInFlat(key: Label, blob: Blob)
      requires Valid() && pending == None && |front.flat.labels| < front.flatBufferLimit
      modifies this`pending, front, front.flat
      ensures Valid() && Stored(old(front.plain), front.plain, key, blob, !front.flat.multi)
      ensures key in front.flat.lookup && pending == if front.flat.multi then None else Some(key)
    {
      hide FrontTier.FlatOk, FrontTier.BackOk, Contents, AddsUp, Copied, Transit, OnePerLabel, Stored, BagLost,
        BagStored, SameTransit, SharedIndex.Valid, Under;
      Parts();
      ghost var g, w, labels0, blobs0 := InGraph(), front.Waiting(), front.flat.labels, front.flat.blobs;
      ghost var t := Transit(front.owner, front.running);
      if !front.flat.multi && key in front.flat.lookup {
        front.OverwriteVector(key, blob);
      } else {
        front.AppendVector(key, blob);
      }
      MaskMore(key, g);
      front.FlatLengths();
      if !front.flat.multi {
        pending := Some(key);
      }
      StoreInPlain(key, blob, g, w, labels0, blobs0, t);
    }

    /** The same call on the plain store, when the flat buffer is done. */
    ghost method StoreInPlain(key: Label, blob: Blob, g: multiset<Entry>, w: multiset<Entry>, labels0: seq<Label>,
                              blobs0: seq<Blob>, t: set<Id>)
      requires front.FlatOk() && front.BackOk() && |front.flat.labels| == |front.flat.blobs|
      requires |front.back.hnsw.labels| == |front.back.hnsw.blobs| && (!front.flat.multi ==> OnePerLabel(front.plain))
      requires |labels0| == |blobs0| && AddsUp(front.plain, g, w) && Copied(g, labels0, blobs0, t)
      requires BagStored(w, front.Waiting(), key, blob, !front.flat.multi)
      requires if !front.flat.multi then BagLost(g, InGraph(), key) else InGraph() == g
      requires SameTransit(labels0, blobs0, t, front.flat.labels, front.flat.blobs,
                           Transit(front.owner, front.running), key, !front.flat.multi)
      modifies front`plain
      ensures InOrder() && Stored(old(front.plain), front.plain, key, blob, !front.flat.multi)
    {
      hide FrontTier.FlatOk, FrontTier.BackOk, Contents, AddsUp, Copied, Transit, OnePerLabel, Stored, BagLost,
        BagStored, SameTransit, Under, Balanced, HnswIndex.Valid;
      var p, multi := front.plain, front.flat.multi;
      front.FlatLengths();
      front.plain := e => (if !multi && Of(e, key) then 0 else p(e)) + if e == Some((key, blob)) then 1 else 0;
      IsStored(p, front.plain, key, blob, !multi);
      StoredAddsUp(p, g, w, front.plain, InGraph(), front.Waiting(), key, blob, !multi);
      SameTransitStaysCopied(g, InGraph(), labels0, blobs0, front.flat.labels, front.flat.blobs, t,
                             Transit(front.owner, front.running), key, !multi);
      if !multi {
        StoredOnePerLabel(p, front.plain, key, blob);
      }
      IsBalanced();
    }

    /** What leaving out a label would do. */
    lemma MaskMore(key: Label, g: multiset<Entry>)
      requires |front.back.hnsw.labels| == |front.back.hnsw.blobs| && pending == None && g == InGraph()
      ensures BagLost(g, Contents(front.back.hnsw.labels, front.back.hnsw.blobs,
                                  front.back.hnsw.deleted + Under(front.back.hnsw.labels, Some(key))), key)
    {
      hide Contents, Under;
      var hnsw := front.back.hnsw;
      MaskedCounts(hnsw.labels, hnsw.blobs, hnsw.deleted, pending);
      MaskedCounts(hnsw.labels, hnsw.blobs, hnsw.deleted, Some(key));
    }

    /**
     * Takes a label out of the flat buffer: its jobs are invalidated, and those of the vectors that move are
     * told.  The label is still to be taken out of the graph.  Returns the number of vectors.
     */
    method DropFromFlat(key: Label) returns (count: nat)
      requires Valid() && pending == None
      modifies this`pending, front, front.flat
      ensures Valid() && Lost(old(front.plain), front.plain, key) && pending == Some(key) && key !in front.flat.lookup
      ensures count == Held(old(front.flat.lookup), key)
    {
      hide FrontTier.FlatOk, FrontTier.BackOk, Contents, AddsUp, Copied, Transit, OnePerLabel, Lost, BagLost,
        SharedIndex.Valid, Under, SameTransit;
      Parts();
      ghost var g, w := InGraph(), front.Waiting();
      count := 0;
      if key in front.flat.lookup {
        count := front.DeleteFromFlat(key, g);
      } else {
        front.NothingWaits(key);
      }
      MaskMore(key, g);
      pending := Some(key);
      LoseInPlain(key, g, w);
    }

    ghost method LoseInPlain(key: Label, g: multiset<Entry>, w: multiset<Entry>)
      requires front.FlatOk() && front.BackOk() && |front.flat.labels| == |front.flat.blobs|
      requires |front.back.hnsw.labels| == |front.back.hnsw.blobs| && (!front.flat.multi ==> OnePerLabel(front.plain))
      requires key !in front.flat.lookup && AddsUp(front.plain, g, w)
      requires Copied(g, front.flat.labels, front.flat.blobs, Transit(front.owner, front.running))
      requires BagLost(g, InGraph(), key) && BagLost(w, front.Waiting(), key)
      modifies front`plain
      ensures InOrder() && Lost(old(front.plain), front.plain, key)
    {
      hide FrontTier.FlatOk, FrontTier.BackOk, Contents, AddsUp, Copied, Transit, OnePerLabel, Lost, BagLost, Under,
        Balanced, HnswIndex.Valid;
      var p := front.plain;
      front.FlatLengths();
      front.plain := e => if Of(e, key) then 0 else p(e);
      IsLost(p, front.plain, key);
      LostAddsUp(p, g, w, front.plain, InGraph(), front.Waiting(), key);
      StillCopied(g, key);
      if !front.flat.multi {
        LostOnePerLabel(p, front.plain, key);
      }
      IsBalanced();
    }

    lemma StillCopied(g: multiset<Entry>, key: Label)
      requires front.FlatOk() && key !in front.flat.lookup && |front.flat.labels| == |front.flat.blobs|
      requires |front.back.hnsw.labels| == |front.back.hnsw.blobs| && BagLost(g, InGraph(), key)
      requires Copied(g, front.flat.labels, front.flat.blobs, Transit(front.owner, front.running))
      ensures Copied(InGraph(), front.flat.labels, front.flat.blobs, Transit(front.owner, front.running))
    {
      hide JobsOk, LookupOk, Contents, Transit;
      front.NothingWaits(key);
    }

    /** The label's elements in the graph are marked; their jobs are opened by steps of their own. */
    method DropFromGraph() returns (ids: seq<Id>)
      requires Valid() && pending.Some?
      modifies this`pending, shared`waiting, shared.tiered.hnsw`lookup, shared.tiered.hnsw`entry,
        shared.tiered.hnsw`maxLevel, shared.tiered.hnsw`deleted, shared.tiered.hnsw`numMarkedDeleted
      ensures Valid() && pending == None && old(pending).value !in front.back.hnsw.lookup
      ensures |ids| == Held(old(front.back.hnsw.lookup), old(pending).value)
    {
      hide FrontTier.FlatOk, FrontTier.BackOk, Contents, AddsUp, Copied, Transit, OnePerLabel, SharedIndex.Valid, Under,
        Interleaving.Did;
      Parts();
      ghost var g := InGraph();
      InGraphIs();
      ids := shared.MarkLabel(pending.value);
      IsBackOk();
      pending := None;
      NothingMasked();
      assert InGraph() == g;
      IsBalanced();
    }

    /** The label leaves the graph in place, with no other thread at work. */
    method RemoveFromGraph() returns (count: nat)
      requires Valid() && pending.Some? && Interleaving.Exclusive(shared.Now())
      modifies this`pending, shared.tiered, shared.tiered.hnsw, shared.tiered.hnsw.levels
      ensures InOrder() && pending == None && old(pending).value !in front.back.hnsw.lookup
      ensures count == Held(old(front.back.hnsw.lookup), old(pending).value)
      ensures old(shared.tiered.Valid()) && (Valid() <==> old(shared.tiered.NoneForgotten(pending.value)))
    {
      hide FrontTier.FlatOk, Contents, AddsUp, Copied, Transit, OnePerLabel, SharedIndex.Valid, Under, HnswIndex.Valid,
        Interleaving.Exclusive, TieredIndex.Valid, TieredIndex.NoneForgotten;
      Parts();
      ghost var g := InGraph();
      InGraphIs();
      count := shared.RemoveLabel(pending.value);
      front.back.hnsw.BooksAreOk();
      pending := None;
      NothingMasked();
      assert InGraph() == g;
      IsBalanced();
    }

    /** With the flat buffer full, a vector is stored in the graph at once; it is linked by steps of their own. */
    method StoreDirectly(key: Label, blob: Blob, level: nat)
      requires Valid() && pending == None && (front.flat.multi || forall e | Of(e, key) :: front.plain(e) == 0)
      modifies front`plain, shared`inserting, shared.tiered.hnsw, shared.tiered.hnsw.levels
      ensures Valid() && Stored(old(front.plain), front.plain, key, blob, false)
      ensures shared.inserting == old(shared.inserting) + [Climbing(|old(shared.tiered.hnsw.top)|, level + 1)]
    {
      hide FrontTier.FlatOk, FrontTier.BackOk, Contents, AddsUp, Copied, Transit, OnePerLabel, SharedIndex.Valid, Under,
        Stored, Interleaving.Did;
      Parts();
      ghost var g := InGraph();
      if !front.flat.multi {
        NotInGraph(key);
      }
      InGraphIs();
      StoreShared(key, blob, level);
      InGraphIs();
      assert InGraph() == g + multiset{Some((key, blob))};
      GainInPlain(key, blob, g);
    }

    ghost method GainInPlain(key: Label, blob: Blob, g: multiset<Entry>)
      requires front.FlatOk() && front.BackOk() && |front.flat.labels| == |front.flat.blobs|
      requires |front.back.hnsw.labels| == |front.back.hnsw.blobs| && (!front.flat.multi ==> OnePerLabel(front.plain))
      requires front.flat.multi || forall e | Of(e, key) :: front.plain(e) == 0
      requires AddsUp(front.plain, g, front.Waiting()) && InGraph() == g + multiset{Some((key, blob))}
      requires Copied(g, front.flat.labels, front.flat.blobs, Transit(front.owner, front.running))
      modifies front`plain
      ensures InOrder() && Stored(old(front.plain), front.plain, key, blob, false)
    {
      hide FrontTier.FlatOk, FrontTier.BackOk, Contents, AddsUp, Copied, Transit, OnePerLabel, Stored, Under, Balanced,
        HnswIndex.Valid;
      var p := front.plain;
      front.FlatLengths();
      front.plain := e => p(e) + if e == Some((key, blob)) then 1 else 0;
      StoredInBoth(p, front.plain, g, InGraph(), front.Waiting(), front.flat.labels, front.flat.blobs,
                   Transit(front.owner, front.running), key, blob);
      if !front.flat.multi {
        StoredFirst(p, front.plain, key, blob);
        StoredOnePerLabel(p, front.plain, key, blob);
      }
      IsBalanced();
    }

    method StoreShared(key: Label, blob: Blob, level: nat)
      requires shared.Valid() && shared.tiered == front.back && front.BackOk()
      requires !front.flat.multi ==> key !in front.back.hnsw.lookup
      modifies shared`inserting, shared.tiered.hnsw, shared.tiered.hnsw.levels
      ensures shared.Valid() && front.BackOk() && |front.back.hnsw.labels| == |front.back.hnsw.blobs|
      ensures |old(front.back.hnsw.labels)| == |old(front.back.hnsw.blobs)|
      ensures front.InGraph() == old(front.InGraph()) + multiset{Some((key, blob))}
      ensures shared.inserting == old(shared.inserting) + [Climbing(|old(shared.tiered.hnsw.top)|, level + 1)]
    {
      hide HnswIndex.Valid, Contents, SharedIndex.Valid, Interleaving.Did;
      IdsInside();
      AppendCounts(front.back.hnsw.labels, front.back.hnsw.blobs, front.back.hnsw.deleted, key, blob);
      shared.Store(key, blob, level);
      IsBackOk();
    }

    lemma IdsInside()
      requires shared.Valid() && shared.tiered == front.back
      ensures |front.back.hnsw.labels| !in front.back.hnsw.deleted
    {
      hide Interleaving.Orderly;
      front.back.hnsw.LabelsFit({});
    }

    // ----- The sections of an insert job -----

    /**
     * First section: the vector is read under its current id and stored in the graph, at a level drawn at
     * random; its linking is up to the graph's threads.  A job found invalid is disposed of.  The job of a
     * label that is being added is not in the queue yet.
     */
    method BeginInsert(h: InsertJobs.Handle, level: nat)
      requires Valid() && h in front.all && h !in front.running
      requires front.all[h].valid ==> pending != Some(front.all[h].key)
      modifies front`all, front`invalid, front`running, shared`inserting, shared.tiered.hnsw, shared.tiered.hnsw.levels
      ensures Valid()
      ensures front.all.Keys == if old(front.all[h]).valid then old(front.all).Keys else old(front.all).Keys - {h}
      ensures old(front.all[h]).valid ==>
                && h in front.running
                && shared.inserting == old(shared.inserting) + [Climbing(|old(shared.tiered.hnsw.top)|, level + 1)]
    {
      hide JobsOk, LookupOk, FrontTier.BackOk, Contents, AddsUp, Copied, Transit, OnePerLabel, SharedIndex.Valid, Under,
        FlatBuffer.Kept, HnswIndex.Valid;
      Parts();
      if !front.all[h].valid {
        front.DropInvalid(h);
        IsBalanced();
      } else {
        StartJob(h, level);
      }
    }

    method StartJob(h: InsertJobs.Handle, level: nat)
      requires shared.tiered == front.back && shared.Valid() && InOrder()
      requires h in front.all && h !in front.running && front.all[h].valid && pending != Some(front.all[h].key)
      modifies front`running, shared`inserting, shared.tiered.hnsw, shared.tiered.hnsw.levels
      ensures shared.Valid() && InOrder() && front.running == old(front.running) + {h}
      ensures shared.inserting == old(shared.inserting) + [Climbing(|old(shared.tiered.hnsw.top)|, level + 1)]
    {
      hide JobsOk, LookupOk, FrontTier.BackOk, Contents, AddsUp, Copied, Transit, OnePerLabel, SharedIndex.Valid, Under,
        FlatBuffer.Kept, HnswIndex.Valid;
      Parts();
      ghost var flat := front.flat;
      ghost var i, g, t := front.all[h].id, InGraph(), Transit(front.owner, front.running);
      OwnerOf(front.JobsNow(), flat.labels, front.owner, h);
      TransitBegins(front.JobsNow(), flat.labels, front.owner, front.running, h);
      BeginCounts(flat.labels, flat.blobs, t, i);
      if !flat.multi {
        WaitsAlone(h);
      }
      InGraphIs();
      var blobCopy := front.flat.blobs[front.all[h].id];
      StoreShared(front.all[h].key, blobCopy, level);
      InGraphIs();
      front.running := front.running + {h};
      BeginAddsUp(front.plain, g, InGraph(), Contents(flat.labels, flat.blobs, t), front.Waiting(),
                  Some((flat.labels[i], flat.blobs[i])));
      BeginKeepsCopied(g, InGraph(), flat.labels, flat.blobs, t, i);
      IsBalanced();
    }

    /** With one vector for a label, the label of a waiting vector is not in the graph. */
    lemma WaitsAlone(h: InsertJobs.Handle)
      requires InOrder() && !front.flat.multi && h in front.all && front.all[h].valid && h !in front.running
      requires pending != Some(front.all[h].key)
      ensures front.all[h].key !in front.back.hnsw.lookup
    {
      hide JobsOk, LookupOk, Contents, Transit, HnswIndex.Valid, Under;
      OwnerOf(front.JobsNow(), front.flat.labels, front.owner, h);
      TransitBegins(front.JobsNow(), front.flat.labels, front.owner, front.running, h);
      var i := front.all[h].id;
      var here := Some((front.flat.labels[i], front.flat.blobs[i]));
      StoredAt(front.flat.labels, front.flat.blobs, Transit(front.owner, front.running), i);
      assert front.plain(here) == InGraph()[here] + front.Waiting()[here] && Of(here, front.all[h].key);
      InGraphIs();
      forall e | Of(e, front.all[h].key) ensures front.InGraph()[e] == 0 {
        assert front.plain(e) == InGraph()[e] + front.Waiting()[e];
      }
      front.LeftGraph(front.all[h].key);
    }

    /**
     * Second section: if the job is still valid, its vector leaves the flat buffer, the job of the vector
     * that took its id follows, and the job is done with.
     */
    method FinishInsert(h: InsertJobs.Handle)
      requires Valid() && h in front.running
      modifies front`all, front`byLabel, front`invalid, front`owner, front`running, front.flat
      ensures Valid() && front.all.Keys == old(front.all).Keys - {h} && h !in front.running
    {
      hide JobsOk, LookupOk, FrontTier.BackOk, Contents, AddsUp, Copied, Transit, OnePerLabel, SharedIndex.Valid, Under;
      Parts();
      if front.all[h].valid {
        front.TakeOut(h, InGraph());
      } else {
        front.DropInvalid(h);
      }
      front.FlatLengths();
      IsBalanced();
    }

    // ----- The graph's threads -----

    /** The thread is there and has come to this step. */
    ghost predicate CanDo(work: Work)
      reads this, shared, shared.tiered, shared.tiered.hnsw, shared.tiered.hnsw.levels
    {
      var ix := shared.tiered.hnsw.View();
      match work
      case FindNeighbors(k, level, start, _) =>
        && k < |shared.inserting| && shared.inserting[k].Climbing? && level < shared.inserting[k].level
        && HasLevel(ix, start, level) && start !in ix.inProcess && HasLevel(ix, shared.inserting[k].id, level)
      case ConnectNext(k) => k < |shared.inserting| && shared.inserting[k].Connecting? && shared.inserting[k].rest != []
      case UpdateNeighbor(k) => k < |shared.inserting| && shared.inserting[k].Revisiting?
      case EndLevel(k) => k < |shared.inserting| && shared.inserting[k].Connecting? && shared.inserting[k].rest == []
      case EndInsert(k) => k < |shared.inserting| && shared.inserting[k].Climbing?
      case StartGather(id) =>
        id in shared.waiting && forall k | 0 <= k < |shared.gathering| :: shared.gathering[k].id != id
      case CopyLinks(k) =>
        && k < |shared.gathering| && shared.gathering[k].Gathering? && shared.gathering[k].id in shared.waiting
        && HasLevel(ix, shared.gathering[k].id, shared.gathering[k].level)
      case Ask(k, u) => k < |shared.gathering| && shared.gathering[k].Asking? && u in shared.gathering[k].left
      case ReadRecord(k) => k < |shared.gathering| && shared.gathering[k].Asking? && shared.gathering[k].left == {}
      case OpenJob(k) =>
        && k < |shared.gathering| && shared.gathering[k].Gathering?
        && !HasLevel(ix, shared.gathering[k].id, shared.gathering[k].level)
      case PopRepairJob(h) => h in shared.tiered.repair
      case ReadLinks(i) => i < |shared.flying| && shared.flying[i].Popped?
      case ReadNeighbor(i, d) => i < |shared.flying| && shared.flying[i].Reading? && d in shared.flying[i].left
      case MakePlan(i, order) =>
        && i < |shared.flying| && shared.flying[i].Reading? && shared.flying[i].left == {}
        && NoDup(order) && Elems(order) == shared.flying[i].cands
      case Rewire(i) => i < |shared.flying| && shared.flying[i].Planned?
    }

    /** Whatever the graph's threads do, jobs and contents stay as they are. */
    method Do(work: Work) returns (ghost step: Interleaving.Step)
      requires Valid() && CanDo(work)
      modifies shared, shared.tiered, shared.tiered.hnsw`inProcess, shared.tiered.hnsw.levels
      ensures Valid() && front.InGraph.requires() && front.InGraph() == old(front.InGraph())
      ensures IsStepOf(work, step) && Interleaving.Did(old(shared.Now()), step, shared.Now())
      ensures work.FindNeighbors? ==>
                exists next ::
                  SelectedFor(shared.tiered.hnsw, work.level, work.start, work.blob, step.insertStep.selected, next)
    {
      hide FrontTier.FlatOk, FrontTier.BackOk, Contents, AddsUp, Copied, Transit, OnePerLabel, SharedIndex.Valid, Under,
        Interleaving.Did, SelectedFor;
      Parts();
      step := DoShared(work);
      IsBackOk();
      IsBalanced();
    }

    method DoShared(work: Work) returns (ghost step: Interleaving.Step)
      requires shared.Valid() && CanDo(work)
      modifies shared, shared.tiered, shared.tiered.hnsw`inProcess, shared.tiered.hnsw.levels
      ensures shared.Valid() && IsStepOf(work, step) && Interleaving.Did(old(shared.Now()), step, shared.Now())
      ensures work.FindNeighbors? ==>
                exists next ::
                  SelectedFor(shared.tiered.hnsw, work.level, work.start, work.blob, step.insertStep.selected, next)
    {
      hide Interleaving.Did, SharedIndex.Valid, SelectedFor, IsStepOf, CanDo;
      match work
      case FindNeighbors(_, _, _, _) => step := DoFind(work);
      case ConnectNext(_) => step := DoInsert(work);
      case UpdateNeighbor(_) => step := DoInsert(work);
      case EndLevel(_) => step := DoInsert(work);
      case EndInsert(_) => step := DoInsert(work);
      case StartGather(_) => step := DoCollect(work);
      case CopyLinks(_) => step := DoCollect(work);
      case Ask(_, _) => step := DoCollect(work);
      case ReadRecord(_) => step := DoCollect(work);
      case OpenJob(_) => step := DoCollect(work);
      case PopRepairJob(_) => step := DoRepair(work);
      case ReadLinks(_) => step := DoRepair(work);
      case ReadNeighbor(_, _) => step := DoRepair(work);
      case MakePlan(_, _) => step := DoRepair(work);
      case Rewire(_) => step := DoRepair(work);
    }

    method DoFind(work: Work) returns (ghost step: Interleaving.Step)
      requires shared.Valid() && CanDo(work) && work.FindNeighbors?
      modifies shared`inserting
      ensures shared.Valid() && IsStepOf(work, step) && Interleaving.Did(old(shared.Now()), step, shared.Now())
      ensures exists next ::
                SelectedFor(shared.tiered.hnsw, work.level, work.start, work.blob, step.insertStep.selected, next)
    {
      hide Interleaving.Did, SharedIndex.Valid, SelectedFor, Interleaving.Orderly;
      var selected, next := shared.FindNeighbors(work.k, work.level, work.start, work.blob);
      step := Interleaving.Insert(work.k, Interleaving.Select(work.level, selected));
    }

    method DoInsert(work: Work) returns (ghost step: Interleaving.Step)
      requires shared.Valid() && CanDo(work)
      requires work.ConnectNext? || work.UpdateNeighbor? || work.EndLevel? || work.EndInsert?
      modifies shared, shared.tiered.hnsw`inProcess, shared.tiered.hnsw.levels
      ensures shared.Valid() && IsStepOf(work, step) && Interleaving.Did(old(shared.Now()), step, shared.Now())
    {
      hide Interleaving.Did, SharedIndex.Valid, Interleaving.Orderly;
      match work
      case ConnectNext(k) =>
        ghost var next := shared.ConnectNext(k);
        step := Interleaving.Insert(k, next);
      case UpdateNeighbor(k) =>
        shared.UpdateNeighbor(k);
        step := Interleaving.Insert(k, Interleaving.InsertStep.UpdateNeighbor(shared.tiered.hnsw.View()));
      case EndLevel(k) =>
        shared.EndLevel(k);
        step := Interleaving.Insert(k, Interleaving.InsertStep.EndLevel);
      case EndInsert(k) =>
        shared.EndInsert(k);
        step := Interleaving.EndInsert(k);
    }

    method DoCollect(work: Work) returns (ghost step: Interleaving.Step)
      requires shared.Valid() && CanDo(work)
      requires work.StartGather? || work.CopyLinks? || work.Ask? || work.ReadRecord? || work.OpenJob?
      modifies shared, shared.tiered
      ensures shared.Valid() && IsStepOf(work, step) && Interleaving.Did(old(shared.Now()), step, shared.Now())
    {
      hide Interleaving.Did, SharedIndex.Valid, Interleaving.Orderly;
      match work
      case StartGather(id) =>
        shared.StartGather(id);
        step := Interleaving.StartGather(id);
      case CopyLinks(k) =>
        shared.CopyLinks(k);
        step := Interleaving.Collect(k, Interleaving.GatherStep.CopyLinks);
      case Ask(k, u) =>
        shared.Ask(k, u);
        step := Interleaving.Collect(k, Interleaving.GatherStep.Ask(u));
      case ReadRecord(k) =>
        shared.ReadRecord(k);
        step := Interleaving.Collect(k, Interleaving.GatherStep.ReadRecord);
      case OpenJob(k) =>
        shared.OpenJob(k);
        step := Interleaving.Open(k);
    }

    method DoRepair(work: Work) returns (ghost step: Interleaving.Step)
      requires shared.Valid() && CanDo(work)
      requires work.PopRepairJob? || work.ReadLinks? || work.ReadNeighbor? || work.MakePlan? || work.Rewire?
      modifies shared, shared.tiered, shared.tiered.hnsw.levels
      ensures shared.Valid() && IsStepOf(work, step) && Interleaving.Did(old(shared.Now()), step, shared.Now())
    {
      hide Interleaving.Did, SharedIndex.Valid, Interleaving.Orderly;
      match work
      case PopRepairJob(h) =>
        shared.PopRepairJob(h);
        step := Interleaving.Pop(h);
      case ReadLinks(i) =>
        shared.ReadLinks(i);
        step := Interleaving.Repair(i, Interleaving.RepairStep.ReadLinks);
      case ReadNeighbor(i, d) =>
        shared.ReadNeighbor(i, d);
        step := Interleaving.Repair(i, Interleaving.RepairStep.ReadNeighbor(d));
      case MakePlan(i, order) =>
        var toUpdate, chosen := shared.MakePlan(i, order);
        step := Interleaving.Repair(i, Interleaving.Plan(toUpdate, chosen));
      case Rewire(i) =>
        shared.Rewire(i);
        step := Interleaving.Rewire(i, shared.tiered.hnsw.View());
    }

    /** Removes elements that are ready for it, with no other thread at work. */
    method CollectGarbage(order: seq<Id>, limit: nat)
      requires Valid() && Interleaving.Exclusive(shared.Now()) && SwapJobs.KeyOrder(shared.tiered.JobsView(), order)
      modifies shared.tiered, shared.tiered.hnsw, shared.tiered.hnsw.levels
      ensures Valid() && front.InGraph.requires() && front.InGraph() == old(front.InGraph())
      ensures SwapJobs.Cleared(old(shared.Now()).tier, shared.Now().tier, limit)
    {
      hide FrontTier.FlatOk, FrontTier.BackOk, Contents, AddsUp, Copied, Transit, OnePerLabel, SharedIndex.Valid, Under,
        Interleaving.Exclusive, Interleaving.Did, SwapJobs.KeyOrder, SwapJobs.Cleared;
      Parts();
      ghost var g := InGraph();
      InGraphIs();
      shared.CollectGarbage(order, limit);
      IsBackOk();
      InGraphIs();
      assert InGraph() == g;
      IsBalanced();
    }

    /** A label that the plain store does not have is not in the graph. */
    lemma NotInGraph(key: Label)
      requires InOrder() && pending != Some(key) && forall e | Of(e, key) :: front.plain(e) == 0
      ensures key !in front.back.hnsw.lookup
    {
      hide JobsOk, LookupOk, HnswIndex.Valid, Contents, Transit;
      InGraphIs();
      forall e | Of(e, key) ensures front.InGraph()[e] == 0 {
        assert front.plain(e) == InGraph()[e] + front.Waiting()[e];
      }
      front.LeftGraph(key);
    }
  }

  /** At any moment every vector in the flat buffer has one valid job, with its id and label. */
  lemma EveryVectorHasItsJob(t: TwoTiers, id: Id)
    requires t.Valid() && 0 <= id < |t.front.flat.labels|
    ensures exists h :: h in t.front.all && t.front.all[h] == InsertJob(t.front.flat.labels[id], id, true)
    ensures forall h, x | h in t.front.all && x in t.front.all && t.front.all[h].valid && t.front.all[x].valid
                          && t.front.all[h].id == t.front.all[x].id :: h == x
  {
    hide LookupOk, JobsOk, FrontTier.BackOk, TwoTiers.Balanced, SharedIndex.Valid;
    OneJobEach(t.front.JobsNow(), t.front.flat.labels, t.front.owner, id);
  }

  lemma OneJobEach(jobs: Jobs, labels: seq<Label>, owner: seq<InsertJobs.Handle>, id: Id)
    requires JobsOk(jobs, labels, owner) && 0 <= id < |labels|
    ensures exists h :: h in jobs.all && jobs.all[h] == InsertJob(labels[id], id, true)
    ensures forall h, x | h in jobs.all && x in jobs.all && jobs.all[h].valid && jobs.all[x].valid
                          && jobs.all[h].id == jobs.all[x].id :: h == x
  {
    hide InvalidOk, ListedOk;
    var h := owner[id];
    assert h in jobs.all && jobs.all[h] == InsertJob(labels[id], id, true);
  }

  /**
   * At any moment, with one vector for a label: a label found in both tiers has the same vector in both,
   * the one in transit, unless the client is just taking the label out of the graph.
   */
  lemma SameVectorAtAnyMoment(t: TwoTiers, id: Id, blob: Blob)
    requires t.Valid() && !t.front.flat.multi && 0 <= id < |t.front.flat.labels|
    requires t.pending != Some(t.front.flat.labels[id])
    requires |t.front.back.hnsw.labels| == |t.front.back.hnsw.blobs|
    requires t.front.InGraph()[Some((t.front.flat.labels[id], blob))] > 0
    ensures |t.front.flat.labels| == |t.front.flat.blobs| == |t.front.owner|
    ensures blob == t.front.flat.blobs[id] && t.front.owner[id] in t.front.running
  {
    hide JobsOk, LookupOk, HnswIndex.Valid, SharedIndex.Valid, Contents, Under;
    t.Parts();
    t.InGraphIs();
    var (flat, running) := (t.front.flat, Transit(t.front.owner, t.front.running));
    var key := flat.labels[id];
    var here, there := Some((key, flat.blobs[id])), Some((key, blob));
    assert t.front.plain(there) == t.InGraph()[there] + t.front.Waiting()[there];
    assert t.front.plain(here) == t.InGraph()[here] + t.front.Waiting()[here];
    if id !in running {
      StoredAt(flat.labels, flat.blobs, running, id);
    }
    assert Of(here, key) && Of(there, key);
  }
}

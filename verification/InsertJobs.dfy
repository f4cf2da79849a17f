/**
 * The way of a vector from the flat buffer into the graph.  Every vector in the flat buffer has one
 * pending insert job; adding, overwriting and deleting vectors keep the jobs' ids up to date, and a job
 * is carried out in two sections, between which its vector is in both tiers.
 */
module InsertJobs {
  import opened Seqs
  import opened LabelLookup
  import opened FlatBuffers
  import opened TieredIndexes
  import opened HnswIndexes
  import TieredJobs
  import IndexModel

  type Handle = int

  /** `id` is the vector's id in the flat buffer, or, once the job is invalid, its key among the invalid jobs. */
  datatype InsertJob = InsertJob(key: Label, id: Id, valid: bool)

  type Entry = Option<(Label, Blob)>

  /** The vectors of the flat buffer, the job objects and the lookups. */
  datatype Jobs = Jobs(all: map<Handle, InsertJob>, byLabel: map<Label, seq<Handle>>,
                       invalid: map<Id, Handle>, nextInvalid: Id, next: Handle)

  /** `owner` names the job of every vector; there are no other valid jobs. */
  ghost predicate Owned(jobs: Jobs, labels: seq<Label>, owner: seq<Handle>) {
    && |owner| == |labels|
    && (forall i | 0 <= i < |labels| :: owner[i] in jobs.all && jobs.all[owner[i]] == InsertJob(labels[i], i, true))
    && forall h | h in jobs.all && jobs.all[h].valid :: 0 <= jobs.all[h].id < |owner| && owner[jobs.all[h].id] == h
  }

  /** Under a label are listed its valid jobs, each once; labels without any are not in the lookup. */
  ghost predicate ListedOk(jobs: Jobs, key: Label) {
    && (key in jobs.byLabel ==> jobs.byLabel[key] != [] && NoDup(jobs.byLabel[key]))
    && forall h :: (key in jobs.byLabel && h in jobs.byLabel[key]) <==> IsFor(jobs.all, h, key)
  }

  predicate IsFor(all: map<Handle, InsertJob>, h: Handle, key: Label) {
    h in all && all[h].valid && all[h].key == key
  }

  /** The invalid jobs are kept, each under its own key, until they are picked up. */
  ghost predicate InvalidOk(jobs: Jobs) {
    && (forall h | h in jobs.all && !jobs.all[h].valid ::
          jobs.all[h].id in jobs.invalid && jobs.invalid[jobs.all[h].id] == h)
    && forall k | k in jobs.invalid ::
         && k < jobs.nextInvalid && jobs.invalid[k] in jobs.all
         && jobs.all[jobs.invalid[k]] == InsertJob(jobs.all[jobs.invalid[k]].key, k, false)
  }

  ghost predicate JobsOk(jobs: Jobs, labels: seq<Label>, owner: seq<Handle>) {
    && Owned(jobs, labels, owner) && InvalidOk(jobs)
    && (forall key :: ListedOk(jobs, key))
    && forall h | h in jobs.all :: h < jobs.next
  }

  /** The jobs of a label were invalidated: they are kept under fresh keys, all others are as before. */
  ghost predicate LabelInvalidated(before: Jobs, after: Jobs, key: Label) {
    && after.all.Keys == before.all.Keys && after.byLabel == before.byLabel - {key} && after.next == before.next
    && (forall h | h in before.all ::
          if IsFor(before.all, h, key) then after.all[h].key == key && !after.all[h].valid else after.all[h] == before.all[h])
    && InvalidOk(after)
  }

  /** The ids of vectors whose job has put them into the graph already. */
  ghost function Transit(owner: seq<Handle>, running: set<Handle>): set<Id> {
    set i | 0 <= i < |owner| && owner[i] in running
  }

  ghost predicate AddsUp(plain: Entry -> nat, graph: multiset<Entry>, waiting: multiset<Entry>) {
    forall e :: plain(e) == graph[e] + waiting[e]
  }

  ghost predicate Copied(graph: multiset<Entry>, labels: seq<Label>, blobs: seq<Blob>, ids: set<Id>)
    requires |labels| == |blobs|
  {
    forall i | i in ids :: 0 <= i < |labels| && graph[Some((labels[i], blobs[i]))] > 0
  }

  /** A count that lost a label. */
  ghost predicate Lost(before: Entry -> nat, after: Entry -> nat, key: Label) {
    forall e :: after(e) == if Of(e, key) then 0 else before(e)
  }

  /** A count with one more entry, `instead` of what there was under its label or on top of it. */
  ghost predicate Stored(before: Entry -> nat, after: Entry -> nat, key: Label, blob: Blob, instead: bool) {
    forall e :: after(e) == (if instead && Of(e, key) then 0 else before(e)) + if e == Some((key, blob)) then 1 else 0
  }

  ghost predicate BagStored(before: multiset<Entry>, after: multiset<Entry>, key: Label, blob: Blob, instead: bool) {
    forall e :: after[e] == (if instead && Of(e, key) then 0 else before[e]) + if e == Some((key, blob)) then 1 else 0
  }

  lemma StoredAddsUp(plain: Entry -> nat, graph: multiset<Entry>, waiting: multiset<Entry>, plain': Entry -> nat,
                     graph': multiset<Entry>, waiting': multiset<Entry>, key: Label, blob: Blob, instead: bool)
    requires AddsUp(plain, graph, waiting) && Stored(plain, plain', key, blob, instead)
    requires if instead then BagLost(graph, graph', key) else graph' == graph
    requires BagStored(waiting, waiting', key, blob, instead)
    ensures AddsUp(plain', graph', waiting')
  {
    forall e ensures plain'(e) == graph'[e] + waiting'[e] {
      assert plain(e) == graph[e] + waiting[e];
    }
  }

  ghost predicate BagLost(before: multiset<Entry>, after: multiset<Entry>, key: Label) {
    forall e :: after[e] == if Of(e, key) then 0 else before[e]
  }

  /** The vectors in transit are among those of before, where they were, and not of a label that goes. */
  ghost predicate SameTransit(labels: seq<Label>, blobs: seq<Blob>, ids: set<Id>, labels': seq<Label>, blobs': seq<Blob>,
                              ids': set<Id>, key: Label, instead: bool)
    requires |labels| == |blobs| && |labels'| == |blobs'|
  {
    forall i | i in ids' ::
      && i in ids && 0 <= i < |labels| && i < |labels'|
      && labels'[i] == labels[i] && blobs'[i] == blobs[i] && (instead ==> labels[i] != key)
  }

  /** They stay copied when the label leaves the graph. */
  lemma SameTransitStaysCopied(graph: multiset<Entry>, graph': multiset<Entry>, labels: seq<Label>, blobs: seq<Blob>,
                               labels': seq<Label>, blobs': seq<Blob>, ids: set<Id>, ids': set<Id>, key: Label, instead: bool)
    requires |labels| == |blobs| && |labels'| == |blobs'|
    requires Copied(graph, labels, blobs, ids) && (if instead then BagLost(graph, graph', key) else graph' == graph)
    requires SameTransit(labels, blobs, ids, labels', blobs', ids', key, instead)
    ensures Copied(graph', labels', blobs', ids')
  {
  }

  /** How many vectors a lookup has under a label. */
  function Held(lookup: Lookup, key: Label): nat {
    if key in lookup then |lookup[key]| else 0
  }

  /** The plain store stays one with a vector for a label. */
  lemma StoredOnePerLabel(plain: Entry -> nat, plain': Entry -> nat, key: Label, blob: Blob)
    requires OnePerLabel(plain) && Stored(plain, plain', key, blob, true)
    ensures OnePerLabel(plain')
  {
  }

  lemma LostOnePerLabel(plain: Entry -> nat, plain': Entry -> nat, key: Label)
    requires OnePerLabel(plain) && Lost(plain, plain', key)
    ensures OnePerLabel(plain')
  {
  }

  /** A vector that goes straight into the graph. */
  lemma StoredInBoth(plain: Entry -> nat, plain': Entry -> nat, graph: multiset<Entry>, graph': multiset<Entry>,
                     waiting: multiset<Entry>, labels: seq<Label>, blobs: seq<Blob>, ids: set<Id>, key: Label, blob: Blob)
    requires forall e :: plain'(e) == plain(e) + if e == Some((key, blob)) then 1 else 0
    requires graph' == graph + multiset{Some((key, blob))} && |labels| == |blobs|
    requires AddsUp(plain, graph, waiting) && Copied(graph, labels, blobs, ids)
    ensures AddsUp(plain', graph', waiting) && Copied(graph', labels, blobs, ids)
    ensures Stored(plain, plain', key, blob, false)
  {
    forall e ensures plain'(e) == graph'[e] + waiting[e] {
      assert plain(e) == graph[e] + waiting[e];
    }
  }

  lemma LostThenStored(plain: Entry -> nat, mid: Entry -> nat, plain': Entry -> nat, key: Label, blob: Blob)
    requires Lost(plain, mid, key) && Stored(mid, plain', key, blob, false)
    ensures Stored(plain, plain', key, blob, true)
  {
  }

  lemma LostThenReplaced(plain: Entry -> nat, mid: Entry -> nat, plain': Entry -> nat, key: Label, blob: Blob)
    requires Lost(plain, mid, key) && Stored(mid, plain', key, blob, true)
    ensures Stored(plain, plain', key, blob, true)
  {
  }

  /** The same for what the graph holds. */
  lemma LostThenGained(before: multiset<Entry>, left: multiset<Entry>, after: multiset<Entry>, key: Label, blob: Blob,
                       instead: bool)
    requires if instead then BagLost(before, left, key) else left == before
    requires after == left + multiset{Some((key, blob))}
    ensures BagStored(before, after, key, blob, instead)
  {
  }

  lemma LostIsGone(plain: Entry -> nat, mid: Entry -> nat, key: Label)
    requires Lost(plain, mid, key)
    ensures forall e | Of(e, key) :: mid(e) == 0
  {
  }

  function VectorAt(labels: seq<Label>, blobs: seq<Blob>, id: Id): Entry
    requires 0 <= id < |labels| == |blobs|
  {
    Some((labels[id], blobs[id]))
  }

  /** With nothing under the label, storing on top is storing instead. */
  lemma StoredFirst(plain: Entry -> nat, plain': Entry -> nat, key: Label, blob: Blob)
    requires Stored(plain, plain', key, blob, false) && forall e | Of(e, key) :: plain(e) == 0
    ensures Stored(plain, plain', key, blob, true)
  {
  }

  class FrontTier {
    const flat: FlatBuffer
    const back: TieredIndex
    const flatBufferLimit: nat
    const pendingSwapJobsThreshold: nat
    var all: map<Handle, InsertJob>
    var byLabel: map<Label, seq<Handle>>
    var invalid: map<Id, Handle>
    var nextInvalid: Id
    var next: Handle
    // The job of every vector in the flat buffer.
    ghost var owner: seq<Handle>
    // The jobs between their two sections.
    ghost var running: set<Handle>
    // How often an entry is in a plain store after the same calls.
    ghost var plain: Entry -> nat

    constructor (flat: FlatBuffer, back: TieredIndex, flatBufferLimit: nat, pendingSwapJobsThreshold: nat)
      requires flat.Valid() && flat.labels == []
      requires back.Valid() && back.hnsw.Stored() == multiset{} && back.hnsw.multi == flat.multi
      ensures Valid() && this.flat == flat && this.back == back && forall e :: plain(e) == 0
      ensures this.flatBufferLimit == flatBufferLimit && running == {}
      ensures this.pendingSwapJobsThreshold == pendingSwapJobsThreshold
    {
      this.flat, this.back := flat, back;
      this.flatBufferLimit, this.pendingSwapJobsThreshold := flatBufferLimit, pendingSwapJobsThreshold;
      all, byLabel, invalid, nextInvalid, next := map[], map[], map[], 0, 0;
      owner, running, plain := [], {}, e => 0;
      new;
      hide TieredIndex.Valid, OnePerLabel, FlatOk, BackOk, Balanced;
      NothingOnePerLabel(plain);
      NothingFlat();
      IsBackOk();
      NothingBalanced();
    }

    lemma NothingFlat()
      requires flat.Valid() && flat.labels == [] && JobsNow() == Jobs(map[], map[], map[], 0, 0)
      requires owner == [] && running == {}
      ensures FlatOk()
    {
      hide LookupOk;
    }

    lemma NothingBalanced()
      requires FlatOk() && BackOk() && flat.labels == [] && running == {} && back.hnsw.Stored() == multiset{}
      requires forall e :: plain(e) == 0
      ensures Balanced()
    {
      hide JobsOk, LookupOk, TieredIndex.Valid;
      FlatLengths();
    }

    ghost function JobsNow(): Jobs
      reads this`all, this`byLabel, this`invalid, this`nextInvalid, this`next
    {
      Jobs(all, byLabel, invalid, nextInvalid, next)
    }

    /** What the flat buffer holds apart from the vectors in transit. */
    ghost function Waiting(): multiset<Entry>
      requires |flat.labels| == |flat.blobs|
      reads this`owner, this`running, flat
    {
      Contents(flat.labels, flat.blobs, Transit(owner, running))
    }

    /** What the graph holds. */
    ghost function InGraph(): multiset<Entry>
      requires |back.hnsw.labels| == |back.hnsw.blobs|
      reads back.hnsw
    {
      back.hnsw.Stored()
    }

    /** Graph and waiting vectors together are what a plain store holds, and vectors in transit are in the graph. */
    ghost predicate Balanced()
      requires |flat.labels| == |flat.blobs| == |owner| && |back.hnsw.labels| == |back.hnsw.blobs|
      reads this`owner, this`running, this`plain, flat, back.hnsw
    {
      AddsUp(plain, InGraph(), Waiting()) && Copied(InGraph(), flat.labels, flat.blobs, Transit(owner, running))
    }

    /** The flat buffer and its jobs are in order. */
    ghost predicate FlatOk()
      reads this`all, this`byLabel, this`invalid, this`nextInvalid, this`next, this`owner, this`running, flat
    {
      && flat.Valid() && |owner| == |flat.labels| && |flat.labels| <= flatBufferLimit
      && JobsOk(JobsNow(), flat.labels, owner) && running <= all.Keys
    }

    /** The graph's own books are kept. */
    ghost predicate BackOk()
      reads back.hnsw, back.hnsw.levels
    {
      back.hnsw.Valid() && back.hnsw.multi == flat.multi && |back.hnsw.labels| == |back.hnsw.blobs|
    }

    /** Jobs and contents are right, whatever the state of repairs and removals in the graph. */
    ghost predicate InOrder()
      reads this, flat, back.hnsw, back.hnsw.levels
    {
      FlatOk() && BackOk() && Balanced() && (!flat.multi ==> OnePerLabel(plain))
    }

    ghost predicate Valid()
      reads this, flat, back, back.hnsw, back.hnsw.levels
    {
      InOrder() && back.Valid()
    }

    lemma BackBooks()
      requires back.Valid()
      ensures back.hnsw.Valid() && |back.hnsw.labels| == |back.hnsw.blobs|
    {
    }

    lemma FlatLengths()
      requires FlatOk()
      ensures |flat.labels| == |flat.blobs| == |owner|
    {
      hide JobsOk, LookupOk;
    }

    lemma BackLengths()
      requires BackOk()
      ensures |back.hnsw.labels| == |back.hnsw.blobs| && back.hnsw.Valid() && back.hnsw.multi == flat.multi
    {
      hide HnswIndex.Valid;
    }

    lemma IsBackOk()
      requires back.Valid() && back.hnsw.multi == flat.multi
      ensures BackOk() && |back.hnsw.labels| == |back.hnsw.blobs|
    {
      hide TieredIndex.Valid, HnswIndex.Valid;
      BackBooks();
    }

    lemma BalancedParts()
      requires FlatOk() && BackOk() && Balanced()
      ensures |flat.labels| == |flat.blobs| == |owner| && |back.hnsw.labels| == |back.hnsw.blobs|
      ensures AddsUp(plain, InGraph(), Waiting()) && Copied(InGraph(), flat.labels, flat.blobs, Transit(owner, running))
    {
      hide JobsOk, LookupOk, TieredIndex.Valid, AddsUp, Copied, Transit, Contents;
    }

    lemma IsBalanced()
      requires FlatOk() && BackOk()
      requires |flat.labels| == |flat.blobs| == |owner| && |back.hnsw.labels| == |back.hnsw.blobs|
      requires AddsUp(plain, InGraph(), Waiting()) && Copied(InGraph(), flat.labels, flat.blobs, Transit(owner, running))
      ensures Balanced()
    {
      hide JobsOk, LookupOk, TieredIndex.Valid, AddsUp, Copied, Transit, Contents;
    }

    /** A plain store with one vector for a label is safe to delete from in place. */
    lemma SingleHolds(key: Label)
      requires FlatOk() && BackOk() && back.Valid() && !flat.multi
      ensures back.NoneForgotten(key) && Held(back.hnsw.lookup, key) <= 1
      ensures Held(flat.lookup, key) == if key in flat.lookup then 1 else 0
      ensures |flat.labels| <= flatBufferLimit
    {
      hide JobsOk, LookupOk, TieredIndex.Valid, HnswIndex.GraphOk, EntryOk;
      BackBooks();
    }

    /** Whatever is in the graph is in the plain store. */
    lemma InPlain(e: Entry)
      requires FlatOk() && BackOk() && Balanced()
      ensures plain(e) >= InGraph()[e]
    {
      hide JobsOk, LookupOk, TieredIndex.Valid, Contents, Transit;
      assert plain(e) == InGraph()[e] + Waiting()[e];
    }

    /** Nothing under a label in the graph: it is not in the lookup. */
    lemma LeftGraph(key: Label)
      requires BackOk() && forall e | Of(e, key) :: InGraph()[e] == 0
      ensures key !in back.hnsw.lookup
    {
      hide HnswIndex.Valid, Contents;
      if key in back.hnsw.lookup {
        var e := back.hnsw.KnownIsStored(key);
        assert false;
      }
    }

    /** The number of vectors with the label, one in transit counting twice. */
    ghost function HeldNow(key: Label): nat
      reads flat, back.hnsw
    {
      Held(flat.lookup, key) + Held(back.hnsw.lookup, key)
    }

    // ----- Keeping the jobs up to date -----

    method InvalidateJob(h: Handle)
      requires h in all && all[h].valid && InvalidOk(JobsNow())
      modifies this`all, this`invalid, this`nextInvalid
      ensures h in all && all == old(all)[h := all[h]] && all[h].key == old(all[h]).key && !all[h].valid
      ensures InvalidOk(JobsNow())
    {
      all := all[h := InsertJob(all[h].key, nextInvalid, false)];
      invalid := invalid[nextInvalid := h];
      nextInvalid := nextInvalid + 1;
    }

    /** Invalidates all jobs of a label. */
    method InvalidateLabel(key: Label)
      requires InvalidOk(JobsNow()) && ListedOk(JobsNow(), key) && key in byLabel
      modifies this`all, this`invalid, this`nextInvalid, this`byLabel
      ensures LabelInvalidated(old(JobsNow()), JobsNow(), key)
    {
      var hs := byLabel[key];
      for i := 0 to |hs|
        invariant byLabel == old(byLabel) && all.Keys == old(all).Keys && InvalidOk(JobsNow())
        invariant forall h | h in all ::
                    if h in hs[..i] then all[h].key == key && !all[h].valid else all[h] == old(all)[h]
      {
        var h := hs[i];
        assert h in hs && h !in hs[..i] && IsFor(old(all), h, key);
        InvalidateJob(h);
      }
      assert hs[..|hs|] == hs;
      byLabel := byLabel - {key};
    }

    /** A vector has moved: its job, listed under its label, follows. */
    method UpdateInsertJobInternalId(prevId: Id, newId: Id, key: Label)
      requires key in byLabel ==> NoDup(byLabel[key]) && forall h | h in byLabel[key] :: h in all
      modifies this`all
      ensures all.Keys == old(all).Keys
      ensures forall h | h in all ::
                all[h] == if key in byLabel && h in byLabel[key] && old(all[h]).id == prevId then old(all[h]).(id := newId)
                          else old(all[h])
    {
      if key in byLabel {
        var hs := byLabel[key];
        for i := 0 to |hs|
          invariant all.Keys == old(all).Keys
          invariant forall h | h in all ::
                      all[h] == if h in hs[..i] && old(all[h]).id == prevId then old(all[h]).(id := newId) else old(all[h])
        {
          var h := hs[i];
          assert h in hs && h !in hs[..i];
          if all[h].id == prevId {
            all := all[h := all[h].(id := newId)];
          }
        }
        assert hs[..|hs|] == hs;
      }
    }

    // ----- Adding -----

    /** A new job for the vector under the id. */
    method CreateJob(key: Label, id: Id)
      modifies this`all, this`byLabel, this`next
      ensures JobsNow() == Created(old(JobsNow()), key, id)
    {
      var h := next;
      next := next + 1;
      all := all[h := InsertJob(key, id, true)];
      byLabel := byLabel[key := (if key in byLabel then byLabel[key] else []) + [h]];
    }

    /**
     * Adds a vector.  When writing in place, or when the flat buffer is full and stays so after an
     * overwritten label was deleted, it goes straight into the graph; otherwise into the flat buffer.
     * `level` is the one drawn at random if the graph takes it.  Returns how many vectors were gained.
     */
    method AddVector(key: Label, blob: Blob, level: nat, inPlace: bool) returns (added: int)
      requires Valid()
      modifies this, flat, back, back.hnsw, back.hnsw.levels
      ensures Valid() && Stored(old(plain), plain, key, blob, !flat.multi)
      ensures if inPlace || (|old(flat.labels)| >= flatBufferLimit && (flat.multi || key !in old(flat.lookup)))
              then (flat.multi || key !in flat.lookup) && |flat.labels| <= |old(flat.labels)|
                && |old(back.hnsw.labels)| == |old(back.hnsw.blobs)| && |back.hnsw.labels| == |back.hnsw.blobs|
                && BagStored(old(InGraph()), InGraph(), key, blob, !flat.multi)
                && back.hnsw.Measured(blob) && exists before, start, high ::
                     back.hnsw.Appended(before, start, high, blob, level)
              else key in flat.lookup
      ensures flat.multi ==> added == 1
      ensures !flat.multi ==> if old(HeldNow(key)) == 2 && !inPlace then added == 0 else added + old(HeldNow(key)) == 1
      ensures 0 <= added <= 1 <==> flat.multi || !inPlace || old(HeldNow(key)) <= 1
      ensures running <= old(running)
      ensures !inPlace && |old(flat.labels)| < flatBufferLimit ==>
                && back.hnsw.levels == old(back.hnsw.levels)
                && back.CollectedSince(|old(back.hnsw.top)|, pendingSwapJobsThreshold)
    {
      hide FlatOk, BackOk, Balanced, OnePerLabel, TieredIndex.Valid, TieredIndex.NoneForgotten, Stored, Lost, Contents,
        TieredIndex.CollectedSince, HnswIndex.Appended, HnswIndex.Measured, BagStored, BagLost;
      added := 1;
      BackLengths();
      ghost var p, g := plain, InGraph();
      if !flat.multi {
        SingleHolds(key);
      }
      if inPlace || |flat.labels| >= flatBufferLimit {
        if !flat.multi {
          var count := DeleteVector(key, inPlace);
          added := added - count;
        }
        if inPlace || |flat.labels| >= flatBufferLimit {
          BackLengths();
          ghost var mid, left := plain, InGraph();
          if !flat.multi {
            LostIsGone(p, mid, key);
          }
          InsertDirectly(key, blob, level);
          LostThenGained(g, left, InGraph(), key, blob, !flat.multi);
          if !flat.multi {
            LostThenStored(p, mid, plain, key, blob);
          }
          return;
        }
      }
      ghost var mid := plain;
      added := AddToFlat(key, blob, added);
      if !flat.multi && mid != p {
        LostThenReplaced(p, mid, plain, key, blob);
      }
    }

    /** The vector goes into the graph, past the flat buffer. */
    method InsertDirectly(key: Label, blob: Blob, level: nat)
      requires Valid() && (flat.multi || forall e | Of(e, key) :: plain(e) == 0)
      modifies this`plain, back.hnsw, back.hnsw.levels
      ensures Valid() && Stored(old(plain), plain, key, blob, false)
      ensures |old(back.hnsw.labels)| == |old(back.hnsw.blobs)| && |back.hnsw.labels| == |back.hnsw.blobs|
      ensures InGraph() == old(InGraph()) + multiset{Some((key, blob))}
      ensures back.hnsw.Appended(old(back.hnsw.View()), old(back.hnsw.entry), old(back.hnsw.maxLevel), blob, level)
      ensures back.hnsw.Measured(blob)
    {
      hide FlatOk, BackOk, Balanced, Contents, Transit, Lost, OnePerLabel, TieredIndex.Valid, Copied, AddsUp, Stored,
        HnswIndex.Appended, HnswIndex.Measured;
      BalancedParts();
      BackLengths();
      ghost var g, p := InGraph(), plain;
      if !flat.multi {
        NothingInGraph(key);
      }
      back.InsertIntoHNSW(key, blob, level);
      IsBackOk();
      plain := e => p(e) + if e == Some((key, blob)) then 1 else 0;
      StoredInBoth(p, plain, g, InGraph(), Waiting(), flat.labels, flat.blobs, Transit(owner, running), key, blob);
      IsBalanced();
      if !flat.multi {
        StoredFirst(p, plain, key, blob);
        StoredOnePerLabel(p, plain, key, blob);
      }
    }

    /** A label that the plain store does not have is not in the graph. */
    lemma NothingInGraph(key: Label)
      requires FlatOk() && BackOk() && Balanced() && forall e | Of(e, key) :: plain(e) == 0
      ensures key !in back.hnsw.lookup
    {
      hide JobsOk, LookupOk, TieredIndex.Valid, Contents, Balanced;
      forall e | Of(e, key) ensures InGraph()[e] == 0 {
        InPlain(e);
      }
      LeftGraph(key);
    }

    /**
     * Adds a vector to the flat buffer with a new insert job.  With one vector for a label, an existing
     * one is overwritten, its job invalidated, and a vector of the label leaves the graph.
     */
    method AddToFlat(key: Label, blob: Blob, gained: int) returns (added: int)
      requires Valid() && |flat.labels| < flatBufferLimit
      modifies this, flat, back, back.hnsw, back.hnsw.levels
      ensures Valid() && Stored(old(plain), plain, key, blob, !flat.multi)
      ensures |flat.labels| <= |old(flat.labels)| + 1 && key in flat.lookup && running <= old(running)
      ensures back.hnsw.levels == old(back.hnsw.levels)
      ensures added == if flat.multi then gained
                       else var left := (if key in old(flat.lookup) then 0 else gained) - old(Held(back.hnsw.lookup, key));
                            if left > 0 then left else 0
      ensures back.CollectedSince(|old(back.hnsw.top)|, pendingSwapJobsThreshold)
    {
      hide FlatOk, BackOk, Balanced, Contents, AddsUp, Copied, Transit, OnePerLabel, Stored, BagLost, BagStored, Lost,
        SameTransit, TieredIndex.Valid;
      BalancedParts();
      ghost var g, w, labels0, blobs0, t := InGraph(), Waiting(), flat.labels, flat.blobs, Transit(owner, running);
      added := gained;
      if !flat.multi && key in flat.lookup {
        added := 0;
        OverwriteVector(key, blob);
      } else {
        AppendVector(key, blob);
      }
      if !flat.multi {
        var count := DeleteFromGraph(key, false);
        added := if added - count > 0 then added - count else 0;
      } else {
        CollectInGraph();
      }
      StoreInPlain(key, blob, g, w, labels0, blobs0, t);
    }

    /** Swap jobs are executed once enough of them are ready. */
    method CollectInGraph()
      requires BackOk() && back.Valid()
      modifies back, back.hnsw, back.hnsw.levels
      ensures BackOk() && back.Valid() && back.hnsw.levels == old(back.hnsw.levels)
      ensures |back.hnsw.labels| == |back.hnsw.blobs| && InGraph() == old(InGraph())
      ensures back.CollectedSince(|old(back.hnsw.top)|, pendingSwapJobsThreshold)
    {
      hide TieredIndex.Valid, Contents;
      back.CollectIfDue(pendingSwapJobsThreshold);
      BackBooks();
    }

    /** The vector is appended to the flat buffer. */
    method AppendVector(key: Label, blob: Blob)
      requires FlatOk() && (flat.multi || key !in flat.lookup) && |flat.labels| < flatBufferLimit
      modifies this`all, this`byLabel, this`next, this`owner, flat
      ensures FlatOk() && |flat.labels| == |flat.blobs| == |old(flat.labels)| + 1 && key in flat.lookup
      ensures BagStored(old(Waiting()), Waiting(), key, blob, !flat.multi)
      ensures SameTransit(old(flat.labels), old(flat.blobs), Transit(old(owner), running), flat.labels, flat.blobs,
                          Transit(owner, running), key, !flat.multi)
    {
      hide LookupOk, JobsOk, Contents, BagStored, Transit;
      ghost var jobs0, w, t := JobsNow(), Waiting(), Transit(owner, running);
      TransitAppended(jobs0, flat.labels, owner, running);
      TransitInside(owner, running);
      AppendCounts(flat.labels, flat.blobs, t, key, blob);
      AppendJob(jobs0, flat.labels, owner, key);
      var id := |flat.labels|;
      if !flat.multi {
        NothingWaits(key);
      }
      AppendWaits(w, key, blob, !flat.multi);
      var added := flat.AddVector(key, blob);
      owner := owner + [next];
      CreateJob(key, id);
    }

    /** The same call on the plain store, when flat buffer and graph are done: the books add up again. */
    ghost method StoreInPlain(key: Label, blob: Blob, g: multiset<Entry>, w: multiset<Entry>, labels0: seq<Label>,
                              blobs0: seq<Blob>, t: set<Id>)
      requires FlatOk() && BackOk() && |flat.labels| == |flat.blobs| && |back.hnsw.labels| == |back.hnsw.blobs|
      requires |labels0| == |blobs0| && AddsUp(plain, g, w) && Copied(g, labels0, blobs0, t)
      requires (!flat.multi ==> OnePerLabel(plain)) && BagStored(w, Waiting(), key, blob, !flat.multi)
      requires if !flat.multi then BagLost(g, InGraph(), key) else InGraph() == g
      requires SameTransit(labels0, blobs0, t, flat.labels, flat.blobs, Transit(owner, running), key, !flat.multi)
      modifies this`plain
      ensures InOrder() && Stored(old(plain), plain, key, blob, !flat.multi)
    {
      hide FlatOk, BackOk, Balanced, Contents, AddsUp, Copied, Transit, OnePerLabel, BagLost, BagStored, SameTransit;
      var p := plain;
      FlatLengths();
      plain := e => (if !flat.multi && Of(e, key) then 0 else p(e)) + if e == Some((key, blob)) then 1 else 0;
      StoredAddsUp(p, g, w, plain, InGraph(), Waiting(), key, blob, !flat.multi);
      SameTransitStaysCopied(g, InGraph(), labels0, blobs0, flat.labels, flat.blobs, t, Transit(owner, running), key,
                             !flat.multi);
      if !flat.multi {
        StoredOnePerLabel(p, plain, key, blob);
      }
      IsBalanced();
    }

    /** Nothing of a label that is not in the flat buffer waits there or is in transit. */
    lemma NothingWaits(key: Label)
      requires FlatOk() && key !in flat.lookup
      ensures |flat.labels| == |flat.blobs| && BagLost(Waiting(), Waiting(), key)
      ensures forall e | Of(e, key) :: Waiting()[e] == 0
      ensures forall i | 0 <= i < |flat.labels| :: flat.labels[i] != key
    {
      flat.Gone(key);
      var dead := Transit(owner, running);
      forall v ensures !Has(flat.labels, dead, key, v) {
        assert !Has(flat.labels, {}, key, v);
      }
      NothingStored(flat.labels, flat.blobs, dead, key);
      forall i | 0 <= i < |flat.labels| ensures flat.labels[i] != key {
        assert !Has(flat.labels, {}, key, i);
      }
    }

    /** The lone vector of a label is overwritten where it is. */
    method OverwriteVector(key: Label, blob: Blob)
      requires FlatOk() && !flat.multi && key in flat.lookup
      modifies this`all, this`byLabel, this`invalid, this`nextInvalid, this`next, this`owner, this`running, flat
      ensures FlatOk() && flat.labels == old(flat.labels) && |flat.blobs| == |flat.labels|
      ensures key in flat.lookup && running <= old(running)
      ensures BagStored(old(Waiting()), Waiting(), key, blob, true)
      ensures SameTransit(old(flat.labels), old(flat.blobs), Transit(old(owner), old(running)), flat.labels, flat.blobs,
                          Transit(owner, running), key, true)
    {
      hide LookupOk, JobsOk, Contents, Transit;
      ghost var t := Transit(owner, running);
      flat.LoneId(key);
      var id := flat.lookup[key][0];
      OverwriteCounts(flat.labels, flat.blobs, t, t - {id}, id, key, blob);
      OverwriteKeepsCopied(flat.labels, flat.blobs, owner, running, id, key, blob);
      ReplaceOwner(key, id);
      var added := flat.AddVector(key, blob);
    }

    /** Invalidates the lone job of a label and puts a new one in its place. */
    method ReplaceOwner(key: Label, id: Id)
      requires JobsOk(JobsNow(), flat.labels, owner) && running <= all.Keys
      requires 0 <= id < |flat.labels| && forall v :: Has(flat.labels, {}, key, v) <==> v == id
      modifies this`all, this`byLabel, this`invalid, this`nextInvalid, this`next, this`owner, this`running
      ensures JobsOk(JobsNow(), flat.labels, owner) && running <= all.Keys && |owner| == |old(owner)|
      ensures running <= old(running)
      ensures Transit(owner, running) == Transit(old(owner), old(running)) - {id}
    {
      hide JobsOk, Transit;
      ghost var jobs0 := JobsNow();
      assert Has(flat.labels, {}, key, id);
      JobIsListed(jobs0, flat.labels, owner, id);
      TransitReplaced(jobs0, flat.labels, owner, running, id, next);
      InvalidateLabel(key);
      ReplaceJob(jobs0, JobsNow(), flat.labels, owner, key, id);
      running := running - {owner[id]};
      owner := owner[id := next];
      CreateJob(key, id);
    }

    // ----- Deleting -----

    /**
     * Deletes a label from both tiers: its jobs are invalidated, its vectors leave the flat buffer, and
     * the jobs of the vectors that moved are told; then its vectors leave the graph.  Returns how many
     * there were, one in transit counting twice.
     */
    method DeleteVector(key: Label, inPlace: bool) returns (count: nat)
      requires Valid()
      modifies this, flat, back, back.hnsw, back.hnsw.levels
      ensures InOrder() && key !in flat.lookup && Lost(old(plain), plain, key)
      ensures Valid() <==> (inPlace ==> old(back.NoneForgotten(key)))
      ensures |flat.labels| == |old(flat.labels)| - old(Held(flat.lookup, key)) && count == old(HeldNow(key))
      ensures back.hnsw.levels == old(back.hnsw.levels) && key !in back.hnsw.lookup && running == old(running)
      ensures !inPlace ==> back.CollectedSince(|old(back.hnsw.top)|, pendingSwapJobsThreshold)
      ensures |old(back.hnsw.labels)| == |old(back.hnsw.blobs)| && BagLost(old(InGraph()), InGraph(), key)
    {
      hide FlatOk, BackOk, Balanced, Contents, AddsUp, Lost, Copied, Transit, OnePerLabel, BagLost, Stored,
        TieredIndex.Valid, TieredIndex.NoneForgotten;
      BalancedParts();
      ghost var g, w := InGraph(), Waiting();
      count := 0;
      if key in flat.lookup {
        count := DeleteFromFlat(key, g);
      } else {
        NothingWaits(key);
      }
      var others := DeleteFromGraph(key, inPlace);
      count := count + others;
      LoseInPlain(key, g, w);
    }

    /** The same call on the plain store, when flat buffer and graph are done. */
    ghost method LoseInPlain(key: Label, g: multiset<Entry>, w: multiset<Entry>)
      requires FlatOk() && BackOk() && |flat.labels| == |flat.blobs| && |back.hnsw.labels| == |back.hnsw.blobs|
      requires key !in flat.lookup && AddsUp(plain, g, w) && (!flat.multi ==> OnePerLabel(plain))
      requires BagLost(g, InGraph(), key) && BagLost(w, Waiting(), key)
      requires Copied(g, flat.labels, flat.blobs, Transit(owner, running))
      modifies this`plain
      ensures InOrder() && Lost(old(plain), plain, key)
    {
      hide FlatOk, BackOk, Balanced, Contents, AddsUp, Copied, Transit, OnePerLabel, BagLost;
      var p, t := plain, Transit(owner, running);
      FlatLengths();
      NothingWaits(key);
      CopiedIsInside(g, flat.labels, flat.blobs, t);
      plain := e => if Of(e, key) then 0 else p(e);
      LostAddsUp(p, g, w, plain, InGraph(), Waiting(), key);
      SameTransitStaysCopied(g, InGraph(), flat.labels, flat.blobs, flat.labels, flat.blobs, t, t, key, true);
      if !flat.multi {
        LostOnePerLabel(p, plain, key);
      }
      IsBalanced();
    }

    /** The vectors of the label leave the graph, at once or as far as queries can see. */
    method DeleteFromGraph(key: Label, inPlace: bool) returns (count: nat)
      requires BackOk() && back.Valid()
      modifies back, back.hnsw, back.hnsw.levels
      ensures BackOk() && back.hnsw.levels == old(back.hnsw.levels) && key !in back.hnsw.lookup
      ensures back.Valid() <==> (inPlace ==> old(back.NoneForgotten(key)))
      ensures |back.hnsw.labels| == |back.hnsw.blobs|
      ensures BagLost(old(InGraph()), InGraph(), key) && count == old(Held(back.hnsw.lookup, key))
      ensures !inPlace ==> back.CollectedSince(|old(back.hnsw.top)|, pendingSwapJobsThreshold)
    {
      hide TieredIndex.Valid, HnswIndex.Valid, Contents, TieredIndex.NoneForgotten;
      if inPlace {
        count := back.DeleteLabelFromHNSWInplace(key);
      } else {
        count := back.DeleteLabelFromHNSW(key);
        BackBooks();
        CollectInGraph();
      }
      back.hnsw.BooksAreOk();
      LeftGraph(key);
    }

    method DeleteFromFlat(key: Label, ghost graph: multiset<Entry>) returns (count: nat)
      requires FlatOk() && key in flat.lookup && |flat.labels| == |flat.blobs|
      requires Copied(graph, flat.labels, flat.blobs, Transit(owner, running))
      modifies this`all, this`byLabel, this`invalid, this`nextInvalid, this`owner, flat
      ensures FlatOk() && |flat.labels| == |flat.blobs| && key !in flat.lookup
      ensures BagLost(old(Waiting()), Waiting(), key)
      ensures count == |old(flat.lookup)[key]| && |flat.labels| == |old(flat.labels)| - count
      ensures Copied(graph, flat.labels, flat.blobs, Transit(owner, running))
    {
      hide LookupOk, JobsOk, Contents, Transit, Compacted, CountsFollow, AddsUp, Copied;
      ghost var jobs0, owner0, labels0, blobs0 := JobsNow(), owner, flat.labels, flat.blobs;
      flat.KnownIds(key);
      assert Has(flat.labels, {}, key, flat.lookup[key][0]);
      JobIsListed(jobs0, flat.labels, owner, flat.lookup[key][0]);
      JobsPerLabel(jobs0, flat.labels, owner, flat.lookup[key], key);
      count := |byLabel[key]|;
      InvalidateLabel(key);
      var updated := flat.DeleteVectorAndGetUpdatedIds(key, Transit(owner, running));
      flat.Gone(key);
      UpdateMoved(updated, jobs0, labels0, blobs0, key);
      TransitFollows(owner0, owner, running, updated);
      CopiedFollows(graph, labels0, blobs0, flat.labels, flat.blobs, updated, key, Transit(owner0, running));
      WaitingFollows(labels0, blobs0, flat.labels, flat.blobs, updated, key, Transit(owner0, running));
    }

    /** Tells the jobs of the vectors that moved; the moves can be gone through in any order. */
    method UpdateMoved(updated: map<Id, (Id, Label)>, ghost jobs0: Jobs, ghost labels0: seq<Label>, ghost blobs0: seq<Blob>,
                       key: Label)
      requires JobsOk(jobs0, labels0, owner) && LabelInvalidated(jobs0, JobsNow(), key)
      requires Compacted(labels0, blobs0, flat.labels, flat.blobs, updated, key)
      modifies this`all, this`owner
      ensures JobsOk(JobsNow(), flat.labels, owner) && all.Keys == old(all).Keys
      ensures |owner| == |flat.labels| && forall j | 0 <= j < |owner| ::
                0 <= Source(updated, j) < |old(owner)| && owner[j] == old(owner)[Source(updated, j)]
    {
      hide JobsOk, LabelInvalidated, Compacted, Telling;
      ghost var mid, labels, blobs := JobsNow(), flat.labels, flat.blobs;
      TellingStarts(jobs0, mid, labels0, blobs0, labels, blobs, owner, updated, key);
      MidLists(jobs0, mid, labels0, owner, key);
      ghost var owner0 := owner;
      ghost var owners := OwnersNow(labels0, blobs0, labels, blobs, owner0, updated, key);
      TellMoved(updated, jobs0, mid, labels0, blobs0, key);
      owner := owners;
      TellingEnds(jobs0, mid, JobsNow(), labels0, blobs0, labels, blobs, owner0, owner, updated, key);
    }

    /** The loop over the moves. */
    method TellMoved(updated: map<Id, (Id, Label)>, ghost jobs0: Jobs, ghost mid: Jobs, ghost labels0: seq<Label>,
                     ghost blobs0: seq<Blob>, key: Label)
      requires JobsOk(jobs0, labels0, owner) && LabelInvalidated(jobs0, mid, key) && mid == JobsNow()
      requires Compacted(labels0, blobs0, flat.labels, flat.blobs, updated, key)
      requires |owner| == |labels0| && |flat.labels| <= |labels0|
      requires forall k | k in mid.byLabel :: NoDup(mid.byLabel[k]) && forall h | h in mid.byLabel[k] :: h in mid.all
      requires Telling(mid, all, labels0, owner, |flat.labels|, updated, key, {})
      modifies this`all
      ensures all.Keys == old(all).Keys && JobsNow() == mid.(all := all)
      ensures Telling(mid, all, labels0, owner, |flat.labels|, updated, key, updated.Keys)
    {
      hide JobsOk, LabelInvalidated, Compacted, Telling, NoDup;
      ghost var labels, blobs, owner0 := flat.labels, flat.blobs, owner;
      ghost var done := {};
      var todo := updated.Keys;
      while todo != {}
        invariant todo <= updated.Keys && done == updated.Keys - todo
        invariant all.Keys == old(all).Keys && JobsNow() == mid.(all := all)
        invariant Telling(mid, all, labels0, owner0, |labels|, updated, key, done)
        decreases |todo|
      {
        NotEmpty(todo);
        var k :| k in todo;
        ghost var before := all;
        UpdateInsertJobInternalId(updated[k].0, k, updated[k].1);
        TellingStep(jobs0, mid, before, all, labels0, blobs0, labels, blobs, owner0, updated, key, done, k);
        todo, done := todo - {k}, done + {k};
      }
      assert done == updated.Keys;
    }

    // ----- Carrying out a job -----

    /** Disposes of a job found invalid. */
    method DropInvalid(h: Handle)
      requires h in all && !all[h].valid && JobsOk(JobsNow(), flat.labels, owner) && running <= all.Keys
      modifies this`all, this`invalid, this`running
      ensures JobsOk(JobsNow(), flat.labels, owner) && running <= all.Keys && all == old(all) - {h}
      ensures Transit(owner, running) == Transit(owner, old(running))
    {
      DropKeepsJobs(JobsNow(), flat.labels, owner, h);
      invalid := invalid - {all[h].id};
      all := all - {h};
      running := running - {h};
    }

    /**
     * First section of a job: its vector, read under its current id, is stored in the graph, at a level
     * drawn at random.  A job found invalid is disposed of.
     */
    method BeginInsert(h: Handle, level: nat)
      requires Valid() && h in all && h !in running
      modifies this`all, this`invalid, this`running, back.hnsw, back.hnsw.levels
      ensures Valid() && all.Keys == if old(all[h]).valid then old(all).Keys else old(all).Keys - {h}
      ensures fresh(Set(back.hnsw.levels) - Set(old(back.hnsw.levels)))
      ensures old(all[h]).valid ==>
                && 0 <= old(all[h]).id < |flat.labels| && flat.labels[old(all[h]).id] == old(all[h]).key
                && InGraph() == old(InGraph()) + multiset{VectorAt(flat.labels, flat.blobs, old(all[h]).id)}
                && back.hnsw.Appended(old(back.hnsw.View()), old(back.hnsw.entry), old(back.hnsw.maxLevel),
                                      flat.blobs[old(all[h]).id], level)
                && back.hnsw.Measured(flat.blobs[old(all[h]).id])
    {
      hide LookupOk, JobsOk, Contents, AddsUp, Copied, Transit, OnePerLabel, TieredIndex.Valid, BackOk, Balanced,
        HnswIndex.Appended, HnswIndex.Measured;
      BalancedParts();
      BackLengths();
      if !all[h].valid {
        DropInvalid(h);
        IsBalanced();
        return;
      }
      ghost var i, g, t := all[h].id, InGraph(), Transit(owner, running);
      OwnerOf(JobsNow(), flat.labels, owner, h);
      TransitBegins(JobsNow(), flat.labels, owner, running, h);
      BeginCounts(flat.labels, flat.blobs, t, i);
      if !flat.multi {
        WaitsAlone(h);
      }
      var blobCopy := flat.blobs[all[h].id];
      back.InsertIntoHNSW(all[h].key, blobCopy, level);
      IsBackOk();
      running := running + {h};
      BeginAddsUp(plain, g, InGraph(), Contents(flat.labels, flat.blobs, t), Waiting(), Some((flat.labels[i], flat.blobs[i])));
      BeginKeepsCopied(g, InGraph(), flat.labels, flat.blobs, t, i);
      IsBalanced();
    }

    /** With one vector for a label, the label of a waiting vector is not in the graph. */
    lemma WaitsAlone(h: Handle)
      requires InOrder() && !flat.multi && h in all && all[h].valid && h !in running
      ensures all[h].key !in back.hnsw.lookup
    {
      hide JobsOk, LookupOk, Contents, Transit, HnswIndex.Valid;
      OwnerOf(JobsNow(), flat.labels, owner, h);
      TransitBegins(JobsNow(), flat.labels, owner, running, h);
      var i := all[h].id;
      var here := Some((flat.labels[i], flat.blobs[i]));
      StoredAt(flat.labels, flat.blobs, Transit(owner, running), i);
      assert plain(here) == InGraph()[here] + Waiting()[here] && Of(here, all[h].key);
      forall e | Of(e, all[h].key) ensures InGraph()[e] == 0 {
        InPlain(e);
      }
      LeftGraph(all[h].key);
    }

    /** A label that is in the flat buffer has its jobs. */
    lemma JobOfLabel(key: Label)
      requires FlatOk() && key in flat.lookup
      ensures key in byLabel && byLabel[key] != [] && IsFor(all, byLabel[key][0], key)
    {
      hide LookupOk, JobsOk;
      flat.KnownIds(key);
      var id := flat.lookup[key][0];
      assert Has(flat.labels, {}, key, id);
      JobIsListed(JobsNow(), flat.labels, owner, id);
      assert byLabel[key][0] in byLabel[key];
    }

    /** What is stored is in the lookup. */
    lemma StoredIsHeld(e: Entry, key: Label)
      requires BackOk() && Of(e, key) && InGraph()[e] > 0
      ensures key in back.hnsw.lookup && Held(back.hnsw.lookup, key) >= 1
    {
      hide LookupOk, Contents;
      if key !in back.hnsw.lookup {
        back.hnsw.UnknownLabel(key);
      } else {
        back.hnsw.ListOfLabel(key);
        var x := back.hnsw.KnownIsStored(key);
      }
    }

    /** Takes a job out of the list of its label. */
    method Unlist(h: Handle)
      requires h in all && JobsOk(JobsNow(), flat.labels, owner) && all[h].valid
      modifies this`byLabel
      ensures JobsNow() == Unlisted(old(JobsNow()), h)
    {
      OwnerOf(JobsNow(), flat.labels, owner, h);
      JobIsListed(JobsNow(), flat.labels, owner, all[h].id);
      ListedIds(JobsNow(), flat.labels, owner, all[h].key);
      var key, id := all[h].key, all[h].id;
      var hs := byLabel[key];
      var i := 0;
      while i < |hs| && all[hs[i]].id != id
        invariant i <= |hs| && byLabel == old(byLabel)
        invariant forall j | 0 <= j < i :: all[hs[j]].id != id
      {
        i := i + 1;
      }
      assert i < |hs| && hs[i] == h;
      FirstIs(hs, h, i);
      byLabel := byLabel[key := hs[..i] + hs[i + 1..]];
      if byLabel[key] == [] {
        byLabel := byLabel - {key};
      }
    }

    /**
     * Second section of a job: if it is still valid, its vector leaves the flat buffer, the job of the
     * vector that took its id follows, and the job is done with.
     */
    method FinishInsert(h: Handle)
      requires InOrder() && h in running
      modifies this`all, this`byLabel, this`invalid, this`owner, this`running, flat
      ensures InOrder() && all.Keys == old(all).Keys - {h} && h !in running
      ensures old(Valid()) ==> Valid()
    {
      hide LookupOk, JobsOk, Contents, AddsUp, Copied, Transit, TieredIndex.Valid;
      if all[h].valid {
        TakeOut(h, InGraph());
      } else {
        DropInvalid(h);
      }
    }

    method TakeOut(h: Handle, ghost graph: multiset<Entry>)
      requires FlatOk() && h in running && all[h].valid
      requires Copied(graph, flat.labels, flat.blobs, Transit(owner, running))
      modifies this`all, this`byLabel, this`owner, this`running, flat
      ensures FlatOk() && all.Keys == old(all).Keys - {h} && h !in running
      ensures Waiting() == old(Waiting()) && Copied(graph, flat.labels, flat.blobs, Transit(owner, running))
    {
      hide LookupOk, JobsOk, Contents, AddsUp, Copied, Transit, LastMovedTo, RenamedKeys, Unlisted, FlatBuffer.Kept;
      FlatLengths();
      ghost var jobs0, t := JobsNow(), Transit(owner, running);
      OwnerOf(jobs0, flat.labels, owner, h);
      TransitTakes(jobs0, flat.labels, owner, running, h);
      MoveCounts(flat.labels, flat.blobs, t, all[h].id);
      SameLength(flat.labels, flat.blobs, all[h].id);
      SameLength(flat.labels, owner, all[h].id);
      CopiedMoves(graph, flat.labels, flat.blobs, t, all[h].id);
      Unlist(h);
      RemoveListed(h, jobs0);
      running := running - {h};
      assert Waiting() == old(Waiting());
    }

    /** With the job off its list, the vector leaves the flat buffer, and the job of the one that moves is told. */
    method RemoveListed(h: Handle, ghost jobs0: Jobs)
      requires JobsOk(jobs0, flat.labels, owner) && h in jobs0.all && jobs0.all[h].valid && JobsNow() == Unlisted(jobs0, h)
      requires flat.Valid() && |flat.labels| == |owner| && all == jobs0.all
      modifies this`all, this`owner, flat
      ensures flat.Valid() && JobsOk(JobsNow(), flat.labels, owner) && all.Keys == old(all).Keys - {h}
      ensures 0 <= jobs0.all[h].id < |old(flat.labels)| == |old(flat.blobs)| == |old(owner)|
      ensures flat.labels == LastMovedTo(old(flat.labels), jobs0.all[h].id)
      ensures flat.blobs == LastMovedTo(old(flat.blobs), jobs0.all[h].id)
      ensures owner == LastMovedTo(old(owner), jobs0.all[h].id)
    {
      hide LookupOk, JobsOk, LastMovedTo, Unlisted;
      var key, id := all[h].key, all[h].id;
      ghost var labels0 := flat.labels;
      OwnerOf(jobs0, flat.labels, owner, h);
      UnlistedLists(jobs0, flat.labels, owner, h);
      SameLength(flat.labels, flat.blobs, id);
      flat.IdIsKnown(id);
      var lastLabel := flat.labels[|flat.labels| - 1];
      var deleted := flat.DeleteVectorById(key, id);
      if id != |flat.labels| {
        UpdateInsertJobInternalId(|flat.labels|, id, lastLabel);
      }
      all := all - {h};
      TakenOut(jobs0, JobsNow(), labels0, owner, h, lastLabel);
      owner := LastMovedTo(owner, id);
    }
  }

  /** One vector in the flat buffer. */
  method WithOneVector(distance: (Blob, Blob) -> real, key: Label, blob: Blob) returns (front: FrontTier)
    ensures fresh(front) && fresh(front.flat) && fresh(front.back) && fresh(front.back.hnsw)
    ensures front.back.hnsw.levels == []
    ensures front.Valid() && !front.flat.multi && key in front.flat.lookup && front.running == {}
  {
    hide FrontTier.FlatOk, FrontTier.BackOk, FrontTier.Balanced, OnePerLabel, TieredIndex.Valid, HnswIndex.Valid, Stored,
      HnswIndex.Appended, HnswIndex.Measured, BagStored, TieredIndex.CollectedSince;
    var flat := new FlatBuffer(false);
    var hnsw := new HnswIndex(2, 1, false, distance);
    assert hnsw.levels == [] by {
      assert |hnsw.View().levels| == |hnsw.levels|;
    }
    var back := new TieredIndex(hnsw);
    front := new FrontTier(flat, back, 1, 1);
    var added := front.AddVector(key, blob, 0, false);
  }

  /** A case: a vector in transit is written over in place, and the count returned is -1. */
  method CountLost(distance: (Blob, Blob) -> real, blob: Blob, newer: Blob) returns (front: FrontTier, added: int)
    ensures front.Valid() && added == -1
  {
    hide FrontTier.FlatOk, FrontTier.BackOk, FrontTier.Balanced, OnePerLabel, TieredIndex.Valid, HnswIndex.Valid, Stored,
      HnswIndex.Appended, HnswIndex.Measured, BagStored, TieredIndex.CollectedSince;
    front := WithOneVector(distance, 1, blob);
    front.JobOfLabel(1);
    var h := front.byLabel[1][0];
    ghost var id := front.all[h].id;
    front.BeginInsert(h, 0);
    front.FlatLengths();
    assert forall g :: g in front.back.hnsw.levels ==> g in Set(front.back.hnsw.levels);
    front.StoredIsHeld(VectorAt(front.flat.labels, front.flat.blobs, id), 1);
    front.SingleHolds(1);
    added := front.AddVector(1, newer, 0, true);
  }

  lemma DropKeepsJobs(jobs: Jobs, labels: seq<Label>, owner: seq<Handle>, h: Handle)
    requires JobsOk(jobs, labels, owner) && h in jobs.all && !jobs.all[h].valid
    ensures JobsOk(jobs.(all := jobs.all - {h}, invalid := jobs.invalid - {jobs.all[h].id}), labels, owner)
    ensures forall running :: Transit(owner, running - {h}) == Transit(owner, running)
  {
    var after := jobs.(all := jobs.all - {h}, invalid := jobs.invalid - {jobs.all[h].id});
    forall k ensures ListedOk(after, k) {
      assert ListedOk(jobs, k);
      forall x ensures IsFor(after.all, x, k) <==> IsFor(jobs.all, x, k) {
      }
    }
    forall i | 0 <= i < |owner| ensures owner[i] != h {
    }
  }

  lemma OwnerOf(jobs: Jobs, labels: seq<Label>, owner: seq<Handle>, h: Handle)
    requires JobsOk(jobs, labels, owner) && h in jobs.all && jobs.all[h].valid
    ensures |owner| == |labels| && 0 <= jobs.all[h].id < |labels| && owner[jobs.all[h].id] == h
    ensures jobs.all[h].key == labels[jobs.all[h].id]
  {
  }

  lemma TransitBegins(jobs: Jobs, labels: seq<Label>, owner: seq<Handle>, running: set<Handle>, h: Handle)
    requires JobsOk(jobs, labels, owner) && h in jobs.all && jobs.all[h].valid && h !in running
    ensures Transit(owner, running + {h}) == Transit(owner, running) + {jobs.all[h].id}
    ensures jobs.all[h].id !in Transit(owner, running)
  {
    forall i | 0 <= i < |owner| && owner[i] == h ensures i == jobs.all[h].id {
      assert jobs.all[owner[i]].id == i;
    }
  }

  /** Leaving one more element out of account takes away what it stores. */
  lemma BeginCounts(labels: seq<Label>, blobs: seq<Blob>, dead: set<Id>, i: Id)
    requires |labels| == |blobs| && 0 <= i < |labels| && i !in dead
    ensures Contents(labels, blobs, dead)
         == Contents(labels, blobs, dead + {i}) + multiset{Some((labels[i], blobs[i]))}
  {
    var entries, without := Entries(labels, blobs, dead), Entries(labels, blobs, dead + {i});
    assert without == entries[i := None];
    assert entries[i] == Some((labels[i], blobs[i]));
  }

  lemma BeginAddsUp(plain: Entry -> nat, graph: multiset<Entry>, graph': multiset<Entry>, waiting: multiset<Entry>,
                    waiting': multiset<Entry>, x: Entry)
    requires AddsUp(plain, graph, waiting) && waiting == waiting' + multiset{x}
    requires forall e :: graph'[e] == graph[e] + if e == x then 1 else 0
    ensures AddsUp(plain, graph', waiting')
  {
    forall e ensures plain(e) == graph'[e] + waiting'[e] {
      assert plain(e) == graph[e] + waiting[e];
    }
  }

  lemma BeginKeepsCopied(graph: multiset<Entry>, graph': multiset<Entry>, labels: seq<Label>, blobs: seq<Blob>,
                         ids: set<Id>, i: Id)
    requires |labels| == |blobs| && 0 <= i < |labels| && Copied(graph, labels, blobs, ids)
    requires forall e :: graph'[e] == graph[e] + if e == Some((labels[i], blobs[i])) then 1 else 0
    ensures Copied(graph', labels, blobs, ids + {i})
  {
  }

  /** The lookup without a job; a label without jobs leaves it. */
  function Unlisted(jobs: Jobs, h: Handle): Jobs
    requires h in jobs.all
  {
    var key := jobs.all[h].key;
    if key in jobs.byLabel && h in jobs.byLabel[key] then
      var i := IndexOf(jobs.byLabel[key], h);
      var rest := jobs.byLabel[key][..i] + jobs.byLabel[key][i + 1..];
      jobs.(byLabel := if rest == [] then jobs.byLabel - {key} else jobs.byLabel[key := rest])
    else jobs
  }

  lemma ListedIds(jobs: Jobs, labels: seq<Label>, owner: seq<Handle>, key: Label)
    requires JobsOk(jobs, labels, owner) && key in jobs.byLabel
    ensures forall j | 0 <= j < |jobs.byLabel[key]| ::
              var x := jobs.byLabel[key][j];
              x in jobs.all && 0 <= jobs.all[x].id < |owner| && owner[jobs.all[x].id] == x
  {
    assert ListedOk(jobs, key);
    forall j | 0 <= j < |jobs.byLabel[key]| ensures IsFor(jobs.all, jobs.byLabel[key][j], key) {
      assert jobs.byLabel[key][j] in jobs.byLabel[key];
    }
  }

  lemma FirstIs(hs: seq<Handle>, h: Handle, i: nat)
    requires i < |hs| && hs[i] == h && h !in hs[..i]
    ensures IndexOf(hs, h) == i
  {
  }

  lemma UnlistedLists(jobs: Jobs, labels: seq<Label>, owner: seq<Handle>, h: Handle)
    requires JobsOk(jobs, labels, owner) && h in jobs.all && jobs.all[h].valid
    ensures var after := Unlisted(jobs, h);
      forall k ::
        && (k in after.byLabel ==> after.byLabel[k] != [] && NoDup(after.byLabel[k]))
        && forall x :: (k in after.byLabel && x in after.byLabel[k]) <==> x != h && IsFor(jobs.all, x, k)
  {
    var key, after := jobs.all[h].key, Unlisted(jobs, h);
    assert ListedOk(jobs, key) && IsFor(jobs.all, h, key);
    forall k
      ensures k in after.byLabel ==> after.byLabel[k] != [] && NoDup(after.byLabel[k])
      ensures forall x :: (k in after.byLabel && x in after.byLabel[k]) <==> x != h && IsFor(jobs.all, x, k)
    {
      assert ListedOk(jobs, k);
      if k == key {
        RemovedFromList(jobs.byLabel[key], h);
      }
      forall x ensures (k in after.byLabel && x in after.byLabel[k]) <==> x != h && IsFor(jobs.all, x, k) {
        assert (k in jobs.byLabel && x in jobs.byLabel[k]) <==> IsFor(jobs.all, x, k);
      }
    }
  }

  lemma RemovedFromList(hs: seq<Handle>, h: Handle)
    requires NoDup(hs) && h in hs
    ensures var i := IndexOf(hs, h);
      var rest := hs[..i] + hs[i + 1..];
      NoDup(rest) && forall x :: x in rest <==> x != h && x in hs
  {
    var i := IndexOf(hs, h);
    assert hs == hs[..i] + [h] + hs[i + 1..];
  }

  lemma TransitTakes(jobs: Jobs, labels: seq<Label>, owner: seq<Handle>, running: set<Handle>, h: Handle)
    requires JobsOk(jobs, labels, owner) && h in jobs.all && jobs.all[h].valid && h in running
    ensures jobs.all[h].id in Transit(owner, running)
    ensures Transit(LastMovedTo(owner, jobs.all[h].id), running - {h})
         == RenamedKeys(Transit(owner, running) - {jobs.all[h].id}, |owner| - 1, jobs.all[h].id)
  {
    forall i | 0 <= i < |owner| && owner[i] == h ensures i == jobs.all[h].id {
      assert jobs.all[owner[i]].id == i;
    }
  }

  lemma CopiedMoves(graph: multiset<Entry>, labels: seq<Label>, blobs: seq<Blob>, ids: set<Id>, id: Id)
    requires |labels| == |blobs| && 0 <= id < |labels| && Copied(graph, labels, blobs, ids)
    ensures |LastMovedTo(labels, id)| == |LastMovedTo(blobs, id)|
    ensures Copied(graph, LastMovedTo(labels, id), LastMovedTo(blobs, id), RenamedKeys(ids - {id}, |labels| - 1, id))
  {
  }

  /** The jobs after one was carried out and its vector removed. */
  lemma TakenOut(before: Jobs, after: Jobs, labels: seq<Label>, owner: seq<Handle>, h: Handle, lastLabel: Label)
    requires JobsOk(before, labels, owner) && h in before.all && before.all[h].valid
    requires after == Unlisted(before, h).(all := after.all) && after.all.Keys == before.all.Keys - {h}
    requires labels != [] && lastLabel == labels[|labels| - 1] && 0 <= before.all[h].id < |labels|
    requires var last, id, listed := |labels| - 1, before.all[h].id, Unlisted(before, h).byLabel;
      forall x | x in after.all ::
        after.all[x] == if id != last && lastLabel in listed && x in listed[lastLabel] && before.all[x].id == last
                        then before.all[x].(id := id) else before.all[x]
    ensures JobsOk(after, LastMovedTo(labels, before.all[h].id), LastMovedTo(owner, before.all[h].id))
  {
    var last, id := |labels| - 1, before.all[h].id;
    UnlistedLists(before, labels, owner, h);
    var listed := Unlisted(before, h).byLabel;
    forall x | x in after.all && before.all[x].valid
      ensures after.all[x] == if before.all[x].id == last then before.all[x].(id := id) else before.all[x]
    {
      if before.all[x].id == last {
        assert owner[last] == x && owner[id] == h && IsFor(before.all, x, lastLabel);
        assert lastLabel in listed && x in listed[lastLabel];
      }
    }
    forall x | x in after.all && !before.all[x].valid ensures after.all[x] == before.all[x] {
      assert !IsFor(before.all, x, lastLabel);
    }
    forall k ensures ListedOk(after, k) {
      forall x ensures IsFor(after.all, x, k) <==> x != h && IsFor(before.all, x, k) {
      }
    }
  }

  /**
   * With one vector for a label, a label in both tiers has the same vector in both: the one in transit.
   */
  lemma SameVectorInBothTiers(t: FrontTier, id: Id, blob: Blob)
    requires t.Valid() && !t.flat.multi && 0 <= id < |t.flat.labels|
    requires t.back.hnsw.Stored()[Some((t.flat.labels[id], blob))] > 0
    ensures blob == t.flat.blobs[id] && t.owner[id] in t.running
  {
    hide JobsOk, LookupOk, TieredIndex.Valid;
    var key := t.flat.labels[id];
    var here, there := Some((key, t.flat.blobs[id])), Some((key, blob));
    assert t.plain(there) == t.InGraph()[there] + t.Waiting()[there];
    assert t.plain(here) == t.InGraph()[here] + t.Waiting()[here];
    if t.owner[id] in t.running {
      assert id in Transit(t.owner, t.running);
    } else {
      StoredAt(t.flat.labels, t.flat.blobs, Transit(t.owner, t.running), id);
    }
    assert Of(here, key) && Of(there, key);
  }

  lemma NothingOnePerLabel(plain: Entry -> nat)
    requires forall e :: plain(e) == 0
    ensures OnePerLabel(plain)
  {
  }

  lemma TransitInside(owner: seq<Handle>, running: set<Handle>)
    ensures forall i | i in Transit(owner, running) :: 0 <= i < |owner|
  {
  }

  /** A label has as many pending jobs as vectors in the flat buffer. */
  lemma JobsPerLabel(jobs: Jobs, labels: seq<Label>, owner: seq<Handle>, ids: seq<Id>, key: Label)
    requires JobsOk(jobs, labels, owner) && key in jobs.byLabel && NoDup(ids)
    requires forall v :: v in ids <==> Has(labels, {}, key, v)
    ensures |jobs.byLabel[key]| == |ids|
  {
    assert forall j | 0 <= j < |ids| :: ids[j] in ids;
    var owners := seq(|ids|, j requires 0 <= j < |ids| => owner[ids[j]]);
    forall j, k | 0 <= j < k < |ids| ensures owners[j] != owners[k] {
      assert jobs.all[owners[j]].id == ids[j] && jobs.all[owners[k]].id == ids[k];
    }
    assert ListedOk(jobs, key);
    forall h ensures h in owners <==> h in jobs.byLabel[key] {
      assert h in jobs.byLabel[key] <==> IsFor(jobs.all, h, key);
      if IsFor(jobs.all, h, key) {
        assert Has(labels, {}, key, jobs.all[h].id);
        var j :| 0 <= j < |ids| && ids[j] == jobs.all[h].id;
        assert owners[j] == h;
      }
    }
    NoDupSize(owners);
    NoDupSize(jobs.byLabel[key]);
    InElems(owners);
    InElems(jobs.byLabel[key]);
    assert Elems(owners) == Elems(jobs.byLabel[key]);
  }

  lemma AppendWaits(before: multiset<Entry>, key: Label, blob: Blob, instead: bool)
    requires instead ==> forall e | Of(e, key) :: before[e] == 0
    ensures BagStored(before, before + multiset{Some((key, blob))}, key, blob, instead)
  {
  }

  lemma OverwriteKeepsCopied(labels: seq<Label>, blobs: seq<Blob>, owner: seq<Handle>, running: set<Handle>, id: Id,
                             key: Label, blob: Blob)
    requires |labels| == |blobs| == |owner| && 0 <= id < |labels|
    requires forall v :: Has(labels, {}, key, v) <==> v == id
    ensures forall i | i in Transit(owner, running) - {id} ::
              0 <= i < |labels| && labels[i] != key && blobs[id := blob][i] == blobs[i]
  {
    forall i | i in Transit(owner, running) - {id} ensures 0 <= i < |labels| && labels[i] != key {
      assert !Has(labels, {}, key, i);
    }
  }

  function Created(jobs: Jobs, key: Label, id: Id): Jobs {
    jobs.(all := jobs.all[jobs.next := InsertJob(key, id, true)],
          byLabel := jobs.byLabel[key := (if key in jobs.byLabel then jobs.byLabel[key] else []) + [jobs.next]],
          next := jobs.next + 1)
  }

  lemma JobIsListed(jobs: Jobs, labels: seq<Label>, owner: seq<Handle>, id: Id)
    requires JobsOk(jobs, labels, owner) && 0 <= id < |labels|
    ensures InvalidOk(jobs) && ListedOk(jobs, labels[id]) && labels[id] in jobs.byLabel
    ensures |owner| == |labels| && IsFor(jobs.all, owner[id], labels[id])
  {
    assert ListedOk(jobs, labels[id]);
    assert IsFor(jobs.all, owner[id], labels[id]);
  }

  lemma AppendJob(jobs: Jobs, labels: seq<Label>, owner: seq<Handle>, key: Label)
    requires JobsOk(jobs, labels, owner)
    ensures JobsOk(Created(jobs, key, |labels|), labels + [key], owner + [jobs.next])
  {
    var after := Created(jobs, key, |labels|);
    forall k ensures ListedOk(after, k) {
      assert ListedOk(jobs, k);
      CreatedIsListed(jobs, key, |labels|, k);
    }
  }

  lemma CreatedIsListed(jobs: Jobs, key: Label, id: Id, k: Label)
    requires ListedOk(jobs, k) && forall h | h in jobs.all :: h < jobs.next
    ensures ListedOk(Created(jobs, key, id), k)
  {
    var after := Created(jobs, key, id);
    if k == key {
      var hs := if key in jobs.byLabel then jobs.byLabel[key] else [];
      forall h | h in hs ensures h != jobs.next {
        assert IsFor(jobs.all, h, key);
      }
      NoDupAppend(hs, jobs.next);
    }
    forall h ensures (k in after.byLabel && h in after.byLabel[k]) <==> IsFor(after.all, h, k) {
      assert (k in jobs.byLabel && h in jobs.byLabel[k]) <==> IsFor(jobs.all, h, k);
    }
  }

  /** The lone job of a label was invalidated and gives way to a new one. */
  lemma ReplaceJob(before: Jobs, mid: Jobs, labels: seq<Label>, owner: seq<Handle>, key: Label, id: Id)
    requires JobsOk(before, labels, owner) && LabelInvalidated(before, mid, key)
    requires 0 <= id < |labels| && forall v :: Has(labels, {}, key, v) <==> v == id
    ensures JobsOk(Created(mid, key, id), labels, owner[id := mid.next])
  {
    var after := Created(mid, key, id);
    forall k ensures ListedOk(after, k) {
      assert ListedOk(before, k);
      InvalidatedIsListed(before, mid, key, k);
      CreatedIsListed(mid, key, id, k);
    }
    forall i | 0 <= i < |labels| && i != id ensures after.all[owner[i]] == InsertJob(labels[i], i, true) {
      assert !Has(labels, {}, key, i);
      assert !IsFor(before.all, owner[i], key);
    }
    assert Has(labels, {}, key, id);
    forall h | h in mid.all && mid.all[h].valid
      ensures 0 <= mid.all[h].id < |owner| && mid.all[h].id != id && owner[mid.all[h].id] == h
    {
      assert mid.all[h] == before.all[h] && !IsFor(before.all, h, key);
    }
  }

  lemma InvalidatedIsListed(before: Jobs, mid: Jobs, key: Label, k: Label)
    requires LabelInvalidated(before, mid, key) && ListedOk(before, k)
    ensures ListedOk(mid, k)
  {
    forall h ensures (k in mid.byLabel && h in mid.byLabel[k]) <==> IsFor(mid.all, h, k) {
      assert (k in before.byLabel && h in before.byLabel[k]) <==> IsFor(before.all, h, k);
    }
  }

  lemma TransitAppended(jobs: Jobs, labels: seq<Label>, owner: seq<Handle>, running: set<Handle>)
    requires JobsOk(jobs, labels, owner) && running <= jobs.all.Keys
    ensures |labels| !in Transit(owner, running)
    ensures Transit(owner + [jobs.next], running) == Transit(owner, running)
  {
    assert jobs.next !in running;
  }

  lemma TransitReplaced(jobs: Jobs, labels: seq<Label>, owner: seq<Handle>, running: set<Handle>, id: Id, fresh': Handle)
    requires JobsOk(jobs, labels, owner) && running <= jobs.all.Keys && jobs.next <= fresh' && 0 <= id < |owner|
    ensures Transit(owner[id := fresh'], running - {owner[id]}) == Transit(owner, running) - {id}
  {
    forall i, j | 0 <= i < j < |owner| ensures owner[i] != owner[j] {
      assert jobs.all[owner[i]].id == i;
    }
  }

  // ----- Following the vectors that moved -----

  /** The jobs of the vectors that stay, with the moves to the ids in `done` told already. */
  ghost predicate Telling(mid: Jobs, all: map<Handle, InsertJob>, labels0: seq<Label>, owner0: seq<Handle>, count: nat,
                          updated: map<Id, (Id, Label)>, key: Label, done: set<Id>)
    requires |owner0| == |labels0| && count <= |labels0|
  {
    && all.Keys == mid.all.Keys
    && (forall h | h in mid.all && !mid.all[h].valid :: all[h] == mid.all[h])
    && (forall s | 0 <= s < count && labels0[s] != key :: owner0[s] in all && all[owner0[s]] == InsertJob(labels0[s], s, true))
    && forall k | k in updated ::
         && 0 <= updated[k].0 < |owner0| && owner0[updated[k].0] in all
         && all[owner0[updated[k].0]] == InsertJob(updated[k].1, if k in done then k else updated[k].0, true)
  }

  /** The valid jobs left are those of the vectors that stay. */
  lemma ValidAreOwned(before: Jobs, mid: Jobs, labels0: seq<Label>, owner0: seq<Handle>, key: Label, h: Handle) returns (s: Id)
    requires JobsOk(before, labels0, owner0) && LabelInvalidated(before, mid, key)
    requires h in mid.all && mid.all[h].valid
    ensures 0 <= s < |labels0| && labels0[s] != key && owner0[s] == h && mid.all[h] == InsertJob(labels0[s], s, true)
  {
    assert h in before.all && !IsFor(before.all, h, key) && mid.all[h] == before.all[h];
    s := before.all[h].id;
    assert owner0[s] == h;
  }

  lemma TellingStarts(before: Jobs, mid: Jobs, labels0: seq<Label>, blobs0: seq<Blob>, labels: seq<Label>, blobs: seq<Blob>,
                      owner0: seq<Handle>, updated: map<Id, (Id, Label)>, key: Label)
    requires JobsOk(before, labels0, owner0) && LabelInvalidated(before, mid, key)
    requires Compacted(labels0, blobs0, labels, blobs, updated, key)
    ensures |owner0| == |labels0| && |labels| <= |labels0|
    ensures Telling(mid, mid.all, labels0, owner0, |labels|, updated, key, {})
  {
    forall s | 0 <= s < |labels0| && labels0[s] != key
      ensures owner0[s] in mid.all && mid.all[owner0[s]] == InsertJob(labels0[s], s, true)
    {
      assert !IsFor(before.all, owner0[s], key);
    }
  }

  lemma MidLists(before: Jobs, mid: Jobs, labels0: seq<Label>, owner0: seq<Handle>, key: Label)
    requires JobsOk(before, labels0, owner0) && LabelInvalidated(before, mid, key)
    ensures forall k | k in mid.byLabel :: NoDup(mid.byLabel[k]) && forall h | h in mid.byLabel[k] :: h in mid.all
  {
    forall k | k in mid.byLabel ensures NoDup(mid.byLabel[k]) && forall h | h in mid.byLabel[k] :: h in mid.all {
      assert ListedOk(before, k);
      forall h | h in mid.byLabel[k] ensures h in mid.all {
        assert IsFor(before.all, h, k);
      }
    }
  }

  /** The owners of the vectors under their new ids. */
  ghost function OwnersNow(labels0: seq<Label>, blobs0: seq<Blob>, labels: seq<Label>, blobs: seq<Blob>, owner0: seq<Handle>,
                           updated: map<Id, (Id, Label)>, key: Label): (owner: seq<Handle>)
    requires Compacted(labels0, blobs0, labels, blobs, updated, key) && |owner0| == |labels0|
    ensures |owner| == |labels|
    ensures forall j | 0 <= j < |labels| ::
              0 <= Source(updated, j) < |owner0| && owner[j] == owner0[Source(updated, j)]
  {
    seq(|labels|, j requires 0 <= j < |labels| => owner0[Source(updated, j)])
  }

  lemma TransitFollows(owner0: seq<Handle>, owner: seq<Handle>, running: set<Handle>, updated: map<Id, (Id, Label)>)
    requires forall j | 0 <= j < |owner| :: 0 <= Source(updated, j) < |owner0| && owner[j] == owner0[Source(updated, j)]
    ensures Transit(owner, running) == Follow(Transit(owner0, running), |owner|, updated)
  {
  }

  lemma CopiedIsInside(graph: multiset<Entry>, labels: seq<Label>, blobs: seq<Blob>, ids: set<Id>)
    requires |labels| == |blobs| && Copied(graph, labels, blobs, ids)
    ensures forall i | i in ids :: 0 <= i < |labels|
  {
  }

  lemma CopiedFollows(graph: multiset<Entry>, labels0: seq<Label>, blobs0: seq<Blob>, labels: seq<Label>, blobs: seq<Blob>,
                      updated: map<Id, (Id, Label)>, key: Label, ids: set<Id>)
    requires Compacted(labels0, blobs0, labels, blobs, updated, key) && Copied(graph, labels0, blobs0, ids)
    ensures Copied(graph, labels, blobs, Follow(ids, |labels|, updated))
  {
  }

  lemma WaitingFollows(labels0: seq<Label>, blobs0: seq<Blob>, labels: seq<Label>, blobs: seq<Blob>,
                       updated: map<Id, (Id, Label)>, key: Label, mark: set<Id>)
    requires CountsFollow(labels0, blobs0, labels, blobs, mark, updated, key) && NoneLeft(labels, {}, key)
    ensures |labels0| == |blobs0| && |labels| == |blobs|
    ensures BagLost(Contents(labels0, blobs0, mark), Contents(labels, blobs, Follow(mark, |labels|, updated)), key)
  {
    hide Contents;
    var dead := Follow(mark, |labels|, updated);
    forall v ensures !Has(labels, dead, key, v) {
      assert !Has(labels, {}, key, v);
    }
    NothingStored(labels, blobs, dead, key);
  }

  lemma LostAddsUp(plain: Entry -> nat, graph: multiset<Entry>, waiting: multiset<Entry>, plain': Entry -> nat,
                   graph': multiset<Entry>, waiting': multiset<Entry>, key: Label)
    requires AddsUp(plain, graph, waiting) && Lost(plain, plain', key) && BagLost(graph, graph', key)
    requires BagLost(waiting, waiting', key)
    ensures AddsUp(plain', graph', waiting')
  {
    forall e ensures plain'(e) == graph'[e] + waiting'[e] {
      assert plain(e) == graph[e] + waiting[e];
    }
  }

  lemma TellingStep(before: Jobs, mid: Jobs, all: map<Handle, InsertJob>, all': map<Handle, InsertJob>, labels0: seq<Label>,
                    blobs0: seq<Blob>, labels: seq<Label>, blobs: seq<Blob>, owner0: seq<Handle>, updated: map<Id, (Id, Label)>,
                    key: Label, done: set<Id>, k: Id)
    requires JobsOk(before, labels0, owner0) && LabelInvalidated(before, mid, key)
    requires Compacted(labels0, blobs0, labels, blobs, updated, key) && k in updated && k !in done && |owner0| == |labels0|
    requires Telling(mid, all, labels0, owner0, |labels|, updated, key, done)
    requires all'.Keys == all.Keys
    requires forall h | h in all ::
               all'[h] == if updated[k].1 in mid.byLabel && h in mid.byLabel[updated[k].1] && all[h].id == updated[k].0
                          then all[h].(id := k) else all[h]
    ensures Telling(mid, all', labels0, owner0, |labels|, updated, key, done + {k})
  {
    var (prev, lab) := updated[k];
    assert |labels| <= prev;
    assert ListedOk(mid, lab) by {
      assert ListedOk(before, lab);
      InvalidatedIsListed(before, mid, key, lab);
    }
    forall h | h in mid.all && !mid.all[h].valid ensures all'[h] == mid.all[h] {
      assert !IsFor(mid.all, h, lab);
    }
    forall s | 0 <= s < |labels| && labels0[s] != key
      ensures owner0[s] in all' && all'[owner0[s]] == InsertJob(labels0[s], s, true)
    {
      var h := owner0[s];
      assert h in all && all[h].id == s;
    }
    forall x | x in updated
      ensures all'[owner0[updated[x].0]] == InsertJob(updated[x].1, if x in done + {k} then x else updated[x].0, true)
    {
      assert all[owner0[updated[x].0]] == InsertJob(updated[x].1, if x in done then x else updated[x].0, true);
      assert 0 <= x < |labels| && (x != k ==> updated[x].0 != prev);
      var h := owner0[updated[x].0];
      assert h in all;
      if x == k {
        OwnerStays(before, mid, labels0, owner0, key, prev);
        assert lab in mid.byLabel && h in mid.byLabel[lab];
      }
    }
  }

  lemma OwnerStays(before: Jobs, mid: Jobs, labels0: seq<Label>, owner0: seq<Handle>, key: Label, s: Id)
    requires JobsOk(before, labels0, owner0) && LabelInvalidated(before, mid, key)
    requires 0 <= s < |labels0| && labels0[s] != key
    ensures IsFor(mid.all, owner0[s], labels0[s])
  {
    assert !IsFor(before.all, owner0[s], key);
  }

  /** With all moves told, the jobs are in order for the flat buffer as it is now. */
  lemma TellingEnds(before: Jobs, mid: Jobs, after: Jobs, labels0: seq<Label>, blobs0: seq<Blob>, labels: seq<Label>,
                    blobs: seq<Blob>, owner0: seq<Handle>, owner: seq<Handle>, updated: map<Id, (Id, Label)>, key: Label)
    requires JobsOk(before, labels0, owner0) && LabelInvalidated(before, mid, key) && |owner0| == |labels0|
    requires Compacted(labels0, blobs0, labels, blobs, updated, key)
    requires after == mid.(all := after.all) && Telling(mid, after.all, labels0, owner0, |labels|, updated, key, updated.Keys)
    requires |owner| == |labels| && forall j | 0 <= j < |labels| :: owner[j] == owner0[Source(updated, j)]
    ensures JobsOk(after, labels, owner)
  {
    forall h | h in after.all && mid.all[h].valid
      ensures after.all[h].valid && after.all[h].key == mid.all[h].key
      ensures 0 <= after.all[h].id < |owner| && owner[after.all[h].id] == h
    {
      var s := ValidAreOwned(before, mid, labels0, owner0, key, h);
      if s < |labels| {
        assert s !in updated;
      } else {
        var k :| k in updated && updated[k].0 == s;
        assert 0 <= k < |labels|;
      }
    }
    forall k | k in mid.invalid
      ensures k < mid.nextInvalid && mid.invalid[k] in after.all
      ensures after.all[mid.invalid[k]] == InsertJob(after.all[mid.invalid[k]].key, k, false)
    {
      var h := mid.invalid[k];
      assert h in mid.all && !mid.all[h].valid;
      assert after.all[h] == mid.all[h];
    }
    forall k ensures ListedOk(after, k) {
      assert ListedOk(before, k);
      InvalidatedIsListed(before, mid, key, k);
      forall h ensures IsFor(after.all, h, k) <==> IsFor(mid.all, h, k) {
      }
    }
  }
}

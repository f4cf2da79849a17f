/**
 * The journal of the tiered SVS index.  While a snapshot of the flat buffer is being copied into the
 * backend, deletions and overwrites go on; replaying the journal over the snapshot's labels tells which
 * flat ids still hold an untouched snapshot vector.
 */
module SwapJournals {
  import opened Seqs
  import opened LabelLookup
  import opened FlatBuffers

  /** The label that stands for "leave this id alone": the largest one. */
  const SKIP_LABEL: Label := 0xFFFF_FFFF_FFFF_FFFF

  /** A vector moved from one id to another, or, with equal ids, left the snapshot where it was. */
  datatype Record = Record(key: Label, from: Id, to: Id)

  /** Vectors only ever move to smaller ids. */
  predicate RecordOk(p: Record) {
    0 <= p.to <= p.from
  }

  function ApplyRecord(arr: seq<Label>, p: Record): (r: seq<Label>)
    requires RecordOk(p)
    ensures |r| == |arr|
  {
    if p.from == p.to || p.from >= |arr| then
      if p.to < |arr| then arr[p.to := SKIP_LABEL] else arr
    else arr[p.to := arr[p.from]][p.from := SKIP_LABEL]
  }

  function Replay(arr: seq<Label>, journal: seq<Record>): (r: seq<Label>)
    requires forall p | p in journal :: RecordOk(p)
    ensures |r| == |arr|
  {
    if journal == [] then arr
    else
      var n := |journal| - 1;
      assert journal[n] in journal;
      ApplyRecord(Replay(arr, journal[..n]), journal[n])
  }

  lemma {:induction false} ReplayAppend(arr: seq<Label>, a: seq<Record>, b: seq<Record>)
    requires forall p | p in a :: RecordOk(p)
    requires forall p | p in b :: RecordOk(p)
    ensures forall p | p in a + b :: RecordOk(p)
    ensures Replay(arr, a + b) == Replay(Replay(arr, a), b)
  {
    if b == [] {
      assert a + b == a;
    } else {
      var n := |b| - 1;
      ReplayAppend(arr, a, b[..n]);
      assert (a + b)[..|a + b| - 1] == a + b[..n];
    }
  }

  /**
   * The array says of every id below its length what it should: the label if the id holds an untouched
   * snapshot vector, the skip label otherwise; and it reaches all untouched vectors.
   */
  ghost predicate Matches(arr: seq<Label>, labels: seq<Label>, untouched: set<Id>) {
    && (forall i | i in untouched :: 0 <= i < |arr| && i < |labels|)
    && forall i | 0 <= i < |arr| :: arr[i] == if i in untouched then labels[i] else SKIP_LABEL
  }

  lemma MatchesAppend(arr: seq<Label>, labels: seq<Label>, untouched: set<Id>, key: Label)
    requires Matches(arr, labels, untouched)
    ensures Matches(arr, labels + [key], untouched)
  {
  }

  lemma MatchesOverwrite(arr: seq<Label>, labels: seq<Label>, untouched: set<Id>, id: Id)
    requires Matches(arr, labels, untouched) && 0 <= id
    ensures Matches(ApplyRecord(arr, Record(SKIP_LABEL, id, id)), labels, untouched - {id})
  {
  }

  // ----- Deleting a label -----

  /** The records of a deletion, one for each deleted id. */
  function Records(ids: seq<Id>, updated: map<Id, (Id, Label)>): (r: seq<Record>)
    ensures |r| == |ids|
    ensures forall k | 0 <= k < |ids| :: r[k] == RecordOf(ids[k], updated)
  {
    seq(|ids|, k requires 0 <= k < |ids| => RecordOf(ids[k], updated))
  }

  function RecordOf(id: Id, updated: map<Id, (Id, Label)>): Record {
    if id in updated then Record(updated[id].1, updated[id].0, id) else Record(SKIP_LABEL, id, id)
  }

  /** Deleted ids, each once, and the ids the survivors beyond the end moved from. */
  ghost predicate DeletionOk(ids: seq<Id>, updated: map<Id, (Id, Label)>) {
    && NoDup(ids) && (forall id | id in ids :: 0 <= id)
    && (forall id | id in updated :: id in ids && id < updated[id].0 && updated[id].0 !in ids)
    && forall a, b | a in updated && b in updated && a != b :: updated[a].0 != updated[b].0
  }

  /** A survivor moved away from j to one of the ids in `done`. */
  ghost predicate Vacated(done: seq<Id>, updated: map<Id, (Id, Label)>, j: Id) {
    exists d :: d in done && d in updated && updated[d].0 == j
  }

  /** The entry of j after the records of the ids in `done`. */
  ghost function EntryAfter(arr0: seq<Label>, updated: map<Id, (Id, Label)>, done: seq<Id>, j: Id): Label
    requires 0 <= j < |arr0|
  {
    if j in done then
      if j in updated && 0 <= updated[j].0 < |arr0| then arr0[updated[j].0] else SKIP_LABEL
    else if Vacated(done, updated, j) then SKIP_LABEL
    else arr0[j]
  }

  ghost predicate Replayed(arr0: seq<Label>, arr: seq<Label>, updated: map<Id, (Id, Label)>, done: seq<Id>) {
    |arr| == |arr0| && forall j | 0 <= j < |arr| :: arr[j] == EntryAfter(arr0, updated, done, j)
  }

  lemma ReplayedStep(arr0: seq<Label>, arr: seq<Label>, updated: map<Id, (Id, Label)>, ids: seq<Id>, k: nat)
    requires DeletionOk(ids, updated) && k < |ids| && Replayed(arr0, arr, updated, ids[..k])
    ensures RecordOk(RecordOf(ids[k], updated))
    ensures Replayed(arr0, ApplyRecord(arr, RecordOf(ids[k], updated)), updated, ids[..k + 1])
  {
    var id, done, next := ids[k], ids[..k], ids[..k + 1];
    assert id in ids && id !in done && next == done + [id];
    var after := ApplyRecord(arr, RecordOf(id, updated));
    if id in updated {
      // Where the survivor comes from, nothing has changed yet.
      SourceIsIntact(ids, updated, k);
    }
    forall j | 0 <= j < |arr| ensures after[j] == EntryAfter(arr0, updated, next, j) {
      VacatedStep(done, updated, id, j);
      assert arr[j] == EntryAfter(arr0, updated, done, j);
      if id in updated {
        var from := updated[id].0;
        assert from !in next;
        assert 0 <= from < |arr0| ==> arr[from] == EntryAfter(arr0, updated, done, from) == arr0[from];
      }
    }
  }

  lemma VacatedStep(done: seq<Id>, updated: map<Id, (Id, Label)>, id: Id, j: Id)
    ensures Vacated(done + [id], updated, j) <==> Vacated(done, updated, j) || (id in updated && updated[id].0 == j)
  {
  }

  lemma SourceIsIntact(ids: seq<Id>, updated: map<Id, (Id, Label)>, k: nat)
    requires DeletionOk(ids, updated) && k < |ids| && ids[k] in updated
    ensures updated[ids[k]].0 !in ids[..k] && !Vacated(ids[..k], updated, updated[ids[k]].0)
    ensures updated[ids[k]].0 !in ids
  {
    var id := ids[k];
    assert id in updated && updated[id].0 !in ids;
    assert id !in ids[..k];
    forall d | d in ids[..k] && d in updated ensures updated[d].0 != updated[id].0 {
      assert d != id;
    }
  }

  lemma {:induction false} ReplayedAll(arr0: seq<Label>, updated: map<Id, (Id, Label)>, ids: seq<Id>, k: nat)
    requires DeletionOk(ids, updated) && k <= |ids|
    ensures forall p | p in Records(ids[..k], updated) :: RecordOk(p)
    ensures Replayed(arr0, Replay(arr0, Records(ids[..k], updated)), updated, ids[..k])
  {
    if k > 0 {
      ReplayedAll(arr0, updated, ids, k - 1);
      var before := Records(ids[..k - 1], updated);
      assert Records(ids[..k], updated) == before + [RecordOf(ids[k - 1], updated)];
      assert Records(ids[..k], updated)[..k - 1] == before;
      ReplayedStep(arr0, Replay(arr0, before), updated, ids, k - 1);
    }
  }

  lemma DeletionIsOk(labels0: seq<Label>, blobs0: seq<Blob>, labels: seq<Label>, blobs: seq<Blob>,
                     updated: map<Id, (Id, Label)>, key: Label, ids: seq<Id>)
    requires Compacted(labels0, blobs0, labels, blobs, updated, key)
    requires NoDup(ids) && forall v :: v in ids <==> Has(labels0, {}, key, v)
    ensures DeletionOk(ids, updated)
  {
    forall id | id in updated ensures id in ids && id < updated[id].0 && updated[id].0 !in ids {
      assert Has(labels0, {}, key, id);
      assert !Has(labels0, {}, key, updated[id].0);
    }
    forall id | id in ids ensures 0 <= id {
      assert Has(labels0, {}, key, id);
    }
  }

  /**
   * Replaying the records of a deletion, in whatever order, keeps the array right: it follows the vectors
   * that moved and skips those that were deleted.
   */
  lemma DeletionMatches(arr0: seq<Label>, labels0: seq<Label>, blobs0: seq<Blob>, labels: seq<Label>, blobs: seq<Blob>,
                        updated: map<Id, (Id, Label)>, key: Label, ids: seq<Id>, untouched: set<Id>)
    requires Matches(arr0, labels0, untouched) && Compacted(labels0, blobs0, labels, blobs, updated, key)
    requires NoDup(ids) && forall v :: v in ids <==> Has(labels0, {}, key, v)
    ensures forall p | p in Records(ids, updated) :: RecordOk(p)
    ensures Matches(Replay(arr0, Records(ids, updated)), labels, Follow(untouched, |labels|, updated))
  {
    DeletionIsOk(labels0, blobs0, labels, blobs, updated, key, ids);
    ReplayedAll(arr0, updated, ids, |ids|);
    assert ids[..|ids|] == ids;
    var arr := Replay(arr0, Records(ids, updated));
    forall j | 0 <= j < |arr|
      ensures arr[j] == if j in Follow(untouched, |labels|, updated) then labels[j] else SKIP_LABEL
    {
      assert arr[j] == EntryAfter(arr0, updated, ids, j);
      assert j in ids <==> Has(labels0, {}, key, j);
      if |labels| <= j < |labels0| && labels0[j] != key {
        var d :| d in updated && updated[d].0 == j;
        assert d in ids;
        assert Vacated(ids, updated, j);
      }
      if Vacated(ids, updated, j) {
        var d :| d in ids && d in updated && updated[d].0 == j;
      }
    }
    forall j | j in Follow(untouched, |labels|, updated) ensures j < |arr| {
      assert Source(updated, j) in untouched;
    }
  }

  // ----- Replaying in place -----

  /** The replay, in the array of the snapshot's labels. */
  method ApplySwapsToLabelsArray(labels: array<Label>, swaps: seq<Record>)
    requires forall p | p in swaps :: RecordOk(p)
    modifies labels
    ensures labels[..] == Replay(old(labels[..]), swaps)
  {
    for i := 0 to |swaps|
      invariant forall p | p in swaps[..i] :: RecordOk(p)
      invariant labels[..] == Replay(old(labels[..]), swaps[..i])
    {
      assert swaps[..i + 1][..i] == swaps[..i];
      var from, to := swaps[i].from, swaps[i].to;
      assert swaps[i] in swaps;
      if from == to || from >= labels.Length {
        if to < labels.Length {
          labels[to] := SKIP_LABEL;
        }
      } else {
        labels[to] := labels[from];
        labels[from] := SKIP_LABEL;
      }
    }
    assert swaps[..|swaps|] == swaps;
  }

  // ----- The label that cannot be told from a skipped one -----

  /** The ids the clean-up deletes from the flat buffer. */
  function ToDelete(arr: seq<Label>): set<Id> {
    set i | 0 <= i < |arr| && arr[i] != SKIP_LABEL
  }

  /** The clean-up takes out exactly the untouched snapshot vectors if and only if none has the skip label. */
  lemma CleanUpIsExact(arr: seq<Label>, labels: seq<Label>, untouched: set<Id>)
    requires Matches(arr, labels, untouched)
    ensures ToDelete(arr) == untouched <==> forall i | i in untouched :: labels[i] != SKIP_LABEL
  {
    forall i | i in untouched && labels[i] == SKIP_LABEL ensures ToDelete(arr) != untouched {
      assert i !in ToDelete(arr);
    }
    if forall i | i in untouched :: labels[i] != SKIP_LABEL {
      forall i ensures i in ToDelete(arr) <==> i in untouched {
      }
    }
  }

  /** A vector stored under the skip label is copied to the backend and stays in the flat buffer as well. */
  lemma SkipLabelStays()
    ensures Matches([SKIP_LABEL], [SKIP_LABEL], {0}) && ToDelete([SKIP_LABEL]) == {}
  {
  }
}

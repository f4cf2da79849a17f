/** The flat buffer: vectors under dense ids, the last one filling the gap of the one removed. */
module FlatBuffers {
  import opened Seqs
  import opened LabelLookup

  type Id = int

  class FlatBuffer {
    const multi: bool
    var labels: seq<Label>
    var blobs: seq<Blob>
    var lookup: Lookup

    constructor (multi: bool)
      ensures Valid() && labels == [] && this.multi == multi
    {
      this.multi := multi;
      labels, blobs, lookup := [], [], map[];
    }

    /** The lookup is right for all labels outside `except`. */
    ghost predicate Kept(except: set<Label>)
      reads this
    {
      && |labels| == |blobs| && LookupOk(lookup, labels, {}, except)
      && (!multi ==> forall key | key in lookup && key !in except :: |lookup[key]| == 1)
    }

    ghost predicate Valid()
      reads this
    {
      Kept({})
    }

    ghost function Stored(): multiset<Option<(Label, Blob)>>
      requires |labels| == |blobs|
      reads this
    {
      Contents(labels, blobs, {})
    }

    /** Appends a vector under a new id. */
    method AppendVector(key: Label, blob: Blob)
      requires Valid() && (!multi ==> key !in lookup)
      modifies this
      ensures Valid() && labels == old(labels) + [key] && blobs == old(blobs) + [blob]
      ensures lookup == WithId(old(lookup), key, |old(labels)|)
    {
      hide LookupOk;
      AppendKeepsLookup(lookup, labels, {}, key);
      lookup := lookup[key := (if key in lookup then lookup[key] else []) + [|labels|]];
      labels, blobs := labels + [key], blobs + [blob];
    }

    /** Adds a vector; with one vector for a label, an existing one is overwritten where it is. */
    method AddVector(key: Label, blob: Blob) returns (added: nat)
      requires Valid()
      modifies this
      ensures Valid() && key in lookup
      ensures if !multi && key in old(lookup)
              then added == 0 && Updated(old(labels), old(blobs), old(lookup), key, blob)
              else added == 1 && labels == old(labels) + [key] && blobs == old(blobs) + [blob]
    {
      if !multi && key in lookup {
        KnownIds(key);
        assert Has(labels, {}, key, lookup[key][0]);
        blobs := blobs[lookup[key][0] := blob];
        added := 0;
      } else {
        AppendVector(key, blob);
        added := 1;
      }
    }

    /** The lone vector of the label was overwritten in place. */
    ghost predicate Updated(labels0: seq<Label>, blobs0: seq<Blob>, lookup0: Lookup, key: Label, blob: Blob)
      requires key in lookup0
      reads this
    {
      && lookup0[key] != [] && 0 <= lookup0[key][0] < |blobs0|
      && labels == labels0 && lookup == lookup0 && blobs == blobs0[lookup0[key][0] := blob]
    }

    lemma KnownIds(key: Label)
      requires Kept({}) && key in lookup
      ensures lookup[key] != [] && NoDup(lookup[key])
      ensures forall v :: v in lookup[key] <==> Has(labels, {}, key, v)
    {
      assert LabelOk(lookup, labels, {}, key);
      assert lookup[key][0..] == lookup[key];
    }

    lemma Gone(key: Label)
      requires Kept({}) && key !in lookup
      ensures NoneLeft(labels, {}, key)
    {
      assert LabelOk(lookup, labels, {}, key);
    }

    lemma LoneId(key: Label)
      requires Kept({}) && key in lookup && !multi
      ensures |lookup[key]| == 1 && 0 <= lookup[key][0] < |labels|
      ensures forall v :: Has(labels, {}, key, v) <==> v == lookup[key][0]
    {
      KnownIds(key);
      assert Has(labels, {}, key, lookup[key][0]);
    }

    /** An element is known under its label. */
    lemma IdIsKnown(id: Id)
      requires Kept({}) && 0 <= id < |labels|
      ensures labels[id] in lookup && id in lookup[labels[id]]
    {
      assert LabelOk(lookup, labels, {}, labels[id]);
      assert Has(labels, {}, labels[id], id);
      assert lookup[labels[id]][0..] == lookup[labels[id]];
    }

    /** Takes an element out; the last one moves into its place. */
    method RemoveVector(id: Id)
      requires |labels| == |blobs| && 0 <= id < |labels|
      requires var last := |labels| - 1; last != id ==> labels[last] in lookup && last in lookup[labels[last]]
      modifies this
      ensures labels == LastMovedTo(old(labels), id) && blobs == LastMovedTo(old(blobs), id)
      ensures lookup == MovedLookup(old(lookup), old(labels), {}, id)
    {
      var last := |labels| - 1;
      if id != last {
        ReplaceIdOfLabel(labels[last], id, last);
        labels, blobs := labels[id := labels[last]], blobs[id := blobs[last]];
      }
      labels, blobs := labels[..last], blobs[..last];
    }

    /** Replaces an id under its label; the list is searched from its end. */
    method ReplaceIdOfLabel(key: Label, newId: Id, oldId: Id)
      requires key in lookup && oldId in lookup[key]
      modifies this`lookup
      ensures lookup == old(lookup)[key := ReplaceFromEnd(old(lookup[key]), oldId, newId)]
    {
      var i := |lookup[key]| - 1;
      while lookup[key][i] != oldId
        invariant 0 <= i < |lookup[key]| && lookup == old(lookup)
        invariant oldId in lookup[key][..i + 1] && oldId !in lookup[key][i + 1..]
        decreases i
      {
        i := i - 1;
      }
      ReplaceAt(lookup[key], oldId, newId, i);
      lookup := lookup[key := lookup[key][i := newId]];
    }

    // ----- Deleting a label -----

    lemma StartDeleting(key: Label)
      requires Kept({}) && key in lookup
      ensures Kept({key}) && Tracks(lookup[key], 0, labels, {}, key)
    {
      hide Tracks;
      assert LabelOk(lookup, labels, {}, key);
    }

    /** An element with another label, or one still to be deleted, is known to the lookup. */
    lemma LastIsKnown(key: Label, i: nat, last: Id)
      requires Kept({key}) && key in lookup && Tracks(lookup[key], i, labels, {}, key) && 0 <= last < |labels|
      ensures labels[last] in lookup && last in lookup[labels[last]]
    {
      assert Has(labels, {}, labels[last], last);
      if labels[last] == key {
        assert last in lookup[key][i..];
      } else {
        assert LabelOk(lookup, labels, {}, labels[last]);
        assert lookup[labels[last]][0..] == lookup[labels[last]];
      }
    }

    /** Deletes the element at position i of the list of a label, which is gone through from the start. */
    method DeleteNext(key: Label, i: nat)
      requires Kept({key}) && key in lookup && i < |lookup[key]| && Tracks(lookup[key], i, labels, {}, key)
      modifies this
      ensures Kept({key}) && key in lookup && |lookup[key]| == |old(lookup)[key]|
      ensures Tracks(lookup[key], i + 1, labels, {}, key)
      ensures var id := old(lookup[key][i]);
        && 0 <= id < |old(labels)| && old(labels)[id] == key
        && labels == LastMovedTo(old(labels), id) && blobs == LastMovedTo(old(blobs), id)
    {
      hide Tracks, LookupOk;
      var id := lookup[key][i];
      DeleteStep(lookup, labels, {}, key, i);
      LastIsKnown(key, i, |labels| - 1);
      MovedBooks(lookup, labels, {}, {key}, id);
      assert RenamedKeys({} - {id}, |labels| - 1, id) == {};
      RemoveVector(id);
    }

    /** Deletes all elements with a label and returns how many there were. */
    method DeleteVector(key: Label) returns (count: nat)
      requires Valid()
      modifies this
      ensures Valid() && key !in lookup
      ensures count == if key in old(lookup) then |old(lookup)[key]| else 0
      ensures |labels| == |old(labels)| - count
      ensures forall e :: Stored()[e] == if Of(e, key) then 0 else old(Stored())[e]
    {
      count := 0;
      if key !in lookup {
        assert LabelOk(lookup, labels, {}, key);
        NothingStored(labels, blobs, {}, key);
        return;
      }
      count := DeleteAll(key);
    }

    method DeleteAll(key: Label) returns (count: nat)
      requires Valid() && key in lookup
      modifies this
      ensures Valid() && key !in lookup && count == |old(lookup)[key]| && |labels| == |old(labels)| - count
      ensures forall e :: Stored()[e] == if Of(e, key) then 0 else old(Stored())[e]
    {
      hide Tracks, LookupOk, Contents, LastMovedTo, MovedLookup, NoneLeft, ListAfterMove;
      StartDeleting(key);
      count := 0;
      while count < |lookup[key]|
        invariant Kept({key}) && key in lookup && count <= |lookup[key]| == |old(lookup)[key]|
        invariant Tracks(lookup[key], count, labels, {}, key)
        invariant |labels| == |old(labels)| - count
        invariant forall e | !Of(e, key) :: Stored()[e] == old(Stored())[e]
      {
        ghost var id := lookup[key][count];
        TracksNext(lookup[key], count, labels, key);
        MoveCounts(labels, blobs, {}, id);
        assert RenamedKeys({} - {id}, |labels| - 1, id) == {};
        SameLength(labels, blobs, id);
        DeleteNext(key, count);
        count := count + 1;
      }
      FinishDeleting(key);
      lookup := lookup - {key};
    }

    lemma FinishDeleting(key: Label)
      requires Kept({key}) && key in lookup && Tracks(lookup[key], |lookup[key]|, labels, {}, key)
      ensures LookupOk(lookup - {key}, labels, {}, {}) && NoneLeft(labels, {}, key)
      ensures forall e | Of(e, key) :: Contents(labels, blobs, {})[e] == 0
    {
      forall v ensures !Has(labels, {}, key, v) {
        assert lookup[key][|lookup[key]|..] == [];
      }
      NothingStored(labels, blobs, {}, key);
      EraseKeepsLookup(lookup, labels, {}, key);
    }

    // ----- Deleting a label and reporting who moved where -----

    /**
     * Deletes all elements with a label.  The result tells for every id whose element was deleted and
     * that is still in use which element, under its id before the call, has moved there.
     */
    method DeleteVectorAndGetUpdatedIds(key: Label, ghost mark: set<Id>) returns (updated: map<Id, (Id, Label)>)
      requires Valid()
      modifies this
      ensures Valid() && key !in lookup && Compacted(old(labels), old(blobs), labels, blobs, updated, key)
      ensures CountsFollow(old(labels), old(blobs), labels, blobs, mark, updated, key)
      ensures CountsFollow(old(labels), old(blobs), labels, blobs, {}, updated, key)
      ensures |old(labels)| - |labels| == if key in old(lookup) then |old(lookup)[key]| else 0
    {
      updated := map[];
      ghost var perm := seq(|labels|, i => i);
      if key !in lookup {
        assert LabelOk(lookup, labels, {}, key);
        NothingToCompact(labels, blobs, key);
        NothingFollows(labels, blobs, mark, key);
        NothingFollows(labels, blobs, {}, key);
        return;
      }
      StartDeleting(key);
      hide Tracks, LookupOk, Compacting, LastMovedTo;
      NothingMoved(labels, blobs, key);
      ghost var i := 0;
      i, updated, perm := DeleteMoving(key, mark);
      FinishDeleting(key);
      NoneLeftToMove(old(labels), old(blobs), labels, blobs, perm, updated, key);
      MarkEnds(old(labels), old(blobs), labels, blobs, perm, updated, key, mark);
      MarkEnds(old(labels), old(blobs), labels, blobs, perm, updated, key, {});
      lookup := lookup - {key};
    }

    /** The loop over the list of the label, which removals rewrite as it goes. */
    method DeleteMoving(key: Label, ghost mark: set<Id>)
      returns (ghost i: nat, updated: map<Id, (Id, Label)>, ghost perm: seq<Id>)
      requires Kept({key}) && key in lookup && Tracks(lookup[key], 0, labels, {}, key)
      requires Compacting(labels, blobs, labels, blobs, seq(|labels|, i => i), map[], key)
      modifies this
      ensures Kept({key}) && key in lookup && i == |lookup[key]| == |old(lookup)[key]|
      ensures Tracks(lookup[key], i, labels, {}, key)
      ensures Compacting(old(labels), old(blobs), labels, blobs, perm, updated, key)
      ensures |labels| == |old(labels)| - i
      ensures MarkFollows(old(labels), old(blobs), labels, blobs, perm, mark, key)
      ensures MarkFollows(old(labels), old(blobs), labels, blobs, perm, {}, key)
    {
      hide Tracks, LookupOk, Compacting, LastMovedTo, MarkFollows;
      var k := 0;
      MarkStarts(labels, blobs, mark, key);
      MarkStarts(labels, blobs, {}, key);
      updated := map[];
      perm := seq(|labels|, i => i);
      while k < |lookup[key]|
        invariant Kept({key}) && key in lookup && k <= |lookup[key]| == |old(lookup)[key]|
        invariant Tracks(lookup[key], k, labels, {}, key)
        invariant Compacting(old(labels), old(blobs), labels, blobs, perm, updated, key)
        invariant MarkFollows(old(labels), old(blobs), labels, blobs, perm, mark, key)
        invariant MarkFollows(old(labels), old(blobs), labels, blobs, perm, {}, key)
        invariant |labels| == |old(labels)| - k
      {
        var id := lookup[key][k];
        TracksNext(lookup[key], k, labels, key);
        var lastLabel := labels[|labels| - 1];
        CompactStep(old(labels), old(blobs), labels, blobs, perm, updated, key, id);
        SameLength(labels, blobs, id);
        MarkStep(old(labels), old(blobs), labels, blobs, perm, mark, key, id);
        MarkStep(old(labels), old(blobs), labels, blobs, perm, {}, key, id);
        perm := LastMovedTo(perm, id);
        DeleteNext(key, k);
        var count := |labels|;
        updated := updated - {id};
        if id != count {
          if count in updated {
            updated := updated[id := updated[count]];
            updated := updated - {count};
          } else {
            updated := updated[id := (count, lastLabel)];
          }
        }
        k := k + 1;
      }
      i := k;
    }

    // ----- Deleting one element -----

    /** Deletes one element, known to be stored under the label, by its id. */
    method DeleteVectorById(key: Label, id: Id) returns (deleted: nat)
      requires Valid() && (key in lookup ==> id in lookup[key])
      modifies this
      ensures Valid()
      ensures key !in old(lookup) ==> deleted == 0 && labels == old(labels) && blobs == old(blobs) && lookup == old(lookup)
      ensures key in old(lookup) ==>
                && deleted == 1 && 0 <= id < |old(labels)| && old(labels)[id] == key
                && labels == LastMovedTo(old(labels), id) && blobs == LastMovedTo(old(blobs), id)
    {
      if key !in lookup {
        return 0;
      }
      KnownIds(key);
      assert Has(labels, {}, key, id);
      StartDeleting(key);
      LastIsKnown(key, 0, |labels| - 1);
      if multi {
        RemoveFromList(key, id);
      } else {
        assert lookup[key] == [id];
        RemoveLone(key, id);
      }
      deleted := 1;
    }

    method RemoveFromList(key: Label, id: Id)
      requires multi && Kept({key}) && key in lookup && id in lookup[key] && Tracks(lookup[key], 0, labels, {}, key)
      requires 0 <= id < |labels| && labels[id] == key
      requires var last := |labels| - 1; labels[last] in lookup && last in lookup[labels[last]]
      modifies this
      ensures Valid() && labels == LastMovedTo(old(labels), id) && blobs == LastMovedTo(old(blobs), id)
    {
      hide LookupOk, Tracks, LastMovedTo;
      var ids := lookup[key];
      var i := 0;
      while ids[i] != id
        invariant i < |ids| && id !in ids[..i]
        decreases |ids| - i
      {
        i := i + 1;
      }
      MovedBooks(lookup, labels, {}, {key}, id);
      SameLength(labels, blobs, id);
      EraseTracks(lookup, labels, key, i);
      assert RenamedKeys({} - {id}, |labels| - 1, id) == {};
      RemoveVector(id);
      var rest := lookup[key][..i] + lookup[key][i + 1..];
      SettleList(lookup, labels, key, rest);
      if rest == [] {
        lookup := lookup - {key};
      } else {
        lookup := lookup[key := rest];
      }
    }

    method RemoveLone(key: Label, id: Id)
      requires !multi && Kept({key}) && key in lookup && lookup[key] == [id] && Tracks(lookup[key], 0, labels, {}, key)
      requires 0 <= id < |labels| && labels[id] == key
      requires var last := |labels| - 1; labels[last] in lookup && last in lookup[labels[last]]
      modifies this
      ensures Valid() && labels == LastMovedTo(old(labels), id) && blobs == LastMovedTo(old(blobs), id)
    {
      hide LookupOk, Tracks, LastMovedTo;
      LoneMoves(lookup, labels, key, id);
      lookup := lookup - {key};
      MovedBooks(lookup, labels, {}, {key}, id);
      SameLength(labels, blobs, id);
      assert RenamedKeys({} - {id}, |labels| - 1, id) == {};
      RemoveVector(id);
      EraseKeepsLookup(lookup, labels, {}, key);
      assert lookup - {key} == lookup;
    }
  }

  /** The list of a label without its entry i follows the removal of the element at that entry. */
  lemma EraseTracks(lookup: Lookup, labels: seq<Label>, key: Label, i: nat)
    requires key in lookup && i < |lookup[key]| && Tracks(lookup[key], 0, labels, {}, key)
    requires 0 <= lookup[key][i] < |labels| && labels[lookup[key][i]] == key
    ensures var after := MovedLookup(lookup, labels, {}, lookup[key][i]);
      && key in after && |after[key]| == |lookup[key]|
      && Tracks(after[key][..i] + after[key][i + 1..], 0, LastMovedTo(labels, lookup[key][i]), {}, key)
  {
    hide Tracks;
    var ids, id := lookup[key], lookup[key][i];
    var rest := ids[..i] + ids[i + 1..];
    RestTracks(ids, labels, key, i);
    MoveKeepsTracks(rest, 0, labels, {id}, key, id);
    assert {id} - {id} == {} == RenamedKeys({}, |labels| - 1, id);
    if |labels| - 1 != id && labels[|labels| - 1] == key {
      LastInList(ids, labels, key);
      ReplaceSkips(ids, |labels| - 1, id, i);
    }
  }

  lemma LastInList(ids: seq<Id>, labels: seq<Label>, key: Label)
    requires Tracks(ids, 0, labels, {}, key) && labels != [] && labels[|labels| - 1] == key
    ensures NoDup(ids) && |labels| - 1 in ids
  {
  }

  lemma RestTracks(ids: seq<Id>, labels: seq<Label>, key: Label, i: nat)
    requires i < |ids| && Tracks(ids, 0, labels, {}, key)
    ensures Tracks(ids[..i] + ids[i + 1..], 0, labels, {ids[i]}, key)
  {
    var id, rest := ids[i], ids[..i] + ids[i + 1..];
    assert ids[0..] == ids && rest[0..] == rest && ids == ids[..i] + [id] + ids[i + 1..];
    forall v ensures v in rest <==> Has(labels, {id}, key, v) {
      assert v in ids <==> Has(labels, {}, key, v);
    }
  }

  lemma ReplaceSkips(ids: seq<Id>, before: Id, after: Id, i: nat)
    requires NoDup(ids) && i < |ids| && before in ids && ids[i] != before
    ensures var r := ReplaceFromEnd(ids, before, after);
      r[..i] + r[i + 1..] == ReplaceFromEnd(ids[..i] + ids[i + 1..], before, after)
  {
    hide ReplaceFromEnd, NoDup;
    var rest := ids[..i] + ids[i + 1..];
    assert ids[0..] == ids && rest[0..] == rest;
    SkipKeeps(ids, before, i);
    ReplaceFromEndTail(ids, before, after, 0);
    ReplaceFromEndTail(rest, before, after, 0);
    var r, q := ReplaceFromEnd(ids, before, after), ReplaceFromEnd(rest, before, after);
    forall k | 0 <= k < |rest| ensures q[k] == (r[..i] + r[i + 1..])[k] {
      assert rest[k] == ids[if k < i then k else k + 1];
    }
  }

  lemma SkipKeeps(ids: seq<Id>, x: Id, i: nat)
    requires NoDup(ids) && i < |ids| && x in ids && ids[i] != x
    ensures NoDup(ids[..i] + ids[i + 1..]) && x in ids[..i] + ids[i + 1..]
  {
  }

  lemma SettleList(lookup: Lookup, labels: seq<Label>, key: Label, rest: seq<Id>)
    requires LookupOk(lookup, labels, {}, {key}) && Tracks(rest, 0, labels, {}, key)
    ensures rest != [] ==> LookupOk(lookup[key := rest], labels, {}, {})
    ensures rest == [] ==> LookupOk(lookup - {key}, labels, {}, {})
  {
    if rest == [] {
      forall v ensures !Has(labels, {}, key, v) {
        assert rest[0..] == [];
      }
      EraseKeepsLookup(lookup, labels, {}, key);
    } else {
      hide Tracks;
      var settled := lookup[key := rest];
      forall k ensures LabelOk(settled, labels, {}, k) {
        if k != key {
          assert LabelOk(lookup, labels, {}, k);
        }
      }
    }
  }

  lemma LoneMoves(lookup: Lookup, labels: seq<Label>, key: Label, id: Id)
    requires LookupOk(lookup, labels, {}, {key}) && key in lookup && lookup[key] == [id]
    requires Tracks(lookup[key], 0, labels, {}, key) && 0 <= id < |labels| && labels[id] == key
    requires var last := |labels| - 1; labels[last] in lookup && last in lookup[labels[last]]
    ensures LookupOk(lookup - {key}, labels, {}, {key})
    ensures var last := |labels| - 1;
      last != id ==> labels[last] in lookup - {key} && last in (lookup - {key})[labels[last]]
    ensures NoneLeft(LastMovedTo(labels, id), {}, key)
  {
    forall k | k != key ensures LabelOk(lookup - {key}, labels, {}, k) {
      assert LabelOk(lookup, labels, {}, k);
    }
    EraseTracks(lookup, labels, key, 0);
    var after := MovedLookup(lookup, labels, {}, id)[key];
    assert after[..0] + after[1..] == [];
    forall v ensures !Has(LastMovedTo(labels, id), {}, key, v) {
    }
  }

  /**
   * The outcome of deleting all elements of a label from a store with labels and blobs `0`: ids of
   * deleted elements still in use hold the elements that were beyond the new end, each exactly once, and
   * all other ids hold what they held.
   */
  ghost predicate Compacted(labels0: seq<Label>, blobs0: seq<Blob>, labels: seq<Label>, blobs: seq<Blob>,
                            updated: map<Id, (Id, Label)>, key: Label)
  {
    && |blobs0| == |labels0| && |blobs| == |labels| <= |labels0|
    && (forall j :: j in updated <==> 0 <= j < |labels| && labels0[j] == key)
    && (forall j | j in updated ::
          && |labels| <= updated[j].0 < |labels0| && labels0[updated[j].0] == updated[j].1 != key)
    && (forall j, k | j in updated && k in updated && j != k :: updated[j].0 != updated[k].0)
    && (forall s | |labels| <= s < |labels0| && labels0[s] != key :: exists j :: j in updated && updated[j].0 == s)
    && forall j | 0 <= j < |labels| ::
         var s := Source(updated, j);
         0 <= s < |labels0| && labels[j] == labels0[s] && blobs[j] == blobs0[s]
  }

  /** The id, before the deletion, of the element now under j. */
  function Source(updated: map<Id, (Id, Label)>, j: Id): Id {
    if j in updated then updated[j].0 else j
  }

  /** Half-way: `perm` gives the id before the deletion of every element still there. */
  ghost predicate Compacting(labels0: seq<Label>, blobs0: seq<Blob>, labels: seq<Label>, blobs: seq<Blob>,
                             perm: seq<Id>, updated: map<Id, (Id, Label)>, key: Label)
  {
    && |blobs0| == |labels0| && |perm| == |blobs| == |labels| <= |labels0|
    && Shifted(labels0, perm, key)
    && (forall j | 0 <= j < |perm| :: labels[j] == labels0[perm[j]] && blobs[j] == blobs0[perm[j]])
    && Recorded(labels0, perm, updated)
  }

  /** Only elements beyond the end have moved, each once, to ids of the label; no other label was lost. */
  ghost predicate Shifted(labels0: seq<Label>, perm: seq<Id>, key: Label) {
    && |perm| <= |labels0|
    && (forall j | 0 <= j < |perm| :: j <= perm[j] < |labels0|)
    && (forall j, k | 0 <= j < k < |perm| :: perm[j] != perm[k])
    && (forall j | 0 <= j < |perm| && perm[j] != j :: labels0[j] == key && perm[j] >= |perm|)
    && (forall s | 0 <= s < |labels0| && labels0[s] != key :: s in perm)
  }

  lemma ShiftedStep(labels0: seq<Label>, perm: seq<Id>, key: Label, id: Id)
    requires Shifted(labels0, perm, key) && 0 <= id < |perm| && labels0[perm[id]] == key
    ensures Shifted(labels0, LastMovedTo(perm, id), key)
  {
    var last, perm' := |perm| - 1, LastMovedTo(perm, id);
    forall s | 0 <= s < |labels0| && labels0[s] != key ensures s in perm' {
      var j :| 0 <= j < |perm| && perm[j] == s;
      assert perm'[if j == last then id else j] == s;
    }
  }

  /** The map holds exactly the ids whose element has moved. */
  ghost predicate Recorded(labels0: seq<Label>, perm: seq<Id>, updated: map<Id, (Id, Label)>)
    requires forall j | 0 <= j < |perm| :: 0 <= perm[j] < |labels0|
  {
    forall j :: (j in updated <==> 0 <= j < |perm| && perm[j] != j)
                && (j in updated ==> updated[j] == (perm[j], labels0[perm[j]]))
  }

  lemma RecordedStep(labels0: seq<Label>, perm: seq<Id>, updated: map<Id, (Id, Label)>, id: Id)
    requires forall j | 0 <= j < |perm| :: j <= perm[j] < |labels0|
    requires Recorded(labels0, perm, updated) && 0 <= id < |perm|
    ensures var last := |perm| - 1;
      Recorded(labels0, LastMovedTo(perm, id), Moved(updated, id, last, labels0[perm[last]]))
  {
  }

  // ----- What a set of marked elements amounts to -----

  /** The ids of the elements marked before the deletion. */
  ghost function Follow(mark: set<Id>, count: nat, updated: map<Id, (Id, Label)>): set<Id> {
    set j | 0 <= j < count && Source(updated, j) in mark
  }

  /** Apart from the deleted label, the elements that are not marked store what they stored. */
  ghost predicate CountsFollow(labels0: seq<Label>, blobs0: seq<Blob>, labels: seq<Label>, blobs: seq<Blob>,
                               mark: set<Id>, updated: map<Id, (Id, Label)>, key: Label)
  {
    && |labels0| == |blobs0| && |labels| == |blobs|
    && forall e | !Of(e, key) ::
         Contents(labels, blobs, Follow(mark, |labels|, updated))[e] == Contents(labels0, blobs0, mark)[e]
  }

  ghost function MarkNow(perm: seq<Id>, mark: set<Id>): set<Id> {
    set j | 0 <= j < |perm| && perm[j] in mark
  }

  ghost predicate MarkFollows(labels0: seq<Label>, blobs0: seq<Blob>, labels: seq<Label>, blobs: seq<Blob>,
                              perm: seq<Id>, mark: set<Id>, key: Label)
  {
    && |labels0| == |blobs0| && |labels| == |blobs| == |perm|
    && forall e | !Of(e, key) :: Contents(labels, blobs, MarkNow(perm, mark))[e] == Contents(labels0, blobs0, mark)[e]
  }

  lemma SameEntries(labels: seq<Label>, blobs: seq<Blob>, dead: set<Id>, dead': set<Id>)
    requires |labels| == |blobs| && forall i | 0 <= i < |labels| :: i in dead <==> i in dead'
    ensures Contents(labels, blobs, dead) == Contents(labels, blobs, dead')
  {
    assert Entries(labels, blobs, dead) == Entries(labels, blobs, dead');
  }

  lemma MarkStarts(labels: seq<Label>, blobs: seq<Blob>, mark: set<Id>, key: Label)
    requires |labels| == |blobs|
    ensures MarkFollows(labels, blobs, labels, blobs, seq(|labels|, i => i), mark, key)
  {
    SameEntries(labels, blobs, mark, MarkNow(seq(|labels|, i => i), mark));
  }

  lemma MarkStep(labels0: seq<Label>, blobs0: seq<Blob>, labels: seq<Label>, blobs: seq<Blob>,
                 perm: seq<Id>, mark: set<Id>, key: Label, id: Id)
    requires MarkFollows(labels0, blobs0, labels, blobs, perm, mark, key)
    requires 0 <= id < |labels| && labels[id] == key
    ensures |LastMovedTo(labels, id)| == |LastMovedTo(blobs, id)|
    ensures MarkFollows(labels0, blobs0, LastMovedTo(labels, id), LastMovedTo(blobs, id), LastMovedTo(perm, id), mark, key)
  {
    var now := MarkNow(perm, mark);
    MoveCounts(labels, blobs, now, id);
    var last := |labels| - 1;
    assert MarkNow(LastMovedTo(perm, id), mark) == RenamedKeys(now - {id}, last, id);
  }

  lemma MarkEnds(labels0: seq<Label>, blobs0: seq<Blob>, labels: seq<Label>, blobs: seq<Blob>,
                 perm: seq<Id>, updated: map<Id, (Id, Label)>, key: Label, mark: set<Id>)
    requires MarkFollows(labels0, blobs0, labels, blobs, perm, mark, key)
    requires Compacting(labels0, blobs0, labels, blobs, perm, updated, key)
    ensures CountsFollow(labels0, blobs0, labels, blobs, mark, updated, key)
  {
    assert forall j | 0 <= j < |perm| :: Source(updated, j) == perm[j];
    SameEntries(labels, blobs, MarkNow(perm, mark), Follow(mark, |labels|, updated));
  }

  lemma NothingFollows(labels: seq<Label>, blobs: seq<Blob>, mark: set<Id>, key: Label)
    requires |labels| == |blobs|
    ensures CountsFollow(labels, blobs, labels, blobs, mark, map[], key)
  {
    SameEntries(labels, blobs, mark, Follow(mark, |labels|, map[]));
  }

  /** The update of the map of moved ids when the last of `count` + 1 elements moves to id. */
  function Moved(updated: map<Id, (Id, Label)>, id: Id, count: Id, lastLabel: Label): map<Id, (Id, Label)> {
    var rest := updated - {id};
    if id == count then rest
    else if count in rest then rest[id := rest[count]] - {count}
    else rest[id := (count, lastLabel)]
  }

  lemma NothingMoved(labels: seq<Label>, blobs: seq<Blob>, key: Label)
    requires |labels| == |blobs|
    ensures Compacting(labels, blobs, labels, blobs, seq(|labels|, i => i), map[], key)
  {
    var perm := seq(|labels|, i => i);
    forall s | 0 <= s < |labels| ensures s in perm {
      assert perm[s] == s;
    }
  }

  lemma NothingToCompact(labels: seq<Label>, blobs: seq<Blob>, key: Label)
    requires |labels| == |blobs| && NoneLeft(labels, {}, key)
    ensures Compacted(labels, blobs, labels, blobs, map[], key)
  {
    forall j | 0 <= j < |labels| ensures labels[j] != key {
      assert !Has(labels, {}, key, j);
    }
  }

  lemma TracksNext(ids: seq<Id>, i: nat, labels: seq<Label>, key: Label)
    requires i < |ids| && Tracks(ids, i, labels, {}, key)
    ensures 0 <= ids[i] < |labels| && labels[ids[i]] == key
  {
    assert ids[i] == ids[i..][0];
    assert Has(labels, {}, key, ids[i]);
  }

  lemma CompactStep(labels0: seq<Label>, blobs0: seq<Blob>, labels: seq<Label>, blobs: seq<Blob>,
                    perm: seq<Id>, updated: map<Id, (Id, Label)>, key: Label, id: Id)
    requires Compacting(labels0, blobs0, labels, blobs, perm, updated, key)
    requires 0 <= id < |labels| && labels[id] == key
    ensures |perm| == |labels|
    ensures Compacting(labels0, blobs0, LastMovedTo(labels, id), LastMovedTo(blobs, id), LastMovedTo(perm, id),
                       Moved(updated, id, |labels| - 1, labels[|labels| - 1]), key)
  {
    hide Recorded, Moved, Shifted;
    ShiftedRange(labels0, perm, key);
    RecordedStep(labels0, perm, updated, id);
    ShiftedStep(labels0, perm, key, id);
  }

  lemma ShiftedRange(labels0: seq<Label>, perm: seq<Id>, key: Label)
    requires Shifted(labels0, perm, key)
    ensures forall j | 0 <= j < |perm| :: j <= perm[j] < |labels0|
  {
  }

  /** With no element of the label left, every deleted id in use was filled from beyond the end. */
  lemma NoneLeftToMove(labels0: seq<Label>, blobs0: seq<Blob>, labels: seq<Label>, blobs: seq<Blob>,
                       perm: seq<Id>, updated: map<Id, (Id, Label)>, key: Label)
    requires Compacting(labels0, blobs0, labels, blobs, perm, updated, key) && NoneLeft(labels, {}, key)
    ensures Compacted(labels0, blobs0, labels, blobs, updated, key)
  {
    hide Recorded, Shifted;
    RecordedSources(labels0, perm, updated, key);
    forall j | 0 <= j < |labels| ensures labels0[perm[j]] != key {
      assert !Has(labels, {}, key, j);
    }
    MovedAreRecorded(labels0, perm, updated, key);
    RecordedMoves(labels0, perm, updated, key);
  }

  /** Exactly the deleted ids still in use were filled, each from beyond the end. */
  lemma RecordedMoves(labels0: seq<Label>, perm: seq<Id>, updated: map<Id, (Id, Label)>, key: Label)
    requires Shifted(labels0, perm, key) && Recorded(labels0, perm, updated)
    requires forall j | 0 <= j < |perm| :: 0 <= perm[j] < |labels0| && labels0[perm[j]] != key
    ensures forall j :: j in updated <==> 0 <= j < |perm| && labels0[j] == key
    ensures forall j | j in updated ::
              |perm| <= updated[j].0 < |labels0| && labels0[updated[j].0] == updated[j].1 != key
    ensures forall j, k | j in updated && k in updated && j != k :: updated[j].0 != updated[k].0
  {
  }

  lemma MovedAreRecorded(labels0: seq<Label>, perm: seq<Id>, updated: map<Id, (Id, Label)>, key: Label)
    requires Shifted(labels0, perm, key) && Recorded(labels0, perm, updated)
    ensures forall s | |perm| <= s < |labels0| && labels0[s] != key :: exists j :: j in updated && updated[j].0 == s
  {
    forall s | |perm| <= s < |labels0| && labels0[s] != key ensures exists j :: j in updated && updated[j].0 == s {
      var j :| 0 <= j < |perm| && perm[j] == s;
      assert j in updated;
    }
  }

  lemma RecordedSources(labels0: seq<Label>, perm: seq<Id>, updated: map<Id, (Id, Label)>, key: Label)
    requires Shifted(labels0, perm, key) && Recorded(labels0, perm, updated)
    ensures forall j | 0 <= j < |perm| :: Source(updated, j) == perm[j] && 0 <= perm[j] < |labels0|
  {
  }
}

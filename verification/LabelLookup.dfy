/**
 * The lookup from labels to internal ids of a store that keeps its ids dense by moving the last element
 * into the place of the one removed.  Both tiers use it: the flat buffer, where all elements are live,
 * and the graph index, where elements marked deleted are out of the lookup already.
 */
module LabelLookup {
  import opened Seqs

  type Label = int

  /** A stored vector. */
  type Blob = seq<real>

  type Lookup = map<Label, seq<int>>

  /** Replaces the last occurrence of `before`; the list is searched from its end. */
  function ReplaceFromEnd(ids: seq<int>, before: int, after: int): (r: seq<int>)
    ensures |r| == |ids|
  {
    if ids == [] then []
    else
      var n := |ids| - 1;
      if ids[n] == before then ids[n := after] else ReplaceFromEnd(ids[..n], before, after) + [ids[n]]
  }

  /** The lookup after the last element was moved to d; elements in `dead` are not in the lookup. */
  function MovedLookup(lookup: Lookup, labels: seq<Label>, dead: set<int>, d: int): Lookup
    requires 0 <= d < |labels|
  {
    var last := |labels| - 1;
    if last != d && last !in dead && labels[last] in lookup
    then lookup[labels[last] := ReplaceFromEnd(lookup[labels[last]], last, d)]
    else lookup
  }

  /** Element v is live and has the label. */
  predicate Has(labels: seq<Label>, dead: set<int>, key: Label, v: int) {
    0 <= v < |labels| && v !in dead && labels[v] == key
  }

  /** From position `from` on, the list holds exactly the live elements with the label, each once. */
  ghost predicate Tracks(ids: seq<int>, from: nat, labels: seq<Label>, dead: set<int>, key: Label) {
    && from <= |ids| && NoDup(ids[from..])
    && forall v :: v in ids[from..] <==> Has(labels, dead, key, v)
  }

  ghost predicate LabelOk(lookup: Lookup, labels: seq<Label>, dead: set<int>, key: Label) {
    if key in lookup then lookup[key] != [] && Tracks(lookup[key], 0, labels, dead, key)
    else NoneLeft(labels, dead, key)
  }

  /** No live element has the label. */
  ghost predicate NoneLeft(labels: seq<Label>, dead: set<int>, key: Label) {
    forall v :: !Has(labels, dead, key, v)
  }

  /** The lookup is right for all labels outside `except`. */
  ghost predicate LookupOk(lookup: Lookup, labels: seq<Label>, dead: set<int>, except: set<Label>) {
    forall key | key !in except :: LabelOk(lookup, labels, dead, key)
  }

  // ----- Moving the last element -----

  lemma {:induction false} ReplaceFromEndTail(ids: seq<int>, before: int, after: int, from: nat)
    requires from <= |ids| && before in ids[from..] && NoDup(ids[from..])
    ensures var r := ReplaceFromEnd(ids, before, after);
      forall i | from <= i < |ids| :: r[i] == if ids[i] == before then after else ids[i]
  {
    var n := |ids| - 1;
    if ids[n] == before {
      forall i | from <= i < n ensures ids[i] != before {
        assert ids[from..][i - from] != ids[from..][n - from];
      }
    } else {
      assert ids[from..] == ids[..n][from..] + [ids[n]];
      ReplaceFromEndTail(ids[..n], before, after, from);
    }
  }

  lemma ReplaceAt(ids: seq<int>, before: int, after: int, i: nat)
    requires i < |ids| && ids[i] == before && before !in ids[i + 1..]
    ensures ReplaceFromEnd(ids, before, after) == ids[i := after]
  {
    var n := |ids| - 1;
    if i < n {
      assert ids[n] in ids[i + 1..];
      assert ids[..n][i + 1..] == ids[i + 1..][..n - i - 1];
      ReplaceAt(ids[..n], before, after, i);
    }
  }

  lemma MovedMembers(labels: seq<Label>, dead: set<int>, d: int, key: Label, v: int)
    requires 0 <= d < |labels| && (d in dead || labels[d] != key)
    ensures var last := |labels| - 1;
      Has(LastMovedTo(labels, d), RenamedKeys(dead - {d}, last, d), key, v)
        == if v == d then d != last && Has(labels, dead, key, last) else v != last && Has(labels, dead, key, v)
  {
  }

  /** A list goes on tracking its label when an element that is not its concern is removed. */
  lemma MoveKeepsTracks(ids: seq<int>, from: nat, labels: seq<Label>, dead: set<int>, key: Label, d: int)
    requires 0 <= d < |labels| && (d in dead || labels[d] != key)
    requires Tracks(ids, from, labels, dead, key)
    ensures var last := |labels| - 1;
      var after := if last != d && Has(labels, dead, key, last) then ReplaceFromEnd(ids, last, d) else ids;
      Tracks(after, from, LastMovedTo(labels, d), RenamedKeys(dead - {d}, last, d), key)
  {
    var last, tail := |labels| - 1, ids[from..];
    var after := if last != d && Has(labels, dead, key, last) then ReplaceFromEnd(ids, last, d) else ids;
    var labels', dead' := LastMovedTo(labels, d), RenamedKeys(dead - {d}, last, d);
    forall v ensures Has(labels', dead', key, v) <==> if v == d then d != last && last in tail else v != last && v in tail {
      MovedMembers(labels, dead, d, key, v);
    }
    assert d !in tail;
    if last in tail && last != d {
      ReplaceFromEndTail(ids, last, d, from);
      var tail' := after[from..];
      assert forall i | 0 <= i < |tail| :: tail'[i] == if tail[i] == last then d else tail[i];
      forall v ensures v in tail' <==> Has(labels', dead', key, v) {
        if Has(labels', dead', key, v) {
          var w := if v == d then last else v;
          var i :| 0 <= i < |tail| && tail[i] == w;
          assert tail'[i] == v;
        }
      }
    } else {
      assert last !in tail;
    }
  }

  /** Removing an element that is dead, or whose label is left out of the account, keeps the other entries right. */
  lemma MoveKeepsLookup(lookup: Lookup, labels: seq<Label>, dead: set<int>, except: set<Label>, d: int)
    requires 0 <= d < |labels| && LookupOk(lookup, labels, dead, except)
    requires d in dead || labels[d] in except
    ensures LookupOk(MovedLookup(lookup, labels, dead, d), LastMovedTo(labels, d),
                     RenamedKeys(dead - {d}, |labels| - 1, d), except)
  {
    var last := |labels| - 1;
    var after, labels', dead' := MovedLookup(lookup, labels, dead, d), LastMovedTo(labels, d), RenamedKeys(dead - {d}, last, d);
    forall key | key !in except ensures LabelOk(after, labels', dead', key) {
      assert LabelOk(lookup, labels, dead, key);
      if key in lookup {
        MoveKeepsTracks(lookup[key], 0, labels, dead, key, d);
      } else {
        forall v ensures !Has(labels', dead', key, v) {
          MovedMembers(labels, dead, d, key, v);
        }
      }
    }
  }

  /**
   * The step of the loop that deletes all elements of a label while the list it goes through is being
   * rewritten: with the list tracking the label from position i on, removing the element at i leaves it
   * tracking the label from position i + 1 on.
   */
  lemma DeleteStep(lookup: Lookup, labels: seq<Label>, dead: set<int>, key: Label, i: nat)
    requires key in lookup && i < |lookup[key]| && Tracks(lookup[key], i, labels, dead, key)
    ensures var d := lookup[key][i];
      && 0 <= d < |labels| && labels[d] == key && d !in dead
      && var after := MovedLookup(lookup, labels, dead, d);
      && key in after && |after[key]| == |lookup[key]| && after[key] == ListAfterMove(lookup[key], labels, dead, key, d)
      && Tracks(after[key], i + 1, LastMovedTo(labels, d), RenamedKeys(dead - {d}, |labels| - 1, d), key)
  {
    var ids := lookup[key];
    var d, tail := ids[i], ids[i..];
    assert tail[0] == d && d in tail && tail[1..] == ids[i + 1..];
    forall v ensures v in ids[i + 1..] <==> Has(labels, dead + {d}, key, v) {
      assert v in tail <==> v == d || v in tail[1..];
    }
    assert NoDup(ids[i + 1..]) by {
      assert forall j | 0 <= j < |tail[1..]| :: tail[1..][j] == tail[j + 1];
    }
    MoveKeepsTracks(ids, i + 1, labels, dead + {d}, key, d);
    assert dead + {d} - {d} == dead - {d};
  }

  /** What moving the last element to d does to the list of one label. */
  function ListAfterMove(ids: seq<int>, labels: seq<Label>, dead: set<int>, key: Label, d: int): seq<int> {
    var last := |labels| - 1;
    if last != d && Has(labels, dead, key, last) then ReplaceFromEnd(ids, last, d) else ids
  }

  // ----- Appending -----

  /** Puts a new id under its label. */
  function WithId(lookup: Lookup, key: Label, id: int): Lookup {
    lookup[key := (if key in lookup then lookup[key] else []) + [id]]
  }

  lemma AppendKeepsLookup(lookup: Lookup, labels: seq<Label>, dead: set<int>, key: Label)
    requires LookupOk(lookup, labels, dead, {}) && forall v | v in dead :: v < |labels|
    ensures LookupOk(WithId(lookup, key, |labels|), labels + [key], dead, {})
  {
    var id, after := |labels|, WithId(lookup, key, |labels|);
    forall l ensures LabelOk(after, labels + [key], dead, l) {
      assert LabelOk(lookup, labels, dead, l);
      forall v ensures Has(labels + [key], dead, l, v) <==> Has(labels, dead, l, v) || (v == id && l == key) {
      }
      if l == key {
        var ids := if l in lookup then lookup[l] else [];
        assert ids[0..] == ids && (ids + [id])[0..] == ids + [id];
        NoDupAppend(ids, id);
      }
    }
  }

  // ----- What is stored -----

  /** Element by element what is stored: nothing where the element is dead. */
  function Entries<B>(labels: seq<Label>, blobs: seq<B>, dead: set<int>): seq<Option<(Label, B)>>
    requires |labels| == |blobs|
  {
    seq(|labels|, i requires 0 <= i < |labels| => if i in dead then None else Some((labels[i], blobs[i])))
  }

  /** The vectors a client has in the store, with their labels. */
  ghost function Contents<B(!new)>(labels: seq<Label>, blobs: seq<B>, dead: set<int>): multiset<Option<(Label, B)>>
    requires |labels| == |blobs|
  {
    multiset(Entries(labels, blobs, dead))[None := 0]
  }

  lemma LastMovedCounts<T(!new)>(s: seq<T>, d: int)
    requires 0 <= d < |s|
    ensures multiset(LastMovedTo(s, d)) == multiset(s) - multiset{s[d]}
  {
    var last := |s| - 1;
    var t := s[d := s[last]];
    assert t == LastMovedTo(s, d) + [s[last]];
    assert multiset(t) == multiset(LastMovedTo(s, d)) + multiset{s[last]};
    assert multiset(t) == multiset(s) - multiset{s[d]} + multiset{s[last]};
    assert multiset(LastMovedTo(s, d)) == multiset(t) - multiset{s[last]};
    assert multiset(s) - multiset{s[d]} == multiset(t) - multiset{s[last]};
  }

  /** Moving the last element into the place of d takes away exactly what d stored. */
  lemma MoveCounts<B(!new)>(labels: seq<Label>, blobs: seq<B>, dead: set<int>, d: int)
    requires |labels| == |blobs| && 0 <= d < |labels|
    ensures Contents(LastMovedTo(labels, d), LastMovedTo(blobs, d), RenamedKeys(dead - {d}, |labels| - 1, d))
      == Contents(labels, blobs, dead) - (if d in dead then multiset{} else multiset{Some((labels[d], blobs[d]))})
  {
    var entries := Entries(labels, blobs, dead);
    LastMovedCounts(entries, d);
    assert Entries(LastMovedTo(labels, d), LastMovedTo(blobs, d), RenamedKeys(dead - {d}, |labels| - 1, d))
      == LastMovedTo(entries, d);
  }

  lemma AppendCounts<B(!new)>(labels: seq<Label>, blobs: seq<B>, dead: set<int>, key: Label, blob: B)
    requires |labels| == |blobs| && |labels| !in dead
    ensures Contents(labels + [key], blobs + [blob], dead) == Contents(labels, blobs, dead) + multiset{Some((key, blob))}
  {
    assert Entries(labels + [key], blobs + [blob], dead) == Entries(labels, blobs, dead) + [Some((key, blob))];
  }

  lemma SameLength<S, T>(a: seq<S>, b: seq<T>, id: int)
    requires 0 <= id < |a| == |b|
    ensures |LastMovedTo(a, id)| == |LastMovedTo(b, id)| == |a| - 1
  {
  }

  /** The books about labels follow a removal. */
  lemma MovedBooks(lookup: Lookup, labels: seq<Label>, dead: set<int>, except: set<Label>, id: int)
    requires 0 <= id < |labels| && LookupOk(lookup, labels, dead, except)
    requires id in dead || labels[id] in except
    ensures LookupOk(MovedLookup(lookup, labels, dead, id), LastMovedTo(labels, id),
                     RenamedKeys(dead - {id}, |labels| - 1, id), except)
    ensures MovedLookup(lookup, labels, dead, id).Keys == lookup.Keys
    ensures forall key | key in lookup :: |MovedLookup(lookup, labels, dead, id)[key]| == |lookup[key]|
    ensures |LastMovedTo(labels, id)| == |labels| - 1
    ensures |RenamedKeys(dead - {id}, |labels| - 1, id)| == |dead| - if id in dead then 1 else 0
  {
    RenamedSize(dead - {id}, |labels| - 1, id);
    MoveKeepsLookup(lookup, labels, dead, except, id);
  }

  predicate Of(e: Option<(Label, Blob)>, key: Label) {
    e.Some? && e.value.0 == key
  }

  /** A store with one vector for a label. */
  ghost predicate OnePerLabel(plain: Option<(Label, Blob)> -> nat) {
    && (forall e :: plain(e) <= 1)
    && forall key, e, x | Of(e, key) && Of(x, key) && plain(e) > 0 && plain(x) > 0 :: e == x
  }

  /** Without live elements of a label nothing is stored under it. */
  lemma NothingStored(labels: seq<Label>, blobs: seq<Blob>, dead: set<int>, key: Label)
    requires |labels| == |blobs| && NoneLeft(labels, dead, key)
    ensures forall e | Of(e, key) :: Contents(labels, blobs, dead)[e] == 0
  {
    forall e | Of(e, key) ensures Contents(labels, blobs, dead)[e] == 0 {
      var entries := Entries(labels, blobs, dead);
      forall i | 0 <= i < |entries| ensures entries[i] != e {
        assert !Has(labels, dead, key, i);
      }
    }
  }

  lemma EraseKeepsLookup(lookup: Lookup, labels: seq<Label>, dead: set<int>, key: Label)
    requires LookupOk(lookup, labels, dead, {key}) && NoneLeft(labels, dead, key)
    ensures LookupOk(lookup - {key}, labels, dead, {})
  {
    hide Tracks;
    forall k ensures LabelOk(lookup - {key}, labels, dead, k) {
      if k != key {
        assert LabelOk(lookup, labels, dead, k);
      }
    }
  }

  lemma EntriesStep(labels: seq<Label>, blobs: seq<Blob>, dead: set<int>)
    requires |labels| == |blobs| > 0
    ensures var n := |labels| - 1;
      multiset(Entries(labels, blobs, dead))
        == multiset(Entries(labels[..n], blobs[..n], dead)) + multiset{if n in dead then None else Some((labels[n], blobs[n]))}
  {
    var n := |labels| - 1;
    var last := if n in dead then None else Some((labels[n], blobs[n]));
    assert Entries(labels, blobs, dead) == Entries(labels[..n], blobs[..n], dead) + [last];
  }

  predicate OfAny(e: Option<(Label, Blob)>, drop: set<Label>) {
    e.Some? && e.value.0 in drop
  }

  lemma {:induction false} DropCounts(labels: seq<Label>, blobs: seq<Blob>, dead: set<int>, dead': set<int>, drop: set<Label>)
    requires |labels| == |blobs|
    requires forall i | 0 <= i < |labels| :: i in dead' <==> i in dead || labels[i] in drop
    ensures forall e :: Contents(labels, blobs, dead')[e] == if OfAny(e, drop) then 0 else Contents(labels, blobs, dead)[e]
  {
    if labels != [] {
      var n := |labels| - 1;
      DropCounts(labels[..n], blobs[..n], dead, dead', drop);
      EntriesStep(labels, blobs, dead);
      EntriesStep(labels, blobs, dead');
    }
  }

  /** Overwriting the lone vector of a label exchanges what is stored under it, and ends its mark. */
  lemma OverwriteCounts(labels: seq<Label>, blobs: seq<Blob>, dead: set<int>, dead': set<int>, id: int, key: Label, blob: Blob)
    requires |labels| == |blobs| && 0 <= id < |labels| && dead' == dead - {id}
    requires forall v :: Has(labels, {}, key, v) <==> v == id
    ensures forall e :: Contents(labels, blobs[id := blob], dead')[e]
              == if Of(e, key) then (if e == Some((key, blob)) then 1 else 0) else Contents(labels, blobs, dead)[e]
  {
    var none := dead + {id};
    assert Has(labels, {}, key, id);
    forall v ensures !Has(labels, none, key, v) {
      assert Has(labels, {}, key, v) <==> v == id;
    }
    NothingStored(labels, blobs, none, key);
    var entries, cleared := Entries(labels, blobs, dead), Entries(labels, blobs, none);
    var after := Entries(labels, blobs[id := blob], dead');
    assert after == cleared[id := Some((key, blob))];
    assert cleared == entries[id := None];
  }

  lemma StoredAt(labels: seq<Label>, blobs: seq<Blob>, dead: set<int>, i: nat)
    requires |labels| == |blobs| && i < |labels| && i !in dead
    ensures Contents(labels, blobs, dead)[Some((labels[i], blobs[i]))] > 0
  {
    assert Entries(labels, blobs, dead)[i] == Some((labels[i], blobs[i]));
  }
}

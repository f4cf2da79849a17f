/** Merging the results of the two tiers: sorted lists, an id possibly in both. */
module MergeResults {
  import opened Seqs
  import opened NeighborSelection
  import opened Heaps

  ghost predicate InEither(a: seq<Candidate>, b: seq<Candidate>, x: Candidate) {
    x in a || x in b
  }

  /** An entry of one of the lists; no entry with the same id has a lower key. */
  ghost predicate Lowest(a: seq<Candidate>, b: seq<Candidate>, x: Candidate) {
    InEither(a, b, x) && forall y | InEither(a, b, y) && y.id == x.id :: !Below(y, x)
  }

  /**
   * The outcome: sorted, each id once and at its lowest key, at most `limit`; whatever was left out
   * comes later, and anything is left out only if the limit was reached.
   */
  ghost predicate Merged(a: seq<Candidate>, b: seq<Candidate>, limit: nat, r: seq<Candidate>) {
    && HeapOk(r) && |r| <= limit
    && (forall x | x in r :: Lowest(a, b, x))
    && forall x | Lowest(a, b, x) && x !in r :: LeftOut(r, limit, x)
  }

  ghost predicate LeftOut(r: seq<Candidate>, limit: nat, x: Candidate) {
    |r| == limit && forall y | y in r :: Below(y, x)
  }

  /** Shared ids have equal scores. */
  ghost predicate Agree(a: seq<Candidate>, b: seq<Candidate>) {
    forall x, y | x in a && y in b && x.id == y.id :: x == y
  }

  // ----- Where the cursors stand -----

  /** The two cursors cut the common order at one place. */
  ghost predicate Cut(a: seq<Candidate>, b: seq<Candidate>, i: nat, j: nat) {
    && i <= |a| && j <= |b|
    && (forall k, m | 0 <= k < i && j <= m < |b| :: Below(a[k], b[m]))
    && forall k, m | i <= k < |a| && 0 <= m < j :: Below(b[m], a[k])
  }

  /** The id of x is in the result, at a key no higher than x's. */
  ghost predicate HasAtMost(r: seq<Candidate>, x: Candidate) {
    exists y :: y in r && y.id == x.id && !Below(x, y)
  }

  ghost predicate Taken(withSet: bool, a: seq<Candidate>, i: nat, r: seq<Candidate>)
    requires i <= |a|
  {
    forall k | 0 <= k < i :: if withSet then HasAtMost(r, a[k]) else a[k] in r
  }

  /** What the prefixes before the cursors have been merged into. */
  ghost predicate Progress(withSet: bool, a: seq<Candidate>, b: seq<Candidate>, i: nat, j: nat, r: seq<Candidate>) {
    && HeapOk(a) && HeapOk(b) && Cut(a, b, i, j)
    && (if withSet then HeapOk(r) else Sorted(r))
    && (forall x | x in r :: x in a[..i] || x in b[..j])
    && Taken(withSet, a, i, r) && Taken(withSet, b, j, r)
  }

  /** Stopped at the limit, right behind the last entry taken; or at the end of both lists. */
  ghost predicate StopsAt(a: seq<Candidate>, b: seq<Candidate>, i: nat, j: nat, limit: nat, r: seq<Candidate>)
    requires i <= |a| && j <= |b|
  {
    && |r| <= limit
    && (|r| == limit > 0 ==> LastTaken(a, i, Top(r)) || LastTaken(b, j, Top(r)))
    && (limit == 0 ==> i == j == 0)
  }

  ghost predicate LastTaken(a: seq<Candidate>, i: nat, x: Candidate)
    requires i <= |a|
  {
    i > 0 && a[i - 1] == x
  }

  /** The ids seen are ids of the result, and hold all of those that may still turn up. */
  ghost predicate Seen(a: seq<Candidate>, b: seq<Candidate>, i: nat, j: nat, r: seq<Candidate>, ids: set<int>)
    requires i <= |a| && j <= |b|
  {
    && (forall id | id in ids :: InHeap(r, id))
    && forall x | x in r && x.id !in ids :: !InHeap(a[i..], x.id) && !InHeap(b[j..], x.id)
  }

  /** The entry at the cursor of `a` is appended; that of `b` is passed too if it is the same. */
  lemma AppendNext(withSet: bool, a: seq<Candidate>, b: seq<Candidate>, i: nat, j: nat, both: bool, r: seq<Candidate>)
    requires Progress(withSet, a, b, i, j, r) && i < |a|
    requires if both then j < |b| && b[j] == a[i] else j < |b| ==> Below(a[i], b[j])
    requires withSet ==> !InHeap(r, a[i].id)
    ensures Progress(withSet, a, b, i + 1, if both then j + 1 else j, r + [a[i]])
  {
    hide Cut, Taken, Sorted, HasAtMost, InHeap;
    CutStep(a, b, i, j, both);
    PrefixIsBelow(withSet, a, b, i, j, r);
    SortedAppend(r, a[i], withSet);
    TakenNext(withSet, a, i, r);
    if both {
      TakenNext(withSet, b, j, r);
      FromPrefixes(a, b, i, j, j + 1, r);
    } else {
      TakenAppend(withSet, b, j, r, a[i]);
      FromPrefixes(a, b, i, j, j, r);
    }
  }

  lemma FromPrefixes(a: seq<Candidate>, b: seq<Candidate>, i: nat, j: nat, j': nat, r: seq<Candidate>)
    requires i < |a| && j <= j' <= |b| && forall x | x in r :: x in a[..i] || x in b[..j]
    ensures forall x | x in r + [a[i]] :: x in a[..i + 1] || x in b[..j']
  {
  }

  lemma PrefixIsBelow(withSet: bool, a: seq<Candidate>, b: seq<Candidate>, i: nat, j: nat, r: seq<Candidate>)
    requires Progress(withSet, a, b, i, j, r) && i < |a|
    ensures forall x | x in r :: Below(x, a[i])
  {
  }

  lemma CutStep(a: seq<Candidate>, b: seq<Candidate>, i: nat, j: nat, both: bool)
    requires Sorted(a) && Sorted(b) && Cut(a, b, i, j) && i < |a|
    requires if both then j < |b| && b[j] == a[i] else j < |b| ==> Below(a[i], b[j])
    ensures Cut(a, b, i + 1, if both then j + 1 else j)
  {
  }

  lemma SortedAppend(r: seq<Candidate>, x: Candidate, distinct: bool)
    requires Sorted(r) && (forall y | y in r :: Below(y, x))
    requires distinct ==> HeapOk(r) && !InHeap(r, x.id)
    ensures Sorted(r + [x]) && (distinct ==> HeapOk(r + [x]))
  {
  }

  lemma TakenAppend(withSet: bool, a: seq<Candidate>, i: nat, r: seq<Candidate>, x: Candidate)
    requires i <= |a| && Taken(withSet, a, i, r)
    ensures Taken(withSet, a, i, r + [x])
  {
  }

  lemma TakenNext(withSet: bool, a: seq<Candidate>, i: nat, r: seq<Candidate>)
    requires i < |a| && Taken(withSet, a, i, r)
    ensures Taken(withSet, a, i + 1, r + [a[i]])
  {
    TakenAppend(withSet, a, i, r, a[i]);
    assert HasAtMost(r + [a[i]], a[i]) by {
      assert a[i] in r + [a[i]];
    }
  }

  /** The id at the cursor of `a` is already in the result: it is passed. */
  lemma SkipNext(a: seq<Candidate>, b: seq<Candidate>, i: nat, j: nat, r: seq<Candidate>)
    requires Progress(true, a, b, i, j, r) && i < |a| && InHeap(r, a[i].id)
    requires j < |b| ==> Below(a[i], b[j])
    ensures Progress(true, a, b, i + 1, j, r)
  {
    var y :| y in r && y.id == a[i].id;
    assert Below(y, a[i]);
    assert HasAtMost(r, a[i]);
    assert a[..i + 1] == a[..i] + [a[i]];
  }

  lemma SeenDecides(a: seq<Candidate>, b: seq<Candidate>, i: nat, j: nat, r: seq<Candidate>, ids: set<int>)
    requires i < |a| && j <= |b| && Seen(a, b, i, j, r, ids)
    ensures a[i].id in ids <==> InHeap(r, a[i].id)
  {
  }

  lemma SeenStep(a: seq<Candidate>, b: seq<Candidate>, i: nat, j: nat, r: seq<Candidate>, ids: set<int>, append: bool)
    requires i < |a| && j <= |b| && Seen(a, b, i, j, r, ids) && (a[i].id in ids || append)
    ensures Seen(a, b, i + 1, j, if append then r + [a[i]] else r, ids + {a[i].id})
  {
  }

  /** An exact duplicate: its id is not in the result yet and cannot turn up again. */
  lemma SeenBoth(a: seq<Candidate>, b: seq<Candidate>, i: nat, j: nat, r: seq<Candidate>, ids: set<int>)
    requires Progress(true, a, b, i, j, r) && i < |a| && j < |b| && a[i] == b[j] && Seen(a, b, i, j, r, ids)
    ensures !InHeap(r, a[i].id) && Seen(a, b, i + 1, j + 1, r + [a[i]], ids)
  {
  }

  // ----- The merge -----

  /** Takes the entry at the cursor of `list` unless its id was taken before. */
  method MaybeAppend(withSet: bool, list: seq<Candidate>, cur: nat, ghost other: seq<Candidate>, ghost at: nat,
                     results: seq<Candidate>, ids: set<int>, limit: nat)
    returns (results': seq<Candidate>, ids': set<int>, limit': nat)
    requires Progress(withSet, list, other, cur, at, results) && cur < |list| && limit > 0
    requires at < |other| ==> Below(list[cur], other[at])
    requires withSet ==> Seen(list, other, cur, at, results, ids)
    ensures Progress(withSet, list, other, cur + 1, at, results')
    ensures withSet ==> Seen(list, other, cur + 1, at, results', ids')
    ensures limit' + |results'| == limit + |results|
    ensures limit' == 0 ==> |results'| > 0 && Top(results') == list[cur]
  {
    results', ids', limit' := results, ids, limit;
    if withSet {
      SeenDecides(list, other, cur, at, results, ids);
      SeenStep(list, other, cur, at, results, ids, list[cur].id !in ids);
      ids' := ids + {list[cur].id};
    }
    if !withSet || list[cur].id !in ids {
      AppendNext(withSet, list, other, cur, at, false, results);
      results', limit' := results + [list[cur]], limit - 1;
    } else {
      SkipNext(list, other, cur, at, results);
    }
  }

  method MergeResults(withSet: bool, first: seq<Candidate>, second: seq<Candidate>, limit: nat)
    returns (results: seq<Candidate>, i: nat, j: nat)
    requires HeapOk(first) && HeapOk(second)
    ensures Progress(withSet, first, second, i, j, results)
    ensures StopsAt(first, second, i, j, limit, results)
    ensures |results| < limit ==> i == |first| && j == |second|
    ensures withSet || Agree(first, second) ==> Merged(first, second, limit, results)
  {
    hide Progress, Seen, HeapOk, Merged, Agree, StopsAt, LastTaken;
    results, i, j := MergeLoop(withSet, first, second, limit);
    if withSet {
      WithSetIsMerged(first, second, i, j, limit, results);
    } else if Agree(first, second) {
      AgreeOnPrefixes(first, second, i, j, results);
      AgreementReplacesTheSet(first, second, i, j, results);
      WithSetIsMerged(first, second, i, j, limit, results);
    }
  }

  method MergeLoop(withSet: bool, first: seq<Candidate>, second: seq<Candidate>, limit: nat)
    returns (results: seq<Candidate>, i: nat, j: nat)
    requires HeapOk(first) && HeapOk(second)
    ensures Progress(withSet, first, second, i, j, results)
    ensures StopsAt(first, second, i, j, limit, results)
    ensures |results| < limit ==> i == |first| && j == |second|
  {
    hide Progress, Seen, HeapOk;
    results, i, j := [], 0, 0;
    var ids: set<int>, left := {}, limit;
    NothingMerged(withSet, first, second);
    while left > 0 && i < |first| && j < |second|
      invariant i <= |first| && j <= |second| && |results| + left == limit
      invariant Progress(withSet, first, second, i, j, results)
      invariant withSet ==> Seen(first, second, i, j, results, ids)
      invariant StopsAt(first, second, i, j, limit, results)
      decreases |first| + |second| - i - j
    {
      if Below(second[j], first[i]) {
        Turn(withSet, first, second, i, j, results, ids);
        results, ids, left := MaybeAppend(withSet, second, j, first, i, results, ids, left);
        j := j + 1;
        Turn(withSet, second, first, j, i, results, ids);
      } else if Below(first[i], second[j]) {
        results, ids, left := MaybeAppend(withSet, first, i, second, j, results, ids, left);
        i := i + 1;
      } else {
        if withSet {
          SeenBoth(first, second, i, j, results, ids);
        }
        AppendNext(withSet, first, second, i, j, true, results);
        results, i, j, left := results + [first[i]], i + 1, j + 1, left - 1;
      }
    }
    if left != 0 {
      if i == |first| {
        while left > 0 && j < |second|
          invariant j <= |second| && |results| + left == limit
          invariant Progress(withSet, first, second, i, j, results)
          invariant withSet ==> Seen(first, second, i, j, results, ids)
          invariant StopsAt(first, second, i, j, limit, results)
          decreases |first| + |second| - i - j
        {
          Turn(withSet, first, second, i, j, results, ids);
          results, ids, left := MaybeAppend(withSet, second, j, first, i, results, ids, left);
          j := j + 1;
          Turn(withSet, second, first, j, i, results, ids);
        }
      } else {
        while left > 0 && i < |first|
          invariant i <= |first| && |results| + left == limit
          invariant Progress(withSet, first, second, i, j, results)
          invariant withSet ==> Seen(first, second, i, j, results, ids)
          invariant StopsAt(first, second, i, j, limit, results)
          decreases |first| + |second| - i - j
        {
          results, ids, left := MaybeAppend(withSet, first, i, second, j, results, ids, left);
          i := i + 1;
        }
      }
    }
  }

  lemma AgreeOnPrefixes(a: seq<Candidate>, b: seq<Candidate>, i: nat, j: nat, r: seq<Candidate>)
    requires Progress(false, a, b, i, j, r) && Agree(a, b)
    ensures i <= |a| && j <= |b| && Agree(a[..i], b[..j])
  {
  }

  lemma NothingMerged(withSet: bool, a: seq<Candidate>, b: seq<Candidate>)
    requires HeapOk(a) && HeapOk(b)
    ensures Progress(withSet, a, b, 0, 0, []) && Seen(a, b, 0, 0, [], {})
  {
  }

  /** The two lists play the same part. */
  lemma Turn(withSet: bool, a: seq<Candidate>, b: seq<Candidate>, i: nat, j: nat, r: seq<Candidate>, ids: set<int>)
    requires Progress(withSet, a, b, i, j, r)
    ensures i <= |a| && j <= |b|
    ensures Progress(withSet, b, a, j, i, r)
    ensures withSet && Seen(a, b, i, j, r, ids) ==> Seen(b, a, j, i, r, ids)
  {
  }

  // ----- What the outcome is -----

  /** With the set, for all lists: the lowest entries of the union, in order, each id once. */
  lemma WithSetIsMerged(a: seq<Candidate>, b: seq<Candidate>, i: nat, j: nat, limit: nat, r: seq<Candidate>)
    requires Progress(true, a, b, i, j, r) && StopsAt(a, b, i, j, limit, r)
    requires |r| < limit ==> i == |a| && j == |b|
    ensures Merged(a, b, limit, r)
  {
    forall x | x in r ensures Lowest(a, b, x) {
      forall y | InEither(a, b, y) && y.id == x.id ensures !Below(y, x) {
        if y in a[..i] || y in b[..j] {
          assert HasAtMost(r, y);
        } else {
          Beyond(a, b, i, j, r, x, y);
        }
      }
    }
    forall x | Lowest(a, b, x) && x !in r ensures LeftOut(r, limit, x) {
      assert x in a[..i] || x in b[..j] ==> HasAtMost(r, x);
      assert !HasAtMost(r, x) by {
        assert forall y | y in r && y.id == x.id :: InEither(a, b, y) && y != x;
      }
      forall y | y in r ensures Below(y, x) {
        Beyond(a, b, i, j, r, y, x);
      }
    }
  }

  lemma Beyond(a: seq<Candidate>, b: seq<Candidate>, i: nat, j: nat, r: seq<Candidate>, y: Candidate, x: Candidate)
    requires HeapOk(a) && HeapOk(b) && Cut(a, b, i, j) && InEither(a, b, x) && x !in a[..i] && x !in b[..j]
    requires y in a[..i] || y in b[..j]
    ensures Below(y, x)
  {
  }

  /** Without the set the outcome is the same, provided that ids shared by what was used up have equal scores. */
  lemma AgreementReplacesTheSet(a: seq<Candidate>, b: seq<Candidate>, i: nat, j: nat, r: seq<Candidate>)
    requires Progress(false, a, b, i, j, r) && Agree(a[..i], b[..j])
    ensures Progress(true, a, b, i, j, r)
  {
  }

  /**
   * Wherever the merge stops, the outcome without the set has each id once if and only if the ids shared by
   * the entries used up have equal scores.
   */
  lemma UniqueOnlyIfAgree(a: seq<Candidate>, b: seq<Candidate>, i: nat, j: nat, r: seq<Candidate>)
    requires Progress(false, a, b, i, j, r)
    ensures HeapOk(r) <==> Agree(a[..i], b[..j])
  {
  }

  /** A case: one id at two scores comes out twice. */
  lemma TwoScoresRepeatTheId(i: nat, j: nat, r: seq<Candidate>)
    requires var a, b := [Candidate(0.0, 1)], [Candidate(1.0, 1)];
      Progress(false, a, b, i, j, r) && StopsAt(a, b, i, j, 2, r) && (|r| < 2 ==> i == |a| && j == |b|)
    ensures r == [Candidate(0.0, 1), Candidate(1.0, 1)] && !HeapOk(r)
  {
    var x, y := Candidate(0.0, 1), Candidate(1.0, 1);
    forall z | z in r ensures z == x || z == y {
      assert z in [x][..i] || z in [y][..j];
    }
    assert Below(x, y);
    assert (i == 1 ==> [x][0] in r) && (j == 1 ==> [y][0] in r);
    forall k | 0 <= k < |r| ensures r[k] in r {
    }
    forall k, m | 0 <= k < m < |r| ensures Below(r[k], r[m]) {
    }
    assert r[0] == x && r[1] == y;
  }

  /** The specification fixes the outcome. */
  lemma MergedIsUnique(a: seq<Candidate>, b: seq<Candidate>, limit: nat, r: seq<Candidate>, s: seq<Candidate>)
    requires Merged(a, b, limit, r) && Merged(a, b, limit, s)
    ensures r == s
  {
    MergedInside(a, b, limit, r, s);
    MergedInside(a, b, limit, s, r);
    InElems(r);
    InElems(s);
    SortedIsUnique(r, s);
  }

  lemma MergedInside(a: seq<Candidate>, b: seq<Candidate>, limit: nat, r: seq<Candidate>, s: seq<Candidate>)
    requires Merged(a, b, limit, r) && Merged(a, b, limit, s)
    ensures Elems(s) <= Elems(r)
  {
    SortedSize(r);
    SortedSize(s);
    InElems(r);
    InElems(s);
    assert forall y | y in r && y !in s :: LeftOut(s, limit, y);
    forall x | x in s ensures x in r {
      if x !in r {
        assert LeftOut(r, limit, x);
        if y :| y in r && y !in s {
          assert false;
        }
        SubsetCardinality(Elems(r), Elems(s));
        assert false;
      }
    }
  }

  lemma SortedSize(s: seq<Candidate>)
    requires Sorted(s)
    ensures |Elems(s)| == |s|
  {
    assert NoDup(s);
    NoDupSize(s);
  }

  lemma LastIsLargest(s: seq<Candidate>)
    requires Sorted(s) && s != []
    ensures Sorted(Pop(s)) && Top(s) in s && forall x | x in s :: x == Top(s) || Below(x, Top(s))
    ensures forall x :: x in Pop(s) <==> x in s && x != Top(s)
  {
  }

  lemma {:induction false} SortedIsUnique(r: seq<Candidate>, s: seq<Candidate>)
    requires Sorted(r) && Sorted(s) && forall x :: x in r <==> x in s
    ensures r == s
  {
    assert s != [] ==> s[0] in s;
    if r != [] {
      assert r[0] in s;
      LastIsLargest(r);
      LastIsLargest(s);
      SortedIsUnique(Pop(r), Pop(s));
      assert r == Pop(r) + [Top(r)] && s == Pop(s) + [Top(s)];
    }
  }
}

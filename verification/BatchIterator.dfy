/** The flat buffer's batch iterator: every label once, nearest batches first. */
module BatchIterators {
  import opened Seqs
  import opened LabelLookup
  import opened NeighborSelection
  import opened Heaps
  import opened MergeResults
  import opened FlatBuffers
  import opened TopK
  import opened ScoreSlots

  // ----- What batches are -----

  function Min(a: nat, b: nat): nat {
    if a < b then a else b
  }

  /** A batch: n of the entries left, or all of them; none of those that remain is closer. */
  ghost predicate Batch(left: set<Candidate>, n: nat, rep: seq<Candidate>, remaining: set<Candidate>) {
    && NoDup(rep) && |rep| == Min(n, |left|)
    && Elems(rep) <= left && remaining == left - Elems(rep)
    && forall x, y | x in rep && y in remaining :: x.dist <= y.dist
  }

  /** Batches one after another. */
  ghost predicate Batches(all: set<Candidate>, sizes: seq<nat>, reps: seq<seq<Candidate>>, remaining: set<Candidate>)
    decreases |reps|
  {
    && |sizes| == |reps|
    && if reps == [] then remaining == all
       else var m := |reps| - 1;
         exists left :: Batches(all, sizes[..m], reps[..m], left) && Batch(left, sizes[m], reps[m], remaining)
  }

  function Flat(reps: seq<seq<Candidate>>): seq<Candidate> {
    if reps == [] then [] else Flat(reps[..|reps| - 1]) + reps[|reps| - 1]
  }

  function Sum(sizes: seq<nat>): nat {
    if sizes == [] then 0 else Sum(sizes[..|sizes| - 1]) + sizes[|sizes| - 1]
  }

  /** Over any mix of batches: no entry twice, none lost, as many as asked for as long as there are. */
  lemma {:induction false} BatchesReturnEachOnce(all: set<Candidate>, sizes: seq<nat>, reps: seq<seq<Candidate>>,
                                                 remaining: set<Candidate>)
    requires Batches(all, sizes, reps, remaining)
    ensures NoDup(Flat(reps)) && Elems(Flat(reps)) <= all && remaining == all - Elems(Flat(reps))
    ensures |Flat(reps)| == Min(Sum(sizes), |all|)
    ensures |Flat(reps)| == |all| <==> remaining == {}
    decreases |reps|
  {
    hide Batch, NoDup, Elems;
    if reps == [] {
      NothingReturned();
    } else {
      hide Batches;
      var m := |reps| - 1;
      var left := LastBatch(all, sizes, reps, remaining);
      BatchesReturnEachOnce(all, sizes[..m], reps[..m], left);
      BatchAppends(all, Flat(reps[..m]), Sum(sizes[..m]), left, sizes[m], reps[m], remaining);
    }
    AllReturned(all, Flat(reps), remaining);
  }

  lemma NothingReturned()
    ensures var none: seq<Candidate> := []; NoDup(none) && Elems(none) == {}
  {
  }

  lemma AllReturned(all: set<Candidate>, got: seq<Candidate>, remaining: set<Candidate>)
    requires NoDup(got) && Elems(got) <= all && remaining == all - Elems(got)
    ensures |got| == |all| <==> remaining == {}
  {
    NoDupSize(got);
    SubsetCardinality(Elems(got), all);
    assert all == remaining + Elems(got) && |all| == |remaining| + |Elems(got)|;
  }

  lemma BatchAppends(all: set<Candidate>, got: seq<Candidate>, total: nat, left: set<Candidate>, n: nat, rep: seq<Candidate>,
                     remaining: set<Candidate>)
    requires NoDup(got) && Elems(got) <= all && left == all - Elems(got) && |got| == Min(total, |all|)
    requires Batch(left, n, rep, remaining)
    ensures NoDup(got + rep) && Elems(got + rep) <= all && remaining == all - Elems(got + rep)
    ensures |got + rep| == Min(total + n, |all|)
  {
    NoDupConcat(got, rep);
    NoDupSize(got);
    assert all == left + Elems(got);
    assert |all| == |left| + |Elems(got)|;
  }

  /** No later batch holds a closer entry than an earlier one. */
  lemma {:induction false} BatchesInOrder(all: set<Candidate>, sizes: seq<nat>, reps: seq<seq<Candidate>>,
                                          remaining: set<Candidate>, i: nat, x: Candidate)
    requires Batches(all, sizes, reps, remaining) && i < |reps| && x in reps[i]
    ensures forall y | y in remaining :: x.dist <= y.dist
    ensures forall j, y | i < j < |reps| && y in reps[j] :: x.dist <= y.dist
    decreases |reps|
  {
    hide Batches, Batch;
    var m := |reps| - 1;
    var left := LastBatch(all, sizes, reps, remaining);
    BatchParts(left, sizes[m], reps[m], remaining);
    if i < m {
      BatchesInOrder(all, sizes[..m], reps[..m], left, i, x);
      forall j, y | i < j < |reps| && y in reps[j] ensures x.dist <= y.dist {
        assert j < m ==> reps[..m][j] == reps[j];
      }
    }
  }

  lemma LastBatch(all: set<Candidate>, sizes: seq<nat>, reps: seq<seq<Candidate>>, remaining: set<Candidate>)
    returns (left: set<Candidate>)
    requires Batches(all, sizes, reps, remaining) && reps != []
    ensures |sizes| == |reps| && Batch(left, sizes[|reps| - 1], reps[|reps| - 1], remaining)
    ensures Batches(all, sizes[..|reps| - 1], reps[..|reps| - 1], left)
  {
    hide Batch;
    var m := |reps| - 1;
    left :| Batches(all, sizes[..m], reps[..m], left) && Batch(left, sizes[m], reps[m], remaining);
  }

  lemma BatchParts(left: set<Candidate>, n: nat, rep: seq<Candidate>, remaining: set<Candidate>)
    requires Batch(left, n, rep, remaining)
    ensures remaining <= left && (forall x | x in rep :: x in left)
    ensures forall x, y | x in rep && y in remaining :: x.dist <= y.dist
  {
    InElems(rep);
  }

  // ----- The order of a reply -----

  datatype Order = ByScore | ById | ByScoreThenId

  predicate Before(order: Order, a: Candidate, b: Candidate) {
    match order
    case ByScore => a.dist <= b.dist
    case ById => a.id <= b.id
    case ByScoreThenId => a.dist < b.dist || (a.dist == b.dist && a.id <= b.id)
  }

  ghost predicate InOrder(order: Order, s: seq<Candidate>) {
    forall i, j :: 0 <= i < j < |s| ==> Before(order, s[i], s[j])
  }

  /** The same entries; entries of equal rank may come in any order. */
  method Sort(order: Order, s: seq<Candidate>) returns (r: seq<Candidate>)
    requires NoDup(s)
    ensures NoDup(r) && |r| == |s| && Elems(r) == Elems(s) && InOrder(order, r)
  {
    r := [];
    for n := 0 to |s|
      invariant NoDup(r) && |r| == n && Elems(r) == Elems(s[..n]) && InOrder(order, r)
    {
      ElemsStep(s, n);
      r := InsertInOrder(order, r, s[n]);
    }
    assert s[..|s|] == s;
  }

  method InsertInOrder(order: Order, s: seq<Candidate>, c: Candidate) returns (r: seq<Candidate>)
    requires NoDup(s) && c !in Elems(s) && InOrder(order, s)
    ensures NoDup(r) && |r| == |s| + 1 && Elems(r) == Elems(s) + {c} && InOrder(order, r)
  {
    var n := |s|;
    while n > 0 && !Before(order, s[n - 1], c)
      invariant 0 <= n <= |s| && forall i | n <= i < |s| :: Before(order, c, s[i])
    {
      n := n - 1;
    }
    assert forall i | 0 <= i < n :: Before(order, s[i], c);
    r := s[..n] + [c] + s[n..];
    InsertedElems(s, n, c);
    InsertedInOrder(order, s, n, c);
  }

  lemma InsertedElems(s: seq<Candidate>, n: nat, c: Candidate)
    requires NoDup(s) && c !in Elems(s) && n <= |s|
    ensures NoDup(s[..n] + [c] + s[n..]) && Elems(s[..n] + [c] + s[n..]) == Elems(s) + {c}
  {
  }

  lemma NoDupSplit(a: seq<Candidate>, b: seq<Candidate>)
    requires NoDup(a + b)
    ensures NoDup(a) && NoDup(b) && Elems(a) !! Elems(b)
  {
    var s := a + b;
    forall i, j | 0 <= i < |a| && 0 <= j < |b| ensures a[i] != b[j] {
      assert s[i] == a[i] && s[|a| + j] == b[j];
    }
    forall i, j | 0 <= i < j < |b| ensures b[i] != b[j] {
      assert s[|a| + i] == b[i] && s[|a| + j] == b[j];
    }
    forall i, j | 0 <= i < j < |a| ensures a[i] != a[j] {
      assert s[i] == a[i] && s[j] == a[j];
    }
  }

  lemma InsertedInOrder(order: Order, s: seq<Candidate>, n: nat, c: Candidate)
    requires n <= |s| && InOrder(order, s)
    requires (forall i | 0 <= i < n :: Before(order, s[i], c)) && forall i | n <= i < |s| :: Before(order, c, s[i])
    ensures InOrder(order, s[..n] + [c] + s[n..])
  {
  }

  // ----- The scan for the n nearest -----

  /**
   * The queue after the entries before i: at most n of them, each with its slot; those left out are no
   * closer than any in the queue, and the queue is full if any are left out.
   */
  ghost predicate Scanned(scores: seq<Candidate>, start: nat, i: nat, n: nat, heap: seq<Candidate>, place: map<int, nat>)
    requires start <= i <= |scores|
  {
    && HeapOk(heap) && |heap| <= n && place.Keys == HeapIds(heap)
    && (forall c | c in heap :: InSlot(scores, start, i, place, c))
    && forall p | start <= p < i && scores[p] !in heap :: |heap| == n && NoneFarther(heap, scores[p].dist)
  }

  ghost predicate InSlot(scores: seq<Candidate>, start: nat, i: nat, place: map<int, nat>, c: Candidate)
    requires i <= |scores|
  {
    c.id in place && start <= place[c.id] < i && scores[place[c.id]] == c
  }

  ghost predicate NoneFarther(heap: seq<Candidate>, dist: real) {
    forall c | c in heap :: c.dist <= dist
  }

  lemma NewId(scores: seq<Candidate>, start: nat, i: nat, n: nat, heap: seq<Candidate>, place: map<int, nat>)
    requires start <= i < |scores| && Scanned(scores, start, i, n, heap, place) && Distinct(scores, start)
    ensures !InHeap(heap, scores[i].id)
  {
  }

  lemma ScanAppends(scores: seq<Candidate>, start: nat, i: nat, n: nat, heap: seq<Candidate>, place: map<int, nat>)
    requires start <= i < |scores| && Scanned(scores, start, i, n, heap, place) && Distinct(scores, start)
    requires |heap| < n
    ensures Scanned(scores, start, i + 1, n, Emplace(heap, scores[i]), place[scores[i].id := i])
  {
    hide HeapOk, Distinct, Emplace, NoneFarther;
    var x, heap', place' := scores[i], Emplace(heap, scores[i]), place[scores[i].id := i];
    NewId(scores, start, i, n, heap, place);
    EmplaceKeepsHeap(heap, x);
    KeysFollow(heap, x);
    forall c | c in heap' ensures InSlot(scores, start, i + 1, place', c) {
      if c != x {
        assert InSlot(scores, start, i, place, c) && InHeap(heap, c.id);
      }
    }
  }

  lemma KeysFollow(heap: seq<Candidate>, x: Candidate)
    ensures HeapIds(Emplace(heap, x)) == HeapIds(heap) + {x.id}
  {
    EmplaceMembers(heap, x);
    assert x in Emplace(heap, x);
    assert forall c | c in heap :: c in Emplace(heap, x);
  }

  /** The farthest entry of a full queue makes room for a closer one. */
  lemma ScanReplaces(scores: seq<Candidate>, start: nat, i: nat, n: nat, heap: seq<Candidate>, place: map<int, nat>)
    requires start <= i < |scores| && Scanned(scores, start, i, n, heap, place) && Distinct(scores, start)
    requires |heap| == n > 0 && scores[i].dist < Top(heap).dist
    ensures Scanned(scores, start, i + 1, n, Emplace(Pop(heap), scores[i]), (place - {Top(heap).id})[scores[i].id := i])
  {
    hide HeapOk, Distinct, Emplace;
    var x, top, rest := scores[i], Top(heap), Pop(heap);
    var heap', place' := Emplace(rest, x), (place - {top.id})[x.id := i];
    NewId(scores, start, i, n, heap, place);
    TopIsLargest(heap);
    assert !InHeap(rest, x.id);
    EmplaceKeepsHeap(rest, x);
    KeysFollow(rest, x);
    assert HeapIds(heap) == HeapIds(rest) + {top.id};
    assert top.id !in HeapIds(rest);
    forall c | c in heap' ensures InSlot(scores, start, i + 1, place', c) {
      if c != x {
        assert c in rest && InSlot(scores, start, i, place, c) && InHeap(heap, c.id);
      }
    }
    forall p | start <= p < i + 1 && scores[p] !in heap' ensures NoneFarther(heap', scores[p].dist) {
      assert top.dist <= scores[p].dist;
    }
  }

  lemma ScanPasses(scores: seq<Candidate>, start: nat, i: nat, n: nat, heap: seq<Candidate>, place: map<int, nat>)
    requires start <= i < |scores| && Scanned(scores, start, i, n, heap, place) && |heap| == n
    requires n > 0 ==> Top(heap).dist <= scores[i].dist
    ensures Scanned(scores, start, i + 1, n, heap, place)
  {
  }

  /** The queue at the end of the scan, and the slots refilled, make a batch. */
  lemma ScanMakesBatch(scores: seq<Candidate>, start: nat, n: nat, heap: seq<Candidate>, place: map<int, nat>,
                       scores': seq<Candidate>, next: nat)
    requires start <= |scores| && Scanned(scores, start, |scores|, n, heap, place) && Distinct(scores, start)
    requires next <= |scores'|
    requires forall c :: c in Rest(scores', next)
                    <==> exists p :: start <= p < |scores| && Stays(scores, place, p) && scores[p] == c
    ensures Batch(Rest(scores, start), n, heap, Rest(scores', next))
  {
    var left, remaining := Rest(scores, start), Rest(scores', next);
    InRest(scores, start);
    InElems(heap);
    NoDupSize(heap);
    forall c | c in heap ensures c in left {
      assert InSlot(scores, start, |scores|, place, c);
    }
    SubsetCardinality(Elems(heap), left);
    forall p | start <= p < |scores| ensures Stays(scores, place, p) <==> scores[p] !in heap {
      SlotOf(scores, start, n, heap, place, p);
    }
    forall c ensures c in remaining <==> c in left && c !in heap {
    }
    if |heap| < n {
      assert forall c | c in left :: c in heap;
      assert Elems(heap) == left;
    }
  }

  lemma SlotOf(scores: seq<Candidate>, start: nat, n: nat, heap: seq<Candidate>, place: map<int, nat>, p: nat)
    requires start <= p < |scores| && Scanned(scores, start, |scores|, n, heap, place) && Distinct(scores, start)
    ensures Stays(scores, place, p) <==> scores[p] !in heap
  {
  }

  // ----- Selection -----

  /** The entries from `start` on, in another order. */
  ghost predicate Rearranged(scores0: seq<Candidate>, scores: seq<Candidate>, start: nat) {
    && |scores| == |scores0| && start <= |scores| && Distinct(scores, start)
    && Rest(scores, start) == Rest(scores0, start)
  }

  lemma SwapRearranges(scores: seq<Candidate>, start: nat, i: nat, j: nat)
    requires start <= i < |scores| && start <= j < |scores| && Distinct(scores, start)
    ensures Rearranged(scores, scores[i := scores[j]][j := scores[i]], start)
  {
    var swapped := scores[i := scores[j]][j := scores[i]];
    InRest(scores, start);
    InRest(swapped, start);
    assert swapped[i] == scores[j] && swapped[j] == scores[i];
    forall c ensures c in Rest(scores, start) <==> c in Rest(swapped, start) {
      if p :| start <= p < |scores| && scores[p] == c {
        assert swapped[if p == i then j else if p == j then i else p] == c;
      }
      if p :| start <= p < |scores| && swapped[p] == c {
        assert scores[if p == i then j else if p == j then i else p] == c;
      }
    }
  }

  /** What the library's selection promises: the n smallest entries in front, in any order. */
  method NthElement(scores0: seq<Candidate>, start: nat, n: nat) returns (scores: seq<Candidate>)
    requires start + n <= |scores0| && Distinct(scores0, start)
    ensures Rearranged(scores0, scores, start)
    ensures forall i, j | start <= i < start + n <= j < |scores| :: Below(scores[i], scores[j])
  {
    scores := scores0;
    for m := start to start + n
      invariant Rearranged(scores0, scores, start)
      invariant forall i, j | start <= i < m <= j < |scores| :: Below(scores[i], scores[j])
    {
      var least := m;
      for k := m + 1 to |scores|
        invariant m <= least < k
        invariant forall i | m <= i < k :: scores[i] == scores[least] || Below(scores[least], scores[i])
      {
        if Below(scores[k], scores[least]) {
          least := k;
        } else {
          assert scores[k].id != scores[least].id;
        }
      }
      SwapRearranges(scores, start, m, least);
      assert forall i | m <= i < |scores| && i != least :: Below(scores[least], scores[i]);
      scores := scores[m := scores[least]][least := scores[m]];
    }
  }

  lemma SelectionMakesBatch(scores: seq<Candidate>, start: nat, n: nat, m: nat)
    requires start <= |scores| && Distinct(scores, start) && m == Min(n, |scores| - start)
    requires forall i, j | start <= i < start + m <= j < |scores| :: Below(scores[i], scores[j])
    ensures Batch(Rest(scores, start), n, scores[start..start + m], Rest(scores, start + m))
    ensures Distinct(scores, start + m)
  {
    hide NoDup, Elems, Distinct;
    var rep, rest := scores[start..start + m], scores[start + m..];
    RestSize(scores, start);
    RestNoDup(scores, start);
    assert scores[start..] == rep + rest;
    ElemsConcat(rep, rest);
    NoDupSplit(rep, rest);
    FrontIsNearer(rep, rest);
    InElems(rest);
    assert Rest(scores, start + m) == Rest(scores, start) - Elems(rep);
  }

  lemma RestNoDup(scores: seq<Candidate>, start: nat)
    requires start <= |scores| && Distinct(scores, start)
    ensures NoDup(scores[start..]) && forall m | start <= m <= |scores| :: Distinct(scores, m)
  {
  }

  lemma FrontIsNearer(rep: seq<Candidate>, rest: seq<Candidate>)
    requires forall i, j | 0 <= i < |rep| && 0 <= j < |rest| :: Below(rep[i], rest[j])
    ensures forall x, y | x in rep && y in rest :: x.dist <= y.dist
  {
  }

  /** The order of a batch does not matter. */
  lemma SameBatch(left: set<Candidate>, n: nat, rep: seq<Candidate>, rep': seq<Candidate>, remaining: set<Candidate>)
    requires Batch(left, n, rep, remaining) && NoDup(rep') && |rep'| == |rep| && Elems(rep') == Elems(rep)
    ensures Batch(left, n, rep', remaining)
  {
    InElems(rep);
    InElems(rep');
    assert forall x | x in rep' :: x in rep;
  }

  // ----- The iterator -----

  /** A score before any was seen: below all of them. */
  datatype Bound = Lowest | At(score: real)

  predicate Under(score: real, bound: Bound) {
    bound.At? && score < bound.score
  }

  /** The entries to return: each label of the index with its lowest score. */
  ghost predicate AllScored(labels: seq<Label>, dists: seq<real>, scores: seq<Candidate>)
    requires |labels| == |dists|
  {
    && Distinct(scores, 0)
    && (forall c | c in scores :: IsLowest(labels, dists, |labels|, c))
    && forall i | 0 <= i < |labels| :: InHeap(scores, labels[i])
  }

  class BatchIterator {
    const index: FlatBuffer
    const distance: Blob -> real
    var indexLabelCount: nat
    var scores: seq<Candidate>
    var scoresValidStartPos: nat
    var resultsCount: nat

    constructor (index: FlatBuffer, distance: Blob -> real)
      requires index.Valid()
      ensures Valid() && this.index == index && this.distance == distance && scores == []
      ensures indexLabelCount == LabelCount(index)
    {
      this.index, this.distance := index, distance;
      indexLabelCount, scores, scoresValidStartPos, resultsCount := LabelCount(index), [], 0, 0;
    }

    ghost predicate Valid()
      reads this
    {
      && scoresValidStartPos <= |scores| && Distinct(scores, scoresValidStartPos)
      && resultsCount == scoresValidStartPos
      && (scores != [] ==> indexLabelCount == |scores|)
    }

    /** The entries not returned yet. */
    ghost function Left(): set<Candidate>
      requires Valid()
      reads this
    {
      Rest(scores, scoresValidStartPos)
    }

    method HeapBasedSearch(n: nat) returns (rep: seq<Candidate>)
      requires Valid()
      modifies this`scores, this`scoresValidStartPos
      ensures |scores| == |old(scores)| && scoresValidStartPos == old(scoresValidStartPos) + |rep| <= |scores|
      ensures Distinct(scores, scoresValidStartPos) && Sorted(rep)
      ensures Batch(old(Left()), n, rep, Rest(scores, scoresValidStartPos))
    {
      var start := scoresValidStartPos;
      var heap, place := ScanScores(scores, start, n);
      ghost var scores0 := scores;
      rep := [];
      ghost var queue := heap;
      PlacedSlots(scores, start, n, heap, place);
      while heap != []
        invariant heap + rep == queue
        decreases |heap|
      {
        rep := [Top(heap)] + rep;
        heap := Pop(heap);
      }
      assert rep == queue;
      scores, scoresValidStartPos := SwapScores(scores, start, place, |rep|);
      ScanMakesBatch(scores0, start, n, rep, place, scores, scoresValidStartPos);
      StillDistinct(scores0, start, rep, scores, scoresValidStartPos);
    }

    method SelectBasedSearch(n: nat) returns (rep: seq<Candidate>)
      requires Valid()
      modifies this`scores, this`scoresValidStartPos
      ensures |scores| == |old(scores)| && scoresValidStartPos == old(scoresValidStartPos) + |rep| <= |scores|
      ensures Distinct(scores, scoresValidStartPos)
      ensures Batch(old(Left()), n, rep, Rest(scores, scoresValidStartPos))
    {
      hide Batch, Distinct;
      var start := scoresValidStartPos;
      var m := Min(n, |scores| - start);
      scores := NthElement(scores, start, m);
      SelectionMakesBatch(scores, start, n, m);
      rep := [];
      var i := start;
      while i < start + m
        invariant start <= i <= start + m && rep == scores[start..i]
      {
        rep := rep + [scores[i]];
        i := i + 1;
      }
      scoresValidStartPos := start + |rep|;
    }

    method SearchByHeuristics(n: nat, order: Order) returns (rep: seq<Candidate>)
      requires Valid() && scores != []
      modifies this`scores, this`scoresValidStartPos
      ensures |scores| == |old(scores)| && scoresValidStartPos == old(scoresValidStartPos) + |rep| <= |scores|
      ensures Distinct(scores, scoresValidStartPos)
      ensures Batch(old(Left()), n, rep, Rest(scores, scoresValidStartPos))
      ensures !order.ById? ==> InOrder(order, rep)
    {
      hide Batch, Distinct, Rest;
      if (indexLabelCount - resultsCount) / 1000 > n {
        rep := HeapBasedSearch(n);
        assert forall i, j | 0 <= i < j < |rep| :: Below(rep[i], rep[j]);
      } else {
        rep := SelectBasedSearch(n);
        if !order.ById? {
          rep := SortBatch(order, old(Left()), n, rep, Rest(scores, scoresValidStartPos));
        }
      }
    }

    /** The next batch; the index is read for the first one only. */
    method GetNextResults(n: nat, order: Order) returns (rep: seq<Candidate>)
      requires Valid() && index.Valid()
      modifies this
      ensures Valid() && InOrder(order, rep)
      ensures old(scores) != [] ==> Batch(old(Left()), n, rep, Left())
      ensures old(scores) == [] ==> exists all ::
        AllScored(index.labels, Scores(index.blobs, distance), all) && Batch(Elems(all), n, rep, Left())
    {
      if scores == [] {
        indexLabelCount, scores := CalculateScores(index, distance);
        assert scores[0..] == scores;
      }
      ghost var all, scoresValidStartPos0 := scores, scoresValidStartPos;
      if scores == [] {
        rep := [];
        assert Batch(Elems(all), n, rep, Left());
        return;
      }
      rep := SearchByHeuristics(n, order);
      resultsCount := resultsCount + |rep|;
      if order.ById? {
        rep := SortBatch(order, Elems(all[scoresValidStartPos0..]), n, rep, Left());
      }
      assert old(scores) == [] ==> Batch(Elems(all), n, rep, Left());
    }

    method IsDepleted() returns (depleted: bool)
      requires Valid()
      ensures scores != [] ==> (depleted <==> Left() == {})
      ensures scores == [] ==> (depleted <==> indexLabelCount == 0)
    {
      RestSize(scores, scoresValidStartPos);
      depleted := resultsCount == indexLabelCount;
    }

    method Reset()
      requires Valid()
      modifies this
      ensures Valid() && scores == [] && indexLabelCount == old(indexLabelCount)
    {
      scores, resultsCount, scoresValidStartPos := [], 0, 0;
    }
  }

  method SortBatch(order: Order, ghost left: set<Candidate>, ghost n: nat, rep: seq<Candidate>,
                   ghost remaining: set<Candidate>)
    returns (r: seq<Candidate>)
    requires Batch(left, n, rep, remaining)
    ensures Batch(left, n, r, remaining) && InOrder(order, r)
    ensures |r| == |rep|
  {
    r := Sort(order, rep);
    SameBatch(left, n, rep, r, remaining);
  }

  function LabelCount(index: FlatBuffer): nat
    reads index
  {
    if index.multi then |index.lookup| else |index.labels|
  }

  /** The n entries with the lowest scores, and the slot of each. */
  method ScanScores(scores: seq<Candidate>, start: nat, n: nat) returns (heap: seq<Candidate>, place: map<int, nat>)
    requires start <= |scores| && Distinct(scores, start)
    ensures Scanned(scores, start, |scores|, n, heap, place)
  {
    hide Scanned, Distinct;
    heap, place := [], map[];
    var upperBound := Lowest;
    NothingScanned(scores, start, n);
    for i := start to |scores|
      invariant Scanned(scores, start, i, n, heap, place) && |heap| <= n
      invariant upperBound == if heap == [] then Lowest else At(Top(heap).dist)
    {
      var score := scores[i];
      if |heap| >= n {
        if Under(score.dist, upperBound) {
          ScanReplaces(scores, start, i, n, heap, place);
          place := place - {Top(heap).id};
          heap := Pop(heap);
        } else {
          ScanPasses(scores, start, i, n, heap, place);
          continue;
        }
      } else {
        ScanAppends(scores, start, i, n, heap, place);
      }
      heap := Emplace(heap, score);
      place := place[score.id := i];
      upperBound := At(Top(heap).dist);
    }
  }

  lemma NothingScanned(scores: seq<Candidate>, start: nat, n: nat)
    requires start <= |scores|
    ensures Scanned(scores, start, start, n, [], map[])
  {
  }

  lemma PlacedSlots(scores: seq<Candidate>, start: nat, n: nat, heap: seq<Candidate>, place: map<int, nat>)
    requires start <= |scores| && Scanned(scores, start, |scores|, n, heap, place)
    ensures Placed(scores, start, place) && |place| == |heap| && Sorted(heap)
  {
    HeapSize(heap);
    assert |place| == |place.Keys|;
    forall key | key in place ensures start <= place[key] < |scores| && scores[place[key]].id == key {
      var c :| c in heap && c.id == key;
      assert InSlot(scores, start, |scores|, place, c);
    }
  }

  lemma StillDistinct(scores: seq<Candidate>, start: nat, rep: seq<Candidate>, scores': seq<Candidate>, next: nat)
    requires start <= |scores| == |scores'| && Distinct(scores, start) && next == start + |rep| <= |scores'|
    requires NoDup(rep) && Elems(rep) <= Rest(scores, start) && Rest(scores', next) == Rest(scores, start) - Elems(rep)
    ensures Distinct(scores', next)
  {
    RestSize(scores, start);
    NoDupSize(rep);
    SizeOfDifference(Rest(scores, start), Elems(rep));
    OneOfEachLabel(scores, start, scores'[next..]);
    TailIsDistinct(scores', next);
  }

  lemma SizeOfDifference(a: set<Candidate>, b: set<Candidate>)
    requires b <= a
    ensures |a - b| == |a| - |b|
  {
  }

  /** As many distinct entries as slots, all from a part where a label occurs once. */
  lemma OneOfEachLabel(scores: seq<Candidate>, start: nat, s: seq<Candidate>)
    requires start <= |scores| && Distinct(scores, start) && Elems(s) <= Rest(scores, start) && |Elems(s)| == |s|
    ensures Distinct(s, 0)
  {
    InRest(scores, start);
    forall a, b | a in s && b in s && a.id == b.id ensures a == b {
      assert a in Elems(s) && b in Elems(s);
    }
    AllDistinct(s);
  }

  lemma TailIsDistinct(scores: seq<Candidate>, next: nat)
    requires next <= |scores| && Distinct(scores[next..], 0)
    ensures Distinct(scores, next)
  {
    var s := scores[next..];
    forall i, j | next <= i < j < |scores| ensures scores[i].id != scores[j].id {
      assert s[i - next] == scores[i] && s[j - next] == scores[j];
    }
  }

  // ----- Scores of all labels -----

  /** The lowest score of each label among the first n vectors. */
  ghost predicate LowestScores(labels: seq<Label>, dists: seq<real>, n: nat, lowest: map<Label, real>)
    requires n <= |labels| == |dists|
  {
    && (forall key | key in lowest :: IsLowest(labels, dists, n, Candidate(lowest[key], key)))
    && forall i | 0 <= i < n :: labels[i] in lowest
  }

  lemma LowestScoresStep(labels: seq<Label>, dists: seq<real>, n: nat, lowest: map<Label, real>)
    requires n < |labels| == |dists| && LowestScores(labels, dists, n, lowest)
    ensures var key, score := labels[n], dists[n];
      LowestScores(labels, dists, n + 1, if key in lowest && lowest[key] <= score then lowest else lowest[key := score])
  {
  }

  method CalculateScores(index: FlatBuffer, distance: Blob -> real) returns (count: nat, scores: seq<Candidate>)
    requires index.Valid()
    ensures AllScored(index.labels, Scores(index.blobs, distance), scores) && count == |scores|
    ensures count == LabelCount(index)
  {
    count := LabelCount(index);
    if index.multi {
      scores := ScoresOfLabels(index, distance);
    } else {
      scores := ScoresOfVectors(index, distance);
    }
  }

  /** Many vectors for a label: the lowest scores are collected first; their order is that of a hash table. */
  method ScoresOfLabels(index: FlatBuffer, distance: Blob -> real) returns (scores: seq<Candidate>)
    requires index.Valid()
    ensures AllScored(index.labels, Scores(index.blobs, distance), scores) && |scores| == |index.lookup|
  {
    hide IsLowest;
    ghost var dists := Scores(index.blobs, distance);
    var lowest: map<Label, real> := map[];
    for n := 0 to |index.labels|
      invariant LowestScores(index.labels, dists, n, lowest)
    {
      LowestScoresStep(index.labels, dists, n, lowest);
      var key, score := index.labels[n], distance(index.blobs[n]);
      if key !in lowest || lowest[key] > score {
        lowest := lowest[key := score];
      }
    }
    LabelsAreKeys(index, lowest.Keys, dists, lowest);
    scores := [];
    var keys := lowest.Keys;
    while keys != {}
      invariant keys <= lowest.Keys && |scores| + |keys| == |lowest|
      invariant Distinct(scores, 0)
      invariant forall c | c in scores :: c.id in lowest && c.id !in keys && c.dist == lowest[c.id]
      invariant forall key | key in lowest && key !in keys :: Candidate(lowest[key], key) in scores
      decreases |keys|
    {
      var key := SomeKey(keys);
      assert forall i | 0 <= i < |scores| :: scores[i] in scores;
      scores := scores + [Candidate(lowest[key], key)];
      keys := keys - {key};
    }
  }

  lemma LabelsAreKeys(index: FlatBuffer, keys: set<Label>, dists: seq<real>, lowest: map<Label, real>)
    requires index.Valid() && |dists| == |index.labels| && LowestScores(index.labels, dists, |index.labels|, lowest)
    ensures lowest.Keys == index.lookup.Keys && |lowest| == |index.lookup|
  {
    forall key ensures key in lowest <==> key in index.lookup {
      assert LabelOk(index.lookup, index.labels, {}, key);
      if key in lowest {
        var i :| 0 <= i < |index.labels| && index.labels[i] == key;
        assert Has(index.labels, {}, key, i);
      }
      if key in index.lookup {
        var id := index.lookup[key][0];
        assert index.lookup[key][0..][0] == id && Has(index.labels, {}, key, id);
      }
    }
    assert |lowest| == |lowest.Keys| && |index.lookup| == |index.lookup.Keys|;
  }

  /** One vector for a label. */
  method ScoresOfVectors(index: FlatBuffer, distance: Blob -> real) returns (scores: seq<Candidate>)
    requires index.Valid() && !index.multi
    ensures AllScored(index.labels, Scores(index.blobs, distance), scores) && |scores| == |index.labels|
  {
    scores := [];
    for n := 0 to |index.labels|
      invariant |scores| == n
      invariant forall i | 0 <= i < n :: scores[i] == Candidate(distance(index.blobs[i]), index.labels[i])
    {
      scores := scores + [Candidate(distance(index.blobs[n]), index.labels[n])];
    }
    forall i, j | 0 <= i < j < |index.labels| ensures index.labels[i] != index.labels[j] {
      index.IdIsKnown(i);
      index.IdIsKnown(j);
      if index.labels[i] == index.labels[j] {
        index.LoneId(index.labels[i]);
      }
    }
    forall i | 0 <= i < |index.labels| ensures InHeap(scores, index.labels[i]) {
      assert scores[i] in scores;
    }
  }
}

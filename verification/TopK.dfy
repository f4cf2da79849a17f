/** The k nearest labels of the flat buffer, whether a label has one vector or many. */
module TopK {
  import opened Seqs
  import opened LabelLookup
  import opened NeighborSelection
  import opened Heaps
  import opened MergeResults
  import opened FlatBuffers

  /** What a queue holds: the entry of each label. */
  type Scored = map<Label, Candidate>

  /** The entry with the highest score; ties go to the larger label. */
  ghost predicate IsTop(heap: Scored, c: Candidate) {
    && c.id in heap && heap[c.id] == c
    && forall key | key in heap :: heap[key] == c || Below(heap[key], c)
  }

  /** A queue after a score came in: a label keeps its lowest one. */
  function Lowered(heap: Scored, c: Candidate): Scored {
    if c.id in heap && heap[c.id].dist <= c.dist then heap else heap[c.id := c]
  }

  /** A queue in which the score of a label can be lowered, as two linked containers. */
  class UpdatableMaxHeap {
    /** By decreasing score; equal scores in the order of their coming. */
    var priorityToValue: seq<Candidate>
    var valueToNode: Scored

    constructor ()
      ensures Valid() && valueToNode == map[]
    {
      priorityToValue, valueToNode := [], map[];
    }

    ghost predicate Valid()
      reads this
    {
      && Decreasing(priorityToValue)
      && NoDup(priorityToValue)
      && (forall c :: c in priorityToValue <==> c.id in valueToNode && valueToNode[c.id] == c)
      && forall key | key in valueToNode :: valueToNode[key].id == key
    }

    predicate Empty()
      requires Valid()
      reads this
      ensures Empty() <==> valueToNode == map[]
    {
      |valueToNode| == 0
    }

    /** Inserts a label, or lowers its score. */
    method Emplace(p: real, v: Label)
      requires Valid()
      modifies this
      ensures Valid() && valueToNode == Lowered(old(valueToNode), Candidate(p, v))
    {
      var c := Candidate(p, v);
      if v !in valueToNode {
        Insert(c);
        valueToNode := valueToNode[v := c];
      } else if valueToNode[v].dist > p {
        Erase(valueToNode[v]);
        Insert(c);
        valueToNode := valueToNode[v := c];
      }
    }

    /** Behind the entries with the same score. */
    method Insert(c: Candidate)
      requires c !in priorityToValue && NoDup(priorityToValue)
      requires Decreasing(priorityToValue)
      modifies this`priorityToValue
      ensures NoDup(priorityToValue)
      ensures Decreasing(priorityToValue)
      ensures forall x :: x in priorityToValue <==> x in old(priorityToValue) || x == c
    {
      var n := 0;
      while n < |priorityToValue| && priorityToValue[n].dist >= c.dist
        invariant n <= |priorityToValue|
        invariant forall i | 0 <= i < n :: priorityToValue[i].dist >= c.dist
      {
        n := n + 1;
      }
      InsertedBehind(priorityToValue, n, c);
      priorityToValue := priorityToValue[..n] + [c] + priorityToValue[n..];
    }

    method Erase(c: Candidate)
      requires c in priorityToValue && NoDup(priorityToValue)
      requires Decreasing(priorityToValue)
      modifies this`priorityToValue
      ensures NoDup(priorityToValue)
      ensures Decreasing(priorityToValue)
      ensures forall x :: x in priorityToValue <==> x in old(priorityToValue) && x != c
    {
      var n := IndexOf(priorityToValue, c);
      ErasedAt(priorityToValue, n);
      priorityToValue := priorityToValue[..n] + priorityToValue[n + 1..];
    }

    /** Among the entries with the highest score, the one with the largest label. */
    method TopPtr() returns (c: Candidate)
      requires Valid() && valueToNode != map[]
      ensures IsTop(valueToNode, c)
    {
      HasKey(valueToNode);
      assert forall key | key in valueToNode :: valueToNode[key] in priorityToValue;
      c := priorityToValue[0];
      assert c in priorityToValue;
      var n := 1;
      while n < |priorityToValue| && priorityToValue[n].dist == c.dist
        invariant 1 <= n <= |priorityToValue|
        invariant c in priorityToValue && c.dist == priorityToValue[0].dist
        invariant forall i | 0 <= i < n :: priorityToValue[i] == c || Below(priorityToValue[i], c)
      {
        if priorityToValue[n].id > c.id {
          c := priorityToValue[n];
        }
        n := n + 1;
      }
    }

    method Pop() returns (c: Candidate)
      requires Valid() && valueToNode != map[]
      modifies this
      ensures Valid() && IsTop(old(valueToNode), c) && valueToNode == old(valueToNode) - {c.id}
    {
      c := TopPtr();
      valueToNode := valueToNode - {c.id};
      Erase(c);
    }
  }

  /** A plain queue against what it holds. */
  ghost predicate PlainOk(plain: seq<Candidate>, held: Scored) {
    && HeapOk(plain) && |plain| == |held| && (forall key | key in held :: held[key].id == key)
    && forall c :: c in plain <==> c.id in held && held[c.id] == c
  }

  lemma PlainEmplaced(plain: seq<Candidate>, held: Scored, c: Candidate)
    requires PlainOk(plain, held) && c.id !in held
    ensures PlainOk(Emplace(plain, c), Lowered(held, c))
  {
    assert !InHeap(plain, c.id);
    EmplaceKeepsHeap(plain, c);
  }

  lemma PlainTop(plain: seq<Candidate>, held: Scored)
    requires PlainOk(plain, held) && held != map[]
    ensures plain != [] && IsTop(held, Top(plain)) && PlainOk(Pop(plain), held - {Top(plain).id})
  {
    HasKey(held);
    var c := Top(plain);
    TopIsLargest(plain);
    assert c in plain;
    assert (held - {c.id}).Keys == held.Keys - {c.id};
    forall key | key in held ensures held[key] == c || Below(held[key], c) {
      assert held[key] in plain;
    }
  }

  /** The queue of a query: a plain one when labels have one vector each, and one with updates otherwise. */
  class TopCandidates {
    const multi: bool
    const updatable: UpdatableMaxHeap
    var plain: seq<Candidate>
    ghost var held: Scored

    constructor (multi: bool)
      ensures Valid() && this.multi == multi && held == map[] && fresh(updatable)
    {
      this.multi, plain, held := multi, [], map[];
      updatable := new UpdatableMaxHeap();
    }

    ghost predicate Valid()
      reads this, updatable
    {
      if multi then updatable.Valid() && held == updatable.valueToNode else PlainOk(plain, held)
    }

    function Size(): (n: nat)
      requires Valid()
      reads this, updatable
      ensures n == |held|
    {
      if multi then |updatable.valueToNode| else |plain|
    }

    lemma KeptUnderIds()
      requires Valid()
      ensures forall key | key in held :: held[key].id == key
    {
    }

    method Emplace(p: real, v: Label)
      requires Valid() && (!multi ==> v !in held)
      modifies this, updatable
      ensures Valid() && held == Lowered(old(held), Candidate(p, v))
    {
      hide UpdatableMaxHeap.Valid, PlainOk, Lowered;
      if multi {
        updatable.Emplace(p, v);
      } else {
        PlainEmplaced(plain, held, Candidate(p, v));
        plain := Heaps.Emplace(plain, Candidate(p, v));
      }
      held := Lowered(held, Candidate(p, v));
    }

    method Top() returns (c: Candidate)
      requires Valid() && held != map[]
      ensures IsTop(held, c)
    {
      hide UpdatableMaxHeap.Valid, PlainOk, IsTop;
      if multi {
        c := updatable.TopPtr();
      } else {
        PlainTop(plain, held);
        c := Heaps.Top(plain);
      }
    }

    method Pop() returns (c: Candidate)
      requires Valid() && held != map[]
      modifies this, updatable
      ensures Valid() && IsTop(old(held), c) && held == old(held) - {c.id}
    {
      hide UpdatableMaxHeap.Valid, PlainOk, IsTop;
      if multi {
        c := updatable.Pop();
      } else {
        PlainTop(plain, held);
        c := Heaps.Top(plain);
        plain := Heaps.Pop(plain);
      }
      held := held - {c.id};
    }
  }

  lemma HasKey(heap: Scored)
    requires heap != map[]
    ensures exists key :: key in heap
  {
    assert (forall key :: key !in heap) ==> heap == map[];
  }

  ghost predicate Decreasing(s: seq<Candidate>) {
    forall i, j :: 0 <= i <= j < |s| ==> s[i].dist >= s[j].dist
  }

  lemma InsertedBehind(s: seq<Candidate>, n: nat, c: Candidate)
    requires n <= |s| && Decreasing(s) && NoDup(s) && c !in s
    requires (forall i | 0 <= i < n :: s[i].dist >= c.dist) && (n < |s| ==> s[n].dist < c.dist)
    ensures var r := s[..n] + [c] + s[n..];
      Decreasing(r) && NoDup(r) && forall x :: x in r <==> x in s || x == c
  {
    InsertedOrder(s, n, c);
    InsertedOnce(s, n, c);
    assert s == s[..n] + s[n..];
  }

  lemma InsertedOrder(s: seq<Candidate>, n: nat, c: Candidate)
    requires n <= |s| && Decreasing(s)
    requires (forall i | 0 <= i < n :: s[i].dist >= c.dist) && (n < |s| ==> s[n].dist < c.dist)
    ensures Decreasing(s[..n] + [c] + s[n..])
  {
    var r := s[..n] + [c] + s[n..];
    assert forall i | 0 <= i < |r| :: r[i] == (if i < n then s[i] else if i == n then c else s[i - 1]);
    forall i | n <= i < |s| ensures s[i].dist < c.dist {
      assert s[n].dist >= s[i].dist;
    }
  }

  lemma InsertedOnce(s: seq<Candidate>, n: nat, c: Candidate)
    requires n <= |s| && NoDup(s) && c !in s
    ensures NoDup(s[..n] + [c] + s[n..])
  {
    var r := s[..n] + [c] + s[n..];
    assert forall i | 0 <= i < |s| :: s[i] in s;
    assert forall i | 0 <= i < |r| :: r[i] == (if i < n then s[i] else if i == n then c else s[i - 1]);
  }

  lemma ErasedAt(s: seq<Candidate>, n: nat)
    requires n < |s| && Decreasing(s) && NoDup(s)
    ensures var r := s[..n] + s[n + 1..];
      Decreasing(r) && NoDup(r) && forall x :: x in r <==> x in s && x != s[n]
  {
    var r := s[..n] + s[n + 1..];
    assert s == s[..n] + [s[n]] + s[n + 1..];
    forall i | 0 <= i < |r| ensures r[i] == (if i < n then s[i] else s[i + 1]) {
    }
  }

  // ----- The specification -----

  /** The distances of the stored vectors from the query. */
  ghost function Scores(blobs: seq<Blob>, distance: Blob -> real): (r: seq<real>)
    ensures |r| == |blobs| && forall i | 0 <= i < |blobs| :: r[i] == distance(blobs[i])
  {
    seq(|blobs|, i requires 0 <= i < |blobs| => distance(blobs[i]))
  }

  /** The lowest score of the label among the first n vectors. */
  ghost predicate IsLowest(labels: seq<Label>, scores: seq<real>, n: nat, c: Candidate)
    requires n <= |labels| == |scores|
  {
    && (exists i :: 0 <= i < n && labels[i] == c.id && scores[i] == c.dist)
    && forall i | 0 <= i < n && labels[i] == c.id :: c.dist <= scores[i]
  }

  ghost predicate NoneAbove(heap: Scored, score: real) {
    forall key | key in heap :: heap[key].dist <= score
  }

  /** The queue after n vectors: true lowest scores, and nothing closer was left out. */
  ghost predicate Best(labels: seq<Label>, scores: seq<real>, n: nat, k: nat, heap: Scored)
    requires n <= |labels| == |scores|
  {
    && |heap| <= k
    && (forall key | key in heap :: heap[key].id == key && IsLowest(labels, scores, n, heap[key]))
    && forall i | 0 <= i < n && labels[i] !in heap :: |heap| == k && NoneAbove(heap, scores[i])
  }

  /** At most k labels with their lowest scores, in order; if any label was left out, there are k and none is farther. */
  ghost predicate Nearest(labels: seq<Label>, scores: seq<real>, k: nat, r: seq<Candidate>)
    requires |labels| == |scores|
  {
    && HeapOk(r) && |r| <= k
    && (forall c | c in r :: IsLowest(labels, scores, |labels|, c))
    && forall i | 0 <= i < |labels| && !InHeap(r, labels[i]) :: |r| == k && forall c | c in r :: c.dist <= scores[i]
  }

  /** All labels, or k of them. */
  lemma NearestSize(labels: seq<Label>, scores: seq<real>, k: nat, r: seq<Candidate>)
    requires |labels| == |scores| && Nearest(labels, scores, k, r)
    ensures |r| == if |Elems(labels)| < k then |Elems(labels)| else k
  {
    HeapSize(r);
    forall key | key in HeapIds(r) ensures key in Elems(labels) {
      var c :| c in r && c.id == key;
      assert IsLowest(labels, scores, |labels|, c);
    }
    SubsetCardinality(HeapIds(r), Elems(labels));
    if key :| key in Elems(labels) && key !in HeapIds(r) {
      var i :| 0 <= i < |labels| && labels[i] == key;
      assert !InHeap(r, labels[i]);
    } else {
      assert HeapIds(r) == Elems(labels);
    }
  }

  // ----- The query -----

  /** A score that is not below the worst of k is passed over: even if the label is in the queue. */
  lemma PassedOver(labels: seq<Label>, scores: seq<real>, n: nat, k: nat, heap: Scored)
    requires n < |labels| == |scores| && Best(labels, scores, n, k, heap)
    requires |heap| == k && NoneAbove(heap, scores[n])
    ensures Best(labels, scores, n + 1, k, heap)
  {
  }

  /** A label that was evicted or never in comes in with its lowest score so far. */
  lemma EntersLowest(labels: seq<Label>, scores: seq<real>, n: nat, k: nat, heap: Scored, worst: Candidate)
    requires n < |labels| == |scores| && Best(labels, scores, n, k, heap) && labels[n] !in heap
    requires |heap| < k || (IsTop(heap, worst) && scores[n] < worst.dist)
    ensures IsLowest(labels, scores, n + 1, Candidate(scores[n], labels[n]))
  {
  }

  lemma LoweredKeys(heap: Scored, c: Candidate)
    ensures Lowered(heap, c).Keys == heap.Keys + {c.id}
    ensures |Lowered(heap, c)| == |heap| + (if c.id in heap then 0 else 1)
  {
  }

  /** What the queue holds once the score came in, before an overflow is popped. */
  lemma Entered(labels: seq<Label>, scores: seq<real>, n: nat, k: nat, heap: Scored, worst: Candidate, key: Label)
    requires n < |labels| == |scores| && Best(labels, scores, n, k, heap)
    requires |heap| < k || (IsTop(heap, worst) && scores[n] < worst.dist)
    requires key in Lowered(heap, Candidate(scores[n], labels[n]))
    ensures var next := Lowered(heap, Candidate(scores[n], labels[n]));
      next[key].id == key && IsLowest(labels, scores, n + 1, next[key])
  {
  }

  /** No label that stays out is closer than any that is in. */
  lemma StaysOut(labels: seq<Label>, scores: seq<real>, n: nat, k: nat, heap: Scored, worst: Candidate, i: nat)
    requires n < |labels| == |scores| && Best(labels, scores, n, k, heap) && i <= n
    requires |heap| < k || (IsTop(heap, worst) && scores[n] < worst.dist)
    requires labels[i] !in Lowered(heap, Candidate(scores[n], labels[n]))
    ensures |heap| == k && NoneAbove(Lowered(heap, Candidate(scores[n], labels[n])), scores[i])
  {
  }

  lemma EnteredIsBest(labels: seq<Label>, scores: seq<real>, n: nat, k: nat, heap: Scored, worst: Candidate)
    requires n < |labels| == |scores| && Best(labels, scores, n, k, heap)
    requires |heap| < k || (IsTop(heap, worst) && scores[n] < worst.dist)
    requires |Lowered(heap, Candidate(scores[n], labels[n]))| <= k
    ensures Best(labels, scores, n + 1, k, Lowered(heap, Candidate(scores[n], labels[n])))
  {
    hide IsLowest, IsTop, NoneAbove;
    var next := Lowered(heap, Candidate(scores[n], labels[n]));
    LoweredKeys(heap, Candidate(scores[n], labels[n]));
    forall key | key in next ensures next[key].id == key && IsLowest(labels, scores, n + 1, next[key]) {
      Entered(labels, scores, n, k, heap, worst, key);
    }
    forall i | 0 <= i < n + 1 && labels[i] !in next ensures |next| == k && NoneAbove(next, scores[i]) {
      StaysOut(labels, scores, n, k, heap, worst, i);
    }
  }

  /** The queue overflows: the label popped is no closer than those that stay. */
  lemma PoppedIsBest(labels: seq<Label>, scores: seq<real>, n: nat, k: nat, heap: Scored, worst: Candidate, top: Candidate)
    requires n < |labels| == |scores| && k > 0 && Best(labels, scores, n, k, heap)
    requires |heap| < k || (IsTop(heap, worst) && scores[n] < worst.dist)
    requires var next := Lowered(heap, Candidate(scores[n], labels[n])); |next| > k && IsTop(next, top)
    ensures Best(labels, scores, n + 1, k, Lowered(heap, Candidate(scores[n], labels[n])) - {top.id})
  {
    hide Best, IsLowest, NoneAbove, IsTop, Lowered;
    var next := Lowered(heap, Candidate(scores[n], labels[n]));
    forall key | key in next ensures next[key].id == key && IsLowest(labels, scores, n + 1, next[key]) {
      Entered(labels, scores, n, k, heap, worst, key);
    }
    forall i | 0 <= i < n + 1 && labels[i] !in next ensures NoneAbove(next, scores[i]) {
      StaysOut(labels, scores, n, k, heap, worst, i);
    }
    LoweredKeys(heap, Candidate(scores[n], labels[n]));
    assert |heap| <= k by {
      FullHasTop(labels, scores, n, k, heap);
    }
    RestIsBest(labels, scores, n + 1, k, next, top);
  }

  lemma RestIsBest(labels: seq<Label>, scores: seq<real>, n: nat, k: nat, next: Scored, top: Candidate)
    requires n <= |labels| == |scores| && |next| == k + 1 && IsTop(next, top)
    requires forall key | key in next :: next[key].id == key && IsLowest(labels, scores, n, next[key])
    requires forall i | 0 <= i < n && labels[i] !in next :: NoneAbove(next, scores[i])
    ensures Best(labels, scores, n, k, next - {top.id})
  {
    var rest := next - {top.id};
    assert rest.Keys == next.Keys - {top.id};
    assert |rest| == |rest.Keys| == k;
    assert IsLowest(labels, scores, n, next[top.id]);
    hide IsLowest;
    forall i | 0 <= i < n && labels[i] !in rest ensures NoneAbove(rest, scores[i]) {
      if labels[i] == top.id {
        TopIsLowest(labels, scores, n, top, i);
      } else {
        assert NoneAbove(next, scores[i]);
      }
    }
  }

  lemma TopIsLowest(labels: seq<Label>, scores: seq<real>, n: nat, c: Candidate, i: nat)
    requires n <= |labels| == |scores| && IsLowest(labels, scores, n, c) && i < n && labels[i] == c.id
    ensures c.dist <= scores[i]
  {
  }

  /** One vector of the scan. */
  method Consider(labels: seq<Label>, ghost scores: seq<real>, n: nat, k: nat, score: real, upperBound: real,
                  ghost worst: Candidate, candidates: TopCandidates)
    returns (bound: real, ghost top: Candidate)
    requires n < |labels| == |scores| && k > 0 && score == scores[n] && candidates.Valid()
    requires Best(labels, scores, n, k, candidates.held) && (!candidates.multi ==> NoDup(labels))
    requires n > 0 ==> IsTop(candidates.held, worst) && upperBound == worst.dist
    modifies candidates, candidates.updatable
    ensures candidates.Valid() && Best(labels, scores, n + 1, k, candidates.held)
    ensures IsTop(candidates.held, top) && bound == top.dist
  {
    hide Best, IsLowest, IsTop, Lowered, NoneAbove, TopCandidates.Valid, NoDup;
    ghost var heap := candidates.held;
    FullHasTop(labels, scores, n, k, heap);
    if score < upperBound || candidates.Size() < k {
      if !candidates.multi {
        LabelIsNew(labels, scores, n, k, heap);
      }
      candidates.Emplace(score, labels[n]);
      if candidates.Size() > k {
        NotEmpty(candidates.held);
        var popped := candidates.Pop();
        PoppedIsBest(labels, scores, n, k, heap, worst, popped);
      } else {
        EnteredIsBest(labels, scores, n, k, heap, worst);
      }
      FullHasTop(labels, scores, n + 1, k, candidates.held);
      var farthest := candidates.Top();
      bound, top := farthest.dist, farthest;
    } else {
      WorstBounds(heap, worst, score);
      PassedOver(labels, scores, n, k, heap);
      bound, top := upperBound, worst;
    }
  }

  lemma LabelIsNew(labels: seq<Label>, scores: seq<real>, n: nat, k: nat, heap: Scored)
    requires n < |labels| == |scores| && Best(labels, scores, n, k, heap) && NoDup(labels)
    ensures labels[n] !in heap
  {
    forall i | 0 <= i < n ensures labels[i] != labels[n] {
    }
    forall key | key in heap ensures key != labels[n] {
      assert IsLowest(labels, scores, n, heap[key]);
    }
  }

  /** With one vector for a label, no label occurs twice. */
  lemma LabelsAreDistinct(index: FlatBuffer)
    requires index.Valid() && !index.multi
    ensures NoDup(index.labels)
  {
    forall i, j | 0 <= i < j < |index.labels| ensures index.labels[i] != index.labels[j] {
      if index.labels[i] == index.labels[j] {
        index.IdIsKnown(i);
        index.LoneId(index.labels[i]);
        assert Has(index.labels, {}, index.labels[i], i);
        assert Has(index.labels, {}, index.labels[i], j);
        assert false;
      }
    }
  }

  lemma LengthsAgree(index: FlatBuffer)
    requires index.Valid()
    ensures |index.labels| == |index.blobs|
  {
    assert index.Kept({});
  }

  method TopKQuery(index: FlatBuffer, distance: Blob -> real, k: nat) returns (results: seq<Candidate>)
    requires index.Valid()
    ensures Nearest(index.labels, Scores(index.blobs, distance), k, results)
  {
    hide FlatBuffer.Kept;
    LengthsAgree(index);
    ghost var scores := Scores(index.blobs, distance);
    results := [];
    if k == 0 {
      return;
    }
    if !index.multi {
      LabelsAreDistinct(index);
    }
    var labels, blobs := index.labels, index.blobs;
    var candidates := new TopCandidates(index.multi);
    var upperBound := 0.0; // not consulted while fewer than k labels are in
    ghost var worst := Candidate(0.0, 0);
    var n := 0;
    while n < |labels|
      invariant n <= |labels| && candidates.Valid() && fresh(candidates) && fresh(candidates.updatable)
      invariant Best(labels, scores, n, k, candidates.held)
      invariant n > 0 ==> IsTop(candidates.held, worst) && upperBound == worst.dist
    {
      hide Best, IsLowest, TopCandidates.Valid, NoDup;
      upperBound, worst := Consider(labels, scores, n, k, distance(blobs[n]), upperBound, worst, candidates);
      n := n + 1;
    }
    ghost var heap := candidates.held;
    results := Drain(candidates);
    DrainedIsNearest(labels, scores, k, heap, results);
  }

  lemma DrainedIsNearest(labels: seq<Label>, scores: seq<real>, k: nat, heap: Scored, r: seq<Candidate>)
    requires |labels| == |scores| && Best(labels, scores, |labels|, k, heap)
    requires HeapOk(r) && |r| == |heap| && forall c :: c in r <==> c.id in heap && heap[c.id] == c
    ensures Nearest(labels, scores, k, r)
  {
  }

  lemma WorstBounds(heap: Scored, worst: Candidate, score: real)
    requires IsTop(heap, worst) && worst.dist <= score
    ensures NoneAbove(heap, score)
  {
  }

  lemma NotEmpty(heap: Scored)
    requires |heap| > 0
    ensures heap != map[]
  {
  }

  lemma FullHasTop(labels: seq<Label>, scores: seq<real>, n: nat, k: nat, heap: Scored)
    requires n <= |labels| == |scores| && k > 0 && Best(labels, scores, n, k, heap)
    ensures |heap| <= k && (n > 0 ==> heap != map[]) && (n == 0 ==> heap == map[])
  {
    if n > 0 {
      assert labels[0] !in heap ==> |heap| == k;
    } else {
      assert forall key | key in heap :: false;
    }
  }

  /** The queue was taken apart, from the highest score on, into the list. */
  ghost predicate Drained(all: Scored, held: Scored, results: seq<Candidate>) {
    && HeapOk(results) && |results| + |held| == |all| && (forall key | key in held :: held[key].id == key)
    && (forall c: Candidate :: c.id in all && all[c.id] == c
          <==> c in results || (c.id in held && held[c.id] == c))
    && (forall c, key | c in results && key in held :: Below(held[key], c))
    && forall c | c in results :: c.id !in held
  }

  lemma DrainedStep(all: Scored, held: Scored, results: seq<Candidate>, c: Candidate)
    requires Drained(all, held, results) && IsTop(held, c)
    ensures Drained(all, held - {c.id}, [c] + results)
  {
    var left := held - {c.id};
    assert left.Keys == held.Keys - {c.id} && |held.Keys| == |held| && |left.Keys| == |left|;
    forall x ensures x in [c] + results <==> x == c || x in results {
    }
    forall i | 0 <= i < |results| ensures Below(c, results[i]) && results[i].id != c.id {
      assert results[i] in results && held[c.id] == c;
    }
    forall x, key | x in [c] + results && key in left ensures Below(left[key], x) {
      assert left[key] == held[key] && held[key] != c;
    }
  }

  lemma DrainedAll(all: Scored, results: seq<Candidate>)
    requires Drained(all, map[], results)
    ensures HeapOk(results) && |results| == |all|
    ensures forall c :: c in results <==> c.id in all && all[c.id] == c
  {
  }

  /** The entries of the queue from the lowest score to the highest. */
  method Drain(heap: TopCandidates) returns (results: seq<Candidate>)
    requires heap.Valid()
    modifies heap, heap.updatable
    ensures HeapOk(results) && |results| == |old(heap.held)|
    ensures forall c :: c in results <==> c.id in old(heap.held) && old(heap.held)[c.id] == c
  {
    hide HeapOk, TopCandidates.Valid, Drained, IsTop;
    results := [];
    ghost var all := heap.held;
    heap.KeptUnderIds();
    NothingDrained(all);
    while heap.Size() > 0
      invariant heap.Valid() && Drained(all, heap.held, results)
      decreases |heap.held|
    {
      ghost var before := heap.held;
      NotEmpty(before);
      var c := heap.Pop();
      TopIsIn(before, c);
      DrainedStep(all, before, results, c);
      results := [c] + results;
    }
    assert heap.held == map[];
    DrainedAll(all, results);
  }

  lemma NothingDrained(all: Scored)
    requires forall key | key in all :: all[key].id == key
    ensures Drained(all, all, [])
  {
  }

  lemma TopIsIn(held: Scored, c: Candidate)
    requires IsTop(held, c)
    ensures |held - {c.id}| < |held|
  {
    assert (held - {c.id}).Keys == held.Keys - {c.id};
  }
}

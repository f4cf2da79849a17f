/** The priority queues of the searches: the entry with the largest key is on top, ties go to the larger id. */
module Heaps {
  import opened Seqs
  import opened LevelGraphs
  import opened NeighborSelection

  /** Order of the entries: `b` leaves the queue before `a`. */
  predicate Below(a: Candidate, b: Candidate) {
    a.dist < b.dist || (a.dist == b.dist && a.id < b.id)
  }

  ghost predicate Sorted(s: seq<Candidate>) {
    forall i, j :: 0 <= i < j < |s| ==> Below(s[i], s[j])
  }

  /** A queue, from the bottom to the top, or a list of results: in order, and an id occurs once. */
  ghost predicate HeapOk(heap: seq<Candidate>) {
    && Sorted(heap)
    && forall i, j :: 0 <= i < j < |heap| ==> heap[i].id != heap[j].id
  }

  function Emplace(heap: seq<Candidate>, c: Candidate): (r: seq<Candidate>)
    ensures |r| == |heap| + 1
  {
    if heap == [] || Below(heap[|heap| - 1], c) then heap + [c]
    else Emplace(heap[..|heap| - 1], c) + [heap[|heap| - 1]]
  }

  function Top(heap: seq<Candidate>): Candidate
    requires heap != []
  {
    heap[|heap| - 1]
  }

  function Pop(heap: seq<Candidate>): seq<Candidate>
    requires heap != []
  {
    heap[..|heap| - 1]
  }

  predicate InHeap(heap: seq<Candidate>, id: Id) {
    exists c :: c in heap && c.id == id
  }

  lemma {:induction false} EmplaceMembers(heap: seq<Candidate>, c: Candidate)
    ensures forall x :: x in Emplace(heap, c) <==> x in heap || x == c
  {
    if heap == [] || Below(heap[|heap| - 1], c) {
    } else {
      EmplaceMembers(heap[..|heap| - 1], c);
      assert heap == heap[..|heap| - 1] + [heap[|heap| - 1]];
    }
  }

  lemma {:induction false} EmplaceKeepsHeap(heap: seq<Candidate>, c: Candidate)
    requires HeapOk(heap) && !InHeap(heap, c.id)
    ensures HeapOk(Emplace(heap, c))
    ensures forall x :: x in Emplace(heap, c) <==> x in heap || x == c
  {
    EmplaceMembers(heap, c);
    if heap == [] || Below(heap[|heap| - 1], c) {
      forall x | x in heap ensures Below(x, c) && x.id != c.id {
      }
      OnTop(heap, c);
    } else {
      var n := |heap| - 1;
      forall x | x in heap[..n] ensures x in heap && Below(x, heap[n]) && x.id != heap[n].id {
      }
      assert !InHeap(heap[..n], c.id);
      EmplaceKeepsHeap(heap[..n], c);
      EmplaceMembers(heap[..n], c);
      assert heap[n] in heap;
      OnTop(Emplace(heap[..n], c), heap[n]);
    }
  }

  lemma OnTop(heap: seq<Candidate>, c: Candidate)
    requires HeapOk(heap) && forall x | x in heap :: Below(x, c) && x.id != c.id
    ensures HeapOk(heap + [c])
  {
    assert forall i | 0 <= i < |heap| :: heap[i] in heap;
  }

  /** The entry on top has the largest key. */
  lemma TopIsLargest(heap: seq<Candidate>)
    requires HeapOk(heap) && heap != []
    ensures forall c | c in heap :: c.dist <= Top(heap).dist
    ensures HeapOk(Pop(heap))
    ensures forall x :: x in heap <==> x in Pop(heap) || x == Top(heap)
    ensures !InHeap(Pop(heap), Top(heap).id)
  {
  }

  /** The ids in a queue. */
  ghost function HeapIds(heap: seq<Candidate>): set<Id> {
    set c | c in heap :: c.id
  }

  lemma HeapSize(heap: seq<Candidate>)
    requires HeapOk(heap)
    ensures |HeapIds(heap)| == |heap|
  {
    if heap != [] {
      TopIsLargest(heap);
      HeapSize(Pop(heap));
      assert HeapIds(heap) == HeapIds(Pop(heap)) + {Top(heap).id};
    }
  }
}

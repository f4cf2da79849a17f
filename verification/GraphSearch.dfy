/** Best-first search of one level of the graph, and the greedy descent through the levels above. */
module GraphSearch {
  import opened Seqs
  import opened LevelGraphs
  import opened NeighborSelection
  import opened Heaps
  import opened VisitedNodes

  /** A search of a level from `entry`: flags and distances to the query of its nodes, and how many to find. */
  datatype Search = Search(links: map<Id, seq<Id>>, deleted: set<Id>, inProcess: set<Id>, dist: Id -> real,
                           entry: Id, ef: nat)

  ghost predicate SearchOk(q: Search) {
    && q.ef > 0 && q.entry in q.links
    && forall u, v | u in q.links && v in q.links[u] :: v in q.links
  }

  // ----- What can be found -----

  /** A walk along the links that never steps on a node in process. */
  ghost predicate Walk(q: Search, p: seq<Id>) {
    && p != [] && p[0] == q.entry
    && forall i | 0 <= i < |p| - 1 :: StepOk(q, p[i], p[i + 1])
  }

  predicate StepOk(q: Search, u: Id, v: Id) {
    u in q.links && v in q.links[u] && v !in q.inProcess
  }

  ghost predicate Reachable(q: Search, v: Id) {
    exists p :: Walk(q, p) && p[|p| - 1] == v
  }

  /** The nodes a search may return. */
  ghost predicate LiveReachable(q: Search, v: Id) {
    Reachable(q, v) && v !in q.deleted
  }

  lemma StepReaches(q: Search, u: Id, v: Id)
    requires Reachable(q, u) && StepOk(q, u, v)
    ensures Reachable(q, v)
  {
    var p :| Walk(q, p) && p[|p| - 1] == u;
    assert Walk(q, p + [v]) by {
      forall i | 0 <= i < |p| ensures StepOk(q, (p + [v])[i], (p + [v])[i + 1]) {
        if i < |p| - 1 {
          assert StepOk(q, p[i], p[i + 1]);
        }
      }
    }
    assert (p + [v])[|p + [v]| - 1] == v;
  }

  /** Nodes in process are never reached, only started from. */
  lemma ReachableIsReady(q: Search, v: Id)
    requires Reachable(q, v)
    ensures v == q.entry || v !in q.inProcess
  {
    var p :| Walk(q, p) && p[|p| - 1] == v;
    if |p| > 1 {
      assert StepOk(q, p[|p| - 2], p[|p| - 1]);
    }
  }

  /** A set closed under steps that holds the entry holds everything reachable. */
  lemma ClosedHoldsReachable(q: Search, visited: set<Id>, v: Id)
    requires q.entry in visited && Reachable(q, v)
    requires forall u, w | u in visited && StepOk(q, u, w) :: w in visited
    ensures v in visited
  {
    var p :| Walk(q, p) && p[|p| - 1] == v;
    for i := 0 to |p| - 1
      invariant p[i] in visited
    {
      assert StepOk(q, p[i], p[i + 1]);
    }
  }

  // ----- The invariant of the search -----

  /** The results so far are the nearest of the live nodes visited, the queue holding `ef` of them when full. */
  ghost predicate ResultsOk(q: Search, visited: set<Id>, top: seq<Candidate>) {
    && HeapOk(top) && |top| <= q.ef
    && (forall c | c in top :: c.id in visited && c.id !in q.deleted && c.dist == q.dist(c.id))
    && forall v | v in visited && v !in q.deleted && !InHeap(top, v) :: NoBetter(q, top, v)
  }

  ghost predicate NoBetter(q: Search, top: seq<Candidate>, v: Id) {
    |top| == q.ef && forall c | c in top :: c.dist <= q.dist(v)
  }

  ghost predicate VisitedOk(q: Search, visited: set<Id>) {
    && q.entry in visited && visited <= q.links.Keys
    && forall v | v in visited :: Reachable(q, v)
  }

  ghost predicate QueueOk(visited: set<Id>, queue: seq<Candidate>) {
    HeapOk(queue) && forall c | c in queue :: c.id in visited
  }

  /** The queue is ordered by the distances to the query. */
  ghost predicate QueueDist(q: Search, queue: seq<Candidate>) {
    forall c | c in queue :: c.dist == -q.dist(c.id)
  }

  /**
   * Nothing was passed over that could lead to better results: every visited node outside `busy` is waiting in
   * the queue, or has all its accessible neighbours visited, or is no nearer than any of `ef` results.
   */
  ghost predicate FrontierOk(q: Search, visited: set<Id>, top: seq<Candidate>, queue: seq<Candidate>, busy: set<Id>) {
    forall v, w | v in visited && v !in busy && !InHeap(queue, v) && StepOk(q, v, w) && w !in visited :: NoBetter(q, top, v)
  }

  ghost predicate Searching(q: Search, visited: set<Id>, top: seq<Candidate>, queue: seq<Candidate>, busy: set<Id>) {
    && VisitedOk(q, visited) && ResultsOk(q, visited, top) && QueueOk(visited, queue)
    && FrontierOk(q, visited, top, queue, busy)
  }

  // ----- One candidate -----

  predicate Accepts(q: Search, top: seq<Candidate>, lowerBound: real, v: Id) {
    lowerBound > q.dist(v) || |top| < q.ef
  }

  /** The results after a node just visited was offered. */
  function Offer(q: Search, top: seq<Candidate>, lowerBound: real, v: Id): seq<Candidate> {
    if !Accepts(q, top, lowerBound, v) then top
    else
      var grown := if v in q.deleted then top else Emplace(top, Candidate(q.dist(v), v));
      if |grown| > q.ef then Pop(grown) else grown
  }

  lemma OfferRejected(q: Search, visited: set<Id>, top: seq<Candidate>, lowerBound: real, v: Id)
    requires SearchOk(q) && ResultsOk(q, visited, top) && v !in visited
    requires top != [] ==> lowerBound == Top(top).dist
    requires !Accepts(q, top, lowerBound, v)
    ensures ResultsOk(q, visited + {v}, top)
  {
  }

  lemma OfferFits(q: Search, visited: set<Id>, top: seq<Candidate>, v: Id)
    requires ResultsOk(q, visited, top) && v !in visited && v !in q.deleted && |top| < q.ef
    ensures ResultsOk(q, visited + {v}, Emplace(top, Candidate(q.dist(v), v)))
  {
    var c := Candidate(q.dist(v), v);
    assert !InHeap(top, v);
    EmplaceKeepsHeap(top, c);
    var grown := Emplace(top, c);
    assert c in grown;
    forall u | u in visited + {v} && u !in q.deleted ensures InHeap(grown, u) {
      if u != v {
        assert InHeap(top, u);
      }
    }
  }

  /** Inserting an entry nearer than the top and dropping the top exchanges one entry for the other. */
  lemma EvictionMembers(top: seq<Candidate>, c: Candidate)
    requires HeapOk(top) && top != [] && !InHeap(top, c.id) && c.dist < Top(top).dist
    ensures var after, out := Pop(Emplace(top, c)), Top(Emplace(top, c));
      && HeapOk(after) && |after| == |top| && c in after
      && (forall x | x in after :: (x in top || x == c) && x.dist <= out.dist)
      && forall x | x in top :: x in after || x == out
  {
    EmplaceKeepsHeap(top, c);
    var grown := Emplace(top, c);
    TopIsLargest(top);
    TopIsLargest(grown);
    assert Top(top) in grown && c in grown;
  }

  lemma OfferEvicts(q: Search, visited: set<Id>, top: seq<Candidate>, v: Id)
    requires SearchOk(q) && ResultsOk(q, visited, top) && v !in visited && v !in q.deleted
    requires |top| == q.ef && Top(top).dist > q.dist(v)
    ensures ResultsOk(q, visited + {v}, Pop(Emplace(top, Candidate(q.dist(v), v))))
  {
    hide HeapOk, Emplace, Pop;
    var c := Candidate(q.dist(v), v);
    assert !InHeap(top, v);
    EvictionMembers(top, c);
    var after, out := Pop(Emplace(top, c)), Top(Emplace(top, c));
    forall u | u in visited && u !in q.deleted && !InHeap(after, u) ensures NoBetter(q, after, u) {
      EvictedIsFarther(q, top, after, out, c, u);
    }
  }

  /** A node that is not among the results after an eviction is no nearer than any of them. */
  lemma EvictedIsFarther(q: Search, top: seq<Candidate>, after: seq<Candidate>, out: Candidate, c: Candidate, u: Id)
    requires |after| == |top| == q.ef && top != []
    requires forall x | x in after :: x in top || x == c
    requires forall x | x in top :: x in after || x == out
    requires forall x | x in after :: x.dist <= out.dist
    requires c.dist <= Top(top).dist
    requires !InHeap(after, u)
    requires if InHeap(top, u) then forall x | x in top && x.id == u :: x.dist == q.dist(u) else NoBetter(q, top, u)
    ensures NoBetter(q, after, u)
  {
  }

  lemma OfferKeepsResults(q: Search, visited: set<Id>, top: seq<Candidate>, lowerBound: real, v: Id)
    requires SearchOk(q) && ResultsOk(q, visited, top) && v !in visited
    requires top != [] ==> lowerBound == Top(top).dist
    ensures var after := Offer(q, top, lowerBound, v);
      ResultsOk(q, visited + {v}, after) && |top| <= |after|
  {
    if !Accepts(q, top, lowerBound, v) {
      OfferRejected(q, visited, top, lowerBound, v);
    } else if v !in q.deleted {
      if |top| < q.ef {
        OfferFits(q, visited, top, v);
      } else {
        OfferEvicts(q, visited, top, v);
      }
    }
  }

  /** A node no nearer than the results stays so, and one that is not accepted is such a node. */
  lemma OfferKeepsBound(q: Search, visited: set<Id>, top: seq<Candidate>, lowerBound: real, v: Id)
    requires SearchOk(q) && ResultsOk(q, visited, top) && v !in visited
    requires top != [] ==> lowerBound == Top(top).dist
    ensures forall u | NoBetter(q, top, u) :: NoBetter(q, Offer(q, top, lowerBound, v), u)
    ensures !Accepts(q, top, lowerBound, v) ==> NoBetter(q, top, v)
  {
    if Accepts(q, top, lowerBound, v) && v !in q.deleted && |top| == q.ef {
      var c := Candidate(q.dist(v), v);
      assert !InHeap(top, v);
      EvictionMembers(top, c);
      hide Emplace, Pop, HeapOk;
      assert Top(top) in top;
    }
  }

  lemma OfferKeepsSearching(q: Search, visited: set<Id>, top: seq<Candidate>, queue: seq<Candidate>, busy: set<Id>,
                            lowerBound: real, u: Id, v: Id)
    requires SearchOk(q) && Searching(q, visited, top, queue, busy) && v !in visited
    requires top != [] ==> lowerBound == Top(top).dist
    requires u in visited && StepOk(q, u, v)
    ensures var queue' := if Accepts(q, top, lowerBound, v) then Emplace(queue, Candidate(-q.dist(v), v)) else queue;
      Searching(q, visited + {v}, Offer(q, top, lowerBound, v), queue', busy)
  {
    OfferKeepsResults(q, visited, top, lowerBound, v);
    OfferKeepsBound(q, visited, top, lowerBound, v);
    StepReaches(q, u, v);
    hide ResultsOk, Reachable, Offer, HeapOk, NoBetter;
    if Accepts(q, top, lowerBound, v) {
      assert !InHeap(queue, v);
      EmplaceKeepsHeap(queue, Candidate(-q.dist(v), v));
      var queue' := Emplace(queue, Candidate(-q.dist(v), v));
      assert Candidate(-q.dist(v), v) in queue';
      forall x | InHeap(queue, x) ensures InHeap(queue', x) {
        var c :| c in queue && c.id == x;
        assert c in queue';
      }
    }
  }

  // ----- The search of a level -----

  /** Offers the links of a node that were not visited before. */
  method ProcessCandidate(q: Search, node: Id, handler: VisitedNodesHandler, top: seq<Candidate>,
                          queue: seq<Candidate>, lowerBound: real)
    returns (top': seq<Candidate>, queue': seq<Candidate>, lowerBound': real)
    requires SearchOk(q) && handler.Valid() && TagsCover(q, handler)
    requires Searching(q, handler.Visited(), top, queue, {node}) && node in handler.Visited()
    requires QueueDist(q, queue) && (top != [] ==> lowerBound == Top(top).dist)
    modifies handler.tags
    ensures handler.Valid() && old(handler.Visited()) <= handler.Visited()
    ensures Searching(q, handler.Visited(), top', queue', {}) && QueueDist(q, queue')
    ensures top' != [] ==> lowerBound' == Top(top').dist
    ensures handler.Visited() == old(handler.Visited()) ==> |queue'| == |queue|
  {
    hide Searching, Emplace, Pop, HeapOk;
    top', queue', lowerBound' := top, queue, lowerBound;
    NodeHasRow(q, handler.Visited(), top, queue, node);
    var row := q.links[node];
    for j := 0 to |row|
      invariant handler.Valid() && old(handler.Visited()) <= handler.Visited()
      invariant Searching(q, handler.Visited(), top', queue', {node}) && QueueDist(q, queue')
      invariant top' != [] ==> lowerBound' == Top(top').dist
      invariant forall k | 0 <= k < j :: row[k] in q.inProcess || row[k] in handler.Visited()
      invariant handler.Visited() == old(handler.Visited()) ==> |queue'| == |queue|
    {
      var v := row[j];
      assert v in q.links;
      if handler.tags[v] != handler.curTag && v !in q.inProcess {
        assert v !in handler.Visited();
        OfferKeepsSearching(q, handler.Visited(), top', queue', {node}, lowerBound', node, v);
        EmplaceMembers(queue', Candidate(-q.dist(v), v));
        ghost var visited := handler.Visited();
        handler.TagNode(v);
        assert handler.Visited() == visited + {v};
        if lowerBound' > q.dist(v) || |top'| < q.ef {
          queue' := Emplace(queue', Candidate(-q.dist(v), v));
          if v !in q.deleted {
            top' := Emplace(top', Candidate(q.dist(v), v));
          }
          if |top'| > q.ef {
            top' := Pop(top');
          }
          if top' != [] {
            lowerBound' := Top(top').dist;
          }
        }
      }
    }
    NodeIsDone(q, handler.Visited(), top', queue', node);
  }

  lemma NodeHasRow(q: Search, visited: set<Id>, top: seq<Candidate>, queue: seq<Candidate>, node: Id)
    requires SearchOk(q) && Searching(q, visited, top, queue, {node}) && node in visited
    ensures node in q.links
  {
  }

  /** With all its links offered, the node is done with. */
  lemma NodeIsDone(q: Search, visited: set<Id>, top: seq<Candidate>, queue: seq<Candidate>, node: Id)
    requires Searching(q, visited, top, queue, {node}) && node in q.links
    requires forall k | 0 <= k < |q.links[node]| :: q.links[node][k] in q.inProcess || q.links[node][k] in visited
    ensures Searching(q, visited, top, queue, {})
  {
    assert FrontierOk(q, visited, top, queue, {});
  }

  /** The tags cover all the nodes. */
  ghost predicate TagsCover(q: Search, handler: VisitedNodesHandler)
    reads handler
  {
    forall v | v in q.links :: 0 <= v < handler.tags.Length
  }

  /**
   * The outcome of a search: live nodes that are reachable, with their distances, each once; either `ef`
   * of them or all there are; and none of the visited live nodes left out is nearer than one returned.  Only
   * nodes no nearer than any of the results may have neighbours that were not visited.
   */
  ghost predicate Found(q: Search, visited: set<Id>, top: seq<Candidate>) {
    && ResultsOk(q, visited, top) && VisitedOk(q, visited)
    && (forall c | c in top :: LiveReachable(q, c.id))
    && (forall v, w | v in visited && StepOk(q, v, w) && w !in visited :: NoBetter(q, top, v))
    && (|top| < q.ef ==> forall v | LiveReachable(q, v) :: InHeap(top, v))
  }

  method SearchLayer(q: Search, handler: VisitedNodesHandler) returns (top: seq<Candidate>, ghost visited: set<Id>)
    requires SearchOk(q) && handler.Valid() && TagsCover(q, handler)
    modifies handler, handler.tags
    ensures handler.Valid() && handler.tags == old(handler.tags) && visited == handler.Visited()
    ensures Found(q, visited, top)
  {
    hide Searching, Found;
    var tag := handler.GetFreshTag();
    var queue, lowerBound := [], 0.0;
    var dist := q.dist(q.entry);
    if q.entry !in q.deleted {
      lowerBound := dist;
      top := Emplace([], Candidate(dist, q.entry));
      queue := Emplace([], Candidate(-dist, q.entry));
    } else {
      lowerBound := MAX_DISTANCE;
      top := [];
      queue := Emplace([], Candidate(-lowerBound, q.entry));
    }
    handler.TagNode(q.entry);
    assert handler.Visited() == {q.entry};
    StartSearching(q, top, queue);
    VisitedAreNodes(q, {q.entry}, top, queue);
    while queue != []
      invariant handler.Valid() && handler.tags == old(handler.tags)
      invariant Searching(q, handler.Visited(), top, queue, {})
      invariant QueueDist(q, queue) || (top == [] && |queue| == 1)
      invariant top != [] ==> lowerBound == Top(top).dist
      invariant handler.Visited() <= q.links.Keys
      decreases q.links.Keys - handler.Visited(), |queue|
    {
      if -Top(queue).dist > lowerBound && |top| >= q.ef {
        break;
      }
      var node := Top(queue).id;
      PopIsBusy(q, handler.Visited(), top, queue);
      queue := Pop(queue);
      top, queue, lowerBound := ProcessCandidate(q, node, handler, top, queue, lowerBound);
      VisitedAreNodes(q, handler.Visited(), top, queue);
    }
    visited := handler.Visited();
    SearchEnds(q, visited, top, queue, lowerBound);
  }

  /** The largest value a distance can take. */
  const MAX_DISTANCE: real := 340282346638528859811704183484516925440.0

  lemma StartSearching(q: Search, top: seq<Candidate>, queue: seq<Candidate>)
    requires SearchOk(q)
    requires top == if q.entry in q.deleted then [] else [Candidate(q.dist(q.entry), q.entry)]
    requires |queue| == 1 && queue[0].id == q.entry
    ensures Searching(q, {q.entry}, top, queue, {})
  {
    assert Walk(q, [q.entry]) && [q.entry][0] == q.entry;
    assert queue[0] in queue && InHeap(queue, q.entry);
    if top != [] {
      assert top[0] in top && InHeap(top, q.entry);
    }
  }

  lemma VisitedAreNodes(q: Search, visited: set<Id>, top: seq<Candidate>, queue: seq<Candidate>)
    requires Searching(q, visited, top, queue, {})
    ensures visited <= q.links.Keys
  {
  }

  /** The node taken from the queue is the one that is worked on. */
  lemma PopIsBusy(q: Search, visited: set<Id>, top: seq<Candidate>, queue: seq<Candidate>)
    requires Searching(q, visited, top, queue, {}) && queue != []
    ensures Searching(q, visited, top, Pop(queue), {Top(queue).id}) && Top(queue).id in visited
  {
  }

  lemma SearchEnds(q: Search, visited: set<Id>, top: seq<Candidate>, queue: seq<Candidate>, lowerBound: real)
    requires SearchOk(q) && Searching(q, visited, top, queue, {})
    requires QueueDist(q, queue) || (top == [] && |queue| == 1)
    requires top != [] ==> lowerBound == Top(top).dist
    requires queue == [] || (|top| >= q.ef && -Top(queue).dist > lowerBound)
    ensures Found(q, visited, top)
  {
    hide Reachable;
    forall v, w | v in visited && StepOk(q, v, w) && w !in visited ensures NoBetter(q, top, v) {
      if queue != [] {
        TopIsLargest(queue);
        TopIsLargest(top);
      }
    }
    if |top| < q.ef {
      forall v | LiveReachable(q, v) ensures InHeap(top, v) {
        ClosedHoldsReachable(q, visited, v);
      }
    }
  }

  /** Asked for at least as many nodes as can be found, a search returns exactly the live reachable ones. */
  lemma SearchIsExhaustive(q: Search, visited: set<Id>, top: seq<Candidate>, all: set<Id>)
    requires Found(q, visited, top) && (forall v :: v in all <==> LiveReachable(q, v)) && |all| <= q.ef
    ensures HeapIds(top) == all
  {
    HeapSize(top);
    forall v | v in HeapIds(top) ensures v in all {
      var c :| c in top && c.id == v;
      assert LiveReachable(q, c.id);
    }
    if |top| < q.ef {
      forall v | v in all ensures v in HeapIds(top) {
        assert InHeap(top, v);
      }
    } else {
      SubsetCardinality(HeapIds(top), all);
    }
  }

  // ----- The descent -----

  ghost function Closer(q: Search, dist: real): set<Id> {
    set v | v in q.links && q.dist(v) < dist
  }

  /** No accessible neighbour of the node is nearer than `dist`. */
  ghost predicate LocalMinimum(q: Search, v: Id, dist: real) {
    v in q.links && forall w | w in q.links[v] && w !in q.inProcess :: q.dist(w) >= dist
  }

  /** The node at position i of a row is nearer than `dist`, and nearer than the accessible nodes before it. */
  predicate Record(q: Search, row: seq<Id>, dist: real, i: nat) {
    && i < |row| && row[i] !in q.inProcess && q.dist(row[i]) < dist
    && forall j | 0 <= j < i && row[j] !in q.inProcess :: q.dist(row[i]) < q.dist(row[j])
  }

  ghost predicate NoRecord(q: Search, row: seq<Id>, n: nat, dist: real) {
    forall j: nat | j < n :: !Record(q, row, dist, j)
  }

  /** v is the last record among the first n nodes of the row, and so the nearest of them. */
  ghost predicate LastRecord(q: Search, row: seq<Id>, n: nat, dist: real, v: Id) {
    exists i: nat :: i < n && Record(q, row, dist, i) && row[i] == v && forall j: nat | i < j < n :: !Record(q, row, dist, j)
  }

  /** v is the last live record among the first n nodes of the row, or still `live` when there is none. */
  ghost predicate LastLive(q: Search, row: seq<Id>, n: nat, dist: real, live: Id, v: Id) {
    || (v == live && forall j: nat | j < n && Record(q, row, dist, j) :: row[j] in q.deleted)
    || exists i: nat :: i < n && Record(q, row, dist, i) && row[i] == v && v !in q.deleted
         && forall j: nat | i < j < n && Record(q, row, dist, j) :: row[j] in q.deleted
  }

  /** The distance from which the walk goes on after its k-th move. */
  function DistAt(q: Search, startDist: real, hops: seq<Id>, k: nat): real
    requires k < |hops|
  {
    if k == 0 then startDist else q.dist(hops[k])
  }

  /** One move of the walk: to the nearest neighbour, with the last live node seen on the way. */
  ghost predicate Hop(q: Search, startDist: real, hops: seq<Id>, lives: seq<Id>, k: nat)
    requires k + 1 < |hops| == |lives|
  {
    && hops[k] in q.links
    && var (row, dist) := (q.links[hops[k]], DistAt(q, startDist, hops, k));
      LastRecord(q, row, |row|, dist, hops[k + 1]) && LastLive(q, row, |row|, dist, lives[k], lives[k + 1])
  }

  ghost predicate Hops(q: Search, startDist: real, hops: seq<Id>, lives: seq<Id>) {
    && |hops| == |lives| > 0 && hops[0] == q.entry && lives[0] == q.entry
    && forall k: nat | k + 1 < |hops| :: Hop(q, startDist, hops, lives, k)
  }

  /**
   * Where a greedy walk ends: it always moved to the nearest neighbour, and stopped at a node none of
   * whose neighbours is nearer.  A query goes on from there; a search for neighbours of a new element goes
   * on from the last live node that the walk came upon.
   */
  ghost predicate GreedyEnds(q: Search, runningQuery: bool, startDist: real, best: Id, dist: real) {
    exists hops, lives :: Hops(q, startDist, hops, lives) && WalkEnds(q, runningQuery, startDist, hops, lives, best, dist)
  }

  ghost predicate WalkEnds(q: Search, runningQuery: bool, startDist: real, hops: seq<Id>, lives: seq<Id>, best: Id,
                           dist: real)
    requires |hops| == |lives| > 0
  {
    && var n := |hops| - 1;
      && dist == DistAt(q, startDist, hops, n) && LocalMinimum(q, hops[n], dist)
      && best == if runningQuery then hops[n] else lives[n]
  }

  lemma HopsStep(q: Search, startDist: real, hops: seq<Id>, lives: seq<Id>, next: Id, live: Id)
    requires Hops(q, startDist, hops, lives) && hops[|hops| - 1] in q.links
    requires var (n, row) := (|hops| - 1, q.links[hops[|hops| - 1]]);
      && LastRecord(q, row, |row|, DistAt(q, startDist, hops, n), next)
      && LastLive(q, row, |row|, DistAt(q, startDist, hops, n), lives[n], live)
    ensures Hops(q, startDist, hops + [next], lives + [live])
  {
    hide LastRecord, LastLive;
    var (hops', lives') := (hops + [next], lives + [live]);
    forall k: nat | k + 1 < |hops'| ensures Hop(q, startDist, hops', lives', k) {
      if k + 1 < |hops| {
        assert Hop(q, startDist, hops, lives, k);
      }
    }
  }

  /** Looking at one more node of the row. */
  lemma RecordStep(q: Search, row: seq<Id>, n: nat, before: real, dist: real, best: Id, live0: Id, live: Id)
    requires n < |row|
    requires LastLive(q, row, n, before, live0, live)
    requires if dist < before then LastRecord(q, row, n, before, best) && dist == q.dist(best)
             else dist == before && NoRecord(q, row, n, before)
    requires forall j | 0 <= j < n :: row[j] in q.inProcess || q.dist(row[j]) >= dist
    ensures var nearer := row[n] !in q.inProcess && q.dist(row[n]) < dist;
      && LastLive(q, row, n + 1, before, live0, if nearer && row[n] !in q.deleted then row[n] else live)
      && (nearer ==> LastRecord(q, row, n + 1, before, row[n]))
      && (!nearer && dist < before ==> LastRecord(q, row, n + 1, before, best))
      && (!nearer && dist == before ==> NoRecord(q, row, n + 1, before))
  {
    IsRecord(q, row, n, before, dist, best);
    hide Record;
  }

  /** A node nearer than all before is a record, and no other is. */
  lemma IsRecord(q: Search, row: seq<Id>, n: nat, before: real, dist: real, best: Id)
    requires n < |row| && forall j | 0 <= j < n :: row[j] in q.inProcess || q.dist(row[j]) >= dist
    requires if dist < before then LastRecord(q, row, n, before, best) && dist == q.dist(best) else dist == before
    ensures row[n] !in q.inProcess && q.dist(row[n]) < dist <==> Record(q, row, before, n)
  {
  }

  /**
   * Moves to nearer neighbours until there is none.  A search that looks for neighbours of a new element
   * goes on from the last live node it moved to, a query from the last node whatever it is.
   */
  method GreedySearchLevel(q: Search, runningQuery: bool, start: Id, startDist: real) returns (best: Id, dist: real)
    requires SearchOk(q) && start == q.entry && startDist <= q.dist(start)
    ensures GreedyEnds(q, runningQuery, startDist, best, dist)
    ensures dist <= startDist && dist <= q.dist(best) && best in q.links && Reachable(q, best)
    ensures !runningQuery && start !in q.deleted ==> best !in q.deleted
  {
    hide Record, LastRecord, LastLive, NoRecord, Hops, Reachable;
    best, dist := start, startDist;
    var bestLive := start;
    ghost var hops, lives := [start], [start];
    WalkStarts(q, startDist);
    var changed := true;
    while changed
      invariant AtNode(q, startDist, best, dist) && AtNode(q, startDist, bestLive, dist)
      invariant |hops| == |lives| && Hops(q, startDist, hops, lives) && hops != [] && best == hops[|hops| - 1]
      invariant dist == DistAt(q, startDist, hops, |hops| - 1)
      invariant !runningQuery ==> bestLive == lives[|hops| - 1]
      invariant start !in q.deleted ==> bestLive !in q.deleted
      invariant !changed ==> LocalMinimum(q, best, dist)
      decreases Closer(q, dist), changed
    {
      changed := false;
      var node, before := best, dist;
      ghost var live := lives[|hops| - 1];
      var row := q.links[node];
      EmptyRow(q, row, before, live);
      for i := 0 to |row|
        invariant AtNode(q, startDist, best, dist) && AtNode(q, startDist, bestLive, dist)
        invariant changed <==> dist < before
        invariant if changed then LastRecord(q, row, i, before, best) && dist == q.dist(best)
                  else best == node && dist == before && NoRecord(q, row, i, before)
        invariant LastLive(q, row, i, before, lives[|hops| - 1], live) && (!runningQuery ==> bestLive == live)
        invariant forall j | 0 <= j < i :: row[j] in q.inProcess || q.dist(row[j]) >= dist
        invariant start !in q.deleted ==> bestLive !in q.deleted
      {
        var v := row[i];
        RecordStep(q, row, i, before, dist, best, lives[|hops| - 1], live);
        if v !in q.inProcess && q.dist(v) < dist {
          StepReaches(q, node, v);
          dist, best, changed := q.dist(v), v, true;
          live := if v !in q.deleted then v else live;
          if !runningQuery && v !in q.deleted {
            bestLive := v;
          }
        }
      }
      if changed {
        HopsStep(q, startDist, hops, lives, best, live);
        hops, lives := hops + [best], lives + [live];
        assert best in Closer(q, before) && best !in Closer(q, dist);
      } else {
        NoRecordNoMove(q, row, |row|, before, lives[|hops| - 1], live);
      }
    }
    if !runningQuery {
      best := bestLive;
    }
    assert WalkEnds(q, runningQuery, startDist, hops, lives, best, dist);
  }

  /** A node that the walk came upon, and that is no nearer than where the walk has got to. */
  ghost predicate AtNode(q: Search, startDist: real, v: Id, dist: real) {
    v in q.links && Reachable(q, v) && dist <= startDist && dist <= q.dist(v)
  }

  lemma WalkStarts(q: Search, startDist: real)
    requires SearchOk(q)
    ensures Hops(q, startDist, [q.entry], [q.entry]) && Reachable(q, q.entry)
  {
    assert Walk(q, [q.entry]) && [q.entry][0] == q.entry;
  }

  lemma NoRecordNoMove(q: Search, row: seq<Id>, n: nat, dist: real, live: Id, v: Id)
    requires NoRecord(q, row, n, dist) && LastLive(q, row, n, dist, live, v)
    ensures v == live
  {
  }

  lemma EmptyRow(q: Search, row: seq<Id>, dist: real, live: Id)
    ensures NoRecord(q, row, 0, dist) && LastLive(q, row, 0, dist, live, live)
  {
  }
}

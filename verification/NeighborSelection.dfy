/** The heuristic that picks a node's neighbours out of a list of candidates. */
module NeighborSelection {
  import opened Seqs
  import opened LevelGraphs

  datatype Candidate = Candidate(dist: real, id: Id)

  /** Distance between two stored vectors. */
  type Metric = (Id, Id) -> real

  function Ids(cands: seq<Candidate>): (ids: seq<Id>)
    ensures |ids| == |cands|
    ensures forall i | 0 <= i < |cands| :: ids[i] == cands[i].id
  {
    seq(|cands|, i requires 0 <= i < |cands| => cands[i].id)
  }

  ghost predicate ByDistance(cands: seq<Candidate>) {
    forall i, j :: 0 <= i <= j < |cands| ==> cands[i].dist <= cands[j].dist
  }

  /** The same candidates, possibly in another order. */
  ghost predicate SameCandidates(a: seq<Candidate>, b: seq<Candidate>) {
    |a| == |b| && Elems(a) == Elems(b) && NoDup(Ids(a)) && NoDup(Ids(b))
  }

  /** Sorting fixes the order of unequal distances only: callers may rely on nothing else. */
  method SortByDistance(cands: seq<Candidate>) returns (sorted: seq<Candidate>)
    requires NoDup(Ids(cands))
    ensures SameCandidates(sorted, cands) && ByDistance(sorted)
  {
    sorted := [];
    for n := 0 to |cands|
      invariant SameCandidates(sorted, cands[..n]) && ByDistance(sorted)
    {
      TakenIds(cands, n);
      hide SameCandidates, ByDistance, NoDup;
      sorted := Insert(sorted, cands[..n], cands[n]);
    }
    assert cands[..|cands|] == cands;
  }

  lemma TakenIds(cands: seq<Candidate>, n: nat)
    requires NoDup(Ids(cands)) && n < |cands|
    ensures cands[..n + 1] == cands[..n] + [cands[n]]
    ensures NoDup(Ids(cands[..n + 1])) && cands[n].id !in Ids(cands[..n])
  {
  }

  method Insert(sorted: seq<Candidate>, ghost taken: seq<Candidate>, c: Candidate) returns (r: seq<Candidate>)
    requires SameCandidates(sorted, taken) && ByDistance(sorted)
    requires c.id !in Ids(taken) && NoDup(Ids(taken + [c]))
    ensures SameCandidates(r, taken + [c]) && ByDistance(r)
  {
    var p := |sorted|;
    while p > 0 && c.dist < sorted[p - 1].dist
      invariant 0 <= p <= |sorted|
      invariant forall i | p <= i < |sorted| :: c.dist < sorted[i].dist
    {
      p := p - 1;
    }
    r := sorted[..p] + [c] + sorted[p..];
    InsertKeepsCandidates(sorted, taken, c, p);
  }

  lemma InsertKeepsCandidates(sorted: seq<Candidate>, taken: seq<Candidate>, c: Candidate, p: nat)
    requires SameCandidates(sorted, taken) && p <= |sorted| && c.id !in Ids(taken)
    requires NoDup(Ids(taken + [c]))
    ensures SameCandidates(sorted[..p] + [c] + sorted[p..], taken + [c])
  {
    var r := sorted[..p] + [c] + sorted[p..];
    assert sorted == sorted[..p] + sorted[p..];
    assert Elems(r) == Elems(sorted) + {c};
    assert Elems(taken + [c]) == Elems(taken) + {c};
    forall i | 0 <= i < |sorted| ensures sorted[i].id != c.id {
      assert sorted[i] in Elems(taken);
      var j :| 0 <= j < |taken| && taken[j] == sorted[i];
      assert Ids(taken)[j] == sorted[i].id;
    }
    forall i, j | 0 <= i < j < |r| ensures Ids(r)[i] != Ids(r)[j] {
      var i', j' := if i < p then i else i - 1, if j < p then j else j - 1;
      if i != p && j != p {
        assert r[i] == sorted[i'] && r[j] == sorted[j'];
        assert Ids(sorted)[i'] != Ids(sorted)[j'];
      } else if i == p {
        assert r[j] == sorted[j'];
      } else {
        assert r[i] == sorted[i'];
      }
    }
  }

  /** The candidate is closer to a neighbour already chosen than to the node itself. */
  ghost predicate Shadowed(c: Candidate, chosen: seq<Candidate>, metric: Metric) {
    exists s | s in chosen :: s.dist <= c.dist && metric(s.id, c.id) < c.dist
  }

  /** No chosen neighbour is shadowed by one chosen before it. */
  ghost predicate Spread(chosen: seq<Candidate>, metric: Metric) {
    forall i, j :: 0 <= i < j < |chosen| ==> metric(chosen[i].id, chosen[j].id) >= chosen[j].dist
  }

  /** Chosen and removed ids split the candidates between them. */
  ghost predicate Splits(cands: seq<Candidate>, chosen: seq<Candidate>, removed: seq<Id>) {
    && Elems(chosen) <= Elems(cands)
    && NoDup(Ids(chosen)) && NoDup(removed)
    && Elems(Ids(chosen)) !! Elems(removed)
    && Elems(Ids(chosen)) + Elems(removed) == Elems(Ids(cands))
  }

  ghost predicate Full(c: Candidate, chosen: seq<Candidate>, max: nat) {
    |chosen| == max && forall s | s in chosen :: s.dist <= c.dist
  }

  /** The outcome of the filter: sorted, spread, and nothing left out without a reason. */
  ghost predicate Filtered(cands: seq<Candidate>, max: nat, metric: Metric,
                           chosen: seq<Candidate>, removed: seq<Id>)
  {
    && |chosen| <= max
    && ByDistance(chosen) && Spread(chosen, metric)
    && (max > 0 && cands != [] ==> chosen != [] && forall c | c in cands :: chosen[0].dist <= c.dist)
    && forall c | c in cands && c.id in removed ::
         Shadowed(c, chosen, metric) || Full(c, chosen, max)
  }

  method FitsAmong(c: Candidate, chosen: seq<Candidate>, metric: Metric) returns (good: bool)
    ensures good <==> forall j | 0 <= j < |chosen| :: metric(chosen[j].id, c.id) >= c.dist
  {
    good := true;
    for i := 0 to |chosen|
      invariant forall j | 0 <= j < i :: metric(chosen[j].id, c.id) >= c.dist
    {
      if metric(chosen[i].id, c.id) < c.dist {
        return false;
      }
    }
  }

  /** State of the filter after the first k candidates, in sorted order. */
  ghost predicate Filtering(sorted: seq<Candidate>, k: nat, max: nat, metric: Metric,
                            chosen: seq<Candidate>, removed: seq<Id>)
  {
    && k <= |sorted| && |chosen| <= max
    && Splits(sorted[..k], chosen, removed)
    && ByDistance(chosen) && Spread(chosen, metric)
    && (k > 0 && max > 0 ==> chosen != [] && chosen[0] == sorted[0])
    && forall c | c in sorted[..k] && c.id in removed ::
         Shadowed(c, chosen, metric) || Full(c, chosen, max)
  }

  method SelectNeighbors(cands: seq<Candidate>, max: nat, metric: Metric)
    returns (chosen: seq<Candidate>, removed: seq<Id>)
    requires NoDup(Ids(cands))
    ensures Splits(cands, chosen, removed)
    ensures |cands| < max ==> chosen == cands && removed == []
    ensures |cands| >= max ==> Filtered(cands, max, metric, chosen, removed)
  {
    if |cands| < max {
      return cands, [];
    }
    var sorted := SortByDistance(cands);
    chosen, removed := FilterSorted(sorted, max, metric);
    FilteringDone(cands, sorted, max, metric, chosen, removed);
  }

  lemma NothingFiltered(sorted: seq<Candidate>, max: nat, metric: Metric)
    requires NoDup(Ids(sorted)) && ByDistance(sorted)
    ensures Filtering(sorted, 0, max, metric, [], [])
  {
  }

  /** Takes candidates nearest first, as long as there is room, and skips the shadowed ones. */
  method FilterSorted(sorted: seq<Candidate>, max: nat, metric: Metric)
    returns (chosen: seq<Candidate>, removed: seq<Id>)
    requires NoDup(Ids(sorted)) && ByDistance(sorted)
    ensures Filtering(sorted, |sorted|, max, metric, chosen, removed)
  {
    hide Filtering, ByDistance, NoDup;
    chosen, removed := [], [];
    var k := 0;
    NothingFiltered(sorted, max, metric);
    while k < |sorted| && |chosen| < max
      invariant k <= |sorted| && |chosen| <= max
      invariant Filtering(sorted, k, max, metric, chosen, removed)
    {
      var good := FitsAmong(sorted[k], chosen, metric);
      if good {
        Accept(sorted, k, max, metric, chosen, removed);
        chosen := chosen + [sorted[k]];
      } else {
        Reject(sorted, k, max, metric, chosen, removed);
        removed := removed + [sorted[k].id];
      }
      k := k + 1;
    }
    removed := RemoveRest(sorted, k, max, metric, chosen, removed);
  }

  /** Everything after the last chosen candidate is left out. */
  method RemoveRest(sorted: seq<Candidate>, from: nat, ghost max: nat, ghost metric: Metric,
                    ghost chosen: seq<Candidate>, before: seq<Id>)
    returns (removed: seq<Id>)
    requires NoDup(Ids(sorted)) && ByDistance(sorted)
    requires Filtering(sorted, from, max, metric, chosen, before) && (from < |sorted| ==> |chosen| == max)
    ensures Filtering(sorted, |sorted|, max, metric, chosen, removed)
  {
    removed := before;
    var k := from;
    while k < |sorted|
      invariant k <= |sorted|
      invariant Filtering(sorted, k, max, metric, chosen, removed)
    {
      hide Filtering, ByDistance, NoDup;
      Reject(sorted, k, max, metric, chosen, removed);
      removed := removed + [sorted[k].id];
      k := k + 1;
    }
  }

  lemma FilteringDone(cands: seq<Candidate>, sorted: seq<Candidate>, max: nat, metric: Metric,
                      chosen: seq<Candidate>, removed: seq<Id>)
    requires SameCandidates(sorted, cands) && ByDistance(sorted)
    requires Filtering(sorted, |sorted|, max, metric, chosen, removed)
    ensures Splits(cands, chosen, removed) && Filtered(cands, max, metric, chosen, removed)
  {
    assert sorted[..|sorted|] == sorted;
    SameIds(sorted, cands);
    forall c | c in cands ensures c in sorted && sorted[0].dist <= c.dist {
      assert c in Elems(sorted);
    }
  }

  lemma Accept(sorted: seq<Candidate>, k: nat, max: nat, metric: Metric,
               chosen: seq<Candidate>, removed: seq<Id>)
    requires NoDup(Ids(sorted)) && ByDistance(sorted)
    requires Filtering(sorted, k, max, metric, chosen, removed)
    requires k < |sorted| && |chosen| < max
    requires forall j | 0 <= j < |chosen| :: metric(chosen[j].id, sorted[k].id) >= sorted[k].dist
    ensures Filtering(sorted, k + 1, max, metric, chosen + [sorted[k]], removed)
  {
    NextCandidate(sorted, k, chosen, removed);
    TakenComeFirst(sorted, k, chosen);
    forall c | c in sorted[..k + 1] && c.id in removed
      ensures Shadowed(c, chosen + [sorted[k]], metric)
    {
      assert Shadowed(c, chosen, metric);
    }
  }

  lemma Reject(sorted: seq<Candidate>, k: nat, max: nat, metric: Metric,
               chosen: seq<Candidate>, removed: seq<Id>)
    requires NoDup(Ids(sorted)) && ByDistance(sorted)
    requires Filtering(sorted, k, max, metric, chosen, removed)
    requires k < |sorted|
    requires |chosen| == max || exists j | 0 <= j < |chosen| :: metric(chosen[j].id, sorted[k].id) < sorted[k].dist
    ensures Filtering(sorted, k + 1, max, metric, chosen, removed + [sorted[k].id])
  {
    NextCandidate(sorted, k, chosen, removed);
    TakenComeFirst(sorted, k, chosen);
    assert Shadowed(sorted[k], chosen, metric) || Full(sorted[k], chosen, max);
    forall c | c in sorted[..k + 1] && c.id in removed + [sorted[k].id]
      ensures Shadowed(c, chosen, metric) || Full(c, chosen, max)
    {
      if c.id in removed {
        assert c in sorted[..k];
      } else {
        SameIdSameCandidate(sorted, c, k);
      }
    }
  }

  lemma TakenComeFirst(sorted: seq<Candidate>, k: nat, chosen: seq<Candidate>)
    requires k < |sorted| && ByDistance(sorted) && Elems(chosen) <= Elems(sorted[..k])
    ensures forall s | s in chosen :: s.dist <= sorted[k].dist
    ensures k == 0 ==> chosen == []
  {
    forall s | s in chosen ensures k > 0 && s.dist <= sorted[k].dist {
      assert s in Elems(sorted[..k]);
    }
    if chosen != [] {
      assert chosen[0] in chosen;
    }
  }

  lemma SameIdSameCandidate(sorted: seq<Candidate>, c: Candidate, k: nat)
    requires NoDup(Ids(sorted)) && c in sorted && k < |sorted| && c.id == sorted[k].id
    ensures c == sorted[k]
  {
  }

  /** Whichever side the next candidate goes to, the split stays a split. */
  lemma NextCandidate(sorted: seq<Candidate>, k: nat, chosen: seq<Candidate>, removed: seq<Id>)
    requires k < |sorted| && NoDup(Ids(sorted))
    requires Splits(sorted[..k], chosen, removed)
    ensures sorted[k].id !in Ids(chosen) && sorted[k].id !in removed
    ensures Splits(sorted[..k + 1], chosen + [sorted[k]], removed)
    ensures Splits(sorted[..k + 1], chosen, removed + [sorted[k].id])
    ensures sorted[..k + 1] == sorted[..k] + [sorted[k]]
    ensures forall c | c in sorted[..k + 1] && c.id in removed :: c in sorted[..k]
  {
    var c, taken := sorted[k], sorted[..k];
    assert sorted[..k + 1] == taken + [c];
    assert c.id !in Ids(taken) by {
      assert forall i | 0 <= i < k :: Ids(taken)[i] == Ids(sorted)[i];
      assert Ids(sorted)[k] == c.id;
    }
    assert Ids(taken + [c]) == Ids(taken) + [c.id];
    assert Ids(chosen + [c]) == Ids(chosen) + [c.id];
    assert Elems(Ids(taken) + [c.id]) == Elems(Ids(taken)) + {c.id};
    assert Elems(taken + [c]) == Elems(taken) + {c};
    assert Elems(chosen + [c]) == Elems(chosen) + {c};
    assert c.id !in Elems(Ids(chosen)) + Elems(removed);
    NoDupAppend(removed, c.id);
    NoDupAppend(Ids(chosen), c.id);
  }

  lemma SameIds(a: seq<Candidate>, b: seq<Candidate>)
    requires Elems(a) == Elems(b)
    ensures Elems(Ids(a)) == Elems(Ids(b))
  {
    IdsOf(a, b);
    IdsOf(b, a);
  }

  lemma IdsOf(a: seq<Candidate>, b: seq<Candidate>)
    requires Elems(a) <= Elems(b)
    ensures Elems(Ids(a)) <= Elems(Ids(b))
  {
    forall x | x in Ids(a) ensures x in Ids(b) {
      var i :| 0 <= i < |a| && Ids(a)[i] == x;
      assert a[i] in Elems(b);
      var j :| 0 <= j < |b| && b[j] == a[i];
      assert Ids(b)[j] == x;
    }
  }

  /** `chosen` is what the filter keeps of `cands` as neighbours of `origin`, nearest first. */
  ghost predicate WellChosen(cands: set<Id>, origin: Id, max: nat, metric: Metric, chosen: seq<Id>) {
    && |chosen| <= max
    && (forall i, j :: 0 <= i < j < |chosen| ==>
          && metric(chosen[i], origin) <= metric(chosen[j], origin)
          && metric(chosen[i], chosen[j]) >= metric(chosen[j], origin))
    && (max > 0 && cands != {} ==>
          chosen != [] && forall c | c in cands :: metric(chosen[0], origin) <= metric(c, origin))
    && forall c | c in cands && c !in chosen ::
         || (exists s | s in chosen :: metric(s, origin) <= metric(c, origin) && metric(s, c) < metric(c, origin))
         || (|chosen| == max && forall s | s in chosen :: metric(s, origin) <= metric(c, origin))
  }

  /** Filters a list of ids by their distances to `origin`. */
  method SelectAround(origin: Id, ids: seq<Id>, max: nat, metric: Metric)
    returns (chosen: seq<Id>, removed: seq<Id>)
    requires NoDup(ids) && |ids| >= max
    ensures NoDup(chosen) && NoDup(removed) && Elems(chosen) !! Elems(removed)
    ensures Elems(chosen) + Elems(removed) == Elems(ids)
    ensures WellChosen(Elems(ids), origin, max, metric, chosen)
  {
    var cands := seq(|ids|, i requires 0 <= i < |ids| => Candidate(metric(ids[i], origin), ids[i]));
    assert Ids(cands) == ids;
    var picked;
    picked, removed := SelectNeighbors(cands, max, metric);
    chosen := Ids(picked);
    FilteredIsWellChosen(cands, origin, max, metric, picked, removed);
  }

  lemma FilteredIsWellChosen(cands: seq<Candidate>, origin: Id, max: nat, metric: Metric,
                             picked: seq<Candidate>, removed: seq<Id>)
    requires forall c | c in cands :: c.dist == metric(c.id, origin)
    requires Splits(cands, picked, removed) && Filtered(cands, max, metric, picked, removed)
    ensures WellChosen(Elems(Ids(cands)), origin, max, metric, Ids(picked))
  {
    forall i | 0 <= i < |picked| ensures picked[i].dist == metric(Ids(picked)[i], origin) {
      assert picked[i] in Elems(cands);
    }
    forall x | x in Ids(cands) ensures exists c | c in cands :: c.id == x {
      var i :| 0 <= i < |cands| && Ids(cands)[i] == x;
      assert cands[i].id == x;
    }
    forall s | s in Ids(picked) ensures exists c | c in picked :: c.id == s && c.dist == metric(s, origin) {
      var i :| 0 <= i < |picked| && Ids(picked)[i] == s;
      assert picked[i].id == s;
    }
    forall x | x in Elems(Ids(cands)) && x !in Ids(picked)
      ensures
        || (exists s | s in Ids(picked) :: metric(s, origin) <= metric(x, origin) && metric(s, x) < metric(x, origin))
        || (|picked| == max && forall s | s in Ids(picked) :: metric(s, origin) <= metric(x, origin))
    {
      var c :| c in cands && c.id == x;
      assert x in Elems(removed);
      if Shadowed(c, picked, metric) {
        var s :| s in picked && s.dist <= c.dist && metric(s.id, c.id) < c.dist;
        var i :| 0 <= i < |picked| && picked[i] == s;
        assert Ids(picked)[i] == s.id;
      }
    }
  }
}

/**
 * Deleting a label with many vectors in place: the swap jobs are settled once per vector, and the stale
 * keys of their lookup are erased only after the last one.  An id freed early can by then be the key of
 * a job that is still waiting.
 */
module InPlaceLoop {
  import opened Seqs
  import opened LevelGraphs
  import opened TieredJobs
  import opened SwapJobs
  import opened LabelLookup

  // ----- The ids the loop comes across -----

  /** The list of the label after its element at position i was taken out of n. */
  function NextList(ids: seq<Id>, i: nat, n: nat): (next: seq<Id>)
    requires i < |ids|
    ensures |next| == |ids|
  {
    if n - 1 != ids[i] && n - 1 in ids[i + 1..] then ReplaceFromEnd(ids, n - 1, ids[i]) else ids
  }

  /** The ids under which the elements of the list, from position i on, are taken out of n in turn. */
  function Turns(ids: seq<Id>, i: nat, n: nat): (ds: seq<Id>)
    requires i <= |ids| <= n + i
    ensures |ds| == |ids| - i
    decreases |ids| - i
  {
    if i == |ids| then [] else [ids[i]] + Turns(NextList(ids, i, n), i + 1, n - 1)
  }

  /** From position i on the list has distinct elements among n. */
  ghost predicate LabelList(ids: seq<Id>, i: nat, n: int) {
    && i <= |ids| && (forall j | i <= j < |ids| :: 0 <= ids[j] < n)
    && forall j, k | i <= j < k < |ids| :: ids[j] != ids[k]
  }

  lemma NextListOk(ids: seq<Id>, i: nat, n: nat)
    requires LabelList(ids, i, n) && i < |ids|
    ensures LabelList(NextList(ids, i, n), i + 1, n - 1)
    ensures forall j | i < j < |ids| :: NextList(ids, i, n)[j] == if ids[j] == n - 1 then ids[i] else ids[j]
  {
    var rest := ids[i + 1..];
    assert forall j | i < j < |ids| :: ids[j] == rest[j - i - 1];
    if n - 1 != ids[i] && n - 1 in rest {
      ReplaceFromEndTail(ids, n - 1, ids[i], i + 1);
    }
  }

  /** The list of a label is rewritten in just this way when its elements are removed in turn. */
  lemma ListFollows(ids: seq<Id>, i: nat, labels: seq<Label>, dead: set<Id>, key: Label)
    requires i < |ids| && Tracks(ids, i, labels, dead, key)
    ensures NextList(ids, i, |labels|) == ListAfterMove(ids, labels, dead, key, ids[i])
    ensures LabelList(ids, i, |labels|)
  {
    var tail, last := ids[i..], |labels| - 1;
    assert forall j | i <= j < |ids| :: ids[j] == tail[j - i];
    forall j | i <= j < |ids| ensures 0 <= ids[j] < |labels| {
      assert ids[j] in tail;
    }
    assert last in tail <==> last == ids[i] || last in ids[i + 1..] by {
      assert tail == [ids[i]] + ids[i + 1..];
    }
  }

  // ----- The jobs -----

  /** The lookup never leads to a job that is gone. */
  ghost predicate Leads(jobs: Jobs) {
    forall key | key in jobs.idToSwap :: jobs.idToSwap[key] in jobs.swap
  }

  /** The jobs after the elements `ds`, each under the id it has by then, were taken out of n. */
  ghost function Settled(jobs: Jobs, ds: seq<Id>, n: nat, removed: seq<Id>): Jobs
    requires Leads(jobs) && |ds| <= n
    decreases |ds|
  {
    if ds == [] then jobs.(idToSwap := jobs.idToSwap - Elems(removed))
    else Settled(Retarget(jobs, ds[0], n - 1, removed), ds[1..], n - 1, removed + [StaleKey(jobs, ds[0], n - 1, removed)])
  }

  /** The elements with a swap job, under the ids they have afterwards. */
  function TrackedAfter(tracked: set<Id>, ds: seq<Id>, n: nat): set<Id>
    requires |ds| <= n
    decreases |ds|
  {
    if ds == [] then tracked else TrackedAfter(RenamedKeys(tracked, n - 1, ds[0]), ds[1..], n - 1)
  }

  /** Elements without a swap job of their own. */
  predicate Untracked(tracked: set<Id>, ds: seq<Id>, n: nat)
    requires |ds| <= n
    decreases |ds|
  {
    ds == [] || (0 <= ds[0] < n && ds[0] !in tracked && Untracked(RenamedKeys(tracked, n - 1, ds[0]), ds[1..], n - 1))
  }

  /** A waiting element moves to an id that an earlier turn has put down for erasure. */
  predicate Collides(tracked: set<Id>, ds: seq<Id>, n: nat, stale: set<Id>)
    requires |ds| <= n
    decreases |ds|
  {
    ds != [] &&
    var (d, last) := (ds[0], n - 1);
    || (last in tracked && d in stale)
    || Collides(RenamedKeys(tracked, last, d), ds[1..], last, stale + {if last in tracked then last else d})
  }

  /** Within the loop: the jobs and the tracked elements pair up, keys put down for erasure aside. */
  ghost predicate InTurn(jobs: Jobs, tracked: set<Id>, removed: seq<Id>) {
    && Paired(jobs, tracked) && Leads(jobs)
    && jobs.idToSwap.Keys <= tracked + Elems(removed) && Elems(removed) !! tracked
  }

  lemma TurnKeepsPairs(jobs: Jobs, d: Id, last: nat, tracked: set<Id>, removed: seq<Id>)
    requires InTurn(jobs, tracked, removed) && d !in tracked && (last in tracked ==> d !in removed)
    ensures StaleKey(jobs, d, last, removed) == if last in tracked then last else d
    ensures InTurn(Retarget(jobs, d, last, removed), RenamedKeys(tracked, last, d),
                   removed + [StaleKey(jobs, d, last, removed)])
  {
  }

  /** Once a tracked id is down for erasure, a tracked element loses its key. */
  lemma {:induction false} DoomedKey(jobs: Jobs, ds: seq<Id>, n: nat, tracked: set<Id>, removed: seq<Id>, x: Id) returns (y: Id)
    requires Leads(jobs) && |ds| <= n && Untracked(tracked, ds, n) && x in tracked && x in removed
    ensures y in TrackedAfter(tracked, ds, n) && y !in Settled(jobs, ds, n, removed).idToSwap
    decreases |ds|
  {
    if ds == [] {
      y := x;
    } else {
      var d, last := ds[0], n - 1;
      var key := StaleKey(jobs, d, last, removed);
      assert x in removed + [key] && key in removed + [key];
      y := DoomedKey(Retarget(jobs, d, last, removed), ds[1..], last, RenamedKeys(tracked, last, d), removed + [key],
                     if x == last then d else x);
    }
  }

  /** Without a collision, the jobs pair up at the end; a collision loses a waiting element's key. */
  lemma {:induction false} LoopFrom(jobs: Jobs, ds: seq<Id>, n: nat, tracked: set<Id>, removed: seq<Id>)
    requires InTurn(jobs, tracked, removed) && |ds| <= n && Untracked(tracked, ds, n)
    ensures Paired(Settled(jobs, ds, n, removed), TrackedAfter(tracked, ds, n))
       <==> !Collides(tracked, ds, n, Elems(removed))
    decreases |ds|
  {
    if ds != [] {
      var d, last := ds[0], n - 1;
      var after, key := Retarget(jobs, d, last, removed), StaleKey(jobs, d, last, removed);
      InElems(removed);
      if last in tracked && d in removed {
        var y := DoomedKey(after, ds[1..], last, RenamedKeys(tracked, last, d), removed + [key], d);
      } else {
        TurnKeepsPairs(jobs, d, last, tracked, removed);
        LoopFrom(after, ds[1..], last, RenamedKeys(tracked, last, d), removed + [key]);
        assert Elems(removed + [key]) == Elems(removed) + {key};
      }
    } else {
      InElems(removed);
    }
  }

  lemma {:induction false} TurnsAreUntracked(ids: seq<Id>, i: nat, n: nat, tracked: set<Id>)
    requires LabelList(ids, i, n) && |ids| <= n + i && NoneTracked(tracked, ids, i)
    ensures Untracked(tracked, Turns(ids, i, n), n)
    decreases |ids| - i
  {
    hide RenamedKeys, NextList, NoneTracked;
    if i < |ids| {
      NextListOk(ids, i, n);
      NextUntracked(ids, i, n, tracked);
      hide LabelList;
      var rest := Turns(NextList(ids, i, n), i + 1, n - 1);
      TurnsAreUntracked(NextList(ids, i, n), i + 1, n - 1, RenamedKeys(tracked, n - 1, ids[i]));
      assert Turns(ids, i, n) == [ids[i]] + rest;
      assert ([ids[i]] + rest)[1..] == rest;
    }
  }

  ghost predicate NoneTracked(tracked: set<Id>, ids: seq<Id>, i: nat) {
    forall j | i <= j < |ids| :: ids[j] !in tracked
  }

  lemma NextUntracked(ids: seq<Id>, i: nat, n: nat, tracked: set<Id>)
    requires LabelList(ids, i, n) && i < |ids| && NoneTracked(tracked, ids, i)
    ensures ids[i] !in tracked
    ensures NoneTracked(RenamedKeys(tracked, n - 1, ids[i]), NextList(ids, i, n), i + 1)
  {
    NextListOk(ids, i, n);
    hide NextList;
  }

  lemma ListFits(ids: seq<Id>, n: nat)
    requires LabelList(ids, 0, n)
    ensures |ids| <= n
  {
    NoDupSize(ids);
    SubsetCardinality(Elems(ids), Below(n));
  }

  function Below(n: nat): (ids: set<Id>)
    ensures |ids| == n && forall v :: v in ids <==> 0 <= v < n
  {
    if n == 0 then {} else Below(n - 1) + {n - 1}
  }

  /**
   * Deleting in place the elements `ids` of a label, out of n, keeps swap jobs and waiting elements paired
   * if and only if no waiting element moves to an id put down for erasure: this can be told beforehand from
   * the list of the label, the number of elements, and those waiting.
   */
  lemma LoopKeepsPairsIff(jobs: Jobs, ids: seq<Id>, n: nat, tracked: set<Id>)
    requires Paired(jobs, tracked) && jobs.idToSwap.Keys == tracked && LabelList(ids, 0, n)
    requires NoneTracked(tracked, ids, 0)
    ensures Leads(jobs) && |ids| <= n
    ensures var ds := Turns(ids, 0, n);
      Paired(Settled(jobs, ds, n, []), TrackedAfter(tracked, ds, n)) <==> !Collides(tracked, ds, n, {})
  {
    var none: seq<Id> := [];
    assert Elems(none) == {};
    ListFits(ids, n);
    TurnsAreUntracked(ids, 0, n, tracked);
    LoopFrom(jobs, Turns(ids, 0, n), n, tracked, none);
  }

  /** A label with one vector is always safe, and so is any label while no element waits for its removal. */
  lemma {:induction false} SafeLabels(tracked: set<Id>, ds: seq<Id>, n: nat, stale: set<Id>)
    requires |ds| <= n && (tracked == {} || (|ds| <= 1 && stale == {}))
    ensures !Collides(tracked, ds, n, stale)
    decreases |ds|
  {
    if ds != [] {
      SafeLabels(RenamedKeys(tracked, n - 1, ds[0]), ds[1..], n - 1,
                 if |ds| == 1 then {} else stale + {ds[0]});
    }
  }

  /**
   * Elements 0 and 2 have the label, element 1 waits for its removal.  Taking out 0 renames 2 to 0 and
   * puts 0 down for erasure; taking out 0 again renames 1 to 0, and the key of its job is erased.
   */
  lemma TurnsCollide()
    ensures Turns([0, 2], 0, 3) == [0, 0] && Collides({1}, Turns([0, 2], 0, 3), 3, {})
  {
    var ids: seq<Id> := [0, 2];
    assert ids[0 + 1..] == [2] && ids[..1] == [0];
    assert ReplaceFromEnd(ids, 2, 0) == [0, 0];
    assert NextList([0, 0], 1, 2) == [0, 0];
    assert Turns([0, 0], 1, 2) == [0];
    assert Turns(ids, 0, 3) == [0, 0];
    assert RenamedKeys({1}, 2, 0) == {1};
  }

  lemma WaitingElementIsForgotten()
    ensures var jobs, ids := Jobs(map[7 := SwapJob(1, 0)], map[1 := 7], map[], map[], 1, 8), [0, 2];
      && Paired(jobs, {1}) && jobs.idToSwap.Keys == {1} && LabelList(ids, 0, 3) && Turns(ids, 0, 3) == [0, 0]
      && TrackedAfter({1}, Turns(ids, 0, 3), 3) == {0} && Settled(jobs, Turns(ids, 0, 3), 3, []).idToSwap == map[]
      && !Paired(Settled(jobs, Turns(ids, 0, 3), 3, []), {0})
  {
    TurnsCollide();
  }
}

/**
 * The array of scores of the flat buffer's batch iterator: the entries from a position on are still to
 * be returned; the slots of returned entries are filled up from the front or left behind.
 */
module ScoreSlots {
  import opened Seqs
  import opened NeighborSelection
  import opened Heaps

  /** A label occurs once from `start` on. */
  ghost predicate Distinct(scores: seq<Candidate>, start: nat) {
    forall i, j :: start <= i < j < |scores| ==> scores[i].id != scores[j].id
  }

  /** The entries from `start` on. */
  ghost function Rest(scores: seq<Candidate>, start: nat): set<Candidate>
    requires start <= |scores|
  {
    Elems(scores[start..])
  }

  lemma InRest(scores: seq<Candidate>, start: nat)
    requires start <= |scores|
    ensures forall c :: c in Rest(scores, start) <==> exists p :: start <= p < |scores| && scores[p] == c
  {
  }

  lemma RestSize(scores: seq<Candidate>, start: nat)
    requires start <= |scores| && Distinct(scores, start)
    ensures |Rest(scores, start)| == |scores| - start
  {
    NoDupSize(scores[start..]);
  }

  /** As many distinct entries as slots, all of them known by label: a label occurs once. */
  lemma {:induction false} AllDistinct(s: seq<Candidate>)
    requires |Elems(s)| == |s|
    requires forall a, b | a in s && b in s && a.id == b.id :: a == b
    ensures Distinct(s, 0)
  {
    if s != [] {
      var n := |s| - 1;
      var front := s[..n];
      assert s == front + [s[n]];
      assert Elems(s) == Elems(front) + {s[n]};
      ElemsBound(front);
      assert s[n] !in front;
      AllDistinct(front);
      assert forall i | 0 <= i < n :: s[i] == front[i] && front[i] in front;
    }
  }

  lemma {:induction false} ElemsBound(s: seq<Candidate>)
    ensures |Elems(s)| <= |s|
  {
    if s != [] {
      var n := |s| - 1;
      ElemsBound(s[..n]);
      assert s == s[..n] + [s[n]];
      assert Elems(s) == Elems(s[..n]) + {s[n]};
    }
  }

  // ----- Positions in increasing order -----

  ghost predicate Increasing(s: seq<nat>) {
    forall i, j :: 0 <= i < j < |s| ==> s[i] < s[j]
  }

  lemma {:induction false} Gaps(s: seq<nat>, i: nat, j: nat)
    requires Increasing(s) && i <= j < |s|
    ensures s[j] - s[i] >= j - i
  {
    if i < j {
      Gaps(s, i, j - 1);
    }
  }

  method InsertPosition(s: seq<nat>, p: nat) returns (r: seq<nat>)
    requires Increasing(s) && p !in s
    ensures Increasing(r) && |r| == |s| + 1 && forall x :: x in r <==> x in s || x == p
  {
    var n := 0;
    while n < |s| && s[n] < p
      invariant n <= |s| && forall i | 0 <= i < n :: s[i] < p
    {
      n := n + 1;
    }
    assert s == s[..n] + s[n..];
    r := s[..n] + [p] + s[n..];
  }

  /** The slots of the entries to return, each label's slot at `place`. */
  ghost predicate Placed(scores: seq<Candidate>, start: nat, place: map<int, nat>) {
    forall key | key in place :: start <= place[key] < |scores| && scores[place[key]].id == key
  }

  method SomeKey(keys: set<int>) returns (key: int)
    requires keys != {}
    ensures key in keys
  {
    assert (forall k :: k !in keys) ==> keys == {};
    key :| key in keys;
  }

  method Positions(ghost scores: seq<Candidate>, ghost start: nat, place: map<int, nat>) returns (s: seq<nat>)
    requires Placed(scores, start, place)
    ensures Increasing(s) && |s| == |place|
    ensures forall p :: p in s <==> exists key :: key in place && place[key] == p
  {
    s := [];
    var keys := place.Keys;
    while keys != {}
      invariant keys <= place.Keys && Increasing(s) && |s| + |keys| == |place|
      invariant forall p :: p in s <==> exists key :: key in place && key !in keys && place[key] == p
      decreases |keys|
    {
      var key := SomeKey(keys);
      s := InsertPosition(s, place[key]);
      keys := keys - {key};
    }
  }

  // ----- Filling up the slots -----

  /** `it` returned slots lie before `ind`. */
  ghost predicate Cursor(start: nat, s: seq<nat>, q: nat, ind: nat, it: nat, moved: seq<nat>) {
    && it <= q <= |s| && start <= ind && |moved| == ind - start - it && q + |moved| <= |s|
    && (forall k | 0 <= k < it :: s[k] < ind) && forall k | it <= k < |s| :: ind <= s[k]
  }

  /** `moved` are the slots before `ind` that are not returned. */
  ghost predicate Movers(start: nat, s: seq<nat>, ind: nat, moved: seq<nat>) {
    && (forall t | 0 <= t < |moved| :: start <= moved[t] < ind && moved[t] !in s)
    && forall p | start <= p < ind && p !in s :: p in moved
  }

  ghost predicate Reused(s: seq<nat>, from: nat, to: nat, p: nat)
    requires to <= |s|
  {
    exists k :: from <= k < to && s[k] == p
  }

  /** They were moved, in order, to the returned slots from number q on; nothing else changed. */
  ghost predicate Moves(scores0: seq<Candidate>, scores: seq<Candidate>, next: nat, s: seq<nat>, q: nat, moved: seq<nat>)
  {
    && |scores| == |scores0| && q + |moved| <= |s|
    && (forall k | 0 <= k < |s| :: s[k] < |scores|) && (forall t | 0 <= t < |moved| :: moved[t] < |scores|)
    && (forall t | 0 <= t < |moved| :: scores[s[q + t]] == scores0[moved[t]])
    && forall p | 0 <= p < |scores| && (p < next || !Reused(s, q, q + |moved|, p)) :: scores[p] == scores0[p]
  }

  ghost predicate Filling(scores0: seq<Candidate>, scores: seq<Candidate>, start: nat, next: nat, s: seq<nat>, q: nat,
                          ind: nat, it: nat, moved: seq<nat>)
  {
    Cursor(start, s, q, ind, it, moved) && Movers(start, s, ind, moved) && Moves(scores0, scores, next, s, q, moved)
  }

  /** The returned slots: as many as there are slots before `next`, the first q of them before it. */
  ghost predicate Slots(scores0: seq<Candidate>, start: nat, next: nat, s: seq<nat>, q: nat) {
    && Increasing(s) && start + |s| == next <= |scores0| && q <= |s|
    && (forall k | 0 <= k < |s| :: start <= s[k] < |scores0|)
    && (forall k | 0 <= k < q :: s[k] < next) && forall k | q <= k < |s| :: next <= s[k]
  }

  /** There is a slot left to compare with, and one to move to. */
  lemma SlotLeft(scores0: seq<Candidate>, scores: seq<Candidate>, start: nat, next: nat, s: seq<nat>, q: nat, ind: nat,
                 it: nat, moved: seq<nat>)
    requires Slots(scores0, start, next, s, q) && Filling(scores0, scores, start, next, s, q, ind, it, moved)
    requires ind < next
    ensures it < |s|
    ensures s[it] != ind ==> q + |moved| < |s| && ind !in s
    ensures s[it] == ind ==> it < q
  {
    if it > 0 {
      Gaps(s, 0, it - 1);
    }
    if it < q {
      Gaps(s, it, q - 1);
    }
    forall k | 0 <= k < |s| && s[it] != ind ensures s[k] != ind {
      if k > it {
        assert s[it] < s[k];
      }
    }
  }

  lemma SkipSlot(scores0: seq<Candidate>, scores: seq<Candidate>, start: nat, next: nat, s: seq<nat>, q: nat, ind: nat,
                 it: nat, moved: seq<nat>)
    requires Slots(scores0, start, next, s, q) && Filling(scores0, scores, start, next, s, q, ind, it, moved)
    requires ind < next && it < q && s[it] == ind
    ensures Filling(scores0, scores, start, next, s, q, ind + 1, it + 1, moved)
  {
  }

  lemma MoveSlot(scores0: seq<Candidate>, scores: seq<Candidate>, start: nat, next: nat, s: seq<nat>, q: nat, ind: nat,
                 it: nat, moved: seq<nat>)
    requires Slots(scores0, start, next, s, q) && Filling(scores0, scores, start, next, s, q, ind, it, moved)
    requires ind < next && it < |s| && s[it] != ind && ind !in s && q + |moved| < |s|
    ensures Filling(scores0, scores[s[q + |moved|] := scores[ind]], start, next, s, q, ind + 1, it, moved + [ind])
  {
    forall k | it <= k < |s| ensures ind + 1 <= s[k] {
      assert s[k] in s;
    }
    MoversNext(start, s, ind, moved);
    MovesNext(scores0, scores, next, s, q, moved, ind);
  }

  lemma MoversNext(start: nat, s: seq<nat>, ind: nat, moved: seq<nat>)
    requires Movers(start, s, ind, moved) && start <= ind && ind !in s
    ensures Movers(start, s, ind + 1, moved + [ind])
  {
  }

  lemma MovesNext(scores0: seq<Candidate>, scores: seq<Candidate>, next: nat, s: seq<nat>, q: nat, moved: seq<nat>, ind: nat)
    requires Moves(scores0, scores, next, s, q, moved) && ind < next <= |scores| && q + |moved| < |s|
    requires Increasing(s) && next <= s[q + |moved|]
    ensures Moves(scores0, scores[s[q + |moved|] := scores[ind]], next, s, q, moved + [ind])
  {
  }

  /** All is moved: what is left are the entries that are not returned. */
  lemma Filled(scores0: seq<Candidate>, scores: seq<Candidate>, start: nat, next: nat, s: seq<nat>, q: nat, it: nat,
               moved: seq<nat>)
    requires Slots(scores0, start, next, s, q) && Filling(scores0, scores, start, next, s, q, next, it, moved)
    ensures forall c :: c in Rest(scores, next)
                   <==> exists p :: start <= p < |scores0| && p !in s && scores0[p] == c
  {
    assert it < |s| ==> next <= s[it];
    assert q + |moved| == |s|;
    InRest(scores, next);
    forall p | start <= p < |scores0| && p !in s ensures scores0[p] in Rest(scores, next) {
      if p < next {
        var t :| 0 <= t < |moved| && moved[t] == p;
        assert scores[s[q + t]] == scores0[p];
      } else {
        assert !Reused(s, q, q + |moved|, p);
        assert scores[p] == scores0[p];
      }
    }
    forall p | next <= p < |scores| ensures exists o :: start <= o < |scores0| && o !in s && scores0[o] == scores[p] {
      if p in s {
        var k :| 0 <= k < |s| && s[k] == p;
        assert k >= q && scores[s[q + (k - q)]] == scores0[moved[k - q]];
      } else {
        assert !Reused(s, q, q + |moved|, p);
        assert scores[p] == scores0[p];
      }
    }
  }

  /** The slot of an entry that stays. */
  ghost predicate Stays(scores: seq<Candidate>, place: map<int, nat>, p: nat)
    requires p < |scores|
  {
    scores[p].id in place ==> place[scores[p].id] != p
  }

  /** Entries that stay move out of the first slots, into slots of entries that are returned. */
  method SwapScores(scores0: seq<Candidate>, start: nat, place: map<int, nat>, resNum: nat)
    returns (scores: seq<Candidate>, next: nat)
    requires start <= |scores0| && Placed(scores0, start, place) && resNum == |place|
    ensures |scores| == |scores0| && next == start + resNum <= |scores|
    ensures forall c :: c in Rest(scores, next)
                   <==> exists p :: start <= p < |scores0| && Stays(scores0, place, p) && scores0[p] == c
  {
    hide Filling, Slots, Increasing;
    var s := Positions(scores0, start, place);
    next := start + resNum;
    var reuse := 0;
    while reuse < |s| && s[reuse] < next
      invariant reuse <= |s| && forall k | 0 <= k < reuse :: s[k] < next
    {
      reuse := reuse + 1;
    }
    ghost var q := reuse;
    scores := scores0;
    var ind, it := start, 0;
    ghost var moved: seq<nat> := [];
    Start(scores0, start, next, place, s, q);
    while ind < next
      invariant start <= ind <= next <= |scores0| && it <= |s| && reuse == q + |moved|
      invariant forall k | 0 <= k < |s| :: s[k] < |scores0|
      invariant Filling(scores0, scores, start, next, s, q, ind, it, moved) && |scores| == |scores0|
    {
      SlotLeft(scores0, scores, start, next, s, q, ind, it, moved);
      if s[it] == ind {
        SkipSlot(scores0, scores, start, next, s, q, ind, it, moved);
        it := it + 1;
      } else {
        MoveSlot(scores0, scores, start, next, s, q, ind, it, moved);
        scores := scores[s[reuse] := scores[ind]];
        reuse, moved := reuse + 1, moved + [ind];
      }
      ind := ind + 1;
    }
    Filled(scores0, scores, start, next, s, q, it, moved);
    assert forall p | start <= p < |scores0| :: p !in s <==> Stays(scores0, place, p);
  }

  lemma Start(scores0: seq<Candidate>, start: nat, next: nat, place: map<int, nat>, s: seq<nat>, q: nat)
    requires start <= |scores0| && Placed(scores0, start, place) && Increasing(s) && next == start + |s|
    requires forall p :: p in s <==> exists key :: key in place && place[key] == p
    requires q <= |s| && (forall k | 0 <= k < q :: s[k] < next) && (q < |s| ==> next <= s[q])
    ensures next <= |scores0| && Slots(scores0, start, next, s, q)
    ensures Filling(scores0, scores0, start, next, s, q, start, 0, [])
  {
    forall k | 0 <= k < |s| ensures start <= s[k] < |scores0| {
      assert s[k] in s;
    }
    if s != [] {
      Gaps(s, 0, |s| - 1);
    }
  }
}

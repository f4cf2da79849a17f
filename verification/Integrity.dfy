/** The index's own check of its graph: it counts edges instead of comparing them. */
module Integrity {
  import opened Seqs
  import opened LevelGraphs
  import opened IndexModel

  /** The edge from the first to the last id, at the level in the middle. */
  type Arc = (Id, nat, Id)

  /** Every element has its rows at the levels it is in, and a link to an element is to a level it has. */
  ghost predicate Shaped(ix: Index) {
    && Within(ix.deleted, |ix.top|)
    && (forall v | 0 <= v < |ix.top| :: ix.top[v] < |ix.levels|)
    && (forall l | 0 <= l < |ix.levels| ::
          ix.levels[l].links.Keys == ix.levels[l].incoming.Keys == NodesAt(ix.top, l))
    && forall l, u, v | 0 <= l < |ix.levels| && Link(ix.levels[l], u, v) && 0 <= v < |ix.top| :: l <= ix.top[v]
  }

  ghost predicate HasRow(ix: Index, i: Id, l: nat) {
    l < |ix.levels| && i in ix.levels[l].links && i in ix.levels[l].incoming
  }

  lemma ShapeGivesRow(ix: Index, i: Id, l: nat)
    requires Shaped(ix) && 0 <= i < |ix.top| && l <= ix.top[i]
    ensures HasRow(ix, i, l)
  {
  }

  // ----- What is counted -----

  ghost function Arcs(ix: Index): set<Arc> {
    set l, u, v | 0 <= l < |ix.levels| && u in ix.levels[l].links && v in ix.levels[l].links[u] :: (u, l, v)
  }

  lemma InArcs(ix: Index, e: Arc)
    ensures e in Arcs(ix) <==> Edge(ix, e.1, e.0, e.2)
  {
  }

  ghost function MutualArcs(ix: Index): set<Arc> {
    set e | e in Arcs(ix) && Edge(ix, e.1, e.2, e.0)
  }

  ghost function ToRepair(ix: Index): set<Arc> {
    set e | e in Arcs(ix) && e.2 in ix.deleted
  }

  /** The arcs on record in the incoming arrays. */
  ghost function Recorded(ix: Index): set<Arc> {
    set l, v, u | 0 <= l < |ix.levels| && v in ix.levels[l].incoming && u in ix.levels[l].incoming[v] :: (u, l, v)
  }

  lemma InRecorded(ix: Index, e: Arc)
    ensures e in Recorded(ix)
       <==> e.1 < |ix.levels| && e.2 in ix.levels[e.1].incoming && e.0 in ix.levels[e.1].incoming[e.2]
  {
    var u, l, v := e.0, e.1, e.2;
    if l < |ix.levels| && v in ix.levels[l].incoming && u in ix.levels[l].incoming[v] {
      assert (u, l, v) in Recorded(ix);
    }
  }

  /** The sizes of the incoming arrays of the elements before i, and of i below level l. */
  ghost function RecordCount(ix: Index, i: nat, l: nat): nat
    requires Shaped(ix) && i <= |ix.top| && (l > 0 ==> i < |ix.top| && l <= ix.top[i] + 1)
    decreases i, l
  {
    if l > 0 then
      ShapeGivesRow(ix, i, l - 1);
      RecordCount(ix, i, l - 1) + |ix.levels[l - 1].incoming[i]|
    else if i > 0 then RecordCount(ix, i - 1, ix.top[i - 1] + 1)
    else 0
  }

  /** A row the check lets pass: existing elements, not the element itself, none twice. */
  ghost predicate RowSound(ix: Index, i: Id, l: nat)
    requires HasRow(ix, i, l)
  {
    var row := ix.levels[l].links[i];
    NoDup(row) && forall v | v in row :: 0 <= v < |ix.top| && v != i
  }

  ghost predicate RowsSound(ix: Index, i: nat, l: nat) {
    forall u, m | HasRow(ix, u, m) && Earlier(u, m, i, l) :: RowSound(ix, u, m)
  }

  predicate Earlier(u: Id, m: nat, i: nat, l: nat) {
    u < i || (u == i && m < l)
  }

  /** The arcs of the rows before row l of i. */
  ghost function Before(arcs: set<Arc>, i: nat, l: nat): set<Arc> {
    set e | e in arcs && Earlier(e.0, e.1, i, l)
  }

  ghost function Of(arcs: set<Arc>, i: nat, l: nat): set<Arc> {
    set e | e in arcs && e.0 == i && e.1 == l
  }

  lemma BeforeStep(arcs: set<Arc>, i: nat, l: nat)
    ensures |Before(arcs, i, l + 1)| == |Before(arcs, i, l)| + |Of(arcs, i, l)|
  {
    assert Before(arcs, i, l + 1) == Before(arcs, i, l) + Of(arcs, i, l);
    assert Before(arcs, i, l) !! Of(arcs, i, l);
  }

  /** Nothing is left of an element above its top level. */
  lemma BeforeNext(ix: Index, arcs: set<Arc>, i: nat)
    requires Shaped(ix) && i < |ix.top| && forall e | e in arcs :: HasRow(ix, e.0, e.1)
    ensures Before(arcs, i, ix.top[i] + 1) == Before(arcs, i + 1, 0)
  {
  }

  // ----- The check of one row -----

  /** The targets of a row as arcs. */
  ghost function Targets(vs: set<Id>, i: Id, l: nat): set<Arc> {
    set v | v in vs :: (i, l, v)
  }

  lemma TargetsSize(vs: set<Id>, i: Id, l: nat)
    ensures |Targets(vs, i, l)| == |vs|
  {
    if vs != {} {
      assert (forall v :: v !in vs) ==> vs == {};
      var v :| v in vs;
      TargetsSize(vs - {v}, i, l);
      assert Targets(vs, i, l) == Targets(vs - {v}, i, l) + {(i, l, v)};
    }
  }

  /** The j first links of a row: sound, and counted. */
  ghost predicate RowCounted(ix: Index, i: Id, l: nat, j: nat, seen: set<Id>, mutual: seq<Id>, repair: seq<Id>)
    requires HasRow(ix, i, l)
  {
    var row := ix.levels[l].links[i];
    && j <= |row| && seen == Elems(row[..j])
    && (forall k | 0 <= k < j :: 0 <= row[k] < |ix.top| && row[k] != i)
    && Filtered(row[..j], v => Edge(ix, l, v, i), mutual)
    && Filtered(row[..j], v => v in ix.deleted, repair)
  }

  lemma RowCountedStep(ix: Index, i: Id, l: nat, j: nat, seen: set<Id>, mutual: seq<Id>, repair: seq<Id>)
    requires HasRow(ix, i, l) && RowCounted(ix, i, l, j, seen, mutual, repair) && j < |ix.levels[l].links[i]|
    requires var v := ix.levels[l].links[i][j]; 0 <= v < |ix.top| && v != i
    ensures var v := ix.levels[l].links[i][j];
      RowCounted(ix, i, l, j + 1, seen + {v}, if Edge(ix, l, v, i) then mutual + [v] else mutual,
                 if v in ix.deleted then repair + [v] else repair)
  {
    hide Filtered;
    var row := ix.levels[l].links[i];
    assert row[..j + 1] == row[..j] + [row[j]];
    FilteredStep(row[..j], v => Edge(ix, l, v, i), mutual, row[j]);
    FilteredStep(row[..j], v => v in ix.deleted, repair, row[j]);
  }

  lemma RowCountedEnd(ix: Index, i: nat, l: nat, seen: set<Id>, mutual: seq<Id>, repair: seq<Id>)
    requires HasRow(ix, i, l) && RowCounted(ix, i, l, |ix.levels[l].links[i]|, seen, mutual, repair)
    ensures |seen| == |ix.levels[l].links[i]| <==> RowSound(ix, i, l)
    ensures RowSound(ix, i, l) ==>
      && |Of(Arcs(ix), i, l)| == |ix.levels[l].links[i]|
      && |Of(MutualArcs(ix), i, l)| == |mutual| && |Of(ToRepair(ix), i, l)| == |repair|
  {
    var row := ix.levels[l].links[i];
    assert row[..|row|] == row;
    SizeDecides(row);
    if NoDup(row) {
      RowSizes(ix, i, l, mutual, repair);
    }
  }

  // ----- In-degrees -----

  /** The number of links found to each element at each level, all zero at first. */
  type Inbound = map<(Id, nat), nat>

  function At(inbound: Inbound, v: Id, m: nat): nat {
    if (v, m) in inbound then inbound[(v, m)] else 0
  }

  ghost function Into(arcs: set<Arc>, v: Id, m: nat): set<Arc> {
    set e | e in arcs && e.2 == v && e.1 == m
  }

  ghost function InDegree(ix: Index, v: Id, m: nat): nat {
    |Into(Arcs(ix), v, m)|
  }

  /** One more link found for each one in a row of the level. */
  ghost predicate Tallied(before: Inbound, after: Inbound, l: nat, row: seq<Id>) {
    forall v, m: nat :: At(after, v, m) == At(before, v, m) + if m == l then multiset(row)[v] else 0
  }

  lemma TallyStep(before: Inbound, after: Inbound, l: nat, row: seq<Id>, j: nat)
    requires j < |row| && Tallied(before, after, l, row[..j])
    ensures Tallied(before, after[(row[j], l) := At(after, row[j], l) + 1], l, row[..j + 1])
  {
    assert row[..j + 1] == row[..j] + [row[j]];
  }

  /** The links of the rows before row l of i were found. */
  ghost predicate Inbounds(ix: Index, i: nat, l: nat, inbound: Inbound) {
    forall v, m: nat :: At(inbound, v, m) == |Into(Before(Arcs(ix), i, l), v, m)|
  }

  lemma {:induction false} OnceInRow(row: seq<Id>, v: Id)
    requires NoDup(row)
    ensures multiset(row)[v] == if v in row then 1 else 0
  {
    if row != [] {
      var n := |row| - 1;
      OnceInRow(row[..n], v);
      assert row == row[..n] + [row[n]];
    }
  }

  lemma InboundsStep(ix: Index, i: nat, l: nat, inbound: Inbound, after: Inbound)
    requires Inbounds(ix, i, l, inbound) && HasRow(ix, i, l) && RowSound(ix, i, l)
    requires Tallied(inbound, after, l, ix.levels[l].links[i])
    ensures Inbounds(ix, i, l + 1, after)
  {
    var row, arcs := ix.levels[l].links[i], Arcs(ix);
    forall v, m: nat ensures At(after, v, m) == |Into(Before(arcs, i, l + 1), v, m)| {
      OnceInRow(row, v);
      IntoStep(ix, i, l, v, m);
      assert At(inbound, v, m) == |Into(Before(arcs, i, l), v, m)|;
    }
  }

  lemma IntoStep(ix: Index, i: nat, l: nat, v: Id, m: nat)
    requires HasRow(ix, i, l)
    ensures |Into(Before(Arcs(ix), i, l + 1), v, m)|
         == |Into(Before(Arcs(ix), i, l), v, m)| + if m == l && v in ix.levels[l].links[i] then 1 else 0
  {
    var arcs, now := Arcs(ix), Into(Before(Arcs(ix), i, l), v, m);
    var more: set<Arc> := if m == l && v in ix.levels[l].links[i] then {(i, l, v)} else {};
    hide Arcs;
    forall e ensures e in Into(Before(arcs, i, l + 1), v, m) <==> e in now + more {
      InArcs(ix, e);
      assert e == (e.0, e.1, e.2);
    }
    assert Into(Before(arcs, i, l + 1), v, m) == now + more;
  }

  lemma InboundsNext(ix: Index, i: nat, inbound: Inbound)
    requires Shaped(ix) && i < |ix.top| && Inbounds(ix, i, ix.top[i] + 1, inbound)
    ensures Inbounds(ix, i + 1, 0, inbound)
  {
    forall e | e in Arcs(ix) ensures HasRow(ix, e.0, e.1) {
      InArcs(ix, e);
    }
    BeforeNext(ix, Arcs(ix), i);
  }

  lemma InboundsAll(ix: Index, inbound: Inbound)
    requires Shaped(ix) && Inbounds(ix, |ix.top|, 0, inbound)
    ensures forall v, m: nat :: At(inbound, v, m) == InDegree(ix, v, m)
  {
    forall e | e in Arcs(ix) ensures e.0 < |ix.top| {
      InArcs(ix, e);
      assert HasRow(ix, e.0, e.1);
    }
    assert Before(Arcs(ix), |ix.top|, 0) == Arcs(ix);
  }

  ghost predicate HasLevel(ix: Index, v: Id, m: nat) {
    0 <= v < |ix.top| && m <= ix.top[v]
  }

  /** The largest in-degree before level l of i, or zero. */
  ghost predicate LargestBefore(ix: Index, i: nat, l: nat, x: nat) {
    && (forall v, m: nat | HasLevel(ix, v, m) && Earlier(v, m, i, l) :: InDegree(ix, v, m) <= x)
    && (x == 0 || exists v, m: nat :: HasLevel(ix, v, m) && InDegree(ix, v, m) == x)
  }

  ghost predicate SmallestBefore(ix: Index, i: nat, l: nat, x: nat) {
    && (forall v, m: nat | HasLevel(ix, v, m) && Earlier(v, m, i, l) :: x <= InDegree(ix, v, m))
    && (x == SIZE_MAX || exists v, m: nat :: HasLevel(ix, v, m) && InDegree(ix, v, m) == x)
  }

  ghost predicate IsLargest(ix: Index, x: nat) {
    LargestBefore(ix, |ix.top|, 0, x)
  }

  ghost predicate IsSmallest(ix: Index, x: nat) {
    SmallestBefore(ix, |ix.top|, 0, x)
  }

  lemma ExtremesStep(ix: Index, i: nat, l: nat, largest: nat, smallest: nat, x: nat)
    requires LargestBefore(ix, i, l, largest) && SmallestBefore(ix, i, l, smallest)
    requires HasLevel(ix, i, l) && x == InDegree(ix, i, l)
    ensures LargestBefore(ix, i, l + 1, if x > largest then x else largest)
    ensures SmallestBefore(ix, i, l + 1, if x < smallest then x else smallest)
  {
    hide InDegree;
    forall v, m: nat | HasLevel(ix, v, m) && Earlier(v, m, i, l + 1) ensures Earlier(v, m, i, l) || (v == i && m == l) {
    }
  }

  method Extremes(ix: Index, inbound: Inbound) returns (largest: nat, smallest: nat)
    requires forall v, m: nat :: At(inbound, v, m) == InDegree(ix, v, m)
    ensures IsLargest(ix, largest) && IsSmallest(ix, smallest)
  {
    hide InDegree, At, LargestBefore, SmallestBefore;
    largest, smallest := 0, SIZE_MAX;
    ExtremesStart(ix);
    for i := 0 to |ix.top|
      invariant LargestBefore(ix, i, 0, largest) && SmallestBefore(ix, i, 0, smallest)
    {
      for l := 0 to ix.top[i] + 1
        invariant LargestBefore(ix, i, l, largest) && SmallestBefore(ix, i, l, smallest)
      {
        var x := At(inbound, i, l);
        ExtremesStep(ix, i, l, largest, smallest, x);
        if x > largest {
          largest := x;
        }
        if x < smallest {
          smallest := x;
        }
      }
      ExtremesNext(ix, i, largest, smallest);
    }
  }

  lemma ExtremesStart(ix: Index)
    ensures LargestBefore(ix, 0, 0, 0) && SmallestBefore(ix, 0, 0, SIZE_MAX)
  {
  }

  lemma ExtremesNext(ix: Index, i: nat, largest: nat, smallest: nat)
    requires i < |ix.top|
    requires LargestBefore(ix, i, ix.top[i] + 1, largest) && SmallestBefore(ix, i, ix.top[i] + 1, smallest)
    ensures LargestBefore(ix, i + 1, 0, largest) && SmallestBefore(ix, i + 1, 0, smallest)
  {
    hide InDegree;
  }

  // ----- The check of one row, carried out -----

  method AnswersLink(row: seq<Id>, i: Id) returns (found: bool)
    ensures found <==> i in row
  {
    found := false;
    for r := 0 to |row|
      invariant i !in row[..r] && !found
    {
      if row[r] == i {
        return true;
      }
    }
  }

  method CheckRow(ix: Index, i: nat, l: nat, inbound: Inbound)
    returns (ok: bool, checked: nat, doubles: nat, dead: nat, counts: Inbound)
    requires Shaped(ix) && i < |ix.top| && l <= ix.top[i] && HasRow(ix, i, l)
    ensures ok <==> RowSound(ix, i, l)
    ensures ok ==> checked == |Of(Arcs(ix), i, l)|
    ensures ok ==> doubles == |Of(MutualArcs(ix), i, l)| && dead == |Of(ToRepair(ix), i, l)|
    ensures ok ==> Tallied(inbound, counts, l, ix.levels[l].links[i])
  {
    hide RowCounted, RowSound, Shaped, Tallied, At;
    var row := ix.levels[l].links[i];
    checked, doubles, dead, counts := 0, 0, 0, inbound;
    NothingTallied(inbound, l, row);
    var s: set<Id> := {};
    ghost var mutual: seq<Id>, repair: seq<Id> := [], [];
    RowCountedStart(ix, i, l);
    for j := 0 to |row|
      invariant checked == j && |mutual| == doubles && |repair| == dead
      invariant RowCounted(ix, i, l, j, s, mutual, repair) && Tallied(inbound, counts, l, row[..j])
    {
      var v := row[j];
      BadLink(ix, i, l, v);
      if !(0 <= v < |ix.top|) || v == i {
        return false, checked, doubles, dead, counts;
      }
      RowCountedStep(ix, i, l, j, s, mutual, repair);
      TargetHasRow(ix, i, l, v);
      if v in ix.deleted {
        dead, repair := dead + 1, repair + [v];
      }
      TallyStep(inbound, counts, l, row, j);
      counts := counts[(v, l) := At(counts, v, l) + 1];
      s := s + {v};
      checked := checked + 1;
      var answered := AnswersLink(ix.levels[l].links[v], i);
      if answered {
        doubles, mutual := doubles + 1, mutual + [v];
      }
    }
    RowCountedEnd(ix, i, l, s, mutual, repair);
    assert row[..|row|] == row;
    ok := |s| == |row|;
  }

  lemma NothingTallied(inbound: Inbound, l: nat, row: seq<Id>)
    ensures Tallied(inbound, inbound, l, row[..0])
  {
  }

  lemma RowCountedStart(ix: Index, i: Id, l: nat)
    requires HasRow(ix, i, l)
    ensures RowCounted(ix, i, l, 0, {}, [], [])
  {
  }

  lemma BadLink(ix: Index, i: Id, l: nat, v: Id)
    requires HasRow(ix, i, l) && v in ix.levels[l].links[i]
    ensures !(0 <= v < |ix.top|) || v == i ==> !RowSound(ix, i, l)
  {
  }

  lemma TargetHasRow(ix: Index, i: Id, l: nat, v: Id)
    requires Shaped(ix) && HasRow(ix, i, l) && v in ix.levels[l].links[i] && 0 <= v < |ix.top|
    ensures HasRow(ix, v, l)
  {
    assert Link(ix.levels[l], i, v);
    ShapeGivesRow(ix, v, l);
  }

  /** r holds the elements of s that satisfy p, as often as s does. */
  ghost predicate Filtered(s: seq<Id>, p: Id -> bool, r: seq<Id>) {
    && (forall v :: v in r <==> v in s && p(v))
    && (NoDup(s) ==> NoDup(r))
  }

  lemma FilteredStep(s: seq<Id>, p: Id -> bool, r: seq<Id>, x: Id)
    requires Filtered(s, p, r)
    ensures Filtered(s + [x], p, if p(x) then r + [x] else r)
  {
    var s' := s + [x];
    if NoDup(s') {
      assert forall k | 0 <= k < |s| :: s'[k] == s[k] && s'[k] != s'[|s|];
      assert x !in s && NoDup(s);
    }
  }

  lemma SizeDecides(row: seq<Id>)
    ensures |Elems(row)| == |row| <==> NoDup(row)
  {
    if NoDup(row) {
      NoDupSize(row);
    } else {
      RepeatedSize(row);
    }
  }

  lemma {:induction false} RepeatedSize(row: seq<Id>)
    ensures |Elems(row)| <= |row|
    ensures !NoDup(row) ==> |Elems(row)| < |row|
  {
    if row != [] {
      var n := |row| - 1;
      RepeatedSize(row[..n]);
      assert row == row[..n] + [row[n]];
      assert Elems(row) == Elems(row[..n]) + {row[n]};
      if NoDup(row[..n]) && !NoDup(row) {
        assert row[n] in row[..n];
      }
    }
  }

  lemma RowSizes(ix: Index, i: nat, l: nat, mutual: seq<Id>, repair: seq<Id>)
    requires HasRow(ix, i, l) && NoDup(ix.levels[l].links[i])
    requires Filtered(ix.levels[l].links[i], v => Edge(ix, l, v, i), mutual)
    requires Filtered(ix.levels[l].links[i], v => v in ix.deleted, repair)
    ensures |Of(Arcs(ix), i, l)| == |ix.levels[l].links[i]|
    ensures |Of(MutualArcs(ix), i, l)| == |mutual| && |Of(ToRepair(ix), i, l)| == |repair|
  {
    var row := ix.levels[l].links[i];
    forall e: Arc ensures e in Arcs(ix) <==> Edge(ix, e.1, e.0, e.2) {
      InArcs(ix, e);
    }
    NoDupSize(row);
    NoDupSize(mutual);
    NoDupSize(repair);
    TargetsSize(Elems(row), i, l);
    TargetsSize(Elems(mutual), i, l);
    TargetsSize(Elems(repair), i, l);
    assert Of(Arcs(ix), i, l) == Targets(Elems(row), i, l);
    assert Of(MutualArcs(ix), i, l) == Targets(Elems(mutual), i, l);
    assert Of(ToRepair(ix), i, l) == Targets(Elems(repair), i, l);
  }

  // ----- The check -----

  const SIZE_MAX: nat := 0xFFFF_FFFF_FFFF_FFFF

  datatype Report = Report(valid: bool, connectionsToRepair: nat, doubleConnections: nat, unidirectional: nat,
                           minInDegree: nat, maxInDegree: nat)

  /** What the check accepts. */
  ghost predicate Accepted(ix: Index, numMarkedDeleted: nat)
    requires Shaped(ix)
  {
    && RowsSound(ix, |ix.top|, 0) && |ix.deleted| == numMarkedDeleted
    && RecordCount(ix, |ix.top|, 0) + |MutualArcs(ix)| == |Arcs(ix)|
  }

  method CountDeleted(ix: Index) returns (n: nat)
    requires Within(ix.deleted, |ix.top|)
    ensures n == |ix.deleted|
  {
    n := 0;
    ghost var counted: set<Id> := {};
    for i := 0 to |ix.top|
      invariant n == |counted| && forall v :: v in counted <==> v in ix.deleted && v < i
    {
      if i in ix.deleted {
        n, counted := n + 1, counted + {i};
      }
    }
    assert forall v :: v in counted <==> v in ix.deleted;
    assert counted == ix.deleted;
  }

  ghost predicate Counted(ix: Index, i: nat, l: nat, checked: nat, doubles: nat, dead: nat) {
    && RowsSound(ix, i, l) && checked == |Before(Arcs(ix), i, l)|
    && doubles == |Before(MutualArcs(ix), i, l)| && dead == |Before(ToRepair(ix), i, l)|
  }

  lemma CountedStep(ix: Index, i: nat, l: nat, checked: nat, doubles: nat, dead: nat)
    requires Counted(ix, i, l, checked, doubles, dead) && HasRow(ix, i, l) && RowSound(ix, i, l)
    ensures Counted(ix, i, l + 1, checked + |Of(Arcs(ix), i, l)|, doubles + |Of(MutualArcs(ix), i, l)|,
                    dead + |Of(ToRepair(ix), i, l)|)
  {
    BeforeStep(Arcs(ix), i, l);
    BeforeStep(MutualArcs(ix), i, l);
    BeforeStep(ToRepair(ix), i, l);
  }

  lemma CountedNext(ix: Index, i: nat, checked: nat, doubles: nat, dead: nat)
    requires Shaped(ix) && i < |ix.top| && Counted(ix, i, ix.top[i] + 1, checked, doubles, dead)
    ensures Counted(ix, i + 1, 0, checked, doubles, dead)
  {
    forall e | e in Arcs(ix) ensures HasRow(ix, e.0, e.1) {
      InArcs(ix, e);
    }
    BeforeNext(ix, Arcs(ix), i);
    BeforeNext(ix, MutualArcs(ix), i);
    BeforeNext(ix, ToRepair(ix), i);
  }

  lemma CountedAll(ix: Index, checked: nat, doubles: nat, dead: nat)
    requires Shaped(ix) && Counted(ix, |ix.top|, 0, checked, doubles, dead)
    ensures checked == |Arcs(ix)| && doubles == |MutualArcs(ix)| && dead == |ToRepair(ix)|
  {
    forall e | e in Arcs(ix) ensures e.0 < |ix.top| {
      InArcs(ix, e);
      assert HasRow(ix, e.0, e.1);
    }
    assert Before(Arcs(ix), |ix.top|, 0) == Arcs(ix);
    assert Before(MutualArcs(ix), |ix.top|, 0) == MutualArcs(ix);
    assert Before(ToRepair(ix), |ix.top|, 0) == ToRepair(ix);
  }

  lemma UnsoundRow(ix: Index, i: nat, l: nat)
    requires HasRow(ix, i, l) && !RowSound(ix, i, l) && i < |ix.top|
    ensures !RowsSound(ix, |ix.top|, 0)
  {
  }

  method CheckIntegrity(ix: Index, numMarkedDeleted: nat) returns (report: Report)
    requires Shaped(ix)
    ensures report.valid <==> Accepted(ix, numMarkedDeleted)
    ensures report.valid ==> report.connectionsToRepair == |ToRepair(ix)|
    ensures report.valid ==> report.doubleConnections == |MutualArcs(ix)|
    ensures report.valid ==> report.unidirectional == RecordCount(ix, |ix.top|, 0)
    ensures report.valid ==> IsLargest(ix, report.minInDegree) && IsSmallest(ix, report.maxInDegree)
  {
    hide Counted, RowsSound, RowSound, Inbounds, Tallied, IsLargest, IsSmallest;
    var numDeleted := CountDeleted(ix);
    var checked, doubles, dead, records := 0, 0, 0, 0;
    var inbound: Inbound := map[];
    NothingCounted(ix);
    for i := 0 to |ix.top|
      invariant Counted(ix, i, 0, checked, doubles, dead) && records == RecordCount(ix, i, 0)
      invariant Inbounds(ix, i, 0, inbound)
    {
      for l := 0 to ix.top[i] + 1
        invariant Counted(ix, i, l, checked, doubles, dead) && records == RecordCount(ix, i, l)
        invariant Inbounds(ix, i, l, inbound)
      {
        ShapeGivesRow(ix, i, l);
        var ok, c, d, r, counts := CheckRow(ix, i, l, inbound);
        if !ok {
          UnsoundRow(ix, i, l);
          return Report(false, dead + r, SIZE_MAX, SIZE_MAX, SIZE_MAX, SIZE_MAX);
        }
        InboundsStep(ix, i, l, inbound, counts);
        inbound := counts;
        CountedStep(ix, i, l, checked, doubles, dead);
        checked, doubles, dead := checked + c, doubles + d, dead + r;
        records := records + |ix.levels[l].incoming[i]|;
      }
      CountedNext(ix, i, checked, doubles, dead);
      InboundsNext(ix, i, inbound);
    }
    CountedAll(ix, checked, doubles, dead);
    CountedRows(ix, checked, doubles, dead);
    if numDeleted != numMarkedDeleted {
      return Report(false, dead, SIZE_MAX, SIZE_MAX, SIZE_MAX, SIZE_MAX);
    }
    InboundsAll(ix, inbound);
    var largest, smallest := Extremes(ix, inbound);
    report := Report(records + doubles == checked, dead, doubles, records, largest, smallest);
  }

  lemma NothingCounted(ix: Index)
    ensures Shaped(ix) ==> Counted(ix, 0, 0, 0, 0, 0) && Inbounds(ix, 0, 0, map[])
  {
  }

  lemma CountedRows(ix: Index, checked: nat, doubles: nat, dead: nat)
    requires Counted(ix, |ix.top|, 0, checked, doubles, dead)
    ensures RowsSound(ix, |ix.top|, 0)
  {
  }

  // ----- What acceptance means -----

  /** Incoming arrays without repetition or false entries. */
  ghost predicate Genuine(ix: Index) {
    && (forall l, v | 0 <= l < |ix.levels| && v in ix.levels[l].incoming :: NoDup(ix.levels[l].incoming[v]))
    && Recorded(ix) <= Arcs(ix) - MutualArcs(ix)
  }

  /** Every one-way arc is on record, and nothing else. */
  ghost predicate Complete(ix: Index) {
    Genuine(ix) && Recorded(ix) == Arcs(ix) - MutualArcs(ix)
  }

  ghost function RecordedBefore(ix: Index, i: nat, l: nat): set<Arc> {
    set e | e in Recorded(ix) && Earlier(e.2, e.1, i, l)
  }

  ghost function RecordedAt(ix: Index, i: nat, l: nat): set<Arc> {
    set e | e in Recorded(ix) && e.2 == i && e.1 == l
  }

  /** The records counted by target are the records. */
  lemma {:induction false} CountIsSize(ix: Index, i: nat, l: nat)
    requires Shaped(ix) && Genuine(ix) && i <= |ix.top| && (l > 0 ==> i < |ix.top| && l <= ix.top[i] + 1)
    ensures RecordCount(ix, i, l) == |RecordedBefore(ix, i, l)|
    decreases i, l
  {
    if l > 0 {
      ShapeGivesRow(ix, i, l - 1);
      CountIsSize(ix, i, l - 1);
      SourcesSize(ix, i, l - 1);
      RecordedStep(ix, i, l - 1);
    } else if i > 0 {
      CountIsSize(ix, i - 1, ix.top[i - 1] + 1);
      RecordedNext(ix, i - 1);
    } else {
      RecordedNone(ix);
    }
  }

  lemma RecordedStep(ix: Index, i: nat, l: nat)
    ensures |RecordedBefore(ix, i, l + 1)| == |RecordedBefore(ix, i, l)| + |RecordedAt(ix, i, l)|
  {
    assert RecordedBefore(ix, i, l + 1) == RecordedBefore(ix, i, l) + RecordedAt(ix, i, l);
    assert RecordedBefore(ix, i, l) !! RecordedAt(ix, i, l);
  }

  lemma RecordedNext(ix: Index, i: nat)
    requires Shaped(ix) && i < |ix.top|
    ensures RecordedBefore(ix, i + 1, 0) == RecordedBefore(ix, i, ix.top[i] + 1)
  {
  }

  lemma RecordedNone(ix: Index)
    requires Shaped(ix)
    ensures RecordedBefore(ix, 0, 0) == {}
  {
  }

  ghost function Sources(us: set<Id>, i: Id, l: nat): set<Arc> {
    set u | u in us :: (u, l, i)
  }

  lemma SourceCount(us: set<Id>, i: Id, l: nat)
    ensures |Sources(us, i, l)| == |us|
  {
    if us != {} {
      assert (forall u :: u !in us) ==> us == {};
      var u :| u in us;
      SourceCount(us - {u}, i, l);
      assert Sources(us, i, l) == Sources(us - {u}, i, l) + {(u, l, i)};
    }
  }

  lemma SourcesSize(ix: Index, i: nat, l: nat)
    requires HasRow(ix, i, l) && NoDup(ix.levels[l].incoming[i])
    ensures |RecordedAt(ix, i, l)| == |ix.levels[l].incoming[i]|
  {
    forall e: Arc ensures e in Recorded(ix)
       <==> e.1 < |ix.levels| && e.2 in ix.levels[e.1].incoming && e.0 in ix.levels[e.1].incoming[e.2] {
      InRecorded(ix, e);
    }
    NoDupSize(ix.levels[l].incoming[i]);
    SourceCount(Elems(ix.levels[l].incoming[i]), i, l);
    assert RecordedAt(ix, i, l) == Sources(Elems(ix.levels[l].incoming[i]), i, l);
  }

  /** As long as the records are genuine, the counting decides whether they are complete. */
  lemma AcceptedMeansComplete(ix: Index, numMarkedDeleted: nat)
    requires Shaped(ix) && Genuine(ix)
    ensures Accepted(ix, numMarkedDeleted)
       <==> RowsSound(ix, |ix.top|, 0) && |ix.deleted| == numMarkedDeleted && Complete(ix)
  {
    CountIsSize(ix, |ix.top|, 0);
    forall e | e in Recorded(ix) ensures Earlier(e.2, e.1, |ix.top|, 0) {
      InRecorded(ix, e);
    }
    assert RecordedBefore(ix, |ix.top|, 0) == Recorded(ix);
    var oneWay := Arcs(ix) - MutualArcs(ix);
    assert Arcs(ix) == MutualArcs(ix) + oneWay;
    assert |Arcs(ix)| == |MutualArcs(ix)| + |oneWay|;
    SubsetCardinality(Recorded(ix), oneWay);
  }

  /** A well-formed index with the right number of deleted elements is accepted. */
  lemma WellFormedIsAccepted(ix: Index)
    requires IndexOk(ix)
    ensures Shaped(ix) && Accepted(ix, |ix.deleted|)
  {
    forall l, u, v | 0 <= l < |ix.levels| && Link(ix.levels[l], u, v) ensures v in ix.levels[l].links && u != v {
      assert LevelOk(ix, l);
      assert RowOk(ix.levels[l].links.Keys, u, ix.levels[l].links[u], Cap(ix.max, l));
      InElems(ix.levels[l].links[u]);
    }
    forall l | 0 <= l < |ix.levels|
      ensures ix.levels[l].links.Keys == ix.levels[l].incoming.Keys == NodesAt(ix.top, l)
    {
      assert LevelOk(ix, l);
    }
    WellFormedIsComplete(ix);
    forall u, m: nat | HasRow(ix, u, m) ensures RowSound(ix, u, m) {
      assert LevelOk(ix, m);
      assert RowOk(ix.levels[m].links.Keys, u, ix.levels[m].links[u], Cap(ix.max, m));
      assert forall v | v in ix.levels[m].links[u] :: Link(ix.levels[m], u, v);
    }
    AcceptedMeansComplete(ix, |ix.deleted|);
  }

  lemma WellFormedIsComplete(ix: Index)
    requires IndexOk(ix)
    ensures Complete(ix)
  {
    forall l, v | 0 <= l < |ix.levels| && v in ix.levels[l].incoming ensures RecordsExact(ix.levels[l], v) {
      assert LevelOk(ix, l);
      ExactAt(ix.levels[l], v);
    }
    forall e: Arc ensures e in Recorded(ix) <==> e in Arcs(ix) - MutualArcs(ix) {
      InArcs(ix, e);
      InRecorded(ix, e);
      if e.1 < |ix.levels| {
        assert LevelOk(ix, e.1);
        if e in Arcs(ix) {
          var g := ix.levels[e.1];
          assert RowOk(g.links.Keys, e.0, g.links[e.0], Cap(ix.max, e.1));
          InElems(g.links[e.0]);
        }
      }
    }
  }

  /**
   * False records escape the check: 0 points to 1 and not back, but the record of it is kept at 0
   * instead of 1.  The counts agree, so the index is accepted although it is not well formed.
   */
  lemma FalseRecordsAreAccepted()
    ensures var ix := Misfiled(); Shaped(ix) && Accepted(ix, 0) && !IndexOk(ix)
  {
    var ix := Misfiled();
    MisfiledShape();
    MisfiledCounts();
    if IndexOk(ix) {
      assert LevelOk(ix, 0);
      ExactAt(ix.levels[0], 0);
    }
  }

  function Misfiled(): Index {
    Index(2, [0, 0], {}, {}, [Graph(map[0 := [1], 1 := []], map[0 := [1], 1 := []])])
  }

  /**
   * The two extremes of the in-degrees are reported under each other's name, which makes no difference
   * if and only if all in-degrees are the same.
   */
  lemma NamesFitIffRegular(ix: Index, report: Report)
    requires |ix.top| > 0 && IsLargest(ix, report.minInDegree) && IsSmallest(ix, report.maxInDegree)
    requires forall v, m: nat | HasLevel(ix, v, m) :: InDegree(ix, v, m) <= SIZE_MAX
    ensures IsSmallest(ix, report.minInDegree) && IsLargest(ix, report.maxInDegree)
       <==> forall v, m: nat | HasLevel(ix, v, m) :: InDegree(ix, v, m) == InDegree(ix, 0, 0)
  {
  }

  lemma AloneRow(u: Id, row: seq<Id>, cap: nat)
    requires RowOk({u}, u, row, cap)
    ensures row == []
  {
    InElems(row);
    assert Elems(row) == {};
    NoDupSize(row);
  }

  /** A case: two connected elements, one of which is alone at the level above. */
  lemma InDegreesComeSwapped(ix: Index, report: Report)
    requires IndexOk(ix) && ix.top == [1, 0] && ix.levels != [] && 1 in ix.levels[0].links && ix.levels[0].links[1] != []
    requires IsLargest(ix, report.minInDegree) && IsSmallest(ix, report.maxInDegree)
    ensures report.minInDegree > 0 == report.maxInDegree
  {
    hide Arcs, WellFormed;
    TwoLevels(ix);
    InArcs(ix, (1, 0, 0));
    assert (1, 0, 0) in Into(Arcs(ix), 0, 0);
    assert HasLevel(ix, 0, 0) && Earlier(0, 0, 2, 0);
    forall e | e in Arcs(ix) ensures e.1 != 1 {
      InArcs(ix, e);
    }
    assert Into(Arcs(ix), 0, 1) == {};
    assert HasLevel(ix, 0, 1) && Earlier(0, 1, 2, 0);
  }

  lemma TwoLevels(ix: Index)
    requires IndexOk(ix) && ix.top == [1, 0] && ix.levels != [] && 1 in ix.levels[0].links && ix.levels[0].links[1] != []
    ensures Edge(ix, 0, 1, 0) && forall u, v :: !Edge(ix, 1, u, v)
  {
    assert ix.top[0] < |ix.levels|;
    assert LevelOk(ix, 0) && LevelOk(ix, 1);
    var (rows, above) := (ix.levels[0].links, ix.levels[1].links);
    assert RowOk(rows.Keys, 1, rows[1], Cap(ix.max, 0));
    var v := rows[1][0];
    assert v in rows[1] && v in Elems(rows[1]);
    assert above.Keys == {0};
    assert RowOk(above.Keys, 0, above[0], Cap(ix.max, 1));
    AloneRow(0, above[0], Cap(ix.max, 1));
  }

  lemma MisfiledShape()
    ensures Shaped(Misfiled()) && RowsSound(Misfiled(), 2, 0)
    ensures Arcs(Misfiled()) == {(0, 0, 1)} && MutualArcs(Misfiled()) == {}
  {
    var ix := Misfiled();
    assert NodesAt(ix.top, 0) == {0, 1};
    forall e: Arc ensures e in Arcs(ix) <==> e == (0, 0, 1) {
      InArcs(ix, e);
    }
  }

  lemma MisfiledCounts()
    requires Shaped(Misfiled())
    ensures RecordCount(Misfiled(), 2, 0) == 1
  {
  }
}

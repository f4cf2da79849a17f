/**
 * Physically removing a node nobody points to from one level, and giving its id to the node that held
 * the last id.
 */
module RemoveSwap {
  import opened Seqs
  import opened LevelGraphs
  import opened InPlaceDelete
  import NeighborSelection

  /**
   * d can be freed: no other node points to it, whoever has it on record is pointed to by it, and apart
   * from its own edges the level is in order.
   */
  ghost predicate Removable(g: Graph, d: Id, cap: nat) {
    && d in g.links && RowsOk(g.links, cap) && Exact(AdjacencyOf(g.links), g.incoming, {d})
    && forall v | v in g.links && v != d :: d !in g.links[v] && (d in g.incoming[v] ==> v in g.links[d])
  }

  /** In a well-formed level, a node of in-degree zero is removable and on record at all its targets. */
  lemma NoInEdgesIsRemovable(g: Graph, d: Id, cap: nat)
    requires WellFormed(g, cap) && d in g.links
    requires forall v | v in g.links :: d !in g.links[v]
    ensures Removable(g, d, cap)
    ensures forall v | v in g.links[d] :: v in g.incoming && d in g.incoming[v]
  {
  }

  /** So is a node detached in place, which is on record nowhere. */
  lemma DetachedIsRemovable(g0: Graph, g: Graph, e: Id, deleted: set<Id>, cap: nat, metric: NeighborSelection.Metric)
    requires WellFormed(g0, cap) && Detaching(g0, g, e, g.links.Keys - {e}, deleted, cap, metric)
    ensures Removable(g, e, cap)
  {
    DetachedIsGone(g0, g, e, deleted, cap, metric);
  }

  /** The level after d was freed. */
  ghost function Freed(g: Graph, d: Id): Graph {
    Graph(g.links - {d}, map v | v in g.incoming && v != d :: SwapRemove(g.incoming[v], d))
  }

  lemma FreedNode(g: Graph, d: Id, v: Id, cap: nat)
    requires Removable(g, d, cap) && v in g.links && v != d
    ensures RowOk(g.links.Keys - {d}, v, g.links[v], cap)
    ensures RecordsExact(Freed(g, d), v)
  {
    var adj := AdjacencyOf(g.links);
    assert RowOk(g.links.Keys, v, g.links[v], cap);
    InElems(g.links[v]);
    InElems(g.incoming[v]);
    SwapRemoveElems(g.incoming[v], d);
    var rest := SwapRemove(g.incoming[v], d);
    InElems(rest);
    forall u ensures u in rest <==> u in g.links && u != d && v in g.links[u] && u !in g.links[v] {
      assert u != d ==> (u in g.incoming[v] <==> OneWay(adj, u, v));
      if u in g.links {
        InElems(g.links[u]);
      }
    }
  }

  lemma FreedIsWellFormed(g: Graph, d: Id, cap: nat)
    requires Removable(g, d, cap)
    ensures WellFormed(Freed(g, d), cap)
  {
    var rest := Freed(g, d);
    assert rest.links.Keys == g.links.Keys - {d} == rest.incoming.Keys;
    forall v | v in rest.links
      ensures RowOk(rest.links.Keys, v, rest.links[v], cap) && RecordsExact(rest, v)
    {
      FreedNode(g, d, v, cap);
    }
    ExactFromRecords(rest);
  }

  /** Frees d: its targets forget it and its own arrays go. */
  method FreeNode(g: LevelGraph, d: Id, ghost cap: nat)
    requires Removable(g.View(), d, cap)
    modifies g
    ensures g.View() == Freed(old(g.View()), d)
    ensures WellFormed(g.View(), cap)
  {
    ghost var g0 := g.View();
    FreedIsWellFormed(g0, d, cap);
    ForgetAtTargets(g, d, cap);
    g.Destroy(d);
    ghost var freed := Freed(g0, d).incoming;
    assert g.incoming.Keys == freed.Keys;
    assert forall v | v in freed :: g.incoming[v] == freed[v];
  }

  method ForgetAtTargets(g: LevelGraph, d: Id, ghost cap: nat)
    requires Removable(g.View(), d, cap)
    modifies g`incoming
    ensures g.incoming.Keys == old(g.incoming).Keys
    ensures forall v | v in g.incoming && v != d :: g.incoming[v] == SwapRemove(old(g.incoming)[v], d)
  {
    ghost var before := g.incoming;
    var row := g.links[d];
    hide Removable, SwapRemove, NoDup, Forgetting;
    TargetsAreThere(g.View(), d, cap);
    for i := 0 to |row|
      invariant Forgetting(before, g.incoming, Elems(row[..i]), d)
    {
      ElemsStep(row, i);
      assert row[i] in row;
      ForgettingAt(before, g.incoming, Elems(row[..i]), row[i], d);
      // A node on record that is being removed asynchronously is always found; one detached in place never is.
      var found := g.RemoveIncomingIfExists(row[i], d);
    }
    assert row[..|row|] == row;
    AllForgotten(old(g.View()), g.incoming, d, cap);
  }

  /** The nodes in `done` have no record of d any more. */
  ghost predicate Forgetting(before: map<Id, seq<Id>>, after: map<Id, seq<Id>>, done: set<Id>, d: Id) {
    && after.Keys == before.Keys
    && forall v | v in before :: after[v] == if v in done then SwapRemove(before[v], d) else before[v]
  }

  lemma ForgettingAt(before: map<Id, seq<Id>>, after: map<Id, seq<Id>>, done: set<Id>, v: Id, d: Id)
    requires Forgetting(before, after, done, d) && v in before && v !in done
    ensures v in after && Forgetting(before, after[v := SwapRemove(after[v], d)], done + {v}, d)
  {
    hide SwapRemove;
  }

  lemma TargetsAreThere(g: Graph, d: Id, cap: nat)
    requires Removable(g, d, cap)
    ensures d in g.links && NoDup(g.links[d]) && forall v | v in g.links[d] :: v in g.incoming
    ensures Forgetting(g.incoming, g.incoming, Elems(g.links[d][..0]), d)
  {
    assert RowOk(g.links.Keys, d, g.links[d], cap);
    InElems(g.links[d]);
    hide SwapRemove, RowsOk, Exact;
  }

  lemma AllForgotten(g: Graph, after: map<Id, seq<Id>>, d: Id, cap: nat)
    requires Removable(g, d, cap) && Forgetting(g.incoming, after, Elems(g.links[d]), d)
    ensures after.Keys == g.incoming.Keys
    ensures forall v | v in after && v != d :: after[v] == SwapRemove(g.incoming[v], d)
  {
    InElems(g.links[d]);
    forall v | v in after && v != d && v !in g.links[d] ensures d !in g.incoming[v] {
      assert !OneWay(AdjacencyOf(g.links), d, v);
    }
  }

  // ----- Renaming -----

  function Rename(s: seq<Id>, from: Id, to: Id): (r: seq<Id>)
    ensures |r| == |s|
    ensures forall i | 0 <= i < |s| :: r[i] == if s[i] == from then to else s[i]
  {
    seq(|s|, i requires 0 <= i < |s| => if s[i] == from then to else s[i])
  }

  ghost function RenamedArrays(m: map<Id, seq<Id>>, from: Id, to: Id): map<Id, seq<Id>>
    requires to !in m
  {
    map x | x in RenamedKeys(m.Keys, from, to) :: Rename(m[Back(x, from, to)], from, to)
  }

  /** The level with the id `from` replaced by `to` everywhere. */
  ghost function Renamed(g: Graph, from: Id, to: Id): Graph
    requires to !in g.links && to !in g.incoming
  {
    Graph(RenamedArrays(g.links, from, to), RenamedArrays(g.incoming, from, to))
  }

  lemma RenameFirst(s: seq<Id>, from: Id, to: Id)
    requires NoDup(s) && from in s
    ensures s[IndexOf(s, from) := to] == Rename(s, from, to)
  {
  }

  lemma RenameAbsent(s: seq<Id>, from: Id, to: Id)
    requires from !in s
    ensures Rename(s, from, to) == s
  {
  }

  lemma RenameElems(s: seq<Id>, from: Id, to: Id)
    requires to !in s && from != to
    ensures forall x :: x in Rename(s, from, to) <==> x != from && Back(x, from, to) in s
    ensures NoDup(s) ==> NoDup(Rename(s, from, to))
  {
  }

  /**
   * Renaming is an isomorphism: the renamed level has exactly the renamed edges and the renamed
   * records, and stays well formed.
   */
  lemma RenamedIsIsomorphic(g: Graph, from: Id, to: Id, cap: nat)
    requires WellFormed(g, cap) && to !in g.links && from in g.links
    ensures WellFormed(Renamed(g, from, to), cap)
    ensures Isomorphic(g, Renamed(g, from, to), from, to)
  {
    var r := Renamed(g, from, to);
    forall u | u in r.links
      ensures RowOk(r.links.Keys, u, r.links[u], cap) && RecordsExact(r, u) && SameAround(g, r, from, to, u)
    {
      RenamedNode(g, from, to, u, cap);
    }
    ExactFromRecords(r);
  }

  /** Edges and records of `r` are those of g under the renaming. */
  ghost predicate Isomorphic(g: Graph, r: Graph, from: Id, to: Id) {
    && r.links.Keys == r.incoming.Keys == RenamedKeys(g.links.Keys, from, to)
    && forall u | u in r.links :: SameAround(g, r, from, to, u)
  }

  ghost predicate SameAround(g: Graph, r: Graph, from: Id, to: Id, u: Id) {
    && u in r.links && u in r.incoming && Back(u, from, to) in g.links && Back(u, from, to) in g.incoming
    && forall v | v in r.links ::
         && (v in r.links[u] <==> Back(v, from, to) in g.links[Back(u, from, to)])
         && (v in r.incoming[u] <==> Back(v, from, to) in g.incoming[Back(u, from, to)])
  }

  lemma RenamedNode(g: Graph, from: Id, to: Id, u: Id, cap: nat)
    requires WellFormed(g, cap) && to !in g.links && from in g.links
    requires u in RenamedKeys(g.links.Keys, from, to)
    ensures var r := Renamed(g, from, to);
      RowOk(r.links.Keys, u, r.links[u], cap) && RecordsExact(r, u) && SameAround(g, r, from, to, u)
  {
    hide WellFormed, RowOk, RecordsExact, SameAround;
    KeysOf(g, cap);
    assert Renamed(g, from, to).links.Keys == RenamedKeys(g.links.Keys, from, to);
    assert Renamed(g, from, to).links[u] == Rename(g.links[Back(u, from, to)], from, to);
    RowOfNode(g, Back(u, from, to), cap);
    RenamedRow(g.links.Keys, Back(u, from, to), g.links[Back(u, from, to)], from, to, cap);
    RenamedAround(g, from, to, u, cap);
    RenamedRecords(g, from, to, u, cap);
  }

  lemma RowOfNode(g: Graph, v: Id, cap: nat)
    requires WellFormed(g, cap) && v in g.links
    ensures RowOk(g.links.Keys, v, g.links[v], cap) && RecordsExact(g, v)
  {
    ExactAt(g, v);
  }

  lemma RenamedRow(keys: set<Id>, v: Id, row: seq<Id>, from: Id, to: Id, cap: nat)
    requires RowOk(keys, v, row, cap) && v in keys && from in keys && to !in keys
    ensures RowOk(RenamedKeys(keys, from, to), if v == from then to else v, Rename(row, from, to), cap)
  {
    InElems(row);
    RenameElems(row, from, to);
    InElems(Rename(row, from, to));
  }

  lemma RenamedAround(g: Graph, from: Id, to: Id, u: Id, cap: nat)
    requires WellFormed(g, cap) && to !in g.links && from in g.links && u in RenamedKeys(g.links.Keys, from, to)
    ensures SameAround(g, Renamed(g, from, to), from, to, u)
  {
    var prior := Back(u, from, to);
    RowOfNode(g, prior, cap);
    KeysOf(g, cap);
    assert to !in g.links[prior] by {
      InElems(g.links[prior]);
    }
    hide WellFormed, RowOk, Rename;
    RenameElems(g.links[prior], from, to);
    RenameElems(g.incoming[prior], from, to);
  }

  lemma RenamedRecords(g: Graph, from: Id, to: Id, u: Id, cap: nat)
    requires WellFormed(g, cap) && to !in g.links && from in g.links && u in RenamedKeys(g.links.Keys, from, to)
    ensures RecordsExact(Renamed(g, from, to), u)
  {
    var r, prior := Renamed(g, from, to), Back(u, from, to);
    RowOfNode(g, prior, cap);
    RenameEntry(g, from, to, u, cap);
    hide WellFormed, RowOk, Rename;
    RenameElems(g.incoming[prior], from, to);
    forall v ensures v in r.incoming[u] <==> v in r.links && u in r.links[v] && v !in r.links[u] {
      if v in r.links {
        RenameEntry(g, from, to, v, cap);
      }
    }
  }

  lemma RenameEntry(g: Graph, from: Id, to: Id, v: Id, cap: nat)
    requires WellFormed(g, cap) && to !in g.links && from in g.links
    requires v in RenamedKeys(g.links.Keys, from, to)
    ensures forall x :: x in Renamed(g, from, to).links[v] <==> x != from && Back(x, from, to) in g.links[Back(v, from, to)]
  {
  }

  // ----- Moving the last node -----

  /** Arrays in which the nodes in `done` already use the new id. */
  ghost predicate Renaming(m0: map<Id, seq<Id>>, m: map<Id, seq<Id>>, done: set<Id>, from: Id, to: Id) {
    && m.Keys == m0.Keys
    && forall v | v in m0 :: m[v] == if v in done then Rename(m0[v], from, to) else m0[v]
  }

  /** Replaces an id in a row of links, where it occurs once. */
  method ReplaceLink(g: LevelGraph, u: Id, from: Id, to: Id)
    requires u in g.links && NoDup(g.links[u]) && from in g.links[u]
    modifies g`links
    ensures g.links == old(g.links)[u := Rename(old(g.links[u]), from, to)]
  {
    var j := 0;
    while g.links[u][j] != from
      invariant j < |g.links[u]| && from !in g.links[u][..j] && g.links == old(g.links)
      decreases |g.links[u]| - j
    {
      j := j + 1;
    }
    FirstOccurrence(g.links[u], from, j);
    RenameFirst(g.links[u], from, to);
    g.SetLinkAtPos(u, j, to);
  }

  lemma RenamingStep(m0: map<Id, seq<Id>>, m: map<Id, seq<Id>>, m': map<Id, seq<Id>>, done: set<Id>, n: Id, from: Id,
                     to: Id)
    requires Renaming(m0, m, done, from, to) && n in m0 && m'.Keys == m.Keys && m'[n] == Rename(m0[n], from, to)
    requires forall v | v in m && v != n :: m'[v] == m[v]
    ensures Renaming(m0, m', done + {n}, from, to)
  {
    hide Rename;
  }

  lemma RenamingAt(m0: map<Id, seq<Id>>, m: map<Id, seq<Id>>, done: set<Id>, n: Id, from: Id, to: Id)
    requires Renaming(m0, m, done, from, to) && n in m0 && n !in done
    ensures n in m && m[n] == m0[n]
  {
    hide Rename;
  }

  /** A node that has `from` either in its links or on its record, once. */
  ghost predicate Refers(g: Graph, n: Id, from: Id) {
    && n in g.links && n in g.incoming && NoDup(g.links[n]) && NoDup(g.incoming[n])
    && (from in g.links[n] <==> from !in g.incoming[n])
  }

  /** Gives the arrays of one neighbour of the moved node its new id. */
  method RenameAtNeighbor(g: LevelGraph, n: Id, from: Id, to: Id, ghost g0: Graph, ghost done: set<Id>)
    requires Refers(g0, n, from) && n !in done
    requires Renaming(g0.links, g.links, done, from, to) && Renaming(g0.incoming, g.incoming, done, from, to)
    modifies g
    ensures Renaming(g0.links, g.links, done + {n}, from, to)
    ensures Renaming(g0.incoming, g.incoming, done + {n}, from, to)
  {
    hide Renaming, Rename, NoDup;
    RenamingAt(g0.links, g.links, done, n, from, to);
    RenamingAt(g0.incoming, g.incoming, done, n, from, to);
    if from in g.links[n] {
      RenameAbsent(g.incoming[n], from, to);
      ReplaceLink(g, n, from, to);
    } else {
      RenameAbsent(g.links[n], from, to);
      RenameFirst(g.incoming[n], from, to);
      g.SwapIdInIncoming(n, from, to);
    }
    RenamingStep(g0.links, old(g.links), g.links, done, n, from, to);
    RenamingStep(g0.incoming, old(g.incoming), g.incoming, done, n, from, to);
  }

  /** Tells some of the nodes that refer to the moved one. */
  method RenameAtAll(g: LevelGraph, ns: seq<Id>, from: Id, to: Id, ghost g0: Graph, ghost done: set<Id>)
    requires NoDup(ns) && forall n | n in ns :: Refers(g0, n, from) && n !in done
    requires Renaming(g0.links, g.links, done, from, to) && Renaming(g0.incoming, g.incoming, done, from, to)
    modifies g
    ensures Renaming(g0.links, g.links, done + Elems(ns), from, to)
    ensures Renaming(g0.incoming, g.incoming, done + Elems(ns), from, to)
  {
    hide Renaming, Refers;
    assert done + Elems(ns[..0]) == done;
    for i := 0 to |ns|
      invariant Renaming(g0.links, g.links, done + Elems(ns[..i]), from, to)
      invariant Renaming(g0.incoming, g.incoming, done + Elems(ns[..i]), from, to)
    {
      ElemsStep(ns, i);
      assert ns[i] in ns;
      hide NoDup;
      RenameAtNeighbor(g, ns[i], from, to, g0, done + Elems(ns[..i]));
      assert done + Elems(ns[..i + 1]) == done + Elems(ns[..i]) + {ns[i]};
    }
    assert ns[..|ns|] == ns;
  }

  /** All nodes that refer to `from` are the ones it points to and the ones on its record. */
  lemma Neighborhood(g: Graph, from: Id, cap: nat)
    requires WellFormed(g, cap) && from in g.links
    ensures NoDup(g.links[from]) && NoDup(g.incoming[from])
    ensures from !in g.links[from] && from !in g.incoming[from]
    ensures forall n | n in g.links[from] :: n in g.links && n !in g.incoming[from]
                                             && (from in g.links[n] || from in g.incoming[n])
    ensures forall n | n in g.incoming[from] :: n in g.links && from in g.links[n]
    ensures forall n | n in g.links && (from in g.links[n] || from in g.incoming[n]) ::
              n in g.links[from] || n in g.incoming[from]
  {
  }

  /** Moves the node with the last id into the freed id: its neighbours are told, then its arrays move. */
  method RenameNode(g: LevelGraph, from: Id, to: Id, ghost cap: nat)
    requires WellFormed(g.View(), cap) && from in g.links && to !in g.links
    modifies g
    ensures g.View() == Renamed(old(g.View()), from, to)
    ensures WellFormed(g.View(), cap)
  {
    ghost var g0 := g.View();
    RenamedIsIsomorphic(g0, from, to, cap);
    KeysAgree(g0, from, to, cap);
    hide WellFormed, Isomorphic, RenamedArrays, AllRenamed;
    RenameAtNeighbors(g, from, to, cap);
    MoveLast(g, from, to, g0);
  }

  method MoveLast(g: LevelGraph, from: Id, to: Id, ghost g0: Graph)
    requires AllRenamed(g0.links, g.links, from, to) && AllRenamed(g0.incoming, g.incoming, from, to)
    requires from in g0.links && from in g0.incoming && to !in g0.links && to !in g0.incoming
    modifies g
    ensures g.View() == Renamed(g0, from, to)
  {
    g.Move(from, to);
    MovedIsRenamed(g0.links, g.links, from, to);
    MovedIsRenamed(g0.incoming, g.incoming, from, to);
  }

  ghost predicate AllRenamed(m0: map<Id, seq<Id>>, m: map<Id, seq<Id>>, from: Id, to: Id) {
    m.Keys == m0.Keys && forall v | v in m0 :: m[v] == Rename(m0[v], from, to)
  }

  lemma KeysOf(g: Graph, cap: nat)
    requires WellFormed(g, cap)
    ensures g.incoming.Keys == g.links.Keys
  {
  }

  lemma KeysAgree(g: Graph, from: Id, to: Id, cap: nat)
    requires WellFormed(g, cap) && from in g.links && to !in g.links
    ensures from in g.incoming && to !in g.incoming
  {
  }

  lemma MovedIsRenamed(m0: map<Id, seq<Id>>, m: map<Id, seq<Id>>, from: Id, to: Id)
    requires from in m0 && to !in m0 && m.Keys == m0.Keys - {from} + {to}
    requires m[to] == Rename(m0[from], from, to)
    requires forall v | v in m0 && v != from :: m[v] == Rename(m0[v], from, to)
    ensures m == RenamedArrays(m0, from, to)
  {
  }

  method RenameAtNeighbors(g: LevelGraph, from: Id, to: Id, ghost cap: nat)
    requires WellFormed(g.View(), cap) && from in g.links && to !in g.links
    modifies g
    ensures AllRenamed(old(g.links), g.links, from, to) && AllRenamed(old(g.incoming), g.incoming, from, to)
  {
    hide WellFormed, NoDup, Renaming, Refers, AllRenamed;
    ghost var g0 := g.View();
    AllRefer(g0, from, to, cap);
    var row, others := g.links[from], g.incoming[from];
    NoneRenamed(g0.links, from, to);
    NoneRenamed(g0.incoming, from, to);
    RenameAtAll(g, row, from, to, g0, {});
    assert {} + Elems(row) == Elems(row);
    RenameAtAll(g, others, from, to, g0, Elems(row));
    RenamedEverywhere(g0, g.View(), from, to, cap);
  }

  lemma NoneRenamed(m: map<Id, seq<Id>>, from: Id, to: Id)
    ensures Renaming(m, m, {}, from, to)
  {
    hide Rename;
  }

  lemma AllRefer(g: Graph, from: Id, to: Id, cap: nat)
    requires WellFormed(g, cap) && from in g.links
    ensures from in g.incoming && NoDup(g.links[from]) && NoDup(g.incoming[from])
    ensures forall n | n in g.links[from] :: Refers(g, n, from) && n !in {}
    ensures forall n | n in g.incoming[from] :: Refers(g, n, from) && n !in Elems(g.links[from])
  {
    Neighborhood(g, from, cap);
    forall n | n in g.links[from] || n in g.incoming[from] ensures Refers(g, n, from) {
      assert RowOk(g.links.Keys, n, g.links[n], cap);
      ExactAt(g, n);
      ExactAt(g, from);
    }
    InElems(g.links[from]);
  }

  /** With all that refer to it told, the new id is used everywhere. */
  lemma RenamedEverywhere(g0: Graph, g: Graph, from: Id, to: Id, cap: nat)
    requires WellFormed(g0, cap) && from in g0.links && from in g0.incoming
    requires var done := Elems(g0.links[from]) + Elems(g0.incoming[from]);
      Renaming(g0.links, g.links, done, from, to) && Renaming(g0.incoming, g.incoming, done, from, to)
    ensures AllRenamed(g0.links, g.links, from, to) && AllRenamed(g0.incoming, g.incoming, from, to)
  {
    var row, others := g0.links[from], g0.incoming[from];
    Neighborhood(g0, from, cap);
    KeysOf(g0, cap);
    InElems(row);
    InElems(others);
    hide WellFormed, NoDup, Rename;
    forall v | v in g0.links && v !in Elems(row) + Elems(others)
      ensures Rename(g0.links[v], from, to) == g0.links[v] && Rename(g0.incoming[v], from, to) == g0.incoming[v]
    {
      RenameAbsent(g0.links[v], from, to);
      RenameAbsent(g0.incoming[v], from, to);
    }
  }
}

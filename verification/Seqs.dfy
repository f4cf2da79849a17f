/** Sequences without duplicates, filtering and renaming: the vocabulary in which link rows are specified. */
module Seqs {

  datatype Option<+T> = None | Some(value: T)

  ghost predicate NoDup<T>(s: seq<T>) {
    forall i, j :: 0 <= i < j < |s| ==> s[i] != s[j]
  }

  function Elems<T>(s: seq<T>): set<T> {
    set x | x in s
  }

  lemma InElems<T(!new)>(s: seq<T>)
    ensures forall x :: x in s <==> x in Elems(s)
  {
  }

  lemma SameElems<T(!new)>(s: seq<T>, xs: set<T>)
    requires forall x :: x in s <==> x in xs
    ensures Elems(s) == xs
  {
  }

  /** Position of the first occurrence of x. */
  function IndexOf<T(==)>(s: seq<T>, x: T): (i: nat)
    requires x in s
    ensures i < |s| && s[i] == x && x !in s[..i]
  {
    if s[0] == x then 0 else 1 + IndexOf(s[1..], x)
  }

  /** The result of the library's `remove`: the last element takes the place of the first x. */
  function SwapRemove<T(==)>(s: seq<T>, x: T): seq<T> {
    if x in s then s[IndexOf(s, x) := s[|s| - 1]][..|s| - 1] else s
  }

  lemma SwapRemoveElems<T>(s: seq<T>, x: T)
    requires NoDup(s)
    ensures NoDup(SwapRemove(s, x))
    ensures Elems(SwapRemove(s, x)) == Elems(s) - {x}
    ensures x in s ==> |SwapRemove(s, x)| == |s| - 1
  {
    if x in s {
      var i, r := IndexOf(s, x), SwapRemove(s, x);
      forall y | y in s && y != x ensures y in r {
        var j :| 0 <= j < |s| && s[j] == y;
        assert r[if j == |s| - 1 then i else j] == y;
      }
    }
  }

  /** The elements of s that are not in `drop`, in order. */
  function Without<T(==)>(s: seq<T>, drop: set<T>): (r: seq<T>)
    ensures |r| <= |s|
    ensures forall x | x in r :: x in s && x !in drop
    ensures forall x | x in s && x !in drop :: x in r
  {
    if s == [] then []
    else
      var last := s[|s| - 1];
      assert s == s[..|s| - 1] + [last];
      Without(s[..|s| - 1], drop) + (if last in drop then [] else [last])
  }

  lemma WithoutNoDup<T>(s: seq<T>, drop: set<T>)
    requires NoDup(s)
    ensures NoDup(Without(s, drop))
    ensures Elems(Without(s, drop)) == Elems(s) - drop
  {
  }

  lemma WithoutStep<T>(s: seq<T>, drop: set<T>, i: nat)
    requires i < |s|
    ensures Without(s[..i + 1], drop) == Without(s[..i], drop) + (if s[i] in drop then [] else [s[i]])
    ensures Elems(s[..i + 1]) == Elems(s[..i]) + {s[i]}
  {
    assert s[..i + 1][..i] == s[..i];
  }

  lemma ElemsStep<T>(s: seq<T>, i: nat)
    requires i < |s| && NoDup(s)
    ensures s[..i + 1] == s[..i] + [s[i]]
    ensures Elems(s[..i + 1]) == Elems(s[..i]) + {s[i]}
    ensures s[i] in Elems(s) && s[i] !in Elems(s[..i])
    ensures Elems(s[..i]) <= Elems(s)
  {
  }

  /** A duplicate-free sequence has as many entries as distinct elements. */
  lemma NoDupSize<T>(s: seq<T>)
    requires NoDup(s)
    ensures |Elems(s)| == |s|
  {
    if s != [] {
      var n := |s| - 1;
      NoDupSize(s[..n]);
      assert Elems(s) == Elems(s[..n]) + {s[n]};
      assert s[n] !in s[..n];
    }
  }

  lemma NoDupAppend<T>(s: seq<T>, x: T)
    requires NoDup(s) && x !in s
    ensures NoDup(s + [x])
    ensures Elems(s + [x]) == Elems(s) + {x}
  {
  }

  lemma NoDupConcat<T>(a: seq<T>, b: seq<T>)
    requires NoDup(a) && NoDup(b) && Elems(a) !! Elems(b)
    ensures NoDup(a + b)
    ensures Elems(a + b) == Elems(a) + Elems(b)
  {
    forall i, j | 0 <= i < |a| && 0 <= j < |b| ensures a[i] != b[j] {
      assert a[i] in Elems(a) && b[j] in Elems(b);
    }
  }

  lemma SubsetCardinality<T>(a: set<T>, b: set<T>)
    requires a <= b
    ensures |a| <= |b|
    ensures |a| == |b| ==> a == b
  {
    assert b == a + (b - a);
    assert |b| == |a| + |b - a|;
  }

  lemma ElemsConcat<T>(a: seq<T>, b: seq<T>)
    ensures Elems(a + b) == Elems(a) + Elems(b)
  {
  }

  // ----- Moving the last element into a gap -----

  /** The last element takes the place of the one at d. */
  function LastMovedTo<T>(s: seq<T>, d: int): seq<T>
    requires 0 <= d < |s|
  {
    s[d := s[|s| - 1]][..|s| - 1]
  }

  /** The id something had before `from` was renamed to `to`. */
  function Back(x: int, from: int, to: int): int {
    if x == to then from else x
  }

  function RenamedKeys(keys: set<int>, from: int, to: int): set<int> {
    keys - {from} + (if from in keys then {to} else {})
  }

  lemma RenamedSize(keys: set<int>, from: int, to: int)
    requires to !in keys
    ensures |RenamedKeys(keys, from, to)| == |keys|
  {
  }

  lemma NotEmpty(ids: set<int>)
    requires ids != {}
    ensures exists k :: k in ids
  {
    assert (forall k :: k !in ids) ==> ids == {};
  }

  /** The elements of a set, in some order. */
  method SeqOf(ids: set<int>) returns (s: seq<int>)
    ensures NoDup(s) && Elems(s) == ids
  {
    s := [];
    var rest := ids;
    while rest != {}
      invariant rest <= ids && NoDup(s) && Elems(s) == ids - rest
      decreases rest
    {
      assert (forall y :: y !in rest) ==> rest == {};
      var x: int :| x in rest;
      InElems(s);
      NoDupAppend(s, x);
      s := s + [x];
      rest := rest - {x};
    }
  }
}

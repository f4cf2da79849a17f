/**
 * Moving vectors from the flat buffer into the SVS backend while additions, overwrites and deletions go
 * on.  Each phase of the update job and each call of the interface is one step; between any two steps
 * the two stores together hold what a plain store would.
 */
module SvsMigrations {
  import opened Seqs
  import opened LabelLookup
  import opened FlatBuffers
  import opened SwapJournals

  type Entry = Option<(Label, Blob)>

  type Bag = multiset<Entry>

  /** Where the update job is: not running, or after its first, second or third section. */
  datatype Phase = Idle | Snapshotted | Added | Cleaned

  /** What is in the backend: elements in `dead` were deleted. */
  datatype Backend = Backend(labels: seq<Label>, blobs: seq<Blob>, dead: set<Id>)

  ghost predicate BackendOk(b: Backend) {
    |b.labels| == |b.blobs| && forall i | i in b.dead :: 0 <= i < |b.labels|
  }

  ghost function InBackend(b: Backend): Bag
    requires BackendOk(b)
  {
    Contents(b.labels, b.blobs, b.dead)
  }

  function Erased(b: Backend, drop: set<Label>): Backend {
    b.(dead := b.dead + set i | 0 <= i < |b.labels| && b.labels[i] in drop)
  }

  function Extended(b: Backend, labels: seq<Label>, blobs: seq<Blob>): Backend {
    b.(labels := b.labels + labels, blobs := b.blobs + blobs)
  }

  predicate BackendHas(b: Backend, key: Label) {
    exists i :: 0 <= i < |b.labels| && i !in b.dead && b.labels[i] == key
  }

  /** The live elements of the backend with a label. */
  function LiveOf(b: Backend, key: Label): set<Id> {
    set i | 0 <= i < |b.labels| && i !in b.dead && b.labels[i] == key
  }

  lemma LiveOfHas(b: Backend, key: Label)
    ensures |LiveOf(b, key)| > 0 <==> BackendHas(b, key)
  {
    if BackendHas(b, key) {
      var i :| 0 <= i < |b.labels| && i !in b.dead && b.labels[i] == key;
      assert i in LiveOf(b, key);
    } else {
      assert LiveOf(b, key) == {};
    }
  }

  predicate BackendEmpty(b: Backend) {
    forall i | 0 <= i < |b.labels| :: i in b.dead
  }

  lemma EmptyLacks(b: Backend, key: Label)
    requires BackendOk(b) && BackendEmpty(b)
    ensures Lacks(InBackend(b), key)
  {
    forall v ensures !Has(b.labels, b.dead, key, v) {
    }
    NothingStored(b.labels, b.blobs, b.dead, key);
  }

  lemma ErasedCounts(b: Backend, drop: set<Label>)
    requires BackendOk(b)
    ensures BackendOk(Erased(b, drop))
    ensures forall e :: InBackend(Erased(b, drop))[e] == if OfAny(e, drop) then 0 else InBackend(b)[e]
  {
    DropCounts(b.labels, b.blobs, b.dead, Erased(b, drop).dead, drop);
  }

  /** What is stored under a label is there. */
  lemma StoredIsThere(b: Backend, e: Entry, key: Label)
    requires BackendOk(b) && Of(e, key) && InBackend(b)[e] > 0
    ensures BackendHas(b, key)
  {
    if !BackendHas(b, key) {
      AbsentCounts(b, key);
    }
  }

  lemma ExtendedCounts(b: Backend, labels: seq<Label>, blobs: seq<Blob>)
    requires BackendOk(b) && |labels| == |blobs|
    ensures BackendOk(Extended(b, labels, blobs))
    ensures InBackend(Extended(b, labels, blobs)) == InBackend(b) + Contents(labels, blobs, {})
  {
    assert Entries(b.labels + labels, b.blobs + blobs, b.dead)
        == Entries(b.labels, b.blobs, b.dead) + Entries(labels, blobs, {});
  }

  lemma AbsentCounts(b: Backend, key: Label)
    requires BackendOk(b) && !BackendHas(b, key)
    ensures forall e | Of(e, key) :: InBackend(b)[e] == 0
  {
    assert NoneLeft(b.labels, b.dead, key) by {
      forall v ensures !Has(b.labels, b.dead, key, v) {
      }
    }
    NothingStored(b.labels, b.blobs, b.dead, key);
  }

  /**
   * How often an entry is stored in the parts of the index, against a plain store: `flat` and `recent` in
   * the flat buffer, with and without untouched snapshot vectors, `snapshot` in the snapshot, `back` in
   * the backend; `journaled` and `dropped` entries have a label deleted since the snapshot.
   */
  predicate AddsUp(phase: Phase, plain: nat, flat: nat, recent: nat, snapshot: nat, back: nat,
                   journaled: bool, dropped: bool)
  {
    match phase
    case Idle => plain == flat + back
    case Snapshotted =>
      plain == flat + back && if journaled then back == 0 && flat == recent else flat == recent + snapshot
    case Added => plain == recent + if journaled then 0 else back
    case Cleaned => plain == flat + if dropped then 0 else back
  }

  /** The bag lost the entries of a label. */
  ghost predicate Lost(before: Bag, after: Bag, key: Label) {
    forall e :: after[e] == if Of(e, key) then 0 else before[e]
  }

  /** The bag gained an entry, in place of those of its label or besides them. */
  ghost predicate Gains(before: Bag, after: Bag, key: Label, blob: Blob, instead: bool) {
    forall e :: after[e] == (if instead && Of(e, key) then 0 else before[e]) + if e == Some((key, blob)) then 1 else 0
  }

  /** The bag has no entry of the label. */
  ghost predicate Lacks(bag: Bag, key: Label) {
    forall e | Of(e, key) :: bag[e] == 0
  }

  /** The parts of the index against the plain store. */
  datatype Ledger = Ledger(phase: Phase, plain: Entry -> nat, flat: Bag, recent: Bag, snapshot: Bag, back: Bag,
                           journaled: set<Label>, dropped: set<Label>, half: Half)

  /**
   * Where a call of the client is: between calls, or with its first section made.  An addition has deleted
   * what the backend had under the label, a deletion what the flat buffer had.
   */
  datatype Half = Whole | Adding(key: Label) | Dropping(key: Label)

  /**
   * Of a label half deleted the flat buffer has nothing, nor is it in a snapshot without being journaled.
   * All others add up, and nothing is in the flat buffer that the plain store would not hold.
   */
  ghost predicate EntryOk(l: Ledger, e: Entry) {
    if l.half.Dropping? && Of(e, l.half.key) then
      && l.plain(e) == l.flat[e] == l.recent[e] == 0
      && (l.phase == Snapshotted && !OfAny(e, l.journaled) ==> l.snapshot[e] == 0)
    else
      && AddsUp(l.phase, l.plain(e), l.flat[e], l.recent[e], l.snapshot[e], l.back[e],
                OfAny(e, l.journaled), OfAny(e, l.dropped))
      && (l.phase == Added ==> l.flat[e] <= l.plain(e) || (l.half.Adding? && Of(e, l.half.key)))
  }

  ghost predicate LedgerOk(l: Ledger) {
    forall e :: EntryOk(l, e)
  }

  /** The snapshot's labels are not in the backend yet. */
  lemma SnapshotIsNew(l: Ledger, key: Label, e: Entry, x: Entry)
    requires LedgerOk(l) && l.phase == Snapshotted && OnePerLabel(l.plain) && l.half != Dropping(key)
    requires Of(e, key) && Of(x, key) && l.snapshot[e] > 0
    ensures l.back[x] == 0
  {
    assert EntryOk(l, e);
    assert EntryOk(l, x);
  }

  /** Deleting a label everywhere; it is journaled if the flat buffer had it. */
  lemma DeleteKeepsLedger(l: Ledger, after: Ledger, key: Label, found: bool)
    requires LedgerOk(l) && after.phase == l.phase && after.snapshot == l.snapshot && after.dropped == l.dropped
    requires l.half == after.half == Whole
    requires forall e :: after.plain(e) == if Of(e, key) then 0 else l.plain(e)
    requires Lost(l.flat, after.flat, key) && Lost(l.recent, after.recent, key) && Lost(l.back, after.back, key)
    requires !found ==> Lacks(l.flat, key) && Lacks(l.recent, key)
    requires after.journaled == l.journaled + if found then {key} else {}
    ensures LedgerOk(after)
    ensures OnePerLabel(l.plain) ==> OnePerLabel(after.plain)
  {
    forall e ensures EntryOk(after, e) {
      assert EntryOk(l, e);
    }
  }

  /** A deletion takes the label out of the flat buffer, which is journaled if it had it. */
  lemma DropFlatKeepsLedger(l: Ledger, after: Ledger, key: Label, found: bool)
    requires LedgerOk(l) && l.half == Whole && after.half == Dropping(key)
    requires after.phase == l.phase && after.snapshot == l.snapshot && after.back == l.back && after.dropped == l.dropped
    requires forall e :: after.plain(e) == if Of(e, key) then 0 else l.plain(e)
    requires Lost(l.flat, after.flat, key) && Lost(l.recent, after.recent, key)
    requires !found ==> Lacks(l.flat, key) && Lacks(l.recent, key)
    requires after.journaled == l.journaled + if found then {key} else {}
    ensures LedgerOk(after)
    ensures OnePerLabel(l.plain) ==> OnePerLabel(after.plain)
  {
    forall e ensures EntryOk(after, e) {
      assert EntryOk(l, e);
    }
  }

  /** Later on the label leaves the backend, whatever the update has put there in the meantime. */
  lemma DropBackKeepsLedger(l: Ledger, after: Ledger, key: Label)
    requires LedgerOk(l) && l.half == Dropping(key) && after == l.(half := Whole, back := after.back)
    requires Lost(l.back, after.back, key)
    ensures LedgerOk(after)
  {
    forall e ensures EntryOk(after, e) {
      assert EntryOk(l, e);
    }
  }

  /** What is left of an entry when its label leaves the backend. */
  function LeftOf(phase: Phase, flat: nat, recent: nat): nat {
    if phase == Added then recent else flat
  }

  /** An addition takes the label out of the backend. */
  lemma DropStaleKeepsLedger(l: Ledger, after: Ledger, key: Label)
    requires LedgerOk(l) && l.half == Whole
    requires after == l.(half := Adding(key), plain := after.plain, back := after.back)
    requires forall e :: after.plain(e) == if Of(e, key) then LeftOf(l.phase, l.flat[e], l.recent[e]) else l.plain(e)
    requires Lost(l.back, after.back, key)
    ensures LedgerOk(after) && forall e :: after.plain(e) <= l.plain(e)
    ensures OnePerLabel(l.plain) ==> OnePerLabel(after.plain)
  {
    forall e ensures EntryOk(after, e) && after.plain(e) <= l.plain(e) {
      assert EntryOk(l, e);
    }
  }

  /** The update has put a vector of the label into the backend again, and will not take it out. */
  ghost predicate BackAgain(l: Ledger, key: Label, found: bool) {
    && !Lacks(l.back, key)
    && !(l.phase == Added && (found || key in l.journaled)) && !(l.phase == Cleaned && key in l.dropped)
  }

  /**
   * Later on it puts the new vector into the flat buffer, overwriting being journaled.  The two stores then
   * follow the plain store if and only if the update has not put the old one into the backend for good.
   */
  lemma LateStoreKeepsLedgerIff(l: Ledger, after: Ledger, key: Label, blob: Blob, found: bool)
    requires LedgerOk(l) && l.half == Adding(key) && OnePerLabel(l.plain) && after.half == Whole
    requires after.phase == l.phase && after.snapshot == l.snapshot && after.back == l.back && after.dropped == l.dropped
    requires forall e ::
               after.plain(e) == (if Of(e, key) then 0 else l.plain(e)) + if e == Some((key, blob)) then 1 else 0
    requires Gains(l.flat, after.flat, key, blob, true) && Gains(l.recent, after.recent, key, blob, true)
    requires !found ==> Lacks(l.flat, key) && Lacks(l.recent, key)
    requires after.journaled == l.journaled + if found then {key} else {}
    ensures LedgerOk(after) <==> !BackAgain(l, key, found)
    ensures OnePerLabel(after.plain)
  {
    OneReplaces(l.plain, after.plain, key, blob);
    if BackAgain(l, key, found) {
      var e :| Of(e, key) && l.back[e] != 0;
      if LedgerOk(after) {
        LedgerAt(after, e);
      }
    } else {
      forall e ensures EntryOk(after, e) {
        assert EntryOk(l, e);
      }
    }
  }

  lemma SnapshotKeepsLedger(l: Ledger, after: Ledger)
    requires LedgerOk(l) && l.phase == Idle && after.phase == Snapshotted && after.plain == l.plain && after.half == l.half
    requires after.flat == l.flat == after.snapshot && after.back == l.back && after.journaled == {}
    requires forall e :: after.recent[e] == 0
    ensures LedgerOk(after)
  {
    hide OfAny;
    forall e ensures EntryOk(after, e) {
      NotOfNone(e);
      assert EntryOk(l, e);
    }
  }

  lemma NotOfNone(e: Entry)
    ensures !OfAny(e, {})
  {
  }

  lemma AddedKeepsLedger(l: Ledger, after: Ledger)
    requires LedgerOk(l) && l.phase == Snapshotted
    requires after == l.(phase := Added, back := l.back + l.snapshot)
    ensures LedgerOk(after)
  {
    hide OfAny;
    forall e ensures EntryOk(after, e) {
      assert EntryOk(l, e);
    }
  }

  lemma CleanedKeepsLedger(l: Ledger, after: Ledger)
    requires LedgerOk(l) && l.phase == Added && after.phase == Cleaned && after.plain == l.plain && after.half == l.half
    requires after.flat == after.recent == l.recent && after.back == l.back && after.dropped == l.journaled
    ensures LedgerOk(after)
  {
    hide OfAny;
    forall e ensures EntryOk(after, e) {
      assert EntryOk(l, e);
    }
  }

  lemma ErasedKeepsLedger(l: Ledger, after: Ledger)
    requires LedgerOk(l) && l.phase == Cleaned && after == l.(phase := Idle, back := after.back)
    requires forall e :: after.back[e] == if OfAny(e, l.dropped) then 0 else l.back[e]
    ensures LedgerOk(after)
  {
    hide OfAny;
    forall e ensures EntryOk(after, e) {
      assert EntryOk(l, e);
    }
  }

  /** Storing one vector for a label in place of what there was; overwriting in the flat buffer is journaled. */
  lemma ReplaceKeepsLedger(l: Ledger, after: Ledger, key: Label, blob: Blob, found: bool)
    requires LedgerOk(l) && after.phase == l.phase && after.snapshot == l.snapshot && after.dropped == l.dropped
    requires l.half == after.half == Whole
    requires forall e ::
               after.plain(e) == (if Of(e, key) then 0 else l.plain(e)) + if e == Some((key, blob)) then 1 else 0
    requires Gains(l.flat, after.flat, key, blob, true) && Gains(l.recent, after.recent, key, blob, true)
    requires Lost(l.back, after.back, key)
    requires !found ==> Lacks(l.flat, key) && Lacks(l.recent, key)
    requires after.journaled == l.journaled + if found then {key} else {}
    ensures LedgerOk(after)
    ensures OnePerLabel(l.plain) ==> OnePerLabel(after.plain)
  {
    forall e ensures EntryOk(after, e) {
      assert EntryOk(l, e);
    }
  }

  /** One more vector in the backend, while no update is under way. */
  lemma MoreKeepsLedger(l: Ledger, after: Ledger, key: Label, blob: Blob)
    requires LedgerOk(l) && l.phase == Idle && after == l.(plain := after.plain, back := after.back) && l.half == Whole
    requires forall e :: after.plain(e) == l.plain(e) + if e == Some((key, blob)) then 1 else 0
    requires Gains(l.back, after.back, key, blob, false)
    ensures LedgerOk(after)
  {
    forall e ensures EntryOk(after, e) {
      assert EntryOk(l, e);
    }
  }

  /**
   * Writing in place puts the vector straight into a backend that is in use, in place of what the backend
   * had under the label.  With one vector for a label, the two stores then hold what a plain store would
   * if and only if the flat buffer has nothing under the label: otherwise its old vector stays.
   */
  lemma InPlaceKeepsLedgerIff(l: Ledger, after: Ledger, key: Label, blob: Blob)
    requires LedgerOk(l) && l.phase == Idle && after == l.(plain := after.plain, back := after.back) && l.half == Whole
    requires forall e ::
               after.plain(e) == (if Of(e, key) then 0 else l.plain(e)) + if e == Some((key, blob)) then 1 else 0
    requires Gains(l.back, after.back, key, blob, true)
    ensures LedgerOk(after) <==> Lacks(l.flat, key)
  {
    forall e ensures EntryOk(after, e) <==> (Of(e, key) ==> l.flat[e] == 0) {
      assert EntryOk(l, e);
    }
  }

  /** What the flat buffer has under the label is the vector that was copied to the snapshot. */
  ghost predicate AsCopied(l: Ledger, key: Label) {
    exists e | Of(e, key) :: l.flat[e] > l.recent[e]
  }

  /**
   * Writing in place while the backend is empty overwrites in the flat buffer, and nothing is recorded.  At
   * any stage of an update, flat buffer and backend go on following the plain store if and only if the
   * vector written over was not in a snapshot still to be added, or is written over with the same.
   */
  lemma UntrackedKeepsLedgerIff(l: Ledger, after: Ledger, key: Label, blob: Blob)
    requires LedgerOk(l) && OnePerLabel(l.plain) && Lacks(l.back, key) && l.half == Whole
    requires after == l.(plain := after.plain, flat := after.flat, recent := after.recent)
    requires forall e ::
               after.plain(e) == (if Of(e, key) then 0 else l.plain(e)) + if e == Some((key, blob)) then 1 else 0
    requires Gains(l.flat, after.flat, key, blob, true)
    requires if AsCopied(l, key) then Lacks(l.recent, key) && after.recent == l.recent
             else Gains(l.recent, after.recent, key, blob, true) && forall e | Of(e, key) :: l.recent[e] == l.flat[e]
    ensures LedgerOk(after)
       <==> !(l.phase == Snapshotted && AsCopied(l, key) && l.snapshot[Some((key, blob))] == 0)
    ensures OnePerLabel(after.plain)
  {
    hide OnePerLabel;
    if AsCopied(l, key) && l.phase == Snapshotted {
      CopiedKeepsLedgerIff(l, after, key, blob);
    } else {
      forall e ensures EntryOk(after, e) {
        assert EntryOk(l, e);
        if AsCopied(l, key) {
          var y :| Of(y, key) && l.flat[y] > l.recent[y];
          assert EntryOk(l, y);
        }
      }
    }
    OneReplaces(l.plain, after.plain, key, blob);
  }

  /** With the backend empty: the label is in the snapshot, and nothing was journaled about it. */
  lemma CopiedIff(l: Ledger, journal: seq<Label>, key: Label, blob: Blob)
    requires LedgerOk(l) && l.phase == Snapshotted && OnePerLabel(l.plain) && Lacks(l.back, key)
    requires l.journaled == Elems(journal) && l.half == Whole
    ensures AsCopied(l, key) <==> key !in journal && exists e | Of(e, key) :: l.snapshot[e] > 0
    ensures AsCopied(l, key) ==>
              (l.snapshot[Some((key, blob))] == 0 <==> exists e | Of(e, key) :: l.snapshot[e] > 0 && e != Some((key, blob)))
  {
    forall e | Of(e, key)
      ensures if key in journal then l.flat[e] == l.recent[e] else l.flat[e] == l.recent[e] + l.snapshot[e]
    {
      assert EntryOk(l, e);
    }
    if AsCopied(l, key) {
      var y :| Of(y, key) && l.flat[y] > l.recent[y];
      forall e | Of(e, key) && l.snapshot[e] > 0 ensures e == y {
        assert EntryOk(l, e);
        assert EntryOk(l, y);
      }
    }
  }

  lemma SnapshotHas(labels: seq<Label>, blobs: seq<Blob>, key: Label, blob: Blob)
    requires |labels| == |blobs|
    ensures (exists e | Of(e, key) :: Contents(labels, blobs, {})[e] > 0 && e != Some((key, blob)))
       <==> exists i :: 0 <= i < |labels| && labels[i] == key && blobs[i] != blob
  {
    var entries := Entries(labels, blobs, {});
    if e: Entry :| Of(e, key) && Contents(labels, blobs, {})[e] > 0 && e != Some((key, blob)) {
      assert e in entries;
      var i :| 0 <= i < |entries| && entries[i] == e;
      assert labels[i] == key && blobs[i] != blob;
    }
    if i :| 0 <= i < |labels| && labels[i] == key && blobs[i] != blob {
      StoredAt(labels, blobs, {}, i);
      assert Of(Some((labels[i], blobs[i])), key);
    }
  }

  lemma LedgerAt(l: Ledger, e: Entry)
    requires LedgerOk(l)
    ensures EntryOk(l, e)
  {
  }

  lemma OneReplaces(plain: Entry -> nat, after: Entry -> nat, key: Label, blob: Blob)
    requires OnePerLabel(plain)
    requires forall e :: after(e) == (if Of(e, key) then 0 else plain(e)) + if e == Some((key, blob)) then 1 else 0
    ensures OnePerLabel(after)
  {
  }

  lemma CopiedKeepsLedgerIff(l: Ledger, after: Ledger, key: Label, blob: Blob)
    requires LedgerOk(l) && OnePerLabel(l.plain) && Lacks(l.back, key) && l.phase == Snapshotted && AsCopied(l, key)
    requires l.half == Whole
    requires after == l.(plain := after.plain, flat := after.flat) && Lacks(l.recent, key)
    requires forall e ::
               after.plain(e) == (if Of(e, key) then 0 else l.plain(e)) + if e == Some((key, blob)) then 1 else 0
    requires Gains(l.flat, after.flat, key, blob, true)
    ensures LedgerOk(after) <==> l.snapshot[Some((key, blob))] > 0
  {
    var x := Some((key, blob));
    var y :| Of(y, key) && l.flat[y] > l.recent[y];
    assert EntryOk(l, y);
    forall e | Of(e, key) ensures l.snapshot[e] == l.flat[e] == if e == y then 1 else 0 {
      assert EntryOk(l, e);
    }
    assert Of(x, key);
    if x == y {
      forall e ensures EntryOk(after, e) {
        assert EntryOk(l, e);
      }
    } else if LedgerOk(after) {
      LedgerAt(after, x);
    }
  }

  /** A new entry in the flat buffer. */
  lemma AppendKeepsLedger(l: Ledger, after: Ledger, x: Entry)
    requires LedgerOk(l) && after == l.(plain := after.plain, flat := after.flat, recent := after.recent) && l.half == Whole
    requires forall e :: after.plain(e) == l.plain(e) + if e == x then 1 else 0
    requires forall e :: after.flat[e] == l.flat[e] + if e == x then 1 else 0
    requires forall e :: after.recent[e] == l.recent[e] + if e == x then 1 else 0
    ensures LedgerOk(after)
  {
    forall e ensures EntryOk(after, e) {
      assert EntryOk(l, e);
    }
  }

  class TieredSvs {
    const flat: FlatBuffer
    const trainingTriggerThreshold: nat
    var backend: Backend
    var journal: seq<Record>
    var deletedJournal: seq<Label>
    var phase: Phase
    // What the update job keeps between its sections.
    var toMove: array<Label>
    var movedBlobs: seq<Blob>
    var deletedDuringUpdate: seq<Label>
    // The ids of the flat buffer that hold untouched vectors of the snapshot.
    ghost var untouched: set<Id>
    // What a plain store would hold after the same calls.
    ghost var plain: Entry -> nat
    ghost var half: Half

    constructor (flat: FlatBuffer, trainingTriggerThreshold: nat)
      requires flat.Valid() && flat.labels == []
      ensures Valid() && this.flat == flat && phase == Idle && half == Whole && forall e :: plain(e) == 0
      ensures fresh(toMove) && backend == Backend([], [], {}) && this.trainingTriggerThreshold == trainingTriggerThreshold
    {
      this.flat, this.trainingTriggerThreshold := flat, trainingTriggerThreshold;
      backend := Backend([], [], {});
      journal, deletedJournal, phase := [], [], Idle;
      toMove, movedBlobs, deletedDuringUpdate := new Label[0], [], [];
      untouched, plain, half := {}, e => 0, Whole;
    }

    ghost function Flat(): Bag
      requires |flat.labels| == |flat.blobs|
      reads flat
    {
      Contents(flat.labels, flat.blobs, {})
    }

    /** What the flat buffer holds apart from the untouched snapshot vectors. */
    ghost function Recent(): Bag
      requires |flat.labels| == |flat.blobs|
      reads this`untouched, flat
    {
      Contents(flat.labels, flat.blobs, untouched)
    }

    /** What the snapshot holds. */
    ghost function Snapshot(): Bag
      requires toMove.Length == |movedBlobs|
      reads this`toMove, this`movedBlobs, toMove
    {
      Contents(toMove[..], movedBlobs, {})
    }

    ghost predicate JournalOk()
      reads this`journal
    {
      forall p | p in journal :: RecordOk(p)
    }

    /** The journal tells which ids hold untouched vectors. */
    ghost predicate Tracking()
      reads this`journal, this`toMove, this`untouched, flat, toMove
    {
      JournalOk() && Matches(Replay(toMove[..], journal), flat.labels, untouched)
    }

    ghost function LedgerNow(): Ledger
      requires |flat.labels| == |flat.blobs| && BackendOk(backend) && toMove.Length == |movedBlobs|
      reads this`phase, this`plain, this`untouched, this`toMove, this`movedBlobs, this`backend, this`deletedJournal,
        this`deletedDuringUpdate, this`half, flat, toMove
    {
      Ledger(phase, plain, Flat(), Recent(), Snapshot(), InBackend(backend),
             Elems(deletedJournal), Elems(deletedDuringUpdate), half)
    }

    ghost predicate Shape()
      reads this`backend, this`toMove, this`movedBlobs, this`journal, this`untouched, flat
    {
      BackendOk(backend) && FlatShape()
    }

    ghost predicate FlatShape()
      reads this`toMove, this`movedBlobs, this`journal, this`untouched, flat
    {
      && flat.Valid() && toMove.Length == |movedBlobs| && JournalOk()
      && (forall i | 0 <= i < |flat.labels| :: flat.labels[i] != SKIP_LABEL)
      && (forall i | i in untouched :: 0 <= i < |flat.labels|)
    }

    /** What each section of the update needs, whatever the stores hold. */
    ghost predicate InOrder()
      reads this`phase, this`backend, this`toMove, this`movedBlobs, this`journal, this`untouched, flat, toMove
    {
      Shape() && (phase == Snapshotted || phase == Added ==> Tracking())
    }

    ghost predicate Valid()
      reads this, flat, toMove
    {
      InOrder() && LedgerOk(LedgerNow()) && (!flat.multi ==> OnePerLabel(plain))
    }

    lemma ShapeFacts()
      requires FlatShape()
      ensures flat.Valid() && |flat.labels| == |flat.blobs| && toMove.Length == |movedBlobs|
    {
      hide LookupOk;
    }

    // ----- The sections of the update job -----

    /** First section: copies the flat buffer and starts the journals afresh. */
    method TakeSnapshot()
      requires Valid() && phase == Idle
      modifies this
      ensures Valid() && phase == Snapshotted && fresh(toMove) && plain == old(plain) && half == old(half)
      ensures untouched == AllIds(|flat.labels|) && deletedJournal == [] && backend == old(backend)
      ensures toMove[..] == flat.labels && movedBlobs == flat.blobs
    {
      hide Contents, Replay;
      ghost var before := LedgerNow();
      toMove := new Label[|flat.labels|](i requires 0 <= i < |flat.labels| reads flat => flat.labels[i]);
      movedBlobs := flat.blobs;
      journal, deletedJournal := [], [];
      untouched := AllIds(|flat.labels|);
      phase := Snapshotted;
      assert toMove[..] == flat.labels;
      AllUntouched(flat.labels, flat.blobs, untouched);
      assert Matches(Replay(toMove[..], journal), flat.labels, untouched) by {
        NothingReplayed(flat.labels);
      }
      SnapshotKeepsLedger(before, LedgerNow());
    }

    /** Second section: adds the snapshot to the backend, which has none of its labels if it holds one vector for each. */
    method AddToBackend()
      requires InOrder() && phase == Snapshotted
      modifies this`backend, this`phase
      ensures InOrder() && phase == Added && backend == Extended(old(backend), toMove[..], movedBlobs)
      ensures old(Valid()) ==> Valid()
      ensures old(Valid()) && !flat.multi && !half.Dropping? ==> NoneMet(toMove[..], old(backend))
    {
      hide Contents, Matches, Replay, OnePerLabel, NoneMet, LedgerOk, LookupOk;
      if Valid() && !flat.multi && !half.Dropping? {
        NothingMeets();
      }
      ghost var before, ledger := backend, LedgerNow();
      ExtendedCounts(backend, toMove[..], movedBlobs);
      if toMove.Length != 0 {
        backend := Extended(backend, toMove[..], movedBlobs);
      }
      assert backend == Extended(before, toMove[..], movedBlobs);
      phase := Added;
      if old(Valid()) {
        AddedKeepsLedger(ledger, LedgerNow());
      }
    }

    lemma NothingMeets()
      requires Valid() && phase == Snapshotted && !flat.multi && !half.Dropping?
      ensures NoneMet(toMove[..], backend)
    {
      forall i, k | 0 <= i < toMove.Length && 0 <= k < |backend.labels| && k !in backend.dead
        ensures backend.labels[k] != toMove[i]
      {
        StoredAt(toMove[..], movedBlobs, {}, i);
        StoredAt(backend.labels, backend.blobs, backend.dead, k);
        if backend.labels[k] == toMove[i] {
          SnapshotIsNew(LedgerNow(), toMove[i], Some((toMove[i], movedBlobs[i])), Some((backend.labels[k], backend.blobs[k])));
          assert false;
        }
      }
    }

    /**
     * Third section: replays the journal over the snapshot's labels and deletes the untouched vectors
     * from the flat buffer, from the largest id down.  Every one of them is found under its label.
     */
    method CleanUpFlat() returns (deleted: nat)
      requires InOrder() && phase == Added
      modifies this, flat, toMove
      ensures InOrder() && phase == Cleaned && plain == old(plain) && backend == old(backend) && toMove == old(toMove)
      ensures half == old(half)
      ensures flat.Valid() && Flat() == old(Recent()) && deletedDuringUpdate == old(deletedJournal)
      ensures deleted == |old(untouched)|
      ensures |flat.labels| == |old(flat.labels)| - deleted
      ensures old(Valid()) ==> Valid()
    {
      hide Contents, Replay, LedgerOk, OnePerLabel, FlatBuffer.Kept, Elems;
      ShapeFacts();
      ghost var before := LedgerNow();
      deletedDuringUpdate, deletedJournal := deletedJournal, [];
      ApplySwapsToLabelsArray(toMove, journal);
      deleted := DeleteMoved();
      phase := Cleaned;
      ShapeFacts();
      if old(Valid()) {
        CleanedKeepsLedger(before, LedgerNow());
      }
    }

    /** The clean-up loop. */
    method DeleteMoved() returns (deleted: nat)
      requires flat.Valid() && Matches(toMove[..], flat.labels, untouched)
      requires forall i | 0 <= i < |flat.labels| :: flat.labels[i] != SKIP_LABEL
      modifies this`untouched, flat
      ensures flat.Valid() && untouched == {} && Flat() == old(Recent())
      ensures deleted == |old(untouched)| && |flat.labels| == |old(flat.labels)| - deleted
      ensures forall i | 0 <= i < |flat.labels| :: flat.labels[i] != SKIP_LABEL
    {
      hide Contents;
      deleted := 0;
      var id := toMove.Length;
      while id > 0
        invariant 0 <= id <= toMove.Length && flat.Valid()
        invariant untouched <= old(untouched)
        invariant forall i :: i in untouched <==> i in old(untouched) && i < id
        invariant |flat.labels| <= |old(flat.labels)| && forall i | i in untouched :: 0 <= i < |flat.labels|
        invariant forall i | i in untouched :: flat.labels[i] == old(flat.labels)[i]
        invariant forall i | 0 <= i < |flat.labels| :: flat.labels[i] != SKIP_LABEL
        invariant Recent() == old(Recent())
        invariant deleted + |untouched| == |old(untouched)| && |flat.labels| == |old(flat.labels)| - deleted
      {
        id := id - 1;
        var key := toMove[id];
        assert key != SKIP_LABEL <==> id in untouched;
        if key != SKIP_LABEL {
          DeleteOne(id, key);
          deleted := deleted + 1;
        }
      }
      assert untouched == {};
    }

    /** Deletes the untouched vector with the largest id. */
    method DeleteOne(id: Id, key: Label)
      requires flat.Valid() && id in untouched && 0 <= id < |flat.labels| && flat.labels[id] == key
      requires forall i | i in untouched :: 0 <= i <= id
      modifies this`untouched, flat
      ensures flat.Valid() && untouched == old(untouched) - {id} && |flat.labels| == |old(flat.labels)| - 1
      ensures forall i | i in untouched :: i < |flat.labels| && flat.labels[i] == old(flat.labels)[i]
      ensures forall i | 0 <= i < |flat.labels| :: flat.labels[i] in old(flat.labels)
      ensures Recent() == old(Recent())
    {
      hide Contents;
      flat.IdIsKnown(id);
      MoveCounts(flat.labels, flat.blobs, untouched, id);
      SameLength(flat.labels, flat.blobs, id);
      assert RenamedKeys(untouched - {id}, |flat.labels| - 1, id) == untouched - {id};
      var found := flat.DeleteVectorById(key, id);
      untouched := untouched - {id};
    }

    /** Last section: deletes from the backend what was deleted or overwritten in the meantime. */
    method DeleteFromBackend()
      requires InOrder() && phase == Cleaned
      modifies this`backend, this`phase
      ensures InOrder() && phase == Idle && backend == Erased(old(backend), Elems(deletedDuringUpdate))
      ensures old(Valid()) ==> Valid()
    {
      hide Contents;
      ghost var before := LedgerNow();
      ErasedCounts(backend, Elems(deletedDuringUpdate));
      backend := Erased(backend, Elems(deletedDuringUpdate));
      phase := Idle;
      if old(Valid()) {
        ErasedKeepsLedger(before, LedgerNow());
      }
    }

    // ----- The interface -----

    /** Deletes a label from the backend, if it is there. */
    method DeleteFromBackendOf(key: Label) returns (count: nat)
      requires BackendOk(backend)
      modifies this`backend
      ensures BackendOk(backend) && !BackendHas(backend, key)
      ensures backend == if BackendHas(old(backend), key) then Erased(old(backend), {key}) else old(backend)
      ensures Lost(InBackend(old(backend)), InBackend(backend), key)
      ensures count == |LiveOf(old(backend), key)|
    {
      count := |LiveOf(backend, key)|;
      if BackendHas(backend, key) {
        ErasedCounts(backend, {key});
        backend := Erased(backend, {key});
      } else {
        AbsentCounts(backend, key);
        assert LiveOf(backend, key) == {};
      }
    }

    method RecordSwaps(ids: seq<Id>, updated: map<Id, (Id, Label)>)
      modifies this`journal
      ensures journal == old(journal) + Records(ids, updated)
    {
      for i := 0 to |ids|
        invariant journal == old(journal) + Records(ids[..i], updated)
      {
        RecordsStep(ids, updated, i);
        journal := journal + [RecordOf(ids[i], updated)];
      }
      assert ids[..|ids|] == ids;
    }

    /** Deletes a label from the flat buffer and records who left and who moved, from the largest id down. */
    method DeleteAndRecordSwaps(key: Label) returns (count: nat)
      requires Shape() && key in flat.lookup
      requires phase == Snapshotted || phase == Added ==> Tracking()
      modifies this`journal, this`deletedJournal, this`untouched, flat
      ensures Shape() && deletedJournal == old(deletedJournal) + [key]
      ensures phase == Snapshotted || phase == Added ==> Tracking()
      ensures Lost(old(Flat()), Flat(), key) && Lost(old(Recent()), Recent(), key)
      ensures count == |old(flat.lookup)[key]| && key !in flat.lookup
    {
      hide Contents, LookupOk, Compacted, CountsFollow, Matches, Replay;
      flat.KnownIds(key);
      ghost var before, labels0 := journal, flat.labels;
      count := |flat.lookup[key]|;
      var ids := SortDescending(flat.lookup[key]);
      var updated := flat.DeleteVectorAndGetUpdatedIds(key, untouched);
      RecordSwaps(ids, updated);
      deletedJournal := deletedJournal + [key];
      flat.Gone(key);
      CountsAfterDeletion(labels0, old(flat.blobs), flat.labels, flat.blobs, updated, key, {});
      CountsAfterDeletion(labels0, old(flat.blobs), flat.labels, flat.blobs, updated, key, untouched);
      JournalAfterDeletion(toMove[..], before, labels0, old(flat.blobs), flat.labels, flat.blobs, updated, key, ids, untouched);
      NoneMarked(|flat.labels|, updated);
      untouched := Follow(untouched, |flat.labels|, updated);
    }

    /** Deletes a label from the flat buffer, if it is there. */
    method DeleteFromFlatOf(key: Label) returns (count: nat)
      requires Shape() && (phase == Snapshotted || phase == Added ==> Tracking())
      modifies this`journal, this`deletedJournal, this`untouched, flat
      ensures Shape() && (phase == Snapshotted || phase == Added ==> Tracking()) && key !in flat.lookup
      ensures Lost(old(Flat()), Flat(), key) && Lost(old(Recent()), Recent(), key)
      ensures key !in old(flat.lookup) ==> Lacks(old(Flat()), key) && Lacks(old(Recent()), key)
      ensures Elems(deletedJournal) == Elems(old(deletedJournal)) + if key in old(flat.lookup) then {key} else {}
      ensures count == if key in old(flat.lookup) then |old(flat.lookup)[key]| else 0
    {
      hide Contents, LookupOk, Matches, Replay;
      if key in flat.lookup {
        count := DeleteAndRecordSwaps(key);
        ElemsConcat(old(deletedJournal), [key]);
      } else {
        NothingInFlat(key);
        count := 0;
      }
    }

    /** Deletes a label from both stores and returns how many vectors there were. */
    method DeleteVector(key: Label) returns (count: nat)
      requires Valid() && half == Whole
      modifies this`journal, this`deletedJournal, this`untouched, this`backend, this`plain, flat
      ensures Valid() && key !in flat.lookup && !BackendHas(backend, key)
      ensures forall e :: plain(e) == if Of(e, key) then 0 else old(plain)(e)
      ensures count == (if key in old(flat.lookup) then |old(flat.lookup)[key]| else 0) + |LiveOf(old(backend), key)|
    {
      hide FlatShape, Contents, LookupOk, Tracking, LedgerOk, Elems, Lost, Gains, Lacks, OnePerLabel, BackendOk, LiveOf,
        BackendHas, FlatBuffer.Kept;
      ShapeFacts();
      ghost var found, before := key in flat.lookup, LedgerNow();
      count := DeleteFromFlatOf(key);
      ShapeFacts();
      var others := DeleteFromBackendOf(key);
      count := count + others;
      LoseInPlain(key, before, found);
    }

    // ----- The same calls, section by section -----

    /** First section of a deletion: the label leaves the flat buffer. */
    method DropFromFlat(key: Label) returns (count: nat)
      requires Valid() && half == Whole
      modifies this`journal, this`deletedJournal, this`untouched, this`plain, this`half, flat
      ensures Valid() && half == Dropping(key) && key !in flat.lookup
      ensures forall e :: plain(e) == if Of(e, key) then 0 else old(plain)(e)
      ensures count == if key in old(flat.lookup) then |old(flat.lookup)[key]| else 0
    {
      hide FlatShape, Contents, LookupOk, Tracking, LedgerOk, Elems, Lost, Lacks, OnePerLabel, BackendOk, FlatBuffer.Kept;
      ShapeFacts();
      ghost var found, before := key in flat.lookup, LedgerNow();
      count := DeleteFromFlatOf(key);
      ShapeFacts();
      plain := e => if Of(e, key) then 0 else before.plain(e);
      half := Dropping(key);
      DropFlatKeepsLedger(before, LedgerNow(), key, found);
    }

    /** Second section of a deletion: the label leaves the backend. */
    method DropFromBackend(key: Label) returns (count: nat)
      requires Valid() && half == Dropping(key)
      modifies this`backend, this`half
      ensures Valid() && half == Whole && !BackendHas(backend, key)
      ensures count == |LiveOf(old(backend), key)|
    {
      hide FlatShape, Contents, Tracking, LedgerOk, Lost, OnePerLabel, BackendOk, BackendHas, LiveOf, FlatBuffer.Kept;
      ShapeFacts();
      ghost var before := LedgerNow();
      count := DeleteFromBackendOf(key);
      half := Whole;
      DropBackKeepsLedger(before, LedgerNow(), key);
    }

    /** First section of an addition: with one vector for a label, the backend's leaves. */
    method DropStale(key: Label) returns (count: nat)
      requires Valid() && half == Whole && key != SKIP_LABEL && !flat.multi
      modifies this`backend, this`plain, this`half
      ensures Valid() && half == Adding(key) && !BackendHas(backend, key)
      ensures forall e :: plain(e) <= old(plain)(e) && (Of(e, key) || plain(e) == old(plain)(e))
      ensures count == |LiveOf(old(backend), key)|
      ensures backend == if BackendHas(old(backend), key) then Erased(old(backend), {key}) else old(backend)
    {
      hide FlatShape, Contents, Tracking, LedgerOk, Lost, OnePerLabel, BackendOk, BackendHas, LiveOf, FlatBuffer.Kept,
        Erased;
      ShapeFacts();
      ghost var before := LedgerNow();
      count := DeleteFromBackendOf(key);
      plain := e => if Of(e, key) then LeftOf(before.phase, before.flat[e], before.recent[e]) else before.plain(e);
      half := Adding(key);
      DropStaleKeepsLedger(before, LedgerNow(), key);
    }

    /** The update has moved the old vector into the backend meanwhile, and will not delete it there. */
    predicate MovedMeanwhile(key: Label)
      reads this`phase, this`backend, this`deletedJournal, this`deletedDuringUpdate, flat
    {
      && BackendHas(backend, key)
      && !(phase == Added && (key in flat.lookup || key in deletedJournal))
      && !(phase == Cleaned && key in deletedDuringUpdate)
    }

    /**
     * Second section of an addition: the vector goes into the flat buffer, where an existing one is
     * overwritten and recorded.
     */
    method StoreLate(key: Label, blob: Blob) returns (stored: nat)
      requires Valid() && half == Adding(key) && key != SKIP_LABEL && !flat.multi
      modifies this`journal, this`deletedJournal, this`untouched, this`plain, this`half, flat
      ensures InOrder() && half == Whole && (Valid() <==> !old(MovedMeanwhile(key)))
      ensures forall e :: plain(e) == (if Of(e, key) then 0 else old(plain)(e)) + if e == Some((key, blob)) then 1 else 0
      ensures stored == if key in old(flat.lookup) then 0 else 1
      ensures |flat.labels| == |flat.blobs| && Flat()[Some((key, blob))] == 1
    {
      hide FlatShape, Contents, LookupOk, Tracking, LedgerOk, Lacks, OnePerLabel, BackendOk, BackendHas,
        FlatBuffer.Kept, Elems, Gains, BackAgain, MovedMeanwhile;
      ShapeFacts();
      ghost var found, before := key in flat.lookup, LedgerNow();
      BackAgainIff(key);
      stored := StoreInFlat(key, blob);
      ShapeFacts();
      plain := e => (if Of(e, key) then 0 else before.plain(e)) + if e == Some((key, blob)) then 1 else 0;
      half := Whole;
      LateStoreKeepsLedgerIff(before, LedgerNow(), key, blob, found);
      GainedOne(before.flat, Flat(), key, blob);
    }

    lemma BackAgainIff(key: Label)
      requires InOrder() && |flat.labels| == |flat.blobs|
      ensures MovedMeanwhile(key) <==> BackAgain(LedgerNow(), key, key in flat.lookup)
    {
      hide FlatShape, Contents, Tracking;
      ShapeFacts();
      InElems(deletedJournal);
      InElems(deletedDuringUpdate);
      if i :| 0 <= i < |backend.labels| && i !in backend.dead && backend.labels[i] == key {
        StoredAt(backend.labels, backend.blobs, backend.dead, i);
        assert Of(Some((key, backend.blobs[i])), key);
      } else {
        AbsentCounts(backend, key);
      }
    }

    lemma NothingInFlat(key: Label)
      requires flat.Valid() && key !in flat.lookup
      ensures Lacks(Flat(), key) && Lacks(Recent(), key)
    {
      flat.Gone(key);
      NothingStored(flat.labels, flat.blobs, {}, key);
      NothingRecent(key);
    }

    /**
     * Adds a vector.  With one vector for a label, a vector of the label leaves the backend, and one in
     * the flat buffer is overwritten, which is recorded.  Returns the number of vectors gained.
     */
    method AddVector(key: Label, blob: Blob) returns (added: nat)
      requires Valid() && half == Whole && key != SKIP_LABEL
      modifies this`journal, this`deletedJournal, this`untouched, this`backend, this`plain, flat
      ensures Valid()
      ensures forall e ::
                plain(e) == (if !flat.multi && Of(e, key) then 0 else old(plain)(e)) + if e == Some((key, blob)) then 1 else 0
      ensures added == if !flat.multi && (key in old(flat.lookup) || BackendHas(old(backend), key)) then 0 else 1
      ensures key in flat.lookup
      ensures backend == if !flat.multi && BackendHas(old(backend), key) then Erased(old(backend), {key}) else old(backend)
    {
      hide Contents, LookupOk, Matches, Replay, LedgerOk;
      if flat.multi {
        AppendOnly(key, blob);
        added := 1;
      } else {
        added := AddSingle(key, blob);
      }
    }

    /** The snapshot still to be added has a vector of the label, not the one that is about to be written. */
    predicate Overtakes(key: Label, blob: Blob)
      requires toMove.Length == |movedBlobs|
      reads this`phase, this`deletedJournal, this`toMove, this`movedBlobs, toMove
    {
      && phase == Snapshotted && !flat.multi && key !in deletedJournal
      && exists i :: 0 <= i < toMove.Length && toMove[i] == key && movedBlobs[i] != blob
    }

    /** Writing in place has the outcome that a plain store would have. */
    predicate InPlaceFits(key: Label, blob: Blob)
      requires toMove.Length == |movedBlobs|
      reads this`phase, this`deletedJournal, this`toMove, this`movedBlobs, this`backend, flat, toMove
    {
      flat.multi || if BackendEmpty(backend) then !Overtakes(key, blob) else key !in flat.lookup
    }

    /**
     * Adds a vector in place: to the flat buffer as long as the backend is empty, at any stage of an update,
     * and to the backend otherwise, for which the update's lock is needed.  Once enough vectors have come
     * together in the flat buffer the call updates at once, or when it gets the update's lock (`waits`).
     */
    method AddVectorInPlace(key: Label, blob: Blob) returns (added: int, waits: bool)
      requires Valid() && half == Whole && key != SKIP_LABEL && (BackendEmpty(backend) || phase == Idle)
      modifies this, flat, toMove
      ensures InOrder() && phase == old(phase) && half == Whole
      ensures Valid() <==> old(InPlaceFits(key, blob))
      ensures forall e ::
                plain(e) == (if !flat.multi && Of(e, key) then 0 else old(plain)(e)) + if e == Some((key, blob)) then 1 else 0
      ensures added == if flat.multi then 1
                       else if BackendEmpty(old(backend)) then (if key in old(flat.lookup) then 0 else 1)
                       else 1 - |LiveOf(old(backend), key)|
      ensures waits <==> BackendEmpty(old(backend)) && phase != Idle && |flat.labels| >= trainingTriggerThreshold
      ensures BackendEmpty(old(backend)) ==>
                if phase == Idle && |old(flat.labels)| + added >= trainingTriggerThreshold then MovedAtOnce(key, blob)
                else backend == old(backend) && |flat.labels| == |old(flat.labels)| + added && key in flat.lookup
      ensures old(Overtakes(key, blob)) && BackendEmpty(old(backend)) ==>
                && backend == old(backend) && deletedJournal == old(deletedJournal) && movedBlobs == old(movedBlobs)
                && toMove == old(toMove) && toMove[..] == old(toMove[..])
                && |flat.labels| == |flat.blobs| && Recent() == old(Recent()) && Lacks(Recent(), key)
      ensures !BackendEmpty(old(backend)) ==>
                unchanged(flat) && Gains(InBackend(old(backend)), InBackend(backend), key, blob, !flat.multi)
    {
      hide Contents, FlatShape, Tracking, LedgerOk, BackendEmpty, BackendOk, Elems, Lacks, OnePerLabel, Gains, Lost,
        LiveOf, FlatBuffer.Kept;
      waits := false;
      if BackendEmpty(backend) {
        added, waits := AddWhileEmpty(key, blob);
      } else {
        added := AddBehind(key, blob);
      }
    }

    /** An update has moved everything into the backend, the vector included. */
    ghost predicate MovedAtOnce(key: Label, blob: Blob)
      reads this`backend, flat
    {
      flat.labels == [] && BackendOk(backend) && !BackendEmpty(backend) && InBackend(backend)[Some((key, blob))] > 0
    }

    method AddWhileEmpty(key: Label, blob: Blob) returns (added: nat, waits: bool)
      requires Valid() && half == Whole && key != SKIP_LABEL && BackendEmpty(backend)
      modifies this, flat, toMove
      ensures InOrder() && phase == old(phase) && half == Whole && (Valid() <==> !old(Overtakes(key, blob)))
      ensures forall e ::
                plain(e) == (if !flat.multi && Of(e, key) then 0 else old(plain)(e)) + if e == Some((key, blob)) then 1 else 0
      ensures added == if !flat.multi && key in old(flat.lookup) then 0 else 1
      ensures waits <==> phase != Idle && |flat.labels| >= trainingTriggerThreshold
      ensures if phase == Idle && |old(flat.labels)| + added >= trainingTriggerThreshold then MovedAtOnce(key, blob)
              else backend == old(backend) && |flat.labels| == |old(flat.labels)| + added && key in flat.lookup
      ensures |old(flat.labels)| == |old(flat.blobs)| && |flat.labels| == |flat.blobs|
      ensures old(Overtakes(key, blob)) ==>
                && backend == old(backend) && deletedJournal == old(deletedJournal) && movedBlobs == old(movedBlobs)
                && toMove == old(toMove) && toMove[..] == old(toMove[..])
                && Recent() == old(Recent()) && Lacks(Recent(), key)
    {
      hide Contents, FlatShape, Tracking, LedgerOk, BackendEmpty, BackendOk, Elems, Lacks, OnePerLabel, Gains, Lost,
        LiveOf, FlatBuffer.Kept;
      added := AddUntracked(key, blob);
      ShapeFacts();
      waits := |flat.labels| >= trainingTriggerThreshold;
      if waits && phase == Idle {
        UpdateAtOnce();
        ShapeFacts();
        InBackendThen(key, blob);
        waits := false;
      }
    }

    /** The vector goes into the flat buffer, and nothing is recorded. */
    method AddUntracked(key: Label, blob: Blob) returns (added: nat)
      requires Valid() && half == Whole && key != SKIP_LABEL && BackendEmpty(backend)
      modifies this`plain, flat
      ensures InOrder() && (Valid() <==> !old(Overtakes(key, blob)))
      ensures forall e ::
                plain(e) == (if !flat.multi && Of(e, key) then 0 else old(plain)(e)) + if e == Some((key, blob)) then 1 else 0
      ensures added == if !flat.multi && key in old(flat.lookup) then 0 else 1
      ensures |old(flat.labels)| == |old(flat.blobs)| && |flat.labels| == |flat.blobs|
      ensures |flat.labels| == |old(flat.labels)| + added && key in flat.lookup
      ensures old(Overtakes(key, blob)) ==> Recent() == old(Recent()) && Lacks(Recent(), key)
    {
      hide Contents, LookupOk, Tracking, LedgerOk, OnePerLabel;
      if flat.multi {
        AppendOnly(key, blob);
        added := 1;
      } else {
        added := WriteUntracked(key, blob);
      }
    }

    method WriteUntracked(key: Label, blob: Blob) returns (added: nat)
      requires Valid() && half == Whole && key != SKIP_LABEL && BackendEmpty(backend) && !flat.multi
      modifies this`plain, flat
      ensures InOrder() && (Valid() <==> !old(Overtakes(key, blob)))
      ensures forall e :: plain(e) == (if Of(e, key) then 0 else old(plain)(e)) + if e == Some((key, blob)) then 1 else 0
      ensures added == if key in old(flat.lookup) then 0 else 1
      ensures |old(flat.labels)| == |old(flat.blobs)| && |flat.labels| == |flat.blobs|
      ensures |flat.labels| == |old(flat.labels)| + added && key in flat.lookup
      ensures old(Overtakes(key, blob)) ==> Recent() == old(Recent()) && Lacks(Recent(), key)
    {
      hide FlatShape, Contents, Tracking, LedgerOk, OnePerLabel, BackendOk, BackendEmpty, FlatBuffer.Kept, Gains, Lacks,
        AsCopied, Overtakes;
      ShapeFacts();
      ghost var before := LedgerNow();
      EmptyLacks(backend, key);
      OvertakesIff(key, blob);
      added := StoreUntracked(key, blob);
      ShapeFacts();
      plain := e => (if Of(e, key) then 0 else before.plain(e)) + if e == Some((key, blob)) then 1 else 0;
      UntrackedKeepsLedgerIff(before, LedgerNow(), key, blob);
    }

    /** What was written over is a vector of the snapshot, with nothing recorded about it so far. */
    lemma OvertakesIff(key: Label, blob: Blob)
      requires Valid() && half == Whole && !flat.multi && BackendEmpty(backend) && |flat.labels| == |flat.blobs|
      ensures Overtakes(key, blob)
         <==> phase == Snapshotted && AsCopied(LedgerNow(), key) && Snapshot()[Some((key, blob))] == 0
    {
      hide FlatShape, Contents, Tracking, LedgerOk, OnePerLabel, BackendEmpty, FlatBuffer.Kept;
      ShapeFacts();
      EmptyLacks(backend, key);
      if phase == Snapshotted {
        SnapshotHas(toMove[..], movedBlobs, key, blob);
        CopiedIff(LedgerNow(), deletedJournal, key, blob);
      }
    }

    /** Overwrites the lone vector of the label, or appends one. */
    method StoreUntracked(key: Label, blob: Blob) returns (added: nat)
      requires InOrder() && key != SKIP_LABEL && !flat.multi
      modifies flat
      ensures InOrder() && |flat.labels| == |flat.blobs|
      ensures |old(flat.labels)| == |old(flat.blobs)| && Gains(old(Flat()), Flat(), key, blob, true)
      ensures if old(AsCopied(LedgerNow(), key)) then Lacks(Recent(), key) && Recent() == old(Recent())
              else && Gains(old(Recent()), Recent(), key, blob, true)
                   && forall e | Of(e, key) :: old(Recent())[e] == old(Flat())[e]
      ensures added == if key in old(flat.lookup) then 0 else 1
      ensures |flat.labels| == |old(flat.labels)| + added && key in flat.lookup
    {
      hide Contents, LookupOk, Tracking, Gains, Lacks, AsCopied;
      if key in flat.lookup {
        OverwriteUntracked(key, blob);
        added := 0;
      } else {
        NothingInFlat(key);
        NothingCopied(LedgerNow(), key);
        AppendToFlat(key, blob);
        AppendedGains(old(Flat()), Flat(), key, blob);
        AppendedGains(old(Recent()), Recent(), key, blob);
        added := 1;
      }
    }

    method OverwriteUntracked(key: Label, blob: Blob)
      requires InOrder() && !flat.multi && key in flat.lookup
      modifies flat
      ensures flat.labels == old(flat.labels) && key in flat.lookup
      ensures InOrder() && |flat.labels| == |flat.blobs|
      ensures |old(flat.labels)| == |old(flat.blobs)| && Gains(old(Flat()), Flat(), key, blob, true)
      ensures if old(AsCopied(LedgerNow(), key)) then Lacks(Recent(), key) && Recent() == old(Recent())
              else && Gains(old(Recent()), Recent(), key, blob, true)
                   && forall e | Of(e, key) :: old(Recent())[e] == old(Flat())[e]
    {
      hide Contents, LookupOk, Matches, Replay;
      flat.KnownIds(key);
      flat.LoneId(key);
      var id := flat.lookup[key][0];
      OverwriteCounts(flat.labels, flat.blobs, {}, {}, id, key, blob);
      LoneCopied(flat.labels, flat.blobs, untouched, id, key);
      if id in untouched {
        MaskedOverwrite(flat.labels, flat.blobs, untouched, id, blob);
      } else {
        OverwriteCounts(flat.labels, flat.blobs, untouched, untouched, id, key, blob);
      }
      var added := flat.AddVector(key, blob);
    }

    /** The vector goes into the backend, in place of what that had under the label. */
    method AddBehind(key: Label, blob: Blob) returns (added: int)
      requires Valid() && half == Whole && key != SKIP_LABEL && phase == Idle
      modifies this`plain, this`backend
      ensures InOrder() && (Valid() <==> flat.multi || key !in flat.lookup)
      ensures forall e ::
                plain(e) == (if !flat.multi && Of(e, key) then 0 else old(plain)(e)) + if e == Some((key, blob)) then 1 else 0
      ensures added == if flat.multi then 1 else 1 - |LiveOf(old(backend), key)|
      ensures Gains(InBackend(old(backend)), InBackend(backend), key, blob, !flat.multi)
    {
      hide FlatShape, Contents, Tracking, LedgerOk, OnePerLabel, BackendOk, LiveOf, BackendHas, FlatBuffer.Kept, Lost,
        Lacks, Extended, Gains;
      ShapeFacts();
      ghost var before := LedgerNow();
      added := PutBehind(key, blob);
      plain := e => (if !flat.multi && Of(e, key) then 0 else before.plain(e)) + if e == Some((key, blob)) then 1 else 0;
      BehindFits(before, key, blob);
    }

    method PutBehind(key: Label, blob: Blob) returns (added: int)
      requires BackendOk(backend)
      modifies this`backend
      ensures BackendOk(backend) && Gains(InBackend(old(backend)), InBackend(backend), key, blob, !flat.multi)
      ensures added == if flat.multi then 1 else 1 - |LiveOf(old(backend), key)|
    {
      hide Contents, BackendOk, LiveOf, BackendHas, Lost, Extended, Gains;
      added := 1;
      ghost var back0 := InBackend(backend);
      if !flat.multi {
        var count := DeleteFromBackendOf(key);
        added := added - count;
      }
      ghost var back := InBackend(backend);
      ExtendedCounts(backend, [key], [blob]);
      OneEntry(key, blob);
      backend := Extended(backend, [key], [blob]);
      LostThenGained(back0, back, InBackend(backend), key, blob, !flat.multi);
    }

    /** With one vector for a label the flat buffer's must not be there. */
    lemma BehindFits(before: Ledger, key: Label, blob: Blob)
      requires InOrder() && phase == Idle && half == Whole && |flat.labels| == |flat.blobs|
      requires LedgerOk(before) && (!flat.multi ==> OnePerLabel(before.plain))
      requires LedgerNow() == before.(plain := plain, back := InBackend(backend))
      requires Gains(before.back, InBackend(backend), key, blob, !flat.multi)
      requires forall e ::
                plain(e) == (if !flat.multi && Of(e, key) then 0 else before.plain(e)) + if e == Some((key, blob)) then 1 else 0
      ensures Valid() <==> flat.multi || key !in flat.lookup
    {
      hide FlatShape, Contents, LedgerOk, OnePerLabel, BackendOk, FlatBuffer.Kept, Tracking, Gains, Lacks;
      ShapeFacts();
      if flat.multi {
        MoreKeepsLedger(before, LedgerNow(), key, blob);
      } else {
        InPlaceKeepsLedgerIff(before, LedgerNow(), key, blob);
        OneReplaces(before.plain, plain, key, blob);
        LacksIff(key);
      }
    }

    lemma InBackendThen(key: Label, blob: Blob)
      requires Valid() && half == Whole && phase == Idle && flat.labels == [] && plain(Some((key, blob))) > 0
      ensures MovedAtOnce(key, blob)
    {
      hide Contents;
      ShapeFacts();
      LedgerAt(LedgerNow(), Some((key, blob)));
      assert Of(Some((key, blob)), key);
      if BackendEmpty(backend) {
        EmptyLacks(backend, key);
      }
      assert Flat()[Some((key, blob))] == 0 by {
        forall v ensures !Has(flat.labels, {}, key, v) {
        }
        NothingStored(flat.labels, flat.blobs, {}, key);
      }
    }

    lemma OnlyInFlat(key: Label, blob: Blob)
      requires Valid() && half == Whole && phase == Idle && !BackendHas(backend, key) && plain(Some((key, blob))) > 0
      ensures |flat.labels| == |flat.blobs| && Of(Some((key, blob)), key)
      ensures Flat()[Some((key, blob))] == plain(Some((key, blob)))
    {
      hide Contents;
      ShapeFacts();
      AbsentCounts(backend, key);
      LedgerAt(LedgerNow(), Some((key, blob)));
      assert Of(Some((key, blob)), key);
    }

    lemma NotInBackendThen(key: Label)
      requires Valid() && half == Whole && phase == Idle && forall e | Of(e, key) :: plain(e) == 0
      ensures !BackendHas(backend, key)
    {
      hide Contents;
      ShapeFacts();
      if i :| 0 <= i < |backend.labels| && i !in backend.dead && backend.labels[i] == key {
        StoredAt(backend.labels, backend.blobs, backend.dead, i);
        LedgerAt(LedgerNow(), Some((key, backend.blobs[i])));
        assert Of(Some((key, backend.blobs[i])), key);
      }
    }

    lemma LacksIff(key: Label)
      requires flat.Valid()
      ensures Lacks(Flat(), key) <==> key !in flat.lookup
    {
      hide Contents, LookupOk;
      if key in flat.lookup {
        flat.KnownIds(key);
        var id := flat.lookup[key][0];
        assert Has(flat.labels, {}, key, id);
        StoredAt(flat.labels, flat.blobs, {}, id);
        assert Of(Some((key, flat.blobs[id])), key);
      } else {
        NothingInFlat(key);
      }
    }

    /** The sections of an update after the first, one right after the other. */
    method UpdateRest()
      requires InOrder() && phase == Snapshotted && |flat.labels| == |flat.blobs|
      modifies this, flat, toMove
      ensures InOrder() && phase == Idle && plain == old(plain) && half == old(half)
      ensures |flat.labels| == |flat.blobs| && Flat() == old(Recent())
      ensures deletedDuringUpdate == old(deletedJournal)
      ensures forall e :: InBackend(backend)[e] == if OfAny(e, Elems(old(deletedJournal))) then 0
                                                   else old(InBackend(backend))[e] + old(Snapshot())[e]
      ensures old(Valid()) ==> Valid()
    {
      hide FlatShape, Contents, LookupOk, Tracking, LedgerOk, OnePerLabel, FlatBuffer.Kept, BackendOk, Erased, Extended,
        Elems, OfAny;
      ShapeFacts();
      ExtendedCounts(backend, toMove[..], movedBlobs);
      AddToBackend();
      var deleted := CleanUpFlat();
      ErasedCounts(backend, Elems(deletedDuringUpdate));
      DeleteFromBackend();
      ShapeFacts();
    }

    /** All sections of an update, one right after the other. */
    method UpdateAtOnce()
      requires Valid() && phase == Idle
      modifies this, flat, toMove
      ensures Valid() && phase == Idle && plain == old(plain) && flat.labels == [] && fresh(toMove)
      ensures half == old(half)
    {
      hide Shape, Contents, LookupOk, Tracking, LedgerOk, OnePerLabel;
      TakeSnapshot();
      AllIdsSize(|flat.labels|);
      AddToBackend();
      var deleted := CleanUpFlat();
      DeleteFromBackend();
    }

    /**
     * What becomes of a vector written in place over one of the snapshot: the rest of the update puts the
     * old vector into the backend and takes the new one for it in the flat buffer, so that it is in
     * neither store afterwards.
     */
    method WriteIsLost(key: Label, blob: Blob)
      requires Valid() && half == Whole && key != SKIP_LABEL && BackendEmpty(backend) && Overtakes(key, blob)
      modifies this, flat, toMove
      ensures InOrder() && phase == Idle && |flat.labels| == |flat.blobs| && BackendOk(backend)
      ensures plain(Some((key, blob))) == 1
      ensures Flat()[Some((key, blob))] == 0 && InBackend(backend)[Some((key, blob))] == 0
      ensures exists e | Of(e, key) :: InBackend(backend)[e] > 0
    {
      hide FlatShape, Contents, Tracking, LedgerOk, OnePerLabel, FlatBuffer.Kept, BackendEmpty, Erased, Extended;
      ShapeFacts();
      ghost var x, before, snapshot := Some((key, blob)), backend, Snapshot();
      OvertakesIff(key, blob);
      EmptyLacks(backend, key);
      CopiedIff(LedgerNow(), deletedJournal, key, blob);
      var added, waits := AddVectorInPlace(key, blob);
      assert Snapshot() == snapshot;
      UpdateRest();
      ShapeFacts();
      InElems(deletedDuringUpdate);
    }

    method AppendOnly(key: Label, blob: Blob)
      requires Valid() && half == Whole && key != SKIP_LABEL && flat.multi
      modifies this`plain, flat
      ensures Valid() && key in flat.lookup && |flat.labels| == |old(flat.labels)| + 1
      ensures forall e :: plain(e) == old(plain)(e) + if e == Some((key, blob)) then 1 else 0
    {
      hide FlatShape, Contents, LedgerOk, BackendOk, Tracking, FlatBuffer.Kept;
      ShapeFacts();
      ghost var before := LedgerNow();
      AppendToFlat(key, blob);
      ShapeFacts();
      plain := e => before.plain(e) + if e == Some((key, blob)) then 1 else 0;
      AppendKeepsLedger(before, LedgerNow(), Some((key, blob)));
    }

    method AddSingle(key: Label, blob: Blob) returns (added: nat)
      requires Valid() && half == Whole && key != SKIP_LABEL && !flat.multi
      modifies this`journal, this`deletedJournal, this`untouched, this`backend, this`plain, flat
      ensures Valid()
      ensures forall e :: plain(e) == (if Of(e, key) then 0 else old(plain)(e)) + if e == Some((key, blob)) then 1 else 0
      ensures added == if key in old(flat.lookup) || BackendHas(old(backend), key) then 0 else 1
      ensures key in flat.lookup
      ensures backend == if BackendHas(old(backend), key) then Erased(old(backend), {key}) else old(backend)
    {
      hide FlatShape, Contents, LookupOk, Tracking, LedgerOk, Elems, Lost, Gains, Lacks, OnePerLabel, BackendOk, LiveOf,
        BackendHas, FlatBuffer.Kept;
      ShapeFacts();
      ghost var before, found := LedgerNow(), key in flat.lookup;
      LiveOfHas(backend, key);
      var gained: int := if key in flat.lookup then -1 else 0;
      var others := DeleteFromBackendOf(key);
      var stored := StoreInFlat(key, blob);
      ShapeFacts();
      gained := gained - others + stored;
      added := if gained > 0 then gained else 0;
      ReplaceInPlain(key, blob, before, found);
    }

    /** The parts of the index as they are, against those of before the call; the plain store is yet to follow. */
    ghost predicate Since(l: Ledger, key: Label, found: bool)
      requires |flat.labels| == |flat.blobs| && BackendOk(backend) && toMove.Length == |movedBlobs|
      reads this`phase, this`plain, this`untouched, this`toMove, this`movedBlobs, this`backend, this`deletedJournal,
        this`deletedDuringUpdate, this`half, flat, toMove
    {
      && LedgerOk(l) && l.plain == plain && l.phase == phase && l.snapshot == Snapshot() && l.half == half == Whole
      && l.dropped == Elems(deletedDuringUpdate) && Elems(deletedJournal) == l.journaled + (if found then {key} else {})
      && Lost(l.back, InBackend(backend), key) && (!found ==> Lacks(l.flat, key) && Lacks(l.recent, key))
    }

    /** The same call on the plain store. */
    ghost method ReplaceInPlain(key: Label, blob: Blob, before: Ledger, found: bool)
      requires Shape() && (phase == Snapshotted || phase == Added ==> Tracking()) && Since(before, key, found)
      requires !flat.multi && OnePerLabel(before.plain)
      requires Gains(before.flat, Flat(), key, blob, true) && Gains(before.recent, Recent(), key, blob, true)
      modifies this`plain
      ensures Valid()
      ensures forall e :: plain(e) == (if Of(e, key) then 0 else old(plain)(e)) + if e == Some((key, blob)) then 1 else 0
    {
      hide FlatShape, Contents, LookupOk, Tracking, LedgerOk, Elems, Lost, Gains, Lacks, OnePerLabel, BackendOk,
        FlatBuffer.Kept;
      ShapeFacts();
      plain := e => (if Of(e, key) then 0 else before.plain(e)) + if e == Some((key, blob)) then 1 else 0;
      ReplaceKeepsLedger(before, LedgerNow(), key, blob, found);
    }

    ghost method LoseInPlain(key: Label, before: Ledger, found: bool)
      requires Shape() && (phase == Snapshotted || phase == Added ==> Tracking()) && Since(before, key, found)
      requires !flat.multi ==> OnePerLabel(before.plain)
      requires Lost(before.flat, Flat(), key) && Lost(before.recent, Recent(), key)
      modifies this`plain
      ensures Valid() && forall e :: plain(e) == if Of(e, key) then 0 else old(plain)(e)
    {
      hide FlatShape, Contents, LookupOk, Tracking, LedgerOk, Elems, Lost, Gains, Lacks, OnePerLabel, BackendOk,
        FlatBuffer.Kept;
      ShapeFacts();
      plain := e => if Of(e, key) then 0 else before.plain(e);
      DeleteKeepsLedger(before, LedgerNow(), key, found);
    }

    /** Overwrites the vector of the label in the flat buffer, or appends one. */
    method StoreInFlat(key: Label, blob: Blob) returns (stored: nat)
      requires Shape() && (phase == Snapshotted || phase == Added ==> Tracking())
      requires key != SKIP_LABEL && !flat.multi
      modifies this`journal, this`deletedJournal, this`untouched, flat
      ensures Shape() && (phase == Snapshotted || phase == Added ==> Tracking()) && key in flat.lookup
      ensures Gains(old(Flat()), Flat(), key, blob, true) && Gains(old(Recent()), Recent(), key, blob, true)
      ensures key !in old(flat.lookup) ==> Lacks(old(Flat()), key) && Lacks(old(Recent()), key)
      ensures Elems(deletedJournal) == Elems(old(deletedJournal)) + if key in old(flat.lookup) then {key} else {}
      ensures stored == if key in old(flat.lookup) then 0 else 1
    {
      hide Contents, LookupOk, Matches, Replay;
      if key in flat.lookup {
        OverwriteInFlat(key, blob);
        ElemsConcat(old(deletedJournal), [key]);
        stored := 0;
      } else {
        NothingInFlat(key);
        AppendToFlat(key, blob);
        stored := 1;
      }
    }

    method AppendToFlat(key: Label, blob: Blob)
      requires Shape() && (phase == Snapshotted || phase == Added ==> Tracking())
      requires key != SKIP_LABEL && (flat.multi || key !in flat.lookup)
      modifies flat
      ensures Shape() && (phase == Snapshotted || phase == Added ==> Tracking()) && key in flat.lookup
      ensures |flat.labels| == |old(flat.labels)| + 1
      ensures forall e :: Flat()[e] == old(Flat())[e] + if e == Some((key, blob)) then 1 else 0
      ensures forall e :: Recent()[e] == old(Recent())[e] + if e == Some((key, blob)) then 1 else 0
    {
      hide Contents, LookupOk, Replay;
      AppendCounts(flat.labels, flat.blobs, {}, key, blob);
      AppendCounts(flat.labels, flat.blobs, untouched, key, blob);
      if Matches(Replay(toMove[..], journal), flat.labels, untouched) {
        MatchesAppend(Replay(toMove[..], journal), flat.labels, untouched, key);
      }
      var added := flat.AddVector(key, blob);
    }

    method OverwriteInFlat(key: Label, blob: Blob)
      requires Shape() && (phase == Snapshotted || phase == Added ==> Tracking())
      requires !flat.multi && key in flat.lookup
      modifies this`journal, this`deletedJournal, this`untouched, flat
      ensures Shape() && (phase == Snapshotted || phase == Added ==> Tracking()) && key in flat.lookup
      ensures deletedJournal == old(deletedJournal) + [key]
      ensures Gains(old(Flat()), Flat(), key, blob, true) && Gains(old(Recent()), Recent(), key, blob, true)
    {
      hide Contents, LookupOk, Replay;
      flat.KnownIds(key);
      flat.LoneId(key);
      var id := flat.lookup[key][0];
      OverwriteCounts(flat.labels, flat.blobs, {}, {}, id, key, blob);
      OverwriteCounts(flat.labels, flat.blobs, untouched, untouched - {id}, id, key, blob);
      OverwriteReplays(toMove[..], journal, flat.labels, untouched, id);
      var added := flat.AddVector(key, blob);
      journal := journal + [Record(SKIP_LABEL, id, id)];
      deletedJournal := deletedJournal + [key];
      untouched := untouched - {id};
    }

    lemma NothingRecent(key: Label)
      requires |flat.labels| == |flat.blobs| && NoneLeft(flat.labels, {}, key)
      ensures forall e | Of(e, key) :: Recent()[e] == 0
    {
      forall v ensures !Has(flat.labels, untouched, key, v) {
        assert !Has(flat.labels, {}, key, v);
      }
      NothingStored(flat.labels, flat.blobs, untouched, key);
    }
  }

  /** A case: a vector is added, copied to the snapshot and written over in place. */
  method LoseOneWrite(blob: Blob, newer: Blob) returns (svs: TieredSvs)
    requires blob != newer
    ensures svs.InOrder() && svs.phase == Idle && |svs.flat.labels| == |svs.flat.blobs| && BackendOk(svs.backend)
    ensures svs.plain(Some((1, newer))) == 1
    ensures svs.Flat()[Some((1, newer))] == 0 && InBackend(svs.backend)[Some((1, newer))] == 0
  {
    hide TieredSvs.FlatShape, Contents, TieredSvs.Tracking, OnePerLabel, FlatBuffer.Kept, LedgerOk;
    svs := CopyOneVector(blob);
    SnapshotHas(svs.toMove[..], svs.movedBlobs, 1, newer);
    svs.WriteIsLost(1, newer);
  }

  /** A vector that was copied to the snapshot. */
  method CopyOneVector(blob: Blob) returns (svs: TieredSvs)
    ensures fresh(svs) && fresh(svs.flat) && fresh(svs.toMove) && svs.Valid() && svs.phase == Snapshotted
    ensures svs.half == Whole && !svs.flat.multi && svs.deletedJournal == [] && svs.backend == Backend([], [], {})
    ensures |svs.flat.labels| == |svs.flat.blobs| && svs.toMove.Length == |svs.movedBlobs|
    ensures svs.toMove[..] == svs.flat.labels && svs.movedBlobs == svs.flat.blobs
    ensures svs.plain(Some((1, blob))) == svs.Flat()[Some((1, blob))] == 1
  {
    hide TieredSvs.FlatShape, Contents, TieredSvs.Tracking, OnePerLabel, FlatBuffer.Kept, LedgerOk, LiveOf;
    var flat := new FlatBuffer(false);
    svs := new TieredSvs(flat, 2);
    var added := svs.AddVector(1, blob);
    svs.OnlyInFlat(1, blob);
    svs.TakeSnapshot();
  }

  /**
   * A case: while an addition is between its two sections, the update moves the old vector into the backend
   * and deletes it from the flat buffer, so that the new one does not overwrite it.
   */
  method KeepBoth(blob: Blob, newer: Blob) returns (svs: TieredSvs)
    requires blob != newer
    ensures svs.InOrder() && svs.phase == Idle && svs.half == Whole && !svs.Valid()
    ensures |svs.flat.labels| == |svs.flat.blobs| && BackendOk(svs.backend)
    ensures svs.plain(Some((1, newer))) == 1 && svs.Flat()[Some((1, newer))] == 1
    ensures svs.plain(Some((1, blob))) == 0 && InBackend(svs.backend)[Some((1, blob))] > 0
  {
    hide TieredSvs.FlatShape, Contents, TieredSvs.Tracking, OnePerLabel, FlatBuffer.Kept, LedgerOk, LiveOf;
    svs := CopyOneVector(blob);
    var count := svs.DropStale(1);
    svs.UpdateRest();
    StoredIsThere(svs.backend, Some((1, blob)), 1);
    var stored := svs.StoreLate(1, newer);
  }

  /** A vector that the update moved into the backend. */
  method MoveOneVector(blob: Blob) returns (svs: TieredSvs)
    ensures fresh(svs) && fresh(svs.flat) && fresh(svs.toMove) && svs.Valid() && svs.phase == Idle && !svs.flat.multi
    ensures svs.half == Whole
    ensures forall e :: svs.plain(e) == if e == Some((2, blob)) then 1 else 0
    ensures !BackendEmpty(svs.backend) && !BackendHas(svs.backend, 1)
  {
    hide TieredSvs.FlatShape, Contents, TieredSvs.Tracking, OnePerLabel, FlatBuffer.Kept, LiveOf, LedgerOk;
    var flat := new FlatBuffer(false);
    svs := new TieredSvs(flat, 2);
    var added := svs.AddVector(2, blob);
    svs.UpdateAtOnce();
    svs.InBackendThen(2, blob);
    svs.NotInBackendThen(1);
  }

  /** A case: a vector of the flat buffer is written over in place in a backend that is in use. */
  method KeepOldVector(blob: Blob, newer: Blob) returns (svs: TieredSvs)
    requires blob != newer
    ensures svs.InOrder() && svs.phase == Idle && |svs.flat.labels| == |svs.flat.blobs| && BackendOk(svs.backend)
    ensures svs.plain(Some((1, blob))) == 0 && svs.Flat()[Some((1, blob))] == 1
    ensures svs.plain(Some((1, newer))) == 1 && InBackend(svs.backend)[Some((1, newer))] == 1
  {
    hide TieredSvs.FlatShape, Contents, TieredSvs.Tracking, OnePerLabel, FlatBuffer.Kept, LiveOf, LedgerOk;
    svs := MoveOneVector(blob);
    var added := svs.AddVector(1, blob);
    svs.OnlyInFlat(1, blob);
    AbsentCounts(svs.backend, 1);
    assert Of(Some((1, newer)), 1);
    var waits;
    added, waits := svs.AddVectorInPlace(1, newer);
  }

  lemma OverwriteReplays(arr: seq<Label>, journal: seq<Record>, labels: seq<Label>, untouched: set<Id>, id: Id)
    requires (forall p | p in journal :: RecordOk(p)) && 0 <= id
    ensures forall p | p in journal + [Record(SKIP_LABEL, id, id)] :: RecordOk(p)
    ensures Matches(Replay(arr, journal), labels, untouched) ==>
              Matches(Replay(arr, journal + [Record(SKIP_LABEL, id, id)]), labels, untouched - {id})
  {
    var longer := journal + [Record(SKIP_LABEL, id, id)];
    assert longer[..|longer| - 1] == journal;
    if Matches(Replay(arr, journal), labels, untouched) {
      MatchesOverwrite(Replay(arr, journal), labels, untouched, id);
    }
  }

  ghost predicate Descending(s: seq<Id>) {
    forall i, j :: 0 <= i < j < |s| ==> s[i] > s[j]
  }

  lemma GainedOne(bag0: Bag, bag: Bag, key: Label, blob: Blob)
    requires Gains(bag0, bag, key, blob, true)
    ensures bag[Some((key, blob))] == 1
  {
  }

  lemma AppendedGains(bag0: Bag, bag: Bag, key: Label, blob: Blob)
    requires Lacks(bag0, key) && forall e :: bag[e] == bag0[e] + if e == Some((key, blob)) then 1 else 0
    ensures Gains(bag0, bag, key, blob, true)
  {
  }

  lemma LostThenGained(back0: Bag, back: Bag, back': Bag, key: Label, blob: Blob, instead: bool)
    requires if instead then Lost(back0, back, key) else back == back0
    requires back' == back + multiset{Some((key, blob))}
    ensures Gains(back0, back', key, blob, instead)
  {
  }

  lemma NothingCopied(l: Ledger, key: Label)
    requires Lacks(l.flat, key) && Lacks(l.recent, key)
    ensures !AsCopied(l, key) && forall e | Of(e, key) :: l.recent[e] == l.flat[e]
  {
  }

  /** The lone vector of a label counts as recent or it does not. */
  lemma LoneCopied(labels: seq<Label>, blobs: seq<Blob>, untouched: set<Id>, id: Id, key: Label)
    requires |labels| == |blobs| && 0 <= id < |labels| && forall v :: Has(labels, {}, key, v) <==> v == id
    ensures var all, recent := Contents(labels, blobs, {}), Contents(labels, blobs, untouched);
      if id in untouched then
        Of(Some((key, blobs[id])), key) && all[Some((key, blobs[id]))] > 0 && Lacks(recent, key)
      else forall e | Of(e, key) :: all[e] == recent[e]
  {
    hide Contents;
    assert Has(labels, {}, key, id);
    StoredAt(labels, blobs, {}, id);
    if id in untouched {
      forall v ensures !Has(labels, untouched, key, v) {
        assert Has(labels, {}, key, v) <==> v == id;
      }
      NothingStored(labels, blobs, untouched, key);
    } else {
      assert blobs[id := blobs[id]] == blobs;
      OverwriteCounts(labels, blobs, {}, {}, id, key, blobs[id]);
      OverwriteCounts(labels, blobs, untouched, untouched, id, key, blobs[id]);
    }
  }

  lemma MaskedOverwrite(labels: seq<Label>, blobs: seq<Blob>, untouched: set<Id>, id: Id, blob: Blob)
    requires |labels| == |blobs| && 0 <= id < |labels| && id in untouched
    ensures Contents(labels, blobs[id := blob], untouched) == Contents(labels, blobs, untouched)
  {
    assert Entries(labels, blobs[id := blob], untouched) == Entries(labels, blobs, untouched);
  }

  lemma OneEntry(key: Label, blob: Blob)
    ensures Contents([key], [blob], {}) == multiset{Some((key, blob))}
  {
    assert Entries([key], [blob], {}) == [Some((key, blob))];
  }

  /** The ids sorted from the largest down. */
  method SortDescending(ids: seq<Id>) returns (sorted: seq<Id>)
    requires NoDup(ids)
    ensures Descending(sorted) && NoDup(sorted) && |sorted| == |ids|
    ensures forall v :: v in sorted <==> v in ids
  {
    sorted := [];
    for n := 0 to |ids|
      invariant |sorted| == n && Descending(sorted)
      invariant forall v :: v in sorted <==> v in ids[..n]
    {
      assert ids[n] !in ids[..n] && ids[..n + 1] == ids[..n] + [ids[n]];
      hide Descending, NoDup;
      sorted := InsertDescending(sorted, ids[n]);
    }
    assert ids[..|ids|] == ids;
  }

  method InsertDescending(s: seq<Id>, x: Id) returns (r: seq<Id>)
    requires Descending(s) && x !in s
    ensures Descending(r) && |r| == |s| + 1
    ensures forall v :: v in r <==> v in s || v == x
  {
    var p := |s|;
    hide Descending;
    while p > 0 && s[p - 1] < x
      invariant 0 <= p <= |s| && forall i | p <= i < |s| :: s[i] < x
    {
      p := p - 1;
    }
    r := s[..p] + [x] + s[p..];
    assert p > 0 ==> s[p - 1] in s && s[p - 1] > x;
    InsertedIsSorted(s, x, p);
    InsertedMembers(s, x, p);
  }

  lemma InsertedIsSorted(s: seq<Id>, x: Id, p: nat)
    requires Descending(s) && p <= |s| && (p > 0 ==> s[p - 1] > x) && (p < |s| ==> s[p] < x)
    ensures Descending(s[..p] + [x] + s[p..])
  {
    assert forall i | 0 <= i < p :: s[i] > x;
    assert forall i | p <= i < |s| :: s[i] < x;
  }

  lemma InsertedMembers(s: seq<Id>, x: Id, p: nat)
    requires p <= |s|
    ensures forall v :: v in s[..p] + [x] + s[p..] <==> v in s || v == x
  {
    assert s == s[..p] + s[p..];
  }

  lemma RecordsStep(ids: seq<Id>, updated: map<Id, (Id, Label)>, i: nat)
    requires i < |ids|
    ensures Records(ids[..i + 1], updated) == Records(ids[..i], updated) + [RecordOf(ids[i], updated)]
  {
  }

  lemma NoneMarked(n: nat, updated: map<Id, (Id, Label)>)
    ensures Follow({}, n, updated) == {}
  {
  }

  /** What is stored apart from marked elements loses the deleted label and nothing else. */
  lemma CountsAfterDeletion(labels0: seq<Label>, blobs0: seq<Blob>, labels: seq<Label>, blobs: seq<Blob>,
                            updated: map<Id, (Id, Label)>, key: Label, mark: set<Id>)
    requires CountsFollow(labels0, blobs0, labels, blobs, mark, updated, key) && NoneLeft(labels, {}, key)
    ensures |labels0| == |blobs0| && |labels| == |blobs|
    ensures forall e ::
              Contents(labels, blobs, Follow(mark, |labels|, updated))[e]
              == if Of(e, key) then 0 else Contents(labels0, blobs0, mark)[e]
  {
    hide Contents;
    var dead := Follow(mark, |labels|, updated);
    forall v ensures !Has(labels, dead, key, v) {
      assert !Has(labels, {}, key, v);
    }
    NothingStored(labels, blobs, dead, key);
  }

  lemma JournalAfterDeletion(arr: seq<Label>, journal: seq<Record>, labels0: seq<Label>, blobs0: seq<Blob>,
                             labels: seq<Label>, blobs: seq<Blob>, updated: map<Id, (Id, Label)>, key: Label, ids: seq<Id>,
                             untouched: set<Id>)
    requires Compacted(labels0, blobs0, labels, blobs, updated, key)
    requires NoDup(ids) && forall v :: v in ids <==> Has(labels0, {}, key, v)
    requires forall p | p in journal :: RecordOk(p)
    requires forall i | 0 <= i < |labels0| :: labels0[i] != SKIP_LABEL
    ensures forall p | p in journal + Records(ids, updated) :: RecordOk(p)
    ensures Matches(Replay(arr, journal), labels0, untouched) ==>
              Matches(Replay(arr, journal + Records(ids, updated)), labels, Follow(untouched, |labels|, updated))
    ensures forall i | 0 <= i < |labels| :: labels[i] != SKIP_LABEL
  {
    hide Replay, Matches;
    DeletionIsOk(labels0, blobs0, labels, blobs, updated, key, ids);
    ReplayedAll(arr, updated, ids, |ids|);
    assert ids[..|ids|] == ids;
    ReplayAppend(arr, journal, Records(ids, updated));
    if Matches(Replay(arr, journal), labels0, untouched) {
      DeletionMatches(Replay(arr, journal), labels0, blobs0, labels, blobs, updated, key, ids, untouched);
    }
    forall i | 0 <= i < |labels| ensures labels[i] != SKIP_LABEL {
      assert labels[i] == labels0[Source(updated, i)];
    }
  }

  lemma NothingReplayed(labels: seq<Label>)
    ensures Matches(Replay(labels, []), labels, AllIds(|labels|))
  {
  }

  /** None of the labels is in the backend. */
  ghost predicate NoneMet(labels: seq<Label>, b: Backend) {
    forall i | 0 <= i < |labels| :: !BackendHas(b, labels[i])
  }

  function AllIds(n: nat): (ids: set<Id>)
    ensures forall i :: i in ids <==> 0 <= i < n
  {
    if n == 0 then {} else AllIds(n - 1) + {n - 1}
  }

  lemma AllIdsSize(n: nat)
    ensures |AllIds(n)| == n
  {
  }

  /** With all elements untouched, nothing recent is stored. */
  lemma AllUntouched(labels: seq<Label>, blobs: seq<Blob>, all: set<Id>)
    requires |labels| == |blobs| && all == AllIds(|labels|)
    ensures forall e :: Contents(labels, blobs, all)[e] == 0
  {
    forall e ensures Contents(labels, blobs, all)[e] == 0 {
      assert forall i | 0 <= i < |labels| :: Entries(labels, blobs, all)[i] == None;
    }
  }
}

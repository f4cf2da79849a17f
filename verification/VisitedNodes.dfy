/** Marking visited nodes by 16-bit tags, so that a new scan need not clear the array. */
module VisitedNodes {

  const TAG_RANGE := 0x1_0000

  class VisitedNodesHandler {
    var tags: array<int>
    var curTag: int

    /** No element carries a tag that is still to be handed out. */
    ghost predicate Valid()
      reads this, tags
    {
      0 <= curTag < TAG_RANGE && forall i :: 0 <= i < tags.Length ==> 0 <= tags[i] <= curTag
    }

    constructor (capacity: nat)
      ensures Valid() && fresh(tags) && tags.Length == capacity && curTag == 0
    {
      tags := new int[capacity](i => 0);
      curTag := 0;
    }

    method Reset()
      modifies this`curTag, tags
      ensures curTag == 0 && forall i :: 0 <= i < tags.Length ==> tags[i] == 0
    {
      for i := 0 to tags.Length
        invariant forall j :: 0 <= j < i ==> tags[j] == 0
      {
        tags[i] := 0;
      }
      curTag := 0;
    }

    method Resize(capacity: nat)
      modifies this, tags
      ensures Valid() && fresh(tags) && tags.Length == capacity && curTag == 0
    {
      tags := new int[capacity];
      Reset();
    }

    /** A tag that no element carries: the counter wraps around only after the array was cleared. */
    method GetFreshTag() returns (tag: int)
      requires Valid()
      modifies this`curTag, tags
      ensures Valid() && tag == curTag
      ensures forall i :: 0 <= i < tags.Length ==> tags[i] != tag
      ensures old(curTag) + 1 < TAG_RANGE ==> tag == old(curTag) + 1 && tags[..] == old(tags[..])
      ensures old(curTag) + 1 == TAG_RANGE ==> tag == 1 && forall i :: 0 <= i < tags.Length ==> tags[i] == 0
    {
      curTag := (curTag + 1) % TAG_RANGE;
      if curTag == 0 {
        Reset();
        curTag := curTag + 1;
      }
      tag := curTag;
    }

    method TagNode(id: int)
      requires Valid() && 0 <= id < tags.Length
      modifies tags
      ensures Valid() && tags[..] == old(tags[..])[id := curTag]
    {
      tags[id] := curTag;
    }

    /** The elements carrying the current tag. */
    ghost function Visited(): set<int>
      reads this, tags
    {
      set i | 0 <= i < tags.Length && tags[i] == curTag
    }
  }
}

/** The entries of cpp-util/lrucache.h and the circular lists through their next and prev fields. */
module LruRing {
  import opened Sequences

  class Entry {
    const key: string
    const hash: nat
    const value: int
    var nextHash: Entry?
    var next: Entry?
    var prev: Entry?
    var refs: nat
    var inCache: bool

    constructor (key: string, hash: nat, value: int)
      ensures this.key == key && this.hash == hash && this.value == value && refs == 1 && !inCache
    {
      this.key, this.hash, this.value := key, hash, value;
      nextHash, next, prev, refs, inCache := null, null, null, 1, false;
    }
  }

  ghost function SetOf(chain: seq<Entry>): set<Entry> { set e | e in chain }

  /** Position j of the circle; the head stands before the first and after the last. */
  ghost function At(head: Entry, ring: seq<Entry>, j: int): Entry { if 0 <= j < |ring| then ring[j] else head }

  ghost predicate LinkOk(head: Entry, ring: seq<Entry>, j: int)
    reads At(head, ring, j - 1)`next, At(head, ring, j)`prev
  {
    At(head, ring, j - 1).next == At(head, ring, j) && At(head, ring, j).prev == At(head, ring, j - 1)
  }

  ghost predicate Ring(head: Entry, ring: seq<Entry>)
    reads head`next, head`prev, SetOf(ring)`next, SetOf(ring)`prev
  {
    head !in ring && Distinct(ring) && forall j :: 0 <= j <= |ring| ==> LinkOk(head, ring, j)
  }

  /** LRU_Remove */
  method Remove(ghost head: Entry, ghost ring: seq<Entry>, e: Entry, ghost k: nat)
    requires Ring(head, ring) && k < |ring| && ring[k] == e
    modifies SetOf(ring)`next, SetOf(ring)`prev, head`next, head`prev
    ensures Ring(head, Without(ring, k))
  {
    assert LinkOk(head, ring, k) && LinkOk(head, ring, k + 1);
    var n, p := e.next, e.prev;
    n.prev := p;
    p.next := n;
    ghost var ring' := Without(ring, k);
    WithoutDistinct(ring, k);
    forall j | 0 <= j <= |ring'| ensures LinkOk(head, ring', j) {
      if j < k { assert old(LinkOk(head, ring, j)); } else { assert old(LinkOk(head, ring, j + 1)); }
    }
  }

  /** LRU_Append */
  method Append(head: Entry, ghost ring: seq<Entry>, e: Entry)
    requires Ring(head, ring) && e !in ring && e != head
    modifies SetOf(ring)`next, head`next, head`prev, e`next, e`prev
    ensures Ring(head, ring + [e])
  {
    assert LinkOk(head, ring, |ring|);
    e.next := head;
    e.prev := head.prev;
    e.prev.next := e;
    e.next.prev := e;
    ghost var ring' := ring + [e];
    forall j | 0 <= j <= |ring'| ensures LinkOk(head, ring', j) {
      if j < |ring| { assert old(LinkOk(head, ring, j)); }
    }
  }

  lemma EmptyRing(head: Entry)
    requires head.next == head && head.prev == head
    ensures Ring(head, [])
  {
    assert LinkOk(head, [], 0);
  }

  /** list.next is the list itself exactly when nothing is on it, and else the oldest entry. */
  lemma First(head: Entry, ring: seq<Entry>)
    requires Ring(head, ring)
    ensures head.next == if ring == [] then head else ring[0]
  {
    assert LinkOk(head, ring, 0);
  }
}

/**
 The descriptors of c-util/slab.c and the lists threaded through them.

 A descriptor's address is a `Ref`: the list head `pool->free`, a slot head, or an entry of the
 page table. The low two bits of the C field `prev` are the separate field `tag` here.
 */
module SlabLinks {
  import opened Sequences

  datatype Ref = FreeHead | Slot(c: nat) | Page(i: nat)

  datatype Link = Null | To(r: Ref)

  datatype Tag = PageTag | BigTag | ExactTag | SmallTag

  datatype Desc = Desc(slab: nat, next: Link, prev: Link, tag: Tag)

  type Mem = map<Ref, Desc>

  /** The k-th node of the ring through `head`, which itself closes it on both sides. */
  function Node(head: Ref, list: seq<nat>, k: int): Ref {
    if 0 <= k < |list| then Page(list[k]) else head
  }

  predicate LinkOk(d: Mem, head: Ref, list: seq<nat>, k: int) {
    var a, b := Node(head, list, k - 1), Node(head, list, k);
    a in d && b in d && d[a].next == To(b) && (k < |list| ==> d[b].prev == To(a))
  }

  /** Following `next` from the head visits exactly `list` and returns; `prev` mirrors it except at the head. */
  predicate Ring(d: Mem, head: Ref, list: seq<nat>) {
    && !head.Page?
    && Distinct(list)
    && forall k :: 0 <= k <= |list| ==> LinkOk(d, head, list, k)
  }

  // ----- the program's list operations

  predicate CanUnlink(d: Mem, r: Ref) {
    r in d && d[r].next.To? && d[r].prev.To? && d[r].next.r in d && d[r].prev.r in d
  }

  /** prev->next = r->next; r->next->prev = r->prev */
  function Unlink(d: Mem, r: Ref): Mem
    requires CanUnlink(d, r)
  {
    var p, q := d[r].prev.r, d[r].next.r;
    var d1 := d[p := d[p].(next := d[r].next)];
    d1[q := d1[q].(prev := d[r].prev, tag := d[r].tag)]
  }

  lemma WithoutNode(head: Ref, list: seq<nat>, k: nat, j: int)
    requires k < |list|
    ensures Node(head, Without(list, k), j) == Node(head, list, if j < k then j else j + 1)
  {
  }

  lemma RingEnds(d: Mem, head: Ref, list: seq<nat>, k: nat)
    requires Ring(d, head, list) && k < |list|
    ensures var r := Page(list[k]);
            && r in d && d[r].next == To(Node(head, list, k + 1)) && d[r].prev == To(Node(head, list, k - 1))
            && Node(head, list, k + 1) in d && Node(head, list, k - 1) in d
            && Node(head, list, k + 1) != r && Node(head, list, k - 1) != r
  {
    assert LinkOk(d, head, list, k) && LinkOk(d, head, list, k + 1);
  }

  lemma NodesDiffer(head: Ref, list: seq<nat>, j: int, k: int)
    requires !head.Page? && Distinct(list) && -1 <= j < k <= |list| && !(j == -1 && k == |list|)
    ensures Node(head, list, j) != Node(head, list, k)
  {
  }

  lemma UnlinkKeeps(d: Mem, head: Ref, list: seq<nat>, k: nat)
    requires Ring(d, head, list) && k < |list|
    ensures CanUnlink(d, Page(list[k])) && Ring(Unlink(d, Page(list[k])), head, Without(list, k))
  {
    RingEnds(d, head, list, k);
    WithoutDistinct(list, k);
    forall j | 0 <= j < |list| ensures LinkOk(Unlink(d, Page(list[k])), head, Without(list, k), j) {
      UnlinkLink(d, head, list, k, j);
    }
  }

  lemma UnlinkLink(d: Mem, head: Ref, list: seq<nat>, k: nat, j: nat)
    requires Ring(d, head, list) && k < |list| && j < |list| && CanUnlink(d, Page(list[k]))
    requires d[Page(list[k])].next == To(Node(head, list, k + 1))
             && d[Page(list[k])].prev == To(Node(head, list, k - 1))
    ensures LinkOk(Unlink(d, Page(list[k])), head, Without(list, k), j)
  {
    hide Without;
    WithoutNode(head, list, k, j - 1);
    WithoutNode(head, list, k, j);
    if j < k {
      assert LinkOk(d, head, list, j);
      NodesDiffer(head, list, j - 1, k - 1);
    } else if j > k {
      assert LinkOk(d, head, list, j + 1);
    }
  }

  // ----- pushing and replacing

  /** r->prev = &head; r->next = head->next; r->next->prev = r; head->next = r */
  function PushFront(d: Mem, head: Ref, r: Ref, tag: Tag): Mem
    requires head in d && r in d && d[head].next.To? && d[head].next.r in d
  {
    var q := d[head].next.r;
    var d1 := d[r := d[r].(prev := To(head), next := To(q), tag := tag)];
    var d2 := d1[q := d1[q].(prev := To(r), tag := tag)];
    d2[head := d2[head].(next := To(r))]
  }

  lemma PushFrontKeeps(d: Mem, head: Ref, list: seq<nat>, x: nat, tag: Tag)
    requires Ring(d, head, list) && x !in list && Page(x) in d
    ensures head in d && d[head].next == To(Node(head, list, 0)) && d[head].next.r in d
            && Ring(PushFront(d, head, Page(x), tag), head, [x] + list)
  {
    assert LinkOk(d, head, list, 0);
    var d', l := PushFront(d, head, Page(x), tag), [x] + list;
    forall j | 0 <= j <= |l| ensures LinkOk(d', head, l, j) {
      if j >= 1 {
        assert LinkOk(d, head, list, j - 1);
        assert Node(head, l, j) == Node(head, list, j - 1);
        if j >= 2 { assert Node(head, l, j - 1) == Node(head, list, j - 2); }
      }
    }
  }

  /** `x` takes over the links of `r` and its neighbours are told. */
  function Replace(d: Mem, r: Ref, x: Ref): Mem
    requires CanUnlink(d, r) && x in d
  {
    var p, q := d[r].prev.r, d[r].next.r;
    var d1 := d[x := d[x].(next := d[r].next, prev := d[r].prev, tag := d[r].tag)];
    var d2 := d1[p := d1[p].(next := To(x))];
    d2[q := d2[q].(prev := To(x), tag := PageTag)]
  }

  lemma ReplaceKeeps(d: Mem, head: Ref, list: seq<nat>, k: nat, x: nat)
    requires Ring(d, head, list) && k < |list| && x !in list && Page(x) in d
    ensures CanUnlink(d, Page(list[k])) && Ring(Replace(d, Page(list[k]), Page(x)), head, list[k := x])
  {
    RingEnds(d, head, list, k);
    var d', l := Replace(d, Page(list[k]), Page(x)), list[k := x];
    forall j | 0 <= j <= |l| ensures LinkOk(d', head, l, j) {
      assert LinkOk(d, head, list, j);
    }
  }

  // ----- what a ring depends on

  /** The links of a ring's nodes are the same in both memories. */
  predicate SameLinks(d: Mem, d': Mem, head: Ref, list: seq<nat>) {
    && head in d && head in d' && d'[head].next == d[head].next
    && forall k :: 0 <= k < |list| ==>
         Page(list[k]) in d && Page(list[k]) in d' && d'[Page(list[k])].next == d[Page(list[k])].next
         && d'[Page(list[k])].prev == d[Page(list[k])].prev
  }

  lemma RingFrame(d: Mem, d': Mem, head: Ref, list: seq<nat>)
    requires Ring(d, head, list) && SameLinks(d, d', head, list)
    ensures Ring(d', head, list)
  {
    forall k | 0 <= k <= |list| ensures LinkOk(d', head, list, k) {
      assert LinkOk(d, head, list, k);
    }
  }
}

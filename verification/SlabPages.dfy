/**
 The page-run allocator of c-util/slab.c: first fit, splitting, and two-sided coalescing through the
 back pointer kept in the last descriptor of a free run.

 `kind` describes what each page of the pool is: it is the abstract state of which the descriptor
 table is the representation.
 */
module SlabPages {
  import opened Sequences
  import opened SlabLinks

  const PAGE_FREE: nat := 0
  const PAGE_START: nat := 0x8000_0000_0000_0000
  const PAGE_BUSY: nat := 0xffff_ffff_ffff_ffff

  /** A page belongs to a free run or a live run [h, h + l), is cut into chunks of slot class c
      (on its slot list while it has a free chunk), or is part of a run just being given back. */
  datatype Kind =
    | FreeRun(h: nat, l: nat)
    | LiveRun(h: nat, l: nat)
    | SlotPage(c: nat, listed: bool)
    | Held(h: nat, l: nat)

  /** The abstract pool: page kinds, the order of the free ring, and of each slot list. */
  datatype Pages = Pages(kind: seq<Kind>, ring: seq<nat>, lists: seq<seq<nat>>)

  // ----- tiling

  predicate RunOk(kind: seq<Kind>, i: nat)
    requires i < |kind|
  {
    kind[i].SlotPage? ||
    (kind[i].l >= 1 && kind[i].h <= i < kind[i].h + kind[i].l <= |kind| && Uniform(kind, kind[i].h, kind[i].l, kind[i]))
  }

  predicate Uniform(kind: seq<Kind>, h: nat, l: nat, k: Kind)
    requires h + l <= |kind|
  {
    forall j :: h <= j < h + l ==> kind[j] == k
  }

  /** Runs and slot pages tile the table exactly. */
  predicate Tiled(kind: seq<Kind>) {
    forall i :: 0 <= i < |kind| ==> RunOk(kind, i)
  }

  /** No two free runs touch. */
  predicate Coalesced(kind: seq<Kind>) {
    forall i :: 0 <= i < |kind| && kind[i].FreeRun? ==> !FreeAt(kind, kind[i].h + kind[i].l)
  }

  predicate FreeAt(kind: seq<Kind>, i: nat) { i < |kind| && kind[i].FreeRun? }

  function Fill(kind: seq<Kind>, h: nat, l: nat, k: Kind): (r: seq<Kind>)
    requires h + l <= |kind|
    ensures |r| == |kind|
    ensures forall i :: 0 <= i < |kind| ==> r[i] == if h <= i < h + l then k else kind[i]
  {
    seq(|kind|, i requires 0 <= i < |kind| => if h <= i < h + l then k else kind[i])
  }

  // ----- representation

  ghost predicate Shape(d: Mem, n: nat, slots: nat) {
    forall r :: r in d <==> match r
                            case FreeHead => true
                            case Slot(c) => c < slots
                            case Page(i) => i < n
  }

  /** The tag of a page of slot class c, given the class of the exact size. */
  function TagOf(c: nat, exact: int): Tag {
    if c < exact then SmallTag else if c == exact then ExactTag else BigTag
  }

  predicate DescOk(x: Desc, k: Kind, i: nat, n: nat, exact: int) {
    match k
    case FreeRun(h, l) =>
      && x.tag == PageTag
      && if i == h then x.slab == l && x.next.To?
         else x.slab == PAGE_FREE && x.next == Null && (i + 1 == h + l < n ==> x.prev == To(Page(h)))
    case LiveRun(h, l) =>
      x.tag == PageTag && x.next == Null && x.slab == if i == h then l + PAGE_START else PAGE_BUSY
    case SlotPage(c, listed) => x.tag == TagOf(c, exact) && (listed <==> x.next.To?)
    case Held(h, l) =>
      if i == h then x.slab == l else x.tag == PageTag && x.slab == PAGE_FREE && x.next == Null
  }

  predicate IsHead(k: Kind, i: nat) { k.FreeRun? && k.h == i }

  predicate Descs(d: Mem, kind: seq<Kind>, exact: int) {
    forall i :: 0 <= i < |kind| ==> Page(i) in d && DescOk(d[Page(i)], kind[i], i, |kind|, exact)
  }

  /** The ring through pool->free holds the head of every free run exactly once. */
  ghost predicate FreeRing(d: Mem, a: Pages) {
    && Ring(d, FreeHead, a.ring)
    && forall p: nat :: p in a.ring <==> p < |a.kind| && IsHead(a.kind[p], p)
  }

  /** The list of slot class c holds its pages that have a free chunk. */
  ghost predicate SlotList(d: Mem, a: Pages, c: nat)
    requires c < |a.lists|
  {
    && Ring(d, Slot(c), a.lists[c])
    && forall p: nat :: p in a.lists[c] <==> p < |a.kind| && a.kind[p] == SlotPage(c, true)
  }

  ghost predicate Represents(d: Mem, a: Pages, exact: int) {
    && Shape(d, |a.kind|, |a.lists|)
    && |a.kind| < PAGE_START
    && Tiled(a.kind)
    && Coalesced(a.kind)
    && (forall i :: 0 <= i < |a.kind| && a.kind[i].SlotPage? ==> a.kind[i].c < |a.lists|)
    && Descs(d, a.kind, exact)
    && FreeRing(d, a)
    && (forall c :: 0 <= c < |a.lists| ==> SlotList(d, a, c))
  }

  predicate NoneHeld(kind: seq<Kind>) {
    forall i :: 0 <= i < |kind| ==> !kind[i].Held?
  }

  // ----- a page's descriptor when only its list links change

  predicate Listed(k: Kind, i: nat) { IsHead(k, i) || (k.SlotPage? && k.listed) }

  lemma RelinkOk(x: Desc, x': Desc, k: Kind, i: nat, n: nat, exact: int)
    requires DescOk(x, k, i, n, exact)
    requires x'.slab == x.slab && x'.tag == x.tag && (x'.next == x.next || (x.next.To? && x'.next.To?))
    requires x'.prev == x.prev || Listed(k, i)
    ensures DescOk(x', k, i, n, exact)
  {
  }

  // ----- carving k pages off the free run at h

  /** The kinds after k pages were taken from the front of the free run [h, h + l). */
  function Carve(kind: seq<Kind>, h: nat, l: nat, k: nat): seq<Kind>
    requires 1 <= k <= l && h + l <= |kind|
  {
    Fill(Fill(kind, h + k, l - k, FreeRun(h + k, l - k)), h, k, LiveRun(h, k))
  }

  lemma SameOrApart(kind: seq<Kind>, i: nat, j: nat)
    requires Tiled(kind) && i < |kind| && j < |kind| && !kind[i].SlotPage? && !kind[j].SlotPage?
    ensures kind[i] == kind[j] || kind[i].h + kind[i].l <= kind[j].h || kind[j].h + kind[j].l <= kind[i].h
  {
    assert RunOk(kind, i) && RunOk(kind, j);
    var m := if kind[i].h < kind[j].h then kind[j].h else kind[i].h;
    if m < kind[i].h + kind[i].l && m < kind[j].h + kind[j].l {
      assert kind[m] == kind[i];
    }
  }

  lemma CarveTiled(kind: seq<Kind>, h: nat, l: nat, k: nat)
    requires Tiled(kind) && h < |kind| && kind[h] == FreeRun(h, l) && 1 <= k <= l
    ensures h + l <= |kind| && Tiled(Carve(kind, h, l, k))
  {
    assert RunOk(kind, h);
    var kind' := Carve(kind, h, l, k);
    forall i | 0 <= i < |kind'| ensures RunOk(kind', i) {
      assert RunOk(kind, i);
      if !kind[i].SlotPage? && !(h <= i < h + l) {
        SameOrApart(kind, i, h);
      }
    }
  }

  lemma CarveAt(kind: seq<Kind>, h: nat, l: nat, k: nat, i: nat)
    requires 1 <= k <= l && h + l <= |kind| && i < |kind|
    ensures |Carve(kind, h, l, k)| == |kind|
    ensures Carve(kind, h, l, k)[i] == if i < h || h + l <= i then kind[i] else if i < h + k then LiveRun(h, k)
            else FreeRun(h + k, l - k)
  {
  }

  /** A free run elsewhere does not end inside the one at h. */
  lemma CarveEnds(kind: seq<Kind>, h: nat, l: nat, i: nat)
    requires Tiled(kind) && Coalesced(kind) && h < |kind| && kind[h] == FreeRun(h, l) && h + l <= |kind|
    requires i < |kind| && kind[i].FreeRun?
    ensures !FreeAt(kind, kind[i].h + kind[i].l) && !(h <= kind[i].h + kind[i].l < h + l)
  {
    hide Tiled;
    var e := kind[i].h + kind[i].l;
    assert !FreeAt(kind, e);
    if h <= e < h + l { InRun(kind, h, e); }
  }

  lemma CarveCoalesced(kind: seq<Kind>, h: nat, l: nat, k: nat)
    requires Tiled(kind) && Coalesced(kind) && h < |kind| && kind[h] == FreeRun(h, l) && 1 <= k <= l && h + l <= |kind|
    ensures Coalesced(Carve(kind, h, l, k))
  {
    hide Tiled, Carve;
    var kind' := Carve(kind, h, l, k);
    CarveEnds(kind, h, l, h);
    CarveAt(kind, h, l, k, h);
    forall i | 0 <= i < |kind'| && kind'[i].FreeRun? ensures !FreeAt(kind', kind'[i].h + kind'[i].l) {
      CarveAt(kind, h, l, k, i);
      if !(h <= i < h + l) { CarveEnds(kind, h, l, i); }
      var e := kind'[i].h + kind'[i].l;
      if e < |kind| { CarveAt(kind, h, l, k, e); }
    }
  }

  predicate CanFront(d: Mem, h: nat, l: nat, k: nat) {
    1 <= k <= l && CanUnlink(d, Page(h)) && Page(h + l - 1) in d && (k < l ==> Page(h + k) in d)
  }

  /** The j-th node of the ring is a page of a free run. */
  predicate FreeNode(a: Pages, j: nat) { j < |a.ring| && a.ring[j] < |a.kind| && a.kind[a.ring[j]].FreeRun? }

  /** The writes to the free ring: the rest of the run takes its place, or it leaves the ring. */
  function TakeFront(d: Mem, h: nat, l: nat, k: nat): Mem
    requires CanFront(d, h, l, k)
  {
    if k < l then
      var d2 := Prepared(d, h, l, k);
      if CanUnlink(d2, Page(h)) then Replace(d2, Page(h), Page(h + k)) else d2
    else Unlink(d, Page(h))
  }

  function LiveDesc(i: nat, h: nat, k: nat): Desc {
    Desc(if i == h then k + PAGE_START else PAGE_BUSY, Null, Null, PageTag)
  }

  function MarkLive(d: Mem, h: nat, k: nat): Mem {
    map r | r in d :: if r.Page? && h <= r.i < h + k then LiveDesc(r.i, h, k) else d[r]
  }

  function RingAfterTake(ring: seq<nat>, j: nat, h: nat, l: nat, k: nat): seq<nat>
    requires j < |ring|
  {
    if k < l then ring[j := h + k] else Without(ring, j)
  }

  lemma HeadOf(d: Mem, a: Pages, exact: int, j: nat)
    requires Represents(d, a, exact) && j < |a.ring|
    ensures var h := a.ring[j];
            && h < |a.kind| && IsHead(a.kind[h], h) && h + a.kind[h].l <= |a.kind| && a.kind[h].l >= 1
            && Page(h) in d && d[Page(h)].slab == a.kind[h].l
  {
    hide Ring, Coalesced, SlotList;
    var h := a.ring[j];
    assert h in a.ring;
    assert RunOk(a.kind, h);
  }

  /** The two writes before the rest takes the head's place in the ring. */
  function Prepared(d: Mem, h: nat, l: nat, k: nat): Mem
    requires CanFront(d, h, l, k) && k < l
  {
    var d1 := d[Page(h + l - 1) := d[Page(h + l - 1)].(prev := To(Page(h + k)), tag := PageTag)];
    d1[Page(h + k) := d1[Page(h + k)].(slab := l - k)]
  }

  lemma PreparedLinks(d: Mem, ring: seq<nat>, h: nat, l: nat, k: nat)
    requires CanFront(d, h, l, k) && k < l && FreeHead in d
    requires forall i :: 0 <= i < |ring| ==> Page(ring[i]) in d && !(h + 1 <= ring[i] < h + l)
    ensures SameLinks(d, Prepared(d, h, l, k), FreeHead, ring) && Prepared(d, h, l, k).Keys == d.Keys
  {
    LinksBesides(d, Prepared(d, h, l, k), ring, h + 1, h + l);
  }

  lemma SplitFront(d: Mem, h: nat, l: nat, k: nat)
    requires CanFront(d, h, l, k) && k < l && CanUnlink(Prepared(d, h, l, k), Page(h))
    ensures TakeFront(d, h, l, k) == Replace(Prepared(d, h, l, k), Page(h), Page(h + k))
  {
  }

  lemma TakeRing(d: Mem, a: Pages, exact: int, j: nat, k: nat)
    requires FreeNode(a, j) && 1 <= k <= a.kind[a.ring[j]].l
    requires Represents(d, a, exact)
    ensures var h := a.ring[j]; var l := a.kind[h].l;
            && CanFront(d, h, l, k)
            && Ring(TakeFront(d, h, l, k), FreeHead, RingAfterTake(a.ring, j, h, l, k))
  {
    hide Coalesced, SlotList, Tiled, Descs, Ring, Prepared, TakeFront, Replace, Unlink;
    HeadOf(d, a, exact, j);
    var h := a.ring[j];
    var l := a.kind[h].l;
    UnlinkKeeps(d, FreeHead, a.ring, j);
    if k < l {
      RingHead(d, a, exact);
      NotHeads(a.kind, h, l);
      forall i | 0 <= i < |a.ring| ensures Page(a.ring[i]) in d && !(h + 1 <= a.ring[i] < h + l)
      { HeadOf(d, a, exact, i); }
      PreparedLinks(d, a.ring, h, l, k);
      RingFrame(d, Prepared(d, h, l, k), FreeHead, a.ring);
      ReplaceKeeps(Prepared(d, h, l, k), FreeHead, a.ring, j, h + k);
      SplitFront(d, h, l, k);
    } else {
      WholeFront(d, h, l);
    }
  }

  lemma WholeFront(d: Mem, h: nat, l: nat)
    requires CanFront(d, h, l, l)
    ensures TakeFront(d, h, l, l) == Unlink(d, Page(h))
  {
  }

  lemma NotHeads(kind: seq<Kind>, h: nat, l: nat)
    requires Tiled(kind) && h < |kind| && kind[h] == FreeRun(h, l)
    ensures forall i :: h < i < h + l ==> i < |kind| && !IsHead(kind[i], i)
  {
    assert RunOk(kind, h);
  }

  lemma LinksBesides(d: Mem, d': Mem, ring: seq<nat>, from: nat, to: nat)
    requires FreeHead in d && FreeHead in d' && d'[FreeHead] == d[FreeHead]
    requires forall i :: 0 <= i < |ring| ==> Page(ring[i]) in d && !(from <= ring[i] < to)
    requires forall r :: r in d ==> r in d' && (!(r.Page? && from <= r.i < to) ==> d'[r] == d[r])
    ensures SameLinks(d, d', FreeHead, ring)
  {
  }

  /** The neighbours of a ring node are the head or pages of the ring. */
  lemma Neighbours(d: Mem, a: Pages, exact: int, j: nat)
    requires Represents(d, a, exact) && j < |a.ring|
    ensures CanUnlink(d, Page(a.ring[j])) && d[Page(a.ring[j])].tag == PageTag
    ensures var x := d[Page(a.ring[j])];
            && (x.next.r == FreeHead || (x.next.r.Page? && x.next.r.i in a.ring && x.next.r.i != a.ring[j]))
            && (x.prev.r == FreeHead || (x.prev.r.Page? && x.prev.r.i in a.ring && x.prev.r.i != a.ring[j]))
  {
    hide Coalesced, SlotList, Tiled;
    HeadOf(d, a, exact, j);
    RingEnds(d, FreeHead, a.ring, j);
    UnlinkKeeps(d, FreeHead, a.ring, j);
  }

  /** A page outside the run keeps all but, if it is a ring neighbour, its links. */
  lemma TakeOutside(d: Mem, a: Pages, exact: int, j: nat, k: nat, i: nat)
    requires FreeNode(a, j) && i < |a.kind| && !(a.ring[j] <= i < a.ring[j] + a.kind[a.ring[j]].l)
    requires CanFront(d, a.ring[j], a.kind[a.ring[j]].l, k)
    requires Represents(d, a, exact)
    ensures var h := a.ring[j]; var d' := TakeFront(d, h, a.kind[h].l, k);
            && Page(i) in d' && Page(i) in d && d'[Page(i)].slab == d[Page(i)].slab && d'[Page(i)].tag == d[Page(i)].tag
            && (d'[Page(i)].next == d[Page(i)].next || (d[Page(i)].next.To? && d'[Page(i)].next.To?))
            && (!IsHead(a.kind[i], i) ==> d'[Page(i)] == d[Page(i)])
  {
    hide Coalesced, SlotList, Tiled, Ring;
    Neighbours(d, a, exact, j);
    HeadOf(d, a, exact, j);
    assert DescOk(d[Page(i)], a.kind[i], i, |a.kind|, exact);
    var x := d[Page(a.ring[j])];
    assert Page(i) == x.next.r || Page(i) == x.prev.r ==> IsHead(a.kind[i], i);
  }

  /** The rest of the run is a run of its own. */
  lemma TakeRest(d: Mem, a: Pages, exact: int, j: nat, k: nat, i: nat)
    requires FreeNode(a, j) && a.ring[j] + k <= i < a.ring[j] + a.kind[a.ring[j]].l <= |a.kind|
             && k < a.kind[a.ring[j]].l
    requires CanFront(d, a.ring[j], a.kind[a.ring[j]].l, k)
    requires Represents(d, a, exact)
    ensures var h := a.ring[j]; var l := a.kind[h].l; var d' := TakeFront(d, h, l, k);
            Page(i) in d' && DescOk(d'[Page(i)], FreeRun(h + k, l - k), i, |a.kind|, exact)
  {
    hide Coalesced, SlotList, Tiled, Ring, TakeFront;
    var h := a.ring[j];
    var l := a.kind[h].l;
    Neighbours(d, a, exact, j);
    HeadOf(d, a, exact, j);
    NotHeads(a.kind, h, l);
    InRun(a.kind, h, i);
    assert DescOk(d[Page(i)], a.kind[i], i, |a.kind|, exact);
    RestNotRung(a, h, l, d[Page(h)].next.r);
    RestNotRung(a, h, l, d[Page(h)].prev.r);
    RestAt(d, h, l, k, i);
  }

  /** No ring node lies inside the run at h. */
  lemma RestNotRung(a: Pages, h: nat, l: nat, r: Ref)
    requires (forall i :: h < i < h + l ==> i < |a.kind| && !IsHead(a.kind[i], i))
    requires r == FreeHead || (r.Page? && r.i < |a.kind| && IsHead(a.kind[r.i], r.i))
    ensures !(r.Page? && h < r.i < h + l)
  {
  }

  /** What splitting the run at h writes into the descriptor of page i of the rest. */
  lemma RestAt(d: Mem, h: nat, l: nat, k: nat, i: nat)
    requires CanFront(d, h, l, k) && k < l && h + k <= i < h + l && Page(i) in d
    requires !(d[Page(h)].next.r.Page? && h < d[Page(h)].next.r.i < h + l)
             && !(d[Page(h)].prev.r.Page? && h < d[Page(h)].prev.r.i < h + l)
    ensures var d' := TakeFront(d, h, l, k);
            && Page(i) in d'
            && (i == h + k ==> d'[Page(i)] == Desc(l - k, d[Page(h)].next, d[Page(h)].prev, d[Page(h)].tag))
            && (i > h + k ==>
              d'[Page(i)] == if i == h + l - 1 then d[Page(i)].(prev := To(Page(h + k)), tag := PageTag)
              else d[Page(i)])
  {
  }

  lemma InRun(kind: seq<Kind>, h: nat, i: nat)
    requires Tiled(kind) && h < |kind| && !kind[h].SlotPage? && kind[h].h <= i < kind[h].h + kind[h].l
    ensures i < |kind| && kind[i] == kind[h]
  {
    assert RunOk(kind, h);
  }

  /** Slot heads are not on the free ring. */
  lemma TakeSlotHead(d: Mem, a: Pages, exact: int, j: nat, k: nat, c: nat)
    requires FreeNode(a, j) && c < |a.lists| && CanFront(d, a.ring[j], a.kind[a.ring[j]].l, k)
    requires Represents(d, a, exact)
    ensures var h := a.ring[j]; var d' := TakeFront(d, h, a.kind[h].l, k);
            d'.Keys == d.Keys && Slot(c) in d && d'[Slot(c)] == d[Slot(c)]
  {
    hide Coalesced, SlotList, Tiled, Ring, Descs;
    Neighbours(d, a, exact, j);
  }

  ghost predicate CanTake(d: Mem, a: Pages, exact: int, j: nat, k: nat) {
    FreeNode(a, j) && 1 <= k <= a.kind[a.ring[j]].l && Represents(d, a, exact)
  }

  function Taken(d: Mem, h: nat, l: nat, k: nat): Mem
    requires CanFront(d, h, l, k)
  {
    MarkLive(TakeFront(d, h, l, k), h, k)
  }

  lemma TakeDescs(d: Mem, a: Pages, exact: int, j: nat, k: nat)
    requires CanTake(d, a, exact, j, k)
    ensures var h := a.ring[j]; var l := a.kind[h].l;
            && h + l <= |a.kind| && CanFront(d, h, l, k)
            && Descs(Taken(d, h, l, k), Carve(a.kind, h, l, k), exact)
            && Taken(d, h, l, k).Keys == d.Keys
  {
    hide Represents, Ring, DescOk, TakeFront, Tiled;
    HeadOf(d, a, exact, j);
    TakeRing(d, a, exact, j, k);
    var h := a.ring[j];
    var l := a.kind[h].l;
    TakeKeys(d, h, l, k);
    forall i | 0 <= i < |a.kind|
      ensures Page(i) in Taken(d, h, l, k)
              && DescOk(Taken(d, h, l, k)[Page(i)], Carve(a.kind, h, l, k)[i], i, |a.kind|, exact)
    {
      TakeDesc(d, a, exact, j, k, i);
    }
  }

  lemma TakeKeys(d: Mem, h: nat, l: nat, k: nat)
    requires CanFront(d, h, l, k)
    ensures TakeFront(d, h, l, k).Keys == d.Keys
  {
  }

  lemma TakeDesc(d: Mem, a: Pages, exact: int, j: nat, k: nat, i: nat)
    requires FreeNode(a, j) && i < |a.kind| && a.ring[j] + a.kind[a.ring[j]].l <= |a.kind|
    requires CanFront(d, a.ring[j], a.kind[a.ring[j]].l, k)
             && TakeFront(d, a.ring[j], a.kind[a.ring[j]].l, k).Keys == d.Keys
    requires CanTake(d, a, exact, j, k)
    ensures var h := a.ring[j]; var l := a.kind[h].l;
            Page(i) in Taken(d, h, l, k)
            && DescOk(Taken(d, h, l, k)[Page(i)], Carve(a.kind, h, l, k)[i], i, |a.kind|, exact)
  {
    hide Ring, TakeFront, Tiled, FreeRing, SlotList, Coalesced;
    var h := a.ring[j];
    var l := a.kind[h].l;
    if i < h || h + l <= i {
      TakeOutside(d, a, exact, j, k, i);
      RelinkOk(d[Page(i)], TakeFront(d, h, l, k)[Page(i)], a.kind[i], i, |a.kind|, exact);
    } else if h + k <= i {
      TakeRest(d, a, exact, j, k, i);
    }
  }

  lemma TakeMembers(d: Mem, a: Pages, exact: int, j: nat, k: nat, p: nat)
    requires CanTake(d, a, exact, j, k) && a.ring[j] + a.kind[a.ring[j]].l <= |a.kind|
    ensures var h := a.ring[j]; var l := a.kind[h].l; var kind' := Carve(a.kind, h, l, k);
            p in RingAfterTake(a.ring, j, h, l, k) <==> p < |kind'| && IsHead(kind'[p], p)
  {
    hide Tiled, Descs, SlotList, Coalesced;
    var h := a.ring[j];
    var l := a.kind[h].l;
    HeadOf(d, a, exact, j);
    NotHeads(a.kind, h, l);
    assert p in a.ring <==> p < |a.kind| && IsHead(a.kind[p], p);
    if k < l { UpdateMembers(a.ring, j, h + k, p); } else { WithoutDistinct(a.ring, j); }
  }

  lemma UpdateMembers(list: seq<nat>, j: nat, x: nat, p: nat)
    requires Distinct(list) && j < |list|
    ensures p in list[j := x] <==> p == x || (p in list && p != list[j])
  {
    var l := list[j := x];
    assert l[j] == x;
    if p in list && p != list[j] {
      var i :| 0 <= i < |list| && list[i] == p;
      assert l[i] == p;
    }
  }

  lemma MarkRing(d: Mem, head: Ref, list: seq<nat>, h: nat, k: nat)
    requires Ring(d, head, list) && forall i :: 0 <= i < |list| ==> !(h <= list[i] < h + k)
    ensures Ring(MarkLive(d, h, k), head, list)
  {
    forall i | 0 <= i < |list| ensures Page(list[i]) in d { assert LinkOk(d, head, list, i); }
    assert LinkOk(d, head, list, 0);
    RingFrame(d, MarkLive(d, h, k), head, list);
  }

  lemma TakeFreeRing(d: Mem, a: Pages, exact: int, j: nat, k: nat)
    requires CanTake(d, a, exact, j, k)
    ensures var h := a.ring[j]; var l := a.kind[h].l;
            && h + l <= |a.kind| && CanFront(d, h, l, k)
            && FreeRing(Taken(d, h, l, k), Pages(Carve(a.kind, h, l, k), RingAfterTake(a.ring, j, h, l, k), a.lists))
  {
    hide Represents, Ring, TakeFront, Tiled, RingAfterTake;
    HeadOf(d, a, exact, j);
    TakeRing(d, a, exact, j, k);
    var h := a.ring[j];
    var l := a.kind[h].l;
    var ring' := RingAfterTake(a.ring, j, h, l, k);
    forall p: nat ensures p in ring' <==> p < |a.kind| && IsHead(Carve(a.kind, h, l, k)[p], p)
    { TakeMembers(d, a, exact, j, k, p); }
    forall i | 0 <= i < |ring'| ensures !(h <= ring'[i] < h + k) { assert ring'[i] in ring'; }
    MarkRing(TakeFront(d, h, l, k), FreeHead, ring', h, k);
  }

  lemma TakeSlotList(d: Mem, a: Pages, exact: int, j: nat, k: nat, c: nat)
    requires CanTake(d, a, exact, j, k) && c < |a.lists|
    requires var h := a.ring[j]; var l := a.kind[h].l;
             h + l <= |a.kind| && CanFront(d, h, l, k)
    ensures var h := a.ring[j]; var l := a.kind[h].l;
            SlotList(Taken(d, h, l, k), Pages(Carve(a.kind, h, l, k), RingAfterTake(a.ring, j, h, l, k), a.lists), c)
  {
    hide Ring, TakeFront, Tiled, RingAfterTake, Descs, Coalesced, FreeRing;
    var h := a.ring[j];
    var l := a.kind[h].l;
    var d1, list := TakeFront(d, h, l, k), a.lists[c];
    HeadOf(d, a, exact, j);
    assert SlotList(d, a, c);
    TakeSlotHead(d, a, exact, j, k, c);
    forall i | 0 <= i < |list|
      ensures Page(list[i]) in d && Page(list[i]) in d1 && d1[Page(list[i])] == d[Page(list[i])]
              && !(h <= list[i] < h + l)
    {
      assert list[i] in list;
      RunIsFree(a.kind, h, list[i]);
      TakeOutside(d, a, exact, j, k, list[i]);
    }
    RingFrame(d, d1, Slot(c), list);
    MarkRing(d1, Slot(c), list, h, k);
    forall p: nat ensures p in list <==> p < |a.kind| && Carve(a.kind, h, l, k)[p] == SlotPage(c, true) {
      assert p in list <==> p < |a.kind| && a.kind[p] == SlotPage(c, true);
      if p < |a.kind| { RunIsFree(a.kind, h, p); }
    }
  }

  lemma RunIsFree(kind: seq<Kind>, h: nat, p: nat)
    requires Tiled(kind) && h < |kind| && kind[h].FreeRun? && kind[h].h == h && p < |kind|
    ensures h <= p < h + kind[h].l ==> kind[p].FreeRun?
  {
    assert RunOk(kind, h);
  }

  /** Allocating from the front of a free run keeps the whole representation. */
  lemma TakeRepresents(d: Mem, a: Pages, exact: int, j: nat, k: nat)
    requires CanTake(d, a, exact, j, k)
    ensures var h := a.ring[j]; var l := a.kind[h].l;
            && h + l <= |a.kind| && CanFront(d, h, l, k)
            && Represents(Taken(d, h, l, k), Pages(Carve(a.kind, h, l, k), RingAfterTake(a.ring, j, h, l, k), a.lists),
               exact)
  {
    hide Ring, TakeFront, RingAfterTake, FreeRing, SlotList, Descs, Tiled, Coalesced, Taken;
    HeadOf(d, a, exact, j);
    TakeDescs(d, a, exact, j, k);
    TakeFreeRing(d, a, exact, j, k);
    var h := a.ring[j];
    var l := a.kind[h].l;
    CarveTiled(a.kind, h, l, k);
    CarveCoalesced(a.kind, h, l, k);
    forall c | 0 <= c < |a.lists|
      ensures SlotList(Taken(d, h, l, k), Pages(Carve(a.kind, h, l, k), RingAfterTake(a.ring, j, h, l, k), a.lists), c)
    {
      TakeSlotList(d, a, exact, j, k, c);
    }
  }

  // ----- giving pages back, stage by stage: first the run is taken out of use

  const CLEARED: Desc := Desc(PAGE_FREE, Null, Null, PageTag)

  /** page->slab = pages; the rest of the run zeroed. */
  function ClearRun(d: Mem, p: nat, l: nat): Mem
    requires Page(p) in d
  {
    map r | r in d :: if r == Page(p) then d[r].(slab := l) else if r.Page? && p < r.i < p + l then CLEARED else d[r]
  }

  lemma FillTiled(kind: seq<Kind>, h: nat, l: nat, k: Kind)
    requires Tiled(kind) && l >= 1 && h + l <= |kind|
    requires k.SlotPage? || (k.h == h && k.l == l)
    requires forall i :: 0 <= i < |kind| && !(h <= i < h + l) && !kind[i].SlotPage? ==>
               kind[i].h + kind[i].l <= h || h + l <= kind[i].h
    ensures Tiled(Fill(kind, h, l, k))
  {
    var kind' := Fill(kind, h, l, k);
    forall i | 0 <= i < |kind'| ensures RunOk(kind', i) { assert RunOk(kind, i); }
  }

  lemma FillCoalesced(kind: seq<Kind>, h: nat, l: nat, k: Kind)
    requires Coalesced(kind) && h + l <= |kind| && !k.FreeRun?
    ensures Coalesced(Fill(kind, h, l, k))
  {
    var kind' := Fill(kind, h, l, k);
    forall i | 0 <= i < |kind'| && kind'[i].FreeRun? ensures !FreeAt(kind', kind'[i].h + kind'[i].l) {
      assert !FreeAt(kind, kind[i].h + kind[i].l);
    }
  }

  /** A ring none of whose pages lies in [p, p + l) does not notice the clearing. */
  lemma ClearRing(d: Mem, head: Ref, list: seq<nat>, p: nat, l: nat)
    requires Ring(d, head, list) && Page(p) in d && forall i :: 0 <= i < |list| ==> !(p <= list[i] < p + l)
    ensures Ring(ClearRun(d, p, l), head, list)
  {
    forall i | 0 <= i < |list| ensures Page(list[i]) in d { assert LinkOk(d, head, list, i); }
    assert LinkOk(d, head, list, 0);
    RingFrame(d, ClearRun(d, p, l), head, list);
  }

  lemma HoldLive(d: Mem, a: Pages, exact: int, p: nat)
    requires Represents(d, a, exact) && p < |a.kind| && a.kind[p].LiveRun? && a.kind[p].h == p
    ensures var l := a.kind[p].l;
            && l >= 1 && p + l <= |a.kind| && Page(p) in d
            && Represents(ClearRun(d, p, l), a.(kind := Fill(a.kind, p, l, Held(p, l))), exact)
  {
    hide Ring, Coalesced, RunOk, Uniform, DescOk;
    var l := a.kind[p].l;
    LiveShape(a.kind, p);
    var d', kind' := ClearRun(d, p, l), Fill(a.kind, p, l, Held(p, l));
    assert Descs(d', kind', exact) by {
      forall i | 0 <= i < |kind'| ensures Page(i) in d' && DescOk(d'[Page(i)], kind'[i], i, |kind'|, exact) {
        ClearDesc(d, a, exact, p, l, i);
      }
    }
    assert Tiled(kind') by {
      forall i | 0 <= i < |a.kind| && !(p <= i < p + l) && !a.kind[i].SlotPage?
        ensures a.kind[i].h + a.kind[i].l <= p || p + l <= a.kind[i].h
      {
        SameOrApart(a.kind, i, p);
        Inside(a.kind, i);
      }
      FillTiled(a.kind, p, l, Held(p, l));
    }
    FillCoalesced(a.kind, p, l, Held(p, l));
    var a' := a.(kind := kind');
    assert FreeRing(d', a') by {
      forall i | 0 <= i < |a.ring| ensures !(p <= a.ring[i] < p + l) { assert a.ring[i] in a.ring; }
      ClearRing(d, FreeHead, a.ring, p, l);
    }
    forall c | 0 <= c < |a.lists| ensures SlotList(d', a', c) {
      var list := a.lists[c];
      assert SlotList(d, a, c);
      forall i | 0 <= i < |list| ensures !(p <= list[i] < p + l) { assert list[i] in list; }
      ClearRing(d, Slot(c), list, p, l);
    }
  }

  lemma Inside(kind: seq<Kind>, i: nat)
    requires Tiled(kind) && i < |kind| && !kind[i].SlotPage?
    ensures kind[i].h <= i < kind[i].h + kind[i].l <= |kind| && kind[i].l >= 1
  {
    assert RunOk(kind, i);
  }

  lemma LiveShape(kind: seq<Kind>, p: nat)
    requires Tiled(kind) && p < |kind| && !kind[p].SlotPage? && kind[p].h == p
    ensures kind[p].l >= 1 && p + kind[p].l <= |kind|
    ensures forall i :: p <= i < p + kind[p].l ==> kind[i] == kind[p]
  {
    assert RunOk(kind, p);
  }

  lemma ClearDesc(d: Mem, a: Pages, exact: int, p: nat, l: nat, i: nat)
    requires Descs(d, a.kind, exact) && p + l <= |a.kind| && l >= 1 && i < |a.kind|
    ensures Page(p) in d && Page(i) in ClearRun(d, p, l)
    ensures DescOk(ClearRun(d, p, l)[Page(i)], Fill(a.kind, p, l, Held(p, l))[i], i, |a.kind|, exact)
  {
    assert Page(i) in d && DescOk(d[Page(i)], a.kind[i], i, |a.kind|, exact);
  }

  // ----- then it absorbs the free run on either side

  /** Two adjacent runs become one: the first descriptor gets the whole length, the free one of the
      two (x) leaves the ring, and the second descriptor is cleared. */
  function Merge(d: Mem, p: nat, q: nat, total: nat, x: nat): Mem
    requires Page(p) in d && Page(q) in d && CanUnlink(d, Page(x))
  {
    var d1 := d[Page(p) := d[Page(p)].(slab := total)];
    Unlink(d1, Page(x))[Page(q) := CLEARED]
  }

  ghost predicate CanMerge(d: Mem, a: Pages, exact: int, p: nat, q: nat, j: nat) {
    && Represents(d, a, exact) && p < q < |a.kind| && j < |a.ring|
    && !a.kind[p].SlotPage? && a.kind[p].h == p && q == p + a.kind[p].l
    && !a.kind[q].SlotPage? && a.kind[q].h == q
    && ((a.kind[p].Held? && a.kind[q].FreeRun? && a.ring[j] == q)
       || (a.kind[p].FreeRun? && a.kind[q].Held? && a.ring[j] == p))
  }

  function MergedKind(kind: seq<Kind>, p: nat, q: nat): seq<Kind>
    requires p < q < |kind| && !kind[p].SlotPage? && !kind[q].SlotPage? && p + kind[p].l + kind[q].l <= |kind|
  {
    var total := kind[p].l + kind[q].l;
    Fill(kind, p, total, Held(p, total))
  }

  lemma MergeShape(d: Mem, a: Pages, exact: int, p: nat, q: nat, j: nat)
    requires CanMerge(d, a, exact, p, q, j)
    ensures p + a.kind[p].l + a.kind[q].l <= |a.kind| && a.kind[p].l >= 1 && a.kind[q].l >= 1
    ensures Page(p) in d && Page(q) in d && CanUnlink(d, Page(a.ring[j]))
    ensures Tiled(MergedKind(a.kind, p, q)) && Coalesced(MergedKind(a.kind, p, q))
  {
    hide Ring, DescOk, FreeRing, SlotList, Coalesced, RunOk;
    LiveShape(a.kind, p);
    LiveShape(a.kind, q);
    Neighbours(d, a, exact, j);
    var total := a.kind[p].l + a.kind[q].l;
    forall i | 0 <= i < |a.kind| && !(p <= i < p + total) && !a.kind[i].SlotPage?
      ensures a.kind[i].h + a.kind[i].l <= p || p + total <= a.kind[i].h
    {
      SameOrApart(a.kind, i, p);
      SameOrApart(a.kind, i, q);
      Inside(a.kind, i);
    }
    FillTiled(a.kind, p, total, Held(p, total));
    FillCoalesced(a.kind, p, total, Held(p, total));
  }

  lemma MergeDesc(d: Mem, a: Pages, exact: int, p: nat, q: nat, j: nat, i: nat)
    requires CanMerge(d, a, exact, p, q, j) && i < |a.kind| && p + a.kind[p].l + a.kind[q].l <= |a.kind|
    requires Page(p) in d && Page(q) in d && CanUnlink(d, Page(a.ring[j]))
    ensures var d' := Merge(d, p, q, a.kind[p].l + a.kind[q].l, a.ring[j]);
            && d'.Keys == d.Keys && Page(i) in d'
            && DescOk(d'[Page(i)], MergedKind(a.kind, p, q)[i], i, |a.kind|, exact)
            && (!IsHead(a.kind[i], i) && !(p <= i < p + a.kind[p].l + a.kind[q].l) ==> d'[Page(i)] == d[Page(i)])
  {
    hide Ring, Coalesced, SlotList, Tiled, Merge, DescOk;
    LiveShape(a.kind, p);
    LiveShape(a.kind, q);
    Neighbours(d, a, exact, j);
    assert DescOk(d[Page(i)], a.kind[i], i, |a.kind|, exact);
    var x, total := d[Page(a.ring[j])], a.kind[p].l + a.kind[q].l;
    assert Page(i) == x.next.r || Page(i) == x.prev.r ==> IsHead(a.kind[i], i);
    MergeAt(d, p, q, total, a.ring[j], i);
    var y := Merge(d, p, q, total, a.ring[j])[Page(i)];
    if p <= i < p + total {
      MergedOk(d[Page(i)], y, a.kind[i], p, q, total, i, |a.kind|, exact);
    } else {
      if Page(i) == x.next.r || Page(i) == x.prev.r { HeadTag(d[Page(i)], a.kind[i], i, |a.kind|, exact); }
      RelinkOk(d[Page(i)], y, a.kind[i], i, |a.kind|, exact);
    }
  }

  /** What joining the runs at p and q writes into the descriptor of page i. */
  lemma MergeAt(d: Mem, p: nat, q: nat, total: nat, x: nat, i: nat)
    requires p != q && (x == p || x == q) && Page(p) in d && Page(q) in d && CanUnlink(d, Page(x)) && Page(i) in d
    requires d[Page(x)].tag == PageTag && d[Page(x)].next.r != Page(x) && d[Page(x)].prev.r != Page(x)
    ensures var d', y, z := Merge(d, p, q, total, x), d[Page(x)].next.r, d[Page(x)].prev.r;
            && d'.Keys == d.Keys
            && (i == q ==> d'[Page(i)] == CLEARED)
            && (i == p ==> d'[Page(i)].slab == total)
            && (i != p && i != q ==>
                  && d'[Page(i)].slab == d[Page(i)].slab
                  && d'[Page(i)].tag == (if Page(i) == y then PageTag else d[Page(i)].tag)
                  && (d'[Page(i)].next == d[Page(i)].next || (Page(i) == z && d'[Page(i)].next.To?))
                  && (d'[Page(i)].prev == d[Page(i)].prev || Page(i) == y)
                  && (Page(i) != y && Page(i) != z ==> d'[Page(i)] == d[Page(i)]))
  {
  }

  lemma MergedOk(x: Desc, x': Desc, k: Kind, p: nat, q: nat, total: nat, i: nat, n: nat, exact: int)
    requires DescOk(x, k, i, n, exact) && p < q < p + total && p <= i < p + total
    requires (k.Held? || k.FreeRun?) && (k.h == p || k.h == q) && (i == k.h ==> i == p || i == q)
    requires i == q ==> x' == CLEARED
    requires i == p ==> x'.slab == total
    requires i != p && i != q ==> x'.slab == x.slab && x'.tag == x.tag && x'.next == x.next
    ensures DescOk(x', Held(p, total), i, n, exact)
  {
  }

  lemma SlabOnlyRing(d: Mem, d': Mem, head: Ref, list: seq<nat>, p: nat, x: Desc)
    requires Ring(d, head, list) && Page(p) in d && d' == d[Page(p) := x] && x.next == d[Page(p)].next
             && x.prev == d[Page(p)].prev
    ensures Ring(d', head, list)
  {
    forall i | 0 <= i < |list| ensures Page(list[i]) in d { assert LinkOk(d, head, list, i); }
    assert LinkOk(d, head, list, 0);
    RingFrame(d, d', head, list);
  }

  lemma OutsideRing(d: Mem, d': Mem, head: Ref, list: seq<nat>, q: nat, x: Desc)
    requires Ring(d, head, list) && Page(q) in d && d' == d[Page(q) := x] && q !in list
    ensures Ring(d', head, list)
  {
    forall i | 0 <= i < |list| ensures Page(list[i]) in d && list[i] != q
    { assert LinkOk(d, head, list, i); assert list[i] in list; }
    assert LinkOk(d, head, list, 0);
    RingFrame(d, d', head, list);
  }

  lemma MergeFreeRing(d: Mem, a: Pages, exact: int, p: nat, q: nat, j: nat)
    requires CanMerge(d, a, exact, p, q, j) && p + a.kind[p].l + a.kind[q].l <= |a.kind|
    requires Page(p) in d && Page(q) in d && CanUnlink(d, Page(a.ring[j]))
    ensures FreeRing(Merge(d, p, q, a.kind[p].l + a.kind[q].l, a.ring[j]),
                     Pages(MergedKind(a.kind, p, q), Without(a.ring, j), a.lists))
  {
    hide Ring, Coalesced, SlotList, Tiled, Descs, Without, Unlink;
    LiveShape(a.kind, p);
    LiveShape(a.kind, q);
    var x, total, ring' := a.ring[j], a.kind[p].l + a.kind[q].l, Without(a.ring, j);
    var d1 := d[Page(p) := d[Page(p)].(slab := total)];
    SlabOnlyRing(d, d1, FreeHead, a.ring, p, d1[Page(p)]);
    UnlinkKeeps(d1, FreeHead, a.ring, j);
    RingDistinct(d, FreeHead, a.ring);
    WithoutDistinct(a.ring, j);
    UnlinkHas(d1, Page(x));
    assert q in a.ring <==> IsHead(a.kind[q], q);
    OutsideRing(Unlink(d1, Page(x)), Unlink(d1, Page(x))[Page(q) := CLEARED], FreeHead, ring', q, CLEARED);
    forall y: nat ensures y in ring' <==> y < |a.kind| && IsHead(MergedKind(a.kind, p, q)[y], y) {
      WithoutDistinct(a.ring, j);
      assert y in a.ring <==> y < |a.kind| && IsHead(a.kind[y], y);
    }
  }

  lemma RingDistinct(d: Mem, head: Ref, list: seq<nat>)
    requires Ring(d, head, list)
    ensures Distinct(list)
  {
  }

  lemma UnlinkHas(d: Mem, r: Ref)
    requires CanUnlink(d, r)
    ensures Unlink(d, r).Keys == d.Keys
  {
  }

  lemma MergeSlotHead(d: Mem, a: Pages, exact: int, p: nat, q: nat, j: nat, c: nat)
    requires CanMerge(d, a, exact, p, q, j) && c < |a.lists|
    requires Page(p) in d && Page(q) in d && CanUnlink(d, Page(a.ring[j]))
    ensures var d' := Merge(d, p, q, a.kind[p].l + a.kind[q].l, a.ring[j]);
            Slot(c) in d && Slot(c) in d' && d'[Slot(c)] == d[Slot(c)]
  {
    hide Coalesced, SlotList, Tiled, Ring, Descs;
    Neighbours(d, a, exact, j);
  }

  lemma MergeSlotList(d: Mem, a: Pages, exact: int, p: nat, q: nat, j: nat, c: nat)
    requires CanMerge(d, a, exact, p, q, j) && c < |a.lists| && p + a.kind[p].l + a.kind[q].l <= |a.kind|
    requires Page(p) in d && Page(q) in d && CanUnlink(d, Page(a.ring[j]))
    ensures SlotList(Merge(d, p, q, a.kind[p].l + a.kind[q].l, a.ring[j]),
                     Pages(MergedKind(a.kind, p, q), Without(a.ring, j), a.lists), c)
  {
    hide Ring, Coalesced, Tiled, Descs, FreeRing, Without, Merge;
    LiveShape(a.kind, p);
    LiveShape(a.kind, q);
    MergeSlotHead(d, a, exact, p, q, j, c);
    assert SlotList(d, a, c);
    var list, d' := a.lists[c], Merge(d, p, q, a.kind[p].l + a.kind[q].l, a.ring[j]);
    forall i | 0 <= i < |list| ensures Page(list[i]) in d && Page(list[i]) in d'
      && d'[Page(list[i])] == d[Page(list[i])] {
      assert list[i] in list;
      MergeDesc(d, a, exact, p, q, j, list[i]);
    }
    RingFrame(d, d', Slot(c), list);
    forall y: nat ensures y in list <==> y < |a.kind| && MergedKind(a.kind, p, q)[y] == SlotPage(c, true) {
      assert y in list <==> y < |a.kind| && a.kind[y] == SlotPage(c, true);
    }
  }

  /** Absorbing a neighbouring free run keeps the representation. */
  lemma MergeRepresents(d: Mem, a: Pages, exact: int, p: nat, q: nat, j: nat)
    requires CanMerge(d, a, exact, p, q, j)
    ensures p + a.kind[p].l + a.kind[q].l <= |a.kind| && a.kind[q].l >= 1
    ensures Page(p) in d && Page(q) in d && CanUnlink(d, Page(a.ring[j]))
    ensures Represents(Merge(d, p, q, a.kind[p].l + a.kind[q].l, a.ring[j]),
                       Pages(MergedKind(a.kind, p, q), Without(a.ring, j), a.lists), exact)
  {
    hide Ring, Coalesced, Tiled, FreeRing, Without, Merge, SlotList, DescOk;
    MergeShape(d, a, exact, p, q, j);
    MergeFreeRing(d, a, exact, p, q, j);
    MergeDesc(d, a, exact, p, q, j, p);
    var d' := Merge(d, p, q, a.kind[p].l + a.kind[q].l, a.ring[j]);
    forall i | 0 <= i < |a.kind|
      ensures Page(i) in d' && DescOk(d'[Page(i)], MergedKind(a.kind, p, q)[i], i, |a.kind|, exact)
    {
      MergeDesc(d, a, exact, p, q, j, i);
    }
    forall c | 0 <= c < |a.lists|
      ensures SlotList(d', Pages(MergedKind(a.kind, p, q), Without(a.ring, j), a.lists), c)
    {
      MergeSlotList(d, a, exact, p, q, j, c);
    }
  }

  // ----- or, given back a second time, it is a free run that leaves the ring

  ghost predicate CanRehold(d: Mem, a: Pages, exact: int, j: nat) {
    Represents(d, a, exact) && j < |a.ring| && a.ring[j] < |a.kind| && IsHead(a.kind[a.ring[j]], a.ring[j])
  }

  /** Clearing the descriptors of a free run touches no links of the ring. */
  lemma ReholdRing(d: Mem, a: Pages, exact: int, j: nat)
    requires CanRehold(d, a, exact, j)
    ensures var p, l := a.ring[j], a.kind[a.ring[j]].l;
            var d1 := ClearRun(d, p, l);
            && p + l <= |a.kind| && l >= 1 && CanUnlink(d1, Page(p)) && d1.Keys == d.Keys
            && Ring(Unlink(d1, Page(p)), FreeHead, Without(a.ring, j))
  {
    hide Ring, Coalesced, SlotList, Tiled, Descs, Without, Unlink;
    var p, l := a.ring[j], a.kind[a.ring[j]].l;
    HeadOf(d, a, exact, j);
    NotHeads(a.kind, p, l);
    forall i | 0 <= i < |a.ring| ensures Page(a.ring[i]) in d && !(p < a.ring[i] < p + l) { HeadOf(d, a, exact, i); }
    RingHead(d, a, exact);
    RingFrame(d, ClearRun(d, p, l), FreeHead, a.ring);
    UnlinkKeeps(ClearRun(d, p, l), FreeHead, a.ring, j);
  }

  lemma ReholdDesc(d: Mem, a: Pages, exact: int, j: nat, i: nat)
    requires CanRehold(d, a, exact, j) && i < |a.kind|
    requires var p, l := a.ring[j], a.kind[a.ring[j]].l;
             p + l <= |a.kind| && l >= 1 && CanUnlink(ClearRun(d, p, l), Page(p))
    ensures var p, l := a.ring[j], a.kind[a.ring[j]].l;
            var d' := Unlink(ClearRun(d, p, l), Page(p));
            && Page(i) in d && Page(i) in d'
            && DescOk(d'[Page(i)], Fill(a.kind, p, l, Held(p, l))[i], i, |a.kind|, exact)
            && (!IsHead(a.kind[i], i) && !(p <= i < p + l) ==> d'[Page(i)] == d[Page(i)])
  {
    hide Ring, Coalesced, SlotList, Tiled;
    var p, l := a.ring[j], a.kind[a.ring[j]].l;
    Neighbours(d, a, exact, j);
    ClearDesc(d, a, exact, p, l, i);
    assert DescOk(d[Page(i)], a.kind[i], i, |a.kind|, exact);
    var x := d[Page(p)];
    assert Page(i) == x.next.r || Page(i) == x.prev.r ==> IsHead(a.kind[i], i);
    NotHeads(a.kind, p, l);
  }

  lemma ReholdShape(kind: seq<Kind>, p: nat)
    requires Tiled(kind) && Coalesced(kind) && p < |kind| && IsHead(kind[p], p)
    ensures var l := kind[p].l;
            p + l <= |kind| && l >= 1 && Tiled(Fill(kind, p, l, Held(p, l))) && Coalesced(Fill(kind, p, l, Held(p, l)))
  {
    hide Coalesced, RunOk;
    var l := kind[p].l;
    LiveShape(kind, p);
    forall i | 0 <= i < |kind| && !(p <= i < p + l) && !kind[i].SlotPage?
      ensures kind[i].h + kind[i].l <= p || p + l <= kind[i].h
    {
      SameOrApart(kind, i, p);
      Inside(kind, i);
    }
    FillTiled(kind, p, l, Held(p, l));
    FillCoalesced(kind, p, l, Held(p, l));
  }

  lemma ReholdSlotList(d: Mem, a: Pages, exact: int, j: nat, c: nat)
    requires CanRehold(d, a, exact, j) && c < |a.lists|
    requires var p, l := a.ring[j], a.kind[a.ring[j]].l;
             p + l <= |a.kind| && l >= 1 && CanUnlink(ClearRun(d, p, l), Page(p))
    ensures var p, l := a.ring[j], a.kind[a.ring[j]].l;
            SlotList(Unlink(ClearRun(d, p, l), Page(p)), Pages(Fill(a.kind, p, l, Held(p, l)), Without(a.ring, j),
               a.lists), c)
  {
    hide Ring, Coalesced, Tiled, Descs, FreeRing, Without, Unlink;
    var p, l := a.ring[j], a.kind[a.ring[j]].l;
    var list, d' := a.lists[c], Unlink(ClearRun(d, p, l), Page(p));
    assert SlotList(d, a, c);
    ReholdSlotHead(d, a, exact, j, c);
    LiveShape(a.kind, p);
    forall i | 0 <= i < |list| ensures Page(list[i]) in d && Page(list[i]) in d'
      && d'[Page(list[i])] == d[Page(list[i])] {
      assert list[i] in list;
      ReholdDesc(d, a, exact, j, list[i]);
    }
    RingFrame(d, d', Slot(c), list);
    forall y: nat ensures y in list <==> y < |a.kind| && Fill(a.kind, p, l, Held(p, l))[y] == SlotPage(c, true) {
      assert y in list <==> y < |a.kind| && a.kind[y] == SlotPage(c, true);
    }
  }

  lemma ReholdSlotHead(d: Mem, a: Pages, exact: int, j: nat, c: nat)
    requires CanRehold(d, a, exact, j) && c < |a.lists|
    requires var p, l := a.ring[j], a.kind[a.ring[j]].l; CanUnlink(ClearRun(d, p, l), Page(p))
    ensures var p, l := a.ring[j], a.kind[a.ring[j]].l;
            var d' := Unlink(ClearRun(d, p, l), Page(p));
            Slot(c) in d && Slot(c) in d' && d'[Slot(c)] == d[Slot(c)]
  {
    hide Coalesced, SlotList, Tiled, Ring, Descs;
    Neighbours(d, a, exact, j);
  }

  /** The head of a free run may be given back again: it leaves the ring like a run on its way back. */
  lemma ReholdRepresents(d: Mem, a: Pages, exact: int, j: nat)
    requires CanRehold(d, a, exact, j)
    ensures var p, l := a.ring[j], a.kind[a.ring[j]].l;
            && p + l <= |a.kind| && l >= 1 && Page(p) in d && CanUnlink(ClearRun(d, p, l), Page(p))
            && Represents(Unlink(ClearRun(d, p, l), Page(p)),
                          Pages(Fill(a.kind, p, l, Held(p, l)), Without(a.ring, j), a.lists), exact)
  {
    hide Ring, Coalesced, Tiled, Without, SlotList, DescOk, Unlink;
    var p, l := a.ring[j], a.kind[a.ring[j]].l;
    ReholdRing(d, a, exact, j);
    ReholdShape(a.kind, p);
    UnlinkHas(ClearRun(d, p, l), Page(p));
    var d', a' := Unlink(ClearRun(d, p, l), Page(p)), Pages(Fill(a.kind, p, l, Held(p, l)), Without(a.ring, j),
      a.lists);
    forall i | 0 <= i < |a.kind| ensures Page(i) in d' && DescOk(d'[Page(i)], a'.kind[i], i, |a.kind|, exact) {
      ReholdDesc(d, a, exact, j, i);
    }
    assert FreeRing(d', a') by {
      RingDistinct(d, FreeHead, a.ring);
      WithoutDistinct(a.ring, j);
      LiveShape(a.kind, p);
      forall y: nat ensures y in a'.ring <==> y < |a.kind| && IsHead(a'.kind[y], y) {
        assert y in a.ring <==> y < |a.kind| && IsHead(a.kind[y], y);
      }
    }
    forall c | 0 <= c < |a.lists| ensures SlotList(d', a', c) {
      ReholdSlotList(d, a, exact, j, c);
    }
  }

  // ----- a slot page leaves its list

  lemma SlotNeighbours(d: Mem, a: Pages, exact: int, c: nat, j: nat)
    requires Represents(d, a, exact) && c < |a.lists| && j < |a.lists[c]|
    ensures var p := a.lists[c][j];
            && p < |a.kind| && a.kind[p] == SlotPage(c, true) && CanUnlink(d, Page(p))
            && d[Page(p)].tag == TagOf(c, exact)
            && var x := d[Page(p)];
               && (x.next.r == Slot(c) || (x.next.r.Page? && x.next.r.i in a.lists[c] && x.next.r.i != p))
               && (x.prev.r == Slot(c) || (x.prev.r.Page? && x.prev.r.i in a.lists[c] && x.prev.r.i != p))
  {
    hide Coalesced, FreeRing, Tiled;
    assert SlotList(d, a, c);
    assert a.lists[c][j] in a.lists[c];
    RingEnds(d, Slot(c), a.lists[c], j);
    UnlinkKeeps(d, Slot(c), a.lists[c], j);
  }

  /** Unlinking the page at position j of slot list c; the page itself becomes kind k. */
  function Delisted(a: Pages, c: nat, j: nat, k: Kind): Pages
    requires c < |a.lists| && j < |a.lists[c]| && a.lists[c][j] < |a.kind|
  {
    a.(kind := a.kind[a.lists[c][j] := k], lists := a.lists[c := Without(a.lists[c], j)])
  }

  /** What is known of the page whose kind changes; x is its new descriptor. */
  predicate NewKind(k: Kind, p: nat, x: Desc, n: nat, exact: int, slots: nat) {
    && DescOk(x, k, p, n, exact)
    && (k == Held(p, 1) || (k.SlotPage? && k.c < slots && !k.listed))
  }

  lemma DelistDesc(d: Mem, a: Pages, exact: int, c: nat, j: nat, i: nat)
    requires Represents(d, a, exact) && c < |a.lists| && j < |a.lists[c]| && i < |a.kind|
    ensures CanUnlink(d, Page(a.lists[c][j]))
    ensures var d' := Unlink(d, Page(a.lists[c][j]));
            && d'.Keys == d.Keys && d'[Page(i)].slab == d[Page(i)].slab && d'[Page(i)].tag == d[Page(i)].tag
            && DescOk(d'[Page(i)], a.kind[i], i, |a.kind|, exact)
            && (a.kind[i] != SlotPage(c, true) ==> d'[Page(i)] == d[Page(i)])
  {
    hide Coalesced, FreeRing, Tiled, Ring;
    SlotNeighbours(d, a, exact, c, j);
    assert SlotList(d, a, c);
    assert DescOk(d[Page(i)], a.kind[i], i, |a.kind|, exact);
    var x := d[Page(a.lists[c][j])];
    assert Page(i) == x.next.r || Page(i) == x.prev.r ==> a.kind[i] == SlotPage(c, true);
  }

  lemma DelistOther(d: Mem, a: Pages, exact: int, c: nat, j: nat, head: Ref)
    requires Represents(d, a, exact) && c < |a.lists| && j < |a.lists[c]| && CanUnlink(d, Page(a.lists[c][j]))
    requires head in d && !head.Page? && head != Slot(c)
    ensures head in Unlink(d, Page(a.lists[c][j])) && Unlink(d, Page(a.lists[c][j]))[head] == d[head]
  {
    hide Coalesced, FreeRing, Tiled, Ring, Descs;
    SlotNeighbours(d, a, exact, c, j);
  }

  lemma DelistFreeRing(d: Mem, a: Pages, exact: int, c: nat, j: nat, k: Kind, x: Desc)
    requires Represents(d, a, exact) && c < |a.lists| && j < |a.lists[c]| && CanUnlink(d, Page(a.lists[c][j]))
    requires a.lists[c][j] < |a.kind| && !k.FreeRun?
    ensures FreeRing(Unlink(d, Page(a.lists[c][j]))[Page(a.lists[c][j]) := x], Delisted(a, c, j, k))
  {
    hide Ring, Coalesced, Tiled, Descs, Without, Unlink, DescOk;
    var p := a.lists[c][j];
    var d1 := Unlink(d, Page(p));
    SlotNeighbours(d, a, exact, c, j);
    DelistOther(d, a, exact, c, j, FreeHead);
    forall i | 0 <= i < |a.ring| ensures Page(a.ring[i]) in d && Page(a.ring[i]) in d1
      && d1[Page(a.ring[i])] == d[Page(a.ring[i])] {
      assert a.ring[i] in a.ring;
      DelistDesc(d, a, exact, c, j, a.ring[i]);
    }
    RingFrame(d, d1, FreeHead, a.ring);
    assert p !in a.ring;
    UnlinkHas(d, Page(p));
    OutsideRing(d1, d1[Page(p) := x], FreeHead, a.ring, p, x);
  }

  lemma DelistSlotList(d: Mem, a: Pages, exact: int, c: nat, j: nat, k: Kind, x: Desc, e: nat)
    requires Represents(d, a, exact) && c < |a.lists| && j < |a.lists[c]| && CanUnlink(d, Page(a.lists[c][j]))
             && e < |a.lists|
    requires a.lists[c][j] < |a.kind| && !(k.SlotPage? && k.listed)
    ensures SlotList(Unlink(d, Page(a.lists[c][j]))[Page(a.lists[c][j]) := x], Delisted(a, c, j, k), e)
  {
    hide Ring, Coalesced, Tiled, Descs, Without, Unlink, DescOk, FreeRing;
    var p := a.lists[c][j];
    var d1 := Unlink(d, Page(p));
    SlotNeighbours(d, a, exact, c, j);
    UnlinkHas(d, Page(p));
    assert SlotList(d, a, e) && SlotList(d, a, c);
    if e == c {
      UnlinkKeeps(d, Slot(c), a.lists[c], j);
      RingDistinct(d, Slot(c), a.lists[c]);
      WithoutDistinct(a.lists[c], j);
      OutsideRing(d1, d1[Page(p) := x], Slot(c), Without(a.lists[c], j), p, x);
      forall y: nat ensures y in Without(a.lists[c], j) <==> y < |a.kind| && a.kind[p := k][y] == SlotPage(c, true) {
        WithoutDistinct(a.lists[c], j);
      }
    } else {
      var list := a.lists[e];
      DelistOther(d, a, exact, c, j, Slot(e));
      forall i | 0 <= i < |list| ensures Page(list[i]) in d && Page(list[i]) in d1
        && d1[Page(list[i])] == d[Page(list[i])] {
        assert list[i] in list;
        DelistDesc(d, a, exact, c, j, list[i]);
      }
      RingFrame(d, d1, Slot(e), list);
      assert p !in list;
      OutsideRing(d1, d1[Page(p) := x], Slot(e), list, p, x);
    }
  }

  /** A page that leaves its slot list, to be freed or because it is full, leaves everything else in order. */
  lemma DelistRepresents(d: Mem, a: Pages, exact: int, c: nat, j: nat, k: Kind, x: Desc)
    requires Represents(d, a, exact) && c < |a.lists| && j < |a.lists[c]| && a.lists[c][j] < |a.kind|
    requires NewKind(k, a.lists[c][j], x, |a.kind|, exact, |a.lists|)
    ensures CanUnlink(d, Page(a.lists[c][j]))
    ensures Represents(Unlink(d, Page(a.lists[c][j]))[Page(a.lists[c][j]) := x], Delisted(a, c, j, k), exact)
  {
    hide Ring, Coalesced, Tiled, FreeRing, SlotList, Without, Unlink, DescOk;
    var p := a.lists[c][j];
    SlotNeighbours(d, a, exact, c, j);
    UnlinkHas(d, Page(p));
    var d', a' := Unlink(d, Page(p))[Page(p) := x], Delisted(a, c, j, k);
    DelistFreeRing(d, a, exact, c, j, k, x);
    forall e | 0 <= e < |a.lists| ensures SlotList(d', a', e) { DelistSlotList(d, a, exact, c, j, k, x, e); }
    forall i | 0 <= i < |a.kind| ensures Page(i) in d' && DescOk(d'[Page(i)], a'.kind[i], i, |a.kind|, exact) {
      DelistDesc(d, a, exact, c, j, i);
    }
    OnePage(a.kind, p, k);
  }

  lemma OnePage(kind: seq<Kind>, p: nat, k: Kind)
    requires Tiled(kind) && Coalesced(kind) && p < |kind| && kind[p].SlotPage? && (k.SlotPage? || k == Held(p, 1))
    ensures Tiled(kind[p := k]) && Coalesced(kind[p := k])
  {
    var kind' := kind[p := k];
    forall i | 0 <= i < |kind| ensures RunOk(kind', i) { assert RunOk(kind, i); }
    forall i | 0 <= i < |kind'| && kind'[i].FreeRun? ensures !FreeAt(kind', kind'[i].h + kind'[i].l) {
      assert !FreeAt(kind, kind[i].h + kind[i].l);
    }
  }

  // ----- finally the run becomes free: back pointer, then the front of the ring

  /** page[pages].prev = page when the run is longer than one page; then into the free ring. */
  function Release(d: Mem, p: nat, l: nat): Mem
    requires l >= 1 && Page(p) in d && Page(p + l - 1) in d && FreeHead in d && d[FreeHead].next.To?
             && d[FreeHead].next.r in d
  {
    var d1 := if l > 1 then d[Page(p + l - 1) := d[Page(p + l - 1)].(prev := To(Page(p)), tag := PageTag)] else d;
    PushFront(d1, FreeHead, Page(p), PageTag)
  }

  ghost predicate CanRelease(d: Mem, a: Pages, exact: int, p: nat) {
    && Represents(d, a, exact) && p < |a.kind| && a.kind[p].Held? && a.kind[p].h == p
    && !FreeAt(a.kind, p + a.kind[p].l) && (p > 0 ==> !a.kind[p - 1].FreeRun?)
  }

  lemma RingHead(d: Mem, a: Pages, exact: int)
    requires Represents(d, a, exact)
    ensures FreeHead in d && d[FreeHead].next.To? && d[FreeHead].next.r in d
    ensures d[FreeHead].next.r == FreeHead || (d[FreeHead].next.r.Page? && d[FreeHead].next.r.i in a.ring)
  {
    hide Coalesced, SlotList, Tiled, Descs;
    assert LinkOk(d, FreeHead, a.ring, 0);
  }

  lemma ReleaseShape(kind: seq<Kind>, p: nat)
    requires Tiled(kind) && Coalesced(kind) && p < |kind| && kind[p].Held? && kind[p].h == p
    requires !FreeAt(kind, p + kind[p].l) && (p > 0 ==> !kind[p - 1].FreeRun?)
    ensures p + kind[p].l <= |kind| && kind[p].l >= 1
    ensures var kind' := Fill(kind, p, kind[p].l, FreeRun(p, kind[p].l)); Tiled(kind') && Coalesced(kind')
  {
    hide Coalesced;
    LiveShape(kind, p);
    var l := kind[p].l;
    forall i | 0 <= i < |kind| && !(p <= i < p + l) && !kind[i].SlotPage?
      ensures kind[i].h + kind[i].l <= p || p + l <= kind[i].h
    {
      SameOrApart(kind, i, p);
      Inside(kind, i);
    }
    FillTiled(kind, p, l, FreeRun(p, l));
    ReleaseCoalesced(kind, p);
  }

  lemma ReleaseCoalesced(kind: seq<Kind>, p: nat)
    requires Tiled(kind) && Coalesced(kind) && p < |kind| && kind[p].Held? && kind[p].h == p && p + kind[p].l <= |kind|
    requires !FreeAt(kind, p + kind[p].l) && (p > 0 ==> !kind[p - 1].FreeRun?)
    ensures Coalesced(Fill(kind, p, kind[p].l, FreeRun(p, kind[p].l)))
  {
    hide Tiled;
    var l := kind[p].l;
    var kind' := Fill(kind, p, l, FreeRun(p, l));
    forall i | 0 <= i < |kind'| && kind'[i].FreeRun? ensures !FreeAt(kind', kind'[i].h + kind'[i].l) {
      if !(p <= i < p + l) {
        assert !FreeAt(kind, kind[i].h + kind[i].l);
        EndBefore(kind, i, p);
      }
    }
  }

  /** A free run elsewhere does not end right at p, nor inside the run at p. */
  lemma EndBefore(kind: seq<Kind>, i: nat, p: nat)
    requires Tiled(kind) && i < |kind| && p < |kind| && kind[i].FreeRun? && kind[p].Held? && kind[p].h == p
    requires p > 0 ==> !kind[p - 1].FreeRun?
    ensures kind[i].h + kind[i].l < p || p + kind[p].l < kind[i].h + kind[i].l
  {
    SameOrApart(kind, i, p);
    assert RunOk(kind, i) && RunOk(kind, p);
    var e := kind[i].h + kind[i].l;
    assert kind[e - 1] == kind[i];
  }

  lemma ReleaseDesc(d: Mem, a: Pages, exact: int, p: nat, i: nat)
    requires CanRelease(d, a, exact, p) && i < |a.kind| && p + a.kind[p].l <= |a.kind| && a.kind[p].l >= 1
    requires Page(p) in d && Page(p + a.kind[p].l - 1) in d && FreeHead in d && d[FreeHead].next.To?
             && d[FreeHead].next.r in d
    ensures var l := a.kind[p].l; var d' := Release(d, p, l);
            && d'.Keys == d.Keys && Page(i) in d'
            && DescOk(d'[Page(i)], Fill(a.kind, p, l, FreeRun(p, l))[i], i, |a.kind|, exact)
            && (!IsHead(a.kind[i], i) && !(p <= i < p + l) ==> d'[Page(i)] == d[Page(i)])
  {
    hide Ring, Coalesced, SlotList, Tiled, DescOk, Release, Fill;
    RingHead(d, a, exact);
    LiveShape(a.kind, p);
    assert DescOk(d[Page(i)], a.kind[i], i, |a.kind|, exact);
    assert Page(i) == d[FreeHead].next.r ==> IsHead(a.kind[i], i);
    ReleaseAt(d, p, a.kind[p].l, i);
    FillAt(a.kind, p, a.kind[p].l, FreeRun(p, a.kind[p].l), i);
    if p <= i < p + a.kind[p].l {
      ReleasedOk(d[Page(i)], Release(d, p, a.kind[p].l)[Page(i)], p, a.kind[p].l, i, |a.kind|, exact);
    } else {
      if Page(i) == d[FreeHead].next.r { HeadTag(d[Page(i)], a.kind[i], i, |a.kind|, exact); }
      RelinkOk(d[Page(i)], Release(d, p, a.kind[p].l)[Page(i)], a.kind[i], i, |a.kind|, exact);
    }
  }

  lemma FillAt(kind: seq<Kind>, h: nat, l: nat, k: Kind, i: nat)
    requires h + l <= |kind| && i < |kind|
    ensures |Fill(kind, h, l, k)| == |kind| && Fill(kind, h, l, k)[i] == if h <= i < h + l then k else kind[i]
  {
  }

  lemma HeadTag(x: Desc, k: Kind, i: nat, n: nat, exact: int)
    requires DescOk(x, k, i, n, exact) && IsHead(k, i)
    ensures x.tag == PageTag && x.next.To?
  {
  }

  /** What giving back the run at p writes into the descriptor of page i. */
  lemma ReleaseAt(d: Mem, p: nat, l: nat, i: nat)
    requires l >= 1 && Page(p) in d && Page(p + l - 1) in d && FreeHead in d && d[FreeHead].next.To?
             && d[FreeHead].next.r in d
    requires Page(i) in d && !(d[FreeHead].next.r.Page? && p <= d[FreeHead].next.r.i < p + l)
    ensures var d' := Release(d, p, l);
            && d'.Keys == d.Keys && d'[Page(i)].slab == d[Page(i)].slab
            && (i == p ==> d'[Page(i)].next.To? && d'[Page(i)].tag == PageTag)
            && (p < i < p + l ==> d'[Page(i)].next == d[Page(i)].next)
            && (p < i < p + l ==>
              d'[Page(i)] == if i == p + l - 1 then d[Page(i)].(prev := To(Page(p)), tag := PageTag) else d[Page(i)])
            && (!(p <= i < p + l) ==>
              d'[Page(i)] == if Page(i) == d[FreeHead].next.r then d[Page(i)].(prev := To(Page(p)), tag := PageTag)
              else d[Page(i)])
  {
  }

  lemma ReleasedOk(x: Desc, x': Desc, p: nat, l: nat, i: nat, n: nat, exact: int)
    requires DescOk(x, Held(p, l), i, n, exact) && p <= i < p + l && x'.slab == x.slab
    requires i == p ==> x'.next.To? && x'.tag == PageTag
    requires i > p ==> x' == if i == p + l - 1 then x.(prev := To(Page(p)), tag := PageTag) else x
    ensures DescOk(x', FreeRun(p, l), i, n, exact)
  {
  }

  lemma ReleaseFreeRing(d: Mem, a: Pages, exact: int, p: nat)
    requires CanRelease(d, a, exact, p) && p + a.kind[p].l <= |a.kind| && a.kind[p].l >= 1
    requires Page(p) in d && Page(p + a.kind[p].l - 1) in d && FreeHead in d && d[FreeHead].next.To?
             && d[FreeHead].next.r in d
    ensures var l := a.kind[p].l;
            FreeRing(Release(d, p, l), a.(kind := Fill(a.kind, p, l, FreeRun(p, l)), ring := [p] + a.ring))
  {
    hide Ring, Coalesced, Tiled, Descs, DescOk, SlotList, PushFront;
    LiveShape(a.kind, p);
    var l := a.kind[p].l;
    var d1 := if l > 1 then d[Page(p + l - 1) := d[Page(p + l - 1)].(prev := To(Page(p)), tag := PageTag)] else d;
    assert p + l - 1 !in a.ring && p !in a.ring;
    if l > 1 { OutsideRing(d, d1, FreeHead, a.ring, p + l - 1, d1[Page(p + l - 1)]); }
    PushFrontKeeps(d1, FreeHead, a.ring, p, PageTag);
    forall y: nat ensures y in [p] + a.ring <==> y < |a.kind| && IsHead(Fill(a.kind, p, l, FreeRun(p, l))[y], y) {
      assert y in a.ring <==> y < |a.kind| && IsHead(a.kind[y], y);
    }
  }

  lemma ReleaseSlotList(d: Mem, a: Pages, exact: int, p: nat, c: nat)
    requires CanRelease(d, a, exact, p) && p + a.kind[p].l <= |a.kind| && a.kind[p].l >= 1 && c < |a.lists|
    requires Page(p) in d && Page(p + a.kind[p].l - 1) in d && FreeHead in d && d[FreeHead].next.To?
             && d[FreeHead].next.r in d
    ensures var l := a.kind[p].l;
            SlotList(Release(d, p, l), a.(kind := Fill(a.kind, p, l, FreeRun(p, l)), ring := [p] + a.ring), c)
  {
    hide Ring, Coalesced, Tiled, Descs, FreeRing, Release, DescOk;
    LiveShape(a.kind, p);
    assert SlotList(d, a, c);
    var l := a.kind[p].l;
    var list, d' := a.lists[c], Release(d, p, l);
    ReleaseSlotHead(d, a, exact, p, c);
    forall i | 0 <= i < |list| ensures Page(list[i]) in d && Page(list[i]) in d'
      && d'[Page(list[i])] == d[Page(list[i])] {
      assert list[i] in list;
      ReleaseDesc(d, a, exact, p, list[i]);
    }
    RingFrame(d, d', Slot(c), list);
    forall y: nat ensures y in list <==> y < |a.kind| && Fill(a.kind, p, l, FreeRun(p, l))[y] == SlotPage(c, true) {
      assert y in list <==> y < |a.kind| && a.kind[y] == SlotPage(c, true);
    }
  }

  lemma ReleaseSlotHead(d: Mem, a: Pages, exact: int, p: nat, c: nat)
    requires CanRelease(d, a, exact, p) && c < |a.lists| && a.kind[p].l >= 1
    requires Page(p) in d && Page(p + a.kind[p].l - 1) in d && FreeHead in d && d[FreeHead].next.To?
             && d[FreeHead].next.r in d
    ensures var d' := Release(d, p, a.kind[p].l); Slot(c) in d && Slot(c) in d' && d'[Slot(c)] == d[Slot(c)]
  {
    hide Coalesced, SlotList, Tiled, Ring, Descs;
    RingHead(d, a, exact);
  }

  /** The merged run enters the ring and the pool is whole again. */
  lemma ReleaseRepresents(d: Mem, a: Pages, exact: int, p: nat)
    requires CanRelease(d, a, exact, p)
    ensures var l := a.kind[p].l;
            && l >= 1 && p + l <= |a.kind| && Page(p) in d && Page(p + l - 1) in d
            && FreeHead in d && d[FreeHead].next.To? && d[FreeHead].next.r in d
            && Represents(Release(d, p, l), a.(kind := Fill(a.kind, p, l, FreeRun(p, l)), ring := [p] + a.ring), exact)
  {
    hide Ring, Coalesced, Tiled, FreeRing, SlotList, DescOk, Release;
    RingHead(d, a, exact);
    ReleaseShape(a.kind, p);
    var l := a.kind[p].l;
    ReleaseFreeRing(d, a, exact, p);
    ReleaseDesc(d, a, exact, p, p);
    var d', a' := Release(d, p, l), a.(kind := Fill(a.kind, p, l, FreeRun(p, l)), ring := [p] + a.ring);
    forall i | 0 <= i < |a.kind| ensures Page(i) in d' && DescOk(d'[Page(i)], a'.kind[i], i, |a.kind|, exact) {
      ReleaseDesc(d, a, exact, p, i);
    }
    forall c | 0 <= c < |a.lists| ensures SlotList(d', a', c) { ReleaseSlotList(d, a, exact, p, c); }
  }

  // ----- a page joins a slot list

  function Enlisted(a: Pages, c: nat, p: nat): Pages
    requires c < |a.lists| && p < |a.kind|
  {
    a.(kind := a.kind[p := SlotPage(c, true)], lists := a.lists[c := [p] + a.lists[c]])
  }

  /** Outside the page and its list only back links may have changed. */
  ghost predicate OnlyLinks(d: Mem, d': Mem, a: Pages, c: nat, p: nat) {
    && d'.Keys == d.Keys
    && FreeHead in d && d'[FreeHead] == d[FreeHead]
    && (forall e :: 0 <= e < |a.lists| && e != c ==> Slot(e) in d && d'[Slot(e)] == d[Slot(e)])
    && (forall i :: 0 <= i < |a.kind| && i != p ==>
          Page(i) in d && d'[Page(i)] == d[Page(i)].(prev := d'[Page(i)].prev)
          && (a.kind[i] != SlotPage(c, true) ==> d'[Page(i)] == d[Page(i)]))
  }

  lemma EnlistRepresents(d: Mem, d': Mem, a: Pages, exact: int, c: nat, p: nat)
    requires Represents(d, a, exact) && c < |a.lists| && p < |a.kind|
    requires a.kind[p] == SlotPage(c, false) || a.kind[p] == LiveRun(p, 1)
    requires OnlyLinks(d, d', a, c, p) && Ring(d', Slot(c), [p] + a.lists[c])
    requires Page(p) in d' && DescOk(d'[Page(p)], SlotPage(c, true), p, |a.kind|, exact)
    ensures Represents(d', Enlisted(a, c, p), exact)
  {
    hide Ring, Coalesced, Tiled;
    var a' := Enlisted(a, c, p);
    SlotFor(a.kind, p, SlotPage(c, true));
    forall i | 0 <= i < |a.kind| ensures Page(i) in d' && DescOk(d'[Page(i)], a'.kind[i], i, |a.kind|, exact) {
      assert DescOk(d[Page(i)], a.kind[i], i, |a.kind|, exact);
    }
    assert FreeRing(d', a') by {
      forall i | 0 <= i < |a.ring| ensures Page(a.ring[i]) in d && a.ring[i] != p
        && d'[Page(a.ring[i])] == d[Page(a.ring[i])] {
        assert a.ring[i] in a.ring;
      }
      RingFrame(d, d', FreeHead, a.ring);
    }
    forall e | 0 <= e < |a.lists| ensures SlotList(d', a', e) {
      var list := a.lists[e];
      assert SlotList(d, a, e);
      if e != c {
        forall i | 0 <= i < |list| ensures Page(list[i]) in d && list[i] != p && d'[Page(list[i])] == d[Page(list[i])] {
          assert list[i] in list;
        }
        RingFrame(d, d', Slot(e), list);
      }
    }
  }

  lemma SlotFor(kind: seq<Kind>, p: nat, k: Kind)
    requires Tiled(kind) && Coalesced(kind) && p < |kind| && k.SlotPage?
             && (kind[p].SlotPage? || kind[p] == LiveRun(p, 1))
    ensures Tiled(kind[p := k]) && Coalesced(kind[p := k])
  {
    var kind' := kind[p := k];
    forall i | 0 <= i < |kind| ensures RunOk(kind', i) {
      assert RunOk(kind, i);
      if !kind[p].SlotPage? && !kind[i].SlotPage? { SameOrApart(kind, i, p); }
    }
    forall i | 0 <= i < |kind'| && kind'[i].FreeRun? ensures !FreeAt(kind', kind'[i].h + kind'[i].l) {
      assert !FreeAt(kind, kind[i].h + kind[i].l);
    }
  }

  // ----- what the representation tells the program's tests

  /** The test on the descriptor after the run: `next` of a page-tagged descriptor is set exactly for the head
      of a free run. */
  lemma RightTest(d: Mem, a: Pages, exact: int, p: nat)
    requires Represents(d, a, exact) && p < |a.kind| && a.kind[p].Held? && a.kind[p].h == p
             && p + a.kind[p].l < |a.kind|
    requires forall i :: 0 <= i < |a.kind| && a.kind[i].Held? ==> a.kind[i] == a.kind[p]
    ensures var q := p + a.kind[p].l;
            && Page(q) in d && (d[Page(q)].tag == PageTag && d[Page(q)].next.To? <==> a.kind[q].FreeRun?)
            && (a.kind[q].FreeRun? ==> a.kind[q].h == q && q in a.ring && d[Page(q)].slab == a.kind[q].l)
  {
    hide Ring, Coalesced, SlotList;
    var q := p + a.kind[p].l;
    assert DescOk(d[Page(q)], a.kind[q], q, |a.kind|, exact);
    assert RunOk(a.kind, q) && RunOk(a.kind, p);
    if a.kind[q].FreeRun? { SameOrApart(a.kind, q, p); }
    assert q in a.ring <==> IsHead(a.kind[q], q);
  }

  /** The test on the descriptor before it: a cleared descriptor leads back to the head of its free run. */
  lemma LeftTest(d: Mem, a: Pages, exact: int, p: nat)
    requires Represents(d, a, exact) && 0 < p < |a.kind| && a.kind[p].Held? && a.kind[p].h == p
    requires forall i :: 0 <= i < |a.kind| && a.kind[i].Held? ==> a.kind[i] == a.kind[p]
    ensures Page(p - 1) in d
    ensures a.kind[p - 1].FreeRun? ==>
              && d[Page(p - 1)].tag == PageTag && a.kind[p - 1].h + a.kind[p - 1].l == p && a.kind[p - 1].h in a.ring
              && (if d[Page(p - 1)].slab == PAGE_FREE then d[Page(p - 1)].prev == To(Page(a.kind[p - 1].h))
                 else a.kind[p - 1].h == p - 1)
              && Page(a.kind[p - 1].h) in d && d[Page(a.kind[p - 1].h)].next.To?
              && d[Page(a.kind[p - 1].h)].slab == a.kind[p - 1].l
    ensures !a.kind[p - 1].FreeRun? && d[Page(p - 1)].tag == PageTag ==>
              d[Page(p - 1)].slab != PAGE_FREE && d[Page(p - 1)].next == Null
  {
    hide Ring, Coalesced, SlotList;
    var q := p - 1;
    assert DescOk(d[Page(q)], a.kind[q], q, |a.kind|, exact);
    assert RunOk(a.kind, q) && RunOk(a.kind, p);
    if a.kind[q].FreeRun? {
      SameOrApart(a.kind, q, p);
      var h := a.kind[q].h;
      assert a.kind[h] == a.kind[q];
      assert DescOk(d[Page(h)], a.kind[h], h, |a.kind|, exact);
      assert h in a.ring <==> IsHead(a.kind[h], h);
    } else if !a.kind[q].SlotPage? {
      SameOrApart(a.kind, q, p);
    }
  }

  /** The word of a chunk page is the chunk layer's business. */
  lemma SlabRepresents(d: Mem, a: Pages, exact: int, p: nat, w: nat)
    requires Represents(d, a, exact) && p < |a.kind| && a.kind[p].SlotPage?
    ensures Page(p) in d && Represents(d[Page(p) := d[Page(p)].(slab := w)], a, exact)
  {
    hide Ring, Coalesced, Tiled;
    assert DescOk(d[Page(p)], a.kind[p], p, |a.kind|, exact);
    var d' := d[Page(p) := d[Page(p)].(slab := w)];
    assert FreeRing(d', a) by { SlabOnlyRing(d, d', FreeHead, a.ring, p, d'[Page(p)]); }
    forall c | 0 <= c < |a.lists| ensures SlotList(d', a, c) {
      assert SlotList(d, a, c);
      SlabOnlyRing(d, d', Slot(c), a.lists[c], p, d'[Page(p)]);
    }
  }

  /** A page joins the front of its slot list. */
  lemma RelistRepresents(d: Mem, a: Pages, exact: int, c: nat, p: nat)
    requires Represents(d, a, exact) && c < |a.lists| && p < |a.kind| && a.kind[p] == SlotPage(c, false)
    ensures Slot(c) in d && Page(p) in d && d[Slot(c)].next.To? && d[Slot(c)].next.r in d
    ensures Represents(PushFront(d, Slot(c), Page(p), TagOf(c, exact)), Enlisted(a, c, p), exact)
    ensures PushFront(d, Slot(c), Page(p), TagOf(c, exact))[Page(p)].slab == d[Page(p)].slab
    ensures forall i :: 0 <= i < |a.kind| && i != p ==>
              Page(i) in d && PushFront(d, Slot(c), Page(p), TagOf(c, exact))[Page(i)].slab == d[Page(i)].slab
  {
    hide Ring, Coalesced, Tiled, FreeRing;
    assert SlotList(d, a, c);
    assert DescOk(d[Page(p)], a.kind[p], p, |a.kind|, exact);
    PushFrontKeeps(d, Slot(c), a.lists[c], p, TagOf(c, exact));
    var d' := PushFront(d, Slot(c), Page(p), TagOf(c, exact));
    forall i | 0 <= i < |a.kind| && i != p
      ensures Page(i) in d && d'[Page(i)] == d[Page(i)].(prev := d'[Page(i)].prev)
              && (a.kind[i] != SlotPage(c, true) ==> d'[Page(i)] == d[Page(i)])
    {
      assert DescOk(d[Page(i)], a.kind[i], i, |a.kind|, exact);
      if d[Slot(c)].next.r == Page(i) { assert i in a.lists[c]; }
    }
    assert OnlyLinks(d, d', a, c, p);
    EnlistRepresents(d, d', a, exact, c, p);
  }

  /** A page just cut into chunks becomes the only one of its slot list. */
  function Cut(d: Mem, c: nat, p: nat, slab: nat, tag: Tag): Mem
    requires Page(p) in d && Slot(c) in d
  {
    var d1 := d[Page(p) := Desc(slab, To(Slot(c)), To(Slot(c)), tag)];
    d1[Slot(c) := d1[Slot(c)].(next := To(Page(p)))]
  }

  lemma CutRepresents(d: Mem, a: Pages, exact: int, c: nat, p: nat, slab: nat)
    requires Represents(d, a, exact) && c < |a.lists| && a.lists[c] == [] && p < |a.kind| && a.kind[p] == LiveRun(p, 1)
    ensures Slot(c) in d && Page(p) in d
    ensures Represents(Cut(d, c, p, slab, TagOf(c, exact)), Enlisted(a, c, p), exact)
    ensures forall i :: 0 <= i < |a.kind| && i != p ==>
              Page(i) in d && Cut(d, c, p, slab, TagOf(c, exact))[Page(i)].slab == d[Page(i)].slab
  {
    hide Coalesced, Tiled, FreeRing;
    assert SlotList(d, a, c);
    assert DescOk(d[Page(p)], a.kind[p], p, |a.kind|, exact);
    var d' := Cut(d, c, p, slab, TagOf(c, exact));
    assert LinkOk(d', Slot(c), [p], 0) && LinkOk(d', Slot(c), [p], 1);
    assert [p] + a.lists[c] == [p];
    EnlistRepresents(d, d', a, exact, c, p);
  }
}

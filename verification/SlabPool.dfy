/**
 ngx_slab_alloc_pages and ngx_slab_free_pages of c-util/slab.c, writing the descriptor table in place.
 */
module SlabPool {
  import opened Options
  import opened Sequences
  import opened SlabLinks
  import opened SlabPages

  // ----- what the two operations do to the abstract pool

  /** First fit: the first run of the ring, from position j on, with at least k pages. */
  function FitIndex(a: Pages, k: nat, j: nat): (i: nat)
    requires j <= |a.ring|
    ensures j <= i <= |a.ring|
    decreases |a.ring| - j
  {
    if j == |a.ring| || Fits(a, k, j) then j else FitIndex(a, k, j + 1)
  }

  predicate Fits(a: Pages, k: nat, j: nat)
    requires j < |a.ring|
  {
    a.ring[j] < |a.kind| && a.kind[a.ring[j]].FreeRun? && a.kind[a.ring[j]].l >= k
  }

  lemma {:induction false} FitIndexIs(a: Pages, k: nat, j: nat)
    requires j <= |a.ring|
    ensures FitIndex(a, k, j) < |a.ring| ==> Fits(a, k, FitIndex(a, k, j))
    ensures forall i :: j <= i < FitIndex(a, k, j) ==> !Fits(a, k, i)
    decreases |a.ring| - j
  {
    if j < |a.ring| && !Fits(a, k, j) { FitIndexIs(a, k, j + 1); }
  }

  /** The pool after k pages were taken from the j-th run of the ring. */
  function TakenPages(a: Pages, j: nat, k: nat): Pages
    requires j < |a.ring| && Fits(a, k, j) && k >= 1 && a.ring[j] + a.kind[a.ring[j]].l <= |a.kind|
  {
    var h := a.ring[j];
    var l := a.kind[h].l;
    Pages(Carve(a.kind, h, l, k), RingAfterTake(a.ring, j, h, l, k), a.lists)
  }

  /** Where the run that swallows [p, p + l) starts and ends. */
  function FreedFrom(kind: seq<Kind>, p: nat): nat
    requires p <= |kind|
  {
    if p > 0 && kind[p - 1].FreeRun? then kind[p - 1].h else p
  }

  function FreedTo(kind: seq<Kind>, e: nat): nat {
    if FreeAt(kind, e) then e + kind[e].l else e
  }

  /** The kinds after the pages [p, p + l) are given back: one free run with the neighbours merged in. */
  function FreedKind(kind: seq<Kind>, p: nat, l: nat): seq<Kind>
    requires p <= |kind| && FreedFrom(kind, p) <= FreedTo(kind, p + l) <= |kind|
  {
    var from, to := FreedFrom(kind, p), FreedTo(kind, p + l);
    Fill(kind, from, to - from, FreeRun(from, to - from))
  }

  /** A page with chunks keeps its chunk map while other pages change hands. */
  ghost predicate ChunksKept(d: Mem, d': Mem, kind: seq<Kind>, p: nat) {
    forall i :: 0 <= i < |kind| && i != p && kind[i].SlotPage? ==>
      Page(i) in d && Page(i) in d' && d'[Page(i)].slab == d[Page(i)].slab
  }

  // ----- lemmas for the allocation

  lemma RingAt(d: Mem, a: Pages, exact: int, j: nat)
    requires Represents(d, a, exact) && j <= |a.ring|
    ensures Node(FreeHead, a.ring, j - 1) in d && d[Node(FreeHead, a.ring, j - 1)].next == To(Node(FreeHead, a.ring, j))
  {
    hide Coalesced, SlotList, Tiled, Descs;
    assert LinkOk(d, FreeHead, a.ring, j);
  }

  lemma TakeNoneHeld(a: Pages, j: nat, k: nat)
    requires j < |a.ring| && Fits(a, k, j) && k >= 1 && a.ring[j] + a.kind[a.ring[j]].l <= |a.kind| && NoneHeld(a.kind)
    ensures NoneHeld(TakenPages(a, j, k).kind)
  {
  }

  lemma TakeChunks(d: Mem, a: Pages, exact: int, j: nat, k: nat)
    requires CanTake(d, a, exact, j, k) && a.ring[j] + a.kind[a.ring[j]].l <= |a.kind|
    requires CanFront(d, a.ring[j], a.kind[a.ring[j]].l, k)
    ensures var h := a.ring[j]; var l := a.kind[h].l;
            ChunksKept(d, Taken(d, h, l, k), Carve(a.kind, h, l, k), |a.kind|)
  {
    hide Ring, TakeFront, Coalesced, SlotList, FreeRing, Tiled, Descs;
    var h := a.ring[j];
    var l := a.kind[h].l;
    TakeKeys(d, h, l, k);
    HeadOf(d, a, exact, j);
    LiveShape(a.kind, h);
    forall i | 0 <= i < |a.kind| && Carve(a.kind, h, l, k)[i].SlotPage?
      ensures Page(i) in d && Page(i) in Taken(d, h, l, k) && Taken(d, h, l, k)[Page(i)].slab == d[Page(i)].slab
    {
      TakeOutside(d, a, exact, j, k, i);
    }
  }

  /** The rest of a run is not a ring neighbour of its head. */
  lemma RestNotNeighbour(d: Mem, a: Pages, exact: int, j: nat, k: nat)
    requires Represents(d, a, exact) && j < |a.ring| && a.ring[j] < |a.kind| && a.kind[a.ring[j]].FreeRun?
             && 1 <= k < a.kind[a.ring[j]].l
    ensures CanUnlink(d, Page(a.ring[j]))
    ensures d[Page(a.ring[j])].next.r != Page(a.ring[j] + k) && d[Page(a.ring[j])].prev.r != Page(a.ring[j] + k)
    ensures d[Page(a.ring[j])].next.r != Page(a.ring[j] + a.kind[a.ring[j]].l - 1)
            && d[Page(a.ring[j])].prev.r != Page(a.ring[j] + a.kind[a.ring[j]].l - 1)
  {
    hide Ring, Coalesced, SlotList, Tiled, Descs;
    Neighbours(d, a, exact, j);
    HeadOf(d, a, exact, j);
    NotHeads(a.kind, a.ring[j], a.kind[a.ring[j]].l);
  }

  lemma TakeAll(d: Mem, a: Pages, exact: int, j: nat, k: nat)
    requires Represents(d, a, exact) && NoneHeld(a.kind) && j < |a.ring| && Fits(a, k, j) && k >= 1
    ensures var h := a.ring[j]; var l := a.kind[h].l;
            && h + l <= |a.kind| && CanFront(d, h, l, k) && (forall i :: h <= i < h + l ==> Page(i) in d)
            && (forall i :: h < i < h + l ==> d[Page(h)].next.r != Page(i) && d[Page(h)].prev.r != Page(i))
            && Represents(Taken(d, h, l, k), TakenPages(a, j, k), exact) && NoneHeld(TakenPages(a, j, k).kind)
            && ChunksKept(d, Taken(d, h, l, k), TakenPages(a, j, k).kind, |a.kind|)
            && |TakenPages(a, j, k).kind| == |a.kind| && TakenPages(a, j, k).lists == a.lists
  {
    hide Represents, ChunksKept, Taken, NoneHeld;
    var h := a.ring[j];
    var l := a.kind[h].l;
    TakeRepresents(d, a, exact, j, k);
    TakeNoneHeld(a, j, k);
    TakeChunks(d, a, exact, j, k);
    forall i | h <= i < h + l ensures Page(i) in d { PageIn(d, a, exact, i); }
    forall i | h < i < h + l ensures d[Page(h)].next.r != Page(i) && d[Page(h)].prev.r != Page(i) {
      RestNotNeighbour(d, a, exact, j, i - h);
    }
  }

  lemma PageIn(d: Mem, a: Pages, exact: int, i: nat)
    requires Represents(d, a, exact) && i < |a.kind|
    ensures Page(i) in d
  {
  }

  lemma InitRepresents(d: Mem, a: Pages, exact: int)
    requires 1 <= |a.kind| < PAGE_START && (forall i :: 0 <= i < |a.kind| ==> a.kind[i] == FreeRun(0, |a.kind|))
    requires a.ring == [0] && forall c :: 0 <= c < |a.lists| ==> a.lists[c] == []
    requires Shape(d, |a.kind|, |a.lists|)
    requires d[FreeHead].next == To(Page(0)) && forall c :: 0 <= c < |a.lists| ==> d[Slot(c)].next == To(Slot(c))
    requires forall i :: 0 <= i < |a.kind| ==>
               d[Page(i)] == if i == 0 then Desc(|a.kind|, To(FreeHead), To(FreeHead), PageTag) else CLEARED
    ensures |a.kind| > 1 ==> DescOk(d[Page(|a.kind| - 1)], a.kind[|a.kind| - 1], |a.kind| - 1, |a.kind|, exact)
    ensures Represents(d, a, exact)
  {
    forall c | 0 <= c < |a.lists| ensures SlotList(d, a, c) {
      assert LinkOk(d, Slot(c), [], 0);
    }
    assert LinkOk(d, FreeHead, [0], 0) && LinkOk(d, FreeHead, [0], 1);
  }

  // ----- lemmas for giving pages back

  /** The pool is in order but for the one run at p that is on its way back. */
  ghost predicate Holding(d: Mem, a: Pages, exact: int, p: nat) {
    && Represents(d, a, exact) && p < |a.kind| && a.kind[p].Held? && a.kind[p].h == p
    && forall i :: 0 <= i < |a.kind| && a.kind[i].Held? ==> a.kind[i] == a.kind[p]
  }

  lemma HoldingLength(d: Mem, a: Pages, exact: int, p: nat)
    requires Holding(d, a, exact, p)
    ensures a.kind[p].l >= 1 && p + a.kind[p].l <= |a.kind| && Page(p) in d && d[Page(p)].slab == a.kind[p].l
    ensures forall i :: p <= i < p + a.kind[p].l ==> Page(i) in d && a.kind[i] == a.kind[p]
    ensures ChunksKept(d, d, a.kind, p)
  {
    hide Ring, Coalesced, SlotList, FreeRing;
    LiveShape(a.kind, p);
    assert DescOk(d[Page(p)], a.kind[p], p, |a.kind|, exact);
  }

  lemma HoldFromLive(d: Mem, a: Pages, exact: int, p: nat)
    requires Represents(d, a, exact) && NoneHeld(a.kind) && p < |a.kind| && a.kind[p].LiveRun? && a.kind[p].h == p
    ensures var l := a.kind[p].l;
            && l >= 1 && p + l <= |a.kind| && Page(p) in d && d[Page(p)].next == Null
            && Holding(ClearRun(d, p, l), a.(kind := Fill(a.kind, p, l, Held(p, l))), exact, p)
            && ChunksKept(d, ClearRun(d, p, l), a.kind, p)
  {
    hide Ring, Coalesced, SlotList, FreeRing, Tiled;
    HoldLive(d, a, exact, p);
    LiveShape(a.kind, p);
    var d', l := ClearRun(d, p, a.kind[p].l), a.kind[p].l;
    forall i | 0 <= i < |a.kind| && i != p && a.kind[i].SlotPage?
      ensures Page(i) in d && Page(i) in d' && d'[Page(i)].slab == d[Page(i)].slab
    {
      PageIn(d, a, exact, i);
    }
    assert DescOk(d[Page(p)], a.kind[p], p, |a.kind|, exact);
  }

  lemma UnlinkUpdated(d: Mem, r: Ref, x: Desc)
    requires CanUnlink(d, r) && d[r].next.r != r && d[r].prev.r != r
    requires x.next == d[r].next && x.prev == d[r].prev && x.tag == d[r].tag
    ensures CanUnlink(d[r := x], r) && Unlink(d[r := x], r) == Unlink(d, r)[r := x]
  {
  }

  /** Freeing a chunk page: it leaves its slot list and becomes a run of one page. */
  lemma HoldFromSlot(d: Mem, a: Pages, exact: int, p: nat, c: nat, j: nat)
    requires Represents(d, a, exact) && NoneHeld(a.kind) && c < |a.lists| && j < |a.lists[c]| && a.lists[c][j] == p
    ensures p < |a.kind| && CanUnlink(d, Page(p))
    ensures var d1 := ClearRun(d, p, 1);
            && CanUnlink(d1, Page(p))
            && Holding(Unlink(d1, Page(p)), Delisted(a, c, j, Held(p, 1)), exact, p)
            && ChunksKept(d, Unlink(d1, Page(p)), a.kind, p)
  {
    hide Ring, Coalesced, SlotList, FreeRing, Tiled, Descs, Unlink, Without;
    SlotNeighbours(d, a, exact, c, j);
    var x := d[Page(p)].(slab := 1);
    var d1 := ClearRun(d, p, 1);
    assert d1.Keys == d[Page(p) := x].Keys;
    assert d1 == d[Page(p) := x];
    UnlinkUpdated(d, Page(p), x);
    DelistRepresents(d, a, exact, c, j, Held(p, 1), x);
    forall i | 0 <= i < |a.kind| && i != p
      ensures Page(i) in d && Page(i) in Unlink(d, Page(p)) && Unlink(d, Page(p))[Page(i)].slab == d[Page(i)].slab
    {
      PageIn(d, a, exact, i);
      DelistDesc(d, a, exact, c, j, i);
    }
  }

  /** Freeing a free run once more: it leaves the ring. */
  lemma HoldFromFree(d: Mem, a: Pages, exact: int, p: nat, j: nat)
    requires Represents(d, a, exact) && NoneHeld(a.kind) && j < |a.ring| && a.ring[j] == p < |a.kind|
             && IsHead(a.kind[p], p)
    ensures var l := a.kind[p].l;
            && l >= 1 && p + l <= |a.kind| && Page(p) in d && CanUnlink(d, Page(p))
            && CanUnlink(ClearRun(d, p, l), Page(p))
            && Holding(Unlink(ClearRun(d, p, l), Page(p)), Pages(Fill(a.kind, p, l, Held(p, l)), Without(a.ring, j),
               a.lists), exact, p)
            && ChunksKept(d, Unlink(ClearRun(d, p, l), Page(p)), a.kind, p)
  {
    hide Ring, Coalesced, SlotList, FreeRing, Tiled, Descs, Unlink, Without, DescOk;
    ReholdRepresents(d, a, exact, j);
    Neighbours(d, a, exact, j);
    LiveShape(a.kind, p);
    var d' := Unlink(ClearRun(d, p, a.kind[p].l), Page(p));
    forall i | 0 <= i < |a.kind| && i != p && a.kind[i].SlotPage?
      ensures Page(i) in d && Page(i) in d' && d'[Page(i)].slab == d[Page(i)].slab
    {
      ReholdDesc(d, a, exact, j, i);
    }
  }

  /** A free run stands alone, so giving it back changes no page's kind. */
  lemma FreedFree(kind: seq<Kind>, p: nat, k: nat)
    requires Tiled(kind) && Coalesced(kind) && p < |kind| && kind[p] == FreeRun(p, k)
    ensures p + k <= |kind| && FreedFrom(kind, p) == p && FreedTo(kind, p + k) == p + k && FreedKind(kind, p, k) == kind
  {
    LiveShape(kind, p);
    assert !FreeAt(kind, kind[p].h + kind[p].l);
    assert p > 0 && kind[p - 1].FreeRun? ==> !FreeAt(kind, kind[p - 1].h + kind[p - 1].l);
    if p > 0 && kind[p - 1].FreeRun? {
      SameOrApart(kind, p - 1, p);
      Inside(kind, p - 1);
    }
  }

  /** What ngx_slab_free_pages may be called on: a live run, a free run, or a page with chunks that is on its list. */
  predicate Givable(k: Kind, p: nat, l: nat) {
    k == LiveRun(p, l) || k == FreeRun(p, l) || (l == 1 && k.SlotPage? && k.listed)
  }

  lemma HoldMerged(d: Mem, a: Pages, exact: int, p: nat, q: nat, j: nat)
    requires CanMerge(d, a, exact, p, q, j) && Holding(d, a, exact, if a.kind[p].Held? then p else q)
    ensures p + a.kind[p].l + a.kind[q].l <= |a.kind| && a.kind[q].l >= 1
    ensures Page(p) in d && Page(q) in d && CanUnlink(d, Page(a.ring[j]))
    ensures var d', a' := Merge(d, p, q, a.kind[p].l + a.kind[q].l, a.ring[j]),
            Pages(MergedKind(a.kind, p, q), Without(a.ring, j), a.lists);
            && Holding(d', a', exact, p) && a'.kind[p].l == a.kind[p].l + a.kind[q].l
            && ChunksKept(d, d', a.kind, p)
  {
    hide Ring, Coalesced, SlotList, FreeRing, Tiled, Descs, Merge, Without, DescOk;
    MergeRepresents(d, a, exact, p, q, j);
    LiveShape(a.kind, p);
    LiveShape(a.kind, q);
    forall i | 0 <= i < |a.kind| && a.kind[i].Held? ensures p <= i < p + a.kind[p].l + a.kind[q].l
    { Inside(a.kind, i); }
    forall i | 0 <= i < |a.kind| && a.kind[i].SlotPage?
      ensures Page(i) in d && Page(i) in Merge(d, p, q, a.kind[p].l + a.kind[q].l, a.ring[j])
              && Merge(d, p, q, a.kind[p].l + a.kind[q].l, a.ring[j])[Page(i)].slab == d[Page(i)].slab
    {
      PageIn(d, a, exact, i);
      MergeDesc(d, a, exact, p, q, j, i);
    }
  }

  lemma ReleaseAll(d: Mem, a: Pages, exact: int, p: nat)
    requires Holding(d, a, exact, p) && CanRelease(d, a, exact, p)
    ensures var l := a.kind[p].l;
            && l >= 1 && p + l <= |a.kind| && Page(p) in d && Page(p + l - 1) in d
            && FreeHead in d && d[FreeHead].next.To? && d[FreeHead].next.r in d
            && var a' := a.(kind := Fill(a.kind, p, l, FreeRun(p, l)), ring := [p] + a.ring);
               && Represents(Release(d, p, l), a', exact) && NoneHeld(a'.kind)
               && ChunksKept(d, Release(d, p, l), a.kind, p)
  {
    hide Ring, Coalesced, SlotList, FreeRing, Tiled, Descs, Release, DescOk;
    ReleaseRepresents(d, a, exact, p);
    LiveShape(a.kind, p);
    forall i | 0 <= i < |a.kind| && a.kind[i].Held? ensures p <= i < p + a.kind[p].l { Inside(a.kind, i); }
    forall i | 0 <= i < |a.kind| && a.kind[i].SlotPage?
      ensures Page(i) in d && Page(i) in Release(d, p, a.kind[p].l)
              && Release(d, p, a.kind[p].l)[Page(i)].slab == d[Page(i)].slab
    {
      PageIn(d, a, exact, i);
      ReleaseDesc(d, a, exact, p, i);
    }
  }

  lemma AfterRight(d: Mem, a: Pages, exact: int, p: nat, j: nat)
    requires Holding(d, a, exact, p) && j < |a.ring| && p + a.kind[p].l < |a.kind| && a.ring[j] == p + a.kind[p].l
             && a.kind[a.ring[j]].FreeRun? && a.kind[a.ring[j]].h == a.ring[j]
    ensures var q := a.ring[j];
            && CanMerge(d, a, exact, p, q, j) && p + a.kind[p].l + a.kind[q].l <= |a.kind|
            && !FreeAt(MergedKind(a.kind, p, q), p + a.kind[p].l + a.kind[q].l)
  {
    hide Ring, SlotList, FreeRing, Tiled, Descs;
    LiveShape(a.kind, p);
    LiveShape(a.kind, a.ring[j]);
    assert !FreeAt(a.kind, a.kind[a.ring[j]].h + a.kind[a.ring[j]].l);
  }

  lemma AfterLeft(d: Mem, a: Pages, exact: int, p: nat, j: nat)
    requires Holding(d, a, exact, p) && j < |a.ring| && a.ring[j] < p && a.kind[a.ring[j]].FreeRun?
             && a.kind[a.ring[j]].h == a.ring[j]
    requires a.ring[j] + a.kind[a.ring[j]].l == p && !FreeAt(a.kind, p + a.kind[p].l)
    ensures var q := a.ring[j];
            && CanMerge(d, a, exact, q, p, j) && q + a.kind[q].l + a.kind[p].l <= |a.kind|
            && !FreeAt(MergedKind(a.kind, q, p), p + a.kind[p].l)
            && (q > 0 ==> !MergedKind(a.kind, q, p)[q - 1].FreeRun?)
  {
    hide Ring, SlotList, FreeRing, Tiled, Descs, RunOk;
    var q := a.ring[j];
    LiveShape(a.kind, p);
    LiveShape(a.kind, q);
    if q > 0 && a.kind[q - 1].FreeRun? {
      Inside(a.kind, q - 1);
      SameOrApart(a.kind, q - 1, q);
    }
  }

  /** The held run at p joined with the free run at q before it. */
  lemma LeftMerged(d: Mem, a: Pages, exact: int, p: nat, q: nat) returns (a': Pages)
    requires 0 < p < |a.kind| && q < p && q in a.ring && a.kind[q].FreeRun? && a.kind[q].h == q && q + a.kind[q].l == p
    requires Page(q) in d && d[Page(q)].slab == a.kind[q].l
    requires Holding(d, a, exact, p) && !FreeAt(a.kind, p + a.kind[p].l)
    ensures Page(p) in d && CanUnlink(d, Page(q))
    ensures |a'.kind| == |a.kind| && a'.lists == a.lists && a'.kind[q].Held?
            && a'.kind[q].l == a.kind[q].l + a.kind[p].l
    ensures q + a'.kind[q].l <= |a.kind| && a'.kind == Fill(a.kind, q, a'.kind[q].l, Held(q, a'.kind[q].l))
    ensures var d' := MergeInto(d, q, p, q);
            Holding(d', a', exact, q) && CanRelease(d', a', exact, q) && ChunksKept(d, d', a'.kind, q)
  {
    hide Represents, Merge, Coalesced, Without;
    HoldingLength(d, a, exact, p);
    var j :| 0 <= j < |a.ring| && a.ring[j] == q;
    AfterLeft(d, a, exact, p, j);
    HoldMerged(d, a, exact, q, p, j);
    a' := Pages(MergedKind(a.kind, q, p), Without(a.ring, j), a.lists);
  }

  /** first->slab += second->slab; unlink x; clear second. */
  function MergeInto(d: Mem, p: nat, q: nat, x: nat): Mem
    requires Page(p) in d && Page(q) in d && CanUnlink(d, Page(x))
  {
    Merge(d, p, q, d[Page(p)].slab + d[Page(q)].slab, x)
  }

  lemma OnList(d: Mem, a: Pages, exact: int, p: nat) returns (j: nat)
    requires Represents(d, a, exact) && p < |a.kind| && a.kind[p].SlotPage? && a.kind[p].listed
    ensures a.kind[p].c < |a.lists| && j < |a.lists[a.kind[p].c]| && a.lists[a.kind[p].c][j] == p
  {
    hide Ring, Coalesced, Tiled, Descs, FreeRing;
    var c := a.kind[p].c;
    assert SlotList(d, a, c);
    assert p in a.lists[c];
    j :| 0 <= j < |a.lists[c]| && a.lists[c][j] == p;
  }

  lemma OnRing(d: Mem, a: Pages, exact: int, p: nat) returns (j: nat)
    requires Represents(d, a, exact) && p < |a.kind| && IsHead(a.kind[p], p)
    ensures j < |a.ring| && a.ring[j] == p
  {
    hide Ring, Coalesced, Tiled, Descs, SlotList;
    assert p in a.ring;
    j :| 0 <= j < |a.ring| && a.ring[j] == p;
  }

  lemma LeftHead(d: Mem, a: Pages, exact: int, p: nat)
    requires Represents(d, a, exact) && 0 < p < |a.kind| && a.kind[p - 1].FreeRun?
    ensures a.kind[p - 1].h < |a.kind| && a.kind[a.kind[p - 1].h] == a.kind[p - 1] && a.kind[p - 1].h < p
  {
    hide Ring, Coalesced, SlotList, FreeRing, Descs;
    assert RunOk(a.kind, p - 1);
  }

  lemma FreedInStages(kind: seq<Kind>, p: nat, k: nat, l: nat, from: nat, total: nat)
    requires p + k <= |kind| && k >= 1
    requires var kind1 := Fill(kind, p, k, Held(p, k));
             && p + l == FreedTo(kind1, p + k) <= |kind|
             && from == FreedFrom(Fill(kind1, p, l, Held(p, l)), p) && from + total == p + l && from <= p
    ensures FreedTo(kind, p + k) == p + l && FreedFrom(kind, p) == from && k <= l
    ensures var kind2 := Fill(Fill(kind, p, k, Held(p, k)), p, l, Held(p, l));
            Fill(Fill(kind2, from, total, Held(from, total)), from, total, FreeRun(from, total)) == FreedKind(kind, p,
               k)
  {
  }

  lemma ChunksChain(d0: Mem, d1: Mem, d2: Mem, kind1: seq<Kind>, kind2: seq<Kind>, p: nat, q: nat)
    requires ChunksKept(d0, d1, kind1, p) && ChunksKept(d1, d2, kind2, q) && |kind1| == |kind2|
    requires forall i :: 0 <= i < |kind2| && kind2[i].SlotPage? ==> kind1[i] == kind2[i]
    requires p < |kind2| && !kind2[p].SlotPage? && (q < |kind2| ==> !kind2[q].SlotPage?)
    ensures ChunksKept(d0, d2, kind2, p)
  {
  }

  lemma ChunksInStages(d0: Mem, d1: Mem, d2: Mem, d3: Mem, d4: Mem, kind: seq<Kind>, p: nat, k: nat, l: nat, from: nat,
                       total: nat)
    requires p + k <= |kind| && k >= 1 && p + l <= |kind| && k <= l && from <= p && from + total == p + l
    requires var kind1 := Fill(kind, p, k, Held(p, k));
             var kind2 := Fill(kind1, p, l, Held(p, l));
             var kind3 := Fill(kind2, from, total, Held(from, total));
             var kind4 := Fill(kind3, from, total, FreeRun(from, total));
             && ChunksKept(d0, d1, kind1, p) && ChunksKept(d1, d2, kind2, p)
             && ChunksKept(d2, d3, kind3, from) && ChunksKept(d3, d4, kind4, from)
    ensures ChunksKept(d0, d4, Fill(Fill(Fill(Fill(kind, p, k, Held(p, k)), p, l, Held(p, l)), from, total,
            Held(from, total)), from, total, FreeRun(from, total)), p)
  {
    hide ChunksKept;
    var kind1 := Fill(kind, p, k, Held(p, k));
    var kind2 := Fill(kind1, p, l, Held(p, l));
    var kind3 := Fill(kind2, from, total, Held(from, total));
    var kind4 := Fill(kind3, from, total, FreeRun(from, total));
    ChunksChain(d0, d1, d2, kind1, kind2, p, p);
    ChunksChain(d0, d2, d3, kind2, kind3, p, from);
    ChunksChain(d0, d3, d4, kind3, kind4, p, from);
  }

  lemma HeldAt(d: Mem, a: Pages, exact: int, p: nat)
    requires Holding(d, a, exact, p)
    ensures p < |a.kind| && a.kind[p].Held? && a.kind[p].h == p && a.kind[p].l >= 1 && p + a.kind[p].l <= |a.kind|
  {
    HoldingLength(d, a, exact, p);
  }

  class Pool {
    const n: nat
    const slots: nat
    const exact: int
    var d: Mem
    ghost var a: Pages

    ghost predicate Valid()
      reads this
    {
      Represents(d, a, exact) && |a.kind| == n && |a.lists| == slots && NoneHeld(a.kind)
    }

    /** ngx_slab_init after the sizes are computed: one free run of all pages, empty slot lists. */
    constructor (pages: nat, slotCount: nat, exactClass: int)
      requires 1 <= pages < PAGE_START
      ensures Valid() && n == pages && slots == slotCount && exact == exactClass
      ensures forall i :: 0 <= i < n ==> a.kind[i] == FreeRun(0, n)
    {
      n, slots, exact := pages, slotCount, exactClass;
      var keys := {FreeHead} + (set c | 0 <= c < slotCount :: Slot(c)) + (set i | 0 <= i < pages :: Page(i));
      d := map r | r in keys ::
        match r
        case FreeHead => Desc(0, To(Page(0)), Null, PageTag)
        case Slot(c) => Desc(0, To(Slot(c)), Null, PageTag)
        case Page(i) => if i == 0 then Desc(pages, To(FreeHead), To(FreeHead), PageTag) else CLEARED;
      a := Pages(seq(pages, i => FreeRun(0, pages)), [0], seq(slotCount, c => []));
      new;
      InitRepresents(d, a, exact);
    }

    method AllocPages(k: nat) returns (r: Option<nat>)
      requires Valid() && k >= 1
      modifies this
      ensures Valid()
      ensures r == None ==> d == old(d) && a == old(a) && FitIndex(a, k, 0) == |a.ring|
      ensures r.Some? ==> var j := FitIndex(old(a), k, 0);
                && j < |old(a).ring| && Fits(old(a), k, j) && r.value == old(a).ring[j]
                && old(a).ring[j] + old(a).kind[old(a).ring[j]].l <= n
                && a == TakenPages(old(a), j, k) && ChunksKept(old(d), d, a.kind, n)
    {
      hide Represents, TakenPages, NoneHeld, ChunksKept, Carve, Taken;
      ghost var j := 0;
      RingHead(d, a, exact);
      RingAt(d, a, exact, 0);
      var page := d[FreeHead].next.r;
      while page != FreeHead
        invariant Valid() && d == old(d) && a == old(a)
        invariant j <= |a.ring| && page == Node(FreeHead, a.ring, j) && FitIndex(a, k, 0) == FitIndex(a, k, j)
        decreases |a.ring| - j
      {
        HeadOf(d, a, exact, j);
        RingAt(d, a, exact, j + 1);
        if d[page].slab >= k {
          FitIndexIs(a, k, j);
          TakeAll(d, a, exact, j, k);
          var h, l := page.i, d[page].slab;
          Take(h, l, k);
          a := TakenPages(a, j, k);
          return Some(h);
        }
        page := d[page].next.r;
        j := j + 1;
      }
      return None;
    }

    /** The writes of a successful allocation from the run at h. */
    method Take(h: nat, l: nat, k: nat)
      requires 1 <= k <= l && CanUnlink(d, Page(h)) && Page(h + l - 1) in d
               && (forall i :: h <= i < h + l ==> Page(i) in d)
      requires forall i :: h < i < h + l ==> d[Page(h)].next.r != Page(i) && d[Page(h)].prev.r != Page(i)
      modifies this`d
      ensures d == Taken(old(d), h, l, k)
    {
      if l > k {
        d := d[Page(h + l - 1) := d[Page(h + l - 1)].(prev := To(Page(h + k)), tag := PageTag)];
        d := d[Page(h + k) := d[Page(h + k)].(slab := l - k)];
        d := Replace(d, Page(h), Page(h + k));
      } else {
        d := Unlink(d, Page(h));
      }
      MarkRun(h, k);
    }

    method MarkRun(h: nat, k: nat)
      requires k >= 1 && forall i :: h <= i < h + k ==> Page(i) in d
      modifies this`d
      ensures d == MarkLive(old(d), h, k)
    {
      d := d[Page(h) := Desc(k + PAGE_START, Null, Null, PageTag)];
      var i := 1;
      while i < k
        invariant 1 <= i <= k && d.Keys == old(d).Keys
        invariant forall r :: r in old(d) ==>
                    d[r] == if r.Page? && h <= r.i < h + i then LiveDesc(r.i, h, k) else old(d)[r]
      {
        d := d[Page(h + i) := Desc(PAGE_BUSY, Null, Null, PageTag)];
        i := i + 1;
      }
    }

    /** page->slab = pages; memset of the descriptors after it. */
    method ClearPages(p: nat, k: nat)
      requires k >= 1 && forall i :: p <= i < p + k ==> Page(i) in d
      modifies this`d
      ensures d == ClearRun(old(d), p, k)
    {
      d := d[Page(p) := d[Page(p)].(slab := k)];
      var i := 1;
      while i < k
        invariant 1 <= i <= k && d.Keys == old(d).Keys
        invariant forall r :: r in old(d) ==>
                    d[r] == if r == Page(p) then old(d)[r].(slab := k) else if r.Page?
                    && p < r.i < p + i then CLEARED else old(d)[r]
      {
        d := d[Page(p + i) := CLEARED];
        i := i + 1;
      }
    }

    /** The first two steps of ngx_slab_free_pages: the run is marked free and leaves its slot list. */
    method Detach(p: nat, k: nat)
      requires Valid() && p < n
      requires Givable(a.kind[p], p, k)
      modifies this
      ensures Holding(d, a, exact, p) && |a.kind| == n && |a.lists| == slots && p + k <= n && k >= 1
      ensures a.kind == Fill(old(a.kind), p, k, Held(p, k)) && ChunksKept(old(d), d, a.kind, p)
    {
      hide Represents, Holding, Coalesced, Without, Unlink;
      ghost var a' := a;
      if a.kind[p].LiveRun? {
        HoldFromLive(d, a, exact, p);
        a' := a.(kind := Fill(a.kind, p, k, Held(p, k)));
      } else if a.kind[p].FreeRun? {
        ghost var j := OnRing(d, a, exact, p);
        HoldFromFree(d, a, exact, p, j);
        a' := Pages(Fill(a.kind, p, k, Held(p, k)), Without(a.ring, j), a.lists);
      } else {
        ghost var c := a.kind[p].c;
        ghost var j := OnList(d, a, exact, p);
        HoldFromSlot(d, a, exact, p, c, j);
        a' := Delisted(a, c, j, Held(p, 1));
      }
      forall i | p <= i < p + k ensures Page(i) in d { PageIn(d, a, exact, i); }
      ClearPages(p, k);
      if d[Page(p)].next.To? {
        d := Unlink(d, Page(p));
      }
      a := a';
      assert a.kind == Fill(old(a.kind), p, k, Held(p, k));
    }

    /** Coalescing with the run after the page. */
    method JoinRight(p: nat, pages: nat) returns (pages': nat)
      requires Holding(d, a, exact, p) && |a.kind| == n && pages == a.kind[p].l - 1
      modifies this
      ensures Holding(d, a, exact, p) && |a.kind| == n && a.lists == old(a.lists) && pages' == a.kind[p].l - 1
      ensures p + a.kind[p].l == FreedTo(old(a.kind), p + old(a.kind[p].l)) <= n && !FreeAt(a.kind, p + a.kind[p].l)
      ensures a.kind == Fill(old(a.kind), p, a.kind[p].l, Held(p, a.kind[p].l)) && ChunksKept(old(d), d, a.kind, p)
    {
      hide Represents, Merge, Coalesced, Without;
      pages' := pages;
      HoldingLength(d, a, exact, p);
      var join := p + d[Page(p)].slab;
      if join < n {
        RightTest(d, a, exact, p);
        if d[Page(join)].tag == PageTag && d[Page(join)].next.To? {
          ghost var j :| 0 <= j < |a.ring| && a.ring[j] == join;
          AfterRight(d, a, exact, p, j);
          HoldMerged(d, a, exact, p, join, j);
          pages' := pages + d[Page(join)].slab;
          d := MergeInto(d, p, join, join);
          a := Pages(MergedKind(a.kind, p, join), Without(a.ring, j), a.lists);
        }
      }
    }

    /** Coalescing with the run before the page, found through its last descriptor. */
    method JoinLeft(p: nat, pages: nat) returns (page: nat, pages': nat)
      requires Holding(d, a, exact, p) && |a.kind| == n && pages == a.kind[p].l - 1 && !FreeAt(a.kind, p + a.kind[p].l)
      modifies this
      ensures CanRelease(d, a, exact, page) && Holding(d, a, exact, page)
      ensures |a.kind| == n && a.lists == old(a.lists) && pages' == a.kind[page].l - 1
      ensures page == FreedFrom(old(a.kind), p) && page + a.kind[page].l == p + old(a.kind[p].l) <= n
      ensures a.kind == Fill(old(a.kind), page, a.kind[page].l, Held(page, a.kind[page].l))
              && ChunksKept(old(d), d, a.kind, page)
    {
      hide Represents, Merge, Coalesced, Without;
      page, pages' := p, pages;
      HoldingLength(d, a, exact, p);
      if p > 0 {
        LeftTest(d, a, exact, p);
        if a.kind[p - 1].FreeRun? { LeftHead(d, a, exact, p); }
        var join := p - 1;
        if d[Page(join)].tag == PageTag {
          if d[Page(join)].slab == PAGE_FREE {
            join := d[Page(join)].prev.r.i;
          }
          if d[Page(join)].next.To? {
            pages' := MergeLeft(p, join, pages);
            page := join;
          }
        }
      }
    }

    /** The held run at p becomes part of the free run at q that ends where it starts. */
    method MergeLeft(p: nat, q: nat, pages: nat) returns (pages': nat)
      requires Holding(d, a, exact, p) && |a.kind| == n && pages == a.kind[p].l - 1 && !FreeAt(a.kind, p + a.kind[p].l)
      requires 0 < p <= n && a.kind[p - 1].FreeRun? && q == a.kind[p - 1].h && q < p && q in a.ring
               && a.kind[q] == a.kind[p - 1] && q + a.kind[q].l == p
      requires Page(q) in d && d[Page(q)].slab == a.kind[q].l
      modifies this
      ensures CanRelease(d, a, exact, q) && Holding(d, a, exact, q)
      ensures |a.kind| == n && a.lists == old(a.lists) && pages' == a.kind[q].l - 1
      ensures q + a.kind[q].l == p + old(a.kind[p].l) <= n
      ensures a.kind == Fill(old(a.kind), q, a.kind[q].l, Held(q, a.kind[q].l)) && ChunksKept(old(d), d, a.kind, q)
    {
      hide Represents, MergeInto, Holding, ChunksKept, CanRelease;
      HeldAt(d, a, exact, p);
      ghost var a' := LeftMerged(d, a, exact, p, q);
      pages' := pages + d[Page(q)].slab;
      d := MergeInto(d, q, p, q);
      a := a';
    }

    /** The run goes to the front of the free ring, its last descriptor pointing back to its first. */
    method Insert(p: nat, pages: nat)
      requires CanRelease(d, a, exact, p) && Holding(d, a, exact, p) && |a.kind| == n && |a.lists| == slots
               && pages == a.kind[p].l - 1
      modifies this
      ensures Valid() && a.lists == old(a.lists) && p + old(a.kind[p].l) <= n
      ensures a.kind == Fill(old(a.kind), p, old(a.kind[p].l), FreeRun(p, old(a.kind[p].l)))
              && ChunksKept(old(d), d, a.kind, p)
    {
      hide Represents, Coalesced;
      ReleaseAll(d, a, exact, p);
      ghost var l := a.kind[p].l;
      if pages > 0 {
        d := d[Page(p + pages) := d[Page(p + pages)].(prev := To(Page(p)), tag := PageTag)];
      }
      d := PushFront(d, FreeHead, Page(p), PageTag);
      a := a.(kind := Fill(a.kind, p, l, FreeRun(p, l)), ring := [p] + a.ring);
    }

    /** ngx_slab_free_pages: the pages become free together with the free runs on both sides. */
    method FreePages(p: nat, k: nat)
      requires Valid() && p < n
      requires Givable(a.kind[p], p, k)
      modifies this
      ensures Valid()
      ensures FreedFrom(old(a.kind), p) <= p && p + k <= FreedTo(old(a.kind), p + k) <= n
      ensures a.kind == FreedKind(old(a.kind), p, k) && ChunksKept(old(d), d, a.kind, p)
    {
      hide Represents, Holding, CanRelease, Fill, FreedTo, FreedFrom, ChunksKept;
      ghost var kind, d0 := a.kind, d;
      Detach(p, k);
      ghost var kind1, d1 := a.kind, d;
      HeldAt(d, a, exact, p);
      var pages := JoinRight(p, k - 1);
      ghost var kind2, d2 := a.kind, d;
      HeldAt(d, a, exact, p);
      var page;
      page, pages := JoinLeft(p, pages);
      ghost var kind3, d3 := a.kind, d;
      HeldAt(d, a, exact, page);
      Insert(page, pages);
      FreedInStages(kind, p, k, kind2[p].l, page, kind3[page].l);
      ChunksInStages(d0, d1, d2, d3, d, kind, p, k, kind2[p].l, page, kind3[page].l);
    }
  }
}

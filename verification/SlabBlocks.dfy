/**
 The allocations a slab pool has handed out, as byte ranges of the data area, and what the
 allocator of c-util/slab.c promises about them.
 */
module SlabBlocks {
  import opened Bits
  import opened Sequences
  import opened SlabLinks
  import opened SlabPages
  import opened SlabPool
  import opened SlabChunks

  /** One allocation: a run of whole pages, or chunk i of a page cut into chunks of 2^shift bytes. */
  datatype Block = Run(p: nat, l: nat) | Chunk(p: nat, shift: nat, i: nat)

  function Offset(b: Block): nat {
    match b
    case Run(p, l) => p * PAGE_SIZE
    case Chunk(p, shift, i) => p * PAGE_SIZE + i * Pow2(shift)
  }

  function Length(b: Block): nat {
    match b
    case Run(p, l) => l * PAGE_SIZE
    case Chunk(p, shift, i) => Pow2(shift)
  }

  predicate Live(d: Mem, maps: Maps, kind: seq<Kind>, minShift: nat, b: Block) {
    && b.p < |kind|
    && match b
       case Run(p, l) => kind[p] == LiveRun(p, l)
       case Chunk(p, shift, i) =>
         && kind[p].SlotPage? && kind[p].c + minShift == shift < PAGE_SHIFT && Page(p) in d
         && Reserved(shift) <= i < Chunks(shift) && Used(d[Page(p)].slab, WordsAt(maps, p), shift, i)
  }

  // ----- every live block is inside the pool, aligned, clear of the maps, and disjoint from the others

  predicate Apart(b: Block, c: Block) {
    Offset(b) + Length(b) <= Offset(c) || Offset(c) + Length(c) <= Offset(b)
  }

  lemma TimesStep(i: nat, j: nat, x: nat)
    requires i < j
    ensures i * x + x <= j * x
  {
    var t: nat := j - i - 1;
    assert j * x == (i + 1 + t) * x == i * x + x + t * x;
  }

  /** A block stays within its own pages. */
  lemma WithinPages(d: Mem, maps: Maps, kind: seq<Kind>, minShift: nat, b: Block)
    requires Live(d, maps, kind, minShift, b) && Tiled(kind) && minShift >= 3
    ensures var l := if b.Run? then b.l else 1;
            && l >= 1 && b.p + l <= |kind|
            && b.p * PAGE_SIZE <= Offset(b) && Offset(b) + Length(b) <= (b.p + l) * PAGE_SIZE
            && Length(b) >= 1
  {
    hide Used, Pow2;
    if b.Run? {
      assert RunOk(kind, b.p);
    } else {
      Layouts(b.shift);
      TimesStep(b.i, Chunks(b.shift), Pow2(b.shift));
    }
  }

  lemma InsidePool(d: Mem, maps: Maps, kind: seq<Kind>, minShift: nat, b: Block)
    requires Live(d, maps, kind, minShift, b) && Tiled(kind) && minShift >= 3
    ensures Offset(b) + Length(b) <= |kind| * PAGE_SIZE
  {
    hide Live;
    WithinPages(d, maps, kind, minShift, b);
  }

  lemma SamePage(d: Mem, maps: Maps, kind: seq<Kind>, minShift: nat, b: Block, c: Block)
    requires Live(d, maps, kind, minShift, b) && Live(d, maps, kind, minShift, c) && b != c && b.p == c.p
    ensures b.Chunk? && c.Chunk? && Apart(b, c)
  {
    hide Used, Pow2;
    assert b.Chunk? && c.Chunk? && b.shift == c.shift && b.i != c.i;
    if b.i < c.i { TimesStep(b.i, c.i, Pow2(b.shift)); } else { TimesStep(c.i, b.i, Pow2(b.shift)); }
  }

  lemma OtherPage(d: Mem, maps: Maps, kind: seq<Kind>, minShift: nat, b: Block, c: Block)
    requires Live(d, maps, kind, minShift, b) && Live(d, maps, kind, minShift, c) && b.p < c.p && Tiled(kind)
    ensures b.p + (if b.Run? then b.l else 1) <= c.p
  {
    hide Used, Pow2, Reserved, Chunks;
    assert RunOk(kind, b.p);
  }

  /** Live allocations never overlap. */
  lemma Disjoint(d: Mem, maps: Maps, kind: seq<Kind>, minShift: nat, b: Block, c: Block)
    requires Live(d, maps, kind, minShift, b) && Live(d, maps, kind, minShift, c) && b != c
    requires Tiled(kind) && minShift >= 3
    ensures Apart(b, c)
  {
    hide Live, Tiled;
    if b.p == c.p {
      SamePage(d, maps, kind, minShift, b, c);
    } else {
      WithinPages(d, maps, kind, minShift, b);
      WithinPages(d, maps, kind, minShift, c);
      if b.p < c.p { OtherPage(d, maps, kind, minShift, b, c); } else { OtherPage(d, maps, kind, minShift, c, b); }
    }
  }

  /** An address belongs to one live allocation at most. */
  lemma OneBlockAt(d: Mem, maps: Maps, kind: seq<Kind>, minShift: nat, b: Block, c: Block)
    requires Live(d, maps, kind, minShift, b) && Live(d, maps, kind, minShift, c) && Offset(b) == Offset(c)
    requires Tiled(kind) && minShift >= 3
    ensures b == c
  {
    hide Live, Tiled;
    WithinPages(d, maps, kind, minShift, b);
    WithinPages(d, maps, kind, minShift, c);
    if b != c { Disjoint(d, maps, kind, minShift, b, c); }
  }

  function Times(m: nat, k: nat): nat { m * k }

  ghost predicate MultipleOf(x: nat, k: nat) { exists m: nat :: Times(m, k) == x }

  lemma ChunkMultiple(p: nat, chunks: nat, size: nat, i: nat)
    requires chunks * size == PAGE_SIZE
    ensures MultipleOf(p * PAGE_SIZE + i * size, size)
  {
    assert p * (chunks * size) == (p * chunks) * size;
    assert Times(p * chunks + i, size) == p * PAGE_SIZE + i * size;
  }

  /** A chunk is aligned to its size, a run to the page size. */
  lemma Aligned(d: Mem, maps: Maps, kind: seq<Kind>, minShift: nat, b: Block)
    requires Live(d, maps, kind, minShift, b) && minShift >= 3
    ensures MultipleOf(Offset(b), if b.Run? then PAGE_SIZE else Length(b))
  {
    hide Used, Pow2, Reserved;
    if b.Chunk? {
      Layouts(b.shift);
      ChunkMultiple(b.p, Chunks(b.shift), Pow2(b.shift), b.i);
    } else {
      assert Times(b.p, PAGE_SIZE) == Offset(b);
    }
  }

  /** No small chunk overlaps the map at the start of its page. */
  lemma ClearOfMap(d: Mem, maps: Maps, kind: seq<Kind>, minShift: nat, b: Block)
    requires Live(d, maps, kind, minShift, b) && minShift >= 3 && b.Chunk? && b.shift < EXACT_SHIFT
    ensures b.p * PAGE_SIZE + 8 * Words(b.shift) <= Offset(b)
  {
    hide Used, Pow2, Words, Reserved;
    MapFits(b.shift);
    var size := Pow2(b.shift);
    assert Reserved(b.shift) * size <= b.i * size;
  }

  // ----- page runs

  /** A request for k pages can be met exactly when k consecutive free pages exist anywhere. */
  predicate Consecutive(kind: seq<Kind>, h: nat, k: nat) {
    h + k <= |kind| && forall i :: h <= i < h + k ==> kind[i].FreeRun?
  }

  /** Consecutive free pages are of one run, since no two free runs touch. */
  lemma {:induction false} OneRun(kind: seq<Kind>, h: nat, k: nat)
    requires Tiled(kind) && Coalesced(kind) && Consecutive(kind, h, k) && k >= 1
    ensures forall i :: h <= i < h + k ==> kind[i] == kind[h]
    decreases k
  {
    if k > 1 {
      OneRun(kind, h, k - 1);
      var e := h + k - 1;
      assert kind[e - 1] == kind[h];
      assert RunOk(kind, e - 1) && RunOk(kind, e);
      assert !FreeAt(kind, kind[e - 1].h + kind[e - 1].l);
      assert kind[e].FreeRun?;
      assert e < kind[e - 1].h + kind[e - 1].l;
    }
  }

  lemma FitsWhenConsecutive(d: Mem, a: Pages, exact: int, h: nat, k: nat)
    requires Represents(d, a, exact) && k >= 1 && Consecutive(a.kind, h, k)
    ensures FitIndex(a, k, 0) < |a.ring|
  {
    hide Ring, Descs, SlotList;
    OneRun(a.kind, h, k);
    var run := a.kind[h];
    assert RunOk(a.kind, h);
    assert a.kind[h + k - 1] == run && RunOk(a.kind, h + k - 1);
    assert IsHead(a.kind[run.h], run.h);
    assert run.h in a.ring;
    var j :| 0 <= j < |a.ring| && a.ring[j] == run.h;
    FitIndexIs(a, k, 0);
    assert Fits(a, k, j);
  }

  lemma AllocatesExactlyWhen(d: Mem, a: Pages, exact: int, k: nat)
    requires Represents(d, a, exact) && k >= 1
    ensures FitIndex(a, k, 0) < |a.ring| <==> exists h: nat :: Consecutive(a.kind, h, k)
  {
    hide Ring, Descs, SlotList, FreeRing, Coalesced;
    var j := FitIndex(a, k, 0);
    FitIndexIs(a, k, 0);
    if j < |a.ring| {
      assert RunOk(a.kind, a.ring[j]);
      HeadOf(d, a, exact, j);
      assert Consecutive(a.kind, a.ring[j], k);
    }
    if h: nat :| Consecutive(a.kind, h, k) { FitsWhenConsecutive(d, a, exact, h, k); }
  }

  lemma DistinctAt(list: seq<nat>, i: nat, j: nat)
    requires Distinct(list) && i < j < |list|
    ensures list[i] != list[j]
  {
  }

  lemma Singleton(list: seq<nat>)
    requires Distinct(list) && forall p: nat :: p in list <==> p == 0
    ensures list == [0]
  {
    assert 0 in list;
    forall i | 0 <= i < |list| ensures list[i] == 0 { assert list[i] in list; }
    if |list| > 1 { DistinctAt(list, 0, 1); }
  }

  /** When every page is free they are one run, alone on the ring. */
  lemma OneRunWhenAllFree(d: Mem, a: Pages, exact: int)
    requires Represents(d, a, exact) && |a.kind| >= 1 && Consecutive(a.kind, 0, |a.kind|)
    ensures forall i :: 0 <= i < |a.kind| ==> a.kind[i] == FreeRun(0, |a.kind|)
    ensures a.ring == [0] && d[Page(0)].slab == |a.kind|
  {
    hide Descs, SlotList, LinkOk;
    OneRun(a.kind, 0, |a.kind|);
    assert RunOk(a.kind, 0) && RunOk(a.kind, |a.kind| - 1);
    assert a.kind[0] == FreeRun(0, |a.kind|);
    Singleton(a.ring);
    HeadOf(d, a, exact, 0);
  }

  /** Every page that is not free carries a live allocation. */
  lemma BlockOn(d: Mem, maps: Maps, kind: seq<Kind>, minShift: nat, i: nat) returns (b: Block)
    requires Tiled(kind) && NoneHeld(kind) && ChunkPages(d, maps, kind, minShift) && i < |kind| && !kind[i].FreeRun?
    ensures Live(d, maps, kind, minShift, b)
  {
    hide LayoutOk, HasRoom, Used;
    assert RunOk(kind, i);
    if kind[i].LiveRun? {
      assert kind[kind[i].h] == kind[i];
      b := Run(kind[i].h, kind[i].l);
    } else {
      var shift := kind[i].c + minShift;
      assert InUse(d[Page(i)].slab, WordsAt(maps, i), shift);
      var c :| Reserved(shift) <= c < Chunks(shift) && Used(d[Page(i)].slab, WordsAt(maps, i), shift, c);
      b := Chunk(i, shift, c);
    }
  }

  /** With no live allocation left, the whole pool is one free run again. */
  lemma NothingLiveIsOneRun(d: Mem, a: Pages, exact: int, maps: Maps, minShift: nat)
    requires Represents(d, a, exact) && NoneHeld(a.kind) && |a.kind| >= 1 && ChunkPages(d, maps, a.kind, minShift)
    requires forall b :: !Live(d, maps, a.kind, minShift, b)
    ensures forall i :: 0 <= i < |a.kind| ==> a.kind[i] == FreeRun(0, |a.kind|)
    ensures a.ring == [0] && Page(0) in d && d[Page(0)].slab == |a.kind|
  {
    hide Ring, Descs, SlotList, FreeRing, Coalesced, ChunkPages, Live;
    forall i | 0 <= i < |a.kind| ensures a.kind[i].FreeRun? {
      if !a.kind[i].FreeRun? { var b := BlockOn(d, maps, a.kind, minShift, i); }
    }
    OneRunWhenAllFree(d, a, exact);
  }

  /** Every page on a slot list has a free chunk: the scan never needs a second page. */
  lemma FirstPageHasRoom(d: Mem, a: Pages, exact: int, maps: Maps, minShift: nat, c: nat, j: nat)
    requires Represents(d, a, exact) && ChunkPages(d, maps, a.kind, minShift) && c < |a.lists| && j < |a.lists[c]|
    ensures var p := a.lists[c][j];
            && p < |a.kind| && a.kind[p] == SlotPage(c, true) && c + minShift < PAGE_SHIFT && Page(p) in d
            && HasRoom(d[Page(p)].slab, WordsAt(maps, p), c + minShift)
  {
    hide Ring, Descs, FreeRing, Coalesced, Tiled, LayoutOk, HasRoom, Used, Reserved;
    assert SlotList(d, a, c);
    assert a.lists[c][j] in a.lists[c];
  }

  // ----- how the set of live blocks changes when the pages in [from, to) do

  ghost predicate Elsewhere(d: Mem, maps: Maps, kind: seq<Kind>, d': Mem, maps': Maps, kind': seq<Kind>, from: nat,
                            to: nat) {
    && |kind'| == |kind|
    && forall q :: 0 <= q < |kind| && !(from <= q < to) ==>
         && kind'[q] == kind[q]
         && (kind[q].SlotPage? ==>
           Page(q) in d && Page(q) in d' && d'[Page(q)].slab == d[Page(q)].slab
           && WordsAt(maps', q) == WordsAt(maps, q))
  }

  lemma LiveElsewhere(d: Mem, maps: Maps, kind: seq<Kind>, d': Mem, maps': Maps, kind': seq<Kind>, from: nat, to: nat,
                      minShift: nat, b: Block)
    requires Elsewhere(d, maps, kind, d', maps', kind', from, to) && !(from <= b.p < to)
    ensures Live(d, maps, kind, minShift, b) <==> Live(d', maps', kind', minShift, b)
  {
    hide Used, Reserved, Chunks, WordsAt;
  }

  lemma ChunkPagesElsewhere(d: Mem, maps: Maps, kind: seq<Kind>, d': Mem, maps': Maps, kind': seq<Kind>, from: nat,
                            to: nat, minShift: nat)
    requires Elsewhere(d, maps, kind, d', maps', kind', from, to) && ChunkPages(d, maps, kind, minShift)
    requires forall q :: from <= q < to && q < |kind| ==> !kind'[q].SlotPage?
    ensures ChunkPages(d', maps', kind', minShift)
  {
    hide ChunkPage, WordsAt;
  }

  /** The same when the only page that changes is, or becomes, a chunk page. */
  lemma ChunkPagesBut(d: Mem, maps: Maps, kind: seq<Kind>, d': Mem, maps': Maps, kind': seq<Kind>, p: nat,
                      minShift: nat)
    requires Elsewhere(d, maps, kind, d', maps', kind', p, p + 1) && ChunkPages(d, maps, kind, minShift)
    requires p < |kind| && kind'[p].SlotPage? && kind'[p].c + minShift < PAGE_SHIFT && Page(p) in d'
    requires ChunkPage(d'[Page(p)].slab, WordsAt(maps', p), kind'[p].c + minShift, kind'[p].listed)
    ensures ChunkPages(d', maps', kind', minShift)
  {
    hide ChunkPage, WordsAt;
  }

  // ----- allocation of a run of pages

  lemma TakenKinds(a: Pages, j: nat, k: nat)
    requires Tiled(a.kind) && j < |a.ring| && Fits(a, k, j) && k >= 1 && a.kind[a.ring[j]].h == a.ring[j]
             && a.ring[j] + a.kind[a.ring[j]].l <= |a.kind|
    ensures var h, l, kind' := a.ring[j], a.kind[a.ring[j]].l, TakenPages(a, j, k).kind;
            && |kind'| == |a.kind| && kind'[h] == LiveRun(h, k)
            && (forall q :: 0 <= q < |a.kind| && !(h <= q < h + l) ==> kind'[q] == a.kind[q])
            && (forall q :: h <= q < h + l ==> a.kind[q].FreeRun? && (kind'[q].FreeRun? || kind'[q] == LiveRun(h, k)))
  {
    assert RunOk(a.kind, a.ring[j]);
  }

  lemma TakenLive(d: Mem, a: Pages, exact: int, maps: Maps, minShift: nat, d': Mem, j: nat, k: nat)
    requires Represents(d, a, exact) && ChunkPages(d, maps, a.kind, minShift)
    requires j < |a.ring| && Fits(a, k, j) && k >= 1 && a.ring[j] + a.kind[a.ring[j]].l <= |a.kind|
    requires var kind' := TakenPages(a, j, k).kind; ChunksKept(d, d', kind', |a.kind|)
    ensures var kind' := TakenPages(a, j, k).kind;
            && ChunkPages(d', maps, kind', minShift)
            && forall b :: Live(d', maps, kind', minShift, b) <==>
              Live(d, maps, a.kind, minShift, b) || b == Run(a.ring[j], k)
    ensures !Live(d, maps, a.kind, minShift, Run(a.ring[j], k))
  {
    hide TakenPages, Ring, Coalesced, SlotList, FreeRing, Descs, Used, Reserved, Chunks, ChunkPages, WordsAt;
    HeadOf(d, a, exact, j);
    TakenKinds(a, j, k);
    var h, l, kind' := a.ring[j], a.kind[a.ring[j]].l, TakenPages(a, j, k).kind;
    assert Elsewhere(d, maps, a.kind, d', maps, kind', h, h + l);
    ChunkPagesElsewhere(d, maps, a.kind, d', maps, kind', h, h + l, minShift);
    forall b ensures Live(d', maps, kind', minShift, b) <==> Live(d, maps, a.kind, minShift, b) || b == Run(h, k) {
      if !(h <= b.p < h + l) { LiveElsewhere(d, maps, a.kind, d', maps, kind', h, h + l, minShift, b); }
    }
  }

  // ----- giving back a run, or the last chunk of a page

  lemma FreedKinds(kind: seq<Kind>, p: nat, k: nat)
    requires Tiled(kind) && p < |kind| && p + k <= |kind| && k >= 1 && FreedFrom(kind, p) <= p
             && p + k <= FreedTo(kind, p + k) <= |kind|
    requires forall q :: p <= q < p + k ==> !kind[q].FreeRun?
    ensures var from, to, kind' := FreedFrom(kind, p), FreedTo(kind, p + k), FreedKind(kind, p, k);
            && |kind'| == |kind|
            && (forall q :: 0 <= q < |kind| && !(from <= q < to) ==> kind'[q] == kind[q])
            && (forall q :: from <= q < to ==> kind'[q].FreeRun? && (p <= q < p + k || kind[q].FreeRun?))
  {
    if p > 0 { assert RunOk(kind, p - 1); }
    if FreeAt(kind, p + k) {
      assert RunOk(kind, p + k);
      assert !kind[p + k - 1].FreeRun?;
      assert kind[p + k].h == p + k;
    }
  }

  /** After the pages of block b went back, b and only b is gone. */
  lemma FreedLive(d: Mem, a: Pages, exact: int, maps: Maps, minShift: nat, d': Mem, p: nat, k: nat, b: Block)
    requires Represents(d, a, exact) && ChunkPages(d, maps, a.kind, minShift) && Live(d, maps, a.kind, minShift, b)
             && b.p == p
    requires p < |a.kind| && p + k <= |a.kind| && k >= 1 && FreedFrom(a.kind, p) <= p
             && p + k <= FreedTo(a.kind, p + k) <= |a.kind|
    requires b == Run(p, k) || (k == 1 && b.Chunk? && forall x :: Live(d, maps, a.kind, minShift, x) && x.p == p ==>
               x == b)
    requires var kind' := FreedKind(a.kind, p, k); ChunksKept(d, d', kind', p)
    ensures var kind' := FreedKind(a.kind, p, k);
            && ChunkPages(d', maps, kind', minShift)
            && forall x :: Live(d', maps, kind', minShift, x) <==> Live(d, maps, a.kind, minShift, x) && x != b
  {
    hide FreedKind, FreedFrom, FreedTo, Ring, Coalesced, SlotList, FreeRing, Descs, Used, Reserved, Chunks, ChunkPages,
         WordsAt;
    assert RunOk(a.kind, p);
    FreedKinds(a.kind, p, k);
    var from, to, kind' := FreedFrom(a.kind, p), FreedTo(a.kind, p + k), FreedKind(a.kind, p, k);
    assert Elsewhere(d, maps, a.kind, d', maps, kind', from, to);
    ChunkPagesElsewhere(d, maps, a.kind, d', maps, kind', from, to, minShift);
    forall x ensures Live(d', maps, kind', minShift, x) <==> Live(d, maps, a.kind, minShift, x) && x != b {
      if !(from <= x.p < to) { LiveElsewhere(d, maps, a.kind, d', maps, kind', from, to, minShift, x); }
    }
  }

  // ----- marking one chunk of page p

  lemma MarkedLive(d: Mem, maps: Maps, kind: seq<Kind>, d': Mem, maps': Maps, kind': seq<Kind>, minShift: nat, p: nat,
                   i: nat, used: bool)
    requires Elsewhere(d, maps, kind, d', maps', kind', p, p + 1) && p < |kind| && Page(p) in d && Page(p) in d'
    requires kind[p].SlotPage? && kind'[p].SlotPage? && kind'[p].c == kind[p].c
    requires var shift := kind[p].c + minShift;
             && 3 <= shift < PAGE_SHIFT && Reserved(shift) <= i < Chunks(shift)
             && (shift < EXACT_SHIFT ==> i / WORD_BITS < |WordsAt(maps, p)|)
             && d'[Page(p)].slab == MarkSlab(d[Page(p)].slab, shift, i, used)
             && WordsAt(maps', p) == MarkWords(WordsAt(maps, p), shift, i, used)
    ensures var b := Chunk(p, kind[p].c + minShift, i);
            forall x :: Live(d', maps', kind', minShift, x) <==>
                if x == b then used else Live(d, maps, kind, minShift, x)
  {
    hide Used, MarkSlab, MarkWords, WordsAt, Reserved, Chunks;
    var shift := kind[p].c + minShift;
    forall x ensures Live(d', maps', kind', minShift, x) <==>
        if x == Chunk(p, shift, i) then used else Live(d, maps, kind, minShift, x) {
      if x.p != p {
        LiveElsewhere(d, maps, kind, d', maps', kind', p, p + 1, minShift, x);
      } else if x.Chunk? {
        MarkUsed(d[Page(p)].slab, WordsAt(maps, p), shift, i, used, x.i);
      }
    }
  }

  /** A page just cut holds the one chunk that is handed out. */
  lemma CutLive(d: Mem, maps: Maps, kind: seq<Kind>, d': Mem, maps': Maps, kind': seq<Kind>, minShift: nat, p: nat,
                c: nat)
    requires p < |kind| && kind[p] == LiveRun(p, 1) && kind' == kind[p := SlotPage(c, true)] && Page(p) in d'
    requires Elsewhere(d, maps, kind, d', maps', kind', p, p + 1) && 3 <= c + minShift < PAGE_SHIFT
    requires d'[Page(p)].slab == FreshSlab(c + minShift)
    requires if c + minShift < EXACT_SHIFT then WordsAt(maps', p) == FreshWords(c + minShift) else true
    ensures var b := Chunk(p, c + minShift, Reserved(c + minShift));
            forall x ::
              Live(d', maps', kind', minShift, x) <==> x == b || (Live(d, maps, kind, minShift, x) && x != Run(p, 1))
    ensures ChunkPage(d'[Page(p)].slab, WordsAt(maps', p), c + minShift, true)
  {
    hide Used, FreshSlab, FreshWords, WordsAt, Reserved, Chunks, LayoutOk;
    var shift := c + minShift;
    FreshPage(shift);
    FreshAnyWords(shift, WordsAt(maps', p));
    forall x
      ensures Live(d', maps', kind', minShift, x) <==>
                x == Chunk(p, shift, Reserved(shift)) || (Live(d, maps, kind, minShift, x) && x != Run(p, 1))
    {
      if x.p != p {
        LiveElsewhere(d, maps, kind, d', maps', kind', p, p + 1, minShift, x);
      } else if x.Chunk? && x.i < Chunks(shift) {
        FreshUsed(shift, x.i);
      }
    }
  }

  /** Only small pages look at the map in the page. */
  lemma FreshAnyWords(shift: nat, words: seq<nat>)
    requires 3 <= shift < PAGE_SHIFT && (shift < EXACT_SHIFT ==> words == FreshWords(shift))
    ensures forall i :: Used(FreshSlab(shift), words, shift, i) <==> Used(FreshSlab(shift), FreshWords(shift), shift, i)
    ensures ChunkPage(FreshSlab(shift), FreshWords(shift), shift, true) ==>
              ChunkPage(FreshSlab(shift), words, shift, true)
  {
    hide FreshSlab, FreshWords, Reserved, Chunks, Bit;
  }
}

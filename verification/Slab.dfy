/**
 ngx_slab_alloc and ngx_slab_free of c-util/slab.c over the page allocator. The data area is
 addressed by byte offsets from its start, which is page aligned.
 */
module Slab {
  import opened Bits
  import opened Options
  import opened SlabLinks
  import opened SlabPages
  import opened SlabPool
  import opened SlabChunks
  import opened SlabBlocks

  // ----- the decision of ngx_slab_free

  datatype Verdict = Freed | OutsideOfPool | WrongChunk | ChunkIsFree | PageIsFree | WrongPage

  /** slab & NGX_SLAB_SHIFT_MASK, or the exact shift for pages that have no room to record it. */
  function ShiftOf(x: Desc): nat { if x.tag == ExactTag then EXACT_SHIFT else x.slab % 16 }

  /** ((uintptr_t) p & (ngx_pagesize - 1)) >> shift */
  function ChunkIndex(off: nat, shift: nat): nat { Quotient(off % PAGE_SIZE, Pow2(shift)) }

  function Judge(x: Desc, words: seq<nat>, off: nat): Verdict {
    if x.tag == PageTag then
      if off % PAGE_SIZE != 0 then WrongChunk
      else if x.slab == PAGE_FREE then PageIsFree
      else if x.slab == PAGE_BUSY then WrongPage
      else Freed
    else
      if off % Pow2(ShiftOf(x)) != 0 then WrongChunk
      else if Used(x.slab, words, ShiftOf(x), ChunkIndex(off, ShiftOf(x))) then Freed
      else ChunkIsFree
  }

  /** slab & ~NGX_SLAB_PAGE_START */
  function RunLength(slab: nat): nat { if slab >= PAGE_START then slab - PAGE_START else slab }

  /** The block an accepted offset stands for. */
  function BlockAt(x: Desc, off: nat): Block {
    if x.tag == PageTag then Run(off / PAGE_SIZE, RunLength(x.slab))
    else Chunk(off / PAGE_SIZE, ShiftOf(x), ChunkIndex(off, ShiftOf(x)))
  }

  /** The start of a free page run. */
  predicate FreeHeadAt(kind: seq<Kind>, off: nat) {
    var p := off / PAGE_SIZE;
    p < |kind| && kind[p].FreeRun? && kind[p].h == p && off % PAGE_SIZE == 0
  }

  /** A chunk that holds part of a small page's own map. */
  predicate MapChunkAt(kind: seq<Kind>, minShift: nat, off: nat) {
    var p := off / PAGE_SIZE;
    && p < |kind| && kind[p].SlotPage?
    && var shift := kind[p].c + minShift;
       shift < EXACT_SHIFT && off % Pow2(shift) == 0 && ChunkIndex(off, shift) < Reserved(shift)
  }

  /** Offsets the program accepts although nothing is allocated there. */
  predicate Unguarded(kind: seq<Kind>, minShift: nat, off: nat) {
    FreeHeadAt(kind, off) || MapChunkAt(kind, minShift, off)
  }

  /** A multiple of the chunk size within page p is a multiple of it from the page's start. */
  lemma WithinPage(off: nat, size: nat, chunks: nat) returns (i: int)
    requires size > 0 && off % size == 0 && chunks * size == PAGE_SIZE
    ensures 0 <= i < chunks && off % PAGE_SIZE == i * size
  {
    var p, m := off / PAGE_SIZE, off / size;
    assert off == m * size;
    assert p * PAGE_SIZE == (p * chunks) * size by { assert p * (chunks * size) == (p * chunks) * size; }
    i := m - p * chunks;
    assert off % PAGE_SIZE == i * size;
    if i < 0 { Grows(-i, size); }
    if i >= chunks { Grows(i - chunks + 1, size); }
  }

  /** An offset that passes the alignment test is the offset of the chunk computed from it. */
  lemma ChunkFromOffset(off: nat, shift: nat)
    requires 3 <= shift < PAGE_SHIFT && off % Pow2(shift) == 0
    ensures ChunkIndex(off, shift) < Chunks(shift)
            && Offset(Chunk(off / PAGE_SIZE, shift, ChunkIndex(off, shift))) == off
  {
    hide Pow2, Chunks, Reserved, Words;
    Layouts(shift);
    var i := WithinPage(off, Pow2(shift), Chunks(shift));
    Multiple(i, Pow2(shift));
  }

  lemma OffsetOfChunk(p: nat, shift: nat, i: nat)
    requires 3 <= shift < PAGE_SHIFT && i < Chunks(shift)
    ensures var off := Offset(Chunk(p, shift, i));
            off % Pow2(shift) == 0 && off / PAGE_SIZE == p && ChunkIndex(off, shift) == i
  {
    hide Pow2, Chunks, Reserved, Words;
    Layouts(shift);
    OffsetParts(p, Pow2(shift), Chunks(shift), i);
    Multiple(i, Pow2(shift));
  }

  lemma OffsetParts(p: nat, size: nat, chunks: nat, i: nat)
    requires size > 0 && chunks * size == PAGE_SIZE && i < chunks
    ensures var off := p * PAGE_SIZE + i * size; off % size == 0 && off / PAGE_SIZE == p && off % PAGE_SIZE == i * size
  {
    TimesStep(i, chunks, size);
    assert p * (chunks * size) == (p * chunks) * size;
    assert p * PAGE_SIZE + i * size == (p * chunks + i) * size;
    Multiple(p * chunks + i, size);
  }

  lemma ShiftIs(x: Desc, words: seq<nat>, c: nat, minShift: nat, exact: int, n: nat, i: nat, listed: bool)
    requires DescOk(x, SlotPage(c, listed), i, n, exact) && exact == EXACT_SHIFT - minShift
    requires 3 <= c + minShift < PAGE_SHIFT && LayoutOk(x.slab, words, c + minShift)
    ensures x.tag != PageTag && ShiftOf(x) == c + minShift
  {
    hide Pow2, Used, Chunks, WordsOk;
    LowBits(x.slab);
  }

  /** The last four bits of a word are those of its lower half. */
  lemma LowBits(w: nat)
    ensures w % MAP_UNIT < 16 ==> w % 16 == w % MAP_UNIT
    ensures w < 16 ==> w % 16 == w
  {
    var q, r := w / MAP_UNIT, w % MAP_UNIT;
    assert w == r + 16 * (0x1000_0000 * q);
    if r < 16 { RemainderUnique(w, 16, 0x1000_0000 * q, r); }
  }

  /** What Valid says of one descriptor, for the chunk layer. */
  lemma PageFacts(d: Mem, a: Pages, maps: Maps, minShift: nat, p: nat)
    requires Represents(d, a, EXACT_SHIFT - minShift) && ChunkPages(d, maps, a.kind, minShift) && p < |a.kind|
    ensures Page(p) in d && DescOk(d[Page(p)], a.kind[p], p, |a.kind|, EXACT_SHIFT - minShift) && RunOk(a.kind, p)
    ensures a.kind[p].SlotPage? ==>
              var shift := a.kind[p].c + minShift;
              shift < PAGE_SHIFT && a.kind[p].c < |a.lists|
              && ChunkPage(d[Page(p)].slab, WordsAt(maps, p), shift, a.kind[p].listed)
  {
    hide Ring, Coalesced, SlotList, FreeRing, ChunkPage;
  }

  lemma JudgePage(d: Mem, a: Pages, maps: Maps, minShift: nat, off: nat)
    requires Represents(d, a, EXACT_SHIFT - minShift) && ChunkPages(d, maps, a.kind, minShift) && NoneHeld(a.kind)
    requires |a.kind| * PAGE_SIZE < WORD_LIMIT && 3 <= minShift
    requires off / PAGE_SIZE < |a.kind| && !a.kind[off / PAGE_SIZE].SlotPage?
    ensures var p := off / PAGE_SIZE;
            && Page(p) in d
            && (Judge(d[Page(p)], WordsAt(maps, p), off) == Freed <==>
                (Offset(BlockAt(d[Page(p)], off)) == off && Live(d, maps, a.kind, minShift, BlockAt(d[Page(p)], off)))
                || Unguarded(a.kind, minShift, off))
  {
    hide Represents, ChunkPages, Pow2, ChunkPage, Used;
    PageFacts(d, a, maps, minShift, off / PAGE_SIZE);
  }

  lemma JudgeChunk(d: Mem, a: Pages, maps: Maps, minShift: nat, off: nat)
    requires Represents(d, a, EXACT_SHIFT - minShift) && ChunkPages(d, maps, a.kind, minShift) && 3 <= minShift
    requires off / PAGE_SIZE < |a.kind| && a.kind[off / PAGE_SIZE].SlotPage?
    ensures var p := off / PAGE_SIZE;
            && Page(p) in d
            && (Judge(d[Page(p)], WordsAt(maps, p), off) == Freed <==>
                (Offset(BlockAt(d[Page(p)], off)) == off && Live(d, maps, a.kind, minShift, BlockAt(d[Page(p)], off)))
                || Unguarded(a.kind, minShift, off))
  {
    hide Represents, ChunkPages, Pow2, LayoutOk, Used, HasRoom, InUse, Chunks, Offset;
    var p := off / PAGE_SIZE;
    PageFacts(d, a, maps, minShift, p);
    var shift, x := a.kind[p].c + minShift, d[Page(p)];
    ShiftIs(x, WordsAt(maps, p), a.kind[p].c, minShift, EXACT_SHIFT - minShift, |a.kind|, p, a.kind[p].listed);
    if off % Pow2(shift) == 0 { ChunkFromOffset(off, shift); }
    var i := ChunkIndex(off, shift);
    if Offset(Chunk(p, shift, i)) == off && i < Chunks(shift) { OffsetOfChunk(p, shift, i); }
  }

  /** ngx_slab_free accepts an offset exactly when an allocation starts there or it is one of the
      two kinds of offset it does not guard against. */
  lemma AcceptsExactlyWhen(d: Mem, a: Pages, maps: Maps, minShift: nat, off: nat)
    requires Represents(d, a, EXACT_SHIFT - minShift) && ChunkPages(d, maps, a.kind, minShift) && NoneHeld(a.kind)
    requires |a.kind| * PAGE_SIZE < WORD_LIMIT && 3 <= minShift
    requires off < |a.kind| * PAGE_SIZE
    ensures var p := off / PAGE_SIZE;
            && p < |a.kind| && Page(p) in d
            && (Judge(d[Page(p)], WordsAt(maps, p), off) == Freed <==>
                (exists b :: Offset(b) == off && Live(d, maps, a.kind, minShift, b))
                || Unguarded(a.kind, minShift, off))
            && (forall b :: Offset(b) == off && Live(d, maps, a.kind, minShift, b) ==> b == BlockAt(d[Page(p)], off))
  {
    hide Represents, ChunkPages, Judge, Live, Unguarded, Offset, BlockAt;
    var p := off / PAGE_SIZE;
    if a.kind[p].SlotPage? { JudgeChunk(d, a, maps, minShift, off); } else { JudgePage(d, a, maps, minShift, off); }
    forall b | Offset(b) == off && Live(d, maps, a.kind, minShift, b) ensures b == BlockAt(d[Page(p)], off) {
      LiveIsBlockAt(d, a, maps, minShift, b);
    }
  }

  lemma LiveIsBlockAt(d: Mem, a: Pages, maps: Maps, minShift: nat, b: Block)
    requires Represents(d, a, EXACT_SHIFT - minShift) && ChunkPages(d, maps, a.kind, minShift) && 3 <= minShift
    requires Live(d, maps, a.kind, minShift, b)
    ensures Offset(b) / PAGE_SIZE == b.p && Page(b.p) in d && b == BlockAt(d[Page(b.p)], Offset(b))
  {
    hide Represents, ChunkPages, Pow2, LayoutOk, Used, HasRoom, InUse, Chunks, Reserved;
    PageFacts(d, a, maps, minShift, b.p);
    if b.Chunk? {
      ShiftIs(d[Page(b.p)], WordsAt(maps, b.p), a.kind[b.p].c, minShift, EXACT_SHIFT - minShift, |a.kind|, b.p,
        a.kind[b.p].listed);
      OffsetOfChunk(b.p, b.shift, b.i);
    }
  }

  // ----- the scans of the chunk maps

  /** The first clear bit of a word. */
  method FirstClear(w: nat, k: nat) returns (i: nat)
    requires exists j :: 0 <= j < k && !Bit(w, j)
    ensures i < k && !Bit(w, i) && forall j :: 0 <= j < i ==> Bit(w, j)
  {
    hide Bit;
    ghost var e :| 0 <= e < k && !Bit(w, e);
    i := 0;
    while Bit(w, i)
      invariant i <= e && forall j :: 0 <= j < i ==> Bit(w, j)
      decreases e - i
    {
      i := i + 1;
    }
  }

  predicate FirstFree(slab: nat, words: seq<nat>, shift: nat, i: nat) {
    !Used(slab, words, shift, i) && forall j :: 0 <= j < i ==> Used(slab, words, shift, j)
  }

  /** The first chunk of a page that is not in use. */
  method FindChunk(slab: nat, words: seq<nat>, shift: nat) returns (i: nat)
    requires 3 <= shift < PAGE_SHIFT && LayoutOk(slab, words, shift) && HasRoom(slab, words, shift)
    ensures i < Chunks(shift) && FirstFree(slab, words, shift, i)
    ensures shift < EXACT_SHIFT ==> i / WORD_BITS < |words| && forall n :: 0 <= n < i / WORD_BITS ==>
              words[n] == WORD_LIMIT - 1
  {
    hide Bit, Pow2;
    Layouts(shift);
    FullIsNoRoom(slab, words, shift);
    if shift < EXACT_SHIFT {
      var n := 0;
      while words[n] == WORD_LIMIT - 1
        invariant n < |words| && forall j :: 0 <= j < n ==> words[j] == WORD_LIMIT - 1
        decreases |words| - n
      {
        n := n + 1;
      }
      WordHasRoom(words[n]);
      i := FirstClear(words[n], WORD_BITS);
      forall j | 0 <= j < n * WORD_BITS + i ensures Used(slab, words, shift, j)
      { BusyBit(words[j / WORD_BITS], j % WORD_BITS); }
      i := n * WORD_BITS + i;
    } else {
      ghost var w := if shift == EXACT_SHIFT then slab else slab / MAP_UNIT;
      ghost var e :| 0 <= e < Chunks(shift) && !Used(slab, words, shift, e);
      assert !Bit(w, e);
      i := FirstClear(if shift == EXACT_SHIFT then slab else slab / MAP_UNIT, Chunks(shift));
    }
  }

  lemma WordHasRoom(w: nat)
    requires w < WORD_LIMIT && w != WORD_LIMIT - 1
    ensures exists j :: 0 <= j < WORD_BITS && !Bit(w, j)
  {
    hide Bit, Pow2;
    WordLimitIs(64);
    FullWord(w, 64);
    assert !AllBits(w, 64);
  }

  lemma BusyBit(w: nat, j: nat)
    requires j < WORD_BITS
    ensures w == WORD_LIMIT - 1 ==> Bit(w, j)
  {
    hide Bit, Pow2;
    WordLimitIs(64);
    if w == WORD_LIMIT - 1 { FullWord(w, 64); }
  }

  /** Is the page full, once chunk i, the first free one, was marked? */
  method IsFull(slab: nat, words: seq<nat>, shift: nat, i: nat) returns (full: bool)
    requires 3 <= shift < PAGE_SHIFT && LayoutOk(slab, words, shift)
    requires shift < EXACT_SHIFT ==> i / WORD_BITS < |words| && forall n :: 0 <= n < i / WORD_BITS ==>
               words[n] == WORD_LIMIT - 1
    ensures full <==> Full(slab, words, shift)
  {
    hide Pow2;
    if shift < EXACT_SHIFT {
      var n := i / WORD_BITS;
      while n < |words| && words[n] == WORD_LIMIT - 1
        invariant n <= |words| && forall j :: 0 <= j < n ==> words[j] == WORD_LIMIT - 1
      {
        n := n + 1;
      }
      full := n == |words|;
    } else if shift == EXACT_SHIFT {
      full := slab == WORD_LIMIT - 1;
    } else {
      full := slab / MAP_UNIT == Pow2(Chunks(shift)) - 1;
    }
  }

  /** Is no chunk of the page in use, beside those that hold its map? */
  method IsVacant(slab: nat, words: seq<nat>, shift: nat) returns (vacant: bool)
    requires 3 <= shift < PAGE_SHIFT && LayoutOk(slab, words, shift)
    ensures vacant <==> Vacant(slab, words, shift)
  {
    hide Pow2;
    Layouts(shift);
    if shift < EXACT_SHIFT {
      if words[0] >= Pow2(Reserved(shift)) { return false; }
      var n := 1;
      while n < |words| && words[n] == 0
        invariant 1 <= n <= |words| && forall j :: 1 <= j < n ==> words[j] == 0
      {
        n := n + 1;
      }
      vacant := n == |words|;
    } else if shift == EXACT_SHIFT {
      vacant := slab == 0;
    } else {
      vacant := slab / MAP_UNIT == 0;
    }
  }

  lemma Halve(x: nat, k: nat)
    requires k > 0
    ensures x / (2 * k) == x / k / 2 && (x / k > 0 ==> k <= x)
  {
    var q, r := x / k, x % k;
    assert x == q * k + r;
    assert q * k == (q / 2) * (2 * k) + (q % 2) * k;
    RemainderUnique(x, 2 * k, q / 2, (q % 2) * k + r);
  }

  lemma HalvingStarts(size: nat, minShift: nat)
    requires Pow2(minShift) < size
    ensures size > 1 && Quotient(size - 1, Pow2(1)) == (size - 1) / 2 && Pow2(0) < size
  {
  }

  lemma Halving(size: nat, shift: nat)
    requires size > 1 && Quotient(size - 1, Pow2(shift)) > 0
    ensures Quotient(size - 1, Pow2(shift + 1)) == Quotient(size - 1, Pow2(shift)) / 2 && Pow2(shift) < size
  {
    Halve(size - 1, Pow2(shift));
    assert Pow2(shift + 1) == 2 * Pow2(shift);
  }

  lemma ShiftBounds(size: nat, shift: nat, minShift: nat)
    requires size >= 1 && shift >= 1 && Quotient(size - 1, Pow2(shift)) == 0 && Pow2(shift - 1) < size <= MAX_SIZE
             && Pow2(minShift) < size
    ensures minShift < shift < PAGE_SHIFT && size <= Pow2(shift)
  {
    hide Pow2;
    assert size - 1 < Pow2(shift);
    Layouts(11);
    if shift <= minShift { PowMonotone(shift, minShift); }
    if shift >= PAGE_SHIFT { PowMonotone(11, shift - 1); }
  }

  /** The size class of a request: the least power of two, from the pool's smallest on, that holds it. */
  method ShiftFor(size: nat, minShift: nat) returns (shift: nat)
    requires 3 <= minShift < PAGE_SHIFT && size <= MAX_SIZE
    ensures minShift <= shift < PAGE_SHIFT && size <= Pow2(shift) && (shift > minShift ==> Pow2(shift - 1) < size)
  {
    hide Pow2, Quotient;
    if size <= Pow2(minShift) { return minShift; }
    HalvingStarts(size, minShift);
    shift := 1;
    var s := (size - 1) / 2;
    while s > 0
      invariant shift >= 1 && Quotient(size - 1, Pow2(shift)) == s && Pow2(shift - 1) < size
      decreases s
    {
      Halving(size, shift);
      s := s / 2;
      shift := shift + 1;
    }
    ShiftBounds(size, shift, minShift);
  }

  // ----- one step of the chunk layer: what stays in order

  /** The first page of a slot list, as the program reads it. */
  lemma ListHead(d: Mem, a: Pages, exact: int, c: nat)
    requires Represents(d, a, exact) && c < |a.lists|
    ensures Slot(c) in d && d[Slot(c)].next.To? && d[Slot(c)].next.r in d
    ensures a.lists[c] == [] ==> d[Slot(c)].next.r == Slot(c)
    ensures a.lists[c] != [] ==>
              d[Slot(c)].next.r == Page(a.lists[c][0]) && a.lists[c][0] < |a.kind|
              && a.kind[a.lists[c][0]] == SlotPage(c, true) && d[Page(a.lists[c][0])].next != To(Page(a.lists[c][0]))
  {
    hide Coalesced, FreeRing, Tiled, Descs;
    assert SlotList(d, a, c);
    assert LinkOk(d, Slot(c), a.lists[c], 0);
    if a.lists[c] != [] { SlotNeighbours(d, a, exact, c, 0); }
  }

  /** A page whose last chunk was taken leaves its list, which it heads. */
  lemma FilledPage(d: Mem, a: Pages, exact: int, c: nat, w: nat)
    requires Represents(d, a, exact) && c < |a.lists| && |a.lists[c]| > 0 && a.lists[c][0] < |a.kind|
             && Page(a.lists[c][0]) in d
    ensures var p := a.lists[c][0];
            var d1 := d[Page(p) := d[Page(p)].(slab := w)];
            && CanUnlink(d1, Page(p)) && Page(p) in Unlink(d1, Page(p)) && Unlink(d1, Page(p))[Page(p)].slab == w
            && var d' := Unlink(d1, Page(p))[Page(p) := Desc(w, Null, Null, d[Page(p)].tag)];
               && Represents(d', Delisted(a, c, 0, SlotPage(c, false)), exact)
               && forall i :: 0 <= i < |a.kind| && i != p ==>
                 Page(i) in d && Page(i) in d' && d'[Page(i)].slab == d[Page(i)].slab
  {
    hide Ring, Coalesced, FreeRing, Tiled, Descs, SlotList, Unlink;
    var p := a.lists[c][0];
    SlotNeighbours(d, a, exact, c, 0);
    var x, y := d[Page(p)].(slab := w), Desc(w, Null, Null, d[Page(p)].tag);
    UnlinkUpdated(d, Page(p), x);
    DelistRepresents(d, a, exact, c, 0, SlotPage(c, false), y);
    var d1 := Unlink(d, Page(p));
    assert d1[Page(p) := x][Page(p) := y] == d1[Page(p) := y];
    forall i | 0 <= i < |a.kind| && i != p ensures Page(i) in d && Page(i) in d1
      && d1[Page(i)].slab == d[Page(i)].slab {
      PageIn(d, a, exact, i);
      DelistDesc(d, a, exact, c, 0, i);
    }
  }

  function PutWords(maps: Maps, p: nat, shift: nat, words: seq<nat>): Maps {
    if shift < EXACT_SHIFT then maps[p := words] else maps
  }

  /** The freed page's kind does not depend on how it was listed. */
  lemma FreedKindOf(kind': seq<Kind>, kind: seq<Kind>, p: nat, k: Kind)
    requires p < |kind| && FreedFrom(kind[p := k], p) <= p && p + 1 <= FreedTo(kind[p := k], p + 1) <= |kind|
    requires kind' == FreedKind(kind[p := k], p, 1)
    ensures FreedFrom(kind, p) <= p && p + 1 <= FreedTo(kind, p + 1) <= |kind| && kind' == FreedKind(kind, p, 1)
  {
  }

  /** Once page p is free its old map no longer matters. */
  lemma MapsOf(d: Mem, maps: Maps, kind: seq<Kind>, minShift: nat, p: nat, shift: nat, words: seq<nat>)
    requires p < |kind| && !kind[p].SlotPage? && ChunkPages(d, maps, kind, minShift)
    ensures ChunkPages(d, PutWords(maps, p, shift, words), kind, minShift)
    ensures forall b :: Live(d, PutWords(maps, p, shift, words), kind, minShift, b) <==>
              Live(d, maps, kind, minShift, b)
  {
    hide Used, Reserved, Chunks, ChunkPage;
  }

  lemma AllPages(d: Mem, a: Pages, exact: int)
    requires Represents(d, a, exact)
    ensures forall i :: 0 <= i < |a.kind| ==> Page(i) in d
  {
    hide Ring, Coalesced, FreeRing, Tiled, SlotList;
  }

  /** The words before the one with the first free chunk are full, and stay so. */
  lemma ReadyForFullTest(slab: nat, words: seq<nat>, shift: nat, i: nat)
    requires 3 <= shift < PAGE_SHIFT && LayoutOk(slab, words, shift) && i < Chunks(shift)
    requires shift < EXACT_SHIFT ==> i / WORD_BITS < |words| && forall n :: 0 <= n < i / WORD_BITS ==>
               words[n] == WORD_LIMIT - 1
    ensures LayoutOk(MarkSlab(slab, shift, i, true), MarkWords(words, shift, i, true), shift)
    ensures shift < EXACT_SHIFT ==> forall n :: 0 <= n < i / WORD_BITS ==>
              MarkWords(words, shift, i, true)[n] == WORD_LIMIT - 1
  {
    hide Pow2, SetBit;
    MarkLayout(slab, words, shift, i, true);
  }

  /** The pool is in order: pages, links and chunk maps. */
  ghost predicate Good(d: Mem, a: Pages, maps: Maps, minShift: nat) {
    && Represents(d, a, EXACT_SHIFT - minShift) && NoneHeld(a.kind) && ChunkPages(d, maps, a.kind, minShift)
    && 3 <= minShift < PAGE_SHIFT && |a.lists| == PAGE_SHIFT - minShift
  }

  ghost predicate LiveAdds(d: Mem, maps: Maps, kind: seq<Kind>, d': Mem, maps': Maps, kind': seq<Kind>, minShift: nat,
                           b: Block) {
    !Live(d, maps, kind, minShift, b) && forall x :: Live(d', maps', kind', minShift, x) <==>
      Live(d, maps, kind, minShift, x) || x == b
  }

  ghost predicate LiveDrops(d: Mem, maps: Maps, kind: seq<Kind>, d': Mem, maps': Maps, kind': seq<Kind>, minShift: nat,
                            b: Block) {
    forall x :: Live(d', maps', kind', minShift, x) <==> Live(d, maps, kind, minShift, x) && x != b
  }

  lemma ChunkPageHas(slab: nat, words: seq<nat>, shift: nat, listed: bool)
    requires shift <= PAGE_SHIFT && ChunkPage(slab, words, shift, listed)
    ensures LayoutOk(slab, words, shift) && (listed <==> HasRoom(slab, words, shift))
  {
  }

  lemma PutAt(maps: Maps, p: nat, shift: nat, words: seq<nat>)
    ensures shift < EXACT_SHIFT || words == WordsAt(maps, p) ==> WordsAt(PutWords(maps, p, shift, words), p) == words
    ensures forall q :: q != p ==> WordsAt(PutWords(maps, p, shift, words), q) == WordsAt(maps, q)
  {
  }

  lemma UnmarkedWords(words: seq<nat>, shift: nat, i: nat, used: bool)
    requires shift >= EXACT_SHIFT
    ensures MarkWords(words, shift, i, used) == words
  {
  }

  /** d' is d with page p's word marked; other pages' words are as in d, whatever happened to links. */
  ghost predicate Marked(d: Mem, maps: Maps, kind: seq<Kind>, d': Mem, maps': Maps, p: nat, shift: nat, i: nat,
                         used: bool) {
    && Page(p) in d && Page(p) in d' && (shift < EXACT_SHIFT ==> i / WORD_BITS < |WordsAt(maps, p)|)
    && d'[Page(p)].slab == MarkSlab(d[Page(p)].slab, shift, i, used)
    && maps' == PutWords(maps, p, shift, MarkWords(WordsAt(maps, p), shift, i, used))
    && forall q :: 0 <= q < |kind| && q != p ==> Page(q) in d && Page(q) in d' && d'[Page(q)].slab == d[Page(q)].slab
  }

  lemma MarkedElsewhere(d: Mem, maps: Maps, kind: seq<Kind>, d': Mem, maps': Maps, p: nat, shift: nat, i: nat,
                        used: bool, k: Kind)
    requires p < |kind| && Marked(d, maps, kind, d', maps', p, shift, i, used)
    ensures Elsewhere(d, maps, kind, d', maps', kind[p := k], p, p + 1)
    ensures WordsAt(maps', p) == MarkWords(WordsAt(maps, p), shift, i, used)
  {
    hide MarkSlab, MarkWords, WordsAt, PutWords;
    var words := MarkWords(WordsAt(maps, p), shift, i, used);
    if shift >= EXACT_SHIFT { UnmarkedWords(WordsAt(maps, p), shift, i, used); }
    PutAt(maps, p, shift, words);
  }

  /** Taking a free chunk of a listed page adds that one block, and the page stays listed exactly while it has room. */
  lemma TakenChunk(d: Mem, a: Pages, maps: Maps, minShift: nat, d': Mem, maps': Maps, p: nat, i: nat, full: bool)
    requires Good(d, a, maps, minShift) && p < |a.kind| && a.kind[p].SlotPage? && a.kind[p].listed && Page(p) in d
             && a.kind[p].c + minShift < PAGE_SHIFT
    requires var shift := a.kind[p].c + minShift;
             && i < Chunks(shift) && !Used(d[Page(p)].slab, WordsAt(maps, p), shift, i)
             && Marked(d, maps, a.kind, d', maps', p, shift, i, true)
             && (full <==> Full(d'[Page(p)].slab, WordsAt(maps', p), shift))
    ensures var kind' := a.kind[p := SlotPage(a.kind[p].c, !full)];
            && ChunkPages(d', maps', kind', minShift) && NoneHeld(kind')
            && LiveAdds(d, maps, a.kind, d', maps', kind', minShift, Chunk(p, a.kind[p].c + minShift, i))
  {
    hide Represents, ChunkPage, Live, LayoutOk, Used, MarkSlab, MarkWords, WordsAt, PutWords, Full, Reserved, Chunks,
         ChunkPages, Elsewhere;
    var shift, kind' := a.kind[p].c + minShift, a.kind[p := SlotPage(a.kind[p].c, !full)];
    PageFacts(d, a, maps, minShift, p);
    MarkTaken(d[Page(p)].slab, WordsAt(maps, p), shift, i);
    MarkedElsewhere(d, maps, a.kind, d', maps', p, shift, i, true, kind'[p]);
    ChunkPagesBut(d, maps, a.kind, d', maps', kind', p, minShift);
    MarkedLive(d, maps, a.kind, d', maps', kind', minShift, p, i, true);
    LiveChunk(d, maps, a.kind, minShift, p, i);
  }

  lemma LiveChunk(d: Mem, maps: Maps, kind: seq<Kind>, minShift: nat, p: nat, i: nat)
    requires p < |kind| && kind[p].SlotPage? && Page(p) in d && kind[p].c + minShift < PAGE_SHIFT
    ensures var shift := kind[p].c + minShift;
            Live(d, maps, kind, minShift, Chunk(p, shift, i)) <==>
            Reserved(shift) <= i < Chunks(shift) && Used(d[Page(p)].slab, WordsAt(maps, p), shift, i)
  {
    hide Used, Reserved, Chunks, WordsAt;
  }

  /** Giving a chunk back removes that one block; d1 already has the page on its list. */
  lemma GivenChunk(d: Mem, a: Pages, maps: Maps, minShift: nat, d': Mem, maps': Maps, p: nat, i: nat)
    requires Good(d, a, maps, minShift) && p < |a.kind| && a.kind[p].SlotPage?
    requires var shift := a.kind[p].c + minShift;
             && Live(d, maps, a.kind, minShift, Chunk(p, shift, i))
             && Marked(d, maps, a.kind, d', maps', p, shift, i, false)
             && !Vacant(d'[Page(p)].slab, WordsAt(maps', p), shift)
    ensures var kind' := a.kind[p := SlotPage(a.kind[p].c, true)];
            && ChunkPages(d', maps', kind', minShift)
            && LiveDrops(d, maps, a.kind, d', maps', kind', minShift, Chunk(p, a.kind[p].c + minShift, i))
  {
    hide Represents, ChunkPage, Live, LayoutOk, Used, MarkSlab, MarkWords, WordsAt, PutWords, Vacant, Reserved, Chunks,
         ChunkPages, Elsewhere;
    var shift, kind' := a.kind[p].c + minShift, a.kind[p := SlotPage(a.kind[p].c, true)];
    PageFacts(d, a, maps, minShift, p);
    LiveChunk(d, maps, a.kind, minShift, p, i);
    MarkGiven(d[Page(p)].slab, WordsAt(maps, p), shift, i, a.kind[p].listed);
    MarkedElsewhere(d, maps, a.kind, d', maps', p, shift, i, false, kind'[p]);
    ChunkPagesBut(d, maps, a.kind, d', maps', kind', p, minShift);
    MarkedLive(d, maps, a.kind, d', maps', kind', minShift, p, i, false);
  }

  /** The last chunk of a page: the page itself goes back. */
  lemma GivenPage(d: Mem, a: Pages, maps: Maps, minShift: nat, d1: Mem, maps': Maps, d': Mem, kind': seq<Kind>, p: nat,
                  i: nat)
    requires p < |a.kind| && a.kind[p].SlotPage? && a.kind[p].c + minShift < PAGE_SHIFT && Page(p) in d1
    requires FreedFrom(a.kind, p) <= p && p + 1 <= FreedTo(a.kind, p + 1) <= |a.kind|
             && kind' == FreedKind(a.kind, p, 1)
    requires Vacant(d1[Page(p)].slab, WordsAt(maps', p), a.kind[p].c + minShift)
    requires Marked(d, maps, a.kind, d1, maps', p, a.kind[p].c + minShift, i, false)
    requires Live(d, maps, a.kind, minShift, Chunk(p, a.kind[p].c + minShift, i))
    requires Good(d, a, maps, minShift) && ChunksKept(d1, d', kind', p)
    ensures ChunkPages(d', maps', kind', minShift)
    ensures LiveDrops(d, maps, a.kind, d', maps', kind', minShift, Chunk(p, a.kind[p].c + minShift, i))
  {
    hide Represents, ChunkPage, Live, LayoutOk, Used, MarkSlab, MarkWords, WordsAt, PutWords, Vacant, Reserved, Chunks,
         ChunkPages, FreedKind, FreedFrom, FreedTo;
    var shift, b := a.kind[p].c + minShift, Chunk(p, a.kind[p].c + minShift, i);
    PageFacts(d, a, maps, minShift, p);
    LiveChunk(d, maps, a.kind, minShift, p, i);
    MarkGiven(d[Page(p)].slab, WordsAt(maps, p), shift, i, a.kind[p].listed);
    MarkedElsewhere(d, maps, a.kind, d1, maps', p, shift, i, false, a.kind[p]);
    forall x | Live(d, maps, a.kind, minShift, x) && x.p == p
      ensures x == b { OnlyChunk(d, maps, a.kind, minShift, x, i); }
    FreedPageKinds(a.kind, p);
    assert ChunksKept(d, d', kind', p);
    FreedLive(d, a, EXACT_SHIFT - minShift, maps, minShift, d', p, 1, b);
    MapsOf(d', maps, kind', minShift, p, shift, MarkWords(WordsAt(maps, p), shift, i, false));
  }

  lemma FreedPageKinds(kind: seq<Kind>, p: nat)
    requires p < |kind| && FreedFrom(kind, p) <= p && p + 1 <= FreedTo(kind, p + 1) <= |kind|
    ensures |FreedKind(kind, p, 1)| == |kind| && !FreedKind(kind, p, 1)[p].SlotPage?
  {
  }

  lemma OnlyChunk(d: Mem, maps: Maps, kind: seq<Kind>, minShift: nat, x: Block, i: nat)
    requires x.p < |kind| && kind[x.p].SlotPage? && kind[x.p].c + minShift < PAGE_SHIFT && Page(x.p) in d
             && Live(d, maps, kind, minShift, x)
    requires var shift := kind[x.p].c + minShift;
             forall j :: Reserved(shift) <= j < Chunks(shift) ==>
               Used(d[Page(x.p)].slab, WordsAt(maps, x.p), shift, j) ==> j == i
    ensures x == Chunk(x.p, kind[x.p].c + minShift, i)
  {
    hide Used, Reserved, Chunks, WordsAt;
  }

  lemma GoodPool(d: Mem, a: Pages, maps: Maps, minShift: nat)
    requires Good(d, a, maps, minShift)
    ensures Tiled(a.kind) && Coalesced(a.kind) && |a.kind| < PAGE_START
  {
  }

  /** A run of k pages was taken from the j-th free run. */
  lemma TakenRun(d: Mem, a: Pages, maps: Maps, minShift: nat, d': Mem, a': Pages, j: nat, k: nat)
    requires Good(d, a, maps, minShift) && j < |a.ring| && Fits(a, k, j) && k >= 1
             && a.ring[j] + a.kind[a.ring[j]].l <= |a.kind|
    requires a' == TakenPages(a, j, k) && Represents(d', a', EXACT_SHIFT - minShift) && NoneHeld(a'.kind)
             && ChunksKept(d, d', a'.kind, |a.kind|)
    ensures Good(d', a', maps, minShift) && |a'.kind| == |a.kind| && a'.kind[a.ring[j]] == LiveRun(a.ring[j], k)
            && a'.lists == a.lists
    ensures LiveAdds(d, maps, a.kind, d', maps, a'.kind, minShift, Run(a.ring[j], k))
  {
    hide Represents, ChunkPages, Live, NoneHeld;
    TakenLive(d, a, EXACT_SHIFT - minShift, maps, minShift, d', j, k);
    GoodPool(d, a, maps, minShift);
    HeadOf(d, a, EXACT_SHIFT - minShift, j);
    TakenKinds(a, j, k);
  }

  /** A free page, just taken, is cut into chunks for the empty list of class c. */
  lemma CutGood(d: Mem, a: Pages, maps: Maps, minShift: nat, maps': Maps, c: nat, p: nat)
    requires Good(d, a, maps, minShift) && c < |a.lists| && a.lists[c] == [] && p < |a.kind|
             && a.kind[p] == LiveRun(p, 1)
    requires maps' == PutWords(maps, p, c + minShift, FreshWords(c + minShift))
    ensures Slot(c) in d && Page(p) in d
    ensures var d', a' := Cut(d, c, p, FreshSlab(c + minShift), TagOf(c, EXACT_SHIFT - minShift)), Enlisted(a, c, p);
            && Good(d', a', maps', minShift) && |a'.kind| == |a.kind|
            && forall x :: Live(d', maps', a'.kind, minShift, x) <==>
                           x == Chunk(p, c + minShift, Reserved(c + minShift))
                           || (Live(d, maps, a.kind, minShift, x) && x != Run(p, 1))
  {
    hide Represents, Live, ChunkPage, WordsAt, FreshWords, FreshSlab, ChunkPages, Reserved, Chunks, PutWords;
    var shift, exact := c + minShift, EXACT_SHIFT - minShift;
    CutRepresents(d, a, exact, c, p, FreshSlab(shift));
    var d', a' := Cut(d, c, p, FreshSlab(shift), TagOf(c, exact)), Enlisted(a, c, p);
    PutAt(maps, p, shift, FreshWords(shift));
    AllPages(d, a, exact);
    assert Elsewhere(d, maps, a.kind, d', maps', a'.kind, p, p + 1);
    CutLive(d, maps, a.kind, d', maps', a'.kind, minShift, p, c);
    ChunkPagesBut(d, maps, a.kind, d', maps', a'.kind, p, minShift);
  }

  lemma CutAdds(d: Mem, maps: Maps, kind: seq<Kind>, d1: Mem, kind1: seq<Kind>, d2: Mem, maps2: Maps, kind2: seq<Kind>,
                minShift: nat, p: nat, b: Block)
    requires LiveAdds(d, maps, kind, d1, maps, kind1, minShift, Run(p, 1)) && b.Chunk? && b.p == p && p < |kind1|
             && !kind1[p].SlotPage?
    requires forall x :: Live(d2, maps2, kind2, minShift, x) <==>
               x == b || (Live(d1, maps, kind1, minShift, x) && x != Run(p, 1))
    ensures LiveAdds(d, maps, kind, d2, maps2, kind2, minShift, b)
  {
    hide Used, Reserved, Chunks, WordsAt;
    assert !Live(d1, maps, kind1, minShift, b);
  }

  /** k pages are enough for the request, and one page less is not. */
  predicate Needs(size: nat, k: nat) { PAGE_SIZE * (k - 1) < size <= PAGE_SIZE * k }

  /** Why a request cannot be met. */
  ghost predicate Exhausted(kind: seq<Kind>, size: nat, c: nat) {
    if size > MAX_SIZE then forall h: nat, k: nat :: Needs(size, k) ==> !Consecutive(kind, h, k)
    else forall p :: 0 <= p < |kind| ==> kind[p] != SlotPage(c, true) && !kind[p].FreeRun?
  }

  /** (size >> ngx_pagesize_shift) + ((size % ngx_pagesize) ? 1 : 0) */
  function PagesFor(size: nat): nat { size / PAGE_SIZE + if size % PAGE_SIZE != 0 then 1 else 0 }

  lemma PagesForIs(size: nat, k: nat)
    requires size > 0
    ensures Needs(size, k) <==> k == PagesFor(size)
  {
  }

  lemma NoRun(kind: seq<Kind>, size: nat, c: nat)
    requires size > MAX_SIZE
    ensures Exhausted(kind, size, c) <==> forall h: nat :: !Consecutive(kind, h, PagesFor(size))
  {
    hide Consecutive, PagesFor, Needs;
    PagesForIs(size, PagesFor(size));
    forall k: nat | Needs(size, k) ensures k == PagesFor(size) { PagesForIs(size, k); }
  }

  lemma NoFreePage(d: Mem, a: Pages, exact: int, c: nat)
    requires Represents(d, a, exact) && c < |a.lists| && a.lists[c] == []
    ensures FitIndex(a, 1, 0) == |a.ring| <==> forall p :: 0 <= p < |a.kind| ==>
              a.kind[p] != SlotPage(c, true) && !a.kind[p].FreeRun?
  {
    hide Ring, Descs, FreeRing, Coalesced, Tiled, FitIndex;
    AllocatesExactlyWhen(d, a, exact, 1);
    assert SlotList(d, a, c);
    if FitIndex(a, 1, 0) == |a.ring| {
      forall p | 0 <= p < |a.kind| ensures a.kind[p] != SlotPage(c, true) && !a.kind[p].FreeRun? {
        assert p !in a.lists[c];
        assert !Consecutive(a.kind, p, 1);
      }
    } else {
      var h: nat :| Consecutive(a.kind, h, 1);
      assert a.kind[h].FreeRun?;
    }
  }

  /** What an accepted offset stands for: an allocation, or the head of a free run. */
  lemma AcceptedBlock(d: Mem, a: Pages, maps: Maps, minShift: nat, off: nat)
    requires |a.kind| * PAGE_SIZE < WORD_LIMIT && off < |a.kind| * PAGE_SIZE && !MapChunkAt(a.kind, minShift, off)
    requires Good(d, a, maps, minShift)
    ensures off / PAGE_SIZE < |a.kind| && Page(off / PAGE_SIZE) in d
    ensures var x := d[Page(off / PAGE_SIZE)];
            var v := Judge(x, WordsAt(maps, off / PAGE_SIZE), off);
            && (FreeHeadAt(a.kind, off) ==> v == Freed)
            && (v == Freed && !FreeHeadAt(a.kind, off) ==>
                  && Live(d, maps, a.kind, minShift, BlockAt(x, off)) && Offset(BlockAt(x, off)) == off
                  && BlockAt(x, off).p == off / PAGE_SIZE && (x.tag == PageTag <==> BlockAt(x, off).Run?))
            && (v != Freed ==> NoneAt(d, maps, a.kind, minShift, off))
  {
    hide Represents, ChunkPages, Judge, Live, FreeHeadAt, MapChunkAt, Offset, NoneHeld, Quotient;
    AcceptsExactlyWhen(d, a, maps, minShift, off);
  }

  /** No allocation starts at the offset. */
  ghost predicate NoneAt(d: Mem, maps: Maps, kind: seq<Kind>, minShift: nat, off: int) {
    forall b :: Live(d, maps, kind, minShift, b) ==> Offset(b) != off
  }

  /** At the head of a free run the program finds its length, and no allocation. */
  lemma AtFreeHead(d: Mem, a: Pages, maps: Maps, minShift: nat, off: nat)
    requires |a.kind| * PAGE_SIZE < WORD_LIMIT && FreeHeadAt(a.kind, off)
    requires Good(d, a, maps, minShift)
    ensures var p := off / PAGE_SIZE;
            && Page(p) in d && d[Page(p)].tag == PageTag && a.kind[p] == FreeRun(p, RunLength(d[Page(p)].slab))
            && p + a.kind[p].l <= |a.kind| && NoneAt(d, maps, a.kind, minShift, off)
  {
    hide Represents, ChunkPages, NoneHeld, Used, Pow2, Chunks, Reserved;
    var p := off / PAGE_SIZE;
    PageFacts(d, a, maps, minShift, p);
    forall b | Live(d, maps, a.kind, minShift, b) ensures Offset(b) != off {
      LiveIsBlockAt(d, a, maps, minShift, b);
    }
  }

  /** Giving back a free run, which is put first on the ring, leaves every allocation alone. */
  lemma FreedAgain(d: Mem, a: Pages, maps: Maps, minShift: nat, d': Mem, a': Pages, p: nat, k: nat)
    requires Good(d, a, maps, minShift) && p < |a.kind| && a.kind[p] == FreeRun(p, k)
    requires FreedFrom(a.kind, p) <= p && p + k <= FreedTo(a.kind, p + k) <= |a.kind|
             && a'.kind == FreedKind(a.kind, p, k)
    requires Represents(d', a', EXACT_SHIFT - minShift) && NoneHeld(a'.kind) && ChunksKept(d, d', a'.kind, p)
             && |a'.lists| == |a.lists|
    ensures Good(d', a', maps, minShift) && a'.kind == a.kind
    ensures forall b :: Live(d', maps, a'.kind, minShift, b) <==> Live(d, maps, a.kind, minShift, b)
  {
    hide Represents, NoneHeld, FreedKind, FreedFrom, FreedTo, Used, Reserved, Chunks, ChunkPage;
    GoodPool(d, a, maps, minShift);
    FreedFree(a.kind, p, k);
  }

  lemma FreedRun(d: Mem, a: Pages, maps: Maps, minShift: nat, d': Mem, a': Pages, p: nat, k: nat)
    requires Good(d, a, maps, minShift) && p < |a.kind| && a.kind[p] == LiveRun(p, k) && p + k <= |a.kind|
    requires FreedFrom(a.kind, p) <= p && p + k <= FreedTo(a.kind, p + k) <= |a.kind|
             && a'.kind == FreedKind(a.kind, p, k)
    requires Represents(d', a', EXACT_SHIFT - minShift) && NoneHeld(a'.kind) && ChunksKept(d, d', a'.kind, p)
             && |a'.lists| == |a.lists|
    ensures Good(d', a', maps, minShift) && LiveDrops(d, maps, a.kind, d', maps, a'.kind, minShift, Run(p, k))
  {
    hide Represents, ChunkPages, NoneHeld, FreedKind, FreedFrom, FreedTo, ChunksKept, Used, Reserved, Chunks;
    PageFacts(d, a, maps, minShift, p);
    FreedLive(d, a, EXACT_SHIFT - minShift, maps, minShift, d', p, k, Run(p, k));
  }

  lemma LiveChunkHas(d: Mem, a: Pages, maps: Maps, minShift: nat, p: nat, shift: nat, i: nat)
    requires Live(d, maps, a.kind, minShift, Chunk(p, shift, i)) && Good(d, a, maps, minShift)
    ensures p < |a.kind| && a.kind[p].SlotPage? && a.kind[p].c == shift - minShift < |a.lists|
            && minShift <= shift < PAGE_SHIFT && Page(p) in d
    ensures shift < EXACT_SHIFT ==> i / WORD_BITS < |WordsAt(maps, p)|
    ensures shift != EXACT_SHIFT ==> (d[Page(p)].next == Null <==> !a.kind[p].listed)
    ensures shift == EXACT_SHIFT ==> (d[Page(p)].slab == WORD_LIMIT - 1 <==> !a.kind[p].listed)
    ensures LayoutOk(MarkSlab(d[Page(p)].slab, shift, i, false), MarkWords(WordsAt(maps, p), shift, i, false), shift)
    ensures d[Page(p)].tag == TagOf(a.kind[p].c, EXACT_SHIFT - minShift)
  {
    hide Represents, ChunkPages, Used, MarkSlab, MarkWords, Chunks, Reserved, LayoutOk, HasRoom, InUse;
    PageFacts(d, a, maps, minShift, p);
    MarkLayout(d[Page(p)].slab, WordsAt(maps, p), shift, i, false);
    FullIsNoRoom(d[Page(p)].slab, WordsAt(maps, p), shift);
  }

  /** The page of a chunk that is given back is put on its list if it was full. */
  function Relisted(d: Mem, c: nat, p: nat, tag: Tag, listed: bool): Mem
    requires listed || (Slot(c) in d && Page(p) in d && d[Slot(c)].next.To? && d[Slot(c)].next.r in d)
  {
    if listed then d else PushFront(d, Slot(c), Page(p), tag)
  }

  lemma RelistedPage(d: Mem, a: Pages, maps: Maps, minShift: nat, p: nat, w: nat)
    requires p < |a.kind| && a.kind[p].SlotPage? && Good(d, a, maps, minShift)
    ensures var c, listed := a.kind[p].c, a.kind[p].listed;
            && c < |a.lists| && (listed || (Slot(c) in d && Page(p) in d && d[Slot(c)].next.To?
               && d[Slot(c)].next.r in d))
            && var d1 := Relisted(d, c, p, TagOf(c, EXACT_SHIFT - minShift), listed);
               var a1 := if listed then a else Enlisted(a, c, p);
               && Page(p) in d && Page(p) in d1 && d1[Page(p)].slab == d[Page(p)].slab
               && Represents(d1[Page(p) := d1[Page(p)].(slab := w)], a1, EXACT_SHIFT - minShift) && NoneHeld(a1.kind)
               && a1.kind == a.kind[p := SlotPage(c, true)] && |a1.lists| == |a.lists|
               && forall i :: 0 <= i < |a.kind| && i != p ==>
                 Page(i) in d && Page(i) in d1 && d1[Page(i)].slab == d[Page(i)].slab
  {
    hide Represents, ChunkPages, PushFront;
    var c, exact := a.kind[p].c, EXACT_SHIFT - minShift;
    PageFacts(d, a, maps, minShift, p);
    AllPages(d, a, exact);
    if a.kind[p].listed {
      SlabRepresents(d, a, exact, p, w);
    } else {
      RelistRepresents(d, a, exact, c, p);
      var d1 := PushFront(d, Slot(c), Page(p), TagOf(c, exact));
      SlabRepresents(d1, Enlisted(a, c, p), exact, p, w);
      AllPages(d1, Enlisted(a, c, p), exact);
    }
  }

  lemma LiveRunHas(d: Mem, a: Pages, maps: Maps, minShift: nat, p: nat, l: nat)
    requires Live(d, maps, a.kind, minShift, Run(p, l)) && Good(d, a, maps, minShift)
    ensures p < |a.kind| && a.kind[p] == LiveRun(p, l) && l >= 1 && p + l <= |a.kind| && Page(p) in d
            && d[Page(p)].slab == l + PAGE_START
  {
    hide Represents, ChunkPages;
    PageFacts(d, a, maps, minShift, p);
  }

  /** The offset of an allocation is inside the pool and never one of the unguarded ones. */
  lemma LiveIsGuarded(d: Mem, a: Pages, maps: Maps, minShift: nat, b: Block)
    requires Live(d, maps, a.kind, minShift, b) && Good(d, a, maps, minShift)
    ensures Offset(b) < |a.kind| * PAGE_SIZE && !Unguarded(a.kind, minShift, Offset(b))
  {
    hide Represents, ChunkPages, NoneHeld, Used, Pow2, Chunks, Reserved, Quotient;
    GoodPool(d, a, maps, minShift);
    WithinPages(d, maps, a.kind, minShift, b);
    if b.Chunk? { OffsetOfChunk(b.p, b.shift, b.i); }
  }

  lemma NoHeadOutside(kind: seq<Kind>, off: nat)
    requires off >= |kind| * PAGE_SIZE
    ensures !FreeHeadAt(kind, off)
  {
  }

  lemma GoodIs(d: Mem, a: Pages, maps: Maps, minShift: nat)
    requires Good(d, a, maps, minShift)
    ensures Represents(d, a, EXACT_SHIFT - minShift) && NoneHeld(a.kind) && |a.lists| == PAGE_SHIFT - minShift
  {
  }

  lemma NoneOutside(d: Mem, a: Pages, maps: Maps, minShift: nat)
    requires Good(d, a, maps, minShift)
    ensures forall b :: Live(d, maps, a.kind, minShift, b) ==> Offset(b) < |a.kind| * PAGE_SIZE
  {
    hide Good, Live, Offset, Unguarded;
    forall b | Live(d, maps, a.kind, minShift, b) ensures Offset(b) < |a.kind| * PAGE_SIZE {
      LiveIsGuarded(d, a, maps, minShift, b);
    }
  }

  lemma SameBlock(d: Mem, a: Pages, maps: Maps, minShift: nat, b: Block, c: Block)
    requires Live(d, maps, a.kind, minShift, b) && Live(d, maps, a.kind, minShift, c) && Offset(b) == Offset(c)
             && Good(d, a, maps, minShift)
    ensures b == c
  {
    hide Represents, ChunkPages, NoneHeld, Live, Offset;
    GoodPool(d, a, maps, minShift);
    OneBlockAt(d, maps, a.kind, minShift, b, c);
  }

  lemma AllFree(d: Mem, a: Pages, maps: Maps, minShift: nat)
    requires Good(d, a, maps, minShift) && |a.kind| >= 1 && forall b :: !Live(d, maps, a.kind, minShift, b)
    ensures a.ring == [0] && forall i :: 0 <= i < |a.kind| ==> a.kind[i] == FreeRun(0, |a.kind|)
  {
    hide Represents, ChunkPages, NoneHeld, Live;
    NothingLiveIsOneRun(d, a, EXACT_SHIFT - minShift, maps, minShift);
  }

  // ----- what goes wrong at a chunk under the map

  /** Chunk i of a page, which holds part of the page's own map, is marked free. The page is not
      vacant, so it stays a chunk page, and the chunk found by the next scan lies in the map. */
  lemma MapChunkLost(slab: nat, words: seq<nat>, shift: nat, listed: bool, i: nat)
    requires 3 <= shift < EXACT_SHIFT && i < Reserved(shift)
    requires ChunkPage(slab, words, shift, listed)
    ensures i / WORD_BITS < |words|
    ensures var words' := MarkWords(words, shift, i, false);
            && LayoutOk(slab, words', shift) && HasRoom(slab, words', shift) && !Vacant(slab, words', shift)
            && forall j: nat :: FirstFree(slab, words', shift, j) ==> j < Reserved(shift)
  {
    hide Used, MarkWords, Vacant, LayoutOk;
    assert Used(slab, words, shift, i);
    MapWord(slab, words, shift, i);
    Layouts(shift);
    var words' := MarkWords(words, shift, i, false);
    MarkLayout(slab, words, shift, i, false);
    MarkUsed(slab, words, shift, i, false, i);
    var u :| Reserved(shift) <= u < Chunks(shift) && Used(slab, words, shift, u);
    MarkUsed(slab, words, shift, i, false, u);
    SlabOfSmall(slab, shift, i);
    VacantIsUnused(slab, words', shift);
  }

  lemma MapWord(slab: nat, words: seq<nat>, shift: nat, i: nat)
    requires shift < EXACT_SHIFT && Used(slab, words, shift, i)
    ensures i / WORD_BITS < |words|
  {
  }

  lemma SlabOfSmall(slab: nat, shift: nat, i: nat)
    requires shift < EXACT_SHIFT
    ensures MarkSlab(slab, shift, i, false) == slab
  {
  }

  /** A pool of one page with nothing allocated: its only page heads a free run, and offset 0 is accepted. */
  method FreesNothing() returns (s: Slab, v: Verdict)
    ensures s.Valid() && s.Blocks() == iset{} && v == Freed
  {
    hide Good, Live, MapChunkAt, FreeHeadAt;
    s := new Slab(1, 3, PAGE_SIZE);
    assert forall b :: Live(s.pool.d, s.maps, s.pool.a.kind, s.minShift, b) ==> b in s.Blocks();
    AllFree(s.pool.d, s.pool.a, s.maps, s.minShift);
    StartsFree(s.pool.a.kind, s.minShift);
    ghost var b;
    v, b := s.Free(0);
  }

  lemma StartsFree(kind: seq<Kind>, minShift: nat)
    requires |kind| >= 1 && kind[0].FreeRun? && kind[0].h == 0
    ensures FreeHeadAt(kind, 0) && !MapChunkAt(kind, minShift, 0)
  {
  }

  /** A pool of one page with one allocation of eight bytes: offset 0, the page's map, is accepted, and
      the chunk found after that is under the map. */
  method FreesTheMap() returns (s: Slab, j: nat)
    ensures s.Valid() && Page(0) in s.pool.d && |WordsAt(s.maps, 0)| > 0
    ensures MapChunkAt(s.pool.a.kind, s.minShift, 0) && Judge(s.pool.d[Page(0)], WordsAt(s.maps, 0), 0) == Freed
    ensures var slab, words := s.pool.d[Page(0)].slab, MarkWords(WordsAt(s.maps, 0), 3, 0, false);
            FirstFree(slab, words, 3, j) && j < Reserved(3)
  {
    hide Good, Live, MapChunkAt, FreeHeadAt, Used, MarkWords, Reserved, Pow2, LayoutOk, HasRoom, Judge, Unguarded;
    s := new Slab(1, 3, PAGE_SIZE);
    assert forall b :: Live(s.pool.d, s.maps, s.pool.a.kind, s.minShift, b) ==> b in s.Blocks();
    AllFree(s.pool.d, s.pool.a, s.maps, s.minShift);
    var r;
    ghost var b, c;
    ghost var kind := s.pool.a.kind;
    r, b, c := s.Alloc(8);
    assert !Exhausted(kind, 8, c) by { assert kind[0].FreeRun?; }
    UnderMap(s.pool.d, s.pool.a, s.maps, b, c);
    j := FindChunk(s.pool.d[Page(0)].slab, MarkWords(WordsAt(s.maps, 0), 3, 0, false), 3);
  }

  lemma UnderMap(d: Mem, a: Pages, maps: Maps, b: Block, c: nat)
    requires |a.kind| == 1 && b.Chunk? && b.shift == c + 3 && (c > 0 ==> Pow2(c + 2) < 8)
    requires Live(d, maps, a.kind, 3, b) && Good(d, a, maps, 3)
    ensures Page(0) in d && MapChunkAt(a.kind, 3, 0) && Judge(d[Page(0)], WordsAt(maps, 0), 0) == Freed
    ensures |WordsAt(maps, 0)| > 0 && 0 < Reserved(3)
    ensures var words' := MarkWords(WordsAt(maps, 0), 3, 0, false);
            && LayoutOk(d[Page(0)].slab, words', 3) && HasRoom(d[Page(0)].slab, words', 3)
            && forall j: nat :: FirstFree(d[Page(0)].slab, words', 3, j) ==> j < Reserved(3)
  {
    hide Represents, ChunkPages, ChunkPage, NoneHeld, Used, MarkWords, Reserved, LayoutOk, HasRoom, Judge, Chunks,
         FreeHeadAt;
    Layouts(3);
    if c > 0 { PowMonotone(3, c + 2); }
    PageFacts(d, a, maps, 3, 0);
    AcceptsExactlyWhen(d, a, maps, 3, 0);
    MapChunkLost(d[Page(0)].slab, WordsAt(maps, 0), 3, a.kind[0].listed, 0);
  }

  class Slab {
    const pool: Pool
    const minShift: nat
    const extent: nat // pool->end - pool->start: the pages, and what is left behind the last whole one
    var maps: Maps

    ghost predicate Valid()
      reads this, pool
    {
      && Good(pool.d, pool.a, maps, minShift) && pool.slots == PAGE_SHIFT - minShift
      && pool.exact == EXACT_SHIFT - minShift
      && pool.n == |pool.a.kind| && 1 <= pool.n && pool.n * PAGE_SIZE <= extent < WORD_LIMIT
    }

    /** The allocations handed out and not given back. */
    ghost function Blocks(): iset<Block>
      reads this, pool
    {
      iset b: Block | Live(pool.d, maps, pool.a.kind, minShift, b)
    }

    /** ngx_slab_init */
    constructor (pages: nat, smallest: nat, size: nat)
      requires 1 <= pages && pages * PAGE_SIZE <= size < WORD_LIMIT && 3 <= smallest < PAGE_SHIFT
      ensures Valid() && pool.n == pages && minShift == smallest && extent == size && Blocks() == iset{} && fresh(pool)
    {
      pool := new Pool(pages, PAGE_SHIFT - smallest, EXACT_SHIFT - smallest);
      minShift := smallest;
      extent := size;
      maps := map[];
    }

    /** Chunk i of page p changes hands: its bit in whichever map the page has. */
    method Mark(p: nat, shift: nat, i: nat, used: bool)
      requires Page(p) in pool.d && (shift < EXACT_SHIFT ==> i / WORD_BITS < |WordsAt(maps, p)|)
      modifies this`maps, pool`d
      ensures maps == PutWords(old(maps), p, shift, MarkWords(WordsAt(old(maps), p), shift, i, used))
      ensures pool.d == old(pool.d)[Page(p) := old(pool.d)[Page(p)].(slab :=
              MarkSlab(old(pool.d)[Page(p)].slab, shift, i, used))]
    {
      if shift < EXACT_SHIFT {
        maps := maps[p := MarkWords(WordsAt(maps, p), shift, i, used)];
      } else {
        pool.d := pool.d[Page(p) := pool.d[Page(p)].(slab := MarkSlab(pool.d[Page(p)].slab, shift, i, used))];
      }
    }

    /** A slot list that is not empty: its first page has a free chunk, and the scan takes the first one. */
    method TakeChunk(p: nat, shift: nat) returns (i: nat)
      requires Valid() && minShift <= shift < PAGE_SHIFT && |pool.a.lists[shift - minShift]| > 0
               && p == pool.a.lists[shift - minShift][0]
      modifies this, pool
      ensures Valid() && LiveAdds(old(pool.d), old(maps), old(pool.a.kind), pool.d, maps, pool.a.kind, minShift,
              Chunk(p, shift, i))
    {
      hide Represents, ChunkPages, ChunkPage, LayoutOk, Used, HasRoom, MarkSlab, MarkWords, WordsAt, PutWords, Full,
           Reserved, Chunks, Unlink, NoneHeld, LiveAdds;
      ghost var c := shift - minShift;
      ghost var d0, maps0, a0 := pool.d, maps, pool.a;
      FirstPageHasRoom(d0, a0, pool.exact, maps, minShift, c, 0);
      PageFacts(d0, a0, maps, minShift, p);
      ChunkPageHas(d0[Page(p)].slab, WordsAt(maps, p), shift, true);
      i := FindChunk(pool.d[Page(p)].slab, WordsAt(maps, p), shift);
      MarkTaken(d0[Page(p)].slab, WordsAt(maps, p), shift, i);
      Mark(p, shift, i, true);
      ghost var d1 := pool.d;
      ghost var slab' := d1[Page(p)].slab;
      AllPages(d0, a0, pool.exact);
      assert Marked(d0, maps0, a0.kind, d1, maps, p, shift, i, true);
      MarkedElsewhere(d0, maps0, a0.kind, d1, maps, p, shift, i, true, a0.kind[p]);
      ReadyForFullTest(d0[Page(p)].slab, WordsAt(maps0, p), shift, i);
      SlabRepresents(d0, a0, pool.exact, p, slab');
      FilledPage(d0, a0, pool.exact, c, slab');
      var full := IsFull(pool.d[Page(p)].slab, WordsAt(maps, p), shift, i);
      if full {
        var tag := pool.d[Page(p)].tag;
        pool.d := Unlink(pool.d, Page(p));
        pool.d := pool.d[Page(p) := pool.d[Page(p)].(next := Null, prev := Null, tag := tag)];
        pool.a := Delisted(pool.a, c, 0, SlotPage(c, false));
      }
      TakenChunk(d0, a0, maps0, minShift, pool.d, maps, p, i, full);
      assert pool.a.kind == a0.kind[p := SlotPage(c, !full)];
    }

    /** An empty slot list: a page just taken is cut, and its first chunk beside the map handed out. */
    method CutPage(p: nat, shift: nat) returns (i: nat)
      requires Valid() && minShift <= shift < PAGE_SHIFT && pool.a.lists[shift - minShift] == [] && p < pool.n
               && pool.a.kind[p] == LiveRun(p, 1)
      modifies this, pool
      ensures Valid() && i == Reserved(shift) && Length(Chunk(p, shift, i)) == Pow2(shift)
      ensures forall x :: Live(pool.d, maps, pool.a.kind, minShift, x) <==>
                          x == Chunk(p, shift, i) || (Live(old(pool.d), old(maps), old(pool.a.kind), minShift, x)
                             && x != Run(p, 1))
    {
      hide Represents, ChunkPages, Live, NoneHeld, FreshSlab, FreshWords, PutWords, Pow2;
      var c := shift - minShift;
      CutGood(pool.d, pool.a, maps, minShift, PutWords(maps, p, shift, FreshWords(shift)), c, p);
      maps := PutWords(maps, p, shift, FreshWords(shift));
      pool.d := pool.d[Page(p) := Desc(FreshSlab(shift), To(Slot(c)), To(Slot(c)), TagOf(c, EXACT_SHIFT - minShift))];
      pool.d := pool.d[Slot(c) := pool.d[Slot(c)].(next := To(Page(p)))];
      pool.a := Enlisted(pool.a, c, p);
      i := Reserved(shift);
    }

    method AllocRun(k: nat) returns (r: Option<nat>)
      requires Valid() && k >= 1
      modifies pool
      ensures Valid() && pool.a.lists == old(pool.a.lists)
      ensures r.None? <==> FitIndex(old(pool.a), k, 0) == |old(pool.a).ring|
      ensures r.None? ==> pool.d == old(pool.d) && pool.a == old(pool.a)
      ensures r.Some? ==>
                && r.value < pool.n && pool.a.kind[r.value] == LiveRun(r.value, k)
                && LiveAdds(old(pool.d), old(maps), old(pool.a.kind), pool.d, maps, pool.a.kind, minShift,
                   Run(r.value, k))
    {
      hide Represents, ChunkPages, NoneHeld, TakenPages, ChunksKept, LiveAdds;
      ghost var d0, a0 := pool.d, pool.a;
      r := pool.AllocPages(k);
      if r.Some? { TakenRun(d0, a0, maps, minShift, pool.d, pool.a, FitIndex(a0, k, 0), k); }
    }

    /** ngx_slab_alloc: a new block of at least `size` bytes, or nothing when the pool cannot serve it. */
    method Alloc(size: nat) returns (r: Option<nat>, ghost b: Block, ghost c: nat)
      requires Valid()
      modifies this, pool
      ensures Valid()
      ensures r.None? <==> Exhausted(old(pool.a.kind), size, c)
      ensures r.None? ==> Blocks() == old(Blocks())
      ensures r.Some? ==> b !in old(Blocks()) && Blocks() == old(Blocks()) + iset{b}
      ensures r.Some? ==> r.value == Offset(b) && size <= Length(b)
      ensures size > MAX_SIZE ==> (r.Some? ==> b.Run? && Needs(size, b.l))
      ensures size <= MAX_SIZE ==>
                size <= Pow2(c + minShift) && (c > 0 ==> Pow2(c + minShift - 1) < size)
                && (r.Some? ==> b.Chunk? && b.shift == c + minShift)
    {
      hide Represents, ChunkPages, NoneHeld, Live, TakenPages, Pow2, Reserved, Consecutive, FitIndex;
      b, c := Run(0, 0), 0;
      if size > MAX_SIZE {
        PagesForIs(size, PagesFor(size));
        NoRun(pool.a.kind, size, c);
        AllocatesExactlyWhen(pool.d, pool.a, pool.exact, PagesFor(size));
        var p := AllocRun(PagesFor(size));
        if p.None? { return None, b, c; }
        b := Run(p.value, PagesFor(size));
        return Some(p.value * PAGE_SIZE), b, c;
      }
      var shift := ShiftFor(size, minShift);
      c := shift - minShift;
      ListHead(pool.d, pool.a, pool.exact, c);
      var page := pool.d[Slot(shift - minShift)].next.r;
      if pool.d[page].next != To(page) {
        var i := TakeChunk(page.i, shift);
        b := Chunk(page.i, shift, i);
        return Some(page.i * PAGE_SIZE + i * Pow2(shift)), b, c;
      }
      ghost var d0, maps0, kind0, a0 := pool.d, maps, pool.a.kind, pool.a;
      NoFreePage(d0, a0, pool.exact, c);
      var p := AllocRun(1);
      if p.None? { return None, b, c; }
      ghost var d1, kind1 := pool.d, pool.a.kind;
      var i := CutPage(p.value, shift);
      b := Chunk(p.value, shift, i);
      CutAdds(d0, maps0, kind0, d1, kind1, pool.d, maps, pool.a.kind, minShift, p.value, b);
      return Some(p.value * PAGE_SIZE + i * Pow2(shift)), b, c;
    }

    /** The chunk cases of ngx_slab_free: relist a full page, clear the bit, give back a vacant page. */
    method GiveChunk(p: nat, shift: nat, i: nat)
      requires Valid() && Live(pool.d, maps, pool.a.kind, minShift, Chunk(p, shift, i))
      modifies this, pool
      ensures Valid() && LiveDrops(old(pool.d), old(maps), old(pool.a.kind), pool.d, maps, pool.a.kind, minShift,
              Chunk(p, shift, i))
    {
      hide Represents, ChunkPages, NoneHeld, Live, LayoutOk, MarkSlab, MarkWords, WordsAt, PutWords, Vacant, PushFront,
           FreedKind, FreedFrom, FreedTo, LiveDrops, ChunksKept;
      ghost var d0, maps0, a0 := pool.d, maps, pool.a;
      LiveChunkHas(d0, a0, maps0, minShift, p, shift, i);
      RelistedPage(d0, a0, maps0, minShift, p, MarkSlab(d0[Page(p)].slab, shift, i, false));
      var c := shift - minShift;
      if (if shift == EXACT_SHIFT then pool.d[Page(p)].slab == WORD_LIMIT - 1 else pool.d[Page(p)].next == Null) {
        pool.d := PushFront(pool.d, Slot(c), Page(p), TagOf(c, EXACT_SHIFT - minShift));
        pool.a := Enlisted(pool.a, c, p);
      }
      Mark(p, shift, i, false);
      assert Marked(d0, maps0, a0.kind, pool.d, maps, p, shift, i, false);
      MarkedElsewhere(d0, maps0, a0.kind, pool.d, maps, p, shift, i, false, SlotPage(c, true));
      var vacant := IsVacant(pool.d[Page(p)].slab, WordsAt(maps, p), shift);
      if vacant {
        ghost var d1 := pool.d;
        pool.FreePages(p, 1);
        FreedKindOf(pool.a.kind, a0.kind, p, SlotPage(c, true));
        GivenPage(d0, a0, maps0, minShift, d1, maps, pool.d, pool.a.kind, p, i);
      } else {
        GivenChunk(d0, a0, maps0, minShift, pool.d, maps, p, i);
      }
    }

    /** ngx_slab_free: the block at the offset goes back, or no block starts there and the live ones
        stay as they are. That includes the head of a free run, which is only moved within the ring, so
        a page run may be freed twice. Excluded are chunks under a small page's own map, and what is
        behind the last whole page. */
    method Free(off: int) returns (v: Verdict, ghost b: Block)
      requires Valid() && !(pool.n * PAGE_SIZE <= off <= extent)
      requires off >= 0 ==> !MapChunkAt(pool.a.kind, minShift, off)
      modifies this, pool
      ensures Valid()
      ensures v == Freed && !(off >= 0 && old(FreeHeadAt(pool.a.kind, off))) ==>
                b in old(Blocks()) && Offset(b) == off && Blocks() == old(Blocks()) - iset{b}
      ensures off >= 0 && old(FreeHeadAt(pool.a.kind, off)) ==>
                v == Freed && Blocks() == old(Blocks()) && pool.a.kind == old(pool.a.kind) && maps == old(maps)
      ensures v != Freed ==> pool.d == old(pool.d) && maps == old(maps)
      ensures v != Freed || (off >= 0 && old(FreeHeadAt(pool.a.kind, off))) ==> forall x :: x in old(Blocks()) ==>
                Offset(x) != off
    {
      hide Good, Live, Offset, FreeHeadAt, MapChunkAt;
      if off < 0 || off > extent {
        v := OutsideOfPool;
        b := Run(0, 1);
        NoneOutside(pool.d, pool.a, maps, minShift);
        if off >= 0 { NoHeadOutside(pool.a.kind, off); }
      } else {
        v, b := FreeInside(off);
      }
    }

    /** The page case of ngx_slab_free. */
    method GiveRun(p: nat, k: nat)
      requires Valid() && p < pool.n && (pool.a.kind[p] == LiveRun(p, k) || pool.a.kind[p] == FreeRun(p, k))
               && p + k <= pool.n
      modifies pool
      ensures Valid()
      ensures old(pool.a.kind[p].LiveRun?) ==> Blocks() == old(Blocks()) - iset{Run(p, k)}
      ensures old(pool.a.kind[p].FreeRun?) ==> Blocks() == old(Blocks()) && pool.a.kind == old(pool.a.kind)
    {
      hide Good, Live, FreedKind, FreedFrom, FreedTo, ChunksKept;
      ghost var d0, a0 := pool.d, pool.a;
      GoodIs(d0, a0, maps, minShift);
      pool.FreePages(p, k);
      if a0.kind[p].FreeRun? {
        FreedAgain(d0, a0, maps, minShift, pool.d, pool.a, p, k);
      } else {
        FreedRun(d0, a0, maps, minShift, pool.d, pool.a, p, k);
      }
    }

    method FreeInside(off: nat) returns (v: Verdict, ghost b: Block)
      requires Valid() && off < pool.n * PAGE_SIZE && !MapChunkAt(pool.a.kind, minShift, off)
      modifies this, pool
      ensures Valid()
      ensures v == Freed && !old(FreeHeadAt(pool.a.kind, off)) ==>
                b in old(Blocks()) && Offset(b) == off && Blocks() == old(Blocks()) - iset{b}
      ensures old(FreeHeadAt(pool.a.kind, off)) ==>
                v == Freed && Blocks() == old(Blocks()) && pool.a.kind == old(pool.a.kind) && maps == old(maps)
      ensures v != Freed ==> pool.d == old(pool.d) && maps == old(maps)
      ensures v != Freed || old(FreeHeadAt(pool.a.kind, off)) ==> forall x :: x in old(Blocks()) ==> Offset(x) != off
    {
      hide Good, Live, MapChunkAt, FreeHeadAt, Used, Offset;
      AcceptedBlock(pool.d, pool.a, maps, minShift, off);
      var p := off / PAGE_SIZE;
      var x := pool.d[Page(p)];
      b := BlockAt(x, off);
      v := Judge(x, WordsAt(maps, p), off);
      if FreeHeadAt(pool.a.kind, off) {
        AtFreeHead(pool.d, pool.a, maps, minShift, off);
      } else if b.Run? && v == Freed {
        LiveRunHas(pool.d, pool.a, maps, minShift, p, b.l);
      }
      if v == Freed {
        if x.tag == PageTag {
          GiveRun(p, RunLength(x.slab));
        } else {
          GiveChunk(p, ShiftOf(x), ChunkIndex(off, ShiftOf(x)));
        }
      }
    }

    /** Giving every allocation back, in whatever order, leaves one free run of the whole pool. */
    method FreeAll(offs: seq<nat>, ghost bs: seq<Block>)
      requires Valid() && |offs| == |bs| && (forall i, j :: 0 <= i < j < |bs| ==> bs[i] != bs[j])
      requires (forall b :: b in Blocks() <==> b in bs) && forall i :: 0 <= i < |bs| ==> offs[i] == Offset(bs[i])
      modifies this, pool
      ensures Valid() && Blocks() == iset{}
      ensures pool.a.ring == [0] && forall i :: 0 <= i < pool.n ==> pool.a.kind[i] == FreeRun(0, pool.n)
    {
      hide Good, Live, FreeHeadAt, MapChunkAt, Offset;
      for k := 0 to |offs|
        invariant Valid() && forall b :: b in Blocks() <==> b in bs[k..]
      {
        assert bs[k] in bs[k..];
        LiveIsGuarded(pool.d, pool.a, maps, minShift, bs[k]);
        ghost var d0, maps0, a0 := pool.d, maps, pool.a;
        var v;
        ghost var b;
        v, b := Free(offs[k]);
        SameBlock(d0, a0, maps0, minShift, b, bs[k]);
        assert forall x :: x in bs[k..] <==> x == bs[k] || x in bs[k + 1..];
      }
      forall b ensures !Live(pool.d, maps, pool.a.kind, minShift, b) { assert b !in Blocks(); }
      AllFree(pool.d, pool.a, maps, minShift);
    }
  }

  // ----- ngx_slab_init: how the shared memory is divided

  /** sizeof(ngx_slab_page_t) */
  const DESC: nat := 24

  function AlignUp(x: nat): nat { Quotient(x + PAGE_SIZE - 1, PAGE_SIZE) * PAGE_SIZE }

  /** The table of page descriptors, the first data page, and the number of pages. */
  datatype Area = Area(table: nat, start: nat, pages: nat)

  /** The memory from `base`, behind the pool header, to `end`: `classes` slot heads, the table, and, page aligned,
      the pages. The number of pages is corrected by an unsigned division, so not if `start` is behind `end`. */
  function InitArea(base: nat, end: nat, classes: nat): Area
    requires base <= end < WORD_LIMIT
  {
    var table := base + classes * DESC;
    var pages := (end - base) / (PAGE_SIZE + DESC);
    var start := AlignUp(table + pages * DESC);
    var room := (if start <= end then end - start else WORD_LIMIT - (start - end) % WORD_LIMIT) / PAGE_SIZE;
    Area(table, start, if pages > room then room else pages)
  }

  lemma AlignUpIs(x: nat)
    ensures x <= AlignUp(x) < x + PAGE_SIZE && AlignUp(x) % PAGE_SIZE == 0
  {
  }

  /** The table has room for as many descriptors as there can be pages with a descriptor each, the pages start at
      the first page boundary behind it, and there are as many as fit, but if they start behind the end. */
  ghost predicate Divided(base: nat, end: nat, classes: nat, a: Area, most: nat) {
    && most * (PAGE_SIZE + DESC) <= end - base < (most + 1) * (PAGE_SIZE + DESC)
    && a.table == base + classes * DESC && a.start % PAGE_SIZE == 0
    && a.table + most * DESC <= a.start < a.table + most * DESC + PAGE_SIZE
    && a.pages <= most && (a.start > end ==> a.pages == most)
    && (a.start <= end ==> a.start + a.pages * PAGE_SIZE <= end)
    && (a.start <= end && a.pages < most ==> end < a.start + (a.pages + 1) * PAGE_SIZE)
  }

  lemma AreaIs(base: nat, end: nat, classes: nat) returns (most: nat)
    requires base <= end < WORD_LIMIT && classes <= 9
    ensures Divided(base, end, classes, InitArea(base, end, classes), most)
  {
    hide AlignUp, InitArea;
    most := MostIs(base, end);
    AlignUpIs(base + classes * DESC + most * DESC);
    PagesAre(base, end, classes, most);
  }

  lemma MostIs(base: nat, end: nat) returns (most: nat)
    requires base <= end
    ensures most == (end - base) / (PAGE_SIZE + DESC)
    ensures most * (PAGE_SIZE + DESC) <= end - base < (most + 1) * (PAGE_SIZE + DESC)
  {
    most := (end - base) / (PAGE_SIZE + DESC);
  }

  lemma PagesAre(base: nat, end: nat, classes: nat, most: nat)
    requires base <= end < WORD_LIMIT && classes <= 9 && most == (end - base) / (PAGE_SIZE + DESC)
    ensures var table := base + classes * DESC; var start := AlignUp(table + most * DESC);
            var a := InitArea(base, end, classes);
            && a.table == table && a.start == start && a.pages <= most && (start > end ==> a.pages == most)
            && (start <= end ==> start + a.pages * PAGE_SIZE <= end)
            && (start <= end && a.pages < most ==> end < start + (a.pages + 1) * PAGE_SIZE)
  {
    var start := AlignUp(base + classes * DESC + most * DESC);
    AlignUpIs(base + classes * DESC + most * DESC);
    hide AlignUp;
    if start > end {
      LotsOfRoom(base, end, start, most);
    } else {
      RoomIs(start, end, most);
    }
  }

  lemma RoomIs(start: nat, end: nat, most: nat)
    requires start <= end
    ensures var room := (end - start) / PAGE_SIZE; var pages := if most > room then room else most;
            && start + pages * PAGE_SIZE <= end
            && (pages < most ==> end < start + (pages + 1) * PAGE_SIZE)
  {
  }

  lemma LotsOfRoom(base: nat, end: nat, start: nat, most: nat)
    requires base <= end < WORD_LIMIT && most == (end - base) / (PAGE_SIZE + DESC)
    requires end < start < base + 9 * DESC + most * DESC + PAGE_SIZE
    ensures (WORD_LIMIT - (start - end) % WORD_LIMIT) / PAGE_SIZE >= most
  {
    assert most * (PAGE_SIZE + DESC) <= end - base;
  }

  /** Heads, table and pages follow each other without overlap. The pages end within the memory exactly when the
      first one does not start behind its end; three pages' worth of memory are enough for that and for one page. */
  lemma AreaFits(base: nat, end: nat, classes: nat)
    requires base <= end < WORD_LIMIT && classes <= 9
    ensures var a := InitArea(base, end, classes);
            && a.start % PAGE_SIZE == 0 && base + classes * DESC == a.table && a.table + a.pages * DESC <= a.start
            && (a.start + a.pages * PAGE_SIZE <= end <==> a.start <= end)
            && (end - base >= 3 * (PAGE_SIZE + DESC) ==> a.start <= end && a.pages >= 1)
  {
    var pages := (end - base) / (PAGE_SIZE + DESC);
    AlignUpIs(base + classes * DESC + pages * DESC);
    hide AlignUp;
  }

  /** A memory of one page and one descriptor, 3864 to 7984: the one page starts at 8192. */
  lemma PageBehindTheEnd()
    ensures InitArea(3864, 7984, 9).pages == 1 && InitArea(3864, 7984, 9).start > 7984
  {
  }

  /** ngx_slab_init */
  method InitPool(base: nat, end: nat, smallest: nat) returns (s: Option<Slab>, ghost most: nat)
    requires base <= end < WORD_LIMIT && 3 <= smallest < PAGE_SHIFT
    ensures var a := InitArea(base, end, PAGE_SHIFT - smallest);
            && (s.Some? <==> a.pages >= 1 && a.start <= end)
            && (s.Some? ==> s.value.Valid() && s.value.Blocks() == iset{} && s.value.pool.n == a.pages)
            && (s.Some? ==> s.value.extent == end - a.start && s.value.minShift == smallest)
            && Divided(base, end, PAGE_SHIFT - smallest, a, most)
  {
    hide InitArea, Good, Live, Divided;
    most := AreaIs(base, end, PAGE_SHIFT - smallest);
    AreaFits(base, end, PAGE_SHIFT - smallest);
    var a := InitArea(base, end, PAGE_SHIFT - smallest);
    if a.pages >= 1 && a.start <= end {
      var pool := new Slab(a.pages, smallest, end - a.start);
      return Some(pool), most;
    }
    return None, most;
  }
}

/**
 The chunk layer of c-util/slab.c: how a page is cut into equal chunks of 2^shift bytes and where
 the map of used chunks is kept. Small chunks keep it in the first bytes of the page itself, chunks
 of the exact size in the descriptor's word, and big ones in the upper half of that word.
 */
module SlabChunks {
  import opened Bits
  import opened SlabLinks
  import opened SlabPages

  const PAGE_SHIFT: nat := 12
  const PAGE_SIZE: nat := 4096
  const MAX_SIZE: nat := 2048
  const EXACT_SHIFT: nat := 6
  const WORD_BITS: nat := 64
  const MAP_UNIT: nat := 0x1_0000_0000
  const WORD_LIMIT: nat := 0x1_0000_0000_0000_0000

  /** The words of the map at the start of each small-chunk page. */
  type Maps = map<nat, seq<nat>>

  // ----- layouts

  function Chunks(shift: nat): nat
    requires shift <= PAGE_SHIFT
  {
    Pow2(PAGE_SHIFT - shift)
  }

  /** How many chunks the map itself occupies: the C expression, at least one. */
  function Reserved(shift: nat): nat
    requires shift <= PAGE_SHIFT
  {
    if shift >= EXACT_SHIFT then 0
    else var r := Quotient(Chunks(shift) / 8, Pow2(shift)); if r == 0 then 1 else r
  }

  function Words(shift: nat): nat
    requires shift <= PAGE_SHIFT
  {
    Chunks(shift) / WORD_BITS
  }

  /** Is chunk i of the page marked used? `slab` is the descriptor's word, `words` the map in the page. */
  predicate Used(slab: nat, words: seq<nat>, shift: nat, i: nat) {
    if shift < EXACT_SHIFT then i / WORD_BITS < |words| && Bit(words[i / WORD_BITS], i % WORD_BITS)
    else if shift == EXACT_SHIFT then Bit(slab, i)
    else Bit(slab / MAP_UNIT, i)
  }

  predicate WordsOk(words: seq<nat>) {
    forall j :: 0 <= j < |words| ==> words[j] < WORD_LIMIT
  }

  predicate LayoutOk(slab: nat, words: seq<nat>, shift: nat)
    requires shift <= PAGE_SHIFT
  {
    if shift < EXACT_SHIFT then slab == shift && |words| == Words(shift) && WordsOk(words)
    else if shift == EXACT_SHIFT then slab < WORD_LIMIT
    else slab % MAP_UNIT == shift && slab / MAP_UNIT < Pow2(Chunks(shift))
  }

  predicate HasRoom(slab: nat, words: seq<nat>, shift: nat)
    requires shift <= PAGE_SHIFT
  {
    exists i :: 0 <= i < Chunks(shift) && !Used(slab, words, shift, i)
  }

  predicate InUse(slab: nat, words: seq<nat>, shift: nat)
    requires shift <= PAGE_SHIFT
  {
    exists i :: Reserved(shift) <= i < Chunks(shift) && Used(slab, words, shift, i)
  }

  /** A chunk page: its map is well formed, the chunks under the map are taken, it is on its list
      exactly while it has room, and it holds at least one live chunk. */
  ghost predicate ChunkPage(slab: nat, words: seq<nat>, shift: nat, listed: bool)
    requires shift <= PAGE_SHIFT
  {
    && LayoutOk(slab, words, shift)
    && (forall i :: 0 <= i < Reserved(shift) ==> Used(slab, words, shift, i))
    && (listed <==> HasRoom(slab, words, shift))
    && InUse(slab, words, shift)
  }

  function WordsAt(maps: Maps, p: nat): seq<nat> { if p in maps then maps[p] else [] }

  ghost predicate ChunkPages(d: Mem, maps: Maps, kind: seq<Kind>, minShift: nat) {
    forall p :: 0 <= p < |kind| && kind[p].SlotPage? ==>
      && kind[p].c + minShift < PAGE_SHIFT && Page(p) in d
      && ChunkPage(d[Page(p)].slab, WordsAt(maps, p), kind[p].c + minShift, kind[p].listed)
  }

  // ----- the numbers of the nine size classes

  lemma Layouts(shift: nat)
    requires 3 <= shift < PAGE_SHIFT
    ensures shift == 3 ==> Chunks(shift) == 512 && Words(shift) == 8 && Reserved(shift) == 8 && Pow2(shift) == 8
    ensures shift == 4 ==> Chunks(shift) == 256 && Words(shift) == 4 && Reserved(shift) == 2 && Pow2(shift) == 16
    ensures shift == 5 ==> Chunks(shift) == 128 && Words(shift) == 2 && Reserved(shift) == 1 && Pow2(shift) == 32
    ensures shift == 6 ==> Chunks(shift) == 64 && Reserved(shift) == 0 && Pow2(shift) == 64
    ensures shift == 7 ==> Chunks(shift) == 32 && Pow2(shift) == 128
    ensures shift == 8 ==> Chunks(shift) == 16 && Pow2(shift) == 256
    ensures shift == 9 ==> Chunks(shift) == 8 && Pow2(shift) == 512
    ensures shift == 10 ==> Chunks(shift) == 4 && Pow2(shift) == 1024
    ensures shift == 11 ==> Chunks(shift) == 2 && Pow2(shift) == 2048
    ensures Chunks(shift) * Pow2(shift) == PAGE_SIZE && Chunks(shift) >= Reserved(shift) + 2
  {
    assert Pow2(4) == 16;
    assert Pow2(8) == 256 by { PowSum(4, 4); }
    PowSum(8, 1); PowSum(8, 2); PowSum(8, 3);
    PowSum(4, 1); PowSum(4, 2); PowSum(4, 3);
    assert Pow2(1) == 2 && Pow2(2) == 4 && Pow2(3) == 8;
  }

  /** The map of a small page has one bit per chunk and fits in the chunks set aside for it, which are no more than
      it takes. */
  lemma MapFits(shift: nat)
    requires 3 <= shift < EXACT_SHIFT
    ensures WORD_BITS * Words(shift) == Chunks(shift)
    ensures (Reserved(shift) - 1) * Pow2(shift) < 8 * Words(shift) <= Reserved(shift) * Pow2(shift)
  {
    Layouts(shift);
  }

  lemma WordLimitIs(k: nat)
    requires k == WORD_BITS
    ensures Pow2(k) == WORD_LIMIT
  {
    LargePowers();
  }

  // ----- marking a chunk

  /** The descriptor's word and the page's map after chunk i was marked used (or free). */
  function MarkSlab(slab: nat, shift: nat, i: nat, used: bool): nat {
    if shift < EXACT_SHIFT then slab
    else if shift == EXACT_SHIFT then (if used then SetBit(slab, i) else ClearBit(slab, i))
    else (if used then SetBit(slab / MAP_UNIT, i) else ClearBit(slab / MAP_UNIT, i)) * MAP_UNIT + slab % MAP_UNIT
  }

  function MarkWords(words: seq<nat>, shift: nat, i: nat, used: bool): (r: seq<nat>)
    requires shift < EXACT_SHIFT ==> i / WORD_BITS < |words|
    ensures |r| == |words|
  {
    if shift >= EXACT_SHIFT then words
    else
      var j, b := i / WORD_BITS, i % WORD_BITS;
      words[j := if used then SetBit(words[j], b) else ClearBit(words[j], b)]
  }

  lemma SameIndex(i: nat, j: nat)
    ensures i == j <==> i / WORD_BITS == j / WORD_BITS && i % WORD_BITS == j % WORD_BITS
  {
  }

  /** Exactly the one chunk changes. */
  lemma MarkUsed(slab: nat, words: seq<nat>, shift: nat, i: nat, used: bool, j: nat)
    requires shift < EXACT_SHIFT ==> i / WORD_BITS < |words|
    ensures var slab', words' := MarkSlab(slab, shift, i, used), MarkWords(words, shift, i, used);
            Used(slab', words', shift, j) <==> (if j == i then used else Used(slab, words, shift, j))
  {
    hide Bit, SetBit, ClearBit;
    if shift < EXACT_SHIFT {
      SameIndex(i, j);
      SetBitIs(words[i / WORD_BITS], i % WORD_BITS, j % WORD_BITS);
      ClearBitIs(words[i / WORD_BITS], i % WORD_BITS, j % WORD_BITS);
    } else if shift == EXACT_SHIFT {
      SetBitIs(slab, i, j);
      ClearBitIs(slab, i, j);
    } else {
      SetBitIs(slab / MAP_UNIT, i, j);
      ClearBitIs(slab / MAP_UNIT, i, j);
    }
  }

  lemma MarkLayout(slab: nat, words: seq<nat>, shift: nat, i: nat, used: bool)
    requires 3 <= shift < PAGE_SHIFT && LayoutOk(slab, words, shift) && i < Chunks(shift)
    ensures shift < EXACT_SHIFT ==> i / WORD_BITS < |words|
    ensures LayoutOk(MarkSlab(slab, shift, i, used), MarkWords(words, shift, i, used), shift)
  {
    hide Bit, SetBit, ClearBit, Pow2;
    Layouts(shift);
    WordLimitIs(64);
    if shift < EXACT_SHIFT {
      SetBitBound(words[i / WORD_BITS], i % WORD_BITS, 64);
      ClearBitBound(words[i / WORD_BITS], i % WORD_BITS, 64);
    } else if shift == EXACT_SHIFT {
      SetBitBound(slab, i, 64);
      ClearBitBound(slab, i, 64);
    } else {
      SetBitBound(slab / MAP_UNIT, i, Chunks(shift));
      ClearBitBound(slab / MAP_UNIT, i, Chunks(shift));
    }
  }

  // ----- the program's tests on a chunk page

  /** bitmap[n] == NGX_SLAB_BUSY, slab == NGX_SLAB_BUSY, (slab & NGX_SLAB_MAP_MASK) == mask */
  predicate Full(slab: nat, words: seq<nat>, shift: nat)
    requires shift <= PAGE_SHIFT
  {
    if shift < EXACT_SHIFT then forall j :: 0 <= j < |words| ==> words[j] == WORD_LIMIT - 1
    else if shift == EXACT_SHIFT then slab == WORD_LIMIT - 1
    else slab / MAP_UNIT == Pow2(Chunks(shift)) - 1
  }

  /** bitmap[0] & ~((1 << n) - 1) and the other words, slab, slab & NGX_SLAB_MAP_MASK: all zero */
  predicate Vacant(slab: nat, words: seq<nat>, shift: nat)
    requires shift <= PAGE_SHIFT
  {
    if shift < EXACT_SHIFT then |words| > 0 && words[0] < Pow2(Reserved(shift)) && forall j :: 1 <= j < |words| ==>
        words[j] == 0
    else if shift == EXACT_SHIFT then slab == 0
    else slab / MAP_UNIT == 0
  }

  lemma SmallIndex(shift: nat, j: nat, b: nat)
    requires 3 <= shift < EXACT_SHIFT && j < Words(shift) && b < WORD_BITS
    ensures j * WORD_BITS + b < Chunks(shift) && (j * WORD_BITS + b) / WORD_BITS == j
            && (j * WORD_BITS + b) % WORD_BITS == b
  {
    Layouts(shift);
  }

  lemma FullWords(words: seq<nat>, shift: nat, j: nat)
    requires 3 <= shift < EXACT_SHIFT && |words| == Words(shift) && WordsOk(words) && j < |words|
    requires forall i :: 0 <= i < Chunks(shift) ==> Used(shift, words, shift, i)
    ensures words[j] == WORD_LIMIT - 1
  {
    hide Bit, Pow2, Chunks;
    WordLimitIs(64);
    forall b | 0 <= b < 64 ensures Bit(words[j], b) {
      SmallIndex(shift, j, b);
      assert Used(shift, words, shift, j * WORD_BITS + b);
    }
    FullWord(words[j], 64);
  }

  lemma FullIsNoRoom(slab: nat, words: seq<nat>, shift: nat)
    requires 3 <= shift < PAGE_SHIFT && LayoutOk(slab, words, shift)
    ensures Full(slab, words, shift) <==> !HasRoom(slab, words, shift)
  {
    hide Bit, Pow2;
    Layouts(shift);
    WordLimitIs(64);
    if shift < EXACT_SHIFT {
      if Full(slab, words, shift) {
        forall i | 0 <= i < Chunks(shift) ensures Used(slab, words, shift, i) { FullWord(words[i / WORD_BITS], 64); }
      } else if !HasRoom(slab, words, shift) {
        forall j | 0 <= j < |words| ensures words[j] == WORD_LIMIT - 1 { FullWords(words, shift, j); }
      }
    } else if shift == EXACT_SHIFT {
      FullWord(slab, 64);
      WholeWord(slab, words, shift, slab);
    } else {
      FullWord(slab / MAP_UNIT, Chunks(shift));
      WholeWord(slab, words, shift, slab / MAP_UNIT);
    }
  }

  /** In the exact and big layouts the map is one word. */
  lemma WholeWord(slab: nat, words: seq<nat>, shift: nat, w: nat)
    requires EXACT_SHIFT <= shift < PAGE_SHIFT && w == if shift == EXACT_SHIFT then slab else slab / MAP_UNIT
    ensures !HasRoom(slab, words, shift) <==> AllBits(w, Chunks(shift))
    ensures !InUse(slab, words, shift) <==> NoBits(w, Chunks(shift))
  {
    hide Bit, Chunks;
    if !HasRoom(slab, words, shift) {
      forall i | 0 <= i < Chunks(shift) ensures Bit(w, i) { assert Used(slab, words, shift, i); }
    }
    if AllBits(w, Chunks(shift)) {
      forall i | 0 <= i < Chunks(shift) ensures Used(slab, words, shift, i) {}
    }
    if !InUse(slab, words, shift) {
      forall i | 0 <= i < Chunks(shift) ensures !Bit(w, i) { assert !Used(slab, words, shift, i); }
    }
    if NoBits(w, Chunks(shift)) {
      forall i | 0 <= i < Chunks(shift) ensures !Used(slab, words, shift, i) {}
    }
  }

  predicate NoHigh(w: nat, k: nat, m: nat) { forall i :: k <= i < m ==> !Bit(w, i) }

  /** A word has no bit at or above k exactly when it is below 2^k. */
  lemma {:induction false} HighBits(w: nat, k: nat, m: nat)
    requires w < Pow2(m) && k <= m
    ensures w < Pow2(k) <==> NoHigh(w, k, m)
    decreases k
  {
    if k == 0 {
      EmptyWord(w, m);
      assert NoHigh(w, 0, m) <==> NoBits(w, m);
    } else {
      HighBits(w / 2, k - 1, m - 1);
      if NoHigh(w, k, m) {
        forall i | k - 1 <= i < m - 1 ensures !Bit(w / 2, i) { BitStep(w, i); }
      }
      if NoHigh(w / 2, k - 1, m - 1) {
        forall i | k <= i < m ensures !Bit(w, i) { BitStep(w, i - 1); }
      }
    }
  }

  lemma VacantIsUnused(slab: nat, words: seq<nat>, shift: nat)
    requires 3 <= shift < PAGE_SHIFT && LayoutOk(slab, words, shift)
    ensures Vacant(slab, words, shift) <==> !InUse(slab, words, shift)
  {
    hide Bit, Pow2;
    Layouts(shift);
    WordLimitIs(64);
    if shift < EXACT_SHIFT {
      HighBits(words[0], Reserved(shift), 64);
      if Vacant(slab, words, shift) {
        forall i | Reserved(shift) <= i < Chunks(shift) ensures !Used(slab, words, shift, i)
        { EmptyWord(words[i / WORD_BITS], 64); }
      } else if !InUse(slab, words, shift) {
        UnusedWords(slab, words, shift);
      }
    } else if shift == EXACT_SHIFT {
      EmptyWord(slab, 64);
      WholeWord(slab, words, shift, slab);
    } else {
      EmptyWord(slab / MAP_UNIT, Chunks(shift));
      WholeWord(slab, words, shift, slab / MAP_UNIT);
    }
  }

  lemma UnusedWords(slab: nat, words: seq<nat>, shift: nat)
    requires 3 <= shift < EXACT_SHIFT && LayoutOk(slab, words, shift) && !InUse(slab, words, shift)
    ensures Vacant(slab, words, shift)
  {
    hide Bit, Pow2;
    Layouts(shift);
    WordLimitIs(64);
    forall b | Reserved(shift) <= b < 64 ensures !Bit(words[0], b) { assert !Used(slab, words, shift, b); }
    HighBits(words[0], Reserved(shift), 64);
    forall j | 1 <= j < |words| ensures words[j] == 0 {
      forall b | 0 <= b < 64 ensures !Bit(words[j], b) {
        SmallIndex(shift, j, b);
        assert !Used(slab, words, shift, j * WORD_BITS + b);
      }
      EmptyWord(words[j], 64);
    }
  }

  // ----- what happens to a chunk page

  lemma MarkTaken(slab: nat, words: seq<nat>, shift: nat, i: nat)
    requires 3 <= shift < PAGE_SHIFT && ChunkPage(slab, words, shift, true) && i < Chunks(shift)
             && !Used(slab, words, shift, i)
    ensures Reserved(shift) <= i && (shift < EXACT_SHIFT ==> i / WORD_BITS < |words|)
    ensures var slab', words' := MarkSlab(slab, shift, i, true), MarkWords(words, shift, i, true);
            ChunkPage(slab', words', shift, !Full(slab', words', shift))
  {
    hide LayoutOk, Used, MarkSlab, MarkWords, Full, Chunks, Reserved;
    MarkLayout(slab, words, shift, i, true);
    var slab', words' := MarkSlab(slab, shift, i, true), MarkWords(words, shift, i, true);
    FullIsNoRoom(slab', words', shift);
    forall j: nat ensures Used(slab', words', shift, j) <==> j == i || Used(slab, words, shift, j)
    { MarkUsed(slab, words, shift, i, true, j); }
  }

  lemma MarkGiven(slab: nat, words: seq<nat>, shift: nat, i: nat, listed: bool)
    requires 3 <= shift < PAGE_SHIFT && ChunkPage(slab, words, shift, listed) && Reserved(shift) <= i < Chunks(shift)
             && Used(slab, words, shift, i)
    ensures shift < EXACT_SHIFT ==> i / WORD_BITS < |words|
    ensures var slab', words' := MarkSlab(slab, shift, i, false), MarkWords(words, shift, i, false);
            && LayoutOk(slab', words', shift)
            && (!Vacant(slab', words', shift) ==> ChunkPage(slab', words', shift, true))
            && (Vacant(slab', words', shift) ==>
              forall j :: Reserved(shift) <= j < Chunks(shift) && Used(slab, words, shift, j) ==> j == i)
  {
    hide LayoutOk, Used, MarkSlab, MarkWords, Vacant, Chunks, Reserved;
    MarkLayout(slab, words, shift, i, false);
    var slab', words' := MarkSlab(slab, shift, i, false), MarkWords(words, shift, i, false);
    VacantIsUnused(slab', words', shift);
    forall j: nat ensures Used(slab', words', shift, j) <==> j != i && Used(slab, words, shift, j)
    { MarkUsed(slab, words, shift, i, false, j); }
  }

  /** The first chunk not under the map is handed out when a page is cut. */
  function FreshSlab(shift: nat): nat {
    if shift < EXACT_SHIFT then shift else if shift == EXACT_SHIFT then 1 else MAP_UNIT + shift
  }

  function FreshWords(shift: nat): seq<nat>
    requires shift <= PAGE_SHIFT
  {
    seq(Words(shift), j => if j == 0 then Pow2(Reserved(shift) + 1) - 1 else 0)
  }

  lemma FreshUsed(shift: nat, i: nat)
    requires 3 <= shift < PAGE_SHIFT && i < Chunks(shift)
    ensures Used(FreshSlab(shift), FreshWords(shift), shift, i) <==> i <= Reserved(shift)
  {
    hide Pow2;
    Layouts(shift);
    BitOfOnes(Reserved(shift) + 1, i % WORD_BITS);
    BitOfZero(i % WORD_BITS);
    BitOfOnes(1, i);
    OneIs();
  }

  lemma OneIs()
    ensures Pow2(1) == 2
  {
  }

  lemma FreshPage(shift: nat)
    requires 3 <= shift < PAGE_SHIFT
    ensures ChunkPage(FreshSlab(shift), FreshWords(shift), shift, true)
    ensures Reserved(shift) < Chunks(shift) && FreshSlab(shift) < WORD_LIMIT
  {
    hide Used, Pow2;
    Layouts(shift);
    forall i: nat | i < Chunks(shift) ensures Used(FreshSlab(shift), FreshWords(shift), shift, i) <==>
        i <= Reserved(shift) { FreshUsed(shift, i); }
    assert Used(FreshSlab(shift), FreshWords(shift), shift, Reserved(shift));
    assert !Used(FreshSlab(shift), FreshWords(shift), shift, Reserved(shift) + 1);
    FreshLayout(shift);
  }

  lemma FreshLayout(shift: nat)
    requires 3 <= shift < PAGE_SHIFT
    ensures LayoutOk(FreshSlab(shift), FreshWords(shift), shift)
  {
    hide Pow2;
    Layouts(shift);
    WordLimitIs(64);
    if shift < EXACT_SHIFT { PowMonotone(Reserved(shift) + 1, 64); }
    if shift > EXACT_SHIFT { PowMonotone(1, Chunks(shift)); OneIs(); }
  }

  lemma {:induction false} PowMonotone(j: nat, k: nat)
    requires j <= k
    ensures Pow2(j) <= Pow2(k)
  {
    if j < k { PowMonotone(j, k - 1); }
  }
}

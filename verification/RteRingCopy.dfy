/**
 The copy macros ENQUEUE_PTRS and DEQUEUE_PTRS of cpp-util/rte_ring.h: four entries at a time when
 the range does not reach the end of the table, two plain loops when it does.
 */
module RteRingCopy {
  import Bits
  import RteRing

  /** The plain copy: one entry at a time, each at its index modulo the size. */
  function PlainCopy<T>(ring: seq<T>, h: nat, objs: seq<T>, n: nat): (r: seq<T>)
    requires |ring| > 0 && n <= |objs|
    ensures |r| == |ring|
  {
    if n == 0 then ring
    else PlainCopy(ring, h, objs, n - 1)[RteRing.Slot(|ring|, h + n - 1) := objs[n - 1]]
  }

  lemma PlainCopyNone<T>(ring: seq<T>, h: nat, objs: seq<T>)
    requires |ring| > 0
    ensures PlainCopy(ring, h, objs, 0) == ring
  {
  }

  /** Slot `j` is outside the range of `n` entries from `h`. */
  predicate Outside(size: nat, h: nat, n: nat, j: nat)
    requires size > 0
  {
    forall x :: h <= x < h + n ==> j != RteRing.Slot(size, x)
  }

  /** After a plain copy shorter than the table every entry is in its slot and no other slot changed. */
  lemma {:induction false} PlainCopyIs<T>(ring: seq<T>, h: nat, objs: seq<T>, n: nat, k: nat, j: nat)
    requires n <= |objs| && n < |ring| && j < |ring|
    ensures k < n ==>
              && RteRing.Slot(|ring|, h + k) < |ring|
              && PlainCopy(ring, h, objs, n)[RteRing.Slot(|ring|, h + k)] == objs[k]
    ensures Outside(|ring|, h, n, j) ==> PlainCopy(ring, h, objs, n)[j] == ring[j]
  {
    if n > 0 {
      PlainCopyIs(ring, h, objs, n - 1, k, j);
      if k < n - 1 { RteRing.SlotsDiffer(|ring|, h + k, h + n - 1); }
    }
  }

  method EnqueuePtrs<T>(ring: array<T>, prodHead: nat, objs: seq<T>, n: nat, ghost k: nat)
    requires ring.Length == Bits.Pow2(k) && n < ring.Length && n <= |objs|
    modifies ring
    ensures ring[..] == PlainCopy(old(ring[..]), prodHead, objs, n)
  {
    Bits.MaskIsRemainder(prodHead, k);
    var idx := Bits.BitAnd(prodHead, ring.Length - 1);
    if idx + n < ring.Length {
      PutByFours(ring, prodHead, objs, n, idx);
    } else {
      PutWrapped(ring, prodHead, objs, n, idx);
    }
  }

  method PutByFours<T>(ring: array<T>, ghost h: nat, objs: seq<T>, n: nat, start: nat)
    requires ring.Length > 0 && n <= |objs| && start == RteRing.Slot(ring.Length, h) && start + n < ring.Length
    modifies ring
    ensures ring[..] == PlainCopy(old(ring[..]), h, objs, n)
  {
    hide RteRing.Slot, PlainCopy;
    ghost var was := ring[..];
    assert ring[..] == PlainCopy(was, h, objs, 0) by { PlainCopyNone(was, h, objs); }
    var i, idx := 0, start;
    var rest := n % 4;
    ghost var turns := 0;
    while i < n - rest
      invariant i == 4 * turns <= n - rest && idx == start + i
      invariant ring[..] == PlainCopy(was, h, objs, i)
    {
      PutFour(ring, was, h, objs, i, idx);
      i, idx, turns := i + 4, idx + 4, turns + 1;
    }
    PutRest(ring, was, h, objs, i, idx, rest);
  }

  /** The body of the unrolled loop. */
  method PutFour<T>(ring: array<T>, ghost was: seq<T>, ghost h: nat, objs: seq<T>, i: nat, idx: nat)
    requires |was| == ring.Length > 0 && i + 4 <= |objs| && idx + 4 <= ring.Length
             && idx == RteRing.Slot(ring.Length, h) + i
    requires ring[..] == PlainCopy(was, h, objs, i)
    modifies ring
    ensures ring[..] == PlainCopy(was, h, objs, i + 4)
  {
    hide RteRing.Slot, PlainCopy;
    Put(ring, was, h, objs, i, idx);
    Put(ring, was, h, objs, i + 1, idx + 1);
    Put(ring, was, h, objs, i + 2, idx + 2);
    Put(ring, was, h, objs, i + 3, idx + 3);
  }

  /** The switch after it, each case falling through to the next. */
  method PutRest<T>(ring: array<T>, ghost was: seq<T>, ghost h: nat, objs: seq<T>, at: nat, slot: nat, rest: nat)
    requires |was| == ring.Length > 0 && rest < 4 && at + rest <= |objs| && slot + rest <= ring.Length
    requires slot == RteRing.Slot(ring.Length, h) + at && ring[..] == PlainCopy(was, h, objs, at)
    modifies ring
    ensures ring[..] == PlainCopy(was, h, objs, at + rest)
  {
    hide RteRing.Slot, PlainCopy;
    var i, idx := at, slot;
    if rest == 3 { Put(ring, was, h, objs, i, idx); i, idx := i + 1, idx + 1; }
    if rest >= 2 { Put(ring, was, h, objs, i, idx); i, idx := i + 1, idx + 1; }
    if rest >= 1 { Put(ring, was, h, objs, i, idx); i, idx := i + 1, idx + 1; }
  }

  method PutWrapped<T>(ring: array<T>, ghost h: nat, objs: seq<T>, n: nat, start: nat)
    requires ring.Length > 0 && n <= |objs| && start == RteRing.Slot(ring.Length, h)
    requires ring.Length <= start + n && n < ring.Length
    modifies ring
    ensures ring[..] == PlainCopy(old(ring[..]), h, objs, n)
  {
    ghost var was := ring[..];
    var i, idx := 0, start;
    while idx < ring.Length
      invariant i <= n && idx == start + i <= ring.Length
      invariant ring[..] == PlainCopy(was, h, objs, i)
    {
      Put(ring, was, h, objs, i, idx);
      i, idx := i + 1, idx + 1;
    }
    idx := 0;
    while i < n
      invariant ring.Length - start <= i <= n && idx == start + i - ring.Length
      invariant ring[..] == PlainCopy(was, h, objs, i)
    {
      Put(ring, was, h, objs, i, idx);
      i, idx := i + 1, idx + 1;
    }
  }

  /** r->ring[idx] = obj_table[i], where `idx` counts on from the slot of `h` with at most one wrap. */
  method Put<T>(ring: array<T>, ghost was: seq<T>, ghost h: nat, objs: seq<T>, i: nat, idx: nat)
    requires |was| == ring.Length > 0 && i < |objs| && idx < ring.Length
    requires var at := RteRing.Slot(ring.Length, h) + i;
             at < 2 * ring.Length && idx == if at < ring.Length then at else at - ring.Length
    requires ring[..] == PlainCopy(was, h, objs, i)
    modifies ring
    ensures ring[..] == PlainCopy(was, h, objs, i + 1)
  {
    hide RteRing.Slot;
    if RteRing.Slot(ring.Length, h) + i < ring.Length { NoWrap(ring.Length, h, i); } else { Wraps(ring.Length, h, i); }
    ring[idx] := objs[i];
  }

  lemma NoWrap(size: nat, h: nat, i: nat)
    requires size > 0 && RteRing.Slot(size, h) + i < size
    ensures RteRing.Slot(size, h + i) == RteRing.Slot(size, h) + i
  {
    Bits.RemainderUnique(h + i, size, h / size, h % size + i);
  }

  lemma Wraps(size: nat, h: nat, i: nat)
    requires size > 0 && size <= RteRing.Slot(size, h) + i < 2 * size
    ensures RteRing.Slot(size, h + i) == RteRing.Slot(size, h) + i - size
  {
    Bits.RemainderUnique(h + i, size, h / size + 1, h % size + i - size);
  }

  method DequeuePtrs<T>(ring: array<T>, consHead: nat, table: array<T>, n: nat, ghost k: nat)
    requires ring.Length == Bits.Pow2(k) && n < ring.Length && n <= table.Length && table != ring
    modifies table
    ensures forall j :: 0 <= j < n ==> table[j] == ring[RteRing.Slot(ring.Length, consHead + j)]
    ensures table[n..] == old(table[n..])
  {
    Bits.MaskIsRemainder(consHead, k);
    var idx := Bits.BitAnd(consHead, ring.Length - 1);
    if idx + n < ring.Length {
      GetByFours(ring, idx, table, n);
      forall j | 0 <= j < n ensures table[j] == ring[RteRing.Slot(ring.Length, consHead + j)]
      { NoWrap(ring.Length, consHead, j); }
    } else {
      GetWrapped(ring, idx, table, n);
      forall j | 0 <= j < n ensures table[j] == ring[RteRing.Slot(ring.Length, consHead + j)] {
        if j < ring.Length - idx { NoWrap(ring.Length, consHead, j); } else { Wraps(ring.Length, consHead, j); }
      }
    }
  }

  method GetByFours<T>(ring: array<T>, start: nat, table: array<T>, n: nat)
    requires start + n < ring.Length && n <= table.Length && table != ring
    modifies table
    ensures forall j :: 0 <= j < n ==> table[j] == ring[start + j]
    ensures table[n..] == old(table[n..])
  {
    var i, idx := 0, start;
    var rest := n % 4;
    ghost var turns := 0;
    while i < n - rest
      invariant i == 4 * turns <= n - rest && idx == start + i
      invariant forall j :: 0 <= j < i ==> table[j] == ring[start + j]
      invariant forall j :: n <= j < table.Length ==> table[j] == old(table[j])
    {
      GetFour(ring, idx, table, i);
      i, idx, turns := i + 4, idx + 4, turns + 1;
    }
    GetRest(ring, idx, table, i, rest);
  }

  method GetFour<T>(ring: array<T>, start: nat, table: array<T>, from: nat)
    requires start + 4 <= ring.Length && from + 4 <= table.Length && table != ring
    modifies table
    ensures forall j :: 0 <= j < table.Length ==>
              table[j] == if from <= j < from + 4 then ring[start + j - from] else old(table[j])
  {
    table[from] := ring[start];
    table[from + 1] := ring[start + 1];
    table[from + 2] := ring[start + 2];
    table[from + 3] := ring[start + 3];
  }

  /** The one to three entries left over, by falling through the cases of a switch. */
  method GetRest<T>(ring: array<T>, start: nat, table: array<T>, from: nat, rest: nat)
    requires rest < 4 && start + rest < ring.Length && from + rest <= table.Length && table != ring
    modifies table
    ensures forall j :: 0 <= j < table.Length ==>
              table[j] == if from <= j < from + rest then ring[start + j - from] else old(table[j])
  {
    var i, idx := from, start;
    if rest == 3 { table[i] := ring[idx]; i, idx := i + 1, idx + 1; }
    if rest >= 2 { table[i] := ring[idx]; i, idx := i + 1, idx + 1; }
    if rest >= 1 { table[i] := ring[idx]; i, idx := i + 1, idx + 1; }
  }

  method GetWrapped<T>(ring: array<T>, start: nat, table: array<T>, n: nat)
    requires start < ring.Length <= start + n && n < ring.Length && n <= table.Length && table != ring
    modifies table
    ensures forall j :: 0 <= j < n ==>
              table[j] == ring[if start + j < ring.Length then start + j else start + j - ring.Length]
    ensures table[n..] == old(table[n..])
  {
    var i, idx := 0, start;
    while idx < ring.Length
      invariant i <= n && idx == start + i <= ring.Length
      invariant forall j :: 0 <= j < i ==> table[j] == ring[start + j]
      invariant forall j :: n <= j < table.Length ==> table[j] == old(table[j])
    {
      table[i] := ring[idx];
      i, idx := i + 1, idx + 1;
    }
    idx := 0;
    while i < n
      invariant ring.Length - start <= i <= n && idx == start + i - ring.Length
      invariant forall j :: 0 <= j < ring.Length - start ==> table[j] == ring[start + j]
      invariant forall j :: ring.Length - start <= j < i ==> table[j] == ring[start + j - ring.Length]
      invariant forall j :: n <= j < table.Length ==> table[j] == old(table[j])
    {
      table[i] := ring[idx];
      i, idx := i + 1, idx + 1;
    }
  }
}

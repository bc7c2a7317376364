/** Unsigned words seen as sets of bits. */
module Bits {

  function Pow2(k: nat): (p: nat)
    ensures p > 0
  {
    if k == 0 then 1 else 2 * Pow2(k - 1)
  }

  /** w & (1 << i) != 0 */
  predicate Bit(w: nat, i: nat)
    decreases i
  {
    if i == 0 then w % 2 == 1 else Bit(w / 2, i - 1)
  }

  /** w | (1 << i) */
  function SetBit(w: nat, i: nat): nat
    decreases i
  {
    if i == 0 then w / 2 * 2 + 1 else 2 * SetBit(w / 2, i - 1) + w % 2
  }

  /** w & ~(1 << i) */
  function ClearBit(w: nat, i: nat): nat
    decreases i
  {
    if i == 0 then w / 2 * 2 else 2 * ClearBit(w / 2, i - 1) + w % 2
  }

  lemma {:induction false} SetBitIs(w: nat, i: nat, j: nat)
    ensures Bit(SetBit(w, i), j) <==> j == i || Bit(w, j)
    decreases i
  {
    if i > 0 && j > 0 { SetBitIs(w / 2, i - 1, j - 1); }
  }

  lemma {:induction false} ClearBitIs(w: nat, i: nat, j: nat)
    ensures Bit(ClearBit(w, i), j) <==> j != i && Bit(w, j)
    decreases i
  {
    if i > 0 && j > 0 { ClearBitIs(w / 2, i - 1, j - 1); }
  }

  lemma {:induction false} SetBitBound(w: nat, i: nat, k: nat)
    requires w < Pow2(k) && i < k
    ensures SetBit(w, i) < Pow2(k)
    decreases i
  {
    if i > 0 { SetBitBound(w / 2, i - 1, k - 1); }
  }

  lemma {:induction false} ClearBitBound(w: nat, i: nat, k: nat)
    requires w < Pow2(k)
    ensures ClearBit(w, i) < Pow2(k)
    decreases i
  {
    if i > 0 && k > 0 { ClearBitBound(w / 2, i - 1, k - 1); }
    if k == 0 { ClearBitSmaller(w, i); }
  }

  lemma {:induction false} ClearBitSmaller(w: nat, i: nat)
    ensures ClearBit(w, i) <= w
    decreases i
  {
    if i > 0 { ClearBitSmaller(w / 2, i - 1); }
  }

  lemma BitStep(w: nat, i: nat)
    ensures Bit(w, i + 1) == Bit(w / 2, i)
  {
  }

  lemma {:induction false} AllSet(w: nat, k: nat)
    requires w < Pow2(k) && forall i :: 0 <= i < k ==> Bit(w, i)
    ensures w == Pow2(k) - 1
  {
    if k > 0 {
      forall i | 0 <= i < k - 1 ensures Bit(w / 2, i) { BitStep(w, i); }
      AllSet(w / 2, k - 1);
      assert Bit(w, 0);
    }
  }

  lemma {:induction false} NoneSet(w: nat, k: nat)
    requires w < Pow2(k) && forall i :: 0 <= i < k ==> !Bit(w, i)
    ensures w == 0
  {
    if k > 0 {
      forall i | 0 <= i < k - 1 ensures !Bit(w / 2, i) { BitStep(w, i); }
      NoneSet(w / 2, k - 1);
      assert !Bit(w, 0);
    }
  }

  lemma {:induction false} BitOfZero(i: nat)
    ensures !Bit(0, i)
  {
    if i > 0 { BitOfZero(i - 1); }
  }

  /** The bits of 2^k - 1 are the first k. */
  lemma {:induction false} BitOfOnes(k: nat, i: nat)
    ensures Bit(Pow2(k) - 1, i) <==> i < k
  {
    if k == 0 { BitOfZero(i); } else if i > 0 {
      assert (Pow2(k) - 1) / 2 == Pow2(k - 1) - 1;
      BitOfOnes(k - 1, i - 1);
    }
  }

  predicate AllBits(w: nat, k: nat) { forall i :: 0 <= i < k ==> Bit(w, i) }

  predicate NoBits(w: nat, k: nat) { forall i :: 0 <= i < k ==> !Bit(w, i) }

  /** A k-bit word is 2^k - 1 exactly when every bit is set. */
  lemma FullWord(w: nat, k: nat)
    requires w < Pow2(k)
    ensures w == Pow2(k) - 1 <==> AllBits(w, k)
  {
    if w == Pow2(k) - 1 {
      forall i | 0 <= i < k ensures Bit(w, i) { BitOfOnes(k, i); }
    } else if AllBits(w, k) {
      AllSet(w, k);
    }
  }

  /** It is zero exactly when none is. */
  lemma EmptyWord(w: nat, k: nat)
    requires w < Pow2(k)
    ensures w == 0 <==> NoBits(w, k)
  {
    if w == 0 {
      forall i | 0 <= i < k ensures !Bit(w, i) { BitOfZero(i); }
    } else if NoBits(w, k) {
      NoneSet(w, k);
    }
  }

  lemma {:induction false} PowSum(j: nat, k: nat)
    ensures Pow2(j + k) == Pow2(j) * Pow2(k)
  {
    if j > 0 {
      PowSum(j - 1, k);
      DoubleProduct(Pow2(j - 1), Pow2(k), Pow2(j - 1 + k));
    }
  }

  lemma DoubleProduct(x: int, y: int, p: int)
    requires p == x * y
    ensures 2 * p == (2 * x) * y
  {
  }

  lemma Squared(k: nat, v: nat)
    requires Pow2(k) == v
    ensures Pow2(2 * k) == v * v
  {
    hide Pow2;
    PowSum(k, k);
  }

  lemma LargePowers()
    ensures Pow2(32) == 0x1_0000_0000 && Pow2(64) == 0x1_0000_0000_0000_0000
  {
    assert Pow2(4) == 16;
    hide Pow2;
    Squared(4, 16);
    Squared(8, 0x100);
    Squared(16, 0x1_0000);
    Squared(32, 0x1_0000_0000);
  }

  // ----- remainders and masks

  function Quotient(x: nat, k: nat): nat
    requires k > 0
  {
    x / k
  }

  lemma Grows(t: int, k: int)
    requires t >= 1 && k >= 0
    ensures t * k >= k
  {
    assert (t - 1) * k >= 0;
  }

  lemma NoMultiple(t: int, k: int)
    requires k > 0 && -k < t * k < k
    ensures t == 0
  {
    if t >= 1 { Grows(t, k); }
    if t <= -1 { Grows(-t, k); }
  }

  lemma RemainderUnique(x: int, m: nat, q: int, r: nat)
    requires m > 0 && x == m * q + r && r < m
    ensures x % m == r && x / m == q
  {
    var q', r' := x / m, x % m;
    assert x == m * q' + r';
    assert (q - q') * m == r' - r;
    NoMultiple(q - q', m);
  }

  lemma Multiple(q: int, m: nat)
    requires m > 0
    ensures (q * m) % m == 0 && (q * m) / m == q
  {
    RemainderUnique(q * m, m, q, 0);
  }

  lemma RemainderShift(x: int, m: nat, q: int)
    requires m > 0
    ensures (x + m * q) % m == x % m
  {
    RemainderUnique(x + m * q, m, x / m + q, x % m);
  }

  /** The bitwise and of two unsigned integers. */
  function BitAnd(x: nat, y: nat): nat
    decreases x
  {
    if x == 0 || y == 0 then 0 else 2 * BitAnd(x / 2, y / 2) + (x % 2) * (y % 2)
  }

  /** Masking with a power of two less one is the remainder. */
  lemma {:induction false} MaskIsRemainder(x: nat, k: nat)
    ensures BitAnd(x, Pow2(k) - 1) == x % Pow2(k)
  {
    if k > 0 {
      var m := Pow2(k - 1);
      assert Pow2(k) == 2 * m;
      MaskIsRemainder(x / 2, k - 1);
      OddMask(m);
      AndStep(x, 2 * m - 1, (x / 2) % m);
      HalfRemainder(x, m);
    }
  }

  lemma OddMask(m: nat)
    requires m > 0
    ensures (2 * m - 1) / 2 == m - 1 && (2 * m - 1) % 2 == 1
  {
  }

  lemma AndStep(x: nat, y: nat, a: nat)
    requires y % 2 == 1 && BitAnd(x / 2, y / 2) == a
    ensures BitAnd(x, y) == 2 * a + x % 2
  {
  }

  lemma HalfRemainder(x: nat, m: nat)
    requires m > 0
    ensures x % (2 * m) == 2 * ((x / 2) % m) + x % 2
  {
    var q, r := (x / 2) / m, (x / 2) % m;
    assert x == (2 * m) * q + (2 * r + x % 2);
    RemainderUnique(x, 2 * m, q, 2 * r + x % 2);
  }
}

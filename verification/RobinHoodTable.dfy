/**
 The operations of sherwood_v3_table (cpp-util/ska_hashtable.h) on the array of entries. The hash
 policy is left open: `index` is any function into the slots, `nextSize` never shrinks a request and
 `lookupsFor` allows at least four probes. Growing may start over any number of times under a bad
 hash; `fuel` bounds how often, and `done` says whether the operation came to an end within it. With
 the bound on probes that the source computes it always does: `Insert` and `Resize` need no fuel.
 */
module RobinHoodTable {
  import opened RobinHood
  import Bits

  const MIN_LOOKUPS: nat := 4

  ghost predicate PolicyOk<K(!new)>(index: (K, nat) -> nat, nextSize: nat -> nat, lookupsFor: nat -> nat) {
    && (forall k: K, n: nat :: index(k, n) < if n >= 2 then n else MIN_LOOKUPS - 1)
    && (forall n: nat :: nextSize(n) >= n && nextSize(n) >= 2)
    && (forall n: nat :: lookupsFor(n) >= MIN_LOOKUPS)
  }

  function Ceil(x: real): int { if x.Floor as real == x then x.Floor else x.Floor + 1 }

  function Max(a: int, b: int): int { if a < b then b else a }

  function Min(a: int, b: int): int { if a < b then a else b }

  lemma DropCount<K, V>(m: map<K, V>, k: K)
    requires k in m
    ensures |m - {k}| == |m| - 1
  {
    var m' := m - {k};
    assert m == m'[k := m[k]];
  }

  /** A table with nothing in it. */
  lemma EmptyTable<K, V>(es: seq<Entry<K, V>>, index: (K, nat) -> nat, slots: nat, lookups: nat)
    requires 1 <= |es| == slots + lookups && es[|es| - 1] == End && forall i :: 0 <= i < |es| - 1 ==> es[i] == Empty
    ensures Steps(es) && Placed(es, index, slots, lookups) && Holds(es, map[], map[])
  {
    forall i | 0 <= i < |es| ensures StepAt(es, i) {}
  }

  /** The part of m that is not in slots [b, e). */
  ghost function Outside<K, V>(m: map<K, V>, pos: map<K, nat>, b: nat, e: nat): map<K, V>
    requires m.Keys <= pos.Keys
  {
    map k | k in m && !(b <= pos[k] < e) :: m[k]
  }

  lemma OutsideStep<K, V>(es: seq<Entry<K, V>>, pos0: map<K, nat>, m0: map<K, V>, pos: map<K, nat>, m: map<K, V>,
                          b: nat, i: nat)
    requires m0.Keys <= pos0.Keys && Holds(es, pos0, m0) && b <= i < |es| && m == Outside(m0, pos0, b, i)
             && pos.Keys == m.Keys
    ensures es[i].Full? ==>
              es[i].key in m && Outside(m0, pos0, b, i + 1) == m - {es[i].key}
              && |Outside(m0, pos0, b, i + 1)| == |m| - 1
    ensures !es[i].Full? ==> Outside(m0, pos0, b, i + 1) == m
  {
    hide Holds;
    OnlyHere(es, pos0, m0, i);
    var m' := Outside(m0, pos0, b, i + 1);
    if es[i].Full? {
      assert m' == m - {es[i].key};
      DropCount(m, es[i].key);
    } else {
      assert m' == m;
    }
  }

  lemma OutsideNone<K, V>(m: map<K, V>, pos: map<K, nat>, b: nat, e: nat)
    requires m.Keys <= pos.Keys
    ensures m == map[] ==> Outside(m, pos, b, e) == map[]
  {
  }

  /** Slot i has the one key whose position it is. */
  lemma OnlyHere<K, V>(es: seq<Entry<K, V>>, pos: map<K, nat>, m: map<K, V>, i: nat)
    requires m.Keys <= pos.Keys && Holds(es, pos, m) && i < |es|
    ensures es[i].Full? ==> es[i].key in m && pos[es[i].key] == i
    ensures forall k :: k in m && pos[k] == i ==> es[i].Full? && es[i].key == k
  {
    forall k | k in m ensures HasAt(es, pos[k], k) {}
  }

  lemma EmptyModel<K, V>(m: map<K, V>)
    ensures |m| == 0 ==> m == map[]
  {
    if |m| == 0 { assert m.Keys == {}; }
  }

  lemma CeilZero(n: nat, load: real)
    requires load > 0.0
    ensures Ceil(n as real / load) >= 0 && (Ceil(n as real / load) == 0 ==> n == 0)
  {
    var x := n as real / load;
    assert x * load == n as real;
    assert n > 0 ==> x > 0.0;
  }

  /** The part of m in slots before i. */
  ghost function Below<K, V>(m: map<K, V>, pos: map<K, nat>, i: nat): map<K, V>
    requires m.Keys <= pos.Keys
  {
    map k | k in m && pos[k] < i :: m[k]
  }

  lemma HoldsDomain<K, V>(es: seq<Entry<K, V>>, pos: map<K, nat>, m: map<K, V>)
    requires Holds(es, pos, m)
    ensures pos.Keys == m.Keys && Below(m, pos, 0) == map[]
  {
  }

  lemma BelowStep<K, V>(es: seq<Entry<K, V>>, pos: map<K, nat>, m: map<K, V>, i: nat)
    requires m.Keys <= pos.Keys && Holds(es, pos, m) && i < |es|
    ensures es[i].Full? ==>
              es[i].key !in Below(m, pos, i) && Below(m, pos, i + 1) == Below(m, pos, i)[es[i].key := es[i].val]
    ensures !es[i].Full? ==> Below(m, pos, i + 1) == Below(m, pos, i)
  {
    forall k | k in m ensures HasAt(es, pos[k], k) && es[pos[k]].val == m[k] {}
    if es[i].Full? { KeyThere(es, pos, m, i); }
  }

  lemma BelowAll<K, V>(es: seq<Entry<K, V>>, pos: map<K, nat>, m: map<K, V>, last: nat)
    requires m.Keys <= pos.Keys && Holds(es, pos, m) && last + 1 == |es| && es[last] == End
    ensures Below(m, pos, last) == m
  {
    forall k | k in m ensures pos[k] < last { assert HasAt(es, pos[k], k); }
  }

  lemma NotSentinel<K, V>(es: seq<Entry<K, V>>, index: (K, nat) -> nat, slots: nat, lookups: nat, at: nat)
    requires Placed(es, index, slots, lookups) && at < |es| - 1
    ensures !es[at].End?
  {
    assert PlacedAt(es[at], at, index, slots, lookups);
  }

  /** A new key goes straight into an empty slot. */
  lemma PutNew<K, V>(es: seq<Entry<K, V>>, index: (K, nat) -> nat, slots: nat, lookups: nat, pos: map<K, nat>,
                     m: map<K, V>, at: nat, d: nat, k: K, v: V)
    requires Steps(es) && Placed(es, index, slots, lookups) && Holds(es, pos, m) && k !in m
    requires at < |es| - 1 && es[at].Empty? && d < lookups && at == index(k, slots) + d
             && (d > 0 ==> Dist(es[at - 1]) >= d - 1)
    ensures var es' := es[at := Full(d, k, v)];
            Steps(es') && Placed(es', index, slots, lookups) && Holds(es', pos[k := at], m[k := v])
  {
    hide Steps, Holds, Placed;
    PutSteps(es, at, Full(d, k, v));
    PutPlaced(es, index, slots, lookups, at, Full(d, k, v));
    PutHolds(es, pos, m, at, d, k, v);
  }

  lemma IndexInRange<K(!new)>(index: (K, nat) -> nat, nextSize: nat -> nat, lookupsFor: nat -> nat, slots: nat)
    requires PolicyOk(index, nextSize, lookupsFor) && slots >= 2
    ensures forall k: K :: index(k, slots) < slots
  {
  }

  lemma CarryFacts<K, V>(es: seq<Entry<K, V>>, index: (K, nat) -> nat, slots: nat, lookups: nat, pos: map<K, nat>,
                         m: map<K, V>, at: nat, d: nat, x: Item<K, V>, total: map<K, V>)
    requires Carrying(es, index, slots, lookups, pos, m, at, d, x, total)
    ensures Steps(es) && Placed(es, index, slots, lookups) && Holds(es, pos, m)
    ensures |es| >= 1 && es[|es| - 1] == End && x.key !in m && total == m[x.key := x.val] && d < lookups && d >= 1
            && at == index(x.key, slots) + d && Dist(es[at - 1]) >= d - 1
  {
  }

  /** The displaced element x0 looks for a place after slot `at`, displacing others in turn, until
      one settles in an empty slot or has gone as far as it may. */
  method Chain<K(==, !new), V>(a: array<Entry<K, V>>, ghost index: (K, nat) -> nat, ghost slots: nat, lookups: nat,
                               at: nat, c0: nat, x0: Item<K, V>, ghost ps0: map<K, nat>, ghost m0: map<K, V>,
                               ghost total: map<K, V>)
      returns (settled: bool, x: Item<K, V>, ghost ps: map<K, nat>, ghost m: map<K, V>)
    requires at < a.Length && Carrying(a[..], index, slots, lookups, ps0, m0, at + 1, c0, x0, total)
    requires forall k: K :: index(k, slots) < slots
    modifies a
    ensures a[at] == old(a[at]) && a[a.Length - 1] == End
    ensures settled ==> Steps(a[..]) && Placed(a[..], index, slots, lookups) && Holds(a[..], ps, total)
    ensures !settled ==> Holds(a[..], ps, m) && x.key !in m && total == m[x.key := x.val] && |total| > lookups
  {
    hide Steps, Placed, Holds, Carrying;
    var c: nat, cur: nat := c0, at + 1;
    x, ps, m := x0, ps0, m0;
    while true
      invariant at < cur && a[at] == old(a[at])
      invariant Carrying(a[..], index, slots, lookups, ps, m, cur, c, x, total)
      decreases a.Length - cur
    {
      ghost var es := a[..];
      BeforeSentinel(es, index, slots, lookups, ps, m, cur, c, x, total);
      CarryFacts(es, index, slots, lookups, ps, m, cur, c, x, total);
      if a[cur].Empty? {
        CarrySettles(es, index, slots, lookups, ps, m, cur, c, x, total);
        a[cur] := Full(c, x.key, x.val);
        assert a[..] == es[cur := Full(c, x.key, x.val)];
        ps := ps[x.key := cur];
        return true, x, ps, m;
      } else if a[cur].dist < c {
        ps, m := SwapIn(es, index, slots, lookups, ps, m, cur, c, x, total);
        var y, e := Item(a[cur].key, a[cur].val), a[cur].dist + 1;
        a[cur] := Full(c, x.key, x.val);
        assert a[..] == es[cur := Full(c, x.key, x.val)];
        x, c := y, e;
      } else {
        if c + 1 == lookups {
          Crowd(es, index, slots, lookups, ps, m, cur, c);
          return false, x, ps, m;
        }
        CarryPasses(es, index, slots, lookups, ps, m, cur, c, x, total);
        c := c + 1;
      }
      cur := cur + 1;
    }
  }

  lemma BeforeEnd<K, V>(es: seq<Entry<K, V>>, p: nat)
    requires p < |es| && es[p].Full? && es[|es| - 1] == End
    ensures p < |es| - 1
  {
  }

  /** The table with slot p emptied: its key is gone, and behind it the gap opens. */
  lemma Emptied<K, V>(es: seq<Entry<K, V>>, index: (K, nat) -> nat, slots: nat, lookups: nat, pos: map<K, nat>,
                      m: map<K, V>, p: nat)
    requires Steps(es) && Placed(es, index, slots, lookups) && Holds(es, pos, m) && p < |es| - 1 && es[p].Full?
    ensures var es' := es[p := Empty];
            Gap(es', p + 1, 1) && Placed(es', index, slots, lookups) && Holds(es', pos - {es[p].key}, m - {es[p].key})
    ensures es[p].key in m && |m - {es[p].key}| == |m| - 1
  {
    hide Steps, Placed, Holds, Gap;
    KeyAt(es, index, slots, lookups, pos, m, p);
    DropHolds(es, pos, m, p);
    DropCount(m, es[p].key);
    PutPlaced(es, index, slots, lookups, p, Empty);
    GapOpens(es, p);
  }

  /** The backward shift after slot `hole` was emptied. */
  method ShiftBack<K(==), V>(a: array<Entry<K, V>>, ghost index: (K, nat) -> nat, ghost slots: nat, ghost lookups: nat,
                             hole: nat, ghost pos: map<K, nat>, ghost m: map<K, V>)
      returns (ghost ps: map<K, nat>)
    requires hole + 1 < a.Length && Gap(a[..], hole + 1, 1) && Placed(a[..], index, slots, lookups)
             && Holds(a[..], pos, m)
    modifies a
    ensures Steps(a[..]) && Placed(a[..], index, slots, lookups) && Holds(a[..], ps, m) && a[a.Length - 1] == End
  {
    hide Steps, Placed, Holds, Gap;
    var next: nat := hole + 1;
    ps := pos;
    ghost var gap: nat := 1;
    LastIsEnd(a[..], index, slots, lookups);
    while Dist(a[next]) > 0
      invariant 1 <= next < a.Length && a[a.Length - 1] == End && (Dist(a[next]) > 0 ==> gap == 1)
      invariant Gap(a[..], next, gap) && Placed(a[..], index, slots, lookups) && Holds(a[..], ps, m)
      decreases a.Length - next
    {
      ghost var es := a[..];
      gap := if Dist(a[next + 1]) > 0 then 1 else 0;
      GapIsEmpty(es, next, 1);
      GapMoves(es, next, 1, if Dist(a[next + 1]) < 1 then Dist(a[next + 1]) else 1);
      MovePlaced(es, index, slots, lookups, next, next - 1);
      MoveHolds(es, ps, m, next, next - 1);
      ps := ps[a[next].key := next - 1];
      a[next - 1] := a[next].(dist := a[next].dist - 1);
      a[next] := Empty;
      assert a[..] == Moved(es, next, next - 1);
      next := next + 1;
    }
    GapCloses(a[..], next, gap);
  }

  lemma GapIsEmpty<K, V>(es: seq<Entry<K, V>>, it: nat, gap: nat)
    requires Gap(es, it, gap) && gap >= 1
    ensures gap <= it < |es| && es[it - gap].Empty?
  {
  }

  /** The entries from slot e on move back over the cleared range, each by at most the last one's move. */
  method ShiftRange<K(==), V>(a: array<Entry<K, V>>, ghost index: (K, nat) -> nat, ghost slots: nat, ghost lookups: nat,
                              e: nat, gap0: nat, ghost pos: map<K, nat>, ghost m: map<K, V>)
      returns (ghost ps: map<K, nat>)
    requires e < a.Length && a[e].Full? && gap0 <= a[e].dist && (a[e].dist > 0 ==> gap0 >= 1)
    requires Gap(a[..], e, gap0) && Placed(a[..], index, slots, lookups) && Holds(a[..], pos, m)
    modifies a
    ensures Steps(a[..]) && Placed(a[..], index, slots, lookups) && Holds(a[..], ps, m) && a[a.Length - 1] == End
    ensures gap0 <= e && HasAt(a[..], e - gap0, old(a[e].key))
  {
    hide Steps, Placed, Holds, Gap;
    var it: nat, n: int := e, gap0;
    ps := pos;
    ghost var gap: nat := gap0;
    LastIsEnd(a[..], index, slots, lookups);
    GapBound(a[..], e, gap0);
    while Dist(a[it]) > 0
      invariant e <= it < a.Length && a[a.Length - 1] == End && n <= gap0
                && (Dist(a[it]) > 0 ==> gap == n && 1 <= n <= Dist(a[it]))
      invariant if it == e then gap == gap0 && a[e] == old(a[e]) else HasAt(a[..], e - gap0, old(a[e].key))
      invariant Gap(a[..], it, gap) && Placed(a[..], index, slots, lookups) && Holds(a[..], ps, m)
      decreases a.Length - it
    {
      ghost var es, n' := a[..], Min(Dist(a[it + 1]), n);
      GapIsEmpty(es, it, n);
      GapMoves(es, it, n, n');
      MovePlaced(es, index, slots, lookups, it, it - n);
      MoveHolds(es, ps, m, it, it - n);
      ps := ps[a[it].key := it - n];
      a[it - n] := a[it].(dist := a[it].dist - n);
      a[it] := Empty;
      assert a[..] == Moved(es, it, it - n);
      it := it + 1;
      n := Min(Dist(a[it]), n);
      gap := if n >= 0 then n else 0;
    }
    GapCloses(a[..], it, gap);
  }

  lemma GapBound<K, V>(es: seq<Entry<K, V>>, it: nat, gap: nat)
    requires Gap(es, it, gap)
    ensures gap <= it < |es|
  {
  }

  lemma NothingOutside<K, V>(m: map<K, V>, pos: map<K, nat>, b: nat)
    requires m.Keys <= pos.Keys
    ensures Outside(m, pos, b, b) == m
  {
  }

  lemma RangeAtEnd<K, V>(es: seq<Entry<K, V>>, b: nat, e: nat)
    requires Steps(es) && b <= e == |es| - 1 && es[e] == End
    ensures Steps(Cleared(es, b, e))
  {
    var es' := Cleared(es, b, e);
    forall j | 0 <= j < |es'| ensures StepAt(es', j) { assert StepAt(es, j); }
  }

  /** The entries in [b, e) are destroyed. */
  method ClearRange<K(==), V>(a: array<Entry<K, V>>, ghost index: (K, nat) -> nat, ghost slots: nat, ghost lookups: nat,
                              b: nat, e: nat, ghost pos: map<K, nat>, ghost m: map<K, V>)
      returns (ghost ps: map<K, nat>, gone: nat)
    requires b <= e < a.Length && Placed(a[..], index, slots, lookups) && Holds(a[..], pos, m) && m.Keys <= pos.Keys
    modifies a
    ensures a[..] == Cleared(old(a[..]), b, e) && Placed(a[..], index, slots, lookups)
    ensures Holds(a[..], ps, Outside(m, pos, b, e)) && gone == |m| - |Outside(m, pos, b, e)|
  {
    hide Placed, Holds, Outside, Cleared;
    ghost var es := a[..];
    ps, gone := pos, 0;
    NothingOutside(m, pos, b);
    ClearedNone(es, b);
    for i := b to e
      invariant a[..] == Cleared(es, b, i) && Placed(a[..], index, slots, lookups)
      invariant Holds(a[..], ps, Outside(m, pos, b, i)) && gone == |m| - |Outside(m, pos, b, i)|
    {
      ghost var now := a[..];
      NotYet(es, b, i);
      NotSentinel(now, index, slots, lookups, i);
      ClearedNext(es, b, i);
      HoldsDomain(now, ps, Outside(m, pos, b, i));
      OutsideStep(es, pos, m, ps, Outside(m, pos, b, i), b, i);
      if a[i].Full? {
        DropHolds(now, ps, Outside(m, pos, b, i), i);
        PutPlaced(now, index, slots, lookups, i, Empty);
        ps := ps - {a[i].key};
        a[i] := Empty;
        gone := gone + 1;
        assert a[..] == now[i := Empty];
      }
    }
  }

  lemma ClearedNone<K, V>(es: seq<Entry<K, V>>, b: nat)
    requires b <= |es|
    ensures Cleared(es, b, b) == es
  {
  }

  lemma NotYet<K, V>(es: seq<Entry<K, V>>, b: nat, i: nat)
    requires b <= i < |es|
    ensures |Cleared(es, b, i)| == |es| && Cleared(es, b, i)[i] == es[i]
  {
  }

  lemma ClearedNext<K, V>(es: seq<Entry<K, V>>, b: nat, i: nat)
    requires b <= i < |es| && !es[i].End?
    ensures Cleared(es, b, i + 1) == if es[i].Full? then Cleared(es, b, i)[i := Empty] else Cleared(es, b, i)
  {
  }

  /** After the range was cleared: how far the next entry may move, and the shift. */
  method CloseRange<K(==), V>(a: array<Entry<K, V>>, ghost index: (K, nat) -> nat, ghost slots: nat, ghost lookups: nat,
                              b: nat, e: nat, ghost es: seq<Entry<K, V>>, ghost pos: map<K, nat>, ghost m: map<K, V>)
      returns (r: nat, ghost ps: map<K, nat>)
    requires b < e < a.Length && |es| == a.Length && a[..] == Cleared(es, b, e) && Steps(es)
             && (e == a.Length - 1 || es[e].Full?)
    requires Placed(a[..], index, slots, lookups) && Holds(a[..], pos, m)
    modifies a
    ensures Steps(a[..]) && Placed(a[..], index, slots, lookups) && Holds(a[..], ps, m) && a[a.Length - 1] == End
    ensures r < a.Length && (e == a.Length - 1 ==> r == e) && (e < a.Length - 1 ==> HasAt(a[..], r, es[e].key))
  {
    hide Steps, Placed, Holds, Gap;
    ps := pos;
    LastIsEnd(a[..], index, slots, lookups);
    assert a[..][e] == es[e] && a[..][a.Length - 1] == es[a.Length - 1];
    if e == a.Length - 1 {
      RangeAtEnd(es, b, e);
      return e, ps;
    }
    var gap := Min(Dist(a[e]), e - b);
    RangeOpens(es, b, e, gap);
    r := e - gap;
    ps := ShiftRange(a, index, slots, lookups, e, gap, ps, m);
  }

  lemma LastIsEnd<K, V>(es: seq<Entry<K, V>>, index: (K, nat) -> nat, slots: nat, lookups: nat)
    requires Placed(es, index, slots, lookups)
    ensures es[|es| - 1] == End
  {
  }

  // ----- how often a table may have to grow

  function NextSlots(slots: nat): nat { Max(4, 2 * if slots == 1 then 0 else slots) }

  /** From n slots on, the probe bound and the load factor leave room for cap elements. */
  ghost predicate Ample(lookupsFor: nat -> nat, maxLoad: real, n: nat, cap: nat) {
    n >= 2 && forall s: nat :: s >= n ==> lookupsFor(s) > cap && Capacity(s, maxLoad) >= cap as real
  }

  /** Growing `fuel` times gets from this many slots to n. */
  predicate Enough(slots: nat, fuel: nat, n: nat)
    decreases fuel
  {
    slots >= n || (fuel > 0 && Enough(NextSlots(slots), fuel - 1, n))
  }

  lemma EnoughStep(slots: nat, fuel: nat, n: nat)
    ensures slots < n && Enough(slots, fuel, n) ==> fuel > 0 && Enough(NextSlots(slots), fuel - 1, n)
  {
  }

  function Capacity(slots: nat, maxLoad: real): real { slots as real * maxLoad }

  /** One element more than `count` is within the load, and no probe can go too far. */
  predicate RoomFor(slots: nat, lookups: nat, maxLoad: real, count: nat) {
    slots >= 2 && lookups > count && (count + 1) as real <= Capacity(slots, maxLoad)
  }

  lemma TooFew(slots: nat, lookups: nat, maxLoad: real, count: nat)
    ensures RoomFor(slots, lookups, maxLoad, count) ==> lookups > count
  {
  }

  lemma NothingLoaded(slots: nat, maxLoad: real)
    requires maxLoad > 0.0
    ensures 0.0 <= Capacity(slots, maxLoad)
  {
  }

  lemma StillRoom(slots: nat, lookups: nat, maxLoad: real, count: nat, total: nat)
    requires slots >= 2 && count < total
    ensures lookups >= total && total as real <= Capacity(slots, maxLoad) ==> RoomFor(slots, lookups, maxLoad, count)
  {
  }

  lemma AmpleAt(lookupsFor: nat -> nat, maxLoad: real, n: nat, cap: nat, slots: nat)
    ensures Ample(lookupsFor, maxLoad, n, cap) && slots >= n ==>
              slots >= 2 && lookupsFor(slots) > cap && Capacity(slots, maxLoad) >= cap as real
  {
  }

  lemma {:induction false} EnoughMore(slots: nat, slots': nat, fuel: int, n: nat)
    requires slots <= slots' && (slots' == 1 ==> slots == 1)
    ensures fuel >= 0 && Enough(slots, fuel, n) ==> Enough(slots', fuel, n)
    decreases fuel
  {
    if fuel > 0 && slots' < n { EnoughMore(NextSlots(slots), NextSlots(slots'), fuel - 1, n); }
  }

  /** compute_max_lookups */
  function MaxLookups(slots: nat): nat { Max(MIN_LOOKUPS, Log2(slots)) }

  function Log2(n: nat): nat { if n < 2 then 0 else 1 + Log2(n / 2) }

  lemma {:induction false} Log2Large(c: nat, n: nat)
    requires n >= Bits.Pow2(c)
    ensures Log2(n) >= c
  {
    if c > 0 { Log2Large(c - 1, n / 2); }
  }

  /** With that bound a table of this many slots has room for cap elements, whatever the hash. */
  function Roomy(cap: nat, maxLoad: real): nat
    requires maxLoad > 0.0
  {
    Max(Bits.Pow2(cap + 1), Ceil(cap as real / maxLoad))
  }

  lemma RoomyIsAmple(lookupsFor: nat -> nat, maxLoad: real, cap: nat)
    requires maxLoad > 0.0 && forall s: nat :: lookupsFor(s) == MaxLookups(s)
    ensures Ample(lookupsFor, maxLoad, Roomy(cap, maxLoad), cap)
  {
    var n := Roomy(cap, maxLoad);
    forall s: nat | s >= n ensures lookupsFor(s) > cap && Capacity(s, maxLoad) >= cap as real {
      Log2Large(cap + 1, s);
      LoadHolds(s, maxLoad, cap);
    }
  }

  lemma LoadHolds(s: nat, maxLoad: real, cap: nat)
    requires maxLoad > 0.0 && s >= Ceil(cap as real / maxLoad)
    ensures Capacity(s, maxLoad) >= cap as real
  {
    var x := cap as real / maxLoad;
    assert x * maxLoad == cap as real;
    assert s as real >= x;
  }

  lemma LeastLoad(count: nat, maxLoad: real, buckets: nat)
    requires maxLoad > 0.0 && Ceil(count as real / maxLoad) >= 0
    ensures var n := Max(buckets, Ceil(count as real / maxLoad));
            && count as real <= Capacity(n, maxLoad)
            && (n > buckets ==> Capacity(n - 1, maxLoad) < count as real)
  {
    var x := count as real / maxLoad;
    var n := Max(buckets, Ceil(x));
    LoadHolds(n, maxLoad, count);
    assert x * maxLoad == count as real;
    if n > buckets {
      var m: nat := n - 1;
      Scaled(m as real, x, maxLoad);
      assert Capacity(m, maxLoad) < x * maxLoad;
    }
  }

  lemma Scaled(a: real, b: real, m: real)
    requires a < b && m > 0.0
    ensures a * m < b * m
  {
  }

  lemma {:induction false} EnoughFuel(slots: nat, fuel: nat, n: nat)
    requires slots + fuel >= n
    ensures Enough(slots, fuel, n)
    decreases fuel
  {
    if fuel > 0 { EnoughFuel(NextSlots(slots), fuel - 1, n); }
  }

  lemma BelowCount<K, V>(pos: map<K, nat>, m: map<K, V>, i: nat)
    requires m.Keys <= pos.Keys
    ensures |Below(m, pos, i)| <= |m|
  {
    var b := Below(m, pos, i);
    assert b.Keys <= m.Keys;
    SubsetCount(b.Keys, m.Keys);
    assert |b| == |b.Keys| && |m| == |m.Keys|;
  }

  lemma {:induction false} SubsetCount<T>(a: set<T>, b: set<T>)
    requires a <= b
    ensures |a| <= |b|
    decreases |a|
  {
    if a != {} {
      var x :| x in a;
      SubsetCount(a - {x}, b - {x});
    }
  }

  /** The keys of the d + 1 entries that end at slot i. */
  ghost function KeysTo<K, V>(es: seq<Entry<K, V>>, i: nat, d: nat): set<K>
    requires d <= i < |es| && forall j :: i - d <= j <= i ==> es[j].Full?
  {
    if d == 0 then {es[i].key} else KeysTo(es, i - 1, d - 1) + {es[i].key}
  }

  lemma {:induction false} KeysToCount<K, V>(es: seq<Entry<K, V>>, pos: map<K, nat>, m: map<K, V>, i: nat, d: nat)
    requires d <= i < |es| && (forall j :: i - d <= j <= i ==> es[j].Full?) && Holds(es, pos, m)
    ensures |KeysTo(es, i, d)| == d + 1 && KeysTo(es, i, d) <= m.Keys && forall k :: k in KeysTo(es, i, d) ==>
              pos[k] <= i
    decreases d
  {
    KeyThere(es, pos, m, i);
    if d > 0 { KeysToCount(es, pos, m, i - 1, d - 1); }
  }

  /** An entry d slots from its home has d others before it. */
  lemma Crowd<K, V>(es: seq<Entry<K, V>>, index: (K, nat) -> nat, slots: nat, lookups: nat, pos: map<K, nat>,
                    m: map<K, V>, i: nat, d: nat)
    requires Steps(es) && Placed(es, index, slots, lookups) && Holds(es, pos, m) && i < |es| - 1 && Dist(es[i]) >= d
    ensures |m| >= d + 1
  {
    hide Steps, Placed, Holds;
    Back(es, 0, i);
    FirstStep(es);
    forall j | i - d <= j <= i ensures es[j].Full? {
      NotSentinel(es, index, slots, lookups, j);
      Back(es, j, i);
    }
    KeysToCount(es, pos, m, i, d);
    SubsetCount(KeysTo(es, i, d), m.Keys);
  }

  lemma FirstStep<K, V>(es: seq<Entry<K, V>>)
    requires Steps(es) && |es| > 0
    ensures Dist(es[0]) <= 0
  {
    assert StepAt(es, 0);
  }

  class Table<K(==, !new), V> {
    const index: (K, nat) -> nat
    const nextSize: nat -> nat
    const lookupsFor: nat -> nat
    const maxLoad: real
    var entries: array<Entry<K, V>>
    var slots: nat
    var maxLookups: nat
    var numElements: nat
    ghost var pos: map<K, nat>
    ghost var model: map<K, V>

    /** The right elements are in the table, though perhaps not in Robin Hood order. */
    ghost predicate Loose()
      reads this, entries
    {
      && PolicyOk(index, nextSize, lookupsFor) && maxLoad > 0.0
      && slots >= 1 && maxLookups >= 3 && (slots >= 2 ==> maxLookups == lookupsFor(slots))
      && entries.Length == slots + maxLookups
      && (slots == 1 ==> maxLookups == MIN_LOOKUPS - 1 && model == map[])
      && entries[entries.Length - 1] == End
      && Holds(entries[..], pos, model) && numElements == |model|
    }

    ghost predicate Valid()
      reads this, entries
    {
      Loose() && Steps(entries[..]) && Placed(entries[..], index, slots, maxLookups)
    }

    /** The default table: one slot, three probes, a sentinel. */
    constructor (index: (K, nat) -> nat, nextSize: nat -> nat, lookupsFor: nat -> nat, maxLoad: real)
      requires PolicyOk(index, nextSize, lookupsFor) && maxLoad > 0.0
      ensures Valid() && model == map[] && fresh(entries)
    {
      this.index, this.nextSize, this.lookupsFor, this.maxLoad := index, nextSize, lookupsFor, maxLoad;
      var a := new Entry<K, V>[MIN_LOOKUPS](i => if i == MIN_LOOKUPS - 1 then End else Empty);
      entries, slots, maxLookups, numElements := a, 1, MIN_LOOKUPS - 1, 0;
      pos, model := map[], map[];
      new;
      EmptyTable(entries[..], index, 1, MIN_LOOKUPS - 1);
    }

    function BucketCount(): nat
      reads this
    {
      if slots == 1 then 0 else slots
    }

    /** The search both find and emplace start with. */
    method Probe(k: K) returns (at: nat, d: nat, found: bool)
      requires Valid()
      ensures at < entries.Length && d <= maxLookups && at == index(k, slots) + d
      ensures found ==> HasAt(entries[..], at, k) && k in model && entries[at].val == model[k]
      ensures !found ==> k !in model && Dist(entries[at]) < d && (d > 0 ==> Dist(entries[at - 1]) >= d - 1)
    {
      hide Steps, Holds, StepAt;
      ghost var h, es := index(k, slots), entries[..];
      at, d := index(k, slots), 0;
      while Dist(entries[at]) >= d
        invariant at == h + d < entries.Length && d <= maxLookups
        invariant d > 0 ==> Dist(entries[at - 1]) >= d - 1
        invariant forall i :: h <= i < at ==> !HasAt(es, i, k)
        decreases entries.Length - at
      {
        assert at < entries.Length - 1;
        assert PlacedAt(es[at], at, index, slots, maxLookups);
        KeyAt(es, index, slots, maxLookups, pos, model, at);
        if entries[at].key == k {
          return at, d, true;
        }
        at, d := at + 1, d + 1;
      }
      StopIsSound(es, index, slots, maxLookups, pos, model, k, d);
      found := false;
    }

    /** find: the key's slot exactly when the key is in the map, otherwise the end. */
    method Find(k: K) returns (p: nat)
      requires Valid()
      ensures k in model ==> HasAt(entries[..], p, k) && entries[p].val == model[k]
      ensures k !in model ==> p == entries.Length - 1
    {
      var at, d, found := Probe(k);
      p := if found then at else entries.Length - 1;
    }

    /** emplace: a key already there is found and nothing changes, a new key is added. */
    method Emplace(k: K, v: V, fuel: nat, ghost n: nat, ghost cap: nat) returns (done: bool, p: nat, inserted: bool)
      requires Valid()
      modifies this, entries
      ensures entries == old(entries) || fresh(entries)
      ensures k in old(model) ==> done && entries == old(entries) && entries[..] == old(entries[..])
      ensures done ==> Valid() && HasAt(entries[..], p, k) && inserted == (k !in old(model))
      ensures done ==> model == if k in old(model) then old(model) else old(model)[k := v]
      ensures done ==> slots >= old(slots)
      ensures done && inserted ==> |model| as real <= Capacity(slots, maxLoad)
      ensures RoomFor(old(slots), old(maxLookups), maxLoad, |old(model)|) ==> done && slots == old(slots)
      ensures Ample(lookupsFor, maxLoad, n, cap) && |old(model)| < cap && Enough(old(slots), fuel, n) ==> done
      decreases fuel, 8
    {
      var at, d, found := Probe(k);
      if found {
        return true, at, false;
      }
      done, p, inserted := EmplaceNew(d, at, k, v, fuel, n, cap);
    }

    /** Starting over in a bigger table. */
    method GrowAndEmplace(k: K, v: V, fuel: nat, ghost n: nat, ghost cap: nat)
        returns (done: bool, p: nat, inserted: bool)
      requires Loose() && k !in model && !(Ample(lookupsFor, maxLoad, n, cap) && |model| < cap && slots >= n)
               && !RoomFor(slots, maxLookups, maxLoad, |model|)
      modifies this, entries
      ensures entries == old(entries) || fresh(entries)
      ensures done ==> Valid() && HasAt(entries[..], p, k) && inserted && model == old(model)[k := v]
      ensures done ==> slots >= old(slots)
      ensures done && inserted ==> |model| as real <= Capacity(slots, maxLoad)
      ensures RoomFor(old(slots), old(maxLookups), maxLoad, |old(model)|) ==> done && slots == old(slots)
      ensures Ample(lookupsFor, maxLoad, n, cap) && |old(model)| < cap && Enough(old(slots), fuel, n) ==> done
      decreases fuel, 4
    {
      hide Steps, Placed, Holds, PolicyOk, Ample, Enough, HasAt;
      EnoughStep(slots, fuel, n);
      if fuel == 0 {
        return false, 0, false;
      }
      ghost var s0 := slots;
      done := Grow(fuel, n, cap);
      if !done {
        return false, 0, false;
      }
      EnoughMore(NextSlots(s0), slots, fuel - 1, n);
      done, p, inserted := Emplace(k, v, fuel - 1, n, cap);
    }

    /** emplace_new_key: the new key takes the slot where its search stopped, and the element there
        looks for another place. */
    method EmplaceNew(d: nat, at: nat, k: K, v: V, fuel: nat, ghost n: nat, ghost cap: nat)
        returns (done: bool, p: nat, inserted: bool)
      requires Valid() && k !in model
      requires at < entries.Length && d <= maxLookups && at == index(k, slots) + d
      requires Dist(entries[at]) < d && (d > 0 ==> Dist(entries[at - 1]) >= d - 1)
      modifies this, entries
      ensures entries == old(entries) || fresh(entries)
      ensures done ==> Valid() && HasAt(entries[..], p, k) && inserted && model == old(model)[k := v]
      ensures done ==> slots >= old(slots)
      ensures done && inserted ==> |model| as real <= Capacity(slots, maxLoad)
      ensures RoomFor(old(slots), old(maxLookups), maxLoad, |old(model)|) ==> done && slots == old(slots)
      ensures Ample(lookupsFor, maxLoad, n, cap) && |old(model)| < cap && Enough(old(slots), fuel, n) ==> done
      decreases fuel, 7
    {
      hide Steps, Placed, Holds, Carrying, Ample, Enough, Capacity;
      AmpleAt(lookupsFor, maxLoad, n, cap, slots);
      if slots == 1 || d == maxLookups || (numElements + 1) as real > Capacity(slots, maxLoad) {
        if d == maxLookups { Crowd(entries[..], index, slots, maxLookups, pos, model, at - 1, d - 1); }
        done, p, inserted := GrowAndEmplace(k, v, fuel, n, cap);
        return;
      }
      ghost var es := entries[..];
      NotSentinel(es, index, slots, maxLookups, at);
      if entries[at].Empty? {
        PutNew(es, index, slots, maxLookups, pos, model, at, d, k, v);
        entries[at] := Full(d, k, v);
        assert entries[..] == es[at := Full(d, k, v)];
        numElements, pos, model := numElements + 1, pos[k := at], model[k := v];
        return true, at, true;
      }
      done, p, inserted := Displace(d, at, k, v, fuel, n, cap);
    }

    /** The loop that displaces elements until one finds an empty slot or has gone too far. */
    method Displace(d: nat, at: nat, k: K, v: V, fuel: nat, ghost n: nat, ghost cap: nat)
        returns (done: bool, p: nat, inserted: bool)
      requires Valid() && k !in model && slots >= 2
      requires 1 <= d < maxLookups && at == index(k, slots) + d < entries.Length - 1
               && (|model| + 1) as real <= Capacity(slots, maxLoad)
      requires entries[at].Full? && entries[at].dist < d && Dist(entries[at - 1]) >= d - 1
      modifies this, entries
      ensures entries == old(entries) || fresh(entries)
      ensures done ==> Valid() && HasAt(entries[..], p, k) && inserted && model == old(model)[k := v]
      ensures done ==> slots >= old(slots)
      ensures done && inserted ==> |model| as real <= Capacity(slots, maxLoad)
      ensures RoomFor(old(slots), old(maxLookups), maxLoad, |old(model)|) ==> done && slots == old(slots)
      ensures Ample(lookupsFor, maxLoad, n, cap) && |old(model)| < cap && Enough(old(slots), fuel, n) ==> done
      decreases fuel, 6
    {
      hide Steps, Placed, Holds, Carrying, PolicyOk, Ample, Enough, Capacity, RoomFor;
      TooFew(slots, maxLookups, maxLoad, |model|);
      AmpleAt(lookupsFor, maxLoad, n, cap, slots);
      ghost var es := entries[..];
      ghost var total := model[k := v];
      IndexInRange(index, nextSize, lookupsFor, slots);
      ghost var ps: map<K, nat>, m: map<K, V>;
      ps, m := SwapIn(es, index, slots, maxLookups, pos, model, at, d, Item(k, v), total);
      var x, c := Item(entries[at].key, entries[at].val), entries[at].dist + 1;
      entries[at] := Full(d, k, v);
      assert entries[..] == es[at := Full(d, k, v)];
      var settled;
      settled, x, ps, m := Chain(entries, index, slots, maxLookups, at, c, x, ps, m, total);
      if settled {
        numElements, pos, model := numElements + 1, ps, total;
        return true, at, true;
      }
      done, p, inserted := StartOver(d, at, k, v, x, ps, m, fuel, n, cap);
    }

    /** The carried element takes the new key's slot, and the new key waits for a bigger table. */
    method StartOver(d: nat, at: nat, k: K, v: V, x: Item<K, V>, ghost ps: map<K, nat>, ghost m: map<K, V>, fuel: nat,
                     ghost n: nat, ghost cap: nat)
        returns (done: bool, p: nat, inserted: bool)
      requires PolicyOk(index, nextSize, lookupsFor) && maxLoad > 0.0 && slots >= 2 && maxLookups >= 3
               && maxLookups == lookupsFor(slots)
      requires entries.Length == slots + maxLookups && entries[entries.Length - 1] == End && numElements == |model|
      requires at < entries.Length - 1 && entries[at] == Full(d, k, v) && k !in model && x.key !in m
               && model[k := v] == m[x.key := x.val]
      requires Holds(entries[..], ps, m) && !(Ample(lookupsFor, maxLoad, n, cap) && |model| < cap && slots >= n)
               && !RoomFor(slots, maxLookups, maxLoad, |model|)
      modifies this, entries
      ensures entries == old(entries) || fresh(entries)
      ensures done ==> Valid() && HasAt(entries[..], p, k) && inserted && model == old(model)[k := v]
      ensures done ==> slots >= old(slots)
      ensures done && inserted ==> |model| as real <= Capacity(slots, maxLoad)
      ensures RoomFor(old(slots), old(maxLookups), maxLoad, |old(model)|) ==> done && slots == old(slots)
      ensures Ample(lookupsFor, maxLoad, n, cap) && |old(model)| < cap && Enough(old(slots), fuel, n) ==> done
      decreases fuel, 5
    {
      hide Steps, Placed, Holds, PolicyOk, Ample, Enough;
      ghost var es := entries[..];
      PutBack(es, ps, m, at, k, v, x, model[k := v], model);
      entries[at] := Full(d, x.key, x.val);
      assert entries[..] == es[at := Full(d, x.key, x.val)];
      pos := (ps - {k})[x.key := at];
      done, p, inserted := GrowAndEmplace(k, v, fuel, n, cap);
    }

    method Grow(fuel: nat, ghost n: nat, ghost cap: nat) returns (done: bool)
      requires Loose()
      modifies this, entries
      ensures entries == old(entries) || fresh(entries)
      ensures done ==> Valid() && model == old(model)
      ensures done ==> slots >= NextSlots(old(slots))
      ensures Ample(lookupsFor, maxLoad, n, cap) && |old(model)| <= cap && fuel > 0 ==>
                Enough(NextSlots(old(slots)), fuel - 1, n) ==> done
      decreases fuel, 3
    {
      done := Rehash(Max(4, 2 * BucketCount()), fuel, n, cap);
    }

    /** A fresh array of empty entries with a sentinel at the end. */
    method StartTable(n: nat, lookups: nat)
      requires Loose() && n >= 1 && lookups >= 3 && (n == 1 ==> lookups == 3) && (n >= 2 ==> lookups == lookupsFor(n))
      modifies this
      ensures Valid() && fresh(entries) && model == map[] && slots == n && maxLookups == lookups
    {
      var a := new Entry<K, V>[n + lookups](_ => Empty);
      a[n + lookups - 1] := End;
      entries, slots, maxLookups, numElements := a, n, lookups, 0;
      pos, model := map[], map[];
      EmptyTable(entries[..], index, slots, maxLookups);
    }

    /** The number of buckets asked for, or the least number that the load needs. */
    function Wanted(buckets: nat, count: nat): (n: nat)
      requires maxLoad > 0.0
      ensures n >= buckets && count as real <= Capacity(n, maxLoad)
      ensures n > buckets ==> Capacity(n - 1, maxLoad) < count as real
    {
      CeilZero(count, maxLoad);
      LeastLoad(count, maxLoad, buckets);
      Max(buckets, Ceil(count as real / maxLoad))
    }

    /** rehash: the same map, in a table of the next size from the requested one on that the load allows. It is
        bigger only if there are more elements than probes. */
    method Rehash(buckets: nat, fuel: nat, ghost n: nat, ghost cap: nat) returns (done: bool)
      requires Loose() && (Valid() || buckets > BucketCount())
      modifies this, entries
      ensures entries == old(entries) || fresh(entries)
      ensures done ==> Valid() && model == old(model)
      ensures done && buckets > old(BucketCount()) ==> slots >= buckets
      ensures done ==> |model| as real <= Capacity(slots, maxLoad)
      ensures var size := Wanted(buckets, |old(model)|);
              && (done && size == 0 ==> slots == 1) && (done && size > 0 ==> slots >= nextSize(size))
              && (fuel > 0 && size > 0 && lookupsFor(nextSize(size)) >= |old(model)| ==>
                    done && slots == nextSize(size))
      ensures Ample(lookupsFor, maxLoad, n, cap) && |old(model)| <= cap && fuel > 0 ==>
                Enough(buckets, fuel - 1, n) ==> done
      decreases fuel, 2
    {
      hide Steps, Placed, Holds, Ample, Enough, Below, Ceil;
      CeilZero(numElements, maxLoad);
      LoadHolds(nextSize(Wanted(buckets, numElements)), maxLoad, numElements);
      var size := Max(buckets, Ceil(numElements as real / maxLoad));
      if size == 0 {
        EmptyModel(model);
        StartTable(1, MIN_LOOKUPS - 1);
        return true;
      }
      size := nextSize(size);
      if size == BucketCount() {
        return true;
      }
      var olds := entries;
      ghost var es, ps, m := entries[..], pos, model;
      StartTable(size, lookupsFor(size));
      done := Reinsert(olds, fuel, buckets, n, cap, es, ps, m);
    }

    /** Every element of the old array is emplaced into the new one, which may itself grow meanwhile. */
    method Reinsert(olds: array<Entry<K, V>>, fuel: nat, ghost buckets: nat, ghost n: nat, ghost cap: nat,
                    ghost es: seq<Entry<K, V>>, ghost ps: map<K, nat>, ghost m: map<K, V>)
        returns (done: bool)
      requires Valid() && model == map[] && olds != entries && olds.Length > 0 && olds[..] == es && Holds(es, ps, m)
               && es[|es| - 1] == End
      requires slots >= 2 && slots >= buckets
      modifies this, entries, olds
      ensures entries == old(entries) || fresh(entries)
      ensures done ==> Valid() && model == m && slots >= old(slots) && |m| as real <= Capacity(slots, maxLoad)
      ensures done ==> forall j :: 0 <= j < olds.Length ==> !olds[j].Full?
      ensures fuel > 0 && old(maxLookups) >= |m| && |m| as real <= Capacity(old(slots), maxLoad) ==>
                done && slots == old(slots)
      ensures Ample(lookupsFor, maxLoad, n, cap) && |m| <= cap && fuel > 0 && Enough(buckets, fuel - 1, n) ==> done
      decreases fuel, 1
    {
      hide Steps, Placed, Holds, Ample, Enough, Below, PolicyOk, HasAt, Capacity, RoomFor;
      NothingLoaded(slots, maxLoad);
      var last := olds.Length - 1;
      ghost var s0 := slots;
      HoldsDomain(es, ps, m);
      BelowAll(es, ps, m, last);
      for i := 0 to last
        invariant Valid() && (entries == old(entries) || fresh(entries)) && olds != entries && slots >= s0
        invariant forall j :: i <= j < olds.Length ==> olds[j] == es[j]
        invariant forall j :: 0 <= j < i ==> !olds[j].Full?
        invariant model == Below(m, ps, i) && |model| as real <= Capacity(slots, maxLoad)
        invariant fuel > 0 && old(maxLookups) >= |m| && |m| as real <= Capacity(s0, maxLoad) ==>
                    slots == s0 && maxLookups == old(maxLookups)
      {
        BelowStep(es, ps, m, i);
        BelowCount(ps, m, i + 1);
        if olds[i].Full? {
          StillRoom(slots, maxLookups, maxLoad, |model|, |m|);
          done := Move(olds[i].key, olds[i].val, fuel, buckets, n, cap);
          if !done {
            return false;
          }
          olds[i] := Empty;
        }
      }
      done := true;
    }

    /** One element of the old array is emplaced. */
    method Move(k: K, v: V, fuel: nat, ghost buckets: nat, ghost n: nat, ghost cap: nat) returns (done: bool)
      requires Valid() && k !in model && slots >= buckets && slots >= 2
      modifies this, entries
      ensures entries == old(entries) || fresh(entries)
      ensures done ==> Valid() && model == old(model)[k := v] && slots >= old(slots)
      ensures done ==> |model| as real <= Capacity(slots, maxLoad)
      ensures fuel > 0 && RoomFor(old(slots), old(maxLookups), maxLoad, |old(model)|) ==> done && slots == old(slots)
      ensures Ample(lookupsFor, maxLoad, n, cap) && |old(model)| < cap && fuel > 0 && Enough(buckets, fuel - 1, n) ==>
                done
      decreases fuel, 0
    {
      hide Steps, Placed, Holds, Ample, Enough, PolicyOk, HasAt;
      if fuel == 0 {
        return false;
      }
      EnoughMore(buckets, slots, fuel - 1, n);
      var p, inserted;
      done, p, inserted := Emplace(k, v, fuel - 1, n, cap);
    }

    /** insert, with the source's own bound on the probes: emplace always comes to an end. */
    method Insert(k: K, v: V) returns (p: nat, inserted: bool)
      requires Valid() && forall s: nat :: lookupsFor(s) == MaxLookups(s)
      modifies this, entries
      ensures Valid() && HasAt(entries[..], p, k) && inserted == (k !in old(model)) && slots >= old(slots)
      ensures model == if k in old(model) then old(model) else old(model)[k := v]
      ensures k in old(model) ==> entries == old(entries) && entries[..] == old(entries[..])
      ensures inserted ==> |model| as real <= Capacity(slots, maxLoad)
      ensures RoomFor(old(slots), old(maxLookups), maxLoad, |old(model)|) ==> slots == old(slots)
    {
      hide Steps, Placed, Holds, Ample, Enough, PolicyOk, HasAt, Roomy, Capacity, RoomFor;
      var n := Roomy(numElements + 1, maxLoad);
      RoomyIsAmple(lookupsFor, maxLoad, numElements + 1);
      EnoughFuel(slots, n, n);
      var done;
      done, p, inserted := Emplace(k, v, n, n, numElements + 1);
    }

    /** rehash, with that bound: the same map, always. */
    method Resize(buckets: nat)
      requires Valid() && forall s: nat :: lookupsFor(s) == MaxLookups(s)
      modifies this, entries
      ensures Valid() && model == old(model) && (buckets > old(BucketCount()) ==> slots >= buckets)
      ensures |model| as real <= Capacity(slots, maxLoad)
      ensures var size := Wanted(buckets, |old(model)|);
              && (size == 0 ==> slots == 1) && (size > 0 ==> slots >= nextSize(size))
              && (size > 0 && lookupsFor(nextSize(size)) >= |old(model)| ==> slots == nextSize(size))
    {
      hide Steps, Placed, Holds, Ample, Enough, PolicyOk, Roomy;
      var n := Roomy(numElements, maxLoad);
      RoomyIsAmple(lookupsFor, maxLoad, numElements);
      EnoughFuel(buckets, n, n);
      var done := Rehash(buckets, n + 1, n, numElements);
    }

    /** erase of one entry: the entries after it move one slot back until one is at home. */
    method Erase(p: nat)
      requires Valid() && p < entries.Length && entries[p].Full?
      modifies this, entries
      ensures Valid() && entries == old(entries) && model == old(model) - {old(entries[p].key)}
    {
      hide Steps, Placed, Holds, Gap, PolicyOk;
      ghost var es := entries[..];
      BeforeEnd(es, p);
      Emptied(es, index, slots, maxLookups, pos, model, p);
      assert model != map[] && slots >= 2;
      entries[p] := Empty;
      assert entries[..] == es[p := Empty];
      numElements, pos, model := numElements - 1, pos - {es[p].key}, model - {es[p].key};
      pos := ShiftBack(entries, index, slots, maxLookups, p, pos, model);
    }

    /** erase(key) */
    method EraseKey(k: K) returns (count: nat)
      requires Valid()
      modifies this, entries
      ensures Valid() && entries == old(entries) && model == old(model) - {k}
              && count == if k in old(model) then 1 else 0
    {
      hide Steps, Placed, Holds, PolicyOk;
      var p := Find(k);
      if p == entries.Length - 1 {
        assert model - {k} == model;
        return 0;
      }
      Erase(p);
      count := 1;
    }

    /** erase of a range: its entries go, and the ones behind move back as far as they may. */
    method EraseRange(b: nat, e: nat) returns (r: nat)
      requires Valid() && b <= e < entries.Length && (e == entries.Length - 1 || entries[e].Full?)
      modifies this, entries
      ensures Valid() && entries == old(entries) && old(model).Keys == old(pos).Keys
      ensures model == Outside(old(model), old(pos), b, e)
      ensures r < entries.Length && (e == entries.Length - 1 ==> b == e || r == e)
      ensures e < entries.Length - 1 ==> HasAt(entries[..], r, old(entries[e].key))
    {
      hide Steps, Placed, Holds, Outside, PolicyOk;
      if b == e {
        HoldsDomain(entries[..], pos, model);
        NothingOutside(model, pos, b);
        return b;
      }
      r := CutRange(b, e);
    }

    method CutRange(b: nat, e: nat) returns (r: nat)
      requires Valid() && b < e < entries.Length && (e == entries.Length - 1 || entries[e].Full?)
      modifies this, entries
      ensures Valid() && entries == old(entries) && old(model).Keys == old(pos).Keys
      ensures model == Outside(old(model), old(pos), b, e)
      ensures r < entries.Length && (e == entries.Length - 1 ==> r == e)
      ensures e < entries.Length - 1 ==> HasAt(entries[..], r, old(entries[e].key))
    {
      hide Steps, Placed, Holds, Gap, Outside, PolicyOk, Cleared, HasAt;
      ghost var es, ps, m := entries[..], pos, model;
      HoldsDomain(es, ps, m);
      OutsideNone(m, ps, b, e);
      ghost var rest := Outside(m, ps, b, e);
      ghost var ps1 := ps;
      var gone := 0;
      ps1, gone := ClearRange(entries, index, slots, maxLookups, b, e, ps, m);
      r, ps1 := CloseRange(entries, index, slots, maxLookups, b, e, es, ps1, rest);
      numElements, pos, model := numElements - gone, ps1, rest;
    }
  }
}

/**
 The reserve / copy / publish ring of cpp-util/rte_ring.h.

 Producers and consumers each move a head index to reserve a range of slots, copy, and then
 publish in reservation order by moving the matching tail. The program's index registers are
 32-bit; here each register is an unbounded counter of which the program sees, and computes
 with, the low 32 bits. One atomic access of one thread per step.
 */
module RteRing {
  import opened Bits

  const WORD: int := 0x1_0000_0000

  type Tid = nat

  /** A range reserved by `t` and not yet published. */
  datatype Resv = Resv(t: Tid, h: nat, n: nat)

  /** The next atomic access of a thread. `h` is the head it loaded; `c` and `p` the opposite tail. */
  datatype Pc<T> =
    | Idle
    | ELoadHead(objs: seq<T>, fixed: bool)
    | ELoadTail(objs: seq<T>, fixed: bool, h: nat)
    | EMove(objs: seq<T>, fixed: bool, h: nat, n: nat, c: nat)
    | ECopy(objs: seq<T>, h: nat, i: nat)
    | EWait(objs: seq<T>, h: nat)
    | EPublish(objs: seq<T>, h: nat)
    | DLoadHead(max: nat, fixed: bool)
    | DLoadTail(max: nat, fixed: bool, h: nat)
    | DMove(max: nat, fixed: bool, h: nat, n: nat, p: nat)
    | DCopy(h: nat, n: nat, out: seq<T>)
    | DWait(h: nat, out: seq<T>)
    | DPublish(h: nat, out: seq<T>)

  /** History only: `log` lists every entry ever reserved, in reservation order; `pq` and `cq` the
      ranges between reservation and publication, oldest first; `sent` and `received` what the
      returning enqueues put in and the returning dequeues took out, in order of publication. */
  datatype State<T> = State(
    size: nat, sp: bool, sc: bool,
    ph: nat, pt: nat, ch: nat, ct: nat,
    ring: seq<T>,
    threads: map<Tid, Pc<T>>,
    log: seq<T>, pq: seq<Resv>, cq: seq<Resv>, sent: seq<T>, received: seq<T>)

  datatype Action<T> = Continue | Enqueue(objs: seq<T>, fixed: bool) | Dequeue(max: nat, fixed: bool)

  // ----- the program's arithmetic

  function Word(x: int): nat { x % WORD }

  function Mask(s: State): nat
    requires s.size > 0
  {
    s.size - 1
  }

  /** mask + cons_tail - prod_head on 32-bit words. */
  function FreeEntries(mask: nat, c: nat, h: nat): nat {
    Word(mask + Word(c) - Word(h))
  }

  /** prod_tail - cons_head on 32-bit words. */
  function Entries(p: nat, h: nat): nat {
    Word(Word(p) - Word(h))
  }

  /** index & mask. */
  function Slot(size: nat, x: nat): nat
    requires size > 0
  {
    x % size
  }

  /** Where the copy loops put or find the i-th entry: idx = head & mask, counted on with wrap-around. */
  function CopySlot(size: nat, h: nat, i: nat): nat
    requires size > 0
  {
    Slot(size, Slot(size, Word(h)) + i)
  }

  // ----- steps

  predicate Producing<T>(pc: Pc<T>) {
    pc.ELoadHead? || pc.ELoadTail? || pc.EMove? || pc.ECopy? || pc.EWait? || pc.EPublish?
  }

  predicate Consuming<T>(pc: Pc<T>) {
    pc.DLoadHead? || pc.DLoadTail? || pc.DMove? || pc.DCopy? || pc.DWait? || pc.DPublish?
  }

  predicate Shaped<T>(s: State<T>) {
    && 0 < s.size
    && |s.ring| == s.size
  }

  /** Callers pass at least one object, and respect a single-producer or single-consumer ring. */
  predicate Enabled<T>(s: State<T>, t: Tid, a: Action<T>) {
    && Shaped(s)
    && t in s.threads
    && match a
       case Enqueue(objs, _) =>
         s.threads[t].Idle? && |objs| >= 1 && (s.sp ==> forall u :: u in s.threads ==> !Producing(s.threads[u]))
       case Dequeue(max, _) =>
         s.threads[t].Idle? && max >= 1 && (s.sc ==> forall u :: u in s.threads ==> !Consuming(s.threads[u]))
       case Continue =>
         && !s.threads[t].Idle?
         && (s.threads[t].ECopy? ==> s.threads[t].i < |s.threads[t].objs|)
         && (s.threads[t].EMove? ==> s.threads[t].n <= |s.threads[t].objs|)
         && (s.threads[t].EPublish? ==> |s.pq| > 0)
         && (s.threads[t].DPublish? ==> |s.cq| > 0)
  }

  function At<T>(s: State<T>, t: Tid, pc: Pc<T>): State<T> { s.(threads := s.threads[t := pc]) }

  function Exec<T>(s: State<T>, t: Tid, a: Action<T>): State<T>
    requires Enabled(s, t, a)
  {
    match a
    case Enqueue(objs, fixed) => At(s, t, ELoadHead(objs, fixed))
    case Dequeue(max, fixed) => At(s, t, DLoadHead(max, fixed))
    case Continue =>
      match s.threads[t]
      case ELoadHead(objs, fixed) => At(s, t, ELoadTail(objs, fixed, s.ph))
      case ELoadTail(objs, fixed, h) => At(s, t, Admit(s, objs, fixed, h))
      case EMove(objs, fixed, h, n, _) => EnqueueMove(s, t, objs, fixed, h, n)
      case ECopy(objs, h, i) =>
        At(s, t, if i + 1 < |objs| then ECopy(objs, h, i + 1) else if s.sp then EPublish(objs, h) else EWait(objs, h))
          .(ring := s.ring[CopySlot(s.size, h, i) := objs[i]])
      case EWait(objs, h) => if Word(s.pt) == Word(h) then At(s, t, EPublish(objs, h)) else s
      case EPublish(objs, h) => At(s, t, Idle).(pt := h + |objs|, pq := s.pq[1..], sent := s.sent + objs)
      case DLoadHead(max, fixed) => At(s, t, DLoadTail(max, fixed, s.ch))
      case DLoadTail(max, fixed, h) => At(s, t, Offer(s, max, fixed, h))
      case DMove(max, fixed, h, n, _) => DequeueMove(s, t, max, fixed, h, n)
      case DCopy(h, n, out) =>
        var out' := out + [s.ring[CopySlot(s.size, h, |out|)]];
        At(s, t, if |out'| < n then DCopy(h, n, out') else if s.sc then DPublish(h, out') else DWait(h, out'))
      case DWait(h, out) => if Word(s.ct) == Word(h) then At(s, t, DPublish(h, out)) else s
      case DPublish(h, out) => At(s, t, Idle).(ct := h + |out|, cq := s.cq[1..], received := s.received + out)
  }

  /** Load of cons.tail and the room check; `Idle` is an unsuccessful return. */
  function Admit<T>(s: State<T>, objs: seq<T>, fixed: bool, h: nat): Pc<T>
    requires Shaped(s)
  {
    var free := FreeEntries(Mask(s), s.ct, h);
    if |objs| <= free then EMove(objs, fixed, h, |objs|, s.ct)
    else if fixed || free == 0 then Idle
    else EMove(objs, fixed, h, free, s.ct)
  }

  /** Load of prod.tail and the availability check; `Idle` is an unsuccessful return. */
  function Offer<T>(s: State<T>, max: nat, fixed: bool, h: nat): Pc<T> {
    var entries := Entries(s.pt, h);
    if max <= entries then DMove(max, fixed, h, max, s.pt)
    else if fixed || entries == 0 then Idle
    else DMove(max, fixed, h, entries, s.pt)
  }

  /** The compare-and-set on prod.head, or the plain store of a single producer. */
  function EnqueueMove<T>(s: State<T>, t: Tid, objs: seq<T>, fixed: bool, h: nat, n: nat): State<T>
    requires n <= |objs|
  {
    if s.sp || Word(s.ph) == Word(h) then
      At(s, t, ECopy(objs[..n], h, 0))
        .(ph := if s.sp then h + n else s.ph + n, log := s.log + objs[..n], pq := s.pq + [Resv(t, h, n)])
    else At(s, t, ELoadHead(objs, fixed))
  }

  function DequeueMove<T>(s: State<T>, t: Tid, max: nat, fixed: bool, h: nat, n: nat): State<T> {
    if s.sc || Word(s.ch) == Word(h) then
      At(s, t, DCopy(h, n, [])).(ch := if s.sc then h + n else s.ch + n, cq := s.cq + [Resv(t, h, n)])
    else At(s, t, DLoadHead(max, fixed))
  }

  // ----- slots and words

  lemma CopySlotIs(size: nat, h: nat, i: nat)
    requires size > 0 && WORD % size == 0
    ensures CopySlot(size, h, i) == Slot(size, h + i)
  {
    var w, q, k := Word(h), WORD / size, h / WORD;
    assert h == w + WORD * k == w + size * (q * k);
    var d := w / size;
    assert h + i == (w % size + i) + size * (q * k + d);
    RemainderShift(w % size + i, size, q * k + d);
  }

  lemma SlotsDiffer(size: nat, x: nat, y: nat)
    requires size > 0 && x < y < x + size
    ensures Slot(size, x) != Slot(size, y)
  {
    var d := y / size - x / size;
    assert y - x == size * d + (y % size - x % size);
    NoMultipleBetween(size, d);
  }

  lemma NoMultipleBetween(m: nat, d: int)
    requires m > 0
    ensures m * d <= 0 || m * d >= m
  {
  }

  lemma WordsDiffer(x: nat, y: nat)
    requires x <= y < x + WORD && Word(x) == Word(y)
    ensures x == y
  {
  }

  lemma FreeEntriesIs(mask: nat, c: nat, h: nat)
    requires c <= h <= c + mask && mask < WORD
    ensures FreeEntries(mask, c, h) == mask - (h - c)
  {
    var q := h / WORD - c / WORD;
    assert mask + Word(c) - Word(h) == (mask - (h - c)) + WORD * q;
    RemainderShift(mask - (h - c), WORD, q);
  }

  lemma EntriesIs(p: nat, h: nat)
    requires h <= p < h + WORD
    ensures Entries(p, h) == p - h
  {
    var q := h / WORD - p / WORD;
    assert Word(p) - Word(h) == (p - h) + WORD * q;
    RemainderShift(p - h, WORD, q);
  }

  lemma SizeDividesWord(k: nat)
    requires k <= 32
    ensures WORD % Pow2(k) == 0
  {
    PowSum(k, 32 - k);
    WordIsPow2();
    hide Pow2;
    RemainderUnique(WORD, Pow2(k), Pow2(32 - k), 0);
  }

  lemma WordIsPow2()
    ensures Pow2(32) == WORD
  {
    LargePowers();
  }

  // ----- the invariant

  predicate Order<T>(s: State<T>) {
    && Shaped(s)
    && s.size < WORD && WORD % s.size == 0
    && s.ct <= s.ch <= s.pt <= s.ph <= s.ct + Mask(s)
    && |s.log| == s.ph
  }

  ghost predicate Reserved<T>(s: State<T>, h: nat, objs: seq<T>)
    requires |s.log| == s.ph
  {
    && |objs| >= 1
    && s.pt <= h && h + |objs| <= s.ph
    && (forall k :: 0 <= k < |objs| ==> s.log[h + k] == objs[k])
  }

  /** The entries of [from, to) are in their slots. */
  ghost predicate InPlace<T>(s: State<T>, from: nat, to: nat)
    requires Shaped(s)
  {
    forall x :: from <= x < to && x < |s.log| ==> s.ring[Slot(s.size, x)] == s.log[x]
  }

  ghost predicate Copied<T>(s: State<T>, h: nat, out: seq<T>)
    requires |s.log| == s.ph
  {
    && h + |out| <= s.ph
    && (forall k :: 0 <= k < |out| ==> out[k] == s.log[h + k])
  }

  ghost predicate PcOk<T>(s: State<T>, pc: Pc<T>)
    requires Order(s)
  {
    match pc
    case Idle => true
    case ELoadHead(objs, _) => |objs| >= 1
    case ELoadTail(objs, _, h) => |objs| >= 1 && h <= s.ph && (s.sp ==> h == s.ph)
    case EMove(objs, _, h, n, c) =>
      && 1 <= n <= |objs| && n <= FreeEntries(Mask(s), c, h)
      && h <= s.ph && c <= s.ct && h <= c + Mask(s) && (s.sp ==> h == s.ph)
    case ECopy(objs, h, i) => Reserved(s, h, objs) && i < |objs| && InPlace(s, h, h + i)
    case EWait(objs, h) => Reserved(s, h, objs) && InPlace(s, h, h + |objs|)
    case EPublish(objs, h) => Reserved(s, h, objs) && InPlace(s, h, h + |objs|) && h == s.pt
    case DLoadHead(max, _) => max >= 1
    case DLoadTail(max, _, h) => max >= 1 && h <= s.ch && (s.sc ==> h == s.ch)
    case DMove(max, _, h, n, p) =>
      && max >= 1 && n >= 1 && n <= Entries(p, h) && h <= s.ch && h <= p <= s.pt && (s.sc ==> h == s.ch)
    case DCopy(h, n, out) => s.ct <= h && |out| < n && h + n <= s.ch && Copied(s, h, out)
    case DWait(h, out) => s.ct <= h && 1 <= |out| && h + |out| <= s.ch && Copied(s, h, out)
    case DPublish(h, out) => s.ct == h && 1 <= |out| && h + |out| <= s.ch && Copied(s, h, out)
  }

  function EndOf(q: seq<Resv>, from: nat, j: nat): nat
    requires j <= |q|
  {
    if j == 0 then from else q[j - 1].h + q[j - 1].n
  }

  /** The reserved ranges follow each other from the tail to the head without gap or overlap. */
  predicate Tiles(q: seq<Resv>, tail: nat, head: nat) {
    && (forall j :: 0 <= j < |q| ==> q[j].h == EndOf(q, tail, j) && q[j].n >= 1)
    && EndOf(q, tail, |q|) == head
  }

  predicate OnePerThread(q: seq<Resv>) {
    forall i, j :: 0 <= i < j < |q| ==> q[i].t != q[j].t
  }

  datatype Range = NoRange | Range(h: nat, n: nat)

  /** The range a thread has reserved for writing, or for reading. */
  function ProdRange<T>(pc: Pc<T>): Range {
    match pc
    case ECopy(objs, h, _) => Range(h, |objs|)
    case EWait(objs, h) => Range(h, |objs|)
    case EPublish(objs, h) => Range(h, |objs|)
    case _ => NoRange
  }

  function ConsRange<T>(pc: Pc<T>): Range {
    match pc
    case DCopy(h, n, _) => Range(h, n)
    case DWait(h, out) => Range(h, |out|)
    case DPublish(h, out) => Range(h, |out|)
    case _ => NoRange
  }

  function ProdRanges<T>(threads: map<Tid, Pc<T>>): map<Tid, Range> {
    map t | t in threads :: ProdRange(threads[t])
  }

  function ConsRanges<T>(threads: map<Tid, Pc<T>>): map<Tid, Range> {
    map t | t in threads :: ConsRange(threads[t])
  }

  /** The queue holds exactly the threads' ranges. */
  ghost predicate Matches(q: seq<Resv>, ranges: map<Tid, Range>) {
    && (forall j :: 0 <= j < |q| ==> q[j].t in ranges && ranges[q[j].t] == Range(q[j].h, q[j].n))
    && (forall t :: t in ranges && ranges[t] != NoRange ==> exists j :: 0 <= j < |q| && q[j].t == t)
  }

  ghost predicate QueueOk(q: seq<Resv>, tail: nat, head: nat, ranges: map<Tid, Range>) {
    && Tiles(q, tail, head)
    && OnePerThread(q)
    && Matches(q, ranges)
  }

  ghost predicate QueuesOk<T>(s: State<T>) {
    && QueueOk(s.pq, s.pt, s.ph, ProdRanges(s.threads))
    && QueueOk(s.cq, s.ct, s.ch, ConsRanges(s.threads))
  }

  predicate Solo<T>(s: State<T>) {
    && (s.sp ==> forall t, u :: t in s.threads && u in s.threads && t != u && Producing(s.threads[t]) ==>
      !Producing(s.threads[u]))
    && (s.sc ==> forall t, u :: t in s.threads && u in s.threads && t != u && Consuming(s.threads[t]) ==>
      !Consuming(s.threads[u]))
  }

  ghost predicate Inv<T>(s: State<T>) {
    && Order(s)
    && InPlace(s, s.ct, s.pt)
    && (forall t :: t in s.threads ==> PcOk(s, s.threads[t]))
    && QueuesOk(s)
    && Solo(s)
  }

  // ----- reserved ranges

  lemma {:induction false} TilesOrdered(q: seq<Resv>, tail: nat, head: nat, i: nat, j: nat)
    requires Tiles(q, tail, head) && i <= j <= |q|
    ensures EndOf(q, tail, i) <= EndOf(q, tail, j)
  {
    hide Tiles, EndOf;
    if i < j {
      TilesOrdered(q, tail, head, i, j - 1);
      TileAt(q, tail, head, j - 1);
    }
  }

  lemma TileAt(q: seq<Resv>, tail: nat, head: nat, j: nat)
    requires Tiles(q, tail, head) && j < |q|
    ensures q[j].h == EndOf(q, tail, j) && EndOf(q, tail, j + 1) == q[j].h + q[j].n && q[j].n >= 1
  {
  }

  lemma TilesEnds(q: seq<Resv>, tail: nat, head: nat)
    requires Tiles(q, tail, head)
    ensures EndOf(q, tail, 0) == tail && EndOf(q, tail, |q|) == head
  {
  }

  lemma TilesInside(q: seq<Resv>, tail: nat, head: nat, r: Resv)
    requires Tiles(q, tail, head) && r in q
    ensures tail <= r.h && r.h + r.n <= head && r.n >= 1
    ensures r.h == tail ==> q[0] == r
    ensures r != q[0] ==> q[0].h + q[0].n <= r.h
  {
    hide Tiles, EndOf;
    var i :| 0 <= i < |q| && q[i] == r;
    TilesEnds(q, tail, head);
    TileAt(q, tail, head, 0);
    TileAt(q, tail, head, i);
    TilesOrdered(q, tail, head, 0, i);
    TilesOrdered(q, tail, head, i + 1, |q|);
    if i > 0 { TilesOrdered(q, tail, head, 1, i); }
  }

  lemma TilesLater(q: seq<Resv>, tail: nat, head: nat, i: nat, j: nat)
    requires Tiles(q, tail, head) && i < j < |q|
    ensures q[i].h + q[i].n <= q[j].h
  {
    hide Tiles, EndOf;
    TileAt(q, tail, head, i);
    TileAt(q, tail, head, j);
    TilesOrdered(q, tail, head, i + 1, j);
  }

  lemma TilesDisjoint(q: seq<Resv>, tail: nat, head: nat, r: Resv, r': Resv)
    requires Tiles(q, tail, head) && r in q && r' in q && r != r'
    ensures r.h + r.n <= r'.h || r'.h + r'.n <= r.h
  {
    hide Tiles;
    var i :| 0 <= i < |q| && q[i] == r;
    var j :| 0 <= j < |q| && q[j] == r';
    if i < j { TilesLater(q, tail, head, i, j); } else { TilesLater(q, tail, head, j, i); }
  }

  lemma TilesPush(q: seq<Resv>, tail: nat, head: nat, r: Resv)
    requires Tiles(q, tail, head) && r.h == head && r.n >= 1
    ensures Tiles(q + [r], tail, head + r.n)
  {
    var q' := q + [r];
    forall j | 0 <= j < |q'| ensures q'[j].h == EndOf(q', tail, j) && q'[j].n >= 1 {
      if j < |q| { assert q[j].h == EndOf(q, tail, j); }
    }
  }

  lemma MatchesPush(q: seq<Resv>, ranges: map<Tid, Range>, r: Resv)
    requires Matches(q, ranges) && r.t in ranges && ranges[r.t] == NoRange
    ensures Matches(q + [r], ranges[r.t := Range(r.h, r.n)])
    ensures OnePerThread(q) ==> OnePerThread(q + [r])
  {
    var q', ranges' := q + [r], ranges[r.t := Range(r.h, r.n)];
    forall j | 0 <= j < |q'| ensures q'[j].t in ranges' && ranges'[q'[j].t] == Range(q'[j].h, q'[j].n) {
      if j < |q| { assert q[j].t in ranges && ranges[q[j].t] == Range(q[j].h, q[j].n); }
    }
    forall t | t in ranges' && ranges'[t] != NoRange ensures exists j :: 0 <= j < |q'| && q'[j].t == t {
      if t == r.t { assert q'[|q|].t == t; } else {
        var j :| 0 <= j < |q| && q[j].t == t;
        assert q'[j].t == t;
      }
    }
  }

  lemma QueuePush(q: seq<Resv>, tail: nat, head: nat, ranges: map<Tid, Range>, r: Resv)
    requires QueueOk(q, tail, head, ranges) && r.h == head && r.n >= 1 && r.t in ranges && ranges[r.t] == NoRange
    ensures QueueOk(q + [r], tail, head + r.n, ranges[r.t := Range(r.h, r.n)])
  {
    hide Tiles, Matches, OnePerThread;
    TilesPush(q, tail, head, r);
    MatchesPush(q, ranges, r);
  }

  lemma TilesPop(q: seq<Resv>, tail: nat, head: nat)
    requires Tiles(q, tail, head) && |q| > 0
    ensures Tiles(q[1..], q[0].h + q[0].n, head)
  {
    var q', tail' := q[1..], q[0].h + q[0].n;
    forall j | 0 <= j < |q'| ensures q'[j].h == EndOf(q', tail', j) && q'[j].n >= 1 {
      assert q[j + 1].h == EndOf(q, tail, j + 1);
    }
    assert EndOf(q', tail', |q'|) == EndOf(q, tail, |q|);
  }

  lemma MatchesPop(q: seq<Resv>, ranges: map<Tid, Range>)
    requires Matches(q, ranges) && OnePerThread(q) && |q| > 0
    ensures Matches(q[1..], ranges[q[0].t := NoRange]) && OnePerThread(q[1..])
  {
    var q', ranges' := q[1..], ranges[q[0].t := NoRange];
    forall j | 0 <= j < |q'| ensures q'[j].t in ranges' && ranges'[q'[j].t] == Range(q'[j].h, q'[j].n) {
      assert q'[j] == q[j + 1] && q[0].t != q[j + 1].t;
    }
    forall t | t in ranges' && ranges'[t] != NoRange ensures exists j :: 0 <= j < |q'| && q'[j].t == t {
      var j :| 0 <= j < |q| && q[j].t == t;
      assert q'[j - 1].t == t;
    }
  }

  lemma QueuePop(q: seq<Resv>, tail: nat, head: nat, ranges: map<Tid, Range>)
    requires QueueOk(q, tail, head, ranges) && |q| > 0
    ensures QueueOk(q[1..], q[0].h + q[0].n, head, ranges[q[0].t := NoRange])
  {
    hide Tiles, Matches, OnePerThread;
    TilesPop(q, tail, head);
    MatchesPop(q, ranges);
  }

  /** A thread with a range owns one entry of the queue. */
  lemma QueueEntry(q: seq<Resv>, tail: nat, head: nat, ranges: map<Tid, Range>, t: Tid)
    requires QueueOk(q, tail, head, ranges) && t in ranges && ranges[t] != NoRange
    ensures Resv(t, ranges[t].h, ranges[t].n) in q
  {
    hide Tiles, OnePerThread;
    var j :| 0 <= j < |q| && q[j].t == t;
    assert q[j] == Resv(t, ranges[t].h, ranges[t].n);
  }

  // ----- steps that write nothing shared

  lemma PcSame<T>(s: State<T>, s': State<T>, pc: Pc<T>)
    requires Order(s) && PcOk(s, pc)
    requires s' == s.(threads := s'.threads)
    ensures PcOk(s', pc)
  {
  }

  predicate SameRanges<T>(pc: Pc<T>, pc': Pc<T>) {
    ProdRange(pc') == ProdRange(pc) && ConsRange(pc') == ConsRange(pc)
  }

  lemma RangesUpdate<T>(threads: map<Tid, Pc<T>>, t: Tid, pc: Pc<T>)
    requires t in threads
    ensures ProdRanges(threads[t := pc]) == ProdRanges(threads)[t := ProdRange(pc)]
    ensures ConsRanges(threads[t := pc]) == ConsRanges(threads)[t := ConsRange(pc)]
    ensures t in ProdRanges(threads) && ProdRanges(threads)[t] == ProdRange(threads[t])
    ensures t in ConsRanges(threads) && ConsRanges(threads)[t] == ConsRange(threads[t])
    ensures ProdRange(pc) == ProdRange(threads[t]) ==> ProdRanges(threads[t := pc]) == ProdRanges(threads)
    ensures ConsRange(pc) == ConsRange(threads[t]) ==> ConsRanges(threads[t := pc]) == ConsRanges(threads)
  {
    hide ProdRange, ConsRange;
  }

  lemma LocalKeeps<T>(s: State<T>, t: Tid, pc: Pc<T>)
    requires Inv(s) && t in s.threads && PcOk(s, pc) && SameRanges(s.threads[t], pc)
    requires s.sp && Producing(pc) ==> forall u :: u in s.threads && u != t ==> !Producing(s.threads[u])
    requires s.sc && Consuming(pc) ==> forall u :: u in s.threads && u != t ==> !Consuming(s.threads[u])
    ensures Inv(At(s, t, pc))
  {
    var s' := At(s, t, pc);
    hide PcOk, QueueOk, ProdRange, ConsRange, Producing, Consuming;
    RangesUpdate(s.threads, t, pc);
    forall u | u in s'.threads ensures PcOk(s', s'.threads[u]) {
      PcSame(s, s', s'.threads[u]);
    }
    assert Solo(s');
  }

  lemma PcFacts<T>(pc: Pc<T>)
    ensures pc.ECopy? || pc.EWait? || pc.EPublish? ==> ProdRange(pc) == Range(pc.h, |pc.objs|)
    ensures pc.DCopy? ==> ConsRange(pc) == Range(pc.h, pc.n)
    ensures pc.DWait? || pc.DPublish? ==> ConsRange(pc) == Range(pc.h, |pc.out|)
    ensures !pc.ECopy? && !pc.EWait? && !pc.EPublish? ==> ProdRange(pc) == NoRange
    ensures !pc.DCopy? && !pc.DWait? && !pc.DPublish? ==> ConsRange(pc) == NoRange
    ensures pc.EMove? || pc.ECopy? || pc.EWait? || pc.EPublish? ==> Producing(pc) && !Consuming(pc)
    ensures pc.DMove? || pc.DCopy? || pc.DWait? || pc.DPublish? ==> Consuming(pc) && !Producing(pc)
    ensures pc.Idle? ==> !Producing(pc) && !Consuming(pc)
  {
  }

  /** What one thread's step must establish for the invariant to hold after it. */
  lemma Assemble<T>(s: State<T>, s': State<T>, t: Tid, pc: Pc<T>)
    requires Solo(s) && t in s.threads && s'.threads == s.threads[t := pc] && s'.sp == s.sp && s'.sc == s.sc
    requires Producing(pc) ==> Producing(s.threads[t])
    requires Consuming(pc) ==> Consuming(s.threads[t])
    requires Order(s') && InPlace(s', s'.ct, s'.pt) && QueuesOk(s') && PcOk(s', pc)
    requires forall u :: u in s.threads && u != t ==> PcOk(s', s.threads[u])
    ensures Inv(s')
  {
    hide Producing, Consuming, PcOk, QueuesOk, InPlace, Order;
  }

  // ----- a producer reserves

  lemma PcReserve<T>(s: State<T>, s': State<T>, pc: Pc<T>)
    requires Order(s) && Order(s') && PcOk(s, pc) && !(s.sp && Producing(pc))
    requires s' == s.(ph := s'.ph, log := s'.log, pq := s'.pq, threads := s'.threads)
    requires s.ph <= s'.ph && forall x :: 0 <= x < |s.log| ==> s'.log[x] == s.log[x]
    ensures PcOk(s', pc)
  {
    hide FreeEntries, Entries, Slot;
  }

  lemma RoomIsThere<T>(s: State<T>, pc: Pc<T>)
    requires Order(s) && PcOk(s, pc) && pc.EMove? && s.ph == pc.h
    ensures s.ph + pc.n <= s.ct + Mask(s)
  {
    FreeEntriesIs(Mask(s), pc.c, pc.h);
  }

  lemma ReserveFacts<T>(s: State<T>, s': State<T>, pc: Pc<T>)
    requires Order(s) && PcOk(s, pc) && pc.EMove? && s.ph == pc.h && InPlace(s, s.ct, s.pt)
    requires s' == s.(threads := s'.threads, ph := s.ph + pc.n, log := s.log + pc.objs[..pc.n], pq := s'.pq)
    ensures Order(s') && PcOk(s', ECopy(pc.objs[..pc.n], pc.h, 0)) && InPlace(s', s'.ct, s'.pt) && pc.n >= 1
    ensures forall x :: 0 <= x < |s.log| ==> s'.log[x] == s.log[x]
  {
    RoomIsThere(s, pc);
    hide FreeEntries, Slot;
  }

  lemma SoloProducer<T>(s: State<T>, t: Tid, u: Tid)
    requires Solo(s) && t in s.threads && u in s.threads && t != u && Producing(s.threads[t])
    ensures !(s.sp && Producing(s.threads[u]))
  {
  }

  lemma ReserveKeeps<T>(s: State<T>, s': State<T>, t: Tid)
    requires Inv(s) && t in s.threads && s.threads[t].EMove? && s.ph == s.threads[t].h
    requires var pc := s.threads[t];
             && pc.n <= |pc.objs|
             && s' == s.(threads := s.threads[t := ECopy(pc.objs[..pc.n], pc.h, 0)], ph := s.ph + pc.n,
                         log := s.log + pc.objs[..pc.n], pq := s.pq + [Resv(t, pc.h, pc.n)])
    ensures Inv(s')
  {
    hide PcOk, Order, InPlace, QueueOk, ProdRange, ConsRange, ProdRanges, ConsRanges, Solo, Producing, Consuming;
    var pc := s.threads[t];
    var pc' := ECopy(pc.objs[..pc.n], pc.h, 0);
    PcFacts(pc);
    PcFacts(pc');
    RangesUpdate(s.threads, t, pc');
    ReserveFacts(s, s', pc);
    forall u | u in s.threads && u != t ensures PcOk(s', s.threads[u]) {
      SoloProducer(s, t, u);
      PcReserve(s, s', s.threads[u]);
    }
    QueuePush(s.pq, s.pt, s.ph, ProdRanges(s.threads), Resv(t, pc.h, pc.n));
    Assemble(s, s', t, pc');
  }

  // ----- a producer writes one slot of its range

  lemma InPlaceKept<T>(s: State<T>, s': State<T>, y: nat, from: nat, to: nat)
    requires Order(s) && InPlace(s, from, to) && s.ct <= from && to <= s.ph && s.ct <= y < s.ph && !(from <= y < to)
    requires Shaped(s') && s'.size == s.size && s'.log == s.log
    requires s'.ring == s.ring[Slot(s.size, y) := s'.ring[Slot(s.size, y)]]
    ensures InPlace(s', from, to)
  {
    forall x | from <= x < to && x < |s.log| ensures s'.ring[Slot(s.size, x)] == s.log[x] {
      if x < y { SlotsDiffer(s.size, x, y); } else { SlotsDiffer(s.size, y, x); }
    }
  }

  lemma PcUnwritten<T>(s: State<T>, s': State<T>, pc: Pc<T>)
    requires Order(s) && PcOk(s, pc) && ProdRange(pc) == NoRange
    requires Order(s') && s' == s.(ring := s'.ring, threads := s'.threads)
    ensures PcOk(s', pc)
  {
    hide Slot, FreeEntries, Entries, InPlace;
  }

  lemma PcWrite<T>(s: State<T>, s': State<T>, y: nat, pc: Pc<T>)
    requires Order(s) && PcOk(s, pc) && s.pt <= y < s.ph
    requires Order(s') && s' == s.(ring := s'.ring, threads := s'.threads)
    requires s'.ring == s.ring[Slot(s.size, y) := s'.ring[Slot(s.size, y)]]
    requires ProdRange(pc) != NoRange ==> !(ProdRange(pc).h <= y < ProdRange(pc).h + ProdRange(pc).n)
    ensures PcOk(s', pc)
  {
    hide Slot, FreeEntries, Entries, InPlace;
    if pc.ECopy? {
      InPlaceKept(s, s', y, pc.h, pc.h + pc.i);
    } else if pc.EWait? || pc.EPublish? {
      InPlaceKept(s, s', y, pc.h, pc.h + |pc.objs|);
    } else {
      PcUnwritten(s, s', pc);
    }
  }

  lemma OthersElsewhere<T>(s: State<T>, t: Tid, u: Tid, y: nat)
    requires QueuesOk(s) && t in s.threads && u in s.threads && t != u
    requires ProdRange(s.threads[t]) != NoRange && ProdRange(s.threads[u]) != NoRange
    requires ProdRange(s.threads[t]).h <= y < ProdRange(s.threads[t]).h + ProdRange(s.threads[t]).n
    ensures !(ProdRange(s.threads[u]).h <= y < ProdRange(s.threads[u]).h + ProdRange(s.threads[u]).n)
  {
    RangesUpdate(s.threads, t, s.threads[t]);
    RangesUpdate(s.threads, u, s.threads[u]);
    hide Tiles, ProdRange, ProdRanges, ConsRanges, Matches, OnePerThread;
    var r, r' := ProdRange(s.threads[t]), ProdRange(s.threads[u]);
    QueueEntry(s.pq, s.pt, s.ph, ProdRanges(s.threads), t);
    QueueEntry(s.pq, s.pt, s.ph, ProdRanges(s.threads), u);
    TilesDisjoint(s.pq, s.pt, s.ph, Resv(t, r.h, r.n), Resv(u, r'.h, r'.n));
  }

  lemma WriteFacts<T>(s: State<T>, s': State<T>, pc: Pc<T>)
    requires Order(s) && PcOk(s, pc) && pc.ECopy? && InPlace(s, s.ct, s.pt)
    requires s' == s.(threads := s'.threads, ring := s.ring[Slot(s.size, pc.h + pc.i) := pc.objs[pc.i]])
    ensures Order(s') && InPlace(s', s'.ct, s'.pt) && Reserved(s', pc.h, pc.objs) && InPlace(s', pc.h, pc.h + pc.i + 1)
    ensures s'.ring == s.ring[Slot(s.size, pc.h + pc.i) := s'.ring[Slot(s.size, pc.h + pc.i)]]
  {
    InPlaceKept(s, s', pc.h + pc.i, s.ct, s.pt);
    InPlaceKept(s, s', pc.h + pc.i, pc.h, pc.h + pc.i);
    assert s.log[pc.h + pc.i] == pc.objs[pc.i];
    hide Slot;
  }

  lemma WritePc<T>(s: State<T>, s': State<T>, pc: Pc<T>, pc': Pc<T>)
    requires Order(s) && PcOk(s, pc) && pc.ECopy? && (s.sp ==> pc.h == s.pt)
    requires Order(s') && s'.pt == s.pt && Reserved(s', pc.h, pc.objs) && InPlace(s', pc.h, pc.h + pc.i + 1)
    requires pc' == if pc.i + 1 < |pc.objs| then ECopy(pc.objs, pc.h, pc.i + 1)
                    else if s.sp then EPublish(pc.objs, pc.h) else EWait(pc.objs, pc.h)
    ensures PcOk(s', pc') && s.pt <= pc.h + pc.i < s.ph
  {
    hide InPlace;
  }

  lemma WriteKeeps<T>(s: State<T>, s': State<T>, t: Tid, objs: seq<T>, h: nat, i: nat, pc': Pc<T>)
    requires Inv(s) && t in s.threads && s.threads[t] == ECopy(objs, h, i) && i < |objs|
    requires s' == s.(threads := s.threads[t := pc'], ring := s.ring[Slot(s.size, h + i) := objs[i]])
    requires pc' == if i + 1 < |objs| then ECopy(objs, h, i + 1) else if s.sp then EPublish(objs, h) else EWait(objs, h)
    ensures Inv(s')
  {
    hide Slot, PcOk, Order, InPlace, QueuesOk, Solo, Reserved, ProdRange, ConsRange, Producing, Consuming;
    var pc, y := s.threads[t], h + i;
    PcFacts(pc);
    PcFacts(pc');
    SoloIsFirst(s, t);
    WriteFacts(s, s', pc);
    WritePc(s, s', pc, pc');
    forall u | u in s.threads && u != t ensures PcOk(s', s.threads[u]) { WriteOthers(s, s', t, u, y); }
    WriteQueues(s, s', t, pc');
    Assemble(s, s', t, pc');
  }

  lemma WriteQueues<T>(s: State<T>, s': State<T>, t: Tid, pc': Pc<T>)
    requires QueuesOk(s) && t in s.threads && s' == s.(threads := s.threads[t := pc'], ring := s'.ring)
    requires SameRanges(s.threads[t], pc')
    ensures QueuesOk(s')
  {
    hide QueueOk, ProdRanges, ConsRanges, ProdRange, ConsRange;
    RangesUpdate(s.threads, t, pc');
  }

  lemma WriteOthers<T>(s: State<T>, s': State<T>, t: Tid, u: Tid, y: nat)
    requires Inv(s) && u in s.threads && u != t && t in s.threads && s.pt <= y < s.ph
             && ProdRange(s.threads[t]) != NoRange
    requires ProdRange(s.threads[t]).h <= y < ProdRange(s.threads[t]).h + ProdRange(s.threads[t]).n
    requires Order(s') && s' == s.(ring := s'.ring, threads := s'.threads)
    requires s'.ring == s.ring[Slot(s.size, y) := s'.ring[Slot(s.size, y)]]
    ensures PcOk(s', s.threads[u])
  {
    hide Slot, PcOk, InPlace, QueuesOk, Solo, ProdRange;
    if ProdRange(s.threads[u]) != NoRange { OthersElsewhere(s, t, u, y); }
    PcWrite(s, s', y, s.threads[u]);
  }

  /** A thread with a range, alone in its queue, has the range at the tail. */
  lemma AloneIsFirst(q: seq<Resv>, tail: nat, head: nat, ranges: map<Tid, Range>, t: Tid)
    requires QueueOk(q, tail, head, ranges) && t in ranges && ranges[t] != NoRange
    requires forall u :: u in ranges && u != t ==> ranges[u] == NoRange
    ensures ranges[t].h == tail
  {
    hide Tiles, OnePerThread, EndOf;
    QueueEntry(q, tail, head, ranges, t);
    assert q[0].t in ranges && ranges[q[0].t] == Range(q[0].h, q[0].n);
    TilesEnds(q, tail, head);
    TileAt(q, tail, head, 0);
  }

  lemma SoloRanges<T>(s: State<T>, t: Tid)
    requires Solo(s) && t in s.threads
    ensures t in ProdRanges(s.threads) && ProdRanges(s.threads)[t] == ProdRange(s.threads[t])
    ensures t in ConsRanges(s.threads) && ConsRanges(s.threads)[t] == ConsRange(s.threads[t])
    ensures s.sp && ProdRange(s.threads[t]) != NoRange ==>
              forall u :: u in ProdRanges(s.threads) && u != t ==> ProdRanges(s.threads)[u] == NoRange
    ensures s.sc && ConsRange(s.threads[t]) != NoRange ==>
              forall u :: u in ConsRanges(s.threads) && u != t ==> ConsRanges(s.threads)[u] == NoRange
  {
  }

  lemma SoloIsFirst<T>(s: State<T>, t: Tid)
    requires QueuesOk(s) && Solo(s) && t in s.threads
    ensures s.sp && ProdRange(s.threads[t]) != NoRange ==> ProdRange(s.threads[t]).h == s.pt
    ensures s.sc && ConsRange(s.threads[t]) != NoRange ==> ConsRange(s.threads[t]).h == s.ct
  {
    hide QueueOk, Solo, ProdRange, ConsRange, ProdRanges, ConsRanges;
    SoloRanges(s, t);
    if s.sp && ProdRange(s.threads[t]) != NoRange { AloneIsFirst(s.pq, s.pt, s.ph, ProdRanges(s.threads), t); }
    if s.sc && ConsRange(s.threads[t]) != NoRange { AloneIsFirst(s.cq, s.ct, s.ch, ConsRanges(s.threads), t); }
  }

  // ----- a producer publishes

  lemma PcPublish<T>(s: State<T>, s': State<T>, pc: Pc<T>)
    requires Order(s) && Order(s') && PcOk(s, pc)
    requires s' == s.(pt := s'.pt, pq := s'.pq, threads := s'.threads, sent := s'.sent) && s.pt <= s'.pt
    requires ProdRange(pc) != NoRange ==> s'.pt <= ProdRange(pc).h && !pc.EPublish?
    ensures PcOk(s', pc)
  {
    hide Slot, FreeEntries, Entries;
  }

  /** The thread whose range starts at the tail is the oldest, and all others start after its end. */
  lemma FirstInLine(q: seq<Resv>, tail: nat, head: nat, ranges: map<Tid, Range>, t: Tid, u: Tid)
    requires QueueOk(q, tail, head, ranges) && t in ranges && u in ranges && ranges[t] != NoRange && ranges[t].h == tail
    ensures |q| > 0 && q[0] == Resv(t, ranges[t].h, ranges[t].n) && tail + ranges[t].n <= head && ranges[t].n >= 1
    ensures u != t && ranges[u] != NoRange ==> tail + ranges[t].n <= ranges[u].h
  {
    QueueEntry(q, tail, head, ranges, t);
    TilesInside(q, tail, head, Resv(t, ranges[t].h, ranges[t].n));
    if u != t && ranges[u] != NoRange {
      QueueEntry(q, tail, head, ranges, u);
      TilesInside(q, tail, head, Resv(u, ranges[u].h, ranges[u].n));
    }
  }

  lemma PublishFacts<T>(s: State<T>, s': State<T>, objs: seq<T>, h: nat)
    requires Order(s) && PcOk(s, EPublish(objs, h)) && InPlace(s, s.ct, s.pt)
    requires s' == s.(threads := s'.threads, pt := h + |objs|, pq := s'.pq, sent := s'.sent)
    ensures Order(s') && InPlace(s', s'.ct, s'.pt) && h == s.pt && PcOk(s', Idle)
  {
    hide Slot;
  }

  lemma PublishQueues<T>(s: State<T>, s': State<T>, t: Tid, objs: seq<T>, h: nat)
    requires QueuesOk(s) && t in s.threads && s.threads[t] == EPublish(objs, h) && h == s.pt
    requires |s.pq| > 0 && s' == s.(threads := s.threads[t := Idle], pt := h + |objs|, pq := s.pq[1..], sent := s'.sent)
    ensures QueuesOk(s')
  {
    hide QueueOk, ProdRanges, ConsRanges, ProdRange, ConsRange;
    var ranges := ProdRanges(s.threads);
    PcFacts(s.threads[t]);
    PcFacts<T>(Idle);
    RangesUpdate(s.threads, t, Idle);
    FirstInLine(s.pq, s.pt, s.ph, ranges, t, t);
    QueuePop(s.pq, s.pt, s.ph, ranges);
  }

  lemma PublishKeeps<T>(s: State<T>, s': State<T>, t: Tid, objs: seq<T>, h: nat)
    requires Inv(s) && t in s.threads && s.threads[t] == EPublish(objs, h)
    requires |s.pq| > 0 && s' == s.(threads := s.threads[t := Idle], pt := h + |objs|, pq := s.pq[1..], sent := s'.sent)
    ensures Inv(s')
  {
    hide PcOk, Order, InPlace, Solo, QueuesOk, ProdRange, Producing, Consuming;
    PcFacts(s.threads[t]);
    PcFacts<T>(Idle);
    PublishFacts(s, s', objs, h);
    PublishQueues(s, s', t, objs, h);
    forall u | u in s.threads && u != t ensures PcOk(s', s.threads[u]) { PublishOthers(s, s', t, u); }
    Assemble(s, s', t, Idle);
  }

  lemma PublishOthers<T>(s: State<T>, s': State<T>, t: Tid, u: Tid)
    requires Inv(s) && u in s.threads && u != t && t in s.threads && ProdRange(s.threads[t]) != NoRange
             && ProdRange(s.threads[t]).h == s.pt
    requires Order(s')
             && s' == s.(pt := s.pt + ProdRange(s.threads[t]).n, pq := s'.pq, threads := s'.threads, sent := s'.sent)
    ensures PcOk(s', s.threads[u])
  {
    hide PcOk, Order, InPlace, Solo, QueueOk, ProdRange, ProdRanges, ConsRanges;
    RangesUpdate(s.threads, t, s.threads[t]);
    RangesUpdate(s.threads, u, s.threads[u]);
    FirstInLine(s.pq, s.pt, s.ph, ProdRanges(s.threads), t, u);
    PublishedElsewhere(s, s.threads[u], ProdRange(s.threads[t]).n);
    PcPublish(s, s', s.threads[u]);
  }

  lemma PublishedElsewhere<T>(s: State<T>, pc: Pc<T>, n: nat)
    requires Order(s) && PcOk(s, pc) && n >= 1 && (ProdRange(pc) != NoRange ==> s.pt + n <= ProdRange(pc).h)
    ensures !pc.EPublish?
  {
  }

  // ----- a consumer reserves

  lemma PcTake<T>(s: State<T>, s': State<T>, pc: Pc<T>)
    requires Order(s) && Order(s') && PcOk(s, pc) && !(s.sc && Consuming(pc))
    requires s' == s.(ch := s'.ch, cq := s'.cq, threads := s'.threads) && s.ch <= s'.ch
    ensures PcOk(s', pc)
  {
    hide Slot, FreeEntries, Entries;
  }

  lemma TakeFacts<T>(s: State<T>, s': State<T>, pc: Pc<T>)
    requires Order(s) && PcOk(s, pc) && pc.DMove? && s.ch == pc.h && InPlace(s, s.ct, s.pt)
    requires s' == s.(threads := s'.threads, ch := s.ch + pc.n, cq := s'.cq)
    ensures Order(s') && PcOk(s', DCopy(pc.h, pc.n, [])) && InPlace(s', s'.ct, s'.pt) && pc.n >= 1
  {
    EntriesIs(pc.p, pc.h);
  }

  lemma SoloConsumer<T>(s: State<T>, t: Tid, u: Tid)
    requires Solo(s) && t in s.threads && u in s.threads && t != u && Consuming(s.threads[t])
    ensures !(s.sc && Consuming(s.threads[u]))
  {
  }

  lemma TakeKeeps<T>(s: State<T>, s': State<T>, t: Tid, max: nat, fixed: bool, h: nat, n: nat, p: nat)
    requires Inv(s) && t in s.threads && s.threads[t] == DMove(max, fixed, h, n, p) && s.ch == h
    requires s' == s.(threads := s.threads[t := DCopy(h, n, [])], ch := s.ch + n, cq := s.cq + [Resv(t, h, n)])
    ensures Inv(s')
  {
    hide PcOk, Order, InPlace, QueueOk, ProdRange, ConsRange, ProdRanges, ConsRanges, Solo, Producing, Consuming;
    var pc, pc': Pc<T> := s.threads[t], DCopy(h, n, []);
    PcFacts(pc);
    PcFacts(pc');
    RangesUpdate(s.threads, t, pc');
    TakeFacts(s, s', pc);
    forall u | u in s.threads && u != t ensures PcOk(s', s.threads[u]) {
      SoloConsumer(s, t, u);
      PcTake(s, s', s.threads[u]);
    }
    QueuePush(s.cq, s.ct, s.ch, ConsRanges(s.threads), Resv(t, h, n));
    Assemble(s, s', t, pc');
  }

  // ----- a consumer releases

  lemma PcRelease<T>(s: State<T>, s': State<T>, pc: Pc<T>)
    requires Order(s) && Order(s') && PcOk(s, pc)
    requires s' == s.(ct := s'.ct, cq := s'.cq, threads := s'.threads, received := s'.received) && s.ct <= s'.ct
    requires ConsRange(pc) != NoRange ==> s'.ct <= ConsRange(pc).h && !pc.DPublish?
    ensures PcOk(s', pc)
  {
    hide Slot, FreeEntries, Entries;
  }

  lemma ReleasedElsewhere<T>(s: State<T>, pc: Pc<T>, n: nat)
    requires Order(s) && PcOk(s, pc) && n >= 1 && (ConsRange(pc) != NoRange ==> s.ct + n <= ConsRange(pc).h)
    ensures !pc.DPublish?
  {
  }

  lemma ReleaseOthers<T>(s: State<T>, s': State<T>, t: Tid, u: Tid)
    requires Inv(s) && u in s.threads && u != t && t in s.threads && ConsRange(s.threads[t]) != NoRange
             && ConsRange(s.threads[t]).h == s.ct
    requires Order(s') && s' == s.(ct := s.ct + ConsRange(s.threads[t]).n, cq := s'.cq, threads := s'.threads,
             received := s'.received)
    ensures PcOk(s', s.threads[u])
  {
    hide PcOk, Order, InPlace, Solo, QueueOk, ConsRange, ProdRanges, ConsRanges;
    RangesUpdate(s.threads, t, s.threads[t]);
    RangesUpdate(s.threads, u, s.threads[u]);
    FirstInLine(s.cq, s.ct, s.ch, ConsRanges(s.threads), t, u);
    ReleasedElsewhere(s, s.threads[u], ConsRange(s.threads[t]).n);
    PcRelease(s, s', s.threads[u]);
  }

  lemma ReleaseFacts<T>(s: State<T>, s': State<T>, h: nat, out: seq<T>)
    requires Order(s) && PcOk(s, DPublish(h, out)) && InPlace(s, s.ct, s.pt)
    requires s' == s.(threads := s'.threads, ct := h + |out|, cq := s'.cq, received := s'.received)
    ensures Order(s') && InPlace(s', s'.ct, s'.pt) && h == s.ct && PcOk(s', Idle)
  {
    hide Slot;
  }

  lemma ReleaseQueues<T>(s: State<T>, s': State<T>, t: Tid, h: nat, out: seq<T>)
    requires QueuesOk(s) && t in s.threads && s.threads[t] == DPublish(h, out) && h == s.ct
    requires |s.cq| > 0
             && s' == s.(threads := s.threads[t := Idle], ct := h + |out|, cq := s.cq[1..], received := s'.received)
    ensures QueuesOk(s')
  {
    hide QueueOk, ProdRanges, ConsRanges, ProdRange, ConsRange;
    var ranges := ConsRanges(s.threads);
    PcFacts(s.threads[t]);
    PcFacts<T>(Idle);
    RangesUpdate(s.threads, t, Idle);
    FirstInLine(s.cq, s.ct, s.ch, ranges, t, t);
    QueuePop(s.cq, s.ct, s.ch, ranges);
  }

  lemma ReleaseKeeps<T>(s: State<T>, s': State<T>, t: Tid, h: nat, out: seq<T>)
    requires Inv(s) && t in s.threads && s.threads[t] == DPublish(h, out)
    requires |s.cq| > 0
             && s' == s.(threads := s.threads[t := Idle], ct := h + |out|, cq := s.cq[1..], received := s'.received)
    ensures Inv(s')
  {
    hide PcOk, Order, InPlace, Solo, QueuesOk, ConsRange, Producing, Consuming;
    PcFacts(s.threads[t]);
    PcFacts<T>(Idle);
    ReleaseFacts(s, s', h, out);
    ReleaseQueues(s, s', t, h, out);
    forall u | u in s.threads && u != t ensures PcOk(s', s.threads[u]) { ReleaseOthers(s, s', t, u); }
    Assemble(s, s', t, Idle);
  }

  // ----- every step

  lemma LoadPc<T>(s: State<T>, t: Tid)
    requires Order(s) && Solo(s) && t in s.threads && PcOk(s, s.threads[t])
    ensures var pc := s.threads[t];
            && (pc.ELoadHead? ==> PcOk(s, ELoadTail(pc.objs, pc.fixed, s.ph)))
            && (pc.ELoadTail? ==> PcOk(s, Admit(s, pc.objs, pc.fixed, pc.h)))
            && (pc.EMove? ==> PcOk(s, ELoadHead(pc.objs, pc.fixed)))
            && (pc.DLoadHead? ==> PcOk(s, DLoadTail(pc.max, pc.fixed, s.ch)))
            && (pc.DLoadTail? ==> PcOk(s, Offer(s, pc.max, pc.fixed, pc.h)))
            && (pc.DMove? ==> PcOk(s, DLoadHead(pc.max, pc.fixed)))
  {
    hide FreeEntries, Entries;
  }

  lemma WaitPc<T>(s: State<T>, pc: Pc<T>)
    requires Order(s) && PcOk(s, pc)
    ensures pc.EWait? && Word(s.pt) == Word(pc.h) ==> PcOk(s, EPublish(pc.objs, pc.h))
    ensures pc.DWait? && Word(s.ct) == Word(pc.h) ==> PcOk(s, DPublish(pc.h, pc.out))
  {
    if pc.EWait? && Word(s.pt) == Word(pc.h) { WordsDiffer(s.pt, pc.h); }
    if pc.DWait? && Word(s.ct) == Word(pc.h) { WordsDiffer(s.ct, pc.h); }
  }

  lemma ReadPc<T>(s: State<T>, h: nat, n: nat, out: seq<T>)
    requires Order(s) && PcOk(s, DCopy(h, n, out)) && InPlace(s, s.ct, s.pt) && (s.sc ==> h == s.ct)
    ensures var out' := out + [s.ring[Slot(s.size, h + |out|)]];
            PcOk(s, if |out'| < n then DCopy(h, n, out') else if s.sc then DPublish(h, out') else DWait(h, out'))
  {
    var x := h + |out|;
    assert s.ring[Slot(s.size, x)] == s.log[x];
  }

  /** The move of the head by a compare-and-set is not fooled by a full turn of the 32-bit index. */
  predicate Unlapped<T>(s: State<T>, pc: Pc<T>) {
    match pc
    case EMove(_, _, h, _, _) => Word(s.ph) == Word(h) ==> s.ph == h
    case DMove(_, _, h, _, _) => Word(s.ch) == Word(h) ==> s.ch == h
    case _ => true
  }

  predicate NoLap<T>(s: State<T>) {
    forall t :: t in s.threads ==> Unlapped(s, s.threads[t])
  }

  lemma LocalStep<T>(s: State<T>, t: Tid, pc: Pc<T>)
    requires Inv(s) && t in s.threads && PcOk(s, pc)
    requires SameRanges(s.threads[t], pc)
    requires Producing(pc) ==> Producing(s.threads[t])
    requires Consuming(pc) ==> Consuming(s.threads[t])
    ensures Inv(At(s, t, pc))
  {
    hide PcOk, QueuesOk, ProdRange, ConsRange, Producing, Consuming, Order, InPlace, SameRanges;
    forall u | u in s.threads && u != t && s.sp && Producing(pc)
      ensures !Producing(s.threads[u]) { SoloProducer(s, t, u); }
    forall u | u in s.threads && u != t && s.sc && Consuming(pc)
      ensures !Consuming(s.threads[u]) { SoloConsumer(s, t, u); }
    LocalKeeps(s, t, pc);
  }

  lemma LoadKeeps<T>(s: State<T>, t: Tid)
    requires Inv(s) && Enabled(s, t, Continue)
    requires var pc := s.threads[t]; pc.ELoadHead? || pc.ELoadTail? || pc.DLoadHead? || pc.DLoadTail?
    ensures Inv(Exec(s, t, Continue))
  {
    hide PcOk, QueuesOk, InPlace, FreeEntries, Entries, Solo;
    LoadPc(s, t);
    LocalStep(s, t, Exec(s, t, Continue).threads[t]);
  }

  lemma WaitKeeps<T>(s: State<T>, t: Tid)
    requires Inv(s) && Enabled(s, t, Continue) && (s.threads[t].EWait? || s.threads[t].DWait?)
    ensures Inv(Exec(s, t, Continue))
  {
    hide PcOk, QueuesOk, InPlace, Solo, Word;
    WaitPc(s, s.threads[t]);
    LocalStep(s, t, Exec(s, t, Continue).threads[t]);
    if Exec(s, t, Continue) != s { assert At(s, t, Exec(s, t, Continue).threads[t]) == Exec(s, t, Continue); }
  }

  lemma ReadKeeps<T>(s: State<T>, t: Tid)
    requires Inv(s) && Enabled(s, t, Continue) && s.threads[t].DCopy?
    ensures Inv(Exec(s, t, Continue))
  {
    hide PcOk, QueuesOk, InPlace, Solo, Word, Slot;
    var pc := s.threads[t];
    SoloIsFirst(s, t);
    CopySlotIs(s.size, pc.h, |pc.out|);
    ReadPc(s, pc.h, pc.n, pc.out);
    ReadRange(s, pc);
    LocalStep(s, t, Exec(s, t, Continue).threads[t]);
  }

  lemma ReadRange<T>(s: State<T>, pc: Pc<T>)
    requires Order(s) && PcOk(s, pc) && pc.DCopy?
    ensures |pc.out| < pc.n
  {
  }

  lemma MoveKeeps<T>(s: State<T>, t: Tid)
    requires Inv(s) && Enabled(s, t, Continue) && (s.threads[t].EMove? || s.threads[t].DMove?)
             && Unlapped(s, s.threads[t])
    ensures Inv(Exec(s, t, Continue))
  {
    hide PcOk, QueuesOk, InPlace, Solo, Word;
    var pc := s.threads[t];
    LoadPc(s, t);
    MovesFromHead(s, pc);
    if pc.EMove? {
      if s.sp || Word(s.ph) == Word(pc.h) {
        ReserveKeeps(s, Exec(s, t, Continue), t);
      } else {
        LocalStep(s, t, ELoadHead(pc.objs, pc.fixed));
      }
    } else {
      if s.sc || Word(s.ch) == Word(pc.h) {
        TakeKeeps(s, Exec(s, t, Continue), t, pc.max, pc.fixed, pc.h, pc.n, pc.p);
      } else {
        LocalStep(s, t, DLoadHead(pc.max, pc.fixed));
      }
    }
  }

  lemma MovesFromHead<T>(s: State<T>, pc: Pc<T>)
    requires Order(s) && PcOk(s, pc)
    ensures pc.EMove? && s.sp ==> pc.h == s.ph
    ensures pc.DMove? && s.sc ==> pc.h == s.ch
  {
  }

  lemma StepKeepsInv<T>(s: State<T>, t: Tid, a: Action<T>)
    requires Inv(s) && Enabled(s, t, a) && Unlapped(s, s.threads[t])
    ensures Inv(Exec(s, t, a))
  {
    hide Inv, Unlapped, Enabled, Exec;
    if a == Continue { AccessKeeps(s, t); } else { CallKeeps(s, t, a); }
  }

  lemma AccessKeeps<T>(s: State<T>, t: Tid)
    requires Inv(s) && Enabled(s, t, Continue) && Unlapped(s, s.threads[t])
    ensures Inv(Exec(s, t, Continue))
  {
    hide PcOk, QueuesOk, InPlace, Solo, Word, Slot, Unlapped;
    match s.threads[t]
    case ECopy(objs, h, i) =>
      CopySlotIs(s.size, h, i);
      WriteKeeps(s, Exec(s, t, Continue), t, objs, h, i, Exec(s, t, Continue).threads[t]);
    case EPublish(objs, h) => PublishKeeps(s, Exec(s, t, Continue), t, objs, h);
    case DPublish(h, out) => ReleaseKeeps(s, Exec(s, t, Continue), t, h, out);
    case EMove(_, _, _, _, _) => MoveKeeps(s, t);
    case DMove(_, _, _, _, _) => MoveKeeps(s, t);
    case EWait(_, _) => WaitKeeps(s, t);
    case DWait(_, _) => WaitKeeps(s, t);
    case DCopy(_, _, _) => ReadKeeps(s, t);
    case _ => LoadKeeps(s, t);
  }

  lemma CallKeeps<T>(s: State<T>, t: Tid, a: Action<T>)
    requires Inv(s) && Enabled(s, t, a) && a != Continue
    ensures Inv(Exec(s, t, a))
  {
    hide QueuesOk, InPlace, Solo;
    LocalKeeps(s, t, Exec(s, t, a).threads[t]);
  }

  // ----- what was sent and received

  ghost predicate History<T>(s: State<T>) {
    && |s.sent| == s.pt <= |s.log| && (forall x :: 0 <= x < |s.sent| ==> s.sent[x] == s.log[x])
    && |s.received| == s.ct <= |s.log| && (forall x :: 0 <= x < |s.received| ==> s.received[x] == s.log[x])
  }

  lemma HistoryKept<T>(s: State<T>, t: Tid)
    requires Inv(s) && History(s) && Enabled(s, t, Continue)
    ensures History(Exec(s, t, Continue))
  {
    hide Inv, Order, QueuesOk, PcOk, History, Exec;
    InvParts(s, t);
    if s.threads[t].EMove? { HistoryReserve(s, t); }
    else if s.threads[t].EPublish? { HistoryPublish(s, t); }
    else if s.threads[t].DPublish? { HistoryRelease(s, t); }
    else { HistorySame(s, t); }
  }

  lemma HistorySame<T>(s: State<T>, t: Tid)
    requires History(s) && Enabled(s, t, Continue)
    requires !s.threads[t].EMove? && !s.threads[t].EPublish? && !s.threads[t].DPublish?
    ensures History(Exec(s, t, Continue))
  {
    hide Word, Slot, FreeEntries, Entries;
  }

  lemma HistoryReserve<T>(s: State<T>, t: Tid)
    requires History(s) && Enabled(s, t, Continue) && s.threads[t].EMove?
    ensures History(Exec(s, t, Continue))
  {
    hide Word;
  }

  lemma HistoryPublish<T>(s: State<T>, t: Tid)
    requires History(s) && Enabled(s, t, Continue) && s.threads[t].EPublish? && Order(s) && PcOk(s, s.threads[t])
    ensures History(Exec(s, t, Continue))
  {
    hide Word, Slot, InPlace;
    var s', objs, h := Exec(s, t, Continue), s.threads[t].objs, s.threads[t].h;
    forall x | 0 <= x < |s'.sent| ensures s'.sent[x] == s'.log[x] {
      if x >= |s.sent| { assert s.log[h + (x - h)] == objs[x - h]; }
    }
  }

  lemma HistoryRelease<T>(s: State<T>, t: Tid)
    requires History(s) && Enabled(s, t, Continue) && s.threads[t].DPublish? && Order(s) && PcOk(s, s.threads[t])
    ensures History(Exec(s, t, Continue))
  {
    hide Word, Slot, InPlace;
    var s', out, h := Exec(s, t, Continue), s.threads[t].out, s.threads[t].h;
    forall x | 0 <= x < |s'.received| ensures s'.received[x] == s'.log[x] {
      if x >= |s.received| { assert out[x - h] == s.log[h + (x - h)]; }
    }
  }

  // ----- runs

  predicate Init<T>(s: State<T>, k: nat) {
    && s.size == Pow2(k) && s.size <= 0x0fff_ffff && |s.ring| == s.size
    && s.ph == s.pt == s.ch == s.ct == 0
    && s.log == [] && s.pq == [] && s.cq == [] && s.sent == [] && s.received == []
    && forall t :: t in s.threads ==> s.threads[t].Idle?
  }

  ghost predicate Step<T(!new)>(s: State<T>, s': State<T>) {
    exists t, a :: Enabled(s, t, a) && s' == Exec(s, t, a)
  }

  /** A run of a ring of 2^k slots in which no index turns once around during one compare-and-set. */
  ghost predicate IsRun<T(!new)>(run: seq<State<T>>, k: nat) {
    && |run| > 0
    && Init(run[0], k)
    && (forall i :: 0 <= i < |run| ==> NoLap(run[i]))
    && forall i :: 0 <= i < |run| - 1 ==> Step(run[i], run[i + 1])
  }

  lemma {:induction false} Pow2Bound(k: nat)
    requires Pow2(k) <= 0x0fff_ffff
    ensures k < 32
  {
    if k >= 32 {
      PowSum(k - 32, 32);
      WordIsPow2();
    }
  }

  lemma InitInv<T>(s: State<T>, k: nat)
    requires Init(s, k)
    ensures Inv(s) && History(s)
  {
    Pow2Bound(k);
    SizeDividesWord(k);
  }

  lemma SizeKept<T>(s: State<T>, t: Tid, a: Action<T>)
    requires Enabled(s, t, a)
    ensures Exec(s, t, a).size == s.size
  {
  }

  lemma CallHistory<T>(s: State<T>, t: Tid, a: Action<T>)
    requires Enabled(s, t, a) && History(s) && a != Continue
    ensures History(Exec(s, t, a))
  {
  }

  lemma Here<T>(s: State<T>, t: Tid, a: Action<T>)
    requires Enabled(s, t, a) && NoLap(s)
    ensures t in s.threads && Unlapped(s, s.threads[t])
  {
    hide Unlapped;
  }

  lemma {:induction false} RunInv<T(!new)>(run: seq<State<T>>, k: nat, i: nat)
    requires IsRun(run, k) && i < |run|
    ensures Inv(run[i]) && History(run[i]) && run[i].size == Pow2(k)
  {
    hide Inv, History, NoLap, Enabled, Pow2;
    if i == 0 {
      InitInv(run[0], k);
    } else {
      RunInv(run, k, i - 1);
      assert Step(run[i - 1], run[i - 1 + 1]);
      var t, a :| Enabled(run[i - 1], t, a) && run[i] == Exec(run[i - 1], t, a);
      Here(run[i - 1], t, a);
      StepKeepsInv(run[i - 1], t, a);
      SizeKept(run[i - 1], t, a);
      if a == Continue { HistoryKept(run[i - 1], t); } else { CallHistory(run[i - 1], t, a); }
    }
  }

  // ----- what holds in every run

  /** The four indices keep their order and never span more than mask entries; the ranges in flight
      tile [prod.tail, prod.head) and [cons.tail, cons.head) exactly, one range per copying thread. */
  lemma IndicesAndReservations<T(!new)>(run: seq<State<T>>, k: nat, i: nat)
    requires IsRun(run, k) && i < |run|
    ensures var s := run[i];
            && s.size > 0 && s.ct <= s.ch <= s.pt <= s.ph <= s.ct + Mask(s)
            && Tiles(s.pq, s.pt, s.ph) && OnePerThread(s.pq) && Matches(s.pq, ProdRanges(s.threads))
            && Tiles(s.cq, s.ct, s.ch) && OnePerThread(s.cq) && Matches(s.cq, ConsRanges(s.threads))
  {
    hide Tiles, OnePerThread, Matches;
    RunInv(run, k, i);
  }

  /** A slot about to be written holds no unread entry, published or being read, and is in no other
      producer's range. */
  lemma NoOverwrite<T(!new)>(run: seq<State<T>>, k: nat, i: nat, t: Tid)
    requires IsRun(run, k) && i < |run| && t in run[i].threads && run[i].threads[t].ECopy? && run[i].size > 0
    ensures var s, pc := run[i], run[i].threads[t];
            && (forall x :: s.ct <= x < s.pt ==> Slot(s.size, x) != CopySlot(s.size, pc.h, pc.i))
            && (forall u, x :: u in s.threads && u != t && ProdRange(s.threads[u]) != NoRange
                  && ProdRange(s.threads[u]).h <= x < ProdRange(s.threads[u]).h + ProdRange(s.threads[u]).n
                  ==> Slot(s.size, x) != CopySlot(s.size, pc.h, pc.i))
  {
    hide QueuesOk, Slot, InPlace, Solo, Inv;
    var s, pc := run[i], run[i].threads[t];
    RunInv(run, k, i);
    InvParts(s, t);
    var y := pc.h + pc.i;
    CopySlotIs(s.size, pc.h, pc.i);
    forall x | s.ct <= x < s.pt ensures Slot(s.size, x) != Slot(s.size, y) {
      SlotsDiffer(s.size, x, y);
    }
    forall u, x | u in s.threads && u != t && ProdRange(s.threads[u]) != NoRange
                  && ProdRange(s.threads[u]).h <= x < ProdRange(s.threads[u]).h + ProdRange(s.threads[u]).n
      ensures Slot(s.size, x) != Slot(s.size, y)
    {
      OthersElsewhere(s, t, u, y);
      InvParts(s, u);
      ProducerWithin(s, s.threads[u]);
      if x < y { SlotsDiffer(s.size, x, y); } else { SlotsDiffer(s.size, y, x); }
    }
  }

  lemma InvParts<T>(s: State<T>, t: Tid)
    requires Inv(s) && t in s.threads
    ensures Order(s) && QueuesOk(s) && PcOk(s, s.threads[t])
  {
  }

  lemma ProducerWithin<T>(s: State<T>, pc: Pc<T>)
    requires Order(s) && PcOk(s, pc) && ProdRange(pc) != NoRange
    ensures s.pt <= ProdRange(pc).h && ProdRange(pc).h + ProdRange(pc).n <= s.ph
  {
  }

  /** The ring is a bounded FIFO in reservation order: what has been received is a prefix of what has
      been sent, both are prefixes of the reservations, and at most mask entries lie in between. */
  lemma BoundedFifo<T(!new)>(run: seq<State<T>>, k: nat, i: nat)
    requires IsRun(run, k) && i < |run|
    ensures run[i].received <= run[i].sent <= run[i].log
    ensures |run[i].sent| - |run[i].received| < run[i].size
    ensures |run[i].sent| == run[i].pt && |run[i].received| == run[i].ct
  {
    hide QueuesOk, InPlace, Solo, PcOk;
    RunInv(run, k, i);
  }

  /** A dequeue returns exactly the entries of its range, whatever the other threads did meanwhile. */
  lemma DequeueReturnsItsRange<T(!new)>(run: seq<State<T>>, k: nat, i: nat, t: Tid)
    requires IsRun(run, k) && i < |run| && t in run[i].threads && run[i].threads[t].DPublish?
    ensures var s, pc := run[i], run[i].threads[t];
            pc.h == s.ct && pc.h + |pc.out| <= |s.sent| && pc.out == s.sent[pc.h..pc.h + |pc.out|]
  {
    hide QueuesOk, InPlace, Solo;
    RunInv(run, k, i);
    assert PcOk(run[i], run[i].threads[t]);
  }

  /** An enqueue gives up only when, at the moment it looks, there really is not enough room;
      the 32-bit computation could only mislead it after a full turn of the index. */
  lemma EnqueueGivesUpHonestly<T(!new)>(run: seq<State<T>>, k: nat, i: nat, t: Tid)
    requires IsRun(run, k) && i < |run| && Enabled(run[i], t, Continue) && run[i].threads[t].ELoadTail?
    requires run[i].ct - run[i].threads[t].h <= WORD - run[i].size
    ensures var s, pc := run[i], run[i].threads[t];
            Exec(s, t, Continue).threads[t].Idle? ==>
              |pc.objs| > Mask(s) - (s.ph - s.ct) && (!pc.fixed ==> s.ph - s.ct == Mask(s))
  {
    hide QueuesOk, InPlace, Solo, FreeEntries;
    RunInv(run, k, i);
    var s, pc := run[i], run[i].threads[t];
    assert PcOk(s, pc);
    FreeEntriesAtLeast(Mask(s), s.ct, pc.h);
  }

  lemma FreeEntriesAtLeast(mask: nat, c: nat, h: nat)
    requires h <= c + mask && mask + c - h < WORD
    ensures FreeEntries(mask, c, h) == mask + c - h
  {
    var q := h / WORD - c / WORD;
    assert mask + Word(c) - Word(h) == (mask + c - h) + WORD * q;
    RemainderShift(mask + c - h, WORD, q);
  }

  /** A dequeue gives up only when, at the moment it looks, too few entries are published and unclaimed. */
  lemma DequeueGivesUpHonestly<T(!new)>(run: seq<State<T>>, k: nat, i: nat, t: Tid)
    requires IsRun(run, k) && i < |run| && Enabled(run[i], t, Continue) && run[i].threads[t].DLoadTail?
    requires run[i].pt - run[i].threads[t].h < WORD
    ensures var s, pc := run[i], run[i].threads[t];
            Exec(s, t, Continue).threads[t].Idle? ==> pc.max > s.pt - s.ch && (!pc.fixed ==> s.pt == s.ch)
  {
    hide QueuesOk, InPlace, Solo, Entries;
    RunInv(run, k, i);
    var s, pc := run[i], run[i].threads[t];
    assert PcOk(s, pc);
    EntriesIs(s.pt, pc.h);
  }

  // ----- rte_ring_count, rte_ring_free_count, rte_ring_full, rte_ring_empty

  /** prod.tail is p when it is loaded, cons.tail is c when it is loaded after that. */
  function Count(size: nat, p: nat, c: nat): nat
    requires size > 0
  {
    BitAnd(Word(Word(p) - Word(c)), size - 1)
  }

  function FreeCount(size: nat, p: nat, c: nat): nat
    requires size > 0
  {
    BitAnd(Word(Word(c) - Word(p) - 1), size - 1)
  }

  predicate Full(size: nat, p: nat, c: nat)
    requires size > 0
  {
    FreeCount(size, p, c) == 0
  }

  predicate Empty(p: nat, c: nat) { Word(c) == Word(p) }

  /** prod.tail is loaded in state i and cons.tail in state j. With n entries between the two, count and
      free_count are exact if and only if the consumers have not passed the loaded prod.tail, and so are
      full and empty then; otherwise n is negative and its remainder is reported. The counts add up to
      the capacity in any case. */
  lemma CountsAgree<T(!new)>(run: seq<State<T>>, k: nat, i: nat, j: nat)
    requires IsRun(run, k) && i <= j < |run| && run[i].size > 0
    ensures var size, p, c, n := run[i].size, run[i].pt, run[j].ct, |run[i].sent| - |run[j].received|;
            && (Count(size, p, c) == n <==> n >= 0)
            && (FreeCount(size, p, c) == size - 1 - n <==> n >= 0)
            && Count(size, p, c) + FreeCount(size, p, c) == size - 1
            && (Full(size, p, c) <==> n % size == size - 1) && (n >= 0 ==> (Full(size, p, c) <==> n == size - 1))
            && (Empty(p, c) <==> n % WORD == 0) && (n >= 0 ==> (Empty(p, c) <==> n == 0))
            && (i == j ==> n >= 0)
  {
    hide QueuesOk, InPlace, Solo, PcOk, BitAnd, Word, Pow2, IsRun;
    RunInv(run, k, i);
    BoundedFifo(run, k, i);
    BoundedFifo(run, k, j);
    HistoryGrows(run, k, i, j);
    var size, p, c := run[i].size, run[i].pt, run[j].ct;
    var n := |run[i].sent| - |run[j].received|;
    MaskIsRemainder(Word(Word(p) - Word(c)), k);
    MaskIsRemainder(Word(Word(c) - Word(p) - 1), k);
    CountWords(size, c, p);
    if n >= 0 {
      RemainderUnique(n, size, 0, n);
      RemainderUnique(n, WORD, 0, n);
    }
  }

  /** What was sent or received stays so. */
  lemma {:induction false} HistoryGrows<T(!new)>(run: seq<State<T>>, k: nat, i: nat, j: nat)
    requires IsRun(run, k) && i <= j < |run|
    ensures |run[i].sent| <= |run[j].sent| && |run[i].received| <= |run[j].received|
  {
    hide Init, NoLap, Enabled, Exec;
    if i < j {
      HistoryGrows(run, k, i, j - 1);
      assert Step(run[j - 1], run[j - 1 + 1]);
      var t, a :| Enabled(run[j - 1], t, a) && run[j] == Exec(run[j - 1], t, a);
      ExecGrows(run[j - 1], t, a);
    }
  }

  lemma ExecGrows<T>(s: State<T>, t: Tid, a: Action<T>)
    requires Enabled(s, t, a)
    ensures |s.sent| <= |Exec(s, t, a).sent| && |s.received| <= |Exec(s, t, a).received|
  {
    hide Word, CopySlot, Admit, Offer, EnqueueMove, DequeueMove;
    if a.Continue? {
      var pc := s.threads[t];
      if pc.EMove? { MoveSends(s, t); } else if pc.DMove? { MoveReceives(s, t); }
    }
  }

  lemma MoveSends<T>(s: State<T>, t: Tid)
    requires Enabled(s, t, Continue) && s.threads[t].EMove?
    ensures Exec(s, t, Continue).sent == s.sent && Exec(s, t, Continue).received == s.received
  {
    hide Word;
  }

  lemma MoveReceives<T>(s: State<T>, t: Tid)
    requires Enabled(s, t, Continue) && s.threads[t].DMove?
    ensures Exec(s, t, Continue).sent == s.sent && Exec(s, t, Continue).received == s.received
  {
    hide Word;
  }

  lemma CountWords(size: nat, c: nat, p: nat)
    requires 0 < size && WORD % size == 0
    ensures Word(Word(p) - Word(c)) % size == (p - c) % size
    ensures Word(Word(c) - Word(p) - 1) % size == size - 1 - (p - c) % size
    ensures Word(c) == Word(p) <==> (p - c) % WORD == 0
  {
    hide Word;
    WordTurns(p, c, 0, size);
    WordTurns(c, p, -1, size);
    var n := p - c;
    RemainderUnique(-n - 1, size, -(n / size) - 1, size - 1 - n % size);
    SameWord(p, c);
  }

  /** The remainder by a divisor of the word's range does not see the wrapping. */
  lemma WordTurns(x: nat, y: nat, d: int, size: nat)
    requires 0 < size && WORD % size == 0
    ensures Word(Word(x) - Word(y) + d) % size == (x - y + d) % size
  {
    MultipleOf(WORD, size);
    var m := WORD / size;
    var a, b := x / WORD, y / WORD;
    var z := Word(x) - Word(y) + d;
    var e := z / WORD;
    assert x - y + d == Word(z) + WORD * (a - b + e);
    assert WORD * (a - b + e) == size * (m * (a - b + e));
    RemainderShift(Word(z), size, m * (a - b + e));
  }

  lemma SameWord(x: nat, y: nat)
    ensures Word(x) == Word(y) <==> (x - y) % WORD == 0
  {
    var a, b := x / WORD, y / WORD;
    assert x - y == WORD * (a - b) + (Word(x) - Word(y));
    RemainderShift(Word(x) - Word(y), WORD, a - b);
  }

  lemma MultipleOf(x: int, m: nat)
    requires m > 0 && x % m == 0
    ensures x == m * (x / m)
  {
  }

  // ----- the high-water mark

  /** The program's test, on 32-bit words, made by a producer that found `free` entries and added `n`. */
  predicate QuotaExceeded(mask: nat, free: nat, n: nat, watermark: nat) {
    Word((mask + 1) - free + n) > watermark
  }

  lemma QuotaTest(mask: nat, c: nat, h: nat, n: nat, watermark: nat)
    requires c <= h && h + n <= c + mask && mask + 1 < WORD
    ensures QuotaExceeded(mask, FreeEntries(mask, c, h), n, watermark) <==> h + n - c >= watermark
  {
    FreeEntriesIs(mask, c, h);
  }

  /** What the producer about to move prod.head will report after its copy. */
  predicate Reports<T>(s: State<T>, pc: Pc<T>, watermark: nat)
    requires s.size > 0 && pc.EMove?
  {
    QuotaExceeded(Mask(s), FreeEntries(Mask(s), pc.c, pc.h), pc.n, watermark)
  }

  /** In every run, a producer whose move of prod.head succeeds reports the quota exactly when the
      entries up to its new head, counted from the cons.tail it loaded, reach the mark. That tail may
      be stale, so a fill that reaches the mark is never missed, one below it may be reported, and
      with an up-to-date tail the report comes one entry before the mark is exceeded. The default
      mark, the size of the ring, is never reported. */
  lemma QuotaIsOneEarly<T(!new)>(run: seq<State<T>>, k: nat, i: nat, t: Tid, watermark: nat)
    requires IsRun(run, k) && i < |run| && Enabled(run[i], t, Continue)
    requires run[i].threads[t].EMove? && Exec(run[i], t, Continue).threads[t].ECopy?
    ensures var s, pc, s' := run[i], run[i].threads[t], Exec(run[i], t, Continue);
            && (Reports(s, pc, watermark) <==> s'.ph - pc.c >= watermark)
            && pc.c <= s.ct == s'.ct
            && (s'.ph - s'.ct >= watermark ==> Reports(s, pc, watermark))
            && (pc.c == s.ct ==> (Reports(s, pc, watermark) <==> s'.ph - s'.ct >= watermark))
            && !Reports(s, pc, s.size)
  {
    hide QueuesOk, InPlace, Solo, Word, FreeEntries, QuotaExceeded;
    var s, pc := run[i], run[i].threads[t];
    RunInv(run, k, i);
    assert PcOk(s, pc) && NoLap(s);
    FreeEntriesIs(Mask(s), pc.c, pc.h);
    QuotaTest(Mask(s), pc.c, pc.h, pc.n, watermark);
    QuotaTest(Mask(s), pc.c, pc.h, pc.n, s.size);
  }

  // ----- a run in which both happen: one producer, one consumer, four slots

  function Both(p: Pc<int>, c: Pc<int>): map<Tid, Pc<int>> { map[0 := p, 1 := c] }

  lemma BothAre(p: Pc<int>, c: Pc<int>, x: Pc<int>)
    ensures Both(p, c).Keys == {0, 1} && Both(p, c)[0] == p && Both(p, c)[1] == c
    ensures Both(p, c)[0 := x] == Both(x, c) && Both(p, c)[1 := x] == Both(p, x)
  {
  }

  /** What the producer and the consumer are about to do in scene i. */
  function Producer(i: nat): Pc<int> {
    match i
    case 0 => Idle
    case 1 => ELoadHead([7], true)
    case 2 => ELoadTail([7], true, 0)
    case 3 => EMove([7], true, 0, 1, 0)
    case 4 => ECopy([7], 0, 0)
    case 5 => EPublish([7], 0)
    case 6 => Idle
    case 7 => ELoadHead([8], true)
    case 8 => ELoadTail([8], true, 1)
    case _ => EMove([8], true, 1, 1, 0)
  }

  function Consumer(i: nat): Pc<int> {
    match i
    case 10 => DLoadHead(1, true)
    case 11 => DLoadTail(1, true, 0)
    case 12 => DMove(1, true, 0, 1, 1)
    case 13 => DCopy(0, 1, [])
    case 14 => DPublish(0, [7])
    case _ => Idle
  }

  /** The entry 7 is reserved from scene 4 on, copied from 5, published from 6, claimed from 13 and taken from 15. */
  function Scene(i: nat): State<int> {
    State(
      4, true, true,
      if i < 4 then 0 else 1, if i < 6 then 0 else 1, if i < 13 then 0 else 1, if i < 15 then 0 else 1,
      if i < 5 then [0, 0, 0, 0] else [7, 0, 0, 0],
      Both(Producer(i), Consumer(i)),
      if i < 4 then [] else [7], if i in {4, 5} then [Resv(0, 0, 1)] else [], if i in {13, 14} then [Resv(1, 0, 1)]
        else [],
      if i < 6 then [] else [7], if i < 15 then [] else [7])
  }

  function Act(i: nat): Action<int> {
    match i
    case 0 => Enqueue([7], true)
    case 6 => Enqueue([8], true)
    case 9 => Dequeue(1, true)
    case _ => Continue
  }

  /** Scene i + 1 follows scene i by a step of one of the two threads. */
  predicate Leads(i: nat) {
    var t, s' := if i < 9 then 0 else 1, Scene(i + 1);
    Enabled(Scene(i), t, Act(i)) && Exec(Scene(i), t, Act(i)) == s'
  }

  lemma NoLapBoth(s: State<int>, p: Pc<int>, c: Pc<int>)
    requires s.threads == Both(p, c)
    requires (p.EMove? ==> p.h == s.ph) && !p.DMove? && (c.DMove? ==> c.h == s.ch) && !c.EMove?
    ensures NoLap(s)
  {
    hide Word;
  }

  lemma NoLapScene(i: nat)
    ensures NoLap(Scene(i))
  {
    hide Both, NoLap;
    NoLapBoth(Scene(i), Producer(i), Consumer(i));
  }

  lemma CallLeads(i: nat)
    requires i in {0, 6, 9}
    ensures Leads(i)
  {
    hide Both;
    BothAre(Producer(i), Consumer(i), if i < 9 then Producer(i + 1) else Consumer(i + 1));
  }

  lemma LoadHeadLeads(i: nat)
    requires i in {1, 7, 10}
    ensures Leads(i)
  {
    hide Both;
    BothAre(Producer(i), Consumer(i), if i < 9 then Producer(i + 1) else Consumer(i + 1));
  }

  lemma LoadTailLeads(i: nat)
    requires i in {2, 8, 11}
    ensures Leads(i)
  {
    hide Both, FreeEntries, Entries;
    BothAre(Producer(i), Consumer(i), if i < 9 then Producer(i + 1) else Consumer(i + 1));
    FreeEntriesIs(3, 0, if i == 2 then 0 else 1);
    EntriesIs(1, 0);
  }

  lemma MoveLeads(i: nat)
    requires i in {3, 12}
    ensures Leads(i)
  {
    hide Both;
    BothAre(Producer(i), Consumer(i), if i < 9 then Producer(i + 1) else Consumer(i + 1));
    assert [7][..1] == [7];
  }

  lemma FirstSlot()
    ensures CopySlot(4, 0, 0) == 0
  {
  }

  lemma Written(ring: seq<int>)
    requires ring == [0, 0, 0, 0]
    ensures ring[0 := 7] == [7, 0, 0, 0]
  {
  }

  lemma PutLeads()
    ensures Leads(4)
  {
    hide Both, CopySlot;
    BothAre(Producer(4), Consumer(4), Producer(5));
    FirstSlot();
    Written(Scene(4).ring);
  }

  lemma TakesOne<T>(s: State<T>, t: Tid)
    requires Enabled(s, t, Continue) && s.sc && s.threads[t] == DCopy(0, 1, []) && CopySlot(s.size, 0, 0) == 0
    ensures Exec(s, t, Continue) == At(s, t, DPublish(0, [s.ring[0]]))
  {
    hide CopySlot, Word, Slot;
    assert s.threads[t].out + [s.ring[0]] == [s.ring[0]];
  }

  lemma GetLeads()
    ensures Leads(13)
  {
    hide Both, CopySlot, Exec;
    BothAre(Producer(13), Consumer(13), Consumer(14));
    FirstSlot();
    TakesOne(Scene(13), 1);
  }

  lemma PublishLeads(i: nat)
    requires i in {5, 14}
    ensures Leads(i)
  {
    hide Both;
    BothAre(Producer(i), Consumer(i), if i < 9 then Producer(i + 1) else Consumer(i + 1));
  }

  lemma EveryScene(i: nat)
    requires i < 15
    ensures Leads(i)
  {
    hide Leads;
    if i in {0, 6, 9} { CallLeads(i); }
    else if i in {3, 12} { MoveLeads(i); }
    else if i == 4 { PutLeads(); }
    else if i == 13 { GetLeads(); }
    else if i in {5, 14} { PublishLeads(i); }
    else if i in {1, 7, 10} { LoadHeadLeads(i); }
    else { LoadTailLeads(i); }
  }

  /** The producer moves prod.head next, the ring then holds n entries, and a mark of `watermark` is reported. */
  predicate ReportsAt(s: State<int>, n: nat, watermark: nat) {
    && Enabled(s, 0, Continue) && s.threads[0].EMove? && Reports(s, s.threads[0], watermark)
    && Exec(s, 0, Continue).threads[0].ECopy?
    && Exec(s, 0, Continue).ph - Exec(s, 0, Continue).ct == n
  }

  lemma ReportsFirst()
    ensures ReportsAt(Scene(3), 1, 1)
  {
    hide Both;
    BothAre(Producer(3), Consumer(3), ECopy([7], 0, 0));
  }

  lemma ReportsAgain()
    ensures ReportsAt(Scene(15), 1, 2)
  {
    hide Both;
    BothAre(Producer(15), Consumer(15), ECopy([8], 1, 0));
  }

  lemma SceneRun() returns (run: seq<State<int>>)
    ensures IsRun(run, 2) && |run| == 16 && forall i :: 0 <= i < 16 ==> run[i] == Scene(i)
  {
    hide NoLap, Enabled, Exec;
    assert Init(Scene(0), 2) by { assert Pow2(2) == 4; }
    hide Scene, Init, Pow2;
    run := seq(16, (i: nat) => Scene(i));
    forall i | 0 <= i < 16 ensures NoLap(run[i]) { NoLapScene(i); }
    forall i | 0 <= i < 15 ensures Step(run[i], run[i + 1]) { EveryScene(i); }
  }

  /** In state 3 a mark of one is reported although one entry does not exceed it; in state 15, after
      the entry was taken out behind the producer's back, a mark of two is reported for a ring that
      will hold one. */
  lemma QuotaCanMislead() returns (run: seq<State<int>>)
    ensures IsRun(run, 2) && |run| == 16
    ensures ReportsAt(run[3], 1, 1) && ReportsAt(run[15], 1, 2)
  {
    hide ReportsAt, IsRun, Scene;
    run := SceneRun();
    ReportsFirst();
    ReportsAgain();
  }

  /** With prod.tail loaded in state 0 and cons.tail in state 15, a ring that is empty in both is counted as full. */
  lemma CountCanMislead() returns (run: seq<State<int>>)
    ensures IsRun(run, 2) && |run| == 16 && run[0].size == 4
    ensures run[0].sent == run[0].received && run[15].sent == run[15].received
    ensures Count(4, run[0].pt, run[15].ct) == 3 && Full(4, run[0].pt, run[15].ct)
  {
    hide IsRun, Count, FreeCount;
    run := SceneRun();
    assert Pow2(2) == 4;
    CountsAgree(run, 2, 0, 15);
  }
}

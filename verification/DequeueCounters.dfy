/**
 The counters by which consumers of one producer's sub-queue agree on who takes which
 element: ExplicitProducer::dequeue and dequeue_bulk of cpp-util/concurrentqueue.h.

 A consumer optimistically adds to dequeueOptimisticCount, compares the result (corrected by a
 possibly stale dequeueOvercommit) with the tail, and then either takes indices from headIndex
 or gives its surplus back to dequeueOvercommit. Counters here are unbounded; the program sees
 them, and compares them, modulo 2^64.
 */
module DequeueCounters {

  const WORD: int := 0x1_0000_0000_0000_0000
  const HALF: int := 0x8000_0000_0000_0000

  type Tid = nat

  /** `dequeue` or `dequeue_bulk` with its limit. */
  datatype Kind = Single | Bulk(max: nat)

  /** The next atomic access; `i` is the position of the thread's reservation in the log. */
  datatype Pc =
    | Idle
    | LoadOver(kind: Kind, tail0: nat)
    | LoadOpt(kind: Kind, tail0: nat, oc: nat)
    | Reserve(kind: Kind, d: nat, oc: nat)
    | Reload(kind: Kind, i: nat, oc: nat)
    | GiveBack(i: nat, c: nat, a: nat)
    | Take(i: nat, a: nat)

  /** A range [first, first + count) of element indices obtained from headIndex. */
  datatype Claim = Claim(first: nat, count: nat)

  /** `want`, `got`, `back` and `taken` record, for every reservation in the order of its
      fetch_add on the optimistic count, how much was reserved, granted by the comparison,
      returned to the overcommit and obtained from the head. They are history only. */
  datatype State = State(
    tail: nat, head: nat, opt: nat, over: nat,
    threads: map<Tid, Pc>,
    want: seq<nat>, got: seq<nat>, back: seq<nat>, taken: seq<nat>,
    claims: seq<Claim>)

  datatype Action = Continue | Call(kind: Kind) | Enqueue(k: nat)

  // ----- the program's arithmetic

  function Word(x: int): nat { x % WORD }

  function CircularLess(a: nat, b: nat): bool {
    Word(a as int - b as int) > HALF
  }

  /** Is there something between the corrected count `x` and the tail? */
  predicate Something(kind: Kind, x: int, tail: nat) {
    match kind
    case Single => CircularLess(Word(x), Word(tail))
    case Bulk(_) => CircularLess(0, Word(Word(tail) - Word(x)))
  }

  function Min(a: nat, b: nat): nat { if a < b then a else b }

  /** How much to reserve, or to take, given what seems available. */
  function Amount(kind: Kind, limit: nat, x: int, tail: nat): nat {
    match kind
    case Single => 1
    case Bulk(_) => Min(limit, Word(Word(tail) - Word(x)))
  }

  function Limit(kind: Kind): nat {
    match kind case Single => 1 case Bulk(max) => max
  }

  // ----- steps

  function Sum(xs: seq<nat>, k: nat): nat
    requires k <= |xs|
  {
    if k == 0 then 0 else Sum(xs, k - 1) + xs[k - 1]
  }

  predicate Sized(s: State) {
    |s.want| == |s.got| == |s.back| == |s.taken|
  }

  predicate Enabled(s: State, t: Tid, a: Action) {
    && Sized(s)
    && match a
       case Enqueue(k) => true
       case Call(_) => t in s.threads && s.threads[t].Idle?
       case Continue =>
         && t in s.threads && !s.threads[t].Idle?
         && (s.threads[t].Reload? || s.threads[t].GiveBack? || s.threads[t].Take? ==> s.threads[t].i < |s.want|)
  }

  function Exec(s: State, t: Tid, a: Action): State
    requires Enabled(s, t, a)
  {
    match a
    case Enqueue(k) => s.(tail := s.tail + k)
    case Call(kind) => s.(threads := s.threads[t := LoadOver(kind, s.tail)])
    case Continue => Access(s, t)
  }

  function Access(s: State, t: Tid): State
    requires Enabled(s, t, Continue)
  {
    match s.threads[t]
    case LoadOver(kind, tail0) => s.(threads := s.threads[t := LoadOpt(kind, tail0, s.over)])
    case LoadOpt(kind, tail0, oc) =>
      s.(threads := s.threads[t :=
        if Something(kind, s.opt - oc, tail0) then Reserve(kind, Amount(kind, Limit(kind), s.opt - oc, tail0), oc)
        else Idle])
    case Reserve(kind, d, oc) =>
      s.(threads := s.threads[t := Reload(kind, |s.want|, oc)], opt := s.opt + d,
         want := s.want + [d], got := s.got + [0], back := s.back + [0], taken := s.taken + [0])
    case Reload(kind, i, oc) =>
      var d, x := s.want[i], Sum(s.want, i) - oc;
      if Something(kind, x, s.tail) then
        var a := Amount(kind, d, x, s.tail);
        s.(threads := s.threads[t := if a < d then GiveBack(i, d - a, a) else Take(i, a)], got := s.got[i := a])
      else
        s.(threads := s.threads[t := GiveBack(i, d, 0)])
    case GiveBack(i, c, a) =>
      s.(threads := s.threads[t := if a > 0 then Take(i, a) else Idle], over := s.over + c, back := s.back[i := c])
    case Take(i, a) =>
      s.(threads := s.threads[t := Idle], head := s.head + a, taken := s.taken[i := a],
         claims := s.claims + [Claim(s.head, a)])
  }

  predicate Init(s: State) {
    && s.tail == s.head == s.opt == s.over == 0
    && s.want == s.got == s.back == s.taken == []
    && s.claims == []
    && forall t :: t in s.threads ==> s.threads[t] == Idle
  }

  /** Between a thread's reservation and its comparison the counters do not drift half the
      word range apart. */
  predicate NoLap(s: State) {
    forall t :: t in s.threads && s.threads[t].Reload? && s.threads[t].i < |s.want| ==>
      -HALF < Sum(s.want, s.threads[t].i) - s.threads[t].oc - s.tail < HALF
  }

  ghost predicate Step(s: State, s': State) {
    exists t, a :: Enabled(s, t, a) && s' == Exec(s, t, a)
  }

  ghost predicate IsRun(run: seq<State>) {
    && |run| > 0
    && Init(run[0])
    && (forall i :: 0 <= i < |run| ==> NoLap(run[i]))
    && forall i :: 0 <= i < |run| - 1 ==> Step(run[i], run[i + 1])
  }

  // ----- wrapped comparisons agree with the logical ones

  lemma WordSame(x: int, q: int)
    ensures Word(x + q * WORD) == Word(x)
  {
  }

  lemma CircularLessIsLess(x: int, t: nat)
    requires -HALF < x - t < HALF
    ensures CircularLess(Word(x), Word(t)) <==> x < t
  {
    var q := x / WORD - t / WORD;
    assert Word(x) - Word(t) == (x - t) + (-q) * WORD;
    WordSame(x - t, -q);
  }

  lemma DistanceIs(x: int, t: nat)
    requires -HALF < x - t < HALF
    ensures Word(Word(t) - Word(x)) == if x <= t then t - x else WORD - (x - t)
  {
    var q := x / WORD - t / WORD;
    assert Word(t) - Word(x) == (t - x) + q * WORD;
    WordSame(t - x, q);
  }

  lemma AfterZero(d: nat)
    requires d < WORD
    ensures CircularLess(0, d) <==> 0 < d < HALF
  {
  }

  lemma SomethingIsLess(kind: Kind, x: int, t: nat)
    requires -HALF < x - t < HALF
    ensures Something(kind, x, t) <==> x < t
    ensures x < t ==> Word(Word(t) - Word(x)) == t - x
  {
    hide Word, CircularLess;
    CircularLessIsLess(x, t);
    DistanceIs(x, t);
    AfterZero(Word(Word(t) - Word(x)));
  }

  // ----- prefix sums

  lemma {:induction false} SumUpdate(xs: seq<nat>, i: nat, v: nat, k: nat)
    requires i < |xs| && k <= |xs|
    ensures Sum(xs[i := v], k) == Sum(xs, k) + (if i < k then v - xs[i] else 0)
  {
    if k > 0 { SumUpdate(xs, i, v, k - 1); }
  }

  lemma {:induction false} SumAppend(xs: seq<nat>, v: nat, k: nat)
    requires k <= |xs|
    ensures Sum(xs + [v], k) == Sum(xs, k)
    ensures Sum(xs + [v], |xs| + 1) == Sum(xs, |xs|) + v
  {
    if k > 0 { SumAppend(xs, v, k - 1); }
    if k < |xs| { SumAppendAll(xs, v, |xs|); }
  }

  lemma {:induction false} SumAppendAll(xs: seq<nat>, v: nat, k: nat)
    requires k <= |xs|
    ensures Sum(xs + [v], k) == Sum(xs, k)
  {
    if k > 0 { SumAppendAll(xs, v, k - 1); }
  }

  lemma {:induction false} SumDominated(a: seq<nat>, b: seq<nat>, k: nat)
    requires |a| == |b| && k <= |a| && forall i :: 0 <= i < |a| ==> a[i] <= b[i]
    ensures Sum(a, k) <= Sum(b, k)
  {
    if k > 0 { SumDominated(a, b, k - 1); }
  }

  // ----- the invariant

  predicate Settled(s: State, i: nat)
    requires Sized(s) && i < |s.want|
  {
    s.got[i] + s.back[i] == s.want[i] && s.taken[i] == s.got[i]
  }

  predicate Works(pc: Pc, i: nat) {
    (pc.Reload? || pc.GiveBack? || pc.Take?) && pc.i == i
  }

  /** What a thread knows: its overcommit value is never more than what earlier reservations gave back. */
  predicate PcOk(s: State, pc: Pc)
    requires Sized(s)
  {
    match pc
    case Idle => true
    case LoadOver(_, _) => true
    case LoadOpt(_, _, oc) => oc <= Sum(s.back, |s.back|)
    case Reserve(kind, d, oc) => oc <= Sum(s.back, |s.back|) && (kind.Single? ==> d == 1)
    case Reload(kind, i, oc) =>
      && i < |s.want| && s.got[i] == s.back[i] == s.taken[i] == 0
      && oc <= Sum(s.back, i) && (kind.Single? ==> s.want[i] == 1)
    case GiveBack(i, c, a) => i < |s.want| && s.got[i] == a && s.back[i] == s.taken[i] == 0 && a + c == s.want[i]
    case Take(i, a) => i < |s.want| && s.got[i] == a && s.taken[i] == 0 && s.got[i] + s.back[i] == s.want[i]
  }

  predicate TicketOk(s: State, i: nat)
    requires Sized(s) && i < |s.want|
  {
    && s.got[i] + s.back[i] <= s.want[i]
    && s.taken[i] <= s.got[i]
    && (s.got[i] > 0 ==> Sum(s.want, i) - Sum(s.back, i) + s.got[i] <= s.tail)
  }

  predicate Totals(s: State)
    requires Sized(s)
  {
    s.opt == Sum(s.want, |s.want|) && s.over == Sum(s.back, |s.back|) && s.head == Sum(s.taken, |s.taken|)
  }

  function EndOf(claims: seq<Claim>, j: nat): nat
    requires j <= |claims|
  {
    if j == 0 then 0 else claims[j - 1].first + claims[j - 1].count
  }

  predicate Tiled(claims: seq<Claim>, head: nat) {
    && (forall j :: 0 <= j < |claims| ==> claims[j].first == EndOf(claims, j))
    && EndOf(claims, |claims|) == head
  }

  ghost predicate Inv(s: State) {
    && Sized(s)
    && Totals(s)
    && (forall i :: 0 <= i < |s.want| ==> TicketOk(s, i))
    && (forall t :: t in s.threads ==> PcOk(s, s.threads[t]))
    && (forall t, u, i :: t in s.threads && u in s.threads && t != u && Works(s.threads[t], i) ==>
      !Works(s.threads[u], i))
    && (forall i :: 0 <= i < |s.want| ==> Settled(s, i) || exists t :: t in s.threads && Works(s.threads[t], i))
    && Tiled(s.claims, s.head)
  }

  /** Everything granted so far fits below the tail: a grant leaves room for every earlier reservation. */
  lemma {:induction false} GrantedFits(s: State, k: nat)
    requires Sized(s) && k <= |s.want| && forall i :: 0 <= i < |s.want| ==> TicketOk(s, i)
    ensures Sum(s.got, k) <= s.tail && Sum(s.got, k) + Sum(s.back, k) <= Sum(s.want, k)
  {
    if k > 0 {
      GrantedFits(s, k - 1);
      assert TicketOk(s, k - 1);
    }
  }

  // ----- every step keeps the invariant

  /** Reservations other than `j` are untouched and no prefix of the history loses anything. */
  ghost predicate Grows(s: State, s': State, j: nat) {
    && Sized(s) && Sized(s')
    && |s.want| <= |s'.want| <= |s.want| + 1
    && (|s'.want| == |s.want| + 1 ==> j == |s.want|)
    && s.tail <= s'.tail
    && (forall k: nat :: k <= |s.want| ==> Sum(s'.want, k) == Sum(s.want, k) && Sum(s.back, k) <= Sum(s'.back, k))
    && Sum(s.back, |s.back|) <= Sum(s'.back, |s'.back|)
    && (forall i :: 0 <= i < |s.want| ==> s'.want[i] == s.want[i])
    && (forall i :: 0 <= i < |s.want| && i != j ==>
          s'.got[i] == s.got[i] && s'.back[i] == s.back[i] && s'.taken[i] == s.taken[i])
  }

  lemma TicketKept(s: State, s': State, i: nat, j: nat)
    requires Grows(s, s', j) && i < |s.want| && i != j && TicketOk(s, i)
    ensures TicketOk(s', i) && (Settled(s, i) ==> Settled(s', i))
  {
    hide Sum;
  }

  lemma PcKept(s: State, s': State, pc: Pc, j: nat)
    requires Grows(s, s', j) && PcOk(s, pc) && !Works(pc, j)
    ensures PcOk(s', pc)
  {
    hide Sum;
  }

  /** The obligations of one thread's step, everything else following from `Grows`. */
  lemma StepKeeps(s: State, s': State, t: Tid, pc: Pc, j: nat)
    requires Inv(s) && t in s.threads && s'.threads == s.threads[t := pc]
    requires Grows(s, s', j)
    requires Works(s.threads[t], j) || j >= |s.want|
    requires forall i :: Works(pc, i) || Works(s.threads[t], i) ==> i == j
    requires j < |s'.want| ==> TicketOk(s', j) && (Works(pc, j) || Settled(s', j))
    requires PcOk(s', pc) && Totals(s') && Tiled(s'.claims, s'.head)
    ensures Inv(s')
  {
    hide Totals, TicketOk, PcOk, Sum, Settled, Works, Tiled;
    assert s'.threads.Keys == s.threads.Keys;
    forall i | 0 <= i < |s'.want|
      ensures TicketOk(s', i)
      ensures Settled(s', i) || exists u :: u in s'.threads && Works(s'.threads[u], i)
    {
      if i != j {
        TicketKept(s, s', i, j);
        if !Settled(s, i) {
          var u :| u in s.threads && Works(s.threads[u], i);
          assert u in s'.threads && Works(s'.threads[u], i);
        }
      } else if Works(pc, j) {
        assert Works(s'.threads[t], i);
      }
    }
    forall u | u in s'.threads ensures PcOk(s', s'.threads[u]) {
      if u != t { PcBelow(s, s.threads[u], j); PcKept(s, s', s.threads[u], j); }
    }
    forall u, v, i | u in s'.threads && v in s'.threads && u != v && Works(s'.threads[u], i)
      ensures !Works(s'.threads[v], i)
    {
      if u != t { PcBelow(s, s.threads[u], i); }
      if v != t { PcBelow(s, s.threads[v], i); }
    }
  }

  lemma PcBelow(s: State, pc: Pc, i: nat)
    requires Sized(s) && PcOk(s, pc)
    ensures Works(pc, i) ==> i < |s.want|
  {
  }

  lemma QuietGrows(s: State, s': State)
    requires Sized(s) && s.tail <= s'.tail
    requires s'.want == s.want && s'.got == s.got && s'.back == s.back && s'.taken == s.taken
    ensures Grows(s, s', |s.want|)
  {
  }

  lemma LoadKeepsInv(s: State, t: Tid)
    requires Inv(s) && Enabled(s, t, Continue) && (s.threads[t].LoadOver? || s.threads[t].LoadOpt?)
    ensures Inv(Access(s, t))
  {
    var s' := Access(s, t);
    QuietGrows(s, s');
    assert PcOk(s, s.threads[t]);
    StepKeeps(s, s', t, s'.threads[t], |s.want|);
  }

  lemma ReserveKeepsInv(s: State, t: Tid)
    requires Inv(s) && Enabled(s, t, Continue) && s.threads[t].Reserve?
    ensures Inv(Access(s, t))
  {
    var s', d := Access(s, t), s.threads[t].d;
    assert PcOk(s, s.threads[t]);
    ReserveGrows(s, s', d);
    StepKeeps(s, s', t, s'.threads[t], |s.want|);
  }

  lemma ReserveGrows(s: State, s': State, d: nat)
    requires Sized(s) && Totals(s) && s'.tail == s.tail && s'.head == s.head && s'.opt == s.opt + d && s'.over == s.over
    requires s'.want == s.want + [d] && s'.got == s.got + [0] && s'.back == s.back + [0] && s'.taken == s.taken + [0]
    ensures Grows(s, s', |s.want|) && Totals(s') && Sum(s'.back, |s.want|) == Sum(s.back, |s.want|)
  {
    forall k: nat | k <= |s.want|
      ensures Sum(s'.want, k) == Sum(s.want, k) && Sum(s'.back, k) == Sum(s.back, k)
    {
      SumAppend(s.want, d, k);
      SumAppend(s.back, 0, k);
    }
    SumAppend(s.want, d, |s.want|);
    SumAppend(s.back, 0, |s.want|);
    SumAppend(s.taken, 0, |s.want|);
  }

  lemma InvOf(s: State, t: Tid)
    requires Inv(s) && t in s.threads
    ensures Sized(s) && Totals(s) && PcOk(s, s.threads[t]) && Tiled(s.claims, s.head)
    ensures s.threads[t].Reload? ==> s.threads[t].i < |s.want| && TicketOk(s, s.threads[t].i)
  {
  }

  /** What the second test makes of its own reservation. */
  lemma ReloadGrants(s: State, t: Tid)
    requires NoLap(s) && Enabled(s, t, Continue) && s.threads[t].Reload? && Sized(s) && Totals(s)
             && PcOk(s, s.threads[t])
    requires s.threads[t].i < |s.want| && TicketOk(s, s.threads[t].i)
    ensures var s', pc := Access(s, t), s.threads[t];
            && Grows(s, s', pc.i) && s'.threads == s.threads[t := s'.threads[t]] && |s'.want| == |s.want|
            && Works(pc, pc.i) && (forall i :: Works(s'.threads[t], i) || Works(pc, i) ==> i == pc.i)
            && TicketOk(s', pc.i) && (Works(s'.threads[t], pc.i) || Settled(s', pc.i)) && PcOk(s', s'.threads[t])
            && Totals(s')
            && s'.claims == s.claims && s'.head == s.head
  {
    hide Word, Sum;
    var pc := s.threads[t];
    SomethingIsLess(pc.kind, Sum(s.want, pc.i) - pc.oc, s.tail);
  }

  lemma ReloadKeepsInv(s: State, t: Tid)
    requires Inv(s) && NoLap(s) && Enabled(s, t, Continue) && s.threads[t].Reload?
    ensures Inv(Access(s, t))
  {
    hide Inv, Grows, TicketOk, PcOk, Totals, Settled, Works, Tiled, Access, NoLap, Sum;
    InvOf(s, t);
    ReloadGrants(s, t);
    StepKeeps(s, Access(s, t), t, Access(s, t).threads[t], s.threads[t].i);
  }

  lemma GiveBackKeepsInv(s: State, t: Tid)
    requires Inv(s) && Enabled(s, t, Continue) && s.threads[t].GiveBack?
    ensures Inv(Access(s, t))
  {
    var s', pc := Access(s, t), s.threads[t];
    assert PcOk(s, pc) && TicketOk(s, pc.i);
    forall k: nat | k <= |s.want|
      ensures Sum(s'.back, k) == Sum(s.back, k) + (if pc.i < k then pc.c else 0)
    {
      SumUpdate(s.back, pc.i, pc.c, k);
    }
    hide Sum;
    StepKeeps(s, s', t, s'.threads[t], pc.i);
  }

  lemma TakeKeepsInv(s: State, t: Tid)
    requires Inv(s) && Enabled(s, t, Continue) && s.threads[t].Take?
    ensures Inv(Access(s, t))
  {
    var s', pc := Access(s, t), s.threads[t];
    assert PcOk(s, pc) && TicketOk(s, pc.i);
    SumUpdate(s.taken, pc.i, pc.a, |s.taken|);
    hide Sum;
    TiledAppend(s.claims, s.head, pc.a);
    StepKeeps(s, s', t, s'.threads[t], pc.i);
  }

  lemma TiledAppend(claims: seq<Claim>, head: nat, a: nat)
    requires Tiled(claims, head)
    ensures Tiled(claims + [Claim(head, a)], head + a)
  {
    var claims' := claims + [Claim(head, a)];
    forall j | 0 <= j < |claims'| ensures claims'[j].first == EndOf(claims', j) {
      assert j < |claims| ==> claims[j].first == EndOf(claims, j);
    }
  }

  lemma CallKeepsInv(s: State, t: Tid, a: Action)
    requires Inv(s) && Enabled(s, t, a) && a.Call?
    ensures Inv(Exec(s, t, a))
  {
    var s' := Exec(s, t, a);
    QuietGrows(s, s');
    StepKeeps(s, s', t, s'.threads[t], |s.want|);
  }

  lemma EnqueueKeepsInv(s: State, k: nat)
    requires Inv(s)
    ensures Inv(s.(tail := s.tail + k))
  {
    var s' := s.(tail := s.tail + k);
    QuietGrows(s, s');
    hide Sum, Grows;
    forall i | 0 <= i < |s'.want| ensures TicketOk(s', i) { TicketKept(s, s', i, |s.want|); }
    forall u | u in s'.threads ensures PcOk(s', s'.threads[u]) {
      PcBelow(s, s.threads[u], |s.want|);
      PcKept(s, s', s.threads[u], |s.want|);
    }
    forall i | 0 <= i < |s'.want|
      ensures Settled(s', i) || exists t :: t in s'.threads && Works(s'.threads[t], i)
    {
      assert Settled(s, i) || exists t :: t in s.threads && Works(s.threads[t], i);
    }
  }

  lemma StepKeepsInv(s: State, t: Tid, a: Action)
    requires Inv(s) && NoLap(s) && Enabled(s, t, a)
    ensures Inv(Exec(s, t, a))
  {
    hide Inv, NoLap, Access;
    match a
    case Enqueue(k) => EnqueueKeepsInv(s, k);
    case Call(_) => CallKeepsInv(s, t, a);
    case Continue =>
      match s.threads[t]
      case LoadOver(_, _) => LoadKeepsInv(s, t);
      case LoadOpt(_, _, _) => LoadKeepsInv(s, t);
      case Reserve(_, _, _) => ReserveKeepsInv(s, t);
      case Reload(_, _, _) => ReloadKeepsInv(s, t);
      case GiveBack(_, _, _) => GiveBackKeepsInv(s, t);
      case Take(_, _) => TakeKeepsInv(s, t);
  }

  lemma {:induction false} RunInv(run: seq<State>, i: nat)
    requires IsRun(run) && i < |run|
    ensures Inv(run[i])
  {
    hide NoLap, Enabled;
    if i > 0 {
      RunInv(run, i - 1);
      hide Inv;
      assert Step(run[i - 1], run[i - 1 + 1]);
      var t, a :| Enabled(run[i - 1], t, a) && run[i] == Exec(run[i - 1], t, a);
      StepKeepsInv(run[i - 1], t, a);
    }
  }

  // ----- what holds in every run

  /** However stale the overcommit value a consumer used, the indices taken never pass the tail. */
  lemma NeverBeyondTail(run: seq<State>, i: nat)
    requires IsRun(run) && i < |run|
    ensures run[i].head <= run[i].tail
    ensures forall j :: 0 <= j < |run[i].claims| ==> run[i].claims[j].first + run[i].claims[j].count <= run[i].tail
  {
    var s := run[i];
    RunInv(run, i);
    forall k | 0 <= k < |s.taken| ensures s.taken[k] <= s.got[k] { assert TicketOk(s, k); }
    SumDominated(s.taken, s.got, |s.taken|);
    GrantedFits(s, |s.want|);
    forall j | 0 <= j < |s.claims|
      ensures s.claims[j].first + s.claims[j].count <= s.tail
    {
      ClaimsOrdered(s.claims, s.head, j + 1, |s.claims|);
    }
  }

  lemma {:induction false} ClaimsOrdered(claims: seq<Claim>, head: nat, j: nat, k: nat)
    requires Tiled(claims, head) && j <= k <= |claims|
    ensures EndOf(claims, j) <= EndOf(claims, k)
  {
    hide Tiled, EndOf;
    if j < k {
      ClaimsOrdered(claims, head, j, k - 1);
      ClaimAt(claims, head, k - 1);
    }
  }

  lemma ClaimAt(claims: seq<Claim>, head: nat, j: nat)
    requires Tiled(claims, head) && j < |claims|
    ensures claims[j].first == EndOf(claims, j) && EndOf(claims, j + 1) == claims[j].first + claims[j].count
            && EndOf(claims, 0) == 0
  {
  }

  /** No index is taken twice, and none is skipped: the claims follow each other from zero to the head. */
  lemma EachIndexOnce(run: seq<State>, i: nat, x: nat)
    requires IsRun(run) && i < |run|
    ensures x < run[i].head ==> exists j :: 0 <= j < |run[i].claims| && Holds(run[i].claims[j], x)
    ensures forall j, k :: 0 <= j < k < |run[i].claims| && Holds(run[i].claims[j], x) ==> !Holds(run[i].claims[k], x)
    ensures forall j :: 0 <= j < |run[i].claims| && Holds(run[i].claims[j], x) ==> x < run[i].head
  {
    hide IsRun, Inv, Tiled;
    var s := run[i];
    RunInv(run, i);
    InvTiled(s);
    if x < s.head { ClaimsCover(s.claims, s.head, x, |s.claims|); }
    forall j, k | 0 <= j < k < |s.claims| && Holds(s.claims[j], x) ensures !Holds(s.claims[k], x) {
      ClaimsApart(s.claims, s.head, j, k);
    }
    forall j | 0 <= j < |s.claims| && Holds(s.claims[j], x) ensures x < s.head {
      ClaimAt(s.claims, s.head, j);
      ClaimsOrdered(s.claims, s.head, j + 1, |s.claims|);
    }
  }

  lemma InvTiled(s: State)
    requires Inv(s)
    ensures Tiled(s.claims, s.head) && EndOf(s.claims, |s.claims|) == s.head
  {
  }

  lemma ClaimsApart(claims: seq<Claim>, head: nat, j: nat, k: nat)
    requires Tiled(claims, head) && j < k < |claims|
    ensures claims[j].first + claims[j].count <= claims[k].first
  {
    hide Tiled, EndOf;
    ClaimAt(claims, head, j);
    ClaimAt(claims, head, k);
    ClaimsOrdered(claims, head, j + 1, k);
  }

  predicate Holds(c: Claim, x: nat) { c.first <= x < c.first + c.count }

  lemma {:induction false} ClaimsCover(claims: seq<Claim>, head: nat, x: nat, k: nat)
    requires Tiled(claims, head) && k <= |claims| && x < EndOf(claims, k)
    ensures exists j :: 0 <= j < k && Holds(claims[j], x)
  {
    hide Tiled;
    if k > 0 { ClaimAt(claims, head, k - 1); }
    if claims[k - 1].first <= x {
      assert Holds(claims[k - 1], x);
    } else {
      ClaimsCover(claims, head, x, k - 1);
    }
  }

  /** Once every consumer has returned, the optimistic count less the overcommit is the head:
      each failed reservation was given back exactly. */
  lemma SettlesExactly(run: seq<State>, i: nat)
    requires IsRun(run) && i < |run|
    requires forall t :: t in run[i].threads ==> run[i].threads[t] == Idle
    ensures run[i].opt == run[i].over + run[i].head
  {
    var s := run[i];
    RunInv(run, i);
    forall k | 0 <= k < |s.want| ensures s.taken[k] + s.back[k] == s.want[k] { assert Settled(s, k); }
    SumSplits(s.taken, s.back, s.want, |s.want|);
  }

  lemma {:induction false} SumSplits(a: seq<nat>, b: seq<nat>, c: seq<nat>, k: nat)
    requires |a| == |b| == |c| && k <= |a| && forall i :: 0 <= i < |a| ==> a[i] + b[i] == c[i]
    ensures Sum(a, k) + Sum(b, k) == Sum(c, k)
  {
    if k > 0 { SumSplits(a, b, c, k - 1); }
  }

  /** A consumer running alone gets exactly what is there, up to its limit: it gives up at its first
      look when the sub-queue is empty, and otherwise goes on to take that many indices from the head. */
  lemma LoneConsumerGetsAll(run: seq<State>, s: State, t: Tid, kind: Kind)
    requires IsRun(run) && s == run[|run| - 1] && t in s.threads && s.tail - s.head < HALF
    requires forall u :: u in s.threads ==> s.threads[u] == Idle
    ensures Enabled(s, t, Call(kind))
    ensures var looked := Access(Access(Exec(s, t, Call(kind)), t), t);
            if s.head >= s.tail then looked == s
            else looked.threads[t].Reserve? &&
                 Access(Access(looked, t), t).threads[t] == Take(|s.want|, Min(Limit(kind), s.tail - s.head))
  {
    NeverBeyondTail(run, |run| - 1);
    SettlesExactly(run, |run| - 1);
    RunInv(run, |run| - 1);
    assert Sized(s) && s.opt == Sum(s.want, |s.want|);
    hide Inv, Totals, NoLap, IsRun, Sum, Something, Amount;
    LoneLook(s, t, kind);
    if s.head < s.tail {
      LoneGrab(Access(Access(Exec(s, t, Call(kind)), t), t), t);
    }
  }

  lemma LoneLook(s: State, t: Tid, kind: Kind)
    requires Sized(s) && t in s.threads && s.threads[t] == Idle
    requires s.opt == s.over + s.head && s.head <= s.tail < s.head + HALF
    ensures var looked := Access(Access(Exec(s, t, Call(kind)), t), t);
            looked == if s.head == s.tail then s
                      else s.(threads := s.threads[t := Reserve(kind, Min(Limit(kind), s.tail - s.head), s.over)])
  {
    SomethingIsLess(kind, s.head, s.tail);
    hide Something, Word;
    var s1 := Exec(s, t, Call(kind));
    var s2 := Access(s1, t);
    assert s2 == s.(threads := s.threads[t := LoadOpt(kind, s.tail, s.over)]);
    assert s.threads == s.threads[t := Idle];
    assert s.opt - s.over == s.head;
  }

  lemma LoneGrab(s: State, t: Tid)
    requires Sized(s) && t in s.threads && s.threads[t].Reserve? && s.opt == Sum(s.want, |s.want|)
    requires s.threads[t].oc == s.over && s.opt == s.over + s.head && s.head < s.tail < s.head + HALF
    requires s.threads[t].d <= s.tail - s.head && (s.threads[t].kind.Single? ==> s.threads[t].d == 1)
    ensures Access(Access(s, t), t).threads[t] == Take(|s.want|, s.threads[t].d)
  {
    SumAppend(s.want, s.threads[t].d, |s.want|);
    SomethingIsLess(s.threads[t].kind, s.head, s.tail);
    hide Something, Word, Sum;
    var s' := Access(s, t);
    assert s'.threads[t] == Reload(s.threads[t].kind, |s.want|, s.over);
    assert Sum(s'.want, |s.want|) - s.over == s.head;
  }

  // ----- what each call gets, in every interleaving

  /** What lies between the reservations before number k, less the overcommit read, and the tail. */
  function Available(s: State, k: nat, oc: nat): int
    requires k <= |s.want|
  {
    s.tail - (Sum(s.want, k) - oc)
  }

  /** At the second look the grant is the smaller of what was reserved and what lies there, and nothing if nothing
      does; the rest of the reservation is given back. */
  lemma GrantIsExact(run: seq<State>, i: nat, t: Tid)
    requires IsRun(run) && i < |run| && Enabled(run[i], t, Continue) && run[i].threads[t].Reload?
    ensures var s, pc, s' := run[i], run[i].threads[t], Access(run[i], t);
            var k, there := pc.i, Available(run[i], pc.i, pc.oc);
            var grant := if there <= 0 then 0 else Min(s.want[k], there);
            && s' == s.(threads := s'.threads, got := s.got[k := grant])
            && s'.threads == s.threads[t := if there > 0 && grant == s.want[k] then Take(k, grant)
                                            else GiveBack(k, s.want[k] - grant, grant)]
  {
    hide Word, Sum, Tiled, Totals, TicketOk, Settled, Works, Init;
    RunInv(run, i);
    var s, pc := run[i], run[i].threads[t];
    assert PcOk(s, pc) && NoLap(s);
    SomethingIsLess(pc.kind, Sum(s.want, pc.i) - pc.oc, s.tail);
    assert s.got[pc.i := 0] == s.got;
  }

  /** At the first look a call goes on if and only if something seems to lie between the corrected count and the tail
      it loaded, and then it reserves as much, up to its limit. */
  lemma LookIsExact(s: State, t: Tid)
    requires Enabled(s, t, Continue) && s.threads[t].LoadOpt?
    requires -HALF < s.opt - s.threads[t].oc - s.threads[t].tail0 < HALF
    ensures var pc := s.threads[t];
            var there := pc.tail0 - (s.opt - pc.oc);
            Access(s, t) == s.(threads := s.threads[t :=
                                 if there <= 0 then Idle else Reserve(pc.kind, Min(Limit(pc.kind), there), pc.oc)])
  {
    hide Word;
    var pc := s.threads[t];
    SomethingIsLess(pc.kind, s.opt - pc.oc, pc.tail0);
  }

  lemma OthersStay(s: State, u: Tid, a: Action, t: Tid)
    requires Enabled(s, u, a) && t in Exec(s, u, a).threads && (u != t || a.Enqueue?)
    ensures t in s.threads && Exec(s, u, a).threads[t] == s.threads[t]
  {
    hide Word, Sum, Something, Amount;
  }

  predicate Looking(pc: Pc) { pc.LoadOver? || pc.LoadOpt? || pc.Reserve? || pc.Reload? }

  lemma OwnLook(s: State, t: Tid, a: Action)
    requires Enabled(s, t, a) && !a.Enqueue? && Looking(Exec(s, t, a).threads[t])
    ensures t in s.threads
    ensures var pc, pc' := s.threads[t], Exec(s, t, a).threads[t];
            if pc'.LoadOver? then pc.Idle? && pc'.tail0 == s.tail && a == Call(pc'.kind)
            else
              && a.Continue? && Looking(pc) && pc.kind == pc'.kind
              && (if pc'.LoadOpt? then pc.LoadOver? && pc'.tail0 == pc.tail0 && pc'.oc == s.over
                  else (pc.LoadOpt? || pc.Reserve?) && pc'.oc == pc.oc)
  {
    hide Word, Sum, Something, Amount;
  }

  /** What a call works with it loaded itself: the tail when it was called, in state j, and the overcommit later on,
      in state m. */
  lemma {:induction false} CallSaw(run: seq<State>, i: nat, t: Tid) returns (j: nat, m: nat)
    requires IsRun(run) && i < |run| && t in run[i].threads && Looking(run[i].threads[t])
    ensures j <= m < i && t in run[j].threads && run[j].threads[t].Idle?
    ensures forall q :: j < q <= i ==> t in run[q].threads && Looking(run[q].threads[t])
                                       && run[q].threads[t].kind == run[i].threads[t].kind
    ensures var pc := run[i].threads[t];
            && (pc.LoadOver? || pc.LoadOpt? ==> run[j].tail == pc.tail0)
            && (!pc.LoadOver? ==> j < m && run[m].over == pc.oc)
  {
    hide Enabled, Exec;
    assert i > 0 by { assert Init(run[0]); }
    assert Step(run[i - 1], run[i - 1 + 1]);
    var u, a :| Enabled(run[i - 1], u, a) && run[i] == Exec(run[i - 1], u, a);
    if u != t || a.Enqueue? {
      OthersStay(run[i - 1], u, a, t);
      j, m := CallSaw(run, i - 1, t);
    } else {
      OwnLook(run[i - 1], t, a);
      if run[i].threads[t].LoadOver? {
        j, m := i - 1, i - 1;
      } else {
        j, m := CallSaw(run, i - 1, t);
        if run[i].threads[t].LoadOpt? { m := i - 1; }
      }
    }
  }

  lemma OwnGiveBack(s: State, t: Tid, a: Action)
    requires Enabled(s, t, a) && !a.Enqueue? && Exec(s, t, a).threads[t].GiveBack?
    ensures t in s.threads && a.Continue? && s.threads[t].Reload? && Exec(s, t, a) == Access(s, t)
            && s.threads[t].i == Exec(s, t, a).threads[t].i
  {
    hide Word, Sum, Something, Amount;
  }

  /** A call that reserved something returns with nothing only if, at its second look in state j, nothing lay there. */
  lemma {:induction false} NothingWasThere(run: seq<State>, i: nat, t: Tid) returns (j: nat)
    requires IsRun(run) && i < |run| && t in run[i].threads && run[i].threads[t].GiveBack? && run[i].threads[t].a == 0
    ensures j < i && t in run[j].threads && run[j].threads[t].Reload? && run[j].threads[t].i == run[i].threads[t].i
    ensures forall q :: j < q <= i ==> t in run[q].threads && run[q].threads[t] == run[i].threads[t]
    ensures var k := run[i].threads[t].i;
            k < |run[j].want| && (Available(run[j], k, run[j].threads[t].oc) <= 0 || run[j].want[k] == 0)
  {
    hide Enabled, Exec, Available, Access;
    assert i > 0 by { assert Init(run[0]); }
    assert Step(run[i - 1], run[i - 1 + 1]);
    var u, a :| Enabled(run[i - 1], u, a) && run[i] == Exec(run[i - 1], u, a);
    if u != t || a.Enqueue? {
      OthersStay(run[i - 1], u, a, t);
      j := NothingWasThere(run, i - 1, t);
    } else {
      OwnGiveBack(run[i - 1], t, a);
      ReloadInside(run, i - 1, t);
      GrantIsExact(run, i - 1, t);
      j := i - 1;
    }
  }

  lemma ReloadInside(run: seq<State>, i: nat, t: Tid)
    requires IsRun(run) && i < |run| && t in run[i].threads && run[i].threads[t].Reload?
    ensures run[i].threads[t].i < |run[i].want|
  {
    hide Inv, IsRun;
    RunInv(run, i);
    InvOf(run[i], t);
  }

  /** What was not granted goes back to the overcommit; with nothing granted the call ends there, and otherwise it takes
      its grant from the head. */
  lemma GivesBackExactly(s: State, t: Tid)
    requires Enabled(s, t, Continue) && (s.threads[t].GiveBack? || s.threads[t].Take?)
    ensures var pc, s' := s.threads[t], Access(s, t);
            if pc.Take? then
              s' == s.(threads := s.threads[t := Idle], head := s.head + pc.a, taken := s.taken[pc.i := pc.a],
                       claims := s.claims + [Claim(s.head, pc.a)])
            else
              && s'.over == s.over + pc.c && s'.head == s.head && s'.claims == s.claims
              && s'.threads == s.threads[t := if pc.a == 0 then Idle else Take(pc.i, pc.a)]
  {
  }

  /** Every call ends after at most six accesses of its own, whatever the other threads do. */
  function Left(pc: Pc): nat {
    match pc
    case Idle => 0
    case Take(_, _) => 1
    case GiveBack(_, _, _) => 2
    case Reload(_, _, _) => 3
    case Reserve(_, _, _) => 4
    case LoadOpt(_, _, _) => 5
    case LoadOver(_, _) => 6
  }

  lemma WaitFree(s: State, t: Tid, kind: Kind)
    ensures Enabled(s, t, Continue) ==> Left(Access(s, t).threads[t]) < Left(s.threads[t])
    ensures Enabled(s, t, Call(kind)) ==> Left(Exec(s, t, Call(kind)).threads[t]) <= 6
  {
    hide Word, Sum, Something, Amount;
  }
}

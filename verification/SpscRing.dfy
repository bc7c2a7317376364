/**
 The single-producer single-consumer ring of cpp-util/lockfreeQueue.h (SPSCRing).

 Each side keeps a private, possibly stale copy of the other side's index and reloads it only when
 the copy says the ring is full (or empty). The registers hold indices below the capacity; `w`, `r`,
 `rc` and `wc` count the same positions without wrapping and, with `log`, are history only.
 One atomic access per step, producer and consumer interleaved freely.
 */
module SpscRing {
  import opened Bits
  import opened Options

  datatype Producer<T> =
    | PIdle
    | PCheck(v: T, blocking: bool)
    | PReload(v: T, blocking: bool)
    | PBuild(v: T)
    | PPublish(v: T)

  /** `CHave`: the last front() returned a slot that has not been popped. */
  datatype Consumer = CIdle | CCheck | CReload | CHave | CDestroy | CPublish

  datatype State<T> = State(
    cap: nat, slots: seq<Option<T>>,
    writeIdx: nat, readIdx: nat, readIdxCache: nat, writeIdxCache: nat,
    producer: Producer<T>, consumer: Consumer,
    log: seq<T>, r: nat, rc: nat, wc: nat)

  datatype Action<T> = Emplace(v: T) | TryEmplace(v: T) | Produce | Front | Pop | Consume

  function Next(cap: nat, i: nat): nat { if i + 1 == cap then 0 else i + 1 }

  /** At least one element fits, and one slot is kept free. */
  predicate Shaped<T>(s: State<T>) {
    |s.slots| == s.cap >= 2 && s.writeIdx < s.cap && s.readIdx < s.cap
  }

  /** pop() may be called when its assertion holds, whatever front() said before. */
  predicate Enabled<T>(s: State<T>, a: Action<T>) {
    && Shaped(s)
    && match a
       case Emplace(_) => s.producer.PIdle?
       case TryEmplace(_) => s.producer.PIdle?
       case Produce => !s.producer.PIdle?
       case Front => s.consumer.CIdle? || s.consumer.CHave?
       case Pop => (s.consumer.CIdle? || s.consumer.CHave?) && s.writeIdx != s.readIdx
       case Consume => !s.consumer.CIdle? && !s.consumer.CHave?
  }

  function Exec<T>(s: State<T>, a: Action<T>): State<T>
    requires Enabled(s, a)
  {
    match a
    case Emplace(v) => s.(producer := PCheck(v, true))
    case TryEmplace(v) => s.(producer := PCheck(v, false))
    case Produce => ProduceStep(s)
    case Front => s.(consumer := CCheck)
    case Pop => s.(consumer := CDestroy)
    case Consume => ConsumeStep(s)
  }

  function ProduceStep<T>(s: State<T>): State<T>
    requires Enabled(s, Produce)
  {
    var next := Next(s.cap, s.writeIdx);
    match s.producer
    case PCheck(v, blocking) => s.(producer := if next == s.readIdxCache then PReload(v, blocking) else PBuild(v))
    case PReload(v, blocking) =>
      s.(readIdxCache := s.readIdx, rc := s.r,
         producer := if next != s.readIdx then PBuild(v) else if blocking then PReload(v, true) else PIdle)
    case PBuild(v) => s.(slots := s.slots[s.writeIdx := Some(v)], producer := PPublish(v))
    case PPublish(v) => s.(writeIdx := next, log := s.log + [v], producer := PIdle)
  }

  function ConsumeStep<T>(s: State<T>): State<T>
    requires Enabled(s, Consume)
  {
    match s.consumer
    case CCheck => s.(consumer := if s.readIdx == s.writeIdxCache then CReload else CHave)
    case CReload =>
      s.(writeIdxCache := s.writeIdx, wc := |s.log|, consumer := if s.writeIdx == s.readIdx then CIdle else CHave)
    case CDestroy => s.(slots := s.slots[s.readIdx := None], consumer := CPublish)
    case CPublish => s.(readIdx := Next(s.cap, s.readIdx), r := s.r + 1, consumer := CIdle)
  }

  predicate Init<T>(s: State<T>) {
    && Shaped(s)
    && s.writeIdx == s.readIdx == s.readIdxCache == s.writeIdxCache == 0
    && s.producer.PIdle? && s.consumer.CIdle?
    && (forall i :: 0 <= i < s.cap ==> s.slots[i] == None)
    && s.log == [] && s.r == s.rc == s.wc == 0
  }

  ghost predicate Step<T(!new)>(s: State<T>, s': State<T>) {
    exists a :: Enabled(s, a) && s' == Exec(s, a)
  }

  ghost predicate IsRun<T(!new)>(run: seq<State<T>>) {
    && |run| > 0
    && Init(run[0])
    && forall i :: 0 <= i < |run| - 1 ==> Step(run[i], run[i + 1])
  }

  // ----- indices modulo the capacity

  function At(cap: nat, x: nat): (i: nat)
    requires cap > 0
    ensures i < cap
  {
    x % cap
  }

  lemma NextAt(cap: nat, x: nat)
    requires cap >= 2
    ensures At(cap, x + 1) == Next(cap, At(cap, x))
  {
    var q := x / cap;
    assert x + 1 == cap * q + (x % cap + 1);
    if x % cap + 1 == cap { RemainderUnique(x + 1, cap, q + 1, 0); }
      else { RemainderUnique(x + 1, cap, q, x % cap + 1); }
  }

  lemma AtSame(cap: nat, x: nat, y: nat)
    requires cap > 0 && x <= y < x + cap
    ensures At(cap, x) == At(cap, y) <==> x == y
  {
    var d := y / cap - x / cap;
    assert y - x == cap * d + (y % cap - x % cap);
    if x % cap == y % cap { NoMultiple(d, cap); }
  }

  // ----- the invariant

  ghost predicate Indices<T>(s: State<T>) {
    && Shaped(s)
    && s.writeIdx == At(s.cap, |s.log|) && s.readIdx == At(s.cap, s.r)
    && s.readIdxCache == At(s.cap, s.rc) && s.writeIdxCache == At(s.cap, s.wc)
    && s.rc <= s.r <= |s.log| < s.rc + s.cap && s.wc <= |s.log|
  }

  /** Slots from the read to the write position hold the log's values, all others are empty, but for
      the one element a side is in the middle of building or destroying. */
  ghost predicate Contents<T>(s: State<T>)
    requires Indices(s)
  {
    && (forall x :: s.r <= x < |s.log| && !(s.consumer.CPublish? && x == s.r) ==>
      s.slots[At(s.cap, x)] == Some(s.log[x]))
    && (forall x :: |s.log| <= x < s.r + s.cap && !(s.producer.PPublish? && x == |s.log|) ==>
      s.slots[At(s.cap, x)] == None)
    && (s.consumer.CPublish? ==> s.slots[s.readIdx] == None)
    && (s.producer.PPublish? ==> s.slots[s.writeIdx] == Some(s.producer.v))
  }

  ghost predicate Phases<T>(s: State<T>)
    requires Indices(s)
  {
    && (s.producer.PBuild? || s.producer.PPublish? ==> |s.log| + 1 < s.rc + s.cap)
    && (s.consumer.CDestroy? || s.consumer.CPublish? ==> s.r < |s.log|)
  }

  ghost predicate Inv<T>(s: State<T>) {
    Indices(s) && Contents(s) && Phases(s)
  }

  // ----- every step keeps it

  lemma FullCheck<T>(s: State<T>, x: nat)
    requires Shaped(s) && x <= |s.log| < x + s.cap && s.writeIdx == At(s.cap, |s.log|)
    ensures Next(s.cap, s.writeIdx) == At(s.cap, x) <==> |s.log| + 1 == x + s.cap
  {
    NextAt(s.cap, |s.log|);
    AtLater(s.cap, x);
    AtSame(s.cap, |s.log| + 1, x + s.cap);
  }

  lemma AtLater(cap: nat, x: nat)
    requires cap > 0
    ensures At(cap, x + cap) == At(cap, x)
  {
    RemainderUnique(x + cap, cap, x / cap + 1, x % cap);
  }

  lemma ProduceLocal<T>(s: State<T>)
    requires Inv(s) && Enabled(s, Produce) && (s.producer.PCheck? || s.producer.PReload?)
    ensures Inv(ProduceStep(s))
  {
    hide At;
    FullCheck(s, s.rc);
    FullCheck(s, s.r);
  }

  lemma ProduceBuild<T>(s: State<T>)
    requires Inv(s) && Enabled(s, Produce) && s.producer.PBuild?
    ensures Inv(ProduceStep(s))
  {
    hide At;
    var s' := ProduceStep(s);
    forall x | s.r <= x < s.r + s.cap && x != |s.log| ensures s'.slots[At(s.cap, x)] == s.slots[At(s.cap, x)] {
      if x < |s.log| { AtSame(s.cap, x, |s.log|); } else { AtSame(s.cap, |s.log|, x); }
    }
    if s.consumer.CPublish? { AtSame(s.cap, s.r, |s.log|); }
  }

  lemma ProducePublish<T>(s: State<T>)
    requires Inv(s) && Enabled(s, Produce) && s.producer.PPublish?
    ensures Inv(ProduceStep(s))
  {
    hide At;
    var s' := ProduceStep(s);
    NextAt(s.cap, |s.log|);
    forall x | s'.r <= x < |s'.log| && !(s'.consumer.CPublish? && x == s'.r)
      ensures s'.slots[At(s.cap, x)] == Some(s'.log[x]) {
      if x < |s.log| { assert s.slots[At(s.cap, x)] == Some(s.log[x]); }
    }
  }

  lemma ConsumeLocal<T>(s: State<T>)
    requires Inv(s) && Enabled(s, Consume) && (s.consumer.CCheck? || s.consumer.CReload?)
    ensures Inv(ConsumeStep(s))
  {
    hide At;
  }

  lemma ConsumeDestroy<T>(s: State<T>)
    requires Inv(s) && Enabled(s, Consume) && s.consumer.CDestroy?
    ensures Inv(ConsumeStep(s))
  {
    hide At;
    var s' := ConsumeStep(s);
    forall x | s.r < x < s.r + s.cap ensures s'.slots[At(s.cap, x)] == s.slots[At(s.cap, x)] { AtSame(s.cap, s.r, x); }
    if s.producer.PPublish? { AtSame(s.cap, s.r, |s.log|); }
  }

  lemma ConsumePublish<T>(s: State<T>)
    requires Inv(s) && Enabled(s, Consume) && s.consumer.CPublish?
    ensures Inv(ConsumeStep(s))
  {
    hide At;
    NextAt(s.cap, s.r);
    AtLater(s.cap, s.r);
  }

  lemma StepKeepsInv<T>(s: State<T>, a: Action<T>)
    requires Inv(s) && Enabled(s, a)
    ensures Inv(Exec(s, a))
  {
    hide At, Next;
    match a
    case Produce =>
      if s.producer.PBuild? { ProduceBuild(s); } else if s.producer.PPublish? { ProducePublish(s); }
        else { ProduceLocal(s); }
    case Consume =>
      if s.consumer.CDestroy? { ConsumeDestroy(s); } else if s.consumer.CPublish? { ConsumePublish(s); }
        else { ConsumeLocal(s); }
    case _ =>
  }

  lemma {:induction false} RunInv<T(!new)>(run: seq<State<T>>, i: nat)
    requires IsRun(run) && i < |run|
    ensures Inv(run[i])
  {
    if i > 0 {
      RunInv(run, i - 1);
      assert Step(run[i - 1], run[i - 1 + 1]);
      var a :| Enabled(run[i - 1], a) && run[i] == Exec(run[i - 1], a);
      StepKeepsInv(run[i - 1], a);
    } else {
      InitInv(run[0]);
    }
  }

  lemma InitInv<T>(s: State<T>)
    requires Init(s)
    ensures Inv(s)
  {
  }

  // ----- pops that were seen

  /** The consumer's copy of the write index is not behind its own index, and a slot it has or is
      popping is one the copy covers. */
  ghost predicate Seen<T>(s: State<T>) {
    s.r <= s.wc && (s.consumer.CHave? || s.consumer.CDestroy? || s.consumer.CPublish? ==> s.r < s.wc)
  }

  /** Whenever pop() was called, some front() had seen that the element is there. */
  ghost predicate Covered<T>(run: seq<State<T>>) {
    forall i :: 0 <= i < |run| - 1 && run[i + 1].consumer.CDestroy? && !run[i].consumer.CDestroy? ==>
      run[i].r < run[i].wc
  }

  lemma StepKeepsSeen<T>(s: State<T>, a: Action<T>)
    requires Inv(s) && Seen(s) && Enabled(s, a) && (a.Pop? ==> s.r < s.wc)
    ensures Seen(Exec(s, a))
  {
    hide At, Next;
    AtSame(s.cap, s.r, s.wc);
  }

  /** Pops are covered exactly when the copy is never overtaken. */
  lemma CoveredIff<T(!new)>(run: seq<State<T>>)
    requires IsRun(run)
    ensures Covered(run) <==> forall i :: 0 <= i < |run| ==> Seen(run[i])
  {
    hide At, Init, Inv;
    if Covered(run) {
      forall i | 0 <= i < |run| ensures Seen(run[i]) { CoveredSeen(run, i); }
    }
    if forall i :: 0 <= i < |run| ==> Seen(run[i]) {
      forall i | 0 <= i < |run| - 1 && run[i + 1].consumer.CDestroy? && !run[i].consumer.CDestroy?
        ensures run[i].r < run[i].wc {
        assert Step(run[i], run[i + 1]) && Seen(run[i + 1]);
      }
    }
  }

  lemma {:induction false} CoveredSeen<T(!new)>(run: seq<State<T>>, i: nat)
    requires IsRun(run) && Covered(run) && i < |run|
    ensures Seen(run[i])
  {
    hide At, Inv;
    if i > 0 {
      CoveredSeen(run, i - 1);
      RunInv(run, i - 1);
      assert Step(run[i - 1], run[i - 1 + 1]);
      var a :| Enabled(run[i - 1], a) && run[i] == Exec(run[i - 1], a);
      assert a.Pop? ==> run[i - 1 + 1].consumer.CDestroy?;
      StepKeepsSeen(run[i - 1], a);
    }
  }

  // ----- what holds in every run

  /** The ring holds at most capacity - 1 elements. The slot of an element the consumer has or pops is
      the oldest one pushed and not popped, fully constructed. With covered pops a slot that front()
      returned always is such an element. */
  lemma FrontIsOldest<T(!new)>(run: seq<State<T>>, i: nat)
    requires IsRun(run) && i < |run|
    ensures run[i].r <= |run[i].log| < run[i].r + run[i].cap
    ensures run[i].consumer.CDestroy? ==> run[i].r < |run[i].log|
    ensures run[i].consumer.CHave? && Covered(run) ==> run[i].r < |run[i].log|
    ensures (run[i].consumer.CHave? || run[i].consumer.CDestroy?) && run[i].r < |run[i].log| ==>
              Shaped(run[i]) && run[i].slots[run[i].readIdx] == Some(run[i].log[run[i].r])
  {
    hide At, Covered;
    RunInv(run, i);
    if Covered(run) { CoveredSeen(run, i); }
  }

  /** A stale copy of the read index never lets the producer build over an element, and the assertion
      of pop() holds until it is done. After a front() that returned a slot, in a run with covered
      pops, it holds at once. */
  lemma StaleCopiesAreSafe<T(!new)>(run: seq<State<T>>, i: nat)
    requires IsRun(run) && i < |run|
    ensures Shaped(run[i])
    ensures run[i].producer.PBuild? ==>
              run[i].slots[run[i].writeIdx] == None && |run[i].log| + 1 < run[i].r + run[i].cap
    ensures run[i].consumer.CDestroy? ==> run[i].writeIdx != run[i].readIdx
    ensures run[i].consumer.CHave? && Covered(run) ==> Enabled(run[i], Pop)
  {
    hide At, Covered;
    RunInv(run, i);
    if Covered(run) { CoveredSeen(run, i); }
    AtSame(run[i].cap, run[i].r, |run[i].log|);
  }

  /** try_emplace returns false exactly when, at its load of the read index, the ring is full. */
  lemma TryEmplaceFailsWhenFull<T(!new)>(run: seq<State<T>>, i: nat)
    requires IsRun(run) && i < |run| && Enabled(run[i], Produce) && run[i].producer.PReload?
             && !run[i].producer.blocking
    ensures ProduceStep(run[i]).producer.PIdle? <==> |run[i].log| - run[i].r == run[i].cap - 1
  {
    hide At;
    RunInv(run, i);
    FullCheck(run[i], run[i].r);
  }

  /** front() returns null exactly when, at its load of the write index, the ring is empty. */
  lemma FrontIsNullWhenEmpty<T(!new)>(run: seq<State<T>>, i: nat)
    requires IsRun(run) && i < |run| && Enabled(run[i], Consume) && run[i].consumer.CReload?
    ensures ConsumeStep(run[i]).consumer.CIdle? <==> |run[i].log| == run[i].r
  {
    hide At;
    RunInv(run, i);
    AtSame(run[i].cap, run[i].r, |run[i].log|);
  }

  /** The value of a producer inside a call, and whether it may wait. */
  function CallOf<T>(p: Producer<T>): Action<T>
    requires p.PCheck? || p.PReload?
  {
    if p.blocking then Emplace(p.v) else TryEmplace(p.v)
  }

  lemma BeforeLook<T>(s: State<T>, a: Action<T>)
    requires Enabled(s, a) && (Exec(s, a).producer.PCheck? || Exec(s, a).producer.PReload?)
    ensures var p, p' := s.producer, Exec(s, a).producer;
            || (p.PIdle? && a == CallOf(p'))
            || (!a.Emplace? && !a.TryEmplace? && (p.PCheck? || p.PReload?) && CallOf(p) == CallOf(p'))
  {
  }

  /** A producer that looks for room still works on the call it made in state j. */
  lemma {:induction false} Called<T(!new)>(run: seq<State<T>>, i: nat) returns (j: nat)
    requires IsRun(run) && i < |run| && (run[i].producer.PCheck? || run[i].producer.PReload?)
    ensures j < i && Enabled(run[j], CallOf(run[i].producer)) && run[j + 1] == Exec(run[j], CallOf(run[i].producer))
    ensures forall m :: j < m <= i ==>
              && (run[m].producer.PCheck? || run[m].producer.PReload?)
              && CallOf(run[m].producer) == CallOf(run[i].producer)
  {
    hide Exec, Enabled;
    assert i > 0 by { assert Init(run[0]); }
    assert Step(run[i - 1], run[i - 1 + 1]);
    var a :| Enabled(run[i - 1], a) && run[i] == Exec(run[i - 1], a);
    BeforeLook(run[i - 1], a);
    j := i - 1;
    if !run[i - 1].producer.PIdle? { j := Called(run, i - 1); }
  }

  /** emplace never fails: a call that ends without its value in the ring was a try_emplace, made in state j. */
  lemma OnlyTryFails<T(!new)>(run: seq<State<T>>, i: nat) returns (j: nat)
    requires IsRun(run) && i < |run| && Enabled(run[i], Produce) && ProduceStep(run[i]).producer.PIdle?
    requires ProduceStep(run[i]).log == run[i].log
    ensures j < i && run[i].producer.PReload? && Enabled(run[j], TryEmplace(run[i].producer.v))
    ensures run[j + 1] == Exec(run[j], TryEmplace(run[i].producer.v))
    ensures forall m :: j < m <= i ==> !run[m].producer.PIdle?
  {
    hide ProduceStep, IsRun, Exec;
    EmplaceEndsSo(run, i);
    j := Called(run, i);
  }

  /** Every step by which a producer's call ends: it publishes its value, or it is a try_emplace that finds the ring
      full at its load of the read index and changes nothing but its copy of it. */
  lemma EmplaceEndsSo<T(!new)>(run: seq<State<T>>, i: nat)
    requires IsRun(run) && i < |run| && Enabled(run[i], Produce) && ProduceStep(run[i]).producer.PIdle?
    ensures var s, s' := run[i], ProduceStep(run[i]);
            || (s.producer.PPublish? && s'.log == s.log + [s.producer.v])
            || (s.producer.PReload? && !s.producer.blocking && |s.log| - s.r == s.cap - 1
                && s' == s.(producer := PIdle, readIdxCache := s.readIdx, rc := s.r))
  {
    hide At;
    RunInv(run, i);
    FullCheck(run[i], run[i].r);
  }

  /** Every step by which a consumer's call ends: pop() took one element, or front() returned. It returns null only
      if the ring is empty at its load of the write index. */
  lemma FrontEndsSo<T(!new)>(run: seq<State<T>>, i: nat)
    requires IsRun(run) && i < |run| && Enabled(run[i], Consume) && BetweenCalls(ConsumeStep(run[i]))
    ensures var s, s' := run[i], ConsumeStep(run[i]);
            || (s.consumer.CPublish? && s'.r == s.r + 1 && s'.consumer.CIdle?)
            || (s.consumer.CCheck? && s'.consumer.CHave? && s' == s.(consumer := CHave))
            || (s.consumer.CReload? && s'.consumer == (if |s.log| == s.r then CIdle else CHave)
                && s' == s.(consumer := s'.consumer, writeIdxCache := s.writeIdx, wc := |s.log|))
  {
    hide At;
    RunInv(run, i);
    AtSame(run[i].cap, run[i].r, |run[i].log|);
  }

  /** A call that finds its private copy sufficient does not even look. For the producer the room is there;
      for the consumer, in a run with covered pops, the element is. */
  lemma StaleCopySuffices<T(!new)>(run: seq<State<T>>, i: nat)
    requires IsRun(run) && i < |run|
    ensures Enabled(run[i], Produce) && run[i].producer.PCheck? && ProduceStep(run[i]).producer.PBuild? ==>
              |run[i].log| - run[i].r < run[i].cap - 1
    ensures Enabled(run[i], Consume) && run[i].consumer.CCheck? && ConsumeStep(run[i]).consumer.CHave? ==>
              Covered(run) ==> run[i].r < |run[i].log|
  {
    hide At, Covered;
    RunInv(run, i);
    FullCheck(run[i], run[i].rc);
    if Covered(run) {
      CoveredSeen(run, i);
      AtSame(run[i].cap, run[i].r, run[i].wc);
    }
  }

  /** Whatever the pops were: a front() that only looks at its copy is wrong, with the slot of an empty
      ring, exactly when the ring is empty and the copy is not a whole number of turns away. */
  lemma FrontIsRightIff<T(!new)>(run: seq<State<T>>, i: nat)
    requires IsRun(run) && i < |run| && Enabled(run[i], Consume) && run[i].consumer.CCheck?
    ensures (ConsumeStep(run[i]).consumer.CHave? ==> run[i].r < |run[i].log|) <==>
            run[i].r < |run[i].log| || (run[i].r - run[i].wc) % run[i].cap == 0
  {
    hide At;
    RunInv(run, i);
    var s := run[i];
    AtTurns(s.cap, s.wc, s.r);
  }

  lemma AtTurns(cap: nat, x: nat, y: nat)
    requires cap > 0
    ensures At(cap, x) == At(cap, y) <==> (y - x) % cap == 0
  {
    hide At;
    Shorter(cap, y, x);
  }

  // ----- size()

  /** size() on a write index and a read index loaded in either order, one after the other. */
  function Size(cap: nat, writeIdx: nat, readIdx: nat): int {
    var diff := writeIdx - readIdx;
    if diff < 0 then diff + cap else diff
  }

  lemma Shorter(cap: nat, w: nat, r: nat)
    requires cap > 0
    ensures Size(cap, At(cap, w), At(cap, r)) == (w - r) % cap
  {
    var q := w / cap - r / cap;
    var d := w % cap - r % cap;
    assert w - r == cap * q + d;
    if d < 0 { RemainderUnique(w - r, cap, q - 1, d + cap); } else { RemainderUnique(w - r, cap, q, d); }
  }

  lemma {:induction false} RunMonotone<T(!new)>(run: seq<State<T>>, i: nat, j: nat)
    requires IsRun(run) && i <= j < |run|
    ensures run[i].r <= run[j].r && run[i].cap == run[j].cap && |run[i].log| <= |run[j].log|
  {
    if i < j {
      RunMonotone(run, i, j - 1);
      assert Step(run[j - 1], run[j - 1 + 1]);
    }
  }

  lemma SizeIs<T(!new)>(run: seq<State<T>>, i: nat, j: nat)
    requires IsRun(run) && i < |run| && j < |run| && run[i].cap == run[j].cap
    ensures var n := |run[i].log| - run[j].r;
            Size(run[i].cap, run[i].writeIdx, run[j].readIdx) == n <==> 0 <= n < run[i].cap
  {
    hide At, Size;
    RunInv(run, i);
    RunInv(run, j);
    Shorter(run[i].cap, |run[i].log|, run[j].r);
    var n := |run[i].log| - run[j].r;
    if 0 <= n < run[i].cap { RemainderUnique(n, run[i].cap, 0, n); }
  }

  /** size() loads the write index in state i and the read index in state j, whichever comes first.
      Its result is the number of elements between the two, exactly when the consumer has not passed
      the loaded write position (write index first), or the producer has not come a full turn past
      the loaded read position (read index first); otherwise the wrapped difference is reported. */
  lemma SizeIsExactIff<T(!new)>(run: seq<State<T>>, i: nat, j: nat)
    requires IsRun(run) && i < |run| && j < |run|
    ensures var size, n := Size(run[i].cap, run[i].writeIdx, run[j].readIdx), |run[i].log| - run[j].r;
            && (i <= j ==> (size == n <==> run[j].r <= |run[i].log|))
            && (j <= i ==> (size == n <==> |run[i].log| < run[j].r + run[i].cap))
            && (i == j ==> size == n)
  {
    hide Size, Indices, Contents, Phases, Init, Step;
    if i <= j { RunMonotone(run, i, j); } else { RunMonotone(run, j, i); }
    SizeIs(run, i, j);
    FrontIsOldest(run, i);
    FrontIsOldest(run, j);
  }

  // ----- both exceptions happen

  function Last<T>(run: seq<State<T>>): State<T>
    requires run != []
  {
    run[|run| - 1]
  }

  lemma Extend<T(!new)>(run: seq<State<T>>, a: Action<T>) returns (run': seq<State<T>>)
    requires IsRun(run) && Enabled(Last(run), a)
    ensures IsRun(run') && run <= run' && |run'| == |run| + 1 && Last(run') == Exec(Last(run), a)
  {
    hide Init, Enabled, Exec;
    run' := run + [Exec(Last(run), a)];
    assert Step(Last(run), Last(run'));
    forall i | 0 <= i < |run'| - 1 ensures Step(run'[i], run'[i + 1]) {
      if i < |run| - 1 { assert Step(run[i], run[i + 1]); }
    }
  }

  /** The smallest ring between calls, with the indices, their copies and the history as given. */
  function Rest(slots: seq<Option<int>>, w: nat, r: nat, rCopy: nat, wCopy: nat, log: seq<int>,
                taken: nat): State<int> {
    State(2, slots, w, r, rCopy, wCopy, PIdle, CIdle, log, taken, rCopy, wCopy)
  }

  lemma FirstPush(run: seq<State<int>>) returns (run': seq<State<int>>)
    requires IsRun(run) && Last(run) == Rest([None, None], 0, 0, 0, 0, [], 0)
    ensures IsRun(run') && run <= run' && |run'| == |run| + 4
    ensures Last(run') == Rest([Some(7), None], 1, 0, 0, 0, [7], 0)
  {
    hide IsRun;
    run' := Extend(run, Emplace(7));
    run' := Extend(run', Produce);
    run' := Extend(run', Produce);
    run' := Extend(run', Produce);
  }

  lemma FirstPop(run: seq<State<int>>) returns (run': seq<State<int>>)
    requires IsRun(run) && Last(run) == Rest([Some(7), None], 1, 0, 0, 0, [7], 0)
    ensures IsRun(run') && run <= run' && |run'| == |run| + 6
    ensures Last(run') == Rest([None, None], 1, 1, 0, 1, [7], 1)
  {
    hide IsRun;
    run' := Extend(run, Front);
    run' := Extend(run', Consume);
    run' := Extend(run', Consume);
    run' := Extend(run', Pop);
    run' := Extend(run', Consume);
    run' := Extend(run', Consume);
  }

  lemma SecondPush(run: seq<State<int>>) returns (run': seq<State<int>>)
    requires IsRun(run) && Last(run) == Rest([None, None], 1, 1, 0, 1, [7], 1)
    ensures IsRun(run') && run <= run' && |run'| == |run| + 5
    ensures Last(run') == Rest([None, Some(8)], 0, 1, 1, 1, [7, 8], 1)
  {
    hide IsRun;
    run' := Extend(run, Emplace(8));
    run' := Extend(run', Produce);
    run' := Extend(run', Produce);
    run' := Extend(run', Produce);
    run' := Extend(run', Produce);
  }

  /** Write index first: one push and one pop between the two loads, on a ring that was empty before
      and is empty after, make size() report one element. Read index first: one pop and one push
      make it report none, on a ring that held one element before and holds one after. */
  lemma SizeCanMislead() returns (run: seq<State<int>>)
    ensures IsRun(run) && |run| == 16
    ensures |run[0].log| == run[0].r && |run[10].log| == run[10].r
    ensures Size(run[0].cap, run[0].writeIdx, run[10].readIdx) == 1
    ensures |run[4].log| == run[4].r + 1 && |run[15].log| == run[15].r + 1
    ensures Size(run[4].cap, run[15].writeIdx, run[4].readIdx) == 0
  {
    run := [Rest([None, None], 0, 0, 0, 0, [], 0)];
    hide IsRun;
    run := FirstPush(run);
    run := FirstPop(run);
    run := SecondPush(run);
  }
  // ----- a pop that was not seen

  lemma LastInv<T(!new)>(run: seq<State<T>>)
    requires IsRun(run)
    ensures run != [] && Inv(Last(run)) && Last(run).cap >= 2 && Last(run).r <= |Last(run).log|
  {
    RunInv(run, |run| - 1);
  }

  predicate BetweenCalls<T>(s: State<T>) { s.consumer.CIdle? || s.consumer.CHave? }

  lemma CanPop<T>(s: State<T>)
    requires Inv(s) && BetweenCalls(s)
    ensures Enabled(s, Pop) <==> s.r < |s.log|
  {
    hide At;
    AtSame(s.cap, s.r, |s.log|);
  }

  lemma PopOne<T(!new)>(run: seq<State<T>>) returns (run': seq<State<T>>)
    requires IsRun(run) && Enabled(Last(run), Pop)
    ensures IsRun(run') && run <= run' && |run'| > |run| && run'[|run|] == Exec(Last(run), Pop)
    ensures var s, s' := Last(run), Last(run');
            BetweenCalls(s') && s'.r == s.r + 1 && s'.wc == s.wc && s'.log == s.log && s'.cap == s.cap
  {
    hide IsRun;
    var run1 := Extend(run, Pop);
    var run2 := Extend(run1, Consume);
    run' := Extend(run2, Consume);
    assert run'[|run|] == run1[|run|];
  }

  /** The consumer pops all there is, */
  lemma {:induction false} PopAll<T(!new)>(run: seq<State<T>>) returns (run': seq<State<T>>)
    requires IsRun(run) && BetweenCalls(Last(run))
    ensures IsRun(run') && run <= run'
    ensures var s, s' := Last(run), Last(run');
            BetweenCalls(s') && s'.r == |s'.log| && s'.wc == s.wc && s'.log == s.log && s'.cap == s.cap
    decreases |Last(run).log| - Last(run).r
  {
    hide IsRun, Enabled, Exec, Inv;
    LastInv(run);
    CanPop(Last(run));
    run' := run;
    if Last(run).r < |Last(run).log| {
      var run1 := PopOne(run);
      run' := PopAll(run1);
    }
  }

  function Left<T>(p: Producer<T>): nat {
    match p
    case PIdle => 5
    case PCheck(_, _) => 4
    case PReload(_, _) => 3
    case PBuild(_) => 2
    case PPublish(_) => 1
  }

  /** or the producer, wherever it is, adds one element to an empty ring. */
  lemma {:induction false} PushOne<T(!new)>(run: seq<State<T>>, v: T) returns (run': seq<State<T>>)
    requires IsRun(run) && Last(run).r == |Last(run).log|
    ensures IsRun(run') && run <= run'
    ensures var s, s' := Last(run), Last(run');
            s'.consumer == s.consumer && s'.r == s.r && s'.wc == s.wc && |s'.log| == |s.log| + 1 && s'.cap == s.cap
    decreases Left(Last(run).producer)
  {
    hide IsRun, At, Next;
    LastInv(run);
    var s := Last(run);
    FullCheck(s, s.r);
    run' := Extend(run, if s.producer.PIdle? then Emplace(v) else Produce);
    if !s.producer.PPublish? { run' := PushOne(run', v); }
  }

  /** front() returned a slot although the ring is empty. */
  predicate WrongFront<T>(s: State<T>) { s.consumer.CHave? && s.r == |s.log| }

  lemma AskFront<T(!new)>(run: seq<State<T>>) returns (run': seq<State<T>>)
    requires IsRun(run) && BetweenCalls(Last(run))
    requires var s := Last(run); s.r == |s.log| && s.cap > 0 && (s.r - s.wc) % s.cap != 0
    ensures IsRun(run') && run <= run' && WrongFront(Last(run'))
  {
    hide IsRun, At;
    LastInv(run);
    var s := Last(run);
    AtTurns(s.cap, s.wc, s.r);
    var run1 := Extend(run, Front);
    run' := Extend(run1, Consume);
  }

  /** Every pop that was not covered can be followed by a wrong front(): covered pops are exactly what
      the consumer needs. */
  lemma UncoveredPopMisleads<T(!new)>(run: seq<State<T>>) returns (run': seq<State<T>>)
    requires IsRun(run) && Enabled(Last(run), Pop) && Last(run).r >= Last(run).wc
    ensures IsRun(run') && run <= run' && |run'| > |run| && run'[|run|] == Exec(Last(run), Pop)
    ensures WrongFront(Last(run'))
  {
    hide IsRun, Enabled, Exec, WrongFront, Inv;
    LastInv(run);
    var run1 := PopOne(run);
    LastInv(run1);
    var run2 := PopAll(run1);
    var s := Last(run2);
    if (s.r - s.wc) % s.cap == 0 {
      run2 := PushOne(run2, s.log[0]);
      LastInv(run2);
      CanPop(Last(run2));
      run2 := PopOne(run2);
      OneOff(s.r - s.wc, s.cap);
    }
    run' := AskFront(run2);
  }

  lemma OneOff(x: int, cap: nat)
    requires cap >= 2 && x % cap == 0
    ensures (x + 1) % cap != 0
  {
    var q := x / cap;
    assert x == cap * q;
    RemainderUnique(x + 1, cap, q, 1);
  }

  /** One push and a pop that no front() preceded: the next front() returns a slot in which nothing was built. */
  lemma FrontCanMislead() returns (run: seq<State<int>>)
    ensures IsRun(run) && |run| == 10 && WrongFront(run[9])
    ensures Shaped(run[9]) && run[9].slots[run[9].readIdx] == None
  {
    run := [Rest([None, None], 0, 0, 0, 0, [], 0)];
    hide IsRun;
    run := FirstPush(run);
    run := Extend(run, Pop);
    run := Extend(run, Consume);
    run := Extend(run, Consume);
    run := Extend(run, Front);
    run := Extend(run, Consume);
  }

  // ----- a call that runs alone

  /** After a call of the producer that runs alone: the consumer is where it was, and the value was added or not. */
  ghost predicate Emplaced<T>(s: State<T>, v: T, added: bool, s': State<T>)
    requires Shaped(s)
  {
    && s'.producer.PIdle? && s'.consumer == s.consumer && s'.cap == s.cap
    && s'.readIdx == s.readIdx && s'.r == s.r && s'.writeIdxCache == s.writeIdxCache && s'.wc == s.wc
    && (added ==> s'.log == s.log + [v] && s'.slots == s.slots[s.writeIdx := Some(v)]
                  && s'.writeIdx == Next(s.cap, s.writeIdx))
    && (!added ==> s'.log == s.log && s'.slots == s.slots && s'.writeIdx == s.writeIdx)
  }

  /** emplace or try_emplace alone: the value is added if the ring is not full, and else try_emplace changes nothing. */
  lemma LoneEmplace<T(!new)>(run: seq<State<T>>, v: T, blocking: bool) returns (run': seq<State<T>>)
    requires IsRun(run) && Last(run).producer.PIdle?
    requires blocking ==> |Last(run).log| - Last(run).r < Last(run).cap - 1
    ensures IsRun(run') && run <= run' && |run'| > |run|
    ensures Shaped(Last(run)) && Enabled(Last(run), if blocking then Emplace(v) else TryEmplace(v))
    ensures run'[|run|] == Exec(Last(run), if blocking then Emplace(v) else TryEmplace(v))
    ensures Emplaced(Last(run), v, |Last(run).log| - Last(run).r < Last(run).cap - 1, Last(run'))
  {
    hide IsRun, At, Next;
    LastInv(run);
    var s := Last(run);
    FullCheck(s, s.rc);
    FullCheck(s, s.r);
    run' := Extend(run, if blocking then Emplace(v) else TryEmplace(v));
    run' := Extend(run', Produce);
    if Last(run').producer.PReload? { run' := Extend(run', Produce); }
    if Last(run').producer.PBuild? { run' := BuildAlone(run'); }
  }

  lemma BuildAlone<T(!new)>(run: seq<State<T>>) returns (run': seq<State<T>>)
    requires IsRun(run) && Last(run).producer.PBuild?
    ensures IsRun(run') && run <= run' && Shaped(Last(run))
    ensures var s := Last(run);
            Last(run') == s.(slots := s.slots[s.writeIdx := Some(s.producer.v)], writeIdx := Next(s.cap, s.writeIdx),
                             log := s.log + [s.producer.v], producer := PIdle)
  {
    hide IsRun, At, Next;
    LastInv(run);
    run' := Extend(run, Produce);
    run' := Extend(run', Produce);
  }

  /** front alone: it returns a slot if the ring is not empty, or if its copy is not a whole number of turns away. */
  lemma LoneFront<T(!new)>(run: seq<State<T>>) returns (run': seq<State<T>>)
    requires IsRun(run) && BetweenCalls(Last(run))
    ensures IsRun(run') && run <= run' && |run'| > |run|
    ensures Enabled(Last(run), Front) && run'[|run|] == Exec(Last(run), Front)
    ensures var s, s' := Last(run), Last(run');
            && s.cap > 0 && s' == s.(consumer := s'.consumer, writeIdxCache := s'.writeIdxCache, wc := s'.wc)
            && s'.consumer == if |s.log| == s.r && (s.r - s.wc) % s.cap == 0 then CIdle else CHave
  {
    hide IsRun, At;
    LastInv(run);
    var s := Last(run);
    AtTurns(s.cap, s.wc, s.r);
    AtSame(s.cap, s.r, |s.log|);
    run' := Extend(run, Front);
    run' := Extend(run', Consume);
    if Last(run').consumer.CReload? { run' := Extend(run', Consume); }
  }
}

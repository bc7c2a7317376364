/** What the calls of the DPDK ring move, return and refuse, and that a call ends when its thread runs alone. */
module RteRingCalls {
  import opened Bits
  import opened RteRing
  import opened RteRingCopy

  // ----- what a call works with is what it was called with

  /** The calls that have not moved a head yet. */
  predicate Sending<T>(pc: Pc<T>) { pc.ELoadHead? || pc.ELoadTail? || pc.EMove? }

  predicate Receiving<T>(pc: Pc<T>) { pc.DLoadHead? || pc.DLoadTail? || pc.DMove? }

  /** The number of entries an enqueue of `want` moves when the room is `room`, and a dequeue when so many are there. */
  function Amount(want: nat, room: int, fixed: bool): nat {
    if want <= room then want else if fixed || room <= 0 then 0 else room
  }

  predicate MoveOk<T>(size: nat, pc: Pc<T>)
    requires size > 0
  {
    && (pc.EMove? ==> pc.n == Amount(|pc.objs|, FreeEntries(size - 1, pc.c, pc.h), pc.fixed))
    && (pc.DMove? ==> pc.n == Amount(pc.max, Entries(pc.p, pc.h), pc.fixed))
  }

  /** What the steps of a call leave as it was. */
  ghost predicate CallKept<T>(s: State<T>, t: Tid, s': State<T>) {
    && t in s.threads && t in s'.threads && s.size > 0 && s'.size == s.size
    && s'.threads == s.threads[t := s'.threads[t]]
    && var pc, pc' := s.threads[t], s'.threads[t];
       && (Sending(pc') ==> Sending(pc) && pc.objs == pc'.objs && pc.fixed == pc'.fixed)
       && (Receiving(pc') ==> Receiving(pc) && pc.max == pc'.max && pc.fixed == pc'.fixed)
       && MoveOk(s.size, pc')
  }

  lemma SendStep<T>(s: State<T>, t: Tid)
    requires Enabled(s, t, Continue) && (s.threads[t].ELoadHead? || s.threads[t].ELoadTail?)
    ensures CallKept(s, t, Exec(s, t, Continue))
  {
    hide Word, FreeEntries;
  }

  lemma MoveStep<T>(s: State<T>, t: Tid)
    requires Enabled(s, t, Continue) && (s.threads[t].EMove? || s.threads[t].DMove?)
    ensures CallKept(s, t, Exec(s, t, Continue))
  {
    hide Word;
  }

  lemma ReceiveStep<T>(s: State<T>, t: Tid)
    requires Enabled(s, t, Continue) && (s.threads[t].DLoadHead? || s.threads[t].DLoadTail?)
    ensures CallKept(s, t, Exec(s, t, Continue))
  {
    hide Word, Entries;
  }

  lemma CopyStep<T>(s: State<T>, t: Tid)
    requires Enabled(s, t, Continue) && (s.threads[t].ECopy? || s.threads[t].EWait? || s.threads[t].EPublish?)
    ensures CallKept(s, t, Exec(s, t, Continue))
  {
    hide Word, CopySlot;
    assert s.threads[t := s.threads[t]] == s.threads;
  }

  lemma ReadStep<T>(s: State<T>, t: Tid)
    requires Enabled(s, t, Continue) && (s.threads[t].DCopy? || s.threads[t].DWait? || s.threads[t].DPublish?)
    ensures CallKept(s, t, Exec(s, t, Continue))
  {
    hide Word, CopySlot;
    assert s.threads[t := s.threads[t]] == s.threads;
  }

  lemma AnyStep<T>(s: State<T>, t: Tid)
    requires Enabled(s, t, Continue)
    ensures CallKept(s, t, Exec(s, t, Continue))
  {
    hide Exec, CallKept;
    var pc := s.threads[t];
    if pc.ELoadHead? || pc.ELoadTail? { SendStep(s, t); }
    else if pc.EMove? || pc.DMove? { MoveStep(s, t); }
    else if pc.DLoadHead? || pc.DLoadTail? { ReceiveStep(s, t); }
    else if Producing(pc) { CopyStep(s, t); }
    else { ReadStep(s, t); }
  }

  lemma FirstStep<T>(s: State<T>, t: Tid, a: Action<T>)
    requires Enabled(s, t, a) && !a.Continue?
    ensures var s' := Exec(s, t, a);
            && t in s.threads && t in s'.threads && s.threads[t].Idle? && s'.threads == s.threads[t := s'.threads[t]]
            && s.size > 0 && s'.size == s.size && MoveOk(s.size, s'.threads[t])
            && (Sending(s'.threads[t]) || Receiving(s'.threads[t])) && CallOf(s'.threads[t]) == a
  {
    hide Word;
  }

  /** The action that started the call. */
  function CallOf<T>(pc: Pc<T>): Action<T>
    requires Sending(pc) || Receiving(pc)
  {
    if Sending(pc) then Enqueue(pc.objs, pc.fixed) else Dequeue(pc.max, pc.fixed)
  }

  /** A thread that has not moved a head yet still works on the call it made in state j. */
  lemma {:induction false} Called<T(!new)>(run: seq<State<T>>, k: nat, i: nat, t: Tid) returns (j: nat)
    requires IsRun(run, k) && i < |run| && t in run[i].threads
    requires Sending(run[i].threads[t]) || Receiving(run[i].threads[t])
    ensures j < i && Enabled(run[j], t, CallOf(run[i].threads[t]))
    ensures run[j + 1] == Exec(run[j], t, CallOf(run[i].threads[t]))
    ensures forall m :: j < m <= i ==>
              && t in run[m].threads && (Sending(run[m].threads[t]) || Receiving(run[m].threads[t]))
              && CallOf(run[m].threads[t]) == CallOf(run[i].threads[t])
    ensures run[i].size > 0 && MoveOk(run[i].size, run[i].threads[t])
  {
    hide Enabled, Exec, MoveOk, NoLap;
    assert i > 0 by { assert Init(run[0], k); }
    assert Step(run[i - 1], run[i - 1 + 1]);
    var u, a :| Enabled(run[i - 1], u, a) && run[i] == Exec(run[i - 1], u, a);
    if a.Continue? { AnyStep(run[i - 1], u); } else { FirstStep(run[i - 1], u, a); }
    j := i - 1;
    if u != t || a.Continue? { j := Called(run, k, i - 1, t); }
  }

  // ----- what a call moves, in every interleaving

  /** An enqueue moves prod.head if and only if it still is what the call loaded. It then reserves all its objects if
      it is fixed, and otherwise as many as there is room for behind the cons.tail it loaded; always with room. */
  lemma EnqueueMovesExactly<T(!new)>(run: seq<State<T>>, k: nat, i: nat, t: Tid)
    requires IsRun(run, k) && i < |run| && Enabled(run[i], t, Continue) && run[i].threads[t].EMove?
    ensures var s, pc, s' := run[i], run[i].threads[t], Exec(run[i], t, Continue);
            var room := Mask(s) - (s.ph - pc.c);
            var n := if pc.fixed || |pc.objs| <= room then |pc.objs| else room;
            && pc.c <= s.ct && (s'.threads[t].ECopy? <==> pc.h == s.ph)
            && (pc.h == s.ph ==>
                  && 1 <= n <= room && n <= |pc.objs| && s'.ph == s.ph + n && s'.log == s.log + pc.objs[..n]
                  && s'.threads[t] == ECopy(pc.objs[..n], s.ph, 0))
            && (pc.h != s.ph ==> s' == At(s, t, ELoadHead(pc.objs, pc.fixed)))
  {
    hide QueuesOk, InPlace, Solo, Word, FreeEntries, Init, Step, Pow2;
    RunInv(run, k, i);
    var s, pc := run[i], run[i].threads[t];
    assert PcOk(s, pc) && NoLap(s) && Unlapped(s, pc);
    var j := Called(run, k, i, t);
    if pc.h == s.ph { FreeEntriesIs(Mask(s), pc.c, pc.h); }
  }

  /** A dequeue likewise: all it wants if it is fixed, and otherwise as many as there are before the prod.tail it
      loaded. */
  lemma DequeueMovesExactly<T(!new)>(run: seq<State<T>>, k: nat, i: nat, t: Tid)
    requires IsRun(run, k) && i < |run| && Enabled(run[i], t, Continue) && run[i].threads[t].DMove?
    ensures var s, pc, s' := run[i], run[i].threads[t], Exec(run[i], t, Continue);
            var there := pc.p - s.ch;
            var n := if pc.fixed || pc.max <= there then pc.max else there;
            && pc.p <= s.pt && (s'.threads[t].DCopy? <==> pc.h == s.ch)
            && (pc.h == s.ch ==>
                  1 <= n <= there && n <= pc.max && s'.ch == s.ch + n && s'.threads[t] == DCopy(s.ch, n, []))
            && (pc.h != s.ch ==> s' == At(s, t, DLoadHead(pc.max, pc.fixed)))
  {
    hide QueuesOk, InPlace, Solo, Word, Entries, Init, Step, Pow2;
    RunInv(run, k, i);
    var s, pc := run[i], run[i].threads[t];
    assert PcOk(s, pc) && NoLap(s) && Unlapped(s, pc);
    var j := Called(run, k, i, t);
    if pc.h == s.ch { EntriesIs(pc.p, pc.h); }
  }

  // ----- when a call returns without moving a head

  /** An enqueue is refused, and nothing changes, if and only if at its look there is not enough room for a fixed one,
      or none at all. */
  lemma EnqueueRefusedExactly<T(!new)>(run: seq<State<T>>, k: nat, i: nat, t: Tid)
    requires IsRun(run, k) && i < |run| && Enabled(run[i], t, Continue) && run[i].threads[t].ELoadTail?
    requires run[i].ct - run[i].threads[t].h <= WORD - run[i].size
    ensures var s, pc, s' := run[i], run[i].threads[t], Exec(run[i], t, Continue);
            var room := Mask(s) + s.ct - pc.h;
            && room >= Mask(s) - (s.ph - s.ct)
            && (s'.threads[t].Idle? <==> room < |pc.objs| && (pc.fixed || room == 0))
            && s' == At(s, t, if s'.threads[t].Idle? then Idle
                              else EMove(pc.objs, pc.fixed, pc.h, Amount(|pc.objs|, room, pc.fixed), s.ct))
  {
    hide QueuesOk, InPlace, Solo, FreeEntries, Pow2, Init, Step, NoLap;
    RunInv(run, k, i);
    var s, pc := run[i], run[i].threads[t];
    assert PcOk(s, pc);
    FreeEntriesAtLeast(Mask(s), s.ct, pc.h);
  }

  lemma DequeueRefusedExactly<T(!new)>(run: seq<State<T>>, k: nat, i: nat, t: Tid)
    requires IsRun(run, k) && i < |run| && Enabled(run[i], t, Continue) && run[i].threads[t].DLoadTail?
    requires run[i].pt - run[i].threads[t].h < WORD
    ensures var s, pc, s' := run[i], run[i].threads[t], Exec(run[i], t, Continue);
            var there := s.pt - pc.h;
            && there >= s.pt - s.ch
            && (s'.threads[t].Idle? <==> there < pc.max && (pc.fixed || there == 0))
            && s' == At(s, t, if s'.threads[t].Idle? then Idle
                              else DMove(pc.max, pc.fixed, pc.h, Amount(pc.max, there, pc.fixed), s.pt))
  {
    hide QueuesOk, InPlace, Solo, Entries, Pow2, Init, Step, NoLap;
    RunInv(run, k, i);
    var s, pc := run[i], run[i].threads[t];
    assert PcOk(s, pc);
    EntriesIs(s.pt, pc.h);
  }

  /** There is no other way for a call to end than a refusal or the publication of its range. */
  lemma EndsOnlySo<T>(s: State<T>, u: Tid, a: Action<T>, t: Tid)
    requires Enabled(s, u, a) && t in s.threads && !s.threads[t].Idle?
    requires t in Exec(s, u, a).threads && Exec(s, u, a).threads[t].Idle?
    ensures u == t && a.Continue?
    ensures s.threads[t].ELoadTail? || s.threads[t].DLoadTail? || s.threads[t].EPublish? || s.threads[t].DPublish?
  {
    hide Exec, Enabled;
    if a.Continue? { AnyStep(s, u); } else { FirstStep(s, u, a); }
    if u == t { NotIdle(s, t, a); }
  }

  lemma NotIdle<T>(s: State<T>, t: Tid, a: Action<T>)
    requires Enabled(s, t, a) && t in s.threads && !s.threads[t].Idle?
    requires t in Exec(s, t, a).threads && Exec(s, t, a).threads[t].Idle?
    ensures a.Continue?
    ensures s.threads[t].ELoadTail? || s.threads[t].DLoadTail? || s.threads[t].EPublish? || s.threads[t].DPublish?
  {
    hide Word, CopySlot, Admit, Offer;
  }

  // ----- a call that runs alone

  /** Thread t continues, and no other thread does anything. */
  ghost predicate Alone<T>(run: seq<State<T>>, t: Tid) {
    && |run| > 0
    && forall i :: 0 <= i < |run| - 1 ==> Enabled(run[i], t, Continue) && run[i + 1] == Exec(run[i], t, Continue)
  }

  function Last<T>(run: seq<State<T>>): State<T>
    requires run != []
  {
    run[|run| - 1]
  }

  /** `run'` is `run` and some more accesses of t, up to state s. */
  ghost predicate Leads<T>(run: seq<State<T>>, t: Tid, run': seq<State<T>>, s: State<T>)
    requires run != []
  {
    run' != [] && Alone(run', t) && run'[0] == run[0] && Last(run') == s
  }

  lemma Further<T>(run: seq<State<T>>, t: Tid) returns (run': seq<State<T>>)
    requires run != [] && Alone(run, t) && Enabled(Last(run), t, Continue)
    ensures Leads(run, t, run', Exec(Last(run), t, Continue))
  {
    hide Enabled, Exec;
    run' := run + [Exec(Last(run), t, Continue)];
  }

  lemma Again<T>(s: State<T>, t: Tid, a: Pc<T>, b: Pc<T>)
    ensures At(At(s, t, a), t, b) == At(s, t, b)
    ensures t in s.threads && s.threads[t] == b ==> At(s, t, b) == s
  {
    assert s.threads[t := a][t := b] == s.threads[t := b];
    if t in s.threads && s.threads[t] == b { assert s.threads[t := b] == s.threads; }
  }

  /** The ring with `os` sent, and with n entries received. */
  function Sent<T>(s: State<T>, os: seq<T>): State<T>
    requires Shaped(s)
  {
    s.(ph := s.ph + |os|, pt := s.pt + |os|, log := s.log + os, sent := s.sent + os,
       ring := PlainCopy(s.ring, s.ph, os, |os|))
  }

  function Received<T>(s: State<T>, n: nat): State<T>
    requires s.ch + n <= |s.log|
  {
    s.(ch := s.ch + n, ct := s.ct + n, received := s.received + s.log[s.ch..s.ch + n])
  }

  /** The state while a range of `os` is reserved and not yet published. */
  function Between<T>(s: State<T>, t: Tid, os: seq<T>, pc: Pc<T>, i: nat): State<T>
    requires Shaped(s) && i <= |os|
  {
    At(s, t, pc).(ph := s.ph + |os|, log := s.log + os, pq := s.pq + [Resv(t, s.ph, |os|)],
                  ring := PlainCopy(s.ring, s.ph, os, i))
  }

  lemma {:induction false} CopyAlone<T>(run: seq<State<T>>, s: State<T>, t: Tid, os: seq<T>, i: nat)
      returns (run': seq<State<T>>)
    requires run != [] && Alone(run, t) && Order(s) && i < |os|
    requires Last(run) == Between(s, t, os, ECopy(os, s.ph, i), i)
    ensures Leads(run, t, run', Between(s, t, os, if s.sp then EPublish(os, s.ph) else EWait(os, s.ph), |os|))
    decreases |os| - i
  {
    hide Alone, CopySlot, Word, Slot;
    run' := Further(run, t);
    CopySlotIs(s.size, s.ph, i);
    OneMore(s.ring, s.ph, os, i);
    var pc := if i + 1 < |os| then ECopy(os, s.ph, i + 1) else if s.sp then EPublish(os, s.ph) else EWait(os, s.ph);
    Again(s, t, ECopy(os, s.ph, i), pc);
    assert Last(run') == Between(s, t, os, pc, i + 1);
    if i + 1 < |os| { run' := CopyAlone(run', s, t, os, i + 1); }
  }

  lemma OneMore<T>(ring: seq<T>, h: nat, os: seq<T>, i: nat)
    requires |ring| > 0 && i < |os|
    ensures PlainCopy(ring, h, os, i + 1) == PlainCopy(ring, h, os, i)[Slot(|ring|, h + i) := os[i]]
  {
  }

  /** With the entries copied and nobody before it, the thread publishes them. */
  lemma PublishAlone<T>(run: seq<State<T>>, s: State<T>, t: Tid, os: seq<T>) returns (run': seq<State<T>>)
    requires run != [] && Alone(run, t) && Order(s) && s.pt == s.ph && s.pq == [] && t in s.threads
    requires s.threads[t].Idle?
    requires Last(run) == Between(s, t, os, if s.sp then EPublish(os, s.ph) else EWait(os, s.ph), |os|)
    ensures Leads(run, t, run', Sent(s, os))
  {
    hide Alone, Word, PlainCopy;
    run' := run;
    if !s.sp {
      run' := Further(run, t);
      Again(s, t, EWait(os, s.ph), EPublish(os, s.ph));
      assert Last(run') == Between(s, t, os, EPublish(os, s.ph), |os|);
    }
    run' := Further(run', t);
    Again(s, t, EPublish(os, s.ph), Idle);
  }

  lemma StartEnqueue<T>(s: State<T>, t: Tid, objs: seq<T>, fixed: bool) returns (run: seq<State<T>>)
    requires Enabled(s, t, Enqueue(objs, fixed))
    ensures run != [] && Alone(run, t) && run[0] == Exec(s, t, Enqueue(objs, fixed))
    ensures Last(run) == At(s, t, ELoadTail(objs, fixed, s.ph))
  {
    run := [Exec(s, t, Enqueue(objs, fixed))];
    run := Further(run, t);
    Again(s, t, ELoadHead(objs, fixed), ELoadTail(objs, fixed, s.ph));
  }

  lemma LookAlone<T>(run: seq<State<T>>, s: State<T>, t: Tid, objs: seq<T>, fixed: bool) returns (run': seq<State<T>>)
    requires run != [] && Alone(run, t) && Order(s) && |objs| >= 1
    requires Last(run) == At(s, t, ELoadTail(objs, fixed, s.ph))
    ensures var n := Amount(|objs|, Mask(s) - (s.ph - s.ct), fixed);
            Leads(run, t, run', At(s, t, if n == 0 then Idle else EMove(objs, fixed, s.ph, n, s.ct)))
  {
    hide Alone, FreeEntries;
    run' := Further(run, t);
    FreeEntriesIs(Mask(s), s.ct, s.ph);
    Again(s, t, ELoadTail(objs, fixed, s.ph), Last(run').threads[t]);
  }

  lemma ReserveAlone<T>(run: seq<State<T>>, s: State<T>, t: Tid, objs: seq<T>, fixed: bool, n: nat, c: nat)
      returns (run': seq<State<T>>)
    requires run != [] && Alone(run, t) && Order(s) && n <= |objs|
    requires Last(run) == At(s, t, EMove(objs, fixed, s.ph, n, c))
    ensures Leads(run, t, run', Between(s, t, objs[..n], ECopy(objs[..n], s.ph, 0), 0))
  {
    hide Alone, Word;
    run' := Further(run, t);
    Again(s, t, EMove(objs, fixed, s.ph, n, c), ECopy(objs[..n], s.ph, 0));
    PlainCopyNone(s.ring, s.ph, objs[..n]);
  }

  lemma NoneReserved(q: seq<Resv>, tail: nat)
    requires Tiles(q, tail, tail)
    ensures q == []
  {
    if q != [] { TilesOrdered(q, tail, tail, 1, |q|); }
  }

  lemma Rested<T(!new)>(past: seq<State<T>>, k: nat, s: State<T>)
    requires IsRun(past, k) && s == past[|past| - 1]
    ensures Order(s) && History(s) && InPlace(s, s.ct, s.pt)
    ensures (s.pt == s.ph ==> s.pq == []) && (s.ct == s.ch ==> s.cq == [])
  {
    RunInv(past, k, |past| - 1);
    hide Order, InPlace, PcOk, Solo, Tiles, OnePerThread, Matches, IsRun, History;
    if s.pt == s.ph { NoneReserved(s.pq, s.pt); }
    if s.ct == s.ch { NoneReserved(s.cq, s.ct); }
  }

  /** An enqueue that runs alone, with no other in flight, sends all its objects if there is room for them, as many as
      there is room for if it is not fixed, and otherwise leaves everything as it is. */
  lemma LoneEnqueue<T(!new)>(past: seq<State<T>>, k: nat, s: State<T>, t: Tid, objs: seq<T>, fixed: bool)
      returns (run: seq<State<T>>)
    requires IsRun(past, k) && s == past[|past| - 1] && s.pt == s.ph && Enabled(s, t, Enqueue(objs, fixed))
    ensures run != [] && Alone(run, t) && run[0] == Exec(s, t, Enqueue(objs, fixed))
    ensures var n := Amount(|objs|, Mask(s) - (s.ph - s.ct), fixed);
            n <= |objs| && Last(run) == if n == 0 then s else Sent(s, objs[..n])
  {
    Rested(past, k, s);
    hide IsRun, Order, History, InPlace, Alone, Exec, At, Between, Sent;
    run := StartEnqueue(s, t, objs, fixed);
    var n := Amount(|objs|, Mask(s) - (s.ph - s.ct), fixed);
    run := LookAlone(run, s, t, objs, fixed);
    if n == 0 {
      Again(s, t, Idle, Idle);
    } else {
      run := ReserveAlone(run, s, t, objs, fixed, n, s.ct);
      run := CopyAlone(run, s, t, objs[..n], 0);
      run := PublishAlone(run, s, t, objs[..n]);
    }
  }

  /** The state while n entries are claimed and not yet released. */
  function Claimed<T>(s: State<T>, t: Tid, n: nat, pc: Pc<T>): State<T> {
    At(s, t, pc).(ch := s.ch + n, cq := s.cq + [Resv(t, s.ch, n)])
  }

  /** The next access of a consumer that has read `out` of n entries. */
  function ReadPc<T>(s: State<T>, n: nat, out: seq<T>): Pc<T> {
    if |out| < n then DCopy(s.ch, n, out) else if s.sc then DPublish(s.ch, out) else DWait(s.ch, out)
  }

  /** Entry i of the claimed ones is in its slot. */
  lemma EntryThere<T>(s: State<T>, i: nat)
    requires Order(s) && InPlace(s, s.ct, s.pt) && s.ch + i < s.pt
    ensures CopySlot(s.size, s.ch, i) < |s.ring| && s.ring[CopySlot(s.size, s.ch, i)] == s.log[s.ch + i]
    ensures s.log[s.ch..s.ch + i + 1] == s.log[s.ch..s.ch + i] + [s.log[s.ch + i]]
  {
    hide Word;
    CopySlotIs(s.size, s.ch, i);
  }

  lemma ReadOne<T>(run: seq<State<T>>, s: State<T>, t: Tid, n: nat, out: seq<T>) returns (run': seq<State<T>>)
    requires run != [] && Alone(run, t) && Shaped(s) && |out| < n && Last(run) == Claimed(s, t, n, ReadPc(s, n, out))
    requires CopySlot(s.size, s.ch, |out|) < |s.ring|
    ensures Leads(run, t, run', Claimed(s, t, n, ReadPc(s, n, out + [s.ring[CopySlot(s.size, s.ch, |out|)]])))
  {
    hide Alone, CopySlot, Word;
    run' := Further(run, t);
    Again(s, t, DCopy(s.ch, n, out), ReadPc(s, n, out + [s.ring[CopySlot(s.size, s.ch, |out|)]]));
  }

  lemma {:induction false} ReadAlone<T>(run: seq<State<T>>, s: State<T>, t: Tid, n: nat, i: nat)
      returns (run': seq<State<T>>)
    requires run != [] && Alone(run, t) && Order(s) && i <= n && s.ch + n <= s.pt && InPlace(s, s.ct, s.pt)
    requires Last(run) == Claimed(s, t, n, ReadPc(s, n, s.log[s.ch..s.ch + i]))
    ensures Leads(run, t, run', Claimed(s, t, n, ReadPc(s, n, s.log[s.ch..s.ch + n])))
    decreases n - i
  {
    hide Alone, CopySlot, InPlace, Claimed, ReadPc;
    run' := run;
    if i < n {
      EntryThere(s, i);
      run' := ReadOne(run, s, t, n, s.log[s.ch..s.ch + i]);
      run' := ReadAlone(run', s, t, n, i + 1);
    }
  }

  lemma WaitNot<T>(run: seq<State<T>>, s: State<T>, t: Tid, n: nat, out: seq<T>) returns (run': seq<State<T>>)
    requires run != [] && Alone(run, t) && Shaped(s) && s.ct == s.ch && |out| == n
    requires Last(run) == Claimed(s, t, n, ReadPc(s, n, out))
    ensures Leads(run, t, run', Claimed(s, t, n, DPublish(s.ch, out)))
  {
    hide Alone, Word;
    run' := run;
    if !s.sc {
      run' := Further(run, t);
      Again(s, t, DWait(s.ch, out), DPublish(s.ch, out));
    }
  }

  lemma ReleaseAlone<T>(run: seq<State<T>>, s: State<T>, t: Tid, n: nat) returns (run': seq<State<T>>)
    requires run != [] && Alone(run, t) && Shaped(s) && s.ct == s.ch && s.cq == [] && t in s.threads
    requires s.threads[t].Idle? && s.ch + n <= |s.log|
    requires Last(run) == Claimed(s, t, n, DPublish(s.ch, s.log[s.ch..s.ch + n]))
    ensures Leads(run, t, run', Received(s, n))
  {
    hide Alone;
    run' := Further(run, t);
    Again(s, t, DPublish(s.ch, s.log[s.ch..s.ch + n]), Idle);
  }

  lemma StartDequeue<T>(s: State<T>, t: Tid, max: nat, fixed: bool) returns (run: seq<State<T>>)
    requires Enabled(s, t, Dequeue(max, fixed))
    ensures run != [] && Alone(run, t) && run[0] == Exec(s, t, Dequeue(max, fixed))
    ensures Last(run) == At(s, t, DLoadTail(max, fixed, s.ch))
  {
    run := [Exec(s, t, Dequeue(max, fixed))];
    run := Further(run, t);
    Again(s, t, DLoadHead(max, fixed), DLoadTail(max, fixed, s.ch));
  }

  lemma SeekAlone<T>(run: seq<State<T>>, s: State<T>, t: Tid, max: nat, fixed: bool) returns (run': seq<State<T>>)
    requires run != [] && Alone(run, t) && Order(s) && max >= 1
    requires Last(run) == At(s, t, DLoadTail(max, fixed, s.ch))
    ensures var n := Amount(max, s.pt - s.ch, fixed);
            Leads(run, t, run', At(s, t, if n == 0 then Idle else DMove(max, fixed, s.ch, n, s.pt)))
  {
    hide Alone, Entries;
    run' := Further(run, t);
    EntriesIs(s.pt, s.ch);
    Again(s, t, DLoadTail(max, fixed, s.ch), Last(run').threads[t]);
  }

  lemma ClaimAlone<T>(run: seq<State<T>>, s: State<T>, t: Tid, max: nat, fixed: bool, n: nat, p: nat)
      returns (run': seq<State<T>>)
    requires run != [] && Alone(run, t) && Order(s) && Last(run) == At(s, t, DMove(max, fixed, s.ch, n, p))
    ensures Leads(run, t, run', Claimed(s, t, n, DCopy(s.ch, n, [])))
  {
    hide Alone, Word;
    run' := Further(run, t);
    Again(s, t, DMove(max, fixed, s.ch, n, p), DCopy(s.ch, n, []));
  }

  /** A dequeue that runs alone, with no other in flight, receives as many entries as it wants if they are there, as
      many as are there if it is not fixed, and otherwise leaves everything as it is. */
  lemma LoneDequeue<T(!new)>(past: seq<State<T>>, k: nat, s: State<T>, t: Tid, max: nat, fixed: bool)
      returns (run: seq<State<T>>)
    requires IsRun(past, k) && s == past[|past| - 1] && s.ct == s.ch && Enabled(s, t, Dequeue(max, fixed))
    ensures run != [] && Alone(run, t) && run[0] == Exec(s, t, Dequeue(max, fixed))
    ensures var n := Amount(max, s.pt - s.ch, fixed);
            s.ch + n <= |s.log| && Last(run) == if n == 0 then s else Received(s, n)
  {
    Rested(past, k, s);
    hide IsRun, History, InPlace, Alone, Exec, At, Claimed, Received;
    run := StartDequeue(s, t, max, fixed);
    var n := Amount(max, s.pt - s.ch, fixed);
    run := SeekAlone(run, s, t, max, fixed);
    if n == 0 {
      Again(s, t, Idle, Idle);
    } else {
      run := ClaimAlone(run, s, t, max, fixed, n, s.pt);
      assert s.log[s.ch..s.ch + 0] == [];
      run := ReadAlone(run, s, t, n, 0);
      run := WaitNot(run, s, t, n, s.log[s.ch..s.ch + n]);
      run := ReleaseAlone(run, s, t, n);
    }
  }

  // ----- every call ends when its thread runs alone and nobody before it is in flight

  /** How many accesses a thread still needs at most if nobody else moves. */
  function Rank<T>(pc: Pc<T>, ph: nat, ch: nat): nat {
    match pc
    case Idle => 0
    case ELoadHead(objs, _) => 5 + |objs|
    case ELoadTail(objs, _, h) => if h == ph then 4 + |objs| else 7 + |objs|
    case EMove(objs, _, h, n, _) => if h == ph then 3 + n else 6 + |objs|
    case ECopy(objs, _, i) => if i < |objs| then 2 + |objs| - i else 2
    case EWait(_, _) => 2
    case EPublish(_, _) => 1
    case DLoadHead(max, _) => 5 + max
    case DLoadTail(max, _, h) => if h == ch then 4 + max else 7 + max
    case DMove(max, _, h, n, _) => if h == ch then 3 + n else 6 + max
    case DCopy(_, n, out) => if |out| < n then 2 + n - |out| else 2
    case DWait(_, _) => 2
    case DPublish(_, _) => 1
  }

  /** The index the thread loaded is less than a full turn old. */
  predicate Recent<T>(s: State<T>, pc: Pc<T>) {
    match pc
    case ELoadTail(_, _, h) => s.ph - h < WORD
    case EMove(_, _, h, _, _) => s.ph - h < WORD
    case DLoadTail(_, _, h) => s.ch - h < WORD
    case DMove(_, _, h, _, _) => s.ch - h < WORD
    case _ => true
  }

  /** No other thread has a range in flight. */
  predicate OnlyRange<T>(s: State<T>, t: Tid) {
    forall u :: u in s.threads && u != t ==> ProdRange(s.threads[u]) == NoRange && ConsRange(s.threads[u]) == NoRange
  }

  lemma CanGoOn<T>(s: State<T>, t: Tid)
    requires Inv(s) && t in s.threads && !s.threads[t].Idle?
    ensures Enabled(s, t, Continue)
  {
    hide InPlace, Solo, Copied, Tiles, OnePerThread;
    assert PcOk(s, s.threads[t]);
    var pc := s.threads[t];
    if pc.EPublish? { assert ProdRanges(s.threads)[t] != NoRange; }
    if pc.DPublish? { assert ConsRanges(s.threads)[t] != NoRange; }
  }

  /** A thread alone with its range need not wait. */
  lemma NeedNotWait<T>(s: State<T>, t: Tid)
    requires Inv(s) && t in s.threads && OnlyRange(s, t)
    ensures s.threads[t].EWait? ==> s.threads[t].h == s.pt
    ensures s.threads[t].DWait? ==> s.threads[t].h == s.ct
  {
    hide InPlace, Solo, PcOk, QueueOk;
    if s.threads[t].EWait? { AloneIsFirst(s.pq, s.pt, s.ph, ProdRanges(s.threads), t); }
    if s.threads[t].DWait? { AloneIsFirst(s.cq, s.ct, s.ch, ConsRanges(s.threads), t); }
  }

  /** The thread comes nearer to its end. */
  predicate Nearer<T>(s: State<T>, t: Tid, s': State<T>) {
    && t in s.threads && t in s'.threads && Unlapped(s, s.threads[t]) && Recent(s', s'.threads[t])
    && Rank(s'.threads[t], s'.ph, s'.ch) < Rank(s.threads[t], s.ph, s.ch)
  }

  lemma LoadFalls<T>(s: State<T>, t: Tid)
    requires Enabled(s, t, Continue) && Recent(s, s.threads[t])
    requires var pc := s.threads[t]; pc.ELoadHead? || pc.ELoadTail? || pc.DLoadHead? || pc.DLoadTail?
    ensures Nearer(s, t, Exec(s, t, Continue))
  {
    hide FreeEntries, Entries, Word;
  }

  lemma MoveFalls<T>(s: State<T>, t: Tid)
    requires Enabled(s, t, Continue) && Recent(s, s.threads[t])
    requires var pc := s.threads[t]; pc.EMove? && pc.h <= s.ph && (s.sp ==> pc.h == s.ph)
    ensures Nearer(s, t, Exec(s, t, Continue))
  {
    hide Word;
    var pc := s.threads[t];
    if Word(s.ph) == Word(pc.h) { WordsDiffer(pc.h, s.ph); }
  }

  lemma ClaimFalls<T>(s: State<T>, t: Tid)
    requires Enabled(s, t, Continue) && Recent(s, s.threads[t])
    requires var pc := s.threads[t]; pc.DMove? && pc.h <= s.ch && (s.sc ==> pc.h == s.ch)
    ensures Nearer(s, t, Exec(s, t, Continue))
  {
    hide Word;
    var pc := s.threads[t];
    if Word(s.ch) == Word(pc.h) { WordsDiffer(pc.h, s.ch); }
  }

  lemma CopyFalls<T>(s: State<T>, t: Tid)
    requires Enabled(s, t, Continue)
    requires var pc := s.threads[t]; pc.ECopy? || (pc.EWait? && pc.h == s.pt) || pc.EPublish?
    ensures Nearer(s, t, Exec(s, t, Continue))
  {
    hide Word, CopySlot;
  }

  lemma ReadFalls<T>(s: State<T>, t: Tid)
    requires Enabled(s, t, Continue)
    requires var pc := s.threads[t]; (pc.DCopy? && |pc.out| < pc.n) || (pc.DWait? && pc.h == s.ct) || pc.DPublish?
    ensures Nearer(s, t, Exec(s, t, Continue))
  {
    hide Word, CopySlot;
  }

  lemma PcFacts<T>(s: State<T>, t: Tid)
    requires Inv(s) && t in s.threads
    ensures s.threads[t].EMove? ==> s.threads[t].h <= s.ph && (s.sp ==> s.threads[t].h == s.ph)
    ensures s.threads[t].DMove? ==> s.threads[t].h <= s.ch && (s.sc ==> s.threads[t].h == s.ch)
    ensures s.threads[t].DCopy? ==> |s.threads[t].out| < s.threads[t].n
  {
    hide QueuesOk, InPlace, Solo, Copied, Entries, FreeEntries;
    assert PcOk(s, s.threads[t]);
  }

  lemma RankFalls<T>(s: State<T>, t: Tid)
    requires Inv(s) && Enabled(s, t, Continue) && OnlyRange(s, t) && Recent(s, s.threads[t])
    ensures Nearer(s, t, Exec(s, t, Continue))
  {
    hide Inv, Exec, Nearer, OnlyRange, Recent;
    NeedNotWait(s, t);
    PcFacts(s, t);
    match s.threads[t]
    case EMove(_, _, _, _, _) => MoveFalls(s, t);
    case DMove(_, _, _, _, _) => ClaimFalls(s, t);
    case ECopy(_, _, _) => CopyFalls(s, t);
    case EWait(_, _) => CopyFalls(s, t);
    case EPublish(_, _) => CopyFalls(s, t);
    case DCopy(_, _, _) => ReadFalls(s, t);
    case DWait(_, _) => ReadFalls(s, t);
    case DPublish(_, _) => ReadFalls(s, t);
    case _ => LoadFalls(s, t);
  }

  /** From any state on in which no other range is in flight, a thread that runs alone ends its call. */
  lemma EndsAlone<T(!new)>(past: seq<State<T>>, k: nat, s: State<T>, t: Tid) returns (run: seq<State<T>>)
    requires IsRun(past, k) && s == past[|past| - 1] && t in s.threads && OnlyRange(s, t) && Recent(s, s.threads[t])
    ensures run != [] && Alone(run, t) && run[0] == s && t in Last(run).threads && Last(run).threads[t].Idle?
  {
    hide Inv, OnlyRange, Recent, History;
    RunInv(past, k, |past| - 1);
    run := ToTheEnd([s], t);
  }

  lemma {:induction false} ToTheEnd<T>(run: seq<State<T>>, t: Tid) returns (run': seq<State<T>>)
    requires run != [] && Alone(run, t) && t in Last(run).threads && Inv(Last(run))
    requires OnlyRange(Last(run), t) && Recent(Last(run), Last(run).threads[t])
    ensures run' != [] && Alone(run', t) && run'[0] == run[0]
    ensures t in Last(run').threads && Last(run').threads[t].Idle?
    decreases Rank(Last(run).threads[t], Last(run).ph, Last(run).ch)
  {
    hide Inv, Enabled, Exec, Rank, Alone, OnlyRange, Recent, Unlapped;
    run' := run;
    var s := Last(run);
    if !s.threads[t].Idle? {
      CanGoOn(s, t);
      RankFalls(s, t);
      StepKeepsInv(s, t, Continue);
      StillOnly(s, t);
      run' := Further(run, t);
      run' := ToTheEnd(run', t);
    }
  }

  lemma StillOnly<T>(s: State<T>, t: Tid)
    requires Enabled(s, t, Continue) && OnlyRange(s, t)
    ensures OnlyRange(Exec(s, t, Continue), t)
  {
    hide Exec, Enabled, ProdRange, ConsRange;
    AnyStep(s, t);
  }
}

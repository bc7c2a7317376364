/** What the calls of the turn ring return: when a try operation may fail, and what a call does that runs alone. */
module TurnRingCalls {
  import opened Bits
  import opened Options
  import opened TurnRing

  // ----- when a try operation fails

  predicate TryingPush<T>(pc: Pc<T>) { pc.TryPushLoad? || pc.TryPushTurn? || pc.TryPushCas? || pc.TryPushReload? }

  predicate TryingPop<T>(pc: Pc<T>) { pc.TryPopLoad? || pc.TryPopTurn? || pc.TryPopCas? || pc.TryPopReload? }

  /** The only steps by which a try operation ends without a ticket. */
  lemma GivesUp<T>(s: State<T>, u: Tid, a: Action<T>, t: Tid)
    requires Enabled(s, u, a) && t in s.threads && t in Exec(s, u, a).threads
    requires (TryingPush(s.threads[t]) || TryingPop(s.threads[t])) && Exec(s, u, a).threads[t].Idle?
    ensures TryingPush(s.threads[t]) ==> s.threads[t].TryPushReload? && s.head == s.threads[t].h
    ensures TryingPop(s.threads[t]) ==> s.threads[t].TryPopReload? && s.tail == s.threads[t].h
  {
    hide Turn, Idx;
    if u != t { OthersStay(s, u, a, t); }
  }

  /** A try operation that ends without a ticket was right: at state j of the same call its slot was unavailable. */
  lemma TryFailsHonestly<T(!new)>(run: seq<State<T>>, i: nat, t: Tid) returns (j: nat)
    requires IsRun(run) && i + 1 < |run| && t in run[i].threads && t in run[i + 1].threads
    requires (TryingPush(run[i].threads[t]) || TryingPop(run[i].threads[t])) && run[i + 1].threads[t].Idle?
    ensures j < i && forall m :: j <= m <= i ==> t in run[m].threads
    ensures TryingPush(run[i].threads[t]) ==>
              PushUnavailable(run[j]) && forall m :: j <= m <= i ==> TryingPush(run[m].threads[t])
    ensures TryingPop(run[i].threads[t]) ==>
              PopUnavailable(run[j]) && forall m :: j <= m <= i ==> TryingPop(run[m].threads[t])
  {
    hide Enabled, Exec, PushUnavailable, PopUnavailable;
    assert Step(run[i], run[i + 1]);
    var u, a :| Enabled(run[i], u, a) && run[i + 1] == Exec(run[i], u, a);
    GivesUp(run[i], u, a, t);
    j := FailsHonestly(run, i, t);
  }

  // ----- a call that runs alone

  /** Thread t continues, and no other thread does anything. */
  ghost predicate Solo<T>(run: seq<State<T>>, t: Tid) {
    && |run| > 0
    && forall i :: 0 <= i < |run| - 1 ==> Enabled(run[i], t, Continue) && run[i + 1] == Exec(run[i], t, Continue)
  }

  function Last<T>(run: seq<State<T>>): State<T>
    requires run != []
  {
    run[|run| - 1]
  }

  lemma Further<T>(run: seq<State<T>>, t: Tid) returns (run': seq<State<T>>)
    requires Solo(run, t) && Enabled(Last(run), t, Continue)
    ensures run' != [] && Solo(run', t) && run'[0] == run[0] && Last(run') == Access(Last(run), t)
  {
    hide Enabled, Access;
    run' := run + [Exec(Last(run), t, Continue)];
  }

  /** The state after a push with the next ticket, and after a pop with it. */
  function Pushed<T>(s: State<T>, v: T): State<T>
    requires Shaped(s)
  {
    var i := Idx(s.cap, s.head);
    s.(head := s.head + 1, log := s.log + [v], storage := s.storage[i := Some(v)],
       turns := s.turns[i := 2 * Turn(s.cap, s.head) + 1])
  }

  function Popped<T>(s: State<T>): State<T>
    requires Shaped(s)
  {
    var i := Idx(s.cap, s.tail);
    s.(tail := s.tail + 1, storage := s.storage[i := None], turns := s.turns[i := 2 * Turn(s.cap, s.tail) + 2])
  }

  lemma Start<T>(s: State<T>, t: Tid, a: Action<T>) returns (run: seq<State<T>>)
    requires Enabled(s, t, a)
    ensures run == [Exec(s, t, a)] && Solo(run, t)
  {
    run := [Exec(s, t, a)];
  }

  /** A thread whose slot is its own builds, or moves out, and publishes the turn. */
  lemma FinishPush<T>(run: seq<State<T>>, t: Tid, v: T, p: nat) returns (run': seq<State<T>>)
    requires run != [] && Solo(run, t) && Shaped(Last(run)) && t in Last(run).threads
    requires Last(run).threads[t] == PushBuild(v, p)
    ensures run' != [] && Solo(run', t) && run'[0] == run[0]
    ensures Last(run') == At(SetTurn(SetStorage(Last(run), p, Some(v)), p, 2 * Turn(Last(run).cap, p) + 1), t, Idle)
  {
    hide Turn, Idx, Solo;
    run' := Further(run, t);
    run' := Further(run', t);
    assert Last(run').threads == Last(run).threads[t := Idle];
  }

  lemma FinishPop<T>(run: seq<State<T>>, t: Tid, p: nat) returns (run': seq<State<T>>)
    requires run != [] && Solo(run, t) && Shaped(Last(run)) && t in Last(run).threads
    requires Last(run).threads[t] == PopMove(p) && Last(run).storage[Idx(Last(run).cap, p)].Some?
    ensures run' != [] && Solo(run', t) && run'[0] == run[0]
    ensures Last(run') == At(SetTurn(SetStorage(Last(run), p, None), p, 2 * Turn(Last(run).cap, p) + 2), t, Idle)
  {
    hide Turn, Idx, Solo;
    run' := Further(run, t);
    run' := Further(run', t);
    run' := Further(run', t);
    assert Last(run').threads == Last(run).threads[t := Idle];
  }

  lemma Again<T>(s: State<T>, t: Tid, a: Pc<T>, b: Pc<T>)
    ensures At(At(s, t, a), t, b) == At(s, t, b)
    ensures t in s.threads && s.threads[t] == b ==> At(s, t, b) == s
  {
    assert s.threads[t := a][t := b] == s.threads[t := b];
    if t in s.threads && s.threads[t] == b { assert s.threads[t := b] == s.threads; }
  }

  /** One step of a try operation in a state nobody else changes: either only its counter moves, to pc', or it wins. */
  lemma TryStep<T>(run: seq<State<T>>, s: State<T>, t: Tid, pc: Pc<T>, pc': Pc<T>) returns (run': seq<State<T>>)
    requires run != [] && Solo(run, t) && Shaped(s) && Last(run) == At(s, t, pc)
    requires match pc
             case TryPushLoad(v) => pc' == TryPushTurn(v, s.head)
             case TryPushTurn(v, h) =>
               pc' == if TurnAt(s, h) == 2 * Turn(s.cap, h) then TryPushCas(v, h) else TryPushReload(v, h)
             case TryPushReload(v, h) => s.head == h && pc' == Idle
             case TryPopLoad => pc' == TryPopTurn(s.tail)
             case TryPopTurn(h) =>
               pc' == if TurnAt(s, h) == 2 * Turn(s.cap, h) + 1 then TryPopCas(h) else TryPopReload(h)
             case TryPopReload(h) => s.tail == h && pc' == Idle
             case _ => false
    ensures run' != [] && Solo(run', t) && run'[0] == run[0] && Last(run') == At(s, t, pc')
  {
    hide Turn, Idx, Solo;
    run' := Further(run, t);
    Again(s, t, pc, pc');
  }

  lemma WinStep<T>(run: seq<State<T>>, s: State<T>, t: Tid, v: T) returns (run': seq<State<T>>)
    requires run != [] && Solo(run, t) && Shaped(s) && Last(run) == At(s, t, TryPushCas(v, s.head))
    ensures run' != [] && Solo(run', t) && run'[0] == run[0] && Last(run') == WinPush(s, t, v, PushBuild(v, s.head))
  {
    hide Turn, Idx, Solo;
    run' := Further(run, t);
    Again(s, t, TryPushCas(v, s.head), PushBuild(v, s.head));
  }

  lemma WinPop<T>(run: seq<State<T>>, s: State<T>, t: Tid) returns (run': seq<State<T>>)
    requires run != [] && Solo(run, t) && Shaped(s) && Last(run) == At(s, t, TryPopCas(s.tail))
    ensures run' != [] && Solo(run', t) && run'[0] == run[0]
    ensures Last(run') == At(s, t, PopMove(s.tail)).(tail := s.tail + 1)
  {
    hide Turn, Idx, Solo;
    run' := Further(run, t);
    Again(s, t, TryPopCas(s.tail), PopMove(s.tail));
  }

  predicate CanPush<T>(s: State<T>)
    requires Shaped(s)
  {
    TurnAt(s, s.head) == 2 * Turn(s.cap, s.head)
  }

  predicate CanPop<T>(s: State<T>)
    requires Shaped(s)
  {
    TurnAt(s, s.tail) == 2 * Turn(s.cap, s.tail) + 1
  }

  /** try_emplace alone: it pushes if the slot is free, and otherwise leaves everything as it is. */
  lemma LoneTryPush<T>(s: State<T>, t: Tid, v: T) returns (run: seq<State<T>>)
    requires Enabled(s, t, TryEmplace(v))
    ensures run != [] && Solo(run, t) && run[0] == Exec(s, t, TryEmplace(v))
    ensures Last(run) == if CanPush(s) then Pushed(s, v) else s
  {
    hide Turn, Idx, Solo, SetTurn, SetStorage, At, WinPush;
    run := Start(s, t, TryEmplace(v));
    run := TryStep(run, s, t, TryPushLoad(v), TryPushTurn(v, s.head));
    if CanPush(s) {
      run := TryStep(run, s, t, TryPushTurn(v, s.head), TryPushCas(v, s.head));
      run := WinStep(run, s, t, v);
      PushIs(s, t, v);
      run := FinishPush(run, t, v, s.head);
    } else {
      run := TryStep(run, s, t, TryPushTurn(v, s.head), TryPushReload(v, s.head));
      run := TryStep(run, s, t, TryPushReload(v, s.head), Idle);
      Again(s, t, Idle, Idle);
    }
  }

  lemma PushIs<T>(s: State<T>, t: Tid, v: T)
    requires Shaped(s) && t in s.threads && s.threads[t].Idle?
    ensures var w := WinPush(s, t, v, PushBuild(v, s.head));
            && Shaped(w) && t in w.threads && w.threads[t] == PushBuild(v, s.head) && w.cap == s.cap
            && At(SetTurn(SetStorage(w, s.head, Some(v)), s.head, 2 * Turn(s.cap, s.head) + 1), t, Idle) == Pushed(s, v)
  {
    hide Turn, Idx;
    assert s.threads[t := PushBuild(v, s.head)][t := Idle] == s.threads;
  }

  /** emplace alone, when its slot is free: it need not wait. */
  lemma LonePush<T>(s: State<T>, t: Tid, v: T) returns (run: seq<State<T>>)
    requires Enabled(s, t, Emplace(v)) && CanPush(s)
    ensures run != [] && Solo(run, t) && run[0] == Exec(s, t, Emplace(v)) && Last(run) == Pushed(s, v)
  {
    hide Turn, Idx, Solo, SetTurn, SetStorage;
    run := Start(s, t, Emplace(v));
    run := Further(run, t);
    assert s.threads[t := PushWait(v, s.head)][t := PushBuild(v, s.head)] == s.threads[t := PushBuild(v, s.head)];
    PushIs(s, t, v);
    run := FinishPush(run, t, v, s.head);
  }

  lemma PopIs<T>(s: State<T>, t: Tid)
    requires Shaped(s) && t in s.threads && s.threads[t].Idle?
    ensures var w := At(s, t, PopMove(s.tail)).(tail := s.tail + 1);
            && Shaped(w) && t in w.threads && w.threads[t] == PopMove(s.tail)
            && w.cap == s.cap && w.storage == s.storage
            && At(SetTurn(SetStorage(w, s.tail, None), s.tail, 2 * Turn(s.cap, s.tail) + 2), t, Idle) == Popped(s)
  {
    hide Turn, Idx;
    assert s.threads[t := PopMove(s.tail)][t := Idle] == s.threads;
  }

  /** In a reachable state the slot of an available pop holds the value pushed with that ticket. */
  lemma NextIsThere<T(!new)>(run: seq<State<T>>, s: State<T>, t: Tid)
    requires IsRun(run) && s == run[|run| - 1] && t in s.threads && Shaped(s) && CanPop(s)
    ensures s.tail < |s.log| && s.storage[Idx(s.cap, s.tail)] == Some(s.log[s.tail])
  {
    hide Turn, Idx, SlotOk, PcOk, Distinct, Ticket;
    RunInv(run, |run| - 1);
    NobodyGone(s, t, s.tail);
    FullSlot(s, s.tail);
  }

  lemma PopThere<T>(run: seq<State<T>>, s: State<T>, t: Tid) returns (run': seq<State<T>>)
    requires run != [] && Solo(run, t) && Shaped(s) && t in s.threads && s.threads[t].Idle? && CanPop(s)
    requires s.storage[Idx(s.cap, s.tail)].Some? && Last(run) == At(s, t, TryPopTurn(s.tail))
    ensures run' != [] && Solo(run', t) && run'[0] == run[0] && Last(run') == Popped(s)
  {
    hide Turn, Idx, Solo, SetTurn, SetStorage, At, Popped;
    run' := TryStep(run, s, t, TryPopTurn(s.tail), TryPopCas(s.tail));
    run' := WinPop(run', s, t);
    PopIs(s, t);
    run' := FinishPop(run', t, s.tail);
  }

  lemma StartsThere<T>(s: State<T>, t: Tid)
    requires Enabled(s, t, TryPop)
    ensures Shaped(s) && t in s.threads && s.threads[t].Idle? && Exec(s, t, TryPop) == At(s, t, TryPopLoad)
  {
  }

  /** try_pop alone: it takes the value of the next ticket if it is there, and otherwise leaves everything as it is. */
  lemma LoneTryPop<T(!new)>(past: seq<State<T>>, s: State<T>, t: Tid) returns (run: seq<State<T>>)
    requires IsRun(past) && s == past[|past| - 1] && Enabled(s, t, TryPop)
    ensures run != [] && Solo(run, t) && run[0] == Exec(s, t, TryPop)
    ensures Last(run) == if CanPop(s) then Popped(s) else s
  {
    hide Turn, Idx, Solo, SetTurn, SetStorage, At, IsRun, Popped, Exec, Enabled;
    StartsThere(s, t);
    run := Start(s, t, TryPop);
    run := TryStep(run, s, t, TryPopLoad, TryPopTurn(s.tail));
    if CanPop(s) {
      NextIsThere(past, s, t);
      run := PopThere(run, s, t);
    } else {
      run := TryStep(run, s, t, TryPopTurn(s.tail), TryPopReload(s.tail));
      run := TryStep(run, s, t, TryPopReload(s.tail), Idle);
      Again(s, t, Idle, Idle);
    }
  }

  /** pop alone, when the value is there. */
  lemma LonePop<T(!new)>(past: seq<State<T>>, s: State<T>, t: Tid) returns (run: seq<State<T>>)
    requires IsRun(past) && s == past[|past| - 1] && Enabled(s, t, Pop) && CanPop(s)
    ensures run != [] && Solo(run, t) && run[0] == Exec(s, t, Pop) && Last(run) == Popped(s)
  {
    hide Turn, Idx, Solo, SetTurn, SetStorage, IsRun;
    NextIsThere(past, s, t);
    run := Start(s, t, Pop);
    run := Further(run, t);
    assert s.threads[t := PopWait(s.tail)][t := PopMove(s.tail)] == s.threads[t := PopMove(s.tail)];
    PopIs(s, t);
    run := FinishPop(run, t, s.tail);
  }

  // ----- every call ends when its thread runs alone, but for one that waits for another's turn

  /** How many accesses a thread still needs at most if nobody else moves. */
  function Rank<T>(pc: Pc<T>, head: nat, tail: nat): nat {
    match pc
    case Idle => 0
    case PushWait(_, _) => 3
    case PushBuild(_, _) => 2
    case PushDone(_, _) => 1
    case TryPushLoad(_) => 5
    case TryPushTurn(_, h) => if h == head then 4 else 6
    case TryPushCas(_, h) => if h == head then 3 else 5
    case TryPushReload(_, h) => if h == head then 1 else 5
    case PopWait(_) => 4
    case PopMove(_) => 3
    case PopDestroy(_, _) => 2
    case PopDone(_, _) => 1
    case TryPopLoad => 6
    case TryPopTurn(h) => if h == tail then 5 else 7
    case TryPopCas(h) => if h == tail then 4 else 6
    case TryPopReload(h) => if h == tail then 1 else 6
  }

  /** The thread is not waiting, or its turn has come. */
  predicate Free<T>(s: State<T>, pc: Pc<T>)
    requires Shaped(s)
  {
    && (pc.PushWait? ==> TurnAt(s, pc.p) == 2 * Turn(s.cap, pc.p))
    && (pc.PopWait? ==> TurnAt(s, pc.p) == 2 * Turn(s.cap, pc.p) + 1)
  }

  /** The thread comes nearer to its end. */
  predicate Nearer<T>(s: State<T>, t: Tid, s': State<T>) {
    && t in s.threads && t in s'.threads && Shaped(s') && Free(s', s'.threads[t])
    && Rank(s'.threads[t], s'.head, s'.tail) < Rank(s.threads[t], s.head, s.tail)
  }

  lemma PushFalls<T>(s: State<T>, t: Tid)
    requires Enabled(s, t, Continue) && Free(s, s.threads[t]) && (TryingPush(s.threads[t]) || Pushing(s.threads[t]))
    ensures Nearer(s, t, Access(s, t))
  {
    hide Turn, Idx;
  }

  lemma PopFalls<T>(s: State<T>, t: Tid)
    requires Enabled(s, t, Continue) && Free(s, s.threads[t]) && !TryingPush(s.threads[t]) && !Pushing(s.threads[t])
    ensures Nearer(s, t, Access(s, t))
  {
    hide Turn, Idx;
  }

  /** A thread about to move a value out finds one. */
  lemma CanGoOn<T>(s: State<T>, t: Tid)
    requires Inv(s) && t in s.threads && !s.threads[t].Idle?
    ensures Enabled(s, t, Continue)
  {
    hide Turn, Idx, SlotOk, Distinct;
    assert PcOk(s, s.threads[t]);
  }

  /** From any state on, wherever the other threads are, a thread that runs alone ends its call. */
  lemma EndsAlone<T(!new)>(past: seq<State<T>>, s: State<T>, t: Tid) returns (run: seq<State<T>>)
    requires IsRun(past) && s == past[|past| - 1] && t in s.threads && Shaped(s) && Free(s, s.threads[t])
    ensures run != [] && Solo(run, t) && run[0] == s && t in Last(run).threads && Last(run).threads[t].Idle?
  {
    hide Inv, Free;
    RunInv(past, |past| - 1);
    run := ToTheEnd([s], t);
  }

  lemma {:induction false} ToTheEnd<T>(run: seq<State<T>>, t: Tid) returns (run': seq<State<T>>)
    requires run != [] && Solo(run, t) && t in Last(run).threads && Inv(Last(run))
    requires Shaped(Last(run)) && Free(Last(run), Last(run).threads[t])
    ensures run' != [] && Solo(run', t) && run'[0] == run[0]
    ensures t in Last(run').threads && Last(run').threads[t].Idle?
    decreases Rank(Last(run).threads[t], Last(run).head, Last(run).tail)
  {
    hide Inv, Enabled, Access, Rank, Solo, Free;
    run' := run;
    var s := Last(run);
    if !s.threads[t].Idle? {
      CanGoOn(s, t);
      if TryingPush(s.threads[t]) || Pushing(s.threads[t]) { PushFalls(s, t); } else { PopFalls(s, t); }
      StepKeepsInv(s, t, Continue);
      run' := Further(run, t);
      run' := ToTheEnd(run', t);
    }
  }
}

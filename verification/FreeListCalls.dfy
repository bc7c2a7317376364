/** What the calls of the free list return: when try_get may fail, and what a call does that runs alone. */
module FreeListCalls {
  import opened FreeList

  // ----- when try_get comes back empty-handed

  /** The thread is inside try_get, perhaps linking a node it was the last to let go. */
  predicate InGet(pc: Pc) { IsGetting(pc) || (IsLinking(pc) && pc.ret.ToLoop?) }

  /** The thread takes the list to be empty. */
  predicate TookForEmpty(pc: Pc) {
    match pc
    case GetRefs(h) => h == Null
    case GetUnpin(_, cur) => cur == Null
    case _ => IsLinking(pc) && pc.ret == ToLoop(Null)
  }

  lemma OwnStep(s: State, t: Tid)
    requires Enabled(s, t, Continue)
    ensures var pc, pc' := s.threads[t].pc, Access(s, t).th.pc;
            && (TookForEmpty(pc') ==> InGet(pc) && (TookForEmpty(pc) || s.head == Null))
            && (InGet(pc) && pc'.Idle? ==> pc.GetTake? || TookForEmpty(pc))
            && (pc.GetTake? ==> Access(s, t).th.held == s.threads[t].held + {pc.n})
  {
    hide TypeOk, Wrap, Masked;
  }

  /** What a step of thread u makes of thread t. */
  lemma AnyStep(s: State, u: Tid, a: Action, t: Tid)
    requires Enabled(s, u, a) && t in Exec(s, u, a).threads
    ensures t in s.threads
    ensures var th, th' := s.threads[t], Exec(s, u, a).threads[t];
            if u != t || a.HandOver? then th'.pc == th.pc
            else if a.Continue? then th' == Access(s, t).th
            else th.pc.Idle? && !TookForEmpty(th'.pc)
  {
    hide Access, TypeOk;
    if a.HandOver? { HandedThreads(s, u, a.to, a.n, t); }
  }

  lemma {:induction false} EmptyWasSeen(run: seq<State>, i: nat, t: Tid) returns (j: nat)
    requires IsRun(run) && i < |run| && t in run[i].threads && TookForEmpty(run[i].threads[t].pc)
    ensures j < i && run[j].head == Null
    ensures forall m :: j <= m <= i ==> t in run[m].threads && InGet(run[m].threads[t].pc)
  {
    hide Enabled, Exec, Access;
    assert i > 0 by { assert Init(run[0]); }
    assert Step(run[i - 1], run[i - 1 + 1]);
    var u, a :| Enabled(run[i - 1], u, a) && run[i] == Exec(run[i - 1], u, a);
    AnyStep(run[i - 1], u, a, t);
    if u == t && a.Continue? { OwnStep(run[i - 1], t); }
    j := i - 1;
    if TookForEmpty(run[i - 1].threads[t].pc) { j := EmptyWasSeen(run, i - 1, t); }
  }

  /** A try_get that returns without a node saw an empty list: at state j of the same call the head was null. */
  lemma TryGetFailsHonestly(run: seq<State>, i: nat, t: Tid) returns (j: nat)
    requires IsRun(run) && i + 1 < |run| && t in run[i].threads && t in run[i + 1].threads
    requires InGet(run[i].threads[t].pc) && run[i + 1].threads[t].pc.Idle?
    requires run[i + 1].threads[t].held <= run[i].threads[t].held
    ensures j < i && run[j].head == Null
    ensures forall m :: j <= m <= i ==> t in run[m].threads && InGet(run[m].threads[t].pc)
  {
    hide Enabled, Exec, Access, TookForEmpty;
    assert Step(run[i], run[i + 1]);
    var u, a :| Enabled(run[i], u, a) && run[i + 1] == Exec(run[i], u, a);
    AnyStep(run[i], u, a, t);
    OwnStep(run[i], t);
    if run[i].threads[t].pc.GetTake? { NotYetHeld(run, i, t); }
    j := EmptyWasSeen(run, i, t);
  }

  /** The node a thread has just popped is not yet among those it holds. */
  lemma NotYetHeld(run: seq<State>, i: nat, t: Tid)
    requires IsRun(run) && i < |run| && t in run[i].threads && run[i].threads[t].pc.GetTake?
    ensures run[i].threads[t].pc.n !in run[i].threads[t].held
  {
    hide Inv, IsRun, RoleOf;
    RunInv(run, i);
    var list, place :| Inv(run[i], list, place);
    HeldApart(run[i], list, place, t);
    Taking(run[i].threads[t].pc);
  }

  lemma Taking(pc: Pc)
    requires pc.GetTake?
    ensures RoleOf(Thread(pc, {}), pc.n) == Linking
  {
  }

  lemma HeldApart(s: State, list: seq<Node>, place: map<Node, Place>, t: Tid)
    requires Inv(s, list, place) && t in s.threads
    ensures forall n :: n in s.threads[t].held ==> RoleOf(Thread(s.threads[t].pc, {}), n) == NoRole
  {
    hide RoleOf, TypeOk, WordsOk, LinksKnown, Chain, RoleAt;
  }

  // ----- a call that runs alone

  /** Thread t continues, and no other thread does anything. */
  ghost predicate Solo(run: seq<State>, t: Tid) {
    && |run| > 0
    && forall i :: 0 <= i < |run| - 1 ==> Enabled(run[i], t, Continue) && run[i + 1] == Exec(run[i], t, Continue)
  }

  function Last(run: seq<State>): State
    requires run != []
  {
    run[|run| - 1]
  }

  lemma Further(run: seq<State>, t: Tid, list: seq<Node>, place: map<Node, Place>)
      returns (run': seq<State>, place': map<Node, Place>)
    requires Solo(run, t) && t in Last(run).threads && !Last(run).threads[t].pc.Idle? && Inv(Last(run), list, place)
    ensures CanAccess(Last(run), t) && run' != [] && Solo(run', t) && run'[0] == run[0]
    ensures Last(run') == Apply(Last(run), t, Access(Last(run), t))
    ensures Inv(Last(run'), ListNext(Last(run), t, list), place')
  {
    hide Inv, TypeOk, Access, Apply, ListNext, PlaceAfter, CanAccess;
    var s := Last(run);
    InvTypes(s, list, place);
    CanAlways(s, t);
    AccessKeepsInv(s, list, place, t);
    run' := run + [Exec(s, t, Continue)];
    place' :| Inv(Exec(s, t, Continue), ListNext(s, t, list), place');
  }

  lemma InvTypes(s: State, list: seq<Node>, place: map<Node, Place>)
    requires Inv(s, list, place)
    ensures TypeOk(s) && Chain(s.head, s.next, list)
  {
  }

  /** The first node of the list can be pinned: its count is not zero and not at the end of its range. */
  lemma FirstIsCounted(s: State, list: seq<Node>, place: map<Node, Place>)
    requires Inv(s, list, place) && list != []
    ensures s.head == To(list[0]) && list[0] in s.refs && list[0] in s.next && 1 <= s.refs[list[0]] <= REFS_MASK
  {
    hide Inv, TypeOk, RolesOk, WordOk, Pinned;
    NodeFacts(s, list, place);
    PinsBound(s, list[0]);
    assert list[0] in s.next;
    assert s.next.Keys == s.refs.Keys by { InvKeys(s, list, place); }
    assert WordOk(Linked, s.refs[list[0]], |Pins(s, list[0])|);
    LinkedWord(s.refs[list[0]], |Pins(s, list[0])|);
  }

  lemma LinkedWord(word: nat, pins: nat)
    requires WordOk(Linked, word, pins)
    ensures word == 1 + pins
  {
  }

  lemma InvKeys(s: State, list: seq<Node>, place: map<Node, Place>)
    requires Inv(s, list, place)
    ensures s.next.Keys == s.refs.Keys
  {
    hide RolesOk, WordsOk, LinksKnown, Chain;
  }

  /** The words all threads share. */
  datatype Shared = Shared(head: Link, refs: map<Node, nat>, next: map<Node, Link>)

  function Words(s: State): Shared { Shared(s.head, s.refs, s.next) }

  /** State s with another thread t and other words. */
  function Mk(s: State, t: Tid, th: Thread, w: Shared): State {
    State(w.head, w.refs, w.next, s.threads[t := th])
  }

  /** Access `pc` finds the words as it left them: nobody interferes. */
  predicate Calm(pc: Pc, w: Shared) {
    match pc
    case AddFlag(n) => n in w.refs && w.refs[n] <= REFS_MASK
    case LinkLoad(n, _) => true
    case LinkSetNext(n, h, _) => true
    case LinkSetRefs(n, h, _) => true
    case LinkCas(n, h, ret) => h == w.head && ret == ToCaller
    case GetLoad => true
    case GetRefs(h) => h.To? ==> h.node in w.refs
    case GetPin(n, r) => n in w.refs && r == w.refs[n] && 1 <= r <= REFS_MASK
    case GetNext(n) => n in w.next
    case GetCas(n, _) => w.head == To(n)
    case GetTake(n) => n in w.refs && w.refs[n] >= 2
    case _ => false
  }

  /** What it then does to its thread, */
  function CalmThread(th: Thread, w: Shared): Thread
    requires Calm(th.pc, w)
  {
    match th.pc
    case AddFlag(n) => th.(pc := if w.refs[n] == 0 then LinkLoad(n, ToCaller) else Idle)
    case LinkLoad(n, ret) => th.(pc := LinkSetNext(n, w.head, ret))
    case LinkSetNext(n, h, ret) => th.(pc := LinkSetRefs(n, h, ret))
    case LinkSetRefs(n, h, ret) => th.(pc := LinkCas(n, h, ret))
    case LinkCas(n, h, ret) => th.(pc := Idle)
    case GetLoad => th.(pc := GetRefs(w.head))
    case GetRefs(h) => th.(pc := if h == Null then Idle else GetPin(h.node, w.refs[h.node]))
    case GetPin(n, _) => th.(pc := GetNext(n))
    case GetNext(n) => th.(pc := GetCas(n, w.next[n]))
    case GetCas(n, nx) => th.(pc := GetTake(n))
    case GetTake(n) => Thread(Idle, th.held + {n})
  }

  /** to the words, */
  function CalmWords(pc: Pc, w: Shared): Shared
    requires Calm(pc, w)
  {
    match pc
    case AddFlag(n) => w.(refs := w.refs[n := w.refs[n] + SHOULD_BE_ON_FREELIST])
    case LinkSetNext(n, h, ret) => w.(next := w.next[n := h])
    case LinkSetRefs(n, h, ret) => w.(refs := w.refs[n := 1])
    case LinkCas(n, h, ret) => w.(head := To(n))
    case GetPin(n, _) => w.(refs := w.refs[n := w.refs[n] + 1])
    case GetCas(n, nx) => w.(head := nx)
    case GetTake(n) => w.(refs := w.refs[n := w.refs[n] - 2])
    case _ => w
  }

  /** and to the list. */
  function CalmList(pc: Pc, list: seq<Node>): seq<Node> {
    match pc
    case LinkCas(n, _, _) => [n] + list
    case GetCas(_, _) => if list == [] then [] else list[1..]
    case _ => list
  }

  lemma CalmStep(s: State, t: Tid, th: Thread, w: Shared, list: seq<Node>)
    requires CanAccess(Mk(s, t, th, w), t) && Calm(th.pc, w)
    ensures var m := Mk(s, t, th, w);
            && Apply(m, t, Access(m, t)) == Mk(s, t, CalmThread(th, w), CalmWords(th.pc, w))
            && ListNext(m, t, list) == CalmList(th.pc, list)
  {
    var m := Mk(s, t, th, w);
    assert s.threads[t := th][t := Access(m, t).th] == s.threads[t := Access(m, t).th];
  }

  /** A run of thread t alone that has come to (th, w, list). */
  ghost predicate Got(run: seq<State>, s: State, t: Tid, th: Thread, w: Shared, list: seq<Node>) {
    && Solo(run, t) && Last(run) == Mk(s, t, th, w)
    && exists place :: Inv(Last(run), list, place)
  }

  lemma Calmly(run: seq<State>, s: State, t: Tid, th: Thread, w: Shared, list: seq<Node>) returns (run': seq<State>)
    requires Got(run, s, t, th, w, list) && Calm(th.pc, w)
    ensures Got(run', s, t, CalmThread(th, w), CalmWords(th.pc, w), CalmList(th.pc, list))
    ensures run != [] && run' != [] && run'[0] == run[0]
  {
    hide Inv, Apply, Access, ListNext, CalmThread, CalmWords, CalmList, Enabled, Exec, CanAccess;
    var place :| Inv(Last(run), list, place);
    var place';
    run', place' := Further(run, t, list, place);
    CalmStep(s, t, th, w, list);
  }

  lemma StartAlone(s: State, t: Tid, list: seq<Node>, place: map<Node, Place>, a: Action) returns (run: seq<State>)
    requires Inv(s, list, place) && Enabled(s, t, a) && (a.CallAdd? || a.CallTryGet?)
    ensures run != [] && run[0] == Exec(s, t, a)
    ensures var held := s.threads[t].held;
            var th := if a.CallAdd? then Thread(AddFlag(a.n), held - {a.n}) else Thread(GetLoad, held);
            Got(run, s, t, th, Words(s), list)
  {
    hide Inv, TypeOk;
    CallKeepsInv(s, list, place, t, a);
    run := [Exec(s, t, a)];
  }

  lemma GotChain(run: seq<State>, s: State, t: Tid, th: Thread, w: Shared, list: seq<Node>)
    requires Got(run, s, t, th, w, list)
    ensures run != [] && Solo(run, t) && Last(run) == Mk(s, t, th, w) && Chain(w.head, w.next, list)
  {
    hide Inv, Chain;
    var place :| Inv(Last(run), list, place);
    InvTypes(Last(run), list, place);
  }

  lemma FirstOf(s: State, list: seq<Node>)
    requires Chain(s.head, s.next, list)
    ensures s.head == if list == [] then Null else To(list[0])
  {
  }

  /** A try_get that runs alone takes the first node of the list and leaves the rest, or finds the list empty. */
  lemma LoneGet(s: State, t: Tid) returns (run: seq<State>, list: seq<Node>)
    requires Reachable(s) && Enabled(s, t, CallTryGet)
    ensures run != [] && Solo(run, t) && run[0] == Exec(s, t, CallTryGet) && Chain(s.head, s.next, list)
    ensures list == [] ==> Last(run) == s
    ensures list != [] ==>
              && list[0] in s.refs && s.refs[list[0]] >= 1
              && var s', n := Last(run), list[0];
                 && s' == Mk(s, t, Thread(Idle, s.threads[t].held + {n}), Words(s'))
                 && s'.refs == s.refs[n := s.refs[n] - 1] && s'.next == s.next && Chain(s'.head, s'.next, list[1..])
  {
    hide Inv, Reachable, Chain, TypeOk, Got, Solo;
    var place;
    list, place := ReachableInv(s);
    InvTypes(s, list, place);
    FirstOf(s, list);
    run := StartAlone(s, t, list, place, CallTryGet);
    var th, w := Thread(GetLoad, s.threads[t].held), Words(s);
    run := Calmly(run, s, t, th, w, list);
    if list == [] {
      run := Calmly(run, s, t, th.(pc := GetRefs(Null)), w, list);
      GotChain(run, s, t, th.(pc := Idle), w, list);
      assert s.threads[t := th.(pc := Idle)] == s.threads;
    } else {
      FirstIsCounted(s, list, place);
      run := PopAlone(run, s, t, th.held, w, list);
    }
  }

  lemma PopAlone(run: seq<State>, s: State, t: Tid, held: set<Node>, w: Shared, list: seq<Node>)
      returns (run': seq<State>)
    requires list != [] && w.head == To(list[0]) && list[0] in w.refs && 1 <= w.refs[list[0]] <= REFS_MASK
    requires list[0] in w.next && run != [] && Got(run, s, t, Thread(GetRefs(w.head), held), w, list)
    ensures run' != [] && Solo(run', t) && run'[0] == run[0]
    ensures var n := list[0];
            var w' := Shared(w.next[n], w.refs[n := w.refs[n] - 1], w.next);
            Last(run') == Mk(s, t, Thread(Idle, held + {n}), w') && Chain(w'.head, w'.next, list[1..])
  {
    hide Chain, Got, Solo, Mk;
    var n := list[0];
    run' := Calmly(run, s, t, Thread(GetRefs(w.head), held), w, list);
    run' := Calmly(run', s, t, Thread(GetPin(n, w.refs[n]), held), w, list);
    var w1 := w.(refs := w.refs[n := w.refs[n] + 1]);
    run' := TakeAlone(run', s, t, held, w1, list);
    assert w1.refs[n := w1.refs[n] - 2] == w.refs[n := w.refs[n] - 1];
  }

  lemma TakeAlone(run: seq<State>, s: State, t: Tid, held: set<Node>, w: Shared, list: seq<Node>)
      returns (run': seq<State>)
    requires list != [] && w.head == To(list[0]) && list[0] in w.refs && 2 <= w.refs[list[0]]
    requires list[0] in w.next && run != [] && Got(run, s, t, Thread(GetNext(list[0]), held), w, list)
    ensures run' != [] && Solo(run', t) && run'[0] == run[0]
    ensures var n := list[0];
            var w' := Shared(w.next[n], w.refs[n := w.refs[n] - 2], w.next);
            Last(run') == Mk(s, t, Thread(Idle, held + {n}), w') && Chain(w'.head, w'.next, list[1..])
  {
    hide Chain, Got, Solo, Mk;
    var n := list[0];
    run' := Calmly(run, s, t, Thread(GetNext(n), held), w, list);
    run' := Calmly(run', s, t, Thread(GetCas(n, w.next[n]), held), w, list);
    var w1 := w.(head := w.next[n]);
    run' := Calmly(run', s, t, Thread(GetTake(n), held), w1, list[1..]);
    GotChain(run', s, t, Thread(Idle, held + {n}), w1.(refs := w1.refs[n := w1.refs[n] - 2]), list[1..]);
  }

  /** An add that runs alone puts the node first on the list, unless some thread still has a reference to it. Then it
      only sets the flag, and the last of those threads will link the node. */
  lemma LoneAdd(s: State, t: Tid, n: Node) returns (run: seq<State>, list: seq<Node>)
    requires Reachable(s) && Enabled(s, t, CallAdd(n))
    ensures run != [] && Solo(run, t) && run[0] == Exec(s, t, CallAdd(n)) && Chain(s.head, s.next, list)
    ensures n in s.refs && s.refs[n] <= REFS_MASK
    ensures var s' := Last(run);
            && s' == Mk(s, t, Thread(Idle, s.threads[t].held - {n}), Words(s'))
            && (s.refs[n] == 0 ==>
                  s'.refs == s.refs[n := 1] && s'.next == s.next[n := s.head] && Chain(s'.head, s'.next, [n] + list))
            && (s.refs[n] > 0 ==>
                  && s'.refs == s.refs[n := s.refs[n] + SHOULD_BE_ON_FREELIST] && s'.next == s.next
                  && Chain(s'.head, s'.next, list))
  {
    hide Inv, Reachable, Chain, TypeOk, Got, Solo;
    var place;
    list, place := ReachableInv(s);
    InvTypes(s, list, place);
    HeldIsCounted(s, list, place, t, n);
    run := StartAlone(s, t, list, place, CallAdd(n));
    var th, w := Thread(AddFlag(n), s.threads[t].held - {n}), Words(s);
    run := Calmly(run, s, t, th, w, list);
    var w1 := w.(refs := w.refs[n := w.refs[n] + SHOULD_BE_ON_FREELIST]);
    if s.refs[n] == 0 {
      run := LinkAlone(run, s, t, th.held, w1, n, list);
      assert w1.refs[n := 1] == s.refs[n := 1];
    } else {
      GotChain(run, s, t, th.(pc := Idle), w1, list);
    }
  }

  lemma LinkAlone(run: seq<State>, s: State, t: Tid, held: set<Node>, w: Shared, n: Node, list: seq<Node>)
      returns (run': seq<State>)
    requires run != [] && Got(run, s, t, Thread(LinkLoad(n, ToCaller), held), w, list)
    ensures run' != [] && Solo(run', t) && run'[0] == run[0]
    ensures var w' := Shared(To(n), w.refs[n := 1], w.next[n := w.head]);
            Last(run') == Mk(s, t, Thread(Idle, held), w') && Chain(w'.head, w'.next, [n] + list)
  {
    hide Chain, Got, Solo, Mk;
    run' := Calmly(run, s, t, Thread(LinkLoad(n, ToCaller), held), w, list);
    run' := Calmly(run', s, t, Thread(LinkSetNext(n, w.head, ToCaller), held), w, list);
    var w1 := w.(next := w.next[n := w.head]);
    run' := Calmly(run', s, t, Thread(LinkSetRefs(n, w.head, ToCaller), held), w1, list);
    var w2 := w1.(refs := w1.refs[n := 1]);
    run' := Calmly(run', s, t, Thread(LinkCas(n, w.head, ToCaller), held), w2, list);
    GotChain(run', s, t, Thread(Idle, held), w2.(head := To(n)), [n] + list);
  }

  /** A node that is held is counted by its readers only. */
  lemma HeldIsCounted(s: State, list: seq<Node>, place: map<Node, Place>, t: Tid, n: Node)
    requires Inv(s, list, place) && t in s.threads && n in s.threads[t].held
    ensures n in s.refs && s.refs[n] <= REFS_MASK
  {
    hide Inv, Pinned, Chain;
    NodeFacts(s, list, place);
    PinsBound(s, n);
    assert n in s.refs;
    assert RoleOf(s.threads[t], n) == RoleAt(place[n], t);
    assert WordOk(place[n], s.refs[n], |Pins(s, n)|);
  }

  // ----- every call ends when its thread runs alone

  /** How many accesses a thread still needs at most if nobody else moves. */
  function Rank(pc: Pc, w: Shared): nat {
    match pc
    case Idle => 0
    case AddFlag(n) => 15
    case LinkLoad(n, _) => 14
    case LinkSetNext(n, h, _) => if h == w.head then 13 else 17
    case LinkSetRefs(n, h, _) => if h == w.head then 12 else 16
    case LinkCas(n, h, _) => if h == w.head then 11 else 15
    case LinkUndo(n, h, _) => if h == w.head then 14 else 18
    case GetLoad => 6
    case GetRefs(h) => if h == w.head then 5 else 10
    case GetPin(n, r) =>
      if n !in w.refs || r != w.refs[n] || r >= WORD || Masked(r) == 0 then 7 else if w.head == To(n) then 4 else 9
    case GetNext(n) => if w.head == To(n) then 3 else if LastReader(n, w) then 17 else 8
    case GetCas(n, _) => if w.head == To(n) then 2 else if LastReader(n, w) then 16 else 7
    case GetTake(n) => 1
    case GetUnpin(n, cur) => if LastReader(n, w) then 15 else if cur == w.head then 6 else 11
  }

  /** The node waits for this reference to go and is then linked. */
  predicate LastReader(n: Node, w: Shared) { n in w.refs && w.refs[n] == SHOULD_BE_ON_FREELIST + 1 }

  lemma RankFalls(s: State, t: Tid)
    requires CanAccess(s, t) && (s.head.To? ==> s.head.node in s.refs && 1 <= s.refs[s.head.node] <= REFS_MASK)
    ensures var s' := Apply(s, t, Access(s, t)); Rank(s'.threads[t].pc, Words(s')) < Rank(s.threads[t].pc, Words(s))
  {
    hide Apply, Access, Rank;
    if IsGetting(s.threads[t].pc) { GettingFalls(s, t); } else { LinkingFalls(s, t); }
  }

  lemma GettingFalls(s: State, t: Tid)
    requires CanAccess(s, t) && (s.head.To? ==> s.head.node in s.refs && 1 <= s.refs[s.head.node] <= REFS_MASK)
    requires IsGetting(s.threads[t].pc)
    ensures var s' := Apply(s, t, Access(s, t)); Rank(s'.threads[t].pc, Words(s')) < Rank(s.threads[t].pc, Words(s))
  {
  }

  lemma LinkingFalls(s: State, t: Tid)
    requires CanAccess(s, t) && !IsGetting(s.threads[t].pc)
    ensures var s' := Apply(s, t, Access(s, t)); Rank(s'.threads[t].pc, Words(s')) < Rank(s.threads[t].pc, Words(s))
  {
  }

  lemma HeadIsCounted(s: State, list: seq<Node>, place: map<Node, Place>)
    requires Inv(s, list, place)
    ensures s.head.To? ==> s.head.node in s.refs && 1 <= s.refs[s.head.node] <= REFS_MASK
  {
    hide Inv, Chain;
    InvTypes(s, list, place);
    FirstOf(s, list);
    if list != [] { FirstIsCounted(s, list, place); }
  }

  /** From any state on, wherever the other threads are, a thread that runs alone ends its call. */
  lemma EndsAlone(s: State, t: Tid) returns (run: seq<State>)
    requires Reachable(s) && t in s.threads
    ensures run != [] && Solo(run, t) && run[0] == s && t in Last(run).threads && Last(run).threads[t].pc.Idle?
  {
    hide Reachable, Inv;
    var list, place := ReachableInv(s);
    run := ToTheEnd([s], t, list, place);
  }

  lemma {:induction false} ToTheEnd(run: seq<State>, t: Tid, list: seq<Node>, place: map<Node, Place>)
      returns (run': seq<State>)
    requires run != [] && Solo(run, t) && t in Last(run).threads && Inv(Last(run), list, place)
    ensures run' != [] && Solo(run', t) && run'[0] == run[0]
    ensures t in Last(run').threads && Last(run').threads[t].pc.Idle?
    decreases Rank(Last(run).threads[t].pc, Words(Last(run)))
  {
    hide Inv, Access, Rank, CanAccess, Solo, ListNext;
    run' := run;
    var s := Last(run);
    if !s.threads[t].pc.Idle? {
      var place';
      run', place' := Further(run, t, list, place);
      HeadIsCounted(s, list, place);
      RankFalls(s, t);
      run' := ToTheEnd(run', t, ListNext(s, t, list), place');
    }
  }
}

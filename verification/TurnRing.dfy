/**
 The multi-producer multi-consumer ring of cpp-util/lockfreeQueue.h (mpmc::Ring).

 A push or pop first wins a ticket from `head_` or `tail_`; ticket p belongs to slot p % capacity
 and to turn p / capacity of that slot. A slot's turn word is 2k while the k-th push may construct
 in it and 2k + 1 while the k-th pop may move out of it. One atomic access of one thread per step,
 blocking and try operations in any mixture.
 */
module TurnRing {
  import opened Bits
  import opened Options

  type Tid = nat

  /** The next access of a thread; `p` is the ticket it has won, `h` the index it loaded. */
  datatype Pc<T> =
    | Idle
    | PushWait(v: T, p: nat)
    | PushBuild(v: T, p: nat)
    | PushDone(v: T, p: nat)
    | TryPushLoad(v: T)
    | TryPushTurn(v: T, h: nat)
    | TryPushCas(v: T, h: nat)
    | TryPushReload(v: T, h: nat)
    | PopWait(p: nat)
    | PopMove(p: nat)
    | PopDestroy(v: T, p: nat)
    | PopDone(v: T, p: nat)
    | TryPopLoad
    | TryPopTurn(h: nat)
    | TryPopCas(h: nat)
    | TryPopReload(h: nat)

  /** `log` holds, for every push ticket won, the value it pushes; it is history only. */
  datatype State<T> = State(
    cap: nat, head: nat, tail: nat,
    turns: seq<nat>, storage: seq<Option<T>>,
    threads: map<Tid, Pc<T>>,
    log: seq<T>)

  datatype Action<T> = Continue | Emplace(v: T) | TryEmplace(v: T) | Pop | TryPop

  // ----- tickets

  function Idx(cap: nat, p: nat): (i: nat)
    requires cap > 0
    ensures i < cap
  {
    p % cap
  }

  function Turn(cap: nat, p: nat): nat
    requires cap > 0
  {
    p / cap
  }

  function Ticket(cap: nat, i: nat, k: nat): nat { k * cap + i }

  lemma TicketOf(cap: nat, p: nat)
    requires cap > 0
    ensures Ticket(cap, Idx(cap, p), Turn(cap, p)) == p
  {
  }

  lemma TicketParts(cap: nat, i: nat, k: nat)
    requires i < cap
    ensures Idx(cap, Ticket(cap, i, k)) == i && Turn(cap, Ticket(cap, i, k)) == k
  {
    RemainderUnique(k * cap + i, cap, k, i);
  }

  /** Tickets of one slot are ordered by their turns. */
  lemma TurnOrder(cap: nat, p: nat, q: nat)
    requires cap > 0 && Idx(cap, p) == Idx(cap, q)
    ensures p < q <==> Turn(cap, p) < Turn(cap, q)
    ensures p == q <==> Turn(cap, p) == Turn(cap, q)
  {
    var d := q / cap - p / cap;
    assert q - p == cap * d;
    Signs(cap, d);
  }

  lemma Signs(m: nat, d: int)
    requires m > 0
    ensures (m * d > 0 <==> d > 0) && (m * d == 0 <==> d == 0)
  {
  }

  // ----- steps

  predicate Shaped<T>(s: State<T>) {
    s.cap > 0 && |s.turns| == s.cap && |s.storage| == s.cap
  }

  predicate Enabled<T>(s: State<T>, t: Tid, a: Action<T>) {
    && Shaped(s)
    && t in s.threads
    && match a
       case Continue =>
         && !s.threads[t].Idle?
         && (s.threads[t].PopMove? ==> s.storage[Idx(s.cap, s.threads[t].p)].Some?)
       case _ => s.threads[t].Idle?
  }

  function At<T>(s: State<T>, t: Tid, pc: Pc<T>): State<T> { s.(threads := s.threads[t := pc]) }

  function Exec<T>(s: State<T>, t: Tid, a: Action<T>): State<T>
    requires Enabled(s, t, a)
  {
    match a
    case Emplace(v) => WinPush(s, t, v, PushWait(v, s.head))
    case TryEmplace(v) => At(s, t, TryPushLoad(v))
    case Pop => At(s, t, PopWait(s.tail)).(tail := s.tail + 1)
    case TryPop => At(s, t, TryPopLoad)
    case Continue => Access(s, t)
  }

  /** head_ moves on; the ticket is the caller's. */
  function WinPush<T>(s: State<T>, t: Tid, v: T, pc: Pc<T>): State<T> {
    At(s, t, pc).(head := s.head + 1, log := s.log + [v])
  }

  function TurnAt<T>(s: State<T>, p: nat): nat
    requires Shaped(s)
  {
    s.turns[Idx(s.cap, p)]
  }

  function SetTurn<T>(s: State<T>, p: nat, w: nat): State<T>
    requires Shaped(s)
  {
    s.(turns := s.turns[Idx(s.cap, p) := w])
  }

  function SetStorage<T>(s: State<T>, p: nat, o: Option<T>): State<T>
    requires Shaped(s)
  {
    s.(storage := s.storage[Idx(s.cap, p) := o])
  }

  function Access<T>(s: State<T>, t: Tid): State<T>
    requires Enabled(s, t, Continue)
  {
    match s.threads[t]
    case PushWait(v, p) => if TurnAt(s, p) == 2 * Turn(s.cap, p) then At(s, t, PushBuild(v, p)) else s
    case PushBuild(v, p) => At(SetStorage(s, p, Some(v)), t, PushDone(v, p))
    case PushDone(v, p) => At(SetTurn(s, p, 2 * Turn(s.cap, p) + 1), t, Idle)
    case TryPushLoad(v) => At(s, t, TryPushTurn(v, s.head))
    case TryPushTurn(v, h) =>
      At(s, t, if TurnAt(s, h) == 2 * Turn(s.cap, h) then TryPushCas(v, h) else TryPushReload(v, h))
    case TryPushCas(v, h) =>
      if s.head == h then WinPush(s, t, v, PushBuild(v, h)) else At(s, t, TryPushTurn(v, s.head))
    case TryPushReload(v, h) => At(s, t, if s.head == h then Idle else TryPushTurn(v, s.head))
    case PopWait(p) => if TurnAt(s, p) == 2 * Turn(s.cap, p) + 1 then At(s, t, PopMove(p)) else s
    case PopMove(p) => At(s, t, PopDestroy(s.storage[Idx(s.cap, p)].value, p))
    case PopDestroy(v, p) => At(SetStorage(s, p, None), t, PopDone(v, p))
    case PopDone(v, p) => At(SetTurn(s, p, 2 * Turn(s.cap, p) + 2), t, Idle)
    case TryPopLoad => At(s, t, TryPopTurn(s.tail))
    case TryPopTurn(h) =>
      At(s, t, if TurnAt(s, h) == 2 * Turn(s.cap, h) + 1 then TryPopCas(h) else TryPopReload(h))
    case TryPopCas(h) =>
      if s.tail == h then At(s, t, PopMove(h)).(tail := s.tail + 1) else At(s, t, TryPopTurn(s.tail))
    case TryPopReload(h) => At(s, t, if s.tail == h then Idle else TryPopTurn(s.tail))
  }

  predicate Init<T>(s: State<T>) {
    && Shaped(s)
    && s.head == s.tail == 0 && s.log == []
    && (forall i :: 0 <= i < s.cap ==> s.turns[i] == 0 && s.storage[i] == None)
    && forall t :: t in s.threads ==> s.threads[t].Idle?
  }

  ghost predicate Step<T(!new)>(s: State<T>, s': State<T>) {
    exists t, a :: Enabled(s, t, a) && s' == Exec(s, t, a)
  }

  ghost predicate IsRun<T(!new)>(run: seq<State<T>>) {
    && |run| > 0
    && Init(run[0])
    && forall i :: 0 <= i < |run| - 1 ==> Step(run[i], run[i + 1])
  }

  // ----- the invariant

  predicate Pushing<T>(pc: Pc<T>) { pc.PushWait? || pc.PushBuild? || pc.PushDone? }

  predicate Popping<T>(pc: Pc<T>) { pc.PopWait? || pc.PopMove? || pc.PopDestroy? || pc.PopDone? }

  ghost predicate PcOk<T>(s: State<T>, pc: Pc<T>)
    requires Shaped(s)
  {
    match pc
    case Idle => true
    case PushWait(v, p) => p < |s.log| && s.log[p] == v && TurnAt(s, p) <= 2 * Turn(s.cap, p)
    case PushBuild(v, p) =>
      && p < |s.log| && s.log[p] == v && TurnAt(s, p) == 2 * Turn(s.cap, p) && s.storage[Idx(s.cap, p)] == None
    case PushDone(v, p) =>
      && p < |s.log| && s.log[p] == v && TurnAt(s, p) == 2 * Turn(s.cap, p) && s.storage[Idx(s.cap, p)] == Some(v)
    case TryPushLoad(v) => true
    case TryPushTurn(v, h) => h <= s.head
    case TryPushCas(v, h) => h <= s.head && TurnAt(s, h) >= 2 * Turn(s.cap, h)
    case TryPushReload(v, h) => h <= s.head
    case PopWait(p) => p < s.tail && TurnAt(s, p) <= 2 * Turn(s.cap, p) + 1
    case PopMove(p) =>
      && p < s.tail && p < |s.log| && TurnAt(s, p) == 2 * Turn(s.cap, p) + 1
      && s.storage[Idx(s.cap, p)] == Some(s.log[p])
    case PopDestroy(v, p) =>
      && p < s.tail && p < |s.log| && v == s.log[p] && TurnAt(s, p) == 2 * Turn(s.cap, p) + 1
      && s.storage[Idx(s.cap, p)] == Some(v)
    case PopDone(v, p) =>
      && p < s.tail && p < |s.log| && v == s.log[p] && TurnAt(s, p) == 2 * Turn(s.cap, p) + 1
      && s.storage[Idx(s.cap, p)] == None
    case TryPopLoad => true
    case TryPopTurn(h) => h <= s.tail
    case TryPopCas(h) => h <= s.tail && TurnAt(s, h) >= 2 * Turn(s.cap, h) + 1
    case TryPopReload(h) => h <= s.tail
  }

  ghost predicate Built<T>(s: State<T>, p: nat) {
    exists t :: t in s.threads && s.threads[t].PushDone? && s.threads[t].p == p
  }

  ghost predicate Destroyed<T>(s: State<T>, p: nat) {
    exists t :: t in s.threads && s.threads[t].PopDone? && s.threads[t].p == p
  }

  /** Slot `i` in turn w: the tickets that brought it there were issued, and its storage is occupied
      exactly while a value is waiting, but for the thread that is just building or destroying it. */
  ghost predicate SlotOk<T>(s: State<T>, i: nat)
    requires Shaped(s) && i < s.cap
  {
    var w := s.turns[i];
    var p := Ticket(s.cap, i, w / 2);
    && (w % 2 == 1 ==> p < |s.log| && (s.storage[i] == Some(s.log[p]) || Destroyed(s, p)))
    && (w % 2 == 0 ==> s.storage[i] == None || Built(s, p))
    && (w >= 2 ==> Ticket(s.cap, i, w / 2 - 1) < s.head && Ticket(s.cap, i, w / 2 - 1) < s.tail)
  }

  ghost predicate Distinct<T>(s: State<T>) {
    && (forall t, u :: t in s.threads && u in s.threads && t != u && Pushing(s.threads[t]) && Pushing(s.threads[u])
                       ==> s.threads[t].p != s.threads[u].p)
    && (forall t, u :: t in s.threads && u in s.threads && t != u && Popping(s.threads[t]) && Popping(s.threads[u])
                       ==> s.threads[t].p != s.threads[u].p)
  }

  ghost predicate Inv<T>(s: State<T>) {
    && Shaped(s)
    && |s.log| == s.head
    && (forall i :: 0 <= i < s.cap ==> SlotOk(s, i))
    && (forall t :: t in s.threads ==> PcOk(s, s.threads[t]))
    && Distinct(s)
  }

  // ----- the next ticket of either side finds its slot no further than its own turn

  lemma NextPushTurn<T>(s: State<T>)
    requires Shaped(s) && |s.log| == s.head && SlotOk(s, Idx(s.cap, s.head))
    ensures TurnAt(s, s.head) <= 2 * Turn(s.cap, s.head)
  {
    hide Turn, Idx, Ticket, Built, Destroyed;
    var i, w := Idx(s.cap, s.head), TurnAt(s, s.head);
    if w > 0 {
      var k := if w % 2 == 1 then w / 2 else w / 2 - 1;
      TicketParts(s.cap, i, k);
      TurnOrder(s.cap, Ticket(s.cap, i, k), s.head);
    }
  }

  lemma NextPopTurn<T>(s: State<T>)
    requires Shaped(s) && SlotOk(s, Idx(s.cap, s.tail))
    ensures TurnAt(s, s.tail) <= 2 * Turn(s.cap, s.tail) + 1
  {
    hide Turn, Idx, Ticket, Built, Destroyed;
    var i, w := Idx(s.cap, s.tail), TurnAt(s, s.tail);
    if w >= 2 {
      TicketParts(s.cap, i, w / 2 - 1);
      TurnOrder(s.cap, Ticket(s.cap, i, w / 2 - 1), s.tail);
    }
  }

  // ----- putting a step's parts together

  lemma Assemble<T>(s: State<T>, s': State<T>, t: Tid, pc: Pc<T>)
    requires Distinct(s) && t in s.threads && s'.threads == s.threads[t := pc]
    requires Shaped(s') && |s'.log| == s'.head
    requires forall i :: 0 <= i < s'.cap ==> SlotOk(s', i)
    requires PcOk(s', pc) && forall u :: u in s.threads && u != t ==> PcOk(s', s.threads[u])
    requires forall u :: u in s.threads && u != t && Pushing(pc) && Pushing(s.threads[u]) ==> s.threads[u].p != pc.p
    requires forall u :: u in s.threads && u != t && Popping(pc) && Popping(s.threads[u]) ==> s.threads[u].p != pc.p
    ensures Inv(s')
  {
    hide SlotOk, PcOk, Shaped, Pushing, Popping;
  }

  lemma SameTicket<T>(s: State<T>, t: Tid, pc: Pc<T>)
    requires Distinct(s) && t in s.threads
    requires Pushing(pc) ==> Pushing(s.threads[t]) && s.threads[t].p == pc.p
    requires Popping(pc) ==> Popping(s.threads[t]) && s.threads[t].p == pc.p
    ensures forall u :: u in s.threads && u != t && Pushing(pc) && Pushing(s.threads[u]) ==> s.threads[u].p != pc.p
    ensures forall u :: u in s.threads && u != t && Popping(pc) && Popping(s.threads[u]) ==> s.threads[u].p != pc.p
  {
    hide Pushing, Popping;
  }

  /** A slot whose builders and destroyers are unchanged stays as it was while tickets are only added. */
  lemma SlotFrame<T>(s: State<T>, s': State<T>, i: nat)
    requires Shaped(s) && Shaped(s') && s'.cap == s.cap && i < s.cap && SlotOk(s, i)
    requires s'.turns[i] == s.turns[i] && s'.storage[i] == s.storage[i]
    requires s.head <= s'.head && s.tail <= s'.tail && |s.log| <= |s'.log|
    requires forall x :: 0 <= x < |s.log| ==> s'.log[x] == s.log[x]
    requires var p := Ticket(s.cap, i, s.turns[i] / 2);
             (Built(s, p) ==> Built(s', p)) && (Destroyed(s, p) ==> Destroyed(s', p))
    ensures SlotOk(s', i)
  {
    hide Built, Destroyed, Ticket;
  }

  lemma BuiltFrame<T>(s: State<T>, s': State<T>, t: Tid, pc: Pc<T>, p: nat)
    requires t in s.threads && s'.threads == s.threads[t := pc]
    requires s.threads[t].PushDone? ==> s.threads[t].p != p || (pc.PushDone? && pc.p == s.threads[t].p)
    requires s.threads[t].PopDone? ==> s.threads[t].p != p || (pc.PopDone? && pc.p == s.threads[t].p)
    ensures (Built(s, p) ==> Built(s', p)) && (Destroyed(s, p) ==> Destroyed(s', p))
  {
    if Built(s, p) {
      var u :| u in s.threads && s.threads[u].PushDone? && s.threads[u].p == p;
      assert u in s'.threads && s'.threads[u].PushDone? && s'.threads[u].p == p;
    }
    if Destroyed(s, p) {
      var u :| u in s.threads && s.threads[u].PopDone? && s.threads[u].p == p;
      assert u in s'.threads && s'.threads[u].PopDone? && s'.threads[u].p == p;
    }
  }

  // ----- steps that change no slot: loads, tickets

  lemma PcTickets<T>(s: State<T>, s': State<T>, pc: Pc<T>)
    requires Shaped(s) && PcOk(s, pc)
    requires s' == s.(threads := s'.threads, head := s'.head, tail := s'.tail, log := s'.log)
    requires s.head <= s'.head && s.tail <= s'.tail && |s.log| <= |s'.log|
    requires forall x :: 0 <= x < |s.log| ==> s'.log[x] == s.log[x]
    ensures PcOk(s', pc)
  {
    hide Turn, Idx;
  }

  lemma TicketStep<T>(s: State<T>, s': State<T>, t: Tid, pc: Pc<T>)
    requires Inv(s) && t in s.threads
             && s' == s.(threads := s.threads[t := pc], head := s'.head, tail := s'.tail, log := s'.log)
    requires s.head <= s'.head == |s'.log| && s.tail <= s'.tail
    requires forall x :: 0 <= x < |s.log| ==> s'.log[x] == s.log[x]
    requires !s.threads[t].PushDone? && !s.threads[t].PopDone? && PcOk(s', pc)
    requires forall u :: u in s.threads && u != t && Pushing(pc) && Pushing(s.threads[u]) ==> s.threads[u].p != pc.p
    requires forall u :: u in s.threads && u != t && Popping(pc) && Popping(s.threads[u]) ==> s.threads[u].p != pc.p
    ensures Inv(s')
  {
    hide SlotOk, PcOk, Pushing, Popping, Distinct, Ticket, Built, Destroyed;
    forall u | u in s.threads && u != t ensures PcOk(s', s.threads[u]) { PcTickets(s, s', s.threads[u]); }
    forall i | 0 <= i < s'.cap ensures SlotOk(s', i) {
      BuiltFrame(s, s', t, pc, Ticket(s.cap, i, s.turns[i] / 2));
      SlotFrame(s, s', i);
    }
    Assemble(s, s', t, pc);
  }

  /** A new ticket is nobody's. */
  lemma NewTicket<T>(s: State<T>, u: Tid)
    requires Shaped(s) && |s.log| == s.head && u in s.threads && PcOk(s, s.threads[u])
    ensures Pushing(s.threads[u]) ==> s.threads[u].p < s.head
    ensures Popping(s.threads[u]) ==> s.threads[u].p < s.tail
  {
    hide Turn, Idx;
  }

  // ----- steps that write a slot

  /** Only one thread at a time is past its wait at a slot, so a write there disturbs nobody. */
  lemma PcWrite<T>(s: State<T>, s': State<T>, p: nat, pc: Pc<T>)
    requires Shaped(s) && Shaped(s') && PcOk(s, pc)
    requires s' == s.(threads := s'.threads, turns := s'.turns, storage := s'.storage)
    requires s'.turns == s.turns[Idx(s.cap, p) := s'.turns[Idx(s.cap, p)]]
    requires s'.storage == s.storage[Idx(s.cap, p) := s'.storage[Idx(s.cap, p)]]
    requires var w, w', k := TurnAt(s, p), TurnAt(s', p), Turn(s.cap, p);
             || (w == 2 * k && (w' == w || w' == w + 1) && (Pushing(pc) ==> pc.p != p))
             || (w == 2 * k + 1 && (w' == w || w' == w + 1) && (Popping(pc) ==> pc.p != p))
    ensures PcOk(s', pc)
  {
    hide Turn, Idx;
    if Pushing(pc) || Popping(pc) {
      if Idx(s.cap, pc.p) == Idx(s.cap, p) { TurnOrder(s.cap, p, pc.p); }
    }
  }

  /** The slot after its own thread's write. */
  lemma SlotWritten<T>(s: State<T>, s': State<T>, t: Tid, p: nat)
    requires Shaped(s) && Shaped(s') && SlotOk(s, Idx(s.cap, p)) && t in s.threads && t in s'.threads
    requires s' == s.(threads := s'.threads, turns := s'.turns, storage := s'.storage) && |s.log| == s.head
    requires PcOk(s, s.threads[t])
    requires var i, k := Idx(s.cap, p), Turn(s.cap, p);
      match s.threads[t]
      case PushBuild(v, q) => q == p && s'.turns[i] == s.turns[i] && s'.threads[t] == PushDone(v, p)
      case PushDone(v, q) => q == p && s'.turns[i] == 2 * k + 1 && s'.storage[i] == s.storage[i]
      case PopDestroy(v, q) => q == p && s'.turns[i] == s.turns[i] && s'.threads[t] == PopDone(v, p)
      case PopDone(v, q) => q == p && s'.turns[i] == 2 * k + 2 && s'.storage[i] == s.storage[i]
      case _ => false
    ensures SlotOk(s', Idx(s.cap, p))
  {
    hide Turn, Idx, Ticket;
    TicketOf(s.cap, p);
    assert s'.threads[t].PushDone? && s'.threads[t].p == p ==> Built(s', p);
    assert s'.threads[t].PopDone? && s'.threads[t].p == p ==> Destroyed(s', p);
  }

  predicate Writes<T>(pc: Pc<T>) { pc.PushBuild? || pc.PushDone? || pc.PopDestroy? || pc.PopDone? }

  lemma WriteTurn<T>(s: State<T>, pc: Pc<T>)
    requires Shaped(s) && PcOk(s, pc) && Writes(pc)
    ensures TurnAt(s, pc.p) == 2 * Turn(s.cap, pc.p) + (if Pushing(pc) then 0 else 1)
    ensures Pushing(pc) || Popping(pc)
  {
  }

  lemma WriteStep<T>(s: State<T>, t: Tid, i: nat, p: nat)
    requires Inv(s) && Enabled(s, t, Continue) && Writes(s.threads[t]) && p == s.threads[t].p && i == Idx(s.cap, p)
    ensures var s', pc := Access(s, t), Access(s, t).threads[t];
            && s' == s.(threads := s.threads[t := pc], turns := s'.turns, storage := s'.storage)
            && Shaped(s')
            && s'.turns == s.turns[i := s'.turns[i]]
            && s'.storage == s.storage[i := s'.storage[i]]
            && PcOk(s', pc)
            && (Pushing(pc) ==> Pushing(s.threads[t]) && s.threads[t].p == pc.p)
            && (Popping(pc) ==> Popping(s.threads[t]) && s.threads[t].p == pc.p)
            && (s'.turns[i] == s.turns[i] || s'.turns[i] == s.turns[i] + 1)
  {
    hide Turn, Idx, SlotOk, Distinct;
    assert PcOk(s, s.threads[t]);
  }

  lemma WriteSlot<T>(s: State<T>, t: Tid)
    requires Inv(s) && Enabled(s, t, Continue) && Writes(s.threads[t])
    ensures SlotOk(Access(s, t), Idx(s.cap, s.threads[t].p))
  {
    hide Turn, Idx, SlotOk, Distinct;
    assert PcOk(s, s.threads[t]);
    SlotWritten(s, Access(s, t), t, s.threads[t].p);
  }

  lemma WriteBuilt<T>(s: State<T>, t: Tid, j: nat)
    requires Inv(s) && Enabled(s, t, Continue) && Writes(s.threads[t])
    requires j < s.cap && j != Idx(s.cap, s.threads[t].p)
    ensures SlotOk(Access(s, t), j)
  {
    hide Turn, Idx, SlotOk, Distinct, Ticket, PcOk, Built, Destroyed;
    var p, s' := s.threads[t].p, Access(s, t);
    TicketParts(s.cap, j, s.turns[j] / 2);
    BuiltFrame(s, s', t, s'.threads[t], Ticket(s.cap, j, s.turns[j] / 2));
    SlotFrame(s, s', j);
  }

  lemma WriteKeeps<T>(s: State<T>, t: Tid)
    requires Inv(s) && Enabled(s, t, Continue) && Writes(s.threads[t])
    ensures Inv(Access(s, t))
  {
    hide Turn, Idx, SlotOk, PcOk, Access, Pushing, Popping;
    var s', p := Access(s, t), s.threads[t].p;
    WriteStep(s, t, Idx(s.cap, p), p);
    WriteTurn(s, s.threads[t]);
    var pc := s'.threads[t];
    SameTicket(s, t, pc);
    SameTicket(s, t, s.threads[t]);
    forall u | u in s.threads && u != t ensures PcOk(s', s.threads[u]) { PcWrite(s, s', p, s.threads[u]); }
    forall j | 0 <= j < s'.cap ensures SlotOk(s', j) {
      if j == Idx(s.cap, p) { WriteSlot(s, t); } else { WriteBuilt(s, t, j); }
    }
    Assemble(s, s', t, pc);
  }

  // ----- arriving at a slot

  /** No other thread is past its wait with ticket `p`. */
  lemma NobodyAhead<T>(s: State<T>, t: Tid, p: nat)
    requires Inv(s) && t in s.threads
    requires (s.threads[t].PushWait? && s.threads[t].p == p) || p == s.head
    ensures !Built(s, p)
  {
    hide SlotOk, Turn, Idx;
    forall u | u in s.threads && s.threads[u].PushDone? ensures s.threads[u].p != p { NewTicket(s, u); }
  }

  lemma NobodyGone<T>(s: State<T>, t: Tid, p: nat)
    requires Inv(s) && t in s.threads
    requires (s.threads[t].PopWait? && s.threads[t].p == p) || p == s.tail
    ensures !Destroyed(s, p)
  {
    hide SlotOk, Turn, Idx;
    forall u | u in s.threads && s.threads[u].PopDone? ensures s.threads[u].p != p { NewTicket(s, u); }
  }

  lemma FreeSlot<T>(s: State<T>, p: nat)
    requires Shaped(s) && SlotOk(s, Idx(s.cap, p)) && TurnAt(s, p) == 2 * Turn(s.cap, p) && !Built(s, p)
    ensures s.storage[Idx(s.cap, p)] == None
  {
    hide Turn, Idx, Ticket, Built, Destroyed;
    TicketOf(s.cap, p);
  }

  lemma FullSlot<T>(s: State<T>, p: nat)
    requires Shaped(s) && SlotOk(s, Idx(s.cap, p)) && TurnAt(s, p) == 2 * Turn(s.cap, p) + 1 && !Destroyed(s, p)
    ensures p < |s.log| && s.storage[Idx(s.cap, p)] == Some(s.log[p])
  {
    hide Turn, Idx, Ticket, Built, Destroyed;
    TicketOf(s.cap, p);
  }

  lemma ArriveKeeps<T>(s: State<T>, t: Tid)
    requires Inv(s) && Enabled(s, t, Continue) && (s.threads[t].PushWait? || s.threads[t].PopWait?
             || s.threads[t].PopMove?)
    ensures Inv(Access(s, t))
  {
    hide Turn, Idx, SlotOk, Built, Destroyed, Distinct;
    var s', p := Access(s, t), s.threads[t].p;
    assert PcOk(s, s.threads[t]);
    if s.threads[t].PushWait? && TurnAt(s, p) == 2 * Turn(s.cap, p) {
      NobodyAhead(s, t, p);
      FreeSlot(s, p);
    }
    if s.threads[t].PopWait? && TurnAt(s, p) == 2 * Turn(s.cap, p) + 1 {
      NobodyGone(s, t, p);
      FullSlot(s, p);
    }
    if s' != s {
      SameTicket(s, t, s'.threads[t]);
      TicketStep(s, s', t, s'.threads[t]);
    }
  }

  lemma TryKeeps<T>(s: State<T>, t: Tid)
    requires Inv(s) && Enabled(s, t, Continue)
    requires var pc := s.threads[t];
             || pc.TryPushLoad? || pc.TryPushTurn? || pc.TryPushReload?
             || pc.TryPopLoad? || pc.TryPopTurn? || pc.TryPopReload?
    ensures Inv(Access(s, t))
  {
    hide Turn, Idx, SlotOk, Distinct;
    assert PcOk(s, s.threads[t]);
    TicketStep(s, Access(s, t), t, Access(s, t).threads[t]);
  }

  lemma TryPushCasKeeps<T>(s: State<T>, t: Tid)
    requires Inv(s) && Enabled(s, t, Continue) && s.threads[t].TryPushCas?
    ensures Inv(Access(s, t))
  {
    hide Turn, Idx, SlotOk, Built, Destroyed, Distinct;
    assert PcOk(s, s.threads[t]);
    if s.head == s.threads[t].h {
      NextPushTurn(s);
      NobodyAhead(s, t, s.head);
      FreeSlot(s, s.head);
    }
    forall u | u in s.threads ensures Pushing(s.threads[u]) ==> s.threads[u].p < s.head { NewTicket(s, u); }
    TicketStep(s, Access(s, t), t, Access(s, t).threads[t]);
  }

  lemma TryPopCasKeeps<T>(s: State<T>, t: Tid)
    requires Inv(s) && Enabled(s, t, Continue) && s.threads[t].TryPopCas?
    ensures Inv(Access(s, t))
  {
    hide Turn, Idx, SlotOk, Built, Destroyed, Distinct;
    assert PcOk(s, s.threads[t]);
    if s.tail == s.threads[t].h {
      NextPopTurn(s);
      NobodyGone(s, t, s.tail);
      FullSlot(s, s.tail);
    }
    forall u | u in s.threads ensures Popping(s.threads[u]) ==> s.threads[u].p < s.tail { NewTicket(s, u); }
    TicketStep(s, Access(s, t), t, Access(s, t).threads[t]);
  }

  lemma CallKeeps<T>(s: State<T>, t: Tid, a: Action<T>)
    requires Inv(s) && Enabled(s, t, a) && a != Continue
    ensures Inv(Exec(s, t, a))
  {
    hide Turn, Idx, SlotOk, Distinct;
    NextPushTurn(s);
    NextPopTurn(s);
    forall u | u in s.threads
      ensures Pushing(s.threads[u]) ==> s.threads[u].p < s.head
      ensures Popping(s.threads[u]) ==> s.threads[u].p < s.tail
    {
      NewTicket(s, u);
    }
    TicketStep(s, Exec(s, t, a), t, Exec(s, t, a).threads[t]);
  }

  lemma StepKeepsInv<T>(s: State<T>, t: Tid, a: Action<T>)
    requires Inv(s) && Enabled(s, t, a)
    ensures Inv(Exec(s, t, a))
  {
    hide Inv, Access, Turn, Idx;
    if a != Continue {
      CallKeeps(s, t, a);
    } else if Writes(s.threads[t]) {
      WriteKeeps(s, t);
    } else if s.threads[t].PushWait? || s.threads[t].PopWait? || s.threads[t].PopMove? {
      ArriveKeeps(s, t);
    } else if s.threads[t].TryPushCas? {
      TryPushCasKeeps(s, t);
    } else if s.threads[t].TryPopCas? {
      TryPopCasKeeps(s, t);
    } else {
      TryKeeps(s, t);
    }
  }

  lemma {:induction false} RunInv<T(!new)>(run: seq<State<T>>, i: nat)
    requires IsRun(run) && i < |run|
    ensures Inv(run[i])
  {
    if i > 0 {
      RunInv(run, i - 1);
      assert Step(run[i - 1], run[i - 1 + 1]);
      var t, a :| Enabled(run[i - 1], t, a) && run[i] == Exec(run[i - 1], t, a);
      StepKeepsInv(run[i - 1], t, a);
    } else {
      InitInv(run[0]);
    }
  }

  lemma InitInv<T>(s: State<T>)
    requires Init(s)
    ensures Inv(s)
  {
  }

  // ----- what holds in every run

  /** The pop that holds ticket p returns exactly the value pushed with ticket p. */
  lemma PopReturnsItsPush<T(!new)>(run: seq<State<T>>, i: nat, t: Tid)
    requires IsRun(run) && i < |run| && t in run[i].threads
    requires run[i].threads[t].PopDestroy? || run[i].threads[t].PopDone?
    ensures run[i].threads[t].p < |run[i].log| && run[i].threads[t].v == run[i].log[run[i].threads[t].p]
  {
    hide Turn, Idx, SlotOk, Distinct;
    RunInv(run, i);
    assert PcOk(run[i], run[i].threads[t]);
  }

  predicate Accesses<T>(pc: Pc<T>) {
    pc.PushBuild? || pc.PushDone? || pc.PopMove? || pc.PopDestroy? || pc.PopDone?
  }

  /** From the end of its wait until it publishes the turn, a thread has its slot to itself. */
  lemma ExclusiveAccess<T(!new)>(run: seq<State<T>>, i: nat, t: Tid, u: Tid)
    requires IsRun(run) && i < |run| && t in run[i].threads && u in run[i].threads && run[i].cap > 0
    requires Accesses(run[i].threads[t]) && Accesses(run[i].threads[u])
    requires Idx(run[i].cap, run[i].threads[t].p) == Idx(run[i].cap, run[i].threads[u].p)
    ensures t == u
  {
    hide Turn, Idx, SlotOk;
    RunInv(run, i);
    var s := run[i];
    assert PcOk(s, s.threads[t]) && PcOk(s, s.threads[u]);
    TurnOrder(s.cap, s.threads[t].p, s.threads[u].p);
  }

  /** Every value is constructed into an empty slot and moved out of an occupied one. */
  lemma NoValueLost<T(!new)>(run: seq<State<T>>, i: nat, t: Tid)
    requires IsRun(run) && i < |run| && t in run[i].threads
    ensures Shaped(run[i])
    ensures run[i].threads[t].PushBuild? ==> run[i].storage[Idx(run[i].cap, run[i].threads[t].p)] == None
    ensures run[i].threads[t].PopMove? ==> run[i].storage[Idx(run[i].cap, run[i].threads[t].p)].Some?
  {
    hide Turn, Idx, SlotOk, Distinct;
    RunInv(run, i);
    assert PcOk(run[i], run[i].threads[t]);
  }

  predicate HoldsPush<T>(s: State<T>, p: nat) {
    exists t :: t in s.threads && Pushing(s.threads[t]) && s.threads[t].p == p
  }

  predicate HoldsPop<T>(s: State<T>, p: nat) {
    exists t :: t in s.threads && Popping(s.threads[t]) && s.threads[t].p == p
  }

  /** A step moves at most its own thread, and gives it a ticket only from the front. */
  lemma ExecMonotone<T>(s: State<T>, t: Tid, a: Action<T>, p: nat)
    requires Enabled(s, t, a)
    ensures var s' := Exec(s, t, a);
            && s.head <= s'.head && s.tail <= s'.tail && s'.cap == s.cap && t in s'.threads && t in s.threads
            && (p < s.head && Pushing(s'.threads[t]) && s'.threads[t].p == p ==>
              Pushing(s.threads[t]) && s.threads[t].p == p)
            && (p < s.tail && Popping(s'.threads[t]) && s'.threads[t].p == p ==>
              Popping(s.threads[t]) && s.threads[t].p == p)
  {
    hide Turn, Idx;
  }

  lemma OthersStay<T>(s: State<T>, t: Tid, a: Action<T>, u: Tid)
    requires Enabled(s, t, a) && u in Exec(s, t, a).threads && u != t
    ensures u in s.threads && Exec(s, t, a).threads[u] == s.threads[u]
  {
    hide Turn, Idx;
  }

  lemma StepMonotone<T(!new)>(s: State<T>, s': State<T>, p: nat)
    requires Step(s, s')
    ensures s.head <= s'.head && s.tail <= s'.tail && s'.cap == s.cap
    ensures p < s.head && !HoldsPush(s, p) ==> !HoldsPush(s', p)
    ensures p < s.tail && !HoldsPop(s, p) ==> !HoldsPop(s', p)
  {
    hide Enabled, Exec, Pushing, Popping;
    var t, a :| Enabled(s, t, a) && s' == Exec(s, t, a);
    ExecMonotone(s, t, a, p);
    forall u | u in s'.threads && u != t ensures u in s.threads && s'.threads[u] == s.threads[u] {
      OthersStay(s, t, a, u);
    }
  }

  /** Each ticket is used once: after the thread that won it is done, nobody ever holds it again. */
  lemma {:induction false} TicketUsedOnce<T(!new)>(run: seq<State<T>>, i: nat, j: nat, p: nat)
    requires IsRun(run) && i <= j < |run|
    ensures run[i].head <= run[j].head && run[i].tail <= run[j].tail && run[i].cap == run[j].cap
    ensures p < run[i].head && !HoldsPush(run[i], p) ==> !HoldsPush(run[j], p)
    ensures p < run[i].tail && !HoldsPop(run[i], p) ==> !HoldsPop(run[j], p)
  {
    hide Step, HoldsPush, HoldsPop, Init;
    if i < j {
      TicketUsedOnce(run, i, j - 1, p);
      assert Step(run[j - 1], run[j - 1 + 1]);
      StepMonotone(run[j - 1], run[j], p);
    }
  }

  /** The slot of the next push ticket still belongs to the turn before, that of the next pop ticket is not yet
      filled. */
  predicate PushUnavailable<T>(s: State<T>) {
    Shaped(s) && TurnAt(s, s.head) < 2 * Turn(s.cap, s.head)
  }

  predicate PopUnavailable<T>(s: State<T>) {
    Shaped(s) && TurnAt(s, s.tail) < 2 * Turn(s.cap, s.tail) + 1
  }

  /** A thread about to re-read the index saw, earlier in the same call, a turn that was not its own. */
  lemma {:induction false} SawOtherTurn<T(!new)>(run: seq<State<T>>, i: nat, t: Tid) returns (j: nat)
    requires IsRun(run) && i < |run| && t in run[i].threads
    requires run[i].threads[t].TryPushReload? || run[i].threads[t].TryPopReload?
    ensures j < i && Shaped(run[j]) && t in run[j].threads
    ensures var pc, pc' := run[j].threads[t], run[i].threads[t];
            if pc'.TryPushReload? then pc == TryPushTurn(pc'.v, pc'.h)
              && TurnAt(run[j], pc.h) != 2 * Turn(run[j].cap, pc.h)
            else pc == TryPopTurn(pc'.h) && TurnAt(run[j], pc.h) != 2 * Turn(run[j].cap, pc.h) + 1
    ensures forall m :: j < m <= i ==> t in run[m].threads && run[m].threads[t] == run[i].threads[t]
  {
    hide Turn, Idx, TurnAt, Enabled, Exec, Shaped;
    StartsIdle(run, t);
    assert Step(run[i - 1], run[i - 1 + 1]);
    var u, a :| Enabled(run[i - 1], u, a) && run[i] == Exec(run[i - 1], u, a);
    BeforeReload(run[i - 1], u, a, t);
    if u == t {
      j := i - 1;
    } else {
      j := SawOtherTurn(run, i - 1, t);
    }
  }

  lemma StartsIdle<T(!new)>(run: seq<State<T>>, t: Tid)
    requires IsRun(run)
    ensures t in run[0].threads ==> !run[0].threads[t].TryPushReload? && !run[0].threads[t].TryPopReload?
  {
  }

  lemma BeforeReload<T>(s: State<T>, u: Tid, a: Action<T>, t: Tid)
    requires Enabled(s, u, a) && t in Exec(s, u, a).threads
    requires Exec(s, u, a).threads[t].TryPushReload? || Exec(s, u, a).threads[t].TryPopReload?
    ensures t in s.threads && Shaped(s)
    ensures var pc, pc' := s.threads[t], Exec(s, u, a).threads[t];
            if u != t then pc == pc'
            else if pc'.TryPushReload? then pc == TryPushTurn(pc'.v, pc'.h) && TurnAt(s, pc.h) != 2 * Turn(s.cap, pc.h)
            else pc == TryPopTurn(pc'.h) && TurnAt(s, pc.h) != 2 * Turn(s.cap, pc.h) + 1
  {
    hide Exec, Turn, Idx, TurnAt;
    if u == t { OwnReload(s, t, a); } else { OthersStay(s, u, a, t); }
  }

  lemma OwnReload<T>(s: State<T>, t: Tid, a: Action<T>)
    requires Enabled(s, t, a) && t in Exec(s, t, a).threads
    ensures var pc, pc' := s.threads[t], Exec(s, t, a).threads[t];
            && (pc'.TryPushReload? ==> pc == TryPushTurn(pc'.v, pc'.h) && TurnAt(s, pc.h) != 2 * Turn(s.cap, pc.h))
            && (pc'.TryPopReload? ==> pc == TryPopTurn(pc'.h) && TurnAt(s, pc.h) != 2 * Turn(s.cap, pc.h) + 1)
  {
    hide Turn, Idx, TurnAt;
  }

  /** try_emplace returns false only if at some moment during the call, state j, the slot of the next
      push ticket really was unavailable; try_pop likewise. */
  lemma FailsHonestly<T(!new)>(run: seq<State<T>>, i: nat, t: Tid) returns (j: nat)
    requires IsRun(run) && i < |run| && t in run[i].threads
    requires (run[i].threads[t].TryPushReload? && run[i].head == run[i].threads[t].h)
             || (run[i].threads[t].TryPopReload? && run[i].tail == run[i].threads[t].h)
    ensures j < i && (if run[i].threads[t].TryPushReload? then PushUnavailable(run[j]) else PopUnavailable(run[j]))
    ensures t in run[j].threads
            && if run[i].threads[t].TryPushReload? then run[j].threads[t].TryPushTurn?
               else run[j].threads[t].TryPopTurn?
    ensures forall m :: j < m <= i ==> t in run[m].threads && run[m].threads[t] == run[i].threads[t]
  {
    hide Turn, Idx, SlotOk, Distinct, Step, Init;
    j := SawOtherTurn(run, i, t);
    RunInv(run, j);
    TicketUsedOnce(run, j, i, 0);
    assert PcOk(run[j], run[j].threads[t]);
    NextPushTurn(run[j]);
    NextPopTurn(run[j]);
  }
}

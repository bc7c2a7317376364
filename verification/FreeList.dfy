/**
 The reference-counted lock-free free list of cpp-util/concurrentqueue.h.

 Every thread runs `add` and `try_get` one atomic access at a time, in any interleaving.
 A node's `freeListRefs` word holds a reference count in its low 31 bits and the
 "should be on the free list" flag in its top bit; arithmetic on it wraps at 32 bits.
 */
module FreeList {

  const REFS_MASK: nat := 0x7FFF_FFFF
  const SHOULD_BE_ON_FREELIST: nat := 0x8000_0000
  const WORD: nat := 0x1_0000_0000

  type Node = nat
  type Tid = nat

  datatype Link = Null | To(node: Node)

  /** Where `add_knowing_refcount_is_zero` returns to: out of `add`, or back into the
      loop of `try_get` with the head value its failed exchange reported. */
  datatype Return = ToCaller | ToLoop(cur: Link)

  /** The next atomic access a thread performs. */
  datatype Pc =
    | Idle
    | AddFlag(n: Node)                             // add: fetch_add of the flag
    | LinkLoad(n: Node, ret: Return)               // add_knowing_refcount_is_zero ...
    | LinkSetNext(n: Node, h: Link, ret: Return)
    | LinkSetRefs(n: Node, h: Link, ret: Return)
    | LinkCas(n: Node, h: Link, ret: Return)
    | LinkUndo(n: Node, h: Link, ret: Return)
    | GetLoad                                      // try_get ...
    | GetRefs(h: Link)
    | GetPin(n: Node, r: nat)
    | GetNext(n: Node)
    | GetCas(n: Node, nx: Link)
    | GetTake(n: Node)
    | GetUnpin(n: Node, cur: Link)

  /** `held` are the nodes this thread owns: it may use them, re-add them or hand them on. */
  datatype Thread = Thread(pc: Pc, held: set<Node>)

  datatype State = State(
    head: Link,
    refs: map<Node, nat>,
    next: map<Node, Link>,
    threads: map<Tid, Thread>)

  /** What an idle thread may do; a thread inside an operation only continues. A node can be handed
      to another thread, whatever that one is doing: blocks are released by their consumers. */
  datatype Action = Continue | CallAdd(n: Node) | CallTryGet | HandOver(n: Node, to: Tid)

  // ----- steps

  /** The shared word an access writes, if any. */
  datatype Write = Nothing | Head(l: Link) | Refs(n: Node, word: nat) | Next(m: Node, l: Link)

  datatype Effect = Effect(th: Thread, w: Write)

  function Apply(s: State, t: Tid, e: Effect): State {
    var s' := s.(threads := s.threads[t := e.th]);
    match e.w
    case Nothing => s'
    case Head(l) => s'.(head := l)
    case Refs(n, word) => s'.(refs := s.refs[n := word])
    case Next(n, l) => s'.(next := s.next[n := l])
  }

  function Back(ret: Return): Pc {
    match ret
    case ToCaller => Idle
    case ToLoop(cur) => GetRefs(cur)
  }

  predicate LinkOk(s: State, l: Link) {
    l.To? ==> l.node in s.refs
  }

  predicate ReturnOk(s: State, ret: Return) {
    ret.ToLoop? ==> LinkOk(s, ret.cur)
  }

  /** Every node a program counter mentions exists. */
  predicate PcOk(s: State, pc: Pc) {
    match pc
    case Idle => true
    case AddFlag(n) => n in s.refs
    case LinkLoad(n, ret) => n in s.refs && ReturnOk(s, ret)
    case LinkSetNext(n, h, ret) => n in s.refs && LinkOk(s, h) && ReturnOk(s, ret)
    case LinkSetRefs(n, h, ret) => n in s.refs && LinkOk(s, h) && ReturnOk(s, ret)
    case LinkCas(n, h, ret) => n in s.refs && LinkOk(s, h) && ReturnOk(s, ret)
    case LinkUndo(n, h, ret) => n in s.refs && LinkOk(s, h) && ReturnOk(s, ret)
    case GetLoad => true
    case GetRefs(h) => LinkOk(s, h)
    case GetPin(n, r) => n in s.refs && r < WORD
    case GetNext(n) => n in s.refs
    case GetCas(n, nx) => n in s.refs && LinkOk(s, nx)
    case GetTake(n) => n in s.refs
    case GetUnpin(n, cur) => n in s.refs && LinkOk(s, cur)
  }

  predicate TypeOk(s: State) {
    && s.next.Keys == s.refs.Keys
    && LinkOk(s, s.head)
    && (forall n :: n in s.next ==> LinkOk(s, s.next[n]))
    && (forall n :: n in s.refs ==> s.refs[n] < WORD)
    && (forall t :: t in s.threads ==> PcOk(s, s.threads[t].pc) && s.threads[t].held <= s.refs.Keys)
  }

  predicate Enabled(s: State, t: Tid, a: Action) {
    && t in s.threads
    && TypeOk(s)
    && match a
       case Continue => !s.threads[t].pc.Idle?
       case CallAdd(n) => s.threads[t].pc.Idle? && n in s.threads[t].held
       case CallTryGet => s.threads[t].pc.Idle?
       case HandOver(n, u) => s.threads[t].pc.Idle? && n in s.threads[t].held && u in s.threads && u != t
  }

  function Handed(s: State, t: Tid, u: Tid, n: Node): State
    requires t in s.threads && u in s.threads
  {
    var th, uh := s.threads[t], s.threads[u];
    s.(threads := s.threads[t := th.(held := th.held - {n})][u := uh.(held := uh.held + {n})])
  }

  predicate CanAccess(s: State, t: Tid) {
    t in s.threads && !s.threads[t].pc.Idle? && PcOk(s, s.threads[t].pc) && s.next.Keys == s.refs.Keys
    && forall n :: n in s.refs ==> s.refs[n] < WORD
  }

  /** 32-bit addition and subtraction. */
  function Wrap(x: nat): (w: nat)
    requires x < 2 * WORD
    ensures w == x % WORD
  {
    if x < WORD then x else x - WORD
  }

  /** The count field of a reference word. */
  function Masked(word: nat): (c: nat)
    requires word < WORD
    ensures c == word % (REFS_MASK + 1)
  {
    if word <= REFS_MASK then word else word - REFS_MASK - 1
  }

  /** One atomic access of thread `t`: its next program counter and what it writes. */
  function Access(s: State, t: Tid): Effect
    requires CanAccess(s, t)
  {
    var th := s.threads[t];
    match th.pc
    case AddFlag(n) =>
      Effect(th.(pc := if s.refs[n] == 0 then LinkLoad(n, ToCaller) else Idle),
             Refs(n, Wrap(s.refs[n] + SHOULD_BE_ON_FREELIST)))
    case LinkLoad(n, ret) => Effect(th.(pc := LinkSetNext(n, s.head, ret)), Nothing)
    case LinkSetNext(n, h, ret) => Effect(th.(pc := LinkSetRefs(n, h, ret)), Next(n, h))
    case LinkSetRefs(n, h, ret) => Effect(th.(pc := LinkCas(n, h, ret)), Refs(n, 1))
    case LinkCas(n, h, ret) =>
      if s.head == h then Effect(th.(pc := Back(ret)), Head(To(n)))
      else Effect(th.(pc := LinkUndo(n, s.head, ret)), Nothing)
    case LinkUndo(n, h, ret) =>
      Effect(th.(pc := if s.refs[n] == 1 then LinkSetNext(n, h, ret) else Back(ret)),
             Refs(n, Wrap(s.refs[n] + (SHOULD_BE_ON_FREELIST - 1))))
    case GetLoad => Effect(th.(pc := GetRefs(s.head)), Nothing)
    case GetRefs(h) =>
      Effect(th.(pc := if h == Null then Idle else GetPin(h.node, s.refs[h.node])), Nothing)
    case GetPin(n, r) =>
      if Masked(r) == 0 || s.refs[n] != r then Effect(th.(pc := GetLoad), Nothing)
      else Effect(th.(pc := GetNext(n)), Refs(n, Wrap(r + 1)))
    case GetNext(n) => Effect(th.(pc := GetCas(n, s.next[n])), Nothing)
    case GetCas(n, nx) =>
      if s.head == To(n) then Effect(th.(pc := GetTake(n)), Head(nx))
      else Effect(th.(pc := GetUnpin(n, s.head)), Nothing)
    case GetTake(n) => Effect(Thread(Idle, th.held + {n}), Refs(n, Wrap(s.refs[n] + WORD - 2)))
    case GetUnpin(n, cur) =>
      Effect(th.(pc := if s.refs[n] == SHOULD_BE_ON_FREELIST + 1 then LinkLoad(n, ToLoop(cur)) else GetRefs(cur)),
             Refs(n, Wrap(s.refs[n] + WORD - 1)))
  }

  function Exec(s: State, t: Tid, a: Action): State
    requires Enabled(s, t, a)
  {
    var th := s.threads[t];
    match a
    case Continue => Apply(s, t, Access(s, t))
    case CallAdd(n) => Apply(s, t, Effect(Thread(AddFlag(n), th.held - {n}), Nothing))
    case CallTryGet => Apply(s, t, Effect(th.(pc := GetLoad), Nothing))
    case HandOver(n, u) => Handed(s, t, u, n)
  }

  /** The list starts empty, every count is zero, and each node has exactly one owner. */
  predicate Init(s: State) {
    && TypeOk(s)
    && s.head == Null
    && |s.threads| < REFS_MASK
    && (forall n :: n in s.refs ==> s.refs[n] == 0)
    && (forall t :: t in s.threads ==> s.threads[t].pc == Idle)
    && (forall n :: n in s.refs ==> exists t :: t in s.threads && n in s.threads[t].held)
    && (forall t, u, n :: t in s.threads && u in s.threads && t != u && n in s.threads[t].held ==>
      n !in s.threads[u].held)
  }

  ghost predicate Step(s: State, s': State) {
    exists t, a :: Enabled(s, t, a) && s' == Exec(s, t, a)
  }

  ghost predicate IsRun(run: seq<State>) {
    && |run| > 0
    && Init(run[0])
    && forall i :: 0 <= i < |run| - 1 ==> Step(run[i], run[i + 1])
  }

  // ----- who is responsible for a node

  /** The thread's counted reference taken by `try_get`. */
  predicate Pinned(pc: Pc, n: Node) {
    match pc
    case GetNext(m) => m == n
    case GetCas(m, _) => m == n
    case GetTake(m) => m == n
    case GetUnpin(m, _) => m == n
    case _ => false
  }

  function Pins(s: State, n: Node): set<Tid> {
    set t | t in s.threads && Pinned(s.threads[t].pc, n)
  }

  /** A thread owns a node, is the flagged node's only linker, or acts for the list's own reference. */
  datatype Role = NoRole | Owns | Flagged | Linking

  function RoleOf(th: Thread, n: Node): Role {
    if n in th.held then Owns
    else match th.pc
         case AddFlag(m) => if m == n then Owns else NoRole
         case LinkLoad(m, _) => if m == n then Flagged else NoRole
         case LinkSetNext(m, _, _) => if m == n then Flagged else NoRole
         case LinkSetRefs(m, _, _) => if m == n then Flagged else NoRole
         case LinkCas(m, _, _) => if m == n then Linking else NoRole
         case LinkUndo(m, _, _) => if m == n then Linking else NoRole
         case GetTake(m) => if m == n then Linking else NoRole
         case _ => NoRole
  }

  // ----- the invariant

  /** Where a node is: linked; flagged and left to the last reference to go; or one thread's business. */
  datatype Place = Linked | Pending | With(t: Tid, role: Role)

  function RoleAt(p: Place, t: Tid): Role {
    if p.With? && p.t == t then p.role else NoRole
  }

  /** The exact reference word of a node with `pins` counted references by `try_get`. */
  predicate WordOk(p: Place, word: nat, pins: nat) {
    match p
    case Linked => word == 1 + pins
    case Pending => word == SHOULD_BE_ON_FREELIST + pins && pins > 0
    case With(_, NoRole) => false
    case With(_, Owns) => word == pins
    case With(_, Flagged) => word == SHOULD_BE_ON_FREELIST && pins == 0
    case With(_, Linking) => word == 1 + pins
  }

  function First(list: seq<Node>): Link {
    if list == [] then Null else To(list[0])
  }

  function After(list: seq<Node>, i: nat): Link
    requires i < |list|
  {
    if i + 1 == |list| then Null else To(list[i + 1])
  }

  predicate Chain(head: Link, next: map<Node, Link>, list: seq<Node>) {
    && head == First(list)
    && (forall i, j :: 0 <= i < j < |list| ==> list[i] != list[j])
    && (forall i :: 0 <= i < |list| ==> list[i] in next && next[list[i]] == After(list, i))
  }

  predicate RolesOk(s: State, place: map<Node, Place>) {
    && place.Keys == s.refs.Keys
    && (forall n :: n in place && place[n].With? ==> place[n].t in s.threads)
    && (forall t, n :: t in s.threads && n in place ==> RoleOf(s.threads[t], n) == RoleAt(place[n], t))
    && (forall t, n :: t in s.threads && n in s.threads[t].held ==> RoleOf(Thread(s.threads[t].pc, {}), n) == NoRole)
  }

  predicate WordsOk(s: State, place: map<Node, Place>) {
    && |s.threads| < REFS_MASK
    && (forall n :: n in place && n in s.refs ==> WordOk(place[n], s.refs[n], |Pins(s, n)|))
  }

  /** A linking thread knows the link it stored; a thread about to pop knows the node's current link. */
  predicate LinkKnown(s: State, pc: Pc) {
    match pc
    case LinkSetRefs(n, h, _) => n in s.next && s.next[n] == h
    case LinkCas(n, h, _) => n in s.next && s.next[n] == h
    case GetCas(n, nx) => n in s.next && s.next[n] == nx
    case _ => true
  }

  predicate LinksKnown(s: State) {
    forall t :: t in s.threads ==> LinkKnown(s, s.threads[t].pc)
  }

  predicate Inv(s: State, list: seq<Node>, place: map<Node, Place>) {
    && TypeOk(s)
    && RolesOk(s, place)
    && WordsOk(s, place)
    && LinksKnown(s)
    && Chain(s.head, s.next, list)
    && (forall n :: n in place ==> (n in list <==> place[n] == Linked))
  }

  // ----- counting references

  function One(b: bool): nat { if b then 1 else 0 }

  lemma {:induction false} SubsetSize<T>(a: set<T>, b: set<T>)
    requires a <= b
    ensures |a| <= |b|
  {
    if a != {} {
      var x :| x in a;
      SubsetSize(a - {x}, b - {x});
    }
  }

  /** One thread's step changes a node's reference count by at most that thread's reference. */
  lemma PinsAfter(s: State, s': State, t: Tid, th: Thread, n: Node)
    requires t in s.threads && s'.threads == s.threads[t := th]
    ensures |Pins(s', n)| + One(Pinned(s.threads[t].pc, n)) == |Pins(s, n)| + One(Pinned(th.pc, n))
    ensures |s'.threads| == |s.threads|
    ensures |Pins(s, n)| <= |s.threads|
  {
    var rest := Pins(s, n) - {t};
    assert Pins(s', n) == if Pinned(th.pc, n) then rest + {t} else rest;
    assert Pins(s, n) == if Pinned(s.threads[t].pc, n) then rest + {t} else rest;
    assert s'.threads.Keys == s.threads.Keys;
    SubsetSize(Pins(s, n), s.threads.Keys);
  }

  // ----- the place of every node after an access

  function PlaceNext(s: State, t: Tid, n: Node, p: Place): Place
    requires CanAccess(s, t) && n in s.refs
  {
    match s.threads[t].pc
    case AddFlag(m) => if m != n then p else if s.refs[n] == 0 then With(t, Flagged) else Pending
    case LinkSetRefs(m, _, _) => if m == n then With(t, Linking) else p
    case LinkCas(m, h, _) => if m == n && s.head == h then Linked else p
    case LinkUndo(m, _, _) => if m != n then p else if s.refs[n] == 1 then With(t, Flagged) else Pending
    case GetCas(m, _) => if m == n && s.head == To(n) then With(t, Linking) else p
    case GetTake(m) => if m == n then With(t, Owns) else p
    case GetUnpin(m, _) => if m == n && s.refs[n] == SHOULD_BE_ON_FREELIST + 1 then With(t, Flagged) else p
    case _ => p
  }

  /** The two exchanges of the head push and pop; nothing else changes the list. */
  function ListNext(s: State, t: Tid, list: seq<Node>): seq<Node>
    requires CanAccess(s, t)
  {
    match s.threads[t].pc
    case LinkCas(n, h, _) => if s.head == h then [n] + list else list
    case GetCas(n, _) => if s.head == To(n) && list != [] then list[1..] else list
    case _ => list
  }

  // ----- every access keeps the invariant, part by part

  predicate WriteOk(s: State, w: Write) {
    match w
    case Nothing => true
    case Head(l) => LinkOk(s, l)
    case Refs(n, word) => n in s.refs && word < WORD
    case Next(n, l) => n in s.next && LinkOk(s, l)
  }

  lemma PcOkKept(s: State, s': State, pc: Pc)
    requires PcOk(s, pc) && s'.refs.Keys == s.refs.Keys
    ensures PcOk(s', pc)
  {
  }

  /** The accesses of add, those of its linking loop, and those of try_get. */
  predicate IsLinking(pc: Pc) {
    pc.LinkLoad? || pc.LinkSetNext? || pc.LinkSetRefs? || pc.LinkCas? || pc.LinkUndo?
  }

  predicate IsGetting(pc: Pc) {
    pc.GetLoad? || pc.GetRefs? || pc.GetPin? || pc.GetNext? || pc.GetCas? || pc.GetTake? || pc.GetUnpin?
  }

  lemma AccessOk(s: State, t: Tid)
    requires Enabled(s, t, Continue)
    ensures WriteOk(s, Access(s, t).w) && PcOk(s, Access(s, t).th.pc) && Access(s, t).th.held <= s.refs.Keys
  {
    hide TypeOk, Access, PcOk, WriteOk;
    CanAlways(s, t);
    if IsGetting(s.threads[t].pc) { GetOk(s, t); } else { AddOk(s, t); }
  }

  lemma CanAlways(s: State, t: Tid)
    requires Enabled(s, t, Continue)
    ensures CanAccess(s, t) && s.threads[t].held <= s.refs.Keys && LinkOk(s, s.head)
    ensures forall n :: n in s.next ==> LinkOk(s, s.next[n])
  {
  }

  lemma GetOk(s: State, t: Tid)
    requires CanAccess(s, t) && s.threads[t].held <= s.refs.Keys && LinkOk(s, s.head)
    requires (forall n :: n in s.next ==> LinkOk(s, s.next[n])) && IsGetting(s.threads[t].pc)
    ensures WriteOk(s, Access(s, t).w) && PcOk(s, Access(s, t).th.pc) && Access(s, t).th.held <= s.refs.Keys
  {
  }

  lemma AddOk(s: State, t: Tid)
    requires CanAccess(s, t) && s.threads[t].held <= s.refs.Keys && LinkOk(s, s.head) && !IsGetting(s.threads[t].pc)
    ensures WriteOk(s, Access(s, t).w) && PcOk(s, Access(s, t).th.pc) && Access(s, t).th.held <= s.refs.Keys
  {
  }

  lemma TypesKept(s: State, t: Tid, e: Effect)
    requires TypeOk(s) && t in s.threads && WriteOk(s, e.w) && PcOk(s, e.th.pc) && e.th.held <= s.refs.Keys
    ensures TypeOk(Apply(s, t, e))
  {
    var s' := Apply(s, t, e);
    assert s'.refs.Keys == s.refs.Keys;
    forall u | u in s'.threads ensures PcOk(s', s'.threads[u].pc) {
      PcOkKept(s, s', s'.threads[u].pc);
    }
  }

  /** What the invariant says about one node, seen from one thread. */
  predicate Seen(s: State, t: Tid, n: Node, p: Place, pins: nat) {
    && n in s.refs
    && t in s.threads
    && RoleOf(s.threads[t], n) == RoleAt(p, t)
    && WordOk(p, s.refs[n], pins)
    && pins < REFS_MASK
    && (Pinned(s.threads[t].pc, n) ==> pins > 0)
    && (s.head == To(n) ==> p == Linked)
    && (n in s.threads[t].held ==> RoleOf(Thread(s.threads[t].pc, {}), n) == NoRole)
  }

  lemma PlaceMoves(s: State, t: Tid, n: Node, p: Place, pins: nat)
    requires CanAccess(s, t) && Seen(s, t, n, p, pins)
    ensures RoleOf(Access(s, t).th, n) == RoleAt(PlaceNext(s, t, n, p), t)
    ensures PlaceNext(s, t, n, p) != p ==> PlaceNext(s, t, n, p).With? ==> PlaceNext(s, t, n, p).t == t
    ensures PlaceNext(s, t, n, p) != p ==> p.With? ==> p.t == t
  {
  }

  lemma WordMoves(s: State, t: Tid, n: Node, p: Place, pins: nat, pins': nat)
    requires CanAccess(s, t) && Seen(s, t, n, p, pins)
    requires pins' + One(Pinned(s.threads[t].pc, n)) == pins + One(Pinned(Access(s, t).th.pc, n))
    ensures n in Apply(s, t, Access(s, t)).refs
            && WordOk(PlaceNext(s, t, n, p), Apply(s, t, Access(s, t)).refs[n], pins')
  {
    hide Seen, Access, Apply, WordOk, PlaceNext, Pinned, PcOk;
    var pc := s.threads[t].pc;
    if IsLinking(pc) { LinkWord(s, t, n, p, pins, pins'); }
    else if pc.GetTake? || pc.GetUnpin? { UnpinWord(s, t, n, p, pins, pins'); }
    else { OtherWord(s, t, n, p, pins, pins'); }
  }

  lemma LinkWord(s: State, t: Tid, n: Node, p: Place, pins: nat, pins': nat)
    requires CanAccess(s, t) && Seen(s, t, n, p, pins) && IsLinking(s.threads[t].pc)
    requires pins' + One(Pinned(s.threads[t].pc, n)) == pins + One(Pinned(Access(s, t).th.pc, n))
    ensures n in Apply(s, t, Access(s, t)).refs
            && WordOk(PlaceNext(s, t, n, p), Apply(s, t, Access(s, t)).refs[n], pins')
  {
  }

  lemma UnpinWord(s: State, t: Tid, n: Node, p: Place, pins: nat, pins': nat)
    requires CanAccess(s, t) && Seen(s, t, n, p, pins)
    requires s.threads[t].pc.GetTake? || s.threads[t].pc.GetUnpin?
    requires pins' + One(Pinned(s.threads[t].pc, n)) == pins + One(Pinned(Access(s, t).th.pc, n))
    ensures n in Apply(s, t, Access(s, t)).refs
            && WordOk(PlaceNext(s, t, n, p), Apply(s, t, Access(s, t)).refs[n], pins')
  {
  }

  lemma OtherWord(s: State, t: Tid, n: Node, p: Place, pins: nat, pins': nat)
    requires CanAccess(s, t) && Seen(s, t, n, p, pins) && !IsLinking(s.threads[t].pc)
    requires !s.threads[t].pc.GetTake? && !s.threads[t].pc.GetUnpin?
    requires pins' + One(Pinned(s.threads[t].pc, n)) == pins + One(Pinned(Access(s, t).th.pc, n))
    ensures n in Apply(s, t, Access(s, t)).refs
            && WordOk(PlaceNext(s, t, n, p), Apply(s, t, Access(s, t)).refs[n], pins')
  {
  }

  /** A node's link is written only by its linker, while nobody holds a counted reference. */
  lemma LinkMoves(s: State, t: Tid, u: Tid, n: Node, p: Place, pins: nat)
    requires CanAccess(s, t) && u in s.threads && LinkKnown(s, s.threads[u].pc)
    requires Seen(s, t, n, p, pins) && Seen(s, u, n, p, pins)
    requires match s.threads[u].pc
             case LinkSetRefs(m, _, _) => m == n
             case LinkCas(m, _, _) => m == n
             case GetCas(m, _) => m == n
             case _ => true
    ensures var s' := Apply(s, t, Access(s, t)); LinkKnown(s', s'.threads[u].pc)
  {
    hide Seen, Access, Apply, LinkKnown, PcOk;
    if t == u { OwnLink(s, t, n, p, pins); } else { OtherLink(s, t, u, n, p, pins); }
  }

  lemma OwnLink(s: State, t: Tid, n: Node, p: Place, pins: nat)
    requires CanAccess(s, t) && LinkKnown(s, s.threads[t].pc)
    ensures var s' := Apply(s, t, Access(s, t)); LinkKnown(s', s'.threads[t].pc)
  {
  }

  lemma OtherLink(s: State, t: Tid, u: Tid, n: Node, p: Place, pins: nat)
    requires CanAccess(s, t) && u in s.threads && t != u && LinkKnown(s, s.threads[u].pc)
    requires Seen(s, t, n, p, pins) && Seen(s, u, n, p, pins)
    requires match s.threads[u].pc
             case LinkSetRefs(m, _, _) => m == n
             case LinkCas(m, _, _) => m == n
             case GetCas(m, _) => m == n
             case _ => true
    ensures var s' := Apply(s, t, Access(s, t)); LinkKnown(s', s'.threads[u].pc)
  {
  }

  lemma PinsBound(s: State, n: Node)
    ensures |Pins(s, n)| <= |s.threads|
  {
    SubsetSize(Pins(s, n), s.threads.Keys);
  }

  /** The parts of the invariant about nodes. */
  lemma NodeFacts(s: State, list: seq<Node>, place: map<Node, Place>)
    requires Inv(s, list, place)
    ensures RolesOk(s, place) && WordsOk(s, place) && Chain(s.head, s.next, list) && TypeOk(s)
    ensures place.Keys == s.refs.Keys && forall n :: n in place ==> (n in list <==> place[n] == Linked)
  {
    hide TypeOk, WordsOk, LinksKnown, Chain, RoleOf, RoleAt;
  }

  lemma SeenAlways(s: State, list: seq<Node>, place: map<Node, Place>, t: Tid, n: Node)
    requires Inv(s, list, place) && t in s.threads && n in place
    ensures Seen(s, t, n, place[n], |Pins(s, n)|)
  {
    hide Inv, TypeOk, WordOk, RoleOf, RoleAt, Pinned;
    NodeFacts(s, list, place);
    PinsBound(s, n);
    assert WordOk(place[n], s.refs[n], |Pins(s, n)|);
    if Pinned(s.threads[t].pc, n) { assert t in Pins(s, n); }
    if s.head == To(n) { assert list[0] == n; }
  }

  lemma LinksKept(s: State, list: seq<Node>, place: map<Node, Place>, t: Tid)
    requires Inv(s, list, place) && CanAccess(s, t)
    ensures LinksKnown(Apply(s, t, Access(s, t)))
  {
    hide Inv, Apply, Access, Seen, Pins, LinkKnown, RolesOk, WordsOk, Chain;
    NodeFacts(s, list, place);
    ThreadFacts(s, list, place);
    ApplyThreads(s, t, Access(s, t));
    var s' := Apply(s, t, Access(s, t));
    forall u | u in s'.threads
      ensures LinkKnown(s', s'.threads[u].pc)
    {
      var pc := s.threads[u].pc;
      if pc.LinkSetRefs? || pc.LinkCas? || pc.GetCas? {
        SeenAlways(s, list, place, t, pc.n);
        SeenAlways(s, list, place, u, pc.n);
        LinkMoves(s, t, u, pc.n, place[pc.n], |Pins(s, pc.n)|);
      } else if n :| n in s.refs {
        SeenAlways(s, list, place, t, n);
        SeenAlways(s, list, place, u, n);
        LinkMoves(s, t, u, n, place[n], |Pins(s, n)|);
      } else {
        NoNodes(s, t, u);
      }
    }
  }

  lemma ThreadFacts(s: State, list: seq<Node>, place: map<Node, Place>)
    requires Inv(s, list, place)
    ensures forall t :: t in s.threads ==> LinkKnown(s, s.threads[t].pc) && PcOk(s, s.threads[t].pc)
  {
    hide RolesOk, WordsOk, Chain, LinkKnown, PcOk;
  }

  lemma NoNodes(s: State, t: Tid, u: Tid)
    requires CanAccess(s, t) && u in s.threads && PcOk(s, s.threads[u].pc) && forall n :: n !in s.refs
    ensures var s' := Apply(s, t, Access(s, t)); u in s'.threads && LinkKnown(s', s'.threads[u].pc)
  {
  }

  lemma ChainPush(head: Link, next: map<Node, Link>, list: seq<Node>, n: Node)
    requires Chain(head, next, list) && n !in list && n in next && next[n] == head
    ensures Chain(To(n), next, [n] + list)
  {
    var list' := [n] + list;
    forall i | 0 <= i < |list'|
      ensures list'[i] in next && next[list'[i]] == After(list', i)
    {
      if i > 0 { assert list'[i] == list[i - 1]; }
    }
  }

  lemma ChainPop(head: Link, next: map<Node, Link>, list: seq<Node>)
    requires Chain(head, next, list) && head.To?
    ensures forall i, j :: 0 <= i < j < |list| ==> list[i] != list[j]
    ensures head.node in next && |list| > 0 && list[0] == head.node && Chain(next[head.node], next, list[1..])
  {
    var list' := list[1..];
    assert next[list[0]] == After(list, 0) == First(list');
    forall i | 0 <= i < |list'|
      ensures list'[i] in next && next[list'[i]] == After(list', i)
    {
      assert list'[i] == list[i + 1];
    }
  }

  lemma ChainFrame(head: Link, next: map<Node, Link>, list: seq<Node>, n: Node, l: Link)
    requires Chain(head, next, list) && n !in list
    ensures Chain(head, next[n := l], list)
  {
  }

  lemma HeadMoves(s: State, t: Tid)
    requires CanAccess(s, t)
    ensures var s', pc := Apply(s, t, Access(s, t)), s.threads[t].pc;
            if pc.LinkCas? && s.head == pc.h then s'.head == To(pc.n) && s'.next == s.next
            else if pc.GetCas? && s.head == To(pc.n) then s'.head == pc.nx && s'.next == s.next
            else if pc.LinkSetNext? then s'.head == s.head && s'.next == s.next[pc.n := pc.h]
            else s'.head == s.head && s'.next == s.next
  {
  }

  lemma LinkerIsUnlinked(s: State, t: Tid, p: Place, pins: nat)
    requires CanAccess(s, t) && (s.threads[t].pc.LinkCas? || s.threads[t].pc.LinkSetNext?)
    requires Seen(s, t, s.threads[t].pc.n, p, pins)
    ensures p != Linked
  {
  }

  lemma ChainKept(s: State, list: seq<Node>, place: map<Node, Place>, t: Tid)
    requires Inv(s, list, place) && CanAccess(s, t)
    ensures var s' := Apply(s, t, Access(s, t)); Chain(s'.head, s'.next, ListNext(s, t, list))
  {
    assert place.Keys == s.refs.Keys;
    hide Apply, Access, Seen, RolesOk, WordsOk, Chain;
    var pc := s.threads[t].pc;
    HeadMoves(s, t);
    assert LinkKnown(s, pc);
    if pc.LinkCas? || pc.LinkSetNext? {
      SeenAlways(s, list, place, t, pc.n);
      LinkerIsUnlinked(s, t, place[pc.n], |Pins(s, pc.n)|);
      if pc.LinkCas? && s.head == pc.h {
        ChainPush(s.head, s.next, list, pc.n);
      } else if pc.LinkSetNext? {
        ChainFrame(s.head, s.next, list, pc.n, pc.h);
      }
    } else if pc.GetCas? && s.head == To(pc.n) {
      ChainPop(s.head, s.next, list);
    }
  }

  // ----- every step of every thread

  function PlaceAfter(s: State, place: map<Node, Place>, t: Tid): map<Node, Place>
    requires CanAccess(s, t) && place.Keys == s.refs.Keys
  {
    map n | n in place :: PlaceNext(s, t, n, place[n])
  }

  lemma ApplyThreads(s: State, t: Tid, e: Effect)
    requires t in s.threads
    ensures Apply(s, t, e).threads == s.threads[t := e.th] && Apply(s, t, e).threads.Keys == s.threads.Keys
    ensures |Apply(s, t, e).threads| == |s.threads|
    ensures WriteOk(s, e.w) ==> Apply(s, t, e).refs.Keys == s.refs.Keys
  {
    assert Apply(s, t, e).threads.Keys == s.threads.Keys;
  }

  lemma RolesKept(s: State, list: seq<Node>, place: map<Node, Place>, t: Tid)
    requires Inv(s, list, place) && CanAccess(s, t)
    ensures RolesOk(Apply(s, t, Access(s, t)), PlaceAfter(s, place, t))
  {
    hide Inv, Apply, Access, PlaceNext, PcOk, RoleOf, RoleAt, WordsOk, Chain, TypeOk;
    NodeFacts(s, list, place);
    var e, place' := Access(s, t), PlaceAfter(s, place, t);
    var s' := Apply(s, t, e);
    AccessOk(s, t);
    ApplyThreads(s, t, e);
    forall u, n | u in s'.threads && n in place'
      ensures RoleOf(s'.threads[u], n) == RoleAt(place'[n], u)
    {
      RoleKept(s, list, place, t, u, n);
    }
    forall n | n in place' && place'[n].With?
      ensures place'[n].t in s'.threads
    {
      RoleKept(s, list, place, t, t, n);
    }
    forall n | n in e.th.held
      ensures RoleOf(Thread(e.th.pc, {}), n) == NoRole
    {
      StillNoRole(s, list, place, t, n);
    }
  }

  lemma RoleKept(s: State, list: seq<Node>, place: map<Node, Place>, t: Tid, u: Tid, n: Node)
    requires Inv(s, list, place) && CanAccess(s, t) && u in s.threads && n in place && n in s.refs
    ensures RoleOf(if u == t then Access(s, t).th else s.threads[u], n) == RoleAt(PlaceNext(s, t, n, place[n]), u)
    ensures PlaceNext(s, t, n, place[n]).With? ==> PlaceNext(s, t, n, place[n]).t in s.threads
  {
    hide Inv, Access, PlaceNext, Seen, RoleOf, WordsOk, Chain, TypeOk;
    NodeFacts(s, list, place);
    SeenAlways(s, list, place, t, n);
    PlaceMoves(s, t, n, place[n], |Pins(s, n)|);
    assert RoleOf(s.threads[u], n) == RoleAt(place[n], u);
  }

  lemma StillNoRole(s: State, list: seq<Node>, place: map<Node, Place>, t: Tid, n: Node)
    requires Inv(s, list, place) && CanAccess(s, t) && n in place && n in Access(s, t).th.held
    ensures RoleOf(Thread(Access(s, t).th.pc, {}), n) == NoRole
  {
    hide Inv, Access, Seen, RoleOf;
    SeenAlways(s, list, place, t, n);
    HeldMoves(s, t, n, place[n], |Pins(s, n)|);
  }

  lemma HeldMoves(s: State, t: Tid, n: Node, p: Place, pins: nat)
    requires CanAccess(s, t) && Seen(s, t, n, p, pins) && n in Access(s, t).th.held
    ensures RoleOf(Thread(Access(s, t).th.pc, {}), n) == NoRole
  {
  }

  lemma WordsKept(s: State, list: seq<Node>, place: map<Node, Place>, t: Tid)
    requires Inv(s, list, place) && CanAccess(s, t)
    ensures WordsOk(Apply(s, t, Access(s, t)), PlaceAfter(s, place, t))
  {
    hide Apply, Access, PlaceNext, Seen, WordOk, PcOk, RoleOf, LinksKnown, Chain;
    var s', place' := Apply(s, t, Access(s, t)), PlaceAfter(s, place, t);
    ApplyThreads(s, t, Access(s, t));
    forall n | n in place' && n in s'.refs
      ensures WordOk(place'[n], s'.refs[n], |Pins(s', n)|)
    {
      SeenAlways(s, list, place, t, n);
      PinsAfter(s, s', t, s'.threads[t], n);
      WordMoves(s, t, n, place[n], |Pins(s, n)|, |Pins(s', n)|);
    }
  }

  lemma MembersKept(s: State, list: seq<Node>, place: map<Node, Place>, t: Tid, n: Node)
    requires Inv(s, list, place) && CanAccess(s, t) && n in place
    ensures n in ListNext(s, t, list) <==> PlaceNext(s, t, n, place[n]) == Linked
  {
    hide RolesOk, WordsOk, Chain, LinksKnown;
    var pc := s.threads[t].pc;
    SeenAlways(s, list, place, t, n);
    if pc.GetCas? && s.head == To(pc.n) {
      ChainPop(s.head, s.next, list);
      PopMembers(list, n);
    }
  }

  lemma PopMembers(list: seq<Node>, n: Node)
    requires |list| > 0 && forall i, j :: 0 <= i < j < |list| ==> list[i] != list[j]
    ensures n in list[1..] <==> n in list && n != list[0]
  {
    assert list == [list[0]] + list[1..];
  }

  lemma AccessKeepsInv(s: State, list: seq<Node>, place: map<Node, Place>, t: Tid)
    requires Inv(s, list, place) && Enabled(s, t, Continue)
    ensures Inv(Exec(s, t, Continue), ListNext(s, t, list), PlaceAfter(s, place, t))
  {
    AccessOk(s, t);
    TypesKept(s, t, Access(s, t));
    RolesKept(s, list, place, t);
    WordsKept(s, list, place, t);
    LinksKept(s, list, place, t);
    ChainKept(s, list, place, t);
    forall n | n in place
      ensures n in ListNext(s, t, list) <==> PlaceNext(s, t, n, place[n]) == Linked
    {
      MembersKept(s, list, place, t, n);
    }
  }

  /** A thread that keeps its roles and references and writes nothing keeps the invariant. */
  lemma QuietKeepsInv(s: State, list: seq<Node>, place: map<Node, Place>, t: Tid, th: Thread)
    requires Inv(s, list, place) && t in s.threads
    requires PcOk(s, th.pc) && th.held <= s.refs.Keys && LinkKnown(s, th.pc)
    requires forall n :: RoleOf(th, n) == RoleOf(s.threads[t], n)
    requires forall n :: Pinned(th.pc, n) == Pinned(s.threads[t].pc, n)
    requires forall n :: n in th.held ==> RoleOf(Thread(th.pc, {}), n) == NoRole
    ensures Inv(Apply(s, t, Effect(th, Nothing)), list, place)
  {
    hide RoleOf, Pinned, WordOk, TypeOk, PcOk, LinkKnown, Chain;
    var s' := Apply(s, t, Effect(th, Nothing));
    TypesKept(s, t, Effect(th, Nothing));
    assert s'.threads == s.threads[t := th] && s'.refs == s.refs && s'.next == s.next && s'.head == s.head;
    assert WordsOk(s', place) by {
      hide RolesOk;
      QuietWords(s, s', place, t, th);
    }
    assert RolesOk(s', place) by {
      hide WordsOk;
      QuietRoles(s, s', place, t, th);
    }
    assert LinksKnown(s') by {
      hide RolesOk, WordsOk;
      forall u | u in s'.threads ensures LinkKnown(s', s'.threads[u].pc) {
        LinkKnownFrame(s, s', s'.threads[u].pc);
      }
    }
  }

  lemma QuietRoles(s: State, s': State, place: map<Node, Place>, t: Tid, th: Thread)
    requires RolesOk(s, place) && t in s.threads && s'.threads == s.threads[t := th] && s'.refs == s.refs
    requires forall n :: RoleOf(th, n) == RoleOf(s.threads[t], n)
    requires forall n :: n in th.held ==> RoleOf(Thread(th.pc, {}), n) == NoRole
    ensures RolesOk(s', place)
  {
    hide RoleOf;
    assert s'.threads.Keys == s.threads.Keys;
  }

  lemma QuietWords(s: State, s': State, place: map<Node, Place>, t: Tid, th: Thread)
    requires WordsOk(s, place) && t in s.threads && s'.threads == s.threads[t := th] && s'.refs == s.refs
    requires forall n :: Pinned(th.pc, n) == Pinned(s.threads[t].pc, n)
    ensures WordsOk(s', place)
  {
    hide WordOk, Pinned;
    assert s'.threads.Keys == s.threads.Keys;
    forall n | n in place && n in s'.refs
      ensures WordOk(place[n], s'.refs[n], |Pins(s', n)|)
    {
      PinsAfter(s, s', t, th, n);
      assert WordOk(place[n], s.refs[n], |Pins(s, n)|);
    }
    assert |s'.threads.Keys| == |s.threads.Keys|;
  }

  lemma LinkKnownFrame(s: State, s': State, pc: Pc)
    requires LinkKnown(s, pc) && s'.next == s.next
    ensures LinkKnown(s', pc)
  {
  }

  lemma CallKeepsInv(s: State, list: seq<Node>, place: map<Node, Place>, t: Tid, a: Action)
    requires Inv(s, list, place) && Enabled(s, t, a) && (a.CallAdd? || a.CallTryGet?)
    ensures Inv(Exec(s, t, a), list, place)
  {
    hide Inv;
    var th := if a.CallAdd? then Thread(AddFlag(a.n), s.threads[t].held - {a.n}) else s.threads[t].(pc := GetLoad);
    QuietKeepsInv(s, list, place, t, th);
  }

  lemma HandedThreads(s: State, t: Tid, u: Tid, n: Node, v: Tid)
    requires t in s.threads && u in s.threads && t != u
    ensures var s' := Handed(s, t, u, n);
      s'.threads.Keys == s.threads.Keys && s'.refs == s.refs && s'.next == s.next && s'.head == s.head
    ensures v in s.threads ==> Handed(s, t, u, n).threads[v].pc == s.threads[v].pc
    ensures v in s.threads ==>
      Handed(s, t, u, n).threads[v].held == if v == t then s.threads[v].held - {n}
      else if v == u then s.threads[v].held + {n} else s.threads[v].held
  {
  }

  lemma HandedRole(s: State, t: Tid, u: Tid, n: Node, v: Tid, m: Node)
    requires t in s.threads && u in s.threads && t != u && v in s.threads && s.threads[t].pc.Idle?
    requires m in s.threads[v].held ==> RoleOf(Thread(s.threads[v].pc, {}), m) == NoRole
    requires RoleOf(s.threads[u], n) == NoRole
    ensures var th := Handed(s, t, u, n).threads[v];
      && RoleOf(th, m) == (if m != n || (v != t && v != u) then RoleOf(s.threads[v], m) else if v == u then Owns
         else NoRole)
      && (m in th.held ==> RoleOf(Thread(th.pc, {}), m) == NoRole)
  {
    HandedThreads(s, t, u, n, v);
  }

  lemma HandedRoles(s: State, place: map<Node, Place>, t: Tid, u: Tid, n: Node)
    requires RolesOk(s, place) && t in s.threads && u in s.threads && t != u && n in place
    requires s.threads[t].pc.Idle? && RoleOf(s.threads[t], n) == Owns
    ensures place[n] == With(t, Owns) && RolesOk(Handed(s, t, u, n), place[n := With(u, Owns)])
  {
    hide RoleOf, Handed;
    var s', place' := Handed(s, t, u, n), place[n := With(u, Owns)];
    assert RoleOf(s.threads[t], n) == RoleAt(place[n], t);
    assert RoleOf(s.threads[u], n) == RoleAt(place[n], u) == NoRole;
    HandedThreads(s, t, u, n, t);
    forall v, m | v in s'.threads && m in place'
      ensures RoleOf(s'.threads[v], m) == RoleAt(place'[m], v)
    {
      HandedRole(s, t, u, n, v, m);
      assert RoleOf(s.threads[v], m) == RoleAt(place[m], v);
    }
    forall v, m | v in s'.threads && m in s'.threads[v].held ensures RoleOf(Thread(s'.threads[v].pc, {}), m) == NoRole {
      HandedRole(s, t, u, n, v, m);
    }
  }

  lemma HandedWords(s: State, place: map<Node, Place>, t: Tid, u: Tid, n: Node)
    requires WordsOk(s, place) && t in s.threads && u in s.threads && t != u && n in place && place[n] == With(t, Owns)
    ensures WordsOk(Handed(s, t, u, n), place[n := With(u, Owns)])
  {
    hide Pinned;
    var s' := Handed(s, t, u, n);
    HandedThreads(s, t, u, n, t);
    assert |s'.threads.Keys| == |s.threads.Keys|;
    forall m | m in place && m in s'.refs
      ensures WordOk(place[n := With(u, Owns)][m], s'.refs[m], |Pins(s', m)|)
    {
      assert Pins(s', m) == Pins(s, m);
      assert WordOk(place[m], s.refs[m], |Pins(s, m)|);
    }
  }

  lemma HandedTypes(s: State, t: Tid, u: Tid, n: Node)
    requires TypeOk(s) && LinksKnown(s) && t in s.threads && u in s.threads && t != u && n in s.refs
    ensures TypeOk(Handed(s, t, u, n)) && LinksKnown(Handed(s, t, u, n))
  {
    hide PcOk, LinkKnown;
    var s' := Handed(s, t, u, n);
    forall v | v in s'.threads
      ensures PcOk(s', s'.threads[v].pc) && s'.threads[v].held <= s'.refs.Keys && LinkKnown(s', s'.threads[v].pc)
    {
      HandedThreads(s, t, u, n, v);
      PcOkKept(s, s', s.threads[v].pc);
      LinkKnownFrame(s, s', s.threads[v].pc);
    }
    assert s'.next == s.next;
  }

  lemma HeldExist(s: State, t: Tid, n: Node)
    requires TypeOk(s) && t in s.threads && n in s.threads[t].held
    ensures n in s.refs
  {
    hide PcOk, LinkOk;
  }

  /** A node handed to another thread is that thread's alone. */
  lemma HandOverKeepsInv(s: State, list: seq<Node>, place: map<Node, Place>, t: Tid, u: Tid, n: Node)
    requires Inv(s, list, place) && Enabled(s, t, HandOver(n, u))
    ensures Inv(Exec(s, t, HandOver(n, u)), list, place[n := With(u, Owns)])
  {
    hide TypeOk, RolesOk, WordsOk, LinksKnown, Chain, Handed;
    NodeFacts(s, list, place);
    HeldExist(s, t, n);
    assert RoleOf(s.threads[t], n) == Owns;
    HandedRoles(s, place, t, u, n);
    HandedWords(s, place, t, u, n);
    HandedTypes(s, t, u, n);
    HandedThreads(s, t, u, n, t);
  }

  lemma StepKeepsInv(s: State, list: seq<Node>, place: map<Node, Place>, t: Tid, a: Action)
    requires Inv(s, list, place) && Enabled(s, t, a)
    ensures exists list', place' :: Inv(Exec(s, t, a), list', place')
  {
    hide *;
    match a
    case Continue => AccessKeepsInv(s, list, place, t);
    case CallAdd(n) => CallKeepsInv(s, list, place, t, a);
    case CallTryGet => CallKeepsInv(s, list, place, t, a);
    case HandOver(n, u) => HandOverKeepsInv(s, list, place, t, u, n);
  }

  function Owner(s: State, n: Node): Tid
    requires exists t :: t in s.threads && n in s.threads[t].held
    requires forall t, u :: t in s.threads && u in s.threads && n in s.threads[t].held && n in s.threads[u].held ==>
               t == u
  {
    var t :| t in s.threads && n in s.threads[t].held;
    t
  }

  lemma InitRoles(s: State, place: map<Node, Place>)
    requires Init(s) && place.Keys == s.refs.Keys
    requires forall n :: n in place ==>
               place[n].With? && place[n].role == Owns && place[n].t in s.threads && n in s.threads[place[n].t].held
    ensures RolesOk(s, place)
  {
    hide TypeOk;
    forall t, n | t in s.threads && n in place
      ensures RoleOf(s.threads[t], n) == RoleAt(place[n], t)
    {
      assert s.threads[t].pc == Idle;
    }
  }

  lemma InitWords(s: State, place: map<Node, Place>)
    requires Init(s) && place.Keys == s.refs.Keys && forall n :: n in place ==> place[n].With? && place[n].role == Owns
    ensures WordsOk(s, place) && LinksKnown(s)
  {
    hide TypeOk;
    forall n | n in place ensures Pins(s, n) == {} {}
  }

  lemma OwnerIs(s: State, n: Node) returns (t: Tid)
    requires Init(s) && n in s.refs
    ensures t in s.threads && n in s.threads[t].held
  {
    hide TypeOk;
    t :| t in s.threads && n in s.threads[t].held;
  }

  lemma InitInv(s: State)
    requires Init(s)
    ensures exists list, place :: Inv(s, list, place)
  {
    hide Init, TypeOk, RolesOk, WordsOk, LinksKnown, Chain;
    var place := InitPlaces(s);
    InitRoles(s, place);
    InitWords(s, place);
    InitChain(s);
    assert Inv(s, [], place);
  }

  lemma InitChain(s: State)
    requires Init(s)
    ensures TypeOk(s) && Chain(s.head, s.next, [])
  {
    hide TypeOk;
  }

  lemma InitPlaces(s: State) returns (place: map<Node, Place>)
    requires Init(s)
    ensures place.Keys == s.refs.Keys
    ensures forall n :: n in place ==>
              place[n].With? && place[n].role == Owns && place[n].t in s.threads && n in s.threads[place[n].t].held
  {
    hide TypeOk;
    forall n | n in s.refs ensures exists t :: t in s.threads && n in s.threads[t].held { var t := OwnerIs(s, n); }
    place := map n | n in s.refs :: With(Owner(s, n), Owns);
  }

  // ----- what holds in every reachable state

  ghost predicate Reachable(s: State) {
    exists run :: IsRun(run) && run[|run| - 1] == s
  }

  lemma {:induction false} RunInv(run: seq<State>, i: nat)
    requires IsRun(run) && i < |run|
    ensures exists list, place :: Inv(run[i], list, place)
  {
    hide Inv, Init, Enabled;
    if i == 0 {
      InitInv(run[0]);
    } else {
      RunInv(run, i - 1);
      var list, place :| Inv(run[i - 1], list, place);
      assert Step(run[i - 1], run[i - 1 + 1]);
      var t, a :| Enabled(run[i - 1], t, a) && run[i] == Exec(run[i - 1], t, a);
      StepKeepsInv(run[i - 1], list, place, t, a);
    }
  }

  lemma ReachableInv(s: State) returns (list: seq<Node>, place: map<Node, Place>)
    requires Reachable(s)
    ensures Inv(s, list, place)
  {
    var run :| IsRun(run) && run[|run| - 1] == s;
    RunInv(run, |run| - 1);
    list, place :| Inv(s, list, place);
  }

  /** The nodes met by following freeListNext from freeListHead. */
  ghost predicate OnList(s: State, n: Node) {
    exists list :: Chain(s.head, s.next, list) && n in list
  }

  lemma {:induction false} ChainAgrees(head: Link, next: map<Node, Link>, a: seq<Node>, b: seq<Node>, i: nat)
    requires Chain(head, next, a) && Chain(head, next, b) && i < |a|
    ensures i < |b| && a[i] == b[i]
  {
    if i > 0 {
      ChainAgrees(head, next, a, b, i - 1);
      assert next[a[i - 1]] == After(a, i - 1) && next[b[i - 1]] == After(b, i - 1);
    }
  }

  lemma ChainUnique(head: Link, next: map<Node, Link>, a: seq<Node>, b: seq<Node>)
    requires Chain(head, next, a) && Chain(head, next, b)
    ensures a == b
  {
    forall i | 0 <= i < |a| ensures i < |b| && a[i] == b[i] {
      ChainAgrees(head, next, a, b, i);
    }
    if |b| > 0 {
      ChainAgrees(head, next, b, a, |b| - 1);
    }
    if |a| > 0 {
      ChainAgrees(head, next, a, b, |a| - 1);
    }
  }

  lemma OnListIff(s: State, list: seq<Node>, n: Node)
    requires Chain(s.head, s.next, list)
    ensures OnList(s, n) <==> n in list
  {
    hide Chain;
    if OnList(s, n) {
      var l :| Chain(s.head, s.next, l) && n in l;
      ChainUnique(s.head, s.next, l, list);
    }
  }

  /** A node returned by try_get has one owner until it is re-added: no two threads hold it,
      are adding it or have just popped it, and it is not on the list meanwhile. */
  lemma OneOwner(s: State, t: Tid, u: Tid, n: Node)
    requires Reachable(s) && t in s.threads && u in s.threads && n in s.refs
    requires RoleOf(s.threads[t], n) != NoRole
    ensures t != u ==> RoleOf(s.threads[u], n) == NoRole
    ensures !OnList(s, n)
  {
    var list, place := ReachableInv(s);
    assert RoleOf(s.threads[t], n) == RoleAt(place[n], t);
    assert RoleOf(s.threads[u], n) == RoleAt(place[n], u);
    OnListIff(s, list, n);
  }

  /** The list is well formed: following the links from the head meets distinct nodes and ends,
      and every node on it carries the list's reference plus exactly one per reader. */
  lemma ListWellFormed(s: State)
    requires Reachable(s)
    ensures exists list :: Chain(s.head, s.next, list)
                           && forall n :: n in list ==> n in s.refs && s.refs[n] == 1 + |Pins(s, n)|
  {
    hide Reachable, Inv, RolesOk, Pins;
    var list, place := ReachableInv(s);
    NodeFacts(s, list, place);
    hide TypeOk;
    forall n | n in list
      ensures n in s.refs && s.refs[n] == 1 + |Pins(s, n)|
    {
      ListedIn(s, list, n);
      assert WordOk(place[n], s.refs[n], |Pins(s, n)|);
    }
  }

  lemma ListedIn(s: State, list: seq<Node>, n: Node)
    requires TypeOk(s) && Chain(s.head, s.next, list) && n in list
    ensures n in s.refs
  {
    hide PcOk, LinkOk;
    var i :| 0 <= i < |list| && list[i] == n;
    assert n in s.next;
  }

  /** No link changes while some thread counts a reference to the node. */
  lemma LinkStable(s: State, t: Tid, a: Action, n: Node)
    requires Reachable(s) && Enabled(s, t, a) && n in s.refs && Pins(s, n) != {}
    ensures n in Exec(s, t, a).next && Exec(s, t, a).next[n] == s.next[n]
  {
    hide Reachable, Inv, Access, Apply, Seen, Pins, RolesOk, WordsOk, Chain;
    var list, place := ReachableInv(s);
    NodeFacts(s, list, place);
    SeenAlways(s, list, place, t, n);
    if a == Continue {
      HeadMoves(s, t);
      if s.threads[t].pc.LinkSetNext? && s.threads[t].pc.n == n {
        LinkWriterIsAlone(s, t, n, place[n], |Pins(s, n)|);
      }
    } else {
      assert Exec(s, t, a).next == s.next by { QuietNext(s, t, a); }
    }
  }

  lemma QuietNext(s: State, t: Tid, a: Action)
    requires Enabled(s, t, a) && a != Continue
    ensures Exec(s, t, a).next == s.next
  {
  }

  lemma LinkWriterIsAlone(s: State, t: Tid, n: Node, p: Place, pins: nat)
    requires Seen(s, t, n, p, pins) && s.threads[t].pc.LinkSetNext? && s.threads[t].pc.n == n
    ensures pins == 0
  {
  }

  /** The exchange that pops is free of ABA: when it succeeds the node really is the first of
      the list and the value installed really is the rest of it. */
  lemma PopTakesFirst(s: State, t: Tid) returns (list: seq<Node>)
    requires Reachable(s) && Enabled(s, t, Continue)
    requires s.threads[t].pc.GetCas? && s.head == To(s.threads[t].pc.n)
    ensures Chain(s.head, s.next, list) && list != [] && list[0] == s.threads[t].pc.n
    ensures Chain(Exec(s, t, Continue).head, Exec(s, t, Continue).next, list[1..])
    ensures !OnList(Exec(s, t, Continue), s.threads[t].pc.n)
  {
    var place;
    list, place := ReachableInv(s);
    assert CanAccess(s, t);
    hide Inv, TypeOk, PcOk, Chain, Access, Apply;
    PopInv(s, list, place, t);
  }

  lemma PopInv(s: State, list: seq<Node>, place: map<Node, Place>, t: Tid)
    requires Inv(s, list, place) && CanAccess(s, t)
    requires s.threads[t].pc.GetCas? && s.head == To(s.threads[t].pc.n)
    ensures Chain(s.head, s.next, list) && list != [] && list[0] == s.threads[t].pc.n
    ensures var s' := Apply(s, t, Access(s, t)); Chain(s'.head, s'.next, list[1..]) && !OnList(s', list[0])
  {
    hide TypeOk, PcOk, RolesOk, WordsOk, LinksKnown, Chain, Access, Apply;
    ChainKept(s, list, place, t);
    ChainPop(s.head, s.next, list);
    PopMembers(list, list[0]);
    OnListIff(Apply(s, t, Access(s, t)), list[1..], list[0]);
  }

  /** The assertion of try_get: a node just popped does not carry the flag, and giving up
      two references does not underflow. */
  lemma PoppedIsUnflagged(s: State, t: Tid)
    requires Reachable(s) && t in s.threads && s.threads[t].pc.GetTake?
    ensures s.threads[t].pc.n in s.refs && 2 <= s.refs[s.threads[t].pc.n] < SHOULD_BE_ON_FREELIST
  {
    hide Reachable, Inv, RolesOk, WordsOk, Chain;
    var list, place := ReachableInv(s);
    NodeFacts(s, list, place);
    ThreadFacts(s, list, place);
    SeenAlways(s, list, place, t, s.threads[t].pc.n);
  }

  lemma NoPins(s: State, n: Node)
    requires forall t :: t in s.threads ==> s.threads[t].pc == Idle
    ensures Pins(s, n) == {}
  {
  }

  /** Nothing is lost: once every operation has returned, each node is on the list with one
      reference or held by exactly one thread with none, and no flag is left behind. */
  lemma NothingLost(s: State, n: Node)
    requires Reachable(s) && n in s.refs
    requires forall t :: t in s.threads ==> s.threads[t].pc == Idle
    ensures OnList(s, n) <==> s.refs[n] == 1
    ensures (exists t :: t in s.threads && n in s.threads[t].held) <==> s.refs[n] == 0
    ensures s.refs[n] == 0 || s.refs[n] == 1
  {
    hide Reachable, Inv, TypeOk, Chain, OnList, RolesOk, WordsOk, WordOk;
    var list, place := ReachableInv(s);
    NodeFacts(s, list, place);
    OnListIff(s, list, n);
    RestingWord(s, place, n);
    RestingRole(s, place, n);
  }

  lemma RestingWord(s: State, place: map<Node, Place>, n: Node)
    requires WordsOk(s, place) && n in place && n in s.refs
    requires forall t :: t in s.threads ==> s.threads[t].pc == Idle
    ensures WordOk(place[n], s.refs[n], 0)
  {
    NoPins(s, n);
    assert WordOk(place[n], s.refs[n], |Pins(s, n)|);
  }

  /** A node at rest is on the list, or one thread holds it. */
  lemma RestingRole(s: State, place: map<Node, Place>, n: Node)
    requires RolesOk(s, place) && n in place && n in s.refs && WordOk(place[n], s.refs[n], 0)
    requires forall t :: t in s.threads ==> s.threads[t].pc == Idle
    ensures s.refs[n] == if place[n] == Linked then 1 else 0
    ensures (exists t :: t in s.threads && n in s.threads[t].held) <==> place[n] != Linked
  {
    if place[n].With? {
      assert RoleOf(s.threads[place[n].t], n) == RoleAt(place[n], place[n].t);
    }
    forall t | t in s.threads && n in s.threads[t].held ensures place[n].With? {
      assert RoleOf(s.threads[t], n) == RoleAt(place[n], t);
    }
  }
}

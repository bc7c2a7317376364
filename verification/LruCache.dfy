/**
 LRUCache of cpp-util/lrucache.h. Its mutex serialises the operations, so each is modelled as one
 step. `held` records the handles clients have and not yet released, `log` the entries passed to the
 deleter, in order, and `entries` every entry ever inserted.
 */
module LruCache {
  import opened LruRing
  import opened Sequences
  import opened LruTable

  /** No entry is in two places, nor is a list head an entry. */
  ghost predicate Apart(lru: Entry, inUse: Entry, idle: seq<Entry>, busy: seq<Entry>, out: set<Entry>,
                        log: seq<Entry>) {
    && lru != inUse && Distinct(log)
    && SetOf(idle) !! SetOf(busy) && (SetOf(idle) + SetOf(busy)) !! out
    && (SetOf(idle) + SetOf(busy) + out) !! SetOf(log)
    && {lru, inUse} !! (SetOf(idle) + SetOf(busy) + out + SetOf(log))
  }

  ghost predicate IdleOk(e: Entry, held: multiset<Entry>)
    reads e`refs, e`inCache
  {
    e.inCache && e.refs == 1 && held[e] == 0
  }

  ghost predicate BusyOk(e: Entry, held: multiset<Entry>)
    reads e`refs, e`inCache
  {
    e.inCache && held[e] >= 1 && e.refs == 1 + held[e]
  }

  ghost predicate OutOk(e: Entry, held: multiset<Entry>)
    reads e`refs, e`inCache
  {
    !e.inCache && held[e] >= 1 && e.refs == held[e]
  }

  /** refs is the cache's own reference plus the handles out; lru holds what only the cache refers to. */
  ghost predicate Counts(idle: set<Entry>, busy: set<Entry>, out: set<Entry>, held: multiset<Entry>)
    reads idle`refs, idle`inCache, busy`refs, busy`inCache, out`refs, out`inCache
  {
    && (forall e :: e in idle ==> IdleOk(e, held))
    && (forall e :: e in busy ==> BusyOk(e, held))
    && (forall e :: e in out ==> OutOk(e, held))
    && (forall e :: e in held ==> e in busy || e in out)
  }

  lemma SetOfWithout(s: seq<Entry>, k: nat)
    requires k < |s| && Distinct(s)
    ensures SetOf(Without(s, k)) == SetOf(s) - {s[k]}
  {
    WithoutDistinct(s, k);
  }

  lemma InSet(s: seq<Entry>)
    ensures forall e :: e in s <==> e in SetOf(s)
    ensures forall i :: 0 <= i < |s| ==> s[i] in SetOf(s)
    ensures forall e :: e in SetOf(s) ==> allocated(e)
  {
  }

  lemma SetOfPlus(s: seq<Entry>, e: Entry)
    ensures SetOf(s + [e]) == SetOf(s) + {e}
  {
  }

  /** The accounts without entry e, which do not depend on it. */
  lemma CountsDrop(idle: set<Entry>, busy: set<Entry>, out: set<Entry>, held: multiset<Entry>, e: Entry)
    requires Counts(idle, busy, out, held)
    ensures Counts(idle - {e}, busy - {e}, out - {e}, held[e := 0])
  {
  }

  lemma CountsAdd(idle: set<Entry>, busy: set<Entry>, out: set<Entry>, held: multiset<Entry>, e: Entry)
    requires Counts(idle - {e}, busy - {e}, out - {e}, held[e := 0])
    requires (e in idle ==> IdleOk(e, held)) && (e in busy ==> BusyOk(e, held)) && (e in out ==> OutOk(e, held))
             && (e in held ==> e in busy || e in out)
    ensures Counts(idle, busy, out, held)
  {
    forall x | x in idle ensures IdleOk(x, held) { if x != e { assert IdleOk(x, held[e := 0]); } }
    forall x | x in busy ensures BusyOk(x, held) { if x != e { assert BusyOk(x, held[e := 0]); } }
    forall x | x in out ensures OutOk(x, held) { if x != e { assert OutOk(x, held[e := 0]); } }
    forall x | x in held ensures x in busy || x in out { if x != e { assert x in held[e := 0]; } }
  }

  ghost predicate Rings(lru: Entry, inUse: Entry, idle: seq<Entry>, busy: seq<Entry>)
    reads lru`next, lru`prev, inUse`next, inUse`prev, SetOf(idle)`next, SetOf(idle)`prev, SetOf(busy)`next,
          SetOf(busy)`prev
  {
    Ring(lru, idle) && Ring(inUse, busy)
  }

  /** Every entry ever inserted is cached, left to its holders, or was passed to the deleter. */
  ghost predicate AllOf(entries: set<Entry>, idle: seq<Entry>, busy: seq<Entry>, out: set<Entry>, log: seq<Entry>) {
    entries == SetOf(idle) + SetOf(busy) + out + SetOf(log)
  }

  /** How often Release was called, and for each entry which of the calls was the last one on it. */
  datatype Times = Times(now: nat, at: map<Entry, nat>)

  ghost function Tick(t: Times, e: Entry): Times { Times(t.now + 1, t.at[e := t.now + 1]) }

  /** Both were released, a for the last time before b. */
  ghost predicate Earlier(t: Times, a: Entry, b: Entry) { a in t.at && b in t.at && t.at[a] < t.at[b] }

  /** The entries stand in the order of their last release. */
  ghost predicate InTime(s: seq<Entry>, t: Times) {
    && (forall e :: e in t.at ==> t.at[e] <= t.now)
    && (forall i :: 0 <= i < |s| ==> s[i] in t.at)
    && (forall i, j :: 0 <= i < j < |s| ==> Earlier(t, s[i], s[j]))
  }

  lemma TimeWithout(s: seq<Entry>, e: Entry?, r: seq<Entry>, t: Times)
    requires InTime(s, t) && IsWithout(s, e, r)
    ensures InTime(r, t)
  {
    hide Earlier;
  }

  lemma TimeRuns(s: seq<Entry>, e: Entry, t: Times)
    requires InTime(s, t) && e !in s
    ensures InTime(s, Tick(t, e)) && InTime(s + [e], Tick(t, e))
  {
  }

  class LruCache {
    var capacity: nat
    var usage: nat
    const lru: Entry
    const inUse: Entry
    const table: HashTable
    ghost var idle: seq<Entry>
    ghost var busy: seq<Entry>
    ghost var out: set<Entry>
    ghost var held: multiset<Entry>
    ghost var log: seq<Entry>
    ghost var entries: set<Entry>
    ghost var times: Times

    /** Lists and accounts alone, without the table. */
    ghost predicate InOrder()
      reads this`idle, this`busy, this`out, this`held, this`log, lru`next, lru`prev, inUse`next, inUse`prev
      reads SetOf(idle)`next, SetOf(idle)`prev, SetOf(idle)`refs, SetOf(idle)`inCache
      reads SetOf(busy)`next, SetOf(busy)`prev, SetOf(busy)`refs, SetOf(busy)`inCache, out`refs, out`inCache
    {
      && Rings(lru, inUse, idle, busy)
      && Apart(lru, inUse, idle, busy, out, log)
      && Counts(SetOf(idle), SetOf(busy), out, held)
    }

    /** The table holds exactly the entries of the two lists. */
    ghost predicate Valid()
      reads this, table, lru, inUse, SetOf(idle), SetOf(busy), out
    {
      && InOrder()
      && table.Members() == SetOf(idle) + SetOf(busy) && table.Valid()
      && usage == |idle| + |busy| && AllOf(entries, idle, busy, out, log) && InTime(idle, times)
    }

    /** What holds of every cached entry and of every entry with a handle out; any other entry ever
        inserted was passed to the deleter, exactly once. */
    lemma Accounts(e: Entry)
      requires Valid()
      ensures e in table.Members() ==>
                e.inCache && e.refs == 1 + held[e] && (e.refs == 1 <==> e in idle) && (e.refs >= 2 <==> e in busy)
                && e !in log
      ensures e in held ==> e !in log && e.refs == held[e] + if e in table.Members() then 1 else 0
      ensures e in held && e !in table.Members() ==> e in out && !e.inCache
      ensures e in entries ==> (e in log <==> e !in table.Members() && e !in held)
      ensures multiset(log)[e] == if e in log then 1 else 0
    {
      hide Rings, HashTable.Valid, Counts, Apart, Distinct;
      InSet(idle);
      InSet(busy);
      InSet(log);
      StatusOf(SetOf(idle), SetOf(busy), out, held, e);
      Disjoint(lru, inUse, idle, busy, out, log);
      Once(log, e);
    }

    constructor (capacity: nat)
      ensures Valid() && this.capacity == capacity && idle == [] && busy == [] && out == {} && log == []
              && held == multiset{} && entries == {}
      ensures fresh(table) && fresh(lru) && fresh(inUse)
    {
      var a := new Entry("", 0, 0);
      var b := new Entry("", 0, 0);
      a.next, a.prev, b.next, b.prev := a, a, b, b;
      table := new HashTable();
      lru, inUse := a, b;
      this.capacity, usage := capacity, 0;
      idle, busy, out, held, log, entries, times := [], [], {}, multiset{}, [], {}, Times(0, map[]);
      new;
      EmptyRing(lru);
      EmptyRing(inUse);
    }

    /** An entry that is handed out moves from lru to in_use. */
    method ToBusy(e: Entry, ghost k: nat)
      requires Rings(lru, inUse, idle, busy) && Apart(lru, inUse, idle, busy, out, log) && k < |idle| && idle[k] == e
      modifies this`idle, this`busy, SetOf(idle)`next, SetOf(idle)`prev, SetOf(busy)`next, lru`next, lru`prev,
               inUse`next, inUse`prev
      ensures Rings(lru, inUse, idle, busy) && Apart(lru, inUse, idle, busy, out, log) && idle == Without(old(idle), k)
              && busy == old(busy) + [e]
    {
      hide Ring, Distinct, SetOf;
      InSet(idle);
      InSet(busy);
      RingDistinct(lru, idle);
      SetOfWithout(idle, k);
      SetOfPlus(busy, e);
      ghost var idle' := Without(idle, k);
      Remove(lru, idle, e, k);
      Append(inUse, busy, e);
      idle, busy := idle', busy + [e];
    }

    /** An entry nobody holds any more goes to the end of lru. */
    method ToIdle(e: Entry, ghost k: nat)
      requires Rings(lru, inUse, idle, busy) && Apart(lru, inUse, idle, busy, out, log) && k < |busy| && busy[k] == e
      modifies this`idle, this`busy, SetOf(busy)`next, SetOf(busy)`prev, SetOf(idle)`next, lru`next, lru`prev,
               inUse`next, inUse`prev
      ensures Rings(lru, inUse, idle, busy) && Apart(lru, inUse, idle, busy, out, log) && busy == Without(old(busy), k)
              && idle == old(idle) + [e]
    {
      hide Ring, Distinct, SetOf;
      InSet(idle);
      InSet(busy);
      RingDistinct(inUse, busy);
      SetOfWithout(busy, k);
      SetOfPlus(idle, e);
      ghost var busy' := Without(busy, k);
      Remove(inUse, busy, e, k);
      Append(lru, idle, e);
      busy, idle := busy', idle + [e];
    }

    /** Unref: the last reference gone, the entry is passed to the deleter; the last handle gone,
        it goes back to lru. */
    method Unref(e: Entry, ghost k: nat)
      requires Rings(lru, inUse, idle, busy) && Apart(lru, inUse, idle, busy, out, log) && e.refs > 0
               && (e.inCache && e.refs == 2 ==> k < |busy| && busy[k] == e)
      requires e.refs == 1 ==> !e.inCache && e !in SetOf(idle) + SetOf(busy) + out + SetOf(log) + {lru, inUse}
      modifies this`idle, this`busy, this`log, SetOf(busy)`next, SetOf(busy)`prev, SetOf(idle)`next, lru`next, lru`prev,
               inUse`next, inUse`prev, e`refs
      ensures Rings(lru, inUse, idle, busy) && Apart(lru, inUse, idle, busy, out, log) && e.refs == old(e.refs) - 1
      ensures log == if old(e.refs) == 1 then old(log) + [e] else old(log)
      ensures e.inCache && old(e.refs) == 2 ==>
                k < |old(busy)| && busy == Without(old(busy), k) && idle == old(idle) + [e]
      ensures !(e.inCache && old(e.refs) == 2) ==> idle == old(idle) && busy == old(busy)
    {
      hide Ring, SetOf;
      InSet(idle);
      InSet(busy);
      InSet(log);
      e.refs := e.refs - 1;
      if e.refs == 0 {
        SetOfPlus(log, e);
        log := log + [e];
      } else if e.inCache && e.refs == 1 {
        ToIdle(e, k);
      }
    }

    /** Ref, as far as lists and accounts go. */
    method Take(e: Entry)
      requires InOrder() && e in SetOf(idle) + SetOf(busy)
      modifies this`idle, this`busy, this`held, lru`next, lru`prev, inUse`next, inUse`prev,
               SetOf(idle)`next, SetOf(idle)`prev, SetOf(busy)`next, e`refs
      ensures InOrder() && held == old(held) + multiset{e}
      ensures SetOf(idle) == old(SetOf(idle)) - {e} && SetOf(busy) == old(SetOf(busy)) + {e}
              && IsWithout(old(idle), e, idle)
      ensures SetOf(idle) + SetOf(busy) == old(SetOf(idle) + SetOf(busy))
      ensures |idle| + |busy| == old(|idle| + |busy|)
    {
      hide Rings, SetOf, Counts, Distinct, Apart, Without;
      ghost var idle0, busy0, H := idle, busy, held;
      InSet(idle);
      InSet(busy);
      ghost var k := Located(lru, inUse, idle, busy, out, held, log, e);
      if e.refs == 1 && e.inCache {
        ToBusy(e, k);
      }
      e.refs := e.refs + 1;
      held := held + multiset{e};
      RefDone(idle0, busy0, out, H, e, k, idle, busy);
    }

    /** Ref */
    method Ref(e: Entry)
      requires Valid() && e in SetOf(idle) + SetOf(busy)
      modifies this`idle, this`busy, this`held, lru`next, lru`prev, inUse`next, inUse`prev,
               SetOf(idle)`next, SetOf(idle)`prev, SetOf(busy)`next, e`refs
      ensures Valid() && held == old(held) + multiset{e}
      ensures SetOf(idle) == old(SetOf(idle)) - {e} && SetOf(busy) == old(SetOf(busy)) + {e}
              && IsWithout(old(idle), e, idle)
    {
      hide Rings, SetOf, Counts, Apart, AllOf, InTime, HashTable.Valid, HashTable.Members, IsWithout, InTime;
      InSet(idle);
      InSet(busy);
      Take(e);
      TimeWithout(old(idle), e, idle, times);
      AllReleased(entries, old(idle), old(busy), out, log, e, idle, busy, out, log);
    }

    /** Release, as far as lists and accounts go. */
    method GiveBack(e: Entry)
      requires InOrder() && e in held
      modifies this`idle, this`busy, this`log, this`out, this`held, lru`next, lru`prev, inUse`next, inUse`prev,
               SetOf(idle)`next, SetOf(busy)`next, SetOf(busy)`prev, e`refs
      ensures InOrder() && held == old(held) - multiset{e}
      ensures old(e.refs) == 1 ==>
                log == old(log) + [e] && old(e in out) && out == old(out) - {e} && idle == old(idle)
                && busy == old(busy)
      ensures old(e.refs) != 1 ==> log == old(log) && out == old(out)
      ensures idle == old(idle) + (if old(e.inCache && e.refs == 2) then [e] else []) && e !in old(idle)
      ensures SetOf(idle) + SetOf(busy) == old(SetOf(idle) + SetOf(busy))
      ensures |idle| + |busy| == old(|idle| + |busy|)
      ensures e in SetOf(idle) <==> old(e.inCache && e.refs == 2)
    {
      hide Rings, SetOf, Counts, Distinct, Apart, Without;
      ghost var idle0, busy0, O, H := idle, busy, out, held;
      InSet(idle);
      InSet(busy);
      ghost var k := Located(lru, inUse, idle, busy, out, held, log, e);
      if e.refs == 1 {
        LetGo(lru, inUse, idle, busy, out, log, e);
        out := out - {e};
      }
      Unref(e, k);
      held := held - multiset{e};
      ReleaseDone(idle0, busy0, O, H, e, k, idle, busy, out);
    }

    lemma HeldIn(e: Entry)
      requires InOrder() && e in held
      ensures e in SetOf(busy) + out
    {
      hide Rings, Counts, Apart;
      StatusOf(SetOf(idle), SetOf(busy), out, held, e);
    }

    /** Release: one handle fewer. */
    method Release(e: Entry)
      requires Valid() && e in held
      modifies this, lru, inUse, SetOf(idle), SetOf(busy), out
      ensures Valid() && held == old(held) - multiset{e} && capacity == old(capacity) && entries == old(entries)
      ensures times == Tick(old(times), e) && idle == old(idle) + if old(e.inCache && e.refs == 2) then [e] else []
      ensures old(e.refs) == 1 ==>
                log == old(log) + [e] && out == old(out) - {e} && idle == old(idle) && busy == old(busy)
      ensures old(e.refs) != 1 ==>
                log == old(log) && out == old(out) && SetOf(idle) + SetOf(busy) == old(SetOf(idle) + SetOf(busy))
      ensures e in SetOf(idle) <==> old(e.inCache && e.refs == 2)
    {
      hide InOrder, SetOf, AllOf, InTime, HashTable.Valid, HashTable.Members;
      InSet(idle);
      InSet(busy);
      HeldIn(e);
      GiveBack(e);
      TimeRuns(old(idle), e, times);
      assert old(idle) + [] == old(idle);
      times := Tick(times, e);
      AllReleased(entries, old(idle), old(busy), old(out), old(log), e, idle, busy, out, log);
    }

    /** Everything is in order, but entry e has already left the table. */
    ghost predicate Leaving(e: Entry)
      reads this, table, lru, inUse, SetOf(idle), SetOf(busy), out
    {
      && InOrder()
      && e in SetOf(idle) + SetOf(busy)
      && table.Members() == SetOf(idle) + SetOf(busy) - {e} && table.Valid()
      && usage == |idle| + |busy| && AllOf(entries, idle, busy, out, log) && InTime(idle, times)
    }

    /** FinishErase: an entry nobody holds goes to the deleter at once, another when its last handle does. */
    method FinishErase(e: Entry, ghost k: nat)
      requires Leaving(e) && if e in SetOf(idle) then k < |idle| && idle[k] == e else k < |busy| && busy[k] == e
      modifies this, lru, inUse, SetOf(idle), SetOf(busy), e
      ensures Valid() && held == old(held) && capacity == old(capacity) && entries == old(entries)
              && times == old(times)
      ensures old(e in SetOf(idle)) ==>
                k < |old(idle)| && idle == Without(old(idle), k) && busy == old(busy) && out == old(out)
                && log == old(log) + [e]
      ensures old(e !in SetOf(idle)) ==>
                k < |old(busy)| && busy == Without(old(busy), k) && idle == old(idle) && out == old(out) + {e}
                && log == old(log)
    {
      hide Rings, SetOf, Counts, Distinct, Apart, AllOf, InTime, HashTable.Valid, HashTable.Members, MembersOf, Without;
      ghost var idle0, busy0, O, H, L := idle, busy, out, held, log;
      InSet(idle);
      InSet(busy);
      Disjoint(lru, inUse, idle, busy, out, log);
      StatusOf(SetOf(idle), SetOf(busy), O, H, e);
      CountsDrop(SetOf(idle), SetOf(busy), O, H, e);
      RingsDistinct(lru, inUse, idle, busy);
      usage := usage - 1;
      Drop(e, k);
      EraseDone(idle0, busy0, O, H, e, k, idle, busy, out);
      TimeWithout(idle0, e, idle, times);
      AllErased(entries, idle0, busy0, O, L, e, idle, busy, out, log);
    }

    /** The entry leaves its list and loses the cache's reference. */
    method Drop(e: Entry, ghost k: nat)
      requires Rings(lru, inUse, idle, busy) && Apart(lru, inUse, idle, busy, out, log) && e.refs >= 1
               && (e in SetOf(idle) <==> e.refs == 1)
      requires if e in SetOf(idle) then k < |idle| && idle[k] == e else k < |busy| && busy[k] == e
      modifies this`idle, this`busy, this`log, this`out, lru`next, lru`prev, inUse`next, inUse`prev,
               SetOf(idle)`next, SetOf(idle)`prev, SetOf(busy)`next, SetOf(busy)`prev, e`refs, e`inCache
      ensures Rings(lru, inUse, idle, busy) && Apart(lru, inUse, idle, busy, out, log) && e.refs == old(e.refs) - 1
              && !e.inCache
      ensures old(e in SetOf(idle)) ==>
                k < |old(idle)| && idle == Without(old(idle), k) && busy == old(busy) && out == old(out)
                && log == old(log) + [e]
      ensures old(e !in SetOf(idle)) ==>
                k < |old(busy)| && busy == Without(old(busy), k) && idle == old(idle) && out == old(out) + {e}
                && log == old(log)
    {
      hide Rings, SetOf, Distinct, Apart, Without;
      InSet(idle);
      InSet(busy);
      Disjoint(lru, inUse, idle, busy, out, log);
      RingsDistinct(lru, inUse, idle, busy);
      ghost var wasIdle := e in SetOf(idle);
      Unlinked(lru, inUse, idle, busy, out, log, e, k);
      Unlink(e, k);
      e.inCache := false;
      if !wasIdle { out := out + {e}; }
      Unref(e, 0);
    }

    /** LRU_Remove on whichever list the entry is. */
    method Unlink(e: Entry, ghost k: nat)
      requires Rings(lru, inUse, idle, busy) && SetOf(idle) !! SetOf(busy) && lru !in SetOf(busy)
               && inUse !in SetOf(idle) && lru != inUse
      requires if e in SetOf(idle) then k < |idle| && idle[k] == e else k < |busy| && busy[k] == e
      modifies this`idle, this`busy, lru`next, lru`prev, inUse`next, inUse`prev, SetOf(idle)`next, SetOf(idle)`prev,
               SetOf(busy)`next, SetOf(busy)`prev
      ensures Rings(lru, inUse, idle, busy)
      ensures old(e in SetOf(idle)) ==> k < |old(idle)| && idle == Without(old(idle), k) && busy == old(busy)
      ensures old(e !in SetOf(idle)) ==> k < |old(busy)| && busy == Without(old(busy), k) && idle == old(idle)
    {
      hide Ring, SetOf;
      InSet(idle);
      InSet(busy);
      ghost var onLru := e in SetOf(idle);
      Remove(if onLru then lru else inUse, if onLru then idle else busy, e, k);
      if onLru { idle := Without(idle, k); } else { busy := Without(busy, k); }
    }

    /** Lookup: the entry with that hash and key, if the cache has it, and a handle on it. */
    method Lookup(key: string, hash: nat) returns (e: Entry?)
      requires Valid()
      modifies this, lru, inUse, SetOf(idle), SetOf(busy)
      ensures Valid() && log == old(log) && out == old(out)
              && SetOf(idle) + SetOf(busy) == old(SetOf(idle) + SetOf(busy))
      ensures capacity == old(capacity) && entries == old(entries) && times == old(times)
              && IsWithout(old(idle), e, idle)
      ensures e == null ==> held == old(held) && forall x :: x in SetOf(idle) + SetOf(busy) ==> !Same(x, key, hash)
      ensures e != null ==> held == old(held) + multiset{e} && e in SetOf(busy) && Same(e, key, hash)
    {
      hide Rings, SetOf, Counts, Distinct, Apart, AllOf, InTime, HashTable.Valid, HashTable.Members, MembersOf;
      InSet(idle);
      InSet(busy);
      e := table.Lookup(key, hash);
      if e != null {
        Ref(e);
      }
    }

    /** An entry just taken out of the table goes to the deleter, or is left to those who hold it. */
    method Discard(e: Entry)
      requires Leaving(e)
      modifies this, lru, inUse, SetOf(idle), SetOf(busy)
      ensures Valid() && held == old(held) && capacity == old(capacity) && entries == old(entries)
              && times == old(times)
      ensures SetOf(idle) == old(SetOf(idle)) - {e} && SetOf(busy) == old(SetOf(busy)) - {e}
              && IsWithout(old(idle), e, idle)
      ensures out == if old(e in held) then old(out) + {e} else old(out)
      ensures log == if old(e in held) then old(log) else old(log) + [e]
    {
      hide Rings, SetOf, Counts, Distinct, Apart, AllOf, InTime, HashTable.Valid, HashTable.Members, MembersOf, Without;
      InSet(idle);
      InSet(busy);
      ghost var onLru, idle0, busy0 := e in SetOf(idle), idle, busy;
      ghost var k := PositionOf(if onLru then idle else busy, e);
      StatusOf(SetOf(idle), SetOf(busy), out, held, e);
      Disjoint(lru, inUse, idle, busy, out, log);
      RingsDistinct(lru, inUse, idle, busy);
      if onLru { SetOfWithout(idle, k); } else { SetOfWithout(busy, k); }
      FinishErase(e, k);
    }

    /** Erase: the entry with that hash and key leaves the cache. */
    method Erase(key: string, hash: nat) returns (ghost e: Entry?)
      requires Valid()
      modifies this, table, lru, inUse, SetOf(idle), SetOf(busy)
      ensures Valid() && held == old(held) && capacity == old(capacity) && entries == old(entries)
              && times == old(times)
      ensures e == null ==>
                && (forall x :: x in SetOf(idle) + SetOf(busy) ==> !Same(x, key, hash))
                && idle == old(idle) && busy == old(busy) && out == old(out) && log == old(log)
      ensures e != null ==>
                && Same(e, key, hash) && e in old(SetOf(idle) + SetOf(busy))
                && SetOf(idle) == old(SetOf(idle)) - {e} && SetOf(busy) == old(SetOf(busy)) - {e}
                && IsWithout(old(idle), e, idle)
      ensures e != null && old(e in held) ==> out == old(out) + {e} && log == old(log)
      ensures e != null && old(e !in held) ==> out == old(out) && log == old(log) + [e]
    {
      hide Rings, SetOf, Counts, Distinct, Apart, AllOf, InTime, HashTable.Valid, HashTable.Members, MembersOf,
           IsWithout;
      InSet(idle);
      InSet(busy);
      var r := table.Remove(key, hash);
      e := r;
      if r != null {
        Discard(r);
      }
    }

    /** The oldest entry that nobody holds is dropped. */
    method EvictOldest()
      requires Valid() && idle != []
      modifies this, table, lru, inUse, SetOf(idle), SetOf(busy)
      ensures Valid() && held == old(held) && capacity == old(capacity) && entries == old(entries)
              && times == old(times)
      ensures idle == old(idle)[1..] && busy == old(busy) && out == old(out) && log == old(log) + [old(idle)[0]]
              && usage == old(usage) - 1
    {
      hide Rings, SetOf, Counts, Distinct, Apart, AllOf, InTime, HashTable.Valid, HashTable.Members, MembersOf;
      InSet(idle);
      InSet(busy);
      Oldest(lru, inUse, idle, busy);
      var oldest := lru.next;
      table.OnlyOne(oldest);
      var r := table.Remove(oldest.key, oldest.hash);
      FinishErase(r, 0);
    }

    /** Prune: every entry that nobody holds goes, oldest first. */
    method Prune()
      requires Valid()
      modifies this, table, lru, inUse, SetOf(idle), SetOf(busy)
      ensures Valid() && held == old(held) && capacity == old(capacity) && entries == old(entries)
              && times == old(times)
      ensures idle == [] && busy == old(busy) && out == old(out) && log == old(log) + old(idle)
    {
      hide Rings, SetOf, Counts, Distinct, Apart, AllOf, InTime, HashTable.Valid, HashTable.Members, MembersOf;
      InSet(idle);
      InSet(busy);
      ghost var n := 0;
      ghost var idle0 := idle;
      Oldest(lru, inUse, idle, busy);
      while lru.next != lru
        invariant Valid() && held == old(held) && capacity == old(capacity) && entries == old(entries)
        invariant times == old(times)
        invariant busy == old(busy) && out == old(out) && SetOf(idle) <= old(SetOf(idle))
        invariant n <= |idle0| && idle == idle0[n..] && log == old(log) + idle0[..n]
        invariant lru.next == lru <==> idle == []
        decreases |idle|
      {
        EvictOldest();
        n := n + 1;
        Suffix(idle0, n);
        Oldest(lru, inUse, idle, busy);
      }
    }

    /** A new entry, held by the client, joins in_use. */
    method Join(e: Entry)
      requires InOrder() && e !in SetOf(idle) + SetOf(busy) + out + SetOf(log) + {lru, inUse} && e.refs == 1
      modifies this`busy, this`held, SetOf(busy)`next, inUse`next, inUse`prev, e
      ensures InOrder() && busy == old(busy) + [e] && held == old(held) + multiset{e}
    {
      hide Rings, SetOf, Counts, Distinct, Apart;
      InSet(idle);
      InSet(busy);
      ghost var I, B, H := SetOf(idle), SetOf(busy), held;
      HeldExist(I, B, out, held);
      Newcomer(lru, inUse, idle, busy, out, log, e);
      NotCounted(I, B, out, held, e);
      SetOfPlus(busy, e);
      e.refs := e.refs + 1;
      e.inCache := true;
      AppendBusy(e);
      held := held + multiset{e};
      Counted(I, B, out, H, e);
    }

    /** The first part of Insert. The table does not know the new entry yet. */
    method Admit(key: string, hash: nat, value: int) returns (e: Entry)
      requires Valid()
      modifies this, lru, inUse, SetOf(busy)
      ensures fresh(e) && Same(e, key, hash) && e.value == value && e !in old(SetOf(idle) + SetOf(busy))
      ensures InOrder() && table.Members() == old(SetOf(idle) + SetOf(busy)) && table.Valid()
      ensures idle == old(idle) && busy == old(busy) + [e] && out == old(out) && log == old(log)
      ensures held == old(held) + multiset{e} && capacity == old(capacity) && usage == old(usage) + 1
      ensures entries == old(entries) + {e} && AllOf(entries, idle, busy, out, log) && times == old(times)
    {
      hide Rings, SetOf, Counts, Apart, AllOf, InTime, HashTable.Valid, HashTable.Members;
      InSet(idle);
      InSet(busy);
      InSet(log);
      HeldExist(SetOf(idle), SetOf(busy), out, held);
      e := new Entry(key, hash, value);
      Join(e);
      usage := usage + 1;
      AllAdmitted(entries, idle, old(busy), out, log, e);
      entries := entries + {e};
    }

    method AppendBusy(e: Entry)
      requires Rings(lru, inUse, idle, busy) && e !in SetOf(idle) + SetOf(busy) + {lru, inUse}
               && SetOf(idle) !! SetOf(busy) && lru !in SetOf(busy) && inUse !in SetOf(idle) && lru != inUse
      modifies this`busy, SetOf(busy)`next, inUse`next, inUse`prev, e`next, e`prev
      ensures Rings(lru, inUse, idle, busy) && busy == old(busy) + [e]
    {
      hide Ring, SetOf;
      InSet(idle);
      InSet(busy);
      Append(inUse, busy, e);
      busy := busy + [e];
    }

    /** Insert: the new entry is cached and handed out, an entry with the same hash and key is dropped, and
        entries nobody holds are evicted, oldest first, while there are too many. */
    method Insert(key: string, hash: nat, value: int) returns (e: Entry, ghost was: Entry?, ghost n: nat)
      requires Valid() && capacity > 0
      modifies this, table, lru, inUse, SetOf(idle), SetOf(busy)
      ensures Valid() && fresh(e) && Same(e, key, hash) && e.value == value && e in SetOf(busy)
      ensures held == old(held) + multiset{e} && capacity == old(capacity) && entries == old(entries) + {e}
      ensures times == old(times)
      ensures was == null ==> forall x :: x in old(SetOf(idle) + SetOf(busy)) ==> !Same(x, key, hash)
      ensures was != null ==> was in old(SetOf(idle) + SetOf(busy)) && Same(was, key, hash)
      ensures SetOf(busy) == old(SetOf(busy)) - {was} + {e}
      ensures out == if was != null && old(was in held) then old(out) + {was} else old(out)
      ensures var gone := if was != null && old(was !in held) then [was] else [];
              exists rest ::
                && n <= |rest| && IsWithout(old(idle), was, rest)
                && idle == rest[n..] && log == old(log) + gone + rest[..n]
                && forall i, j :: 0 <= i < n <= j < |rest| ==> Earlier(times, rest[i], rest[j])
      ensures usage <= capacity || idle == []
      ensures n > 0 ==> usage >= capacity
    {
      hide Rings, SetOf, Counts, Distinct, Apart, AllOf, HashTable.Valid, HashTable.Members, MembersOf, Without,
           IsWithout;
      ghost var idle0 := idle;
      e, was := Cache(key, hash, value);
      WithoutSubset(idle0, was, idle);
      ghost var rest := idle;
      assert forall i, j :: 0 <= i < j < |rest| ==> Earlier(times, rest[i], rest[j]);
      InSet(idle);
      InSet(busy);
      n := Evict();
      assert n <= |rest| && idle == rest[n..];
    }

    /** The loop of Insert that evicts while there are too many entries. */
    method Evict() returns (ghost n: nat)
      requires Valid()
      modifies this, table, lru, inUse, SetOf(idle), SetOf(busy)
      ensures Valid() && held == old(held) && busy == old(busy) && out == old(out) && capacity == old(capacity)
      ensures entries == old(entries) && times == old(times)
      ensures n <= |old(idle)| && idle == old(idle)[n..] && log == old(log) + old(idle)[..n]
      ensures (usage <= capacity || idle == []) && (n > 0 ==> usage >= capacity)
    {
      hide Rings, SetOf, Counts, Distinct, Apart, AllOf, InTime, HashTable.Valid, HashTable.Members, MembersOf;
      n := 0;
      ghost var idle0 := idle;
      InSet(idle);
      InSet(busy);
      Oldest(lru, inUse, idle, busy);
      while usage > capacity && lru.next != lru
        invariant Valid() && held == old(held) && capacity == old(capacity) && entries == old(entries)
        invariant times == old(times)
        invariant busy == old(busy) && out == old(out) && SetOf(idle) <= old(SetOf(idle))
        invariant n <= |idle0| && idle == idle0[n..] && log == old(log) + idle0[..n]
        invariant (lru.next == lru <==> idle == []) && (n > 0 ==> usage >= capacity)
        decreases |idle|
      {
        EvictOldest();
        n := n + 1;
        Suffix(idle0, n);
        Oldest(lru, inUse, idle, busy);
      }
    }

    /** Insert up to the evictions. */
    method Cache(key: string, hash: nat, value: int) returns (e: Entry, ghost was: Entry?)
      requires Valid() && capacity > 0
      modifies this, table, lru, inUse, SetOf(idle), SetOf(busy)
      ensures Valid() && fresh(e) && Same(e, key, hash) && e.value == value && e in SetOf(busy)
      ensures held == old(held) + multiset{e} && capacity == old(capacity) && entries == old(entries) + {e}
      ensures times == old(times)
      ensures was == null ==> forall x :: x in old(SetOf(idle) + SetOf(busy)) ==> !Same(x, key, hash)
      ensures was != null ==> was in old(SetOf(idle) + SetOf(busy)) && Same(was, key, hash)
      ensures SetOf(busy) == old(SetOf(busy)) - {was} + {e} && IsWithout(old(idle), was, idle)
      ensures out == if was != null && old(was in held) then old(out) + {was} else old(out)
      ensures log == old(log) + if was != null && old(was !in held) then [was] else []
    {
      hide InOrder, SetOf, Distinct, AllOf, InTime, HashTable.Valid, HashTable.Members, MembersOf, IsWithout;
      ghost var busy0 := busy;
      e := Admit(key, hash, value);
      InSet(idle);
      InSet(busy);
      SetOfPlus(busy0, e);
      var r := table.Insert(e);
      was := r;
      if r != null {
        Discard(r);
      } else {
        WithoutNothing(idle);
      }
      assert old(log) + [] == old(log);
    }
  }

  lemma Once(s: seq<Entry>, e: Entry)
    requires Distinct(s)
    ensures multiset(s)[e] == if e in s then 1 else 0
  {
    if e in s {
      var k := PositionOf(s, e);
      assert s == s[..k] + [e] + s[k + 1..];
      assert e !in s[..k] && e !in s[k + 1..];
    }
  }

  lemma AllAdmitted(entries: set<Entry>, idle: seq<Entry>, busy: seq<Entry>, out: set<Entry>, log: seq<Entry>, e: Entry)
    requires AllOf(entries, idle, busy, out, log)
    ensures AllOf(entries + {e}, idle, busy + [e], out, log)
  {
    hide SetOf;
    SetOfPlus(busy, e);
  }

  /** An entry given back for the last time goes from its holders to the deleter. */
  lemma AllReleased(entries: set<Entry>, idle0: seq<Entry>, busy0: seq<Entry>, out0: set<Entry>, log0: seq<Entry>,
                    e: Entry, idle: seq<Entry>, busy: seq<Entry>, out: set<Entry>, log: seq<Entry>)
    requires AllOf(entries, idle0, busy0, out0, log0) && SetOf(idle) + SetOf(busy) == SetOf(idle0) + SetOf(busy0)
    requires (out == out0 && log == log0) || (e in out0 && out == out0 - {e} && log == log0 + [e])
    ensures AllOf(entries, idle, busy, out, log)
  {
    hide SetOf;
    SetOfPlus(log0, e);
  }

  /** An entry that leaves the cache goes to its holders or to the deleter. */
  lemma AllErased(entries: set<Entry>, idle0: seq<Entry>, busy0: seq<Entry>, out0: set<Entry>, log0: seq<Entry>,
                  e: Entry, idle: seq<Entry>, busy: seq<Entry>, out: set<Entry>, log: seq<Entry>)
    requires AllOf(entries, idle0, busy0, out0, log0) && e in SetOf(idle0) + SetOf(busy0)
    requires SetOf(idle) + SetOf(busy) == SetOf(idle0) + SetOf(busy0) - {e}
    requires (out == out0 && log == log0 + [e]) || (out == out0 + {e} && log == log0)
    ensures AllOf(entries, idle, busy, out, log)
  {
    hide SetOf;
    SetOfPlus(log0, e);
  }

  lemma Disjoint(lru: Entry, inUse: Entry, idle: seq<Entry>, busy: seq<Entry>, out: set<Entry>, log: seq<Entry>)
    requires Apart(lru, inUse, idle, busy, out, log)
    ensures SetOf(idle) !! SetOf(busy) && SetOf(idle) !! out && SetOf(busy) !! out
    ensures (SetOf(idle) + SetOf(busy) + out) !! SetOf(log) && Distinct(log)
  {
  }

  lemma RingsDistinct(lru: Entry, inUse: Entry, idle: seq<Entry>, busy: seq<Entry>)
    requires Rings(lru, inUse, idle, busy)
    ensures Distinct(idle) && Distinct(busy)
  {
  }

  lemma Plus(held: multiset<Entry>, e: Entry)
    ensures (held + multiset{e})[e := 0] == held[e := 0]
    ensures (held - multiset{e})[e := 0] == held[e := 0]
  {
  }

  /** The accounts after e lost the cache's own reference. */
  lemma Erased(idle: set<Entry>, busy: set<Entry>, out: set<Entry>, held: multiset<Entry>, e: Entry)
    requires Counts(idle - {e}, busy - {e}, out - {e}, held[e := 0]) && e in idle + busy
             && (e in idle ==> held[e] == 0 && e !in busy) && e !in out
    requires e !in idle ==> held[e] >= 1 && !e.inCache && e.refs == held[e]
    ensures e in idle ==> Counts(idle - {e}, busy, out, held)
    ensures e !in idle ==> Counts(idle, busy - {e}, out + {e}, held)
  {
    hide Counts;
    assert (idle - {e}) - {e} == idle - {e} && (busy - {e}) - {e} == busy - {e} && (out + {e}) - {e} == out - {e};
    if e in idle { CountsAdd(idle - {e}, busy, out, held, e); }
      else { CountsAdd(idle, busy - {e}, out + {e}, held, e); }
  }

  /** Where an entry that leaves its list may go. */
  lemma Unlinked(lru: Entry, inUse: Entry, idle: seq<Entry>, busy: seq<Entry>, out: set<Entry>, log: seq<Entry>,
                 e: Entry, k: nat)
    requires Apart(lru, inUse, idle, busy, out, log) && Distinct(idle) && Distinct(busy)
    requires if e in SetOf(idle) then k < |idle| && idle[k] == e else k < |busy| && busy[k] == e
    ensures lru !in SetOf(busy) && inUse !in SetOf(idle) && lru != inUse
    ensures if e in SetOf(idle) then SetOf(Without(idle, k)) <= SetOf(idle) else SetOf(Without(busy, k)) <= SetOf(busy)
    ensures e in SetOf(idle) ==>
              Apart(lru, inUse, Without(idle, k), busy, out, log)
              && e !in SetOf(Without(idle, k)) + SetOf(busy) + out + SetOf(log) + {lru, inUse}
    ensures e !in SetOf(idle) ==> Apart(lru, inUse, idle, Without(busy, k), out + {e}, log)
  {
    hide SetOf, Distinct;
    InSet(busy);
    if e in SetOf(idle) { SetOfWithout(idle, k); } else { SetOfWithout(busy, k); }
  }

  lemma Oldest(lru: Entry, inUse: Entry, idle: seq<Entry>, busy: seq<Entry>)
    requires Rings(lru, inUse, idle, busy)
    ensures lru.next == if idle == [] then lru else idle[0]
    ensures idle != [] ==> idle[0] != lru && idle[0] in SetOf(idle)
  {
    First(lru, idle);
  }

  lemma Suffix(s: seq<Entry>, n: nat)
    requires 1 <= n <= |s|
    ensures s[n - 1..][1..] == s[n..] && s[..n] == s[..n - 1] + [s[n - 1]] && s[n - 1..][0] == s[n - 1]
            && SetOf(s[n..]) <= SetOf(s[n - 1..])
  {
  }

  ghost predicate IsWithout(s: seq<Entry>, e: Entry?, r: seq<Entry>) {
    if e == null || e !in s then r == s else exists k :: 0 <= k < |s| && s[k] == e && r == Without(s, k)
  }

  lemma WithoutNothing(s: seq<Entry>)
    ensures IsWithout(s, null, s)
  {
  }

  lemma WithoutSubset(s: seq<Entry>, e: Entry?, r: seq<Entry>)
    requires IsWithout(s, e, r)
    ensures SetOf(r) <= SetOf(s)
  {
  }

  lemma HeldExist(idle: set<Entry>, busy: set<Entry>, out: set<Entry>, held: multiset<Entry>)
    requires Counts(idle, busy, out, held)
    ensures forall e :: e in idle + busy + out ==> allocated(e)
    ensures forall e :: e in held ==> allocated(e)
  {
  }

  /** A new entry is in none of the places. */
  lemma Newcomer(lru: Entry, inUse: Entry, idle: seq<Entry>, busy: seq<Entry>, out: set<Entry>, log: seq<Entry>,
                 e: Entry)
    requires Apart(lru, inUse, idle, busy, out, log)
             && e !in SetOf(idle) + SetOf(busy) + out + SetOf(log) + {lru, inUse}
    ensures Apart(lru, inUse, idle, busy + [e], out, log) && SetOf(idle) !! SetOf(busy) && lru !in SetOf(busy)
            && inUse !in SetOf(idle) && lru != inUse
  {
    hide SetOf;
    SetOfPlus(busy, e);
  }

  lemma NotCounted(idle: set<Entry>, busy: set<Entry>, out: set<Entry>, held: multiset<Entry>, e: Entry)
    requires Counts(idle, busy, out, held) && e !in idle + busy + out
    ensures Counts(idle - {e}, busy - {e}, out - {e}, held[e := 0]) && held[e] == 0
  {
    CountsDrop(idle, busy, out, held, e);
    if e in held { StatusOf(idle, busy, out, held, e); }
  }

  lemma Counted(idle: set<Entry>, busy: set<Entry>, out: set<Entry>, held: multiset<Entry>, e: Entry)
    requires Counts(idle - {e}, busy - {e}, out - {e}, held[e := 0]) && e !in idle + busy + out && held[e] == 0
             && e.inCache && e.refs == 2
    ensures Counts(idle, busy + {e}, out, held + multiset{e})
  {
    hide Counts;
    Plus(held, e);
    assert (busy + {e}) - {e} == busy - {e};
    CountsAdd(idle, busy + {e}, out, held + multiset{e}, e);
  }

  lemma PositionOf(s: seq<Entry>, e: Entry) returns (k: nat)
    requires e in s
    ensures k < |s| && s[k] == e
  {
    k :| 0 <= k < |s| && s[k] == e;
  }

  /** An entry that leaves `out` is nowhere. */
  lemma LetGo(lru: Entry, inUse: Entry, idle: seq<Entry>, busy: seq<Entry>, out: set<Entry>, log: seq<Entry>, e: Entry)
    requires Apart(lru, inUse, idle, busy, out, log) && e in out
    ensures Apart(lru, inUse, idle, busy, out - {e}, log)
            && e !in SetOf(idle) + SetOf(busy) + (out - {e}) + SetOf(log) + {lru, inUse}
  {
    hide SetOf;
  }

  /** The accounts after one handle on e was given back. */
  lemma Released(idle: set<Entry>, busy: set<Entry>, out: set<Entry>, held: multiset<Entry>, e: Entry)
    requires Counts(idle - {e}, busy - {e}, out - {e}, held[e := 0]) && held[e] >= 1 && e !in idle
             && (e in busy <==> e !in out)
    requires if e in busy then e.inCache && e.refs == held[e] else !e.inCache && e.refs == held[e] - 1
    ensures e in busy && held[e] == 1 ==> Counts(idle + {e}, busy - {e}, out, held - multiset{e})
    ensures e in out && held[e] == 1 ==> Counts(idle, busy, out - {e}, held - multiset{e})
    ensures held[e] > 1 ==> Counts(idle, busy, out, held - multiset{e})
  {
    hide Counts;
    Plus(held, e);
    assert (idle + {e}) - {e} == idle - {e} && (busy - {e}) - {e} == busy - {e} && (out - {e}) - {e} == out - {e};
    if held[e] > 1 {
      CountsAdd(idle, busy, out, held - multiset{e}, e);
    } else if e in busy {
      CountsAdd(idle + {e}, busy - {e}, out, held - multiset{e}, e);
    } else {
      CountsAdd(idle, busy, out - {e}, held - multiset{e}, e);
    }
  }

  lemma RefDone(idle0: seq<Entry>, busy0: seq<Entry>, out: set<Entry>, held: multiset<Entry>, e: Entry, k: nat,
                idle: seq<Entry>, busy: seq<Entry>)
    requires Counts(SetOf(idle0) - {e}, SetOf(busy0) - {e}, out - {e}, held[e := 0]) && e in SetOf(idle0) + SetOf(busy0)
             && e !in out
    requires Distinct(idle0) && (e in SetOf(idle0) <==> e !in SetOf(busy0)) && e.inCache
    requires if e in SetOf(idle0) then held[e] == 0 && e.refs == 2 && k < |idle0| && idle0[k] == e
             && idle == Without(idle0, k) && busy == busy0 + [e]
             else held[e] >= 1 && e.refs == 2 + held[e] && idle == idle0 && busy == busy0
    ensures Counts(SetOf(idle), SetOf(busy), out, held + multiset{e})
    ensures SetOf(idle) == SetOf(idle0) - {e} && SetOf(busy) == SetOf(busy0) + {e}
    ensures SetOf(idle) + SetOf(busy) == SetOf(idle0) + SetOf(busy0) && |idle| + |busy| == |idle0| + |busy0|
  {
    hide Counts, SetOf, Distinct, Without;
    if e in SetOf(idle0) {
      RefIdle(SetOf(idle0), SetOf(busy0), out, held, e);
      WithoutLength(idle0, k);
      SetOfWithout(idle0, k);
      SetOfPlus(busy0, e);
    } else {
      RefBusy(SetOf(idle0), SetOf(busy0), out, held, e);
    }
  }

  lemma ReleaseDone(idle0: seq<Entry>, busy0: seq<Entry>, out0: set<Entry>, held: multiset<Entry>, e: Entry, k: nat,
                    idle: seq<Entry>, busy: seq<Entry>, out: set<Entry>)
    requires Counts(SetOf(idle0) - {e}, SetOf(busy0) - {e}, out0 - {e}, held[e := 0]) && held[e] >= 1
    requires e !in SetOf(idle0) && (e in SetOf(busy0) <==> e !in out0) && Distinct(busy0)
    requires if e in SetOf(busy0) then e.inCache && e.refs == held[e] else !e.inCache && e.refs == held[e] - 1
    requires if e in SetOf(busy0) && held[e] == 1 then k < |busy0| && busy0[k] == e && busy == Without(busy0, k)
             && idle == idle0 + [e] else busy == busy0 && idle == idle0
    requires out == if e in out0 && held[e] == 1 then out0 - {e} else out0
    ensures Counts(SetOf(idle), SetOf(busy), out, held - multiset{e})
    ensures SetOf(idle) + SetOf(busy) == SetOf(idle0) + SetOf(busy0) && |idle| + |busy| == |idle0| + |busy0|
    ensures e in SetOf(idle) <==> e in SetOf(busy0) && held[e] == 1
  {
    hide Counts, SetOf, Distinct, Without;
    Released(SetOf(idle0), SetOf(busy0), out0, held, e);
    if e in SetOf(busy0) && held[e] == 1 {
      WithoutLength(busy0, k);
      SetOfWithout(busy0, k);
      SetOfPlus(idle0, e);
    }
  }

  lemma WithoutLength(s: seq<Entry>, k: nat)
    requires k < |s|
    ensures |Without(s, k)| == |s| - 1
  {
  }

  lemma EraseDone(idle0: seq<Entry>, busy0: seq<Entry>, out0: set<Entry>, held: multiset<Entry>, e: Entry, k: nat,
                  idle: seq<Entry>, busy: seq<Entry>, out: set<Entry>)
    requires Counts(SetOf(idle0) - {e}, SetOf(busy0) - {e}, out0 - {e}, held[e := 0])
             && e in SetOf(idle0) + SetOf(busy0)
    requires (e in SetOf(idle0) ==> held[e] == 0 && e !in SetOf(busy0)) && e !in out0 && Distinct(idle0)
             && Distinct(busy0)
    requires e !in SetOf(idle0) ==> held[e] >= 1 && !e.inCache && e.refs == held[e]
    requires if e in SetOf(idle0) then k < |idle0| && idle0[k] == e && idle == Without(idle0, k) && busy == busy0
             && out == out0
             else k < |busy0| && busy0[k] == e && busy == Without(busy0, k) && idle == idle0 && out == out0 + {e}
    ensures Counts(SetOf(idle), SetOf(busy), out, held)
    ensures SetOf(idle) + SetOf(busy) == SetOf(idle0) + SetOf(busy0) - {e} && |idle| + |busy| == |idle0| + |busy0| - 1
  {
    hide Counts, SetOf, Distinct, Without;
    Erased(SetOf(idle0), SetOf(busy0), out0, held, e);
    if e in SetOf(idle0) {
      WithoutLength(idle0, k);
      SetOfWithout(idle0, k);
    } else {
      WithoutLength(busy0, k);
      SetOfWithout(busy0, k);
    }
  }

  /** A first handle on an entry that was idle. */
  lemma RefIdle(idle: set<Entry>, busy: set<Entry>, out: set<Entry>, held: multiset<Entry>, e: Entry)
    requires Counts(idle - {e}, busy - {e}, out - {e}, held[e := 0]) && e in idle && e !in busy && e !in out
             && held[e] == 0
    requires e.inCache && e.refs == 2
    ensures Counts(idle - {e}, busy + {e}, out, held + multiset{e})
  {
    hide Counts;
    Plus(held, e);
    assert (idle - {e}) - {e} == idle - {e} && (busy + {e}) - {e} == busy - {e};
    CountsAdd(idle - {e}, busy + {e}, out, held + multiset{e}, e);
  }

  /** One handle more on an entry in use. */
  lemma RefBusy(idle: set<Entry>, busy: set<Entry>, out: set<Entry>, held: multiset<Entry>, e: Entry)
    requires Counts(idle - {e}, busy - {e}, out - {e}, held[e := 0]) && e !in idle && e in busy && e !in out
             && held[e] >= 1
    requires e.inCache && e.refs == 2 + held[e]
    ensures Counts(idle - {e}, busy + {e}, out, held + multiset{e}) && idle - {e} == idle && busy + {e} == busy
  {
    hide Counts;
    Plus(held, e);
    assert (idle - {e}) - {e} == idle - {e} && (busy + {e}) - {e} == busy - {e};
    CountsAdd(idle - {e}, busy + {e}, out, held + multiset{e}, e);
  }

  lemma RingDistinct(head: Entry, ring: seq<Entry>)
    requires Ring(head, ring)
    ensures Distinct(ring) && head !in ring
  {
  }

  /** What is known of an entry before its count changes, and its position on its list. */
  lemma Located(lru: Entry, inUse: Entry, idle: seq<Entry>, busy: seq<Entry>, out: set<Entry>, held: multiset<Entry>,
                log: seq<Entry>, e: Entry)
      returns (k: nat)
    requires Rings(lru, inUse, idle, busy) && Apart(lru, inUse, idle, busy, out, log)
    requires Counts(SetOf(idle), SetOf(busy), out, held) && (e in SetOf(idle) + SetOf(busy) || e in held)
    ensures SetOf(idle) !! SetOf(busy) && SetOf(idle) !! out && SetOf(busy) !! out && Distinct(idle) && Distinct(busy)
    ensures if e in SetOf(idle) then IdleOk(e, held) && k < |idle| && idle[k] == e
            else if e in SetOf(busy) then BusyOk(e, held) && k < |busy| && busy[k] == e
            else e in out && OutOk(e, held)
    ensures Counts(SetOf(idle) - {e}, SetOf(busy) - {e}, out - {e}, held[e := 0])
  {
    hide Rings, SetOf, Counts, Distinct, Apart;
    InSet(idle);
    InSet(busy);
    Disjoint(lru, inUse, idle, busy, out, log);
    StatusOf(SetOf(idle), SetOf(busy), out, held, e);
    CountsDrop(SetOf(idle), SetOf(busy), out, held, e);
    RingsDistinct(lru, inUse, idle, busy);
    k := 0;
    if e in SetOf(idle) { k := PositionOf(idle, e); } else if e in SetOf(busy) { k := PositionOf(busy, e); }
  }

  /** What the accounts say of one entry. */
  lemma StatusOf(idle: set<Entry>, busy: set<Entry>, out: set<Entry>, held: multiset<Entry>, e: Entry)
    requires Counts(idle, busy, out, held)
    ensures e in idle ==> IdleOk(e, held)
    ensures e in busy ==> BusyOk(e, held)
    ensures e in out ==> OutOk(e, held)
    ensures e in held ==> e in busy || e in out
  {
  }
}

/**
 sherwood_v3_table of cpp-util/ska_hashtable.h: open addressing in Robin Hood order. An entry knows
 its distance from the slot its key hashes to; a search stops as soon as it is further from home
 than the entry it looks at.
 */
module RobinHood {

  /** distance_from_desired is -1 for an empty entry and 0 for the sentinel at the end. */
  datatype Entry<K, V> = Empty | End | Full(dist: nat, key: K, val: V)

  function Dist<K, V>(e: Entry<K, V>): int { match e case Empty => -1 case End => 0 case Full(dist, _, _) => dist }

  // ----- the invariant

  predicate StepAt<K, V>(es: seq<Entry<K, V>>, i: nat)
    requires i < |es|
  {
    Dist(es[i]) <= if i == 0 then 0 else Dist(es[i - 1]) + 1
  }

  /** Along the table distances rise by at most one, from at most zero. */
  predicate Steps<K, V>(es: seq<Entry<K, V>>) { forall i :: 0 <= i < |es| ==> StepAt(es, i) }

  predicate PlacedAt<K, V>(e: Entry<K, V>, i: nat, index: (K, nat) -> nat, slots: nat, lookups: nat) {
    match e
    case Empty => true
    case End => false
    case Full(dist, key, _) => dist < lookups && i == index(key, slots) + dist
  }

  /** Every entry is where its distance says, within reach of its home slot; one sentinel ends the table. */
  predicate Placed<K, V>(es: seq<Entry<K, V>>, index: (K, nat) -> nat, slots: nat, lookups: nat) {
    && 1 <= |es| == slots + lookups && es[|es| - 1] == End
    && forall i :: 0 <= i < |es| - 1 ==> PlacedAt(es[i], i, index, slots, lookups)
  }

  predicate HasAt<K(==), V>(es: seq<Entry<K, V>>, i: nat, k: K) { i < |es| && es[i].Full? && es[i].key == k }

  /** The full entries are exactly the map m, each key in one place. */
  ghost predicate Holds<K, V>(es: seq<Entry<K, V>>, pos: map<K, nat>, m: map<K, V>) {
    && pos.Keys == m.Keys
    && (forall k :: k in m ==> HasAt(es, pos[k], k) && es[pos[k]].val == m[k])
    && (forall i :: 0 <= i < |es| && es[i].Full? ==> es[i].key in m && pos[es[i].key] == i)
  }

  // ----- why the early stop is sound

  /** Going back j slots from an entry loses at most j of its distance. */
  lemma {:induction false} Back<K, V>(es: seq<Entry<K, V>>, i: nat, j: nat)
    requires Steps(es) && i <= j < |es|
    ensures Dist(es[j]) <= Dist(es[i]) + (j - i)
    decreases j - i
  {
    if i < j {
      Back(es, i, j - 1);
      assert StepAt(es, j);
    }
  }

  /** If the search for k has gone d slots without meeting it, and the next entry is nearer to its
      home than that, then k is nowhere in the table. */
  lemma StopIsSound<K, V>(es: seq<Entry<K, V>>, index: (K, nat) -> nat, slots: nat, lookups: nat, pos: map<K, nat>,
                          m: map<K, V>, k: K, d: nat)
    requires Steps(es) && Placed(es, index, slots, lookups) && Holds(es, pos, m)
    requires index(k, slots) + d < |es| && Dist(es[index(k, slots) + d]) < d
    requires forall i :: index(k, slots) <= i < index(k, slots) + d ==> !HasAt(es, i, k)
    ensures k !in m
  {
    if k in m {
      var i := pos[k];
      assert HasAt(es, i, k);
      assert PlacedAt(es[i], i, index, slots, lookups);
      if i >= index(k, slots) + d { Back(es, index(k, slots) + d, i); }
    }
  }

  // ----- single changes to the table

  lemma PutHolds<K, V>(es: seq<Entry<K, V>>, pos: map<K, nat>, m: map<K, V>, i: nat, d: nat, k: K, v: V)
    requires Holds(es, pos, m) && i < |es| && !es[i].Full? && k !in m
    ensures Holds(es[i := Full(d, k, v)], pos[k := i], m[k := v])
  {
    var es', pos', m' := es[i := Full(d, k, v)], pos[k := i], m[k := v];
    forall x | x in m' ensures HasAt(es', pos'[x], x) && es'[pos'[x]].val == m'[x] {
      if x != k { assert HasAt(es, pos[x], x); }
    }
  }

  lemma DropHolds<K, V>(es: seq<Entry<K, V>>, pos: map<K, nat>, m: map<K, V>, i: nat)
    requires Holds(es, pos, m) && i < |es| && es[i].Full?
    ensures Holds(es[i := Empty], pos - {es[i].key}, m - {es[i].key})
  {
    var es', pos', m' := es[i := Empty], pos - {es[i].key}, m - {es[i].key};
    forall k | k in m' ensures HasAt(es', pos'[k], k) && es'[pos'[k]].val == m'[k] {
      assert HasAt(es, pos[k], k);
    }
  }

  /** An entry that takes a slot is no more than one step above its left neighbour, and no lower than what was there. */
  lemma PutSteps<K, V>(es: seq<Entry<K, V>>, i: nat, e: Entry<K, V>)
    requires Steps(es) && i < |es| && Dist(es[i]) <= Dist(e) <= if i == 0 then 0 else Dist(es[i - 1]) + 1
    ensures Steps(es[i := e])
  {
    var es' := es[i := e];
    forall j | 0 <= j < |es'| ensures StepAt(es', j) { assert StepAt(es, j); }
  }

  lemma PutPlaced<K, V>(es: seq<Entry<K, V>>, index: (K, nat) -> nat, slots: nat, lookups: nat, i: nat, e: Entry<K, V>)
    requires Placed(es, index, slots, lookups) && i < |es| - 1 && PlacedAt(e, i, index, slots, lookups)
    ensures Placed(es[i := e], index, slots, lookups)
  {
  }

  // ----- the chain of displacements

  datatype Item<K, V> = Item(key: K, val: V)

  /** A displaced element looking for a place at slot `at`, at distance d from its home; everything else is in
      the table. */
  ghost predicate Carrying<K, V>(es: seq<Entry<K, V>>, index: (K, nat) -> nat, slots: nat, lookups: nat,
                                 pos: map<K, nat>, m: map<K, V>, at: nat, d: nat, x: Item<K, V>, total: map<K, V>) {
    && Steps(es) && Placed(es, index, slots, lookups) && Holds(es, pos, m)
    && x.key !in m && total == m[x.key := x.val]
    && 1 <= d < lookups && at == index(x.key, slots) + d && index(x.key, slots) < slots
    && at < |es| && Dist(es[at - 1]) >= d - 1
  }

  /** It never gets to the sentinel. */
  lemma BeforeSentinel<K, V>(es: seq<Entry<K, V>>, index: (K, nat) -> nat, slots: nat, lookups: nat, pos: map<K, nat>,
                             m: map<K, V>, at: nat, d: nat, x: Item<K, V>, total: map<K, V>)
    requires Carrying(es, index, slots, lookups, pos, m, at, d, x, total)
    ensures at < |es| - 1 && !es[at].End?
  {
    hide Steps, Holds;
    assert at < |es| - 1;
    assert PlacedAt(es[at], at, index, slots, lookups);
  }

  lemma CarrySettles<K, V>(es: seq<Entry<K, V>>, index: (K, nat) -> nat, slots: nat, lookups: nat, pos: map<K, nat>,
                           m: map<K, V>, at: nat, d: nat, x: Item<K, V>, total: map<K, V>)
    requires Carrying(es, index, slots, lookups, pos, m, at, d, x, total) && es[at].Empty?
    ensures var es' := es[at := Full(d, x.key, x.val)];
            Steps(es') && Placed(es', index, slots, lookups) && Holds(es', pos[x.key := at], total)
  {
    hide Steps, Holds, Placed;
    BeforeSentinel(es, index, slots, lookups, pos, m, at, d, x, total);
    PutSteps(es, at, Full(d, x.key, x.val));
    PutPlaced(es, index, slots, lookups, at, Full(d, x.key, x.val));
    PutHolds(es, pos, m, at, d, x.key, x.val);
  }

  /** The element in slot i is taken out and x put there, which is further from its home. */
  lemma SwapIn<K, V>(es: seq<Entry<K, V>>, index: (K, nat) -> nat, slots: nat, lookups: nat, pos: map<K, nat>,
                     m: map<K, V>, at: nat, d: nat, x: Item<K, V>, total: map<K, V>)
      returns (pos': map<K, nat>, m': map<K, V>)
    requires Steps(es) && Placed(es, index, slots, lookups) && Holds(es, pos, m) && at < |es| - 1 && es[at].Full?
             && es[at].dist < d < lookups
    requires x.key !in m && total == m[x.key := x.val] && at == index(x.key, slots) + d && Dist(es[at - 1]) >= d - 1
    requires index(es[at].key, slots) < slots
    ensures Carrying(es[at := Full(d, x.key, x.val)], index, slots, lookups, pos', m', at + 1, es[at].dist + 1,
            Item(es[at].key, es[at].val), total)
  {
    hide Steps, Holds, Placed;
    var out, es1 := es[at].key, es[at := Empty];
    var es' := es[at := Full(d, x.key, x.val)];
    KeyAt(es, index, slots, lookups, pos, m, at);
    PutSteps(es, at, Full(d, x.key, x.val));
    PutPlaced(es, index, slots, lookups, at, Full(d, x.key, x.val));
    DropHolds(es, pos, m, at);
    PutHolds(es1, pos - {out}, m - {out}, at, d, x.key, x.val);
    assert es1[at := Full(d, x.key, x.val)] == es';
    pos', m' := (pos - {out})[x.key := at], (m - {out})[x.key := x.val];
    assert total == m'[out := es[at].val];
    assert es'[at + 1 - 1] == Full(d, x.key, x.val);
  }

  lemma KeyAt<K, V>(es: seq<Entry<K, V>>, index: (K, nat) -> nat, slots: nat, lookups: nat, pos: map<K, nat>,
                    m: map<K, V>, i: nat)
    requires Placed(es, index, slots, lookups) && Holds(es, pos, m) && i < |es| - 1 && es[i].Full?
    ensures es[i].key in m && pos[es[i].key] == i && m[es[i].key] == es[i].val && es[i].dist < lookups
            && i == index(es[i].key, slots) + es[i].dist
    ensures |es| == slots + lookups && !es[i].End?
  {
    assert PlacedAt(es[i], i, index, slots, lookups);
    assert HasAt(es, pos[es[i].key], es[i].key);
  }

  /** The displaced element moves on past an entry no nearer to its home. */
  lemma CarryPasses<K, V>(es: seq<Entry<K, V>>, index: (K, nat) -> nat, slots: nat, lookups: nat, pos: map<K, nat>,
                          m: map<K, V>, at: nat, d: nat, x: Item<K, V>, total: map<K, V>)
    requires Carrying(es, index, slots, lookups, pos, m, at, d, x, total) && Dist(es[at]) >= d && d + 1 < lookups
    ensures Carrying(es, index, slots, lookups, pos, m, at + 1, d + 1, x, total)
  {
    hide Steps, Holds;
    BeforeSentinel(es, index, slots, lookups, pos, m, at, d, x, total);
  }

  /** Giving up: the displaced element is put into the new key's slot, whatever distance is recorded
      there, so that the table again holds what it held before. */
  lemma PutBack<K, V>(es: seq<Entry<K, V>>, pos: map<K, nat>, m: map<K, V>, r: nat, k: K, v: V, x: Item<K, V>,
                      total: map<K, V>, before: map<K, V>)
    requires Holds(es, pos, m) && HasAt(es, r, k) && x.key !in m && total == m[x.key := x.val]
             && total == before[k := v] && k !in before
    ensures x.key != k && Holds(es[r := Full(es[r].dist, x.key, x.val)], (pos - {k})[x.key := r], before)
  {
    hide Holds;
    KeyThere(es, pos, m, r);
    DropHolds(es, pos, m, r);
    var es1 := es[r := Empty];
    PutHolds(es1, pos - {k}, m - {k}, r, es[r].dist, x.key, x.val);
    assert es1[r := Full(es[r].dist, x.key, x.val)] == es[r := Full(es[r].dist, x.key, x.val)];
    assert before == (m - {k})[x.key := x.val] by {
      assert before == before[k := v] - {k};
    }
  }

  lemma KeyThere<K, V>(es: seq<Entry<K, V>>, pos: map<K, nat>, m: map<K, V>, i: nat)
    requires Holds(es, pos, m) && i < |es| && es[i].Full?
    ensures es[i].key in m && pos[es[i].key] == i && m[es[i].key] == es[i].val
  {
    assert HasAt(es, pos[es[i].key], es[i].key);
  }

  // ----- moving entries towards their home

  function Moved<K, V>(es: seq<Entry<K, V>>, i: nat, t: nat): seq<Entry<K, V>>
    requires i < |es| && es[i].Full? && t <= i && i - t <= es[i].dist
  {
    es[t := es[i].(dist := es[i].dist - (i - t))][i := Empty]
  }

  lemma MoveHolds<K, V>(es: seq<Entry<K, V>>, pos: map<K, nat>, m: map<K, V>, i: nat, t: nat)
    requires Holds(es, pos, m) && t < i < |es| && es[i].Full? && i - t <= es[i].dist && es[t].Empty?
    ensures Holds(Moved(es, i, t), pos[es[i].key := t], m)
  {
    var es', pos' := Moved(es, i, t), pos[es[i].key := t];
    assert HasAt(es, pos[es[i].key], es[i].key);
    forall k | k in m ensures HasAt(es', pos'[k], k) && es'[pos'[k]].val == m[k] { assert HasAt(es, pos[k], k); }
  }

  lemma MovePlaced<K, V>(es: seq<Entry<K, V>>, index: (K, nat) -> nat, slots: nat, lookups: nat, i: nat, t: nat)
    requires Placed(es, index, slots, lookups) && t < i < |es| - 1 && es[i].Full? && i - t <= es[i].dist
    ensures Placed(Moved(es, i, t), index, slots, lookups)
  {
    assert PlacedAt(es[i], i, index, slots, lookups);
  }

  /** Slots [it - gap, it) are empty, and the distances are in order everywhere but at slot `it`,
      where an entry moved back by `gap` would be. */
  ghost predicate Gap<K, V>(es: seq<Entry<K, V>>, it: nat, gap: nat) {
    && gap <= it < |es|
    && (forall i :: 0 <= i < |es| && i != it ==> StepAt(es, i))
    && (forall i :: it - gap <= i < it ==> es[i].Empty?)
    && (Dist(es[it]) >= gap ==> Dist(es[it]) - gap <= if it == gap then 0 else Dist(es[it - gap - 1]) + 1)
  }

  lemma GapCloses<K, V>(es: seq<Entry<K, V>>, it: nat, gap: nat)
    requires Gap(es, it, gap) && Dist(es[it]) <= 0
    ensures Steps(es)
  {
    forall i | 0 <= i < |es| ensures StepAt(es, i) {}
  }

  /** One step of the shift: the gap moves one slot on, perhaps getting shorter. */
  lemma GapMoves<K, V>(es: seq<Entry<K, V>>, it: nat, gap: nat, gap': int)
    requires Gap(es, it, gap) && es[it].Full? && 1 <= gap <= es[it].dist && it + 1 < |es|
    requires gap' == if Dist(es[it + 1]) < gap then Dist(es[it + 1]) else gap
    ensures gap' >= 0 ==> Gap(Moved(es, it, it - gap), it + 1, gap')
    ensures gap' < 0 ==> Gap(Moved(es, it, it - gap), it + 1, 0)
  {
    var es' := Moved(es, it, it - gap);
    assert StepAt(es, it + 1);
    forall i | 0 <= i < |es| && i != it + 1 ensures StepAt(es', i) {
      if i != it { assert StepAt(es, i); }
    }
  }

  /** Erasing one entry opens a gap of one slot. */
  lemma GapOpens<K, V>(es: seq<Entry<K, V>>, i: nat)
    requires Steps(es) && i + 1 < |es|
    ensures Gap(es[i := Empty], i + 1, 1)
  {
    var es' := es[i := Empty];
    assert StepAt(es, i) && StepAt(es, i + 1);
    forall j | 0 <= j < |es'| && j != i + 1 ensures StepAt(es', j) { assert StepAt(es, j); }
  }

  function Cleared<K, V>(es: seq<Entry<K, V>>, b: nat, e: nat): (r: seq<Entry<K, V>>)
    requires b <= e <= |es|
    ensures |r| == |es| && forall i :: 0 <= i < |es| ==> r[i] == if b <= i < e then Empty else es[i]
  {
    seq(|es|, i requires 0 <= i < |es| => if b <= i < e then Empty else es[i])
  }

  /** Erasing a range opens a gap no longer than the next entry can move. */
  lemma RangeOpens<K, V>(es: seq<Entry<K, V>>, b: nat, e: nat, gap: nat)
    requires Steps(es) && b < e < |es| && gap == if Dist(es[e]) < e - b then Dist(es[e]) else e - b
    ensures Gap(Cleared(es, b, e), e, gap)
  {
    var es' := Cleared(es, b, e);
    forall j | 0 <= j < |es'| && j != e ensures StepAt(es', j) { assert StepAt(es, j); }
    if b > 0 { Back(es, b - 1, e); } else { Back(es, 0, e); assert StepAt(es, 0); }
  }
}

/**
 The skip list of cpp-util/skiplist.h, with integer keys. Writers are serialised, as the header
 demands, and one operation is modelled at a time. The random height of a new node is a parameter.
 */
module SkipList {
  import opened SkipRanks

  class Node {
    const key: int
    const height: nat
    var next: seq<Node?>

    constructor (key: int, height: nat)
      ensures this.key == key && this.height == height && next == seq(height, _ => null)
    {
      this.key, this.height := key, height;
      next := seq(height, _ => null);
    }
  }

  // ----- the list by rank; rank 0 is the head

  ghost function Heights(all: seq<Node>): (hs: seq<nat>)
    ensures |hs| == |all| && forall i :: 0 <= i < |all| ==> hs[i] == all[i].height
  {
    seq(|all|, i requires 0 <= i < |all| => all[i].height)
  }

  ghost function NodeAt(all: seq<Node>, r: nat): Node? { if r < |all| then all[r] else null }

  /** At level l, rank i is linked to the next node taller than l. */
  ghost predicate LinkAt(all: seq<Node>, i: nat, l: nat)
    requires i < |all|
    reads all[i]
  {
    |all[i].next| == all[i].height && (l < all[i].height ==>
      all[i].next[l] == NodeAt(all, NextRank(Heights(all), i + 1, l)))
  }

  /** So every level is the sublist of the nodes tall enough for it. */
  ghost predicate Linked(all: seq<Node>)
    reads all
  {
    forall i, l :: 0 <= i < |all| && 0 <= l ==> LinkAt(all, i, l)
  }

  ghost predicate Ordered(all: seq<Node>) {
    && |all| >= 1 && (forall i, j :: 0 <= i < j < |all| ==> all[i] != all[j])
    && (forall i, j :: 1 <= i < j < |all| ==> all[i].key < all[j].key)
  }

  ghost function Less(all: seq<Node>, key: int, i: nat): (r: nat)
    requires i < |all|
    ensures r <= i
  {
    if i == 0 || all[i].key < key then i else Less(all, key, i - 1)
  }

  /** The rank of the last node below key, or of the head. */
  ghost function LessRank(all: seq<Node>, key: int): (r: nat)
    requires |all| >= 1
    ensures r < |all|
  {
    Less(all, key, |all| - 1)
  }

  lemma {:induction false} LessIs(all: seq<Node>, key: int, i: nat)
    requires i < |all|
    ensures (Less(all, key, i) > 0 ==> all[Less(all, key, i)].key < key) && forall j :: Less(all, key, i) < j <= i ==>
              all[j].key >= key
  {
    if i > 0 && all[i].key >= key { LessIs(all, key, i - 1); }
  }

  lemma LessRankIs(all: seq<Node>, key: int)
    requires Ordered(all)
    ensures forall j :: 1 <= j <= LessRank(all, key) ==> all[j].key < key
    ensures forall j :: LessRank(all, key) < j < |all| ==> all[j].key >= key
  {
    LessIs(all, key, |all| - 1);
  }

  lemma RankOf(all: seq<Node>, key: int, j: nat)
    requires Ordered(all) && 1 <= j < |all|
    ensures j <= LessRank(all, key) <==> all[j].key < key
  {
    LessRankIs(all, key);
  }

  lemma LessRankUnique(all: seq<Node>, key: int, r: nat)
    requires Ordered(all) && r < |all| && (r > 0 ==> all[r].key < key) && (r + 1 < |all| ==> key <= all[r + 1].key)
    ensures LessRank(all, key) == r
  {
    hide LessRank;
    if r > 0 { RankOf(all, key, r); }
    if r + 1 < |all| { RankOf(all, key, r + 1); }
  }

  ghost function KeysOf(all: seq<Node>): set<int> { set i | 1 <= i < |all| :: all[i].key }

  ghost predicate OldLink(all: seq<Node>, olds: seq<seq<Node?>>, i: nat, l: nat)
    requires i < |all| == |olds|
  {
    |olds[i]| == all[i].height && (l < all[i].height ==> olds[i][l] == NodeAt(all, NextRank(Heights(all), i + 1, l)))
  }

  /** The new list's ranks. */
  lemma PutHeights(all: seq<Node>, q: nat, x: Node)
    requires q < |all|
    ensures Heights(Put(all, q, x)) == Put(Heights(all), q, x.height)
  {
  }

  /** A link of the new list, for a node that was there before. */
  lemma SplicedAt(all: seq<Node>, nexts: seq<seq<Node?>>, q: nat, x: Node, prev: seq<Node>, olds: seq<seq<Node?>>,
                  i: nat, l: nat)
    requires q < |all| && i < |all| && Ordered(all) && l < all[0].height
    requires Spliced(nexts, all, x, prev, x.height, olds) && OldLink(all, olds, i, l) && all[i].next == nexts[i]
    requires l < x.height ==> prev[l] == all[PredRank(Heights(all), q, l)]
    ensures LinkAt(Put(all, q, x), if i <= q then i else i + 1, l)
  {
    hide NextRank, PredRank, Put, Ordered, Spliced, Heights;
    NodeAtPut(all, q, x, i);
    SplicedHas(nexts, all, x, prev, olds, i, l);
    if l < all[i].height {
      HeightsAre(all, i);
      PutHeights(all, q, x);
      PredBelow(all, q, l);
      NextAfterPut(Heights(all), q, x.height, i, l);
      NodeAtPut(all, q, x, NextRank(Heights(all), i + 1, l));
      SameNode(all, i, PredRank(Heights(all), q, l));
    }
  }

  lemma NodeAtPut(all: seq<Node>, q: nat, x: Node, r: nat)
    requires q < |all|
    ensures NodeAt(Put(all, q, x), q + 1) == x && NodeAt(Put(all, q, x), if r <= q then r else r + 1) == NodeAt(all, r)
    ensures |Put(all, q, x)| == |all| + 1
  {
    hide Put;
    PutIs(all, q, x);
  }

  lemma HeightsAre(all: seq<Node>, i: nat)
    requires i < |all|
    ensures |Heights(all)| == |all| && Heights(all)[i] == all[i].height && Heights(all)[0] == all[0].height
  {
  }

  lemma PredBelow(all: seq<Node>, q: nat, l: nat)
    requires q < |all| && l < all[0].height
    ensures PredRank(Heights(all), q, l) < |all|
  {
    PredRankIs(Heights(all), q, l);
  }

  lemma SplicedHas(nexts: seq<seq<Node?>>, all: seq<Node>, x: Node, prev: seq<Node>, olds: seq<seq<Node?>>, i: nat,
                   l: nat)
    requires Spliced(nexts, all, x, prev, x.height, olds) && i < |all|
    ensures |nexts| == |all| == |olds| && x.height <= |prev|
            && SplicedLink(nexts[i], all[i], x, prev, x.height, olds[i], l)
  {
  }

  lemma SameNode(all: seq<Node>, i: nat, j: nat)
    requires Ordered(all) && i < |all| && j < |all|
    ensures all[i] == all[j] <==> i == j
  {
  }

  /** A link of the new node. */
  lemma SplicedNew(all: seq<Node>, q: nat, x: Node, olds: seq<seq<Node?>>, l: nat)
    requires |olds| == |all| && q < |all| && l < all[0].height && |x.next| == x.height
    requires l < x.height ==> OldLink(all, olds, PredRank(Heights(all), q, l), l) && NewLink(all, q, x.next, olds, l)
    ensures LinkAt(Put(all, q, x), q + 1, l)
  {
    hide NextRank, PredRank, Put;
    PutIs(all, q, x);
    PutHeights(all, q, x);
    if l < x.height {
      NextAfterPred(Heights(all), q, l);
      NextOfPut(Heights(all), q, x.height, l);
    }
  }

  ghost predicate OldLinks(all: seq<Node>, olds: seq<seq<Node?>>) {
    |olds| == |all| && forall i, l :: 0 <= i < |all| && 0 <= l ==> OldLink(all, olds, i, l)
  }

  /** After the splice every level of the new list is linked as it should be. */
  lemma SplicedLinked(all: seq<Node>, nexts: seq<seq<Node?>>, q: nat, x: Node, prev: seq<Node>, olds: seq<seq<Node?>>)
    requires OldLinks(all, olds) && q < |all| && Ordered(all) && x.height <= all[0].height && |x.next| == x.height
    requires forall i :: 0 <= i < |all| ==> all[i].height <= all[0].height
    requires Spliced(nexts, all, x, prev, x.height, olds) && Current(all, nexts)
             && NewLinks(all, q, x.next, olds, x.height)
    requires forall l :: 0 <= l < x.height ==> prev[l] == all[PredRank(Heights(all), q, l)]
    ensures Linked(Put(all, q, x))
  {
    hide NextRank, PredRank, LinkAt, OldLink, Put, SplicedLink, NewLink;
    PutIs(all, q, x);
    var all' := Put(all, q, x);
    forall i: nat, l: nat | i < |all'| ensures LinkAt(all', i, l) {
      if l >= all[0].height {
        TooHigh(all, nexts, q, x, prev, olds, i, l);
      } else if i == q + 1 {
        if l < x.height { assert OldLink(all, olds, PredRank(Heights(all), q, l), l); }
        SplicedNew(all, q, x, olds, l);
      } else {
        var o := if i <= q then i else i - 1;
        assert OldLink(all, olds, o, l);
        SplicedAt(all, nexts, q, x, prev, olds, o, l);
      }
    }
  }

  lemma TooHigh(all: seq<Node>, nexts: seq<seq<Node?>>, q: nat, x: Node, prev: seq<Node>, olds: seq<seq<Node?>>, i: nat,
                l: nat)
    requires OldLinks(all, olds) && q < |all| && Spliced(nexts, all, x, prev, x.height, olds) && Current(all, nexts)
             && i <= |all| && |x.next| == x.height
    requires x.height <= l && forall j :: 0 <= j < |all| ==> all[j].height <= l
    ensures LinkAt(Put(all, q, x), i, l)
  {
    hide NextRank;
    if i != q + 1 {
      var o := if i <= q then i else i - 1;
      assert OldLink(all, olds, o, 0) && SplicedLink(nexts[o], all[o], x, prev, x.height, olds[o], 0);
    }
  }

  /** One level of the splice. */
  lemma SpliceStep(nexts: seq<seq<Node?>>, all: seq<Node>, q: nat, x: Node, xs: seq<Node?>, prev: seq<Node>, i: nat,
                   olds: seq<seq<Node?>>)
    requires Spliced(nexts, all, x, prev, i, olds) && NewLinks(all, q, xs, olds, i) && OldLinks(all, olds)
             && Ordered(all)
    requires i < |prev| && i < |xs| && i < all[0].height && prev[i] == all[PredRank(Heights(all), q, i)]
    ensures var r := PredRank(Heights(all), q, i);
            && i < |nexts[r]| && Spliced(nexts[r := nexts[r][i := x]], all, x, prev, i + 1, olds)
            && NewLinks(all, q, xs[i := nexts[r][i]], olds, i + 1)
  {
    hide PredRank, NextRank;
    var r := PredRank(Heights(all), q, i);
    assert SplicedLink(nexts[r], all[r], x, prev, i, olds[r], i);
    assert OldLink(all, olds, r, i);
    var nexts', xs' := nexts[r := nexts[r][i := x]], xs[i := nexts[r][i]];
    var n := i + 1;
    forall j: nat, l: nat | j < |all| ensures SplicedLink(nexts'[j], all[j], x, prev, n, olds[j], l) {
      assert SplicedLink(nexts[j], all[j], x, prev, i, olds[j], l);
    }
    forall l | 0 <= l < i + 1 ensures NewLink(all, q, xs', olds, l) {
      if l < i { assert NewLink(all, q, xs, olds, l); }
    }
  }

  lemma PutOrdered(all: seq<Node>, q: nat, x: Node)
    requires Ordered(all) && q == LessRank(all, x.key) && x !in all && x.key !in KeysOf(all)
    ensures Ordered(Put(all, q, x)) && KeysOf(Put(all, q, x)) == KeysOf(all) + {x.key}
  {
    hide LessRank, Put;
    LessRankIs(all, x.key);
    PutIs(all, q, x);
    var all' := Put(all, q, x);
    forall i, j | 0 <= i < j < |all'| ensures all'[i] != all'[j] {
      assert all'[i] == x || all'[i] in all;
      assert all'[j] == x || all'[j] in all;
    }
    forall i, j | 1 <= i < j < |all'| ensures all'[i].key < all'[j].key {
      if i != q + 1 { assert all[if i <= q then i else i - 1].key in KeysOf(all); }
      if j != q + 1 { assert all[if j <= q then j else j - 1].key in KeysOf(all); }
    }
    forall k | k in KeysOf(all) ensures k in KeysOf(all') {
      var i :| 1 <= i < |all| && all[i].key == k;
      assert all'[if i <= q then i else i + 1].key == k;
    }
    assert all'[q + 1].key == x.key;
  }

  /** prev[0] is the node inserted last, and above its height prev holds its predecessors. */
  ghost predicate Finger(all: seq<Node>, at: nat, prev: seq<Node>, prevHeight: nat, maxHeight: nat, kMax: nat) {
    && at < |all| && |prev| == kMax && 1 <= prevHeight <= maxHeight <= kMax && all[0].height == kMax
    && prev[0] == all[at]
    && (at > 0 ==> all[at].height == prevHeight) && (at == 0 ==> |all| == 1 && prevHeight == 1 && maxHeight == 1)
    && forall l :: prevHeight <= l < maxHeight ==> prev[l] == all[PredRank(Heights(all), at, l)]
  }

  lemma FingerIs(all: seq<Node>, at: nat, prev: seq<Node>, prevHeight: nat, maxHeight: nat, kMax: nat)
    requires Finger(all, at, prev, prevHeight, maxHeight, kMax)
    ensures |all| >= 1 && |prev| == kMax >= 1
  {
  }

  lemma FingerMoves(all: seq<Node>, q: nat, x: Node, prev: seq<Node>, maxHeight: nat, kMax: nat)
    requires q < |all| && |prev| == kMax && 1 <= x.height <= maxHeight <= kMax && all[0].height == kMax
    requires forall l :: 0 <= l < maxHeight ==> prev[l] == all[PredRank(Heights(all), q, l)]
    ensures Finger(Put(all, q, x), q + 1, prev[0 := x], x.height, maxHeight, kMax)
  {
    hide PredRank, Put;
    PutIs(all, q, x);
    NewFinger(all, q, x);
  }

  /** The loop of Insert that links the new node in, level by level. */
  method Splice(ghost all: seq<Node>, ghost q: nat, x: Node, prev: seq<Node>, ghost olds: seq<seq<Node?>>)
      returns (ghost nexts: seq<seq<Node?>>)
    requires q < |all| && Ordered(all) && x !in all && x.height <= all[0].height && x.height <= |prev|
             && |x.next| == x.height
    requires OldLinks(all, olds) && Current(all, olds)
    requires forall l :: 0 <= l < x.height ==> prev[l] == all[PredRank(Heights(all), q, l)]
    modifies all, x
    ensures |x.next| == x.height && Current(all, nexts) && Spliced(nexts, all, x, prev, x.height, olds)
            && NewLinks(all, q, x.next, olds, x.height)
  {
    hide PredRank, NextRank, OldLinks, Spliced, NewLinks;
    nexts := olds;
    NotYetSpliced(olds, all, q, x, prev);
    var i := 0;
    while i < x.height
      invariant 0 <= i <= x.height && |x.next| == x.height
      invariant Current(all, nexts) && Spliced(nexts, all, x, prev, i, olds) && NewLinks(all, q, x.next, olds, i)
    {
      SpliceStep(nexts, all, q, x, x.next, prev, i, olds);
      ghost var r := PredRank(Heights(all), q, i);
      nexts := nexts[r := nexts[r][i := x]];
      x.next := x.next[i := prev[i].next[i]];
      prev[i].next := prev[i].next[i := x];
      i := i + 1;
    }
  }

  class SkipList {
    const kMax: nat
    const head: Node
    var maxHeight: nat
    var prev: seq<Node>
    var prevHeight: nat
    ghost var all: seq<Node>
    ghost var at: nat

    ghost predicate Shape()
      reads this, all
    {
      && Ordered(all) && Linked(all) && all[0] == head && head.height == kMax
      && 1 <= maxHeight <= kMax && forall i :: 1 <= i < |all| ==> 1 <= all[i].height <= maxHeight
    }

    ghost predicate Valid()
      reads this, all
    {
      Shape() && Finger(all, at, prev, prevHeight, maxHeight, kMax)
    }

    ghost function Keys(): set<int>
      reads this
    {
      KeysOf(all)
    }

    constructor (maxHeight: nat)
      requires maxHeight >= 1
      ensures Valid() && kMax == maxHeight && Keys() == {} && fresh(all)
    {
      var h := new Node(0, maxHeight);
      kMax, head, this.maxHeight, prevHeight := maxHeight, h, 1, 1;
      prev := seq(maxHeight, _ => h);
      all, at := [h], 0;
    }

    /** FindLessThan: the last node below the key, and on the way its predecessor at every level. */
    method FindLessThan(key: int, prev0: seq<Node>) returns (x: Node, prev': seq<Node>)
      requires Shape() && |prev0| == kMax
      ensures |all| >= 1 && x == all[LessRank(all, key)] && |prev'| == kMax
      ensures forall l :: 0 <= l < maxHeight ==> prev'[l] == all[PredRank(Heights(all), LessRank(all, key), l)]
      ensures forall l :: maxHeight <= l < kMax ==> prev'[l] == prev0[l]
    {
      hide Linked, NextRank, PredRank, LessRank, LinkAt;
      ghost var hs, q, i: nat := Heights(all), LessRank(all, key), 0;
      LessRankIs(all, key);
      x, prev' := head, prev0;
      var level: nat := maxHeight - 1;
      var lastNotAfter: Node? := null;
      while true
        invariant 0 <= level < maxHeight && i <= q && x == all[i] && hs[i] > level && |prev'| == kMax
        invariant lastNotAfter != null ==> lastNotAfter.key >= key
        invariant forall l :: level < l < maxHeight ==> prev'[l] == all[PredRank(hs, q, l)]
        invariant forall l :: maxHeight <= l < kMax ==> prev'[l] == prev0[l]
        decreases level, |all| - i
      {
        LinkHas(all, i, level);
        var next := x.next[level];
        if next != lastNotAfter && next != null && next.key < key {
          x := next;
          i := NextRank(hs, i + 1, level);
        } else {
          StepDown(hs, i, q, level);
          prev' := prev'[level := x];
          if level == 0 {
            PredIsSelf(hs, q, i);
            return;
          }
          lastNotAfter := next;
          level := level - 1;
        }
      }
    }

    /** The first part of Insert. Whether the finger is reused or a search made, prev ends up holding
        what a full search would find. */
    method FindPrev(key: int)
      requires Valid()
      modifies this`prev
      ensures Shape() && |prev| == kMax
      ensures forall l :: 0 <= l < maxHeight ==> prev[l] == all[PredRank(Heights(all), LessRank(all, key), l)]
    {
      hide Linked, PredRank, NextRank, LessRank, LinkAt;
      ghost var hs := Heights(all);
      LinkHas(all, at, 0);
      NextAtBottom(all, at);
      var next := prev[0].next[0];
      if !(next != null && next.key < key) && (prev[0] == head || prev[0].key < key) {
        LessRankUnique(all, key, at);
        assert prev[0] != head || (prevHeight == 1 && maxHeight == 1);
        RepeatFirst();
        forall l | 0 <= l < maxHeight ensures prev[l] == all[PredRank(hs, at, l)] {
          if l < prevHeight { PredOfTall(hs, at, l); } else { assert old(prev)[l] == all[PredRank(hs, at, l)]; }
        }
      } else {
        var x;
        x, prev := FindLessThan(key, prev);
      }
    }

    /** The loop of the fast path: the node inserted last stands at every level it reaches. */
    method RepeatFirst()
      requires 1 <= prevHeight <= |prev|
      modifies this`prev
      ensures |prev| == |old(prev)|
      ensures forall l :: 0 <= l < |prev| ==> prev[l] == if l < prevHeight then old(prev)[0] else old(prev)[l]
    {
      var i := 1;
      while i < prevHeight
        invariant 1 <= i <= prevHeight && |prev| == |old(prev)|
        invariant forall l :: 0 <= l < |prev| ==> prev[l] == if l < i then old(prev)[0] else old(prev)[l]
      {
        prev := prev[i := prev[0]];
        i := i + 1;
      }
    }

    /** The last part of Insert: the new node is put between its predecessors and their successors. */
    method LinkIn(x: Node, ghost q: nat)
      requires Shape() && |prev| == kMax && q < |all| && x !in all && 1 <= x.height <= kMax && |x.next| == x.height
      requires forall l :: 0 <= l < x.height ==> prev[l] == all[PredRank(Heights(all), q, l)]
      modifies all, x
      ensures Linked(Put(all, q, x))
    {
      hide Linked, PredRank, NextRank, LinkAt, OldLinks, Spliced, NewLinks;
      ghost var nodes := all;
      ghost var olds := seq(|nodes|, i requires 0 <= i < |nodes| reads nodes => nodes[i].next);
      LinksAre(all, olds);
      ghost var nexts := Splice(all, q, x, prev, olds);
      SplicedLinked(all, nexts, q, x, prev, olds);
    }

    /** A node taller than all others: above them its predecessor is the head. */
    method Raise(height: nat, ghost q: nat)
      requires Shape() && |prev| == kMax && maxHeight < height <= kMax && q < |all|
      requires forall l :: 0 <= l < maxHeight ==> prev[l] == all[PredRank(Heights(all), q, l)]
      modifies this`prev, this`maxHeight
      ensures Shape() && |prev| == kMax && maxHeight == height
      ensures forall l :: 0 <= l < maxHeight ==> prev[l] == all[PredRank(Heights(all), q, l)]
    {
      hide Linked, PredRank, NextRank, LinkAt, LessRank;
      var i := maxHeight;
      while i < height
        invariant maxHeight <= i <= height && |prev| == kMax
        invariant forall l :: maxHeight <= l < i ==> prev[l] == head
        invariant forall l :: 0 <= l < maxHeight ==> prev[l] == all[PredRank(Heights(all), q, l)]
        modifies this`prev
      {
        prev := prev[i := head];
        i := i + 1;
      }
      forall l | maxHeight <= l < height ensures PredRank(Heights(all), q, l) == 0 { OnlyHead(all, q, l); }
      maxHeight := height;
    }

    /** The new node takes its place and becomes the finger. */
    method Place(x: Node, ghost q: nat)
      requires Shape() && |prev| == kMax && q == LessRank(all, x.key) && x !in all && x.key !in Keys()
               && 1 <= x.height <= maxHeight && |x.next| == x.height
      requires forall l :: 0 <= l < maxHeight ==> prev[l] == all[PredRank(Heights(all), q, l)]
      modifies this, all, x
      ensures Valid() && all == Put(old(all), q, x) && Keys() == old(Keys()) + {x.key}
    {
      hide Linked, PredRank, NextRank, LinkAt, LessRank, Finger, Put, KeysOf;
      LinkIn(x, q);
      PutOrdered(all, q, x);
      PutIs(all, q, x);
      FingerMoves(all, q, x, prev, maxHeight, kMax);
      prev := prev[0 := x];
      prevHeight := x.height;
      all, at := Put(all, q, x), q + 1;
    }

    /** Insert: the key joins the list, at whatever height was drawn. */
    method Insert(key: int, height: nat)
      requires Valid() && key !in Keys() && 1 <= height <= kMax
      modifies this, all
      ensures Valid() && Keys() == old(Keys()) + {key} && forall n :: n in all ==> n in old(all) || fresh(n)
    {
      hide Linked, PredRank, NextRank, LinkAt, LessRank, Finger, Put, KeysOf;
      ghost var q := LessRank(all, key);
      FingerIs(all, at, prev, prevHeight, maxHeight, kMax);
      FindPrev(key);
      if height > maxHeight {
        Raise(height, q);
      }
      var x := new Node(key, height);
      ghost var before := all;
      Place(x, q);
      PutIs(before, q, x);
      assert forall n :: n in all ==> n == x || n in before;
    }

    /** FindGreaterOrEqual: the first node not below the key. */
    method FindGreaterOrEqual(key: int) returns (r: Node?)
      requires Shape()
      ensures |all| >= 1 && r == NodeAt(all, LessRank(all, key) + 1)
    {
      hide Linked, NextRank, PredRank, LessRank, LinkAt;
      ghost var hs, q, i: nat := Heights(all), LessRank(all, key), 0;
      LessRankIs(all, key);
      var x := head;
      var level: nat := maxHeight - 1;
      var lastBigger: Node? := null;
      while true
        invariant 0 <= level < maxHeight && i <= q && x == all[i] && hs[i] > level
        invariant lastBigger != null ==> lastBigger.key > key
        decreases level, |all| - i
      {
        LinkHas(all, i, level);
        var next := x.next[level];
        var cmp := if next == null || next == lastBigger then 1 else next.key - key;
        if cmp == 0 || (cmp > 0 && level == 0) {
          if level == 0 { NextAtBottom(all, i); }
          FoundRank(all, key, i, NextRank(hs, i + 1, level));
          return next;
        } else if cmp < 0 {
          x := next;
          i := NextRank(hs, i + 1, level);
        } else {
          lastBigger := next;
          level := level - 1;
        }
      }
    }

    /** Contains */
    method Contains(key: int) returns (found: bool)
      requires Shape()
      ensures found <==> key in Keys()
    {
      hide Linked, LessRank, LinkAt;
      var x := FindGreaterOrEqual(key);
      found := x != null && x.key == key;
      KeyRank(all, key);
    }

    /** FindLast */
    method FindLast() returns (x: Node)
      requires Shape()
      ensures |all| >= 1 && x == all[|all| - 1]
    {
      hide Linked, NextRank, LinkAt;
      ghost var hs, i: nat := Heights(all), 0;
      x := head;
      var level: nat := maxHeight - 1;
      while true
        invariant 0 <= level < maxHeight && i < |all| && x == all[i] && hs[i] > level
        decreases level, |all| - i
      {
        LinkHas(all, i, level);
        var next := x.next[level];
        if next == null {
          if level == 0 {
            NextAtBottom(all, i);
            return;
          }
          level := level - 1;
        } else {
          x := next;
          i := NextRank(hs, i + 1, level);
        }
      }
    }
  }

  class Iterator {
    const list: SkipList
    var node: Node?

    ghost predicate Valid()
      reads this, list, list.all
    {
      list.Shape() && (node != null ==> node in list.all[1..])
    }

    constructor (list: SkipList)
      requires list.Shape()
      ensures Valid() && this.list == list && node == null
    {
      this.list, node := list, null;
    }

    /** Seek: the first entry with a key not below the target. */
    method Seek(target: int)
      requires Valid()
      modifies this
      ensures Valid()
      ensures node == null ==> forall k :: k in list.Keys() ==> k < target
      ensures node != null ==> target <= node.key && forall k :: k in list.Keys() ==> k < target || node.key <= k
    {
      hide Linked, LessRank;
      node := list.FindGreaterOrEqual(target);
      AtOrAfter(list.all, target);
    }

    /** Prev: the entry before, or none. */
    method Prev()
      requires Valid() && node != null
      modifies this
      ensures Valid()
      ensures node == null ==> forall k :: k in list.Keys() ==> old(node.key) <= k
      ensures node != null ==> node.key < old(node.key) && forall k :: k in list.Keys() ==>
                k <= node.key || old(node.key) <= k
      ensures |list.all| >= 1 && (node != null ==> LessRank(list.all, node.key) < LessRank(list.all, old(node.key)))
    {
      hide Linked, LessRank;
      var x, unused := list.FindLessThan(node.key, seq(list.kMax, _ => list.head));
      JustBelow(list.all, node.key);
      node := x;
      if node == list.head {
        node := null;
      }
    }

    /** SeekToLast */
    method SeekToLast()
      requires Valid()
      modifies this
      ensures Valid()
      ensures node == null ==> list.Keys() == {}
      ensures node != null ==> forall k :: k in list.Keys() ==> k <= node.key
    {
      hide Linked;
      node := list.FindLast();
      LastRank(list.all);
      if node == list.head {
        node := null;
      }
    }

    /** SeekForPrev: the last entry with a key not above the target. */
    method SeekForPrev(target: int)
      requires Valid()
      modifies this
      ensures Valid()
      ensures node == null ==> forall k :: k in list.Keys() ==> target < k
      ensures node != null ==> node.key <= target && forall k :: k in list.Keys() ==> k <= node.key || target < k
    {
      hide Linked, Ordered, KeysOf;
      Seek(target);
      if node == null {
        SeekToLast();
      }
      while node != null && target < node.key
        invariant Valid()
        invariant node == null ==> forall k :: k in list.Keys() ==> target < k
        invariant node != null ==> forall k :: k in list.Keys() ==> k <= node.key || target < k
        decreases if node == null then 0 else 1 + LessRank(list.all, node.key)
      {
        Prev();
      }
    }
  }

  ghost predicate SplicedLink(now: seq<Node?>, node: Node, x: Node, prev: seq<Node>, n: nat, was: seq<Node?>, l: nat)
    requires n <= |prev|
  {
    |now| == |was| && (l < |was| ==> now[l] == if l < n && prev[l] == node then x else was[l])
  }

  /** The new node stands after its predecessors at the first n levels; nothing else has changed. */
  ghost predicate Spliced(nexts: seq<seq<Node?>>, all: seq<Node>, x: Node, prev: seq<Node>, n: nat,
                          olds: seq<seq<Node?>>) {
    |nexts| == |all| == |olds| && n <= |prev| && forall i, l :: 0 <= i < |all| && 0 <= l ==>
      SplicedLink(nexts[i], all[i], x, prev, n, olds[i], l)
  }

  ghost predicate NewLink(all: seq<Node>, q: nat, xs: seq<Node?>, olds: seq<seq<Node?>>, l: nat)
    requires |olds| == |all| && q < |all| && l < all[0].height && l < |xs|
  {
    var r := PredRank(Heights(all), q, l);
    l < |olds[r]| && xs[l] == olds[r][l]
  }

  /** And it points to what they pointed to. */
  ghost predicate NewLinks(all: seq<Node>, q: nat, xs: seq<Node?>, olds: seq<seq<Node?>>, n: nat) {
    |olds| == |all| && q < |all| && n <= |xs| && n <= all[0].height && forall l :: 0 <= l < n ==>
      NewLink(all, q, xs, olds, l)
  }

  ghost predicate Current(all: seq<Node>, nexts: seq<seq<Node?>>)
    reads all
  {
    |nexts| == |all| && forall i :: 0 <= i < |all| ==> all[i].next == nexts[i]
  }

  lemma LinkHas(all: seq<Node>, i: nat, l: nat)
    requires Linked(all) && i < |all| && l < all[i].height
    ensures |all[i].next| == all[i].height && all[i].next[l] == NodeAt(all, NextRank(Heights(all), i + 1, l))
    ensures i < NextRank(Heights(all), i + 1, l) <= |all|
    ensures NextRank(Heights(all), i + 1, l) < |all| ==> Heights(all)[NextRank(Heights(all), i + 1, l)] > l
  {
    assert LinkAt(all, i, l);
    NextRankIs(Heights(all), i + 1, l);
  }

  /** At the bottom level the predecessor of rank q is q itself. */
  lemma PredIsSelf(hs: seq<nat>, q: nat, i: nat)
    requires q < |hs| && hs[0] > 0 && (forall j :: 0 <= j < |hs| ==> hs[j] >= 1) && PredRank(hs, q, 0) == i
    ensures i == q
  {
  }

  lemma NotYetSpliced(olds: seq<seq<Node?>>, all: seq<Node>, q: nat, x: Node, prev: seq<Node>)
    requires |olds| == |all| && q < |all|
    ensures Spliced(olds, all, x, prev, 0, olds) && NewLinks(all, q, x.next, olds, 0)
  {
  }

  /** Where the search for the first node not below the key may stop. */
  lemma FoundRank(all: seq<Node>, key: int, i: nat, r: nat)
    requires Ordered(all) && i < r <= |all| && (i > 0 ==> all[i].key < key)
    requires (r < |all| && all[r].key == key) || (r == i + 1 && (r < |all| ==> all[r].key > key))
    ensures LessRank(all, key) + 1 == r
  {
    LessRankUnique(all, key, r - 1);
  }

  lemma KeyRank(all: seq<Node>, key: int)
    requires Ordered(all)
    ensures var x := NodeAt(all, LessRank(all, key) + 1); key in KeysOf(all) <==> x != null && x.key == key
  {
    hide LessRank;
    LessRankIs(all, key);
    if key in KeysOf(all) {
      var i :| 1 <= i < |all| && all[i].key == key;
      RankOf(all, key, i);
    }
  }

  lemma AtOrAfter(all: seq<Node>, key: int)
    requires Ordered(all)
    ensures var x := NodeAt(all, LessRank(all, key) + 1);
            && (x == null ==> forall k :: k in KeysOf(all) ==> k < key)
            && (x != null ==> x in all[1..] && key <= x.key && forall k :: k in KeysOf(all) ==> k < key || x.key <= k)
  {
    hide LessRank;
    LessRankIs(all, key);
    var q := LessRank(all, key);
    if q + 1 < |all| { assert all[1..][q] == all[q + 1]; }
    forall k | k in KeysOf(all) ensures k < key || (q + 1 < |all| && all[q + 1].key <= k) {
      var i :| 1 <= i < |all| && all[i].key == k;
      if i > q + 1 { assert all[q + 1].key < all[i].key; }
    }
  }

  lemma JustBelow(all: seq<Node>, key: int)
    requires Ordered(all)
    ensures var q := LessRank(all, key);
            && (q == 0 ==> forall k :: k in KeysOf(all) ==> key <= k)
            && (q > 0 ==>
                  && all[q] in all[1..] && all[q] != all[0] && all[q].key < key && LessRank(all, all[q].key) == q - 1
                  && forall k :: k in KeysOf(all) ==> k <= all[q].key || key <= k)
  {
    hide LessRank;
    LessRankIs(all, key);
    var q := LessRank(all, key);
    if q > 0 {
      assert all[1..][q - 1] == all[q];
      LessRankUnique(all, all[q].key, q - 1);
    }
    forall k | k in KeysOf(all) ensures key <= k || (q > 0 && k <= all[q].key) {
      var i :| 1 <= i < |all| && all[i].key == k;
      if i < q { assert all[i].key < all[q].key; }
    }
  }

  lemma LastRank(all: seq<Node>)
    requires Ordered(all)
    ensures all[|all| - 1] == all[0] <==> |all| == 1
    ensures |all| == 1 ==> KeysOf(all) == {}
    ensures |all| > 1 ==> all[|all| - 1] in all[1..] && forall k :: k in KeysOf(all) ==> k <= all[|all| - 1].key
  {
    if |all| > 1 { assert all[1..][|all| - 2] == all[|all| - 1]; }
  }

  lemma NextAtBottom(all: seq<Node>, i: nat)
    requires i < |all| && forall j :: 0 <= j < |all| ==> all[j].height >= 1
    ensures NextRank(Heights(all), i + 1, 0) == i + 1
  {
  }

  lemma PredOfTall(hs: seq<nat>, i: nat, l: nat)
    requires i < |hs| && hs[0] > l && hs[i] > l
    ensures PredRank(hs, i, l) == i
  {
  }

  lemma OnlyHead(all: seq<Node>, q: nat, l: nat)
    requires q < |all| && all[0].height > l && forall j :: 1 <= j < |all| ==> all[j].height <= l
    ensures PredRank(Heights(all), q, l) == 0
  {
    hide PredRank;
    PredRankUnique(Heights(all), q, l, 0);
  }

  lemma LinksAre(all: seq<Node>, olds: seq<seq<Node?>>)
    requires Linked(all) && |olds| == |all| && forall i :: 0 <= i < |all| ==> olds[i] == all[i].next
    ensures OldLinks(all, olds)
  {
    hide NextRank;
    forall i: nat, l: nat | i < |all| ensures OldLink(all, olds, i, l) { assert LinkAt(all, i, l); }
  }

  /** Above the new node its predecessors are those of its place. */
  lemma NewFinger(all: seq<Node>, q: nat, x: Node)
    requires q < |all|
    ensures forall l :: x.height <= l < all[0].height ==>
              PredRank(Heights(Put(all, q, x)), q + 1, l) == PredRank(Heights(all), q, l)
              && Put(all, q, x)[PredRank(Heights(all), q, l)] == all[PredRank(Heights(all), q, l)]
  {
    hide PredRank, Put;
    PutHeights(all, q, x);
    PutIs(all, q, x);
    forall l | x.height <= l < all[0].height
      ensures PredRank(Put(Heights(all), q, x.height), q + 1, l) == PredRank(Heights(all), q, l)
    {
      PredOfPut(Heights(all), q, x.height, l);
    }
  }
}

/**
 The order of a skip list by rank: `hs` gives the height of the node at each rank, rank 0 being the
 head. At level l only the nodes taller than l are linked.
 */
module SkipRanks {

  /** The first rank from i on of a node taller than l, or |hs|. */
  function NextRank(hs: seq<nat>, i: nat, l: nat): (r: nat)
    requires i <= |hs|
    ensures i <= r <= |hs|
    decreases |hs| - i
  {
    if i == |hs| || hs[i] > l then i else NextRank(hs, i + 1, l)
  }

  /** The last rank up to i of a node taller than l. */
  function PredRank(hs: seq<nat>, i: nat, l: nat): (r: nat)
    requires i < |hs| && hs[0] > l
    ensures r <= i && hs[r] > l
  {
    if i == 0 || hs[i] > l then i else PredRank(hs, i - 1, l)
  }

  lemma {:induction false} NextRankIs(hs: seq<nat>, i: nat, l: nat)
    requires i <= |hs|
    ensures NextRank(hs, i, l) < |hs| ==> hs[NextRank(hs, i, l)] > l
    ensures forall j :: i <= j < NextRank(hs, i, l) ==> hs[j] <= l
    decreases |hs| - i
  {
    if i < |hs| && hs[i] <= l { NextRankIs(hs, i + 1, l); }
  }

  lemma {:induction false} PredRankIs(hs: seq<nat>, i: nat, l: nat)
    requires i < |hs| && hs[0] > l
    ensures forall j :: PredRank(hs, i, l) < j <= i ==> hs[j] <= l
  {
    if i > 0 && hs[i] <= l { PredRankIs(hs, i - 1, l); }
  }

  lemma {:induction false} NextRankUnique(hs: seq<nat>, i: nat, l: nat, r: nat)
    requires i <= r <= |hs| && (r < |hs| ==> hs[r] > l) && forall j :: i <= j < r ==> hs[j] <= l
    ensures NextRank(hs, i, l) == r
    decreases r - i
  {
    if i < r { NextRankUnique(hs, i + 1, l, r); }
  }

  lemma {:induction false} PredRankUnique(hs: seq<nat>, i: nat, l: nat, r: nat)
    requires r <= i < |hs| && hs[0] > l && hs[r] > l && forall j :: r < j <= i ==> hs[j] <= l
    ensures PredRank(hs, i, l) == r
    decreases i - r
  {
    if r < i { PredRankUnique(hs, i - 1, l, r); }
  }

  /** The step down: nothing taller than l lies between rank i and rank q. */
  lemma StepDown(hs: seq<nat>, i: nat, q: nat, l: nat)
    requires i <= q < |hs| && hs[0] > l && hs[i] > l && NextRank(hs, i + 1, l) > q
    ensures PredRank(hs, q, l) == i
  {
    NextRankIs(hs, i + 1, l);
    PredRankUnique(hs, q, l, i);
  }

  /** What follows the predecessor follows rank q. */
  lemma NextAfterPred(hs: seq<nat>, q: nat, l: nat)
    requires q < |hs| && hs[0] > l
    ensures NextRank(hs, PredRank(hs, q, l) + 1, l) == NextRank(hs, q + 1, l) > q
  {
    PredRankIs(hs, q, l);
    NextRankIs(hs, q + 1, l);
    NextRankUnique(hs, PredRank(hs, q, l) + 1, l, NextRank(hs, q + 1, l));
  }

  function Put<T>(s: seq<T>, q: nat, x: T): (r: seq<T>)
    requires q < |s|
    ensures |r| == |s| + 1 && forall i :: 0 <= i < |r| ==>
              r[i] == if i <= q then s[i] else if i == q + 1 then x else s[i - 1]
  {
    s[..q + 1] + [x] + s[q + 1..]
  }

  lemma PutIs<T>(s: seq<T>, q: nat, x: T)
    requires q < |s|
    ensures |Put(s, q, x)| == |s| + 1 && Put(s, q, x)[q + 1] == x
    ensures forall i :: 0 <= i <= q ==> Put(s, q, x)[i] == s[i]
    ensures forall i :: q < i < |s| ==> Put(s, q, x)[i + 1] == s[i]
    ensures forall i :: q + 1 < i <= |s| ==> Put(s, q, x)[i] == s[i - 1]
  {
  }

  /** The successor at level l of old rank i, after a node of height h was put in after rank q. */
  lemma NextAfterPut(hs: seq<nat>, q: nat, h: nat, i: nat, l: nat)
    requires q < |hs| && i < |hs| && hs[i] > l && hs[0] > l
    ensures var r, r' := NextRank(hs, i + 1, l), NextRank(Put(hs, q, h), (if i <= q then i else i + 1) + 1, l);
            r' == if l < h && i == PredRank(hs, q, l) then q + 1 else if r <= q then r else r + 1
  {
    hide NextRank, PredRank, Put;
    var i' := if i <= q then i else i + 1;
    var r := NextRank(hs, i + 1, l);
    PutIs(hs, q, h);
    NextRankIs(hs, i + 1, l);
    PredRankIs(hs, q, l);
    if l < h && i == PredRank(hs, q, l) {
      NextRankUnique(Put(hs, q, h), i' + 1, l, q + 1);
    } else if r <= q {
      NextRankUnique(Put(hs, q, h), i' + 1, l, r);
    } else {
      if i <= q { StepDown(hs, i, q, l); }
      PutSkips(hs, q, h, i, l, r);
      NextRankUnique(Put(hs, q, h), i' + 1, l, r + 1);
    }
  }

  lemma PutSkips(hs: seq<nat>, q: nat, h: nat, i: nat, l: nat, r: nat)
    requires i < r <= |hs| && q < r && q < |hs| && (forall j :: i + 1 <= j < r ==> hs[j] <= l) && (i <= q ==> h <= l)
    ensures forall j :: (if i <= q then i else i + 1) + 1 <= j < r + 1 ==> Put(hs, q, h)[j] <= l
  {
  }

  /** The new node's own successor. */
  lemma NextOfPut(hs: seq<nat>, q: nat, h: nat, l: nat)
    requires q < |hs|
    ensures NextRank(Put(hs, q, h), q + 2, l) == NextRank(hs, q + 1, l) + 1
  {
    var hs', r := Put(hs, q, h), NextRank(hs, q + 1, l);
    NextRankIs(hs, q + 1, l);
    forall j | q + 2 <= j < r + 1 ensures hs'[j] <= l {}
    NextRankUnique(hs', q + 2, l, r + 1);
  }

  /** The predecessors of a place after the new node. */
  lemma PredOfPut(hs: seq<nat>, q: nat, h: nat, l: nat)
    requires q < |hs| && hs[0] > l
    ensures PredRank(Put(hs, q, h), q + 1, l) == if l < h then q + 1 else PredRank(hs, q, l)
  {
    var hs', r := Put(hs, q, h), PredRank(hs, q, l);
    PredRankIs(hs, q, l);
    if l >= h { PredRankUnique(hs', q + 1, l, r); }
  }

  // ----- levels

  /** The ranks met by following level l from rank i. */
  function Level(hs: seq<nat>, i: nat, l: nat): seq<nat>
    requires i < |hs|
    decreases |hs| - i
  {
    var r := NextRank(hs, i + 1, l);
    if r == |hs| then [] else [r] + Level(hs, r, l)
  }

  /** They are the nodes taller than l, in order. */
  lemma {:induction false} LevelIs(hs: seq<nat>, i: nat, l: nat)
    requires i < |hs|
    ensures forall r :: r in Level(hs, i, l) <==> i < r < |hs| && hs[r] > l
    ensures forall a, b :: 0 <= a < b < |Level(hs, i, l)| ==> Level(hs, i, l)[a] < Level(hs, i, l)[b]
    decreases |hs| - i
  {
    hide NextRank;
    var r := NextRank(hs, i + 1, l);
    NextRankIs(hs, i + 1, l);
    if r < |hs| {
      LevelIs(hs, r, l);
      var rest := Level(hs, r, l);
      assert Level(hs, i, l) == [r] + rest;
      assert forall j :: j in [r] + rest <==> j == r || j in rest;
      assert forall a :: 0 <= a < |rest| ==> rest[a] in rest;
    }
  }

  /** Each level is a sublist of the one below. */
  lemma LevelsNest(hs: seq<nat>, l: nat)
    requires |hs| > 0
    ensures forall r :: r in Level(hs, 0, l + 1) ==> r in Level(hs, 0, l)
  {
    hide Level;
    LevelIs(hs, 0, l);
    LevelIs(hs, 0, l + 1);
  }
}

/**
 The B-tree of app/simpleBtree seen as a tree of key sequences: what its split, merge and shift
 operations mean, and how a change below a node shows in the in-order sequence above it. `at` is the
 node object a subtree is stored in.
 */
module BTreeModel {

  const M: nat := 2

  datatype Tree<T> = Tree(at: T, keys: seq<int>, kids: seq<Tree<T>>)

  // ----- the keys in order

  /** Each key followed by the sequence to its right. */
  function Post(keys: seq<int>, fs: seq<seq<int>>): seq<int> {
    if keys == [] || fs == [] then [] else [keys[0]] + fs[0] + Post(keys[1..], fs[1..])
  }

  function Weave(keys: seq<int>, fs: seq<seq<int>>): seq<int> {
    if fs == [] then keys else fs[0] + Post(keys, fs[1..])
  }

  function Flat<T>(t: Tree<T>): seq<int> {
    Weave(t.keys, seq(|t.kids|, i requires 0 <= i < |t.kids| => Flat(t.kids[i])))
  }

  function Flats<T>(kids: seq<Tree<T>>): (fs: seq<seq<int>>)
    ensures |fs| == |kids| && forall i :: 0 <= i < |kids| ==> fs[i] == Flat(kids[i])
  {
    seq(|kids|, i requires 0 <= i < |kids| => Flat(kids[i]))
  }

  lemma FlatIs<T>(t: Tree<T>)
    ensures Flat(t) == Weave(t.keys, Flats(t.kids))
  {
    assert Flats(t.kids) == seq(|t.kids|, i requires 0 <= i < |t.kids| => Flat(t.kids[i]));
  }

  lemma {:induction false} PostSum(k1: seq<int>, f1: seq<seq<int>>, k2: seq<int>, f2: seq<seq<int>>)
    requires |k1| == |f1| && |k2| == |f2|
    ensures Post(k1 + k2, f1 + f2) == Post(k1, f1) + Post(k2, f2)
  {
    if k1 == [] {
      assert k1 + k2 == k2 && f1 + f2 == f2;
    } else {
      PostSum(k1[1..], f1[1..], k2, f2);
      assert (k1 + k2)[1..] == k1[1..] + k2 && (f1 + f2)[1..] == f1[1..] + f2;
    }
  }

  /** What comes before and after child pos in the in-order sequence. */
  function Before(keys: seq<int>, fs: seq<seq<int>>, pos: nat): seq<int>
    requires pos <= |keys| && |fs| == |keys| + 1
  {
    if pos == 0 then [] else Weave(keys[..pos - 1], fs[..pos]) + [keys[pos - 1]]
  }

  function After(keys: seq<int>, fs: seq<seq<int>>, pos: nat): seq<int>
    requires pos <= |keys| && |fs| == |keys| + 1
  {
    Post(keys[pos..], fs[pos + 1..])
  }

  lemma Around(keys: seq<int>, fs: seq<seq<int>>, pos: nat)
    requires pos <= |keys| && |fs| == |keys| + 1
    ensures Weave(keys, fs) == Before(keys, fs, pos) + fs[pos] + After(keys, fs, pos)
  {
    hide Post;
    PostSum(keys[..pos], fs[1..pos + 1], keys[pos..], fs[pos + 1..]);
    assert keys[..pos] + keys[pos..] == keys && fs[1..pos + 1] + fs[pos + 1..] == fs[1..];
    UpTo(keys, fs, pos);
  }

  lemma UpTo(keys: seq<int>, fs: seq<seq<int>>, pos: nat)
    requires pos <= |keys| && |fs| == |keys| + 1
    ensures fs[0] + Post(keys[..pos], fs[1..pos + 1]) == Before(keys, fs, pos) + fs[pos]
  {
    hide Post;
    if pos == 0 {
      PostNone(keys[..pos], fs[1..pos + 1]);
    } else {
      PostSum(keys[..pos - 1], fs[1..pos], [keys[pos - 1]], [fs[pos]]);
      assert keys[..pos - 1] + [keys[pos - 1]] == keys[..pos] && fs[1..pos] + [fs[pos]] == fs[1..pos + 1];
      assert fs[..pos][0] == fs[0] && fs[..pos][1..] == fs[1..pos];
      PostOne(keys[pos - 1], fs[pos]);
    }
  }

  lemma PostNone(keys: seq<int>, fs: seq<seq<int>>)
    ensures keys == [] ==> Post(keys, fs) == []
  {
  }

  lemma PostOne(k: int, f: seq<int>)
    ensures Post([k], [f]) == [k] + f
  {
  }

  /** Putting another sequence in place of child pos. */
  lemma Replaced(keys: seq<int>, fs: seq<seq<int>>, pos: nat, f: seq<int>)
    requires pos <= |keys| && |fs| == |keys| + 1
    ensures Weave(keys, fs[pos := f]) == Before(keys, fs, pos) + f + After(keys, fs, pos)
  {
    var fs' := fs[pos := f];
    Around(keys, fs', pos);
    assert fs'[..pos] == fs[..pos] && fs'[pos + 1..] == fs[pos + 1..];
  }

  /** Child pos, followed by its key and the next child. */
  lemma AfterPair(keys: seq<int>, fs: seq<seq<int>>, pos: nat)
    requires pos < |keys| && |fs| == |keys| + 1
    ensures After(keys, fs, pos) == [keys[pos]] + fs[pos + 1] + After(keys, fs, pos + 1)
  {
    assert keys[pos..][1..] == keys[pos + 1..] && fs[pos + 1..][1..] == fs[pos + 2..];
  }

  lemma Regroup(b: seq<int>, l: seq<int>, k: int, r: seq<int>, a: seq<int>)
    ensures b + l + ([k] + r + a) == b + (l + [k] + r) + a
  {
  }

  /** Two neighbouring children and the key between them may be exchanged for any two with the same sequence. */
  lemma PairReplaced(keys: seq<int>, fs: seq<seq<int>>, pos: nat, l: seq<int>, k: int, r: seq<int>)
    requires pos < |keys| && |fs| == |keys| + 1 && l + [k] + r == fs[pos] + [keys[pos]] + fs[pos + 1]
    ensures Weave(keys[pos := k], fs[pos := l][pos + 1 := r]) == Weave(keys, fs)
  {
    hide Weave, Before, After, Post;
    var keys', fs' := keys[pos := k], fs[pos := l][pos + 1 := r];
    Around(keys, fs, pos);
    AfterPair(keys, fs, pos);
    Around(keys', fs', pos);
    AfterPair(keys', fs', pos);
    SameBefore(keys, fs, keys', fs', pos);
    SameAfter(keys, fs, keys', fs', pos + 1, pos + 1);
    var b, a := Before(keys, fs, pos), After(keys, fs, pos + 1);
    Regroup(b, fs[pos], keys[pos], fs[pos + 1], a);
    Regroup(b, l, k, r, a);
  }

  lemma SameAfter(keys: seq<int>, fs: seq<seq<int>>, keys': seq<int>, fs': seq<seq<int>>, pos: nat, pos': nat)
    requires pos <= |keys| && |fs| == |keys| + 1 && pos' <= |keys'| && |fs'| == |keys'| + 1
    requires keys'[pos'..] == keys[pos..] && fs'[pos' + 1..] == fs[pos + 1..]
    ensures After(keys, fs, pos) == After(keys', fs', pos')
  {
  }

  lemma SameBefore(keys: seq<int>, fs: seq<seq<int>>, keys': seq<int>, fs': seq<seq<int>>, pos: nat)
    requires pos <= |keys| && |fs| == |keys| + 1 && pos <= |keys'| && |fs'| == |keys'| + 1
    requires keys'[..pos] == keys[..pos] && fs'[..pos] == fs[..pos]
    ensures Before(keys, fs, pos) == Before(keys', fs', pos)
  {
    if pos > 0 {
      assert keys[..pos - 1] == keys[..pos][..pos - 1] && keys'[..pos - 1] == keys'[..pos][..pos - 1];
      assert keys[pos - 1] == keys[..pos][pos - 1] && keys'[pos - 1] == keys'[..pos][pos - 1];
    }
  }

  /** Child pos taken apart at a key, or two children joined around one. */
  lemma TakenApart(keys: seq<int>, fs: seq<seq<int>>, pos: nat, l: seq<int>, k: int, r: seq<int>)
    requires pos <= |keys| && |fs| == |keys| + 1 && fs[pos] == l + [k] + r
    ensures Weave(keys[..pos] + [k] + keys[pos..], fs[..pos] + [l, r] + fs[pos + 1..]) == Weave(keys, fs)
  {
    hide Weave, Before, After, Post;
    var keys', fs' := keys[..pos] + [k] + keys[pos..], fs[..pos] + [l, r] + fs[pos + 1..];
    Around(keys, fs, pos);
    Around(keys', fs', pos);
    AfterPair(keys', fs', pos);
    SameBefore(keys, fs, keys', fs', pos);
    SameAfter(keys, fs, keys', fs', pos, pos + 1);
    Regroup(Before(keys, fs, pos), l, k, r, After(keys, fs, pos));
  }

  /** A node's own sequence, cut at key i. */
  lemma CutAt<T>(keys: seq<int>, kids: seq<Tree<T>>, i: nat)
    requires i < |keys| && (kids == [] || |kids| == |keys| + 1)
    ensures Weave(keys, Flats(kids)) ==
            Weave(keys[..i], Flats(if kids == [] then [] else kids[..i + 1])) + [keys[i]] + Weave(keys[i + 1..],
               Flats(if kids == [] then [] else kids[i + 1..]))
  {
    if kids == [] {
      assert keys == keys[..i] + [keys[i]] + keys[i + 1..];
    } else {
      var fs := Flats(kids);
      Around(keys, fs, i + 1);
      assert Flats(kids[..i + 1]) == fs[..i + 1] && Flats(kids[i + 1..]) == fs[i + 1..];
      assert fs[i + 1..][1..] == fs[i + 2..];
    }
  }

  // ----- shape

  /** All leaves h levels down, no node too full, every node below the top with at least M - 1 keys. */
  predicate Ok<T>(t: Tree<T>, h: nat) {
    && |t.keys| <= 2 * M - 1
    && if h == 0 then t.kids == []
       else |t.kids| == |t.keys| + 1
            && forall i :: 0 <= i < |t.kids| ==> Ok(t.kids[i], h - 1) && M - 1 <= |t.kids[i].keys|
  }

  predicate Sorted(a: seq<int>) { forall i, j :: 0 <= i < j < |a| ==> a[i] <= a[j] }

  // ----- the restructuring operations

  function Left<T>(kids: seq<T>, n: nat): seq<T> { if kids == [] || n > |kids| then [] else kids[..n] }

  function Right<T>(kids: seq<T>, n: nat): seq<T> { if kids == [] || n > |kids| then [] else kids[n..] }

  /** Child pos is split around its middle key; the upper half goes to node n. */
  function Split<T>(t: Tree<T>, pos: nat, n: T): Tree<T>
    requires pos < |t.kids| == |t.keys| + 1 && |t.kids[pos].keys| == 2 * M - 1
  {
    var c := t.kids[pos];
    Tree(t.at, t.keys[..pos] + [c.keys[M - 1]] + t.keys[pos..],
         t.kids[..pos] + [Tree(c.at, c.keys[..M - 1], Left(c.kids, M)),
            Tree(n, c.keys[M..], Right(c.kids, M))] + t.kids[pos + 1..])
  }

  /** Children pos and pos + 1 are joined around the key between them. */
  function Join<T>(t: Tree<T>, pos: nat): Tree<T>
    requires pos + 1 < |t.kids| == |t.keys| + 1
  {
    var y, z := t.kids[pos], t.kids[pos + 1];
    Tree(t.at, t.keys[..pos] + t.keys[pos + 1..],
         t.kids[..pos] + [Tree(y.at, y.keys + [t.keys[pos]] + z.keys, y.kids + z.kids)] + t.kids[pos + 2..])
  }

  /** Child pos gives its greatest key to the parent, whose key goes to child pos + 1. */
  function LendRight<T>(t: Tree<T>, pos: nat): Tree<T>
    requires pos + 1 < |t.kids| == |t.keys| + 1 && |t.kids[pos].keys| >= 1
  {
    var y, z := t.kids[pos], t.kids[pos + 1];
    var n := |y.keys| - 1;
    Tree(t.at, t.keys[pos := y.keys[n]],
         t.kids[pos := Tree(y.at, y.keys[..n], Left(y.kids, n + 1))][pos + 1 :=
            Tree(z.at, [t.keys[pos]] + z.keys, Right(y.kids, n + 1) + z.kids)])
  }

  /** Child pos + 1 gives its least key to the parent, whose key goes to child pos. */
  function LendLeft<T>(t: Tree<T>, pos: nat): Tree<T>
    requires pos + 1 < |t.kids| == |t.keys| + 1 && |t.kids[pos + 1].keys| >= 1
  {
    var y, z := t.kids[pos], t.kids[pos + 1];
    Tree(t.at, t.keys[pos := z.keys[0]],
         t.kids[pos := Tree(y.at, y.keys + [t.keys[pos]], y.kids + Left(z.kids, 1))][pos + 1 :=
            Tree(z.at, z.keys[1..], Right(z.kids, 1))])
  }

  /** A node with i keys to the left of one and the rest to the right of it. */
  lemma CutTree<T>(c: Tree<T>, i: nat, l: Tree<T>, r: Tree<T>)
    requires i < |c.keys| && (c.kids == [] || |c.kids| == |c.keys| + 1)
    requires l.keys == c.keys[..i] && l.kids == Left(c.kids, i + 1) && r.keys == c.keys[i + 1..]
             && r.kids == Right(c.kids, i + 1)
    ensures Flat(c) == Flat(l) + [c.keys[i]] + Flat(r)
  {
    hide Flat, Weave, Flats;
    CutAt(c.keys, c.kids, i);
    FlatIs(c);
    FlatIs(l);
    FlatIs(r);
  }

  lemma SplitKeepsFlat<T>(t: Tree<T>, pos: nat, n: T, h: nat)
    requires Ok(t, h + 1) && pos < |t.kids| && |t.kids[pos].keys| == 2 * M - 1
    ensures Flat(Split(t, pos, n)) == Flat(t)
  {
    hide Flat, Weave;
    var c, t' := t.kids[pos], Split(t, pos, n);
    var l, r := t'.kids[pos], t'.kids[pos + 1];
    CutTree(c, M - 1, l, r);
    FlatIs(t);
    FlatIs(t');
    TakenApart(t.keys, Flats(t.kids), pos, Flat(l), c.keys[M - 1], Flat(r));
    assert Flats(t'.kids) == Flats(t.kids)[..pos] + [Flat(l), Flat(r)] + Flats(t.kids)[pos + 1..];
  }

  lemma JoinedFlats<T>(kids: seq<Tree<T>>, c: Tree<T>, pos: nat)
    requires pos + 1 < |kids|
    ensures var fs' := Flats(kids[..pos] + [c] + kids[pos + 2..]);
            fs'[..pos] + [Flat(kids[pos]), Flat(kids[pos + 1])] + fs'[pos + 1..] == Flats(kids)
  {
    hide Flat;
    var kids' := kids[..pos] + [c] + kids[pos + 2..];
    assert Flats(kids')[..pos] == Flats(kids)[..pos];
    assert Flats(kids')[pos + 1..] == Flats(kids)[pos + 2..];
  }

  lemma JoinKeepsFlat<T>(t: Tree<T>, pos: nat, h: nat)
    requires Ok(t, h + 1) && pos + 1 < |t.kids|
    ensures Flat(Join(t, pos)) == Flat(t)
  {
    hide Flat, Weave, Flats;
    var y, z, t' := t.kids[pos], t.kids[pos + 1], Join(t, pos);
    var c := t'.kids[pos];
    CutTree(c, |y.keys|, y, z);
    FlatIs(t);
    FlatIs(t');
    TakenApart(t'.keys, Flats(t'.kids), pos, Flat(y), t.keys[pos], Flat(z));
    assert t'.keys[..pos] + [t.keys[pos]] + t'.keys[pos..] == t.keys;
    JoinedFlats(t.kids, c, pos);
  }

  /** Two children traded across the key between them. */
  lemma TradeKeepsFlat<T>(t: Tree<T>, pos: nat, y: Tree<T>, k: int, z: Tree<T>)
    requires pos < |t.keys| && |t.kids| == |t.keys| + 1
    requires Flat(y) + [k] + Flat(z) == Flat(t.kids[pos]) + [t.keys[pos]] + Flat(t.kids[pos + 1])
    ensures Flat(Tree(t.at, t.keys[pos := k], t.kids[pos := y][pos + 1 := z])) == Flat(t)
  {
    hide Flat, Weave;
    var t' := Tree(t.at, t.keys[pos := k], t.kids[pos := y][pos + 1 := z]);
    FlatIs(t);
    FlatIs(t');
    PairReplaced(t.keys, Flats(t.kids), pos, Flat(y), k, Flat(z));
    assert Flats(t'.kids) == Flats(t.kids)[pos := Flat(y)][pos + 1 := Flat(z)];
  }

  lemma LendRightKeepsFlat<T>(t: Tree<T>, pos: nat, h: nat)
    requires Ok(t, h + 1) && pos + 1 < |t.kids| && |t.kids[pos].keys| >= 1
    ensures Flat(LendRight(t, pos)) == Flat(t)
  {
    hide Flat, Weave;
    var y, z, t' := t.kids[pos], t.kids[pos + 1], LendRight(t, pos);
    var n, y', z' := |y.keys| - 1, t'.kids[pos], t'.kids[pos + 1];
    var mid := Tree(y.at, [], Right(y.kids, n + 1));
    CutTree(y, n, y', mid);
    CutTree(z', 0, mid, z);
    TradeKeepsFlat(t, pos, y', y.keys[n], z');
    var a, b, c := Flat(y'), Flat(mid), Flat(z);
    assert a + [y.keys[n]] + (b + [t.keys[pos]] + c) == (a + [y.keys[n]] + b) + [t.keys[pos]] + c;
  }

  lemma LendLeftKeepsFlat<T>(t: Tree<T>, pos: nat, h: nat)
    requires Ok(t, h + 1) && pos + 1 < |t.kids| && |t.kids[pos + 1].keys| >= 1
    ensures Flat(LendLeft(t, pos)) == Flat(t)
  {
    hide Flat, Weave;
    var y, z, t' := t.kids[pos], t.kids[pos + 1], LendLeft(t, pos);
    var y', z' := t'.kids[pos], t'.kids[pos + 1];
    var mid := Tree(z.at, [], Left(z.kids, 1));
    CutTree(z, 0, mid, z');
    CutTree(y', |y.keys|, y, mid);
    TradeKeepsFlat(t, pos, y', z.keys[0], z');
    var a, b, c := Flat(y), Flat(mid), Flat(z');
    assert (a + [t.keys[pos]] + b) + [z.keys[0]] + c == a + [t.keys[pos]] + (b + [z.keys[0]] + c);
  }

  // ----- what the operations do to the shape

  lemma SplitOk<T>(t: Tree<T>, pos: nat, n: T, h: nat)
    requires Ok(t, h + 1) && pos < |t.kids| && |t.kids[pos].keys| == 2 * M - 1 && |t.keys| < 2 * M - 1
    ensures Ok(Split(t, pos, n), h + 1)
    ensures |Split(t, pos, n).keys| == |t.keys| + 1 && |Split(t, pos, n).kids[pos].keys| == M - 1
            && |Split(t, pos, n).kids[pos + 1].keys| == M - 1
  {
    assert Ok(t.kids[pos], h);
  }

  lemma JoinOk<T>(t: Tree<T>, pos: nat, h: nat)
    requires Ok(t, h + 1) && pos + 1 < |t.kids| && |t.kids[pos].keys| == M - 1 && |t.kids[pos + 1].keys| == M - 1
    ensures Ok(Join(t, pos), h + 1) && |Join(t, pos).keys| == |t.keys| - 1 && |Join(t, pos).kids[pos].keys| == 2 * M - 1
  {
    assert Ok(t.kids[pos], h) && Ok(t.kids[pos + 1], h);
  }

  lemma LendOk<T>(t: Tree<T>, pos: nat, h: nat)
    requires Ok(t, h + 1) && pos + 1 < |t.kids|
    ensures |t.kids[pos].keys| >= M && |t.kids[pos + 1].keys| == M - 1 ==>
              Ok(LendRight(t, pos), h + 1) && |LendRight(t, pos).kids[pos + 1].keys| == M
    ensures |t.kids[pos + 1].keys| >= M && |t.kids[pos].keys| == M - 1 ==>
              Ok(LendLeft(t, pos), h + 1) && |LendLeft(t, pos).kids[pos].keys| == M
  {
    assert Ok(t.kids[pos], h) && Ok(t.kids[pos + 1], h);
  }

  // ----- one key more or less in a sorted sequence

  /** x was put in at i, after everything smaller and before everything greater. */
  ghost predicate InsertedAt(a: seq<int>, b: seq<int>, x: int, i: nat) {
    && i <= |a| && b == a[..i] + [x] + a[i..]
    && (forall j :: 0 <= j < i ==> a[j] <= x) && (forall j :: i <= j < |a| ==> x <= a[j])
  }

  lemma InsertedIs(a: seq<int>, b: seq<int>, x: int, i: nat)
    requires Sorted(a) && InsertedAt(a, b, x, i)
    ensures Sorted(b) && multiset(b) == multiset(a) + multiset{x} && |b| == |a| + 1
  {
    assert a == a[..i] + a[i..];
  }

  ghost predicate RemovedAt(a: seq<int>, b: seq<int>, x: int, i: nat) {
    i < |a| && a[i] == x && b == a[..i] + a[i + 1..]
  }

  lemma RemovedIs(a: seq<int>, b: seq<int>, x: int, i: nat)
    requires Sorted(a) && RemovedAt(a, b, x, i)
    ensures Sorted(b) && multiset(b) == multiset(a) - multiset{x} && x in multiset(a) && |b| == |a| - 1
  {
    assert a == a[..i] + [x] + a[i + 1..];
  }

  /** In a sorted sequence it does not matter which copy goes. */
  lemma AnyCopy(a: seq<int>, b: seq<int>, c: seq<int>, x: int, i: nat, j: nat)
    requires Sorted(a) && RemovedAt(a, b, x, i) && RemovedAt(a, c, x, j)
    ensures b == c
  {
    var lo, hi := if i < j then i else j, if i < j then j else i;
    assert forall n :: lo <= n <= hi ==> a[n] == x;
  }

  lemma InsertedInside(l: seq<int>, a: seq<int>, b: seq<int>, r: seq<int>, x: int, i: nat)
    requires InsertedAt(a, b, x, i) && (forall j :: 0 <= j < |l| ==> l[j] <= x)
             && (forall j :: 0 <= j < |r| ==> x <= r[j])
    ensures InsertedAt(l + a + r, l + b + r, x, |l| + i)
  {
    var w, n := l + a + r, |l| + i;
    assert w[..n] == l + a[..i] && w[n..] == a[i..] + r;
    assert l + b + r == (l + a[..i]) + [x] + (a[i..] + r);
  }

  lemma RemovedInside(l: seq<int>, a: seq<int>, b: seq<int>, r: seq<int>, x: int, i: nat)
    requires RemovedAt(a, b, x, i)
    ensures RemovedAt(l + a + r, l + b + r, x, |l| + i)
  {
    var w, n := l + a + r, |l| + i;
    assert w[..n] == l + a[..i] && w[n + 1..] == a[i + 1..] + r;
    assert l + b + r == (l + a[..i]) + (a[i + 1..] + r);
  }

  // ----- search order

  /** Everything left of child pos is at most the key before it, everything right at least the key after it. */
  lemma Bounds<T>(t: Tree<T>, pos: nat)
    requires pos < |t.kids| == |t.keys| + 1 && Sorted(Flat(t))
    ensures var fs := Flats(t.kids);
            var b, f, a := Before(t.keys, fs, pos), fs[pos], After(t.keys, fs, pos);
            && Flat(t) == b + f + a && Sorted(f)
            && (pos == 0 ==> b == []) && (pos == |t.keys| ==> a == [])
            && (pos > 0 ==> forall j :: 0 <= j < |b| ==> b[j] <= t.keys[pos - 1])
            && (pos > 0 ==> forall j :: 0 <= j < |f| ==> t.keys[pos - 1] <= f[j])
            && (pos < |t.keys| ==> forall j :: 0 <= j < |a| ==> t.keys[pos] <= a[j])
            && (pos < |t.keys| ==> forall j :: 0 <= j < |f| ==> f[j] <= t.keys[pos])
            && (pos > 0 ==> |b| > 0 && b[|b| - 1] == t.keys[pos - 1])
            && (pos < |t.keys| ==> |a| > 0 && a[0] == t.keys[pos])
  {
    hide Flat, Weave;
    var fs := Flats(t.kids);
    var b, f, a := Before(t.keys, fs, pos), fs[pos], After(t.keys, fs, pos);
    FlatIs(t);
    Around(t.keys, fs, pos);
    if pos < |t.keys| { AfterPair(t.keys, fs, pos); }
    Parts(b, f, a);
    if pos > 0 { LastOf(b, t.keys[pos - 1]); }
    if pos < |t.keys| { FirstOf(a, t.keys[pos]); }
  }

  lemma LastOf(b: seq<int>, k: int)
    requires Sorted(b) && |b| > 0 && b[|b| - 1] == k
    ensures forall j :: 0 <= j < |b| ==> b[j] <= k
  {
  }

  lemma FirstOf(a: seq<int>, k: int)
    requires Sorted(a) && |a| > 0 && a[0] == k
    ensures forall j :: 0 <= j < |a| ==> k <= a[j]
  {
  }

  lemma TwoParts(b: seq<int>, f: seq<int>)
    requires Sorted(b + f)
    ensures Sorted(b) && Sorted(f)
    ensures forall i, j :: 0 <= i < |b| && 0 <= j < |f| ==> b[i] <= f[j]
  {
    var w := b + f;
    forall i, j | 0 <= i < j < |b| ensures b[i] <= b[j] { assert w[i] <= w[j]; }
    forall i, j | 0 <= i < j < |f| ensures f[i] <= f[j] { assert w[|b| + i] <= w[|b| + j]; }
    forall i, j | 0 <= i < |b| && 0 <= j < |f| ensures b[i] <= f[j] { assert w[i] <= w[|b| + j]; }
  }

  lemma Parts(b: seq<int>, f: seq<int>, a: seq<int>)
    requires Sorted(b + f + a)
    ensures Sorted(b) && Sorted(f) && Sorted(a)
    ensures forall i, j :: 0 <= i < |b| && 0 <= j < |f| ==> b[i] <= f[j]
    ensures forall i, j :: 0 <= i < |f| && 0 <= j < |a| ==> f[i] <= a[j]
  {
    hide Sorted;
    TwoParts(b + f, a);
    TwoParts(b, f);
    assert b + f + a == b + (f + a);
    TwoParts(b, f + a);
    TwoParts(f, a);
  }

  lemma ReplacedKid<T>(t: Tree<T>, pos: nat, kid: Tree<T>)
    requires pos < |t.kids| == |t.keys| + 1
    ensures var fs := Flats(t.kids);
            Flat(t.(kids := t.kids[pos := kid])) == Before(t.keys, fs, pos) + Flat(kid) + After(t.keys, fs, pos)
  {
    hide Flat, Weave;
    var t' := t.(kids := t.kids[pos := kid]);
    FlatIs(t');
    Replaced(t.keys, Flats(t.kids), pos, Flat(kid));
    assert Flats(t'.kids) == Flats(t.kids)[pos := Flat(kid)];
  }

  lemma KidSorted<T>(t: Tree<T>, pos: nat)
    requires pos < |t.kids| == |t.keys| + 1 && Sorted(Flat(t))
    ensures Sorted(Flat(t.kids[pos]))
  {
    hide Flat, Weave, Before, After, Sorted;
    Bounds(t, pos);
  }

  lemma FlatAround<T>(t: Tree<T>, pos: nat)
    requires pos < |t.kids| == |t.keys| + 1
    ensures var fs := Flats(t.kids); Flat(t) == Before(t.keys, fs, pos) + fs[pos] + After(t.keys, fs, pos)
  {
    hide Flat, Weave, Before, After;
    FlatIs(t);
    Around(t.keys, Flats(t.kids), pos);
  }

  /** x belongs in child pos. */
  predicate Belongs<T>(t: Tree<T>, pos: nat, x: int) {
    pos <= |t.keys| && (pos > 0 ==> t.keys[pos - 1] <= x) && (pos < |t.keys| ==> x <= t.keys[pos])
  }

  lemma InsertBelow<T>(t: Tree<T>, pos: nat, kid: Tree<T>, x: int, i: nat) returns (n: nat)
    requires pos < |t.kids| == |t.keys| + 1 && Sorted(Flat(t)) && Belongs(t, pos, x)
             && InsertedAt(Flat(t.kids[pos]), Flat(kid), x, i)
    ensures InsertedAt(Flat(t), Flat(t.(kids := t.kids[pos := kid])), x, n)
  {
    hide Flat, Weave, InsertedAt, Before, After;
    Bounds(t, pos);
    ReplacedKid(t, pos, kid);
    var fs := Flats(t.kids);
    var b, a := Before(t.keys, fs, pos), After(t.keys, fs, pos);
    InsertedInside(b, fs[pos], Flat(kid), a, x, i);
    n := |b| + i;
  }

  lemma RemoveBelow<T>(t: Tree<T>, pos: nat, kid: Tree<T>, x: int, i: nat) returns (n: nat)
    requires pos < |t.kids| == |t.keys| + 1 && Sorted(Flat(t)) && RemovedAt(Flat(t.kids[pos]), Flat(kid), x, i)
    ensures RemovedAt(Flat(t), Flat(t.(kids := t.kids[pos := kid])), x, n)
  {
    hide Flat, Weave, RemovedAt, Before, After;
    Bounds(t, pos);
    ReplacedKid(t, pos, kid);
    var fs := Flats(t.kids);
    var b, a := Before(t.keys, fs, pos), After(t.keys, fs, pos);
    RemovedInside(b, fs[pos], Flat(kid), a, x, i);
    n := |b| + i;
  }

  /** x is strictly between the keys around child pos. */
  predicate Between<T>(t: Tree<T>, pos: nat, x: int) {
    pos <= |t.keys| && (pos > 0 ==> t.keys[pos - 1] < x) && (pos < |t.keys| ==> x < t.keys[pos])
  }

  /** A key strictly between the keys around child pos can only be there. */
  lemma Descend<T>(t: Tree<T>, pos: nat, x: int)
    requires pos < |t.kids| == |t.keys| + 1 && Sorted(Flat(t)) && Between(t, pos, x)
    ensures x in Flat(t) <==> x in Flat(t.kids[pos])
  {
    hide Flat, Weave, Before, After;
    Bounds(t, pos);
  }

  /** Where x belongs, and what is next to it, does not change when a neighbour lends a key or is joined. */
  lemma LendRightBetween<T>(t: Tree<T>, pos: nat, x: int)
    requires pos + 1 < |t.kids| == |t.keys| + 1 && Sorted(Flat(t)) && Between(t, pos + 1, x)
    requires var y := t.kids[pos]; |y.keys| >= 1 && (y.kids == [] || |y.kids| == |y.keys| + 1)
    ensures Between(LendRight(t, pos), pos + 1, x)
  {
    hide Flat, Weave, Before, After, Sorted;
    KeyIsIn(t.kids[pos], |t.kids[pos].keys| - 1);
    Bounds(t, pos);
  }

  lemma LendLeftBetween<T>(t: Tree<T>, pos: nat, x: int)
    requires pos + 1 < |t.kids| == |t.keys| + 1 && Sorted(Flat(t)) && Between(t, pos, x)
    requires var z := t.kids[pos + 1]; |z.keys| >= 1 && (z.kids == [] || |z.kids| == |z.keys| + 1)
    ensures Between(LendLeft(t, pos), pos, x)
  {
    hide Flat, Weave, Before, After, Sorted;
    KeyIsIn(t.kids[pos + 1], 0);
    Bounds(t, pos + 1);
  }

  lemma KeysInOrder<T>(t: Tree<T>, i: nat)
    requires i + 1 < |t.keys| && |t.kids| == |t.keys| + 1 && Sorted(Flat(t))
    ensures t.keys[i] <= t.keys[i + 1]
  {
    hide Flat, Weave, Before, After;
    Bounds(t, i + 1);
    var fs := Flats(t.kids);
    var b, f, a := Before(t.keys, fs, i + 1), fs[i + 1], After(t.keys, fs, i + 1);
    assert (b + f + a)[|b| - 1] == t.keys[i] && (b + f + a)[|b| + |f|] == t.keys[i + 1];
  }

  lemma JoinBetween<T>(t: Tree<T>, pos: nat, x: int)
    requires pos + 1 < |t.kids| == |t.keys| + 1 && Sorted(Flat(t)) && (Between(t, pos, x) || Between(t, pos + 1, x))
    ensures Between(Join(t, pos), pos, x)
  {
    hide Flat, Sorted;
    if pos > 0 { KeysInOrder(t, pos - 1); }
    if pos + 1 < |t.keys| { KeysInOrder(t, pos); }
  }

  /** y is the greatest element of a below x. */
  ghost predicate GreatestBelow(a: seq<int>, y: int, x: int) {
    y < x && forall z :: z in a && z < x ==> z <= y
  }

  /** What deleting x may make of the sequence. With a hit one element goes: x, if it is there, and
      the greatest element below x otherwise. Without a hit x is not there and nothing changes. */
  ghost predicate DeletedAt(a: seq<int>, b: seq<int>, x: int, hit: bool, i: nat) {
    if hit then i < |a| && RemovedAt(a, b, a[i], i) && (if x in a then a[i] == x else GreatestBelow(a, a[i], x))
    else x !in a && b == a
  }

  lemma DeletedIs(a: seq<int>, b: seq<int>, x: int, hit: bool, i: nat)
    requires Sorted(a) && DeletedAt(a, b, x, hit, i)
    ensures Sorted(b) && |b| == |a| - (if hit then 1 else 0)
    ensures hit ==> a[i] in a && multiset(b) == multiset(a) - multiset{a[i]}
  {
    if hit { RemovedIs(a, b, a[i], i); }
  }

  lemma GreatestStays<T>(t: Tree<T>, pos: nat, y: int, x: int)
    requires pos < |t.kids| == |t.keys| + 1 && Sorted(Flat(t)) && Between(t, pos, x)
    requires y in Flat(t.kids[pos]) && GreatestBelow(Flat(t.kids[pos]), y, x)
    ensures GreatestBelow(Flat(t), y, x)
  {
    hide Flat, Weave, Before, After, Sorted;
    Bounds(t, pos);
    var fs := Flats(t.kids);
    var b, f, a := Before(t.keys, fs, pos), fs[pos], After(t.keys, fs, pos);
    var m :| 0 <= m < |f| && f[m] == y;
    forall z | z in b + f + a && z < x ensures z <= y {
      if z in b {
        var j :| 0 <= j < |b| && b[j] == z;
      }
    }
  }

  /** A deletion below child pos is a deletion. */
  lemma DeleteBelow<T>(t: Tree<T>, pos: nat, kid: Tree<T>, x: int, hit: bool, j: nat) returns (i: nat)
    requires pos < |t.kids| == |t.keys| + 1 && Sorted(Flat(t)) && Between(t, pos, x)
    requires DeletedAt(Flat(t.kids[pos]), Flat(kid), x, hit, j)
    ensures DeletedAt(Flat(t), Flat(t.(kids := t.kids[pos := kid])), x, hit, i)
  {
    hide Flat, Sorted, Between, GreatestBelow;
    Descend(t, pos, x);
    i := 0;
    if hit {
      var y := Flat(t.kids[pos])[j];
      i := RemoveBelow(t, pos, kid, y, j);
      if x !in Flat(t) { GreatestStays(t, pos, y, x); }
    } else {
      ReplacedKid(t, pos, kid);
      FlatAround(t, pos);
    }
  }

  lemma KeyIsIn<T>(t: Tree<T>, i: nat)
    requires i < |t.keys| && (t.kids == [] || |t.kids| == |t.keys| + 1)
    ensures t.keys[i] in Flat(t)
  {
    hide Flat, Weave;
    CutTree(t, i, Tree(t.at, t.keys[..i], Left(t.kids, i + 1)), Tree(t.at, t.keys[i + 1..], Right(t.kids, i + 1)));
  }

  lemma LeafFlat<T>(t: Tree<T>)
    requires t.kids == []
    ensures Flat(t) == t.keys
  {
  }

  /** The greatest key is the last of the last leaf, the least the first of the first. */
  lemma Ends<T>(t: Tree<T>, h: nat)
    requires Ok(t, h + 1) && |t.kids| > 0 && Flat(t.kids[|t.kids| - 1]) != [] && Flat(t.kids[0]) != []
    ensures var f, l, e := Flat(t), Flat(t.kids[|t.kids| - 1]), Flat(t.kids[0]);
            f != [] && f[|f| - 1] == l[|l| - 1] && f[0] == e[0]
  {
    hide Flat, Weave;
    var n := |t.keys|;
    FlatIs(t);
    Around(t.keys, Flats(t.kids), n);
    Around(t.keys, Flats(t.kids), 0);
  }

  lemma {:induction false} NotEmpty<T>(t: Tree<T>, h: nat)
    requires Ok(t, h) && |t.keys| >= 1
    ensures Flat(t) != []
  {
    hide Flat, Ok;
    var k := KeyAt(t, h);
  }

  lemma KeyAt<T>(t: Tree<T>, h: nat) returns (k: int)
    requires Ok(t, h) && |t.keys| >= 1
    ensures k in Flat(t)
  {
    hide Flat;
    k := t.keys[0];
    KeyIsIn(t, 0);
  }

  /** The key at pos goes, its place taken by the greatest key of the child before it. */
  lemma PredecessorUp<T>(t: Tree<T>, pos: nat, kid: Tree<T>, j: nat) returns (n: nat)
    requires pos < |t.keys| && |t.kids| == |t.keys| + 1 && Sorted(Flat(t)) && Flat(t.kids[pos]) != []
    requires var f := Flat(t.kids[pos]); RemovedAt(f, Flat(kid), f[|f| - 1], j)
    ensures var f := Flat(t.kids[pos]);
            RemovedAt(Flat(t), Flat(Tree(t.at, t.keys[pos := f[|f| - 1]], t.kids[pos := kid])), t.keys[pos], n)
  {
    hide Flat, Weave, Before, After, Sorted;
    var f, x := Flat(t.kids[pos]), t.keys[pos];
    var pre := f[|f| - 1];
    KidSorted(t, pos);
    FlatAround(t, pos);
    AnyCopy(f, Flat(kid), f[..|f| - 1], pre, j, |f| - 1);
    var fs, t' := Flats(t.kids), Tree(t.at, t.keys[pos := pre], t.kids[pos := kid]);
    var b, g, a := Before(t.keys, fs, pos), fs[pos + 1], After(t.keys, fs, pos + 1);
    AfterPair(t.keys, fs, pos);
    NewPair(t, pos, kid, pre, t.kids[pos + 1]);
    assert t.kids[pos := kid][pos + 1 := t.kids[pos + 1]] == t.kids[pos := kid];
    assert Flat(kid) + [pre] == f;
    n := |b + f|;
    LeftTakesOver(b, f, x, g, a, Flat(kid), pre);
  }

  lemma LeftTakesOver(b: seq<int>, f: seq<int>, x: int, g: seq<int>, a: seq<int>, f': seq<int>, pre: int)
    requires f' + [pre] == f
    ensures RemovedAt(b + f + ([x] + g + a), b + f' + ([pre] + g + a), x, |b + f|)
  {
    assert b + f + ([x] + g + a) == (b + f) + [x] + (g + a);
    assert b + f' + ([pre] + g + a) == b + (f' + [pre]) + (g + a);
  }

  lemma RightTakesOver(b: seq<int>, g: seq<int>, x: int, f: seq<int>, a: seq<int>, f': seq<int>, next: int)
    requires [next] + f' == f
    ensures RemovedAt(b + g + ([x] + f + a), b + g + ([next] + f' + a), x, |b + g|)
  {
    assert b + g + ([x] + f + a) == (b + g) + [x] + (f + a);
  }

  lemma SuccessorUp<T>(t: Tree<T>, pos: nat, kid: Tree<T>, j: nat) returns (n: nat)
    requires pos < |t.keys| && |t.kids| == |t.keys| + 1 && Sorted(Flat(t)) && Flat(t.kids[pos + 1]) != []
    requires var f := Flat(t.kids[pos + 1]); RemovedAt(f, Flat(kid), f[0], j)
    ensures var f := Flat(t.kids[pos + 1]);
            RemovedAt(Flat(t), Flat(Tree(t.at, t.keys[pos := f[0]], t.kids[pos + 1 := kid])), t.keys[pos], n)
  {
    hide Flat, Weave, Before, After, Sorted;
    var f, x := Flat(t.kids[pos + 1]), t.keys[pos];
    var next := f[0];
    KidSorted(t, pos + 1);
    FlatAround(t, pos);
    AnyCopy(f, Flat(kid), f[1..], next, j, 0);
    var fs, t' := Flats(t.kids), Tree(t.at, t.keys[pos := next], t.kids[pos + 1 := kid]);
    var b, g, a := Before(t.keys, fs, pos), fs[pos], After(t.keys, fs, pos + 1);
    AfterPair(t.keys, fs, pos);
    NewPair(t, pos, t.kids[pos], next, kid);
    assert t.kids[pos := t.kids[pos]][pos + 1 := kid] == t.kids[pos + 1 := kid];
    assert [next] + Flat(kid) == f;
    n := |b + g|;
    RightTakesOver(b, g, x, f, a, Flat(kid), next);
  }

  /** The sequence with a new pair of children and a new key between them. */
  lemma NewPair<T>(t: Tree<T>, pos: nat, y: Tree<T>, k: int, z: Tree<T>)
    requires pos < |t.keys| && |t.kids| == |t.keys| + 1
    ensures var fs := Flats(t.kids);
            Flat(Tree(t.at, t.keys[pos := k], t.kids[pos := y][pos + 1 := z]))
            == Before(t.keys, fs, pos) + Flat(y) + ([k] + Flat(z) + After(t.keys, fs, pos + 1))
  {
    hide Flat, Weave;
    var t' := Tree(t.at, t.keys[pos := k], t.kids[pos := y][pos + 1 := z]);
    var fs, fs' := Flats(t.kids), Flats(t'.kids);
    FlatIs(t');
    Around(t'.keys, fs', pos);
    AfterPair(t'.keys, fs', pos);
    assert t'.keys[..pos] == t.keys[..pos] && fs'[..pos] == fs[..pos] && t'.keys[pos + 1..] == t.keys[pos + 1..]
           && fs'[pos + 2..] == fs[pos + 2..];
    SameBefore(t.keys, fs, t'.keys, fs', pos);
  }
}

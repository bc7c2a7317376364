/**
 app/simpleBtree: the B-tree on mutable nodes. Each operation is proved against the tree of keys the
 nodes represent: `t` below is that tree, passed along as a ghost.
 */
module BTree {
  import opened BTreeModel
  import opened BTreeNodes
  import opened BTreeRoute

  class Node {
    var k: seq<int>
    var p: seq<Node?>
    var keyNum: int
    var leaf: bool

    /** btree_node_new */
    constructor ()
      ensures k == Zeros() && p == Nulls() && keyNum == 0 && leaf
    {
      k, p, keyNum, leaf := Zeros(), Nulls(), 0, true;
    }
  }

  // ----- representation

  function Nulls(): seq<Node?> { seq(2 * M, _ => null) }

  function Zeros(): seq<int> { seq(2 * M - 1, _ => 0) }

  ghost function Ats(kids: seq<Tree<Node>>): (r: seq<Node?>)
    ensures |r| == |kids| && forall i :: 0 <= i < |kids| ==> r[i] == kids[i].at
  {
    seq(|kids|, i requires 0 <= i < |kids| => kids[i].at)
  }

  lemma AtsSum(a: seq<Tree<Node>>, b: seq<Tree<Node>>)
    ensures Ats(a + b) == Ats(a) + Ats(b)
  {
  }

  ghost predicate Local(t: Tree<Node>)
    reads t.at
  {
    && |t.at.k| == 2 * M - 1 && |t.at.p| == 2 * M
    && t.at.keyNum == |t.keys| <= 2 * M - 1 && t.at.k[..|t.keys|] == t.keys
    && (t.at.leaf <==> t.kids == [])
    && (if t.kids == [] then t.at.p == Nulls()
        else |t.kids| == |t.keys| + 1 && t.at.p[..|t.kids|] == Ats(t.kids))
  }

  ghost predicate Rep(t: Tree<Node>)
    reads Nodes(t)
  {
    Local(t) && forall i :: 0 <= i < |t.kids| ==> Rep(t.kids[i])
  }

  ghost predicate AllRep(kids: seq<Tree<Node>>)
    reads Under(kids)
  {
    forall i :: 0 <= i < |kids| ==> Rep(kids[i])
  }

  lemma RepIs(t: Tree<Node>)
    ensures Rep(t) <==> Local(t) && AllRep(t.kids)
  {
  }

  lemma AllRepSum(a: seq<Tree<Node>>, b: seq<Tree<Node>>)
    ensures AllRep(a + b) <==> AllRep(a) && AllRep(b)
  {
    hide Rep;
    var c := a + b;
    if AllRep(c) {
      forall i | 0 <= i < |a| ensures Rep(a[i]) { assert c[i] == a[i]; }
      forall i | 0 <= i < |b| ensures Rep(b[i]) { assert c[|a| + i] == b[i]; }
    }
  }

  lemma AllRepOne(t: Tree<Node>)
    ensures AllRep([t]) <==> Rep(t)
  {
    hide Rep;
    assert [t][0] == t;
  }

  lemma AllRepCut(kids: seq<Tree<Node>>, i: nat, j: nat)
    requires i <= j <= |kids|
    ensures AllRep(kids) <==> AllRep(kids[..i]) && AllRep(kids[i..j]) && AllRep(kids[j..])
  {
    hide AllRep;
    assert kids == kids[..i] + kids[i..j] + kids[j..];
    AllRepSum(kids[..i] + kids[i..j], kids[j..]);
    AllRepSum(kids[..i], kids[i..j]);
  }

  // ----- the copying loops

  /** dst[to + i] = src[from + i] for i in [0, n) */
  method CopyBlock<T>(dst: seq<T>, src: seq<T>, to: nat, from: nat, n: nat) returns (r: seq<T>)
    requires to + n <= |dst| && from + n <= |src|
    ensures r == dst[..to] + src[from..from + n] + dst[to + n..]
  {
    r := dst;
    for i := 0 to n
      invariant |r| == |dst| && forall j :: 0 <= j < |dst| ==>
                  r[j] == if to <= j < to + i then src[from + j - to] else dst[j]
    {
      r := r[to + i := src[from + i]];
    }
  }

  /** The elements in [pos, n) move one place up. */
  method ShiftUp<T>(a: seq<T>, pos: nat, n: nat) returns (r: seq<T>)
    requires pos <= n < |a|
    ensures |r| == |a| && r[..pos] == a[..pos] && r[pos + 1..n + 1] == a[pos..n] && r[n + 1..] == a[n + 1..]
  {
    r := a;
    var i := n;
    while i > pos
      invariant pos <= i <= n && r == a[..i + 1] + a[i..n] + a[n + 1..]
    {
      r := r[i := r[i - 1]];
      i := i - 1;
    }
  }

  /** The elements in [pos, n) move one place down. */
  method ShiftDown<T>(a: seq<T>, pos: nat, n: nat) returns (r: seq<T>)
    requires 1 <= pos <= n <= |a|
    ensures |r| == |a| && r[..pos - 1] == a[..pos - 1] && r[pos - 1..n - 1] == a[pos..n] && r[n - 1..] == a[n - 1..]
  {
    r := a;
    for j := pos to n
      invariant r == a[..pos - 1] + a[pos..j] + a[j - 1..]
    {
      r := r[j - 1 := r[j]];
    }
  }

  /** b is a with x put in at pos and the elements in [pos, n) moved up. */
  ghost predicate Filled<T>(a: seq<T>, b: seq<T>, pos: nat, n: nat, x: T) {
    pos <= n < |a| == |b| && b[..n + 1] == a[..pos] + [x] + a[pos..n] && b[n + 1..] == a[n + 1..]
  }

  /** The slots from n on are as they were. */
  predicate TailKept(k: seq<int>, k': seq<int>, n: nat) { n <= |k| == |k'| && k'[n..] == k[n..] }

  lemma TailTwice(a: seq<int>, b: seq<int>, c: seq<int>, m: nat, n: nat)
    requires TailKept(a, b, m) && TailKept(b, c, n) && m <= n
    ensures TailKept(a, c, n)
  {
    assert b[n..] == b[m..][n - m..] && a[n..] == a[m..][n - m..];
  }

  /** The elements in [pos, n) move up and x takes the free place. */
  method PutIn<T>(a: seq<T>, pos: nat, n: nat, x: T) returns (b: seq<T>)
    requires pos <= n < |a|
    ensures Filled(a, b, pos, n, x)
  {
    b := ShiftUp(a, pos, n);
    ghost var b0 := b;
    b := b[pos := x];
    assert b[..n + 1] == b0[..pos] + [x] + b0[pos + 1..n + 1];
    assert b[n + 1..] == b0[n + 1..];
  }

  lemma PrefixOf<T>(a: seq<T>, xs: seq<T>, i: nat, j: nat)
    requires i <= j <= |xs| <= |a| && a[..|xs|] == xs
    ensures a[i..j] == xs[i..j] && a[..j] == xs[..j]
  {
  }

  // ----- split

  /** What is needed of a node's surroundings while it and its child pos change. */
  lemma SplitSetup(t: Tree<Node>, pos: nat, h: nat)
    requires Rep(t) && Tidy(t) && Ok(t, h + 1) && pos < |t.kids|
    ensures |t.kids| == |t.keys| + 1 && Local(t) && Local(t.kids[pos])
    ensures AllRep(t.kids[..pos]) && AllRep(t.kids[pos + 1..]) && AllRep(t.kids[pos].kids)
    ensures t.kids[pos].at in Nodes(t) && t.at in Nodes(t) && t.at != t.kids[pos].at
    ensures Apart(t, pos, t.kids[..pos]) && Apart(t, pos, t.kids[pos + 1..]) && Apart(t, pos, t.kids[pos].kids)
  {
    hide Rep, AllRep, Local, Nodes, Under, AllTidy, Tidy, Ok;
    ShapeFor(t, pos, h);
    RepIs(t);
    AllRepCut(t.kids, pos, pos + 1);
    RepOf(t.kids, pos);
    RepIs(t.kids[pos]);
    TidyIs(t);
    Cut3(t.kids, pos, pos + 1);
    OneOf(t.kids, pos);
    TidyIs(t.kids[pos]);
    NodesIs(t.kids[pos]);
    NodesIs(t);
  }

  ghost predicate Apart(t: Tree<Node>, pos: nat, kids: seq<Tree<Node>>)
    requires pos < |t.kids|
  {
    t.at !in Under(kids) && t.kids[pos].at !in Under(kids) && Under(kids) <= Nodes(t)
  }

  lemma RepOf(kids: seq<Tree<Node>>, i: nat)
    requires AllRep(kids) && i < |kids|
    ensures Rep(kids[i])
  {
  }

  lemma AllRepAround(a: seq<Tree<Node>>, m: seq<Tree<Node>>, b: seq<Tree<Node>>)
    requires AllRep(a) && AllRep(m) && AllRep(b)
    ensures AllRep(a + m + b)
  {
    hide AllRep;
    AllRepSum(a + m, b);
    AllRepSum(a, m);
  }

  /** The children of a node dealt out in two. */
  lemma LeftRight(kids: seq<Tree<Node>>, n: nat)
    requires AllRep(kids) && n <= |kids|
    ensures AllRep(Left(kids, n)) && AllRep(Right(kids, n))
  {
    hide Rep;
  }

  /** A node that took in key x at pos and child n after it. */
  lemma GrownLocal(t: Tree<Node>, t': Tree<Node>, pos: nat, x: int, n: Node, k: seq<int>, p: seq<Node?>)
    requires pos <= |t.keys| < 2 * M - 1 == |k| && |t.kids| == |t.keys| + 1 && |p| == 2 * M
    requires k[..|t.keys|] == t.keys && p[..|t.kids|] == Ats(t.kids)
    requires t'.at == t.at && t'.keys == t.keys[..pos] + [x] + t.keys[pos..]
    requires Ats(t'.kids) == Ats(t.kids)[..pos + 1] + [n] + Ats(t.kids)[pos + 1..] && t'.kids != []
    requires Filled(k, t.at.k, pos, |t.keys|, x) && Filled(p, t.at.p, pos + 1, |t.kids|, n)
             && t.at.keyNum == |t.keys| + 1 && !t.at.leaf
    ensures Local(t')
  {
    hide Ats;
    PrefixOf(k, t.keys, pos, |t.keys|);
    PrefixOf(k, t.keys, 0, pos);
    PrefixOf(p, Ats(t.kids), pos + 1, |t.kids|);
    PrefixOf(p, Ats(t.kids), 0, pos + 1);
  }

  lemma SplitAts(t: Tree<Node>, pos: nat, n: Node)
    requires pos < |t.kids| == |t.keys| + 1 && |t.kids[pos].keys| == 2 * M - 1
    ensures Ats(Split(t, pos, n).kids) == Ats(t.kids)[..pos + 1] + [n] + Ats(t.kids)[pos + 1..]
  {
  }

  /** The two halves of a split node. */
  lemma HalvesLocal(c: Tree<Node>, l: Tree<Node>, r: Tree<Node>, k: seq<int>, p: seq<Node?>)
    requires |c.keys| == 2 * M - 1 == |k| && |p| == 2 * M && k == c.keys
    requires if c.kids == [] then p == Nulls() else |c.kids| == 2 * M && p == Ats(c.kids)
    requires l == Tree(c.at, c.keys[..M - 1], Left(c.kids, M)) && r == Tree(r.at, c.keys[M..], Right(c.kids, M))
             && r.at != c.at
    requires l.at.k == k && l.at.p == p && l.at.keyNum == M - 1 && (l.at.leaf <==> c.kids == [])
    requires r.at.keyNum == M - 1 && (r.at.leaf <==> c.kids == []) && |r.at.k| == 2 * M - 1 && r.at.k[..M - 1] == k[M..]
    requires if c.kids == [] then r.at.p == Nulls() else |r.at.p| == 2 * M && r.at.p[..M] == p[M..]
    ensures Local(l) && Local(r)
  {
    if c.kids != [] {
      assert Ats(l.kids) == Ats(c.kids)[..M];
      assert Ats(r.kids) == Ats(c.kids)[M..];
    }
  }

  lemma {:induction false} NodesExist(t: Tree<Node>)
    ensures forall x :: x in Nodes(t) ==> allocated(x)
  {
    forall i | 0 <= i < |t.kids| ensures forall x :: x in Nodes(t.kids[i]) ==> allocated(x) { NodesExist(t.kids[i]); }
  }

  /** btree_split_child, the new node: it takes the upper half of the child. */
  method UpperHalf(child: Node) returns (n: Node)
    requires |child.k| == 2 * M - 1 && |child.p| == 2 * M
    ensures fresh(n) && n.keyNum == M - 1 && n.leaf == child.leaf && |n.k| == 2 * M - 1 && n.k[..M - 1] == child.k[M..]
    ensures TailKept(Zeros(), n.k, M - 1)
    ensures if n.leaf then n.p == Nulls() else |n.p| == 2 * M && n.p[..M] == child.p[M..]
  {
    n := new Node();
    n.leaf, n.keyNum := child.leaf, M - 1;
    n.k := CopyBlock(n.k, child.k, 0, M, M - 1);
    if !n.leaf {
      n.p := CopyBlock(n.p, child.p, 0, M, M);
    }
  }

  /** btree_split_child, the writes. */
  method SplitWrites(parent: Node, pos: nat, child: Node) returns (n: Node)
    requires parent != child && |parent.k| == |child.k| == 2 * M - 1 && |parent.p| == |child.p| == 2 * M
             && pos <= parent.keyNum < 2 * M - 1
    modifies parent, child
    ensures child.keyNum == M - 1 && unchanged(child`k) && unchanged(child`p) && unchanged(child`leaf)
    ensures fresh(n) && n.keyNum == M - 1 && n.leaf == child.leaf && |n.k| == 2 * M - 1 && n.k[..M - 1] == child.k[M..]
    ensures TailKept(Zeros(), n.k, M - 1)
    ensures if n.leaf then n.p == Nulls() else |n.p| == 2 * M && n.p[..M] == child.p[M..]
    ensures unchanged(parent`leaf) && parent.keyNum == old(parent.keyNum) + 1
    ensures Filled(old(parent.k), parent.k, pos, old(parent.keyNum), child.k[M - 1])
    ensures Filled(old(parent.p), parent.p, pos + 1, old(parent.keyNum) + 1, n)
  {
    hide Filled, TailKept, Zeros;
    n := UpperHalf(child);
    child.keyNum := M - 1;
    parent.p := PutIn(parent.p, pos + 1, parent.keyNum + 1, n);
    parent.k := PutIn(parent.k, pos, parent.keyNum, child.k[M - 1]);
    parent.keyNum := parent.keyNum + 1;
  }

  /** btree_split_child */
  method SplitChild(parent: Node, pos: nat, child: Node, ghost t: Tree<Node>, ghost h: nat)
      returns (ghost t': Tree<Node>)
    requires Rep(t) && Tidy(t) && Ok(t, h + 1) && t.at == parent
    requires pos < |t.kids| && t.kids[pos].at == child && |t.kids[pos].keys| == 2 * M - 1 && |t.keys| < 2 * M - 1
    modifies parent, child
    ensures pos + 1 < |t'.kids| && fresh(t'.kids[pos + 1].at) && t' == Split(t, pos, t'.kids[pos + 1].at)
    ensures Rep(t') && TailKept(Zeros(), t'.kids[pos + 1].at.k, M - 1)
  {
    hide Rep, AllRep, Nodes, Under, Tidy, Ok, Filled, TailKept, Zeros;
    SplitSetup(t, pos, h);
    ghost var c := t.kids[pos];
    ShapeFor(t, pos, h);
    NodesExist(t);
    var n := SplitWrites(parent, pos, child);
    t' := Split(t, pos, n);
    ghost var l, r := t'.kids[pos], t'.kids[pos + 1];
    LeftRight(c.kids, if c.kids == [] then 0 else M);
    SplitAts(t, pos, n);
    GrownLocal(t, t', pos, c.keys[M - 1], n, old(parent.k), old(parent.p));
    HalvesLocal(c, l, r, old(child.k), old(child.p));
    RepIs(l);
    RepIs(r);
    AllRepOne(l);
    AllRepOne(r);
    AllRepSum([l], [r]);
    assert [l, r] == [l] + [r];
    AllRepAround(t.kids[..pos], [l, r], t.kids[pos + 1..]);
    RepIs(t');
  }

  // ----- going down to child pos and coming back

  /** Child pos is a tree of its own, stored apart from the rest. */
  lemma Enter(t: Tree<Node>, pos: nat, h: nat)
    requires Rep(t) && Tidy(t) && Ok(t, h + 1) && pos < |t.kids|
    ensures |t.kids| == |t.keys| + 1 && Local(t) && AllRep(t.kids[..pos]) && AllRep(t.kids[pos + 1..])
    ensures Rep(t.kids[pos]) && Tidy(t.kids[pos]) && Ok(t.kids[pos], h) && M - 1 <= |t.kids[pos].keys|
    ensures t.at !in Nodes(t.kids[pos]) && Nodes(t.kids[pos]) <= Nodes(t) && t.at in Nodes(t)
    ensures Under(t.kids[..pos]) !! Nodes(t.kids[pos]) && Under(t.kids[pos + 1..]) !! Nodes(t.kids[pos])
    ensures Under(t.kids[..pos]) <= Nodes(t) && Under(t.kids[pos + 1..]) <= Nodes(t)
    ensures t.at !in Under(t.kids[..pos]) && t.at !in Under(t.kids[pos + 1..])
  {
    hide Rep, AllRep, Local, Nodes, Under, AllTidy, Tidy, Ok;
    ShapeFor(t, pos, h);
    RepIs(t);
    AllRepCut(t.kids, pos, pos + 1);
    RepOf(t.kids, pos);
    TidyIs(t);
    Cut3(t.kids, pos, pos + 1);
    OneOf(t.kids, pos);
    NodesIs(t);
    KidIn(t.kids, pos);
  }

  /** Child pos was rebuilt in its own node; the parent's keys are as in its node. */
  lemma Leave(t: Tree<Node>, keys: seq<int>, pos: nat, kid: Tree<Node>)
    requires pos < |t.kids| == |t.keys| + 1 && Local(Tree(t.at, keys, t.kids)) && AllRep(t.kids[..pos])
             && AllRep(t.kids[pos + 1..])
    requires Rep(kid) && kid.at == t.kids[pos].at
    ensures Rep(Tree(t.at, keys, t.kids[pos := kid]))
  {
    hide Rep, AllRep;
    var kids' := t.kids[pos := kid];
    assert Ats(kids') == Ats(t.kids);
    AllRepOne(kid);
    AllRepAround(t.kids[..pos], [kid], t.kids[pos + 1..]);
    assert kids' == t.kids[..pos] + [kid] + t.kids[pos + 1..];
    RepIs(Tree(t.at, keys, kids'));
  }

  lemma KidOk<T>(t: Tree<T>, keys: seq<int>, pos: nat, kid: Tree<T>, h: nat)
    requires Ok(t, h + 1) && pos < |t.kids| && |keys| == |t.keys| && Ok(kid, h) && M - 1 <= |kid.keys|
    ensures Ok(Tree(t.at, keys, t.kids[pos := kid]), h + 1)
  {
  }

  // ----- two neighbouring children and the key between them

  ghost predicate Clear(t: Tree<Node>, pos: nat, kids: seq<Tree<Node>>)
    requires pos + 1 < |t.kids|
  {
    t.at !in Under(kids) && t.kids[pos].at !in Under(kids) && t.kids[pos + 1].at !in Under(kids)
    && Under(kids) <= Nodes(t)
  }

  lemma EnterPair(t: Tree<Node>, pos: nat, h: nat)
    requires Rep(t) && Tidy(t) && Ok(t, h + 1) && pos + 1 < |t.kids|
    ensures |t.kids| == |t.keys| + 1 && Local(t) && Local(t.kids[pos]) && Local(t.kids[pos + 1])
    ensures t.at != t.kids[pos].at && t.at != t.kids[pos + 1].at && t.kids[pos].at != t.kids[pos + 1].at
    ensures t.at in Nodes(t) && t.kids[pos].at in Nodes(t) && t.kids[pos + 1].at in Nodes(t)
    ensures AllRep(t.kids[..pos]) && AllRep(t.kids[pos + 2..]) && AllRep(t.kids[pos].kids)
            && AllRep(t.kids[pos + 1].kids)
    ensures Clear(t, pos, t.kids[..pos]) && Clear(t, pos, t.kids[pos + 2..]) && Clear(t, pos, t.kids[pos].kids)
            && Clear(t, pos, t.kids[pos + 1].kids)
    ensures Ok(t.kids[pos], h) && Ok(t.kids[pos + 1], h) && M - 1 <= |t.kids[pos].keys|
            && M - 1 <= |t.kids[pos + 1].keys|
  {
    hide Rep, AllRep, Local, Nodes, Under, AllTidy, Tidy, Ok;
    ShapeFor(t, pos, h);
    ShapeFor(t, pos + 1, h);
    RepIs(t);
    AllRepCut(t.kids, pos, pos + 2);
    RepOf(t.kids, pos);
    RepOf(t.kids, pos + 1);
    RepIs(t.kids[pos]);
    RepIs(t.kids[pos + 1]);
    TidyIs(t);
    Cut3(t.kids, pos, pos + 2);
    TwoOf(t.kids, pos);
    TidyIs(t.kids[pos]);
    TidyIs(t.kids[pos + 1]);
    NodesIs(t.kids[pos]);
    NodesIs(t.kids[pos + 1]);
    NodesIs(t);
  }

  lemma LeavePair(t: Tree<Node>, keys: seq<int>, pos: nat, y: Tree<Node>, z: Tree<Node>)
    requires pos + 1 < |t.kids| == |t.keys| + 1 && |keys| == |t.keys| && AllRep(t.kids[..pos])
             && AllRep(t.kids[pos + 2..])
    requires Local(Tree(t.at, keys, t.kids)) && Local(y) && Local(z) && AllRep(y.kids) && AllRep(z.kids)
    requires y.at == t.kids[pos].at && z.at == t.kids[pos + 1].at
    ensures Rep(Tree(t.at, keys, t.kids[pos := y][pos + 1 := z]))
  {
    hide Rep, AllRep;
    var kids' := t.kids[pos := y][pos + 1 := z];
    assert Ats(kids') == Ats(t.kids);
    RepIs(y);
    RepIs(z);
    AllRepOne(y);
    AllRepOne(z);
    AllRepSum([y], [z]);
    assert [y, z] == [y] + [z];
    AllRepAround(t.kids[..pos], [y, z], t.kids[pos + 2..]);
    assert kids' == t.kids[..pos] + [y, z] + t.kids[pos + 2..];
    RepIs(Tree(t.at, keys, kids'));
  }

  /** btree_shift_to_right_child, the writes. */
  method LendRightWrites(root: Node, pos: nat, y: Node, z: Node)
    requires root != y && y != z && root != z && |root.k| == |y.k| == |z.k| == 2 * M - 1 && |y.p| == |z.p| == 2 * M
    requires pos < |root.k| && 1 <= y.keyNum <= 2 * M - 1 && 0 <= z.keyNum < 2 * M - 1
    modifies root, y, z
    ensures root.k == old(root.k)[pos := old(y.k)[old(y.keyNum) - 1]] && unchanged(root`p) && unchanged(root`keyNum)
            && unchanged(root`leaf)
    ensures y.keyNum == old(y.keyNum) - 1 && unchanged(y`k) && unchanged(y`p) && unchanged(y`leaf)
    ensures z.keyNum == old(z.keyNum) + 1 && unchanged(z`leaf)
            && Filled(old(z.k), z.k, 0, old(z.keyNum), old(root.k)[pos])
    ensures if z.leaf then z.p == old(z.p) else Filled(old(z.p), z.p, 0, old(z.keyNum) + 1, y.p[old(y.keyNum)])
  {
    z.keyNum := z.keyNum + 1;
    z.k := PutIn(z.k, 0, z.keyNum - 1, root.k[pos]);
    root.k := root.k[pos := y.k[y.keyNum - 1]];
    if !z.leaf {
      z.p := PutIn(z.p, 0, z.keyNum, y.p[y.keyNum]);
    }
    y.keyNum := y.keyNum - 1;
  }

  /** A node that lost its last key and child, or was handed one at the front. */
  lemma ShorterLocal(t: Tree<Node>, t': Tree<Node>, n: nat)
    requires n < |t.keys| <= 2 * M - 1 && (t.kids == [] || |t.kids| == |t.keys| + 1)
             && t' == Tree(t.at, t.keys[..n], Left(t.kids, n + 1))
    requires |t.at.k| == 2 * M - 1 && |t.at.p| == 2 * M && t.at.k[..|t.keys|] == t.keys && t.at.keyNum == n
             && (t.at.leaf <==> t.kids == [])
    requires if t.kids == [] then t.at.p == Nulls() else t.at.p[..|t.kids|] == Ats(t.kids)
    ensures Local(t')
  {
    PrefixOf(t.at.k, t.keys, 0, n);
    if t.kids != [] {
      PrefixOf(t.at.p, Ats(t.kids), 0, n + 1);
      assert Ats(t'.kids) == Ats(t.kids)[..n + 1];
    }
  }

  lemma FrontLocal(t: Tree<Node>, t': Tree<Node>, x: int, c: seq<Tree<Node>>, k: seq<int>, p: seq<Node?>)
    requires |t.keys| < 2 * M - 1 == |k| && |p| == 2 * M && k[..|t.keys|] == t.keys
             && t' == Tree(t.at, [x] + t.keys, c + t.kids)
    requires if t.kids == [] then c == [] && p == Nulls()
             else |c| == 1 && |t.kids| == |t.keys| + 1 && p[..|t.kids|] == Ats(t.kids)
    requires Filled(k, t.at.k, 0, |t.keys|, x) && t.at.keyNum == |t.keys| + 1 && (t.at.leaf <==> t.kids == [])
    requires if t.kids == [] then t.at.p == p else Filled(p, t.at.p, 0, |t.kids|, c[0].at)
    ensures Local(t')
  {
    if t.kids != [] { AtsSum(c, t.kids); }
  }

  lemma PartsRep(y: seq<Tree<Node>>, z: seq<Tree<Node>>, n: nat)
    requires AllRep(y) && AllRep(z) && n <= |y|
    ensures AllRep(Left(y, n)) && AllRep(Right(y, n) + z) && AllRep(z + Left(y, n)) && AllRep(Right(y, n))
  {
    hide AllRep;
    LeftRight(y, n);
    AllRepSum(Right(y, n), z);
    AllRepSum(z, Left(y, n));
  }

  /** btree_shift_to_right_child */
  method ShiftToRight(root: Node, pos: nat, y: Node, z: Node, ghost t: Tree<Node>, ghost h: nat)
      returns (ghost t': Tree<Node>)
    requires Rep(t) && Tidy(t) && Ok(t, h + 1) && t.at == root && pos + 1 < |t.kids| && y == t.kids[pos].at
             && z == t.kids[pos + 1].at
    requires |t.kids[pos].keys| >= M && |t.kids[pos + 1].keys| == M - 1
    modifies root, y, z
    ensures |t.kids| == |t.keys| + 1 && t' == LendRight(t, pos) && Rep(t')
    ensures z.k == [t.keys[pos]] + Left(old(z.k), M - 1) + Right(old(z.k), M)
  {
    hide Rep, AllRep, Nodes, Under, Tidy, Ok, Filled;
    EnterPair(t, pos, h);
    NodesExist(t);
    ghost var ty, tz := t.kids[pos], t.kids[pos + 1];
    ghost var n := |ty.keys| - 1;
    LendRightWrites(root, pos, y, z);
    t' := LendRight(t, pos);
    LevelKids(ty, tz, h);
    PartsRep(ty.kids, tz.kids, if ty.kids == [] then 0 else n + 1);
    ShorterLocal(ty, t'.kids[pos], n);
    FrontLocal(tz, t'.kids[pos + 1], t.keys[pos], Right(ty.kids, n + 1), old(z.k), old(z.p));
    KeyReplaced(t, pos, ty.keys[n], old(root.k));
    LeavePair(t, t'.keys, pos, t'.kids[pos], t'.kids[pos + 1]);
  }

  lemma LevelKids<T>(y: Tree<T>, z: Tree<T>, h: nat)
    requires Ok(y, h) && Ok(z, h)
    ensures (y.kids == [] <==> z.kids == []) && (y.kids != [] ==> |y.kids| == |y.keys| + 1 && |z.kids| == |z.keys| + 1)
    ensures |y.keys| <= 2 * M - 1 && |z.keys| <= 2 * M - 1
  {
  }

  lemma KeyReplaced(t: Tree<Node>, pos: nat, x: int, k: seq<int>)
    requires pos < |t.keys| <= 2 * M - 1 == |k| && k[..|t.keys|] == t.keys && t.kids != [] && |t.kids| == |t.keys| + 1
    requires t.at.k == k[pos := x] && t.at.keyNum == |t.keys| && !t.at.leaf && |t.at.p| == 2 * M
             && t.at.p[..|t.kids|] == Ats(t.kids)
    ensures Local(Tree(t.at, t.keys[pos := x], t.kids))
  {
  }

  /** btree_shift_to_left_child, the writes. */
  method LendLeftWrites(root: Node, pos: nat, y: Node, z: Node)
    requires root != y && y != z && root != z && |root.k| == |y.k| == |z.k| == 2 * M - 1 && |y.p| == |z.p| == 2 * M
    requires pos < |root.k| && 0 <= y.keyNum < 2 * M - 1 && 1 <= z.keyNum <= 2 * M - 1
    modifies root, y, z
    ensures root.k == old(root.k)[pos := old(z.k)[0]] && unchanged(root`p) && unchanged(root`keyNum)
            && unchanged(root`leaf)
    ensures y.keyNum == old(y.keyNum) + 1 && y.k == old(y.k)[old(y.keyNum) := old(root.k)[pos]] && unchanged(y`leaf)
    ensures y.p == if z.leaf then old(y.p) else old(y.p)[old(y.keyNum) + 1 := old(z.p)[0]]
    ensures z.keyNum == old(z.keyNum) - 1 && unchanged(z`leaf) && |z.k| == 2 * M - 1
            && z.k[..z.keyNum] == old(z.k)[1..old(z.keyNum)]
    ensures if z.leaf then z.p == old(z.p) else |z.p| == 2 * M && z.p[..old(z.keyNum)] == old(z.p)[1..old(z.keyNum) + 1]
  {
    y.keyNum := y.keyNum + 1;
    y.k := y.k[y.keyNum - 1 := root.k[pos]];
    root.k := root.k[pos := z.k[0]];
    z.k := ShiftDown(z.k, 1, z.keyNum);
    if !z.leaf {
      y.p := y.p[y.keyNum := z.p[0]];
      z.p := ShiftDown(z.p, 1, z.keyNum + 1);
    }
    z.keyNum := z.keyNum - 1;
  }

  /** A node that was handed a key and a child at the end. */
  lemma LongerLocal(t: Tree<Node>, t': Tree<Node>, x: int, c: seq<Tree<Node>>, k: seq<int>, p: seq<Node?>)
    requires |t.keys| < 2 * M - 1 == |k| && |p| == 2 * M && k[..|t.keys|] == t.keys
             && t' == Tree(t.at, t.keys + [x], t.kids + c)
    requires if t.kids == [] then c == [] && p == Nulls()
             else |c| == 1 && |t.kids| == |t.keys| + 1 && p[..|t.kids|] == Ats(t.kids)
    requires t.at.k == k[|t.keys| := x] && t.at.keyNum == |t.keys| + 1 && (t.at.leaf <==> t.kids == [])
    requires t.at.p == if t.kids == [] then p else p[|t.kids| := c[0].at]
    ensures Local(t')
  {
    assert t.at.k[..|t.keys| + 1] == k[..|t.keys|] + [x];
    if t.kids != [] {
      AtsSum(t.kids, c);
      assert t.at.p[..|t.kids| + 1] == p[..|t.kids|] + [c[0].at];
    }
  }

  /** A node that lost its first key and child. */
  lemma RestLocal(t: Tree<Node>, t': Tree<Node>, k: seq<int>, p: seq<Node?>)
    requires 1 <= |t.keys| <= 2 * M - 1 == |k| && |p| == 2 * M && k[..|t.keys|] == t.keys
             && t' == Tree(t.at, t.keys[1..], Right(t.kids, 1))
    requires if t.kids == [] then p == Nulls() else |t.kids| == |t.keys| + 1 && p[..|t.kids|] == Ats(t.kids)
    requires |t.at.k| == 2 * M - 1 && t.at.k[..|t.keys| - 1] == k[1..|t.keys|] && t.at.keyNum == |t.keys| - 1
             && (t.at.leaf <==> t.kids == [])
    requires if t.kids == [] then t.at.p == p else |t.at.p| == 2 * M && t.at.p[..|t.keys|] == p[1..|t.kids|]
    ensures Local(t')
  {
    PrefixOf(k, t.keys, 1, |t.keys|);
    if t.kids != [] {
      PrefixOf(p, Ats(t.kids), 1, |t.kids|);
      assert Ats(t'.kids) == Ats(t.kids)[1..];
    }
  }

  /** btree_shift_to_left_child */
  method ShiftToLeft(root: Node, pos: nat, y: Node, z: Node, ghost t: Tree<Node>, ghost h: nat)
      returns (ghost t': Tree<Node>)
    requires Rep(t) && Tidy(t) && Ok(t, h + 1) && t.at == root && pos + 1 < |t.kids| && y == t.kids[pos].at
             && z == t.kids[pos + 1].at
    requires |t.kids[pos + 1].keys| >= M && |t.kids[pos].keys| == M - 1
    modifies root, y, z
    ensures |t.kids| == |t.keys| + 1 && t' == LendLeft(t, pos) && Rep(t')
    ensures y.k == Left(old(y.k), M - 1) + [t.keys[pos]] + Right(old(y.k), M)
  {
    hide Rep, AllRep, Nodes, Under, Tidy, Ok;
    EnterPair(t, pos, h);
    NodesExist(t);
    ghost var ty, tz := t.kids[pos], t.kids[pos + 1];
    LendLeftWrites(root, pos, y, z);
    t' := LendLeft(t, pos);
    LevelKids(ty, tz, h);
    PartsRep(tz.kids, ty.kids, if tz.kids == [] then 0 else 1);
    LongerLocal(ty, t'.kids[pos], t.keys[pos], Left(tz.kids, 1), old(y.k), old(y.p));
    RestLocal(tz, t'.kids[pos + 1], old(z.k), old(z.p));
    KeyReplaced(t, pos, tz.keys[0], old(root.k));
    LeavePair(t, t'.keys, pos, t'.kids[pos], t'.kids[pos + 1]);
  }

  // ----- merge

  /** btree_merge_child, the writes to the child that takes over its neighbour. */
  method TakeOver(y: Node, z: Node, x: int)
    requires y != z && |y.k| == |z.k| == 2 * M - 1 && |y.p| == |z.p| == 2 * M
    modifies y
    ensures unchanged(y`leaf) && y.keyNum == 2 * M - 1 && y.k == old(y.k)[..M - 1] + [x] + z.k[..M - 1]
    ensures y.p == if z.leaf then old(y.p) else old(y.p)[..M] + z.p[..M]
  {
    y.keyNum := 2 * M - 1;
    y.k := CopyBlock(y.k, z.k, M, 0, M - 1);
    y.k := y.k[M - 1 := x];
    if !z.leaf {
      y.p := CopyBlock(y.p, z.p, M, 0, M);
    }
  }

  /** btree_merge_child, the writes to the parent. */
  method DropKey(root: Node, pos: nat)
    requires |root.k| == 2 * M - 1 && |root.p| == 2 * M && pos < root.keyNum <= 2 * M - 1
    modifies root
    ensures unchanged(root`leaf) && root.keyNum == old(root.keyNum) - 1 && |root.k| == 2 * M - 1 && |root.p| == 2 * M
    ensures root.k[..root.keyNum] == old(root.k)[..pos] + old(root.k)[pos + 1..old(root.keyNum)]
    ensures root.p[..root.keyNum + 1] == old(root.p)[..pos + 1] + old(root.p)[pos + 2..old(root.keyNum) + 1]
  {
    root.k := ShiftDown(root.k, pos + 1, root.keyNum);
    root.p := ShiftDown(root.p, pos + 2, root.keyNum + 1);
    root.keyNum := root.keyNum - 1;
    assert root.k[..root.keyNum] == root.k[..pos] + root.k[pos..root.keyNum];
    assert root.p[..root.keyNum + 1] == root.p[..pos + 1] + root.p[pos + 1..root.keyNum + 1];
  }

  lemma JoinedLocal(y: Tree<Node>, z: Tree<Node>, c: Tree<Node>, x: int, k: seq<int>, p: seq<Node?>, zk: seq<int>,
                    zp: seq<Node?>)
    requires |y.keys| == |z.keys| == M - 1 && |k| == |zk| == 2 * M - 1 && |p| == |zp| == 2 * M && k[..M - 1] == y.keys
             && zk[..M - 1] == z.keys
    requires if y.kids == [] then z.kids == [] && p == Nulls()
             else |y.kids| == |z.kids| == M && p[..M] == Ats(y.kids) && zp[..M] == Ats(z.kids)
    requires c == Tree(y.at, y.keys + [x] + z.keys, y.kids + z.kids)
    requires y.at.k == k[..M - 1] + [x] + zk[..M - 1] && y.at.keyNum == 2 * M - 1 && (y.at.leaf <==> y.kids == [])
    requires y.at.p == if y.kids == [] then p else p[..M] + zp[..M]
    ensures Local(c) && c.at.k == c.keys
  {
    AtsSum(y.kids, z.kids);
  }

  lemma ShrunkLocal(t: Tree<Node>, t': Tree<Node>, pos: nat, k: seq<int>, p: seq<Node?>)
    requires pos < |t.keys| <= 2 * M - 1 == |k| && |t.kids| == |t.keys| + 1 && |p| == 2 * M && k[..|t.keys|] == t.keys
             && p[..|t.kids|] == Ats(t.kids)
    requires t'.at == t.at && t'.keys == t.keys[..pos] + t.keys[pos + 1..] && t'.kids != []
             && |t'.kids| == |t'.keys| + 1
    requires Ats(t'.kids) == Ats(t.kids)[..pos + 1] + Ats(t.kids)[pos + 2..]
    requires t.at.keyNum == |t.keys| - 1 && !t.at.leaf && |t.at.k| == 2 * M - 1 && |t.at.p| == 2 * M
    requires t.at.k[..|t.keys| - 1] == k[..pos] + k[pos + 1..|t.keys|]
             && t.at.p[..|t.keys|] == p[..pos + 1] + p[pos + 2..|t.kids|]
    ensures Local(t')
  {
    hide Ats;
    PrefixOf(k, t.keys, pos + 1, |t.keys|);
    PrefixOf(k, t.keys, 0, pos);
    PrefixOf(p, Ats(t.kids), pos + 2, |t.kids|);
    PrefixOf(p, Ats(t.kids), 0, pos + 1);
  }

  lemma JoinAts(t: Tree<Node>, pos: nat)
    requires pos + 1 < |t.kids| == |t.keys| + 1
    ensures Ats(Join(t, pos).kids) == Ats(t.kids)[..pos + 1] + Ats(t.kids)[pos + 2..]
  {
  }

  /** btree_merge_child */
  method MergeChild(root: Node, pos: nat, y: Node, z: Node, ghost t: Tree<Node>, ghost h: nat)
      returns (ghost t': Tree<Node>)
    requires Rep(t) && Tidy(t) && Ok(t, h + 1) && t.at == root && pos + 1 < |t.kids| && y == t.kids[pos].at
             && z == t.kids[pos + 1].at
    requires |t.kids[pos].keys| == M - 1 && |t.kids[pos + 1].keys| == M - 1
    modifies root, y
    ensures |t.kids| == |t.keys| + 1 && t' == Join(t, pos) && Rep(t')
    ensures y.k == t'.kids[pos].keys
  {
    hide Rep, AllRep, Nodes, Under, Tidy, Ok;
    EnterPair(t, pos, h);
    NodesExist(t);
    ghost var ty, tz := t.kids[pos], t.kids[pos + 1];
    RootShape(t, h + 1);
    LevelKids(ty, tz, h);
    TakeOver(y, z, root.k[pos]);
    DropKey(root, pos);
    t' := Join(t, pos);
    ghost var c := t'.kids[pos];
    assert Local(c) && c.at.k == c.keys by { JoinedLocal(ty, tz, c, t.keys[pos], old(y.k), old(y.p), z.k, z.p); }
    assert Local(t') by {
      JoinAts(t, pos);
      ShrunkLocal(t, t', pos, old(root.k), old(root.p));
    }
    AllRepSum(ty.kids, tz.kids);
    RepIs(c);
    AllRepOne(c);
    AllRepAround(t.kids[..pos], [c], t.kids[pos + 2..]);
    RepIs(t');
  }

  // ----- insertion

  /** The loop that makes room in a leaf. */
  method InsertKey(k: seq<int>, n: nat, x: int) returns (r: seq<int>, ghost pos: nat)
    requires n < |k|
    ensures Filled(k, r, pos, n, x) && (pos > 0 ==> k[pos - 1] <= x) && forall j :: pos <= j < n ==> x < k[j]
    ensures TailKept(k, r, n + 1)
  {
    hide Filled, TailKept;
    r := k;
    var i := n;
    while i >= 1 && x < r[i - 1]
      invariant 0 <= i <= n && r == k[..i + 1] + k[i..n] + k[n + 1..] && forall j :: i <= j < n ==> x < k[j]
    {
      r := r[i := r[i - 1]];
      i := i - 1;
    }
    pos := i;
    GapFilled(k, r, i, n, x);
    r := r[i := x];
  }

  lemma GapFilled(k: seq<int>, r: seq<int>, i: nat, n: nat, x: int)
    requires i <= n < |k| && r == k[..i + 1] + k[i..n] + k[n + 1..]
    ensures Filled(k, r[i := x], i, n, x) && TailKept(k, r[i := x], n + 1)
  {
    assert r[i := x] == k[..i] + [x] + k[i..n] + k[n + 1..];
  }

  lemma LeafInserted(t: Tree<Node>, t': Tree<Node>, x: int, pos: nat)
    requires t.kids == [] == t'.kids && Sorted(Flat(t)) && pos <= |t.keys|
             && t'.keys == t.keys[..pos] + [x] + t.keys[pos..]
    requires (pos > 0 ==> t.keys[pos - 1] <= x) && forall j :: pos <= j < |t.keys| ==> x < t.keys[j]
    ensures InsertedAt(Flat(t), Flat(t'), x, pos)
  {
    LeafFlat(t);
    LeafFlat(t');
  }

  /** Where the descent goes: after every key not greater than x. */
  method ChildFor(k: seq<int>, n: nat, x: int) returns (pos: nat)
    requires n <= |k|
    ensures pos <= n && (pos > 0 ==> k[pos - 1] <= x) && (pos < n ==> x < k[pos])
    ensures n > 0 && k[n - 1] <= x ==> pos == n
  {
    pos := n;
    while pos > 0 && x < k[pos - 1]
      invariant pos <= n && (pos < n ==> x < k[pos] && x < k[n - 1])
    {
      pos := pos - 1;
    }
  }

  lemma LeafTidy<T>(t: Tree<T>, h: nat)
    requires t.kids == [] && h == 0 && |t.keys| <= 2 * M - 1
    ensures Tidy(t) && Ok(t, h) && Nodes(t) == {t.at}
  {
  }

  /** After a split everything is as it was, but for one new node and where x may go. */
  lemma SplitDone<T>(t: Tree<T>, t': Tree<T>, pos: nat, h: nat)
    requires Tidy(t) && Ok(t, h + 1) && pos < |t.kids| && |t.kids[pos].keys| == 2 * M - 1 && |t.keys| < 2 * M - 1
    requires pos + 1 < |t'.kids| && t' == Split(t, pos, t'.kids[pos + 1].at) && t'.kids[pos + 1].at !in Nodes(t)
    ensures Tidy(t') && Ok(t', h + 1) && Nodes(t') == Nodes(t) + {t'.kids[pos + 1].at} && Flat(t') == Flat(t)
    ensures |t'.keys| == |t.keys| + 1 && |t'.kids| == |t.kids| + 1
    ensures |t'.kids[pos].keys| == M - 1 && |t'.kids[pos + 1].keys| == M - 1
    ensures forall x :: Belongs(t, pos, x) ==> Belongs(t', if x > t'.keys[pos] then pos + 1 else pos, x)
  {
    hide Tidy, Nodes, Ok, Flat;
    var n := t'.kids[pos + 1].at;
    ShapeFor(t, pos, h);
    SplitTidy(t, pos, n, h);
    SplitOk(t, pos, n, h);
    SplitKeepsFlat(t, pos, n, h);
  }

  /** The new root above a full one. */
  lemma NewRoot(t: Tree<Node>, node: Node, h: nat)
    requires Rep(t) && Tidy(t) && Ok(t, h) && node !in Nodes(t) && |t.keys| == 2 * M - 1
    requires |node.k| == 2 * M - 1 && |node.p| == 2 * M && node.keyNum == 0 && !node.leaf && node.p[0] == t.at
    ensures var r := Tree(node, [], [t]);
            Rep(r) && Tidy(r) && Ok(r, h + 1) && Flat(r) == Flat(t) && Nodes(r) == Nodes(t) + {node}
  {
    hide Rep, Tidy, Nodes, Under;
    var r := Tree(node, [], [t]);
    AllRepOne(t);
    RepIs(r);
    TidyOne(t);
    UnderOne(t);
    TidyIs(r);
    NodesIs(r);
    FlatIs(r);
  }

  // ----- deletion

  /** A node below which a key can go without a merge emptying it. */
  predicate CanLose<T>(t: Tree<T>, h: nat) {
    h == 0 || |t.keys| >= 2 || (|t.keys| == 1 && |t.kids| == 2
       && !(|t.kids[0].keys| == M - 1 && |t.kids[1].keys| == M - 1))
  }

  /** What a restructuring leaves as it was, and that child pos of the result has a key to spare
      and is where a key belongs that belonged in child i. */
  ghost predicate Refilled<T>(t: Tree<T>, i: nat, t': Tree<T>, pos: nat, h: nat) {
    && Tidy(t') && Ok(t', h) && t'.at == t.at && Nodes(t') <= Nodes(t) && Flat(t') == Flat(t)
    && i < |t.kids| && pos < |t'.kids| && |t'.kids[pos].keys| >= M
    && forall x :: Between(t, i, x) ==> Between(t', pos, x)
  }

  lemma LendRightDone<T>(t: Tree<T>, pos: nat, h: nat)
    requires Sorted(Flat(t)) && Tidy(t) && Ok(t, h + 1) && pos + 1 < |t.kids| && |t.kids[pos].keys| >= M
             && |t.kids[pos + 1].keys| == M - 1
    ensures |t.kids| == |t.keys| + 1 && Refilled(t, pos + 1, LendRight(t, pos), pos + 1, h + 1)
            && |LendRight(t, pos).keys| == |t.keys|
  {
    hide Tidy, Nodes, Ok, Flat, Sorted, Between;
    ShapeFor(t, pos, h);
    ShapeFor(t, pos + 1, h);
    LendTidy(t, pos, h);
    LendOk(t, pos, h);
    LendRightKeepsFlat(t, pos, h);
    var q := pos + 1;
    forall x | Between(t, q, x) ensures Between(LendRight(t, pos), q, x) { LendRightBetween(t, pos, x); }
  }

  lemma LendLeftDone<T>(t: Tree<T>, pos: nat, h: nat)
    requires Sorted(Flat(t)) && Tidy(t) && Ok(t, h + 1) && pos + 1 < |t.kids| && |t.kids[pos + 1].keys| >= M
             && |t.kids[pos].keys| == M - 1
    ensures |t.kids| == |t.keys| + 1 && Refilled(t, pos, LendLeft(t, pos), pos, h + 1)
            && |LendLeft(t, pos).keys| == |t.keys|
  {
    hide Tidy, Nodes, Ok, Flat, Sorted, Between;
    ShapeFor(t, pos, h);
    ShapeFor(t, pos + 1, h);
    LendTidy(t, pos, h);
    LendOk(t, pos, h);
    LendLeftKeepsFlat(t, pos, h);
    forall x | Between(t, pos, x) ensures Between(LendLeft(t, pos), pos, x) { LendLeftBetween(t, pos, x); }
  }

  lemma JoinDone<T>(t: Tree<T>, pos: nat, h: nat)
    requires Sorted(Flat(t)) && Tidy(t) && Ok(t, h + 1) && pos + 1 < |t.kids| && |t.kids[pos].keys| == M - 1
             && |t.kids[pos + 1].keys| == M - 1
    ensures |t.kids| == |t.keys| + 1 && |Join(t, pos).keys| == |t.keys| - 1
    ensures Refilled(t, pos, Join(t, pos), pos, h + 1) && Refilled(t, pos + 1, Join(t, pos), pos, h + 1)
            && t.keys[pos] in Flat(Join(t, pos).kids[pos])
    ensures |Join(t, pos).kids[pos].keys| == 2 * M - 1
  {
    hide Tidy, Nodes, Ok, Flat, Sorted, Between;
    ShapeFor(t, pos, h);
    ShapeFor(t, pos + 1, h);
    JoinTidy(t, pos, h);
    JoinOk(t, pos, h);
    JoinKeepsFlat(t, pos, h);
    KeyIsIn(Join(t, pos).kids[pos], M - 1);
    forall x | Between(t, pos, x) ensures Between(Join(t, pos), pos, x) { JoinBetween(t, pos, x); }
    var q := pos + 1;
    forall x | Between(t, q, x) ensures Between(Join(t, pos), pos, x) { JoinBetween(t, pos, x); }
  }

  /** The loop that looks for the first key not below x. */
  method FirstNotBelow(k: seq<int>, n: nat, x: int) returns (i: nat)
    requires n <= |k|
    ensures i <= n && (forall j :: 0 <= j < i ==> k[j] < x) && (i < n ==> x <= k[i])
  {
    i := 0;
    while i < n && x > k[i]
      invariant i <= n && forall j :: 0 <= j < i ==> k[j] < x
    {
      i := i + 1;
    }
  }

  /** btree_search_predecessor: the greatest key of a subtree. */
  method Predecessor(root: Node, ghost t: Tree<Node>, ghost h: nat) returns (r: int)
    requires Rep(t) && Ok(t, h) && t.at == root && |t.keys| >= 1
    ensures Flat(t) != [] && r == Flat(t)[|Flat(t)| - 1]
  {
    hide Rep, AllRep, Ok, Flat;
    NotEmpty(t, h);
    var y := root;
    ghost var ty, g := t, h;
    RepIs(ty);
    RootShape(ty, g);
    while !y.leaf
      invariant Rep(ty) && Ok(ty, g) && ty.at == y && |ty.keys| >= 1 && Flat(ty) != []
                && Flat(ty)[|Flat(ty)| - 1] == Flat(t)[|Flat(t)| - 1]
      invariant Local(ty) && (g == 0 <==> ty.kids == [])
      decreases g
    {
      Child(ty, |ty.keys|, g);
      Child(ty, 0, g);
      Ends(ty, g - 1);
      y := y.p[y.keyNum];
      ty, g := ty.kids[|ty.keys|], g - 1;
      RepIs(ty);
      RootShape(ty, g);
    }
    LeafFlat(ty);
    r := y.k[y.keyNum - 1];
  }

  /** btree_search_successor: the least key of a subtree. */
  method Successor(root: Node, ghost t: Tree<Node>, ghost h: nat) returns (r: int)
    requires Rep(t) && Ok(t, h) && t.at == root && |t.keys| >= 1
    ensures Flat(t) != [] && r == Flat(t)[0]
  {
    hide Rep, AllRep, Ok, Flat;
    NotEmpty(t, h);
    var z := root;
    ghost var tz, g := t, h;
    RepIs(tz);
    RootShape(tz, g);
    while !z.leaf
      invariant Rep(tz) && Ok(tz, g) && tz.at == z && |tz.keys| >= 1 && Flat(tz) != [] && Flat(tz)[0] == Flat(t)[0]
      invariant Local(tz) && (g == 0 <==> tz.kids == [])
      decreases g
    {
      Child(tz, |tz.keys|, g);
      Child(tz, 0, g);
      Ends(tz, g - 1);
      z := z.p[0];
      tz, g := tz.kids[0], g - 1;
      RepIs(tz);
      RootShape(tz, g);
    }
    LeafFlat(tz);
    r := z.k[0];
  }

  lemma Child(t: Tree<Node>, pos: nat, h: nat)
    requires Rep(t) && Ok(t, h) && h > 0 && pos <= |t.keys|
    ensures |t.kids| == |t.keys| + 1 && Rep(t.kids[pos]) && Ok(t.kids[pos], h - 1) && |t.kids[pos].keys| >= 1
            && Flat(t.kids[pos]) != []
  {
    hide Rep, AllRep, Flat;
    RepIs(t);
    RepOf(t.kids, pos);
    NotEmpty(t.kids[pos], h - 1);
  }

  /** The loop of find: past every key not above x. */
  method FirstAbove(k: seq<int>, n: nat, x: int) returns (i: nat)
    requires n <= |k|
    ensures i <= n && (i > 0 ==> k[i - 1] <= x) && (i < n ==> x < k[i])
  {
    i := 0;
    while i < n && x >= k[i]
      invariant i <= n && (i > 0 ==> k[i - 1] <= x)
    {
      i := i + 1;
    }
  }

  /** A key that is not at either side of child i is in that child or nowhere. */
  lemma FoundBelow(t: Tree<Node>, i: nat, x: int)
    requires i <= |t.keys| && Sorted(Flat(t)) && (i > 0 ==> t.keys[i - 1] < x) && (i < |t.keys| ==> x < t.keys[i])
    requires t.kids == [] || |t.kids| == |t.keys| + 1
    ensures t.kids == [] ==> x !in Flat(t)
    ensures t.kids != [] ==> (x in Flat(t) <==> x in Flat(t.kids[i]))
  {
    hide Flat;
    if t.kids == [] { LeafFlat(t); } else { Descend(t, i, x); }
  }

  /** A node with no key left is as good as its only child. */
  lemma OnlyChild(t: Tree<Node>, h: nat)
    requires Rep(t) && Tidy(t) && Ok(t, h) && h > 0 && t.keys == []
    ensures |t.kids| == 1 && Rep(t.kids[0]) && Tidy(t.kids[0]) && Ok(t.kids[0], h - 1) && Nodes(t.kids[0]) <= Nodes(t)
            && Flat(t.kids[0]) == Flat(t) && t.at !in Nodes(t.kids[0])
  {
    hide Rep, Tidy, Nodes, Ok;
    RootShape(t, h);
    Enter(t, 0, h - 1);
    FlatIs(t);
  }

  lemma AsItIs<T>(t: Tree<T>, n: nat, h: nat)
    requires Tidy(t) && Ok(t, h) && n < |t.kids| && |t.kids[n].keys| >= M
    ensures Refilled(t, n, t, n, h)
  {
  }

  /** The root is full: the tree grows by one level. */
  method SplitRoot(root: Node, ghost t: Tree<Node>, ghost h: nat) returns (node: Node, ghost t': Tree<Node>)
    requires Rep(t) && Tidy(t) && Ok(t, h) && t.at == root && |t.keys| == 2 * M - 1
    modifies root
    ensures Rep(t') && Tidy(t') && Ok(t', h + 1) && t'.at == node && |t'.keys| == 1 && Flat(t') == Flat(t)
            && fresh(Nodes(t') - Nodes(t))
    ensures |t'.kids| == 2 && t'.keys == [t.keys[M - 1]] && |t'.kids[1].keys| == M - 1
            && TailKept(Zeros(), t'.kids[1].at.k, M - 1)
  {
    hide Rep, AllRep, Nodes, Under, Tidy, Ok, Flat, TailKept;
    NodesExist(t);
    node := new Node();
    node.leaf := false;
    node.p := node.p[0 := root];
    NewRoot(t, node, h);
    ghost var t1 := Tree(node, [], [t]);
    t' := SplitChild(node, 0, root, t1, h);
    SplitDone(t1, t', 0, h);
  }

  /** All n keys are below x, and what follows them, in the next slot or behind the array, is x. */
  predicate StaleHit(k: seq<int>, n: nat, x: int, behind: int) {
    n <= |k| && (if n < |k| then k[n] else behind) == x && forall j :: 0 <= j < n ==> k[j] < x
  }

  /** The leaf case of btree_delete_nonone. The test after the loop looks at a slot without asking
      whether it is in use: besides a stored key it also accepts one left over in the slot behind the
      last key, and then the greatest stored key is lost. With a full leaf and a greater x that slot is
      behind the array; `behind` is what the program finds there. */
  method LeafDelete(k: seq<int>, n: nat, x: int, behind: int) returns (k': seq<int>, n': int, hit: bool, ghost i: nat)
    requires n <= |k| == 2 * M - 1 && Sorted(k[..n])
    ensures hit <==> x in k[..n] || StaleHit(k, n, x, behind)
    ensures n' == if hit then n - 1 else n
    ensures i <= n && (hit ==> if x in k[..n] then i < n && k[i] == x else i == n)
    ensures k' == if hit && i < |k| then k[..i] + k[i + 1..] + [k[|k| - 1]] else k
  {
    hide StaleHit, Sorted;
    var j := FirstNotBelow(k, n, x);
    LeafTest(k, n, x, behind, j);
    i, k', n', hit := j, k, n, x == if j < 2 * M - 1 then k[j] else behind;
    if hit {
      if j < 2 * M - 1 {
        k' := ShiftDown(k, j + 1, 2 * M - 1);
        CutOut(k, k', j);
      }
      n' := n - 1;
    }
  }

  lemma CutOut(k: seq<int>, k': seq<int>, j: nat)
    requires j < |k| == |k'| && k'[..j] == k[..j] && k'[j..|k| - 1] == k[j + 1..] && k'[|k| - 1..] == k[|k| - 1..]
    ensures k' == k[..j] + k[j + 1..] + [k[|k| - 1]]
  {
    assert k' == k'[..j] + k'[j..|k| - 1] + k'[|k| - 1..];
  }

  /** The slot the loop stops at tells whether x is among the keys. */
  lemma LeafTest(k: seq<int>, n: nat, x: int, behind: int, j: nat)
    requires j <= n <= |k| && Sorted(k[..n]) && (forall m :: 0 <= m < j ==> k[m] < x) && (j < n ==> x <= k[j])
    ensures x in k[..n] <==> j < n && k[j] == x
    ensures StaleHit(k, n, x, behind) <==> j == n && (if n < |k| then k[n] else behind) == x
  {
    var keys := k[..n];
    assert forall m :: 0 <= m < n ==> keys[m] == k[m];
    if j < n {
      assert forall m :: j < m < n ==> keys[j] <= keys[m];
    }
  }

  /** Deleting 3 twice from the leaf 1, 2, 3 takes 2 with it. */
  method DeletesTwice(behind: int) returns (k: seq<int>, n: int)
    ensures n == 1 && |k| > 0 && k[0] == 1
  {
    var hit;
    ghost var i;
    k, n, hit, i := LeafDelete([1, 2, 3], 3, 3, behind);
    assert [1, 2, 3][..3] == [1, 2, 3] && 3 in [1, 2, 3];
    assert n == 2 && k == [1, 2, 3];
    assert StaleHit(k, 2, 3, behind);
    k, n, hit, i := LeafDelete(k, 2, 3, behind);
  }

  /** A leaf as its test finds it: its slots and how many of them are in use. */
  datatype Leaf = Leaf(at: Node, k: seq<int>, n: nat)

  predicate Stale(l: Leaf, x: int, behind: int) { StaleHit(l.k, l.n, x, behind) }

  /** The leaf is as it was found. */
  ghost predicate Untouched(l: Leaf)
    reads l.at
  {
    l.at.k == l.k && l.at.keyNum == l.n && l.at.leaf
  }

  /** The leaf at the end of the way down, as its test will find it. */
  ghost function Found(s: Stop<Node>): Leaf
    reads s.at`k
  {
    match s
    case AsIs(at, n) => Leaf(at, at.k, n)
    case Front(at, n, key) => Leaf(at, [key] + Left(at.k, n) + Right(at.k, n + 1), n + 1)
    case Back(at, n, key) => Leaf(at, Left(at.k, n) + [key] + Right(at.k, n + 1), n + 1)
    case Joined(at, keys) => Leaf(at, keys, |keys|)
  }

  /** What a leaf found like l decides about a key that is not stored. */
  ghost predicate Decided(l: Leaf, x: int, hit: bool, behind: int)
    reads l.at
  {
    (hit <==> Stale(l, x, behind)) && (!hit ==> Untouched(l))
  }

  /** An empty tree whose first slot has a stale copy of x. */
  predicate Empties(t: Tree<Node>, k: seq<int>, x: int) { t.kids == [] && t.keys == [] && |k| > 0 && k[0] == x }

  lemma KeyOf(t: Tree<Node>, i: nat)
    requires Rep(t) && i < |t.keys|
    ensures i < |t.at.k| && t.at.k[i] == t.keys[i]
  {
    RepIs(t);
    assert t.at.k[..|t.keys|][i] == t.keys[i];
  }

  lemma BelongsHere(t: Tree<Node>, pos: nat, x: int)
    requires Local(t) && pos <= |t.keys| && (pos > 0 ==> t.at.k[pos - 1] <= x) && (pos < |t.keys| ==> x < t.at.k[pos])
    ensures Belongs(t, pos, x)
  {
    assert forall i :: 0 <= i < |t.keys| ==> t.at.k[i] == t.at.k[..|t.keys|][i];
  }

  lemma LeafParts(t: Tree<Node>)
    requires t.kids == []
    ensures Rep(t) <==> && |t.at.k| == 2 * M - 1 && t.at.p == Nulls() && t.at.leaf
                        && t.at.keyNum == |t.keys| <= 2 * M - 1 && t.at.k[..|t.keys|] == t.keys
  {
  }

  lemma EmptiesIs(t: Tree<Node>, k: seq<int>, x: int)
    ensures Empties(t, k, x) ==> Flat(t) == []
  {
    if t.kids == [] { LeafFlat(t); }
  }

  lemma EmptySlot(k: seq<int>, x: int, behind: int)
    requires |k| > 0
    ensures StaleHit(k, 0, x, behind) <==> k[0] == x
  {
  }

  /** The leaf after a hit, if it has a key to lose. */
  lemma LeafGone(k: seq<int>, keys: seq<int>, x: int, behind: int, i: nat, k': seq<int>)
    requires |keys| <= |k| == 2 * M - 1 && k[..|keys|] == keys && Sorted(keys) && 0 < |keys|
    requires if x in keys then i < |keys| && keys[i] == x else i == |keys| && StaleHit(k, |keys|, x, behind)
    requires k' == if i < |k| then k[..i] + k[i + 1..] + [k[|k| - 1]] else k
    ensures var j := if i < |keys| then i else i - 1;
            && k'[..|keys| - 1] == keys[..j] + keys[j + 1..]
            && DeletedAt(keys, keys[..j] + keys[j + 1..], x, true, j)
  {
    var j := if i < |keys| then i else i - 1;
    PrefixOf(k, keys, 0, j);
    PrefixOf(k, keys, 0, i);
    PrefixOf(k, keys, j + 1, |keys|);
    if i < |keys| {
      assert k'[..|keys| - 1] == k[..i] + k[i + 1..|keys|];
    } else {
      assert k'[..|keys| - 1] == k[..|keys| - 1];
      assert forall m :: 0 <= m < |keys| ==> keys[m] == k[m];
    }
  }

  /** How a leaf with slots l stands after the test, now with slots k of which n are in use. */
  ghost predicate LeafCase(t: Tree<Node>, t': Tree<Node>, l: seq<int>, x: int, behind: int, hit: bool, k: seq<int>,
                           n: int, i: nat) {
    && (Empties(t, l, x) ==> hit && n == -1)
    && (!Empties(t, l, x) ==>
          && t'.at == t.at && t'.kids == [] && n == |t'.keys| == |t.keys| - (if hit then 1 else 0)
          && n <= |k| == 2 * M - 1 && k[..n] == t'.keys && DeletedAt(t.keys, t'.keys, x, hit, i))
    && (x !in t.keys ==> (hit <==> StaleHit(l, |t.keys|, x, behind)))
  }

  lemma LeafAfter(t: Tree<Node>, x: int, behind: int, hit: bool, i: nat, k: seq<int>, n: int)
      returns (t': Tree<Node>, i': nat)
    requires t.kids == [] && |t.keys| <= |t.at.k| == 2 * M - 1 && t.at.k[..|t.keys|] == t.keys && Sorted(t.keys)
    requires hit <==> x in t.keys || StaleHit(t.at.k, |t.keys|, x, behind)
    requires n == (if hit then |t.keys| - 1 else |t.keys|) && i <= |t.keys|
    requires hit ==> if x in t.keys then i < |t.keys| && t.at.k[i] == x else i == |t.keys|
    requires k == if hit && i < |t.at.k| then t.at.k[..i] + t.at.k[i + 1..] + [t.at.k[|t.at.k| - 1]] else t.at.k
    ensures LeafCase(t, t', t.at.k, x, behind, hit, k, n, i') && t'.kids == [] && t'.at == t.at
  {
    hide StaleHit, DeletedAt, Sorted;
    t', i' := t, 0;
    if t.keys == [] { EmptySlot(t.at.k, x, behind); }
    if hit && t.keys != [] {
      PrefixOf(t.at.k, t.keys, 0, i);
      if i < |t.keys| { assert t.keys[i] == t.at.k[..|t.keys|][i]; }
      LeafGone(t.at.k, t.keys, x, behind, i, k);
      i' := if i < |t.keys| then i else i - 1;
      t' := Tree(t.at, t.keys[..i'] + t.keys[i' + 1..], []);
    } else if !hit {
      NotDeleted(t.keys, x);
    }
  }

  lemma LeafKept(t: Tree<Node>, t': Tree<Node>, l: seq<int>, x: int, behind: int, hit: bool, k: seq<int>, n: int,
                 i: nat)
    requires LeafCase(t, t', l, x, behind, hit, k, n, i) && t.kids == [] && |l| > 0
    ensures Empties(t, l, x) ==> hit && n == -1
    ensures !Empties(t, l, x) ==>
              && t'.at == t.at && t'.kids == [] && n == |t'.keys| == |t.keys| - (if hit then 1 else 0)
              && n <= |k| == 2 * M - 1 && k[..n] == t'.keys && DeletedAt(Flat(t), Flat(t'), x, hit, i)
    ensures x !in Flat(t) ==> (hit <==> StaleHit(l, |t.keys|, x, behind))
  {
    hide Flat, StaleHit, DeletedAt, Empties;
    LeafFlat(t);
    if t'.kids == [] { LeafFlat(t'); }
  }

  lemma FoundDeleted(a: seq<int>, b: seq<int>, x: int, i: nat)
    requires RemovedAt(a, b, x, i)
    ensures DeletedAt(a, b, x, true, i)
  {
  }

  lemma DeletedFound(a: seq<int>, b: seq<int>, x: int, hit: bool, i: nat)
    requires DeletedAt(a, b, x, hit, i) && x in a
    ensures hit && RemovedAt(a, b, x, i)
  {
  }

  lemma DeletedDone(a: seq<int>, b: seq<int>, x: int, hit: bool, i: nat)
    requires Sorted(a) && DeletedAt(a, b, x, hit, i)
    ensures Sorted(b) && |b| == |a| - (if hit then 1 else 0)
    ensures x in a ==> hit && RemovedAt(a, b, x, i) && multiset(b) == multiset(a) - multiset{x}
  {
    DeletedIs(a, b, x, hit, i);
  }

  lemma NotDeleted(a: seq<int>, x: int)
    requires x !in a
    ensures DeletedAt(a, a, x, false, 0)
  {
  }

  /** What is ready for the descent into child pos of t'. If that is a leaf it is found like l. */
  ghost predicate Entered(t: Tree<Node>, n: nat, t': Tree<Node>, pos: nat, h: nat, l: Leaf)
    requires n < |t.kids| == |t.keys| + 1 && |t.keys| >= 1 && |t.kids[n].keys| >= M - 1
    reads l.at
  {
    && Refilled(t, n, t', pos, h) && 1 <= |t'.keys| && |t.keys| - 1 <= |t'.keys|
    && t' == Refit(t, n) && pos == Entry(t, n)
    && (h == 1 ==> l == Leaf(t'.kids[pos].at, l.at.k, |t'.kids[pos].keys|))
  }

  lemma LeftAlone(t: Tree<Node>, n: nat, h: nat)
    requires Tidy(t) && Ok(t, h) && n < |t.kids| == |t.keys| + 1 && |t.keys| >= 1 && |t.kids[n].keys| >= M
    ensures Entered(t, n, t, n, h, Found(LastStep(t, n)))
  {
    hide Ok, Tidy, Refilled;
    AsItIs(t, n, h);
    Kept(t, n);
  }

  lemma RouteLeaf<T>(t: Tree<T>, x: int)
    requires Ok(t, 0)
    ensures Route(t, 0, x) == AsIs(t.at, |t.keys|)
  {
  }

  /** One step of the way down. */
  lemma WayDown(t: Tree<Node>, n: nat, h: nat, x: int)
    requires Ok(t, h) && h > 0 && |t.keys| >= 1 && n == Below(t.keys, x)
    ensures n < |t.kids| == |t.keys| + 1 && |t.kids[n].keys| >= M - 1 && Entry(t, n) < |Refit(t, n).kids|
    ensures var c := Refit(t, n).kids[Entry(t, n)];
            && Ok(c, h - 1) && |c.keys| >= M
            && Route(t, h, x) == (if h == 1 then LastStep(t, n) else Route(c, h - 1, x))
            && (h == 1 ==> Route(c, 0, x) == AsIs(c.at, |c.keys|))
    ensures h > 1 ==> Route(t, h, x).at in Deep(t)
  {
    hide Ok, Refit, Entry, LastStep, Under, Deep;
    RootShape(t, h);
    RefitOk(t, n, h - 1);
    RouteIn(t, h, x);
  }

  /** x belongs in the last child, and that has room. */
  predicate GoesLast(t: Tree<Node>, x: int) {
    var n := |t.keys|;
    0 < n < |t.kids| && t.keys[n - 1] <= x && |t.kids[n].keys| < 2 * M - 1
  }

  /** Leaf child n got one key more; its slots were k and are k'. */
  predicate Grew(t: Tree<Node>, t': Tree<Node>, n: nat, k: seq<int>, k': seq<int>) {
    && n < |t.kids| == |t'.kids| && t'.keys == t.keys && t'.kids[n].at == t.kids[n].at
    && |t'.kids[n].keys| == |t.kids[n].keys| + 1 && TailKept(k, k', |t'.kids[n].keys|)
  }

  class BTree {
    var root: Node
    var count: int
    ghost var t: Tree<Node>
    ghost var h: nat

    ghost predicate Valid()
      reads this, Nodes(t)
    {
      Rep(t) && Tidy(t) && Ok(t, h) && Sorted(Flat(t)) && t.at == root && (h > 0 ==> |t.keys| >= 1)
      && count == |Flat(t)|
    }

    constructor ()
      ensures Valid() && Flat(t) == [] && h == 0 && root.k == Zeros()
      ensures fresh(root) && Nodes(t) == {root}
    {
      var n := new Node();
      root, count, t, h := n, 0, Tree(n, [], []), 0;
    }

    method InsertLeaf(node: Node, x: int, ghost t: Tree<Node>) returns (ghost t': Tree<Node>, ghost i: nat)
      requires Rep(t) && t.at == node && t.kids == [] && |t.keys| < 2 * M - 1 && Sorted(Flat(t))
      modifies this`count, node
      ensures Rep(t') && t'.at == node && t'.kids == [] && |t'.keys| == |t.keys| + 1 && count == old(count) + 1
      ensures InsertedAt(Flat(t), Flat(t'), x, i) && TailKept(old(node.k), node.k, |t'.keys|)
    {
      hide Flat;
      ghost var keys := node.k[..|t.keys|];
      ghost var k0 := node.k;
      var k;
      k, i := InsertKey(node.k, node.keyNum, x);
      node.k := k;
      node.keyNum := node.keyNum + 1;
      count := count + 1;
      t' := Tree(node, t.keys[..i] + [x] + t.keys[i..], []);
      PrefixOf(k0, t.keys, i, |t.keys|);
      PrefixOf(k0, t.keys, 0, i);
      LeafInserted(t, t', x, i);
    }

    /** btree_insert_nonfull: one copy of x is added to the tree below a node that is not full. */
    method InsertNonfull(node: Node, x: int, ghost t: Tree<Node>, ghost h: nat)
        returns (ghost t': Tree<Node>, ghost i: nat)
      requires Rep(t) && Tidy(t) && Ok(t, h) && t.at == node && |t.keys| < 2 * M - 1 && Sorted(Flat(t))
      modifies this`count, Nodes(t)
      ensures Rep(t') && Tidy(t') && Ok(t', h) && t'.at == node && |t'.keys| >= |t.keys| && count == old(count) + 1
      ensures fresh(Nodes(t') - Nodes(t)) && InsertedAt(Flat(t), Flat(t'), x, i)
      ensures h == 0 ==> |t'.keys| == |t.keys| + 1 && TailKept(old(node.k), node.k, |t'.keys|)
      ensures h == 1 && GoesLast(t, x) ==>
                var n := |t.keys|; Grew(t, t', n, old(t.kids[n].at.k), t.kids[n].at.k)
      decreases h
    {
      hide Rep, AllRep, Nodes, Under, Tidy, Ok, Flat, InsertedAt, TailKept, Grew;
      NodesExist(t);
      RepIs(t);
      RootShape(t, h);
      NodesIs(t);
      if node.leaf {
        t', i := InsertLeaf(node, x, t);
        LeafTidy(t', h);
        return;
      }
      ghost var t1;
      var pos;
      t1, pos := RoomFor(node, x, t, h);
      t', i := InsertInto(node, pos, x, t1, h);
      NodesExist(t');
      forall x | x in Nodes(t') && x !in Nodes(t) ensures fresh(x) {
        assert x in Nodes(t1) - Nodes(t) || x in Nodes(t') - Nodes(t1);
      }
    }

    /** The child x belongs in, split first if it is full. */
    method RoomFor(node: Node, x: int, ghost t: Tree<Node>, ghost h: nat) returns (ghost t': Tree<Node>, pos: nat)
      requires Rep(t) && Tidy(t) && Ok(t, h) && h > 0 && t.at == node && |t.keys| < 2 * M - 1 && Sorted(Flat(t))
      modifies Nodes(t)
      ensures Rep(t') && Tidy(t') && Ok(t', h) && t'.at == node && |t'.keys| >= |t.keys| && Flat(t') == Flat(t)
      ensures fresh(Nodes(t') - Nodes(t)) && pos < |t'.kids| && Belongs(t', pos, x) && |t'.kids[pos].keys| < 2 * M - 1
      ensures GoesLast(t, x) ==> t' == t && pos == |t.keys| && t.kids[pos].at.k == old(t.kids[|t.keys|].at.k)
    {
      hide Rep, AllRep, Nodes, Under, Tidy, Ok, Flat, Sorted, Belongs;
      NodesExist(t);
      RepIs(t);
      RootShape(t, h);
      NodesIs(t);
      pos := ChildFor(node.k, node.keyNum, x);
      Enter(t, pos, h - 1);
      RepIs(t.kids[pos]);
      NodesIs(t.kids[pos]);
      BelongsHere(t, pos, x);
      if 0 < |t.keys| { KeyOf(t, |t.keys| - 1); }
      t' := t;
      if node.p[pos].keyNum == 2 * M - 1 {
        t' := SplitChild(node, pos, node.p[pos], t, h - 1);
        SplitDone(t, t', pos, h - 1);
        KeyOf(t', pos);
        if x > node.k[pos] {
          pos := pos + 1;
        }
      }
    }

    /** The recursive step, into a child that is not full. */
    method InsertInto(node: Node, pos: nat, x: int, ghost t: Tree<Node>, ghost h: nat)
        returns (ghost t': Tree<Node>, ghost i: nat)
      requires Rep(t) && Tidy(t) && Ok(t, h) && h > 0 && t.at == node && Sorted(Flat(t))
      requires pos < |t.kids| && Belongs(t, pos, x) && |t.kids[pos].keys| < 2 * M - 1
      modifies this`count, Nodes(t)
      ensures Rep(t') && Tidy(t') && Ok(t', h) && t'.at == node && |t'.keys| == |t.keys| && count == old(count) + 1
      ensures fresh(Nodes(t') - Nodes(t)) && InsertedAt(Flat(t), Flat(t'), x, i)
      ensures h == 1 ==> Grew(t, t', pos, old(t.kids[pos].at.k), t.kids[pos].at.k)
      decreases h, 0
    {
      hide Rep, AllRep, Nodes, Under, Tidy, Ok, Flat, InsertedAt, Belongs, TailKept;
      Enter(t, pos, h - 1);
      KidSorted(t, pos);
      NodesExist(t);
      ghost var kid, j := InsertNonfull(node.p[pos], x, t.kids[pos], h - 1);
      t' := Tree(t.at, t.keys, t.kids[pos := kid]);
      Leave(t, t.keys, pos, kid);
      KidTidy(t, pos, kid, t.keys, Nodes(kid) - Nodes(t.kids[pos]));
      KidOk(t, t.keys, pos, kid, h - 1);
      i := InsertBelow(t, pos, kid, x, j);
    }

    /** btree_insert, insert: whatever the key, the tree holds one more copy of it. */
    method Insert(x: int) returns (ghost i: nat)
      requires Valid()
      modifies this, Nodes(t)
      ensures Valid() && InsertedAt(old(Flat(t)), Flat(t), x, i)
              && multiset(Flat(t)) == multiset(old(Flat(t))) + multiset{x}
      ensures fresh(Nodes(t) - old(Nodes(t)))
      ensures old(h == 0 && |t.keys| < 2 * M - 1) ==> h == 0 && TailKept(old(root.k), root.k, |t.keys|)
      ensures old(h == 0 && |t.keys| == 2 * M - 1) && old(t.keys[M - 1]) <= x ==>
                && h == 1 && t.keys == [old(t.keys[M - 1])] && |t.kids| == 2 && |t.kids[1].keys| == M
                && TailKept(Zeros(), t.kids[1].at.k, M)
    {
      hide Rep, AllRep, Nodes, Under, Tidy, Ok, Flat, InsertedAt, TailKept;
      ghost var t0 := t;
      RepIs(t);
      NodesExist(t);
      if root.keyNum == 2 * M - 1 {
        ghost var t2: Tree<Node>;
        var node;
        NodesIs(t);
        node, t2 := SplitRoot(root, t, h);
        ghost var k := t2.kids[1].at.k;
        t, i := InsertNonfull(node, x, t2, h + 1);
        if h == 0 && t0.keys[M - 1] <= x { TailTwice(Zeros(), k, t.kids[1].at.k, M - 1, M); }
        NodesExist(t);
        forall x | x in Nodes(t) && x !in Nodes(t0) ensures fresh(x) {
          assert x in Nodes(t2) - Nodes(t0) || x in Nodes(t) - Nodes(t2);
        }
        root, h := node, h + 1;
      } else {
        t, i := InsertNonfull(root, x, t, h);
        RootShape(t, h);
      }
      InsertedIs(Flat(t0), Flat(t), x, i);
    }

    /** find agrees with membership in the stored keys. */
    method Find(key: int) returns (found: bool)
      requires Valid()
      ensures found <==> key in Flat(t)
    {
      hide Rep, AllRep, Ok, Flat, Tidy, Nodes;
      var p: Node? := root;
      ghost var u, g := t, h;
      RepIs(u);
      RootShape(u, g);
      while p != null
        invariant p != null ==>
                    && p == u.at && Rep(u) && Ok(u, g) && Local(u) && Sorted(Flat(u))
                    && (key in Flat(t) <==> key in Flat(u)) && (g == 0 <==> u.kids == [])
        invariant p == null ==> key !in Flat(t)
        decreases p != null, g
      {
        NodesExist(u);
        assert forall j :: 0 <= j < |u.keys| ==> u.keys[j] == p.k[j];
        var i := 0;
        if key >= p.k[0] {
          i := FirstAbove(p.k, p.keyNum, key);
          if i > 0 && p.k[i - 1] == key {
            KeyIsIn(u, i - 1);
            return true;
          }
        }
        FoundBelow(u, i, key);
        p := p.p[i];
        if u.kids != [] {
          Child(u, i, g);
          KidSorted(u, i);
          u, g := u.kids[i], g - 1;
          RepIs(u);
          RootShape(u, g);
        }
      }
      found := false;
    }

    method DeleteLeaf(node: Node, x: int, behind: int, ghost t: Tree<Node>)
        returns (hit: bool, ghost t': Tree<Node>, ghost i: nat)
      requires Rep(t) && t.at == node && t.kids == [] && Sorted(Flat(t))
      modifies this`count, node
      ensures Empties(t, old(node.k), x) ==> hit && node.keyNum == -1
      ensures !Empties(t, old(node.k), x) ==>
                && Rep(t') && t'.at == node && t'.kids == [] && |t'.keys| == |t.keys| - (if hit then 1 else 0)
                && DeletedAt(Flat(t), Flat(t'), x, hit, i)
      ensures count == old(count) - (if hit then 1 else 0)
      ensures x !in Flat(t) ==> Decided(Leaf(node, old(node.k), |t.keys|), x, hit, behind)
    {
      hide Flat, StaleHit, DeletedAt, Rep, AllRep, Sorted, Local, Empties, LeafCase;
      LeafParts(t);
      LeafFlat(t);
      NodesIs(t);
      ghost var k0 := node.k;
      var k, n;
      k, n, hit, i := LeafDelete(node.k, node.keyNum, x, behind);
      t', i := LeafAfter(t, x, behind, hit, i, k, n);
      if hit {
        node.k := k;
        node.keyNum := n;
        count := count - 1;
      }
      LeafParts(t');
      LeafKept(t, t', k0, x, behind, hit, k, n, i);
    }

    /** Deleting below child pos, which has a key to spare and is where x belongs. */
    method DeleteIn(node: Node, pos: nat, x: int, behind: int, ghost t: Tree<Node>, ghost h: nat)
        returns (hit: bool, ghost t': Tree<Node>, ghost i: nat)
      requires Rep(t) && Tidy(t) && Ok(t, h) && h > 0 && t.at == node && Sorted(Flat(t))
      requires pos < |t.kids| && |t.kids[pos].keys| >= M && Between(t, pos, x)
      modifies this`count, Nodes(t)
      ensures Rep(t') && Tidy(t') && Ok(t', h) && t'.at == node && |t'.keys| == |t.keys|
      ensures count == old(count) - (if hit then 1 else 0) && Nodes(t') <= Nodes(t)
              && DeletedAt(Flat(t), Flat(t'), x, hit, i)
      ensures x !in Flat(t) ==> Decided(old(Found(Route(t.kids[pos], h - 1, x))), x, hit, behind)
      decreases h, 0
    {
      hide Rep, AllRep, Nodes, Under, Tidy, Ok, Flat, DeletedAt, Between, Decided, Found, Route;
      Enter(t, pos, h - 1);
      KidSorted(t, pos);
      Descend(t, pos, x);
      NodesExist(t);
      ghost var kid: Tree<Node>, j: nat;
      hit, kid, j := DeleteNonone(node.p[pos], x, behind, t.kids[pos], h - 1);
      t' := Tree(t.at, t.keys, t.kids[pos := kid]);
      Leave(t, t.keys, pos, kid);
      KidTidy(t, pos, kid, t.keys, {});
      KidOk(t, t.keys, pos, kid, h - 1);
      i := DeleteBelow(t, pos, kid, x, hit, j);
    }

    /** btree_delete_nonone: one copy of a key that is there goes. If the key is not there nothing changes,
        unless the leaf that was reached has a stale copy of it: then the greatest key below it goes. */
    method DeleteNonone(node: Node, x: int, behind: int, ghost t: Tree<Node>, ghost h: nat)
        returns (hit: bool, ghost t': Tree<Node>, ghost i: nat)
      requires Rep(t) && Tidy(t) && Ok(t, h) && t.at == node && Sorted(Flat(t)) && CanLose(t, h)
      modifies this`count, Nodes(t)
      ensures Empties(t, old(node.k), x) ==> hit && node.keyNum == -1
      ensures !Empties(t, old(node.k), x) ==>
                && Rep(t') && Tidy(t') && Ok(t', h) && t'.at == node
                && |t'.keys| >= |t.keys| - 1 && (h > 0 ==> |t'.keys| >= 1)
                && Nodes(t') <= Nodes(t) && DeletedAt(Flat(t), Flat(t'), x, hit, i)
      ensures count == old(count) - (if hit then 1 else 0)
      ensures x !in Flat(t) ==> Decided(old(Found(Route(t, h, x))), x, hit, behind)
      decreases h, 3
    {
      hide Rep, AllRep, Nodes, Under, Tidy, Ok, Flat, DeletedAt, Decided, Route;
      NodesExist(t);
      RepIs(t);
      RootShape(t, h);
      NodesIs(t);
      if node.leaf {
        RouteLeaf(t, x);
        hit, t', i := DeleteLeaf(node, x, behind, t);
        if !Empties(t, old(node.k), x) { LeafTidy(t', h); }
        return;
      }
      var n := FirstNotBelow(node.k, node.keyNum, x);
      assert forall j :: 0 <= j < |t.keys| ==> t.keys[j] == node.k[j];
      if n < node.keyNum && x == node.k[n] {
        KeyIsIn(t, n);
        hit := true;
        t', i := DeleteHere(node, n, x, behind, t, h);
        FoundDeleted(Flat(t), Flat(t'), x, i);
      } else {
        BelowIs(t.keys, x, n);
        hit, t', i := DeleteDown(node, n, x, behind, t, h);
        assert x !in Flat(t) ==> Decided(old(Found(Route(t, h, x))), x, hit, behind);
      }
    }

    /** Case 3: x is not in the node itself. */
    method DeleteDown(node: Node, n: nat, x: int, behind: int, ghost t: Tree<Node>, ghost h: nat)
        returns (hit: bool, ghost t': Tree<Node>, ghost i: nat)
      requires Rep(t) && Tidy(t) && Ok(t, h) && h > 0 && t.at == node && Sorted(Flat(t)) && CanLose(t, h)
      requires n == Below(t.keys, x) && Between(t, n, x)
      modifies this`count, Nodes(t)
      ensures Rep(t') && Tidy(t') && Ok(t', h) && t'.at == node && |t'.keys| >= |t.keys| - 1 && |t'.keys| >= 1
      ensures Nodes(t') <= Nodes(t) && DeletedAt(Flat(t), Flat(t'), x, hit, i)
              && count == old(count) - (if hit then 1 else 0)
      ensures x !in Flat(t) ==> Decided(old(Found(Route(t, h, x))), x, hit, behind)
      decreases h, 1
    {
      hide Rep, AllRep, Nodes, Under, Tidy, Ok, Flat, DeletedAt, Decided, Route, LastStep, Refit, Entry, Tops, Deep,
           Sorted;
      NodesExist(t);
      WayDown(t, n, h, x);
      TopsIn(t);
      DeepApart(t);
      ghost var t1;
      var pos;
      t1, pos := Refill(node, n, t, h);
      assert Found(Route(t1.kids[pos], h - 1, x)) == old(Found(Route(t, h, x)));
      hit, t', i := DeleteIn(node, pos, x, behind, t1, h);
    }

    /** Cases 3(a) to 3(c): a child with the least number of keys gets another, from a sibling or by a merge. */
    method Refill(node: Node, n: nat, ghost t: Tree<Node>, ghost h: nat) returns (ghost t': Tree<Node>, pos: nat)
      requires Rep(t) && Tidy(t) && Ok(t, h) && h > 0 && t.at == node && n < |t.kids| && CanLose(t, h)
               && Sorted(Flat(t))
      modifies Tops(t)
      ensures Rep(t') && Entered(t, n, t', pos, h, old(Found(LastStep(t, n))))
    {
      hide Rep, AllRep, Nodes, Under, Tidy, Ok, Flat, Entered, Sorted, LastStep, Found;
      NodesExist(t);
      RepIs(t);
      RootShape(t, h);
      Enter(t, n, h - 1);
      RepIs(t.kids[n]);
      if n > 0 { EnterPair(t, n - 1, h - 1); }
      if n < |t.keys| { EnterPair(t, n, h - 1); }
      if node.p[n].keyNum > M - 1 {
        t', pos := t, n;
        LeftAlone(t, n, h);
      } else if n > 0 && node.p[n - 1].keyNum > M - 1 {
        t' := TakeFromLeft(node, n, t, h);
        pos := n;
      } else if n < node.keyNum && node.p[n + 1].keyNum > M - 1 {
        t' := TakeFromRight(node, n, t, h);
        pos := n;
      } else {
        t', pos := Merge(node, n, t, h);
      }
    }

    /** Case 3(a) */
    method TakeFromLeft(node: Node, n: nat, ghost t: Tree<Node>, ghost h: nat) returns (ghost t': Tree<Node>)
      requires Rep(t) && Tidy(t) && Ok(t, h) && h > 0 && t.at == node && Sorted(Flat(t))
      requires 0 < n < |t.kids| && |t.kids[n].keys| == M - 1 && |t.kids[n - 1].keys| > M - 1
      modifies Tops(t)
      ensures Rep(t') && Entered(t, n, t', n, h, old(Found(LastStep(t, n))))
    {
      hide Rep, AllRep, Nodes, Under, Tidy, Ok, Flat, Sorted, Refilled, LendRight, LastStep, Left, Right, Refit, Entry;
      NodesExist(t);
      RootShape(t, h);
      EnterPair(t, n - 1, h - 1);
      LendRightDone(t, n - 1, h - 1);
      TakenLeft(t, n);
      t' := ShiftToRight(node, n - 1, node.p[n - 1], node.p[n], t, h - 1);
    }

    /** Case 3(b) */
    method TakeFromRight(node: Node, n: nat, ghost t: Tree<Node>, ghost h: nat) returns (ghost t': Tree<Node>)
      requires Rep(t) && Tidy(t) && Ok(t, h) && h > 0 && t.at == node && Sorted(Flat(t))
      requires n + 1 < |t.kids| && |t.kids[n].keys| == M - 1 && |t.kids[n + 1].keys| > M - 1
               && (n > 0 ==> |t.kids[n - 1].keys| <= M - 1)
      modifies Tops(t)
      ensures Rep(t') && Entered(t, n, t', n, h, old(Found(LastStep(t, n))))
    {
      hide Rep, AllRep, Nodes, Under, Tidy, Ok, Flat, Sorted, Refilled, LendLeft, LastStep, Left, Right, Refit, Entry;
      NodesExist(t);
      RootShape(t, h);
      EnterPair(t, n, h - 1);
      LendLeftDone(t, n, h - 1);
      TakenRight(t, n);
      t' := ShiftToLeft(node, n, node.p[n], node.p[n + 1], t, h - 1);
    }

    /** Case 3(c) */
    method Merge(node: Node, n: nat, ghost t: Tree<Node>, ghost h: nat) returns (ghost t': Tree<Node>, pos: nat)
      requires Rep(t) && Tidy(t) && Ok(t, h) && h > 0 && t.at == node && Sorted(Flat(t)) && CanLose(t, h)
      requires n < |t.kids| && |t.kids[n].keys| == M - 1 && (n > 0 ==> |t.kids[n - 1].keys| <= M - 1)
               && (n < |t.keys| ==> |t.kids[n + 1].keys| <= M - 1)
      modifies Tops(t)
      ensures Rep(t') && Entered(t, n, t', pos, h, old(Found(LastStep(t, n))))
    {
      hide Rep, AllRep, Nodes, Under, Tidy, Ok, Flat, Sorted, Refilled, Join, LastStep, Refit, Entry;
      NodesExist(t);
      RootShape(t, h);
      pos := if n > 0 then n - 1 else n;
      EnterPair(t, pos, h - 1);
      JoinDone(t, pos, h - 1);
      JoinedOne(t, n);
      t' := MergeChild(node, pos, node.p[pos], node.p[pos + 1], t, h - 1);
    }

    /** Cases 2(a) to 2(c): the key is in the node itself. */
    method DeleteHere(node: Node, n: nat, x: int, behind: int, ghost t: Tree<Node>, ghost h: nat)
        returns (ghost t': Tree<Node>, ghost i: nat)
      requires Rep(t) && Tidy(t) && Ok(t, h) && h > 0 && t.at == node && Sorted(Flat(t)) && n < |t.keys|
               && t.keys[n] == x && CanLose(t, h)
      modifies this`count, Nodes(t)
      ensures Rep(t') && Tidy(t') && Ok(t', h) && t'.at == node && count == old(count) - 1
      ensures |t'.keys| >= |t.keys| - 1 && |t'.keys| >= 1
      ensures Nodes(t') <= Nodes(t) && RemovedAt(Flat(t), Flat(t'), x, i)
      decreases h, 2
    {
      hide Rep, AllRep, Nodes, Under, Tidy, Ok, Flat, RemovedAt;
      NodesExist(t);
      RepIs(t);
      RootShape(t, h);
      EnterPair(t, n, h - 1);
      var y, z := node.p[n], node.p[n + 1];
      if y.keyNum > M - 1 {
        t', i := FromLeft(node, n, x, behind, t, h);
      } else if z.keyNum > M - 1 {
        t', i := FromRight(node, n, x, behind, t, h);
      } else {
        JoinDone(t, n, h - 1);
        ghost var t1 := MergeChild(node, n, y, z, t, h - 1);
        t', i := DeleteMerged(node, n, x, behind, t1, h);
      }
    }

    /** Case 2(a): the greatest key of the child before takes the place of x. */
    method FromLeft(node: Node, n: nat, x: int, behind: int, ghost t: Tree<Node>, ghost h: nat)
        returns (ghost t': Tree<Node>, ghost i: nat)
      requires Rep(t) && Tidy(t) && Ok(t, h) && h > 0 && t.at == node && Sorted(Flat(t)) && n < |t.keys|
               && t.keys[n] == x
      requires n < |t.kids| && |t.kids[n].keys| >= M
      modifies this`count, Nodes(t)
      ensures Rep(t') && Tidy(t') && Ok(t', h) && t'.at == node && |t'.keys| == |t.keys| && count == old(count) - 1
      ensures Nodes(t') <= Nodes(t) && RemovedAt(Flat(t), Flat(t'), x, i)
      decreases h, 0
    {
      hide Rep, AllRep, Nodes, Under, Tidy, Ok, Flat, RemovedAt;
      NodesExist(t);
      RootShape(t, h);
      Enter(t, n, h - 1);
      KidSorted(t, n);
      ghost var c := t.kids[n];
      var y := node.p[n];
      var pre := Predecessor(y, c, h - 1);
      node.k := node.k[n := pre];
      KeyReplaced(t, n, pre, old(node.k));
      ghost var kid: Tree<Node>, j: nat;
      var hit;
      hit, kid, j := DeleteNonone(y, pre, behind, c, h - 1);
      DeletedFound(Flat(c), Flat(kid), pre, hit, j);
      t' := Tree(t.at, t.keys[n := pre], t.kids[n := kid]);
      Leave(t, t.keys[n := pre], n, kid);
      KidTidy(t, n, kid, t.keys[n := pre], {});
      KidOk(t, t.keys[n := pre], n, kid, h - 1);
      i := PredecessorUp(t, n, kid, j);
    }

    /** Case 2(b): the least key of the child after takes the place of x. */
    method FromRight(node: Node, n: nat, x: int, behind: int, ghost t: Tree<Node>, ghost h: nat)
        returns (ghost t': Tree<Node>, ghost i: nat)
      requires Rep(t) && Tidy(t) && Ok(t, h) && h > 0 && t.at == node && Sorted(Flat(t)) && n < |t.keys|
               && t.keys[n] == x
      requires n + 1 < |t.kids| && |t.kids[n + 1].keys| >= M
      modifies this`count, Nodes(t)
      ensures Rep(t') && Tidy(t') && Ok(t', h) && t'.at == node && |t'.keys| == |t.keys| && count == old(count) - 1
      ensures Nodes(t') <= Nodes(t) && RemovedAt(Flat(t), Flat(t'), x, i)
      decreases h, 0
    {
      hide Rep, AllRep, Nodes, Under, Tidy, Ok, Flat, RemovedAt;
      NodesExist(t);
      RootShape(t, h);
      Enter(t, n + 1, h - 1);
      KidSorted(t, n + 1);
      ghost var c := t.kids[n + 1];
      var z := node.p[n + 1];
      var next := Successor(z, c, h - 1);
      node.k := node.k[n := next];
      KeyReplaced(t, n, next, old(node.k));
      ghost var kid: Tree<Node>, j: nat;
      var hit;
      hit, kid, j := DeleteNonone(z, next, behind, c, h - 1);
      DeletedFound(Flat(c), Flat(kid), next, hit, j);
      t' := Tree(t.at, t.keys[n := next], t.kids[n + 1 := kid]);
      Leave(t, t.keys[n := next], n + 1, kid);
      KidTidy(t, n + 1, kid, t.keys[n := next], {});
      KidOk(t, t.keys[n := next], n + 1, kid, h - 1);
      i := SuccessorUp(t, n, kid, j);
    }

    /** Case 2(c): x went down into the merged child and is deleted there. */
    method DeleteMerged(node: Node, n: nat, x: int, behind: int, ghost t: Tree<Node>, ghost h: nat)
        returns (ghost t': Tree<Node>, ghost i: nat)
      requires Rep(t) && Tidy(t) && Ok(t, h) && h > 0 && t.at == node && Sorted(Flat(t))
      requires n < |t.kids| && |t.kids[n].keys| == 2 * M - 1 && x in Flat(t.kids[n])
      modifies this`count, Nodes(t)
      ensures Rep(t') && Tidy(t') && Ok(t', h) && t'.at == node && |t'.keys| == |t.keys| && count == old(count) - 1
      ensures Nodes(t') <= Nodes(t) && RemovedAt(Flat(t), Flat(t'), x, i)
      decreases h, 1
    {
      hide Rep, AllRep, Nodes, Under, Tidy, Ok, Flat, RemovedAt;
      Enter(t, n, h - 1);
      KidSorted(t, n);
      NodesExist(t);
      ghost var kid: Tree<Node>, g: nat, j: nat;
      var r, hit;
      r, hit, kid, g, j := DeleteTop(node.p[n], x, behind, t.kids[n], h - 1);
      DeletedFound(Flat(t.kids[n]), Flat(kid), x, hit, j);
      t' := Tree(t.at, t.keys, t.kids[n := kid]);
      Leave(t, t.keys, n, kid);
      KidTidy(t, n, kid, t.keys, {});
      KidOk(t, t.keys, n, kid, h - 1);
      i := RemoveBelow(t, n, kid, x, j);
    }

    /** The root's only key and its two children become one node. */
    method MergeRoot(node: Node, y: Node, z: Node, x: int, ghost t: Tree<Node>, ghost h: nat)
        returns (ghost c: Tree<Node>)
      requires h > 0 && Poor(t) && t.at == node && y == t.kids[0].at && z == t.kids[1].at
      requires Ok(t, h) && Rep(t) && Tidy(t) && Sorted(Flat(t))
      modifies node, y
      ensures |c.keys| == 2 * M - 1 && c.at == y && Ok(c, h - 1)
      ensures Found(Route(c, h - 1, x)) == old(Found(Reached(t, h, x)))
      ensures Rep(c) && Tidy(c) && Nodes(c) <= Nodes(t) && Flat(c) == Flat(t)
    {
      hide Rep, AllRep, Nodes, Under, Tidy, Ok, Flat, Route, Reached;
      ReachedIs(t, h, x);
      NodesExist(t);
      JoinDone(t, 0, h - 1);
      ghost var t1 := MergeChild(node, 0, y, z, t, h - 1);
      c := t1.kids[0];
      OnlyChild(t1, h);
      RouteIn(c, h - 1, x);
      TidyIs(c);
      NodesIs(c);
      if h == 1 { RouteLeaf(c, x); }
    }

    /** btree_delete: a root with one key between two minimal children is merged away first. */
    method DeleteTop(node: Node, x: int, behind: int, ghost t: Tree<Node>, ghost h: nat)
        returns (r: Node, hit: bool, ghost t': Tree<Node>, ghost h': nat, ghost i: nat)
      requires Rep(t) && Tidy(t) && Ok(t, h) && t.at == node && Sorted(Flat(t)) && (h > 0 ==> |t.keys| >= 1)
      modifies this`count, Nodes(t)
      ensures Empties(t, old(node.k), x) ==> hit && r == node && node.keyNum == -1
      ensures !Empties(t, old(node.k), x) ==>
                && Rep(t') && Tidy(t') && Ok(t', h') && t'.at == r && (h' > 0 ==> |t'.keys| >= 1)
                && (|t.keys| != 1 ==> r == node && h' == h && |t'.keys| >= |t.keys| - 1)
                && Nodes(t') <= Nodes(t) && DeletedAt(Flat(t), Flat(t'), x, hit, i)
      ensures count == old(count) - (if hit then 1 else 0)
      ensures x !in Flat(t) ==> Decided(old(Found(Reached(t, h, x))), x, hit, behind)
      decreases h, 4
    {
      hide Rep, AllRep, Nodes, Under, Tidy, Ok, Flat, DeletedAt, Decided, Route, Reached;
      ReachedIs(t, h, x);
      NodesExist(t);
      RepIs(t);
      RootShape(t, h);
      if node.keyNum == 1 {
        var y, z := node.p[0], node.p[1];
        if t.kids != [] { EnterPair(t, 0, h - 1); }
        if y != null && z != null && y.keyNum == M - 1 && z.keyNum == M - 1 {
          ghost var c := MergeRoot(node, y, z, x, t, h);
          hit, t', i := DeleteNonone(y, x, behind, c, h - 1);
          return y, hit, t', h - 1, i;
        }
      }
      hit, t', i := DeleteNonone(node, x, behind, t, h);
      r, h' := node, h;
    }

    /** del. A stored key: one copy of it goes. Any other key: nothing changes, unless the leaf where the search
        ends has a stale copy of it; then the greatest key below it is lost, or, if the tree is empty, the number
        of keys becomes -1. `behind` is what the program finds behind the slots of a full leaf. */
    method Delete(x: int, behind: int) returns (hit: bool, ghost i: nat)
      requires Valid()
      modifies this, Nodes(t)
      ensures old(Empties(t, root.k, x)) ==> hit && root.keyNum == -1 && count == -1
      ensures old(!Empties(t, root.k, x)) ==>
                Valid() && DeletedAt(old(Flat(t)), Flat(t), x, hit, i) && Nodes(t) <= old(Nodes(t))
      ensures x in old(Flat(t)) ==>
                hit && RemovedAt(old(Flat(t)), Flat(t), x, i)
                && multiset(Flat(t)) == multiset(old(Flat(t))) - multiset{x}
      ensures old(Reached(t, h, x).at in Nodes(t))
      ensures x !in old(Flat(t)) ==> Decided(old(Found(Reached(t, h, x))), x, hit, behind)
    {
      hide Rep, AllRep, Nodes, Under, Tidy, Ok, Flat, DeletedAt, RemovedAt, Decided, Empties, Sorted, Found, Reached;
      ghost var t0, k0 := t, root.k;
      NodesExist(t);
      NodesIs(t);
      EmptiesIs(t, k0, x);
      ReachedIn(t, h, x);
      ghost var l := Found(Reached(t, h, x));
      var r;
      r, hit, t, h, i := DeleteTop(root, x, behind, t, h);
      assert x !in Flat(t0) ==> Decided(l, x, hit, behind);
      root := r;
      if !Empties(t0, k0, x) { DeletedDone(Flat(t0), Flat(t), x, hit, i); }
    }
  }

  // ----- keys that were never stored

  /** A new tree accepts the key 0, and then has -1 keys. */
  method DeletesFromNothing(behind: int) returns (b: BTree)
    ensures b.root.keyNum == -1 && b.count == -1
  {
    b := new BTree();
    ghost var i;
    var hit;
    assert Empties(b.t, b.root.k, 0) by { EmptyRoot(b.t); }
    hit, i := b.Delete(0, behind);
  }

  lemma EmptyRoot(t: Tree<Node>)
    requires Ok(t, 0) && Flat(t) == []
    ensures t.kids == [] && t.keys == []
  {
    LeafFlat(t);
  }

  lemma LeafRoot(t: Tree<Node>)
    requires Ok(t, 0) && Rep(t)
    ensures t.kids == [] && Flat(t) == t.keys && t.at.k[..|t.keys|] == t.keys && |t.keys| <= |t.at.k| == 2 * M - 1
  {
    LeafFlat(t);
    LeafParts(t);
  }

  lemma StaleAtTop(t: Tree<Node>, behind: int)
    requires Ok(t, 0) && Rep(t) && Flat(t) == [-5] && TailKept(Zeros(), t.at.k, 1)
    ensures Stale(Found(Reached(t, 0, 0)), 0, behind)
  {
    hide Ok, Rep, Flat;
    LeafRoot(t);
    ReachedIs(t, 0, 0);
    assert t.at.k[0] == t.at.k[..1][0];
    assert t.at.k[1] == t.at.k[1..][0] == Zeros()[1..][0];
  }

  /** Into a new tree goes the key -5. Deleting 0, which is not stored, takes it out again. */
  method DeletesAnother(behind: int) returns (b: BTree, hit: bool)
    ensures b.Valid() && hit && Flat(b.t) == []
  {
    hide Rep, Tidy, Ok, Flat, Nodes, TailKept, Found, Reached, Stale;
    b := new BTree();
    LeafRoot(b.t);
    ghost var i := b.Insert(-5);
    LeafRoot(b.t);
    assert Flat(b.t) == [-5];
    StaleAtTop(b.t, behind);
    hit, i := b.Delete(0, behind);
  }
  lemma OneMore(a: seq<int>, n: nat, s: seq<int>, i: nat)
    requires n < |a| && (forall j :: 0 <= j < n ==> a[j] < a[n]) && InsertedAt(a[..n], s, a[n], i)
    ensures s == a[..n + 1]
  {
    var b := a[..n];
    assert forall j :: 0 <= j < n ==> b[j] == a[j];
  }

  /** A new tree with the keys -5, -4, -3 in its root, all slots in use. */
  method ThreeKeys() returns (b: BTree)
    ensures fresh(b) && b.Valid() && fresh(Nodes(b.t)) && Flat(b.t) == [-5, -4, -3] && b.h == 0 && b.t.keys == Flat(b.t)
  {
    hide Rep, Tidy, Ok, Flat, Nodes, TailKept, InsertedAt, Sorted;
    b := new BTree();
    LeafRoot(b.t);
    for n := 0 to 3
      invariant b.Valid() && fresh(Nodes(b.t)) && b.h == 0 && b.t.keys == Flat(b.t) == [-5, -4, -3][..n]
    {
      ghost var had := Nodes(b.t);
      ghost var i := b.Insert(n - 5);
      OneMore([-5, -4, -3], n, Flat(b.t), i);
      NodesExist(b.t);
      forall x | x in Nodes(b.t) ensures fresh(x) { assert x in had || x in Nodes(b.t) - had; }
      LeafRoot(b.t);
    }
  }

  /** The second leaf below a root with one key has a stale 0 behind its keys. */
  lemma StaleBelow(t: Tree<Node>, behind: int)
    requires Ok(t, 1) && Rep(t) && t.keys == [-4] && |t.kids| == 2 && |t.kids[1].keys| == M
    requires TailKept(Zeros(), t.kids[1].at.k, M) && forall y :: y in Flat(t) ==> y < 0
    ensures Stale(Found(Reached(t, 1, 0)), 0, behind)
  {
    hide Ok, Rep, Flat;
    var c := t.kids[1];
    Child(t, 1, 1);
    LeafRoot(c);
    FlatAround(t, 1);
    ReachedIs(t, 1, 0);
    assert Below(t.keys, 0) == 1;
    Kept(t, 1);
    assert Reached(t, 1, 0) == AsIs(c.at, M);
    assert c.at.k[M] == c.at.k[M..][0] == Zeros()[M..][0];
    forall j | 0 <= j < M ensures c.at.k[j] < 0 {
      assert c.at.k[j] == c.at.k[..M][j] == Flats(t.kids)[1][j];
      assert Flats(t.kids)[1][j] in Flat(t);
    }
  }

  lemma LastGoes(s: seq<int>, i: nat)
    requires DeletedAt([-5, -4, -3, -2], s, 0, true, i)
    ensures s == [-5, -4, -3]
  {
    var a := [-5, -4, -3, -2];
    assert a[3] in a && i == 3;
  }

  /** Of the keys -5, -4, -3, -2 in a root and two leaves the deletion of 0, which is not stored, takes -2. */
  method DeletesBelow(behind: int) returns (b: BTree, hit: bool, ghost before: seq<int>, ghost height: nat)
    ensures before == [-5, -4, -3, -2] && height == 1 && b.Valid() && hit && Flat(b.t) == [-5, -4, -3]
  {
    hide Rep, Tidy, Ok, Flat, Nodes, TailKept, Found, Reached, Stale, DeletedAt;
    b := ThreeKeys();
    ghost var i := b.Insert(-2);
    before, height := Flat(b.t), b.h;
    assert before == [-5, -4, -3, -2];
    StaleBelow(b.t, behind);
    hit, i := b.Delete(0, behind);
    LastGoes(Flat(b.t), i);
  }
}

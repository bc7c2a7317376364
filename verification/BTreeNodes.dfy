/** Which nodes a tree is stored in, and that no node is used twice. */
module BTreeNodes {
  import opened BTreeModel

  ghost function Nodes<T>(t: Tree<T>): set<T> {
    {t.at} + set i, x | 0 <= i < |t.kids| && x in Nodes(t.kids[i]) :: x
  }

  ghost function Under<T>(kids: seq<Tree<T>>): set<T> {
    set i, x | 0 <= i < |kids| && x in Nodes(kids[i]) :: x
  }

  lemma NodesIs<T>(t: Tree<T>)
    ensures Nodes(t) == {t.at} + Under(t.kids)
  {
  }

  lemma KidIn<T>(kids: seq<Tree<T>>, i: nat)
    requires i < |kids|
    ensures Nodes(kids[i]) <= Under(kids)
  {
  }

  lemma UnderSum<T>(a: seq<Tree<T>>, b: seq<Tree<T>>)
    ensures Under(a + b) == Under(a) + Under(b)
  {
    hide Nodes;
    forall x | x in Under(a) ensures x in Under(a + b) {
      var i :| 0 <= i < |a| && x in Nodes(a[i]);
      assert (a + b)[i] == a[i];
    }
    forall x | x in Under(b) ensures x in Under(a + b) {
      var i :| 0 <= i < |b| && x in Nodes(b[i]);
      assert (a + b)[|a| + i] == b[i];
    }
  }

  lemma UnderOne<T>(t: Tree<T>)
    ensures Under([t]) == Nodes(t)
  {
    hide Nodes;
    assert [t][0] == t;
  }

  ghost predicate AllApart<T>(kids: seq<Tree<T>>) {
    forall i, j :: 0 <= i < j < |kids| ==> Nodes(kids[i]) !! Nodes(kids[j])
  }

  ghost predicate Tidy<T>(t: Tree<T>) {
    t.at !in Under(t.kids) && AllApart(t.kids) && forall i :: 0 <= i < |t.kids| ==> Tidy(t.kids[i])
  }

  ghost predicate AllTidy<T>(kids: seq<Tree<T>>) {
    AllApart(kids) && forall i :: 0 <= i < |kids| ==> Tidy(kids[i])
  }

  lemma TidySum<T>(a: seq<Tree<T>>, b: seq<Tree<T>>)
    ensures AllTidy(a + b) <==> AllTidy(a) && AllTidy(b) && Under(a) !! Under(b)
  {
    hide Nodes, Tidy;
    var c := a + b;
    if AllTidy(c) {
      forall i | 0 <= i < |a| ensures Tidy(a[i]) { assert c[i] == a[i]; }
      forall i | 0 <= i < |b| ensures Tidy(b[i]) { assert c[|a| + i] == b[i]; }
      forall i, j | 0 <= i < j < |a| ensures Nodes(a[i]) !! Nodes(a[j]) { assert c[i] == a[i] && c[j] == a[j]; }
      forall i, j | 0 <= i < j < |b| ensures Nodes(b[i]) !! Nodes(b[j])
      { assert c[|a| + i] == b[i] && c[|a| + j] == b[j]; }
      forall i, j | 0 <= i < |a| && 0 <= j < |b| ensures Nodes(a[i]) !! Nodes(b[j])
      { assert c[i] == a[i] && c[|a| + j] == b[j]; }
    }
    if AllTidy(a) && AllTidy(b) && Under(a) !! Under(b) {
      forall i, j | 0 <= i < j < |c| ensures Nodes(c[i]) !! Nodes(c[j]) {
        if i < |a| { KidIn(a, i); } else { KidIn(b, i - |a|); }
        if j < |a| { KidIn(a, j); } else { KidIn(b, j - |a|); }
      }
    }
  }

  lemma TidyOne<T>(t: Tree<T>)
    ensures AllTidy([t]) <==> Tidy(t)
  {
    hide Nodes, Tidy;
    assert [t][0] == t;
  }

  lemma TidyIs<T>(t: Tree<T>)
    ensures Tidy(t) <==> t.at !in Under(t.kids) && AllTidy(t.kids)
  {
  }

  /** kids with the ones in [i, j) set apart. */
  lemma Cut3<T>(kids: seq<Tree<T>>, i: nat, j: nat)
    requires i <= j <= |kids|
    ensures kids == kids[..i] + kids[i..j] + kids[j..]
    ensures Under(kids) == Under(kids[..i]) + Under(kids[i..j]) + Under(kids[j..])
    ensures AllTidy(kids) <==>
              && AllTidy(kids[..i]) && AllTidy(kids[i..j]) && AllTidy(kids[j..])
              && Under(kids[..i]) !! Under(kids[i..j]) && (Under(kids[..i]) + Under(kids[i..j])) !! Under(kids[j..])
  {
    hide Under, AllTidy;
    assert kids == kids[..i] + kids[i..j] + kids[j..];
    UnderSum(kids[..i] + kids[i..j], kids[j..]);
    UnderSum(kids[..i], kids[i..j]);
    TidySum(kids[..i] + kids[i..j], kids[j..]);
    TidySum(kids[..i], kids[i..j]);
  }

  /** The subtrees in [i, j) exchanged for others in the same nodes and perhaps some new ones. */
  lemma Exchange<T>(t: Tree<T>, i: nat, j: nat, mid: seq<Tree<T>>, keys: seq<int>, extra: set<T>)
    requires Tidy(t) && i <= j <= |t.kids| && AllTidy(mid) && Under(mid) <= Under(t.kids[i..j]) + extra
             && extra !! Nodes(t)
    ensures var t' := Tree(t.at, keys, t.kids[..i] + mid + t.kids[j..]);
            && Tidy(t') && Nodes(t') <= Nodes(t) + extra
            && (Under(mid) == Under(t.kids[i..j]) + extra ==> Nodes(t') == Nodes(t) + extra)
  {
    hide Under, AllTidy, Nodes, Tidy;
    var kids' := t.kids[..i] + mid + t.kids[j..];
    TidyIs(t);
    NodesIs(t);
    Cut3(t.kids, i, j);
    UnderSum(t.kids[..i] + mid, t.kids[j..]);
    UnderSum(t.kids[..i], mid);
    TidySum(t.kids[..i] + mid, t.kids[j..]);
    TidySum(t.kids[..i], mid);
    TidyIs(Tree(t.at, keys, kids'));
    NodesIs(Tree(t.at, keys, kids'));
  }

  lemma Two<T>(y: Tree<T>, z: Tree<T>)
    ensures Under([y, z]) == Nodes(y) + Nodes(z)
    ensures AllTidy([y, z]) <==> Tidy(y) && Tidy(z) && Nodes(y) !! Nodes(z)
  {
    hide Under, AllTidy, Nodes, Tidy;
    assert [y, z] == [y] + [z];
    UnderSum([y], [z]);
    TidySum([y], [z]);
    UnderOne(y);
    UnderOne(z);
    TidyOne(y);
    TidyOne(z);
  }

  /** A node's children dealt out to two nodes, or those of two gathered in one. */
  lemma Dealt<T>(c: Tree<T>, l: Tree<T>, r: Tree<T>)
    requires c.kids == l.kids + r.kids && c.at == l.at && Tidy(c) && r.at !in Nodes(c)
    ensures Tidy(l) && Tidy(r) && Nodes(l) !! Nodes(r) && Nodes(l) + Nodes(r) == Nodes(c) + {r.at}
  {
    hide Under, AllTidy, Nodes, Tidy;
    TidyIs(c); TidyIs(l); TidyIs(r);
    NodesIs(c); NodesIs(l); NodesIs(r);
    UnderSum(l.kids, r.kids);
    TidySum(l.kids, r.kids);
  }

  lemma Gathered<T>(c: Tree<T>, l: Tree<T>, r: Tree<T>)
    requires c.kids == l.kids + r.kids && c.at == l.at && Tidy(l) && Tidy(r) && Nodes(l) !! Nodes(r)
    ensures Tidy(c) && Nodes(c) == Nodes(l) + Nodes(r) - {r.at}
  {
    hide Under, AllTidy, Nodes, Tidy;
    TidyIs(c); TidyIs(l); TidyIs(r);
    NodesIs(c); NodesIs(l); NodesIs(r);
    UnderSum(l.kids, r.kids);
    TidySum(l.kids, r.kids);
  }

  /** Some children moved from one of two nodes to the other. */
  lemma Traded<T>(y: Tree<T>, z: Tree<T>, y': Tree<T>, z': Tree<T>)
    requires y'.at == y.at && z'.at == z.at && y'.kids + z'.kids == y.kids + z.kids
    requires Tidy(y) && Tidy(z) && Nodes(y) !! Nodes(z)
    ensures Tidy(y') && Tidy(z') && Nodes(y') !! Nodes(z') && Nodes(y') + Nodes(z') == Nodes(y) + Nodes(z)
  {
    hide Under, AllTidy, Nodes, Tidy;
    var c := Tree(y.at, [], y.kids + z.kids);
    Gathered(c, y, z);
    NodesIs(y);
    NodesIs(z);
    Dealt(c, y', z');
  }

  // ----- the operations

  lemma RootShape<T>(t: Tree<T>, h: nat)
    requires Ok(t, h)
    ensures |t.keys| <= 2 * M - 1 && (h == 0 <==> t.kids == []) && (h > 0 ==> |t.kids| == |t.keys| + 1)
  {
  }

  lemma ShapeFor<T>(t: Tree<T>, pos: nat, h: nat)
    requires Ok(t, h + 1) && pos < |t.kids|
    ensures |t.kids| == |t.keys| + 1 && Ok(t.kids[pos], h) && M - 1 <= |t.kids[pos].keys|
    ensures t.kids[pos].kids == [] <==> h == 0
    ensures h > 0 ==> |t.kids[pos].kids| == |t.kids[pos].keys| + 1
  {
  }

  lemma OneOf<T>(kids: seq<Tree<T>>, pos: nat)
    requires pos < |kids| && AllTidy(kids)
    ensures Tidy(kids[pos]) && Under(kids[pos..pos + 1]) == Nodes(kids[pos]) && kids[pos..pos + 1] == [kids[pos]]
  {
    hide Under, Nodes, Tidy;
    assert kids[pos..pos + 1] == [kids[pos]];
    UnderOne(kids[pos]);
  }

  lemma TwoOf<T>(kids: seq<Tree<T>>, pos: nat)
    requires pos + 1 < |kids| && AllTidy(kids)
    ensures Tidy(kids[pos]) && Tidy(kids[pos + 1]) && Nodes(kids[pos]) !! Nodes(kids[pos + 1])
    ensures Under(kids[pos..pos + 2]) == Nodes(kids[pos]) + Nodes(kids[pos + 1])
  {
    hide Under, Nodes, Tidy;
    assert kids[pos..pos + 2] == [kids[pos], kids[pos + 1]];
    Two(kids[pos], kids[pos + 1]);
  }

  lemma SplitTidy<T>(t: Tree<T>, pos: nat, n: T, h: nat)
    requires Tidy(t) && Ok(t, h + 1) && pos < |t.kids| && |t.kids[pos].keys| == 2 * M - 1 && n !in Nodes(t)
    ensures Tidy(Split(t, pos, n)) && Nodes(Split(t, pos, n)) == Nodes(t) + {n}
  {
    hide Under, AllTidy, Nodes, Tidy, Ok;
    ShapeFor(t, pos, h);
    TidyIs(t);
    NodesIs(t);
    OneOf(t.kids, pos);
    KidIn(t.kids, pos);
    var c, t' := t.kids[pos], Split(t, pos, n);
    var l, r := Tree(c.at, c.keys[..M - 1], Left(c.kids, M)), Tree(n, c.keys[M..], Right(c.kids, M));
    Dealt(c, l, r);
    Two(l, r);
    Exchange(t, pos, pos + 1, [l, r], t'.keys, {n});
  }

  lemma JoinTidy<T>(t: Tree<T>, pos: nat, h: nat)
    requires Tidy(t) && Ok(t, h + 1) && pos + 1 < |t.kids|
    ensures Tidy(Join(t, pos)) && Nodes(Join(t, pos)) <= Nodes(t)
  {
    hide Under, AllTidy, Nodes, Tidy, Ok;
    ShapeFor(t, pos, h);
    TidyIs(t);
    TwoOf(t.kids, pos);
    var y, z, t' := t.kids[pos], t.kids[pos + 1], Join(t, pos);
    var c := Tree(y.at, y.keys + [t.keys[pos]] + z.keys, y.kids + z.kids);
    Gathered(c, y, z);
    UnderOne(c);
    TidyOne(c);
    Exchange(t, pos, pos + 2, [c], t'.keys, {});
  }

  /** Two neighbours exchanged for two others in the same nodes. */
  lemma TradeTidy<T>(t: Tree<T>, pos: nat, y: Tree<T>, z: Tree<T>, keys: seq<int>)
    requires Tidy(t) && pos + 1 < |t.kids|
    requires y.at == t.kids[pos].at && z.at == t.kids[pos + 1].at
             && y.kids + z.kids == t.kids[pos].kids + t.kids[pos + 1].kids
    ensures var t' := Tree(t.at, keys, t.kids[pos := y][pos + 1 := z]); Tidy(t') && Nodes(t') == Nodes(t)
  {
    hide Under, AllTidy, Nodes, Tidy;
    TidyIs(t);
    TwoOf(t.kids, pos);
    Traded(t.kids[pos], t.kids[pos + 1], y, z);
    Two(y, z);
    Exchange(t, pos, pos + 2, [y, z], keys, {});
    assert t.kids[pos := y][pos + 1 := z] == t.kids[..pos] + [y, z] + t.kids[pos + 2..];
  }

  lemma LendTidy<T>(t: Tree<T>, pos: nat, h: nat)
    requires Tidy(t) && Ok(t, h + 1) && pos + 1 < |t.kids|
    ensures |t.kids[pos].keys| >= 1 ==> Tidy(LendRight(t, pos)) && Nodes(LendRight(t, pos)) == Nodes(t)
    ensures |t.kids[pos + 1].keys| >= 1 ==> Tidy(LendLeft(t, pos)) && Nodes(LendLeft(t, pos)) == Nodes(t)
  {
    hide Nodes, Tidy, Ok;
    ShapeFor(t, pos, h);
    ShapeFor(t, pos + 1, h);
    var y, z := t.kids[pos], t.kids[pos + 1];
    if |y.keys| >= 1 {
      var t' := LendRight(t, pos);
      assert Left(y.kids, |y.keys|) + (Right(y.kids, |y.keys|) + z.kids) == y.kids + z.kids;
      TradeTidy(t, pos, t'.kids[pos], t'.kids[pos + 1], t'.keys);
    }
    if |z.keys| >= 1 {
      var t' := LendLeft(t, pos);
      assert y.kids + Left(z.kids, 1) + Right(z.kids, 1) == y.kids + z.kids;
      TradeTidy(t, pos, t'.kids[pos], t'.kids[pos + 1], t'.keys);
    }
  }

  /** A child rebuilt in its own nodes and new ones. */
  lemma KidTidy<T>(t: Tree<T>, pos: nat, kid: Tree<T>, keys: seq<int>, extra: set<T>)
    requires Tidy(t) && pos < |t.kids| && Tidy(kid) && Nodes(kid) <= Nodes(t.kids[pos]) + extra && extra !! Nodes(t)
    ensures var t' := Tree(t.at, keys, t.kids[pos := kid]); Tidy(t') && Nodes(t') <= Nodes(t) + extra
  {
    hide Under, AllTidy, Nodes, Tidy;
    TidyIs(t);
    OneOf(t.kids, pos);
    UnderOne(kid);
    TidyOne(kid);
    Exchange(t, pos, pos + 1, [kid], keys, extra);
    assert t.kids[pos := kid] == t.kids[..pos] + [kid] + t.kids[pos + 1..];
  }
}

/** The way down of a deletion: which leaf it ends in, and how that leaf is changed on the way. */
module BTreeRoute {
  import opened BTreeModel
  import opened BTreeNodes

  /** How many keys in a row, from the first on, are below x. */
  function Below(keys: seq<int>, x: int): (n: nat)
    ensures n <= |keys| && (forall j :: 0 <= j < n ==> keys[j] < x) && (n < |keys| ==> x <= keys[n])
  {
    if keys == [] || x <= keys[0] then 0 else 1 + Below(keys[1..], x)
  }

  lemma BelowIs(keys: seq<int>, x: int, n: nat)
    requires n <= |keys| && (forall j :: 0 <= j < n ==> keys[j] < x) && (n < |keys| ==> x <= keys[n])
    ensures n == Below(keys, x)
  {
    var m := Below(keys, x);
    assert keys[..n] == keys[..Below(keys, x)];
  }

  /** What is done before the descent into child n: nothing, if it has a key to spare; else it gets a
      key from the child before or after it, or is joined with one of them. */
  datatype Turn = Keep | TakeLeft | TakeRight | JoinLeft | JoinRight

  function TurnFor<T>(t: Tree<T>, n: nat): Turn
    requires n < |t.kids| == |t.keys| + 1
  {
    if |t.kids[n].keys| > M - 1 then Keep
    else if n > 0 && |t.kids[n - 1].keys| > M - 1 then TakeLeft
    else if n < |t.keys| && |t.kids[n + 1].keys| > M - 1 then TakeRight
    else if n > 0 then JoinLeft
    else JoinRight
  }

  /** The tree after that, */
  function Refit<T>(t: Tree<T>, n: nat): Tree<T>
    requires n < |t.kids| == |t.keys| + 1 && |t.keys| >= 1 && |t.kids[n].keys| >= M - 1
  {
    match TurnFor(t, n)
    case Keep => t
    case TakeLeft => LendRight(t, n - 1)
    case TakeRight => LendLeft(t, n)
    case JoinLeft => Join(t, n - 1)
    case JoinRight => Join(t, n)
  }

  /** and the child that is entered. */
  function Entry<T>(t: Tree<T>, n: nat): nat
    requires n < |t.kids| == |t.keys| + 1
  {
    if TurnFor(t, n) == JoinLeft then n - 1 else n
  }

  /** A leaf with n keys as the deletion finds it: as it is, with a key put before or behind its own,
      or joined with its neighbour. */
  datatype Stop<T> = AsIs(at: T, n: nat) | Front(at: T, n: nat, key: int) | Back(at: T, n: nat, key: int)
                   | Joined(at: T, keys: seq<int>)

  /** The last step down, to a child that is a leaf. */
  function LastStep<T>(t: Tree<T>, n: nat): Stop<T>
    requires n < |t.kids| == |t.keys| + 1 && |t.keys| >= 1 && |t.kids[n].keys| >= M - 1
  {
    var c := Refit(t, n).kids[Entry(t, n)];
    match TurnFor(t, n)
    case Keep => AsIs(c.at, |c.keys|)
    case TakeLeft => Front(c.at, |c.keys| - 1, t.keys[n - 1])
    case TakeRight => Back(c.at, |c.keys| - 1, t.keys[n])
    case JoinLeft => Joined(c.at, c.keys)
    case JoinRight => Joined(c.at, c.keys)
  }

  lemma Kept<T>(t: Tree<T>, n: nat)
    requires n < |t.kids| == |t.keys| + 1 && |t.keys| >= 1 && |t.kids[n].keys| > M - 1
    ensures Refit(t, n) == t && Entry(t, n) == n && LastStep(t, n) == AsIs(t.kids[n].at, |t.kids[n].keys|)
  {
  }

  lemma TakenLeft<T>(t: Tree<T>, n: nat)
    requires 0 < n < |t.kids| == |t.keys| + 1 && |t.kids[n].keys| == M - 1 && |t.kids[n - 1].keys| > M - 1
    ensures Refit(t, n) == LendRight(t, n - 1) && Entry(t, n) == n
    ensures LastStep(t, n) == Front(t.kids[n].at, M - 1, t.keys[n - 1])
    ensures var t' := LendRight(t, n - 1);
            n < |t'.kids| && t'.kids[n].at == t.kids[n].at && |t'.kids[n].keys| == M
  {
  }

  lemma TakenRight<T>(t: Tree<T>, n: nat)
    requires n + 1 < |t.kids| == |t.keys| + 1 && |t.kids[n].keys| == M - 1 && |t.kids[n + 1].keys| > M - 1
    requires n > 0 ==> |t.kids[n - 1].keys| <= M - 1
    ensures Refit(t, n) == LendLeft(t, n) && Entry(t, n) == n
    ensures LastStep(t, n) == Back(t.kids[n].at, M - 1, t.keys[n])
    ensures n < |LendLeft(t, n).kids| && LendLeft(t, n).kids[n].at == t.kids[n].at && |LendLeft(t, n).kids[n].keys| == M
  {
  }

  lemma JoinedOne<T>(t: Tree<T>, n: nat)
    requires n < |t.kids| == |t.keys| + 1 && |t.keys| >= 1 && |t.kids[n].keys| == M - 1
    requires n > 0 ==> |t.kids[n - 1].keys| <= M - 1
    requires n < |t.keys| ==> |t.kids[n + 1].keys| <= M - 1
    ensures var m := if n > 0 then n - 1 else n;
            && Refit(t, n) == Join(t, m) && Entry(t, n) == m < |Join(t, m).kids|
            && LastStep(t, n) == Joined(t.kids[m].at, Join(t, m).kids[m].keys) && Join(t, m).kids[m].at == t.kids[m].at
  {
  }

  lemma RefitOk<T>(t: Tree<T>, n: nat, h: nat)
    requires Ok(t, h + 1) && n < |t.kids| && |t.keys| >= 1
    ensures |t.kids| == |t.keys| + 1 && |t.kids[n].keys| >= M - 1
    ensures Ok(Refit(t, n), h + 1) && Entry(t, n) < |Refit(t, n).kids|
    ensures var c := Refit(t, n).kids[Entry(t, n)]; Ok(c, h) && |c.keys| >= M
  {
    hide Ok, Join, LendLeft, LendRight, Refit, Entry, LastStep;
    ShapeFor(t, n, h);
    if n > 0 { ShapeFor(t, n - 1, h); }
    if n < |t.keys| { ShapeFor(t, n + 1, h); }
    match TurnFor(t, n) {
      case Keep => Kept(t, n);
      case TakeLeft => LendOk(t, n - 1, h); TakenLeft(t, n);
      case TakeRight => LendOk(t, n, h); TakenRight(t, n);
      case JoinLeft => JoinOk(t, n - 1, h); JoinedOne(t, n);
      case JoinRight => JoinOk(t, n, h); JoinedOne(t, n);
    }
    ShapeFor(Refit(t, n), Entry(t, n), h);
  }

  /** Below a node that can lose a key. */
  function Route<T>(t: Tree<T>, h: nat, x: int): Stop<T>
    requires Ok(t, h) && (h > 0 ==> |t.keys| >= 1)
    decreases h
  {
    if h == 0 then AsIs(t.at, |t.keys|)
    else
      var n := Below(t.keys, x);
      RefitOk(t, n, h - 1);
      if h == 1 then LastStep(t, n) else Route(Refit(t, n).kids[Entry(t, n)], h - 1, x)
  }

  /** The root has one key between two children that cannot lose any. */
  predicate Poor<T>(t: Tree<T>) {
    |t.keys| == 1 && |t.kids| == 2 && |t.kids[0].keys| == M - 1 && |t.kids[1].keys| == M - 1
  }

  lemma PoorOk<T>(t: Tree<T>, h: nat)
    requires Ok(t, h) && Poor(t)
    ensures h > 0 && Ok(Join(t, 0).kids[0], h - 1) && |Join(t, 0).kids[0].keys| == 2 * M - 1
  {
    hide Ok;
    assert h > 0 by { RootShape(t, h); }
    JoinOk(t, 0, h - 1);
    ShapeFor(Join(t, 0), 0, h - 1);
  }

  /** From the root. */
  function Reached<T>(t: Tree<T>, h: nat, x: int): Stop<T>
    requires Ok(t, h) && (h > 0 ==> |t.keys| >= 1)
  {
    if Poor(t) then
      var c := Join(t, 0).kids[0];
      PoorOk(t, h);
      if h == 1 then Joined(c.at, c.keys) else Route(c, h - 1, x)
    else Route(t, h, x)
  }

  lemma ReachedIs<T>(t: Tree<T>, h: nat, x: int)
    requires Ok(t, h) && (h > 0 ==> |t.keys| >= 1)
    ensures Poor(t) ==>
              var c := Join(t, 0).kids[0];
              && h > 0 && Ok(c, h - 1) && |c.keys| == 2 * M - 1
              && Reached(t, h, x) == if h == 1 then Joined(c.at, c.keys) else Route(c, h - 1, x)
    ensures !Poor(t) ==> Reached(t, h, x) == Route(t, h, x)
  {
    hide Ok, Join, Route;
    if Poor(t) { PoorOk(t, h); }
  }

  /** The node and its children, */
  ghost function Tops<T>(t: Tree<T>): set<T> { {t.at} + set i | 0 <= i < |t.kids| :: t.kids[i].at }

  /** and the nodes further down. */
  ghost function Deep<T>(t: Tree<T>): set<T> {
    set i, x | 0 <= i < |t.kids| && x in Under(t.kids[i].kids) :: x
  }

  lemma SomeKid<T>(t: Tree<T>, i: nat)
    requires i < |t.kids|
    ensures t.kids[i].at in Under(t.kids) && Under(t.kids[i].kids) <= Deep(t) <= Under(t.kids)
  {
    hide Nodes, Under;
    KidIn(t.kids, i);
    NodesIs(t.kids[i]);
    forall x | x in Deep(t) ensures x in Under(t.kids) {
      var j :| 0 <= j < |t.kids| && x in Under(t.kids[j].kids);
      KidIn(t.kids, j);
      NodesIs(t.kids[j]);
    }
  }

  lemma TopsIn<T>(t: Tree<T>)
    ensures Tops(t) <= Nodes(t)
  {
    hide Nodes, Under;
    NodesIs(t);
    forall i | 0 <= i < |t.kids| ensures t.kids[i].at in Nodes(t) { SomeKid(t, i); }
  }

  lemma DeepApart<T>(t: Tree<T>)
    requires Tidy(t)
    ensures Tops(t) !! Deep(t)
  {
    hide Nodes, Under, Tidy;
    TidyIs(t);
    forall x | x in Deep(t) ensures x !in Tops(t) {
      var j :| 0 <= j < |t.kids| && x in Under(t.kids[j].kids);
      KidIn(t.kids, j);
      NodesIs(t.kids[j]);
      TidyIs(t.kids[j]);
      forall i | 0 <= i < |t.kids| ensures x != t.kids[i].at {
        NodesIs(t.kids[i]);
      }
    }
  }

  lemma Sides<T>(kids: seq<Tree<T>>, n: nat)
    ensures Under(Left(kids, n)) <= Under(kids) && Under(Right(kids, n)) <= Under(kids)
  {
    hide Nodes, Under;
    if kids != [] && n <= |kids| {
      assert kids == kids[..n] + kids[n..];
      UnderSum(kids[..n], kids[n..]);
    }
    assert Under<T>([]) <= Under(kids) by { NoneUnder(kids); }
  }

  lemma NoneUnder<T>(kids: seq<Tree<T>>)
    ensures Under<T>([]) <= Under(kids)
  {
  }

  /** The child that is entered is made of what was below the node before. */
  lemma EntryFrom<T>(t: Tree<T>, n: nat)
    requires n < |t.kids| == |t.keys| + 1 && |t.keys| >= 1 && |t.kids[n].keys| >= M - 1
    ensures Entry(t, n) < |Refit(t, n).kids|
    ensures var c := Refit(t, n).kids[Entry(t, n)]; c.at in Under(t.kids) && Under(c.kids) <= Deep(t) <= Under(t.kids)
  {
    hide Nodes, Under, Deep, Left, Right;
    SomeKid(t, n);
    match TurnFor(t, n) {
      case Keep =>
      case TakeLeft =>
        SomeKid(t, n - 1);
        var y, z := t.kids[n - 1], t.kids[n];
        Sides(y.kids, |y.keys|);
        UnderSum(Right(y.kids, |y.keys|), z.kids);
      case TakeRight =>
        SomeKid(t, n + 1);
        var y, z := t.kids[n], t.kids[n + 1];
        Sides(z.kids, 1);
        UnderSum(y.kids, Left(z.kids, 1));
      case JoinLeft =>
        SomeKid(t, n - 1);
        UnderSum(t.kids[n - 1].kids, t.kids[n].kids);
      case JoinRight =>
        SomeKid(t, n + 1);
        UnderSum(t.kids[n].kids, t.kids[n + 1].kids);
    }
  }

  /** The leaf is below the node where the descent starts. */
  lemma {:induction false} RouteIn<T>(t: Tree<T>, h: nat, x: int)
    requires Ok(t, h) && (h > 0 ==> |t.keys| >= 1)
    ensures if h == 0 then Route(t, h, x).at == t.at else Route(t, h, x).at in Under(t.kids)
    ensures h > 1 ==> Route(t, h, x).at in Deep(t)
    decreases h
  {
    hide Ok, Nodes, Under, Deep, Refit, Entry;
    if h > 0 {
      var n := Below(t.keys, x);
      RootShape(t, h);
      RefitOk(t, n, h - 1);
      EntryFrom(t, n);
      if h > 1 { RouteIn(Refit(t, n).kids[Entry(t, n)], h - 1, x); }
    }
  }

  lemma ReachedIn<T>(t: Tree<T>, h: nat, x: int)
    requires Ok(t, h) && (h > 0 ==> |t.keys| >= 1)
    ensures Reached(t, h, x).at in Nodes(t)
  {
    hide Ok, Nodes, Under, Deep, Route;
    NodesIs(t);
    if Poor(t) {
      PoorOk(t, h);
      SomeKid(t, 0);
      SomeKid(t, 1);
      UnderSum(t.kids[0].kids, t.kids[1].kids);
      if h > 1 { RouteIn(Join(t, 0).kids[0], h - 1, x); }
    } else {
      RouteIn(t, h, x);
    }
  }
}

/** The chained hash table of cpp-util/lrucache.h. Entries are told apart by hash and key. */
module LruTable {
  import opened Bits
  import opened LruRing
  import opened Sequences

  ghost function Nth(chain: seq<Entry>, j: nat): Entry? { if j < |chain| then chain[j] else null }

  ghost predicate NextIs(chain: seq<Entry>, j: nat)
    requires j < |chain|
    reads {chain[j]}`nextHash
  {
    chain[j].nextHash == Nth(chain, j + 1)
  }

  /** The chain hangs off `first` through the nextHash fields. */
  ghost predicate ChainOk(first: Entry?, chain: seq<Entry>)
    reads SetOf(chain)`nextHash
  {
    first == Nth(chain, 0) && forall j :: 0 <= j < |chain| ==> NextIs(chain, j)
  }

  predicate Same(e: Entry, key: string, hash: nat) { e.hash == hash && e.key == key }

  /** All of one bucket, no two alike. */
  ghost predicate Bucketed(chain: seq<Entry>, b: nat, length: nat) {
    && length > 0 && (forall j :: 0 <= j < |chain| ==> chain[j].hash % length == b)
    && forall i, j :: 0 <= i < j < |chain| ==> !Same(chain[j], chain[i].key, chain[i].hash)
  }

  ghost predicate BucketOk(list: seq<Entry?>, chains: seq<seq<Entry>>, b: nat)
    requires b < |list| == |chains|
    reads SetOf(chains[b])`nextHash
  {
    ChainOk(list[b], chains[b]) && Bucketed(chains[b], b, |list|)
  }

  ghost predicate Buckets(list: seq<Entry?>, chains: seq<seq<Entry>>)
    reads MembersOf(chains)`nextHash
  {
    |list| == |chains| && forall b :: 0 <= b < |list| ==> BucketOk(list, chains, b)
  }

  ghost function MembersOf(chains: seq<seq<Entry>>): set<Entry> {
    set b, e | 0 <= b < |chains| && e in chains[b] :: e
  }

  /** A member sits in the chain of its hash. */
  lemma MemberAt(list: seq<Entry?>, chains: seq<seq<Entry>>, e: Entry)
    requires Buckets(list, chains) && e in MembersOf(chains)
    ensures |list| > 0 && e in chains[e.hash % |list|]
  {
    var b :| 0 <= b < |chains| && e in chains[b];
    assert BucketOk(list, chains, b);
    var j :| 0 <= j < |chains[b]| && chains[b][j] == e;
  }

  /** No two members are alike. */
  lemma MembersDiffer(list: seq<Entry?>, chains: seq<seq<Entry>>, e: Entry, f: Entry)
    requires Buckets(list, chains) && e in MembersOf(chains) && f in MembersOf(chains) && Same(e, f.key, f.hash)
    ensures e == f
  {
    MemberAt(list, chains, e);
    MemberAt(list, chains, f);
    var chain := chains[e.hash % |list|];
    assert BucketOk(list, chains, e.hash % |list|);
    var i :| 0 <= i < |chain| && chain[i] == e;
    var j :| 0 <= j < |chain| && chain[j] == f;
  }

  lemma SetOfSnoc(chain: seq<Entry>, n: nat)
    requires n < |chain|
    ensures SetOf(chain[..n + 1]) == SetOf(chain[..n]) + {chain[n]} && SetOf(chain[..0]) == {}
  {
    assert chain[..n + 1] == chain[..n] + [chain[n]];
  }

  // ----- changes to one chain

  /** chain with position k given to h: in place of what was there, or at the end. */
  ghost function PutAt(chain: seq<Entry>, k: nat, h: Entry): seq<Entry>
    requires k <= |chain|
  {
    chain[..k] + [h] + (if k < |chain| then chain[k + 1..] else [])
  }

  lemma PutAtIs(chain: seq<Entry>, k: nat, h: Entry)
    requires k <= |chain|
    ensures var c := PutAt(chain, k, h);
            && |c| == (if k < |chain| then |chain| else |chain| + 1) && c[k] == h
            && (forall j :: 0 <= j < |chain| && j != k ==> c[j] == chain[j])
            && (forall x :: x in c <==>
              x == h || (x in chain && exists j :: 0 <= j < |chain| && j != k && chain[j] == x))
  {
    var c := PutAt(chain, k, h);
    forall x | x in c && x != h ensures x in chain && exists j :: 0 <= j < |chain| && j != k && chain[j] == x {
      var j :| 0 <= j < |c| && c[j] == x;
      assert j != k && chain[j] == x;
    }
    forall j | 0 <= j < |chain| && j != k ensures chain[j] in c { assert c[j] == chain[j]; }
  }

  lemma PutBucketed(chain: seq<Entry>, k: nat, h: Entry, b: nat, length: nat)
    requires Bucketed(chain, b, length) && k <= |chain| && h.hash % length == b
    requires forall j :: 0 <= j < |chain| && j != k ==> !Same(chain[j], h.key, h.hash)
    ensures Bucketed(PutAt(chain, k, h), b, length)
  {
    PutAtIs(chain, k, h);
    var c := PutAt(chain, k, h);
    forall i, j | 0 <= i < j < |c| ensures !Same(c[j], c[i].key, c[i].hash) {
      if i != k && j != k { assert c[i] == chain[i] && c[j] == chain[j]; }
      if i == k { assert !Same(chain[j], h.key, h.hash); }
      if j == k { assert !Same(chain[i], h.key, h.hash); }
    }
  }

  lemma WithoutBucketed(chain: seq<Entry>, k: nat, b: nat, length: nat)
    requires Bucketed(chain, b, length) && k < |chain|
    ensures Bucketed(Without(chain, k), b, length)
  {
  }

  lemma BucketedDistinct(chain: seq<Entry>, b: nat, length: nat)
    requires Bucketed(chain, b, length)
    ensures Distinct(chain)
  {
    forall i, j | 0 <= i < j < |chain| ensures chain[i] != chain[j]
    { assert !Same(chain[j], chain[i].key, chain[i].hash); }
  }

  /** `*ptr = h`, where ptr is the k-th link of the chain: the bucket itself or a nextHash field. */
  method Replace(first: Entry?, before: Entry?, old_: Entry?, h: Entry, ghost chain: seq<Entry>, ghost k: nat)
      returns (first': Entry?)
    requires ChainOk(first, chain) && Distinct(chain) && h !in chain && k <= |chain| && old_ == Nth(chain, k)
    requires before == if k == 0 then null else chain[k - 1]
    modifies SetOf(chain)`nextHash, h`nextHash
    ensures ChainOk(first', PutAt(chain, k, h))
    ensures forall e :: e in chain && (k == 0 || e != chain[k - 1]) ==> e.nextHash == old(e.nextHash)
  {
    if k < |chain| { assert NextIs(chain, k); }
    h.nextHash := if old_ == null then null else old_.nextHash;
    if before == null {
      first' := h;
    } else {
      first' := first;
      before.nextHash := h;
    }
    PutAtIs(chain, k, h);
    ghost var c := PutAt(chain, k, h);
    forall j | 0 <= j < |c| ensures NextIs(c, j) {
      if j != k { assert old(NextIs(chain, j)); }
    }
  }

  /** `*ptr = result->next_hash` */
  method Bypass(first: Entry?, before: Entry?, result: Entry, ghost chain: seq<Entry>, ghost k: nat)
      returns (first': Entry?)
    requires ChainOk(first, chain) && Distinct(chain) && k < |chain| && result == chain[k]
    requires before == if k == 0 then null else chain[k - 1]
    modifies SetOf(chain)`nextHash
    ensures ChainOk(first', Without(chain, k))
  {
    assert NextIs(chain, k);
    if before == null {
      first' := result.nextHash;
    } else {
      first' := first;
      before.nextHash := result.nextHash;
    }
    ghost var c := Without(chain, k);
    forall j | 0 <= j < |c| ensures NextIs(c, j) {
      if j < k { assert old(NextIs(chain, j)); } else { assert old(NextIs(chain, j + 1)); }
    }
  }

  /** The other buckets do not notice. */
  lemma OneChain(list: seq<Entry?>, chains: seq<seq<Entry>>, b: nat, first: Entry?, chain: seq<Entry>)
    requires b < |list| == |chains| && ChainOk(first, chain) && Bucketed(chain, b, |list|)
    requires forall c :: 0 <= c < |list| && c != b ==> BucketOk(list, chains, c)
    ensures Buckets(list[b := first], chains[b := chain])
  {
    var list', chains' := list[b := first], chains[b := chain];
    forall c | 0 <= c < |list'| ensures BucketOk(list', chains', c) {
      if c != b { assert BucketOk(list, chains, c); }
    }
  }

  lemma ChainsApart(list: seq<Entry?>, chains: seq<seq<Entry>>, b: nat, c: nat)
    requires Buckets(list, chains) && b < |chains| && c < |chains| && b != c
    ensures forall e :: e in chains[b] ==> e !in chains[c]
  {
    assert BucketOk(list, chains, b) && BucketOk(list, chains, c);
  }

  lemma ChainIn(chains: seq<seq<Entry>>, b: nat)
    requires b < |chains|
    ensures forall e :: e in chains[b] ==> e in MembersOf(chains)
  {
  }

  lemma MembersWith(list: seq<Entry?>, chains: seq<seq<Entry>>, b: nat, chain: seq<Entry>, gone: set<Entry>,
                    come: set<Entry>)
    requires Buckets(list, chains) && b < |chains| && gone <= (set e | e in chains[b]) && come !! MembersOf(chains)
    requires forall e :: e in chain <==> (e in chains[b] && e !in gone) || e in come
    ensures MembersOf(chains[b := chain]) == MembersOf(chains) - gone + come
  {
    var chains' := chains[b := chain];
    forall e | e in MembersOf(chains) - gone + come ensures e in MembersOf(chains') {
      if e in come {
        assert e in chains'[b];
      } else {
        var c :| 0 <= c < |chains| && e in chains[c];
        assert e in chains'[c];
      }
    }
    forall e | e in MembersOf(chains') ensures e in MembersOf(chains) - gone + come {
      var c :| 0 <= c < |chains'| && e in chains'[c];
      if c != b { ChainsApart(list, chains, c, b); }
    }
  }

  /** What is known of bucket b, and of the others with respect to it. */
  lemma Enter(list: seq<Entry?>, chains: seq<seq<Entry>>, b: nat)
    requires Buckets(list, chains) && b < |chains|
    ensures |list| == |chains| && ChainOk(list[b], chains[b]) && Bucketed(chains[b], b, |list|) && Distinct(chains[b])
    ensures forall e :: e in chains[b] ==> e in MembersOf(chains)
    ensures forall c :: 0 <= c < |list| && c != b ==> BucketOk(list, chains, c) && SetOf(chains[b]) !! SetOf(chains[c])
    ensures SetOf(chains[b]) <= MembersOf(chains)
    ensures forall c :: 0 <= c < |list| ==> forall e :: e in chains[c] ==> e in MembersOf(chains)
  {
    hide ChainOk, Bucketed;
    assert BucketOk(list, chains, b);
    BucketedDistinct(chains[b], b, |list|);
    ChainIn(chains, b);
    forall c | 0 <= c < |list| && c != b ensures BucketOk(list, chains, c) && SetOf(chains[b]) !! SetOf(chains[c]) {
      ChainsApart(list, chains, b, c);
    }
  }

  ghost predicate AllDiffer(s: set<Entry>) { forall e, f :: e in s && f in s && Same(e, f.key, f.hash) ==> e == f }

  lemma TableDiffers(list: seq<Entry?>, chains: seq<seq<Entry>>)
    requires Buckets(list, chains)
    ensures AllDiffer(MembersOf(chains))
  {
    hide Buckets, MembersOf;
    forall e, f | e in MembersOf(chains) && f in MembersOf(chains) && Same(e, f.key, f.hash)
      ensures e == f { MembersDiffer(list, chains, e, f); }
  }

  /** An entry put at the front of the chain of its bucket. */
  lemma Pushed(list: seq<Entry?>, chains: seq<seq<Entry>>, h: Entry)
    requires |list| > 0 && Buckets(list, chains) && h !in MembersOf(chains) && AllDiffer(MembersOf(chains) + {h})
             && h.nextHash == list[h.hash % |list|]
    ensures var c := h.hash % |list|;
            && Buckets(list[c := h], chains[c := [h] + chains[c]])
            && MembersOf(chains[c := [h] + chains[c]]) == MembersOf(chains) + {h}
  {
    hide ChainOk, Bucketed, MembersOf;
    var c := h.hash % |list|;
    var chain := [h] + chains[c];
    Enter(list, chains, c);
    PushedChain(list[c], chains[c], h);
    PushedBucketed(chains[c], c, |list|, h);
    OneChain(list, chains, c, h, chain);
    MembersWith(list, chains, c, chain, {}, {h});
  }

  lemma PushedChain(first: Entry?, chain: seq<Entry>, h: Entry)
    requires ChainOk(first, chain) && h.nextHash == first
    ensures ChainOk(h, [h] + chain)
  {
    var c := [h] + chain;
    forall j | 0 <= j < |c| ensures NextIs(c, j) {
      if j > 0 { assert NextIs(chain, j - 1); }
    }
  }

  lemma PushedBucketed(chain: seq<Entry>, b: nat, length: nat, h: Entry)
    requires Bucketed(chain, b, length) && h.hash % length == b && forall e :: e in chain ==> !Same(e, h.key, h.hash)
    ensures Bucketed([h] + chain, b, length)
  {
    var c := [h] + chain;
    forall i, j | 0 <= i < j < |c| ensures !Same(c[j], c[i].key, c[i].hash) {
      assert c[j] == chain[j - 1] && chain[j - 1] in chain;
      if i > 0 { assert c[i] == chain[i - 1]; }
    }
  }

  /** The entries of one old bucket move to the new table, each to the front of its new chain. */
  method MoveChain(first: Entry?, newList: seq<Entry?>, ghost chain: seq<Entry>, ghost newChains: seq<seq<Entry>>)
      returns (list: seq<Entry?>, ghost chains: seq<seq<Entry>>, count: nat)
    requires ChainOk(first, chain) && Distinct(chain) && |newList| > 0 && Buckets(newList, newChains)
    requires (forall e :: e in chain ==> e !in MembersOf(newChains)) && AllDiffer(MembersOf(newChains) + SetOf(chain))
    modifies SetOf(chain)`nextHash
    ensures Buckets(list, chains) && |list| == |newList| && count == |chain|
    ensures MembersOf(chains) == MembersOf(newChains) + SetOf(chain)
  {
    hide Bucketed, MembersOf, Buckets, AllDiffer;
    list, chains, count := newList, newChains, 0;
    SameLength(list, chains);
    var h := first;
    assert SetOf(chain[..0]) == {};
    while h != null
      invariant count <= |chain| && h == Nth(chain, count) && |list| == |chains| == |newList| && Buckets(list, chains)
      invariant forall j :: count <= j < |chain| ==> NextIs(chain, j)
      invariant MembersOf(chains) == MembersOf(newChains) + SetOf(chain[..count])
      decreases |chain| - count
    {
      assert NextIs(chain, count);
      SomeDiffer(MembersOf(newChains), chain, count);
      var next := h.nextHash;
      var c := h.hash % |newList|;
      h.nextHash := list[c];
      Pushed(list, chains, h);
      list := list[c := h];
      chains := chains[c := [h] + chains[c]];
      SetOfSnoc(chain, count);
      h := next;
      count := count + 1;
    }
    assert chain[..count] == chain;
  }

  lemma SameLength(list: seq<Entry?>, chains: seq<seq<Entry>>)
    requires Buckets(list, chains)
    ensures |list| == |chains|
  {
  }

  lemma NoBuckets(list: seq<Entry?>, chains: seq<seq<Entry>>)
    requires |list| == |chains| && (forall i :: 0 <= i < |list| ==> list[i] == null && chains[i] == [])
    ensures Buckets(list, chains) && MembersOf(chains) == {}
  {
    forall b | 0 <= b < |list| ensures BucketOk(list, chains, b) {}
  }

  ghost predicate AllBucketed(chains: seq<seq<Entry>>) {
    forall b :: 0 <= b < |chains| ==> Bucketed(chains[b], b, |chains|)
  }

  /** The members of the first i chains, one chain more at a time. */
  lemma MembersUpTo(chains: seq<seq<Entry>>, i: nat)
    requires AllBucketed(chains) && i < |chains|
    ensures MembersOf(chains[..i + 1]) == MembersOf(chains[..i]) + SetOf(chains[i])
    ensures forall e :: e in chains[i] ==> e !in MembersOf(chains[..i])
    ensures MembersOf(chains[..i + 1]) <= MembersOf(chains)
  {
    forall e | e in MembersOf(chains[..i]) ensures e in MembersOf(chains[..i + 1]) {
      var b :| 0 <= b < i && e in chains[..i][b];
      assert e in chains[..i + 1][b];
    }
    forall e | e in chains[i] ensures e in MembersOf(chains[..i + 1]) { assert e in chains[..i + 1][i]; }
    forall e | e in MembersOf(chains[..i]) ensures e !in chains[i] {
      var b :| 0 <= b < i && e in chains[..i][b];
      BucketsApart(chains[b], chains[i], b, i, |chains|);
    }
    forall e | e in MembersOf(chains[..i + 1]) ensures e in MembersOf(chains) {
      var b :| 0 <= b < i + 1 && e in chains[..i + 1][b];
      assert e in chains[b];
    }
  }

  lemma BucketsApart(x: seq<Entry>, y: seq<Entry>, b: nat, c: nat, length: nat)
    requires Bucketed(x, b, length) && Bucketed(y, c, length) && b != c
    ensures forall e :: e in x ==> e !in y
  {
  }

  lemma NoMembers(chains: seq<seq<Entry>>)
    ensures chains == [] ==> MembersOf(chains) == {}
  {
  }

  lemma SubsetDiffers(s: set<Entry>, t: set<Entry>)
    requires AllDiffer(t) && s <= t
    ensures AllDiffer(s)
  {
  }

  lemma NotEarlier(chain: seq<Entry>, n: nat)
    requires n < |chain| && Distinct(chain)
    ensures chain[n] !in SetOf(chain[..n])
  {
  }

  lemma {:induction false} ChainCount(chain: seq<Entry>, s: set<Entry>, n: nat)
    requires n <= |chain| && Distinct(chain) && forall e :: e in chain ==> e !in s
    ensures |s + SetOf(chain[..n])| == |s| + n
    decreases n, 1
  {
    if n == 0 {
      assert s + SetOf(chain[..0]) == s;
    } else {
      CountStep(chain, s, n);
    }
  }

  lemma CountStep(chain: seq<Entry>, s: set<Entry>, n: nat)
    requires 0 < n <= |chain| && Distinct(chain) && forall e :: e in chain ==> e !in s
    ensures |s + SetOf(chain[..n])| == |s| + n
    decreases n, 0
  {
    hide SetOf, Distinct;
    ChainCount(chain, s, n - 1);
    SetOfSnoc(chain, n - 1);
    NotEarlier(chain, n - 1);
    assert s + SetOf(chain[..n]) == (s + SetOf(chain[..n - 1])) + {chain[n - 1]};
  }

  lemma EachBucketed(list: seq<Entry?>, chains: seq<seq<Entry>>)
    requires Buckets(list, chains)
    ensures |list| == |chains| && AllBucketed(chains) && forall b :: 0 <= b < |list| ==> ChainOk(list[b], chains[b])
  {
    hide ChainOk, Bucketed;
    forall b | 0 <= b < |list| ensures ChainOk(list[b], chains[b]) && Bucketed(chains[b], b, |chains|)
    { assert BucketOk(list, chains, b); }
  }

  /** What moving bucket i needs, and what it adds. */
  lemma MoveStep(chains: seq<seq<Entry>>, i: nat)
    requires AllBucketed(chains) && i < |chains| && AllDiffer(MembersOf(chains))
    ensures Distinct(chains[i]) && (forall e :: e in chains[i] ==>
              e !in MembersOf(chains[..i]) && e in MembersOf(chains))
    ensures AllDiffer(MembersOf(chains[..i]) + SetOf(chains[i]))
    ensures MembersOf(chains[..i + 1]) == MembersOf(chains[..i]) + SetOf(chains[i])
    ensures |MembersOf(chains[..i + 1])| == |MembersOf(chains[..i])| + |chains[i]|
    ensures forall c :: i < c < |chains| ==> SetOf(chains[i]) !! SetOf(chains[c])
    ensures SetOf(chains[i]) <= MembersOf(chains)
  {
    hide Bucketed, MembersOf, AllDiffer;
    BucketedDistinct(chains[i], i, |chains|);
    MembersUpTo(chains, i);
    ChainIn(chains, i);
    SubsetDiffers(MembersOf(chains[..i + 1]), MembersOf(chains));
    ChainCount(chains[i], MembersOf(chains[..i]), |chains[i]|);
    assert chains[i][..|chains[i]|] == chains[i];
    forall c | i < c < |chains| ensures SetOf(chains[i]) !! SetOf(chains[c])
    { BucketsApart(chains[i], chains[c], i, c, |chains|); }
  }

  /** The loop of Resize over the old buckets. */
  method MoveAll(list: seq<Entry?>, n: nat, ghost chains: seq<seq<Entry>>)
      returns (newList: seq<Entry?>, ghost newChains: seq<seq<Entry>>, count: nat)
    requires Buckets(list, chains) && n > 0
    modifies MembersOf(chains)`nextHash
    ensures Buckets(newList, newChains) && |newList| == n && MembersOf(newChains) == MembersOf(chains)
            && count == |MembersOf(chains)|
  {
    hide Bucketed, MembersOf, Buckets, AllDiffer, ChainOk, AllBucketed;
    EachBucketed(list, chains);
    TableDiffers(list, chains);
    newList := seq(n, _ => null);
    newChains := seq(n, _ => []);
    NoBuckets(newList, newChains);
    NoMembers(chains[..0]);
    count := 0;
    for i := 0 to |list|
      invariant Buckets(newList, newChains) && |newList| == n && MembersOf(newChains) == MembersOf(chains[..i])
                && count == |MembersOf(newChains)|
      invariant forall b :: i <= b < |list| ==> ChainOk(list[b], chains[b])
    {
      MoveStep(chains, i);
      var moved;
      newList, newChains, moved := MoveChain(list[i], newList, chains[i], newChains);
      count := count + moved;
    }
    assert chains[..|list|] == chains;
  }

  lemma SomeDiffer(s: set<Entry>, chain: seq<Entry>, n: nat)
    requires n < |chain| && AllDiffer(s + SetOf(chain)) && Distinct(chain)
    ensures AllDiffer(s + SetOf(chain[..n]) + {chain[n]}) && chain[n] !in chain[..n]
  {
    assert s + SetOf(chain[..n]) + {chain[n]} <= s + SetOf(chain);
  }

  lemma PutMembers(chain: seq<Entry>, k: nat, h: Entry)
    requires k <= |chain| && Distinct(chain) && h !in chain
    ensures var was := Nth(chain, k);
            forall e :: e in PutAt(chain, k, h) <==> (e in chain && e != was) || e == h
  {
    PutAtIs(chain, k, h);
    forall e | e in chain && e != Nth(chain, k) ensures exists j :: 0 <= j < |chain| && j != k && chain[j] == e {
      var j :| 0 <= j < |chain| && chain[j] == e;
    }
  }

  /** If the k-th entry of a bucket is the one like h, or there is none, the others are not. */
  lemma OthersDiffer(list: seq<Entry?>, chains: seq<seq<Entry>>, b: nat, k: nat, h: Entry)
    requires Buckets(list, chains) && b < |chains| && k <= |chains[b]|
    requires if k < |chains[b]| then Same(chains[b][k], h.key, h.hash) else forall e :: e in MembersOf(chains) ==>
               !Same(e, h.key, h.hash)
    ensures forall j :: 0 <= j < |chains[b]| && j != k ==> !Same(chains[b][j], h.key, h.hash)
  {
    assert BucketOk(list, chains, b);
    ChainIn(chains, b);
    var chain := chains[b];
    forall j | 0 <= j < |chain| && j != k ensures !Same(chain[j], h.key, h.hash) {
      assert chain[j] in chain;
      if k < |chain| {
        if j < k { assert !Same(chain[k], chain[j].key, chain[j].hash); }
          else { assert !Same(chain[j], chain[k].key, chain[k].hash); }
      }
    }
  }

  lemma MembersExist(chains: seq<seq<Entry>>)
    ensures forall e :: e in MembersOf(chains) ==> allocated(e)
  {
  }

  class HashTable {
    var list: seq<Entry?>
    var length: nat
    var elems: nat
    ghost var chains: seq<seq<Entry>>
    ghost var bits: nat

    ghost function Members(): set<Entry>
      reads this
    {
      MembersOf(chains)
    }

    ghost predicate Valid()
      reads this, Members()`nextHash
    {
      Buckets(list, chains) && length == |list| >= 4 && length == Pow2(bits) && elems == |Members()| <= length
    }

    /** The bucket of a hash is the program's hash & (length - 1). */
    lemma BucketIsMasked(hash: nat)
      requires Valid()
      ensures BitAnd(hash, length - 1) == hash % length
    {
      MaskIsRemainder(hash, bits);
    }

    /** FindPointer: the first link of the bucket that leads to the entry, or the last one. */
    method FindPointer(key: string, hash: nat) returns (cur: Entry?, before: Entry?, ghost k: nat)
      requires Valid()
      ensures hash % length < |chains| && k <= |chains[hash % length]| && cur == Nth(chains[hash % length], k)
      ensures before == if k == 0 then null else chains[hash % length][k - 1]
      ensures cur == null ==> forall e :: e in Members() ==> !Same(e, key, hash)
      ensures cur != null ==> cur in Members() && Same(cur, key, hash)
    {
      ghost var b := hash % length;
      ghost var chain := chains[b];
      assert BucketOk(list, chains, b);
      cur, before, k := list[hash % length], null, 0;
      while cur != null && (cur.hash != hash || key != cur.key)
        invariant k <= |chain| && cur == Nth(chain, k) && before == if k == 0 then null else chain[k - 1]
        invariant forall j :: 0 <= j < k ==> !Same(chain[j], key, hash)
        decreases |chain| - k
      {
        assert NextIs(chain, k);
        before := cur;
        cur := cur.nextHash;
        k := k + 1;
      }
      if cur == null {
        forall e | e in Members() ensures !Same(e, key, hash) { MemberAt(list, chains, e); }
      } else {
        assert chain[k] in chain;
      }
    }

    /** Only e itself is found under its own hash and key. */
    lemma OnlyOne(e: Entry)
      requires Valid() && e in Members()
      ensures forall x :: x in Members() && Same(x, e.key, e.hash) ==> x == e
    {
      hide Buckets, MembersOf;
      forall x | x in Members() && Same(x, e.key, e.hash) ensures x == e { MembersDiffer(list, chains, x, e); }
    }

    method Lookup(key: string, hash: nat) returns (e: Entry?)
      requires Valid()
      ensures e == null ==> forall x :: x in Members() ==> !Same(x, key, hash)
      ensures e != null ==> e in Members() && Same(e, key, hash)
    {
      ghost var k;
      var before;
      e, before, k := FindPointer(key, hash);
    }

    /** Remove */
    method Remove(key: string, hash: nat) returns (result: Entry?)
      requires Valid()
      modifies this, Members()`nextHash
      ensures Valid()
      ensures result == null ==> (forall x :: x in Members() ==> !Same(x, key, hash)) && Members() == old(Members())
      ensures result != null ==>
                result in old(Members()) && Same(result, key, hash) && Members() == old(Members()) - {result}
    {
      ghost var k;
      var before;
      result, before, k := FindPointer(key, hash);
      if result != null {
        Unchain(hash % length, before, result, k);
      }
    }

    /** The k-th entry of bucket b is taken out of its chain. */
    method Unchain(b: nat, before: Entry?, result: Entry, ghost k: nat)
      requires Valid() && b < |chains| && k < |chains[b]| && result == chains[b][k]
               && before == if k == 0 then null else chains[b][k - 1]
      modifies this, Members()`nextHash
      ensures Valid() && result in old(Members()) && Members() == old(Members()) - {result}
    {
      hide Bucketed, ChainOk, MembersOf, Buckets;
      ghost var list0, chains0, chain := list, chains, chains[b];
      Enter(list, chains, b);
      WithoutBucketed(chain, k, b, length);
      WithoutDistinct(chain, k);
      MembersWith(list, chains, b, Without(chain, k), {result}, {});
      var first := Bypass(list[b], before, result, chain, k);
      OneChain(list0, chains0, b, first, Without(chain, k));
      list := list[b := first];
      chains := chains[b := Without(chain, k)];
      elems := elems - 1;
    }

    /** Resize: the same entries in the least power of two, from four on, that is not below their number. */
    method Resize()
      requires Buckets(list, chains) && length == |list| && elems == |Members()|
      modifies this, Members()`nextHash
      ensures Valid() && Members() == old(Members()) && elems == old(elems)
      ensures length == 4 || length < 2 * elems
    {
      hide Bucketed, MembersOf, Buckets, AllDiffer, ChainOk;
      MembersExist(chains);
      var n := 4;
      bits := 2;
      while n < elems
        invariant n >= 4 && n == Pow2(bits) && (n == 4 || n < 2 * elems)
        modifies this`bits
      {
        n := n * 2;
        bits := bits + 1;
      }
      var newList, count;
      ghost var newChains;
      newList, newChains, count := MoveAll(list, n, chains);
      assert elems == count;
      list, length, chains := newList, n, newChains;
    }

    constructor ()
      ensures Valid() && Members() == {}
    {
      list, length, elems, chains, bits := [], 0, 0, [], 0;
      new;
      NoBuckets(list, chains);
      Resize();
    }

    /** Entry h takes the k-th link of its bucket, in place of the entry it leads to if there is one. */
    method Enchain(b: nat, before: Entry?, was: Entry?, h: Entry, ghost k: nat)
      requires Valid() && b == h.hash % length && h !in Members() && b < |chains| && k <= |chains[b]|
               && was == Nth(chains[b], k)
      requires before == if k == 0 then null else chains[b][k - 1]
      requires forall j :: 0 <= j < |chains[b]| && j != k ==> !Same(chains[b][j], h.key, h.hash)
      modifies this`list, this`chains, Members()`nextHash, h`nextHash
      ensures Buckets(list, chains) && |list| == length
      ensures Members() == (if was == null then old(Members()) else old(Members()) - {was}) + {h}
      ensures was != null ==> was in old(Members())
    {
      hide Bucketed, ChainOk, MembersOf, Buckets;
      ghost var list0, chains0, chain := list, chains, chains[b];
      Enter(list, chains, b);
      PutBucketed(chain, k, h, b, length);
      PutMembers(chain, k, h);
      MembersWith(list, chains, b, PutAt(chain, k, h), if was == null then {} else {was}, {h});
      var first := Replace(list[b], before, was, h, chain, k);
      OneChain(list0, chains0, b, first, PutAt(chain, k, h));
      list := list[b := first];
      chains := chains[b := PutAt(chain, k, h)];
      SameLength(list, chains);
    }

    /** Insert: the entry joins the table and takes the place of one with the same hash and key. */
    method Insert(h: Entry) returns (was: Entry?)
      requires Valid() && h !in Members()
      modifies this, Members()`nextHash, h`nextHash
      ensures Valid()
      ensures was == null ==>
                (forall x :: x in old(Members()) ==> !Same(x, h.key, h.hash)) && Members() == old(Members()) + {h}
      ensures was != null ==>
                was in old(Members()) && Same(was, h.key, h.hash) && Members() == old(Members()) - {was} + {h}
      ensures was != null || old(elems < length) ==> length == old(length)
      ensures was == null && old(elems == length) ==> length == 4 || length < 2 * elems
    {
      hide MembersOf, Buckets;
      ghost var k;
      var before;
      MembersExist(chains);
      was, before, k := FindPointer(h.key, h.hash);
      OthersDiffer(list, chains, h.hash % length, k, h);
      Enchain(h.hash % length, before, was, h, k);
      if was == null {
        elems := elems + 1;
        if elems > length {
          Resize();
        }
      }
    }
  }
}

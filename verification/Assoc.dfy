/** assoc.c: a hash table that grows by moving one bucket at a time.

    `Table` is the pair of tables as a value, with the specification of every
    operation and the theorems: in every state of every run, a lookup agrees
    with a plain map, whatever part of an expansion has been done.
 */
module Assoc {
  import opened Options

  type Key = string

  /** The hash function, chosen at start-up. */
  type Hash = Key -> nat

  /** An item: its key, and a number standing for the item itself. */
  datatype Item = Item(key: Key, id: nat)

  type Chain = seq<Item>

  /** `hashsize(n)` */
  function Size(n: nat): (s: nat)
    ensures s > 0
  {
    if n == 0 then 1 else 2 * Size(n - 1)
  }

  /** The source shifts a 32-bit one: its shift is defined, and is this size, exactly up
      to 31. HASHPOWER_MAX is one more. */
  lemma {:induction false} SizeFitsWord(n: nat)
    ensures Size(n) < 0x1_0000_0000 <==> n <= 31
  {
    EightMore(23);
    EightMore(15);
    EightMore(7);
    assert Size(7) == 8 * Size(4) && Size(4) == 16;
    hide Size;
    if n <= 31 {
      SizeGrows(n, 31);
    } else {
      OneMore(31);
      SizeGrows(32, n);
    }
  }

  lemma EightMore(n: nat)
    ensures Size(n + 8) == 0x100 * Size(n)
  {
    assert Size(n + 2) == 2 * Size(n + 1) && Size(n + 1) == 2 * Size(n);
    assert Size(n + 4) == 2 * Size(n + 3) && Size(n + 3) == 2 * Size(n + 2);
    assert Size(n + 6) == 2 * Size(n + 5) && Size(n + 5) == 2 * Size(n + 4);
    assert Size(n + 8) == 2 * Size(n + 7) && Size(n + 7) == 2 * Size(n + 6);
  }

  lemma OneMore(n: nat)
    ensures Size(n + 1) == 2 * Size(n)
  {}

  lemma {:induction false} SizeGrows(m: nat, n: nat)
    requires m <= n
    ensures Size(m) <= Size(n)
  {
    if m < n { SizeGrows(m, n - 1); }
  }

  /** `hv & hashmask(n)`: the low `n` bits of the hash. */
  function Bucket(hv: nat, n: nat): (b: nat)
    ensures b < Size(n)
    decreases n
  {
    if n == 0 then 0 else 2 * Bucket(hv / 2, n - 1) + hv % 2
  }

  /** Both tables and the frontier between them. `prev` is the old table while
      `expanding`, and empty otherwise: the source frees it. */
  datatype Table = Table(hashpower: nat, primary: seq<Chain>, prev: seq<Chain>, expanding: bool, expandBucket: nat)

  // ---- Low bits -----------------------------------------------------------------

  /** Fewer low bits of a hash follow from more of them. */
  lemma {:induction false} BucketOfBucket(h: nat, m: nat, n: nat)
    requires m <= n
    ensures Bucket(Bucket(h, n), m) == Bucket(h, m)
    decreases m
  {
    if m > 0 {
      var b := Bucket(h, n);
      assert b / 2 == Bucket(h / 2, n - 1) && b % 2 == h % 2;
      BucketOfBucket(h / 2, m - 1, n - 1);
    }
  }

  /** `Bucket` is the remainder by the table size. */
  lemma {:induction false} BucketIsRemainder(h: nat, n: nat)
    ensures exists q: nat :: h == q * Size(n) + Bucket(h, n)
    decreases n
  {
    if n == 0 {
      assert h == h * Size(0) + Bucket(h, 0);
    } else {
      BucketIsRemainder(h / 2, n - 1);
      var q: nat :| h / 2 == q * Size(n - 1) + Bucket(h / 2, n - 1);
      OneBitMore(h, q, Size(n - 1), Bucket(h / 2, n - 1));
      assert h == q * Size(n) + Bucket(h, n);
    }
  }

  lemma OneBitMore(h: nat, q: nat, size: nat, b: nat)
    requires h / 2 == q * size + b
    ensures h == q * (2 * size) + (2 * b + h % 2)
  {
    assert q * (2 * size) == 2 * (q * size);
  }

  /** Two keys in one old bucket share an item lock: locks are the low `m` bits,
      buckets at least as many. So the lock of the bucket being moved keeps out
      every thread that works on one of its keys. */
  lemma SameBucketSameLock(h: nat, b: nat, m: nat, n: nat)
    requires m <= n && Bucket(h, n) == b
    ensures Bucket(h, m) == Bucket(b, m)
  {
    BucketOfBucket(h, m, n);
  }

  // ---- Chains ---------------------------------------------------------------------

  function FindIn(c: Chain, k: Key): Option<Item> {
    if c == [] then None else if c[0].key == k then Some(c[0]) else FindIn(c[1..], k)
  }

  /** The chain without its first item for `k`. */
  function RemoveFrom(c: Chain, k: Key): Chain {
    if c == [] then [] else if c[0].key == k then c[1..] else [c[0]] + RemoveFrom(c[1..], k)
  }

  ghost predicate DistinctKeys(c: Chain) {
    forall i, j | 0 <= i < j < |c| :: c[i].key != c[j].key
  }

  lemma {:induction false} FindMeans(c: Chain, k: Key)
    ensures FindIn(c, k).None? <==> forall i | 0 <= i < |c| :: c[i].key != k
    ensures FindIn(c, k).Some? ==> FindIn(c, k).value in c && FindIn(c, k).value.key == k
  {
    if c != [] {
      FindMeans(c[1..], k);
      forall i | 0 <= i < |c| && FindIn(c, k).None? ensures c[i].key != k {
        if i > 0 { assert c[i] == c[1..][i - 1]; }
      }
      assert FindIn(c, k).Some? ==> FindIn(c, k).value in c;
    }
  }

  lemma {:induction false} FindUnique(c: Chain, i: nat)
    requires DistinctKeys(c) && i < |c|
    ensures FindIn(c, c[i].key) == Some(c[i])
  {
    if i > 0 { FindUnique(c[1..], i - 1); }
  }

  lemma {:induction false} RemoveMeans(c: Chain, k: Key)
    requires DistinctKeys(c)
    ensures DistinctKeys(RemoveFrom(c, k))
    ensures forall it | it in RemoveFrom(c, k) :: it in c && it.key != k
    ensures forall k' | k' != k :: FindIn(RemoveFrom(c, k), k') == FindIn(c, k')
    ensures FindIn(RemoveFrom(c, k), k).None?
  {
    if c == [] {
    } else if c[0].key == k {
      FindMeans(c[1..], k);
    } else {
      var r := RemoveFrom(c[1..], k);
      RemoveMeans(c[1..], k);
      assert ([c[0]] + r)[1..] == r;
      FindMeans([c[0]] + r, k);
    }
  }

  // ---- Operations -------------------------------------------------------------------

  /** Whether a hash is still looked up in the old table. */
  predicate InOld(t: Table, hv: nat) {
    t.expanding && t.hashpower > 0 && Bucket(hv, t.hashpower - 1) >= t.expandBucket
  }

  /** The chain that holds the keys with this hash. */
  function ChainOf(t: Table, hv: nat): Chain
    requires Shape(t)
  {
    if InOld(t, hv) then t.prev[Bucket(hv, t.hashpower - 1)] else t.primary[Bucket(hv, t.hashpower)]
  }

  function WithChain(t: Table, hv: nat, c: Chain): Table
    requires Shape(t)
  {
    if InOld(t, hv) then t.(prev := t.prev[Bucket(hv, t.hashpower - 1) := c])
    else t.(primary := t.primary[Bucket(hv, t.hashpower) := c])
  }

  ghost predicate Shape(t: Table) {
    && |t.primary| == Size(t.hashpower)
    && (t.expanding ==> t.hashpower > 0 && |t.prev| == Size(t.hashpower - 1) && t.expandBucket < |t.prev|)
    && (!t.expanding ==> t.prev == [])
  }

  function Find(t: Table, hash: Hash, k: Key): Option<Item>
    requires Shape(t)
  {
    FindIn(ChainOf(t, hash(k)), k)
  }

  function Insert(t: Table, hash: Hash, it: Item): Table
    requires Shape(t)
  {
    WithChain(t, hash(it.key), [it] + ChainOf(t, hash(it.key)))
  }

  function Delete(t: Table, hash: Hash, k: Key): Table
    requires Shape(t)
  {
    WithChain(t, hash(k), RemoveFrom(ChainOf(t, hash(k)), k))
  }

  /** `assoc_expand`, with the outcome of `calloc`. */
  function Expand(t: Table, gotMemory: bool): Table {
    if gotMemory then Table(t.hashpower + 1, Empty(Size(t.hashpower + 1)), t.primary, true, 0)
    else t
  }

  function Empty(n: nat): seq<Chain> { seq(n, _ => []) }

  /** Moves the items of `c`, in order, to the front of their new chains. */
  function Scatter(p: seq<Chain>, hash: Hash, n: nat, c: Chain): (r: seq<Chain>)
    requires |p| == Size(n)
    ensures |r| == |p|
    decreases |c|
  {
    if c == [] then p
    else
      var b := Bucket(hash(c[0].key), n);
      Scatter(p[b := [c[0]] + p[b]], hash, n, c[1..])
  }

  /** One bucket moved by the maintenance thread. */
  function Move(t: Table, hash: Hash): Table
    requires Shape(t) && t.expanding
  {
    var b := t.expandBucket;
    t.(primary := Scatter(t.primary, hash, t.hashpower, t.prev[b]),
       prev := if b + 1 < Size(t.hashpower - 1) then t.prev[b := []] else [],
       expandBucket := b + 1,
       expanding := b + 1 < Size(t.hashpower - 1))
  }

  // ---- The invariant ------------------------------------------------------------------

  /** Every item of a primary chain belongs there; while expanding, only the
      buckets behind the frontier have been filled. */
  ghost predicate PrimaryPlaced(t: Table, hash: Hash)
    requires Shape(t)
  {
    forall b, it | 0 <= b < |t.primary| && it in t.primary[b] ::
      && Bucket(hash(it.key), t.hashpower) == b
      && (t.expanding ==> Bucket(hash(it.key), t.hashpower - 1) < t.expandBucket)
  }

  /** Every item of an old chain belongs there and is ahead of the frontier. */
  ghost predicate OldPlaced(t: Table, hash: Hash)
    requires Shape(t)
  {
    t.expanding ==>
      forall b, it | 0 <= b < |t.prev| && it in t.prev[b] ::
        Bucket(hash(it.key), t.hashpower - 1) == b && b >= t.expandBucket
  }

  ghost predicate ChainsDistinct(t: Table) {
    && (forall b | 0 <= b < |t.primary| :: DistinctKeys(t.primary[b]))
    && (t.expanding ==> forall b | 0 <= b < |t.prev| :: DistinctKeys(t.prev[b]))
  }

  ghost predicate Valid(t: Table, hash: Hash) {
    Shape(t) && PrimaryPlaced(t, hash) && OldPlaced(t, hash) && ChainsDistinct(t)
  }

  /** Lookups in the table and in the map give the same answers. */
  ghost predicate Refines(t: Table, hash: Hash, m: map<Key, Item>) {
    && Valid(t, hash)
    && forall k :: Find(t, hash, k) == if k in m then Some(m[k]) else None
  }

  // ---- Insert and delete ----------------------------------------------------------------

  lemma WithChainRoutes(t: Table, hv: nat, c: Chain, h: nat)
    requires Shape(t)
    ensures Shape(WithChain(t, hv, c))
    ensures ChainOf(WithChain(t, hv, c), h) == if SameChain(t, hv, h) then c else ChainOf(t, h)
  {}

  /** Two hashes that are looked up in one chain. */
  predicate SameChain(t: Table, h: nat, h': nat)
    requires t.expanding ==> t.hashpower > 0
  {
    && InOld(t, h) == InOld(t, h')
    && (if InOld(t, h) then Bucket(h, t.hashpower - 1) == Bucket(h', t.hashpower - 1)
        else Bucket(h, t.hashpower) == Bucket(h', t.hashpower))
  }

  /** Replacing the chain of `hv` by a well-placed chain keeps the table valid. */
  lemma WithChainValid(t: Table, hash: Hash, hv: nat, c: Chain)
    requires Valid(t, hash) && DistinctKeys(c)
    requires forall it | it in c :: SameChain(t, hv, hash(it.key))
    ensures Valid(WithChain(t, hv, c), hash)
  {
    var t' := WithChain(t, hv, c);
    assert Shape(t');
    forall b, it | 0 <= b < |t'.primary| && it in t'.primary[b]
      ensures Bucket(hash(it.key), t.hashpower) == b
      ensures t.expanding ==> Bucket(hash(it.key), t.hashpower - 1) < t.expandBucket
    {
      if t'.primary[b] != t.primary[b] { assert SameChain(t, hv, hash(it.key)); }
    }
    assert PrimaryPlaced(t', hash);
    if t'.expanding {
      forall b, it | 0 <= b < |t'.prev| && it in t'.prev[b]
        ensures Bucket(hash(it.key), t'.hashpower - 1) == b && b >= t'.expandBucket
      {
        if t'.prev[b] != t.prev[b] { assert SameChain(t, hv, hash(it.key)); }
      }
    }
    assert OldPlaced(t', hash);
    assert ChainsDistinct(t');
  }

  lemma ChainPlaced(t: Table, hash: Hash, hv: nat)
    requires Valid(t, hash)
    ensures DistinctKeys(ChainOf(t, hv))
    ensures forall it | it in ChainOf(t, hv) :: SameChain(t, hv, hash(it.key))
  {
    if t.expanding { BucketOfBucket(hv, t.hashpower - 1, t.hashpower); }
    forall it | it in ChainOf(t, hv) ensures SameChain(t, hv, hash(it.key)) {
      if t.expanding { BucketOfBucket(hash(it.key), t.hashpower - 1, t.hashpower); }
    }
  }

  lemma InsertRefines(t: Table, hash: Hash, m: map<Key, Item>, it: Item)
    requires Refines(t, hash, m) && it.key !in m
    ensures Refines(Insert(t, hash, it), hash, m[it.key := it])
  {
    hide Valid, Bucket, Size, DistinctKeys, Insert, Find, Shape;
    InsertValid(t, hash, m, it);
    var m' := m[it.key := it];
    forall k ensures Find(Insert(t, hash, it), hash, k) == if k in m' then Some(m'[k]) else None {
      InsertFinds(t, hash, it, k);
    }
  }

  lemma InsertValid(t: Table, hash: Hash, m: map<Key, Item>, it: Item)
    requires Refines(t, hash, m) && it.key !in m
    ensures Shape(t) && Valid(Insert(t, hash, it), hash)
  {
    var hv := hash(it.key);
    var c := ChainOf(t, hv);
    assert Find(t, hash, it.key).None?;
    FindMeans(c, it.key);
    ChainPlaced(t, hash, hv);
    WithChainValid(t, hash, hv, [it] + c);
  }

  /** A new item is found under its key, and the other keys are found as before. */
  lemma InsertFinds(t: Table, hash: Hash, it: Item, k: Key)
    requires Shape(t)
    ensures Shape(Insert(t, hash, it))
    ensures Find(Insert(t, hash, it), hash, k) == if k == it.key then Some(it) else Find(t, hash, k)
  {
    hide Bucket, Size;
    var hv := hash(it.key);
    var c := ChainOf(t, hv);
    WithChainRoutes(t, hv, [it] + c, hash(k));
    assert ([it] + c)[1..] == c;
  }

  lemma DeleteRefines(t: Table, hash: Hash, m: map<Key, Item>, k: Key)
    requires Refines(t, hash, m)
    ensures Refines(Delete(t, hash, k), hash, m - {k})
  {
    var hv := hash(k);
    var c := ChainOf(t, hv);
    ChainPlaced(t, hash, hv);
    RemoveMeans(c, k);
    WithChainValid(t, hash, hv, RemoveFrom(c, k));
    forall k' ensures Find(Delete(t, hash, k), hash, k') == if k' in m - {k} then Some((m - {k})[k']) else None {
      WithChainRoutes(t, hv, RemoveFrom(c, k), hash(k'));
      if SameChain(t, hv, hash(k')) { assert ChainOf(t, hash(k')) == c; }
    }
  }

  // ---- Expansion ----------------------------------------------------------------------------

  /** Starting an expansion, or failing to, changes no lookup. */
  lemma ExpandRefines(t: Table, hash: Hash, m: map<Key, Item>, gotMemory: bool)
    requires Refines(t, hash, m) && !t.expanding
    ensures Refines(Expand(t, gotMemory), hash, m)
  {
    var t' := Expand(t, gotMemory);
    assert Shape(t');
    forall k ensures Find(t', hash, k) == Find(t, hash, k) {
      assert ChainOf(t', hash(k)) == ChainOf(t, hash(k));
    }
  }

  /** After scattering a chain, every new chain finds what it found before, and
      the scattered items besides. */
  lemma {:induction false} ScatterFinds(p: seq<Chain>, hash: Hash, n: nat, c: Chain, k: Key, b: nat)
    requires |p| == Size(n) && b < |p| && DistinctKeys(c)
    ensures FindIn(Scatter(p, hash, n, c)[b], k) ==
      if FindIn(c, k).Some? && Bucket(hash(k), n) == b then FindIn(c, k) else FindIn(p[b], k)
    decreases |c|
  {
    if c != [] {
      var b0 := Bucket(hash(c[0].key), n);
      var p' := p[b0 := [c[0]] + p[b0]];
      ScatterFinds(p', hash, n, c[1..], k, b);
      assert ([c[0]] + p[b0])[1..] == p[b0];
      if c[0].key == k { FindMeans(c[1..], k); }
    }
  }

  /** Where scattered items end up, and that keys stay distinct. */
  lemma {:induction false} ScatterPlaces(p: seq<Chain>, hash: Hash, n: nat, c: Chain, b: nat)
    requires |p| == Size(n) && b < |p| && DistinctKeys(c) && DistinctKeys(p[b])
    requires forall it, it' | it in c && it' in p[b] :: it.key != it'.key
    ensures DistinctKeys(Scatter(p, hash, n, c)[b])
    ensures forall it | it in Scatter(p, hash, n, c)[b] :: it in p[b] || (it in c && Bucket(hash(it.key), n) == b)
    decreases |c|
  {
    if c != [] {
      var b0 := Bucket(hash(c[0].key), n);
      var p' := p[b0 := [c[0]] + p[b0]];
      assert forall it | it in c[1..] :: it in c && it.key != c[0].key;
      ScatterPlaces(p', hash, n, c[1..], b);
    }
  }

  lemma HeadInChain(c: Chain)
    ensures c == [] || c[0] in c
  {}

  /** The new chains of the bucket being moved are empty until it moves. */
  lemma AheadIsEmpty(t: Table, hash: Hash, b: nat)
    requires Valid(t, hash) && t.expanding && b < |t.primary|
    requires Bucket(b, t.hashpower - 1) == t.expandBucket
    ensures t.primary[b] == []
  {
    HeadInChain(t.primary[b]);
    forall it | it in t.primary[b] ensures false {
      BucketOfBucket(hash(it.key), t.hashpower - 1, t.hashpower);
    }
  }

  lemma MoveScatters(t: Table, hash: Hash, b: nat)
    requires Valid(t, hash) && t.expanding && b < |t.primary|
    ensures DistinctKeys(Move(t, hash).primary[b])
    ensures forall it | it in Move(t, hash).primary[b] ::
      Bucket(hash(it.key), t.hashpower) == b && Bucket(hash(it.key), t.hashpower - 1) < t.expandBucket + 1
  {
    var c := t.prev[t.expandBucket];
    forall it, it' | it in c && it' in t.primary[b] ensures it.key != it'.key {}
    ScatterPlaces(t.primary, hash, t.hashpower, c, b);
  }

  lemma MoveValid(t: Table, hash: Hash)
    requires Valid(t, hash) && t.expanding
    ensures Valid(Move(t, hash), hash)
  {
    var t' := Move(t, hash);
    assert Shape(t') && (t'.expanding ==> t'.prev == t.prev[t.expandBucket := []]);
    forall b, it | 0 <= b < |t'.primary| && it in t'.primary[b]
      ensures Bucket(hash(it.key), t.hashpower) == b
      ensures Bucket(hash(it.key), t.hashpower - 1) < t.expandBucket + 1
    {
      MoveScatters(t, hash, b);
    }
    assert PrimaryPlaced(t', hash);
    forall b | 0 <= b < |t'.primary| ensures DistinctKeys(t'.primary[b]) { MoveScatters(t, hash, b); }
    forall b | 0 <= b < |t'.prev| ensures DistinctKeys(t'.prev[b]) {}
    assert ChainsDistinct(t');
    MoveOld(t, t', hash);
  }

  /** What is left in the old table is where it was. */
  lemma MoveOld(t: Table, t': Table, hash: Hash)
    requires Shape(t) && Shape(t') && OldPlaced(t, hash) && t.expanding && t'.hashpower == t.hashpower
    requires t'.expanding ==> t'.prev == t.prev[t.expandBucket := []] && t'.expandBucket == t.expandBucket + 1
    ensures OldPlaced(t', hash)
  {
    forall b, it | t'.expanding && 0 <= b < |t'.prev| && it in t'.prev[b]
      ensures Bucket(hash(it.key), t'.hashpower - 1) == b && b >= t'.expandBucket
    {
      assert b != t.expandBucket && it in t.prev[b];
    }
  }

  /** How a move re-routes hashes: only those of the moved bucket change table. */
  lemma MoveRoutes(t: Table, hash: Hash, hv: nat)
    requires Shape(t) && t.expanding
    ensures Shape(Move(t, hash))
    ensures InOld(Move(t, hash), hv) <==> InOld(t, hv) && Bucket(hv, t.hashpower - 1) != t.expandBucket
    ensures ChainOf(Move(t, hash), hv) ==
      if Bucket(hv, t.hashpower - 1) > t.expandBucket then t.prev[Bucket(hv, t.hashpower - 1)]
      else Scatter(t.primary, hash, t.hashpower, t.prev[t.expandBucket])[Bucket(hv, t.hashpower)]
  {}

  /** Moving a bucket changes no lookup, in the middle or at the end of an expansion. */
  lemma MoveFind(t: Table, hash: Hash, k: Key)
    requires Valid(t, hash) && t.expanding
    ensures Shape(Move(t, hash)) && Find(Move(t, hash), hash, k) == Find(t, hash, k)
  {
    var hv, n, e := hash(k), t.hashpower, t.expandBucket;
    var c, b := t.prev[e], Bucket(hv, n);
    MoveRoutes(t, hash, hv);
    hide FindIn, Bucket, Move, Scatter;
    BucketOfBucket(hv, n - 1, n);
    ScatterFinds(t.primary, hash, n, c, k, b);
    FindMeans(c, k);
    if Bucket(hv, n - 1) == e {
      AheadIsEmpty(t, hash, b);
      FindMeans(t.primary[b], k);
    }
  }

  lemma MoveRefines(t: Table, hash: Hash, m: map<Key, Item>)
    requires Refines(t, hash, m) && t.expanding
    ensures Refines(Move(t, hash), hash, m)
  {
    MoveValid(t, hash);
    forall k ensures Find(Move(t, hash), hash, k) == if k in m then Some(m[k]) else None { MoveFind(t, hash, k); }
  }

  // ---- Concurrent moves -------------------------------------------------------------------------

  /** `n` buckets moved one after the other. */
  function Moves(t: Table, hash: Hash, n: nat): (r: Table)
    requires Shape(t) && t.expanding ==> t.expandBucket + n <= Size(t.hashpower - 1)
    requires Shape(t) && (n > 0 ==> t.expanding)
    ensures Shape(r)
    decreases n
  {
    if n == 0 then t else Moves(Move(t, hash), hash, n - 1)
  }

  /** A thread that holds the item lock of `hv` may read the frontier before some
      buckets of other locks are moved and use it after: the chain it was sent
      to is still the chain of `hv`, and its contents are untouched. */
  lemma {:induction false} RouteStable(t: Table, hash: Hash, hv: nat, n: nat)
    requires Valid(t, hash) && t.expanding && t.expandBucket + n <= Size(t.hashpower - 1)
    requires !(t.expandBucket <= Bucket(hv, t.hashpower - 1) < t.expandBucket + n)
    ensures InOld(Moves(t, hash, n), hv) == InOld(t, hv)
    ensures ChainOf(Moves(t, hash, n), hv) == ChainOf(t, hv)
    decreases n
  {
    if n > 0 {
      MoveValid(t, hash);
      OneMoveStable(t, hash, hv);
      hide Valid, Move, InOld, ChainOf;
      if n > 1 { RouteStable(Move(t, hash), hash, hv, n - 1); }
    }
  }

  lemma OneMoveStable(t: Table, hash: Hash, hv: nat)
    requires Valid(t, hash) && t.expanding && Bucket(hv, t.hashpower - 1) != t.expandBucket
    ensures Shape(Move(t, hash)) && InOld(Move(t, hash), hv) == InOld(t, hv)
    ensures ChainOf(Move(t, hash), hv) == ChainOf(t, hv)
    ensures Move(t, hash).hashpower == t.hashpower && Move(t, hash).expandBucket == t.expandBucket + 1
    ensures Move(t, hash).expanding <==> t.expandBucket + 1 < Size(t.hashpower - 1)
  {
    MoveRoutes(t, hash, hv);
    hide Bucket;
    BucketOfBucket(hv, t.hashpower - 1, t.hashpower);
    ScatterElsewhere(t.primary, hash, t.hashpower, t.prev[t.expandBucket], Bucket(hv, t.hashpower), t.expandBucket);
  }

  /** Scattering one old bucket touches only new buckets above it. */
  lemma {:induction false} ScatterElsewhere(p: seq<Chain>, hash: Hash, n: nat, c: Chain, b: nat, e: nat)
    requires |p| == Size(n) && n > 0 && b < |p| && Bucket(b, n - 1) != e
    requires forall it | it in c :: Bucket(hash(it.key), n - 1) == e
    ensures Scatter(p, hash, n, c)[b] == p[b]
    decreases |c|
  {
    if c != [] {
      var b0 := Bucket(hash(c[0].key), n);
      BucketOfBucket(hash(c[0].key), n - 1, n);
      ScatterElsewhere(p[b0 := [c[0]] + p[b0]], hash, n, c[1..], b, e);
    }
  }

  // ---- The order of chains -------------------------------------------------------------------------

  /** The items of a chain that go to new bucket `b`, the last one first. */
  function Picked(c: Chain, hash: Hash, n: nat, b: nat): Chain {
    if c == [] then []
    else Picked(c[1..], hash, n, b) + if Bucket(hash(c[0].key), n) == b then [c[0]] else []
  }

  lemma {:induction false} ScatterIs(p: seq<Chain>, hash: Hash, n: nat, c: Chain, b: nat)
    requires |p| == Size(n) && b < |p|
    ensures Scatter(p, hash, n, c)[b] == Picked(c, hash, n, b) + p[b]
    decreases |c|
  {
    hide Bucket;
    if c != [] {
      var e := Bucket(hash(c[0].key), n);
      ScatterIs(p[e := [c[0]] + p[e]], hash, n, c[1..], b);
    }
  }

  /** What each operation leaves in the chain of any hash: an insert puts its item in front,
      a delete takes out the one item and keeps the order of the others, and neither touches
      other chains. */
  lemma ChainAfter(t: Table, hash: Hash, it: Item, h: nat)
    requires Valid(t, hash)
    ensures Shape(Insert(t, hash, it)) && Shape(Delete(t, hash, it.key))
    ensures var same := SameChain(t, hash(it.key), h);
      && ChainOf(Insert(t, hash, it), h) == (if same then [it] + ChainOf(t, h) else ChainOf(t, h))
      && (!same ==> ChainOf(Delete(t, hash, it.key), h) == ChainOf(t, h))
      && (same && FindIn(ChainOf(t, h), it.key).None? ==> ChainOf(Delete(t, hash, it.key), h) == ChainOf(t, h))
    ensures forall a, x, b | SameChain(t, hash(it.key), h) && ChainOf(t, h) == a + [x] + b && x.key == it.key ::
      ChainOf(Delete(t, hash, it.key), h) == a + b
  {
    var hv := hash(it.key);
    ChainPlaced(t, hash, hv);
    SameChainSame(t, hv, h);
    WithChainRoutes(t, hv, [it] + ChainOf(t, hv), h);
    WithChainRoutes(t, hv, RemoveFrom(ChainOf(t, hv), it.key), h);
    hide Valid, Bucket, WithChain, ChainOf, SameChain;
    if SameChain(t, hv, h) {
      forall a, x, b | ChainOf(t, h) == a + [x] + b && x.key == it.key
        ensures RemoveFrom(ChainOf(t, hv), it.key) == a + b
      {
        KeysBefore(a, x, b);
        RemoveSplits(a, x, b);
      }
      RemoveMissing(ChainOf(t, hv), it.key);
    }
  }

  lemma SameChainSame(t: Table, h: nat, h': nat)
    requires Shape(t)
    ensures SameChain(t, h, h') ==> ChainOf(t, h) == ChainOf(t, h')
  {}

  lemma KeysBefore(a: Chain, x: Item, b: Chain)
    requires DistinctKeys(a + [x] + b)
    ensures forall i | 0 <= i < |a| :: a[i].key != x.key
  {
    var c := a + [x] + b;
    assert c[|a|] == x && forall i | 0 <= i < |a| :: c[i] == a[i];
  }

  lemma {:induction false} RemoveSplits(a: Chain, x: Item, b: Chain)
    requires forall i | 0 <= i < |a| :: a[i].key != x.key
    ensures RemoveFrom(a + [x] + b, x.key) == a + b
  {
    var c := a + [x] + b;
    if a == [] {
      assert c[0] == x && c[1..] == b;
    } else {
      assert c[0] == a[0] && c[1..] == a[1..] + [x] + b;
      RemoveSplits(a[1..], x, b);
      assert [a[0]] + (a[1..] + b) == a + b;
    }
  }

  lemma {:induction false} RemoveMissing(c: Chain, k: Key)
    ensures FindIn(c, k).None? ==> RemoveFrom(c, k) == c
  {
    if c != [] { RemoveMissing(c[1..], k); }
  }

  /** What a bucket move leaves: the chain of a hash in the moved bucket is turned around
      and split by the next bit of the hashes, and every other chain stays. */
  lemma ChainMoved(t: Table, hash: Hash, hv: nat)
    requires Valid(t, hash) && t.expanding
    ensures Shape(Move(t, hash))
    ensures ChainOf(Move(t, hash), hv) ==
      if Bucket(hv, t.hashpower - 1) == t.expandBucket
      then Picked(ChainOf(t, hv), hash, t.hashpower, Bucket(hv, t.hashpower))
      else ChainOf(t, hv)
  {
    MoveRoutes(t, hash, hv);
    hide Bucket, Move, Scatter, Picked, Valid;
    if Bucket(hv, t.hashpower - 1) == t.expandBucket {
      BucketOfBucket(hv, t.hashpower - 1, t.hashpower);
      AheadIsEmpty(t, hash, Bucket(hv, t.hashpower));
      ScatterIs(t.primary, hash, t.hashpower, t.prev[t.expandBucket], Bucket(hv, t.hashpower));
    } else {
      OneMoveStable(t, hash, hv);
    }
  }

  // ---- Runs ----------------------------------------------------------------------------------------

  datatype Event = InsertItem(it: Item) | DeleteKey(k: Key) | StartExpand(gotMemory: bool) | MoveBucket

  datatype State = State(table: Table, contents: map<Key, Item>)

  /** When a thread may take a step: an insert needs a new key, only the
      maintenance thread expands and moves. */
  predicate Enabled(s: State, e: Event) {
    match e
    case InsertItem(it) => it.key !in s.contents
    case DeleteKey(k) => true
    case StartExpand(_) => !s.table.expanding
    case MoveBucket => s.table.expanding
  }

  function Next(s: State, hash: Hash, e: Event): State
    requires Shape(s.table) && Enabled(s, e)
  {
    match e
    case InsertItem(it) => State(Insert(s.table, hash, it), s.contents[it.key := it])
    case DeleteKey(k) => State(Delete(s.table, hash, k), s.contents - {k})
    case StartExpand(gotMemory) => s.(table := Expand(s.table, gotMemory))
    case MoveBucket => s.(table := Move(s.table, hash))
  }

  function Init(hashpower: nat): State {
    State(Table(hashpower, Empty(Size(hashpower)), [], false, 0), map[])
  }

  ghost predicate Run(states: seq<State>, hash: Hash, events: seq<Event>) {
    && |states| == |events| + 1
    && (exists n :: states[0] == Init(n))
    && forall i | 0 <= i < |events| ::
         Shape(states[i].table) && Enabled(states[i], events[i]) && states[i + 1] == Next(states[i], hash, events[i])
  }

  lemma StepRefines(s: State, hash: Hash, e: Event)
    requires Refines(s.table, hash, s.contents) && Enabled(s, e)
    ensures Refines(Next(s, hash, e).table, hash, Next(s, hash, e).contents)
  {
    match e
    case InsertItem(it) => InsertRefines(s.table, hash, s.contents, it);
    case DeleteKey(k) => DeleteRefines(s.table, hash, s.contents, k);
    case StartExpand(gotMemory) => ExpandRefines(s.table, hash, s.contents, gotMemory);
    case MoveBucket => MoveRefines(s.table, hash, s.contents);
  }

  /** In every state of every run the table is the map. */
  lemma {:induction false} RunRefinesMap(states: seq<State>, hash: Hash, events: seq<Event>, i: nat)
    requires Run(states, hash, events) && i < |states|
    ensures Refines(states[i].table, hash, states[i].contents)
  {
    if i == 0 {
      var n :| states[0] == Init(n);
      var t := states[0].table;
      assert Shape(t);
      forall k ensures Find(t, hash, k).None? { assert ChainOf(t, hash(k)) == []; }
    } else {
      RunRefinesMap(states, hash, events, i - 1);
      StepRefines(states[i - 1], hash, events[i - 1]);
    }
  }

  /** A run can go on with every enabled event. */
  lemma RunExtends(states: seq<State>, hash: Hash, events: seq<Event>, e: Event)
    requires Run(states, hash, events) && Enabled(states[|states| - 1], e)
    ensures Shape(states[|states| - 1].table) && Run(states + [Next(states[|states| - 1], hash, e)], hash, events + [e])
  {
    LastShape(states, hash, events);
    hide Next, Enabled, Shape, Init;
    var s := states[|states| - 1];
    var more, es := states + [Next(s, hash, e)], events + [e];
    forall i | 0 <= i < |es|
      ensures Shape(more[i].table) && Enabled(more[i], es[i]) && more[i + 1] == Next(more[i], hash, es[i]) {
      if i < |events| {
        StepAt(states, hash, events, i);
        assert more[i] == states[i] && more[i + 1] == states[i + 1];
      }
    }
    assert more[0] == states[0];
  }

  lemma LastShape(states: seq<State>, hash: Hash, events: seq<Event>)
    requires Run(states, hash, events)
    ensures Shape(states[|states| - 1].table)
  {
    RunRefinesMap(states, hash, events, |states| - 1);
  }

  lemma StepAt(states: seq<State>, hash: Hash, events: seq<Event>, i: nat)
    requires Run(states, hash, events) && i < |events|
    ensures |states| == |events| + 1 && Shape(states[i].table) && Enabled(states[i], events[i])
    ensures states[i + 1] == Next(states[i], hash, events[i])
  {
    hide Next, Enabled, Shape;
  }

  function CountMoves(events: seq<Event>): nat {
    if events == [] then 0 else CountMoves(events[..|events| - 1]) + (if events[|events| - 1].MoveBucket? then 1 else 0)
  }

  /** Only bucket moves change the frontier. */
  lemma StepFrontier(s: State, hash: Hash, e: Event)
    requires Shape(s.table) && Enabled(s, e) && !e.StartExpand?
    ensures var t, t' := s.table, Next(s, hash, e).table;
            && t'.hashpower == t.hashpower
            && (!e.MoveBucket? ==> t'.expanding == t.expanding && t'.expandBucket == t.expandBucket)
            && (e.MoveBucket? ==> t'.expandBucket == t.expandBucket + 1 &&
                                  t'.expanding == (t.expandBucket + 1 < Size(t.hashpower - 1)))
            && (t.expanding ==> t.hashpower > 0 && t.expandBucket < Size(t.hashpower - 1))
  {}

  lemma CountLast(events: seq<Event>, i: nat, j: nat)
    requires i < j <= |events|
    ensures CountMoves(events[i..j]) == CountMoves(events[i..j - 1]) + (if events[j - 1].MoveBucket? then 1 else 0)
  {
    var es := events[i..j];
    assert es[..|es| - 1] == events[i..j - 1] && es[|es| - 1] == events[j - 1];
  }

  /** An expansion takes exactly `hashsize(hashpower - 1)` bucket moves, however
      many inserts and deletes happen in between. */
  lemma {:induction false} ExpansionLength(states: seq<State>, hash: Hash, events: seq<Event>, i: nat, j: nat)
    requires Run(states, hash, events) && i < j < |states|
    requires |states| == |events| + 1 && events[i] == StartExpand(true)
    requires forall k | i < k < j :: !events[k].StartExpand?
    ensures states[j].table.hashpower == states[i].table.hashpower + 1
    ensures CountMoves(events[i + 1..j]) <= Size(states[i].table.hashpower)
    ensures states[j].table.expanding <==> CountMoves(events[i + 1..j]) < Size(states[i].table.hashpower)
    ensures states[j].table.expanding ==> states[j].table.expandBucket == CountMoves(events[i + 1..j])
    decreases j
  {
    hide Run, Shape;
    StepAt(states, hash, events, j - 1);
    if j == i + 1 {
      hide Size;
      assert events[i + 1..j] == [];
    } else {
      ExpansionLength(states, hash, events, i, j - 1);
      CountLast(events, i + 1, j);
      hide CountMoves, Next, Enabled, Size;
      StepFrontier(states[j - 1], hash, events[j - 1]);
    }
  }
}

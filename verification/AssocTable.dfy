/** The table of assoc.c as the threads share it: two arrays of buckets, each bucket a
    chain of items linked by `h_next`. Every operation on the pointers moves the table
    as Assoc says.
 */
module AssocTable {
  import opened Assoc
  import opened AssocChains
  import opened Options
  import opened Sequences

  lemma OthersApart(chains: seq<seq<Node>>, b: nat)
    requires Apart(chains, []) && b < |chains|
    ensures forall c | 0 <= c < |chains| && c != b :: forall n | n in chains[c] :: n !in chains[b]
  {}

  lemma FewerApart(chains: seq<seq<Node>>, b: nat, rest: seq<Node>)
    requires Apart(chains, []) && b < |chains| && forall n | n in rest :: n in chains[b]
    ensures Apart(chains[b := rest], [])
  {}

  /** An array of buckets. */
  class Buckets {
    const heads: array<Node?>
    ghost var chains: seq<seq<Node>>

    /** calloc */
    constructor (n: nat)
      ensures fresh(heads) && |chains| == n && Valid() && AllItems(chains) == Empty(n)
      ensures forall b | 0 <= b < n :: chains[b] == []
    {
      heads := new Node?[n](_ => null);
      chains := seq(n, _ => []);
    }

    ghost predicate Valid()
      reads this, heads, Nodes(chains)
    {
      AllLinked(heads[..], chains) && Apart(chains, [])
    }

    method Find(b: nat, k: Key) returns (found: Node?)
      requires Valid() && b < |chains|
      ensures FindIn(AllItems(chains)[b], k) == if found == null then None else Some(found.item)
    {
      found := FindNode(heads[b], chains[b], k);
    }

    method Insert(b: nat, n: Node)
      requires Valid() && b < |chains| && forall c | 0 <= c < |chains| :: n !in chains[c]
      modifies `chains, heads, n`hNext
      ensures Valid() && chains == old(chains)[b := [n] + old(chains)[b]]
      ensures AllItems(chains) == old(AllItems(chains))[b := [n.item] + old(AllItems(chains))[b]]
    {
      heads[b] := InsertNode(heads[b], chains[b], n);
      chains := chains[b := [n] + chains[b]];
    }

    method Delete(b: nat, k: Key) returns (victim: Node?)
      requires Valid() && b < |chains|
      modifies `chains, heads, chains[b]`hNext
      ensures Valid() && |chains| == |old(chains)| && chains == old(chains)[b := chains[b]]
      ensures forall n | n in chains[b] :: n in old(chains)[b]
      ensures AllItems(chains) == old(AllItems(chains))[b := RemoveFrom(old(AllItems(chains))[b], k)]
      ensures victim != null <==> FindIn(old(AllItems(chains))[b], k).Some?
    {
      hide RemoveFrom, FindIn, Items;
      ghost var was := chains;
      OthersApart(was, b);
      var first;
      ghost var rest;
      first, victim, rest := DeleteNode(heads[b], chains[b], k);
      heads[b] := first;
      chains := was[b := rest];
      forall c | 0 <= c < |chains| ensures Linked(heads[..][c], chains[c]) {
        if c != b { assert old(Linked(heads[c], chains[c])) && forall n: Node | n in was[c] ::
          n.hNext == old(n.hNext); }
      }
      FewerApart(was, b, rest);
    }
  }

  /** No node is in both arrays. */
  ghost predicate Separate(xs: seq<seq<Node>>, ys: seq<seq<Node>>) {
    forall b, c | 0 <= b < |xs| && 0 <= c < |ys| :: forall n | n in xs[b] :: n !in ys[c]
  }

  lemma SeparateMoved(news: seq<seq<Node>>, moved: seq<seq<Node>>, olds: seq<seq<Node>>, e: nat)
    requires Separate(news, olds) && Apart(olds, []) && e < |olds| && Joining(moved, news, olds[e])
    ensures Separate(moved, olds[e := []])
  {}

  class HashTable {
    const hash: Hash
    var hashpower: nat
    var primary: Buckets
    var prev: Buckets
    var expanding: bool
    var expandBucket: nat

    ghost predicate Ok()
      reads this, primary, primary.heads, Nodes(primary.chains), prev, prev.heads, Nodes(prev.chains)
    {
      && primary.Valid() && Shape(Snapshot())
      && (expanding ==> prev.Valid() && prev != primary && prev.heads != primary.heads)
      && (expanding ==> Separate(primary.chains, prev.chains))
    }

    ghost function Snapshot(): Table
      reads this, primary, prev
    {
      Table(hashpower, AllItems(primary.chains), if expanding then
        AllItems(prev.chains) else [], expanding, expandBucket)
    }

    /** assoc_init */
    constructor (hash: Hash, hashpower: nat)
      ensures Ok() && Snapshot() == Init(hashpower).table && this.hash == hash
    {
      this.hash, this.hashpower := hash, hashpower;
      var empty := new Buckets(Size(hashpower));
      primary, prev, expanding, expandBucket := empty, empty, false, 0;
    }

    /** assoc_find: walk the chain the hash leads to. */
    method AssocFind(k: Key, hv: nat) returns (found: Node?)
      requires Ok() && hv == hash(k)
      ensures Find(Snapshot(), hash, k) == if found == null then None else Some(found.item)
    {
      hide Bucket, Size, Apart, AllLinked, FindIn, Separate;
      if expanding && Bucket(hv, hashpower - 1) >= expandBucket {
        found := prev.Find(Bucket(hv, hashpower - 1), k);
      } else {
        found := primary.Find(Bucket(hv, hashpower), k);
      }
    }

    /** The item is in no bucket. */
    ghost predicate Outside(n: Node)
      reads this, primary, prev
    {
      && (forall b | 0 <= b < |primary.chains| :: n !in primary.chains[b])
      && (expanding ==> forall b | 0 <= b < |prev.chains| :: n !in prev.chains[b])
    }

    /** assoc_insert: the item becomes the head of its chain. */
    method AssocInsert(n: Node, hv: nat)
      requires Ok() && Outside(n) && hv == hash(n.item.key)
      modifies primary`chains, primary.heads, prev`chains, prev.heads, n`hNext
      ensures Ok() && Snapshot() == Insert(old(Snapshot()), hash, n.item)
    {
      hide Bucket, Size, Apart, Items, Linked;
      if expanding && Bucket(hv, hashpower - 1) >= expandBucket {
        prev.Insert(Bucket(hv, hashpower - 1), n);
      } else {
        primary.Insert(Bucket(hv, hashpower), n);
      }
    }
  
    /** assoc_delete: unlink the key's item; the source asserts that it was there. */
    method AssocDelete(k: Key, hv: nat) returns (victim: Node?)
      requires Ok() && hv == hash(k)
      modifies primary`chains, primary.heads, prev`chains, prev.heads, Chain(hv)`hNext
      ensures Ok() && Snapshot() == Delete(old(Snapshot()), hash, k)
      ensures victim != null <==> Find(old(Snapshot()), hash, k).Some?
    {
      hide Bucket, Size, Apart, AllLinked, Items, RemoveFrom, FindIn, Separate;
      if expanding && Bucket(hv, hashpower - 1) >= expandBucket {
        victim := DeletePrev(Bucket(hv, hashpower - 1), k);
      } else {
        victim := DeletePrimary(Bucket(hv, hashpower), k);
      }
    }

    method DeletePrev(b: nat, k: Key) returns (victim: Node?)
      requires Ok() && expanding && b < |prev.chains|
      modifies prev`chains, prev.heads, prev.chains[b]`hNext
      ensures primary.Valid() && prev.Valid() && Separate(primary.chains, prev.chains)
      ensures b < |old(AllItems(prev.chains))|
      ensures AllItems(prev.chains) == old(AllItems(prev.chains))[b := RemoveFrom(old(AllItems(prev.chains))[b], k)]
      ensures victim != null <==> FindIn(old(AllItems(prev.chains))[b], k).Some?
    {
      hide Size, Apart, Items, RemoveFrom, FindIn;
      victim := prev.Delete(b, k);
      assert forall c | 0 <= c < |primary.chains| ::
        forall n: Node | n in primary.chains[c] :: n.hNext == old(n.hNext);
    }

    method DeletePrimary(b: nat, k: Key) returns (victim: Node?)
      requires Ok() && b < |primary.chains|
      modifies primary`chains, primary.heads, primary.chains[b]`hNext
      ensures primary.Valid() && (expanding ==> prev.Valid() && Separate(primary.chains, prev.chains))
      ensures b < |old(AllItems(primary.chains))|
      ensures AllItems(primary.chains) ==
        old(AllItems(primary.chains))[b := RemoveFrom(old(AllItems(primary.chains))[b], k)]
      ensures victim != null <==> FindIn(old(AllItems(primary.chains))[b], k).Some?
    {
      hide Size, Apart, Items, RemoveFrom, FindIn;
      victim := primary.Delete(b, k);
      assert expanding ==> forall c | 0 <= c < |prev.chains| ::
        forall n: Node | n in prev.chains[c] :: n.hNext == old(n.hNext);
    }

    /** The nodes of the bucket a hash leads to. */
    ghost function Chain(hv: nat): seq<Node>
      requires Shape(Snapshot())
      reads this, primary, prev
    {
      if expanding && Bucket(hv, hashpower - 1) >= expandBucket then prev.chains[Bucket(hv, hashpower - 1)]
      else primary.chains[Bucket(hv, hashpower)]
    }

    /** assoc_expand, with the outcome of the allocation. */
    method AssocExpand(gotMemory: bool)
      requires Ok() && !expanding
      modifies this
      ensures Ok() && Snapshot() == Expand(old(Snapshot()), gotMemory)
    {
      prev := primary;
      if gotMemory {
        primary := new Buckets(Size(hashpower + 1));
        hashpower := hashpower + 1;
        expanding, expandBucket := true, 0;
      } else {
        primary := prev;
      }
    }

    /** The bucket move of assoc_maintenance_thread. */
    method MoveOneBucket()
      requires Ok() && expanding
      modifies this, primary`chains, primary.heads, prev`chains, prev.heads, prev.chains[expandBucket]`hNext
      ensures Ok() && Snapshot() == Move(old(Snapshot()), hash)
    {
      hide Bucket, Scatter, Items, Apart, Size, AllLinked, Separate;
      ghost var s := Snapshot();
      assert s.expandBucket < Size(hashpower - 1) && |AllItems(prev.chains)| == |prev.chains|;
      MoveChain();
      assert AllItems(primary.chains) == Scatter(s.primary, hash, hashpower, s.prev[expandBucket]);
      assert AllItems(prev.chains) == s.prev[expandBucket := []];
      PassBucket();
    }

    /** The frontier moves on, and the expansion ends behind the last bucket. */
    method PassBucket()
      requires hashpower > 0 && primary.Valid() && prev.Valid()
      modifies `expandBucket, `expanding
      ensures primary.Valid() && prev.Valid() && expandBucket == old(expandBucket) + 1
      ensures expanding == (old(expanding) && expandBucket != Size(hashpower - 1))
    {
      hide Size, Apart;
      expandBucket := expandBucket + 1;
      if expandBucket == Size(hashpower - 1) {
        expanding := false;
      }
    }

    method MoveChain()
      requires Ok() && expanding
      modifies primary`chains, primary.heads, prev`chains, prev.heads, prev.chains[expandBucket]`hNext
      ensures primary.Valid() && prev.Valid() && Separate(primary.chains, prev.chains)
      ensures AllItems(primary.chains) ==
        Scatter(old(AllItems(primary.chains)), hash, hashpower, old(AllItems(prev.chains)[expandBucket]))
      ensures AllItems(prev.chains) == old(AllItems(prev.chains))[expandBucket := []]
    {
      hide Bucket, Size, Scatter;
      var e := expandBucket;
      ghost var olds, news := prev.chains, primary.chains;
      OthersApart(olds, e);
      ghost var moved := MoveNodes(prev.heads[e], olds[e], primary.heads, news, hash, hashpower);
      SeparateMoved(news, moved, olds, e);
      FewerApart(olds, e, []);
      primary.chains := moved;
      prev.heads[e] := null;
      prev.chains := olds[e := []];
      forall c | 0 <= c < |olds| ensures Linked(prev.heads[..][c], prev.chains[c]) {
        if c != e {
          assert old(Linked(prev.heads[c], prev.chains[c])) && forall n: Node | n in olds[c] :: n.hNext == old(n.hNext);
        }
      }
    }
  }
}

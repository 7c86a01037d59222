/** The buckets of assoc.c as they are in memory: items linked by `h_next`. Each
    operation on the links is proved to do to the chain what Assoc says.
 */
module AssocChains {
  import opened Assoc
  import opened Options
  import opened Sequences

  class Node {
    const item: Item
    var hNext: Node?

    constructor (item: Item)
      ensures this.item == item
    {
      this.item, hNext := item, null;
    }
  }

  /** From `head` the links lead over exactly these nodes. */
  ghost predicate Linked(head: Node?, nodes: seq<Node>)
    reads nodes
  {
    && (nodes == [] ==> head == null)
    && (nodes != [] ==> head == nodes[0] && nodes[|nodes| - 1].hNext == null)
    && (forall i, j | 0 <= i < j < |nodes| :: nodes[i] != nodes[j])
    && (forall i | 0 <= i < |nodes| - 1 :: nodes[i].hNext == nodes[i + 1])
  }

  ghost function Items(nodes: seq<Node>): Chain {
    seq(|nodes|, i requires 0 <= i < |nodes| => nodes[i].item)
  }

  /** The walk of assoc_find. */
  method FindNode(head: Node?, ghost nodes: seq<Node>, k: Key) returns (found: Node?)
    requires Linked(head, nodes)
    ensures FindIn(Items(nodes), k) == if found == null then None else Some(found.item)
    ensures found != null ==> found in nodes
  {
    found := head;
    ghost var i := 0;
    while found != null && found.item.key != k
      invariant i <= |nodes| && found == (if i < |nodes| then nodes[i] else null)
      invariant FindIn(Items(nodes)[i..], k) == FindIn(Items(nodes), k)
      decreases |nodes| - i
    {
      assert Items(nodes)[i..][1..] == Items(nodes)[i + 1..];
      found, i := found.hNext, i + 1;
    }
  }

  /** assoc_insert on one bucket. */
  method InsertNode(head: Node?, ghost nodes: seq<Node>, n: Node) returns (first: Node)
    requires Linked(head, nodes) && n !in nodes
    modifies n`hNext
    ensures Linked(first, [n] + nodes) && Items([n] + nodes) == [n.item] + Items(nodes)
  {
    n.hNext := head;
    first := n;
  }

  /** _hashitem_before: the node whose link leads to the key's item, null for the bucket
      itself, and that item. */
  method NodeBefore(head: Node?, ghost nodes: seq<Node>, k: Key)
    returns (before: Node?, victim: Node?, ghost i: nat)
    requires Linked(head, nodes)
    ensures i <= |nodes| && victim == (if i < |nodes| then nodes[i] else null)
    ensures before == if i == 0 then null else nodes[i - 1]
    ensures victim != null ==> victim.item.key == k
    ensures victim != null <==> FindIn(Items(nodes), k).Some?
    ensures RemoveFrom(Items(nodes), k) == Items(if i < |nodes| then Without(nodes, i) else nodes)
  {
    ghost var c := Items(nodes);
    before, victim, i := null, head, 0;
    while victim != null && victim.item.key != k
      invariant i <= |nodes| && victim == (if i < |nodes| then nodes[i] else null)
      invariant before == if i == 0 then null else nodes[i - 1]
      invariant FindIn(c[i..], k) == FindIn(c, k) && RemoveFrom(c, k) == c[..i] + RemoveFrom(c[i..], k)
      decreases |nodes| - i
    {
      RemoveNext(c, i, k);
      before, victim, i := victim, victim.hNext, i + 1;
    }
    if victim == null { assert c[..i] + [] == c; } else { RemoveHere(nodes, i, k); }
  }

  lemma RemoveNext(c: Chain, i: nat, k: Key)
    requires i < |c| && c[i].key != k && RemoveFrom(c, k) == c[..i] + RemoveFrom(c[i..], k)
    ensures FindIn(c[i..], k) == FindIn(c[i + 1..], k) && RemoveFrom(c, k) == c[..i + 1] + RemoveFrom(c[i + 1..], k)
  {
    assert c[i..][1..] == c[i + 1..];
    assert c[..i] + ([c[i]] + RemoveFrom(c[i + 1..], k)) == c[..i + 1] + RemoveFrom(c[i + 1..], k);
  }

  lemma RemoveHere(nodes: seq<Node>, i: nat, k: Key)
    requires i < |nodes| && nodes[i].item.key == k
    requires RemoveFrom(Items(nodes), k) == Items(nodes)[..i] + RemoveFrom(Items(nodes)[i..], k)
    ensures RemoveFrom(Items(nodes), k) == Items(Without(nodes, i)) && FindIn(Items(nodes)[i..], k).Some?
  {
    var c := Items(nodes);
    assert c[i..][1..] == c[i + 1..];
    assert Items(Without(nodes, i)) == c[..i] + c[i + 1..];
  }

  /** assoc_delete on one bucket: the link before the item is led around it. */
  method DeleteNode(head: Node?, ghost nodes: seq<Node>, k: Key)
    returns (first: Node?, victim: Node?, ghost rest: seq<Node>)
    requires Linked(head, nodes)
    modifies nodes`hNext
    ensures Linked(first, rest) && Items(rest) == RemoveFrom(Items(nodes), k) && forall n | n in rest :: n in nodes
    ensures victim != null <==> FindIn(Items(nodes), k).Some?
    ensures victim != null ==> victim in nodes && victim !in rest && victim.item.key == k && victim.hNext == null
  {
    hide RemoveFrom, FindIn, Items, Linked, Without;
    var before;
    ghost var i;
    before, victim, i := NodeBefore(head, nodes, k);
    first, rest := head, nodes;
    if victim != null {
      first := LeadAround(head, nodes, before, victim, i);
      rest := Without(nodes, i);
      WithoutFewer(nodes, i);
    }
  }

  lemma WithoutFewer(nodes: seq<Node>, i: nat)
    requires i < |nodes|
    ensures forall n | n in Without(nodes, i) :: n in nodes
  {}

  method LeadAround(head: Node?, ghost nodes: seq<Node>, before: Node?, victim: Node, ghost i: nat)
    returns (first: Node?)
    requires Linked(head, nodes) && i < |nodes| && victim == nodes[i]
    requires before == if i == 0 then null else nodes[i - 1]
    modifies nodes`hNext
    ensures Linked(first, Without(nodes, i)) && victim in nodes && victim !in Without(nodes, i) && victim.hNext == null
  {
    assert i + 1 < |nodes| ==> victim.hNext == nodes[i + 1];
    var next := victim.hNext;
    victim.hNext := null;
    if before == null { return next; }
    before.hNext := next;
    return head;
  }

  // ---- Moving a bucket --------------------------------------------------------------

  ghost function AllItems(chains: seq<seq<Node>>): seq<Chain> {
    seq(|chains|, b requires 0 <= b < |chains| => Items(chains[b]))
  }

  ghost function Nodes(chains: seq<seq<Node>>): (ns: set<Node>)
    ensures forall b | 0 <= b < |chains| :: forall n | n in chains[b] :: n in ns
  {
    if chains == [] then {} else
      assert forall b | 0 < b < |chains| :: chains[b] == chains[1..][b - 1];
      (set n | n in chains[0]) + Nodes(chains[1..])
  }

  ghost predicate AllLinked(heads: seq<Node?>, chains: seq<seq<Node>>)
    reads Nodes(chains)
  {
    |heads| == |chains| && forall b | 0 <= b < |chains| :: Linked(heads[b], chains[b])
  }

  /** No node is in two buckets, or in a bucket and among those still to move. */
  ghost predicate Apart(chains: seq<seq<Node>>, rest: seq<Node>) {
    && (forall b | 0 <= b < |chains| :: forall n | n in chains[b] :: n !in rest)
    && (forall b, c | 0 <= b < |chains| && 0 <= c < |chains| && b != c :: forall n | n in chains[b] :: n !in chains[c])
  }

  /** Only these nodes have come into the buckets. */
  ghost predicate Joining(moved: seq<seq<Node>>, chains: seq<seq<Node>>, nodes: seq<Node>) {
    |moved| == |chains| && forall b | 0 <= b < |moved| :: forall n | n in moved[b] :: n in chains[b] || n in nodes
  }

  /** One node becomes the head of bucket `b`. */
  method MoveNode(it: Node, ghost rest: seq<Node>, heads: array<Node?>, ghost chains: seq<seq<Node>>, b: nat)
    returns (next: Node?, ghost moved: seq<seq<Node>>)
    requires rest != [] && Linked(it, rest) && b < heads.Length && AllLinked(heads[..], chains) && Apart(chains, rest)
    modifies heads, it`hNext
    ensures moved == chains[b := [it] + chains[b]] && Linked(next, rest[1..])
    ensures AllLinked(heads[..], moved) && Apart(moved, rest[1..])
    ensures AllItems(moved) == AllItems(chains)[b := [it.item] + AllItems(chains)[b]]
  {
    next := it.hNext;
    ghost var first := heads[b];
    it.hNext := heads[b];
    heads[b] := it;
    moved := chains[b := [it] + chains[b]];
    assert it == rest[0];
    forall c | 0 <= c < |moved| ensures Linked(heads[..][c], moved[c]) {
      assert it !in chains[c];
    }
    assert Items([it] + chains[b]) == [it.item] + Items(chains[b]);
  }

  /** The loop of assoc_maintenance_thread over one old bucket. */
  method MoveNodes(head: Node?, ghost nodes: seq<Node>, heads: array<Node?>, ghost chains: seq<seq<Node>>,
        hash: Hash, n: nat)
    returns (ghost moved: seq<seq<Node>>)
    requires heads.Length == |chains| == Size(n)
    requires Linked(head, nodes) && AllLinked(heads[..], chains) && Apart(chains, nodes)
    modifies heads, nodes`hNext
    ensures |moved| == Size(n) && AllLinked(heads[..], moved) && Apart(moved, [])
    ensures AllItems(moved) == Scatter(AllItems(chains), hash, n, Items(nodes))
    ensures Joining(moved, chains, nodes)
  {
    hide Linked, AllLinked, Apart;
    var it := head;
    ghost var rest := nodes;
    moved := chains;
    while it != null
      invariant |moved| == Size(n) && Linked(it, rest) && AllLinked(heads[..], moved) && Apart(moved, rest)
      invariant Scatter(AllItems(moved), hash, n, Items(rest)) == Scatter(AllItems(chains), hash, n, Items(nodes))
      invariant Joining(moved, chains, nodes)
      invariant forall x | x in rest :: x in nodes
      decreases rest
    {
      HeadOf(it, rest);
      assert it in rest;
      assert Items(rest)[1..] == Items(rest[1..]);
      it, moved := MoveNode(it, rest, heads, moved, Bucket(hash(it.item.key), n));
      rest := rest[1..];
    }
    HeadOf(it, rest);
  }

  lemma HeadOf(head: Node?, nodes: seq<Node>)
    requires Linked(head, nodes)
    ensures head == if nodes == [] then null else nodes[0]
  {}
}

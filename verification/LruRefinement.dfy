/**
 * The linked queues of LruQueue stand for the lists of addresses in LruPull: linking,
 * unlinking, the tail, the way from an item to the one before it, and the two counts.
 */
module LruRefinement {
  import Lists = LruQueue
  import opened Options
  import opened Sequences
  import Tail = LruPull

  type Info = map<Tail.Id, Tail.Info>

  /** A node is the item at address `x`. */
  ghost predicate Named(name: map<Lists.Node, Tail.Id>, info: Info, n: Lists.Node, x: Tail.Id) {
    n in name && name[n] == x && x in info && info[x].bytes == n.bytes && info[x].crawler == n.crawler
  }

  /** The nodes of a linked queue are the items of a list, in the same order. */
  ghost predicate Stands(name: map<Lists.Node, Tail.Id>, info: Info, nodes: seq<Lists.Node>, q: seq<Tail.Id>) {
    |nodes| == |q| && forall i | 0 <= i < |q| :: Named(name, info, nodes[i], q[i])
  }

  lemma {:induction false} CountsAgree(name: map<Lists.Node, Tail.Id>, info: Info, nodes: seq<Lists.Node>,
        q: seq<Tail.Id>)
    requires Stands(name, info, nodes, q)
    ensures |Lists.Real(nodes)| == Tail.Count(info, q) && Lists.Total(nodes) == Tail.Total(info, q)
  {
    if q != [] {
      assert Named(name, info, nodes[0], q[0]);
      CountsAgree(name, info, nodes[1..], q[1..]);
    }
  }

  /** So the counts kept beside a linked queue are those of the list. */
  lemma SizesAgree(queue: Lists.Queue, name: map<Lists.Node, Tail.Id>, s: Tail.State, q: Tail.Qid)
    requires queue.Valid() && Tail.Counted(s) && Stands(name, s.info, queue.list, Tail.Q(s, q))
    ensures queue.size == Tail.Size(s, q) && queue.sizeBytes == Tail.Bytes(s, q)
  {
    CountsAgree(name, s.info, queue.list, Tail.Q(s, q));
  }

  /** What Queue.LinkQ leaves stands for what do_item_link_q does to the list. */
  lemma LinkRefines(name: map<Lists.Node, Tail.Id>, s: Tail.State, nodes: seq<Lists.Node>, n: Lists.Node, x: Tail.Id)
    requires Stands(name, s.info, nodes, Tail.Q(s, Tail.Where(s, x))) && Named(name, s.info, n, x)
    ensures Stands(name, s.info, [n] + nodes, Tail.Q(Tail.LinkQ(s, x), Tail.Where(s, x)))
  {}

  /** What Queue.UnlinkQ leaves stands for what do_item_unlink_q does to the list. */
  lemma UnlinkRefines(name: map<Lists.Node, Tail.Id>, s: Tail.State, nodes: seq<Lists.Node>, k: nat, x: Tail.Id)
    requires Stands(name, s.info, nodes, Tail.Q(s, Tail.Where(s, x))) && Distinct(Tail.Q(s, Tail.Where(s, x)))
    requires k < |nodes| && Named(name, s.info, nodes[k], x)
    ensures Stands(name, s.info, Without(nodes, k), Tail.Q(Tail.UnlinkQ(s, x), Tail.Where(s, x)))
  {
    var q := Tail.Q(s, Tail.Where(s, x));
    assert Named(name, s.info, nodes[k], q[k]);
    RemoveAt(q, k);
    var rest, left := Without(nodes, k), Without(q, k);
    forall i | 0 <= i < |left| ensures Named(name, s.info, rest[i], left[i]) {
      var j := if i < k then i else i + 1;
      assert rest[i] == nodes[j] && left[i] == q[j];
    }
  }

  /** The walk of lru_pull_tail: it starts at the tail and goes on at `prev`. */
  lemma WalkRefines(queue: Lists.Queue, name: map<Lists.Node, Tail.Id>, info: Info, q: seq<Tail.Id>, k: nat)
    requires queue.Linked() && Stands(name, info, queue.list, q) && Distinct(q)
    ensures q == [] <==> queue.tail == null
    ensures queue.tail != null ==> queue.tail in name && name[queue.tail] == q[|q| - 1]
    ensures k < |q| ==>
      var p := queue.list[k].prev;
      Tail.Prev(q, q[k]) == if p != null && p in name then Some(name[p]) else None
  {
    if q != [] { assert Named(name, info, queue.list[|q| - 1], q[|q| - 1]); }
    if k < |q| {
      queue.Neighbours(k);
      assert Index(q, q[k]) == k;
      if k > 0 { assert Named(name, info, queue.list[k - 1], q[k - 1]); }
    }
  }
}

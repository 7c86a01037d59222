/**
 * The doubly linked LRU queues of items.c, with the operations the LRU crawler
 * adds: its pseudo item is put at the tail and moves towards the head by changing
 * places with the item before it.
 */
module LruQueue {
  import opened Sequences

  /** An item, or the crawler's pseudo item, by its links and its accounted size. */
  class Node {
    const crawler: bool
    const bytes: nat
    var prev: Node?
    var next: Node?

    constructor (crawler: bool, bytes: nat)
      ensures this.crawler == crawler && this.bytes == bytes && prev == null && next == null
    {
      this.crawler, this.bytes, prev, next := crawler, bytes, null, null;
    }
  }

  /** The items of a queue without the crawler. */
  ghost function Real(s: seq<Node>): seq<Node> {
    if s == [] then [] else (if s[0].crawler then [] else [s[0]]) + Real(s[1..])
  }

  ghost function Total(s: seq<Node>): nat {
    if s == [] then 0 else (if s[0].crawler then 0 else s[0].bytes) + Total(s[1..])
  }

  lemma {:induction false} RealCat(a: seq<Node>, b: seq<Node>)
    ensures Real(a + b) == Real(a) + Real(b)
  {
    hide Real;
    if a == [] {
      assert a + b == b;
      RealNone();
    } else {
      RealCat(a[1..], b);
      assert (a + b)[1..] == a[1..] + b;
      RealFirst(a);
      RealFirst(a + b);
      var first := if a[0].crawler then [] else [a[0]];
      assert first + (Real(a[1..]) + Real(b)) == first + Real(a[1..]) + Real(b);
    }
  }

  lemma RealFirst(s: seq<Node>)
    requires s != []
    ensures Real(s) == (if s[0].crawler then [] else [s[0]]) + Real(s[1..])
  {}

  lemma RealNone()
    ensures Real([]) == []
  {}

  lemma {:induction false} TotalCat(a: seq<Node>, b: seq<Node>)
    ensures Total(a + b) == Total(a) + Total(b)
  {
    if a == [] {
      assert a + b == b;
    } else {
      TotalCat(a[1..], b);
      assert (a + b)[1..] == a[1..] + b;
    }
  }

  /** Both counts of two queues put together. */
  lemma CountCat(a: seq<Node>, b: seq<Node>)
    ensures Real(a + b) == Real(a) + Real(b) && Total(a + b) == Total(a) + Total(b)
  {
    RealCat(a, b);
    TotalCat(a, b);
  }

  lemma RealOne(x: Node)
    ensures Real([x]) == (if x.crawler then [] else [x]) && Total([x]) == if x.crawler then 0 else x.bytes
  {
    assert [x][1..] == [];
  }

  lemma RealWithout(s: seq<Node>, k: nat)
    requires k < |s|
    ensures s[k].crawler ==> Real(Without(s, k)) == Real(s) && Total(Without(s, k)) == Total(s)
    ensures !s[k].crawler ==> |Real(Without(s, k))| == |Real(s)| - 1 && Total(Without(s, k)) == Total(s) - s[k].bytes
  {
    hide Real, Total;
    assert s == s[..k] + ([s[k]] + s[k + 1..]);
    CountCat(s[..k], [s[k]] + s[k + 1..]);
    CountCat([s[k]], s[k + 1..]);
    RealOne(s[k]);
    CountCat(s[..k], s[k + 1..]);
  }

  /** The crawler changes places with the node before it. */
  ghost function Swapped(s: seq<Node>, k: nat): seq<Node>
    requires 0 < k < |s|
  {
    s[..k - 1] + [s[k], s[k - 1]] + s[k + 1..]
  }

  /** That does not reorder the real items. */
  lemma RealSwapped(s: seq<Node>, k: nat)
    requires 0 < k < |s| && s[k].crawler
    ensures Real(Swapped(s, k)) == Real(s) && Total(Swapped(s, k)) == Total(s)
  {
    hide Real, Total;
    RealWithout(s, k);
    var t := Swapped(s, k);
    RealWithout(t, k - 1);
    assert Without(t, k - 1) == Without(s, k);
  }

  lemma OthersDiffer(s: seq<Node>, k: nat)
    requires Distinct(s) && k < |s|
    ensures s[k] in s && forall i | 0 <= i < |s| && i != k :: s[i] != s[k]
  {}

  lemma WithoutDistinct(s: seq<Node>, k: nat)
    requires Distinct(s) && k < |s|
    ensures Distinct(Without(s, k)) && s[k] !in Without(s, k)
  {}

  lemma InsertDistinct(s: seq<Node>, k: nat, x: Node)
    requires Distinct(s) && k <= |s| && x !in s
    ensures Distinct(s[..k] + [x] + s[k..])
  {}

  /** Links that lead around one node lead over the list without it. */
  lemma Rejoined(l: seq<Node>, k: nat)
    requires k < |l|
    requires forall i, j | 0 <= i < j < |l| && j == i + 1 && i != k && j != k ::
      l[i].next == l[j] && l[j].prev == l[i]
    requires 0 < k < |l| - 1 ==> l[k - 1].next == l[k + 1] && l[k + 1].prev == l[k - 1]
    ensures var s := Without(l, k);
      forall i, j | 0 <= i < j < |s| && j == i + 1 :: s[i].next == s[j] && s[j].prev == s[i]
  {
    hide Without;
    var s := Without(l, k);
    forall i, j | 0 <= i < j < |s| && j == i + 1 ensures s[i].next == s[j] && s[j].prev == s[i] {
      WithoutAt(l, k, i);
      WithoutAt(l, k, j);
    }
  }

  lemma WithoutAt(s: seq<Node>, k: nat, i: nat)
    requires k < |s|
    ensures |Without(s, k)| == |s| - 1
    ensures i < |s| - 1 ==> Without(s, k)[i] == if i < k then s[i] else s[i + 1]
  {}

  class Queue {
    var head: Node?
    var tail: Node?
    var size: int
    var sizeBytes: int
    ghost var list: seq<Node>

    constructor ()
      ensures Valid() && list == []
    {
      head, tail, size, sizeBytes, list := null, null, 0, 0, [];
    }

    ghost predicate Linked()
      reads `head, `tail, `list, list`prev, list`next
    {
      && (list == [] ==> head == null && tail == null)
      && (list != [] ==> head == list[0] && list[0].prev == null)
      && (list != [] ==> tail == list[|list| - 1] && list[|list| - 1].next == null)
      && Distinct(list)
      && (forall i, j | 0 <= i < j < |list| && j == i + 1 :: list[i].next == list[j] && list[j].prev == list[i])
    }

    ghost predicate Valid()
      reads this, list
    {
      Linked() && size == |Real(list)| && sizeBytes == Total(list)
    }

    /** The links of one node, by its place in the queue. */
    lemma Neighbours(k: nat)
      requires Linked() && k < |list|
      ensures list[k].prev == (if k == 0 then null else list[k - 1])
      ensures list[k].next == (if k == |list| - 1 then null else list[k + 1])
      ensures (head == list[k] <==> k == 0) && (tail == list[k] <==> k == |list| - 1)
    {
      if k > 0 { assert list[k - 1 + 1].prev == list[k - 1]; }
    }

    /** do_item_link_q */
    method LinkQ(it: Node)
      requires Valid() && it !in list && !it.crawler
      modifies this, it`prev, it`next, list`prev
      ensures Valid() && list == [it] + old(list)
      ensures size == old(size) + 1 && sizeBytes == old(sizeBytes) + it.bytes
    {
      hide Real, Total, Linked;
      LinkHead(it);
      CountCat([it], old(list));
      RealOne(it);
      size := size + 1;
      sizeBytes := sizeBytes + it.bytes;
    }

    method LinkHead(it: Node)
      requires Linked() && it !in list
      modifies `head, `tail, `list, it`prev, it`next, list`prev
      ensures Linked() && list == [it] + old(list)
    {
      assert list != [] ==> head == list[0] && list[0] in list;
      it.prev := null;
      it.next := head;
      if it.next != null { it.next.prev := it; }
      head := it;
      if tail == null { tail := it; }
      list := [it] + list;
    }

    /** The crawler has left the queue at its head but still points into it. */
    ghost predicate HalfOff(it: Node)
      reads this, list, it
    {
      it !in list && it.prev == null && it.next == head && list != []
    }

    /** The nodes before and behind are linked to each other. */
    static method Join(p: Node?, n: Node?)
      modifies (if p == null then {} else {p})`next, (if n == null then {} else {n})`prev
      ensures (n != null ==> n.prev == p) && (p != null ==> p.next == n)
    {
      if n != null { n.prev := p; }
      if p != null { p.next := n; }
    }

    /** The links of do_item_unlink_q and of do_item_unlinktail_q. */
    method Unlink(it: Node, ghost k: nat)
      requires Linked() && (if k < |list| then it == list[k] else HalfOff(it))
      modifies `head, `tail, `list, list`prev, list`next
      ensures Linked() && list == if k < |old(list)| then Without(old(list), k) else old(list)
    {
      hide Distinct, Without;
      if k < |list| {
        Neighbours(k);
        OthersDiffer(list, k);
        WithoutDistinct(list, k);
        if k + 1 < |list| { OthersDiffer(list, k + 1); }
        if k > 0 { OthersDiffer(list, k - 1); }
      } else {
        OthersDiffer(list, 0);
        assert list[|list| - 1] in list;
      }
      if head == it { head := it.next; }
      if tail == it { tail := it.prev; }
      Join(it.prev, it.next);
      ghost var l := list;
      list := if k < |l| then Without(l, k) else l;
      if k < |l| {
        WithoutAt(l, k, 0);
        if |l| > 1 { WithoutAt(l, k, |l| - 2); }
      }
      if k < |l| { Rejoined(l, k); }
    }

    /** do_item_unlink_q */
    method UnlinkQ(it: Node, ghost k: nat)
      requires Valid() && k < |list| && it == list[k] && !it.crawler
      modifies this, list`prev, list`next
      ensures Valid() && list == Without(old(list), k)
      ensures size == old(size) - 1 && sizeBytes == old(sizeBytes) - it.bytes
    {
      hide Real, Total, Linked;
      RealWithout(list, k);
      Unlink(it, k);
      size := size - 1;
      sizeBytes := sizeBytes - it.bytes;
    }

    /** do_item_linktail_q */
    method LinkTail(it: Node)
      requires Valid() && it !in list && it.crawler
      modifies `head, `tail, `list, it`prev, it`next, list`next
      ensures Valid() && list == old(list) + [it] && Real(list) == Real(old(list))
    {
      CountCat(list, [it]);
      RealOne(it);
      assert list != [] ==> tail == list[|list| - 1] && list[|list| - 1] in list;
      it.prev := tail;
      it.next := null;
      if it.prev != null { it.prev.next := it; }
      tail := it;
      if head == null { head := it; }
      list := list + [it];
    }

    /** do_item_unlinktail_q of the crawler, on the queue or half off it. */
    method UnlinkTail(it: Node, ghost k: nat)
      requires Valid() && it.crawler && (if k < |list| then it == list[k] else HalfOff(it))
      modifies `head, `tail, `list, list`prev, list`next
      ensures Valid() && it !in list
      ensures list == if k < |old(list)| then Without(old(list), k) else old(list)
      ensures Real(list) == Real(old(list))
    {
      hide Real, Total;
      if k < |list| { RealWithout(list, k); WithoutDistinct(list, k); }
      Unlink(it, k);
    }

    /** First half of the swap: the node before and the node behind are joined. */
    method StepOut(it: Node, p: Node, ghost k: nat)
      requires Linked() && 0 < k < |list| && it == list[k] && p == list[k - 1]
      modifies `tail, `list, list`prev, list`next
      ensures Linked() && list == Without(old(list), k)
    {
      assert k + 1 < |list| ==> it.next == list[k + 1] && list[k + 1] in list;
      assert k == |list| - 1 ==> it.next == null;
      assert p in list;
      if tail == it { tail := p; }
      if it.next != null {
        p.next := it.next;
        it.next.prev := p;
      } else {
        p.next := null;
      }
      list := list[..k] + list[k + 1..];
    }

    /** Second half: the crawler is put in front of that node. */
    method StepIn(it: Node, p: Node, ghost k: nat)
      requires Linked() && k < |list| && p == list[k] && it !in list
      modifies `head, `list, list`prev, list`next, it`prev, it`next
      ensures Linked() && list == old(list)[..k] + [it] + old(list)[k..]
    {
      Neighbours(k);
      OthersDiffer(list, k);
      if k > 0 { OthersDiffer(list, k - 1); }
      InsertDistinct(list, k, it);
      hide Distinct;
      if head == p { head := it; }
      it.next := p;
      it.prev := p.prev;
      p.prev := it;
      if it.prev != null { it.prev.next := it; }
      ghost var l := list;
      list := l[..k] + [it] + l[k..];
      forall i, j | 0 <= i < j < |list| && j == i + 1 ensures list[i].next == list[j] && list[j].prev == list[i] {
        if j < k {
          assert list[i] == l[i] && list[j] == l[j];
        } else if i > k {
          assert list[i] == l[i - 1] && list[j] == l[j - 1];
        }
      }
    }

    /** The crawler changes places with the node before it. */
    method SwapUp(it: Node, ghost k: nat)
      requires Linked() && 0 < k < |list| && it == list[k]
      modifies `head, `tail, `list, list`prev, list`next
      ensures Linked() && list == Swapped(old(list), k)
    {
      Neighbours(k);
      var p := it.prev;
      StepOut(it, p, k);
      StepIn(it, p, k - 1);
    }

    /** do_item_crawl_q */
    method CrawlQ(it: Node, ghost k: nat) returns (search: Node?)
      requires Valid() && k < |list| && it == list[k] && it.crawler
      modifies `head, `tail, `list, list`prev, list`next
      ensures Valid() && Real(list) == Real(old(list))
      ensures k > 0 ==> search == old(list)[k - 1] && list == Swapped(old(list), k)
      ensures k == 0 ==> search == null
      ensures k == 0 && |old(list)| == 1 ==> list == old(list)
      ensures k == 0 && |old(list)| > 1 ==> list == old(list)[1..] && HalfOff(it)
    {
      assert k > 0 ==> list[k - 1 + 1].prev == list[k - 1];
      if it.prev == null {
        Pop(it);
        return null;
      }
      RealSwapped(list, k);
      SwapUp(it, k);
      assert list[k - 1].next == list[k];
      return it.next;
    }

    /** At the head of the queue the crawler leaves it, unless it is alone. */
    method Pop(it: Node)
      requires Valid() && list != [] && it == list[0] && it.crawler
      modifies `head, `list, list`prev
      ensures Valid() && Real(list) == Real(old(list))
      ensures |old(list)| == 1 ==> list == old(list)
      ensures |old(list)| > 1 ==> list == old(list)[1..] && HalfOff(it)
    {
      hide Real, Total, Linked;
      RealWithout(list, 0);
      assert Without(list, 0) == list[1..];
      Neighbours(0);
      if it.next != null { PopHead(it); }
    }

    method PopHead(it: Node)
      requires Linked() && |list| > 1 && it == list[0] && it.next == list[1]
      modifies `head, `list, list`prev
      ensures Linked() && list == old(list)[1..] && HalfOff(it)
    {
      assert list[1] in list;
      head := it.next;
      it.next.prev := null;
      list := list[1..];
    }
  }
}

/** The bucket walker of assoc.c, beside other threads.

    The walker holds the maintenance lock, so the table does not expand, and
    one item lock at a time. Between its calls other threads may do anything to
    the buckets of other locks, and the walker's owner may unlink the item it
    was just given. A walk still returns every item that stays linked exactly
    once.
 */
module AssocIterator {
  import opened Arithmetic
  import opened Assoc
  import opened AssocChains
  import opened AssocTable
  import opened Options
  import opened Sequences

  /** struct assoc_iterator */
  datatype Iter = Iter(bucket: nat, locked: bool, it: Option<Item>, next: Option<Item>)

  /** The buckets, the walker, the item locks it holds, and the items it has returned.
      `seen` is a history variable: the chains it found when it took their locks. */
  datatype Walk = Walk(buckets: seq<Chain>, iter: Iter, held: seq<nat>, seen: seq<Chain>, returned: seq<Item>,
    done: bool)

  /** `lockpower` is the number of hash bits that pick an item lock. */
  datatype Setting = Setting(hash: Hash, hashpower: nat, lockpower: nat)

  function LockOf(g: Setting, bucket: nat): nat { Bucket(bucket, g.lockpower) }

  // ---- Positions in a chain --------------------------------------------------------

  /** `it->h_next` */
  function After(c: Chain, it: Item): Option<Item> {
    if Index(c, it) + 1 < |c| then Some(c[Index(c, it) + 1]) else None
  }

  lemma IndexUnique(c: Chain, i: nat)
    requires Distinct(c) && i < |c|
    ensures Index(c, c[i]) == i
  {
    assert c[Index(c, c[i])] == c[i];
  }

  /** Every bucket holds only its own items, each once. */
  ghost predicate Placed(g: Setting, bs: seq<Chain>) {
    && |bs| == Size(g.hashpower)
    && (forall b | 0 <= b < |bs| :: Distinct(bs[b]))
    && (forall b, it | 0 <= b < |bs| && it in bs[b] :: Bucket(g.hash(it.key), g.hashpower) == b)
  }

  function Home(g: Setting, x: Item): nat { Bucket(g.hash(x.key), g.hashpower) }

  // ---- Steps ---------------------------------------------------------------------------

  function Lock(held: seq<nat>, l: nat): seq<nat> { held + [l] }

  function Unlock(held: seq<nat>, l: nat): seq<nat> {
    if |held| > 0 && held[|held| - 1] == l then held[..|held| - 1] else held
  }

  /** assoc_iterate: one call. */
  function Iterate(g: Setting, w: Walk): Walk
    requires |w.buckets| == Size(g.hashpower) && w.iter.bucket <= |w.buckets|
    requires w.iter.locked ==> w.iter.bucket < |w.buckets|
  {
    var i := w.iter;
    if i.locked then
      if i.next.Some? then
        var it := i.next.value;
        w.(iter := i.(it := Some(it), next := After(w.buckets[i.bucket], it)), returned := w.returned + [it])
      else
        w.(iter := i.(bucket := i.bucket + 1, locked := false), held := Unlock(w.held, LockOf(g, i.bucket)))
    else if i.bucket != |w.buckets| then
      var c := w.buckets[i.bucket];
      var held := Lock(w.held, LockOf(g, i.bucket));
      if c != [] then
        w.(iter := i.(locked := true, it := Some(c[0]), next := After(c, c[0])), held := held, seen := w.seen + [c],
           returned := w.returned + [c[0]])
      else
        w.(iter := i.(bucket := i.bucket + 1, it := None), held := Unlock(held, LockOf(g, i.bucket)),
          seen := w.seen + [c])
    else w.(done := true)
  }

  /** assoc_iterate_final */
  function Final(g: Setting, w: Walk): Walk {
    if w.iter.locked then w.(held := Unlock(w.held, LockOf(g, w.iter.bucket)), iter := w.iter.(locked := false)) else w
  }

  datatype Event =
    | Call                          // the walker asks for the next item
    | Interfere(b: nat, c: Chain)   // another thread rewrites a bucket whose lock is free
    | UnlinkReturned                // the walker unlinks the item it was given

  ghost predicate Enabled(g: Setting, w: Walk, e: Event) {
    match e
    case Call => !w.done
    case Interfere(b, c) =>
      && b < |w.buckets| && LockOf(g, b) !in w.held
      && Placed(g, w.buckets[b := c])
    case UnlinkReturned => w.iter.locked && w.iter.it.Some? && w.iter.bucket < |w.buckets|
  }

  ghost function Next(g: Setting, w: Walk, e: Event): Walk
    requires Inv(g, w) && Enabled(g, w, e)
  {
    match e
    case Call => Iterate(g, w)
    case Interfere(b, c) => w.(buckets := w.buckets[b := c])
    case UnlinkReturned =>
      w.(buckets := w.buckets[w.iter.bucket := Remove(w.buckets[w.iter.bucket], w.iter.it.value)])
  }

  // ---- The invariant -----------------------------------------------------------------------

  /** The chain from an item on. */
  function From(c: Chain, next: Option<Item>): Chain {
    if next.Some? then c[Index(c, next.value)..] else []
  }

  /** The items of the locked bucket still to be returned. */
  function Rest(w: Walk): Chain
    requires w.iter.bucket <= |w.buckets|
  {
    if w.iter.locked && w.iter.bucket < |w.buckets| then From(w.buckets[w.iter.bucket], w.iter.next) else []
  }

  /** The walker's two pointers are adjacent in the locked chain, as long as the
      first is still linked. */
  ghost predicate Pointers(c: Chain, it: Item, next: Option<Item>) {
    && (next.Some? ==> next.value in c)
    && (it in c ==> next == After(c, it))
  }

  ghost predicate Inv(g: Setting, w: Walk) {
    && Placed(g, w.buckets)
    && w.iter.bucket <= |w.buckets|
    && w.held == (if w.iter.locked then [LockOf(g, w.iter.bucket)] else [])
    && (w.iter.locked ==>
          && w.iter.bucket < |w.buckets| && w.iter.it.Some?
          && Pointers(w.buckets[w.iter.bucket], w.iter.it.value, w.iter.next))
    && (w.done ==> w.iter.bucket == |w.buckets| && !w.iter.locked)
  }

  function Start(bs: seq<Chain>): Walk { Walk(bs, Iter(0, false, None, None), [], [], [], false) }

  lemma RemoveOne(c: Chain, it: Item)
    requires Distinct(c) && it in c
    ensures Remove(c, it) == Without(c, Index(c, it)) && Distinct(Remove(c, it))
    ensures forall x :: x in Remove(c, it) <==> x in c && x != it
  {
    RemoveAt(c, Index(c, it));
    RemoveDistinct(c, it);
    forall x ensures x in Remove(c, it) <==> x in c && x != it { RemoveMembers(c, it, x); }
  }

  /** Unlinking the returned item leaves the rest of the chain as it was. */
  lemma RemoveRest(c: Chain, it: Item, next: Option<Item>)
    requires Distinct(c) && Pointers(c, it, next)
    ensures Pointers(Remove(c, it), it, next)
    ensures next.Some? ==> c[Index(c, next.value)..] == Remove(c, it)[Index(Remove(c, it), next.value)..]
  {
    hide Remove, Index;
    if it in c {
      var i, d := Index(c, it), Remove(c, it);
      RemoveOne(c, it);
      if next.Some? {
        IndexUnique(c, i + 1);
        assert d[i] == c[i + 1];
        IndexUnique(d, i);
        assert c[i + 1..] == d[i..];
      }
    } else {
      RemoveAbsent(c, it);
    }
  }

  lemma RemovePlaced(g: Setting, w: Walk)
    requires Placed(g, w.buckets) && w.iter.it.Some? && w.iter.bucket < |w.buckets|
    ensures Placed(g, w.buckets[w.iter.bucket := Remove(w.buckets[w.iter.bucket], w.iter.it.value)])
  {
    var c, it := w.buckets[w.iter.bucket], w.iter.it.value;
    if it in c { RemoveOne(c, it); } else { RemoveAbsent(c, it); }
  }

  lemma StepKeepsInv(g: Setting, w: Walk, e: Event)
    requires Inv(g, w) && Enabled(g, w, e)
    ensures Inv(g, Next(g, w, e))
  {
    match e
    case Call =>
      if w.iter.locked && w.iter.next.Some? {
        var c := w.buckets[w.iter.bucket];
        var it := w.iter.next.value;
        assert it in c;
      }
    case Interfere(b, c) =>
      assert w.iter.locked ==> b != w.iter.bucket;
    case UnlinkReturned =>
      RemoveRest(w.buckets[w.iter.bucket], w.iter.it.value, w.iter.next);
      RemovePlaced(g, w);
  }

  // ---- Exactly once ---------------------------------------------------------------------------

  /** How often `x` has been returned, judged by where the walker is. */
  ghost function Expected(g: Setting, w: Walk, x: Item): nat
    requires w.iter.bucket <= |w.buckets|
  {
    var i, home := w.iter, Home(g, x);
    if i.bucket > home || (i.bucket == home && i.locked && x !in Rest(w)) then 1 else 0
  }

  ghost predicate Linked(g: Setting, w: Walk, x: Item) {
    Home(g, x) < |w.buckets| && x in w.buckets[Home(g, x)]
  }

  lemma RestAfter(c: Chain, it: Item)
    requires Distinct(c) && it in c
    ensures var i := Index(c, it);
            && c[i..] == [it] + c[i + 1..]
            && it !in c[i + 1..]
            && c[i + 1..] == if After(c, it).Some? then c[Index(c, After(c, it).value)..] else []
  {
    hide Index;
    var i := Index(c, it);
    if i + 1 < |c| { IndexUnique(c, i + 1); }
    Onward(c, i);
  }

  lemma Onward(c: Chain, i: nat)
    requires Distinct(c) && i < |c|
    ensures c[i..] == [c[i]] + c[i + 1..] && c[i] !in c[i + 1..]
  {
  }

  lemma CallCounts(g: Setting, w: Walk, x: Item)
    requires Inv(g, w) && !w.done && Linked(g, w, x)
    requires multiset(w.returned)[x] == Expected(g, w, x)
    ensures Iterate(g, w).iter.bucket <= |w.buckets|
    ensures multiset(Iterate(g, w).returned)[x] == Expected(g, Iterate(g, w), x)
  {
    var i := w.iter;
    if i.locked && i.next.Some? {
      RestAfter(w.buckets[i.bucket], i.next.value);
    } else if !i.locked && i.bucket < |w.buckets| && w.buckets[i.bucket] != [] {
      var c := w.buckets[i.bucket];
      IndexUnique(c, 0);
      RestAfter(c, c[0]);
      assert c[0] in c;
    }
  }

  lemma StepCounts(g: Setting, w: Walk, e: Event, x: Item)
    requires Inv(g, w) && Enabled(g, w, e) && Linked(g, w, x) && Linked(g, Next(g, w, e), x)
    requires multiset(w.returned)[x] == Expected(g, w, x)
    ensures Inv(g, Next(g, w, e))
    ensures multiset(Next(g, w, e).returned)[x] == Expected(g, Next(g, w, e), x)
  {
    StepKeepsInv(g, w, e);
    match e
    case Call => CallCounts(g, w, x);
    case Interfere(b, c) => assert w.iter.locked ==> b != w.iter.bucket;
    case UnlinkReturned => RemoveRest(w.buckets[w.iter.bucket], w.iter.it.value, w.iter.next);
  }

  ghost predicate Run(g: Setting, walks: seq<Walk>, events: seq<Event>) {
    && |walks| == |events| + 1
    && walks[0] == Start(walks[0].buckets) && Placed(g, walks[0].buckets)
    && forall i | 0 <= i < |events| ::
         Inv(g, walks[i]) && Enabled(g, walks[i], events[i]) && walks[i + 1] == Next(g, walks[i], events[i])
  }

  lemma {:induction false} RunKeepsInv(g: Setting, walks: seq<Walk>, events: seq<Event>, i: nat)
    requires Run(g, walks, events) && i < |walks|
    ensures Inv(g, walks[i])
  {
    if i > 0 { StepKeepsInv(g, walks[i - 1], events[i - 1]); }
  }

  /** A walk can go on with every enabled event. */
  lemma RunExtends(g: Setting, walks: seq<Walk>, events: seq<Event>, e: Event)
    requires Run(g, walks, events) && Enabled(g, walks[|walks| - 1], e)
    ensures Inv(g, walks[|walks| - 1]) && Run(g, walks + [Next(g, walks[|walks| - 1], e)], events + [e])
  {
    hide Next, Enabled, Inv;
    RunKeepsInv(g, walks, events, |walks| - 1);
  }

  lemma {:induction false} RunCounts(g: Setting, walks: seq<Walk>, events: seq<Event>, x: Item, i: nat)
    requires Run(g, walks, events) && i < |walks|
    requires forall j | 0 <= j <= i :: Linked(g, walks[j], x)
    ensures Inv(g, walks[i]) && multiset(walks[i].returned)[x] == Expected(g, walks[i], x)
  {
    RunKeepsInv(g, walks, events, i);
    if i > 0 {
      RunCounts(g, walks, events, x, i - 1);
      StepCounts(g, walks[i - 1], events[i - 1], x);
    }
  }

  /** An item that stays linked for the whole walk is returned exactly once,
      whatever other threads do to unlocked buckets in the meantime. */
  lemma ReturnedExactlyOnce(g: Setting, walks: seq<Walk>, events: seq<Event>, x: Item)
    requires Run(g, walks, events) && walks[|walks| - 1].done
    requires forall j | 0 <= j < |walks| :: Linked(g, walks[j], x)
    ensures multiset(walks[|walks| - 1].returned)[x] == 1
  {
    RunCounts(g, walks, events, x, |walks| - 1);
  }

  /** At most one item lock is held at any time, never asked for twice, and none
      is held after `assoc_iterate_final`. */
  lemma LocksHeld(g: Setting, walks: seq<Walk>, events: seq<Event>, i: nat)
    requires Run(g, walks, events) && i < |walks|
    ensures |walks[i].held| <= 1
    ensures !walks[i].iter.locked ==> walks[i].held == []
    ensures Final(g, walks[i]).held == []
  {
    RunKeepsInv(g, walks, events, i);
  }

  // ---- What a walk returns, and when it ends ------------------------------------------------------

  /** The items of several chains, one chain after the other. */
  function Flat(cs: seq<Chain>): Chain {
    if cs == [] then [] else Flat(cs[..|cs| - 1]) + cs[|cs| - 1]
  }

  lemma FlatAppend(cs: seq<Chain>, c: Chain)
    ensures Flat(cs + [c]) == Flat(cs) + c
  {
    assert (cs + [c])[..|cs|] == cs;
  }

  /** What was returned, and what is left of the locked bucket, is what the locks were taken on. */
  ghost predicate Accounted(w: Walk)
    requires w.iter.bucket <= |w.buckets|
  {
    |w.seen| == w.iter.bucket + (if w.iter.locked then 1 else 0) && Flat(w.seen) == w.returned + Rest(w)
  }

  lemma FromNext(c: Chain, it: Item)
    requires Distinct(c) && it in c
    ensures From(c, Some(it)) == [it] + From(c, After(c, it)) && (it == c[0] ==> From(c, Some(it)) == c)
  {
    RestAfter(c, it);
    if it == c[0] {
      IndexUnique(c, 0);
      assert c[0..] == c;
    }
  }

  lemma HeldChain(g: Setting, w: Walk)
    requires Inv(g, w)
    ensures w.iter.bucket <= |w.buckets| == Size(g.hashpower)
    ensures w.iter.bucket < |w.buckets| ==> Distinct(w.buckets[w.iter.bucket])
    ensures w.iter.locked ==> w.iter.bucket < |w.buckets|
    ensures w.iter.locked && w.iter.next.Some? ==> w.iter.next.value in w.buckets[w.iter.bucket]
  {}

  /** A call takes the item it returns off the rest of the chain, or finds the rest empty. */
  lemma CallRest(g: Setting, w: Walk)
    requires Inv(g, w) && !w.done
    ensures var w' := Iterate(g, w);
      && w'.iter.bucket <= |w.buckets|
      && (w.iter.locked ==> w'.seen == w.seen && w'.returned + Rest(w') == w.returned + Rest(w))
      && (!w.iter.locked ==> Rest(w) == [])
      && (!w.iter.locked && w.iter.bucket < |w.buckets| ==>
            w'.seen == w.seen + [w.buckets[w.iter.bucket]] &&
              w'.returned + Rest(w') == w.returned + w.buckets[w.iter.bucket])
      && (!w.iter.locked && w.iter.bucket == |w.buckets| ==>
        w'.seen == w.seen && w'.returned == w.returned && Rest(w') == [])
  {
    hide Distinct, From, After, Inv;
    HeldChain(g, w);
    var i := w.iter;
    if i.bucket < |w.buckets| {
      var c := w.buckets[i.bucket];
      if i.locked && i.next.Some? {
        FromNext(c, i.next.value);
        Shift(w.returned, i.next.value, From(c, After(c, i.next.value)));
      } else if i.locked {
        FromNone(c);
      } else if c != [] {
        assert c[0] in c;
        FromNext(c, c[0]);
        Shift(w.returned, c[0], From(c, After(c, c[0])));
      }
    }
  }

  lemma FromNone(c: Chain)
    ensures From(c, None) == []
  {}

  lemma Shift(a: Chain, x: Item, b: Chain)
    ensures (a + [x]) + b == a + ([x] + b)
  {}

  lemma CallAccounts(g: Setting, w: Walk)
    requires Inv(g, w) && !w.done && Accounted(w)
    ensures Iterate(g, w).iter.bucket <= |w.buckets| && Accounted(Iterate(g, w))
  {
    hide Flat, Rest, Placed, Pointers;
    CallRest(g, w);
    if !w.iter.locked && w.iter.bucket < |w.buckets| { FlatAppend(w.seen, w.buckets[w.iter.bucket]); }
  }

  lemma StepAccounts(g: Setting, w: Walk, e: Event)
    requires Inv(g, w) && Enabled(g, w, e) && Accounted(w)
    ensures Inv(g, Next(g, w, e)) && Accounted(Next(g, w, e))
  {
    StepKeepsInv(g, w, e);
    match e
    case Call => CallAccounts(g, w);
    case Interfere(b, c) => assert w.iter.locked ==> b != w.iter.bucket;
    case UnlinkReturned => RemoveRest(w.buckets[w.iter.bucket], w.iter.it.value, w.iter.next);
  }

  function Calls(events: seq<Event>): nat {
    if events == [] then 0 else Calls(events[..|events| - 1]) + (if events[|events| - 1].Call? then 1 else 0)
  }

  /** Every call returns one item, leaves one bucket, or ends the walk. */
  lemma CallCost(g: Setting, w: Walk)
    requires Inv(g, w) && !w.done
    ensures var w' := Iterate(g, w);
      |w'.returned| + w'.iter.bucket + (if w'.done then 1 else 0) == |w.returned| + w.iter.bucket + 1
  {}

  lemma StepAt(g: Setting, walks: seq<Walk>, events: seq<Event>, i: nat)
    requires Run(g, walks, events) && i < |events|
    ensures Inv(g, walks[i]) && Enabled(g, walks[i], events[i]) && walks[i + 1] == Next(g, walks[i], events[i])
  {}

  lemma RunLength(g: Setting, walks: seq<Walk>, events: seq<Event>)
    requires Run(g, walks, events)
    ensures |walks| == |events| + 1
  {
    hide Inv, Enabled, Next;
  }

  lemma CallsNext(events: seq<Event>, i: nat)
    requires 0 < i <= |events|
    ensures Calls(events[..i]) == Calls(events[..i - 1]) + (if events[i - 1].Call? then 1 else 0)
  {
    assert events[..i][..i - 1] == events[..i - 1];
  }

  lemma CallsStart(g: Setting, walks: seq<Walk>, events: seq<Event>)
    requires Run(g, walks, events)
    ensures walks != [] && Inv(g, walks[0]) && Accounted(walks[0]) && Calls(events[..0]) == 0
    ensures walks[0].returned == [] && walks[0].iter.bucket == 0 && !walks[0].done
  {
    hide Flat;
    RunKeepsInv(g, walks, events, 0);
    FlatNone();
  }

  /** After any events: the calls made are the items returned, the buckets left behind and the end. The items
      returned are, bucket by bucket, the chains as they were when their locks were taken, whatever other threads
      and the walk's owner changed since. */
  lemma {:induction false} CallsExact(g: Setting, walks: seq<Walk>, events: seq<Event>, i: nat)
    requires Run(g, walks, events) && i < |walks|
    ensures Inv(g, walks[i]) && |walks[i].buckets| == |walks[0].buckets| && Accounted(walks[i])
    ensures Calls(events[..i]) == |walks[i].returned| + walks[i].iter.bucket + (if walks[i].done then 1 else 0)
  {
    hide Flat, Inv, Run, Enabled, Accounted, Next, Calls;
    RunLength(g, walks, events);
    if i == 0 {
      CallsStart(g, walks, events);
    } else {
      CallsExact(g, walks, events, i - 1);
      StepAt(g, walks, events, i - 1);
      StepAccounts(g, walks[i - 1], events[i - 1]);
      CallsNext(events, i);
      StepCost(g, walks[i - 1], events[i - 1]);
    }
  }

  lemma FlatNone()
    ensures Flat([]) == []
  {}

  lemma StepCost(g: Setting, w: Walk, e: Event)
    requires Inv(g, w) && Enabled(g, w, e)
    ensures var w' := Next(g, w, e);
      |w'.buckets| == |w.buckets|
      && |w'.returned| + w'.iter.bucket + (if w'.done then 1 else 0)
         == |w.returned| + w.iter.bucket + (if w.done then 1 else 0) + (if e.Call? then 1 else 0)
  {
    if e.Call? { CallCost(g, w); }
  }

  /** A walk that is done has returned every chain as it was found, one for each bucket, by one call for each item,
      one for each bucket and one more. */
  lemma WalkEnds(g: Setting, walks: seq<Walk>, events: seq<Event>)
    requires Run(g, walks, events) && walks[|walks| - 1].done
    ensures var w := walks[|walks| - 1];
      |w.seen| == |w.buckets| && w.returned == Flat(w.seen) && Calls(events) == |w.returned| + |w.buckets| + 1
  {
    hide Flat;
    CallsExact(g, walks, events, |walks| - 1);
    assert events[..|walks| - 1] == events;
  }

  lemma {:induction false} FlatBound(cs: seq<Chain>, m: nat)
    requires forall k | 0 <= k < |cs| :: |cs[k]| <= m
    ensures |Flat(cs)| <= m * |cs|
  {
    if cs != [] {
      FlatBound(cs[..|cs| - 1], m);
      Distribute(m, |cs| - 1, 1);
    }
  }

  /** So every walk ends: if no chain is longer than `m` when its lock is taken, then at most `m + 1` calls for each
      bucket leave it unfinished, and the next one finishes it. */
  lemma WalkIsBounded(g: Setting, walks: seq<Walk>, events: seq<Event>, m: nat)
    requires Run(g, walks, events)
    requires var w := walks[|walks| - 1]; forall k | 0 <= k < |w.seen| :: |w.seen[k]| <= m
    ensures walks[|walks| - 1].done || Calls(events) <= (m + 1) * |walks[0].buckets|
  {
    var w := walks[|walks| - 1];
    CallsExact(g, walks, events, |walks| - 1);
    assert events[..|walks| - 1] == events;
    FlatBound(w.seen, m);
    Distribute(m, |w.seen|, |w.buckets| - |w.seen|);
    NotNegative(m, |w.buckets| - |w.seen|);
    Distribute(|w.buckets|, m, 1);
  }

  // ---- The walker object ------------------------------------------------------------------------------

  ghost function ItemOf(n: Node?): Option<Item> { if n == null then None else Some(n.item) }

  /** The pointer behind a node is the item behind its item. */
  lemma AfterNode(head: Node?, nodes: seq<Node>, n: Node)
    requires AssocChains.Linked(head, nodes) && Distinct(Items(nodes)) && n in nodes
    ensures After(Items(nodes), n.item) == ItemOf(n.hNext) && (n.hNext != null ==> n.hNext in nodes)
  {
    var k :| 0 <= k < |nodes| && nodes[k] == n;
    IndexUnique(Items(nodes), k);
    if k + 1 < |nodes| { assert nodes[k].hNext == nodes[k + 1]; } else { assert nodes[k].hNext == null; }
  }

  lemma FirstNode(head: Node?, nodes: seq<Node>)
    requires AssocChains.Linked(head, nodes) && Distinct(Items(nodes))
    ensures head == null <==> Items(nodes) == []
    ensures head != null ==> head.item == Items(nodes)[0] && After(Items(nodes), head.item) == ItemOf(head.hNext)
    ensures head != null && head.hNext != null ==> head.hNext in nodes
  {
    HeadOf(head, nodes);
    if head != null { AfterNode(head, nodes, head); }
  }

  /** The walker on the shared table: it follows the `h_next` pointers. */
  class Walker {
    var bucket: nat
    var locked: bool
    var it: Node?
    var next: Node?
    var held: seq<nat>
    ghost var seen: seq<Chain>
    ghost var returned: seq<Item>
    ghost var done: bool

    constructor ()
      ensures Iterator() == Iter(0, false, None, None) && held == [] && seen == [] && returned == [] && !done
    {
      bucket, locked, it, next, held, seen, returned, done := 0, false, null, null, [], [], [], false;
    }

    ghost function Iterator(): Iter
      reads this
    {
      Iter(bucket, locked, ItemOf(it), ItemOf(next))
    }

    ghost function Snapshot(t: Buckets): Walk
      reads this, t
    {
      Walk(AllItems(t.chains), Iterator(), held, seen, returned, done)
    }

    /** Buckets hold no item twice, and the saved pointer is in the locked one. */
    ghost predicate On(t: Buckets, g: Setting)
      reads this, t, t.heads, Nodes(t.chains)
    {
      && t.Valid() && |t.chains| == Size(g.hashpower) && bucket <= |t.chains| && (locked ==> bucket < |t.chains|)
      && (forall b | 0 <= b < |t.chains| :: Distinct(Items(t.chains[b])))
      && (locked && next != null ==> next in t.chains[bucket])
    }

    /** A call in the middle of a locked bucket. */
    method GoOn(t: Buckets, g: Setting) returns (found: Node?)
      requires On(t, g) && locked
      modifies this
      ensures On(t, g) && Snapshot(t) == Iterate(g, old(Snapshot(t)))
      ensures returned == old(returned) + (if found != null then [found.item] else [])
    {
      hide Bucket, Size, Lock, Unlock, After;
      found := null;
      if next != null {
        AfterNode(t.heads[bucket], t.chains[bucket], next);
        it := next;
        next := it.hNext;
        found := it;
        returned := returned + [it.item];
      } else {
        held := Unlock(held, Bucket(bucket, g.lockpower));
        bucket := bucket + 1;
        locked := false;
      }
    }

    /** assoc_iterate, on the primary table. */
    method AssocIterate(t: Buckets, g: Setting) returns (more: bool, found: Node?)
      requires On(t, g)
      modifies this
      ensures On(t, g) && Snapshot(t) == Iterate(g, old(Snapshot(t)))
      ensures more == !(!old(locked) && old(bucket) == |t.chains|)
      ensures returned == old(returned) + (if found != null then [found.item] else [])
    {
      hide Bucket, Size, Lock, Unlock, After;
      found := null;
      if locked {
        found := GoOn(t, g);
        return true, found;
      }
      if bucket != Size(g.hashpower) {
        found := Enter(t, g);
      } else {
        done := true;
        return false, null;
      }
      return true, found;
    }

    /** The lock of the next bucket is taken, and given back if the bucket is empty. */
    method Enter(t: Buckets, g: Setting) returns (found: Node?)
      requires On(t, g) && !locked && bucket < |t.chains|
      modifies this
      ensures On(t, g) && Snapshot(t) == Iterate(g, old(Snapshot(t)))
      ensures returned == old(returned) + (if found != null then [found.item] else [])
    {
      hide Bucket, Size, Lock, Unlock, After, Items, Distinct, Apart;
      found := null;
      assert AllItems(t.chains)[bucket] == Items(t.chains[bucket]);
      FirstNode(t.heads[bucket], t.chains[bucket]);
      held := Lock(held, Bucket(bucket, g.lockpower));
      locked := true;
      seen := seen + [Items(t.chains[bucket])];
      it := t.heads[bucket];
      if it != null {
        next := it.hNext;
        found := it;
        returned := returned + [it.item];
      } else {
        held := Unlock(held, Bucket(bucket, g.lockpower));
        locked := false;
        bucket := bucket + 1;
      }
    }
  }
}

/**
 * lru_pull_tail of items.c: looking at the tail of one LRU queue to reclaim expired
 * items, to move items between the HOT, WARM and COLD queues, to evict, or to hand
 * one item to the caller.
 *
 * The queue's lock is held for the whole walk. Item locks are only tried. Queues are
 * lists of item addresses, head first, for which the linked queues stand.
 */
module LruPull {
  import opened LruKinds
  import opened Options
  import opened Sequences

  type Id = nat

  datatype Qid = Qid(cls: nat, lru: Lru)

  /** What does not change while an item is allocated. */
  datatype Info = Info(cls: nat, bytes: nat, crawler: bool)

  /** Seconds since the process started, 32 bits wide. */
  type Time = t: nat | t < 0x1_0000_0000

  datatype Item = Item(lru: Lru, linked: bool, active: bool, refcount: nat, time: Time, exptime: Time, cas: nat)

  const NO_ITEM := Item(Hot, false, false, 0, 0, 0, 0)

  datatype State = State(info: map<Id, Info>, items: map<Id, Item>, queues: map<Qid, seq<Id>>,
                         sizes: map<Qid, int>, bytes: map<Qid, int>, locks: set<Id>)

  function Inf(s: State, x: Id): Info {
    if x in s.info then s.info[x] else Info(0, 0, false)
  }

  function Get(s: State, x: Id): Item {
    if x in s.items then s.items[x] else NO_ITEM
  }

  function Q(s: State, q: Qid): seq<Id> {
    if q in s.queues then s.queues[q] else []
  }

  function Size(s: State, q: Qid): int {
    if q in s.sizes then s.sizes[q] else 0
  }

  function Bytes(s: State, q: Qid): int {
    if q in s.bytes then s.bytes[q] else 0
  }

  /** slabs_clsid: the queue an item belongs to. */
  function Where(s: State, x: Id): Qid {
    Qid(Inf(s, x).cls, Get(s, x).lru)
  }

  // ----- the operations -----

  function Put(s: State, x: Id, it: Item): State {
    s.(items := s.items[x := it])
  }

  /** do_item_unlink_q */
  function UnlinkQ(s: State, x: Id): State {
    var q := Where(s, x);
    s.(queues := s.queues[q := Remove(Q(s, q), x)], sizes := s.sizes[q := Size(s, q) - 1],
       bytes := s.bytes[q := Bytes(s, q) - Inf(s, x).bytes])
  }

  /** do_item_link_q */
  function LinkQ(s: State, x: Id): State {
    var q := Where(s, x);
    s.(queues := s.queues[q := [x] + Q(s, q)], sizes := s.sizes[q := Size(s, q) + 1],
       bytes := s.bytes[q := Bytes(s, q) + Inf(s, x).bytes])
  }

  /** item_trylock and refcount_incr */
  function Take(s: State, x: Id): State {
    Put(s, x, Get(s, x).(refcount := Get(s, x).refcount + 1)).(locks := s.locks + {x})
  }

  /** do_item_remove */
  function Drop(s: State, x: Id): State {
    var it := Get(s, x);
    Put(s, x, it.(refcount := if it.refcount == 0 then 0 else it.refcount - 1))
  }

  /** do_item_remove and item_trylock_unlock */
  function Give(s: State, x: Id): State {
    Drop(s, x).(locks := s.locks - {x})
  }

  /** do_item_unlink_nolock */
  function Unlink(s: State, x: Id): State {
    if Get(s, x).linked then Drop(UnlinkQ(Put(s, x, Get(s, x).(linked := false)), x), x) else s
  }

  function Calm(s: State, x: Id): State {
    Put(s, x, Get(s, x).(active := false))
  }

  function SetLru(s: State, x: Id, lru: Lru): State {
    Put(s, x, Get(s, x).(lru := lru))
  }

  const ITEM_UPDATE_INTERVAL: Time := 60

  /** do_item_update: with the segmented LRU an ACTIVE item of COLD goes to WARM, without
      it an item that was not touched for a while goes to the head of its queue. */
  function Update(s: State, x: Id, segmented: bool, now: Time): State {
    var it := Get(s, x);
    var t := Put(s, x, it.(time := now));
    if !it.linked then s
    else if segmented then
      if it.lru == Cold && it.active then
        LinkQ(Put(UnlinkQ(t, x), x, it.(time := now, lru := Warm, active := false)), x)
      else t
    else if it.time < Minus(now, ITEM_UPDATE_INTERVAL) then LinkQ(UnlinkQ(t, x), x)
    else s
  }

  /** What a call is asked to do, the settings and the clock; `busy` items have their
      lock taken elsewhere. */
  datatype Env = Env(cls: nat, lru: Lru, evict: bool, crawlBlocks: bool, returnItem: bool, evictToFree: bool,
                     segmented: bool, total: nat, hotPct: nat, warmPct: nat, maxAge: Time,
                     now: Time, oldestLive: Time, oldestCas: nat, busy: set<Id>)

  /** item_is_flushed */
  predicate Flushed(env: Env, it: Item) {
    && 0 < env.oldestLive <= env.now
    && (it.time <= env.oldestLive || (env.oldestCas != 0 && it.cas != 0 && it.cas < env.oldestCas))
  }

  predicate Dead(env: Env, it: Item) {
    (it.exptime != 0 && it.exptime < env.now) || Flushed(env, it)
  }

  /** A difference of times wraps around. */
  function Minus(a: Time, b: Time): Time {
    if a >= b then a - b else a - b + 0x1_0000_0000
  }

  predicate Aged(env: Env, it: Item) { Minus(env.now, it.time) > env.maxAge }

  /** The size above which HOT and WARM give items to COLD. */
  function Limit(env: Env): nat {
    var hot := env.total * env.hotPct / 100;
    if env.lru == Hot && hot != 0 then hot else env.total * env.warmPct / 100
  }

  /** How the visit of an item ends: the walk goes on, or stops at the item. */
  datatype Stop = Go | Stay | Hand | Move(to: Lru)

  /** What is done with an item once its lock and a reference are taken. */
  function OnTaken(t: State, env: Env, x: Id): (State, nat, Stop) {
    if Dead(env, Get(t, x)) then (Give(Unlink(t, x), x), 1, Go)
    else if env.lru == Temp then (t, 0, Stay)
    else if env.lru == Cold then
      if env.evict then if env.evictToFree then (Unlink(t, x), 1, Stay) else (t, 0, Stay)
      else if env.returnItem then (t, 0, Hand)
      else if Get(t, x).active && env.segmented then (UnlinkQ(Calm(t, x), x), 1, Move(Warm))
      else (t, 0, Stay)
    else if Get(t, x).active then
      if env.lru == Warm then (Give(LinkQ(UnlinkQ(Calm(t, x), x), x), x), 1, Go)
      else (UnlinkQ(Calm(t, x), x), 1, Move(Warm))
    else if Bytes(t, Qid(env.cls, env.lru)) > Limit(env) || Aged(env, Get(t, x)) then (UnlinkQ(t, x), 1, Move(Cold))
    else (t, 0, Stay)
  }

  /** The visit of an item whose lock was free. */
  function Visit(s: State, env: Env, x: Id): (State, nat, Stop) {
    OnTaken(Take(s, x), env, x)
  }

  /** The end of the call at the item the walk stopped at. */
  function Finish(s: State, env: Env, x: Id, stop: Stop): State {
    var t := if stop.Move? then LinkQ(SetLru(s, x, stop.to), x) else s;
    if env.returnItem then t else Give(t, x)
  }

  /** The node before `x` in the queue. */
  function Prev(q: seq<Id>, x: Id): (p: Option<Id>)
    ensures p.Some? ==> Index(q, p.value) < Index(q, x)
  {
    var k := Index(q, x);
    if k == 0 then None else Some(q[k - 1])
  }

  datatype Result = Result(s: State, removed: nat, held: Option<Id>, ret: Option<Id>)

  function Depth(q: seq<Id>, search: Option<Id>): nat {
    if search.None? then 0 else 1 + Index(q, search.value)
  }

  /** The walk from `search` on, with the number of tries left. `held` is the item whose
      lock and reference are kept when the call returns, `ret` the one handed out. */
  function Pull(s: State, env: Env, search: Option<Id>, tries: nat, removed: nat): Result
    decreases tries, Depth(Q(s, Qid(env.cls, env.lru)), search)
  {
    if tries == 0 || search.None? then Result(s, removed, None, None)
    else
      var x := search.value;
      var next := Prev(Q(s, Qid(env.cls, env.lru)), x);
      if Inf(s, x).crawler then
        if env.crawlBlocks then Result(s, 0, None, None) else Pull(s, env, next, tries, removed)
      else if x in env.busy || x in s.locks then Pull(s, env, next, tries - 1, removed)
      else
        var (t, n, stop) := Visit(s, env, x);
        if stop.Go? then Pull(t, env, next, tries - 1, removed + n)
        else Result(Finish(t, env, x, stop), removed + n,
                    if env.returnItem then Some(x) else None, if stop.Hand? then Some(x) else None)
  }

  function Tail(q: seq<Id>): Option<Id> {
    if q == [] then None else Some(q[|q| - 1])
  }

  /** lru_pull_tail */
  function PullTail(s: State, env: Env): Result {
    var q := Q(s, Qid(env.cls, env.lru));
    if env.cls == 0 then Result(s, 0, None, None)
    else Pull(s, env, Tail(q), 5, 0)
  }

  // ----- what holds between calls -----

  function Count(info: map<Id, Info>, q: seq<Id>): nat {
    if q == [] then 0 else (if q[0] in info && info[q[0]].crawler then 0 else 1) + Count(info, q[1..])
  }

  function Total(info: map<Id, Info>, q: seq<Id>): nat {
    if q == [] then 0
    else (if q[0] !in info || info[q[0]].crawler then 0 else info[q[0]].bytes) + Total(info, q[1..])
  }

  /** References held outside the queues and the hash table. */
  function H(h: map<Id, nat>, x: Id): nat {
    if x in h then h[x] else 0
  }

  function Plus(h: map<Id, nat>, x: Id): map<Id, nat> {
    h[x := H(h, x) + 1]
  }

  /** sizes and sizes_bytes count the real items. */
  ghost predicate Counted(s: State) {
    forall q: Qid :: Size(s, q) == Count(s.info, Q(s, q)) && Bytes(s, q) == Total(s.info, Q(s, q))
  }

  /** No queue holds an item twice, and items are on their own queue only. */
  ghost predicate Queued(s: State, f: Option<Id>) {
    && (forall q: Qid :: Distinct(Q(s, q)))
    && (forall q: Qid, x | x in Q(s, q) :: x in s.items && x in s.info && Where(s, x) == q && f != Some(x))
    && (forall q: Qid, x | x in Q(s, q) :: s.info[x].crawler || s.items[x].linked)
  }

  /** Every linked item is on its queue; `f` is an item that is being moved. */
  ghost predicate OnQueue(s: State, f: Option<Id>) {
    forall x | x in s.items && s.items[x].linked && f != Some(x) :: x in Q(s, Where(s, x))
  }

  ghost predicate RefsExact(s: State, h: map<Id, nat>) {
    forall x | x in s.items && !Inf(s, x).crawler ::
      s.items[x].refcount == (if s.items[x].linked then 1 else 0) + H(h, x)
  }

  ghost predicate Ok(s: State, h: map<Id, nat>, f: Option<Id>) {
    Counted(s) && Queued(s, f) && OnQueue(s, f) && RefsExact(s, h)
  }

  // ----- what the operations keep -----

  lemma {:induction false} CountRemove(info: map<Id, Info>, q: seq<Id>, x: Id)
    requires x in q && x in info && !info[x].crawler
    ensures Count(info, Remove(q, x)) == Count(info, q) - 1
    ensures Total(info, Remove(q, x)) == Total(info, q) - info[x].bytes
  {
    if q[0] != x {
      CountRemove(info, q[1..], x);
      assert Remove(q, x) == [q[0]] + Remove(q[1..], x);
      assert ([q[0]] + Remove(q[1..], x))[1..] == Remove(q[1..], x);
    }
  }

  /** The queues and their counts do not depend on the items' marks. */
  lemma CountedSame(s: State, t: State)
    requires Counted(s) && t.info == s.info && t.queues == s.queues && t.sizes == s.sizes && t.bytes == s.bytes
    ensures Counted(t)
  {
    forall q: Qid ensures Size(t, q) == Count(t.info, Q(t, q)) && Bytes(t, q) == Total(t.info, Q(t, q)) {
      assert Size(s, q) == Count(s.info, Q(s, q)) && Bytes(s, q) == Total(s.info, Q(s, q));
    }
  }

  /** Where the other items are does not depend on one item's marks. */
  lemma PutElsewhere(s: State, x: Id, it: Item)
    ensures var t := Put(s, x, it);
      && (forall q: Qid {:trigger Q(t, q)} :: Q(t, q) == Q(s, q))
      && (forall y {:trigger Where(t, y)} | y != x || it.lru == Get(s, x).lru :: Where(t, y) == Where(s, y))
  {}

  /** A change of an item that stays where it is and as linked as it is. */
  lemma QueuedPut(s: State, f: Option<Id>, x: Id, it: Item)
    requires Queued(s, f) && OnQueue(s, f) && x in s.items && it.lru == s.items[x].lru && it.linked == s.items[x].linked
    ensures Queued(Put(s, x, it), f) && OnQueue(Put(s, x, it), f)
  {
    var t := Put(s, x, it);
    PutElsewhere(s, x, it);
    hide Q, Where;
    forall q: Qid, y | y in Q(t, q)
      ensures y in t.items && y in t.info && Where(t, y) == q && f != Some(y)
      ensures (t.info[y].crawler || t.items[y].linked)
    {
      assert y in Q(s, q);
    }
    forall y | y in t.items && t.items[y].linked && f != Some(y) ensures y in Q(t, Where(t, y)) {
      assert y in Q(s, Where(s, y));
    }
  }

  lemma RefsPut(s: State, h: map<Id, nat>, x: Id, it: Item, n: nat)
    requires RefsExact(s, h) && (!Inf(s, x).crawler ==> it.refcount == (if it.linked then 1 else 0) + n)
    ensures RefsExact(Put(s, x, it), h[x := n])
  {
    var t := Put(s, x, it);
    assert forall y {:trigger Inf(t, y)} :: Inf(t, y) == Inf(s, y);
  }

  /** Changing an item's marks and count of references. */
  lemma PutOk(s: State, h: map<Id, nat>, f: Option<Id>, x: Id, it: Item, n: nat)
    requires Ok(s, h, f) && x in s.items && it.lru == s.items[x].lru && it.linked == s.items[x].linked
    requires !Inf(s, x).crawler ==> it.refcount == (if it.linked then 1 else 0) + n
    ensures Ok(Put(s, x, it), h[x := n], f)
  {
    hide Counted, Queued, OnQueue, RefsExact;
    CountedSame(s, Put(s, x, it));
    QueuedPut(s, f, x, it);
    RefsPut(s, h, x, it, n);
  }

  /** A change to the set of locks concerns nothing else. */
  lemma LocksOk(s: State, h: map<Id, nat>, f: Option<Id>, locks: set<Id>)
    requires Ok(s, h, f)
    ensures Ok(s.(locks := locks), h, f)
  {
    var t := s.(locks := locks);
    CountedSame(s, t);
    assert forall q: Qid {:trigger Q(t, q)} :: Q(t, q) == Q(s, q);
    assert forall y {:trigger Where(t, y)} :: Where(t, y) == Where(s, y);
    assert forall y {:trigger Inf(t, y)} :: Inf(t, y) == Inf(s, y);
  }

  /** Any change of an item that is on no queue. */
  lemma QueuedFloat(s: State, x: Id, it: Item)
    requires Queued(s, Some(x)) && OnQueue(s, Some(x)) && x in s.items
    ensures Queued(Put(s, x, it), Some(x)) && OnQueue(Put(s, x, it), Some(x))
    ensures !it.linked ==> Queued(Put(s, x, it), None) && OnQueue(Put(s, x, it), None)
  {
    var t := Put(s, x, it);
    PutElsewhere(s, x, it);
    hide Q, Where;
    forall q: Qid, y | y in Q(t, q)
      ensures y in t.items && y in t.info && Where(t, y) == q && y != x && (t.info[y].crawler || t.items[y].linked)
    {
      assert y in Q(s, q);
    }
    forall y | y in t.items && t.items[y].linked && y != x ensures y in Q(t, Where(t, y)) {
      assert y in Q(s, Where(s, y));
    }
  }

  lemma FloatOk(s: State, h: map<Id, nat>, x: Id, it: Item, n: nat)
    requires Ok(s, h, Some(x)) && x in s.items
    requires (!Inf(s, x).crawler ==> it.refcount == (if it.linked then 1 else 0) + n)
    ensures Ok(Put(s, x, it), h[x := n], Some(x)) && (!it.linked ==> Ok(Put(s, x, it), h[x := n], None))
  {
    hide Counted, Queued, OnQueue, RefsExact;
    CountedSame(s, Put(s, x, it));
    QueuedFloat(s, x, it);
    RefsPut(s, h, x, it, n);
  }

  lemma UnlinkQCounted(s: State, x: Id)
    requires Counted(s) && x in Q(s, Where(s, x)) && x in s.info && !s.info[x].crawler
    ensures Counted(UnlinkQ(s, x))
  {
    var w, t := Where(s, x), UnlinkQ(s, x);
    CountRemove(s.info, Q(s, w), x);
    forall q: Qid ensures Size(t, q) == Count(t.info, Q(t, q)) && Bytes(t, q) == Total(t.info, Q(t, q)) {
      assert Size(s, q) == Count(s.info, Q(s, q)) && Bytes(s, q) == Total(s.info, Q(s, q));
    }
  }

  /** What do_item_unlink_q leaves in the queues. */
  lemma Unqueued(s: State, x: Id)
    ensures var t := UnlinkQ(s, x);
      && t.items == s.items && t.info == s.info
      && (forall q: Qid {:trigger Q(t, q)} :: Q(t, q) == if q == Where(s, x) then Remove(Q(s, q), x) else Q(s, q))
      && (forall y {:trigger Where(t, y)} :: Where(t, y) == Where(s, y))
  {
    hide Remove;
  }

  lemma UnlinkQQueued(s: State, x: Id)
    requires Queued(s, None) && OnQueue(s, None)
    ensures Queued(UnlinkQ(s, x), Some(x)) && OnQueue(UnlinkQ(s, x), Some(x))
  {
    hide Q, Where, UnlinkQ, Remove, Distinct, OnQueue;
    var w, t := Where(s, x), UnlinkQ(s, x);
    Unqueued(s, x);
    UnlinkQOnQueue(s, x);
    forall q: Qid ensures Distinct(Q(t, q)) {
      assert Distinct(Q(s, q));
      if q == w { RemoveDistinct(Q(s, w), x); }
    }
    forall q: Qid, y | y in Q(t, q)
      ensures y in t.items && y in t.info && Where(t, y) == q && y != x && (t.info[y].crawler || t.items[y].linked)
    {
      assert Distinct(Q(s, q));
      if q == w { RemoveMembers(Q(s, w), x, y); }
      assert y in Q(s, q) && Where(s, y) == q;
    }
  }

  lemma UnlinkQOnQueue(s: State, x: Id)
    requires Queued(s, None) && OnQueue(s, None)
    ensures OnQueue(UnlinkQ(s, x), Some(x))
  {
    var w, t := Where(s, x), UnlinkQ(s, x);
    Unqueued(s, x);
    hide Q, Where, UnlinkQ, Remove, Distinct;
    forall y | y in t.items && t.items[y].linked && y != x ensures y in Q(t, Where(t, y)) {
      assert y in Q(s, Where(s, y)) && Distinct(Q(s, w));
      if Where(s, y) == w { RemoveMembers(Q(s, w), x, y); }
    }
  }

  /** An item is taken off its queue. */
  lemma UnlinkQOk(s: State, h: map<Id, nat>, x: Id)
    requires Ok(s, h, None) && x in s.items && s.items[x].linked && x in s.info && !s.info[x].crawler
    ensures Ok(UnlinkQ(s, x), h, Some(x))
  {
    assert x in Q(s, Where(s, x));
    UnlinkQCounted(s, x);
    UnlinkQQueued(s, x);
    RefsSame(s, UnlinkQ(s, x), h);
  }

  lemma RefsSame(s: State, t: State, h: map<Id, nat>)
    requires RefsExact(s, h) && t.items == s.items && t.info == s.info
    ensures RefsExact(t, h)
  {
    assert forall y {:trigger Inf(t, y)} :: Inf(t, y) == Inf(s, y);
  }

  lemma LinkQCounted(s: State, x: Id)
    requires Counted(s) && x in s.info && !s.info[x].crawler
    ensures Counted(LinkQ(s, x))
  {
    var w, t := Where(s, x), LinkQ(s, x);
    assert ([x] + Q(s, w))[1..] == Q(s, w);
    forall q: Qid ensures Size(t, q) == Count(t.info, Q(t, q)) && Bytes(t, q) == Total(t.info, Q(t, q)) {
      assert Size(s, q) == Count(s.info, Q(s, q)) && Bytes(s, q) == Total(s.info, Q(s, q));
    }
  }

  lemma LinkQQueued(s: State, x: Id)
    requires Queued(s, Some(x)) && OnQueue(s, Some(x)) && x in s.items && x in s.info && s.items[x].linked
    ensures Queued(LinkQ(s, x), None) && OnQueue(LinkQ(s, x), None)
  {
    var w, t := Where(s, x), LinkQ(s, x);
    assert x !in Q(s, w);
    Linked(s, x);
    hide Q, Where, LinkQ;
    forall q: Qid ensures Distinct(Q(t, q)) { assert Distinct(Q(s, q)); }
    forall q: Qid, y | y in Q(t, q)
      ensures y in t.items && y in t.info && Where(t, y) == q && (t.info[y].crawler || t.items[y].linked)
    {
      assert y == x || y in Q(s, q);
    }
    forall y | y in t.items && t.items[y].linked ensures y in Q(t, Where(t, y)) {
      assert y == x || y in Q(s, Where(s, y));
    }
  }

  /** What do_item_link_q leaves in the queues. */
  lemma Linked(s: State, x: Id)
    ensures var t := LinkQ(s, x);
      && t.items == s.items && t.info == s.info
      && (forall q: Qid {:trigger Q(t, q)} :: Q(t, q) == if q == Where(s, x) then [x] + Q(s, q) else Q(s, q))
      && (forall y {:trigger Where(t, y)} :: Where(t, y) == Where(s, y))
  {}

  /** An item is put at the head of its queue. */
  lemma LinkQOk(s: State, h: map<Id, nat>, x: Id)
    requires Ok(s, h, Some(x)) && x in s.items && s.items[x].linked && x in s.info && !s.info[x].crawler
    ensures Ok(LinkQ(s, x), h, None)
  {
    hide Counted, Queued, OnQueue, RefsExact;
    LinkQCounted(s, x);
    LinkQQueued(s, x);
    RefsSame(s, LinkQ(s, x), h);
  }

  // ----- what a visit keeps -----

  /** A real item that is linked. */
  predicate Real(s: State, x: Id) {
    x in s.items && s.items[x].linked && x in s.info && !s.info[x].crawler
  }

  lemma SameHolders(s: State, h: map<Id, nat>, g: map<Id, nat>, f: Option<Id>)
    requires Ok(s, h, f) && forall y :: H(h, y) == H(g, y)
    ensures Ok(s, g, f)
  {}

  lemma RefOf(s: State, h: map<Id, nat>, f: Option<Id>, x: Id)
    requires Ok(s, h, f) && x in s.items && !Inf(s, x).crawler
    ensures s.items[x].refcount == (if s.items[x].linked then 1 else 0) + H(h, x)
  {}

  lemma UnlinkIs(s: State, x: Id)
    requires Real(s, x) && s.items[x].refcount > 0
    ensures Unlink(s, x) == Put(UnlinkQ(s, x), x, s.items[x].(linked := false, refcount := s.items[x].refcount - 1))
  {
    var off := s.items[x].(linked := false);
    assert Where(Put(s, x, off), x) == Where(s, x);
  }

  lemma TakeOk(s: State, h: map<Id, nat>, x: Id)
    requires Ok(s, h, None) && Real(s, x)
    ensures Ok(Take(s, x), Plus(h, x), None) && Real(Take(s, x), x) && Where(Take(s, x), x) == Where(s, x)
  {
    hide Ok;
    RefOf(s, h, None, x);
    var it := s.items[x].(refcount := s.items[x].refcount + 1);
    PutOk(s, h, None, x, it, H(h, x) + 1);
    LocksOk(Put(s, x, it), Plus(h, x), None, s.locks + {x});
  }

  /** Giving back the lock and the reference. */
  lemma GiveOk(s: State, h: map<Id, nat>, x: Id)
    requires Ok(s, Plus(h, x), None) && x in s.items && !Inf(s, x).crawler
    ensures Ok(Give(s, x), h, None)
  {
    hide Ok;
    RefOf(s, Plus(h, x), None, x);
    var it := s.items[x].(refcount := s.items[x].refcount - 1);
    PutOk(s, Plus(h, x), None, x, it, H(h, x));
    LocksOk(Put(s, x, it), Plus(h, x)[x := H(h, x)], None, s.locks - {x});
    SameHolders(Give(s, x), Plus(h, x)[x := H(h, x)], h, None);
  }

  lemma UnlinkOk(s: State, h: map<Id, nat>, x: Id)
    requires Ok(s, h, None) && Real(s, x)
    ensures Ok(Unlink(s, x), h, None) && x in Unlink(s, x).items && Inf(Unlink(s, x), x) == Inf(s, x)
    ensures Q(Unlink(s, x), Where(s, x)) == Remove(Q(s, Where(s, x)), x)
  {
    hide Ok, Remove, Unlink;
    RefOf(s, h, None, x);
    UnlinkIs(s, x);
    UnlinkQOk(s, h, x);
    var it := s.items[x].(linked := false, refcount := s.items[x].refcount - 1);
    FloatOk(UnlinkQ(s, x), h, x, it, H(h, x));
    SameHolders(Unlink(s, x), h[x := H(h, x)], h, None);
  }

  /** A real item's ACTIVE mark is cleared and it leaves its queue. */
  lemma CalmUnlinkOk(s: State, h: map<Id, nat>, x: Id)
    requires Ok(s, h, None) && Real(s, x)
    ensures var t := UnlinkQ(Calm(s, x), x);
      Ok(t, h, Some(x)) && Real(t, x) && Where(t, x) == Where(s, x) && t.locks == s.locks
      && Q(t, Where(s, x)) == Remove(Q(s, Where(s, x)), x)
  {
    hide Ok, Remove;
    RefOf(s, h, None, x);
    PutOk(s, h, None, x, s.items[x].(active := false), H(h, x));
    SameHolders(Calm(s, x), h[x := H(h, x)], h, None);
    UnlinkQOk(Calm(s, x), h, x);
  }

  /** After the visit: the reference and the lock are given back or kept. */
  ghost predicate Visited(s: State, t: State, h: map<Id, nat>, x: Id, stop: Stop) {
    && t.info == s.info
    && (stop.Go? ==> Ok(t, h, None) && t.locks == s.locks)
    && (!stop.Go? ==> t.locks == s.locks + {x} && x in t.items && !Inf(t, x).crawler)
    && (stop.Stay? || stop.Hand? ==> Ok(t, Plus(h, x), None))
    && (stop.Move? ==> Ok(t, Plus(h, x), Some(x)) && Real(t, x))
  }

  /** The visit of an item that stays on a queue, or leaves one for good. */
  lemma QuietVisit(s: State, t: State, h: map<Id, nat>, x: Id)
    requires Ok(t, Plus(h, x), None) && Real(t, x) && t.info == s.info && t.locks == s.locks + {x} && x !in s.locks
    ensures Visited(s, t, h, x, Stay) && Visited(s, t, h, x, Hand)
    ensures Visited(s, Unlink(t, x), h, x, Stay) && Visited(s, Give(Unlink(t, x), x), h, x, Go)
  {
    hide Ok, Remove;
    UnlinkOk(t, Plus(h, x), x);
    GiveOk(Unlink(t, x), h, x);
  }

  /** The visit of an item that is taken off its queue to be linked again. */
  lemma MovingVisit(s: State, t: State, h: map<Id, nat>, x: Id, to: Lru)
    requires Ok(t, Plus(h, x), None) && Real(t, x) && t.info == s.info && t.locks == s.locks + {x} && x !in s.locks
    ensures Visited(s, UnlinkQ(t, x), h, x, Move(to)) && Visited(s, UnlinkQ(Calm(t, x), x), h, x, Move(to))
    ensures Visited(s, Give(LinkQ(UnlinkQ(Calm(t, x), x), x), x), h, x, Go)
  {
    hide Ok, Remove;
    var g := Plus(h, x);
    UnlinkQOk(t, g, x);
    CalmUnlinkOk(t, g, x);
    LinkQOk(UnlinkQ(Calm(t, x), x), g, x);
    GiveOk(LinkQ(UnlinkQ(Calm(t, x), x), x), h, x);
  }

  lemma VisitOk(s: State, env: Env, x: Id, h: map<Id, nat>)
    requires Ok(s, h, None) && Real(s, x) && x !in s.locks
    ensures var (t, n, stop) := Visit(s, env, x); Visited(s, t, h, x, stop)
  {
    hide Ok, Real, Visited, Limit, Bytes, Unlink, UnlinkQ, LinkQ, Give, Calm, Dead, Aged;
    var t := Take(s, x);
    TakeOk(s, h, x);
    QuietVisit(s, t, h, x);
    MovingVisit(s, t, h, x, Warm);
    MovingVisit(s, t, h, x, Cold);
  }

  lemma FinishOk(s: State, t: State, env: Env, x: Id, h: map<Id, nat>, stop: Stop)
    requires Visited(s, t, h, x, stop) && !stop.Go? && x !in s.locks
    ensures var u := Finish(t, env, x, stop);
      if env.returnItem then Ok(u, Plus(h, x), None) && u.locks == s.locks + {x}
        else Ok(u, h, None) && u.locks == s.locks
  {
    hide Ok;
    var u := t;
    if stop.Move? {
      MoveOk(t, Plus(h, x), x, stop.to);
      u := LinkQ(SetLru(t, x, stop.to), x);
    }
    if !env.returnItem { GiveOk(u, h, x); }
  }

  lemma MoveOk(s: State, h: map<Id, nat>, x: Id, lru: Lru)
    requires Ok(s, h, Some(x)) && Real(s, x)
    ensures var t := LinkQ(SetLru(s, x, lru), x);
      Ok(t, h, None) && x in t.items && t.info == s.info && t.locks == s.locks
  {
    hide Ok, Remove;
    RefOf(s, h, Some(x), x);
    FloatOk(s, h, x, s.items[x].(lru := lru), H(h, x));
    SameHolders(SetLru(s, x, lru), h[x := H(h, x)], h, Some(x));
    LinkQOk(SetLru(s, x, lru), h, x);
  }

  /** do_item_update keeps all of this. */
  lemma UpdateOk(s: State, h: map<Id, nat>, x: Id, segmented: bool, now: Time)
    requires Ok(s, h, None) && x in s.items && (s.items[x].linked ==> Real(s, x))
    ensures Ok(Update(s, x, segmented, now), h, None)
  {
    hide Ok, Remove;
    var it := s.items[x].(time := now);
    if s.items[x].linked {
      RefOf(s, h, None, x);
      PutOk(s, h, None, x, it, H(h, x));
      var t := Put(s, x, it);
      SameHolders(t, h[x := H(h, x)], h, None);
      UnlinkQOk(t, h, x);
      var u := UnlinkQ(t, x);
      LinkQOk(u, h, x);
      var warm := it.(lru := Warm, active := false);
      FloatOk(u, h, x, warm, H(h, x));
      SameHolders(Put(u, x, warm), h[x := H(h, x)], h, Some(x));
      LinkQOk(Put(u, x, warm), h, x);
    }
  }

  /** Where an item is after do_item_update, and that no other queue is touched. */
  lemma UpdateMoves(s: State, x: Id, segmented: bool, now: Time)
    requires Real(s, x)
    ensures var t, cold := Update(s, x, segmented, now), Qid(Inf(s, x).cls, Cold);
      var warm, here := Qid(cold.cls, Warm), Where(s, x);
      if segmented && s.items[x].lru == Cold && s.items[x].active then
        && t.items[x] == s.items[x].(time := now, lru := Warm, active := false)
        && Q(t, warm) == [x] + Q(s, warm) && Q(t, cold) == Remove(Q(s, cold), x)
        && forall q: Qid | q != warm && q != cold :: Q(t, q) == Q(s, q)
      else
        var stale := !segmented && s.items[x].time < (now - ITEM_UPDATE_INTERVAL) % 0x1_0000_0000;
        && t.items[x] == s.items[x].(time := if segmented || stale then now else s.items[x].time)
        && Q(t, here) == (if stale then [x] + Remove(Q(s, here), x) else Q(s, here))
        && forall q: Qid | q != here :: Q(t, q) == Q(s, q)
  {
    hide Remove, Size, Bytes;
  }

  // ----- what a visit does -----

  /** The queues of other items and the items themselves are as before. */
  ghost predicate OthersSame(s: State, u: State, x: Id, there: Qid) {
    && u.info == s.info
    && (forall y | y != x :: Get(u, y) == Get(s, y))
    && forall q: Qid | q != Where(s, x) && q != there :: Q(u, q) == Q(s, q)
  }

  ghost predicate Untouched(s: State, u: State, x: Id) {
    && OthersSame(s, u, x, Where(s, x)) && Q(u, Where(s, x)) == Q(s, Where(s, x))
    && Get(u, x).(refcount := 0) == Get(s, x).(refcount := 0)
  }

  ghost predicate Gone(s: State, u: State, x: Id) {
    && OthersSame(s, u, x, Where(s, x)) && Q(u, Where(s, x)) == Remove(Q(s, Where(s, x)), x)
    && !Get(u, x).linked
  }

  /** The item is at the head of another queue, or of its own, without its mark. */
  ghost predicate AtHead(s: State, u: State, x: Id, lru: Lru) {
    var here, there := Where(s, x), Qid(Inf(s, x).cls, lru);
    && OthersSame(s, u, x, there)
    && Q(u, there) == [x] + (if there == here then Remove(Q(s, here), x) else Q(s, there))
    && (there != here ==> Q(u, here) == Remove(Q(s, here), x))
    && Get(u, x).(refcount := 0) == Get(s, x).(refcount := 0, lru := lru, active := false)
  }

  lemma StaysPut(s: State, x: Id)
    requires Real(s, x)
    ensures Untouched(s, Take(s, x), x) && Untouched(s, Give(Take(s, x), x), x)
  {}

  lemma GetsUnlinked(s: State, x: Id)
    requires Real(s, x)
    ensures var t := Unlink(Take(s, x), x); Gone(s, t, x) && Gone(s, Give(t, x), x)
  {
    hide Remove, Size, Bytes;
  }

  lemma CalmToHead(s: State, x: Id, lru: Lru)
    requires Real(s, x)
    ensures var t := LinkQ(SetLru(UnlinkQ(Calm(Take(s, x), x), x), x, lru), x);
      AtHead(s, t, x, lru) && AtHead(s, Give(t, x), x, lru)
  {
    hide Remove, Size, Bytes;
  }

  lemma ToHead(s: State, x: Id, lru: Lru)
    requires Real(s, x) && !s.items[x].active
    ensures var t := LinkQ(SetLru(UnlinkQ(Take(s, x), x), x, lru), x);
      AtHead(s, t, x, lru) && AtHead(s, Give(t, x), x, lru)
  {
    hide Remove, Size, Bytes;
  }

  lemma WithinHead(s: State, x: Id)
    requires Real(s, x)
    ensures AtHead(s, Give(LinkQ(UnlinkQ(Calm(Take(s, x), x), x), x), x), x, s.items[x].lru)
  {
    hide Remove, Size, Bytes;
  }

  /** What becomes of an item that a walk visits, and of the walk: by the item's times and
      id, its queue, its mark, the size of the queue, the item's age and the flags. The age
      is a difference of 32-bit times. */
  lemma VisitOutcome(s: State, env: Env, x: Id)
    requires Real(s, x) && Where(s, x) == Qid(env.cls, env.lru)
    ensures var (t, n, stop) := Visit(s, env, x);
      var u := if stop.Go? then t else Finish(t, env, x, stop);
      var it, hot, warm := s.items[x], env.total * env.hotPct / 100, env.total * env.warmPct / 100;
      if || (it.exptime != 0 && it.exptime < env.now)
         || (0 < env.oldestLive <= env.now && it.time <= env.oldestLive)
         || (0 < env.oldestLive <= env.now && 0 < it.cas < env.oldestCas)
        then Gone(s, u, x) && n == 1 && stop == Go
      else if env.lru == Temp
        then Untouched(s, u, x) && n == 0 && stop == Stay
      else if env.lru == Cold then
        if env.evict
          then (if env.evictToFree then Gone(s, u, x) && n == 1 else Untouched(s, u, x) && n == 0) && stop == Stay
        else if env.returnItem
          then Untouched(s, u, x) && n == 0 && stop == Hand
        else if it.active && env.segmented
          then AtHead(s, u, x, Warm) && n == 1 && stop == Move(Warm)
        else Untouched(s, u, x) && n == 0 && stop == Stay
      else if it.active
        then AtHead(s, u, x, Warm) && n == 1 && stop == (if env.lru == Warm then Go else Move(Warm))
      else if || Bytes(s, Where(s, x)) > (if env.lru == Hot && hot > 0 then hot else warm)
              || (env.now - it.time) % 0x1_0000_0000 > env.maxAge
        then AtHead(s, u, x, Cold) && n == 1 && stop == Move(Cold)
      else Untouched(s, u, x) && n == 0 && stop == Stay
  {
    hide Untouched, Gone, AtHead, Unlink, UnlinkQ, LinkQ, Give, Calm, SetLru, Take, Q;
    StaysPut(s, x);
    GetsUnlinked(s, x);
    CalmToHead(s, x, Warm);
    if !s.items[x].active { ToHead(s, x, Cold); }
    WithinHead(s, x);
    TakeIs(s, x);
  }

  /** A lock and a reference more. */
  lemma TakeIs(s: State, x: Id)
    requires Real(s, x)
    ensures var t := Take(s, x);
      && Get(t, x) == s.items[x].(refcount := s.items[x].refcount + 1)
      && forall q: Qid :: Bytes(t, q) == Bytes(s, q)
  {}

  /** The other items of the queue are still on it when the walk goes on. */
  lemma GoKeepsOthers(s: State, env: Env, x: Id, y: Id)
    requires Real(s, x) && Where(s, x) == Qid(env.cls, env.lru) && Distinct(Q(s, Where(s, x)))
    requires y in Q(s, Where(s, x)) && y != x
    ensures var (t, n, stop) := Visit(s, env, x); stop.Go? ==> y in Q(t, Where(s, x))
  {
    hide Remove, Distinct, Limit, Size, Bytes;
    RemoveMembers(Q(s, Where(s, x)), x, y);
  }

  lemma QueueFacts(s: State, h: map<Id, nat>, q: Qid, x: Id)
    requires Ok(s, h, None) && x in Q(s, q)
    ensures Distinct(Q(s, q)) && Where(s, x) == q && x in s.info && x in s.items && (s.info[x].crawler || Real(s, x))
  {}

  /** On return the lock and the reference of at most one item are still held. */
  ghost predicate Kept(s: State, r: Result, h: map<Id, nat>) {
    match r.held
    case None => Ok(r.s, h, None) && r.s.locks == s.locks
    case Some(x) => Ok(r.s, Plus(h, x), None) && r.s.locks == s.locks + {x} && x !in s.locks
  }

  lemma {:induction false} PullOk(s: State, env: Env, search: Option<Id>, tries: nat, removed: nat, h: map<Id, nat>)
    requires Ok(s, h, None) && (search.Some? ==> search.value in Q(s, Qid(env.cls, env.lru)))
    ensures Kept(s, Pull(s, env, search, tries, removed), h)
    decreases tries, Depth(Q(s, Qid(env.cls, env.lru)), search)
  {
    hide Ok, Visit, Finish, Q, Plus, Real, Where, Distinct;
    if tries == 0 || search.None? { return; }
    var x := search.value;
    var q := Qid(env.cls, env.lru);
    var next := Prev(Q(s, q), x);
    QueueFacts(s, h, q, x);
    if s.info[x].crawler {
      if !env.crawlBlocks { PullOk(s, env, next, tries, removed, h); }
    } else if x in env.busy || x in s.locks {
      PullOk(s, env, next, tries - 1, removed, h);
    } else {
      var (t, n, stop) := Visit(s, env, x);
      VisitOk(s, env, x, h);
      if stop.Go? {
        if next.Some? { GoKeepsOthers(s, env, x, next.value); }
        PullOk(t, env, next, tries - 1, removed + n, h);
      } else {
        FinishOk(s, t, env, x, h, stop);
      }
    }
  }

  /** On every path a call keeps the counts of references exact, each linked item on
      exactly its own queue and the queues' counts right, and releases every item lock
      it took, but for the item it stopped at under LRU_PULL_RETURN_ITEM. */
  lemma PullTailKeeps(s: State, env: Env, h: map<Id, nat>)
    requires Ok(s, h, None)
    ensures Kept(s, PullTail(s, env), h)
    ensures PullTail(s, env).held.Some? ==> env.returnItem
  {
    hide Ok;
    var q := Q(s, Qid(env.cls, env.lru));
    if env.cls != 0 {
      var tail := if q == [] then None else Some(q[|q| - 1]);
      PullOk(s, env, tail, 5, 0, h);
      PullHeld(s, env, tail, 5, 0);
    }
  }

  /** The item that is kept is handed out exactly if the queue is COLD and nothing is to be evicted. */
  lemma {:induction false} PullHeld(s: State, env: Env, search: Option<Id>, tries: nat, removed: nat)
    ensures var r := Pull(s, env, search, tries, removed);
      (r.held.Some? ==> env.returnItem) && r.ret == if env.lru == Cold && !env.evict then r.held else None
    decreases tries, Depth(Q(s, Qid(env.cls, env.lru)), search)
  {
    hide Visit, Finish;
    if tries == 0 || search.None? { return; }
    var x := search.value;
    var next := Prev(Q(s, Qid(env.cls, env.lru)), x);
    if Inf(s, x).crawler {
      if !env.crawlBlocks { PullHeld(s, env, next, tries, removed); }
    } else if x in env.busy || x in s.locks {
      PullHeld(s, env, next, tries - 1, removed);
    } else {
      var (t, n, stop) := Visit(s, env, x);
      VisitHands(s, env, x);
      if stop.Go? { PullHeld(t, env, next, tries - 1, removed + n); }
    }
  }

  lemma VisitHands(s: State, env: Env, x: Id)
    ensures var (t, n, stop) := Visit(s, env, x);
      !stop.Go? ==> (stop.Hand? <==> env.lru == Cold && !env.evict && env.returnItem)
  {
    hide Take, Unlink, Give, UnlinkQ, LinkQ, Calm, Get, Dead, Limit, Bytes, Aged;
  }

  /** What a visit may do to the items. */
  lemma VisitItems(s: State, env: Env, x: Id, y: Id)
    requires Real(s, x) && Where(s, x) == Qid(env.cls, env.lru)
    ensures var (t, n, stop) := Visit(s, env, x);
      var it, jt := Get(s, y), Get(if stop.Go? then t else Finish(t, env, x, stop), y);
      && (jt.linked ==> it.linked && jt.exptime == it.exptime && jt.time == it.time && jt.cas == it.cas)
      && (it.linked && !jt.linked ==> Dead(env, it) || (env.lru == Cold && env.evict && env.evictToFree))
  {
    hide Visit, Finish, Q, Remove;
    VisitOutcome(s, env, x);
  }

  /** A call unlinks no item but those that are expired or flushed, and one that it was
      to evict from COLD. */
  lemma {:induction false} PullUnlinks(s: State, env: Env, search: Option<Id>, tries: nat, removed: nat,
                                       h: map<Id, nat>, y: Id)
    requires Ok(s, h, None) && (search.Some? ==> search.value in Q(s, Qid(env.cls, env.lru)))
    ensures var it, jt := Get(s, y), Get(Pull(s, env, search, tries, removed).s, y);
      && (jt.linked ==> it.linked)
      && (it.linked && !jt.linked ==> Dead(env, it) || (env.lru == Cold && env.evict && env.evictToFree))
    decreases tries, Depth(Q(s, Qid(env.cls, env.lru)), search)
  {
    hide Ok, Visit, Finish, Q, Real, Where, Distinct;
    if tries == 0 || search.None? { return; }
    var x := search.value;
    var q := Qid(env.cls, env.lru);
    var next := Prev(Q(s, q), x);
    QueueFacts(s, h, q, x);
    Unroll(s, env, x, tries, removed);
    if s.info[x].crawler {
      if !env.crawlBlocks { PullUnlinks(s, env, next, tries, removed, h, y); }
    } else if x in env.busy || x in s.locks {
      PullUnlinks(s, env, next, tries - 1, removed, h, y);
    } else {
      var (t, n, stop) := Visit(s, env, x);
      VisitItems(s, env, x, y);
      if stop.Go? {
        VisitSafe(s, env, x, h, next);
        PullUnlinks(t, env, next, tries - 1, removed + n, h, y);
      }
    }
  }

  lemma TailUnlinks(s: State, env: Env, h: map<Id, nat>, y: Id)
    requires Ok(s, h, None)
    ensures var it, jt := Get(s, y), Get(PullTail(s, env).s, y);
      && (jt.linked ==> it.linked)
      && (it.linked && !jt.linked ==> Dead(env, it) || (env.lru == Cold && env.evict && env.evictToFree))
  {
    hide Ok, Pull, Dead;
    if env.cls != 0 { PullUnlinks(s, env, Tail(Q(s, Qid(env.cls, env.lru))), 5, 0, h, y); }
  }

  /** The last `k` items of the queue are expired or flushed, and their locks are free. */
  ghost predicate DeadTail(s: State, env: Env, k: nat) {
    var q := Q(s, Qid(env.cls, env.lru));
    && k <= |q|
    && forall i | |q| - k <= i < |q| ::
         !Inf(s, q[i]).crawler && q[i] !in env.busy && q[i] !in s.locks && Dead(env, Get(s, q[i]))
  }

  lemma DeadTailFree(s: State, env: Env, k: nat)
    requires DeadTail(s, env, k)
    ensures var q := Q(s, Qid(env.cls, env.lru));
      && k <= |q|
      && (k > 0 ==> var x := q[|q| - 1];
                    !Inf(s, x).crawler && x !in env.busy && x !in s.locks && Dead(env, Get(s, x)))
  {}

  lemma IndexAt(q: seq<Id>, k: nat)
    requires Distinct(q) && k < |q|
    ensures Index(q, q[k]) == k
  {}

  lemma DeadVisit(s: State, env: Env, x: Id)
    requires Real(s, x) && Where(s, x) == Qid(env.cls, env.lru) && Dead(env, s.items[x])
    ensures var (t, n, stop) := Visit(s, env, x); stop.Go? && n == 1 && Gone(s, t, x) && t.locks == s.locks - {x}
  {
    hide Remove, Size, Bytes, Gone, Q;
    GetsUnlinked(s, x);
  }

  /** What is left of a dead tail. */
  lemma DeadTailRest(s: State, t: State, env: Env, k: nat, x: Id)
    requires DeadTail(s, env, k) && k > 0 && Gone(s, t, x) && t.locks == s.locks
    requires var q := Q(s, Qid(env.cls, env.lru));
      x == q[|q| - 1] && Distinct(q) && Q(t, Qid(env.cls, env.lru)) == q[..|q| - 1]
    ensures DeadTail(t, env, k - 1)
  {
    hide Q, Dead, Remove;
    var q := Q(s, Qid(env.cls, env.lru));
    forall i | |q| - k <= i < |q| - 1
      ensures !Inf(t, q[i]).crawler && q[i] !in env.busy && q[i] !in t.locks && Dead(env, Get(t, q[i]))
    {
      assert q[i] != x;
    }
  }

  /** The visit of its last item leaves a shorter dead tail. */
  lemma DeadTailStep(s: State, env: Env, k: nat, h: map<Id, nat>, q: seq<Id>, x: Id, t: State)
    requires Ok(s, h, None) && DeadTail(s, env, k) && k > 0
    requires q == Q(s, Qid(env.cls, env.lru)) && x == q[|q| - 1] && t == Visit(s, env, x).0
    ensures Visit(s, env, x) == (t, 1, Go) && Ok(t, h, None) && !Get(t, x).linked && DeadTail(t, env, k - 1)
    ensures Q(t, Qid(env.cls, env.lru)) == q[..|q| - 1] && Prev(q, x) == Tail(q[..|q| - 1])
  {
    hide Ok, Visit, Real, Dead, Remove, Distinct, DeadTail, Q;
    DeadTailFree(s, env, k);
    QueueFacts(s, h, Qid(env.cls, env.lru), x);
    VisitSafe(s, env, x, h, Prev(q, x));
    DeadVisit(s, env, x);
    IndexAt(q, |q| - 1);
    RemoveAt(q, |q| - 1);
    assert t.locks == s.locks;
    assert Q(t, Qid(env.cls, env.lru)) == q[..|q| - 1];
    DeadTailRest(s, t, env, k, x);
  }

  /** A call reclaims all that is expired or flushed at the tail, up to its five tries. */
  lemma {:induction false} PullReclaims(s: State, env: Env, k: nat, tries: nat, removed: nat, h: map<Id, nat>, i: nat)
    requires Ok(s, h, None) && DeadTail(s, env, k) && k <= tries
    requires |Q(s, Qid(env.cls, env.lru))| - k <= i < |Q(s, Qid(env.cls, env.lru))|
    ensures var q := Q(s, Qid(env.cls, env.lru));
      var r := Pull(s, env, Tail(q), tries, removed);
      !Get(r.s, q[i]).linked
    decreases k
  {
    hide Ok, Visit, Finish, Real, Dead, DeadTail, Distinct, Q, Pull, Prev;
    var q := Q(s, Qid(env.cls, env.lru));
    var x := q[|q| - 1];
    var t := Visit(s, env, x).0;
    DeadTailFree(s, env, k);
    DeadTailStep(s, env, k, h, q, x, t);
    Unroll(s, env, x, tries, removed);
    if i == |q| - 1 {
      PullUnlinks(t, env, Tail(q[..|q| - 1]), tries - 1, removed + 1, h, x);
    } else {
      PullReclaims(t, env, k - 1, tries - 1, removed + 1, h, i);
    }
  }

  lemma TailReclaimed(s: State, env: Env, k: nat, h: map<Id, nat>)
    requires Ok(s, h, None) && DeadTail(s, env, k) && k <= 5 && env.cls != 0
    ensures var q := Q(s, Qid(env.cls, env.lru));
      forall i | |q| - k <= i < |q| :: !Get(PullTail(s, env).s, q[i]).linked
  {
    hide Ok, DeadTail, Q, Pull;
    var q := Q(s, Qid(env.cls, env.lru));
    DeadTailFree(s, env, k);
    forall i | |q| - k <= i < |q| ensures !Get(PullTail(s, env).s, q[i]).linked {
      PullReclaims(s, env, k, 5, 0, h, i);
    }
  }

  /** So a lock and a reference are lost, held but handed to nobody, only in calls that
      ask for an item on another queue or with eviction; in such calls they are lost
      whenever the walk stops at an item. */
  lemma NothingLost(s: State, env: Env)
    ensures (env.lru == Cold && !env.evict) || !env.returnItem ==> PullTail(s, env).held == PullTail(s, env).ret
    ensures !((env.lru == Cold && !env.evict) || !env.returnItem) ==> PullTail(s, env).ret == None
  {
    var q := Q(s, Qid(env.cls, env.lru));
    if env.cls != 0 { PullHeld(s, env, if q == [] then None else Some(q[|q| - 1]), 5, 0); }
  }

  /** A number above all of a set. */
  ghost function Above(s: set<nat>): (n: nat)
    ensures forall x | x in s :: x < n
  {
    if s == {} then 0 else
      var x :| x in s;
      assert forall y | y in s :: y == x || y in s - {x};
      var n := Above(s - {x});
      if x < n then n else x + 1
  }

  /** A queue with a single item. */
  ghost function Single(q: Qid, x: Id, time: Time): State {
    State(map[x := Info(q.cls, 10, false)], map[x := Item(q.lru, true, false, 1, time, 0, 0)], map[q := [x]],
          map[q := 1], map[q := 10], {})
  }

  lemma SingleOk(q: Qid, x: Id, time: Time)
    ensures Ok(Single(q, x, time), map[], None)
  {
    var s := Single(q, x, time);
    assert [x][1..] == [];
    assert Count(s.info, [x]) == 1 + Count(s.info, []);
    assert Total(s.info, [x]) == 10 + Total(s.info, []);
  }

  /** The walk stops at an item that is neither busy, dead nor active. */
  lemma SingleStops(env: Env, x: Id, time: Time)
    requires env.cls != 0 && x !in env.busy && (time > env.oldestLive || !(0 < env.oldestLive <= env.now))
    ensures PullTail(Single(Qid(env.cls, env.lru), x, time), env).held == if env.returnItem then Some(x) else None
  {
    hide Limit;
  }

  /** Items of every time there is are flushed. */
  predicate AllFlushed(env: Env) { env.oldestLive == env.now == 0xffff_ffff }

  /** Then the walk stops at no item. */
  lemma {:induction false} AllFlushedHeld(s: State, env: Env, search: Option<Id>, tries: nat, removed: nat)
    requires AllFlushed(env)
    ensures Pull(s, env, search, tries, removed).held == None
    decreases tries, Depth(Q(s, Qid(env.cls, env.lru)), search)
  {
    hide Unlink;
    if tries == 0 || search.None? { return; }
    var x := search.value;
    var next := Prev(Q(s, Qid(env.cls, env.lru)), x);
    if Inf(s, x).crawler {
      if !env.crawlBlocks { AllFlushedHeld(s, env, next, tries, removed); }
    } else if x in env.busy || x in s.locks {
      AllFlushedHeld(s, env, next, tries - 1, removed);
    } else {
      var (t, n, stop) := Visit(s, env, x);
      AllFlushedHeld(t, env, next, tries - 1, removed + n);
    }
  }

  /** Whether a call may lose a lock and a reference depends on its flags and the clock
      alone: it cannot, whatever the queues hold, exactly if it is on class 0, or asks
      for no item, or asks for one on COLD without evicting, or every item is flushed. */
  lemma NothingLostExactly(env: Env)
    ensures (forall s: State | Ok(s, map[], None) :: PullTail(s, env).held == PullTail(s, env).ret)
      <==> (env.cls == 0 || !env.returnItem || (env.lru == Cold && !env.evict) || AllFlushed(env))
  {
    hide Ok, PullTail, Flushed;
    if env.cls == 0 {
      forall s: State ensures PullTail(s, env).held == PullTail(s, env).ret { ClassZero(s, env); }
    } else if !env.returnItem || (env.lru == Cold && !env.evict) {
      forall s: State ensures PullTail(s, env).held == PullTail(s, env).ret { NothingLost(s, env); }
    } else if AllFlushed(env) {
      forall s: State ensures PullTail(s, env).held == PullTail(s, env).ret { NoneHeld(s, env); }
    } else {
      SomeLost(env);
    }
  }

  lemma NoneHeld(s: State, env: Env)
    requires AllFlushed(env)
    ensures PullTail(s, env).held == PullTail(s, env).ret
  {
    hide Pull;
    var q := Q(s, Qid(env.cls, env.lru));
    AllFlushedHeld(s, env, if q == [] then None else Some(q[|q| - 1]), 5, 0);
    PullHeld(s, env, if q == [] then None else Some(q[|q| - 1]), 5, 0);
  }

  lemma SomeLost(env: Env)
    requires env.cls != 0 && env.returnItem && !(env.lru == Cold && !env.evict) && !AllFlushed(env)
    ensures exists s: State :: Ok(s, map[], None) && PullTail(s, env).held != PullTail(s, env).ret
  {
    hide Ok, PullTail;
    var x := Above(env.busy);
    var time := if env.oldestLive < 0xffff_ffff then env.oldestLive + 1 else 0;
    var q := Qid(env.cls, env.lru);
    SingleOk(q, x, time);
    SingleStops(env, x, time);
    NothingLost(Single(q, x, time), env);
  }

  lemma ClassZero(s: State, env: Env)
    requires env.cls == 0
    ensures PullTail(s, env) == Result(s, 0, None, None)
  {}

  // ----- the code -----

  class Cache {
    const info: map<Id, Info>
    var items: map<Id, Item>
    var queues: map<Qid, seq<Id>>
    var sizes: map<Qid, int>
    var bytes: map<Qid, int>
    var locks: set<Id>

    ghost function Snapshot(): State
      reads this
    {
      State(info, items, queues, sizes, bytes, locks)
    }

    constructor (info: map<Id, Info>)
      ensures this.info == info && Snapshot() == State(info, map[], map[], map[], map[], {})
      ensures Ok(Snapshot(), map[], None)
    {
      this.info, items, queues, sizes, bytes, locks := info, map[], map[], map[], map[], {};
    }

    function ItemAt(x: Id): Item
      reads this
    {
      if x in items then items[x] else NO_ITEM
    }

    function InfoOf(x: Id): Info {
      if x in info then info[x] else Info(0, 0, false)
    }

    function List(q: Qid): seq<Id>
      reads this
    {
      if q in queues then queues[q] else []
    }

    method DoItemLinkQ(x: Id)
      modifies `queues, `sizes, `bytes
      ensures Snapshot() == LinkQ(old(Snapshot()), x)
    {
      var q := Qid(InfoOf(x).cls, ItemAt(x).lru);
      ghost var s := Snapshot();
      assert q == Where(s, x) && List(q) == Q(s, q);
      hide Where, Q;
      queues := queues[q := [x] + List(q)];
      sizes := sizes[q := (if q in sizes then sizes[q] else 0) + 1];
      bytes := bytes[q := (if q in bytes then bytes[q] else 0) + InfoOf(x).bytes];
    }

    method DoItemUnlinkQ(x: Id)
      modifies `queues, `sizes, `bytes
      ensures Snapshot() == UnlinkQ(old(Snapshot()), x)
    {
      var q := Qid(InfoOf(x).cls, ItemAt(x).lru);
      var rest := Remove(List(q), x);
      ghost var s := Snapshot();
      assert q == Where(s, x) && rest == Remove(Q(s, q), x);
      hide Remove, Where, Q;
      queues := queues[q := rest];
      sizes := sizes[q := (if q in sizes then sizes[q] else 0) - 1];
      bytes := bytes[q := (if q in bytes then bytes[q] else 0) - InfoOf(x).bytes];
    }

    method DoItemRemove(x: Id)
      requires ItemAt(x).refcount > 0
      modifies `items
      ensures Snapshot() == Drop(old(Snapshot()), x)
    {
      items := items[x := ItemAt(x).(refcount := ItemAt(x).refcount - 1)];
    }

    method DoItemUnlinkNolock(x: Id)
      requires ItemAt(x).refcount > 0
      modifies this
      ensures Snapshot() == Unlink(old(Snapshot()), x)
    {
      if ItemAt(x).linked {
        items := items[x := ItemAt(x).(linked := false)];
        DoItemUnlinkQ(x);
        DoItemRemove(x);
      }
    }

    method TrylockUnlock(x: Id)
      modifies `locks
      ensures locks == old(locks) - {x}
    {
      locks := locks - {x};
    }

    method ClearActive(x: Id)
      modifies `items
      ensures Snapshot() == Calm(old(Snapshot()), x)
    {
      items := items[x := ItemAt(x).(active := false)];
    }

    method DoItemUpdate(x: Id, segmented: bool, now: Time)
      modifies this
      ensures Snapshot() == Update(old(Snapshot()), x, segmented, now)
    {
      hide Remove, LinkQ, UnlinkQ;
      if segmented {
        if ItemAt(x).linked {
          if ItemAt(x).lru == Cold && ItemAt(x).active {
            items := items[x := ItemAt(x).(time := now)];
            DoItemUnlinkQ(x);
            items := items[x := ItemAt(x).(lru := Warm, active := false)];
            DoItemLinkQ(x);
          } else {
            items := items[x := ItemAt(x).(time := now)];
          }
        }
      } else if ItemAt(x).time < Minus(now, ITEM_UPDATE_INTERVAL) {
        if ItemAt(x).linked {
          items := items[x := ItemAt(x).(time := now)];
          DoItemUnlinkQ(x);
          DoItemLinkQ(x);
        }
      }
    }

    /** The HOT and WARM cases of the switch; `limit` is kept from one item to the next. */
    method HotWarm(env: Env, x: Id, was: nat) returns (n: nat, stop: Stop, limit: nat)
      requires env.lru == Hot || env.lru == Warm
      requires was == 0 || was == Limit(env)
      requires ItemAt(x).refcount > 0 && !Dead(env, ItemAt(x))
      modifies this
      ensures limit == Limit(env)
      ensures ItemAt(x).linked == old(ItemAt(x).linked)
      ensures (Snapshot(), n, stop) == OnTaken(old(Snapshot()), env, x)
    {
      hide Remove;
      n, stop, limit := 0, Stay, was;
      if env.lru == Hot { limit := env.total * env.hotPct / 100; }
      if limit == 0 { limit := env.total * env.warmPct / 100; }
      if ItemAt(x).active {
        ClearActive(x);
        n := 1;
        DoItemUnlinkQ(x);
        if env.lru == Warm {
          DoItemLinkQ(x);
          DoItemRemove(x);
          TrylockUnlock(x);
          stop := Go;
        } else {
          stop := Move(Warm);
        }
      } else if (if Qid(env.cls, env.lru) in bytes then bytes[Qid(env.cls, env.lru)] else 0) > limit ||
        Aged(env, ItemAt(x)) {
        DoItemUnlinkQ(x);
        n, stop := 1, Move(Cold);
      }
    }

    /** The COLD case. */
    method ColdCase(env: Env, x: Id) returns (n: nat, stop: Stop)
      requires env.lru == Cold && ItemAt(x).refcount > 0 && !Dead(env, ItemAt(x))
      modifies this
      ensures (Snapshot(), n, stop) == OnTaken(old(Snapshot()), env, x)
    {
      hide Remove;
      n, stop := 0, Stay;
      if env.evict {
        if env.evictToFree {
          DoItemUnlinkNolock(x);
          n := 1;
        }
      } else if env.returnItem {
        stop := Hand;
      } else if ItemAt(x).active && env.segmented {
        ClearActive(x);
        DoItemUnlinkQ(x);
        n, stop := 1, Move(Warm);
      }
    }

    /** After the walk stopped at an item. */
    method AtStop(env: Env, x: Id, stop: Stop)
      requires ItemAt(x).refcount > 0
      modifies this
      ensures Snapshot() == Finish(old(Snapshot()), env, x, stop)
    {
      hide Remove;
      if stop.Move? {
        items := items[x := ItemAt(x).(lru := stop.to)];
        DoItemLinkQ(x);
      }
      if !env.returnItem {
        DoItemRemove(x);
        TrylockUnlock(x);
      }
    }

    method TakeItem(x: Id)
      modifies `items, `locks
      ensures Snapshot() == Take(old(Snapshot()), x)
    {
      locks := locks + {x};
      items := items[x := ItemAt(x).(refcount := ItemAt(x).refcount + 1)];
    }

    /** The visit of one item; the trylock has succeeded. */
    method VisitItem(env: Env, x: Id, was: nat) returns (n: nat, stop: Stop, limit: nat)
      requires was == 0 || was == Limit(env)
      requires ItemAt(x).refcount > 0 && ItemAt(x).linked
      modifies this
      ensures limit == 0 || limit == Limit(env)
      ensures (Snapshot(), n, stop) == Visit(old(Snapshot()), env, x)
    {
      hide Remove, Limit;
      limit := was;
      TakeItem(x);
      if Dead(env, ItemAt(x)) {
        DoItemUnlinkNolock(x);
        DoItemRemove(x);
        TrylockUnlock(x);
        n, stop := 1, Go;
      } else if env.lru == Hot || env.lru == Warm {
        n, stop, limit := HotWarm(env, x, was);
      } else if env.lru == Cold {
        n, stop := ColdCase(env, x);
      } else {
        n, stop := 0, Stay;
      }
    }

    /** lru_pull_tail, with tail repair off. A crawler costs no try. */
    method LruPullTail(env: Env, ghost h: map<Id, nat>) returns (removed: nat, ret: Option<Id>, ghost held: Option<Id>)
      requires Ok(Snapshot(), h, None)
      modifies this
      ensures Result(Snapshot(), removed, held, ret) == PullTail(old(Snapshot()), env)
      ensures Kept(old(Snapshot()), Result(Snapshot(), removed, held, ret), h)
    {
      hide Ok, Visit, Finish, Kept, Pull, Take;
      PullTailKeeps(Snapshot(), env, h);
      removed, ret, held := 0, None, None;
      if env.cls == 0 { return; }
      var q := Qid(env.cls, env.lru);
      var tries, limit := 5, 0;
      var search := if List(q) == [] then None else Some(List(q)[|List(q)| - 1]);
      while tries > 0 && search.Some?
        invariant tries >= 0
        invariant Pull(Snapshot(), env, search, tries, removed) == PullTail(old(Snapshot()), env)
        invariant Ok(Snapshot(), h, None) && (search.Some? ==> search.value in List(q))
        invariant limit == 0 || limit == Limit(env)
        decreases tries, Depth(List(q), search)
      {
        var x := search.value;
        var next := Prev(List(q), x);
        Unroll(Snapshot(), env, x, tries, removed);
        QueueFacts(Snapshot(), h, q, x);
        if InfoOf(x).crawler {
          if env.crawlBlocks {
            removed := 0;
            return;
          }
          tries := tries + 1;
        } else if x !in env.busy && x !in locks {
          VisitSafe(Snapshot(), env, x, h, next);
          var n, stop;
          ghost var before := Snapshot();
          n, stop, limit := VisitItem(env, x, limit);
          removed := removed + n;
          if stop != Go {
            StopSafe(before, env, x, h);
            AtStop(env, x, stop);
            held := if env.returnItem then Some(x) else None;
            ret := if stop.Hand? then Some(x) else None;
            return;
          }
        }
        tries, search := tries - 1, next;
      }
      Unrolled(Snapshot(), env, search, tries, removed);
    }
  }

  lemma Unroll(s: State, env: Env, x: Id, tries: nat, removed: nat)
    requires tries > 0
    ensures var next := Prev(Q(s, Qid(env.cls, env.lru)), x);
      var (t, n, stop) := Visit(s, env, x);
      Pull(s, env, Some(x), tries, removed) ==
        if Inf(s, x).crawler then
          if env.crawlBlocks then Result(s, 0, None, None) else Pull(s, env, next, tries, removed)
        else if x in env.busy || x in s.locks then Pull(s, env, next, tries - 1, removed)
        else if stop.Go? then Pull(t, env, next, tries - 1, removed + n)
        else Result(Finish(t, env, x, stop), removed + n,
                    if env.returnItem then Some(x) else None, if stop.Hand? then Some(x) else None)
  {
    hide Visit, Finish;
  }

  lemma Unrolled(s: State, env: Env, search: Option<Id>, tries: nat, removed: nat)
    requires tries == 0 || search.None?
    ensures Pull(s, env, search, tries, removed) == Result(s, removed, None, None)
  {}

  /** The item can be visited, and the walk can go on from the item before it. */
  lemma VisitSafe(s: State, env: Env, x: Id, h: map<Id, nat>, next: Option<Id>)
    requires Ok(s, h, None) && Real(s, x) && x !in s.locks && Where(s, x) == Qid(env.cls, env.lru)
    requires x in Q(s, Where(s, x))
    requires next == Prev(Q(s, Qid(env.cls, env.lru)), x)
    ensures s.items[x].refcount > 0 && s.items[x].linked
    ensures var (t, n, stop) := Visit(s, env, x);
      stop.Go? ==> Ok(t, h, None) && (next.Some? ==> next.value in Q(t, Qid(env.cls, env.lru)))
  {
    hide Ok, Visit;
    RefOf(s, h, None, x);
    VisitOk(s, env, x, h);
    QueueFacts(s, h, Where(s, x), x);
    if next.Some? { GoKeepsOthers(s, env, x, next.value); }
  }

  lemma StopSafe(s: State, env: Env, x: Id, h: map<Id, nat>)
    requires Ok(s, h, None) && Real(s, x) && x !in s.locks
    ensures var (t, n, stop) := Visit(s, env, x); !stop.Go? ==> Get(t, x).refcount > 0
  {
    hide Ok, Visit;
    VisitOk(s, env, x, h);
    var (t, n, stop) := Visit(s, env, x);
    if !stop.Go? { RefOf(t, Plus(h, x), if stop.Move? then Some(x) else None, x); }
  }
}

/**
 * Hits on items in the COLD queue, and the buffers by which they are moved to WARM.
 *
 * A worker thread that hits an item twice marks it ACTIVE. If the item is in COLD
 * the thread also leaves an entry, with a reference to the item, in its own byte
 * buffer, and the LRU maintainer later moves the item when it drains the buffer.
 * Other threads link, unlink, pull and update items at any time in between. Each
 * event below happens under the item's lock.
 */
module LruBump {
  import opened ByteStrings
  import Bip = BipBufferModel
  import opened LruKinds
  import opened Options
  import Tail = LruPull

  /** An item is named by its address. */
  type Id = nat

  /** `holders` counts the references of connections and threads. */
  datatype Item = Item(lru: Lru, linked: bool, active: bool, fetched: bool, refcount: nat, holders: nat)

  /** A worker's bump buffer, and how many entries of the peeked window are drained. */
  datatype Buffer = Buffer(bip: Bip.State, done: nat)

  datatype State = State(items: map<Id, Item>, bufs: seq<Buffer>)

  // ----- entries in a byte buffer -----

  function LittleEndian(b: seq<Byte>): nat {
    if b == [] then 0 else b[0] as nat + 256 * LittleEndian(b[1..])
  }

  /** lru_bump_entry: the item's address, then the hash and padding. */
  function Pointer(entry: seq<Byte>): Id
    requires |entry| == Bip.ENTRY
  {
    LittleEndian(entry[..8])
  }

  predicate Whole(b: seq<Byte>) {
    |b| % Bip.ENTRY == 0
  }

  function Entries(b: seq<Byte>): seq<Id> {
    if |b| < Bip.ENTRY then [] else [Pointer(b[..Bip.ENTRY])] + Entries(b[Bip.ENTRY..])
  }

  lemma {:induction false} EntriesAppend(b: seq<Byte>, e: seq<Byte>)
    requires Whole(b) && |e| == Bip.ENTRY
    ensures Entries(b + e) == Entries(b) + [Pointer(e)]
  {
    hide Pointer;
    var n := Bip.ENTRY;
    if |b| == 0 {
      assert b + e == e && e[..n] == e;
    } else {
      EntriesAppend(b[n..], e);
      assert (b + e)[..n] == b[..n] && (b + e)[n..] == b[n..] + e;
    }
  }

  /** The bytes of the entries that are not drained yet. */
  function Left(b: Buffer): seq<Byte> {
    if Bip.ENTRY * b.done <= |b.bip.fifo| then b.bip.fifo[Bip.ENTRY * b.done..] else []
  }

  ghost predicate BufOk(b: Buffer) {
    && Bip.Inv(b.bip) && Bip.Aligned(b.bip.ring) && Whole(b.bip.fifo) && Bip.ENTRY * b.done <= |b.bip.fifo|
    && (if b.bip.window.None? then b.done == 0
        else b.bip.window.value % Bip.ENTRY == 0 && Bip.ENTRY * b.done <= b.bip.window.value)
  }

  ghost function Pend(b: Buffer, id: Id): nat {
    multiset(Entries(Left(b)))[id]
  }

  /** The entries for an item that are not drained yet, over all buffers. */
  ghost function Pending(bs: seq<Buffer>, id: Id): nat {
    if bs == [] then 0 else Pend(bs[0], id) + Pending(bs[1..], id)
  }

  lemma {:induction false} PendingUpdate(bs: seq<Buffer>, t: nat, b: Buffer, id: Id)
    requires t < |bs|
    ensures Pending(bs[t := b], id) == Pending(bs, id) - Pend(bs[t], id) + Pend(b, id)
    ensures Pending(bs, id) >= Pend(bs[t], id)
  {
    hide Pend;
    if t > 0 {
      PendingUpdate(bs[1..], t - 1, b, id);
      assert bs[t := b][1..] == bs[1..][t - 1 := b];
    } else {
      assert bs[t := b][1..] == bs[1..];
    }
  }

  // ----- one buffer -----

  /** lru_bump_async finds room for an entry. */
  predicate HasRoom(b: Buffer) {
    Bip.ENTRY <= b.bip.ring.Unused()
  }

  ghost function Commit(b: Buffer, entry: seq<Byte>): Buffer {
    if b.bip.ring.Valid() && |entry| <= b.bip.ring.Unused()
    then Buffer(Bip.Next(b.bip, Bip.WriterCommit(entry)), b.done) else b
  }

  ghost function Peek(b: Buffer): Buffer {
    if b.bip.ring.Valid() then Buffer(Bip.Next(b.bip, Bip.ReaderPeek), b.done) else b
  }

  function Advance(b: Buffer): Buffer {
    b.(done := b.done + 1)
  }

  ghost function PollAll(b: Buffer): Buffer {
    if b.bip.ring.Valid() && b.bip.window.Some?
    then Buffer(Bip.Next(b.bip, Bip.ReaderPoll(b.bip.window.value)), 0) else b
  }

  predicate Draining(b: Buffer) {
    b.bip.window.Some? && Bip.ENTRY * b.done < b.bip.window.value
  }

  predicate Drained(b: Buffer) {
    b.bip.window.Some? && Bip.ENTRY * b.done == b.bip.window.value
  }

  lemma WindowFits(b: Buffer)
    requires Bip.Inv(b.bip) && b.bip.window.Some?
    ensures b.bip.window.value <= |b.bip.fifo|
  {}

  lemma CommitLeft(b: Buffer, e: seq<Byte>)
    requires b.bip.ring.Valid() && Bip.ENTRY * b.done <= |b.bip.fifo| && |e| <= b.bip.ring.Unused()
    ensures Left(Commit(b, e)) == Left(b) + e
  {
    var f, n := b.bip.fifo, Bip.ENTRY * b.done;
    assert (f + e)[n..] == f[n..] + e;
  }

  lemma CommitBuf(b: Buffer, e: seq<Byte>)
    requires BufOk(b) && HasRoom(b) && |e| == Bip.ENTRY
    ensures BufOk(Commit(b, e)) && Entries(Left(Commit(b, e))) == Entries(Left(b)) + [Pointer(e)]
  {
    RingOk(b);
    hide Pointer, Entries, Bip.Aligned, Bip.Inv, Bip.Next, Commit, Left, Whole;
    Bip.StepKeepsInv(b.bip, Bip.WriterCommit(e));
    Bip.EntriesStayAligned(b.bip, Bip.WriterCommit(e));
    CommitFacts(b, e);
    CommitLeft(b, e);
    LeftWhole(b, e);
    EntriesAppend(Left(b), e);
  }

  lemma RingOk(b: Buffer)
    requires BufOk(b)
    ensures b.bip.ring.Valid()
  {}

  lemma CommitFacts(b: Buffer, e: seq<Byte>)
    requires b.bip.ring.Valid() && |e| <= b.bip.ring.Unused()
    ensures Commit(b, e) == Buffer(Bip.Next(b.bip, Bip.WriterCommit(e)), b.done)
    ensures Commit(b, e).bip.fifo == b.bip.fifo + e && Commit(b, e).bip.window == b.bip.window
  {}

  lemma LeftWhole(b: Buffer, e: seq<Byte>)
    requires Whole(b.bip.fifo) && Bip.ENTRY * b.done <= |b.bip.fifo| && |e| == Bip.ENTRY
    ensures Whole(Left(b)) && Whole(b.bip.fifo + e)
  {}

  lemma PeekBuf(b: Buffer)
    requires BufOk(b) && b.bip.window.None?
    ensures BufOk(Peek(b)) && Left(Peek(b)) == Left(b)
  {
    Bip.StepKeepsInv(b.bip, Bip.ReaderPeek);
    Bip.EntriesStayAligned(b.bip, Bip.ReaderPeek);
  }

  /** Draining one entry takes the oldest one that is left, and never steps over the window. */
  lemma AdvanceBuf(b: Buffer)
    requires BufOk(b) && Draining(b)
    ensures |Left(b)| >= Bip.ENTRY
    ensures BufOk(Advance(b)) && Entries(Left(b)) == [Pointer(Left(b)[..Bip.ENTRY])] + Entries(Left(Advance(b)))
  {
    hide Pointer, Bip.Aligned;
    WindowFits(b);
    assert Left(Advance(b)) == Left(b)[Bip.ENTRY..];
  }

  lemma PollBuf(b: Buffer)
    requires BufOk(b) && Drained(b)
    ensures BufOk(PollAll(b)) && Left(PollAll(b)) == Left(b)
  {
    RingOk(b);
    WindowFits(b);
    hide Bip.Aligned, Bip.Inv, Bip.Next, PollAll, Whole;
    Bip.StepKeepsInv(b.bip, Bip.ReaderPoll(b.bip.window.value));
    Bip.EntriesStayAligned(b.bip, Bip.ReaderPoll(b.bip.window.value));
    PollFacts(b);
    RestWhole(b.bip.fifo, b.bip.window.value);
  }

  lemma RestWhole(fifo: seq<Byte>, n: nat)
    requires Whole(fifo) && n % Bip.ENTRY == 0 && n <= |fifo|
    ensures Whole(fifo[n..])
  {}

  lemma PollFacts(b: Buffer)
    requires b.bip.ring.Valid() && b.bip.window.Some? && b.bip.window.value <= |b.bip.fifo|
    ensures PollAll(b) == Buffer(Bip.Next(b.bip, Bip.ReaderPoll(b.bip.window.value)), 0)
    ensures PollAll(b).bip.fifo == b.bip.fifo[b.bip.window.value..] && PollAll(b).bip.window == None
  {}

  // ----- items -----

  /** do_item_update */
  function Updated(it: Item): Item {
    if it.linked && it.lru == Cold && it.active then it.(lru := Warm, active := false) else it
  }

  /** do_item_remove */
  function Removed(it: Item): Item {
    if it.refcount == 0 then it else it.(refcount := it.refcount - 1)
  }

  /** do_item_bump, where `entry` tells whether an entry was left for the item. */
  function Bumped(it: Item, entry: bool): Item {
    if it.active then it
    else if !it.fetched then it.(fetched := true)
    else if it.lru != Cold then it.(active := true)
    else if entry then it.(active := true, refcount := it.refcount + 1)
    else it
  }

  /** The hit is one that asks for an entry. */
  predicate Asks(it: Item) {
    !it.active && it.fetched && it.lru == Cold
  }

  /** What lru_pull_tail does to an item it moves: ACTIVE items of HOT and WARM go to
      WARM and other ones to COLD, ACTIVE items of COLD go to WARM. */
  function Pulled(it: Item): Item {
    match it.lru
    case Hot => if it.active then it.(lru := Warm, active := false) else it.(lru := Cold)
    case Warm => if it.active then it.(active := false) else it.(lru := Cold)
    case Cold => if it.active then it.(lru := Warm, active := false) else it
    case Temp => it
  }

  /** The same item in the model of lru_pull_tail: its queue, whether it is linked, and its ACTIVE mark. */
  ghost predicate Matches(it: Item, there: Tail.Item) {
    it.lru == there.lru && it.linked == there.linked && it.active == there.active
  }

  lemma QueuesOnly(s: Tail.State, x: Tail.Id)
    ensures Tail.UnlinkQ(s, x).items == s.items && Tail.LinkQ(s, x).items == s.items
  {}

  lemma MarksKept(s: Tail.State, x: Tail.Id, it: Item)
    requires x in s.items && Matches(it, s.items[x])
    ensures x in Tail.Give(s, x).items && Matches(it, Tail.Give(s, x).items[x])
    ensures x in Tail.Take(s, x).items && Matches(it, Tail.Take(s, x).items[x])
  {}

  lemma UnlinkMarks(s: Tail.State, x: Tail.Id, it: Item)
    requires x in s.items && Matches(it, s.items[x])
    ensures x in Tail.Unlink(s, x).items && Matches(it.(linked := false), Tail.Unlink(s, x).items[x])
  {
    QueuesOnly(Tail.Put(s, x, s.items[x].(linked := false)), x);
  }

  lemma CalmMarks(s: Tail.State, x: Tail.Id, it: Item)
    requires x in s.items && Matches(it, s.items[x])
    ensures var t := Tail.UnlinkQ(Tail.Calm(s, x), x);
      x in t.items && Matches(it.(active := false), t.items[x])
      && x in Tail.LinkQ(t, x).items && Matches(it.(active := false), Tail.LinkQ(t, x).items[x])
  {
    hide Tail.UnlinkQ, Tail.LinkQ;
    QueuesOnly(Tail.Calm(s, x), x);
    QueuesOnly(Tail.UnlinkQ(Tail.Calm(s, x), x), x);
  }

  lemma MoveMarks(s: Tail.State, x: Tail.Id, it: Item, lru: Lru)
    requires x in s.items && Matches(it, s.items[x])
    ensures var t := Tail.LinkQ(Tail.SetLru(s, x, lru), x); x in t.items && Matches(it.(lru := lru), t.items[x])
  {
    hide Tail.LinkQ;
    QueuesOnly(Tail.SetLru(s, x, lru), x);
  }

  /** do_item_update relinks the item in the queues as `Updated` says. */
  lemma UpdateIsUpdated(s: Tail.State, x: Tail.Id, it: Item, now: Tail.Time)
    requires x in s.items && Matches(it, s.items[x])
    ensures var t := Tail.Update(s, x, true, now); x in t.items && Matches(Updated(it), t.items[x])
  {
    hide Tail.UnlinkQ, Tail.LinkQ;
    var u := Tail.Put(s, x, s.items[x].(time := now));
    QueuesOnly(u, x);
    QueuesOnly(Tail.Put(Tail.UnlinkQ(u, x), x, u.items[x].(lru := Warm, active := false)), x);
  }

  /** The item after a visit, before the call ends. */
  ghost predicate Seen(it: Item, there: Tail.Item, stop: Tail.Stop) {
    match stop
    case Go => Matches(it.(linked := false), there) || (it.lru == Warm && it.active && Matches(Pulled(it), there))
    case Move(to) => Matches(it.(active := false), there) && Pulled(it) == it.(active := false, lru := to)
    case _ => Matches(it, there) || Matches(it.(linked := false), there)
  }

  lemma VisitSeen(s: Tail.State, env: Tail.Env, x: Tail.Id, it: Item)
    requires Tail.Real(s, x) && Tail.Where(s, x) == Tail.Qid(env.cls, env.lru) && Matches(it, s.items[x])
    ensures var (t, n, stop) := Tail.Visit(s, env, x); x in t.items && Seen(it, t.items[x], stop)
  {
    hide Tail.Bytes, Tail.Limit, Tail.UnlinkQ, Tail.LinkQ, Tail.Unlink, Tail.Give, Tail.Take, Tail.Calm;
    var t := Tail.Take(s, x);
    MarksKept(s, x, it);
    UnlinkMarks(t, x, it);
    MarksKept(Tail.Unlink(t, x), x, it.(linked := false));
    CalmMarks(t, x, it);
    MarksKept(Tail.LinkQ(Tail.UnlinkQ(Tail.Calm(t, x), x), x), x, it.(active := false));
    QueuesOnly(t, x);
  }

  /** What lru_pull_tail does to an item it looks at, over all its cases, is one of the
      events below: it is left alone, moved as `Pulled` says, or unlinked. */
  lemma PullIsOneOf(s: Tail.State, env: Tail.Env, x: Tail.Id, it: Item)
    requires Tail.Real(s, x) && Tail.Where(s, x) == Tail.Qid(env.cls, env.lru) && Matches(it, s.items[x])
    ensures var (t, n, stop) := Tail.Visit(s, env, x);
      var u := if stop.Go? then t else Tail.Finish(t, env, x, stop);
      x in u.items && (Matches(it, u.items[x]) || Matches(Pulled(it), u.items[x]) ||
        Matches(it.(linked := false), u.items[x]))
  {
    hide Tail.Visit, Tail.LinkQ, Tail.SetLru, Tail.Give;
    var (t, n, stop) := Tail.Visit(s, env, x);
    VisitSeen(s, env, x, it);
    if stop.Move? {
      MoveMarks(t, x, it.(active := false), stop.to);
      MarksKept(Tail.LinkQ(Tail.SetLru(t, x, stop.to), x), x, Pulled(it));
    } else if Matches(it, t.items[x]) {
      MarksKept(t, x, it);
    } else if !stop.Go? {
      MarksKept(t, x, it.(linked := false));
    }
  }

  datatype Event =
    | Make(id: Id, lru: Lru)               // do_item_alloc
    | Link(id: Id)                         // do_item_link
    | Unlink(id: Id)                       // do_item_unlink, an eviction included
    | Hold(id: Id)                         // do_item_get
    | Release(id: Id)                      // do_item_remove by a holder
    | Update(id: Id)                       // do_item_update
    | Pull(id: Id)                         // a move by lru_pull_tail
    | Hit(id: Id, t: nat, entry: seq<Byte>)  // do_item_bump by worker `t`
    | PeekBuffer(t: nat)                   // lru_maintainer_bumps: bipbuf_peek_all
    | Drain(t: nat)                        // lru_maintainer_bumps: one entry
    | PollBuffer(t: nat)                   // lru_maintainer_bumps: bipbuf_poll

  /** The item of the next entry to drain. */
  function NextId(b: Buffer): Id {
    if |Left(b)| >= Bip.ENTRY then Pointer(Left(b)[..Bip.ENTRY]) else 0
  }

  /** Only newly made items are linked, and a hit is on an item that was just looked up. */
  ghost predicate Enabled(s: State, e: Event) {
    match e
    case Make(id, _) => id in s.items ==> s.items[id].refcount == 0
    case Link(id) => id in s.items && !s.items[id].linked && !s.items[id].fetched && s.items[id].holders > 0
    case Unlink(id) => id in s.items && s.items[id].linked
    case Hold(id) => id in s.items && s.items[id].linked
    case Release(id) => id in s.items && s.items[id].holders > 0
    case Update(id) => id in s.items && s.items[id].holders > 0
    case Pull(id) => id in s.items && s.items[id].linked
    case Hit(id, t, entry) =>
      id in s.items && s.items[id].linked && s.items[id].holders > 0 && t < |s.bufs| && |entry| == Bip.ENTRY &&
        Pointer(entry) == id
    case PeekBuffer(t) => t < |s.bufs| && s.bufs[t].bip.window.None?
    case Drain(t) => t < |s.bufs| && Draining(s.bufs[t])
    case PollBuffer(t) => t < |s.bufs| && Drained(s.bufs[t])
  }

  function Get(s: State, id: Id): Item {
    if id in s.items then s.items[id] else Item(Hot, false, false, false, 0, 0)
  }

  function Put(s: State, id: Id, it: Item): State {
    s.(items := s.items[id := it])
  }

  function Buf(s: State, t: nat): Buffer {
    if t < |s.bufs| then s.bufs[t] else Buffer(Bip.State(Bip.Init([]), [], None), 0)
  }

  function PutBuf(s: State, t: nat, b: Buffer): State {
    if t < |s.bufs| then s.(bufs := s.bufs[t := b]) else s
  }

  ghost function Next(s: State, e: Event): State {
    match e
    case Make(id, lru) => Put(s, id, Item(lru, false, false, false, 1, 1))
    case Link(id) => var it := Get(s, id); Put(s, id, it.(linked := true, refcount := it.refcount + 1))
    case Unlink(id) => Put(s, id, Removed(Get(s, id).(linked := false)))
    case Hold(id) => var it := Get(s, id); Put(s, id, it.(refcount := it.refcount + 1, holders := it.holders + 1))
    case Release(id) => var it := Get(s, id); Put(s, id,
      Removed(it.(holders := if it.holders == 0 then 0 else it.holders - 1)))
    case Update(id) => Put(s, id, Updated(Get(s, id)))
    case Pull(id) => Put(s, id, Pulled(Get(s, id)))
    case Hit(id, t, entry) =>
      var left := Asks(Get(s, id)) && HasRoom(Buf(s, t));
      var u := Put(s, id, Bumped(Get(s, id), left));
      if left then PutBuf(u, t, Commit(Buf(s, t), entry)) else u
    case PeekBuffer(t) => PutBuf(s, t, Peek(Buf(s, t)))
    case Drain(t) =>
      var id := NextId(Buf(s, t));
      PutBuf(Put(s, id, Removed(Updated(Get(s, id)))), t, Advance(Buf(s, t)))
    case PollBuffer(t) => PutBuf(s, t, PollAll(Buf(s, t)))
  }

  /** One item: its references are exact, and an ACTIVE item in COLD has an entry coming. */
  ghost predicate ItemOk(it: Item, pending: nat) {
    && it.refcount == (if it.linked then 1 else 0) + it.holders + pending
    && (it.active ==> it.fetched)
    && (it.linked && it.lru == Cold && it.active ==> pending > 0)
  }

  ghost predicate Inv(s: State) {
    && (forall t | 0 <= t < |s.bufs| :: BufOk(s.bufs[t]))
    && (forall id | id in s.items :: ItemOk(s.items[id], Pending(s.bufs, id)))
    && (forall id | Pending(s.bufs, id) > 0 :: id in s.items)
  }

  // ----- every step keeps it -----

  /** A step that changes one item and leaves the buffers alone. */
  lemma PutInv(s: State, id: Id, it: Item)
    requires Inv(s) && ItemOk(it, Pending(s.bufs, id))
    ensures Inv(Put(s, id, it))
  {}

  lemma OneBuf(s: State, t: nat)
    requires Inv(s) && t < |s.bufs|
    ensures BufOk(s.bufs[t])
  {}

  /** A step that leaves the entries of a buffer as they are. */
  lemma SameEntries(s: State, t: nat, b: Buffer)
    requires Inv(s) && t < |s.bufs| && BufOk(b) && Left(b) == Left(s.bufs[t])
    ensures Inv(PutBuf(s, t, b))
  {
    forall id ensures Pending(PutBuf(s, t, b).bufs, id) == Pending(s.bufs, id) {
      PendingUpdate(s.bufs, t, b, id);
    }
  }

  lemma OneItem(s: State, id: Id)
    requires Inv(s)
    ensures id in s.items ==> ItemOk(s.items[id], Pending(s.bufs, id))
    ensures Pending(s.bufs, id) > 0 ==> id in s.items
  {}

  /** An item whose entries stay the same, when a buffer changes. */
  lemma OtherItem(s: State, t: nat, b: Buffer, id: Id)
    requires t < |s.bufs| && Pend(b, id) == Pend(s.bufs[t], id) && Inv(s)
    ensures id in s.items ==> ItemOk(s.items[id], Pending(s.bufs[t := b], id))
    ensures Pending(s.bufs[t := b], id) > 0 ==> id in s.items
  {
    hide Inv, ItemOk, Pend, Pending;
    PendingUpdate(s.bufs, t, b, id);
    OneItem(s, id);
  }

  lemma AllBufs(s: State, t: nat, b: Buffer, bufs: seq<Buffer>)
    requires t < |s.bufs| && bufs == s.bufs[t := b] && BufOk(b) && Inv(s)
    ensures forall k | 0 <= k < |bufs| :: BufOk(bufs[k])
  {
    hide BufOk, ItemOk, Pending;
  }

  /** A step that adds or drains one entry, with the change it makes to the entry's item. */
  lemma ChangeEntry(s: State, t: nat, b: Buffer, x: Id, it: Item, p: nat)
    requires t < |s.bufs| && x in s.items
    requires forall id | id != x :: Pend(b, id) == Pend(s.bufs[t], id)
    requires p + Pend(s.bufs[t], x) == Pending(s.bufs, x) + Pend(b, x) && ItemOk(it, p)
    requires Inv(s) && BufOk(b)
    ensures Inv(PutBuf(Put(s, x, it), t, b))
  {
    hide Inv, BufOk, ItemOk, Pend, Pending;
    var u := PutBuf(Put(s, x, it), t, b);
    AllBufs(s, t, b, u.bufs);
    PendingUpdate(s.bufs, t, b, x);
    forall id ensures id in u.items ==> ItemOk(u.items[id], Pending(u.bufs, id))
              ensures Pending(u.bufs, id) > 0 ==> id in u.items
    {
      if id != x { OtherItem(s, t, b, id); }
    }
    Assembled(u);
  }

  lemma Assembled(s: State)
    requires forall t | 0 <= t < |s.bufs| :: BufOk(s.bufs[t])
    requires forall id :: id in s.items ==> ItemOk(s.items[id], Pending(s.bufs, id))
    requires forall id :: Pending(s.bufs, id) > 0 ==> id in s.items
    ensures Inv(s)
  {
    hide BufOk, ItemOk, Pending;
  }

  /** A hit that leaves an entry. */
  lemma HitInv(s: State, id: Id, t: nat, entry: seq<Byte>)
    requires Enabled(s, Hit(id, t, entry)) && Asks(s.items[id]) && HasRoom(s.bufs[t]) && Inv(s)
    ensures Inv(Next(s, Hit(id, t, entry)))
  {
    hide BufOk, Entries, Pending;
    var b := s.bufs[t];
    OneBuf(s, t);
    CommitBuf(b, entry);
    var more := Commit(b, entry);
    assert multiset(Entries(Left(b)) + [id]) == multiset(Entries(Left(b))) + multiset{id};
    ChangeEntry(s, t, more, id, Bumped(s.items[id], true), Pending(s.bufs, id) + 1);
  }

  /** Draining one entry. */
  lemma DrainInv(s: State, t: nat)
    requires Inv(s) && Enabled(s, Drain(t))
    ensures Inv(Next(s, Drain(t)))
  {
    hide BufOk, Entries, Pending;
    var b := s.bufs[t];
    OneBuf(s, t);
    AdvanceBuf(b);
    var id := NextId(b);
    var rest := Entries(Left(Advance(b)));
    assert multiset([id] + rest) == multiset{id} + multiset(rest);
    PendingUpdate(s.bufs, t, Advance(b), id);
    ChangeEntry(s, t, Advance(b), id, Removed(Updated(s.items[id])), Pending(s.bufs, id) - 1);
  }

  /** An event that only changes one item. */
  lemma ItemStepInv(s: State, e: Event)
    requires Enabled(s, e) && !e.PeekBuffer? && !e.Drain? && !e.PollBuffer?
    requires e.Hit? ==> !Asks(s.items[e.id]) || !HasRoom(s.bufs[e.t])
    requires Inv(s)
    ensures Inv(Next(s, e))
  {
    hide BufOk, Pending;
    PutInv(s, e.id, Next(s, e).items[e.id]);
  }

  lemma NextInv(s: State, e: Event)
    requires Inv(s) && Enabled(s, e)
    ensures Inv(Next(s, e))
  {
    hide Inv;
    match e
    case PeekBuffer(t) =>
      OneBuf(s, t);
      PeekBuf(s.bufs[t]);
      SameEntries(s, t, Peek(s.bufs[t]));
    case PollBuffer(t) =>
      OneBuf(s, t);
      PollBuf(s.bufs[t]);
      SameEntries(s, t, PollAll(s.bufs[t]));
    case Drain(t) => DrainInv(s, t);
    case Hit(id, t, entry) =>
      if Asks(s.items[id]) && HasRoom(s.bufs[t]) { HitInv(s, id, t, entry); } else { ItemStepInv(s, e); }
    case _ => ItemStepInv(s, e);
  }

  ghost predicate Init(s: State) {
    s.items == map[] && forall t | 0 <= t < |s.bufs| ::
      exists data: seq<Byte> :: |data| <= Bip.INT_MAX && s.bufs[t] == Buffer(Bip.State(Bip.Init(data), [], None), 0)
  }

  ghost predicate Run(ss: seq<State>, es: seq<Event>) {
    && |ss| == |es| + 1 && Init(ss[0])
    && (forall i | 0 <= i < |es| :: Enabled(ss[i], es[i]) && ss[i + 1] == Next(ss[i], es[i]))
  }

  lemma {:induction false} NothingPending(bs: seq<Buffer>, id: Id)
    requires forall t | 0 <= t < |bs| :: bs[t].bip.fifo == [] && bs[t].done == 0
    ensures Pending(bs, id) == 0
  {
    if bs != [] {
      NothingPending(bs[1..], id);
      assert Left(bs[0]) == [];
    }
  }

  lemma InitInv(s: State)
    requires Init(s)
    ensures Inv(s)
  {
    forall id ensures Pending(s.bufs, id) == 0 { NothingPending(s.bufs, id); }
  }

  /** In every state of every run: a linked ACTIVE item in COLD has an entry that is not
      drained yet, ACTIVE items were FETCHED, and every such entry owns one reference. */
  lemma {:induction false} RunInv(ss: seq<State>, es: seq<Event>, i: nat)
    requires Run(ss, es) && i < |ss|
    ensures Inv(ss[i])
  {
    hide Inv, Next, Enabled, Init;
    if i == 0 {
      InitInv(ss[0]);
    } else {
      RunInv(ss, es, i - 1);
      NextInv(ss[i - 1], es[i - 1]);
      assert ss[i - 1 + 1] == Next(ss[i - 1], es[i - 1]);
    }
  }

  /** So no entry outlives its item: an item named by an entry is not free. */
  lemma EntriesAreAlive(ss: seq<State>, es: seq<Event>, i: nat, id: Id)
    requires Run(ss, es) && i < |ss| && Pending(ss[i].bufs, id) > 0
    ensures id in ss[i].items && ss[i].items[id].refcount > 0
  {
    RunInv(ss, es, i);
  }

  /** What a hit does: the first one marks the item FETCHED, the next one ACTIVE, and later
      ones nothing. In COLD the mark is set exactly if the worker's buffer has room for an
      entry, which then goes behind the others and holds a reference. */
  lemma HitOutcome(s: State, id: Id, t: nat, entry: seq<Byte>)
    requires Inv(s) && Enabled(s, Hit(id, t, entry))
    ensures var u := Next(s, Hit(id, t, entry));
      var it, b := s.items[id], s.bufs[t];
      var asks := it.fetched && !it.active && it.lru == Cold;
      var room := Bip.ENTRY <= b.bip.ring.Unused();
      && id in u.items && u.items - {id} == s.items - {id} && |u.bufs| == |s.bufs|
      && u.items[id] == it.(fetched := true,
                            active := it.active || (it.fetched && (it.lru != Cold || room)),
                            refcount := it.refcount + if asks && room then 1 else 0)
      && Entries(Left(u.bufs[t])) == Entries(Left(b)) + (if asks && room then [id] else [])
      && forall v | 0 <= v < |s.bufs| && v != t :: u.bufs[v] == s.bufs[v]
  {
    hide Entries, Pending, Bip.Inv, Bip.Aligned, Whole, Left, Commit;
    OneBuf(s, t);
    if Asks(s.items[id]) && HasRoom(s.bufs[t]) { CommitBuf(s.bufs[t], entry); }
  }

  /** What the maintainer does with the oldest entry that is left in a buffer: it takes the
      item to WARM if it is still linked, in COLD and ACTIVE, and gives the reference back. */
  lemma DrainOutcome(s: State, t: nat)
    requires Inv(s) && Enabled(s, Drain(t))
    ensures var u, left := Next(s, Drain(t)), Entries(Left(s.bufs[t]));
      && left != [] && left[0] in s.items && left[0] in u.items && |u.bufs| == |s.bufs|
      && var it := s.items[left[0]];
      && u.items - {left[0]} == s.items - {left[0]}
      && it.refcount > 0
      && u.items[left[0]] ==
           (if it.linked && it.lru == Cold && it.active then it.(lru := Warm, active := false) else it).
             (refcount := it.refcount - 1)
      && Entries(Left(u.bufs[t])) == left[1..]
      && forall v | 0 <= v < |s.bufs| && v != t :: u.bufs[v] == s.bufs[v]
  {
    hide Entries, Pending, BufOk, Left;
    OneBuf(s, t);
    AdvanceBuf(s.bufs[t]);
    var id := NextId(s.bufs[t]);
    PendingUpdate(s.bufs, t, Advance(s.bufs[t]), id);
    OneItem(s, id);
  }

  /** The code of the workers and of the LRU maintainer, on the items and on the byte
      buffers of the ring buffer model. `bufs` is what the buffers of all workers hold. */
  class Cache {
    var items: map<Id, Item>
    ghost var bufs: seq<Buffer>

    ghost function Snapshot(): State
      reads this
    {
      State(items, bufs)
    }

    constructor ()
      ensures Init(Snapshot())
    {
      items, bufs := map[], [];
    }

    method DoItemUpdate(id: Id)
      requires id in items
      modifies `items
      ensures items == old(items)[id := Updated(old(items)[id])]
    {
      var it := items[id];
      if it.linked {
        if it.lru == Cold && it.active {
          items := items[id := it.(lru := Warm, active := false)];
        }
      }
      assert items[id] == Updated(it);
    }

    method DoItemRemove(id: Id)
      requires id in items && items[id].refcount > 0
      modifies `items
      ensures items == old(items)[id := Removed(old(items)[id])]
    {
      items := items[id := items[id].(refcount := items[id].refcount - 1)];
    }

    /** The buffer of worker `t`. */
    ghost predicate Owns(t: nat, buf: Bip.BipBuffer)
      reads this, buf, buf.data
    {
      t < |bufs| && bufs[t].bip.ring == buf.Snapshot() && buf.Snapshot().Valid()
    }

    /** lru_bump_async: the reference is taken first, and given back if there is no room. */
    method LruBumpAsync(id: Id, ghost t: nat, buf: Bip.BipBuffer, entry: seq<Byte>) returns (ret: bool)
      requires id in items && Owns(t, buf) && |entry| == Bip.ENTRY
      modifies this, buf, buf.data
      ensures Owns(t, buf) && ret == HasRoom(old(bufs)[t])
      ensures items == if ret then
        old(items)[id := old(items)[id].(refcount := old(items)[id].refcount + 1)] else old(items)
      ensures bufs == if ret then old(bufs)[t := Commit(old(bufs)[t], entry)] else old(bufs)
    {
      ret := true;
      items := items[id := items[id].(refcount := items[id].refcount + 1)];
      var stored := Store(buf, entry);
      if stored {
        bufs := bufs[t := Commit(bufs[t], entry)];
      } else {
        ret := false;
      }
      if !ret {
        items := items[id := items[id].(refcount := items[id].refcount - 1)];
        assert items == old(items);
      }
    }

    /** do_item_bump with the segmented LRU on. */
    method DoItemBump(id: Id, ghost t: nat, buf: Bip.BipBuffer, entry: seq<Byte>)
      requires Enabled(Snapshot(), Hit(id, t, entry)) && Owns(t, buf)
      modifies this, buf, buf.data
      ensures Snapshot() == Next(old(Snapshot()), Hit(id, t, entry)) && Owns(t, buf)
    {
      hide Commit, Pointer;
      var it := items[id];
      ghost var room := HasRoom(bufs[t]);
      if !it.active {
        if !it.fetched {
          items := items[id := it.(fetched := true)];
        } else {
          items := items[id := it.(active := true)];
          if it.lru == Cold {
            var left := LruBumpAsync(id, t, buf, entry);
            if !left {
              items := items[id := items[id].(active := false)];
            }
          }
        }
      }
      assert items[id] == Bumped(it, Asks(it) && room);
    }

    /** The loop of lru_maintainer_bumps over one peeked window: it takes whole entries
        off the count of bytes, which ends at zero, and drains exactly the window. */
    method DrainWindow(ghost t: nat, window: seq<Byte>)
      requires Inv(Snapshot()) && t < |bufs| && bufs[t].bip.window == Some(|window|) && bufs[t].done == 0
      requires window <= bufs[t].bip.fifo
      modifies this
      ensures Inv(Snapshot()) && |bufs| == |old(bufs)|
      ensures Drained(bufs[t]) && bufs[t].bip == old(bufs)[t].bip
      ensures Snapshot() == Drains(old(Snapshot()), t, |window| / Bip.ENTRY)
    {
      hide Inv, Next, Pointer;
      var be, todo := 0, |window|;
      ghost var n := 0;
      WindowWhole(Snapshot(), t);
      while todo != 0
        invariant 0 <= todo && be + todo == |window| && be == Bip.ENTRY * n && todo % Bip.ENTRY == 0
        invariant Inv(Snapshot()) && t < |bufs| == |old(bufs)|
        invariant bufs[t] == old(bufs)[t].(done := n)
        invariant Snapshot() == Drains(old(Snapshot()), t, n)
      {
        ghost var s := Snapshot();
        var id := Pointer(window[be..be + Bip.ENTRY]);
        assert Left(bufs[t])[..Bip.ENTRY] == window[be..be + Bip.ENTRY];
        DrainStep(s, t);
        DrainsOneMore(old(Snapshot()), t, n);
        DoItemUpdate(id);
        DoItemRemove(id);
        bufs := bufs[t := Advance(bufs[t])];
        DrainIs(s, t, id, Snapshot());
        be, todo, n := be + Bip.ENTRY, todo - Bip.ENTRY, n + 1;
      }
    }
  }

  /** One buffer of lru_maintainer_bumps: what it holds in one piece is peeked, drained
      and polled. */
  method BumpBuffer(cache: Cache, ghost t: nat, buf: Bip.BipBuffer) returns (bumped: bool)
    requires Inv(cache.Snapshot()) && cache.Owns(t, buf) && cache.bufs[t].bip.window.None?
    modifies cache, buf
    ensures Inv(cache.Snapshot()) && cache.Owns(t, buf)
    ensures bumped <==> old(cache.bufs)[t].bip.fifo != []
    ensures !bumped ==> cache.Snapshot() == old(cache.Snapshot())
    ensures bumped ==> cache.Snapshot() == Polled(old(cache.Snapshot()), t, old(buf.aEnd - buf.aStart) / Bip.ENTRY)
  {
    hide Inv, Next, Drains, PollAll, Bip.Ring.Contents, Bip.Ring.Poll;
    HoldsContents(cache.Snapshot(), t);
    var size := DrainBuffer(cache, t, buf);
    if size == 0 { return false; }
    PollStep(cache.Snapshot(), t);
    var _ := buf.Poll(size);
    cache.bufs := cache.bufs[t := PollAll(cache.bufs[t])];
    return true;
  }

  /** The peek and the loop over the window. */
  method DrainBuffer(cache: Cache, ghost t: nat, buf: Bip.BipBuffer) returns (size: nat)
    requires Inv(cache.Snapshot()) && cache.Owns(t, buf) && cache.bufs[t].bip.window.None?
    modifies cache
    ensures Inv(cache.Snapshot()) && cache.Owns(t, buf) && size == buf.aEnd - buf.aStart
    ensures size == 0 ==> cache.Snapshot() == old(cache.Snapshot())
    ensures size > 0 ==> Drained(cache.bufs[t]) && cache.bufs[t].bip.window == Some(size)
    ensures size > 0 ==> cache.Snapshot() == Drains(Next(old(cache.Snapshot()), PeekBuffer(t)), t, size / Bip.ENTRY)
  {
    hide Inv, Next, Drains;
    ghost var s := cache.Snapshot();
    PeekStep(s, t);
    var window := buf.PeekAll();
    if window.None? { return 0; }
    var at := window.value.0;
    size := window.value.1;
    cache.bufs := cache.bufs[t := Peek(cache.bufs[t])];
    assert cache.Snapshot() == Next(s, PeekBuffer(t));
    cache.DrainWindow(t, buf.data[at..at + size]);
  }

  /** The state after a buffer was peeked, `n` entries were drained and it was polled. */
  ghost function Polled(s: State, t: nat, n: nat): State {
    Next(Drains(Next(s, PeekBuffer(t)), t, n), PollBuffer(t))
  }

  lemma HoldsContents(s: State, t: nat)
    requires Inv(s) && t < |s.bufs|
    ensures s.bufs[t].bip.fifo != [] <==> s.bufs[t].bip.ring.aEnd != s.bufs[t].bip.ring.aStart
  {
    OneBuf(s, t);
    Bip.UsedIsLength(s.bufs[t].bip.ring);
  }

  lemma PeekStep(s: State, t: nat)
    requires Inv(s) && t < |s.bufs| && s.bufs[t].bip.window.None?
    ensures var u, r := Next(s, PeekBuffer(t)), s.bufs[t].bip.ring;
      && Inv(u) && u == State(s.items, s.bufs[t := Peek(s.bufs[t])])
      && r.Valid() && s.bufs[t].bip.fifo == r.Contents() && s.bufs[t].done == 0
      && Peek(s.bufs[t]).bip == s.bufs[t].bip.(window := if r.IsEmpty() then None else Some(r.aEnd - r.aStart))
      && Peek(s.bufs[t]).done == 0
  {
    hide Pointer, Entries;
    OneBuf(s, t);
    NextInv(s, PeekBuffer(t));
  }

  lemma PollStep(s: State, t: nat)
    requires Inv(s) && t < |s.bufs| && Drained(s.bufs[t])
    ensures var u, b := Next(s, PollBuffer(t)), s.bufs[t];
      && Inv(u) && u == State(s.items, s.bufs[t := PollAll(b)]) && b.bip.ring.Valid()
      && b.bip.window.value <= b.bip.ring.aEnd - b.bip.ring.aStart && |b.bip.ring.data| <= Bip.INT_MAX
      && PollAll(b).bip.ring == b.bip.ring.Poll(b.bip.window.value) && PollAll(b).bip.ring.Valid()
  {
    hide Pointer, Entries;
    OneBuf(s, t);
    PollBuf(s.bufs[t]);
    NextInv(s, PollBuffer(t));
  }

  /** bipbuf_request, the entry written in place, and bipbuf_push. */
  method Store(buf: Bip.BipBuffer, entry: seq<Byte>) returns (stored: bool)
    requires buf.Snapshot().Valid() && |entry| == Bip.ENTRY
    modifies buf, buf.data
    ensures stored == (Bip.ENTRY <= old(buf.Snapshot()).Unused()) && buf.Snapshot().Valid()
    ensures buf.Snapshot() == old(buf.Snapshot()).Offer(entry)
  {
    var be := buf.Request(Bip.ENTRY);
    if be.None? { return false; }
    buf.Copy(be.value, entry);
    var pushed := buf.Push(Bip.ENTRY);
    return pushed != 0;
  }

  lemma DrainIs(s: State, t: nat, id: Id, u: State)
    requires t < |s.bufs| && id == NextId(s.bufs[t]) && id in s.items
    requires u.items == s.items[id := Updated(s.items[id])][id := Removed(Updated(s.items[id]))]
    requires u.bufs == s.bufs[t := Advance(s.bufs[t])]
    ensures u == Next(s, Drain(t))
  {}

  ghost function Drains(s: State, t: nat, n: nat): State {
    if n == 0 then s else Next(Drains(s, t, n - 1), Drain(t))
  }

  lemma DrainsOneMore(s: State, t: nat, n: nat)
    ensures Drains(s, t, n + 1) == Next(Drains(s, t, n), Drain(t))
  {}

  lemma WindowWhole(s: State, t: nat)
    requires Inv(s) && t < |s.bufs| && s.bufs[t].bip.window.Some?
    ensures s.bufs[t].bip.window.value % Bip.ENTRY == 0
  {}

  lemma DrainStep(s: State, t: nat)
    requires Inv(s) && Enabled(s, Drain(t))
    ensures Inv(Next(s, Drain(t))) && |Next(s, Drain(t)).bufs| == |s.bufs|
    ensures Next(s, Drain(t)).bufs[t] == s.bufs[t].(done := s.bufs[t].done + 1)
    ensures NextId(s.bufs[t]) in s.items && s.items[NextId(s.bufs[t])].refcount > 0
  {
    hide Pointer, BufOk, Entries;
    DrainInv(s, t);
    OneBuf(s, t);
    AdvanceBuf(s.bufs[t]);
    PendingUpdate(s.bufs, t, s.bufs[t], NextId(s.bufs[t]));
  }
}

/** The response allocator of memcached.c: response objects come in bundles the
    size of a read buffer; bundles with a free slot are on a doubly linked list,
    full ones are on none, and an empty one is given back unless it is the last.
 */
module RespBundle {
  import opened Options

  /** The memory a bundle is made of. */
  const READ_BUFFER_SIZE: nat := 16384

  /** mc_resp_bundle. `free` holds the flag of each response slot. */
  class Bundle {
    var refcount: nat
    var nextCheck: nat
    var next: Bundle?
    var prev: Bundle?
    var free: seq<bool>

    constructor (max: nat)
      requires max > 0
      ensures refcount == 1 && nextCheck == 1 && next == null && prev == null
      ensures free == [false] + AllFree(max - 1)
    {
      refcount, nextCheck, next, prev := 1, 1, null, null;
      free := [false] + AllFree(max - 1);
    }
  }

  function AllFree(n: nat): seq<bool> { seq(n, _ => true) }

  /** The number of slots in use. */
  function Used(free: seq<bool>): nat {
    if free == [] then 0 else (if free[0] then 0 else 1) + Used(free[1..])
  }

  lemma {:induction false} UsedBound(free: seq<bool>)
    ensures Used(free) <= |free|
    ensures Used(free) == |free| <==> forall x | 0 <= x < |free| :: !free[x]
    ensures Used(free) == 0 <==> forall x | 0 <= x < |free| :: free[x]
  {
    if free != [] {
      UsedBound(free[1..]);
      assert forall x | 1 <= x < |free| :: free[x] == free[1..][x - 1];
      assert forall x | 0 <= x < |free| - 1 :: free[1..][x] == free[x + 1];
    }
  }

  lemma {:induction false} UsedUpdate(free: seq<bool>, x: nat, f: bool)
    requires x < |free|
    ensures Used(free[x := f]) == Used(free) - (if free[x] then 0 else 1) + (if f then 0 else 1)
  {
    if x == 0 {
      assert free[x := f][1..] == free[1..];
    } else {
      assert free[x := f][1..] == free[1..][x - 1 := f];
      UsedUpdate(free[1..], x - 1, f);
    }
  }

  lemma UsedFirst(n: nat)
    ensures Used([false] + AllFree(n)) == 1
  {
    UsedBound(AllFree(n));
    assert ([false] + AllFree(n))[1..] == AllFree(n);
  }

  /** `v % max` for an index that wraps at most once. */
  lemma Wrap(v: nat, max: nat)
    requires 0 < max && v < 2 * max
    ensures v % max == if v < max then v else v - max
  {}

  /** The slot looked at in round `i` of a search that starts at `from`. */
  function SlotAt(from: nat, i: nat, max: nat): (x: nat)
    requires from <= max && i < max
    ensures x < max
  {
    (i + from) % max
  }

  /** The first free slot from `from` on, around the end of the bundle. */
  ghost predicate FirstFree(free: seq<bool>, from: nat, x: nat) {
    && x < |free| && from <= |free| && free[x]
    && exists k: nat ::
         && k < |free| && x == SlotAt(from, k, |free|)
         && forall j: nat | j < k :: !free[SlotAt(from, j, |free|)]
  }

  /** A search over all rounds looks at every slot. */
  lemma SearchCovers(free: seq<bool>, from: nat)
    requires from <= |free| && |free| > 0
    requires forall i | 0 <= i < |free| :: !free[SlotAt(from, i, |free|)]
    ensures Used(free) == |free|
  {
    var max := |free|;
    forall y | 0 <= y < max ensures !free[y] {
      var i := if y >= from then y - from else if from == max then y else y + max - from;
      Wrap(i + from, max);
      assert SlotAt(from, i, max) == y;
    }
    UsedBound(free);
  }

  /** A worker thread's bundles. */
  class Thread {
    const max: nat
    var openBundle: Bundle?
    var responseObjBytes: int
    /** The bundles with a free slot, in list order, and all bundles. */
    ghost var open: seq<Bundle>
    ghost var live: set<Bundle>

    /** The open list is well linked. */
    ghost predicate Linked()
      reads this, open
    {
      && (open == [] ==> openBundle == null)
      && (forall i, j | 0 <= i < j < |open| :: open[i] != open[j])
      && (open != [] ==> openBundle == open[0] && open[0].prev == null && open[|open| - 1].next == null)
      && (forall i | 0 <= i < |open| - 1 :: open[i].next == open[i + 1])
      && (forall i | 0 <= i < |open| - 1 :: open[i + 1].prev == open[i])
    }

    /** One bundle: its count is right, and it is linked exactly if it has a free slot. */
    ghost predicate BundleOk(b: Bundle)
      reads this, b
    {
      && |b.free| == max && b.refcount == Used(b.free) && b.nextCheck <= max
      && (b in open <==> b.refcount < max)
      && (b !in open ==> b.next == null && b.prev == null)
      && (b.refcount == 0 ==> open != [] && b == open[|open| - 1])
    }

    ghost predicate Valid()
      reads this, live, open
    {
      && max >= 2
      && (forall b | b in open :: b in live)
      && Linked()
      && (forall b | b in live :: BundleOk(b))
      && responseObjBytes == READ_BUFFER_SIZE * |live|
    }

    /** The slots handed out and not yet given back. */
    ghost function Slots(): set<(Bundle, nat)>
      reads `live, live`free
    {
      set b, x | b in live && 0 <= x < |b.free| && !b.free[x] :: (b, x)
    }

    constructor (max: nat)
      requires max >= 2
      ensures Valid() && this.max == max && live == {} && open == []
    {
      this.max, openBundle, responseObjBytes, open, live := max, null, 0, [], {};
    }

    /** The search for a free slot, from the most likely one on. */
    method FindSlot(b: Bundle) returns (x: nat)
      requires |b.free| == max > 0 && b.nextCheck <= max && Used(b.free) < max
      ensures FirstFree(b.free, b.nextCheck, x)
    {
      var i := 0;
      while i < max
        invariant 0 <= i <= max
        invariant forall j | 0 <= j < i :: !b.free[SlotAt(b.nextCheck, j, max)]
      {
        x := SlotAt(b.nextCheck, i, max);
        if b.free[x] { return; }
        i := i + 1;
      }
      SearchCovers(b.free, b.nextCheck);
      assert false;
    }

    /** Removes the head bundle, which has just become full. */
    method UnlinkHead(b: Bundle)
      requires open != [] && b == open[0] && Linked()
      modifies this`openBundle, this`open, open`next, open`prev
      ensures Linked() && open == old(open)[1..] && b.next == null && b.prev == null
    {
      assert |open| > 1 ==> b.next == open[1] && open[1] in open;
      openBundle := b.next;
      if b.next != null {
        b.next.prev := null;
        b.next := null;
      }
      open := open[1..];
    }

    /** Everything but the membership of `b` in the list, which is about to be decided. */
    ghost predicate ValidBut(b: Bundle)
      reads this, live, open
    {
      && max >= 2 && b in live && |b.free| == max && b.refcount == Used(b.free) && b.nextCheck <= max
      && (forall c | c in open :: c in live)
      && Linked()
      && (forall c | c in live && c != b :: BundleOk(c))
      && responseObjBytes == READ_BUFFER_SIZE * |live|
    }

    /** Marks a free slot of the head bundle as taken. */
    method TakeSlot(b: Bundle, x: nat)
      requires Valid() && open != [] && b == open[0] && x < |b.free| && b.free[x]
      modifies b`free, b`refcount, b`nextCheck
      ensures ValidBut(b) && 0 < b.refcount <= max && b.nextCheck == x + 1
      ensures (b, x) !in old(Slots()) && Slots() == old(Slots()) + {(b, x)}
    {
      assert b in open && BundleOk(b);
      UsedUpdate(b.free, x, false);
      b.nextCheck := x + 1;
      b.refcount := b.refcount + 1;
      b.free := b.free[x := false];
      UsedBound(b.free);
    }

    /** A full bundle leaves the list. */
    method CloseIfFull(b: Bundle)
      requires ValidBut(b) && open != [] && b == open[0] && 0 < b.refcount <= max
      modifies this`openBundle, this`open, live`next, live`prev
      ensures Valid() && live == old(live) && Slots() == old(Slots())
    {
      if b.refcount == max {
        UnlinkHead(b);
      }
      assert forall c | c in live && c != b :: c in open <==> c in old(open);
    }

    /** The head bundle gives a slot, and leaves the list if that was its last. */
    method TakeFromHead(b: Bundle) returns (x: nat)
      requires Valid() && open != [] && b == open[0]
      modifies this`openBundle, this`open, live
      ensures Valid() && live == old(live)
      ensures FirstFree(old(b.free), old(b.nextCheck), x) && b.nextCheck == x + 1
      ensures x < max && (b, x) !in old(Slots()) && Slots() == old(Slots()) + {(b, x)}
    {
      assert b in open && BundleOk(b);
      x := FindSlot(b);
      TakeSlot(b, x);
      CloseIfFull(b);
    }

    /** A new bundle, whose first slot is handed out. */
    method NewBundle() returns (b: Bundle)
      requires Valid() && open == []
      modifies this`openBundle, this`open, this`live, this`responseObjBytes
      ensures Valid() && fresh(b) && live == old(live) + {b} && open == [b]
      ensures (b, 0) !in old(Slots()) && Slots() == old(Slots()) + {(b, 0)}
    {
      b := new Bundle(max);
      Install(b);
      assert forall x: nat | x < |b.free| :: !b.free[x] <==> x == 0;
    }

    method Install(b: Bundle)
      requires Valid() && open == [] && b !in live && b.refcount == 1 && b.nextCheck == 1
      requires b.next == null && b.prev == null && b.free == [false] + AllFree(max - 1)
      modifies this`openBundle, this`open, this`live, this`responseObjBytes
      ensures Valid() && live == old(live) + {b} && open == [b]
    {
      hide Used;
      UsedFirst(max - 1);
      responseObjBytes := responseObjBytes + READ_BUFFER_SIZE;
      openBundle := b;
      open := [b];
      live := live + {b};
      forall c | c in live ensures BundleOk(c) {
        if c != b { assert old(BundleOk(c)); }
      }
    }

    /** resp_allocate, with the outcome of the cache allocation. */
    method RespAllocate(gotMemory: bool) returns (slot: Option<(Bundle, nat)>)
      requires Valid()
      modifies this, live
      ensures Valid()
      ensures slot.None? <==> !gotMemory && old(open) == []
      ensures slot.None? ==> live == old(live) && Slots() == old(Slots())
      ensures slot.Some? ==> slot.value !in old(Slots()) && Slots() == old(Slots()) + {slot.value}
      ensures live == old(live) || (old(open) == [] && slot.Some? && live == old(live) + {slot.value.0})
      ensures old(open) != [] ==>
        && slot.Some? && slot.value.0 == old(open)[0]
        && FirstFree(old(open[0].free), old(open[0].nextCheck), slot.value.1)
        && slot.value.0.nextCheck == slot.value.1 + 1
    {
      var b := openBundle;
      if b != null {
        var x := TakeFromHead(b);
        return Some((b, x));
      }
      if !gotMemory { return None; }
      b := NewBundle();
      return Some((b, 0));
    }

    /** Marks a slot as free again. */
    method GiveBack(b: Bundle, x: nat)
      requires Valid() && (b, x) in Slots()
      modifies b`free, b`refcount
      ensures ValidBut(b) && b.refcount < max
      ensures Slots() == old(Slots()) - {(b, x)}
      ensures b in open <==> b.refcount + 1 < max
      ensures b !in open ==> b.next == null && b.prev == null
    {
      assert BundleOk(b);
      UsedUpdate(b.free, x, true);
      UsedBound(b.free);
      hide Used;
      b.free := b.free[x := true];
      b.refcount := b.refcount - 1;
    }

    /** Removes a bundle from anywhere in the list. */
    method Unlink(b: Bundle, ghost k: nat)
      requires k < |open| && b == open[k] && Linked()
      modifies this`openBundle, this`open, open`next, open`prev
      ensures Linked() && open == old(open)[..k] + old(open)[k + 1..]
    {
      assert k + 1 < |open| ==> b.next == open[k + 1] && open[k + 1] in open;
      assert k > 0 ==> open[k - 1].next == open[k] && open[k].prev == open[k - 1] && open[k - 1] in open;
      assert k == |open| - 1 ==> b.next == null;
      assert b.prev == null <==> k == 0;
      if openBundle == b { openBundle := b.next; }
      if b.next != null { b.next.prev := b.prev; }
      if b.prev != null { b.prev.next := b.next; }
      open := open[..k] + open[k + 1..];
    }

    /** Puts a bundle at the head of the list. */
    method LinkHead(b: Bundle)
      requires b !in open && Linked()
      modifies this`openBundle, this`open, open`next, open`prev, b`next, b`prev
      ensures Linked() && open == [b] + old(open)
    {
      assert open != [] ==> openBundle == open[0] && open[0] in open;
      b.prev := null;
      b.next := openBundle;
      if b.next != null { b.next.prev := b; }
      openBundle := b;
      open := [b] + open;
    }

    /** What is left after one bundle is dropped from the list. */
    static lemma Dropped(was: seq<Bundle>, k: nat, now: seq<Bundle>)
      requires k < |was| && now == was[..k] + was[k + 1..]
      requires forall i, j | 0 <= i < j < |was| :: was[i] != was[j]
      ensures forall c | c in now :: c in was && c != was[k]
      ensures forall c | c in was && c != was[k] :: c in now
      ensures was[|was| - 1] != was[k] ==> now != [] && now[|now| - 1] == was[|was| - 1]
    {
      forall c | c in was && c != was[k] ensures c in now {
        var i :| 0 <= i < |was| && was[i] == c;
        assert c == now[if i < k then i else i - 1];
      }
    }

    /** The cache takes an empty bundle back. */
    method Discard(b: Bundle)
      requires ValidBut(b) && b !in open && b.refcount == 0
      modifies this`responseObjBytes, this`live
      ensures Valid() && live == old(live) - {b} && Slots() == old(Slots())
    {
      UsedBound(b.free);
      responseObjBytes := responseObjBytes - READ_BUFFER_SIZE;
      live := live - {b};
    }

    /** An empty bundle that is not alone on the list is given back to the cache. */
    method Retire(b: Bundle)
      requires ValidBut(b) && b in open && b.refcount == 0
      requires !(b == openBundle && b.next == null)
      modifies this, live`next, live`prev
      ensures Valid() && live == old(live) - {b} && Slots() == old(Slots())
      ensures old(open) != [b]
    {
      LastIsEnd(0);
      ghost var k :| 0 <= k < |open| && open[k] == b;
      ghost var was := open;
      Unlink(b, k);
      Dropped(was, k, open);
      forall c | c in live && c != b ensures BundleOk(c) { assert old(BundleOk(c)); }
      Discard(b);
    }

    /** A bundle that was full has a free slot again. */
    method Reopen(b: Bundle)
      requires ValidBut(b) && b !in open && 0 < b.refcount < max
      modifies this`openBundle, this`open, live`next, live`prev
      ensures Valid() && live == old(live) && Slots() == old(Slots())
    {
      LinkHead(b);
      assert forall c | c in live && c != b :: c in open <==> c in old(open);
      forall c | c in live ensures BundleOk(c) { assert c != b ==> old(BundleOk(c)); }
    }

    /** resp_free */
    method RespFree(b: Bundle, x: nat)
      requires Valid() && (b, x) in Slots()
      modifies this, live
      ensures Valid() && Slots() == old(Slots()) - {(b, x)}
      ensures live == if b.refcount == 0 && old(open) != [b] then old(live) - {b} else old(live)
    {
      GiveBack(b, x);
      if b.refcount == 0 {
        if b == openBundle && b.next == null {
          KeepLast(b);
        } else {
          Retire(b);
        }
      } else {
        OnList(b);
        if b == openBundle || b.prev != null || b.next != null {
        } else {
          Reopen(b);
        }
      }
    }

    /** Only the last bundle of the list has no successor. */
    lemma LastIsEnd(k: nat)
      requires Linked() && k < |open|
      ensures open[k].next == null <==> k == |open| - 1
    {
      if k < |open| - 1 {
        var after: Bundle := open[k + 1];
        assert open[k].next == after;
      }
    }

    /** The only bundle left on the list is kept for reuse. */
    method KeepLast(b: Bundle)
      requires ValidBut(b) && b.refcount == 0 && b == openBundle && b.next == null
      modifies b`nextCheck
      ensures open == [b] && Valid() && live == old(live) && Slots() == old(Slots()) && b.nextCheck == 0
    {
      LastIsEnd(0);
      b.nextCheck := 0;
    }

    /** The pointer test for being on the list is right. */
    lemma OnList(b: Bundle)
      requires Linked() && (b !in open ==> b.next == null && b.prev == null)
      ensures b in open <==> b == openBundle || b.prev != null || b.next != null
    {
      if b in open {
        var k :| 0 <= k < |open| && open[k] == b;
        if k > 0 { assert open[k - 1 + 1].prev == open[k - 1]; }
      }
    }

    /** In every state: counts are exact, the list is exactly the bundles with a
        free slot, and at most one bundle is empty, the last of the list. */
    lemma Invariant()
      requires Valid()
      ensures forall b | b in live ::
        b.refcount == Used(b.free) && (b in open <==> exists x :: 0 <= x < |b.free| && b.free[x])
      ensures forall b, c | b in live && c in live && b.refcount == 0 && c.refcount == 0 :: b == c == open[|open| - 1]
      ensures responseObjBytes == READ_BUFFER_SIZE * |live|
    {
      forall b | b in live ensures b.refcount == Used(b.free) &&
        (b in open <==> exists x :: 0 <= x < |b.free| && b.free[x]) {
        assert BundleOk(b);
        UsedBound(b.free);
      }
      forall b, c | b in live && c in live && b.refcount == 0 && c.refcount == 0 ensures b == c == open[|open| - 1] {
        assert BundleOk(b) && BundleOk(c);
      }
    }
  }
}

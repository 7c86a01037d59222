/** What the steps of the engine do, in terms of the pages, the buffers and the log:
    which page an allocation gives out, when a write is taken, and which page the
    maintenance thread evicts.
 */
module ExtStoreOutcomes {
  import opened ByteStrings
  import opened ExtStoreCounts
  import opened ExtStoreInv
  import opened ExtStoreRuns
  import opened ExtStoreSpec
  import opened Options
  import opened Sequences

  // ---- Allocation --------------------------------------------------------------------------------

  /** There is a page to give out on the free list of device class `k`. */
  ghost predicate HasFree(s: Store, k: nat) {
    exists p: nat :: IsFreePage(s, p, k)
  }

  lemma FreeListed(s: Store, k: nat)
    requires Inv(s) && k < |s.freeBuckets|
    ensures var l := if k == 0 then s.freelist else s.freeBuckets[k];
      && (HasFree(s, k) <==> l != [])
      && (l != [] ==> IsFreePage(s, l[0], k))
  {
    hide PagesOk, BuffersOk, FlushOk, LogOk, Disjoint, ReadsOk, MaintOk, Distinct, Total;
    var l := if k == 0 then s.freelist else s.freeBuckets[k];
    if l != [] { assert l[0] in l; }
    if HasFree(s, k) {
      var p: nat :| IsFreePage(s, p, k);
      assert p in l;
    }
  }

  /** The page is in use for the bucket, under a version that no page and no write has had,
      and is the newest of its bucket. */
  ghost predicate Opened(s: Store, t: Store, p: nat, b: nat) {
    && p < |s.pages| && b < |s.buckets|
    && t.pages == s.pages[p := s.pages[p].(active := true, free := false, closed := false,
                                           version := s.nextVersion, bucket := b)]
    && t.nextVersion == s.nextVersion + 1
    && t.buckets == s.buckets[b := [p] + s.buckets[b]]
  }

  /** An allocation takes a free page of the device class it asks for, if there is one, and
      otherwise one of the default class; if there is none either it changes nothing. */
  lemma AllocateOutcome(s: Store, b: nat, fb: nat)
    requires Inv(s) && b < |s.buckets| && fb < |s.freeBuckets|
    ensures var t := AllocatePage(s, b, fb);
      if HasFree(s, fb) then exists p: nat :: IsFreePage(s, p, fb) && Opened(s, t, p, b)
      else if HasFree(s, 0) then exists p: nat :: IsFreePage(s, p, 0) && Opened(s, t, p, b)
      else t == s
  {
    FreeListed(s, fb);
    FreeListed(s, 0);
    SomeFree(s, fb);
    hide Inv, HasFree;
    var k := if HasFree(s, fb) then fb else 0;
    if HasFree(s, k) {
      var p := (if k == 0 then s.freelist else s.freeBuckets[k])[0];
      assert Opened(s, AllocatePage(s, b, fb), p, b);
    }
  }

  lemma SomeFree(s: Store, k: nat)
    requires Inv(s) && k < |s.freeBuckets|
    ensures s.freelist != [] || s.freeBuckets[k] != [] ==> s.pageFree > 0
    ensures s.freeBuckets[0] == []
  {
    hide PagesOk, BuffersOk, FlushOk, LogOk, Disjoint, ReadsOk, MaintOk, Distinct;
    TotalAtLeast(s.freeBuckets, k);
  }

  lemma {:induction false} TotalAtLeast(ls: seq<seq<nat>>, k: nat)
    requires k < |ls|
    ensures |ls[k]| <= Total(ls)
  {
    if k > 0 { TotalAtLeast(ls[1..], k - 1); }
  }

  /** The version is above those of all pages and writes. */
  lemma FreshVersion(s: Store)
    requires Inv(s)
    ensures forall p | 0 <= p < |s.pages| :: s.pages[p].version < s.nextVersion
    ensures forall w | w in s.log :: w.version < s.nextVersion
  {
    hide ListsOk, BuffersOk, FlushOk, Disjoint, ReadsOk, MaintOk;
    forall p | 0 <= p < |s.pages| ensures s.pages[p].version < s.nextVersion {
      assert PageOk(s.conf, s.nextVersion, s.pages[p]);
    }
  }

  // ---- Writing -----------------------------------------------------------------------------------------

  lemma BufferFacts(s: Store, p: nat)
    requires Inv(s) && p < |s.pages|
    ensures var pg := s.pages[p];
      && (pg.wbuf.None? ==> pg.reserved == pg.written)
      && (pg.wbuf.Some? ==>
            && pg.active && |pg.wbuf.value.data| == s.conf.wbufSize && pg.wbuf.value.free <= s.conf.wbufSize
            && pg.wbuf.value.offset == pg.written && pg.written < s.conf.pageSize
            && (!pg.wbuf.value.full ==> s.ios > 0))
      && (s.wbufs != [] ==> |s.wbufs[0]| == s.conf.wbufSize) && s.conf.wbufSize > 0
  {
    if s.pages[p].wbuf.Some? && !s.pages[p].wbuf.value.full { IoAvailable(s, p); }
    hide ListsOk, FlushOk, LogOk, Disjoint, ReadsOk, MaintOk, Attached;
    assert PageOk(s.conf, s.nextVersion, s.pages[p]);
  }

  /** A write is taken exactly if the page is being written and either its buffer is not
      queued and has room, or it has no buffer and gets a new one that is large enough. It
      is then recorded at the first byte after what the page holds. A buffer without room
      for it is queued, once, to be flushed. */
  lemma WriteOutcome(s: Store, p: nat, data: seq<Byte>)
    requires Inv(s) && p < |s.pages|
    ensures var pg, t := s.pages[p], WriteStep(s, p, data);
      var open := pg.wbuf.Some? && !pg.wbuf.value.full;
      var fits := open && |data| <= pg.wbuf.value.free;
      var opens := pg.wbuf.None? && pg.written < s.conf.pageSize && s.wbufs != [] && |data| <= s.conf.wbufSize;
      var at := if pg.wbuf.Some? then pg.written + s.conf.wbufSize - pg.wbuf.value.free else pg.written;
      && t.log == (if pg.active && (fits || opens) then s.log + [Write(p, pg.version, at, data)] else s.log)
      && t.flushes == (if open && !fits then s.flushes[p := false] else s.flushes)
  {
    hide Inv, WriteStep;
    BufferFacts(s, p);
    if NeedsSubmit(s.pages[p], |data|) { WriteQueues(s, p, data); } else { WriteKeeps(s, p, data); }
  }

  lemma WriteQueues(s: Store, p: nat, data: seq<Byte>)
    requires Inv(s) && p < |s.pages| && NeedsSubmit(s.pages[p], |data|)
    ensures WriteStep(s, p, data).log == s.log && WriteStep(s, p, data).flushes == s.flushes[p := false]
  {
    hide Inv;
    BufferFacts(s, p);
    SubmitInv(s, p, |data|);
  }

  lemma WriteKeeps(s: Store, p: nat, data: seq<Byte>)
    requires Inv(s) && p < |s.pages| && !NeedsSubmit(s.pages[p], |data|)
    ensures var pg, t := s.pages[p], WriteStep(s, p, data);
      var fits := pg.wbuf.Some? && !pg.wbuf.value.full && |data| <= pg.wbuf.value.free;
      var opens := pg.wbuf.None? && pg.written < s.conf.pageSize && s.wbufs != [] && |data| <= s.conf.wbufSize;
      var at := if pg.wbuf.Some? then pg.written + s.conf.wbufSize - pg.wbuf.value.free else pg.written;
      && t.log == (if pg.active && (fits || opens) then s.log + [Write(p, pg.version, at, data)] else s.log)
      && t.flushes == s.flushes
  {
    hide Inv;
    BufferFacts(s, p);
  }

  // ---- Eviction ----------------------------------------------------------------------------------------

  /** The page can be evicted: it is full and open, has objects, and is of the default class. */
  predicate Evictable(pg: Page) {
    !pg.free && !pg.active && !pg.closed && pg.objCount > 0 && pg.freeBucket == 0
  }

  /** The step frees the page the scan is at. */
  predicate FreesVisited(s: Store, t: Store) {
    s.maint.Scanning? && s.maint.i < |s.pages| == |t.pages| && !s.pages[s.maint.i].free && t.pages[s.maint.i].free
  }

  ghost predicate MaintMoves(s: Store, e: Event, t: Store) {
    match e
    case BeginScan => t.maint == Scanning(0, s.pageFree == 0 || s.freelist == [], None)
    case EndScan => t.maint == Idle
    case VisitPage =>
      && s.maint.Scanning? && s.maint.i < |s.pages| && t.maint.Scanning? && t.maint.i == s.maint.i + 1
      && t.maint.doEvict == (s.maint.doEvict && !FreesVisited(s, t))
      && var pg, low := s.pages[s.maint.i], s.maint.low;
      t.maint.low ==
        if Evictable(pg) && (low.None? || pg.version < low.value.1) then Some((s.maint.i, pg.version)) else low
    case _ => t.maint == s.maint
  }

  lemma MaintStep(s: Store, e: Event)
    requires Inv(s) && Enabled(s, e)
    ensures MaintMoves(s, e, Next(s, e))
  {
    hide Inv, WriteStep;
    match e
    case WriteTo(p, data) => WriteMaint(s, p, data);
    case AllocateIn(b, fb) =>
    case FlushTransfer(p) => PwriteInv(s, p);
    case FlushCallback(p) => FlushDoneInv(s, p);
    case DeleteFrom(p, version, count, bytes) =>
    case CloseOf(p, version) =>
    case BeginRead(w) => ReadStartInv(s, w);
    case TransferRead(i) => PreadInv(s, i);
    case EndRead(i) => ReadEndInv(s, i);
    case BeginScan =>
    case VisitPage => MaintVisitInv(s);
    case EndScan => MaintEvictInv(s);
  }

  lemma WriteMaint(s: Store, p: nat, data: seq<Byte>)
    requires Inv(s) && p < |s.pages|
    ensures WriteStep(s, p, data).maint == s.maint
  {
    hide Inv;
  }

  /** A scan that began with event `a` and is still on in state `k`. */
  ghost predicate ScanOn(stores: seq<Store>, events: seq<Event>, a: nat, k: nat) {
    && |stores| == |events| + 1 && a < k <= |events| && events[a] == BeginScan
    && forall n | a < n < k :: events[n] != EndScan
  }

  lemma StepMoves(stores: seq<Store>, events: seq<Event>, k: nat)
    requires Run(stores, events) && k < |events|
    ensures |stores| == |events| + 1 && Enabled(stores[k], events[k]) && MaintMoves(stores[k], events[k], stores[k + 1])
    ensures |stores[k + 1].pages| == |stores[k].pages|
  {
    assert |stores| == |events| + 1;
    hide Inv, Next, Enabled, Run, MaintMoves;
    RunStep(stores, events, k);
    MaintStep(stores[k], events[k]);
    PageCount(stores, events, k);
    PageCount(stores, events, k + 1);
  }

  lemma {:induction false} ScanIsOn(stores: seq<Store>, events: seq<Event>, a: nat, k: nat)
    requires Run(stores, events) && ScanOn(stores, events, a, k)
    ensures stores[k].maint.Scanning?
    decreases k
  {
    hide Inv, Next, Run;
    StepMoves(stores, events, k - 1);
    if k > a + 1 { ScanIsOn(stores, events, a, k - 1); }
  }

  /** The scan visits every page; when it visited page `q`, what it has noted since is at
      most as old as the page, if the page could be evicted. */
  lemma {:induction false} VisitTime(stores: seq<Store>, events: seq<Event>, a: nat, k: nat, q: nat) returns (n: nat)
    requires Run(stores, events) && ScanOn(stores, events, a, k)
    requires stores[k].maint.Scanning? && q < stores[k].maint.i
    ensures a < n < k && events[n] == VisitPage && stores[n].maint.Scanning? && stores[n].maint.i == q
    ensures q < |stores[n].pages|
    ensures Evictable(stores[n].pages[q]) ==>
      stores[k].maint.low.Some? && stores[k].maint.low.value.1 <= stores[n].pages[q].version
    decreases k
  {
    hide Inv, Next, Run, FreesVisited, Evictable;
    StepMoves(stores, events, k - 1);
    if k > a + 1 {
      ScanIsOn(stores, events, a, k - 1);
      if q < stores[k - 1].maint.i { n := VisitTime(stores, events, a, k - 1, q); } else { n := k - 1; }
    }
  }

  /** The page that is noted could be evicted when it was visited, and has not been given
      another use since. */
  lemma {:induction false} VictimTime(stores: seq<Store>, events: seq<Event>, a: nat, k: nat) returns (n: nat)
    requires Run(stores, events) && ScanOn(stores, events, a, k)
    requires stores[k].maint.Scanning? && stores[k].maint.low.Some?
    ensures var (p, v) := stores[k].maint.low.value;
      && a < n < k && events[n] == VisitPage && stores[n].maint.Scanning? && stores[n].maint.i == p
      && p < |stores[n].pages| == |stores[k].pages| && p < stores[k].maint.i
      && Evictable(stores[n].pages[p]) && stores[n].pages[p].version == v
      && !stores[k].pages[p].free && stores[k].pages[p].version == v
    decreases k
  {
    hide Inv, Next, Run, FreesVisited, Evictable, PageStep;
    StepMoves(stores, events, k - 1);
    if k > a + 1 {
      ScanIsOn(stores, events, a, k - 1);
      var s, e, t := stores[k - 1], events[k - 1], stores[k];
      if t.maint.low == s.maint.low {
        n := VictimTime(stores, events, a, k - 1);
        RunPages(stores, events, k, t.maint.low.value.0);
        KeepsUse(s, e, t, t.maint.low.value.0);
      } else {
        n := k - 1;
        RunPages(stores, events, k, s.maint.i);
        VisitKeeps(s, t);
      }
    }
  }

  lemma KeepsUse(s: Store, e: Event, t: Store, p: nat)
    requires PageStep(s, e, t, p) && !s.pages[p].free && e != EndScan
    requires s.maint.Scanning? && p < s.maint.i
    ensures !t.pages[p].free && t.pages[p].version == s.pages[p].version
  {}

  lemma VisitKeeps(s: Store, t: Store)
    requires s.maint.Scanning? && PageStep(s, VisitPage, t, s.maint.i) && Evictable(s.pages[s.maint.i])
    ensures !t.pages[s.maint.i].free && t.pages[s.maint.i].version == s.pages[s.maint.i].version
  {}

  /** Whether the scan evicts: there was no page to give out when it began, and it freed none. */
  lemma {:induction false} EvictsIfShort(stores: seq<Store>, events: seq<Event>, a: nat, k: nat)
    requires Run(stores, events) && ScanOn(stores, events, a, k) && stores[k].maint.Scanning?
    ensures stores[k].maint.doEvict <==>
      && (stores[a].pageFree == 0 || stores[a].freelist == [])
      && forall n | a < n < k && events[n] == VisitPage :: !FreesVisited(stores[n], stores[n + 1])
    decreases k
  {
    hide Inv, Next, Run, FreesVisited, Evictable;
    StepMoves(stores, events, k - 1);
    if k > a + 1 {
      ScanIsOn(stores, events, a, k - 1);
      EvictsIfShort(stores, events, a, k - 1);
    }
  }

  /** What the end of a scan does: the noted page is closed if a page is to be evicted, and
      freed with it unless a read is on it; nothing else changes. */
  lemma EvictOutcome(s: Store)
    requires Inv(s) && Enabled(s, EndScan)
    ensures var t, m := Next(s, EndScan), s.maint;
      && |t.pages| == |s.pages|
      && if m.doEvict && m.low.Some? && m.low.value.0 < |s.pages| && !s.pages[m.low.value.0].closed then
           var p := m.low.value.0;
           && (forall q | 0 <= q < |s.pages| && q != p :: t.pages[q] == s.pages[q])
           && (if s.pages[p].refcount == 0 then Freed(t.pages[p]) else t.pages[p] == s.pages[p].(closed := true))
         else t.pages == s.pages
  {
    hide Inv;
    if s.maint.low.Some? { VictimInUse(s); }
    MaintEvictInv(s);
  }
}

/** Whole runs of the engine: every interleaving of the locked sections and the
    disk transfers, from extstore_init on.
 */
module ExtStoreRuns {
  import opened ByteStrings
  import opened ExtStoreSpec
  import opened Options
  import opened Sequences
  import opened ExtStoreInv

  // ---- extstore_init ---------------------------------------------------------------------

  /** The free lists after the initialisation loop has come down to page `i`. */
  function InitLists(fbs: seq<nat>, bucketCount: nat, i: nat): (r: (seq<nat>, seq<seq<nat>>))
    requires forall p | 0 <= p < |fbs| :: fbs[p] < bucketCount
    ensures |r.1| == bucketCount
    decreases |fbs| - i
  {
    if i >= |fbs| then ([], NoLists(bucketCount))
    else
      var (l, ls) := InitLists(fbs, bucketCount, i + 1);
      if fbs[i] == 0 then ([i] + l, ls) else (l, ls[fbs[i] := [i] + ls[fbs[i]]])
  }

  function NoLists(n: nat): seq<seq<nat>> { seq(n, _ => []) }

  /** A fresh page: free, with the device class of its file. */
  function FreshPage(fb: nat): Page {
    Page(0, 0, 0, 0, 0, fb, false, false, true, 0, 0, None)
  }

  /** The engine after extstore_init. The loop stops above page 0, so page 0 is on no list. */
  function InitStore(c: Conf, fbs: seq<nat>, disk: seq<seq<Byte>>, wbufs: seq<seq<Byte>>): Store
    requires forall p | 0 <= p < |fbs| :: fbs[p] < c.bucketCount
  {
    var (l, ls) := InitLists(fbs, c.bucketCount, 1);
    Store(c, seq(|fbs|, p requires 0 <= p < |fbs| => FreshPage(fbs[p])), disk, l, ls, NoLists(c.bucketCount),
          if |fbs| == 0 then 0 else |fbs| - 1, 1, wbufs, c.wbufCount, map[], [], [], Idle)
  }

  ghost predicate ValidInit(c: Conf, fbs: seq<nat>, disk: seq<seq<Byte>>, wbufs: seq<seq<Byte>>) {
    && ValidConf(c) && |fbs| == |disk| == c.pageCount && |wbufs| == c.wbufCount
    && (forall p | 0 <= p < |fbs| :: fbs[p] < c.bucketCount)
    && (forall p | 0 <= p < |disk| :: |disk[p]| == c.pageSize)
    && (forall i | 0 <= i < |wbufs| :: |wbufs[i]| == c.wbufSize)
  }

  lemma {:induction false} InitListsHold(fbs: seq<nat>, n: nat, i: nat)
    requires (forall p | 0 <= p < |fbs| :: fbs[p] < n) && n >= 1 && i >= 1
    ensures var (l, ls) := InitLists(fbs, n, i);
            && Distinct(l) && (forall p: nat :: p in l <==> i <= p < |fbs| && fbs[p] == 0)
            && ls[0] == []
            && (forall k | 0 < k < n :: Distinct(ls[k]) && forall p: nat :: p in ls[k] <==>
              i <= p < |fbs| && fbs[p] == k)
            && |l| + Total(ls) == if i < |fbs| then |fbs| - i else 0
    decreases |fbs| - i
  {
    if i >= |fbs| {
      TotalEmpty(n);
    } else {
      InitListsHold(fbs, n, i + 1);
      var (l, ls) := InitLists(fbs, n, i + 1);
      if fbs[i] == 0 {
        PushFront(l, i);
      } else {
        PushFront(ls[fbs[i]], i);
        TotalUpdate(ls, fbs[i], [i] + ls[fbs[i]]);
      }
    }
  }

  lemma {:induction false} TotalEmpty(n: nat)
    ensures Total(NoLists(n)) == 0
  {
    if n > 0 {
      assert NoLists(n)[1..] == NoLists(n - 1);
      TotalEmpty(n - 1);
    }
  }

  lemma InitInv(c: Conf, fbs: seq<nat>, disk: seq<seq<Byte>>, wbufs: seq<seq<Byte>>)
    requires ValidInit(c, fbs, disk, wbufs)
    ensures Inv(InitStore(c, fbs, disk, wbufs))
  {
    var s := InitStore(c, fbs, disk, wbufs);
    InitPages(c, fbs, disk, wbufs);
    InitListsOk(c, fbs, disk, wbufs);
    hide PagesOk, ListsOk;
    assert Attached(s) == {};
    assert BuffersOk(s);
  }

  lemma InitPages(c: Conf, fbs: seq<nat>, disk: seq<seq<Byte>>, wbufs: seq<seq<Byte>>)
    requires ValidInit(c, fbs, disk, wbufs)
    ensures PagesOk(InitStore(c, fbs, disk, wbufs))
  {
    hide InitLists;
  }

  lemma InitListsOk(c: Conf, fbs: seq<nat>, disk: seq<seq<Byte>>, wbufs: seq<seq<Byte>>)
    requires ValidInit(c, fbs, disk, wbufs)
    ensures ListsOk(InitStore(c, fbs, disk, wbufs))
  {
    var s := InitStore(c, fbs, disk, wbufs);
    InitListsHold(fbs, c.bucketCount, 1);
    hide InitLists, Total, Distinct;
    forall p: nat, k: nat ensures IsFreePage(s, p, k) <==> (1 <= p < |fbs| && fbs[p] == k) {}
    forall b | 0 <= b < |s.buckets| ensures BucketOk(s, s.buckets[b], b) { NoneDistinct(s.buckets[b]); }
  }

  lemma NoneDistinct(l: seq<nat>)
    requires l == []
    ensures Distinct(l)
  {}

  // ---- Events ---------------------------------------------------------------------------------

  datatype Event =
    | AllocateIn(b: nat, fb: nat)                               // _allocate_page under e->mutex
    | WriteTo(p: nat, data: seq<Byte>)                          // extstore_write_request .. extstore_write, p->mutex
    | FlushTransfer(p: nat)                                     // pwrite in an IO thread
    | FlushCallback(p: nat)                                     // _wbuf_cb
    | DeleteFrom(p: nat, version: nat, count: nat, bytes: nat)  // extstore_delete
    | CloseOf(p: nat, version: nat)                             // extstore_close_page
    | BeginRead(w: Write)                                       // the locked part of a read
    | TransferRead(i: nat)                                      // pread
    | EndRead(i: nat)                                           // callback and reference drop
    | BeginScan | VisitPage | EndScan                           // the maintenance thread

  /** When a thread can take the step. A write may aim at any page: the page was
      looked up under another lock and may have been freed and reused since. */
  ghost predicate Enabled(s: Store, e: Event) {
    match e
    case AllocateIn(b, fb) => b < |s.buckets| && fb < |s.freeBuckets|
    case WriteTo(p, data) => p < |s.pages|
    case FlushTransfer(p) => p in s.flushes && !s.flushes[p]
    case FlushCallback(p) => p in s.flushes && s.flushes[p]
    case DeleteFrom(p, _, _, _) => p < |s.pages|
    case CloseOf(p, _) => p < |s.pages|
    case BeginRead(w) => w in s.log
    case TransferRead(i) => i < |s.readOps| && s.readOps[i].OnDisk?
    case EndRead(i) => i < |s.readOps| && s.readOps[i].Transferred?
    case BeginScan => s.maint.Idle?
    case VisitPage => s.maint.Scanning? && s.maint.i < |s.pages|
    case EndScan => s.maint.Scanning? && s.maint.i == |s.pages|
  }

  /** extstore_write_request up to the unlock, with the copy and extstore_write when it succeeds. */
  ghost function WriteStep(s: Store, p: nat, data: seq<Byte>): (t: Store)
    requires Inv(s) && p < |s.pages|
    ensures Inv(t)
  {
    if PageFull(s, s.pages[p]) then s
    else
      var s1 := if NeedsSubmit(s.pages[p], |data|) then SubmitInv(s, p, |data|); Submit(s, p) else s;
      var s2 := if NeedsWbuf(s1, s1.pages[p]) then AttachInv(s1, p); AttachWbuf(s1, p) else s1;
      if Fits(s2.pages[p], |data|) then AppendInv(s2, p, data); Append(s2, p, data) else s2
  }

  /** The engine after a step; every step keeps the invariant. */
  ghost function Next(s: Store, e: Event): (t: Store)
    requires Inv(s) && Enabled(s, e)
    ensures Inv(t)
  {
    hide Inv;
    match e
    case AllocateIn(b, fb) => AllocateInv(s, b, fb); AllocatePage(s, b, fb)
    case WriteTo(p, data) => WriteStep(s, p, data)
    case FlushTransfer(p) => PwriteInv(s, p); Pwrite(s, p)
    case FlushCallback(p) => FlushDoneInv(s, p); FlushDone(s, p)
    case DeleteFrom(p, version, count, bytes) =>
      TouchInv(s, p, Delete(s, p, version, count, bytes).pages[p]); Delete(s, p, version, count, bytes)
    case CloseOf(p, version) => TouchInv(s, p, ClosePage(s, p, version).pages[p]); ClosePage(s, p, version)
    case BeginRead(w) => ReadStartInv(s, w); ReadStart(s, w)
    case TransferRead(i) => PreadInv(s, i); Pread(s, i)
    case EndRead(i) => ReadEndInv(s, i); ReadEnd(s, i)
    case BeginScan => ScanInv(s, MaintBegin(s).maint); MaintBegin(s)
    case VisitPage => MaintVisitInv(s); MaintVisit(s)
    case EndScan => MaintEvictInv(s); MaintEvict(s)
  }

  // ---- Runs ----------------------------------------------------------------------------------------

  ghost predicate Run(stores: seq<Store>, events: seq<Event>) {
    && |stores| == |events| + 1
    && (exists c, fbs, disk, wbufs :: ValidInit(c, fbs, disk, wbufs) && stores[0] == InitStore(c, fbs, disk, wbufs))
    && forall i | 0 <= i < |events| ::
         Inv(stores[i]) && Enabled(stores[i], events[i]) && stores[i + 1] == Next(stores[i], events[i])
  }

  lemma RunStart(stores: seq<Store>, events: seq<Event>)
    requires Run(stores, events)
    ensures Inv(stores[0]) && stores[0].log == []
  {
    var c, fbs, disk, wbufs :| ValidInit(c, fbs, disk, wbufs) && stores[0] == InitStore(c, fbs, disk, wbufs);
    hide Inv;
    InitInv(c, fbs, disk, wbufs);
  }

  lemma RunStep(stores: seq<Store>, events: seq<Event>, i: nat)
    requires Run(stores, events) && i < |events|
    ensures |stores| == |events| + 1
    ensures Inv(stores[i]) && Enabled(stores[i], events[i]) && stores[i + 1] == Next(stores[i], events[i])
  {
    hide Inv, Next, Enabled;
  }

  lemma RunKeepsInv(stores: seq<Store>, events: seq<Event>, i: nat)
    requires Run(stores, events) && i < |stores|
    ensures |stores| == |events| + 1 && Inv(stores[i])
  {
    assert |stores| == |events| + 1;
    hide Inv, Next, Enabled, Run;
    if i == 0 { RunStart(stores, events); } else { RunStep(stores, events, i - 1); }
  }

  /** A run can go on with every step a thread can take. */
  lemma RunExtends(stores: seq<Store>, events: seq<Event>, e: Event)
    requires Run(stores, events) && Enabled(stores[|stores| - 1], e)
    ensures Inv(stores[|stores| - 1]) && Run(stores + [Next(stores[|stores| - 1], e)], events + [e])
  {
    hide Inv, Next, Enabled;
    RunKeepsInv(stores, events, |stores| - 1);
  }

  /** In every interleaving, a read that carries the address of a completed write
      ends with a miss or delivers exactly the bytes of that write; only the read
      of an empty object can run into an assertion instead. */
  lemma ReadsAreExact(stores: seq<Store>, events: seq<Event>, i: nat, j: nat)
    requires Run(stores, events) && i < |stores| && j < |stores[i].readOps| && stores[i].readOps[j].Finished?
    ensures stores[i].readOps[j].w in stores[i].log
    ensures var r := stores[i].readOps[j];
      r.result == Miss || r.result == Data(r.w.data) || (r.result == Failed && r.w.data == [])
  {
    hide Run;
    RunKeepsInv(stores, events, i);
    hide PagesOk, ListsOk, BuffersOk, FlushOk, LogOk, Disjoint, MaintOk;
    ReadAt(stores[i], j);
  }

  /** A read misses only if, when it started, the page had been freed, closed, or
      reused for another version; otherwise it will deliver. */
  lemma MissMeansGone(stores: seq<Store>, events: seq<Event>, i: nat)
    requires Run(stores, events) && i < |events| && events[i].BeginRead?
    ensures var w, s, t := events[i].w, stores[i], stores[i + 1];
            && w.page < |s.pages| && |t.readOps| == |s.readOps| + 1 && t.readOps[|s.readOps|].w == w
            && (t.readOps[|s.readOps|] == Finished(w, Miss) <==> !Readable(s.pages[w.page], w.version))
  {
    hide Inv;
    var s, w := stores[i], events[i].w;
    assert Inv(s) && Enabled(s, events[i]) && stores[i + 1] == Next(s, events[i]);
    ReadStartInv(s, w);
  }

  /** The assertions of _read_from_wbuf fail exactly for an object that starts at
      the end of what its active page has reserved; only an empty object can. */
  lemma FailedReadExactly(stores: seq<Store>, events: seq<Event>, i: nat)
    requires Run(stores, events) && i < |events| && events[i].BeginRead?
    ensures var w, s, t := events[i].w, stores[i], stores[i + 1];
            && w.page < |s.pages| && |t.readOps| == |s.readOps| + 1
            && (t.readOps[|s.readOps|] == Finished(w, Failed) <==>
                  Readable(s.pages[w.page], w.version) && s.pages[w.page].active &&
                    w.offset == s.pages[w.page].reserved)
            && (t.readOps[|s.readOps|] == Finished(w, Failed) ==> w.data == [])
  {
    hide Inv, ReadStart;
    assert |stores| == |events| + 1;
    hide Run;
    var s, w := stores[i], events[i].w;
    RunStep(stores, events, i);
    ReadStartInv(s, w);
    FailsAt(s, w);
  }

  lemma FailsAt(s: Store, w: Write)
    requires Inv(s) && w in s.log
    ensures w.page < |s.pages|
    ensures Readable(s.pages[w.page], w.version) && FromWbuf(s.pages[w.page], w.offset) ==>
      Buffered(s.pages[w.page], w.offset) ==> WbufCovers(s.pages[w.page].wbuf.value, w.offset, |w.data|)
    ensures var t := ReadStart(s, w);
            && |t.readOps| == |s.readOps| + 1
            && (t.readOps[|s.readOps|] == Finished(w, Failed) <==>
                  Readable(s.pages[w.page], w.version) && s.pages[w.page].active &&
                    w.offset == s.pages[w.page].reserved)
            && (t.readOps[|s.readOps|] == Finished(w, Failed) ==> w.data == [])
  {
    hide Inv;
    ReadStartInv(s, w);
    ReservedCovers(s, w.page);
  }

  lemma ReservedCovers(s: Store, p: nat)
    requires Inv(s) && p < |s.pages|
    ensures s.pages[p].written <= s.pages[p].reserved
  {
    hide ListsOk, BuffersOk, FlushOk, LogOk, Disjoint, ReadsOk, MaintOk;
    assert PageOk(s.conf, s.nextVersion, s.pages[p]);
  }

  // ---- Runs that fail an assertion --------------------------------------------------------------------

  /** Some run leads from one state to the other. */
  ghost predicate Reachable(s0: Store, s: Store) {
    exists stores, events :: Run(stores, events) && stores[0] == s0 && stores[|stores| - 1] == s
  }

  lemma ReachableStart(c: Conf, fbs: seq<nat>, disk: seq<seq<Byte>>, wbufs: seq<seq<Byte>>)
    requires ValidInit(c, fbs, disk, wbufs)
    ensures Reachable(InitStore(c, fbs, disk, wbufs), InitStore(c, fbs, disk, wbufs))
  {
    var stores, events: seq<Event> := [InitStore(c, fbs, disk, wbufs)], [];
    assert Run(stores, events);
  }

  lemma ReachableNext(s0: Store, s: Store, e: Event)
    requires Reachable(s0, s) && Enabled(s, e)
    ensures Inv(s) && Reachable(s0, Next(s, e))
  {
    hide Inv, Next, Enabled;
    var stores, events :| Run(stores, events) && stores[0] == s0 && stores[|stores| - 1] == s;
    RunExtends(stores, events, e);
    var more := stores + [Next(s, e)];
    assert more[0] == s0 && more[|more| - 1] == Next(s, e);
  }

  /** Some run from here has a read that fails an assertion. */
  ghost predicate ReadCanFail(s0: Store) {
    exists s: Store, w: Write :: Reachable(s0, s) && Finished(w, Failed) in s.readOps
  }

  /** Page 1 is the first one on the list of its device. */
  lemma FirstFree(c: Conf, fbs: seq<nat>, disk: seq<seq<Byte>>, wbufs: seq<seq<Byte>>)
    requires ValidInit(c, fbs, disk, wbufs) && c.pageCount >= 2
    ensures var s := InitStore(c, fbs, disk, wbufs);
      && |s.freeBuckets| == |s.buckets| == c.bucketCount && fbs[1] < c.bucketCount && s.pageFree > 0
      && TakeFree(s, fbs[1]).0 == Some(1) && |s.pages| == c.pageCount && s.pages[1] == FreshPage(fbs[1])
      && (forall b | 0 <= b < c.bucketCount :: s.buckets[b] == [])
  {}

  /** Page 1 after its first allocation. */
  function OpenPage(fb: nat, b: nat): Page {
    FreshPage(fb).(active := true, free := false, version := 1, bucket := b)
  }

  lemma FirstPage(c: Conf, fbs: seq<nat>, disk: seq<seq<Byte>>, wbufs: seq<seq<Byte>>, b: nat) returns (s: Store)
    requires ValidInit(c, fbs, disk, wbufs) && c.pageCount >= 2 && b < c.bucketCount
    ensures var s0 := InitStore(c, fbs, disk, wbufs);
      && fbs[1] < |s0.freeBuckets| && b < |s0.buckets| && s == AllocatePage(s0, b, fbs[1]) && Reachable(s0, s)
    ensures |s.pages| == c.pageCount && s.conf == c && s.wbufs == wbufs && s.pages[1] == OpenPage(fbs[1], b)
  {
    hide Reachable, Inv;
    ReachableStart(c, fbs, disk, wbufs);
    var s0 := InitStore(c, fbs, disk, wbufs);
    FirstFree(c, fbs, disk, wbufs);
    hide InitStore;
    ReachableNext(s0, s0, AllocateIn(b, fbs[1]));
    s := Next(s0, AllocateIn(b, fbs[1]));
  }

  /** A buffer's worth of bytes fills the first buffer of page 1, and an empty object
      follows at its end, which is where the allocation mark is. */
  lemma EmptyAtMark(s0: Store, s1: Store, b: nat) returns (s: Store)
    requires Reachable(s0, s1) && s1.conf.pageSize > 0 && s1.wbufs != [] && |s1.wbufs[0]| == s1.conf.wbufSize
    requires |s1.pages| > 1 && s1.pages[1] == OpenPage(s1.pages[1].freeBucket, b)
    ensures Reachable(s0, s) && |s.pages| > 1 && Readable(s.pages[1], 1) && s.pages[1].active
    ensures s.pages[1].reserved == s.conf.wbufSize && Write(1, 1, s.conf.wbufSize, []) in s.log
  {
    hide Reachable, Inv;
    var n := s1.conf.wbufSize;
    var data := Zeros(n);
    ReachableNext(s0, s1, WriteTo(1, data));
    var s2 := Next(s1, WriteTo(1, data));
    var buf := s2.pages[1].wbuf.value;
    assert buf == Wbuf(buf.data, 0, 0, false) && |buf.data| == n && s2.pages[1].reserved == n;
    ReachableNext(s0, s2, WriteTo(1, []));
    s := Next(s2, WriteTo(1, []));
    assert s.log[|s2.log|] == Write(1, 1, n, []);
  }

  /** In every accepted configuration with a page to write on, some run has a read
      that fails an assertion. */
  lemma EmptyObjectFails(c: Conf, fbs: seq<nat>, disk: seq<seq<Byte>>, wbufs: seq<seq<Byte>>)
    requires ValidInit(c, fbs, disk, wbufs) && c.pageCount >= 2 && c.pageSize > 0
    ensures ReadCanFail(InitStore(c, fbs, disk, wbufs))
  {
    hide Reachable, Inv, ReadStart, InitStore;
    var s0 := InitStore(c, fbs, disk, wbufs);
    var s1 := FirstPage(c, fbs, disk, wbufs, 0);
    var s := EmptyAtMark(s0, s1, 0);
    var w := Write(1, 1, s.conf.wbufSize, []);
    ReachableNext(s0, s, BeginRead(w));
    ReadStartInv(s, w);
    FailsAt(s, w);
  }

  /** What a step does to the log. */
  lemma LogStep(s: Store, e: Event)
    requires Inv(s) && Enabled(s, e)
    ensures var t := Next(s, e);
            || t.log == s.log
            || (e.WriteTo? && |t.log| == |s.log| + 1 && t.log[..|s.log|] == s.log &&
                t.log[|s.log|].page == e.p && t.log[|s.log|].data == e.data)
  {
    hide Inv;
    match e
    case WriteTo(p, data) =>
      var t := WriteStep(s, p, data);
      assert t.log == s.log || |t.log| == |s.log| + 1;
    case AllocateIn(b, fb) => assert Next(s, e) == AllocatePage(s, b, fb);
    case FlushTransfer(p) => PwriteInv(s, p); assert Next(s, e) == Pwrite(s, p);
    case FlushCallback(p) => FlushDoneInv(s, p); assert Next(s, e) == FlushDone(s, p);
    case DeleteFrom(p, version, count, bytes) =>
    case CloseOf(p, version) =>
    case BeginRead(w) => ReadStartInv(s, w); assert Next(s, e) == ReadStart(s, w);
    case TransferRead(i) => PreadInv(s, i); assert Next(s, e) == Pread(s, i);
    case EndRead(i) => ReadEndInv(s, i); assert Next(s, e) == ReadEnd(s, i);
    case BeginScan =>
    case VisitPage => MaintVisitInv(s); assert Next(s, e) == MaintVisit(s);
    case EndScan => MaintEvictInv(s); assert Next(s, e) == MaintEvict(s);
  }

  lemma ConfStep(s: Store, e: Event)
    requires Inv(s) && Enabled(s, e)
    ensures Next(s, e).conf == s.conf
  {
    hide Inv;
    match e
    case WriteTo(p, data) => assert WriteStep(s, p, data).conf == s.conf;
    case AllocateIn(b, fb) => assert Next(s, e) == AllocatePage(s, b, fb);
    case FlushTransfer(p) => PwriteInv(s, p); assert Next(s, e) == Pwrite(s, p);
    case FlushCallback(p) => FlushDoneInv(s, p); assert Next(s, e) == FlushDone(s, p);
    case DeleteFrom(p, version, count, bytes) =>
    case CloseOf(p, version) =>
    case BeginRead(w) => ReadStartInv(s, w); assert Next(s, e) == ReadStart(s, w);
    case TransferRead(i) => PreadInv(s, i); assert Next(s, e) == Pread(s, i);
    case EndRead(i) => ReadEndInv(s, i); assert Next(s, e) == ReadEnd(s, i);
    case BeginScan =>
    case VisitPage => MaintVisitInv(s); assert Next(s, e) == MaintVisit(s);
    case EndScan => MaintEvictInv(s); assert Next(s, e) == MaintEvict(s);
  }

  /** There is no page to write on: page 0 is never given out. */
  predicate NoSpace(c: Conf) { c.pageCount < 2 || c.pageSize == 0 }

  lemma AlwaysFull(s: Store, p: nat)
    requires Inv(s) && p < |s.pages| && NoSpace(s.conf)
    ensures PageFull(s, s.pages[p])
  {
    hide BuffersOk, FlushOk, LogOk, Disjoint, ReadsOk, MaintOk;
    assert PageOk(s.conf, s.nextVersion, s.pages[p]);
  }

  lemma {:induction false} NoSpaceNoLog(stores: seq<Store>, events: seq<Event>, i: nat)
    requires Run(stores, events) && i < |stores| && NoSpace(stores[0].conf)
    ensures stores[i].log == [] && stores[i].conf == stores[0].conf
  {
    hide Inv, Next, Enabled, Run;
    RunKeepsInv(stores, events, i);
    if i == 0 {
      RunStart(stores, events);
    } else {
      var s, e := stores[i - 1], events[i - 1];
      NoSpaceNoLog(stores, events, i - 1);
      RunStep(stores, events, i - 1);
      NoSpaceStep(s, e);
    }
  }

  lemma NoSpaceStep(s: Store, e: Event)
    requires Inv(s) && Enabled(s, e) && NoSpace(s.conf) && s.log == []
    ensures Next(s, e).log == [] && Next(s, e).conf == s.conf
  {
    hide Inv;
    ConfStep(s, e);
    LogStep(s, e);
    if e.WriteTo? { AlwaysFull(s, e.p); }
  }

  /** Whether a read can fail an assertion depends on the configuration alone: it can
      exactly if there is a page to write on. */
  lemma ReadCanFailExactly(c: Conf, fbs: seq<nat>, disk: seq<seq<Byte>>, wbufs: seq<seq<Byte>>)
    requires ValidInit(c, fbs, disk, wbufs)
    ensures ReadCanFail(InitStore(c, fbs, disk, wbufs)) <==> c.pageCount >= 2 && c.pageSize > 0
  {
    var s0 := InitStore(c, fbs, disk, wbufs);
    assert s0.conf == c;
    hide Run, Inv, InitStore, ValidInit;
    if ReadCanFail(s0) {
      var s: Store, w: Write :| Reachable(s0, s) && Finished(w, Failed) in s.readOps;
      var stores, events :| Run(stores, events) && stores[0] == s0 && stores[|stores| - 1] == s;
      FailedIsLogged(stores, events, w);
      if NoSpace(c) { NoSpaceNoLog(stores, events, |stores| - 1); }
    }
    if c.pageCount >= 2 && c.pageSize > 0 { EmptyObjectFails(c, fbs, disk, wbufs); }
  }

  lemma FailedIsLogged(stores: seq<Store>, events: seq<Event>, w: Write)
    requires Run(stores, events) && |stores| > 0 && Finished(w, Failed) in stores[|stores| - 1].readOps
    ensures w in stores[|stores| - 1].log
  {
    hide Run;
    var s := stores[|stores| - 1];
    RunKeepsInv(stores, events, |stores| - 1);
    hide PagesOk, ListsOk, BuffersOk, FlushOk, LogOk, Disjoint, MaintOk;
    var j :| 0 <= j < |s.readOps| && s.readOps[j] == Finished(w, Failed);
    ReadAt(s, j);
  }

  /** Every entry of the log is a write that some earlier step completed. */
  lemma {:induction false} LoggedWrites(stores: seq<Store>, events: seq<Event>, i: nat, n: nat)
    requires Run(stores, events) && i < |stores| && n < |stores[i].log|
    ensures |stores| == |events| + 1
    ensures exists k :: 0 <= k < i && events[k] == WriteTo(stores[i].log[n].page, stores[i].log[n].data)
    decreases i
  {
    hide Inv, Next, Enabled, Run;
    RunStart(stores, events);
    RunKeepsInv(stores, events, i);
    if i > 0 {
      var s, e := stores[i - 1], events[i - 1];
      RunStep(stores, events, i - 1);
      LogStep(s, e);
      if n < |s.log| {
        assert stores[i].log[n] == s.log[n];
        LoggedWrites(stores, events, i - 1, n);
      }
    }
  }

  // ---- The structure of reachable states ----------------------------------------------------------------

  function Count(l: seq<nat>, p: nat): nat {
    if l == [] then 0 else (if l[0] == p then 1 else 0) + Count(l[1..], p)
  }

  function CountAll(ls: seq<seq<nat>>, p: nat): nat {
    if ls == [] then 0 else Count(ls[0], p) + CountAll(ls[1..], p)
  }

  /** How often a page occurs on the free lists and the bucket lists together. */
  function Occurrences(s: Store, p: nat): nat {
    Count(s.freelist, p) + CountAll(s.freeBuckets, p) + CountAll(s.buckets, p)
  }

  lemma {:induction false} CountDistinct(l: seq<nat>, p: nat)
    requires Distinct(l)
    ensures Count(l, p) == if p in l then 1 else 0
  {
    if l != [] {
      PopFront(l);
      CountDistinct(l[1..], p);
    }
  }

  lemma {:induction false} CountOne(ls: seq<seq<nat>>, p: nat, home: int, from: nat)
    requires from <= |ls|
    requires forall k | from <= k < |ls| :: Distinct(ls[k]) && (p in ls[k] <==> k == home)
    ensures CountAll(ls[from..], p) == if from <= home < |ls| then 1 else 0
    decreases |ls| - from
  {
    if from < |ls| {
      CountDistinct(ls[from], p);
      assert ls[from..][1..] == ls[from + 1..];
      CountOne(ls, p, home, from + 1);
    }
  }

  lemma PartitionOf(s: Store, p: nat)
    requires PagesOk(s) && ListsOk(s)
    ensures Occurrences(s, p) == if 0 < p < |s.pages| then 1 else 0
  {
    CountDistinct(s.freelist, p);
    var fb := if 0 < p < |s.pages| && s.pages[p].free && s.pages[p].freeBucket != 0 then s.pages[p].freeBucket else -1;
    var b := if 0 < p < |s.pages| && !s.pages[p].free then s.pages[p].bucket else -1;
    if 0 < p < |s.pages| { assert PageOk(s.conf, s.nextVersion, s.pages[p]); }
    forall k | 0 <= k < |s.freeBuckets| ensures Distinct(s.freeBuckets[k]) && (p in s.freeBuckets[k] <==> k == fb) {
      if k > 0 { assert p in s.freeBuckets[k] <==> IsFreePage(s, p, k); }
    }
    forall k | 0 <= k < |s.buckets| ensures Distinct(s.buckets[k]) && (p in s.buckets[k] <==> k == b) {
      assert p in s.buckets[k] <==> IsUsedPage(s, p, k);
    }
    assert p in s.freelist <==> IsFreePage(s, p, 0);
    CountOne(s.freeBuckets, p, fb, 0);
    CountOne(s.buckets, p, b, 0);
    assert s.freeBuckets[0..] == s.freeBuckets && s.buckets[0..] == s.buckets;
  }

  /** In every reachable state: a page without a buffer has reserved exactly what
      is written, one with a buffer reserves one buffer more, within the page;
      pages 1 and up are each on exactly one list, page 0 on none; `page_free`
      counts the free lists; and an io is left whenever one is about to be popped. */
  lemma ReachableStructure(stores: seq<Store>, events: seq<Event>, i: nat)
    requires Run(stores, events) && i < |stores|
    ensures forall p | 0 <= p < |stores[i].pages| ::
      var pg := stores[i].pages[p];
      if pg.wbuf.None? then pg.reserved == pg.written
      else
        && pg.wbuf.value.offset == pg.written
        && pg.reserved == pg.written + |pg.wbuf.value.data| <= stores[i].conf.pageSize
    ensures forall p: nat :: Occurrences(stores[i], p) == if 0 < p < |stores[i].pages| then 1 else 0
    ensures stores[i].pageFree == |stores[i].freelist| + Total(stores[i].freeBuckets)
    ensures forall p, len | 0 <= p < |stores[i].pages| && NeedsSubmit(stores[i].pages[p], len) :: stores[i].ios > 0
  {
    RunKeepsInv(stores, events, i);
    var s := stores[i];
    hide FlushOk, LogOk, Disjoint, ReadsOk, MaintOk;
    forall p: nat ensures Occurrences(s, p) == if 0 < p < |s.pages| then 1 else 0 { PartitionOf(s, p); }
    forall p, len | 0 <= p < |s.pages| && NeedsSubmit(s.pages[p], len) ensures s.ios > 0 { IoAvailable(s, p); }
    forall p | 0 <= p < |s.pages| ensures PageOk(s.conf, s.nextVersion, s.pages[p]) {}
  }

  /** Objects of one page version occupy disjoint ranges, in every reachable state. */
  lemma ReachableDisjoint(stores: seq<Store>, events: seq<Event>, i: nat, a: nat, b: nat)
    requires Run(stores, events) && i < |stores| && a < b < |stores[i].log|
    requires stores[i].log[a].page == stores[i].log[b].page && stores[i].log[a].version == stores[i].log[b].version
    ensures End(stores[i].log[a]) <= stores[i].log[b].offset
  {
    hide Run;
    RunKeepsInv(stores, events, i);
    hide PagesOk, ListsOk, BuffersOk, FlushOk, ReadsOk, MaintOk;
    assert EntryOk(stores[i], stores[i].log[b]);
  }
}

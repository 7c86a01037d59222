/** extstore.c: pages on disk, write buffers in front of them, and the threads
    that write, flush, read, delete, close, evict and reuse them.

    `Store` is the engine as a value. Every section of the source that runs
    under `p->mutex` or `e->mutex` is one step; the disk transfers and the end
    of a read are steps of their own. Writes are recorded in `log`, reads in
    `readOps`, so that the theorem can be stated over whole runs: a read that
    carries the address of a completed write ends with a miss or delivers the
    bytes of that write.
 */
module ExtStoreSpec {
  import opened ByteStrings
  import opened Options
  import opened Sequences

  /** The part of extstore_conf the engine keeps. */
  datatype Conf = Conf(pageCount: nat, pageSize: nat, wbufSize: nat, wbufCount: nat, bucketCount: nat)

  /** Two megabytes, of which page and buffer sizes are multiples. */
  const UNIT: nat := 0x20_0000

  const UINT16_MAX: nat := 0xffff

  /** What extstore_init insists on; a buffer size of zero stops it at a division. */
  predicate ValidConf(c: Conf) {
    && c.wbufSize > 0 && Aligned(c.pageSize, c.wbufSize)
    && c.bucketCount <= c.wbufCount && c.bucketCount >= 1
    && Aligned(c.pageSize, UNIT) && Aligned(c.wbufSize, UNIT)
    && c.pageCount < UINT16_MAX
  }

  /** `n` is a whole number of buffers of size `m`. */
  predicate Aligned(n: nat, m: nat)
    requires m > 0
  {
    n == 0 || (n >= m && Aligned(n - m, m))
  }

  /** An attached write buffer: `data` is its memory, the last `free` bytes not yet used. */
  datatype Wbuf = Wbuf(data: seq<Byte>, offset: nat, free: nat, full: bool)

  datatype Page = Page(version: nat, refcount: nat, reserved: nat, written: nat,
                       bucket: nat, freeBucket: nat, active: bool, closed: bool, free: bool,
                       objCount: nat, bytesUsed: nat, wbuf: Option<Wbuf>)

  /** A completed write: what obj_io holds after extstore_write, and the bytes. */
  datatype Write = Write(page: nat, version: nat, offset: nat, data: seq<Byte>)

  /** How a read ends. `Failed` is a failed assertion of _read_from_wbuf: the
      process stops there, so what a run does after it is not the source's. */
  datatype Result = Miss | Data(bytes: seq<Byte>) | Failed

  /** A read of a completed write: waiting for the disk with a reference held,
      transferred but not yet released, or done. */
  datatype Read = OnDisk(w: Write) | Transferred(w: Write, bytes: seq<Byte>) | Finished(w: Write, result: Result)

  /** The maintenance thread between its locked sections. */
  datatype Maint = Idle | Scanning(i: nat, doEvict: bool, low: Option<(nat, nat)>)

  datatype Store = Store(
    conf: Conf,
    pages: seq<Page>,
    disk: seq<seq<Byte>>,          // one extent of pageSize bytes for each page
    freelist: seq<nat>,            // default free pages
    freeBuckets: seq<seq<nat>>,    // free pages of specialised devices
    buckets: seq<seq<nat>>,        // pages in use, newest first
    pageFree: nat,
    nextVersion: nat,
    wbufs: seq<seq<Byte>>,         // unattached write buffers
    ios: nat,                      // unused io objects
    flushes: map<nat, bool>,       // pages whose buffer is queued, and whether it reached the disk
    log: seq<Write>,
    readOps: seq<Read>,
    maint: Maint)

  // ---- Page allocation ---------------------------------------------------------------

  function SetPage(s: Store, p: nat, pg: Page): Store
    requires p < |s.pages|
  {
    s.(pages := s.pages[p := pg])
  }

  /** The free page _allocate_page takes, and the lists without it. */
  function TakeFree(s: Store, fb: nat): (Option<nat>, Store)
    requires fb < |s.freeBuckets|
  {
    if fb != 0 && s.freeBuckets[fb] != [] then
      (Some(s.freeBuckets[fb][0]), s.(freeBuckets := s.freeBuckets[fb := s.freeBuckets[fb][1..]]))
    else if s.freelist != [] then
      (Some(s.freelist[0]), s.(freelist := s.freelist[1..]))
    else (None, s)
  }

  /** _allocate_page */
  function AllocatePage(s: Store, b: nat, fb: nat): Store
    requires b < |s.buckets| && fb < |s.freeBuckets|
  {
    var (tmp, t) := TakeFree(s, fb);
    if t.pageFree > 0 && tmp.Some? && tmp.value < |t.pages| then
      var p := tmp.value;
      SetPage(t, p, t.pages[p].(active := true, free := false, closed := false, version := t.nextVersion, bucket := b))
      .(buckets := t.buckets[b := [p] + t.buckets[b]], nextVersion := t.nextVersion + 1, pageFree := t.pageFree - 1)
    else t
  }

  /** _free_page */
  function FreePage(s: Store, p: nat): Store
    requires p < |s.pages| && s.pages[p].bucket < |s.buckets| && s.pages[p].freeBucket < |s.freeBuckets|
  {
    var pg := s.pages[p];
    var fb := pg.freeBucket;
    var t := s.(buckets := s.buckets[pg.bucket := Remove(s.buckets[pg.bucket], p)], pageFree := s.pageFree + 1);
    var u := SetPage(t, p, pg.(version := 0, objCount := 0, bytesUsed := 0, reserved := 0, written := 0,
                               bucket := 0, active := false, closed := false, free := true));
    if fb != 0 then u.(freeBuckets := u.freeBuckets[fb := [p] + u.freeBuckets[fb]])
    else u.(freelist := [p] + u.freelist)
  }

  // ---- Writing ---------------------------------------------------------------------------

  /** _submit_wbuf and `full = true`: pop an io, clear the unused end, queue the flush. */
  function Submit(s: Store, p: nat): Store
    requires p < |s.pages| && s.pages[p].wbuf.Some? && s.pages[p].wbuf.value.free <= |s.pages[p].wbuf.value.data|
    requires s.ios > 0
  {
    var w := s.pages[p].wbuf.value;
    var data := w.data[..|w.data| - w.free] + Zeros(w.free);
    SetPage(s, p, s.pages[p].(wbuf := Some(w.(data := data, full := true)))).(ios := s.ios - 1,
      flushes := s.flushes[p := false])
  }

  function Zeros(n: nat): seq<Byte> { seq(n, _ => 0) }

  /** _allocate_wbuf */
  function AttachWbuf(s: Store, p: nat): Store
    requires p < |s.pages|
  {
    if s.wbufs == [] then s
    else
      var pg := s.pages[p];
      var data := s.wbufs[0];
      SetPage(s, p, pg.(reserved := pg.reserved + |data|, wbuf := Some(Wbuf(data, pg.reserved, |data|, false))))
      .(wbufs := s.wbufs[1..])
  }

  /** The caller's copy and extstore_write: the bytes go to the first unused place. */
  function Append(s: Store, p: nat, data: seq<Byte>): Store
    requires p < |s.pages| && s.pages[p].wbuf.Some?
    requires |data| <= s.pages[p].wbuf.value.free <= |s.pages[p].wbuf.value.data|
  {
    var pg := s.pages[p];
    var w := pg.wbuf.value;
    var at := |w.data| - w.free;
    var w' := w.(data := w.data[..at] + data + w.data[at + |data|..], free := w.free - |data|);
    SetPage(s, p, pg.(wbuf := Some(w'), bytesUsed := pg.bytesUsed + |data|, objCount := pg.objCount + 1))
    .(log := s.log + [Write(p, pg.version, w.offset + at, data)])
  }

  predicate PageFull(s: Store, pg: Page) {
    !pg.active || ((pg.wbuf.None? || pg.wbuf.value.full) && pg.reserved >= s.conf.pageSize)
  }

  predicate NeedsSubmit(pg: Page, len: nat) {
    pg.wbuf.Some? && pg.wbuf.value.free < len && !pg.wbuf.value.full
  }

  predicate NeedsWbuf(s: Store, pg: Page) {
    pg.wbuf.None? && pg.reserved < s.conf.pageSize
  }

  predicate Fits(pg: Page, len: nat) {
    pg.wbuf.Some? && !pg.wbuf.value.full && pg.wbuf.value.free >= len
  }

  // ---- Flushing ---------------------------------------------------------------------------

  /** pwrite of a queued buffer. */
  function Pwrite(s: Store, p: nat): Store
    requires p < |s.pages| && p < |s.disk| && s.pages[p].wbuf.Some?
    requires s.pages[p].wbuf.value.offset + |s.pages[p].wbuf.value.data| <= |s.disk[p]|
  {
    var w := s.pages[p].wbuf.value;
    var d := s.disk[p];
    s.(disk := s.disk[p := d[..w.offset] + w.data + d[w.offset + |w.data|..]], flushes := s.flushes[p := true])
  }

  /** _wbuf_cb */
  function FlushDone(s: Store, p: nat): Store
    requires p < |s.pages| && s.pages[p].wbuf.Some?
  {
    var pg := s.pages[p];
    var w := pg.wbuf.value;
    var written := pg.written + |w.data|;
    SetPage(s, p, pg.(written := written, wbuf := None, active := pg.active && written != s.conf.pageSize))
    .(wbufs := [w.data] + s.wbufs, ios := s.ios + 1, flushes := s.flushes - {p})
  }

  // ---- Deleting and closing ------------------------------------------------------------------

  /** extstore_delete */
  function Delete(s: Store, p: nat, version: nat, count: nat, bytes: nat): Store
    requires p < |s.pages|
  {
    var pg := s.pages[p];
    if !pg.closed && pg.version == version then
      SetPage(s, p, pg.(bytesUsed := if pg.bytesUsed >= bytes then pg.bytesUsed - bytes else 0,
                        objCount := if pg.objCount >= count then pg.objCount - count else 0))
    else s
  }

  /** extstore_close_page */
  function ClosePage(s: Store, p: nat, version: nat): Store
    requires p < |s.pages|
  {
    var pg := s.pages[p];
    if !pg.closed && pg.version == version then SetPage(s, p, pg.(closed := true)) else s
  }

  // ---- Reading ---------------------------------------------------------------------------------

  predicate Readable(pg: Page, version: nat) {
    !pg.free && !pg.closed && pg.version == version
  }

  predicate FromWbuf(pg: Page, offset: nat) {
    pg.active && offset >= pg.written
  }

  /** The two assertions of _read_from_wbuf. */
  predicate Buffered(pg: Page, offset: nat) {
    pg.wbuf.Some? && offset < pg.written + |pg.wbuf.value.data|
  }

  /** The locked part of OBJ_IO_READ. */
  function ReadStart(s: Store, w: Write): Store
    requires w.page < |s.pages|
    requires Readable(s.pages[w.page], w.version) && FromWbuf(s.pages[w.page], w.offset) ==>
      Buffered(s.pages[w.page], w.offset) ==> WbufCovers(s.pages[w.page].wbuf.value, w.offset, |w.data|)
  {
    var pg := s.pages[w.page];
    if !Readable(pg, w.version) then s.(readOps := s.readOps + [Finished(w, Miss)])
    else if FromWbuf(pg, w.offset) then
      s.(readOps := s.readOps + [Finished(w, FromBuffer(pg, w))])
    else
      SetPage(s, w.page, pg.(refcount := pg.refcount + 1)).(readOps := s.readOps + [OnDisk(w)])
  }

  predicate WbufCovers(b: Wbuf, offset: nat, len: nat) {
    b.offset <= offset && offset + len <= b.offset + |b.data|
  }

  /** _read_from_wbuf */
  function FromBuffer(pg: Page, w: Write): Result
    requires Buffered(pg, w.offset) ==> WbufCovers(pg.wbuf.value, w.offset, |w.data|)
  {
    if Buffered(pg, w.offset) then Data(WbufBytes(pg.wbuf.value, w.offset, |w.data|)) else Failed
  }

  function WbufBytes(b: Wbuf, offset: nat, len: nat): seq<Byte>
    requires WbufCovers(b, offset, len)
  {
    b.data[offset - b.offset..offset - b.offset + len]
  }

  /** pread */
  function Pread(s: Store, i: nat): Store
    requires i < |s.readOps| && s.readOps[i].OnDisk? && s.readOps[i].w.page < |s.disk|
    requires s.readOps[i].w.offset + |s.readOps[i].w.data| <= |s.disk[s.readOps[i].w.page]|
  {
    var w := s.readOps[i].w;
    s.(readOps := s.readOps[i := Transferred(w, s.disk[w.page][w.offset..w.offset + |w.data|])])
  }

  /** The callback and the reference drop after it. */
  function ReadEnd(s: Store, i: nat): Store
    requires i < |s.readOps| && s.readOps[i].Transferred? && s.readOps[i].w.page < |s.pages|
    requires s.pages[s.readOps[i].w.page].refcount > 0
  {
    var r := s.readOps[i];
    var pg := s.pages[r.w.page];
    SetPage(s, r.w.page, pg.(refcount := pg.refcount - 1)).(readOps := s.readOps[i := Finished(r.w, Data(r.bytes))])
  }

  // ---- Maintenance -------------------------------------------------------------------------------

  function MaintBegin(s: Store): Store {
    s.(maint := Scanning(0, s.pageFree == 0 || s.freelist == [], None))
  }

  predicate Reclaimable(pg: Page) {
    !pg.active && !pg.free && (pg.objCount == 0 || pg.closed) && pg.refcount == 0
  }

  predicate Candidate(pg: Page) {
    !pg.active && !pg.free && pg.objCount > 0 && !pg.closed && pg.freeBucket == 0
  }

  /** One page of the maintenance scan: note the oldest evictable page, free what can be freed. */
  function MaintVisit(s: Store): Store
    requires s.maint.Scanning? && s.maint.i < |s.pages|
    requires s.pages[s.maint.i].bucket < |s.buckets| && s.pages[s.maint.i].freeBucket < |s.freeBuckets|
  {
    var m := s.maint;
    var pg := s.pages[m.i];
    var low := if Candidate(pg) && (m.low.None? || pg.version < m.low.value.1) then Some((m.i, pg.version)) else m.low;
    if Reclaimable(pg) then FreePage(s, m.i).(maint := Scanning(m.i + 1, false, low))
    else s.(maint := Scanning(m.i + 1, m.doEvict, low))
  }

  /** The eviction after the scan. */
  function MaintEvict(s: Store): Store
    requires s.maint.Scanning?
    requires s.maint.low.Some? ==>
      var p := s.maint.low.value.0;
      p < |s.pages| && s.pages[p].bucket < |s.buckets| && s.pages[p].freeBucket < |s.freeBuckets|
  {
    var m := s.maint;
    if m.doEvict && m.low.Some? && !s.pages[m.low.value.0].closed then
      var p := m.low.value.0;
      var t := SetPage(s, p, s.pages[p].(closed := true)).(maint := Idle);
      if t.pages[p].refcount == 0 then FreePage(t, p) else t
    else s.(maint := Idle)
  }

  // ---- The invariant ---------------------------------------------------------------------------------

  /** One page on its own. */
  ghost predicate PageOk(c: Conf, nextVersion: nat, pg: Page)
    requires ValidConf(c)
  {
    && pg.bucket < c.bucketCount && pg.freeBucket < c.bucketCount
    && pg.written <= c.pageSize && Aligned(pg.written, c.wbufSize)
    && (pg.wbuf.None? ==> pg.reserved == pg.written)
    && (pg.wbuf.Some? ==>
          var b := pg.wbuf.value;
          pg.active && b.offset == pg.written && |b.data| == c.wbufSize && b.free <= c.wbufSize &&
          pg.reserved == pg.written + c.wbufSize && pg.reserved <= c.pageSize)
    && (pg.free ==> !pg.active && pg.version == 0 && pg.refcount == 0 && pg.written == 0)
    && (!pg.free ==> 1 <= pg.version < nextVersion)
    && (!pg.free && !pg.active ==> pg.written == c.pageSize)
  }

  ghost predicate PagesOk(s: Store) {
    && ValidConf(s.conf) && |s.pages| == |s.disk| == s.conf.pageCount
    && s.nextVersion >= 1
    && (forall p | 0 <= p < |s.pages| :: PageOk(s.conf, s.nextVersion, s.pages[p]))
    && (forall p | 0 <= p < |s.disk| :: |s.disk[p]| == s.conf.pageSize)
  }

  function Total(ls: seq<seq<nat>>): nat {
    if ls == [] then 0 else |ls[0]| + Total(ls[1..])
  }

  /** Page `p` belongs on the free list of device class `k`. */
  ghost predicate IsFreePage(s: Store, p: nat, k: nat) {
    0 < p < |s.pages| && s.pages[p].free && s.pages[p].freeBucket == k
  }

  /** Page `p` belongs on the list of pages in use by bucket `b`. */
  ghost predicate IsUsedPage(s: Store, p: nat, b: nat) {
    0 < p < |s.pages| && !s.pages[p].free && s.pages[p].bucket == b
  }

  ghost predicate FreeListOk(s: Store, l: seq<nat>, k: nat) {
    Distinct(l) && forall p: nat :: p in l <==> IsFreePage(s, p, k)
  }

  ghost predicate BucketOk(s: Store, l: seq<nat>, b: nat) {
    Distinct(l) && forall p: nat :: p in l <==> IsUsedPage(s, p, b)
  }

  /** Every page but page 0 is on exactly the list its own fields name, and
      `page_free` counts the free ones. */
  ghost predicate ListsOk(s: Store) {
    && |s.freeBuckets| == |s.buckets| == s.conf.bucketCount && s.conf.bucketCount >= 1
    && (|s.pages| > 0 ==> s.pages[0].free)
    && FreeListOk(s, s.freelist, 0) && s.freeBuckets[0] == []
    && (forall k | 0 < k < |s.freeBuckets| :: FreeListOk(s, s.freeBuckets[k], k))
    && (forall b | 0 <= b < |s.buckets| :: BucketOk(s, s.buckets[b], b))
    && s.pageFree == |s.freelist| + Total(s.freeBuckets)
  }

  ghost function Attached(s: Store): set<nat> {
    set p: nat | p < |s.pages| && s.pages[p].wbuf.Some?
  }

  /** Buffers and ios are neither lost nor made up. */
  ghost predicate CountsOk(s: Store) {
    && |s.wbufs| + |Attached(s)| == s.conf.wbufCount
    && s.ios + |s.flushes.Keys| == s.conf.wbufCount
    && (forall i | 0 <= i < |s.wbufs| :: |s.wbufs[i]| == s.conf.wbufSize)
  }

  predicate Queued(s: Store, p: nat) {
    p < |s.pages| && s.pages[p].wbuf.Some? && s.pages[p].wbuf.value.full
  }

  /** The pages in the flush queue are those with a full buffer. */
  ghost predicate BuffersOk(s: Store) {
    CountsOk(s) && forall p: nat :: p in s.flushes <==> Queued(s, p)
  }

  /** A buffer that reached the disk is on the disk. */
  ghost predicate FlushOk(s: Store)
    requires PagesOk(s) && BuffersOk(s)
  {
    forall p | p in s.flushes && s.flushes[p] ::
      var b := s.pages[p].wbuf.value;
      s.disk[p][b.offset..b.offset + |b.data|] == b.data
  }

  function End(w: Write): nat { w.offset + |w.data| }

  /** The bytes of a write are where a read will look for them. */
  ghost predicate InPlace(pg: Page, d: seq<Byte>, w: Write) {
    || (End(w) <= pg.written && End(w) <= |d| && d[w.offset..End(w)] == w.data)
    || (pg.wbuf.Some? &&
        var b := pg.wbuf.value;
        && b.offset <= w.offset && b.free <= |b.data| && End(w) <= b.offset + (|b.data| - b.free)
        && b.data[w.offset - b.offset..End(w) - b.offset] == w.data)
  }

  ghost predicate EntryOk(s: Store, w: Write) {
    && w.page < |s.pages| && w.page < |s.disk| && 1 <= w.version < s.nextVersion
    && (s.pages[w.page].version == w.version ==> InPlace(s.pages[w.page], s.disk[w.page], w))
  }

  ghost predicate LogOk(s: Store) {
    forall i | 0 <= i < |s.log| :: EntryOk(s, s.log[i])
  }

  /** Objects of one page version do not overlap. */
  ghost predicate Disjoint(s: Store) {
    forall i, j | 0 <= i < j < |s.log| && s.log[i].page == s.log[j].page && s.log[i].version == s.log[j].version ::
      End(s.log[i]) <= s.log[j].offset
  }

  predicate Pins(r: Read, p: nat) { !r.Finished? && r.w.page == p }

  function Pinned(rs: seq<Read>, p: nat): nat {
    if rs == [] then 0 else (if Pins(rs[|rs| - 1], p) then 1 else 0) + Pinned(rs[..|rs| - 1], p)
  }

  /** A pending read holds its page at the version it was checked against, over
      flushed bytes; what it transferred is what was written. */
  ghost predicate ReadOk(s: Store, r: Read) {
    && r.w in s.log
    && (!r.Finished? ==> r.w.page < |s.pages| && s.pages[r.w.page].version == r.w.version)
    && (!r.Finished? ==> End(r.w) <= s.pages[r.w.page].written)
    && (r.Transferred? ==> r.bytes == r.w.data)
    && (r.Finished? ==> r.result == Miss || r.result == Data(r.w.data) || (r.result == Failed && r.w.data == []))
  }

  ghost predicate ReadsOk(s: Store) {
    && (forall i | 0 <= i < |s.readOps| :: ReadOk(s, s.readOps[i]))
    && (forall p | 0 <= p < |s.pages| :: s.pages[p].refcount == Pinned(s.readOps, p))
  }

  ghost predicate MaintOk(s: Store) {
    s.maint.Scanning? ==>
      && s.maint.i <= |s.pages|
      && (s.maint.low.Some? ==>
            var p := s.maint.low.value.0;
            p < s.maint.i && !s.pages[p].active && !s.pages[p].free)
  }

  ghost predicate Inv(s: Store) {
    && PagesOk(s) && ListsOk(s) && BuffersOk(s) && FlushOk(s)
    && LogOk(s) && Disjoint(s) && ReadsOk(s) && MaintOk(s)
  }
}

/** The engine as the threads see it: a shared object whose locked sections
    update pages, lists and stacks in place. Each method is proved to do to the
    engine exactly what the specification step does to its value.
 */
module ExtStoreEngine {
  import opened ByteStrings
  import opened ExtStoreSpec
  import opened Options
  import opened Sequences
  import opened ExtStoreInv
  import opened ExtStoreRuns

  class Engine {
    const conf: Conf
    const pages: array<Page>
    var disk: seq<seq<Byte>>
    var freelist: seq<nat>
    var freeBuckets: seq<seq<nat>>
    var buckets: seq<seq<nat>>
    var pageFree: nat
    var version: nat
    var wbufs: seq<seq<Byte>>
    var ios: nat
    var flushes: map<nat, bool>
    var maint: Maint
    ghost var log: seq<Write>
    ghost var readOps: seq<Read>

    ghost function Snapshot(): Store
      reads this, pages
    {
      Store(conf, pages[..], disk, freelist, freeBuckets, buckets, pageFree, version, wbufs, ios, flushes, log,
        readOps, maint)
    }

    /** extstore_init: pages go onto their free lists from the last one down to page 1. */
    constructor (conf: Conf, fbs: seq<nat>, disk: seq<seq<Byte>>, wbufs: seq<seq<Byte>>)
      requires ValidInit(conf, fbs, disk, wbufs)
      ensures fresh(pages) && Snapshot() == InitStore(conf, fbs, disk, wbufs) && Inv(Snapshot())
    {
      this.conf, this.disk, this.wbufs := conf, disk, wbufs;
      pages := new Page[|fbs|](i requires 0 <= i < |fbs| => FreshPage(fbs[i]));
      buckets := NoLists(conf.bucketCount);
      version, ios, flushes, maint, log, readOps := 1, conf.wbufCount, map[], Idle, [], [];
      var l, ls, free := LinkFreePages(fbs, conf.bucketCount);
      freelist, freeBuckets, pageFree := l, ls, free;
      new;
      assert pages[..] == InitStore(conf, fbs, disk, wbufs).pages;
      hide Inv;
      InitInv(conf, fbs, disk, wbufs);
    }

    /** The list-building loop of extstore_init. */
    static method LinkFreePages(fbs: seq<nat>, bucketCount: nat) returns (l: seq<nat>, ls: seq<seq<nat>>, free: nat)
      requires forall p | 0 <= p < |fbs| :: fbs[p] < bucketCount
      ensures (l, ls) == InitLists(fbs, bucketCount, 1)
      ensures free == if |fbs| == 0 then 0 else |fbs| - 1
    {
      l, ls, free := [], NoLists(bucketCount), 0;
      if |fbs| == 0 { return; }
      var i := |fbs|;
      while i > 1
        invariant 1 <= i <= |fbs| && (l, ls) == InitLists(fbs, bucketCount, i)
        invariant free == |fbs| - i
      {
        i := i - 1;
        free := free + 1;
        if fbs[i] == 0 {
          l := [i] + l;
        } else {
          ls := ls[fbs[i] := [i] + ls[fbs[i]]];
        }
      }
    }

    /** The free page _allocate_page takes: from the requested class first, then the default list. */
    method TakeFreePage(freeBucket: nat) returns (page: Option<nat>)
      requires freeBucket < |freeBuckets|
      modifies this
      ensures (page, Snapshot()) == TakeFree(old(Snapshot()), freeBucket)
    {
      page := None;
      if freeBucket != 0 && freeBuckets[freeBucket] != [] {
        page := Some(freeBuckets[freeBucket][0]);
        freeBuckets := freeBuckets[freeBucket := freeBuckets[freeBucket][1..]];
      }
      if page.None? && freelist != [] {
        page := Some(freelist[0]);
        freelist := freelist[1..];
      }
    }

    /** _allocate_page */
    method AllocatePageIn(bucket: nat, freeBucket: nat) returns (page: Option<nat>)
      requires Inv(Snapshot()) && bucket < |buckets| && freeBucket < |freeBuckets|
      modifies this, pages
      ensures Snapshot() == AllocatePage(old(Snapshot()), bucket, freeBucket) && Inv(Snapshot())
      ensures page == TakeFree(old(Snapshot()), freeBucket).0
    {
      hide Inv;
      AllocateInv(Snapshot(), bucket, freeBucket);
      TakenInRange(Snapshot(), freeBucket);
      page := TakeFreePage(freeBucket);
      if pageFree > 0 && page.Some? {
        var p := page.value;
        buckets := buckets[bucket := [p] + buckets[bucket]];
        pages[p] := pages[p].(active := true, free := false, closed := false, version := version, bucket := bucket);
        version := version + 1;
        pageFree := pageFree - 1;
      }
    }

    /** The walk that unlinks a page from its bucket list. */
    static method Unlink(list: seq<nat>, p: nat) returns (rest: seq<nat>)
      ensures rest == Remove(list, p)
    {
      var i := 0;
      while i < |list|
        invariant 0 <= i <= |list|
        invariant Remove(list, p) == list[..i] + Remove(list[i..], p)
      {
        RemoveSplit(list, p, i);
        if list[i] == p { return list[..i] + list[i + 1..]; }
        i := i + 1;
      }
      assert list[..i] + [] == list;
      return list;
    }

    /** _free_page: walk the bucket list to unlink the page, then push it on its free list. */
    method FreePageAt(p: nat)
      requires Inv(Snapshot()) && p < pages.Length
      requires !pages[p].active && !pages[p].free && pages[p].refcount == 0
      requires maint.Scanning? && maint.low.Some? ==> maint.low.value.0 != p
      modifies this, pages
      ensures pages[p].free && Inv(Snapshot())
      ensures old(pages[p].bucket) < |old(buckets)| && old(pages[p].freeBucket) < |old(freeBuckets)|
      ensures Snapshot() == FreePage(old(Snapshot()), p)
    {
      hide Inv;
      FreeInv(Snapshot(), p);
      var pg := pages[p];
      var rest := Unlink(buckets[pg.bucket], p);
      buckets := buckets[pg.bucket := rest];
      pages[p] := pg.(version := 0, objCount := 0, bytesUsed := 0, reserved := 0, written := 0,
                      bucket := 0, active := false, closed := false, free := true);
      if pg.freeBucket != 0 {
        freeBuckets := freeBuckets[pg.freeBucket := [p] + freeBuckets[pg.freeBucket]];
      } else {
        freelist := [p] + freelist;
      }
      pageFree := pageFree + 1;
    }

    /** _submit_wbuf: the io stack is never empty here. */
    method SubmitWbuf(p: nat, ghost len: nat)
      requires Inv(Snapshot()) && p < pages.Length && NeedsSubmit(pages[p], len)
      modifies this, pages
      ensures old(ios) > 0 && Inv(Snapshot())
      ensures old(pages[p].wbuf.value.free) <= |old(pages[p].wbuf.value.data)|
      ensures Snapshot() == Submit(old(Snapshot()), p)
    {
      hide Inv;
      SubmitInv(Snapshot(), p, len);
      ios := ios - 1;
      var w := pages[p].wbuf.value;
      var data := w.data[..|w.data| - w.free] + Zeros(w.free);
      pages[p] := pages[p].(wbuf := Some(w.(data := data, full := true)));
      flushes := flushes[p := false];
    }

    /** _allocate_wbuf */
    method AllocateWbuf(p: nat)
      requires Inv(Snapshot()) && p < pages.Length && pages[p].active && NeedsWbuf(Snapshot(), pages[p])
      modifies this, pages
      ensures Snapshot() == AttachWbuf(old(Snapshot()), p) && Inv(Snapshot())
    {
      hide Inv;
      AttachInv(Snapshot(), p);
      if wbufs != [] {
        var data := wbufs[0];
        wbufs := wbufs[1..];
        var pg := pages[p];
        pages[p] := pg.(reserved := pg.reserved + |data|, wbuf := Some(Wbuf(data, pg.reserved, |data|, false)));
      }
    }

    /** The locked section of extstore_write_request, and, when it succeeds, the
        copy and extstore_write: the address of the object, if it was stored. */
    method WriteObject(p: nat, data: seq<Byte>) returns (address: Option<(nat, nat)>)
      requires Inv(Snapshot()) && p < pages.Length
      modifies this, pages
      ensures Inv(Snapshot()) && Snapshot() == WriteStep(old(Snapshot()), p, data)
      ensures log == old(log) + (if address.Some? then [Write(p, address.value.0, address.value.1, data)] else [])
    {
      hide Inv;
      if !pages[p].active || ((pages[p].wbuf.None? || pages[p].wbuf.value.full) && pages[p].reserved >= conf.pageSize) {
        return None;
      }
      if pages[p].wbuf.Some? && pages[p].wbuf.value.free < |data| && !pages[p].wbuf.value.full {
        SubmitWbuf(p, |data|);
      }
      if pages[p].wbuf.None? && pages[p].reserved < conf.pageSize {
        AllocateWbuf(p);
      }
      if pages[p].wbuf.Some? && !pages[p].wbuf.value.full && pages[p].wbuf.value.free >= |data| {
        AppendInv(Snapshot(), p, data);
        var stored := AppendObject(p, data);
        return Some(stored);
      }
      return None;
    }

    /** The copy into the buffer and extstore_write. */
    method AppendObject(p: nat, data: seq<Byte>) returns (address: (nat, nat))
      requires p < pages.Length && pages[p].wbuf.Some?
      requires |data| <= pages[p].wbuf.value.free <= |pages[p].wbuf.value.data|
      modifies `log, pages
      ensures Snapshot() == Append(old(Snapshot()), p, data)
      ensures log == old(log) + [Write(p, address.0, address.1, data)]
    {
      var pg := pages[p];
      var w := pg.wbuf.value;
      var at := |w.data| - w.free;
      address := (pg.version, w.offset + at);
      var w' := w.(data := w.data[..at] + data + w.data[at + |data|..], free := w.free - |data|);
      pages[p] := pg.(wbuf := Some(w'), bytesUsed := pg.bytesUsed + |data|, objCount := pg.objCount + 1);
      log := log + [Write(p, pg.version, w.offset + at, data)];
    }

    /** _wbuf_cb: the two assertions of the source hold. */
    method WbufCallback(p: nat)
      requires Inv(Snapshot()) && p in flushes && flushes[p]
      modifies this, pages
      ensures p < pages.Length && old(pages[p].wbuf).Some? && old(pages[p].wbuf.value.offset) == old(pages[p].written)
      ensures Inv(Snapshot()) && Snapshot() == FlushDone(old(Snapshot()), p)
    {
      hide Inv;
      FlushDoneInv(Snapshot(), p);
      var pg := pages[p];
      var w := pg.wbuf.value;
      var written := pg.written + |w.data|;
      pages[p] := pg.(written := written, wbuf := None);
      if written == conf.pageSize {
        pages[p] := pages[p].(active := false);
      }
      wbufs := [w.data] + wbufs;
      ios := ios + 1;
      flushes := flushes - {p};
      assert pages[..] == old(pages[..])[p := pages[p]];
    }

    /** The locked part of a read of a completed write: a miss, bytes from the
        attached buffer, or a reference for the disk transfer. */
    method ReadLocked(w: Write) returns (result: Option<Result>)
      requires Inv(Snapshot()) && w in log
      modifies this, pages
      ensures Inv(Snapshot()) && w.page < pages.Length
      ensures Readable(old(pages[..])[w.page], w.version) && FromWbuf(old(pages[..])[w.page], w.offset) ==>
        Buffered(old(pages[..])[w.page], w.offset) ==>
          WbufCovers(old(pages[..])[w.page].wbuf.value, w.offset, |w.data|)
      ensures Snapshot() == ReadStart(old(Snapshot()), w)
      ensures result == None || result == Some(Miss) || result == Some(Data(w.data)) || result == Some(Failed)
      ensures result == Some(Failed) ==> w.data == [] && w.offset == old(pages[..])[w.page].reserved
    {
      hide Inv;
      ReadStartInv(Snapshot(), w);
      var pg := pages[w.page];
      if !pg.free && !pg.closed && pg.version == w.version {
        if pg.active && w.offset >= pg.written {
          if pg.wbuf.None? || w.offset >= pg.written + |pg.wbuf.value.data| {
            readOps := readOps + [Finished(w, Failed)];
            return Some(Failed);
          }
          var bytes := WbufBytes(pg.wbuf.value, w.offset, |w.data|);
          readOps := readOps + [Finished(w, Data(bytes))];
          return Some(Data(bytes));
        } else {
          pages[w.page] := pg.(refcount := pg.refcount + 1);
          readOps := readOps + [OnDisk(w)];
          return None;
        }
      }
      readOps := readOps + [Finished(w, Miss)];
      return Some(Miss);
    }
  
    /** One page of the maintenance scan. */
    method VisitPage()
      requires Inv(Snapshot()) && maint.Scanning? && maint.i < pages.Length
      modifies this, pages
      ensures Inv(Snapshot())
      ensures old(pages[maint.i].bucket) < |old(buckets)| && old(pages[maint.i].freeBucket) < |old(freeBuckets)|
      ensures Snapshot() == MaintVisit(old(Snapshot()))
    {
      hide Inv;
      MaintVisitInv(Snapshot());
      ScanFacts(Snapshot());
      var m, pg := maint, pages[maint.i];
      var low, doEvict := m.low, m.doEvict;
      if pg.active || pg.free {
        ScanInv(Snapshot(), Scanning(m.i + 1, doEvict, low));
        maint := Scanning(m.i + 1, doEvict, low);
        return;
      }
      if pg.objCount > 0 && !pg.closed {
        if pg.freeBucket == 0 && (low.None? || pg.version < low.value.1) {
          low := Some((m.i, pg.version));
        }
      }
      var reclaim := (pg.objCount == 0 || pg.closed) && pg.refcount == 0;
      if reclaim { doEvict := false; }
      ScanInv(Snapshot(), Scanning(m.i + 1, doEvict, low));
      maint := Scanning(m.i + 1, doEvict, low);
      if reclaim {
        FreePageAt(m.i);
      }
    }
  }

  lemma RemoveSplit(list: seq<nat>, p: nat, i: nat)
    requires i < |list|
    ensures list[..i] + Remove(list[i..], p) ==
      if list[i] == p then list[..i] + list[i + 1..] else list[..i + 1] + Remove(list[i + 1..], p)
  {
    assert list[i..][1..] == list[i + 1..];
    assert list[..i] + ([list[i]] + Remove(list[i + 1..], p)) == list[..i + 1] + Remove(list[i + 1..], p);
  }

  /** What the scan has noted so far. */
  lemma ScanFacts(s: Store)
    requires Inv(s) && s.maint.Scanning?
    ensures s.maint.low.Some? ==>
      var p := s.maint.low.value.0;
      p < s.maint.i <= |s.pages| && !s.pages[p].active && !s.pages[p].free
  {
    hide PagesOk, ListsOk, BuffersOk, FlushOk, LogOk, Disjoint, ReadsOk;
  }

  lemma TakenInRange(s: Store, fb: nat)
    requires Inv(s) && fb < |s.freeBuckets|
    ensures TakeFree(s, fb).0.Some? ==> TakeFree(s, fb).0.value < |s.pages| && s.pageFree > 0
  {
    hide PagesOk, ListsOk, BuffersOk, FlushOk, LogOk, Disjoint, ReadsOk, MaintOk;
    TakenPage(s, fb);
  }
}

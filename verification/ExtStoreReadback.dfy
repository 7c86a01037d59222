/** What the disk holds besides objects: a page can be read back without knowing where its
    objects are, because every byte below the written mark belongs to one or is zero.
 */
module ExtStoreReadback {
  import opened ByteStrings
  import opened ExtStoreCounts
  import opened ExtStoreInv
  import opened ExtStoreOutcomes
  import opened ExtStoreRuns
  import opened ExtStoreSpec
  import opened Options

  /** Some recorded write on the version of the page has a byte there. */
  ghost predicate Covered(log: seq<Write>, p: nat, v: nat, x: nat) {
    exists k: nat :: k < |log| && log[k].page == p && log[k].version == v && log[k].offset <= x < End(log[k])
  }

  /** The bytes below the written mark are those of recorded writes or zero. */
  ghost predicate OnDiskOk(s: Store, p: nat) {
    && p < |s.pages| == |s.disk| && s.pages[p].written <= |s.disk[p]|
    && forall x | 0 <= x < s.pages[p].written ::
         Covered(s.log, p, s.pages[p].version, x) || s.disk[p][x] == 0
  }

  /** The used part of a buffer is full of recorded writes, and the rest of a queued one is clear. */
  ghost predicate InBufferOk(s: Store, p: nat) {
    p < |s.pages| &&
    (s.pages[p].wbuf.Some? ==>
       var b := s.pages[p].wbuf.value;
       && b.free <= |b.data|
       && (forall x | b.offset <= x < b.offset + |b.data| - b.free :: Covered(s.log, p, s.pages[p].version, x))
       && (b.full ==> forall x | |b.data| - b.free <= x < |b.data| :: b.data[x] == 0))
  }

  ghost predicate Packed(s: Store, p: nat) {
    OnDiskOk(s, p) && InBufferOk(s, p)
  }

  lemma CoveredStays(log: seq<Write>, more: seq<Write>, p: nat, v: nat, x: nat)
    requires log <= more && Covered(log, p, v, x)
    ensures Covered(more, p, v, x)
  {
    var k: nat :| k < |log| && log[k].page == p && log[k].version == v && log[k].offset <= x < End(log[k]);
    assert more[k] == log[k];
  }

  /** A step that changes neither the page's marks and buffer nor its disk. */
  lemma PackedSame(s: Store, t: Store, p: nat)
    requires Packed(s, p) && s.log <= t.log && p < |t.pages| == |t.disk| && t.disk[p] == s.disk[p]
    requires var pg, qg := s.pages[p], t.pages[p];
      qg.written == pg.written && qg.wbuf == pg.wbuf && qg.version == pg.version
    ensures Packed(t, p)
  {
    hide Covered;
    forall x: nat, v: nat | Covered(s.log, p, v, x) ensures Covered(t.log, p, v, x) {
      CoveredStays(s.log, t.log, p, v, x);
    }
  }

  /** A page without bytes. */
  lemma PackedEmpty(s: Store, p: nat)
    requires p < |s.pages| == |s.disk| && s.pages[p].written == 0 && s.pages[p].wbuf.None?
    ensures Packed(s, p)
  {}

  lemma SubmitPacked(s: Store, p: nat, q: nat)
    requires p < |s.pages| && s.pages[p].wbuf.Some? && s.pages[p].wbuf.value.free <= |s.pages[p].wbuf.value.data|
    requires s.ios > 0 && Packed(s, q)
    ensures Packed(Submit(s, p), q)
  {
    hide Covered;
    if p != q { PackedSame(s, Submit(s, p), q); }
  }

  lemma AttachPacked(s: Store, p: nat, q: nat)
    requires p < |s.pages| && s.pages[p].wbuf.None? && Packed(s, q)
    ensures Packed(AttachWbuf(s, p), q)
  {
    hide Covered;
    if p != q { PackedSame(s, AttachWbuf(s, p), q); }
  }

  lemma AppendPacked(s: Store, p: nat, data: seq<Byte>, q: nat)
    requires p < |s.pages| && s.pages[p].wbuf.Some? && !s.pages[p].wbuf.value.full && Packed(s, q)
    requires |data| <= s.pages[p].wbuf.value.free <= |s.pages[p].wbuf.value.data|
    ensures Packed(Append(s, p, data), q)
  {
    hide Covered;
    var t := Append(s, p, data);
    if p != q {
      PackedSame(s, t, q);
    } else {
      var v, b := s.pages[p].version, s.pages[p].wbuf.value;
      forall x: nat | Covered(s.log, p, v, x) ensures Covered(t.log, p, v, x) { CoveredStays(s.log, t.log, p, v, x); }
      var at := b.offset + |b.data| - b.free;
      forall x: nat | at <= x < at + |data| ensures Covered(t.log, p, v, x) { NewCovered(s, p, data, x); }
    }
  }

  lemma NewCovered(s: Store, p: nat, data: seq<Byte>, x: nat)
    requires p < |s.pages| && s.pages[p].wbuf.Some?
    requires |data| <= s.pages[p].wbuf.value.free <= |s.pages[p].wbuf.value.data|
    requires var b := s.pages[p].wbuf.value;
      b.offset + |b.data| - b.free <= x < b.offset + |b.data| - b.free + |data|
    ensures Covered(Append(s, p, data).log, p, s.pages[p].version, x)
  {
    var log := Append(s, p, data).log;
    assert log[|s.log|].page == p;
  }

  lemma WritePacked(s: Store, p: nat, data: seq<Byte>, q: nat)
    requires Inv(s) && p < |s.pages| && Packed(s, q)
    ensures Packed(WriteStep(s, p, data), q)
  {
    hide Inv, Packed, Covered;
    BufferFacts(s, p);
    if !PageFull(s, s.pages[p]) {
      var s1, s2 := s, s;
      if NeedsSubmit(s.pages[p], |data|) {
        SubmitPacked(s, p, q);
        SubmitInv(s, p, |data|);
        s1 := Submit(s, p);
      }
      s2 := s1;
      if NeedsWbuf(s1, s1.pages[p]) {
        AttachPacked(s1, p, q);
        AttachInv(s1, p);
        s2 := AttachWbuf(s1, p);
      }
      if Fits(s2.pages[p], |data|) {
        BufferFacts(s2, p);
        AppendPacked(s2, p, data, q);
      }
    }
  }

  lemma PwritePacked(s: Store, p: nat, q: nat)
    requires p < |s.pages| == |s.disk| && s.pages[p].wbuf.Some? && s.pages[p].wbuf.value.offset == s.pages[p].written
    requires s.pages[p].wbuf.value.offset + |s.pages[p].wbuf.value.data| <= |s.disk[p]| && Packed(s, q)
    ensures Packed(Pwrite(s, p), q)
  {
    hide Covered;
    if p != q { PackedSame(s, Pwrite(s, p), q); }
  }

  lemma FlushPacked(s: Store, p: nat, q: nat)
    requires Packed(s, q) && p < |s.pages| && s.pages[p].wbuf.Some? && s.pages[p].wbuf.value.full
    requires var b := s.pages[p].wbuf.value;
      && p < |s.disk| && b.offset == s.pages[p].written && b.offset + |b.data| <= |s.disk[p]|
      && s.disk[p][b.offset..b.offset + |b.data|] == b.data
    ensures Packed(FlushDone(s, p), q)
  {
    hide Covered;
    if p != q {
      PackedSame(s, FlushDone(s, p), q);
    } else {
      var b := s.pages[p].wbuf.value;
      forall x | b.offset <= x < b.offset + |b.data|
        ensures Covered(s.log, p, s.pages[p].version, x) || s.disk[p][x] == 0
      {
        assert s.disk[p][x] == b.data[x - b.offset];
      }
    }
  }

  lemma AnyPacked(s: Store, e: Event, p: nat)
    requires Inv(s) && Enabled(s, e) && Packed(s, p)
    ensures Packed(Next(s, e), p)
  {
    hide Inv, Packed, WriteStep, Covered;
    match e
    case WriteTo(q, data) => WritePacked(s, q, data, p);
    case FlushTransfer(q) =>
      FlushFacts(s, q);
      PwriteInv(s, q);
      PwritePacked(s, q, p);
    case FlushCallback(q) =>
      FlushFacts(s, q);
      FlushDoneInv(s, q);
      FlushPacked(s, q, p);
    case AllocateIn(b, fb) => AllocatePacked(s, b, fb, p);
    case BeginRead(w) => ReadPacked(s, e, p);
    case TransferRead(i) => ReadPacked(s, e, p);
    case EndRead(i) => ReadPacked(s, e, p);
    case VisitPage => MaintPacked(s, e, p);
    case EndScan => MaintPacked(s, e, p);
    case _ => TouchPacked(s, e, p);
  }

  lemma FlushFacts(s: Store, p: nat)
    requires Inv(s) && p in s.flushes
    ensures p < |s.pages| == |s.disk| && s.pages[p].wbuf.Some? && s.pages[p].wbuf.value.full
    ensures var b := s.pages[p].wbuf.value;
      && b.offset == s.pages[p].written && b.offset + |b.data| <= |s.disk[p]|
      && (s.flushes[p] ==> s.disk[p][b.offset..b.offset + |b.data|] == b.data)
  {
    hide ListsOk, CountsOk, LogOk, Disjoint, ReadsOk, MaintOk;
    assert Queued(s, p);
    assert PageOk(s.conf, s.nextVersion, s.pages[p]);
  }

  lemma TouchPacked(s: Store, e: Event, p: nat)
    requires Inv(s) && Enabled(s, e) && Packed(s, p) && (e.DeleteFrom? || e.CloseOf? || e.BeginScan?)
    ensures Packed(Next(s, e), p)
  {
    hide Inv, Covered;
    PackedSame(s, Next(s, e), p);
  }

  lemma ReadPacked(s: Store, e: Event, p: nat)
    requires Inv(s) && Enabled(s, e) && Packed(s, p) && (e.BeginRead? || e.TransferRead? || e.EndRead?)
    ensures Packed(Next(s, e), p)
  {
    hide Inv, Covered;
    match e {
      case BeginRead(w) => ReadStartInv(s, w);
      case TransferRead(i) => PreadInv(s, i);
      case EndRead(i) => ReadEndInv(s, i);
    }
    PackedSame(s, Next(s, e), p);
  }

  /** A page that is free has no bytes. */
  lemma FreeIsEmpty(s: Store, p: nat)
    requires Inv(s) && p < |s.pages| && s.pages[p].free
    ensures |s.pages| == |s.disk| && s.pages[p].written == 0 && s.pages[p].wbuf.None?
  {
    hide ListsOk, BuffersOk, FlushOk, LogOk, Disjoint, ReadsOk, MaintOk;
    assert PageOk(s.conf, s.nextVersion, s.pages[p]);
  }

  lemma AllocatePacked(s: Store, b: nat, fb: nat, p: nat)
    requires Inv(s) && b < |s.buckets| && fb < |s.freeBuckets| && Packed(s, p)
    ensures Packed(AllocatePage(s, b, fb), p)
  {
    hide Inv, Covered;
    var t := AllocatePage(s, b, fb);
    AllocateCounts(s, b, fb, p);
    if s.pages[p].free {
      FreeIsEmpty(s, p);
      PackedEmpty(t, p);
    } else {
      PackedSame(s, t, p);
    }
  }

  lemma MaintPacked(s: Store, e: Event, p: nat)
    requires Inv(s) && Enabled(s, e) && Packed(s, p) && (e.VisitPage? || e.EndScan?)
    ensures Packed(Next(s, e), p)
  {
    hide Inv, Covered, PageStep;
    var t := Next(s, e);
    AnyPageStep(s, e, p);
    match e {
      case VisitPage => MaintVisitInv(s);
      case EndScan => MaintEvictInv(s);
    }
    if t.pages[p].free { FreeIsEmpty(t, p); PackedEmpty(t, p); } else { PackedSame(s, t, p); }
  }

  /** In every run: each byte of a page below the written mark is a byte of an object
      recorded on the page's present version, or zero. */
  lemma {:induction false} BlindReadback(stores: seq<Store>, events: seq<Event>, i: nat, p: nat)
    requires Run(stores, events) && i < |stores| && p < |stores[0].pages|
    ensures Packed(stores[i], p)
  {
    hide Inv, Next, Enabled, Packed;
    if i == 0 {
      StartPacked(stores, events, p);
    } else {
      BlindReadback(stores, events, i - 1, p);
      RunStep(stores, events, i - 1);
      AnyPacked(stores[i - 1], events[i - 1], p);
    }
  }

  lemma StartPacked(stores: seq<Store>, events: seq<Event>, p: nat)
    requires Run(stores, events) && p < |stores[0].pages|
    ensures Packed(stores[0], p)
  {
    hide Inv, Next, Enabled;
  }
}

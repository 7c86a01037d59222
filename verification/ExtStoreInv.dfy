/** Every step of the engine keeps the invariant. */
module ExtStoreInv {
  import opened ByteStrings
  import opened Arithmetic
  import opened ExtStoreSpec
  import opened Options
  import opened Sequences

  // ---- Counting ------------------------------------------------------------------------

  lemma {:induction false} PinnedFalls(rs: seq<Read>, i: nat, r: Read, p: nat)
    requires i < |rs|
    ensures Pinned(rs[i := r], p) == Pinned(rs, p) - (if Pins(rs[i], p) then 1 else 0) + (if Pins(r, p) then 1 else 0)
  {
    var n := |rs| - 1;
    if i == n {
      assert rs[i := r][..n] == rs[..n];
    } else {
      assert rs[i := r][..n] == rs[..n][i := r];
      PinnedFalls(rs[..n], i, r, p);
    }
  }

  lemma PinnedAppend(rs: seq<Read>, r: Read, p: nat)
    ensures Pinned(rs + [r], p) == Pinned(rs, p) + (if Pins(r, p) then 1 else 0)
  {
    assert (rs + [r])[..|rs|] == rs;
  }

  lemma {:induction false} NoPins(rs: seq<Read>, i: nat, p: nat)
    requires i < |rs| && Pinned(rs, p) == 0
    ensures !Pins(rs[i], p)
  {
    if i < |rs| - 1 { NoPins(rs[..|rs| - 1], i, p); }
  }

  /** `page_size % wbuf_size == 0`, as extstore_init checks it. */
  lemma {:induction false} AlignedIsDivisible(n: nat, m: nat)
    requires m > 0
    ensures Aligned(n, m) <==> n % m == 0
  {
    if n >= m {
      AlignedIsDivisible(n - m, m);
      RemainderOfRest(n, m);
    }
  }

  lemma RemainderOfRest(n: nat, m: nat)
    requires 0 < m <= n
    ensures n % m == (n - m) % m
  {
    var q, r := (n - m) / m, (n - m) % m;
    assert n == m * q + m + r == m * (q + 1) + r;
    var x := q + 1 - n / m;
    assert m * x == m * (q + 1) - m * (n / m);
    MultipleAwayFromZero(m, x);
  }

  /** There is room for a whole buffer below the end of the page, or none at all. */
  lemma {:induction false} AlignedGap(a: nat, b: nat, m: nat)
    requires m > 0 && Aligned(a, m) && Aligned(b, m) && a < b
    ensures a + m <= b && Aligned(a + m, m)
    decreases a
  {
    if a > 0 { AlignedGap(a - m, b - m, m); }
  }

  /** Only page `p` differs. */
  ghost predicate OnePage(s: Store, t: Store, p: nat) {
    |t.pages| == |s.pages| && p < |s.pages| && t.pages == s.pages[p := t.pages[p]]
  }

  lemma SamePrefix(a: seq<Byte>, b: seq<Byte>, n: nat, i: nat, j: nat)
    requires n <= |a| && n <= |b| && a[..n] == b[..n] && i <= j <= n
    ensures a[i..j] == b[i..j]
  {
    forall k | 0 <= k < j - i ensures a[i..j][k] == b[i..j][k] {
      assert a[..n][i + k] == b[..n][i + k];
    }
  }

  lemma SliceOfSlice(a: seq<Byte>, lo: nat, hi: nat, i: nat, j: nat)
    requires lo <= i <= j <= hi <= |a|
    ensures a[lo..hi][i - lo..j - lo] == a[i..j]
  {
    var c := a[lo..hi];
    forall k | 0 <= k < j - i ensures c[i - lo..j - lo][k] == a[i..j][k] {
      assert c[i - lo + k] == a[i + k];
    }
  }

  // ---- What each part of the invariant depends on ------------------------------------------

  lemma ListsFrame(s: Store, t: Store)
    requires ListsOk(s) && t.conf == s.conf && |t.pages| == |s.pages|
    requires t.freelist == s.freelist && t.freeBuckets == s.freeBuckets && t.buckets == s.buckets
    requires t.pageFree == s.pageFree
    requires forall p | 0 <= p < |s.pages| ::
      t.pages[p].free == s.pages[p].free && t.pages[p].bucket == s.pages[p].bucket &&
        t.pages[p].freeBucket == s.pages[p].freeBucket
    ensures ListsOk(t)
  {
    forall p: nat, k: nat
      ensures IsFreePage(t, p, k) == IsFreePage(s, p, k) && IsUsedPage(t, p, k) == IsUsedPage(s, p, k) {}
  }

  lemma BuffersFrame(s: Store, t: Store)
    requires BuffersOk(s) && t.conf == s.conf && |t.pages| == |s.pages|
    requires t.wbufs == s.wbufs && t.ios == s.ios && t.flushes.Keys == s.flushes.Keys
    requires forall p | 0 <= p < |s.pages| :: t.pages[p].wbuf.Some? == s.pages[p].wbuf.Some?
    requires forall p | 0 <= p < |s.pages| && s.pages[p].wbuf.Some? ::
      t.pages[p].wbuf.value.full == s.pages[p].wbuf.value.full
    ensures BuffersOk(t)
  {
    assert Attached(t) == Attached(s);
    forall p: nat ensures Queued(t, p) == Queued(s, p) {}
  }

  lemma FlushFrame(s: Store, t: Store)
    requires PagesOk(s) && BuffersOk(s) && FlushOk(s) && PagesOk(t) && BuffersOk(t)
    requires t.flushes == s.flushes && t.disk == s.disk && |t.pages| == |s.pages|
    requires forall p | p in s.flushes :: p < |s.pages| && t.pages[p].wbuf == s.pages[p].wbuf
    ensures FlushOk(t)
  {}

  /** A page keeps its objects if its version changed, or if its bytes did not. */
  ghost predicate KeepsObjects(s: Store, t: Store, p: nat)
    requires p < |s.pages| && p < |t.pages| && p < |s.disk| && p < |t.disk|
  {
    || t.pages[p].version == 0 || t.pages[p].version >= s.nextVersion
    || (t.pages[p].version == s.pages[p].version && t.pages[p].written == s.pages[p].written &&
        t.pages[p].wbuf == s.pages[p].wbuf && t.disk[p] == s.disk[p])
  }

  lemma LogFrame(s: Store, t: Store)
    requires LogOk(s) && Disjoint(s) && t.log == s.log && t.nextVersion >= s.nextVersion
    requires |t.pages| == |s.pages| && |t.disk| == |s.disk|
    requires forall p | 0 <= p < |s.pages| && p < |s.disk| :: KeepsObjects(s, t, p)
    ensures LogOk(t) && Disjoint(t)
  {
    forall i | 0 <= i < |t.log| ensures EntryOk(t, t.log[i]) {
      var w := s.log[i];
      assert EntryOk(s, w) && KeepsObjects(s, t, w.page);
    }
  }

  lemma ReadsFrame(s: Store, t: Store)
    requires ReadsOk(s) && t.readOps == s.readOps && |t.pages| == |s.pages|
    requires s.log <= t.log
    requires forall p | 0 <= p < |s.pages| :: t.pages[p].refcount == s.pages[p].refcount
    requires forall p | 0 <= p < |s.pages| && s.pages[p].refcount > 0 ::
      t.pages[p].version == s.pages[p].version && t.pages[p].written >= s.pages[p].written
    ensures ReadsOk(t)
  {
    forall i | 0 <= i < |t.readOps| ensures ReadOk(t, t.readOps[i]) {
      var r := s.readOps[i];
      assert ReadOk(s, r);
      if !r.Finished? && s.pages[r.w.page].refcount == 0 {
        NoPins(s.readOps, i, r.w.page);
        assert false;
      }
    }
  }

  lemma MaintFrame(s: Store, t: Store)
    requires MaintOk(s) && t.maint == s.maint && |t.pages| == |s.pages|
    requires forall p | 0 <= p < |s.pages| && !s.pages[p].active && !s.pages[p].free ::
      !t.pages[p].active && !t.pages[p].free
    ensures MaintOk(t)
  {}

  // ---- Steps that touch only a page's accounting ------------------------------------------

  /** The fields the storage invariant is about. */
  ghost predicate SameStorage(a: Page, b: Page) {
    && a.version == b.version && a.refcount == b.refcount && a.reserved == b.reserved && a.written == b.written
    && a.bucket == b.bucket && a.freeBucket == b.freeBucket && a.active == b.active && a.free == b.free &&
      a.wbuf == b.wbuf
  }

  lemma PagesFrame(s: Store, t: Store, p: nat)
    requires PagesOk(s) && t.conf == s.conf && t.disk == s.disk && t.nextVersion == s.nextVersion
    requires OnePage(s, t, p)
    requires PageOk(s.conf, s.nextVersion, t.pages[p])
    ensures PagesOk(t)
  {}

  lemma PageAt(s: Store, p: nat)
    requires PagesOk(s) && p < |s.pages|
    ensures ValidConf(s.conf) && PageOk(s.conf, s.nextVersion, s.pages[p])
    ensures |s.pages| == |s.disk| == s.conf.pageCount && |s.disk[p]| == s.conf.pageSize
  {}

  lemma SamePageOk(c: Conf, v: nat, a: Page, b: Page)
    requires ValidConf(c) && PageOk(c, v, a) && SameStorage(a, b)
    ensures PageOk(c, v, b)
  {}

  lemma TouchInv(s: Store, p: nat, pg: Page)
    requires Inv(s) && p < |s.pages| && SameStorage(s.pages[p], pg)
    ensures Inv(SetPage(s, p, pg))
  {
    hide PageOk, PagesOk, ListsOk, BuffersOk, FlushOk, LogOk, Disjoint, ReadsOk, MaintOk;
    var t := SetPage(s, p, pg);
    PageAt(s, p);
    SamePageOk(s.conf, s.nextVersion, s.pages[p], pg);
    PagesFrame(s, t, p);
    BuffersKeys(s);
    ListsFrame(s, t);
    BuffersFrame(s, t);
    FlushFrame(s, t);
    LogFrame(s, t);
    ReadsFrame(s, t);
    MaintFrame(s, t);
  }

  lemma BuffersKeys(s: Store)
    requires BuffersOk(s)
    ensures forall p | p in s.flushes :: Queued(s, p)
  {}

  // ---- Lists ----------------------------------------------------------------------------------

  lemma PopFront(l: seq<nat>)
    requires Distinct(l) && l != []
    ensures Distinct(l[1..]) && forall p :: p in l[1..] <==> p in l && p != l[0]
  {
    assert l == [l[0]] + l[1..];
  }

  lemma PushFront(l: seq<nat>, p: nat)
    requires Distinct(l) && p !in l
    ensures Distinct([p] + l) && forall q :: q in [p] + l <==> q in l || q == p
  {}

  lemma RemoveList(l: seq<nat>, p: nat)
    requires Distinct(l)
    ensures Distinct(Remove(l, p)) && forall q :: q in Remove(l, p) <==> q in l && q != p
  {
    RemoveDistinct(l, p);
    forall q ensures q in Remove(l, p) <==> q in l && q != p { RemoveMembers(l, p, q); }
  }

  lemma {:induction false} TotalUpdate(ls: seq<seq<nat>>, k: nat, l: seq<nat>)
    requires k < |ls|
    ensures Total(ls[k := l]) == Total(ls) - |ls[k]| + |l|
  {
    if k == 0 {
      assert ls[k := l][1..] == ls[1..];
    } else {
      assert ls[k := l][1..] == ls[1..][k - 1 := l];
      TotalUpdate(ls[1..], k - 1, l);
    }
  }

  /** The page a free list gives away is free, and is page 0 never. */
  lemma TakenPage(s: Store, fb: nat)
    requires ListsOk(s) && fb < |s.freeBuckets|
    ensures var tmp := TakeFree(s, fb).0;
            && (tmp.Some? ==> 0 < tmp.value < |s.pages| && s.pages[tmp.value].free && s.pageFree > 0)
            && (tmp.None? ==> TakeFree(s, fb).1 == s)
  {
    if fb != 0 && s.freeBuckets[fb] != [] {
      TotalUpdate(s.freeBuckets, fb, []);
      var p := s.freeBuckets[fb][0];
      assert p in s.freeBuckets[fb];
      assert IsFreePage(s, p, fb);
    } else if s.freelist != [] {
      assert IsFreePage(s, s.freelist[0], 0);
    }
  }

  lemma AllocateLists(s: Store, b: nat, fb: nat)
    requires ListsOk(s) && b < |s.buckets| && fb < |s.freeBuckets| && TakeFree(s, fb).0.Some?
    ensures ListsOk(AllocatePage(s, b, fb))
  {
    TakenPage(s, fb);
    var p, t := TakeFree(s, fb).0.value, AllocatePage(s, b, fb);
    var k := if fb != 0 && s.freeBuckets[fb] != [] then fb else 0;
    assert IsFreePage(s, p, k);
    Moved(s, t, p, k, b);
    if k != 0 {
      PopFront(s.freeBuckets[fb]);
      TotalUpdate(s.freeBuckets, fb, s.freeBuckets[fb][1..]);
    } else {
      PopFront(s.freelist);
    }
    PushFront(s.buckets[b], p);
  }

  /** Page `p` goes from free list `k` to bucket `b`, or back. */
  lemma Moved(s: Store, t: Store, p: nat, k: nat, b: nat)
    requires OnePage(s, t, p) && 0 < p
    requires t.pages[p].freeBucket == s.pages[p].freeBucket == k && t.pages[p].free != s.pages[p].free
    requires (if s.pages[p].free then t.pages[p].bucket else s.pages[p].bucket) == b
    ensures forall q: nat, j: nat :: IsFreePage(t, q, j) == if q == p then
      !s.pages[p].free && j == k else IsFreePage(s, q, j)
    ensures forall q: nat, j: nat :: IsUsedPage(t, q, j) == if q == p then
      s.pages[p].free && j == b else IsUsedPage(s, q, j)
  {}

  lemma FreeLists(s: Store, p: nat)
    requires ListsOk(s) && p < |s.pages| && !s.pages[p].free
    requires s.pages[p].bucket < |s.buckets| && s.pages[p].freeBucket < |s.freeBuckets|
    ensures ListsOk(FreePage(s, p))
  {
    var pg, t := s.pages[p], FreePage(s, p);
    assert IsUsedPage(s, p, pg.bucket);
    Moved(s, t, p, pg.freeBucket, pg.bucket);
    RemoveList(s.buckets[pg.bucket], p);
    if pg.freeBucket != 0 {
      PushFront(s.freeBuckets[pg.freeBucket], p);
      TotalUpdate(s.freeBuckets, pg.freeBucket, [p] + s.freeBuckets[pg.freeBucket]);
    } else {
      PushFront(s.freelist, p);
    }
  }

  // ---- Allocating and freeing pages ---------------------------------------------------------------

  lemma LaterVersion(c: Conf, v: nat, pg: Page)
    requires ValidConf(c) && PageOk(c, v, pg)
    ensures PageOk(c, v + 1, pg)
  {}

  lemma AllocatePages(s: Store, b: nat, fb: nat)
    requires PagesOk(s) && ListsOk(s) && b < |s.buckets| && fb < |s.freeBuckets| && TakeFree(s, fb).0.Some?
    ensures PagesOk(AllocatePage(s, b, fb))
  {
    hide PageOk;
    TakenPage(s, fb);
    var p, t := TakeFree(s, fb).0.value, AllocatePage(s, b, fb);
    NewPageOk(s.conf, s.nextVersion, s.pages[p], b);
    forall q | 0 <= q < |t.pages| ensures PageOk(t.conf, t.nextVersion, t.pages[q]) {
      if q != p { LaterVersion(s.conf, s.nextVersion, s.pages[q]); }
    }
  }

  lemma NewPageOk(c: Conf, v: nat, pg: Page, b: nat)
    requires ValidConf(c) && PageOk(c, v, pg) && pg.free && b < c.bucketCount && v >= 1
    ensures PageOk(c, v + 1, pg.(active := true, free := false, closed := false, version := v, bucket := b))
  {}

  lemma AllocateEffect(s: Store, b: nat, fb: nat)
    requires ListsOk(s) && b < |s.buckets| && fb < |s.freeBuckets| && TakeFree(s, fb).0.Some?
    ensures var p, t := TakeFree(s, fb).0.value, AllocatePage(s, b, fb);
            && OnePage(s, t, p) && t.pages[p] ==
              s.pages[p].(active := true, free := false, closed := false, version := s.nextVersion, bucket := b)
            && SameButPages(s, t) && t.nextVersion == s.nextVersion + 1
  {
    TakenPage(s, fb);
  }

  /** The parts that page allocation and freeing leave alone. */
  ghost predicate SameButPages(s: Store, t: Store) {
    && t.conf == s.conf && t.disk == s.disk && t.wbufs == s.wbufs && t.ios == s.ios && t.flushes == s.flushes
    && t.log == s.log && t.readOps == s.readOps && t.maint == s.maint
  }

  lemma FreeEffect(s: Store, p: nat)
    requires p < |s.pages| && s.pages[p].bucket < |s.buckets| && s.pages[p].freeBucket < |s.freeBuckets|
    ensures var t := FreePage(s, p);
            && OnePage(s, t, p) && SameButPages(s, t) && t.nextVersion == s.nextVersion
            && t.pages[p] == s.pages[p].(version := 0, objCount := 0, bytesUsed := 0, reserved := 0, written := 0,
                                         bucket := 0, active := false, closed := false, free := true)
  {}

  lemma AllocateInv(s: Store, b: nat, fb: nat)
    requires Inv(s) && b < |s.buckets| && fb < |s.freeBuckets|
    ensures Inv(AllocatePage(s, b, fb))
  {
    hide PageOk, PagesOk, ListsOk, BuffersOk, FlushOk, LogOk, Disjoint, ReadsOk, MaintOk;
    TakenPage(s, fb);
    if TakeFree(s, fb).0.Some? {
      AllocatePages(s, b, fb);
      AllocateLists(s, b, fb);
      var p, t := TakeFree(s, fb).0.value, AllocatePage(s, b, fb);
      AllocateEffect(s, b, fb);
      hide AllocatePage, TakeFree;
      PageAt(s, p);
      FreePageFacts(s, p);
      BuffersKeys(s);
      BuffersFrame(s, t);
      FlushFrame(s, t);
      LogFrame(s, t);
      ReadsFrame(s, t);
      MaintFrame(s, t);
    }
  }

  lemma FreePageFacts(s: Store, p: nat)
    requires PagesOk(s) && p < |s.pages| && s.pages[p].free
    ensures s.pages[p].refcount == 0 && !s.pages[p].active && s.pages[p].wbuf.None?
  {}

  lemma FreedPageOk(c: Conf, v: nat, pg: Page)
    requires ValidConf(c) && PageOk(c, v, pg) && !pg.active && pg.refcount == 0
    ensures pg.wbuf.None? && pg.bucket < c.bucketCount && pg.freeBucket < c.bucketCount
    ensures PageOk(c, v, pg.(version := 0, objCount := 0, bytesUsed := 0, reserved := 0, written := 0,
                             bucket := 0, active := false, closed := false, free := true))
  {}

  lemma FreeInv(s: Store, p: nat)
    requires Inv(s) && p < |s.pages| && !s.pages[p].active && !s.pages[p].free && s.pages[p].refcount == 0
    requires s.maint.Scanning? && s.maint.low.Some? ==> s.maint.low.value.0 != p
    ensures s.pages[p].bucket < |s.buckets| && s.pages[p].freeBucket < |s.freeBuckets|
    ensures Inv(FreePage(s, p))
  {
    hide PageOk, PagesOk, ListsOk, BuffersOk, FlushOk, LogOk, Disjoint, ReadsOk, MaintOk;
    PageAt(s, p);
    FreedPageOk(s.conf, s.nextVersion, s.pages[p]);
    ListSizes(s);
    var t := FreePage(s, p);
    FreeEffect(s, p);
    FreeLists(s, p);
    hide FreePage;
    PagesFrame(s, t, p);
    BuffersKeys(s);
    BuffersFrame(s, t);
    FlushFrame(s, t);
    LogFrame(s, t);
    ReadsFrame(s, t);
    FreeMaint(s, t, p);
  }

  lemma ListSizes(s: Store)
    requires ListsOk(s)
    ensures |s.freeBuckets| == |s.buckets| == s.conf.bucketCount
  {}

  lemma FreeMaint(s: Store, t: Store, p: nat)
    requires MaintOk(s) && t.maint == s.maint && OnePage(s, t, p)
    requires s.maint.Scanning? && s.maint.low.Some? ==> s.maint.low.value.0 != p
    ensures MaintOk(t)
  {}

  // ---- Writing ----------------------------------------------------------------------------------------

  /** An io is left for every page whose buffer is not queued yet. */
  lemma IoAvailable(s: Store, p: nat)
    requires BuffersOk(s) && p < |s.pages| && s.pages[p].wbuf.Some? && !s.pages[p].wbuf.value.full
    ensures s.ios > 0
  {
    var a, f := Attached(s), s.flushes.Keys;
    assert f <= a - {p};
    CardinalitySubset(f, a - {p});
    assert |a - {p}| == |a| - 1;
  }

  lemma {:induction false} CardinalitySubset(a: set<nat>, b: set<nat>)
    requires a <= b
    ensures |a| <= |b|
  {
    if a != {} {
      var x :| x in a;
      CardinalitySubset(a - {x}, b - {x});
    }
  }

  /** The page's buffer changes, its used bytes do not. */
  lemma SameUsedBytes(pg: Page, pg': Page, d: seq<Byte>, b: Wbuf, b': Wbuf, w: Write)
    requires pg'.written == pg.written && pg'.wbuf == Some(b')
    requires pg.wbuf == Some(b) && b'.offset == b.offset && |b'.data| == |b.data| && b'.free <= b.free <= |b.data|
    requires b'.data[..|b.data| - b.free] == b.data[..|b.data| - b.free]
    requires InPlace(pg, d, w)
    ensures InPlace(pg', d, w)
  {
    var used := |b.data| - b.free;
    if b.offset <= w.offset && End(w) <= b.offset + used {
      SamePrefix(b'.data, b.data, used, w.offset - b.offset, End(w) - b.offset);
    }
  }

  lemma BufferLog(s: Store, t: Store, p: nat, b: Wbuf, b': Wbuf)
    requires LogOk(s) && Disjoint(s) && t.log == s.log && t.nextVersion == s.nextVersion && t.disk == s.disk
    requires OnePage(s, t, p)
    requires t.pages[p].version == s.pages[p].version && t.pages[p].written == s.pages[p].written
    requires s.pages[p].wbuf == Some(b) && t.pages[p].wbuf == Some(b')
    requires b'.offset == b.offset && |b'.data| == |b.data| && b'.free <= b.free <= |b.data|
    requires b'.data[..|b.data| - b.free] == b.data[..|b.data| - b.free]
    ensures LogOk(t) && Disjoint(t)
  {
    forall i | 0 <= i < |t.log| ensures EntryOk(t, t.log[i]) {
      var w := s.log[i];
      assert EntryOk(s, w);
      if w.page == p && s.pages[p].version == w.version {
        SameUsedBytes(s.pages[p], t.pages[p], s.disk[p], b, b', w);
      }
    }
  }

  lemma SubmitBuffers(s: Store, t: Store, p: nat)
    requires BuffersOk(s) && OnePage(s, t, p)
    requires s.pages[p].wbuf.Some? && !s.pages[p].wbuf.value.full
    requires t.pages[p].wbuf.Some? && t.pages[p].wbuf.value.full
    requires t.conf == s.conf && t.wbufs == s.wbufs && s.ios > 0 && t.ios == s.ios - 1
    requires t.flushes == s.flushes[p := false]
    ensures BuffersOk(t)
  {
    assert !Queued(s, p);
    forall q: nat ensures q in t.flushes <==> Queued(t, q) { assert q in s.flushes <==> Queued(s, q); }
    hide Queued;
    assert Attached(t) == Attached(s);
    assert t.flushes.Keys == s.flushes.Keys + {p};
  }

  lemma SubmitInv(s: Store, p: nat, len: nat)
    requires Inv(s) && p < |s.pages| && NeedsSubmit(s.pages[p], len)
    ensures s.ios > 0 && s.pages[p].wbuf.value.free <= |s.pages[p].wbuf.value.data|
    ensures Inv(Submit(s, p))
  {
    hide PageOk, PagesOk, ListsOk, BuffersOk, FlushOk, LogOk, Disjoint, ReadsOk, MaintOk;
    IoAvailable(s, p);
    PageAt(s, p);
    WbufFacts(s.conf, s.nextVersion, s.pages[p]);
    var t, b := Submit(s, p), s.pages[p].wbuf.value;
    var b' := t.pages[p].wbuf.value;
    assert t.pages == s.pages[p := t.pages[p]];
    assert b'.data[..|b.data| - b.free] == b.data[..|b.data| - b.free];
    WbufPageOk(s.conf, s.nextVersion, s.pages[p], t.pages[p]);
    PagesFrame(s, t, p);
    SubmitBuffers(s, t, p);
    BuffersKeys(s);
    ListsFrame(s, t);
    SubmitFlush(s, t, p);
    BufferLog(s, t, p, b, b');
    ReadsFrame(s, t);
    MaintFrame(s, t);
  }

  lemma SubmitFlush(s: Store, t: Store, p: nat)
    requires PagesOk(s) && BuffersOk(s) && FlushOk(s) && PagesOk(t) && BuffersOk(t)
    requires OnePage(s, t, p)
    requires t.flushes == s.flushes[p := false] && t.disk == s.disk
    ensures FlushOk(t)
  {
    hide PageOk, CountsOk;
  }

  lemma WbufFacts(c: Conf, v: nat, pg: Page)
    requires ValidConf(c) && PageOk(c, v, pg) && pg.wbuf.Some?
    ensures var b := pg.wbuf.value; |b.data| == c.wbufSize && b.free <= |b.data| && b.offset == pg.written
    ensures pg.active && pg.written + c.wbufSize <= c.pageSize
  {}

  lemma WbufPageOk(c: Conf, v: nat, a: Page, b: Page)
    requires ValidConf(c) && PageOk(c, v, a) && a.wbuf.Some? && b.wbuf.Some?
    requires b.wbuf.value.offset == a.wbuf.value.offset && |b.wbuf.value.data| == |a.wbuf.value.data|
    requires b.wbuf.value.free <= a.wbuf.value.free && SameStorage(a, b.(wbuf := a.wbuf))
    ensures PageOk(c, v, b)
  {}

  lemma AttachedPageOk(c: Conf, v: nat, pg: Page, data: seq<Byte>)
    requires ValidConf(c) && PageOk(c, v, pg) && pg.active && pg.wbuf.None? && pg.reserved < c.pageSize
    requires |data| == c.wbufSize
    ensures PageOk(c, v, pg.(reserved := pg.reserved + |data|, wbuf := Some(Wbuf(data, pg.reserved, |data|, false))))
  {
    AlignedGap(pg.written, c.pageSize, c.wbufSize);
  }

  lemma AttachBuffers(s: Store, t: Store, p: nat)
    requires BuffersOk(s) && OnePage(s, t, p) && s.wbufs != [] && t.wbufs == s.wbufs[1..]
    requires t.conf == s.conf && t.ios == s.ios && t.flushes == s.flushes
    requires s.pages[p].wbuf.None? && t.pages[p].wbuf.Some? && !t.pages[p].wbuf.value.full
    ensures BuffersOk(t)
  {
    forall q: nat ensures q in t.flushes <==> Queued(t, q) { assert q in s.flushes <==> Queued(s, q); }
    assert CountsOk(t) by { AttachCounts(s, t, p); }
  }

  lemma AttachCounts(s: Store, t: Store, p: nat)
    requires CountsOk(s) && OnePage(s, t, p) && s.wbufs != [] && t.wbufs == s.wbufs[1..]
    requires t.conf == s.conf && t.ios == s.ios && t.flushes == s.flushes
    requires s.pages[p].wbuf.None? && t.pages[p].wbuf.Some?
    ensures CountsOk(t)
  {
    AttachedGrows(s, t, p);
    hide Attached;
  }

  lemma AttachedGrows(s: Store, t: Store, p: nat)
    requires OnePage(s, t, p) && s.pages[p].wbuf.None? && t.pages[p].wbuf.Some?
    ensures |Attached(t)| == |Attached(s)| + 1
  {
    assert Attached(t) == Attached(s) + {p};
  }

  lemma AttachLog(s: Store, t: Store, p: nat)
    requires LogOk(s) && Disjoint(s) && t.log == s.log && t.nextVersion == s.nextVersion && t.disk == s.disk
    requires OnePage(s, t, p) && s.pages[p].wbuf.None?
    requires t.pages[p].version == s.pages[p].version && t.pages[p].written == s.pages[p].written
    ensures LogOk(t) && Disjoint(t)
  {
    forall i | 0 <= i < |t.log| ensures EntryOk(t, t.log[i]) { assert EntryOk(s, s.log[i]); }
  }

  lemma FirstWbuf(s: Store)
    requires BuffersOk(s) && s.wbufs != []
    ensures |s.wbufs[0]| == s.conf.wbufSize
  {}

  lemma AttachInv(s: Store, p: nat)
    requires Inv(s) && p < |s.pages| && s.pages[p].active && NeedsWbuf(s, s.pages[p])
    ensures Inv(AttachWbuf(s, p))
  {
    hide PageOk, PagesOk, ListsOk, BuffersOk, FlushOk, LogOk, Disjoint, ReadsOk, MaintOk;
    if s.wbufs != [] {
      var t := AttachWbuf(s, p);
      PageAt(s, p);
      FirstWbuf(s);
      AttachedPageOk(s.conf, s.nextVersion, s.pages[p], s.wbufs[0]);
      PagesFrame(s, t, p);
      AttachBuffers(s, t, p);
      BuffersKeys(s);
      ListsFrame(s, t);
      FlushFrame(s, t);
      AttachLog(s, t, p);
      ReadsFrame(s, t);
      MaintFrame(s, t);
    }
  }

  /** Every object of the page's version ends where the next one may start. */
  lemma EntriesBelow(s: Store, p: nat, i: nat)
    requires PagesOk(s) && LogOk(s) && p < |s.pages| && s.pages[p].wbuf.Some? && i < |s.log|
    requires s.log[i].page == p && s.log[i].version == s.pages[p].version
    ensures var b := s.pages[p].wbuf.value; End(s.log[i]) <= b.offset + (|b.data| - b.free)
  {
    assert EntryOk(s, s.log[i]) && PageOk(s.conf, s.nextVersion, s.pages[p]);
  }

  /** A new object at the first unused place of the buffer. */
  lemma AppendLog(s: Store, t: Store, p: nat, b: Wbuf, b': Wbuf, data: seq<Byte>)
    requires PagesOk(s) && LogOk(s) && Disjoint(s) && t.nextVersion == s.nextVersion && t.disk == s.disk
    requires |s.disk| == |s.pages|
    requires OnePage(s, t, p) && s.pages[p].wbuf == Some(b) && t.pages[p].wbuf == Some(b')
    requires t.pages[p].version == s.pages[p].version && 1 <= s.pages[p].version < s.nextVersion
    requires t.pages[p].written == s.pages[p].written
    requires |data| <= b.free <= |b.data| && b'.offset == b.offset && b'.free == b.free - |data|
    requires b'.data == b.data[..|b.data| - b.free] + data + b.data[|b.data| - b.free + |data|..]
    requires t.log == s.log + [Write(p, s.pages[p].version, b.offset + (|b.data| - b.free), data)]
    ensures LogOk(t) && Disjoint(t)
  {
    var n, used := |s.log|, |b.data| - b.free;
    assert b'.data[..used] == b.data[..used];
    BufferLog(s, t.(log := s.log), p, b, b');
    forall i | 0 <= i < |t.log| ensures EntryOk(t, t.log[i]) {
      if i < n {
        assert EntryOk(t.(log := s.log), s.log[i]);
      } else {
        assert b'.data[used..used + |data|] == data;
      }
    }
    forall i, j | 0 <= i < j < |t.log| && t.log[i].page == t.log[j].page && t.log[i].version == t.log[j].version
      ensures End(t.log[i]) <= t.log[j].offset
    {
      if j == n { EntriesBelow(s, p, i); }
    }
  }

  lemma AppendInv(s: Store, p: nat, data: seq<Byte>)
    requires Inv(s) && p < |s.pages| && Fits(s.pages[p], |data|)
    ensures s.pages[p].wbuf.value.free <= |s.pages[p].wbuf.value.data|
    ensures Inv(Append(s, p, data))
  {
    hide PageOk, PagesOk, ListsOk, BuffersOk, FlushOk, LogOk, Disjoint, ReadsOk, MaintOk;
    PageAt(s, p);
    WbufFacts(s.conf, s.nextVersion, s.pages[p]);
    ActiveVersion(s.conf, s.nextVersion, s.pages[p]);
    var t, b := Append(s, p, data), s.pages[p].wbuf.value;
    WbufPageOk(s.conf, s.nextVersion, s.pages[p], t.pages[p]);
    PagesFrame(s, t, p);
    BuffersKeys(s);
    BuffersFrame(s, t);
    ListsFrame(s, t);
    NotQueued(s, p);
    FlushFrame(s, t);
    AppendLog(s, t, p, b, t.pages[p].wbuf.value, data);
    ReadsFrame(s, t);
    MaintFrame(s, t);
  }

  lemma NotQueued(s: Store, p: nat)
    requires BuffersOk(s) && !Queued(s, p)
    ensures p !in s.flushes
  {}

  lemma ActiveVersion(c: Conf, v: nat, pg: Page)
    requires ValidConf(c) && PageOk(c, v, pg) && pg.active
    ensures 1 <= pg.version < v && !pg.free
  {}

  // ---- Flushing ------------------------------------------------------------------------------------------

  lemma PwriteLog(s: Store, t: Store, p: nat)
    requires LogOk(s) && Disjoint(s) && t.log == s.log && t.nextVersion == s.nextVersion && t.pages == s.pages
    requires p < |s.pages| && p < |s.disk| && |t.disk| == |s.disk| && t.disk == s.disk[p := t.disk[p]]
    requires |t.disk[p]| == |s.disk[p]| && s.pages[p].written <= |s.disk[p]|
    requires t.disk[p][..s.pages[p].written] == s.disk[p][..s.pages[p].written]
    ensures LogOk(t) && Disjoint(t)
  {
    forall i | 0 <= i < |t.log| ensures EntryOk(t, t.log[i]) {
      var w, n := s.log[i], s.pages[p].written;
      assert EntryOk(s, w);
      if w.page == p && End(w) <= n {
        SamePrefix(t.disk[p], s.disk[p], n, w.offset, End(w));
      }
    }
  }

  lemma PwritePages(s: Store, t: Store, p: nat)
    requires PagesOk(s) && t.conf == s.conf && t.pages == s.pages && t.nextVersion == s.nextVersion
    requires p < |s.disk| && |t.disk| == |s.disk| && t.disk == s.disk[p := t.disk[p]] && |t.disk[p]| == |s.disk[p]|
    ensures PagesOk(t)
  {}

  lemma PwriteFlush(s: Store, t: Store, p: nat)
    requires PagesOk(s) && BuffersOk(s) && FlushOk(s) && PagesOk(t) && BuffersOk(t) && t.pages == s.pages
    requires p in s.flushes && t.flushes == s.flushes[p := true]
    requires |t.disk| == |s.disk| && t.disk == s.disk[p := t.disk[p]]
    requires p < |s.pages| && s.pages[p].wbuf.Some?
    requires var b := s.pages[p].wbuf.value;
      b.offset + |b.data| <= |t.disk[p]| && t.disk[p][b.offset..b.offset + |b.data|] == b.data
    ensures FlushOk(t)
  {
    hide PageOk, CountsOk;
  }

  lemma PwriteInv(s: Store, p: nat)
    requires Inv(s) && p in s.flushes
    ensures p < |s.pages| && p < |s.disk| && s.pages[p].wbuf.Some?
    ensures s.pages[p].wbuf.value.offset + |s.pages[p].wbuf.value.data| <= |s.disk[p]|
    ensures Inv(Pwrite(s, p))
  {
    hide PageOk, PagesOk, ListsOk, BuffersOk, FlushOk, LogOk, Disjoint, ReadsOk, MaintOk;
    BuffersKeys(s);
    PageAt(s, p);
    WbufFacts(s.conf, s.nextVersion, s.pages[p]);
    var t, b := Pwrite(s, p), s.pages[p].wbuf.value;
    assert t.disk[p][..b.offset] == s.disk[p][..b.offset];
    assert t.disk[p][b.offset..b.offset + |b.data|] == b.data;
    PwritePages(s, t, p);
    assert t.flushes.Keys == s.flushes.Keys;
    BuffersFrame(s, t);
    ListsFrame(s, t);
    PwriteFlush(s, t, p);
    PwriteLog(s, t, p);
    ReadsFrame(s, t);
    MaintFrame(s, t);
  }

  lemma FlushedPageOk(c: Conf, v: nat, pg: Page)
    requires ValidConf(c) && PageOk(c, v, pg) && pg.wbuf.Some?
    ensures var written := pg.written + |pg.wbuf.value.data|;
            PageOk(c, v, pg.(written := written, wbuf := None, active := pg.active && written != c.pageSize))
  {
    if pg.written < c.pageSize { AlignedGap(pg.written, c.pageSize, c.wbufSize); }
  }

  lemma FlushedBuffers(s: Store, t: Store, p: nat)
    requires BuffersOk(s) && OnePage(s, t, p) && Queued(s, p) && t.pages[p].wbuf.None? && t.conf == s.conf
    requires t.wbufs == [s.pages[p].wbuf.value.data] + s.wbufs && |s.pages[p].wbuf.value.data| == s.conf.wbufSize
    requires t.ios == s.ios + 1 && t.flushes == s.flushes - {p}
    ensures BuffersOk(t)
  {
    forall q: nat ensures q in t.flushes <==> Queued(t, q) { assert q in s.flushes <==> Queued(s, q); }
    assert p in s.flushes;
    assert CountsOk(t) by { FlushedCounts(s, t, p); }
  }

  lemma FlushedCounts(s: Store, t: Store, p: nat)
    requires CountsOk(s) && OnePage(s, t, p) && s.pages[p].wbuf.Some? && t.pages[p].wbuf.None? && t.conf == s.conf
    requires t.wbufs == [s.pages[p].wbuf.value.data] + s.wbufs && |s.pages[p].wbuf.value.data| == s.conf.wbufSize
    requires p in s.flushes && t.ios == s.ios + 1 && t.flushes == s.flushes - {p}
    ensures CountsOk(t)
  {
    assert OnePage(t, s, p);
    AttachedGrows(t, s, p);
    hide Attached;
    assert t.flushes.Keys == s.flushes.Keys - {p};
  }

  lemma FlushedLog(s: Store, t: Store, p: nat, b: Wbuf)
    requires LogOk(s) && Disjoint(s) && t.log == s.log && t.nextVersion == s.nextVersion && t.disk == s.disk
    requires OnePage(s, t, p) && p < |s.disk| && s.pages[p].wbuf == Some(b) && t.pages[p].version == s.pages[p].version
    requires b.offset == s.pages[p].written && t.pages[p].written == b.offset + |b.data| <= |s.disk[p]|
    requires s.disk[p][b.offset..b.offset + |b.data|] == b.data
    ensures LogOk(t) && Disjoint(t)
  {
    forall i | 0 <= i < |t.log| ensures EntryOk(t, t.log[i]) {
      var w := s.log[i];
      assert EntryOk(s, w);
      if w.page == p && w.version == s.pages[p].version && b.offset <= w.offset && End(w) <= b.offset + |b.data| {
        SliceOfSlice(s.disk[p], b.offset, b.offset + |b.data|, w.offset, End(w));
      }
    }
  }

  lemma FlushedFlush(s: Store, t: Store, p: nat)
    requires PagesOk(s) && BuffersOk(s) && FlushOk(s) && PagesOk(t) && BuffersOk(t)
    requires OnePage(s, t, p) && t.flushes == s.flushes - {p} && t.disk == s.disk
    ensures FlushOk(t)
  {
    hide PageOk, CountsOk;
  }

  lemma OnDiskNow(s: Store, p: nat)
    requires PagesOk(s) && BuffersOk(s) && FlushOk(s) && p in s.flushes && s.flushes[p]
    ensures Queued(s, p)
    ensures var b := s.pages[p].wbuf.value;
      b.offset + |b.data| <= |s.disk[p]| && s.disk[p][b.offset..b.offset + |b.data|] == b.data
  {
    assert Queued(s, p);
    assert PageOk(s.conf, s.nextVersion, s.pages[p]);
  }

  /** The callback finds its own buffer attached, at the written offset. */
  lemma FlushDoneInv(s: Store, p: nat)
    requires Inv(s) && p in s.flushes && s.flushes[p]
    ensures p < |s.pages| && s.pages[p].wbuf.Some? && s.pages[p].wbuf.value.offset == s.pages[p].written
    ensures Inv(FlushDone(s, p))
  {
    hide PageOk, PagesOk, ListsOk, BuffersOk, FlushOk, LogOk, Disjoint, ReadsOk, MaintOk;
    OnDiskNow(s, p);
    PageAt(s, p);
    WbufFacts(s.conf, s.nextVersion, s.pages[p]);
    FlushedPageOk(s.conf, s.nextVersion, s.pages[p]);
    var t := FlushDone(s, p);
    PagesFrame(s, t, p);
    FlushedBuffers(s, t, p);
    ListsFrame(s, t);
    FlushedFlush(s, t, p);
    FlushedLog(s, t, p, s.pages[p].wbuf.value);
    ReadsFrame(s, t);
    MaintFrame(s, t);
  }

  // ---- Reading -----------------------------------------------------------------------------------------------

  /** Where a read of a live object is sent, its bytes are. */
  lemma LiveRead(s: Store, w: Write)
    requires PagesOk(s) && LogOk(s) && w in s.log && s.pages[w.page].version == w.version
    ensures w.page < |s.pages| && w.page < |s.disk|
    ensures FromWbuf(s.pages[w.page], w.offset) ==>
      && Buffered(s.pages[w.page], w.offset) == (w.offset < s.pages[w.page].reserved)
      && (Buffered(s.pages[w.page], w.offset) ==> WbufCovers(s.pages[w.page].wbuf.value, w.offset, |w.data|))
      && FromBuffer(s.pages[w.page], w) == (if w.offset < s.pages[w.page].reserved then Data(w.data) else Failed)
    ensures End(w) <= s.pages[w.page].reserved
    ensures !FromWbuf(s.pages[w.page], w.offset) ==> End(w) <= s.pages[w.page].written
  {
    var i :| 0 <= i < |s.log| && s.log[i] == w;
    assert EntryOk(s, w);
    assert PageOk(s.conf, s.nextVersion, s.pages[w.page]);
  }

  lemma LoggedPage(s: Store, w: Write)
    requires LogOk(s) && w in s.log
    ensures w.page < |s.pages| && w.version >= 1
  {
    var i :| 0 <= i < |s.log| && s.log[i] == w;
    assert EntryOk(s, w);
  }

  /** A finished read joins the history. */
  lemma FinishedReads(s: Store, t: Store, r: Read)
    requires ReadsOk(s) && t.readOps == s.readOps + [r] && t.pages == s.pages && t.log == s.log
    requires r.Finished? && r.w in s.log
    requires r.result == Miss || r.result == Data(r.w.data) || (r.result == Failed && r.w.data == [])
    ensures ReadsOk(t)
  {
    forall i | 0 <= i < |t.readOps| ensures ReadOk(t, t.readOps[i]) {
      if i < |s.readOps| { assert ReadOk(s, s.readOps[i]); }
    }
    forall p | 0 <= p < |t.pages| ensures t.pages[p].refcount == Pinned(t.readOps, p) { PinnedAppend(s.readOps, r, p); }
  }

  lemma PinningReads(s: Store, t: Store, w: Write)
    requires ReadsOk(s) && t.readOps == s.readOps + [OnDisk(w)] && t.log == s.log && w in s.log
    requires OnePage(s, t, w.page) && t.pages[w.page] == s.pages[w.page].(refcount := s.pages[w.page].refcount + 1)
    requires s.pages[w.page].version == w.version && End(w) <= s.pages[w.page].written
    ensures ReadsOk(t)
  {
    forall i | 0 <= i < |t.readOps| ensures ReadOk(t, t.readOps[i]) {
      if i < |s.readOps| { assert ReadOk(s, s.readOps[i]); }
    }
    forall p | 0 <= p < |t.pages|
      ensures t.pages[p].refcount == Pinned(t.readOps, p) { PinnedAppend(s.readOps, OnDisk(w), p); }
  }

  lemma PinnedPageOk(c: Conf, v: nat, pg: Page, n: nat)
    requires ValidConf(c) && PageOk(c, v, pg) && (pg.free ==> n == 0)
    ensures PageOk(c, v, pg.(refcount := n))
  {}

  /** Pages that differ only in their reference count. */
  lemma RefcountInv(s: Store, t: Store, p: nat, n: nat)
    requires Inv(s) && OnePage(s, t, p) && t.pages[p] == s.pages[p].(refcount := n) && (s.pages[p].free ==> n == 0)
    requires t == s.(pages := t.pages, readOps := t.readOps) && ReadsOk(t)
    ensures Inv(t)
  {
    hide PageOk, PagesOk, ListsOk, BuffersOk, FlushOk, LogOk, Disjoint, ReadsOk, MaintOk;
    PageAt(s, p);
    PinnedPageOk(s.conf, s.nextVersion, s.pages[p], n);
    PagesFrame(s, t, p);
    BuffersKeys(s);
    ListsFrame(s, t);
    BuffersFrame(s, t);
    FlushFrame(s, t);
    LogFrame(s, t);
    MaintFrame(s, t);
  }

  lemma HistoryInv(s: Store, t: Store)
    requires Inv(s) && t == s.(readOps := t.readOps) && ReadsOk(t)
    ensures Inv(t)
  {
    hide PageOk, PagesOk, ListsOk, BuffersOk, FlushOk, LogOk, Disjoint, ReadsOk, MaintOk;
    ListsFrame(s, t);
    SamePages(s, t);
    BuffersFrame(s, t);
    BuffersKeys(s);
    FlushFrame(s, t);
    LogFrame(s, t);
    MaintFrame(s, t);
  }

  lemma SamePages(s: Store, t: Store)
    requires PagesOk(s) && t.conf == s.conf && t.pages == s.pages && t.disk == s.disk && t.nextVersion == s.nextVersion
    ensures PagesOk(t)
  {}

  /** Reading: the buffer is there whenever the code asserts it is, but for an
      object that starts at the end of what the page has reserved. */
  lemma ReadStartInv(s: Store, w: Write)
    requires Inv(s) && w in s.log
    ensures w.page < |s.pages|
    ensures Readable(s.pages[w.page], w.version) && FromWbuf(s.pages[w.page], w.offset) ==>
      && Buffered(s.pages[w.page], w.offset) == (w.offset < s.pages[w.page].reserved)
      && (Buffered(s.pages[w.page], w.offset) ==> WbufCovers(s.pages[w.page].wbuf.value, w.offset, |w.data|))
      && FromBuffer(s.pages[w.page], w) == (if w.offset < s.pages[w.page].reserved then Data(w.data) else Failed)
      && End(w) <= s.pages[w.page].reserved
    ensures Inv(ReadStart(s, w))
  {
    hide PageOk, PagesOk, ListsOk, BuffersOk, FlushOk, LogOk, Disjoint, ReadsOk, MaintOk;
    LoggedPage(s, w);
    if !Readable(s.pages[w.page], w.version) {
      FinishedReads(s, ReadStart(s, w), Finished(w, Miss));
      HistoryInv(s, ReadStart(s, w));
    } else {
      LiveRead(s, w);
      var t := ReadStart(s, w);
      if FromWbuf(s.pages[w.page], w.offset) {
        FinishedReads(s, t, Finished(w, FromBuffer(s.pages[w.page], w)));
        HistoryInv(s, t);
      } else {
        PinningReads(s, t, w);
        RefcountInv(s, t, w.page, s.pages[w.page].refcount + 1);
      }
    }
  }

  lemma ReadAt(s: Store, i: nat)
    requires ReadsOk(s) && i < |s.readOps|
    ensures ReadOk(s, s.readOps[i])
  {}

  /** What the disk holds for a pinned object. */
  lemma PinnedBytes(s: Store, w: Write)
    requires PagesOk(s) && LogOk(s) && w in s.log && w.page < |s.pages|
    requires s.pages[w.page].version == w.version && End(w) <= s.pages[w.page].written
    ensures w.page < |s.disk| && End(w) <= |s.disk[w.page]| && s.disk[w.page][w.offset..End(w)] == w.data
  {
    var i :| 0 <= i < |s.log| && s.log[i] == w;
    assert EntryOk(s, w);
    assert PageOk(s.conf, s.nextVersion, s.pages[w.page]);
  }

  lemma ReplacedRead(s: Store, t: Store, i: nat, r: Read)
    requires ReadsOk(s) && i < |s.readOps| && t.readOps == s.readOps[i := r] && t.log == s.log
    requires |t.pages| == |s.pages| && forall p | 0 <= p < |s.pages| ::
      && t.pages[p].version == s.pages[p].version && t.pages[p].written == s.pages[p].written
      && t.pages[p].refcount ==
        s.pages[p].refcount - (if Pins(s.readOps[i], p) then 1 else 0) + (if Pins(r, p) then 1 else 0)
    requires ReadOk(t, r)
    ensures ReadsOk(t)
  {
    forall j | 0 <= j < |t.readOps| ensures ReadOk(t, t.readOps[j]) {
      if j != i { assert ReadOk(s, s.readOps[j]); }
    }
    forall p | 0 <= p < |t.pages|
      ensures t.pages[p].refcount == Pinned(t.readOps, p) { PinnedFalls(s.readOps, i, r, p); }
  }

  lemma PreadInv(s: Store, i: nat)
    requires Inv(s) && i < |s.readOps| && s.readOps[i].OnDisk?
    ensures var w := s.readOps[i].w; w.page < |s.disk| && w.offset + |w.data| <= |s.disk[w.page]|
    ensures Inv(Pread(s, i))
  {
    hide PageOk, PagesOk, ListsOk, BuffersOk, FlushOk, LogOk, Disjoint, ReadsOk, MaintOk;
    var w := s.readOps[i].w;
    ReadAt(s, i);
    PinnedBytes(s, w);
    var t := Pread(s, i);
    assert ReadOk(t, Transferred(w, w.data));
    ReplacedRead(s, t, i, Transferred(w, w.data));
    HistoryInv(s, t);
  }

  lemma PinCounted(s: Store, i: nat, p: nat)
    requires ReadsOk(s) && i < |s.readOps| && Pins(s.readOps[i], p) && p < |s.pages|
    ensures s.pages[p].refcount > 0
  {
    if Pinned(s.readOps, p) == 0 { NoPins(s.readOps, i, p); }
  }

  lemma FreeUnpinned(s: Store, p: nat)
    requires PagesOk(s) && p < |s.pages| && s.pages[p].refcount > 0
    ensures !s.pages[p].free
  {}

  lemma ReadEndInv(s: Store, i: nat)
    requires Inv(s) && i < |s.readOps| && s.readOps[i].Transferred?
    ensures s.readOps[i].w.page < |s.pages| && s.pages[s.readOps[i].w.page].refcount > 0
    ensures Inv(ReadEnd(s, i))
  {
    hide PageOk, PagesOk, ListsOk, BuffersOk, FlushOk, LogOk, Disjoint, ReadsOk, MaintOk;
    var r := s.readOps[i];
    ReadAt(s, i);
    PinCounted(s, i, r.w.page);
    FreeUnpinned(s, r.w.page);
    var t := ReadEnd(s, i);
    assert ReadOk(t, Finished(r.w, Data(r.bytes)));
    ReplacedRead(s, t, i, Finished(r.w, Data(r.bytes)));
    RefcountInv(s, t, r.w.page, s.pages[r.w.page].refcount - 1);
  }

  // ---- Maintenance ----------------------------------------------------------------------------------------------

  lemma ScanInv(s: Store, m: Maint)
    requires Inv(s)
    requires m.Scanning? ==> m.i <= |s.pages|
    requires m.Scanning? && m.low.Some? ==>
      m.low.value.0 < m.i && !s.pages[m.low.value.0].active && !s.pages[m.low.value.0].free
    ensures Inv(s.(maint := m))
  {
    hide PageOk, PagesOk, ListsOk, BuffersOk, FlushOk, LogOk, Disjoint, ReadsOk;
    var t := s.(maint := m);
    SamePages(s, t);
    ListsFrame(s, t);
    BuffersFrame(s, t);
    BuffersKeys(s);
    FlushFrame(s, t);
    LogFrame(s, t);
    ReadsFrame(s, t);
  }

  lemma MaintBounds(s: Store, p: nat)
    requires PagesOk(s) && ListsOk(s) && p < |s.pages|
    ensures s.pages[p].bucket < |s.buckets| && s.pages[p].freeBucket < |s.freeBuckets|
  {
    assert PageOk(s.conf, s.nextVersion, s.pages[p]);
  }

  lemma MaintVisitInv(s: Store)
    requires Inv(s) && s.maint.Scanning? && s.maint.i < |s.pages|
    ensures s.pages[s.maint.i].bucket < |s.buckets| && s.pages[s.maint.i].freeBucket < |s.freeBuckets|
    ensures Inv(MaintVisit(s))
  {
    hide PageOk, PagesOk, ListsOk, BuffersOk, FlushOk, LogOk, Disjoint, ReadsOk;
    var m := s.maint;
    MaintBounds(s, m.i);
    var t := MaintVisit(s);
    var n := s.(maint := t.maint);
    if Reclaimable(s.pages[m.i]) {
      ScanInv(s, t.maint);
      FreeEffect(n, m.i);
      FreeInv(n, m.i);
      assert t == FreePage(n, m.i);
    } else {
      ScanInv(s, t.maint);
    }
  }

  lemma MaintEvictInv(s: Store)
    requires Inv(s) && s.maint.Scanning?
    ensures s.maint.low.Some? ==>
      var p := s.maint.low.value.0;
      p < |s.pages| && s.pages[p].bucket < |s.buckets| && s.pages[p].freeBucket < |s.freeBuckets|
    ensures Inv(MaintEvict(s))
  {
    hide PageOk, PagesOk, ListsOk, BuffersOk, FlushOk, LogOk, Disjoint, ReadsOk;
    var m := s.maint;
    if m.low.Some? { MaintBounds(s, m.low.value.0); }
    if m.doEvict && m.low.Some? && !s.pages[m.low.value.0].closed {
      var p := m.low.value.0;
      TouchInv(s, p, s.pages[p].(closed := true));
      ScanInv(SetPage(s, p, s.pages[p].(closed := true)), Idle);
      var t := SetPage(s, p, s.pages[p].(closed := true)).(maint := Idle);
      if t.pages[p].refcount == 0 { FreeInv(t, p); }
    } else {
      ScanInv(s, Idle);
    }
  }
}

/** Threads inside extstore_write_request: the page is looked up under `e->mutex`,
    tested and written under `p->mutex`, and, when it turned out to be full, a new
    one is allocated under `e->mutex` again. _allocate_page asserts that the newest
    page of the bucket is full; nothing is locked between the test and the
    assertion.
 */
module ExtStoreWriters {
  import opened ByteStrings
  import opened ExtStoreInv
  import opened ExtStoreRuns
  import opened ExtStoreSpec
  import opened Options
  import opened Sequences

  /** A writer between its locked sections. `stamp` is the version number that was
      to be given out next when its lookup ended. */
  datatype Writer =
    | Away
    | Found(b: nat, fb: nat, page: nat, stamp: nat)
    | SawFull(b: nat, fb: nat, stamp: nat)

  datatype System = System(store: Store, writers: seq<Writer>)

  datatype Step =
    | Lookup(i: nat, b: nat, fb: nat)    // first section under e->mutex
    | TryPage(i: nat, data: seq<Byte>)   // the section under p->mutex
    | Retry(i: nat)                      // second section under e->mutex
    | Other(e: Event)                    // flushes, reads, deletes, closes, maintenance

  /** Page `p` has given out all its space. */
  predicate Spent(s: Store, p: nat) {
    p < |s.pages| && s.pages[p].reserved == s.conf.pageSize
  }

  /** The assertion at the head of _allocate_page. */
  predicate MayAllocate(s: Store, b: nat)
    requires b < |s.buckets|
  {
    s.buckets[b] == [] || Spent(s, s.buckets[b][0])
  }

  ghost predicate InRange(s: Store, w: Writer) {
    && (!w.Away? ==> w.b < |s.buckets| && w.fb < |s.freeBuckets| && w.stamp <= s.nextVersion)
    && (w.Found? ==> w.page < |s.pages|)
  }

  /** A step a thread can take, up to the first assertion that fails. */
  ghost predicate Possible(t: System, step: Step) {
    match step
    case Lookup(i, b, fb) =>
      i < |t.writers| && t.writers[i].Away? && b < |t.store.buckets| && fb < |t.store.freeBuckets|
    case TryPage(i, _) => i < |t.writers| && t.writers[i].Found? && InRange(t.store, t.writers[i])
    case Retry(i) =>
      && i < |t.writers| && t.writers[i].SawFull? && InRange(t.store, t.writers[i])
      && MayAllocate(t.store, t.writers[i].b)
    case Other(e) => Enabled(t.store, e) && !e.AllocateIn? && !e.WriteTo?
  }

  ghost function Take(t: System, step: Step): System
    requires Inv(t.store) && Possible(t, step)
  {
    match step
    case Lookup(i, b, fb) =>
      var s := if t.store.buckets[b] == [] then Next(t.store, AllocateIn(b, fb)) else t.store;
      System(s, t.writers[i := LookedUp(s, b, fb)])
    case TryPage(i, data) =>
      var w := t.writers[i];
      if PageFull(t.store, t.store.pages[w.page]) then
        t.(writers := t.writers[i := SawFull(w.b, w.fb, w.stamp)])
      else
        System(Next(t.store, WriteTo(w.page, data)), t.writers[i := Away])
    case Retry(i) =>
      System(Next(t.store, AllocateIn(t.writers[i].b, t.writers[i].fb)), t.writers[i := Away])
    case Other(e) => t.(store := Next(t.store, e))
  }

  function LookedUp(s: Store, b: nat, fb: nat): Writer {
    if b >= |s.buckets| || s.buckets[b] == [] then Away else Found(b, fb, s.buckets[b][0], s.nextVersion)
  }

  // ---- What every run keeps ------------------------------------------------------------------

  /** All pages of a bucket but the newest are spent. */
  ghost predicate OldSpent(s: Store, b: nat) {
    b < |s.buckets| && forall q: nat | q in s.buckets[b] && q != s.buckets[b][0] :: Spent(s, q)
  }

  /** Pages a writer could have found before its lookup ended are spent, but for
      the one it found, until it has tested that one too. */
  ghost predicate SeenSpent(s: Store, w: Writer)
    requires InRange(s, w)
  {
    !w.Away? ==>
      forall q: nat | q in s.buckets[w.b] && q < |s.pages| && s.pages[q].version < w.stamp ::
        Spent(s, q) || (w.Found? && q == w.page)
  }

  ghost predicate WriterOk(s: Store, w: Writer) { InRange(s, w) && SeenSpent(s, w) }

  ghost predicate BucketsOk(s: Store) { forall b | 0 <= b < |s.buckets| :: OldSpent(s, b) }

  ghost predicate WritersOk(s: Store, ws: seq<Writer>) { forall i | 0 <= i < |ws| :: WriterOk(s, ws[i]) }

  ghost predicate Ok(t: System) { Inv(t.store) && BucketsOk(t.store) && WritersOk(t.store, t.writers) }

  /** A step that changes no list: spent pages stay spent. */
  ghost predicate Quiet(s: Store, t: Store) {
    && t.conf == s.conf && |t.pages| == |s.pages| && t.nextVersion == s.nextVersion
    && t.buckets == s.buckets && |t.freeBuckets| == |s.freeBuckets|
    && forall q: nat | q < |s.pages| :: t.pages[q].version == s.pages[q].version && (Spent(s, q) ==> Spent(t, q))
  }

  /** A step that takes page `p` off the list of bucket `b`. */
  ghost predicate Dropped(s: Store, t: Store, b: nat, p: nat) {
    && t.conf == s.conf && |t.pages| == |s.pages| && t.nextVersion == s.nextVersion
    && b < |s.buckets| && Distinct(s.buckets[b]) && t.buckets == s.buckets[b := Remove(s.buckets[b], p)]
    && |t.freeBuckets| == |s.freeBuckets| && (forall c | 0 <= c < |s.buckets| && c != b :: p !in s.buckets[c])
    && forall q: nat | q < |s.pages| && q != p ::
         t.pages[q].version == s.pages[q].version && (Spent(s, q) ==> Spent(t, q))
  }

  lemma QuietKeeps(s: Store, t: Store, ws: seq<Writer>)
    requires Quiet(s, t) && BucketsOk(s) && WritersOk(s, ws)
    ensures BucketsOk(t) && WritersOk(t, ws)
  {
    forall b | 0 <= b < |t.buckets| ensures OldSpent(t, b) { assert OldSpent(s, b); }
    forall i | 0 <= i < |ws| ensures WriterOk(t, ws[i]) { assert WriterOk(s, ws[i]); }
  }

  lemma DroppedBucket(s: Store, t: Store, b: nat, p: nat, c: nat)
    requires Dropped(s, t, b, p) && OldSpent(s, c)
    ensures OldSpent(t, c)
  {
    hide Remove;
    if c == b {
      forall q: nat | q in t.buckets[b] && q != t.buckets[b][0] ensures Spent(t, q) {
        var l := s.buckets[b];
        RemoveMembers(l, p, q);
        if p != l[0] { RemoveHead(l, p); }
        assert Spent(s, q);
      }
    } else {
      forall q: nat | q in t.buckets[c] && q != t.buckets[c][0] ensures Spent(t, q) { assert Spent(s, q); }
    }
  }

  lemma RemoveHead(l: seq<nat>, p: nat)
    requires l != [] && p != l[0]
    ensures Remove(l, p) != [] && Remove(l, p)[0] == l[0]
  {}

  lemma DroppedWriter(s: Store, t: Store, b: nat, p: nat, w: Writer)
    requires Dropped(s, t, b, p) && WriterOk(s, w)
    ensures WriterOk(t, w)
  {
    hide Remove;
    if !w.Away? {
      forall q: nat | q in t.buckets[w.b] && q < |t.pages| && t.pages[q].version < w.stamp
        ensures Spent(t, q) || (w.Found? && q == w.page)
      {
        if w.b == b { RemoveMembers(s.buckets[b], p, q); }
        assert Spent(s, q) || (w.Found? && q == w.page);
      }
    }
  }

  lemma DroppedKeeps(s: Store, t: Store, b: nat, p: nat, ws: seq<Writer>)
    requires Dropped(s, t, b, p) && BucketsOk(s) && WritersOk(s, ws)
    ensures BucketsOk(t) && WritersOk(t, ws)
  {
    assert |t.buckets| == |s.buckets|;
    hide Dropped, OldSpent, WriterOk;
    forall c | 0 <= c < |t.buckets| ensures OldSpent(t, c) { DroppedBucket(s, t, b, p, c); }
    forall i | 0 <= i < |ws| ensures WriterOk(t, ws[i]) { DroppedWriter(s, t, b, p, ws[i]); }
  }

  /** Where a page in use is listed. */
  lemma Listed(s: Store, p: nat)
    requires Inv(s) && p < |s.pages| && !s.pages[p].free
    ensures s.pages[p].bucket < |s.buckets| && s.pages[p].freeBucket < |s.freeBuckets|
    ensures Distinct(s.buckets[s.pages[p].bucket])
    ensures forall c | 0 <= c < |s.buckets| && c != s.pages[p].bucket :: p !in s.buckets[c]
  {
    hide BuffersOk, FlushOk, LogOk, Disjoint, ReadsOk, MaintOk;
    assert PageOk(s.conf, s.nextVersion, s.pages[p]);
    assert BucketOk(s, s.buckets[s.pages[p].bucket], s.pages[p].bucket);
    forall c | 0 <= c < |s.buckets| && c != s.pages[p].bucket ensures p !in s.buckets[c] {
      assert BucketOk(s, s.buckets[c], c);
    }
  }

  lemma FreeDrops(s: Store, p: nat)
    requires Inv(s) && p < |s.pages| && !s.pages[p].free
    ensures s.pages[p].bucket < |s.buckets| && s.pages[p].freeBucket < |s.freeBuckets|
    ensures Dropped(s, FreePage(s, p), s.pages[p].bucket, p)
  {
    hide Inv, Remove, Distinct;
    Listed(s, p);
  }

  lemma WriteQuiet(s: Store, p: nat, data: seq<Byte>)
    requires Inv(s) && p < |s.pages|
    ensures Quiet(s, WriteStep(s, p, data))
  {
    hide Inv;
  }

  lemma EventQuiet(s: Store, e: Event)
    requires Inv(s) && Enabled(s, e) && !e.AllocateIn? && !e.VisitPage? && !e.EndScan?
    ensures Quiet(s, Next(s, e))
  {
    hide Inv;
    match e
    case WriteTo(p, data) => WriteQuiet(s, p, data);
    case FlushTransfer(p) => PwriteInv(s, p);
    case FlushCallback(p) => FlushDoneInv(s, p);
    case DeleteFrom(p, version, count, bytes) =>
    case CloseOf(p, version) =>
    case BeginRead(w) => ReadStartInv(s, w);
    case TransferRead(i) => PreadInv(s, i);
    case EndRead(i) => ReadEndInv(s, i);
    case BeginScan =>
  }

  lemma VisitDrops(s: Store)
    requires Inv(s) && Enabled(s, VisitPage)
    ensures var t, p := Next(s, VisitPage), s.maint.i;
            Quiet(s, t) || Dropped(s, t, s.pages[p].bucket, p)
  {
    hide Inv, Remove, Distinct, FreePage;
    MaintVisitInv(s);
    var p := s.maint.i;
    if Reclaimable(s.pages[p]) { FreeDrops(s, p); }
  }

  lemma EvictDrops(s: Store)
    requires Inv(s) && Enabled(s, EndScan)
    ensures var t := Next(s, EndScan);
            Quiet(s, t) || exists b, p :: Dropped(s, t, b, p)
  {
    hide Inv, Remove, Distinct, FreePage;
    MaintEvictInv(s);
    var m := s.maint;
    if m.doEvict && m.low.Some? && !s.pages[m.low.value.0].closed {
      var p := m.low.value.0;
      var u := SetPage(s, p, s.pages[p].(closed := true)).(maint := Idle);
      if u.pages[p].refcount == 0 {
        EvictedInUse(s);
        FreeDrops(u, p);
        assert Dropped(s, FreePage(u, p), u.pages[p].bucket, p);
      }
    }
  }

  lemma EvictedInUse(s: Store)
    requires Inv(s) && s.maint.Scanning? && s.maint.low.Some?
    ensures var p := s.maint.low.value.0;
            p < |s.pages| && !s.pages[p].free && Inv(SetPage(s, p, s.pages[p].(closed := true)).(maint := Idle))
  {
    hide PagesOk, ListsOk, BuffersOk, FlushOk, LogOk, Disjoint, ReadsOk;
    var p := s.maint.low.value.0;
    TouchInv(s, p, s.pages[p].(closed := true));
    ScanInv(SetPage(s, p, s.pages[p].(closed := true)), Idle);
  }

  lemma EventKeeps(s: Store, e: Event, ws: seq<Writer>)
    requires Inv(s) && Enabled(s, e) && !e.AllocateIn? && BucketsOk(s) && WritersOk(s, ws)
    ensures BucketsOk(Next(s, e)) && WritersOk(Next(s, e), ws)
  {
    hide Inv, Next, Quiet, Dropped, BucketsOk, WritersOk;
    var t := Next(s, e);
    if e.VisitPage? {
      VisitDrops(s);
      if Quiet(s, t) { QuietKeeps(s, t, ws); } else { DroppedKeeps(s, t, s.pages[s.maint.i].bucket, s.maint.i, ws); }
    } else if e.EndScan? {
      EvictDrops(s);
      if Quiet(s, t) {
        QuietKeeps(s, t, ws);
      } else {
        var b, p :| Dropped(s, t, b, p);
        DroppedKeeps(s, t, b, p, ws);
      }
    } else {
      EventQuiet(s, e);
      QuietKeeps(s, t, ws);
    }
  }

  /** A free page becomes the newest page of bucket `b`. */
  ghost predicate Added(s: Store, t: Store, b: nat, p: nat) {
    && t.conf == s.conf && |t.pages| == |s.pages| && t.nextVersion == s.nextVersion + 1
    && b < |s.buckets| && t.buckets == s.buckets[b := [p] + s.buckets[b]] && |t.freeBuckets| == |s.freeBuckets|
    && p < |s.pages| && t.pages[p].version == s.nextVersion && (forall c | 0 <= c < |s.buckets| :: p !in s.buckets[c])
    && forall q: nat | q < |s.pages| && q != p :: t.pages[q] == s.pages[q]
  }

  lemma Unlisted(s: Store, p: nat)
    requires Inv(s) && p < |s.pages| && s.pages[p].free
    ensures forall c | 0 <= c < |s.buckets| :: p !in s.buckets[c]
  {
    hide PagesOk, BuffersOk, FlushOk, LogOk, Disjoint, ReadsOk, MaintOk;
    forall c | 0 <= c < |s.buckets| ensures p !in s.buckets[c] { assert BucketOk(s, s.buckets[c], c); }
  }

  lemma AllocateAdds(s: Store, b: nat, fb: nat)
    requires Inv(s) && b < |s.buckets| && fb < |s.freeBuckets|
    ensures var t := AllocatePage(s, b, fb); t == s || exists p :: Added(s, t, b, p)
  {
    hide Inv, ListsOk;
    ListsHold(s);
    TakenPage(s, fb);
    var tmp := TakeFree(s, fb).0;
    if tmp.Some? {
      Unlisted(s, tmp.value);
      assert Added(s, AllocatePage(s, b, fb), b, tmp.value);
    }
  }

  lemma ListsHold(s: Store)
    requires Inv(s)
    ensures ListsOk(s)
  {
    hide PagesOk, BuffersOk, FlushOk, LogOk, Disjoint, ReadsOk, MaintOk;
  }

  lemma AddedBucket(s: Store, t: Store, b: nat, p: nat, c: nat)
    requires Added(s, t, b, p) && OldSpent(s, c) && MayAllocate(s, b)
    ensures OldSpent(t, c)
  {
    forall q: nat | q in t.buckets[c] && q != t.buckets[c][0] ensures Spent(t, q) {
      assert q in s.buckets[c];
      assert Spent(s, q);
    }
  }

  lemma AddedWriter(s: Store, t: Store, b: nat, p: nat, w: Writer)
    requires Added(s, t, b, p) && WriterOk(s, w)
    ensures WriterOk(t, w)
  {
    if !w.Away? {
      forall q: nat | q in t.buckets[w.b] && q < |t.pages| && t.pages[q].version < w.stamp
        ensures Spent(t, q) || (w.Found? && q == w.page)
      {
        assert q in s.buckets[w.b];
        assert Spent(s, q) || (w.Found? && q == w.page);
      }
    }
  }

  lemma AddedKeeps(s: Store, t: Store, b: nat, p: nat, ws: seq<Writer>)
    requires Added(s, t, b, p) && BucketsOk(s) && WritersOk(s, ws) && MayAllocate(s, b)
    ensures BucketsOk(t) && WritersOk(t, ws)
  {
    assert |t.buckets| == |s.buckets|;
    hide Added, OldSpent, WriterOk;
    forall c | 0 <= c < |t.buckets| ensures OldSpent(t, c) { AddedBucket(s, t, b, p, c); }
    forall i | 0 <= i < |ws| ensures WriterOk(t, ws[i]) { AddedWriter(s, t, b, p, ws[i]); }
  }

  lemma AllocateKeeps(s: Store, b: nat, fb: nat, ws: seq<Writer>)
    requires Inv(s) && Enabled(s, AllocateIn(b, fb)) && BucketsOk(s) && WritersOk(s, ws) && MayAllocate(s, b)
    ensures var t := Next(s, AllocateIn(b, fb));
            BucketsOk(t) && WritersOk(t, ws) && |t.buckets| == |s.buckets| && |t.freeBuckets| == |s.freeBuckets|
  {
    hide Inv, AllocatePage, BucketsOk, WritersOk;
    AllocateAdds(s, b, fb);
    var t := AllocatePage(s, b, fb);
    if t != s {
      var p :| Added(s, t, b, p);
      AddedKeeps(s, t, b, p, ws);
    }
  }

  // ---- Steps and runs --------------------------------------------------------------------------

  lemma LookedUpOk(s: Store, b: nat, fb: nat)
    requires Inv(s) && BucketsOk(s) && b < |s.buckets| && fb < |s.freeBuckets|
    ensures WriterOk(s, LookedUp(s, b, fb))
  {
    assert OldSpent(s, b);
    if s.buckets[b] != [] {
      hide PagesOk, BuffersOk, FlushOk, LogOk, Disjoint, ReadsOk, MaintOk;
      assert BucketOk(s, s.buckets[b], b);
      assert IsUsedPage(s, s.buckets[b][0], b);
    }
  }

  /** A page in use that extstore_write_request takes for full is spent. */
  lemma FullIsSpent(s: Store, b: nat, p: nat)
    requires Inv(s) && b < |s.buckets| && p in s.buckets[b] && p < |s.pages| && PageFull(s, s.pages[p])
    ensures Spent(s, p)
  {
    hide BuffersOk, FlushOk, LogOk, Disjoint, ReadsOk, MaintOk;
    assert BucketOk(s, s.buckets[b], b);
    assert IsUsedPage(s, p, b);
    assert PageOk(s.conf, s.nextVersion, s.pages[p]);
  }

  lemma SawFullOk(s: Store, w: Writer)
    requires Inv(s) && WriterOk(s, w) && w.Found? && PageFull(s, s.pages[w.page])
    ensures WriterOk(s, SawFull(w.b, w.fb, w.stamp))
  {
    hide Inv;
    if w.page in s.buckets[w.b] { FullIsSpent(s, w.b, w.page); }
  }

  /** Every step keeps the invariant. */
  lemma TakeOk(t: System, step: Step)
    requires Ok(t) && Possible(t, step)
    ensures Ok(Take(t, step))
  {
    hide Inv, Next, BucketsOk, WriterOk, LookedUp;
    match step
    case Lookup(i, b, fb) =>
      if t.store.buckets[b] == [] { AllocateKeeps(t.store, b, fb, t.writers); }
      LookedUpOk(Take(t, step).store, b, fb);
    case TryPage(i, data) =>
      var w := t.writers[i];
      assert WriterOk(t.store, w);
      if PageFull(t.store, t.store.pages[w.page]) {
        SawFullOk(t.store, w);
      } else {
        EventKeeps(t.store, WriteTo(w.page, data), t.writers);
        AwayOk(Take(t, step).store);
      }
    case Retry(i) =>
      AllocateKeeps(t.store, t.writers[i].b, t.writers[i].fb, t.writers);
      AwayOk(Take(t, step).store);
    case Other(e) => EventKeeps(t.store, e, t.writers);
  }

  lemma AwayOk(s: Store)
    ensures WriterOk(s, Away)
  {}

  ghost predicate Initial(t: System) {
    && (exists c, fbs, disk, wbufs :: ValidInit(c, fbs, disk, wbufs) && t.store == InitStore(c, fbs, disk, wbufs))
    && forall i | 0 <= i < |t.writers| :: t.writers[i] == Away
  }

  ghost predicate WriterRun(systems: seq<System>, steps: seq<Step>) {
    && |systems| == |steps| + 1 && Initial(systems[0])
    && forall i | 0 <= i < |steps| ::
         Inv(systems[i].store) && Possible(systems[i], steps[i]) && systems[i + 1] == Take(systems[i], steps[i])
  }

  lemma InitialOk(t: System)
    requires Initial(t)
    ensures Ok(t)
  {
    var c, fbs, disk, wbufs :| ValidInit(c, fbs, disk, wbufs) && t.store == InitStore(c, fbs, disk, wbufs);
    hide Inv;
    InitInv(c, fbs, disk, wbufs);
  }

  lemma WriterStep(systems: seq<System>, steps: seq<Step>, i: nat)
    requires WriterRun(systems, steps) && i < |steps|
    ensures |systems| == |steps| + 1
    ensures Inv(systems[i].store) && Possible(systems[i], steps[i]) && systems[i + 1] == Take(systems[i], steps[i])
  {
    hide Inv, Possible, Take;
  }

  lemma {:induction false} WriterRunOk(systems: seq<System>, steps: seq<Step>, i: nat)
    requires WriterRun(systems, steps) && i < |systems|
    ensures Ok(systems[i])
  {
    hide Inv, Possible, Take, Ok;
    if i == 0 {
      InitialOk(systems[0]);
    } else {
      WriterRunOk(systems, steps, i - 1);
      TakeOk(systems[i - 1], steps[i - 1]);
    }
  }

  /** A run can go on with every step a thread can take. */
  lemma WriterRunExtends(systems: seq<System>, steps: seq<Step>, step: Step)
    requires WriterRun(systems, steps) && Possible(systems[|systems| - 1], step)
    ensures Inv(systems[|systems| - 1].store)
    ensures WriterRun(systems + [Take(systems[|systems| - 1], step)], steps + [step])
  {
    hide Inv, Possible, Take;
    WriterRunOk(systems, steps, |systems| - 1);
  }

  /** The engine under the writers' protocol is the engine of ExtStoreRuns. */
  lemma {:induction false} WriterRunReachable(systems: seq<System>, steps: seq<Step>, i: nat)
    requires WriterRun(systems, steps) && i < |systems|
    ensures Reachable(systems[0].store, systems[i].store)
  {
    hide Inv, Possible, Take, Reachable;
    if i == 0 {
      var s := systems[0].store;
      var c, fbs, disk, wbufs :| ValidInit(c, fbs, disk, wbufs) && s == InitStore(c, fbs, disk, wbufs);
      ReachableStart(c, fbs, disk, wbufs);
    } else {
      WriterRunReachable(systems, steps, i - 1);
      WriterStep(systems, steps, i - 1);
      TakeReachable(systems[0].store, systems[i - 1], steps[i - 1]);
    }
  }

  lemma TakeReachable(s0: Store, t: System, step: Step)
    requires Inv(t.store) && Possible(t, step) && Reachable(s0, t.store)
    ensures Reachable(s0, Take(t, step).store)
  {
    hide Inv, Next, Reachable;
    match step
    case Lookup(i, b, fb) => if t.store.buckets[b] == [] { ReachableNext(s0, t.store, AllocateIn(b, fb)); }
    case TryPage(i, data) =>
      var p := t.writers[i].page;
      if !PageFull(t.store, t.store.pages[p]) { ReachableNext(s0, t.store, WriteTo(p, data)); }
    case Retry(i) => ReachableNext(s0, t.store, AllocateIn(t.writers[i].b, t.writers[i].fb));
    case Other(e) => ReachableNext(s0, t.store, e);
  }

  /** With any number of writers, in every run: when the assertion fails for a writer
      that found its page full, the page it fails on was given to the bucket after this
      writer's lookup. */
  lemma FailingPageIsNew(systems: seq<System>, steps: seq<Step>, k: nat, i: nat)
    requires WriterRun(systems, steps) && k < |systems| && i < |systems[k].writers| && systems[k].writers[i].SawFull?
    ensures var s, w := systems[k].store, systems[k].writers[i];
            && w.b < |s.buckets|
            && (!MayAllocate(s, w.b) ==>
                  s.buckets[w.b] != [] && s.buckets[w.b][0] < |s.pages| &&
                    s.pages[s.buckets[w.b][0]].version >= w.stamp)
  {
    hide WriterRun;
    WriterRunOk(systems, steps, k);
    var s, w := systems[k].store, systems[k].writers[i];
    hide Inv;
    assert WriterOk(s, w);
    if s.buckets[w.b] != [] { NewestPage(s, w.b); }
  }

  lemma NewestPage(s: Store, b: nat)
    requires Inv(s) && b < |s.buckets| && s.buckets[b] != []
    ensures var p := s.buckets[b][0]; p < |s.pages| && s.pages[p].reserved <= s.conf.pageSize
  {
    hide BuffersOk, FlushOk, LogOk, Disjoint, ReadsOk, MaintOk;
    assert BucketOk(s, s.buckets[b], b);
    assert IsUsedPage(s, s.buckets[b][0], b);
    assert PageOk(s.conf, s.nextVersion, s.pages[s.buckets[b][0]]);
  }

  // ---- One writer for each bucket ----------------------------------------------------------------

  /** No two threads are writing to the same bucket. */
  ghost predicate Alone(t: System) {
    forall i, j | 0 <= i < j < |t.writers| && !t.writers[i].Away? && !t.writers[j].Away? ::
      t.writers[i].b != t.writers[j].b
  }

  /** The bucket has got no page since the writer's lookup. */
  ghost predicate Unraced(s: Store, w: Writer) {
    !w.Away? ==> w.b < |s.buckets| && forall q: nat | q in s.buckets[w.b] && q < |s.pages| ::
      s.pages[q].version < w.stamp
  }

  ghost predicate AllUnraced(t: System) {
    forall i | 0 <= i < |t.writers| :: Unraced(t.store, t.writers[i])
  }

  lemma EventUnraced(s: Store, e: Event, w: Writer)
    requires Inv(s) && Enabled(s, e) && !e.AllocateIn? && Unraced(s, w)
    ensures Unraced(Next(s, e), w)
  {
    hide Inv, Next, Unraced;
    var t := Next(s, e);
    if e.VisitPage? {
      VisitDrops(s);
      if Quiet(s, t) { QuietUnraced(s, t, w); } else { DroppedUnraced(s, t, s.pages[s.maint.i].bucket, s.maint.i, w); }
    } else if e.EndScan? {
      EvictDrops(s);
      if Quiet(s, t) {
        QuietUnraced(s, t, w);
      } else {
        var b, p :| Dropped(s, t, b, p);
        DroppedUnraced(s, t, b, p, w);
      }
    } else {
      EventQuiet(s, e);
      QuietUnraced(s, t, w);
    }
  }

  lemma QuietUnraced(s: Store, t: Store, w: Writer)
    requires Quiet(s, t) && Unraced(s, w)
    ensures Unraced(t, w)
  {}

  lemma DroppedUnraced(s: Store, t: Store, b: nat, p: nat, w: Writer)
    requires Dropped(s, t, b, p) && Unraced(s, w)
    ensures Unraced(t, w)
  {
    hide Remove;
    if !w.Away? {
      forall q: nat | q in t.buckets[w.b] && q < |t.pages| ensures t.pages[q].version < w.stamp {
        if w.b == b { RemoveMembers(s.buckets[b], p, q); }
        assert q in s.buckets[w.b];
      }
    }
  }

  lemma AllocateUnraced(s: Store, b: nat, fb: nat, w: Writer)
    requires Inv(s) && Enabled(s, AllocateIn(b, fb)) && Unraced(s, w)
    ensures var t := Next(s, AllocateIn(b, fb));
            && b < |t.buckets|
            && ((!w.Away? && w.b == b && t.buckets[b] != s.buckets[b]) || Unraced(t, w))
  {
    hide Inv, AllocatePage;
    AllocateAdds(s, b, fb);
    var t := AllocatePage(s, b, fb);
    if t != s && !w.Away? && w.b != b {
      var p :| Added(s, t, b, p);
      forall q: nat | q in t.buckets[w.b] && q < |t.pages| ensures t.pages[q].version < w.stamp {
        assert q in s.buckets[w.b];
      }
    }
  }

  lemma LookedUpUnraced(s: Store, b: nat, fb: nat)
    requires Inv(s)
    ensures Unraced(s, LookedUp(s, b, fb))
  {
    hide BuffersOk, FlushOk, LogOk, Disjoint, ReadsOk, MaintOk;
    if b < |s.buckets| && s.buckets[b] != [] {
      forall q: nat | q in s.buckets[b] && q < |s.pages| ensures s.pages[q].version < s.nextVersion {
        assert BucketOk(s, s.buckets[b], b);
        assert IsUsedPage(s, q, b);
        assert PageOk(s.conf, s.nextVersion, s.pages[q]);
      }
    }
  }

  lemma LookupUnraced(t: System, i: nat, b: nat, fb: nat, j: nat)
    requires Inv(t.store) && Possible(t, Lookup(i, b, fb)) && AllUnraced(t) && j < |t.writers|
    requires Alone(Take(t, Lookup(i, b, fb)))
    ensures var u := Take(t, Lookup(i, b, fb)); Unraced(u.store, u.writers[j])
  {
    hide Inv, Next;
    var u := Take(t, Lookup(i, b, fb));
    if j == i {
      LookedUpUnraced(u.store, b, fb);
    } else if t.store.buckets[b] == [] {
      assert Unraced(t.store, t.writers[j]);
      AllocateUnraced(t.store, b, fb, t.writers[j]);
      assert u.writers[j] == t.writers[j] && u.writers[i] == LookedUp(u.store, b, fb);
    } else {
      assert Unraced(t.store, t.writers[j]);
    }
  }

  lemma RetryUnraced(t: System, i: nat, j: nat)
    requires Inv(t.store) && Possible(t, Retry(i)) && AllUnraced(t) && j < |t.writers| && Alone(t)
    ensures var u := Take(t, Retry(i)); Unraced(u.store, u.writers[j])
  {
    hide Inv, Next;
    if j != i {
      assert Unraced(t.store, t.writers[j]);
      AllocateUnraced(t.store, t.writers[i].b, t.writers[i].fb, t.writers[j]);
    }
  }

  lemma TakeUnraced(t: System, step: Step)
    requires Inv(t.store) && Possible(t, step) && AllUnraced(t) && Alone(t) && Alone(Take(t, step))
    ensures AllUnraced(Take(t, step))
  {
    hide Inv, Next, Unraced, Alone;
    var u := Take(t, step);
    forall j | 0 <= j < |u.writers| ensures Unraced(u.store, u.writers[j]) {
      assert Unraced(t.store, t.writers[j]);
      match step
      case Lookup(i, b, fb) => LookupUnraced(t, i, b, fb, j);
      case TryPage(i, data) => TryUnraced(t, i, data, j);
      case Retry(i) => RetryUnraced(t, i, j);
      case Other(e) => EventUnraced(t.store, e, t.writers[j]);
    }
  }

  lemma TryUnraced(t: System, i: nat, data: seq<Byte>, j: nat)
    requires Inv(t.store) && Possible(t, TryPage(i, data)) && j < |t.writers| && AllUnraced(t)
    ensures var u := Take(t, TryPage(i, data)); Unraced(u.store, u.writers[j])
  {
    hide Inv, Next;
    var w := t.writers[i];
    assert Unraced(t.store, t.writers[j]) && Unraced(t.store, w);
    if !PageFull(t.store, t.store.pages[w.page]) {
      EventUnraced(t.store, WriteTo(w.page, data), t.writers[j]);
    }
  }

  lemma {:induction false} RunUnraced(systems: seq<System>, steps: seq<Step>, k: nat)
    requires WriterRun(systems, steps) && k < |systems| && forall j | 0 <= j <= k :: Alone(systems[j])
    ensures AllUnraced(systems[k])
  {
    hide Inv, Possible, Take, Alone;
    if k > 0 {
      RunUnraced(systems, steps, k - 1);
      WriterStep(systems, steps, k - 1);
      TakeUnraced(systems[k - 1], steps[k - 1]);
    }
  }

  /** As long as no two threads write to the same bucket, the assertion holds. */
  lemma OneWriterEach(systems: seq<System>, steps: seq<Step>, k: nat, i: nat)
    requires WriterRun(systems, steps) && k < |systems| && i < |systems[k].writers| && systems[k].writers[i].SawFull?
    requires forall j | 0 <= j <= k :: Alone(systems[j])
    ensures systems[k].writers[i].b < |systems[k].store.buckets|
    ensures MayAllocate(systems[k].store, systems[k].writers[i].b)
  {
    hide WriterRun, Alone;
    FailingPageIsNew(systems, steps, k, i);
    RunUnraced(systems, steps, k);
    assert Unraced(systems[k].store, systems[k].writers[i]);
  }
}

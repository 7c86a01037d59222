/** When the assertion at the head of _allocate_page can fail: over all runs, from the
    configuration and from which buckets each thread writes to.
 */
module ExtStoreRaces {
  import opened ByteStrings
  import opened ExtStoreInv
  import opened ExtStoreRuns
  import opened ExtStoreSpec
  import opened ExtStoreWriters
  import opened Options
  import opened Sequences

  /** How the engine is started, and the buckets each writing thread uses. */
  datatype Setup = Setup(c: Conf, fbs: seq<nat>, disk: seq<seq<Byte>>, wbufs: seq<seq<Byte>>, uses: seq<set<nat>>)

  ghost predicate ValidSetup(u: Setup) { ValidInit(u.c, u.fbs, u.disk, u.wbufs) }

  function NoneWriting(n: nat): seq<Writer> { seq(n, _ => Away) }

  ghost function Started(u: Setup): System
    requires ValidSetup(u)
  {
    System(InitStore(u.c, u.fbs, u.disk, u.wbufs), NoneWriting(|u.uses|))
  }

  /** A thread only writes to the buckets it uses. */
  ghost predicate Follows(u: Setup, step: Step) {
    step.Lookup? ==> step.i < |u.uses| && step.b in u.uses[step.i]
  }

  ghost predicate Allowed(u: Setup, systems: seq<System>, steps: seq<Step>) {
    && ValidSetup(u) && WriterRun(systems, steps) && systems[0] == Started(u)
    && forall k | 0 <= k < |steps| :: Follows(u, steps[k])
  }

  ghost predicate Reached(u: Setup, t: System) {
    exists systems, steps :: Allowed(u, systems, steps) && systems[|systems| - 1] == t
  }

  /** The assertion fails for writer `i`. */
  ghost predicate Stuck(t: System, i: nat) {
    && i < |t.writers| && t.writers[i].SawFull? && t.writers[i].b < |t.store.buckets|
    && !MayAllocate(t.store, t.writers[i].b)
  }

  /** Some run ends in the failed assertion. */
  ghost predicate CanFail(u: Setup) {
    exists t: System, i: nat :: Reached(u, t) && Stuck(t, i)
  }

  /** Two threads use one bucket. */
  ghost predicate Shares(u: Setup, i: nat, j: nat, b: nat) {
    i < |u.uses| && j < |u.uses| && i != j && b < u.c.bucketCount && b in u.uses[i] && b in u.uses[j]
  }

  ghost predicate SomeShared(u: Setup) { exists i: nat, j: nat, b: nat :: Shares(u, i, j, b) }

  lemma ReachedStart(u: Setup)
    requires ValidSetup(u)
    ensures Reached(u, Started(u))
  {
    hide InitStore, ValidInit;
    var systems, steps: seq<Step> := [Started(u)], [];
    assert Initial(Started(u));
    assert WriterRun(systems, steps);
    assert Allowed(u, systems, steps);
  }

  lemma ReachedTake(u: Setup, t: System, step: Step)
    requires Reached(u, t) && Possible(t, step) && Follows(u, step)
    ensures Inv(t.store) && Reached(u, Take(t, step))
  {
    hide Inv, Possible, Take, Initial, InitStore, ValidInit;
    var systems, steps :| Allowed(u, systems, steps) && systems[|systems| - 1] == t;
    WriterRunExtends(systems, steps, step);
    var more, es := systems + [Take(t, step)], steps + [step];
    assert more[0] == systems[0] && more[|more| - 1] == Take(t, step);
    assert Allowed(u, more, es);
  }

  // ---- A run that fails -----------------------------------------------------------------------------

  /** Page 1 is the only page of bucket `b`, open, and nobody refers to it. */
  ghost predicate Holding(s: Store, b: nat) {
    && b < |s.buckets| && s.buckets[b] == [1] && 1 < |s.pages| && s.maint == Idle
    && s.pages[1].bucket == b && !s.pages[1].free && !s.pages[1].closed && s.pages[1].refcount == 0
    && s.pages[1].freeBucket < |s.freeBuckets|
  }

  ghost predicate Ready(u: Setup, t: System, b: nat) {
    && Reached(u, t) && t.writers == NoneWriting(|u.uses|) && t.store.conf == u.c && Holding(t.store, b)
  }

  /** The buffer of page 1 is used up but not submitted. */
  predicate Filled(pg: Page) {
    pg.active && pg.wbuf.Some? && pg.wbuf.value.free == 0 && !pg.wbuf.value.full
  }

  /** Page 1 has no buffer, and one can be had. */
  predicate Flushed(s: Store, pg: Page) {
    pg.wbuf.None? && s.wbufs != [] && pg.active == (pg.written != s.conf.pageSize)
  }

  /** One write request to page 1, from the lookup to the copy. */
  lemma WriteOnce(u: Setup, t: System, b: nat, i: nat, data: seq<Byte>) returns (t': System)
    requires Ready(u, t, b) && i < |u.uses| && b in u.uses[i] && !PageFull(t.store, t.store.pages[1])
    ensures Inv(t.store) && Reached(u, t') && t' == System(WriteStep(t.store, 1, data), t.writers)
  {
    hide Reached, Inv, WriteStep;
    ReachedTake(u, t, Lookup(i, b, t.store.pages[1].freeBucket));
    var t1 := Take(t, Lookup(i, b, t.store.pages[1].freeBucket));
    ReachedTake(u, t1, TryPage(i, data));
    t' := Take(t1, TryPage(i, data));
    assert t'.writers == t.writers;
  }

  /** A byte more does not fit: the buffer is submitted. */
  lemma SubmitsFilled(s: Store, b: nat)
    requires Inv(s) && Holding(s, b) && Filled(s.pages[1])
    ensures var t := WriteStep(s, 1, [0]);
      && Holding(t, b) && t.conf == s.conf && 1 in t.flushes && !t.flushes[1]
      && t.pages[1].written == s.pages[1].written && t.pages[1].active
  {
    hide Inv;
    SubmitInv(s, 1, 1);
  }

  lemma TransfersFilled(s: Store, b: nat)
    requires Inv(s) && Holding(s, b) && 1 in s.flushes && !s.flushes[1] && s.pages[1].active
    ensures var t := Next(s, FlushTransfer(1));
      && Inv(t) && Holding(t, b) && t.conf == s.conf && 1 in t.flushes && t.flushes[1] && t.pages == s.pages
  {
    hide Inv;
    PwriteInv(s, 1);
  }

  lemma FlushesFilled(s: Store, b: nat)
    requires Inv(s) && Holding(s, b) && 1 in s.flushes && s.flushes[1] && s.pages[1].active
    ensures var t := Next(s, FlushCallback(1));
      && Holding(t, b) && t.conf == s.conf && Flushed(t, t.pages[1])
      && t.pages[1].written == s.pages[1].written + s.conf.wbufSize
  {
    hide Inv;
    FlushDoneInv(s, 1);
    BufferSize(s, 1);
  }

  lemma BufferSize(s: Store, p: nat)
    requires Inv(s) && p < |s.pages| && s.pages[p].wbuf.Some?
    ensures |s.pages[p].wbuf.value.data| == s.conf.wbufSize
  {
    hide ListsOk, BuffersOk, FlushOk, LogOk, Disjoint, ReadsOk, MaintOk;
    assert PageOk(s.conf, s.nextVersion, s.pages[p]);
  }

  /** A buffer's worth of bytes goes into a new buffer and fills it. */
  lemma FillsNext(s: Store, b: nat)
    requires Inv(s) && Holding(s, b) && Flushed(s, s.pages[1]) && s.pages[1].active
    ensures !PageFull(s, s.pages[1]) && s.pages[1].written < s.conf.pageSize
    ensures var t := WriteStep(s, 1, Zeros(s.conf.wbufSize));
      && Holding(t, b) && t.conf == s.conf && Filled(t.pages[1]) && t.pages[1].written == s.pages[1].written
  {
    hide Inv;
    NewBuffer(s, 1);
  }

  lemma NewBuffer(s: Store, p: nat)
    requires Inv(s) && p < |s.pages| && s.pages[p].wbuf.None? && s.wbufs != []
    ensures s.pages[p].reserved == s.pages[p].written <= s.conf.pageSize && |s.wbufs[0]| == s.conf.wbufSize
  {
    hide ListsOk, FlushOk, LogOk, Disjoint, ReadsOk, MaintOk;
    assert PageOk(s.conf, s.nextVersion, s.pages[p]);
    FirstWbuf(s);
  }

  /** From a filled buffer on, buffer after buffer, until the page is spent and closed to writes. */
  lemma {:induction false} FillPage(u: Setup, t: System, b: nat, i: nat) returns (t': System)
    requires Ready(u, t, b) && i < |u.uses| && b in u.uses[i] && Filled(t.store.pages[1])
    ensures Ready(u, t', b) && !t'.store.pages[1].active
    decreases u.c.pageSize - t.store.pages[1].written
  {
    hide Reached, Inv, WriteStep, Next, Flushed, Filled;
    var t1 := FlushPage(u, t, b, i);
    if t1.store.pages[1].active {
      ReachedInv(u, t1);
      FillsNext(t1.store, b);
      var t2 := WriteOnce(u, t1, b, i, Zeros(u.c.wbufSize));
      SizePositive(u, t1);
      t' := FillPage(u, t2, b, i);
    } else {
      t' := t1;
    }
  }

  lemma SizePositive(u: Setup, t: System)
    requires Reached(u, t)
    ensures u.c.wbufSize > 0
  {
    hide Inv, Take, Possible, Initial, Started, Follows;
    var systems, steps :| Allowed(u, systems, steps) && systems[|systems| - 1] == t;
  }

  lemma ReachedInv(u: Setup, t: System)
    requires Reached(u, t)
    ensures Inv(t.store)
  {
    hide Inv, Take, Possible, Initial, Started, Follows;
    var systems, steps :| Allowed(u, systems, steps) && systems[|systems| - 1] == t;
    WriterRunOk(systems, steps, |systems| - 1);
  }

  /** The filled buffer is submitted, transferred and given back. */
  lemma FlushPage(u: Setup, t: System, b: nat, i: nat) returns (t': System)
    requires Ready(u, t, b) && i < |u.uses| && b in u.uses[i] && Filled(t.store.pages[1])
    ensures Ready(u, t', b) && Flushed(t'.store, t'.store.pages[1])
    ensures t'.store.pages[1].written == t.store.pages[1].written + u.c.wbufSize
  {
    hide Reached, Inv, WriteStep, Next;
    ReachedInv(u, t);
    SubmitsFilled(t.store, b);
    var t1 := WriteOnce(u, t, b, i, [0]);
    ReachedTake(u, t1, Other(FlushTransfer(1)));
    TransfersFilled(t1.store, b);
    var t2 := Take(t1, Other(FlushTransfer(1)));
    ReachedTake(u, t2, Other(FlushCallback(1)));
    FlushesFilled(t2.store, b);
    t' := Take(t2, Other(FlushCallback(1)));
  }

  /** What the engine starts with, as far as page 1 is concerned. */
  lemma StartFacts(u: Setup)
    requires ValidSetup(u) && u.c.pageCount >= 2
    ensures |u.fbs| > 1
    ensures var s, fb := Started(u).store, u.fbs[1];
      && s.conf == u.c && s.wbufs != [] && s.maint == Idle && s.pageFree > 0
      && |s.pages| > 1 && s.pages[1] == FreshPage(fb) && fb < |s.freeBuckets| && |s.buckets| == u.c.bucketCount
      && TakeFree(s, fb).0 == Some(1) && forall b | 0 <= b < |s.buckets| :: s.buckets[b] == []
  {
    FirstFree(u.c, u.fbs, u.disk, u.wbufs);
  }

  /** The page goes to the bucket. */
  lemma GivesPage(s: Store, b: nat, fb: nat)
    requires fb < |s.freeBuckets| && b < |s.buckets| && s.buckets[b] == [] && TakeFree(s, fb).0 == Some(1)
    requires |s.pages| > 1 && s.pageFree > 0 && !s.pages[1].closed
    ensures var t := AllocatePage(s, b, fb);
      && t.conf == s.conf && t.wbufs == s.wbufs && t.maint == s.maint && |t.freeBuckets| == |s.freeBuckets|
      && |t.buckets| == |s.buckets| && t.buckets[b] == [1] && |t.pages| == |s.pages|
      && t.pages[1] == s.pages[1].(active := true, free := false, version := s.nextVersion, bucket := b)
  {
    assert AllocatePage(s, b, fb).buckets[b] == [1] + s.buckets[b] == [1];
  }

  /** The first write request: page 1 is given to the bucket and its first buffer filled. */
  lemma FirstFill(u: Setup, b: nat, i: nat) returns (t: System)
    requires ValidSetup(u) && u.c.pageCount >= 2 && u.c.pageSize > 0 && b < u.c.bucketCount
    requires i < |u.uses| && b in u.uses[i]
    ensures Ready(u, t, b) && Filled(t.store.pages[1])
  {
    hide Reached, Inv, InitStore, ValidInit, AllocatePage, TakeFree, WriteStep;
    var t0 := Started(u);
    ReachedStart(u);
    StartFacts(u);
    var fb := u.fbs[1];
    ReachedTake(u, t0, Lookup(i, b, fb));
    GivesPage(t0.store, b, fb);
    var t1 := Take(t0, Lookup(i, b, fb));
    ReachedInv(u, t1);
    FillsNext(t1.store, b);
    ReachedTake(u, t1, TryPage(i, Zeros(u.c.wbufSize)));
    t := Take(t1, TryPage(i, Zeros(u.c.wbufSize)));
    assert t.writers == NoneWriting(|u.uses|);
  }

  /** Writer `i` finds the spent page full. */
  lemma FindsFull(u: Setup, t: System, b: nat, i: nat) returns (t': System)
    requires Ready(u, t, b) && !t.store.pages[1].active && i < |u.uses| && b in u.uses[i]
    ensures Reached(u, t') && t'.store == t.store && |t'.writers| == |u.uses| && t'.writers[i].SawFull?
    ensures t'.writers[i].b == b && forall j | 0 <= j < |u.uses| && j != i :: t'.writers[j] == Away
  {
    hide Reached, Inv;
    var fb := t.store.pages[1].freeBucket;
    ReachedTake(u, t, Lookup(i, b, fb));
    var t1 := Take(t, Lookup(i, b, fb));
    ReachedTake(u, t1, TryPage(i, []));
    t' := Take(t1, TryPage(i, []));
  }

  /** Meanwhile the page is closed and freed. */
  lemma FreesPage(u: Setup, t: System, b: nat) returns (t': System)
    requires Reached(u, t) && Holding(t.store, b) && !t.store.pages[1].active && t.store.pages[0].free
    ensures Reached(u, t') && t'.writers == t.writers && t'.store.conf == t.store.conf
    ensures b < |t'.store.buckets| && t'.store.buckets[b] == [] && 1 < |t'.store.pages| && t'.store.pageFree > 0
    ensures t'.store.pages[1].reserved == 0 && !t'.store.pages[1].closed
    ensures t'.store.pages[1].freeBucket < |t'.store.freeBuckets|
    ensures TakeFree(t'.store, t'.store.pages[1].freeBucket).0 == Some(1)
  {
    hide Reached, Inv;
    ReachedTake(u, t, Other(CloseOf(1, t.store.pages[1].version)));
    var t1 := Take(t, Other(CloseOf(1, t.store.pages[1].version)));
    ReachedTake(u, t1, Other(BeginScan));
    var t2 := Take(t1, Other(BeginScan));
    ReachedTake(u, t2, Other(VisitPage));
    MaintVisitInv(t2.store);
    var t3 := Take(t2, Other(VisitPage));
    assert t3.store.pages == t1.store.pages && t3.store.maint.i == 1 && t3.store.buckets == t.store.buckets;
    ReachedTake(u, t3, Other(VisitPage));
    MaintVisitInv(t3.store);
    t' := Take(t3, Other(VisitPage));
    assert t'.store == FreePage(t3.store, 1).(maint := t'.store.maint);
    assert Remove([1], 1) == [];
  }

  /** In every accepted configuration with a page to write on, two threads that use one
      bucket have a run that ends in the failed assertion: one finds the page full, the
      page is closed and freed, and the other takes it into the bucket again. */
  lemma SharedBucketFails(u: Setup, i: nat, j: nat, b: nat)
    requires ValidSetup(u) && u.c.pageCount >= 2 && u.c.pageSize > 0 && Shares(u, i, j, b)
    ensures CanFail(u)
  {
    hide Reached, Inv, ValidInit, AllocatePage, TakeFree;
    var t0 := FirstFill(u, b, i);
    var t1 := FillPage(u, t0, b, i);
    var t2 := FindsFull(u, t1, b, i);
    ReachedInv(u, t2);
    PageZero(t2.store);
    var t3 := FreesPage(u, t2, b);
    ReachedInv(u, t3);
    var fb := t3.store.pages[1].freeBucket;
    ReachedTake(u, t3, Lookup(j, b, fb));
    GivesPage(t3.store, b, fb);
    var t := Take(t3, Lookup(j, b, fb));
    assert Stuck(t, i);
  }

  lemma PageZero(s: Store)
    requires Inv(s) && |s.pages| > 0
    ensures s.pages[0].free
  {
    hide PagesOk, BuffersOk, FlushOk, LogOk, Disjoint, ReadsOk, MaintOk;
  }

  // ---- Runs that cannot fail ---------------------------------------------------------------------------

  /** A writing thread writes to a bucket it uses. */
  ghost predicate KeepsTo(u: Setup, t: System) {
    |t.writers| == |u.uses| && forall i | 0 <= i < |t.writers| && !t.writers[i].Away? :: t.writers[i].b in u.uses[i]
  }

  lemma TakeKeepsTo(u: Setup, t: System, step: Step)
    requires Inv(t.store) && Possible(t, step) && Follows(u, step) && KeepsTo(u, t)
    ensures KeepsTo(u, Take(t, step))
  {
    hide Inv, Next;
  }

  lemma {:induction false} RunKeepsTo(u: Setup, systems: seq<System>, steps: seq<Step>, k: nat)
    requires Allowed(u, systems, steps) && k < |systems|
    ensures KeepsTo(u, systems[k])
  {
    hide Inv, Possible, Take, Follows, Initial, InitStore, ValidInit;
    if k > 0 {
      RunKeepsTo(u, systems, steps, k - 1);
      WriterStep(systems, steps, k - 1);
      TakeKeepsTo(u, systems[k - 1], steps[k - 1]);
    }
  }

  lemma TakeConf(t: System, step: Step)
    requires Inv(t.store) && Possible(t, step)
    ensures Take(t, step).store.conf == t.store.conf
  {
    hide Inv, Next;
    match step
    case Lookup(i, b, fb) => if t.store.buckets[b] == [] { ConfStep(t.store, AllocateIn(b, fb)); }
    case TryPage(i, data) =>
      var p := t.writers[i].page;
      if !PageFull(t.store, t.store.pages[p]) { ConfStep(t.store, WriteTo(p, data)); }
    case Retry(i) => ConfStep(t.store, AllocateIn(t.writers[i].b, t.writers[i].fb));
    case Other(e) => ConfStep(t.store, e);
  }

  lemma {:induction false} RunConf(u: Setup, systems: seq<System>, steps: seq<Step>, k: nat)
    requires Allowed(u, systems, steps) && k < |systems|
    ensures systems[k].store.conf == u.c
  {
    hide Inv, Possible, Take, Follows, Initial, InitStore, ValidInit;
    if k == 0 {
      StartConf(u);
    } else {
      RunConf(u, systems, steps, k - 1);
      WriterStep(systems, steps, k - 1);
      TakeConf(systems[k - 1], steps[k - 1]);
    }
  }

  lemma StartConf(u: Setup)
    requires ValidSetup(u)
    ensures Started(u).store.conf == u.c
  {}

  /** Without a page to write on, no page of a bucket has room. */
  lemma NoSpaceHolds(s: Store, b: nat)
    requires Inv(s) && b < |s.buckets| && NoSpace(s.conf)
    ensures MayAllocate(s, b)
  {
    if s.buckets[b] != [] {
      NewestPage(s, b);
      hide BuffersOk, FlushOk, LogOk, Disjoint, ReadsOk, MaintOk;
      assert BucketOk(s, s.buckets[b], b);
      assert IsUsedPage(s, s.buckets[b][0], b);
    }
  }

  lemma AllAlone(u: Setup, systems: seq<System>, steps: seq<Step>, k: nat)
    requires Allowed(u, systems, steps) && k < |systems|
    requires !SomeShared(u)
    ensures Alone(systems[k])
  {
    hide WriterRun;
    RunKeepsTo(u, systems, steps, k);
    RunConf(u, systems, steps, k);
    WriterRunOk(systems, steps, k);
    var t := systems[k];
    forall i, j | 0 <= i < j < |t.writers| && !t.writers[i].Away? && !t.writers[j].Away?
      ensures t.writers[i].b != t.writers[j].b
    {
      InBuckets(t, i);
      assert !Shares(u, i, j, t.writers[i].b);
    }
  }

  lemma InBuckets(t: System, i: nat)
    requires Ok(t) && i < |t.writers| && !t.writers[i].Away?
    ensures t.writers[i].b < t.store.conf.bucketCount
  {
    hide PagesOk, BuffersOk, FlushOk, LogOk, Disjoint, ReadsOk, MaintOk;
    assert WriterOk(t.store, t.writers[i]);
  }

  /** Over all runs: the assertion can fail exactly if two threads use one bucket, there
      is a page besides page 0, and pages have space. */
  lemma CanFailExactly(u: Setup)
    requires ValidSetup(u)
    ensures CanFail(u) <==> u.c.pageCount >= 2 && u.c.pageSize > 0 && SomeShared(u)
  {
    hide Reached, Stuck, Inv, ValidInit;
    if CanFail(u) {
      var t: System, k: nat :| Reached(u, t) && Stuck(t, k);
      FailedNeeds(u, t, k);
    } else if u.c.pageCount >= 2 && u.c.pageSize > 0 && SomeShared(u) {
      var i: nat, j: nat, b: nat :| Shares(u, i, j, b);
      SharedBucketFails(u, i, j, b);
    }
  }

  lemma FailedNeeds(u: Setup, t: System, k: nat)
    requires Reached(u, t) && Stuck(t, k)
    ensures !NoSpace(u.c) && SomeShared(u)
  {
    var systems, steps :| Allowed(u, systems, steps) && systems[|systems| - 1] == t;
    hide WriterRun, Inv, Alone, InitStore, ValidInit;
    var n := |systems| - 1;
    RunConf(u, systems, steps, n);
    ReachedInv(u, t);
    if NoSpace(u.c) { NoSpaceHolds(t.store, t.writers[k].b); }
    if !SomeShared(u) {
      forall m | 0 <= m <= n ensures Alone(systems[m]) { AllAlone(u, systems, steps, m); }
      OneWriterEach(systems, steps, n, k);
    }
  }
}

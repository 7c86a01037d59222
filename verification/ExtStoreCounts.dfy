/** The counts of objects and bytes on a page, and when a page goes away: over
    whole runs of the engine, in terms of its writes, deletes and closes.
 */
module ExtStoreCounts {
  import opened ByteStrings
  import opened ExtStoreInv
  import opened ExtStoreRuns
  import opened ExtStoreSpec
  import opened Options
  import opened Sequences

  // ---- What a step does to a page ------------------------------------------------------------

  /** The step records a write on the page. */
  ghost predicate Wrote(s: Store, t: Store, p: nat) {
    |t.log| > |s.log| && t.log[|s.log|].page == p
  }

  /** The step deletes from the page in its present version. */
  predicate Deletes(s: Store, e: Event, p: nat) {
    e.DeleteFrom? && e.p == p < |s.pages| && e.version == s.pages[p].version && !s.pages[p].closed
  }

  /** The step evicts the page. */
  predicate Evicts(s: Store, e: Event, p: nat) {
    e.EndScan? && s.maint.Scanning? && s.maint.doEvict && s.maint.low.Some? && s.maint.low.value.0 == p
  }

  predicate Closes(s: Store, e: Event, p: nat) {
    p < |s.pages| && (e == CloseOf(p, s.pages[p].version) || Evicts(s, e, p))
  }

  /** The maintenance scan visits the page and can free it. */
  predicate Reclaims(s: Store, e: Event, p: nat) {
    e.VisitPage? && s.maint.Scanning? && s.maint.i == p < |s.pages| && Reclaimable(s.pages[p])
  }

  function Minus(a: nat, b: nat): nat { if a >= b then a - b else 0 }

  ghost predicate SameCounts(pg: Page, qg: Page) {
    qg.objCount == pg.objCount && qg.bytesUsed == pg.bytesUsed
  }

  ghost predicate SameUse(pg: Page, qg: Page) {
    qg.version == pg.version && qg.free == pg.free
  }

  /** A page that was freed, and one that was free and is given out. */
  ghost predicate Freed(qg: Page) {
    qg.free && qg.version == 0 && qg.objCount == 0 && qg.bytesUsed == 0
  }

  ghost predicate GivenOut(s: Store, pg: Page, qg: Page) {
    pg.free && !qg.free && !qg.closed && qg.version == s.nextVersion && SameCounts(pg, qg)
  }

  ghost predicate PageStep(s: Store, e: Event, t: Store, p: nat) {
    && p < |s.pages| == |t.pages| && t.nextVersion >= s.nextVersion && |t.log| >= |s.log|
    && var pg, qg := s.pages[p], t.pages[p];
    if Wrote(s, t, p) then
      && e.WriteTo? && SameUse(pg, qg) && t.log[|s.log|].version == pg.version && !pg.free && qg.closed == pg.closed
      && qg.objCount == pg.objCount + 1 && qg.bytesUsed == pg.bytesUsed + |t.log[|s.log|].data|
    else if Deletes(s, e, p) then
      && SameUse(pg, qg) && qg.closed == pg.closed
      && qg.objCount == Minus(pg.objCount, e.count) && qg.bytesUsed == Minus(pg.bytesUsed, e.bytes)
    else
      || (SameCounts(pg, qg) && SameUse(pg, qg) && qg.closed == (pg.closed || Closes(s, e, p)))
      || (!pg.free && Freed(qg) && (Evicts(s, e, p) || Reclaims(s, e, p)))
      || (GivenOut(s, pg, qg) && t.nextVersion == s.nextVersion + 1)
  }

  lemma WriteCounts(s: Store, q: nat, data: seq<Byte>, p: nat)
    requires Inv(s) && q < |s.pages| && p < |s.pages|
    ensures PageStep(s, WriteTo(q, data), WriteStep(s, q, data), p)
  {
    hide ListsOk, BuffersOk, FlushOk, LogOk, Disjoint, ReadsOk, MaintOk;
    assert PageOk(s.conf, s.nextVersion, s.pages[q]);
  }

  lemma IoCounts(s: Store, e: Event, p: nat)
    requires Inv(s) && Enabled(s, e) && p < |s.pages|
    requires e.FlushTransfer? || e.FlushCallback? || e.BeginRead? || e.TransferRead? || e.EndRead?
    ensures PageStep(s, e, Next(s, e), p)
  {
    hide Inv;
    match e
    case FlushTransfer(q) => PwriteInv(s, q);
    case FlushCallback(q) => FlushDoneInv(s, q);
    case BeginRead(w) => ReadStartInv(s, w);
    case TransferRead(i) => PreadInv(s, i);
    case EndRead(i) => ReadEndInv(s, i);
  }

  lemma MaintCounts(s: Store, e: Event, p: nat)
    requires Inv(s) && Enabled(s, e) && p < |s.pages|
    requires e.BeginScan? || e.VisitPage? || e.EndScan?
    ensures PageStep(s, e, Next(s, e), p)
  {
    hide Inv;
    match e
    case BeginScan =>
    case VisitPage => MaintVisitInv(s);
    case EndScan =>
      if s.maint.low.Some? { VictimInUse(s); }
      MaintEvictInv(s);
  }

  lemma AnyPageStep(s: Store, e: Event, p: nat)
    requires Inv(s) && Enabled(s, e) && p < |s.pages|
    ensures PageStep(s, e, Next(s, e), p)
  {
    hide Inv, PageStep, WriteStep, AllocatePage;
    match e
    case WriteTo(q, data) => WriteCounts(s, q, data, p);
    case AllocateIn(b, fb) => AllocateCounts(s, b, fb, p);
    case DeleteFrom(q, version, count, bytes) => TouchCounts(s, e, p);
    case CloseOf(q, version) => TouchCounts(s, e, p);
    case BeginScan => MaintCounts(s, e, p);
    case VisitPage => MaintCounts(s, e, p);
    case EndScan => MaintCounts(s, e, p);
    case _ => IoCounts(s, e, p);
  }

  lemma TouchCounts(s: Store, e: Event, p: nat)
    requires Inv(s) && Enabled(s, e) && p < |s.pages| && (e.DeleteFrom? || e.CloseOf?)
    ensures PageStep(s, e, Next(s, e), p)
  {
    hide Inv;
  }

  lemma AllocateCounts(s: Store, b: nat, fb: nat, p: nat)
    requires Inv(s) && b < |s.buckets| && fb < |s.freeBuckets| && p < |s.pages|
    ensures PageStep(s, AllocateIn(b, fb), AllocatePage(s, b, fb), p)
  {
    hide PagesOk, BuffersOk, FlushOk, LogOk, Disjoint, ReadsOk, MaintOk, Distinct, Total;
    var tmp := TakeFree(s, fb).0;
    if tmp.Some? {
      var q := tmp.value;
      assert q in s.freelist || (fb > 0 && q in s.freeBuckets[fb]);
      assert IsFreePage(s, q, 0) || IsFreePage(s, q, fb);
    }
  }

  lemma VictimInUse(s: Store)
    requires Inv(s) && s.maint.Scanning? && s.maint.low.Some?
    ensures s.maint.low.value.0 < |s.pages| && !s.pages[s.maint.low.value.0].free
  {
    hide PagesOk, ListsOk, BuffersOk, FlushOk, LogOk, Disjoint, ReadsOk;
  }

  // ---- Objects and bytes counted over a run --------------------------------------------------------

  datatype Tally = Tally(objects: nat, bytes: nat)

  /** What the writes on one version of a page add, and the deletes on it take off, up to
      state `i` of a run; a delete takes off no more than there is. */
  ghost function Ledger(stores: seq<Store>, events: seq<Event>, i: nat, p: nat, v: nat): Tally
    requires |stores| == |events| + 1 && i < |stores|
  {
    if i == 0 then Tally(0, 0)
    else
      var before, s, t := Ledger(stores, events, i - 1, p, v), stores[i - 1], stores[i];
      var e := events[i - 1];
      if Wrote(s, t, p) && t.log[|s.log|].version == v then
        Tally(before.objects + 1, before.bytes + |t.log[|s.log|].data|)
      else if Deletes(s, e, p) && e.version == v then
        Tally(Minus(before.objects, e.count), Minus(before.bytes, e.bytes))
      else before
  }

  lemma RunPages(stores: seq<Store>, events: seq<Event>, i: nat, p: nat)
    requires Run(stores, events) && 0 < i < |stores| && p < |stores[i - 1].pages|
    ensures |stores| == |events| + 1 && PageStep(stores[i - 1], events[i - 1], stores[i], p)
  {
    hide Inv, Next, Enabled, Run, PageStep;
    RunKeepsInv(stores, events, i);
    RunStep(stores, events, i - 1);
    AnyPageStep(stores[i - 1], events[i - 1], p);
  }

  lemma {:induction false} PageCount(stores: seq<Store>, events: seq<Event>, i: nat)
    requires Run(stores, events) && i < |stores|
    ensures |stores| == |events| + 1 && |stores[i].pages| == |stores[0].pages|
  {
    hide Inv, Next, Enabled;
    RunKeepsInv(stores, events, i);
    if i > 0 {
      PageCount(stores, events, i - 1);
      RunStep(stores, events, i - 1);
      ConfStep(stores[i - 1], events[i - 1]);
      PagesOfConf(stores[i - 1]);
      PagesOfConf(stores[i]);
    }
  }

  lemma PagesOfConf(s: Store)
    requires Inv(s)
    ensures |s.pages| == s.conf.pageCount
  {
    hide ListsOk, BuffersOk, FlushOk, LogOk, Disjoint, ReadsOk, MaintOk;
  }

  /** Nothing is counted for a version before it is given out. */
  lemma {:induction false} FreshLedger(stores: seq<Store>, events: seq<Event>, i: nat, p: nat, v: nat)
    requires Run(stores, events) && i < |stores| && p < |stores[0].pages| && v >= stores[i].nextVersion
    ensures |stores| == |events| + 1 && Ledger(stores, events, i, p, v) == Tally(0, 0)
  {
    hide Inv, Next, Enabled, Run, PageStep, Wrote;
    RunKeepsInv(stores, events, i);
    if i > 0 {
      PageCount(stores, events, i - 1);
      RunPages(stores, events, i, p);
      RunKeepsInv(stores, events, i - 1);
      VersionsBelow(stores[i - 1], events[i - 1], stores[i], p);
      FreshLedger(stores, events, i - 1, p, v);
    }
  }

  lemma VersionsBelow(s: Store, e: Event, t: Store, p: nat)
    requires PageStep(s, e, t, p) && Inv(s)
    ensures s.nextVersion <= t.nextVersion
    ensures Wrote(s, t, p) ==> t.log[|s.log|].version < s.nextVersion
  {
    hide ListsOk, BuffersOk, FlushOk, LogOk, Disjoint, ReadsOk, MaintOk;
    assert PageOk(s.conf, s.nextVersion, s.pages[p]);
  }

  /** What is counted on a page. */
  ghost predicate Counts(stores: seq<Store>, events: seq<Event>, i: nat, p: nat)
    requires |stores| == |events| + 1 && i < |stores|
  {
    && p < |stores[i].pages|
    && var pg := stores[i].pages[p];
    Tally(pg.objCount, pg.bytesUsed) == if pg.free then Tally(0, 0) else Ledger(stores, events, i, p, pg.version)
  }

  lemma CountsStart(stores: seq<Store>, events: seq<Event>, p: nat)
    requires Run(stores, events) && p < |stores[0].pages|
    ensures |stores| == |events| + 1 && Counts(stores, events, 0, p)
  {
    hide Inv, Next, Enabled;
  }

  lemma CountsStep(stores: seq<Store>, events: seq<Event>, i: nat, p: nat)
    requires |stores| == |events| + 1 && 0 < i < |stores| && Counts(stores, events, i - 1, p)
    requires PageStep(stores[i - 1], events[i - 1], stores[i], p)
    requires GivenOut(stores[i - 1], stores[i - 1].pages[p], stores[i].pages[p]) ==>
      Ledger(stores, events, i, p, stores[i - 1].nextVersion) == Tally(0, 0)
    ensures Counts(stores, events, i, p)
  {}

  /** In every run, the counts of a page in use are what was written on it in its present
      version less what the deletes on that version took off. */
  lemma {:induction false} CountsExact(stores: seq<Store>, events: seq<Event>, i: nat, p: nat)
    requires Run(stores, events) && i < |stores| && p < |stores[0].pages|
    ensures |stores| == |events| + 1 && Counts(stores, events, i, p)
  {
    hide Inv, Next, Enabled, Run, PageStep, Counts, Ledger;
    if i == 0 {
      CountsStart(stores, events, p);
    } else {
      CountsExact(stores, events, i - 1, p);
      PageCount(stores, events, i - 1);
      RunPages(stores, events, i, p);
      var v := stores[i - 1].nextVersion;
      FreshLedger(stores, events, i - 1, p, v);
      LedgerGivenOut(stores, events, i, p, v);
      CountsStep(stores, events, i, p);
    }
  }

  lemma LedgerGivenOut(stores: seq<Store>, events: seq<Event>, i: nat, p: nat, v: nat)
    requires |stores| == |events| + 1 && 0 < i < |stores| && v == stores[i - 1].nextVersion
    requires PageStep(stores[i - 1], events[i - 1], stores[i], p)
    requires Ledger(stores, events, i - 1, p, v) == Tally(0, 0)
    ensures GivenOut(stores[i - 1], stores[i - 1].pages[p], stores[i].pages[p]) ==>
      Ledger(stores, events, i, p, v) == Tally(0, 0)
  {}

  // ---- How long a page stays -----------------------------------------------------------------------

  /** The writes on a version of a page that the log holds. */
  function Writes(log: seq<Write>, p: nat, v: nat): nat {
    if log == [] then 0
    else
      var last := log[|log| - 1];
      Writes(log[..|log| - 1], p, v) + if last.page == p && last.version == v then 1 else 0
  }

  /** How many objects the deletes on a version of a page name, up to state `i`. */
  function Deleted(events: seq<Event>, i: nat, p: nat, v: nat): nat
    requires i <= |events|
  {
    if i == 0 then 0
    else
      var e := events[i - 1];
      Deleted(events, i - 1, p, v) + if e.DeleteFrom? && e.p == p && e.version == v then e.count else 0
  }

  lemma LogGrows(stores: seq<Store>, events: seq<Event>, i: nat)
    requires Run(stores, events) && 0 < i < |stores|
    ensures var log, more := stores[i - 1].log, stores[i].log;
      more == log || (|more| == |log| + 1 && more[..|log|] == log)
  {
    hide Inv, Next, Enabled, Run;
    RunKeepsInv(stores, events, i);
    RunStep(stores, events, i - 1);
    LogStep(stores[i - 1], events[i - 1]);
  }

  /** At least as many objects are counted as were written and not named by a delete, and
      no more than were written. */
  lemma {:induction false} LedgerBounds(stores: seq<Store>, events: seq<Event>, i: nat, p: nat, v: nat)
    requires Run(stores, events) && i < |stores|
    ensures |stores| == |events| + 1
    ensures var n, w := Ledger(stores, events, i, p, v).objects, Writes(stores[i].log, p, v);
      w - Deleted(events, i, p, v) <= n <= w
  {
    hide Inv, Next, Enabled, Run;
    RunKeepsInv(stores, events, i);
    if i > 0 {
      LedgerBounds(stores, events, i - 1, p, v);
      LogGrows(stores, events, i);
    } else {
      RunStart(stores, events);
    }
  }

  lemma VisitFrees(s: Store)
    requires Inv(s) && Enabled(s, VisitPage)
    ensures var p := s.maint.i;
      && p < |s.pages| == |Next(s, VisitPage).pages|
      && var pg, qg := s.pages[p], Next(s, VisitPage).pages[p];
      var frees := !pg.free && !pg.active && pg.refcount == 0 && (pg.closed || pg.objCount == 0);
      (frees ==> Freed(qg)) && (!frees ==> qg == pg)
  {
    hide Inv;
    MaintVisitInv(s);
  }

  /** The maintenance scan frees the page it visits exactly if no read is on it and it is
      full and is closed or nothing is counted on it any more. */
  lemma VisitFreesExactly(stores: seq<Store>, events: seq<Event>, i: nat)
    requires Run(stores, events) && i < |events| && events[i] == VisitPage
    ensures |stores| == |events| + 1 && stores[i].maint.Scanning?
    ensures var p := stores[i].maint.i;
      && p < |stores[i].pages| == |stores[i + 1].pages|
      && var pg, qg := stores[i].pages[p], stores[i + 1].pages[p];
      var frees := !pg.free && !pg.active && pg.refcount == 0 &&
                   (pg.closed || Ledger(stores, events, i, p, pg.version).objects == 0);
      (frees ==> Freed(qg)) && (!frees ==> qg == pg)
  {
    assert |stores| == |events| + 1;
    hide Inv, Run, Ledger, Next, Freed;
    RunStep(stores, events, i);
    PageCount(stores, events, i);
    VisitFrees(stores[i]);
    CountsExact(stores, events, i, stores[i].maint.i);
  }

  /** So the scan does not free a page that is not closed while the deletes on it name fewer
      objects than were written. */
  lemma VisitSpares(stores: seq<Store>, events: seq<Event>, i: nat)
    requires Run(stores, events) && i < |events| && events[i] == VisitPage
    ensures |stores| == |events| + 1 && stores[i].maint.Scanning?
    ensures var p := stores[i].maint.i;
      && p < |stores[i].pages| == |stores[i + 1].pages|
      && var pg := stores[i].pages[p];
      !pg.closed && Deleted(events, i, p, pg.version) < Writes(stores[i].log, p, pg.version) ==>
        stores[i + 1].pages[p] == pg
  {
    hide Inv, Enabled, Next, Run, Ledger;
    VisitFreesExactly(stores, events, i);
    var p := stores[i].maint.i;
    LedgerBounds(stores, events, i, p, stores[i].pages[p].version);
  }

  /** The page stays in use and open. */
  lemma UseGoesOn(s: Store, e: Event, p: nat)
    requires Inv(s) && Enabled(s, e) && p < |s.pages| && !s.pages[p].free && !s.pages[p].closed
    requires !Closes(s, e, p) && !Reclaims(s, e, p)
    ensures p < |Next(s, e).pages| && Readable(Next(s, e).pages[p], s.pages[p].version)
  {
    hide Inv, Next, Wrote, Deletes, Reclaims;
    AnyPageStep(s, e, p);
  }

  lemma {:induction false} WritesMonotone(stores: seq<Store>, events: seq<Event>, i: nat, j: nat, p: nat, v: nat)
    requires Run(stores, events) && i <= j < |stores|
    ensures |stores| == |events| + 1
    ensures Writes(stores[i].log, p, v) <= Writes(stores[j].log, p, v)
    ensures Deleted(events, i, p, v) <= Deleted(events, j, p, v)
    decreases j
  {
    hide Inv, Next, Enabled, Run;
    RunKeepsInv(stores, events, j);
    if i < j {
      WritesMonotone(stores, events, i, j - 1, p, v);
      LogGrows(stores, events, j);
    }
  }

  /** Between states `i` and `j` nobody closes or evicts the page. */
  ghost predicate LeftOpen(stores: seq<Store>, events: seq<Event>, i: nat, j: nat, p: nat)
    requires |stores| == |events| + 1 && i <= j < |stores|
  {
    forall k | i <= k < j :: !Closes(stores[k], events[k], p)
  }

  /** As long as nobody closes or evicts it and the deletes on it name fewer objects than
      were written, every object written on the page can be read. */
  lemma {:induction false} ObjectsStay(stores: seq<Store>, events: seq<Event>, i: nat, j: nat, p: nat, v: nat)
    requires Run(stores, events) && i <= j < |stores| && p < |stores[i].pages| && Readable(stores[i].pages[p], v)
    requires |stores| == |events| + 1 && LeftOpen(stores, events, i, j, p)
    requires Deleted(events, j, p, v) < Writes(stores[i].log, p, v)
    ensures p < |stores[j].pages| && Readable(stores[j].pages[p], v)
    decreases j
  {
    hide Inv, Next, Enabled, Run, Writes, Deleted, Closes, Ledger;
    if i < j {
      WritesMonotone(stores, events, j - 1, j, p, v);
      WritesMonotone(stores, events, i, j - 1, p, v);
      ObjectsStay(stores, events, i, j - 1, p, v);
      PageCount(stores, events, j - 1);
      CountsExact(stores, events, j - 1, p);
      LedgerBounds(stores, events, j - 1, p, v);
      RunStep(stores, events, j - 1);
      UseGoesOn(stores[j - 1], events[j - 1], p);
    }
  }

  /** Then a read of such an object does not miss. */
  lemma NoMiss(stores: seq<Store>, events: seq<Event>, i: nat, j: nat, w: Write)
    requires Run(stores, events) && i <= j < |events| && |stores| == |events| + 1 && events[j] == BeginRead(w)
    requires w.page < |stores[i].pages| && Readable(stores[i].pages[w.page], w.version)
    requires LeftOpen(stores, events, i, j, w.page)
    requires Deleted(events, j, w.page, w.version) < Writes(stores[i].log, w.page, w.version)
    ensures |stores[j + 1].readOps| == |stores[j].readOps| + 1
    ensures stores[j + 1].readOps[|stores[j].readOps|] != Finished(w, Miss)
  {
    hide Inv, Next, Enabled, Run, LeftOpen, Writes, Deleted;
    ObjectsStay(stores, events, i, j, w.page, w.version);
    MissMeansGone(stores, events, j);
  }

  /** A version that cannot be read now can never be read again. */
  lemma {:induction false} GoneStaysGone(stores: seq<Store>, events: seq<Event>, i: nat, j: nat, p: nat, v: nat)
    requires Run(stores, events) && i <= j < |stores| && p < |stores[i].pages| && v < stores[i].nextVersion
    requires !Readable(stores[i].pages[p], v)
    ensures p < |stores[j].pages| && !Readable(stores[j].pages[p], v) && v < stores[j].nextVersion
    decreases j
  {
    hide Inv, Next, Enabled, Run, Deletes, Closes, Reclaims;
    if i < j {
      GoneStaysGone(stores, events, i, j - 1, p, v);
      RunPages(stores, events, j, p);
    }
  }

  /** So once a page version is closed or evicted, every read of an object written on it misses. */
  lemma CloseIsFinal(stores: seq<Store>, events: seq<Event>, i: nat, j: nat, w: Write)
    requires Run(stores, events) && i < j < |events| && |stores| == |events| + 1
    requires w in stores[i].log && events[j] == BeginRead(w)
    requires events[i] == CloseOf(w.page, w.version) || Evicts(stores[i], events[i], w.page)
    ensures |stores[j + 1].readOps| == |stores[j].readOps| + 1
    ensures stores[j + 1].readOps[|stores[j].readOps|] == Finished(w, Miss)
  {
    hide Inv, Next, Enabled, Run, Deletes, Reclaims, Readable;
    RunKeepsInv(stores, events, i);
    LoggedPage(stores[i], w);
    RunPages(stores, events, i + 1, w.page);
    Closed(stores[i], events[i], stores[i + 1], w);
    GoneStaysGone(stores, events, i + 1, j, w.page, w.version);
    MissMeansGone(stores, events, j);
  }

  lemma LoggedPage(s: Store, w: Write)
    requires Inv(s) && w in s.log
    ensures w.page < |s.pages| && w.version < s.nextVersion
  {
    hide PagesOk, ListsOk, BuffersOk, FlushOk, Disjoint, ReadsOk, MaintOk;
  }

  lemma Closed(s: Store, e: Event, t: Store, w: Write)
    requires PageStep(s, e, t, w.page) && w.version < s.nextVersion
    requires e == CloseOf(w.page, w.version) || Evicts(s, e, w.page)
    ensures !Readable(t.pages[w.page], w.version) && w.version < t.nextVersion
  {}
}

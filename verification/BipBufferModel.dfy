/** bipbuffer.c: a ring of two contiguous regions that refines a byte FIFO.

    `Ring` is the buffer as a value: the specification of every operation and
    the theorems about runs. `BipBuffer` is the mutable buffer; each method is
    proved to move its ring exactly as the specification says.
 */
module BipBufferModel {
  import opened ByteStrings
  import opened Options

  /** `aStart` and `aEnd` delimit region A, `0` and `bEnd` region B. */
  datatype Ring = Ring(data: seq<Byte>, aStart: nat, aEnd: nat, bEnd: nat, bInUse: bool) {

    ghost predicate Valid() {
      && bEnd <= aStart <= aEnd <= |data|
      && (!bInUse ==> bEnd == 0 && aStart <= |data| - aEnd)
      && (aStart == aEnd ==> aStart == 0 && !bInUse)
    }

    /** The bytes held, oldest first. */
    function Contents(): seq<Byte>
      requires bEnd <= |data| && aStart <= aEnd <= |data|
    {
      data[aStart..aEnd] + data[..bEnd]
    }

    function Unused(): int {
      if bInUse then aStart - bEnd else |data| - aEnd
    }

    function Used(): int {
      (aEnd - aStart) + bEnd
    }

    predicate IsEmpty() {
      aStart == aEnd
    }

    /** Turn on region B when there is more room before region A than after it. */
    function CheckForSwitchToB(): Ring {
      if |data| - aEnd < aStart - bEnd then this.(bInUse := true) else this
    }

    /** Where the next bytes go. */
    function WriteOffset(): nat {
      if bInUse then bEnd else aEnd
    }

    function Request(n: nat): Option<nat> {
      if Unused() < n then None else Some(WriteOffset())
    }

    /** Commit `n` bytes that were written in place. */
    function Push(n: nat): Ring {
      if Unused() < n then this
      else if bInUse then this.(bEnd := bEnd + n).CheckForSwitchToB()
      else this.(aEnd := aEnd + n).CheckForSwitchToB()
    }

    /** Write bytes at an offset, as `memcpy` does. */
    function WriteAt(at: nat, bytes: seq<Byte>): Ring
      requires at + |bytes| <= |data|
    {
      this.(data := data[..at] + bytes + data[at + |bytes|..])
    }

    function Offer(bytes: seq<Byte>): Ring
      requires Valid()
    {
      if Unused() < |bytes| then this else WriteAt(WriteOffset(), bytes).Push(|bytes|)
    }

    /** The offset and length of region A. */
    function PeekAll(): Option<(nat, nat)>
      requires aStart <= aEnd
    {
      if IsEmpty() then None else Some((aStart, aEnd - aStart))
    }

    /** Whether a poll of `n` bytes is refused. The bound is an unsigned 32-bit sum. */
    predicate PollRefused(n: nat) {
      IsEmpty() || |data| < (aStart + n) % TWO32
    }

    function Poll(n: nat): Ring {
      if PollRefused(n) then this
      else
        var start := (aStart + n) % TWO32;
        if start != aEnd then this.(aStart := start).CheckForSwitchToB()
        else if bInUse then this.(aStart := 0, aEnd := bEnd, bEnd := 0, bInUse := false).CheckForSwitchToB()
        else this.(aStart := 0, aEnd := 0).CheckForSwitchToB()
    }
  }

  const TWO32: nat := 0x1_0000_0000

  /** Sizes are handed around as C `int`s. */
  const INT_MAX: nat := 0x7fff_ffff

  function Init(data: seq<Byte>): Ring { Ring(data, 0, 0, 0, false) }

  // ---- One operation -----------------------------------------------------------

  /** `bipbuf_used` counts the bytes held and emptiness is exact. */
  lemma UsedIsLength(r: Ring)
    requires r.Valid()
    ensures r.Used() == |r.Contents()|
    ensures r.IsEmpty() <==> r.Contents() == []
    ensures 0 <= r.Unused() <= |r.data| - r.Used()
  {
    if r.IsEmpty() { assert r.Contents() == []; }
  }

  /** The offset holds a byte of the queue. */
  predicate Holds(r: Ring, i: nat) {
    r.aStart <= i < r.aEnd || i < r.bEnd
  }

  /** These bytes lie in the memory and none of them holds a byte of the queue. */
  ghost predicate Free(r: Ring, at: nat, n: nat) {
    at + n <= |r.data| && forall i | at <= i < at + n :: !Holds(r, i)
  }

  /** An offer is taken exactly if the bytes from the write offset on are free, and a buffer
      whose region B is not in use takes every offer of up to half its free bytes; an empty
      one takes all there are. */
  lemma OfferFits(r: Ring, bytes: seq<Byte>)
    requires r.Valid() && bytes != []
    ensures r.Offer(bytes).Valid()
    ensures r.Offer(bytes).Contents() == if Free(r, r.WriteOffset(), |bytes|) then
      r.Contents() + bytes else r.Contents()
    ensures r.Request(|bytes|) == if Free(r, r.WriteOffset(), |bytes|) then Some(r.WriteOffset()) else None
    ensures !r.bInUse && 2 * |bytes| <= |r.data| - |r.Contents()| ==> Free(r, r.WriteOffset(), |bytes|)
    ensures r.Contents() == [] && |bytes| <= |r.data| ==> Free(r, r.WriteOffset(), |bytes|)
  {
    OfferAppends(r, bytes);
    UsedIsLength(r);
    FreeIsUnused(r, |bytes|);
    hide Free;
    if !Free(r, r.WriteOffset(), |bytes|) { assert r.Offer(bytes) == r; }
  }

  lemma FreeIsUnused(r: Ring, n: nat)
    requires r.Valid() && n > 0
    ensures Free(r, r.WriteOffset(), n) <==> n <= r.Unused()
  {
    if r.bInUse && n > r.Unused() { assert Holds(r, r.aStart); }
  }

  /** Region B is turned on exactly when it gives more room than there is behind region A,
      and stays on until region A is drained, when it becomes region A. */
  lemma SwitchExactly(s: State, e: Event)
    requires Inv(s) && Enabled(s, e) && (e.WriterCommit? || e.ReaderPoll?)
    ensures var r, t := s.ring, Next(s, e).ring;
      var drained := e.ReaderPoll? && r.aStart < r.aEnd && e.n == r.aEnd - r.aStart;
      && |t.data| == |r.data|
      && (r.bInUse && !drained ==> t.bInUse)
      && (!r.bInUse || drained ==> (t.bInUse <==> |t.data| - t.aEnd < t.aStart - t.bEnd))
      && (drained ==> t.aStart == 0 && t.aEnd == r.bEnd && t.bEnd == 0)
  {}

  /** Writing after region B or A, on the memory alone. */
  lemma WriteSlices(data: seq<Byte>, from: nat, to: nat, b: nat, at: nat, bytes: seq<Byte>)
    requires b <= from <= to <= |data| && at + |bytes| <= |data|
    requires (at == b && at + |bytes| <= from) || at == to
    ensures var w := data[..at] + bytes + data[at + |bytes|..];
      && w[from..to] == data[from..to]
      && (at == b && at + |bytes| <= from ==> w[..b + |bytes|] == data[..b] + bytes)
      && (at == to ==> w[from..to + |bytes|] == data[from..to] + bytes && w[..b] == data[..b])
  {
    if at == to { WriteBehind(data, from, at, b, bytes); } else { WriteBefore(data, from, to, at, bytes); }
    if at == b && at + |bytes| <= from { WriteBefore(data, from, to, at, bytes); }
  }

  lemma WriteBehind(data: seq<Byte>, from: nat, at: nat, b: nat, bytes: seq<Byte>)
    requires b <= from <= at && at + |bytes| <= |data|
    ensures var w := data[..at] + bytes + data[at + |bytes|..];
      w[from..at] == data[from..at] && w[from..at + |bytes|] == data[from..at] + bytes && w[..b] == data[..b]
  {
    var w := data[..at] + bytes + data[at + |bytes|..];
    assert w[..at] == data[..at] && w[at..at + |bytes|] == bytes;
    assert w[from..at] == w[..at][from..] && data[from..at] == data[..at][from..];
    assert w[..b] == w[..at][..b] && data[..b] == data[..at][..b];
  }

  lemma WriteBefore(data: seq<Byte>, from: nat, to: nat, at: nat, bytes: seq<Byte>)
    requires at + |bytes| <= from <= to <= |data|
    ensures var w := data[..at] + bytes + data[at + |bytes|..];
      w[from..to] == data[from..to] && w[..at + |bytes|] == data[..at] + bytes
  {
    var w, n := data[..at] + bytes + data[at + |bytes|..], at + |bytes|;
    assert w[n..] == data[n..];
    assert w[from..to] == w[n..][from - n..to - n] && data[from..to] == data[n..][from - n..to - n];
  }

  /** The offsets after a push that fits. */
  lemma PushOffsets(r: Ring, n: nat)
    requires r.Valid() && n <= r.Unused()
    ensures var p := r.Push(n);
      && p.Valid() && p.data == r.data && p.aStart == r.aStart
      && p.aEnd == (if r.bInUse then r.aEnd else r.aEnd + n) && p.bEnd == if r.bInUse then r.bEnd + n else 0
  {}

  /** Bytes written at the requested place and pushed join the back of the
      queue; region A, where a reader may be looking, is not touched. */
  lemma WriteAndPush(r: Ring, bytes: seq<Byte>)
    requires r.Valid() && |bytes| <= r.Unused()
    ensures var p := r.WriteAt(r.WriteOffset(), bytes).Push(|bytes|);
            && p.Valid() && p.Contents() == r.Contents() + bytes
            && |p.data| == |r.data| && p.data[r.aStart..r.aEnd] == r.data[r.aStart..r.aEnd]
            && p.aStart == r.aStart && r.aEnd <= p.aEnd
  {
    hide Ring.Push;
    WriteSlices(r.data, r.aStart, r.aEnd, r.bEnd, r.WriteOffset(), bytes);
    PushOffsets(r.WriteAt(r.WriteOffset(), bytes), |bytes|);
    var a, b := r.data[r.aStart..r.aEnd], r.data[..r.bEnd];
    if r.bInUse {
      assert a + (b + bytes) == a + b + bytes;
    } else {
      assert (a + bytes) + b == a + b + bytes;
    }
  }

  lemma OfferAppends(r: Ring, bytes: seq<Byte>)
    requires r.Valid()
    ensures r.Offer(bytes).Valid()
    ensures r.Offer(bytes).Contents() == if |bytes| <= r.Unused() then r.Contents() + bytes else r.Contents()
  {
    if |bytes| <= r.Unused() { WriteAndPush(r, bytes); }
  }

  lemma DropFront(data: seq<Byte>, from: nat, to: nat, b: nat, n: nat)
    requires from + n <= to <= |data| && b <= |data|
    ensures (data[from..to] + data[..b])[n..] == data[from + n..to] + data[..b]
    ensures from + n == to ==> data[from + n..to] + data[..b] == data[..b] + data[..0]
  {
    assert data[from..to][n..] == data[from + n..to];
  }

  /** The offsets after a poll within region A. */
  lemma PollOffsets(r: Ring, n: nat)
    requires r.Valid() && |r.data| < TWO32 && n <= r.aEnd - r.aStart
    ensures var p := r.Poll(n);
      && p.Valid() && p.data == r.data && r.bEnd <= r.aStart && r.aEnd <= |r.data|
      && (if r.aStart + n < r.aEnd then p.aStart == r.aStart + n && p.aEnd == r.aEnd && p.bEnd == r.bEnd
          else p.aStart == 0 && p.aEnd == r.bEnd && p.bEnd == 0)
  {
    NoWrap(r.aStart + n);
  }

  /** A poll of no more than region A takes exactly the oldest bytes. */
  lemma PollTakes(r: Ring, n: nat)
    requires r.Valid() && |r.data| < TWO32 && n <= r.aEnd - r.aStart
    ensures r.Poll(n).Valid()
    ensures r.Poll(n).Contents() == r.Contents()[n..]
    ensures r.Poll(n).data == r.data
  {
    hide Ring.Poll, Ring.Valid;
    PollOffsets(r, n);
    DropFront(r.data, r.aStart, r.aEnd, r.bEnd, n);
  }

  /** Polling more than region A holds breaks the queue, unless it is refused:
      an accepted poll shortens a valid queue by what it asked for exactly when
      it asked for no more than region A holds. */
  lemma PollSoundExactly(r: Ring, n: nat)
    requires r.Valid() && |r.data| < TWO32 && n < TWO32 && !r.PollRefused(n)
    ensures (r.Poll(n).Valid() && r.Poll(n).Used() == r.Used() - n) <==> n <= r.aEnd - r.aStart
  {
    if n <= r.aEnd - r.aStart {
      PollTakes(r, n);
      UsedIsLength(r);
      UsedIsLength(r.Poll(n));
    } else if r.aStart + n < TWO32 {
      assert (r.aStart + n) % TWO32 == r.aStart + n;
    } else {
      assert (r.aStart + n) % TWO32 == r.aStart + n - TWO32;
    }
  }

  /** What a poll does: nothing on an empty buffer or if it would end behind the memory; it
      takes the oldest bytes if it asks for no more than region A; and breaks the queue
      otherwise. Where it ends is an unsigned 32-bit number. */
  lemma PollOutcome(r: Ring, n: nat)
    requires r.Valid() && |r.data| < TWO32 && n < TWO32
    ensures var t, end := r.Poll(n), if r.aStart + n < TWO32 then r.aStart + n else r.aStart + n - TWO32;
      if r.Contents() == [] || end > |r.data| then t == r
      else if n <= r.aEnd - r.aStart then t.Valid() && t.Contents() == r.Contents()[n..] && t.data == r.data
      else !(t.Valid() && t.Used() == r.Used() - n)
  {
    hide Ring.Poll, Ring.Used;
    UsedIsLength(r);
    PollBound(r, n);
    if r.IsEmpty() || r.PollRefused(n) {
      PollRefuses(r, n);
    } else if n <= r.aEnd - r.aStart {
      PollTakes(r, n);
    } else {
      PollSoundExactly(r, n);
    }
  }

  lemma PollBound(r: Ring, n: nat)
    requires r.Valid() && |r.data| < TWO32 && n < TWO32
    ensures (r.aStart + n) % TWO32 == if r.aStart + n < TWO32 then r.aStart + n else r.aStart + n - TWO32
  {}

  lemma PollRefuses(r: Ring, n: nat)
    requires r.IsEmpty() || r.PollRefused(n)
    ensures r.Poll(n) == r
  {}

  // ---- A request covers what follows -----------------------------------------------

  /** Pushing `n` bytes costs at most `n` bytes of room: switching to region B
      only ever finds more. */
  lemma PushRoom(r: Ring, n: nat)
    requires r.Valid() && n <= r.Unused()
    ensures r.Push(n).Valid() && r.Push(n).Unused() >= r.Unused() - n
  {}

  datatype Put = PutOffer(bytes: seq<Byte>) | PutPush(n: nat) {
    function Size(): nat {
      match this
      case PutOffer(bytes) => |bytes|
      case PutPush(n) => n
    }
  }

  function Apply(r: Ring, p: Put): Ring
    requires r.Valid()
  {
    match p
    case PutOffer(bytes) => r.Offer(bytes)
    case PutPush(n) => r.Push(n)
  }

  function TotalSize(ps: seq<Put>): nat {
    if ps == [] then 0 else ps[0].Size() + TotalSize(ps[1..])
  }

  ghost predicate AllSucceed(r: Ring, ps: seq<Put>)
    requires r.Valid()
    decreases |ps|
  {
    ps == [] || (ps[0].Size() <= r.Unused() && Apply(r, ps[0]).Valid() && AllSucceed(Apply(r, ps[0]), ps[1..]))
  }

  lemma OfferRoom(r: Ring, bytes: seq<Byte>)
    requires r.Valid() && |bytes| <= r.Unused()
    ensures r.Offer(bytes).Valid() && r.Offer(bytes).Unused() >= r.Unused() - |bytes|
  {
    PushRoom(r.WriteAt(r.WriteOffset(), bytes), |bytes|);
  }

  /** Once `bipbuf_request(n)` has succeeded, any pushes and offers that total
      at most `n` succeed too, whichever regions they land in. */
  lemma {:induction false} RequestCovers(r: Ring, n: nat, ps: seq<Put>)
    requires r.Valid() && r.Request(n).Some? && TotalSize(ps) <= n
    ensures AllSucceed(r, ps)
    decreases |ps|
  {
    if ps != [] {
      match ps[0] {
        case PutOffer(bytes) => OfferRoom(r, bytes);
        case PutPush(k) => PushRoom(r, k);
      }
      RequestCovers(Apply(r, ps[0]), n - ps[0].Size(), ps[1..]);
    }
  }

  // ---- Runs --------------------------------------------------------------------------

  /** The ring, the abstract queue, and the window a reader has peeked and not
      yet polled (the reader works on it outside the lock). */
  datatype State = State(ring: Ring, fifo: seq<Byte>, window: Option<nat>)

  datatype Event =
    | WriterOffer(bytes: seq<Byte>)      // bipbuf_offer
    | WriterCommit(bytes: seq<Byte>)     // bipbuf_request, fill in place, bipbuf_push
    | ReaderPeek                         // bipbuf_peek_all
    | ReaderPoll(n: nat)                 // bipbuf_poll of at most the peeked window

  ghost predicate Enabled(s: State, e: Event) {
    match e
    case WriterOffer(bytes) => true
    case WriterCommit(bytes) => |bytes| <= s.ring.Unused()
    case ReaderPeek => true
    case ReaderPoll(n) => s.window.Some? && n <= s.window.value
  }

  /** The queue moves as a queue; the ring moves as the code does. */
  ghost function Next(s: State, e: Event): State
    requires s.ring.Valid() && Enabled(s, e)
  {
    match e
    case WriterOffer(bytes) =>
      s.(ring := s.ring.Offer(bytes), fifo := if |bytes| <= s.ring.Unused() then s.fifo + bytes else s.fifo)
    case WriterCommit(bytes) =>
      s.(ring := s.ring.WriteAt(s.ring.WriteOffset(), bytes).Push(|bytes|), fifo := s.fifo + bytes)
    case ReaderPeek =>
      s.(window := match s.ring.PeekAll() case None => None case Some(w) => Some(w.1))
    case ReaderPoll(n) =>
      State(s.ring.Poll(n), if n <= |s.fifo| then s.fifo[n..] else [], None)
  }

  ghost predicate Inv(s: State) {
    && s.ring.Valid() && |s.ring.data| <= INT_MAX
    && s.fifo == s.ring.Contents()
    && (s.window.Some? ==> s.window.value <= s.ring.aEnd - s.ring.aStart)
  }

  ghost predicate Run(states: seq<State>, events: seq<Event>) {
    && |states| == |events| + 1
    && (exists data: seq<Byte> :: |data| <= INT_MAX && states[0] == State(Init(data), [], None))
    && forall i | 0 <= i < |events| ::
         states[i].ring.Valid() && Enabled(states[i], events[i]) && states[i + 1] == Next(states[i], events[i])
  }

  lemma StepKeepsInv(s: State, e: Event)
    requires Inv(s) && Enabled(s, e)
    ensures Inv(Next(s, e))
  {
    match e
    case WriterOffer(bytes) =>
      OfferAppends(s.ring, bytes);
      if |bytes| <= s.ring.Unused() { WriteAndPush(s.ring, bytes); }
    case WriterCommit(bytes) => WriteAndPush(s.ring, bytes);
    case ReaderPeek =>
    case ReaderPoll(n) =>
      UsedIsLength(s.ring);
      PollTakes(s.ring, n);
  }

  lemma StepAt(states: seq<State>, events: seq<Event>, i: nat)
    requires Run(states, events) && i < |events|
    ensures |states| == |events| + 1 && states[i].ring.Valid()
    ensures Enabled(states[i], events[i]) && states[i + 1] == Next(states[i], events[i])
  {
    hide Next, Enabled, Ring.Valid;
  }

  lemma StartInv(states: seq<State>, events: seq<Event>)
    requires Run(states, events)
    ensures |states| == |events| + 1 && Inv(states[0])
  {
    hide Next, Enabled;
    var data: seq<Byte> :| |data| <= INT_MAX && states[0] == State(Init(data), [], None);
  }

  /** In every state of every run the ring holds exactly the queue. */
  lemma {:induction false} RefinesFifo(states: seq<State>, events: seq<Event>, k: nat)
    requires Run(states, events) && k < |states|
    ensures Inv(states[k])
  {
    hide Run, Next, Enabled, Inv;
    StartInv(states, events);
    if k > 0 {
      RefinesFifo(states, events, k - 1);
      StepAt(states, events, k - 1);
      StepKeepsInv(states[k - 1], events[k - 1]);
    }
  }

  /** Four bytes are held, two in each region, and a poll of three, more than region A
      holds, is accepted and leaves the ring broken. */
  ghost predicate BreaksAtThree(r: Ring) {
    r.Valid() && |r.Contents()| == 4 && !r.PollRefused(3) && !r.Poll(3).Valid()
  }

  lemma FillAndDrain(data: seq<Byte>, six: seq<Byte>, two: seq<Byte>)
    requires |data| == 8 && |six| == 6 && |two| == 2
    ensures var r1 := Init(data).Offer(six);
      && r1 == Ring(six + data[6..], 0, 6, 0, false) && r1.Valid()
      && var r3 := r1.Poll(4);
      && r3 == Ring(r1.data, 4, 6, 0, true) && r3.Valid()
      && r3.Offer(two) == Ring(two + r1.data[2..], 4, 6, 2, true)
  {
    assert (0 + 4) % TWO32 == 4;
    assert data[..0] + six + data[6..] == six + data[6..];
    var d := six + data[6..];
    assert d[..0] + two + d[2..] == two + d[2..];
  }

  lemma Breaks(data: seq<Byte>)
    requires |data| == 8
    ensures BreaksAtThree(Ring(data, 4, 6, 2, true))
  {
    assert (4 + 3) % TWO32 == 7;
  }

  /** A run that reaches such a ring: six bytes offered, four polled, two more offered. */
  lemma PollTooMuch()
    ensures exists states: seq<State>, events: seq<Event> ::
      Run(states, events) && |states| == 5 && BreaksAtThree(states[4].ring)
  {
    hide BreaksAtThree, Ring.Offer, Ring.Poll, Ring.Valid, Run;
    var data: seq<Byte>, six: seq<Byte>, two: seq<Byte> := seq(8, _ => 0), seq(6, _ => 1), seq(2, _ => 2);
    FillAndDrain(data, six, two);
    var states, events := [State(Init(data), [], None)], [];
    EmptyRun(data);
    states, events := Continue(states, events, WriterOffer(six));
    states, events := Continue(states, events, ReaderPeek);
    states, events := Continue(states, events, ReaderPoll(4));
    states, events := Continue(states, events, WriterOffer(two));
    Breaks(states[4].ring.data);
    assert Run(states, events) && BreaksAtThree(states[4].ring);
  }

  lemma EmptyRun(data: seq<Byte>)
    requires |data| <= INT_MAX
    ensures Run([State(Init(data), [], None)], []) && Init(data).Valid()
  {
    hide Next, Enabled;
  }

  lemma Continue(states: seq<State>, events: seq<Event>, e: Event) returns (longer: seq<State>, more: seq<Event>)
    requires Run(states, events) && states != [] && Enabled(states[|states| - 1], e)
    ensures states[|states| - 1].ring.Valid() && longer == states + [Next(states[|states| - 1], e)]
    ensures Run(longer, more)
  {
    RunExtends(states, events, e);
    longer, more := states + [Next(states[|states| - 1], e)], events + [e];
  }

  /** A run can go on with every enabled event. */
  lemma RunExtends(states: seq<State>, events: seq<Event>, e: Event)
    requires Run(states, events) && Enabled(states[|states| - 1], e)
    ensures states[|states| - 1].ring.Valid() && Run(states + [Next(states[|states| - 1], e)], events + [e])
  {
    hide Next, Enabled, Ring.Contents;
    RefinesFifo(states, events, |states| - 1);
  }

  /** The bytes of the peeked window, read from the ring's memory. */
  function WindowBytes(r: Ring, n: nat): seq<Byte>
    requires r.aStart + n <= |r.data|
  {
    r.data[r.aStart..r.aStart + n]
  }

  lemma SubWindow(d: seq<Byte>, d': seq<Byte>, a: nat, z: nat, n: nat)
    requires a + n <= z <= |d| && z <= |d'| && d'[a..z] == d[a..z]
    ensures d'[a..a + n] == d[a..a + n]
  {
    assert d'[a..z][..n] == d'[a..a + n];
    assert d[a..z][..n] == d[a..a + n];
  }

  lemma WindowStepStable(s: State, e: Event, n: nat)
    requires Inv(s) && Enabled(s, e) && !e.ReaderPoll? && n <= s.ring.aEnd - s.ring.aStart
    ensures Next(s, e).ring.aStart == s.ring.aStart
    ensures n <= Next(s, e).ring.aEnd - Next(s, e).ring.aStart
    ensures Next(s, e).ring.aEnd <= |Next(s, e).ring.data|
    ensures WindowBytes(Next(s, e).ring, n) == WindowBytes(s.ring, n)
  {
    hide Ring.Push, Ring.Contents, Ring.WriteAt;
    if (e.WriterOffer? || e.WriterCommit?) && |e.bytes| <= s.ring.Unused() {
      WriteAndPush(s.ring, e.bytes);
      var t := s.ring.WriteAt(s.ring.WriteOffset(), e.bytes).Push(|e.bytes|);
      assert Next(s, e).ring == t;
      SubWindow(s.ring.data, t.data, s.ring.aStart, s.ring.aEnd, n);
    }
  }

  lemma WindowIsFront(s: State, n: nat)
    requires Inv(s) && n <= s.ring.aEnd - s.ring.aStart
    ensures n <= |s.fifo| && s.fifo[..n] == WindowBytes(s.ring, n)
  {
    FrontOf(s.ring.data, s.ring.aStart, s.ring.aEnd, s.ring.bEnd, n);
  }

  lemma FrontOf(data: seq<Byte>, from: nat, to: nat, b: nat, n: nat)
    requires from + n <= to <= |data| && b <= |data|
    ensures (data[from..to] + data[..b])[..n] == data[from..from + n]
  {
    assert data[from..to][..n] == data[from..from + n];
  }

  /** Until the reader polls, nothing a writer does moves or changes the bytes
      it peeked, and they stay the front of the queue. */
  lemma {:induction false} PeekedWindowStable(states: seq<State>, events: seq<Event>, i: nat, k: nat, n: nat)
    requires Run(states, events) && i <= k < |states|
    requires forall j | i <= j < k :: !events[j].ReaderPoll?
    requires states[i].ring.Valid() && n <= states[i].ring.aEnd - states[i].ring.aStart
    ensures Inv(states[k]) && states[k].ring.aStart == states[i].ring.aStart
    ensures n <= states[k].ring.aEnd - states[k].ring.aStart
    ensures WindowBytes(states[k].ring, n) == WindowBytes(states[i].ring, n)
    ensures n <= |states[k].fifo| && states[k].fifo[..n] == WindowBytes(states[i].ring, n)
    decreases k - i
  {
    hide Run, Next, Enabled, Inv, WindowBytes;
    RefinesFifo(states, events, k);
    StartInv(states, events);
    if i < k {
      PeekedWindowStable(states, events, i, k - 1, n);
      StepAt(states, events, k - 1);
      WindowStepStable(states[k - 1], events[k - 1], n);
    }
    WindowIsFront(states[k], n);
  }

  // ---- Fixed-size entries --------------------------------------------------------------

  /** The size of the records the LRU bump queue keeps in its ring: a pointer
      and a 32-bit hash, padded to 16 bytes. */
  const ENTRY: nat := 16

  /** Every offset of the ring is a whole number of entries. */
  ghost predicate Aligned(r: Ring) {
    r.aStart % ENTRY == 0 && r.aEnd % ENTRY == 0 && r.bEnd % ENTRY == 0
  }

  lemma PushAligned(r: Ring, n: nat)
    requires Aligned(r) && n % ENTRY == 0
    ensures Aligned(r.Push(n))
  {}

  lemma PollAligned(r: Ring, n: nat)
    requires r.Valid() && |r.data| < TWO32 && n <= r.aEnd - r.aStart
    requires Aligned(r) && n % ENTRY == 0
    ensures Aligned(r.Poll(n))
  {
    NoWrap(r.aStart + n);
    SumAligned(r.aStart, n);
  }

  lemma NoWrap(n: nat)
    requires n < TWO32
    ensures n % TWO32 == n
  {}

  lemma SumAligned(a: nat, b: nat)
    requires a % ENTRY == 0 && b % ENTRY == 0
    ensures (a + b) % ENTRY == 0
  {}

  /** With whole entries only, a peeked window is a whole number of entries, so
      a loop that takes one entry at a time lands exactly on zero. */
  lemma EntriesStayAligned(s: State, e: Event)
    requires Inv(s) && Enabled(s, e) && Aligned(s.ring)
    requires (e.WriterOffer? || e.WriterCommit?) ==> |e.bytes| % ENTRY == 0
    requires e.ReaderPoll? ==> e.n % ENTRY == 0
    ensures Aligned(Next(s, e).ring)
    ensures (s.ring.aEnd - s.ring.aStart) % ENTRY == 0
  {
    hide Ring.Contents, Ring.Poll, Ring.Push;
    match e
    case WriterOffer(bytes) =>
      if |bytes| <= s.ring.Unused() { PushAligned(s.ring.WriteAt(s.ring.WriteOffset(), bytes), |bytes|); }
    case WriterCommit(bytes) => PushAligned(s.ring.WriteAt(s.ring.WriteOffset(), bytes), |bytes|);
    case ReaderPeek =>
    case ReaderPoll(n) => PollAligned(s.ring, n);
  }

  // ---- The mutable buffer ----------------------------------------------------------------

  class BipBuffer {
    const data: array<Byte>
    var aStart: nat
    var aEnd: nat
    var bEnd: nat
    var bInUse: bool

    ghost function Snapshot(): Ring
      reads this, data
    {
      Ring(data[..], aStart, aEnd, bEnd, bInUse)
    }

    /** bipbuf_new: the memory is not cleared. */
    constructor (size: nat)
      ensures fresh(data) && data.Length == size
      ensures Snapshot() == Init(data[..]) && Snapshot().Valid()
    {
      data := new Byte[size];
      aStart, aEnd, bEnd, bInUse := 0, 0, 0, false;
    }

    method Unused() returns (n: int)
      ensures n == Snapshot().Unused()
      ensures Snapshot().Valid() ==> 0 <= n <= data.Length - |Snapshot().Contents()|
    {
      if bInUse { n := aStart - bEnd; } else { n := data.Length - aEnd; }
    }

    method Used() returns (n: int)
      requires Snapshot().Valid()
      ensures n == |Snapshot().Contents()|
    {
      n := (aEnd - aStart) + bEnd;
    }

    method IsEmpty() returns (empty: bool)
      requires Snapshot().Valid()
      ensures empty <==> Snapshot().Contents() == []
    {
      UsedIsLength(Snapshot());
      empty := aStart == aEnd;
    }

    method CheckForSwitchToB()
      modifies this`bInUse
      ensures Snapshot() == old(Snapshot()).CheckForSwitchToB()
    {
      if data.Length - aEnd < aStart - bEnd { bInUse := true; }
    }

    method Request(n: nat) returns (at: Option<nat>)
      ensures at == Snapshot().Request(n)
      ensures at.Some? && Snapshot().Valid() ==> at.value + n <= data.Length
    {
      var unused := Unused();
      if unused < n { return None; }
      if bInUse { return Some(bEnd); } else { return Some(aEnd); }
    }

    method Push(n: nat) returns (pushed: nat)
      requires Snapshot().Valid()
      modifies this
      ensures Snapshot() == old(Snapshot()).Push(n) && Snapshot().Valid()
      ensures pushed == if n <= old(Snapshot().Unused()) then n else 0
    {
      var unused := Unused();
      if unused < n { return 0; }
      PushRoom(Snapshot(), n);
      if bInUse { bEnd := bEnd + n; } else { aEnd := aEnd + n; }
      CheckForSwitchToB();
      return n;
    }

    /** memcpy into the buffer. */
    method Copy(at: nat, bytes: seq<Byte>)
      requires at + |bytes| <= data.Length
      modifies data
      ensures Snapshot() == old(Snapshot()).WriteAt(at, bytes)
    {
      forall i | 0 <= i < |bytes| { data[at + i] := bytes[i]; }
      assert data[..] == old(data[..])[..at] + bytes + old(data[..])[at + |bytes|..];
    }

    method Offer(bytes: seq<Byte>) returns (pushed: nat)
      requires Snapshot().Valid()
      modifies this, data
      ensures Snapshot() == old(Snapshot()).Offer(bytes) && Snapshot().Valid()
      ensures pushed == if |bytes| <= old(Snapshot().Unused()) then |bytes| else 0
      ensures Snapshot().Contents() == if pushed == |bytes| then
        old(Snapshot().Contents()) + bytes else old(Snapshot().Contents())
    {
      hide Ring.Contents, Ring.WriteAt;
      OfferAppends(Snapshot(), bytes);
      var unused := Unused();
      if unused < |bytes| { return 0; }
      Copy(if bInUse then bEnd else aEnd, bytes);
      if bInUse { bEnd := bEnd + |bytes|; } else { aEnd := aEnd + |bytes|; }
      CheckForSwitchToB();
      return |bytes|;
    }

    method PeekAll() returns (window: Option<(nat, nat)>)
      requires Snapshot().Valid()
      ensures window == Snapshot().PeekAll()
      ensures window.Some? ==> Snapshot().data[window.value.0..window.value.0 + window.value.1] <= Snapshot().Contents()
    {
      if aStart == aEnd { return None; }
      return Some((aStart, aEnd - aStart));
    }

    method Poll(n: nat) returns (at: Option<nat>)
      requires Snapshot().Valid() && data.Length < TWO32 && n < TWO32
      modifies this
      ensures Snapshot() == old(Snapshot()).Poll(n)
      ensures at == if old(Snapshot().PollRefused(n)) then None else Some(old(aStart))
      ensures n <= old(aEnd - aStart) ==> Snapshot().Valid() && Snapshot().Contents() == old(Snapshot().Contents())[n..]
    {
      hide Ring.Contents, Ring.Valid;
      if n <= aEnd - aStart { PollTakes(Snapshot(), n); }
      if aStart == aEnd { return None; }
      if data.Length < (aStart + n) % TWO32 { return None; }
      at := Some(aStart);
      aStart := (aStart + n) % TWO32;
      if aStart == aEnd {
        if bInUse {
          aStart, aEnd := 0, bEnd;
          bEnd, bInUse := 0, false;
        } else {
          aStart, aEnd := 0, 0;
        }
      }
      CheckForSwitchToB();
    }
  }
}

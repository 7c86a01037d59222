/** The TCP response path of memcached.c: building scatter-gather vectors from
    the queue of responses, and taking off what the kernel accepted.

    `Remaining` is the byte stream the queue stands for. Building a vector
    never leaves that stream, and taking bytes off removes exactly those bytes,
    so over any sequence of partial sends the bytes on the wire are the
    responses, in order, each once.
 */
module Transmit {
  import opened ByteStrings
  import opened Sequences

  /** The platform's limit on vector entries, and the entries a response can hold. */
  const IOV_MAX: nat := 1024
  const MC_RESP_IOVCOUNT: nat := 4

  /** Where an entry points: plain memory, from its base on, or a chunked item. The
      value of a chunked item is in its chunks; `bytes` is the memory of its header. */
  datatype Base = Memory(bytes: seq<Byte>) | Item(bytes: seq<Byte>, chunks: seq<seq<Byte>>)

  datatype Iov = Iov(base: Base, len: nat)

  /** mc_resp. `chunked` is the index of the chunked entry, or 0 for none. */
  datatype Resp = Resp(skip: bool, iovs: seq<Iov>, chunked: nat, chunkedTotal: nat, tosend: nat)

  // ---- The stream ----------------------------------------------------------------------

  function Flatten(ss: seq<seq<Byte>>): seq<Byte> {
    if ss == [] then [] else ss[0] + Flatten(ss[1..])
  }

  function SumLens(iovs: seq<Iov>): nat {
    if iovs == [] then 0 else iovs[0].len + SumLens(iovs[1..])
  }

  predicate IsChunked(r: Resp, x: nat) { r.chunked != 0 && x == r.chunked }

  /** An entry is well formed: the chunked one counts down within its item, the
      others within their memory. */
  ghost predicate IovOk(r: Resp, x: nat)
    requires x < |r.iovs|
  {
    var v := r.iovs[x];
    if IsChunked(r, x) then v.base.Item? && v.len <= r.chunkedTotal <= |Flatten(v.base.chunks)|
    else v.base.Memory? && v.len <= |v.base.bytes|
  }

  ghost predicate RespOk(r: Resp) {
    && |r.iovs| <= MC_RESP_IOVCOUNT
    && (r.chunked != 0 ==> r.chunked < |r.iovs|)
    && (forall x | 0 <= x < |r.iovs| :: IovOk(r, x))
    && r.tosend == SumLens(r.iovs)
  }

  /** The bytes entry `x` still has to send. */
  ghost function IovBytes(r: Resp, x: nat): (s: seq<Byte>)
    requires x < |r.iovs| && IovOk(r, x)
    ensures |s| == r.iovs[x].len
  {
    var v := r.iovs[x];
    if IsChunked(r, x) then
      var done := r.chunkedTotal - v.len;
      Flatten(v.base.chunks)[done..done + v.len]
    else v.base.bytes[..v.len]
  }

  /** The bytes the entries from `x` on still have to send. */
  ghost function BytesFrom(r: Resp, x: nat): (s: seq<Byte>)
    requires RespOk(r) && x <= |r.iovs|
    ensures |s| == SumLens(r.iovs[x..])
    decreases |r.iovs| - x
  {
    if x == |r.iovs| then [] else
      assert r.iovs[x..][1..] == r.iovs[x + 1..];
      IovBytes(r, x) + BytesFrom(r, x + 1)
  }

  ghost function RespBytes(r: Resp): (s: seq<Byte>)
    requires RespOk(r)
    ensures |s| == if r.skip then 0 else r.tosend
  {
    if r.skip then [] else
      assert r.iovs[0..] == r.iovs;
      BytesFrom(r, 0)
  }

  ghost predicate AllOk(rs: seq<Resp>) { forall i | 0 <= i < |rs| :: RespOk(rs[i]) }

  /** The byte stream a queue of responses stands for. */
  ghost function Remaining(rs: seq<Resp>): seq<Byte>
    requires AllOk(rs)
  {
    if rs == [] then [] else RespBytes(rs[0]) + Remaining(rs[1..])
  }

  lemma {:induction false} RemainingConcat(a: seq<Resp>, b: seq<Resp>)
    requires AllOk(a) && AllOk(b)
    ensures AllOk(a + b) && Remaining(a + b) == Remaining(a) + Remaining(b)
  {
    hide RespOk, RespBytes;
    if a == [] {
      assert a + b == b;
    } else {
      RemainingConcat(a[1..], b);
      assert (a + b)[1..] == a[1..] + b && (a + b)[0] == a[0];
      Regroup(RespBytes(a[0]), Remaining(a[1..]), Remaining(b));
    }
  }

  lemma {:induction false} FlattenConcat(a: seq<seq<Byte>>, b: seq<seq<Byte>>)
    ensures Flatten(a + b) == Flatten(a) + Flatten(b)
  {
    if a == [] {
      assert a + b == b;
    } else {
      FlattenConcat(a[1..], b);
      assert (a + b)[1..] == a[1..] + b;
      assert Flatten(a + b) == a[0] + Flatten(a[1..] + b) && Flatten(a) == a[0] + Flatten(a[1..]);
      hide Flatten;
      assert a[0] + (Flatten(a[1..]) + Flatten(b)) == a[0] + Flatten(a[1..]) + Flatten(b);
    }
  }

  lemma FlattenAppend(a: seq<seq<Byte>>, s: seq<Byte>)
    ensures Flatten(a + [s]) == Flatten(a) + s
  {
    FlattenConcat(a, [s]);
    assert [s][1..] == [];
  }

  // ---- Building a response -----------------------------------------------------------------

  lemma {:induction false} SumAppend(vs: seq<Iov>, v: Iov)
    ensures SumLens(vs + [v]) == SumLens(vs) + v.len
  {
    if vs != [] {
      SumAppend(vs[1..], v);
      assert (vs + [v])[1..] == vs[1..] + [v];
    } else {
      assert (vs + [v])[1..] == [];
    }
  }

  /** resp_add_iov */
  function AddIov(r: Resp, bytes: seq<Byte>): Resp {
    r.(iovs := r.iovs + [Iov(Memory(bytes), |bytes|)], tosend := r.tosend + |bytes|)
  }

  /** resp_add_chunked_iov: the first `len` bytes of a chunked item. */
  function AddChunkedIov(r: Resp, header: seq<Byte>, chunks: seq<seq<Byte>>, len: nat): Resp {
    r.(chunked := |r.iovs|, chunkedTotal := len, iovs := r.iovs + [Iov(Item(header, chunks), len)],
      tosend := r.tosend + len)
  }

  lemma BytesFromAppend(r: Resp, r': Resp, x: nat)
    requires RespOk(r) && RespOk(r') && |r'.iovs| == |r.iovs| + 1 && r'.iovs[..|r.iovs|] == r.iovs && x <= |r.iovs|
    requires forall y | 0 <= y < |r.iovs| :: IsChunked(r', y) == IsChunked(r, y)
    requires r.chunked != 0 ==> r'.chunkedTotal == r.chunkedTotal
    ensures BytesFrom(r', x) == BytesFrom(r, x) + IovBytes(r', |r.iovs|)
    decreases |r.iovs| - x
  {
    hide IovBytes, BytesFrom, SumLens, Flatten;
    BytesStep(r', x);
    if x < |r.iovs| {
      BytesFromAppend(r, r', x + 1);
      SameEntry(r, r', x);
      BytesStep(r, x);
      assert IovBytes(r, x) + (BytesFrom(r, x + 1) + IovBytes(r', |r.iovs|))
          == IovBytes(r, x) + BytesFrom(r, x + 1) + IovBytes(r', |r.iovs|);
    } else {
      BytesEnd(r', x + 1);
      BytesEnd(r, x);
    }
  }

  lemma SameEntry(r: Resp, r': Resp, x: nat)
    requires RespOk(r) && RespOk(r') && x < |r.iovs| <= |r'.iovs| && r'.iovs[..|r.iovs|] == r.iovs
    requires IsChunked(r', x) == IsChunked(r, x) && (r.chunked != 0 ==> r'.chunkedTotal == r.chunkedTotal)
    ensures IovBytes(r', x) == IovBytes(r, x)
  {
    assert r'.iovs[x] == r'.iovs[..|r.iovs|][x] == r.iovs[x];
  }

  /** The bytes from one entry on. */
  lemma BytesStep(r: Resp, x: nat)
    requires RespOk(r) && x < |r.iovs|
    ensures BytesFrom(r, x) == IovBytes(r, x) + BytesFrom(r, x + 1)
  {}

  lemma BytesEnd(r: Resp, x: nat)
    requires RespOk(r) && x == |r.iovs|
    ensures BytesFrom(r, x) == []
  {}

  /** Adding an entry adds its bytes at the end and keeps `tosend` the sum of the lengths. */
  lemma AddIovBytes(r: Resp, bytes: seq<Byte>)
    requires RespOk(r) && |r.iovs| < MC_RESP_IOVCOUNT
    ensures RespOk(AddIov(r, bytes)) && BytesFrom(AddIov(r, bytes), 0) == BytesFrom(r, 0) + bytes
  {
    var r' := AddIov(r, bytes);
    SumAppend(r.iovs, Iov(Memory(bytes), |bytes|));
    forall x | 0 <= x < |r'.iovs| ensures IovOk(r', x) { if x < |r.iovs| { assert IovOk(r, x); } }
    BytesFromAppend(r, r', 0);
  }

  /** The same for a chunked item. */
  lemma AddChunkedIovBytes(r: Resp, header: seq<Byte>, chunks: seq<seq<Byte>>, len: nat)
    requires RespOk(r) && 0 < |r.iovs| < MC_RESP_IOVCOUNT && r.chunked == 0 && len <= |Flatten(chunks)|
    ensures RespOk(AddChunkedIov(r, header, chunks, len))
    ensures BytesFrom(AddChunkedIov(r, header, chunks, len), 0) == BytesFrom(r, 0) + Flatten(chunks)[..len]
  {
    var r' := AddChunkedIov(r, header, chunks, len);
    SumAppend(r.iovs, Iov(Item(header, chunks), len));
    forall x | 0 <= x < |r'.iovs| ensures IovOk(r', x) { if x < |r.iovs| { assert IovOk(r, x); } }
    BytesFromAppend(r, r', 0);
  }

  // ---- Where a chunked item may stand -----------------------------------------------------

  /** The bytes the code sends for entry `x`, well formed or not: the chunks of the
      entry that is marked as chunked, the memory at the base of every other one. */
  function Sends(r: Resp, x: nat): seq<Byte>
    requires x < |r.iovs|
  {
    var v := r.iovs[x];
    if IsChunked(r, x) && v.base.Item? then Clip(Flatten(v.base.chunks), r.chunkedTotal - v.len, v.len)
    else Clip(v.base.bytes, 0, v.len)
  }

  function Clip(s: seq<Byte>, from: int, n: nat): seq<Byte> {
    if 0 <= from && from + n <= |s| then s[from..from + n] else []
  }

  function Wire(r: Resp, x: nat): seq<Byte>
    requires x <= |r.iovs|
    decreases |r.iovs| - x
  {
    if x == |r.iovs| then [] else Sends(r, x) + Wire(r, x + 1)
  }

  /** A well-formed response sends its bytes. */
  lemma {:induction false} WireIsBytes(r: Resp, x: nat)
    requires RespOk(r) && x <= |r.iovs|
    ensures Wire(r, x) == BytesFrom(r, x)
    decreases |r.iovs| - x
  {
    if x < |r.iovs| {
      assert IovOk(r, x);
      WireIsBytes(r, x + 1);
    }
  }

  /** A chunked item can be added exactly if it is not the first entry, since index 0
      means none, and no other one was added before, since there is one index. */
  lemma ChunkedOnceNotFirst(r: Resp, header: seq<Byte>, chunks: seq<seq<Byte>>, len: nat)
    requires RespOk(r) && |r.iovs| < MC_RESP_IOVCOUNT && len <= |Flatten(chunks)|
    ensures RespOk(AddChunkedIov(r, header, chunks, len)) <==> |r.iovs| > 0 && r.chunked == 0
  {
    var r' := AddChunkedIov(r, header, chunks, len);
    if |r.iovs| > 0 && r.chunked == 0 {
      AddChunkedIovBytes(r, header, chunks, len);
    } else if |r.iovs| == 0 {
      assert RespOk(r') ==> IovOk(r', 0);
    } else {
      assert IovOk(r, r.chunked) && r'.iovs[r.chunked] == r.iovs[r.chunked];
      assert RespOk(r') ==> IovOk(r', r.chunked);
    }
  }

  /** As the first entry, the item's header memory is sent in place of its value. */
  lemma FirstChunkedSendsHeader()
    ensures var empty := Resp(false, [], 0, 0, 0);
      RespOk(empty) && Wire(AddChunkedIov(empty, [1, 2], [[7], [8]], 2), 0) == [1, 2] && Flatten([[7], [8]]) == [7, 8]
  {
    var r := AddChunkedIov(Resp(false, [], 0, 0, 0), [1, 2], [[7], [8]], 2);
    assert Sends(r, 0) == [1, 2];
    assert Wire(r, 0) == Sends(r, 0) + Wire(r, 1) == [1, 2];
    assert [[7], [8]][1..] == [[8]] && [[8]][1..] == [];
    assert Flatten([[8]]) == [8] + Flatten([]);
  }

  /** After a second chunked item, the first one's header memory is sent in place of its value. */
  lemma SecondChunkedSendsHeader()
    ensures var r := Resp(false, [Iov(Memory([9]), 1), Iov(Item([1], [[7]]), 1)], 1, 1, 2);
      RespOk(r) && Wire(r, 0) == [9, 7] && Wire(AddChunkedIov(r, [2], [[8]], 1), 0) == [9, 1, 8]
  {
    var r := Resp(false, [Iov(Memory([9]), 1), Iov(Item([1], [[7]]), 1)], 1, 1, 2);
    var r' := AddChunkedIov(r, [2], [[8]], 1);
    assert Flatten([[7]]) == [7] + Flatten([]) && Flatten([[8]]) == [8] + Flatten([]);
    assert r.iovs[1..][1..] == [] && SumLens(r.iovs) == 1 + SumLens(r.iovs[1..]) &&
      SumLens(r.iovs[1..]) == 1 + SumLens([]);
    assert Sends(r, 0) == [9] && Sends(r, 1) == [7] && Wire(r, 1) == [7] + Wire(r, 2);
    assert Sends(r', 0) == [9] && Sends(r', 1) == [1] && Sends(r', 2) == [8];
    assert Wire(r', 2) == [8] + Wire(r', 3) && Wire(r', 1) == [1] + Wire(r', 2);
  }

  /** The length of the entry marked as chunked. */
  function ChunkedLen(r: Resp): nat {
    if 0 < r.chunked < |r.iovs| then r.iovs[r.chunked].len else 0
  }

  /** The response with other memory at the header of its chunked item. */
  function Headered(r: Resp, header: seq<Byte>): Resp {
    if 0 < r.chunked < |r.iovs| && r.iovs[r.chunked].base.Item? then
      var v := r.iovs[r.chunked];
      r.(iovs := r.iovs[r.chunked := v.(base := Item(header, v.base.chunks))])
    else r
  }

  lemma {:induction false} WireAppend(r: Resp, r': Resp, x: nat)
    requires |r'.iovs| == |r.iovs| + 1 && x <= |r.iovs|
    requires forall y | x <= y < |r.iovs| :: Sends(r', y) == Sends(r, y)
    ensures Wire(r', x) == Wire(r, x) + Sends(r', |r.iovs|)
    decreases |r.iovs| - x
  {
    hide Sends;
    if x < |r.iovs| {
      WireAppend(r, r', x + 1);
      Regroup(Sends(r, x), Wire(r, x + 1), Sends(r', |r.iovs|));
    } else {
      assert Wire(r', x + 1) == [];
    }
  }

  lemma DifferentStart(a: seq<Byte>, b: seq<Byte>, x: seq<Byte>, y: seq<Byte>)
    requires |a| == |b| && a != b
    ensures a + x != b + y
  {
    assert (a + x)[..|a|] == a && (b + y)[..|b|] == b;
  }

  lemma SameStart(a: seq<Byte>, x: seq<Byte>, y: seq<Byte>)
    requires x != y
    ensures a + x != a + y
  {
    assert (a + x)[|a|..] == x && (a + y)[|a|..] == y;
  }

  /** Two responses that differ in what one entry sends, after equal ones, send different bytes. */
  lemma {:induction false} WireApart(r: Resp, r': Resp, x: nat, k: nat, tail: seq<Byte>)
    requires x <= k < |r.iovs| <= |r'.iovs|
    requires forall y | x <= y < k :: Sends(r', y) == Sends(r, y)
    requires |Sends(r', k)| == |Sends(r, k)| && Sends(r', k) != Sends(r, k)
    ensures Wire(r', x) != Wire(r, x) + tail
    decreases k - x
  {
    hide Sends;
    Regroup(Sends(r, x), Wire(r, x + 1), tail);
    if x < k {
      WireApart(r, r', x + 1, k, tail);
      SameStart(Sends(r, x), Wire(r', x + 1), Wire(r, x + 1) + tail);
    } else {
      DifferentStart(Sends(r', x), Sends(r, x), Wire(r', x + 1), Wire(r, x + 1) + tail);
    }
  }

  function Other(b: Byte): Byte { if b == 0 then 1 else 0 }

  /** Bytes that differ from the given ones everywhere. */
  function Flip(s: seq<Byte>): (t: seq<Byte>)
    ensures |t| == |s| && (s != [] ==> t != s)
  {
    var t := seq(|s|, i requires 0 <= i < |s| => Other(s[i]));
    assert s != [] ==> t[0] != s[0];
    t
  }

  /** Adding the item adds its bytes, with these header memories. */
  ghost predicate AddsValue(r: Resp, own: seq<Byte>, header: seq<Byte>, chunks: seq<seq<Byte>>, len: nat)
    requires len <= |Flatten(chunks)|
  {
    Wire(AddChunkedIov(Headered(r, own), header, chunks, len), 0) == Wire(Headered(r, own), 0) + Flatten(chunks)[..len]
  }

  /** Adding a chunked item adds its bytes to what is sent, whatever the headers hold, exactly if
      it is not the first entry and no other chunked item has bytes to send. */
  lemma ChunkedBytesExactly(r: Resp, chunks: seq<seq<Byte>>, len: nat)
    requires RespOk(r) && |r.iovs| < MC_RESP_IOVCOUNT && 0 < len <= |Flatten(chunks)|
    ensures (forall own, header | |own| >= ChunkedLen(r) && |header| >= len :: AddsValue(r, own, header, chunks, len))
      <==> |r.iovs| > 0 && ChunkedLen(r) == 0
  {
    hide RespOk, Wire, Sends, AddChunkedIov, Headered, AddsValue, Flatten;
    if |r.iovs| == 0 {
      var header := Flip(Flatten(chunks)[..len]);
      FirstFails(r, header, chunks, len);
    } else if ChunkedLen(r) > 0 {
      SecondFails(r, chunks, len);
    } else {
      forall own, header | |own| >= ChunkedLen(r) && |header| >= len ensures AddsValue(r, own, header, chunks, len) {
        AddsHolds(r, own, header, chunks, len);
      }
    }
  }

  lemma FirstFails(r: Resp, header: seq<Byte>, chunks: seq<seq<Byte>>, len: nat)
    requires |r.iovs| == 0 && len <= |Flatten(chunks)| && |header| == len && header != Flatten(chunks)[..len]
    ensures !AddsValue(r, [], header, chunks, len)
    ensures ChunkedLen(r) == 0
  {
    var r' := AddChunkedIov(r, header, chunks, len);
    assert Sends(r', 0) == header[0..len] == header;
    assert Wire(r', 0) == Sends(r', 0) + Wire(r', 1) == header;
  }

  lemma SecondFails(r: Resp, chunks: seq<seq<Byte>>, len: nat)
    requires RespOk(r) && ChunkedLen(r) > 0 && len <= |Flatten(chunks)|
    ensures exists own, header :: |own| >= ChunkedLen(r) && |header| >= len && !AddsValue(r, own, header, chunks, len)
  {
    var k, n := r.chunked, ChunkedLen(r);
    assert IovOk(r, k);
    var own, header := Flip(Sends(r, k)), Flatten(chunks)[..len];
    var was := Headered(r, own);
    var r' := AddChunkedIov(was, header, chunks, len);
    assert Sends(was, k) == Sends(r, k) && |Sends(r, k)| == n;
    assert Sends(r', k) == own[0..n] == own;
    forall y | 0 <= y < k ensures Sends(r', y) == Sends(was, y) { assert r'.iovs[y] == was.iovs[y]; }
    WireApart(was, r', 0, k, Flatten(chunks)[..len]);
    assert !AddsValue(r, own, header, chunks, len);
  }

  lemma AddsHolds(r: Resp, own: seq<Byte>, header: seq<Byte>, chunks: seq<seq<Byte>>, len: nat)
    requires RespOk(r) && |r.iovs| > 0 && ChunkedLen(r) == 0 && len <= |Flatten(chunks)|
    ensures AddsValue(r, own, header, chunks, len)
  {
    var was := Headered(r, own);
    var r' := AddChunkedIov(was, header, chunks, len);
    forall y | 0 <= y < |was.iovs| ensures Sends(r', y) == Sends(was, y) {
      assert IovOk(r, y) && r'.iovs[y] == was.iovs[y];
    }
    WireAppend(was, r', 0);
    assert Sends(r', |was.iovs|) == Flatten(chunks)[0..len] == Flatten(chunks)[..len];
  }

  // ---- _transmit_pre -----------------------------------------------------------------------

  lemma FirstChunk(chunks: seq<seq<Byte>>, c: nat, done: nat, todo: nat)
    requires c < |chunks| && done + todo <= |Flatten(chunks[c..])|
    ensures Flatten(chunks[c..]) == chunks[c] + Flatten(chunks[c + 1..])
    ensures done >= |chunks[c]| ==>
      && done - |chunks[c]| + todo <= |Flatten(chunks[c + 1..])|
      && Flatten(chunks[c..])[done..done + todo] ==
        Flatten(chunks[c + 1..])[done - |chunks[c]|..done - |chunks[c]| + todo]
    ensures done < |chunks[c]| && |chunks[c]| - done <= todo ==>
      && todo - (|chunks[c]| - done) <= |Flatten(chunks[c + 1..])|
      && Flatten(chunks[c..])[done..done + todo] ==
        chunks[c][done..] + Flatten(chunks[c + 1..])[..todo - (|chunks[c]| - done)]
    ensures done < |chunks[c]| && todo < |chunks[c]| - done ==>
      Flatten(chunks[c..])[done..done + todo] == chunks[c][done..done + todo]
  {
    assert chunks[c..][1..] == chunks[c + 1..];
    SliceOfConcat(chunks[c], Flatten(chunks[c + 1..]), done, todo);
  }

  lemma SliceOfConcat(a: seq<Byte>, b: seq<Byte>, done: nat, todo: nat)
    requires done + todo <= |a + b|
    ensures done >= |a| ==> (a + b)[done..done + todo] == b[done - |a|..done - |a| + todo]
    ensures done < |a| && |a| - done <= todo ==> (a + b)[done..done + todo] == a[done..] + b[..todo - (|a| - done)]
    ensures done < |a| && todo < |a| - done ==> (a + b)[done..done + todo] == a[done..done + todo]
  {}

  /** The bytes of the chunks from `c` on that are still wanted. */
  ghost function Wanted(chunks: seq<seq<Byte>>, c: nat, done: nat, todo: int): seq<Byte>
    requires c <= |chunks| && (todo > 0 ==> done + todo <= |Flatten(chunks[c..])|)
  {
    if todo <= 0 then [] else Flatten(chunks[c..])[done..done + todo]
  }

  /** Taking one chunk off the front. */
  lemma WantedStep(chunks: seq<seq<Byte>>, c: nat, done: nat, todo: nat)
    requires c < |chunks| && todo > 0 && done + todo <= |Flatten(chunks[c..])|
    ensures var used := |chunks[c]|;
      if done >= used then
        done - used + todo <= |Flatten(chunks[c + 1..])| &&
          Wanted(chunks, c, done, todo) == Wanted(chunks, c + 1, done - used, todo)
      else
        var n := if used - done > todo then todo else used - done;
        var left := todo - (used - done);
        && (left > 0 ==> left <= |Flatten(chunks[c + 1..])|)
        && Wanted(chunks, c, done, todo) == chunks[c][done..done + n] + Wanted(chunks, c + 1, 0, left)
  {
    hide Flatten;
    FirstChunk(chunks, c, done, todo);
    var rest := Flatten(chunks[c + 1..]);
    if done < |chunks[c]| {
      var left := todo - (|chunks[c]| - done);
      if left > 0 {
        assert rest[0..0 + left] == rest[..left] && chunks[c][done..] == chunks[c][done..done + (|chunks[c]| - done)];
      }
    }
  }

  /** The chunked entry: one vector entry for each chunk, up to the limit. */
  method ChunkEntries(chunks: seq<seq<Byte>>, total: nat, len: nat, out0: seq<seq<Byte>>)
    returns (out: seq<seq<Byte>>, ghost rest: seq<Byte>)
    requires len <= total <= |Flatten(chunks)| && |out0| < IOV_MAX - 1
    ensures Flatten(out) + rest == Flatten(out0) + Flatten(chunks)[total - len..total]
    ensures rest != [] ==> |out| == IOV_MAX - 1
    ensures |out0| <= |out| <= IOV_MAX - 1
    ensures |out| - |out0| <= |Flatten(out)| - |Flatten(out0)|
  {
    hide Flatten, Wanted;
    out := out0;
    var c, done: nat, todo: int := 0, total - len, len;
    WantedAll(chunks, total, len);
    ghost var goal := Flatten(out0) + Wanted(chunks, c, done, todo);
    while c < |chunks| && todo > 0 && |out| < IOV_MAX - 1
      invariant 0 <= c <= |chunks| && (todo > 0 ==> done + todo <= |Flatten(chunks[c..])|)
      invariant Flatten(out) + Wanted(chunks, c, done, todo) == goal
      invariant |out0| <= |out| <= IOV_MAX - 1
      invariant |out| - |out0| <= |Flatten(out)| - |Flatten(out0)|
      decreases |chunks| - c
    {
      var used := |chunks[c]|;
      WantedStep(chunks, c, done, todo);
      if used == 0 {
        c := c + 1;
        continue;
      }
      var skip := 0;
      if done >= used {
        done := done - used;
        c := c + 1;
        continue;
      } else if done > 0 {
        skip := done;
        done := 0;
      }
      var n := if used - skip > todo then todo else used - skip;
      Emit(out, chunks[c][skip..skip + n], Wanted(chunks, c + 1, 0, todo - (used - skip)), goal);
      out := out + [chunks[c][skip..skip + n]];
      todo := todo - (used - skip);
      c := c + 1;
    }
    rest := Wanted(chunks, c, done, todo);
    assert chunks[|chunks|..] == [];
    NothingWanted(chunks, c, done, todo);
  }

  lemma NothingWanted(chunks: seq<seq<Byte>>, c: nat, done: nat, todo: int)
    requires c <= |chunks| && (todo > 0 ==> done + todo <= |Flatten(chunks[c..])|)
    ensures c == |chunks| || todo <= 0 ==> Wanted(chunks, c, done, todo) == []
  {
    assert chunks[|chunks|..] == [];
  }

  lemma WantedAll(chunks: seq<seq<Byte>>, total: nat, len: nat)
    requires len <= total <= |Flatten(chunks)|
    ensures chunks[0..] == chunks && Wanted(chunks, 0, total - len, len) == Flatten(chunks)[total - len..total]
  {
    assert chunks[0..] == chunks;
  }

  lemma Emit(out: seq<seq<Byte>>, piece: seq<Byte>, rest: seq<Byte>, goal: seq<Byte>)
    requires Flatten(out) + (piece + rest) == goal
    ensures Flatten(out + [piece]) + rest == goal && |Flatten(out + [piece])| == |Flatten(out)| + |piece|
  {
    hide Flatten;
    FlattenAppend(out, piece);
    Regroup(Flatten(out), piece, rest);
  }

  /** One entry of such a response. */
  method OneEntry(r: Resp, x: nat, out0: seq<seq<Byte>>) returns (out: seq<seq<Byte>>, ghost part: seq<Byte>)
    requires RespOk(r) && x < |r.iovs| && |out0| < IOV_MAX - 1
    ensures Flatten(out) + part == Flatten(out0) + IovBytes(r, x)
    ensures part != [] ==> |out| >= IOV_MAX - 1
    ensures |out0| <= |out| <= IOV_MAX - 1 && (!IsChunked(r, x) ==> |out| > |out0|)
    ensures |out| - |out0| <= |Flatten(out)| - |Flatten(out0)| + 1
  {
    assert IovOk(r, x);
    var v := r.iovs[x];
    if IsChunked(r, x) {
      out, part := ChunkEntries(v.base.chunks, r.chunkedTotal, v.len, out0);
    } else {
      FlattenAppend(out0, v.base.bytes[..v.len]);
      out, part := out0 + [v.base.bytes[..v.len]], [];
    }
  }

  /** A response with a chunked item: stops when the vector is full. */
  method ChunkedEntries(r: Resp, out0: seq<seq<Byte>>) returns (out: seq<seq<Byte>>, ghost rest: seq<Byte>)
    requires RespOk(r) && |out0| + |r.iovs| < IOV_MAX - 1
    ensures Flatten(out) + rest == Flatten(out0) + BytesFrom(r, 0)
    ensures rest != [] ==> |out| >= IOV_MAX - 1
    ensures |out0| <= |out| <= IOV_MAX - 1
    ensures r.iovs != [] && !IsChunked(r, 0) ==> |out| > |out0|
    ensures |out| - |out0| <= |Flatten(out)| - |Flatten(out0)| + |r.iovs|
  {
    hide RespOk, IovBytes, Flatten;
    out := out0;
    rest := BytesFrom(r, 0);
    ghost var goal := Flatten(out0) + rest;
    var x := 0;
    while x < |r.iovs|
      invariant 0 <= x <= |r.iovs| && |out0| <= |out| < IOV_MAX - 1
      invariant rest == BytesFrom(r, x) && Flatten(out) + rest == goal
      invariant x > 0 && !IsChunked(r, 0) ==> |out| > |out0|
      invariant |out| - |out0| <= |Flatten(out)| - |Flatten(out0)| + x
    {
      IovAt(r, x);
      ghost var out1 := out;
      ghost var part;
      out, part := OneEntry(r, x, out);
      Regroup(Flatten(out1), IovBytes(r, x), BytesFrom(r, x + 1));
      Regroup(Flatten(out), part, BytesFrom(r, x + 1));
      rest := part + BytesFrom(r, x + 1);
      x := x + 1;
      if |out| >= IOV_MAX - 1 { return; }
      assert part == [];
      assert rest == BytesFrom(r, x);
    }
  }

  lemma IovAt(r: Resp, x: nat)
    requires RespOk(r) && x < |r.iovs|
    ensures IovOk(r, x)
  {}

  /** The plain entries of a response, copied as they are. */
  ghost function PlainEntries(r: Resp, x: nat): seq<seq<Byte>>
    requires RespOk(r) && x <= |r.iovs|
    decreases |r.iovs| - x
  {
    if x == |r.iovs| then [] else [IovBytes(r, x)] + PlainEntries(r, x + 1)
  }

  lemma {:induction false} PlainFlatten(r: Resp, x: nat)
    requires RespOk(r) && x <= |r.iovs|
    ensures Flatten(PlainEntries(r, x)) == BytesFrom(r, x) && |PlainEntries(r, x)| == |r.iovs| - x
    decreases |r.iovs| - x
  {
    if x < |r.iovs| {
      PlainFlatten(r, x + 1);
      assert PlainEntries(r, x)[1..] == PlainEntries(r, x + 1);
    }
  }

  /** memcpy of the entries of a response without a chunked item. */
  method CopyEntries(r: Resp) returns (out: seq<seq<Byte>>)
    requires RespOk(r) && r.chunked == 0
    ensures out == PlainEntries(r, 0)
  {
    out := [];
    var x := |r.iovs|;
    while x > 0
      invariant 0 <= x <= |r.iovs| && out == PlainEntries(r, x)
    {
      x := x - 1;
      assert IovOk(r, x);
      out := [r.iovs[x].base.bytes[..r.iovs[x].len]] + out;
    }
  }

  /** One response that is not skipped. */
  method AddResponse(r: Resp, out0: seq<seq<Byte>>) returns (out: seq<seq<Byte>>, ghost rest: seq<Byte>)
    requires RespOk(r) && !r.skip && |out0| + |r.iovs| < IOV_MAX - 1
    ensures Flatten(out) + rest == Flatten(out0) + RespBytes(r)
    ensures rest != [] ==> |out| >= IOV_MAX - 1
    ensures |out0| <= |out| <= IOV_MAX - 1 && (r.iovs != [] ==> |out| > |out0|)
    ensures rest == [] || |out| - |out0| <= |Flatten(out)| - |Flatten(out0)| + |r.iovs|
  {
    hide RespOk, Flatten;
    if r.chunked != 0 {
      out, rest := ChunkedEntries(r, out0);
    } else {
      var entries := CopyEntries(r);
      PlainFlatten(r, 0);
      FlattenConcat(out0, entries);
      out, rest := out0 + entries, [];
    }
  }

  /** One response of the loop below. */
  method PreRound(rs: seq<Resp>, i: nat, out0: seq<seq<Byte>>) returns (out: seq<seq<Byte>>, ghost rest: seq<Byte>)
    requires AllOk(rs) && i < |rs| && |out0| + |rs[i].iovs| < IOV_MAX - 1
    ensures |out| <= IOV_MAX - 1 && (rest != [] ==> |out| >= IOV_MAX - 1)
    ensures (Flatten(out) + rest) + Remaining(rs[i + 1..]) == Flatten(out0) + Remaining(rs[i..])
    ensures out == [] ==> out0 == [] && (rs[i].skip || rs[i].iovs == [])
    ensures Flatten(out0) != [] || (!rs[i].skip && rs[i].tosend > 0) ==> Flatten(out) != []
  {
    hide RespOk, Flatten, RespBytes;
    RemainingHead(rs, i);
    out, rest := out0, [];
    if rs[i].skip {
      assert Flatten(out) + rest == Flatten(out);
      return;
    }
    Regroup(Flatten(out), RespBytes(rs[i]), Remaining(rs[i + 1..]));
    RespBytesFrom(rs[i]);
    FewEntries(rs, i);
    out, rest := AddResponse(rs[i], out);
  }

  /** _transmit_pre for TCP: the vector holds a prefix of the remaining stream,
      all of it unless the vector is full. */
  method TransmitPre(rs: seq<Resp>) returns (out: seq<seq<Byte>>, ghost rest: seq<Byte>)
    requires AllOk(rs)
    ensures Flatten(out) + rest == Remaining(rs)
    ensures |out| <= IOV_MAX - 1
    ensures out == [] ==> rest == [] && forall i | 0 <= i < |rs| :: rs[i].skip || rs[i].iovs == []
    ensures rs == [] ==> out == []
    ensures rs != [] && !rs[0].skip && rs[0].tosend > 0 ==> Flatten(out) != []
  {
    hide RespOk, Flatten, RespBytes;
    out := [];
    rest := [];
    var i := 0;
    EmptyFlatten();
    assert rs[0..] == rs;
    ghost var tail := Remaining(rs);
    while i < |rs| && |out| + |rs[i].iovs| < IOV_MAX - 1
      invariant 0 <= i <= |rs| && |out| <= IOV_MAX - 1 && (i == 0 ==> out == [])
      invariant tail == Remaining(rs[i..]) && (Flatten(out) + rest) + tail == Remaining(rs)
      invariant rest != [] ==> |out| >= IOV_MAX - 1
      invariant out == [] ==> forall j | 0 <= j < i :: rs[j].skip || rs[j].iovs == []
      invariant i > 0 && !rs[0].skip && rs[0].tosend > 0 ==> Flatten(out) != []
    {
      assert rest == [] && Flatten(out) + rest == Flatten(out);
      out, rest := PreRound(rs, i, out);
      i, tail := i + 1, Remaining(rs[i + 1..]);
    }
    if i < |rs| { FewEntries(rs, i); }
    Regroup(Flatten(out), rest, tail);
    rest := rest + tail;
    assert rs[|rs|..] == [];
  }

  lemma RemainingHead(rs: seq<Resp>, i: nat)
    requires AllOk(rs) && i < |rs|
    ensures RespOk(rs[i]) && AllOk(rs[i..]) && AllOk(rs[i + 1..])
    ensures Remaining(rs[i..]) == RespBytes(rs[i]) + Remaining(rs[i + 1..])
    ensures rs[i].skip ==> Remaining(rs[i..]) == Remaining(rs[i + 1..])
  {
    assert rs[i..][1..] == rs[i + 1..];
  }

  lemma EmptyFlatten()
    ensures Flatten([]) == []
  {}

  lemma FewEntries(rs: seq<Resp>, i: nat)
    requires AllOk(rs) && i < |rs|
    ensures |rs[i].iovs| <= MC_RESP_IOVCOUNT
  {}

  // ---- _transmit_post ------------------------------------------------------------------------

  /** Entry `x` after `n` of its bytes were sent. */
  function Advance(r: Resp, x: nat, n: nat): Iov
    requires x < |r.iovs| && n <= r.iovs[x].len
  {
    var v := r.iovs[x];
    if n == v.len then v.(len := 0)
    else if IsChunked(r, x) then v.(len := v.len - n)
    else if v.base.Memory? && n <= |v.base.bytes| then Iov(Memory(v.base.bytes[n..]), v.len - n)
    else v.(len := v.len - n)
  }

  function WithIov(r: Resp, x: nat, v: Iov): Resp
    requires x < |r.iovs| && v.len <= r.iovs[x].len && r.iovs[x].len - v.len <= r.tosend
  {
    r.(iovs := r.iovs[x := v], tosend := r.tosend - (r.iovs[x].len - v.len))
  }

  lemma {:induction false} SumUpdate(vs: seq<Iov>, x: nat, v: Iov)
    requires x < |vs|
    ensures SumLens(vs[x := v]) == SumLens(vs) - vs[x].len + v.len
    ensures SumLens(vs) >= vs[x].len
  {
    if x == 0 {
      assert vs[x := v][1..] == vs[1..];
    } else {
      assert vs[x := v][1..] == vs[1..][x - 1 := v];
      SumUpdate(vs[1..], x - 1, v);
    }
  }

  /** Sending `n` bytes of entry `x` takes exactly those bytes off it. */
  lemma AdvanceBytes(r: Resp, x: nat, n: nat)
    requires RespOk(r) && x < |r.iovs| && n <= r.iovs[x].len
    ensures r.iovs[x].len <= r.tosend
    ensures var r' := WithIov(r, x, Advance(r, x, n));
            RespOk(r') && r'.tosend == r.tosend - n && IovBytes(r', x) == IovBytes(r, x)[n..]
  {
    SumUpdate(r.iovs, x, Advance(r, x, n));
    var r' := WithIov(r, x, Advance(r, x, n));
    assert IovOk(r, x);
    forall y | 0 <= y < |r'.iovs| ensures IovOk(r', y) { assert IovOk(r, y); }
    if IsChunked(r, x) {
      var data, done := Flatten(r.iovs[x].base.chunks), r.chunkedTotal - r.iovs[x].len;
      assert data[done..done + r.iovs[x].len][n..] == data[done + n..done + r.iovs[x].len];
    }
  }

  lemma SameAfter(r: Resp, r': Resp, x: nat, y: nat)
    requires RespOk(r) && RespOk(r') && |r'.iovs| == |r.iovs| && r'.chunked == r.chunked
    requires r'.chunkedTotal == r.chunkedTotal
    requires x < y <= |r.iovs| && r'.iovs == r.iovs[x := r'.iovs[x]]
    ensures BytesFrom(r', y) == BytesFrom(r, y)
    decreases |r.iovs| - y
  {
    hide SumLens, Flatten;
    if y < |r.iovs| {
      SameAfter(r, r', x, y + 1);
      assert IovBytes(r', y) == IovBytes(r, y);
    }
  }

  lemma {:induction false} SentPrefix(r: Resp, x: nat)
    requires RespOk(r) && x <= |r.iovs| && forall y | 0 <= y < x :: r.iovs[y].len == 0
    ensures BytesFrom(r, 0) == BytesFrom(r, x)
  {
    if x > 0 {
      SentPrefix(r, x - 1);
      assert IovBytes(r, x - 1) == [];
    }
  }

  lemma DropConcat(a: seq<Byte>, b: seq<Byte>, n: nat)
    requires n <= |a|
    ensures (a + b)[n..] == a[n..] + b
  {}

  /** One entry of the loop: `n` bytes off entry `x` are `n` bytes off the response from `x` on. */
  lemma EntryTaken(r: Resp, x: nat, n: nat)
    requires RespOk(r) && x < |r.iovs| && n <= r.iovs[x].len
    ensures r.iovs[x].len <= r.tosend && Advance(r, x, n).len == r.iovs[x].len - n
    ensures var r' := WithIov(r, x, Advance(r, x, n));
            && RespOk(r') && r'.tosend == r.tosend - n && r'.skip == r.skip && |r'.iovs| == |r.iovs|
            && r'.iovs[x].len == r.iovs[x].len - n && (forall y | 0 <= y < x :: r'.iovs[y] == r.iovs[y])
            && n <= |BytesFrom(r, x)| && BytesFrom(r', x) == BytesFrom(r, x)[n..]
            && BytesFrom(r', x + 1) == BytesFrom(r, x + 1)
  {
    hide IovBytes, BytesFrom, SumLens, Flatten;
    AdvanceBytes(r, x, n);
    var r' := WithIov(r, x, Advance(r, x, n));
    BytesStep(r, x);
    BytesStep(r', x);
    SameAfter(r, r', x, x + 1);
    DropConcat(IovBytes(r, x), BytesFrom(r, x + 1), n);
  }

  /** The entry loop: the accepted bytes are taken off one entry after another. */
  method TakeFromEntries(r0: Resp, res0: nat) returns (r: Resp)
    requires RespOk(r0) && !r0.skip && res0 < r0.tosend
    ensures RespOk(r) && r.skip == r0.skip && r.tosend == r0.tosend - res0
    ensures res0 <= |RespBytes(r0)| && RespBytes(r) == RespBytes(r0)[res0..]
  {
    hide RespOk, IovBytes, BytesFrom, Advance, WithIov, RespBytes;
    RespBytesFrom(r0);
    r := r0;
    var res: nat, x := res0, 0;
    ghost var goal := RespBytes(r0)[res0..];
    while x < |r.iovs|
      invariant 0 <= x <= |r.iovs| && RespOk(r) && !r.skip && |r.iovs| == |r0.iovs|
      invariant r.tosend == r0.tosend - (res0 - res) && res <= |BytesFrom(r, x)|
      invariant BytesFrom(r, x)[res..] == goal
      invariant forall y | 0 <= y < x :: r.iovs[y].len == 0
    {
      IovAt(r, x);
      if res >= r.iovs[x].len {
        var n := r.iovs[x].len;
        EntryTaken(r, x, n);
        DropTwice(BytesFrom(r, x), n, res);
        r := WithIov(r, x, Advance(r, x, n));
        EmptyEntry(r, x);
        res := res - n;
        x := x + 1;
      } else {
        EntryTaken(r, x, res);
        r := WithIov(r, x, Advance(r, x, res));
        res := 0;
        break;
      }
    }
    SentPrefix(r, x);
    RespBytesFrom(r);
    NoEntries(r);
    assert BytesFrom(r, x)[res..] == BytesFrom(r, x);
  }

  lemma RespBytesFrom(r: Resp)
    requires RespOk(r) && !r.skip
    ensures RespBytes(r) == BytesFrom(r, 0) && |RespBytes(r)| == r.tosend
  {}

  lemma NoEntries(r: Resp)
    requires RespOk(r)
    ensures BytesFrom(r, |r.iovs|) == []
  {}

  lemma EmptyEntry(r: Resp, x: nat)
    requires RespOk(r) && x < |r.iovs| && r.iovs[x].len == 0
    ensures BytesFrom(r, x) == BytesFrom(r, x + 1)
  {
    assert IovBytes(r, x) == [];
  }

  lemma DropTwice(a: seq<Byte>, n: nat, m: nat)
    requires n <= m <= |a|
    ensures a[n..][m - n..] == a[m..]
  {}

  /** _transmit_post: exactly the accepted bytes leave the stream, `tosend` stays
      the sum of the lengths, and what is left starts with bytes to send. */
  method TransmitPost(rs: seq<Resp>, res0: nat) returns (left: seq<Resp>)
    requires AllOk(rs) && res0 <= |Remaining(rs)|
    ensures AllOk(left) && Remaining(left) == Remaining(rs)[res0..]
    ensures left != [] ==> !left[0].skip && left[0].tosend > 0
    ensures left == [] <==> res0 == |Remaining(rs)|
    ensures |left| <= |rs| && (rs != [] && (rs[0].skip || rs[0].tosend == 0) ==> |left| < |rs|)
  {
    hide RespOk, RespBytes, Remaining;
    left := rs;
    var res: nat := res0;
    ghost var goal := Remaining(rs)[res0..];
    while left != []
      invariant AllOk(left) && res <= |Remaining(left)| && Remaining(left)[res..] == goal
      invariant |left| < |rs| || left == rs
      decreases |left|
    {
      assert left[0..] == left;
      RemainingHead(left, 0);
      ghost var tail := Remaining(left[1..]);
      if left[0].skip {
        left := left[1..];
        continue;
      }
      RespBytesFrom(left[0]);
      if res >= left[0].tosend {
        DropFirst(RespBytes(left[0]), tail, res);
        res := res - left[0].tosend;
        left := left[1..];
        continue;
      }
      var r := TakeFromEntries(left[0], res);
      DropConcat(RespBytes(left[0]), tail, res);
      RespBytesFrom(r);
      left := [r] + left[1..];
      RemainingHead(left, 0);
      assert left[0..] == left;
      return;
    }
    NothingRemains();
  }

  lemma NothingRemains()
    ensures AllOk([]) && Remaining([]) == []
  {}

  lemma DropFirst(a: seq<Byte>, b: seq<Byte>, n: nat)
    requires |a| <= n <= |a| + |b|
    ensures (a + b)[n..] == b[n - |a|..]
  {}

  // ---- The connection ---------------------------------------------------------------------------

  datatype TransmitResult = Complete | Incomplete | SoftError

  /** A connection: its queue of responses, and, for the proof, every byte ever
      queued and every byte the kernel has accepted. */
  class Conn {
    var resps: seq<Resp>
    ghost var queued: seq<Byte>
    ghost var sent: seq<Byte>

    ghost predicate Valid()
      reads this
    {
      AllOk(resps) && sent + Remaining(resps) == queued
    }

    constructor ()
      ensures Valid() && resps == [] && queued == [] && sent == []
    {
      resps, queued, sent := [], [], [];
    }

    /** A finished response joins the end of the queue. */
    method Queue(r: Resp)
      requires Valid() && RespOk(r)
      modifies this
      ensures Valid() && resps == old(resps) + [r]
      ensures sent == old(sent) && queued == old(queued) + RespBytes(r)
    {
      RemainingConcat(resps, [r]);
      assert [r][1..] == [] && Remaining([r]) == RespBytes(r);
      Regroup(sent, Remaining(resps), RespBytes(r));
      resps := resps + [r];
      queued := queued + RespBytes(r);
    }

    /** transmit: one sendmsg, of which the kernel accepts `accept` bytes at most,
        or none with an error (`accept < 0`, to be retried). The bytes on the wire
        are the next bytes of the stream; completion means nothing is left. */
    method TransmitOnce(accept: int) returns (result: TransmitResult)
      requires Valid()
      modifies this
      ensures Valid() && queued == old(queued) && old(sent) <= sent <= queued
      ensures result.Complete? <==> resps == []
      ensures result.Complete? ==> sent == queued
      ensures result.SoftError? ==> resps == old(resps)
      ensures result.SoftError? ==> accept < 0
      ensures |sent| - |old(sent)| <= if accept < 0 then 0 else accept
      ensures |resps| <= |old(resps)|
      ensures accept > 0 && result.Incomplete? ==> |sent| > |old(sent)| || |resps| < |old(resps)|
    {
      hide RespOk, RespBytes, Flatten;
      var iovs, rest := TransmitPre(resps);
      if iovs == [] {
        EmptyFlatten();
        assert Remaining(resps) == [];
        resps := TransmitPost(resps, 0);
        return Complete;
      }
      if accept < 0 {
        return SoftError;
      }
      ghost var stream := Flatten(iovs);
      var res := Accepted(iovs, accept);
      ghost var was := Remaining(resps);
      assert was[..res] == stream[..res];
      resps := TransmitPost(resps, res);
      assert was == was[..res] + was[res..];
      Regroup(sent, was[..res], was[res..]);
      sent := sent + was[..res];
      if resps != [] { return Incomplete; } else { return Complete; }
    }

    /** Any sequence of partial sends keeps sending the stream in order. As many sends
        that accept something as there are bytes and responses send all of it. */
    method TransmitMany(accepts: seq<int>)
      requires Valid()
      modifies this
      ensures Valid() && queued == old(queued) && old(sent) <= sent <= queued
      ensures sent + Remaining(resps) == queued
      ensures (forall i | 0 <= i < |accepts| :: accepts[i] > 0) ==>
        |accepts| >= |old(Remaining(resps))| + |old(resps)| ==> resps == [] && sent == queued
    {
      hide RespOk, RespBytes, Remaining;
      for i := 0 to |accepts|
        invariant Valid() && queued == old(queued) && old(sent) <= sent <= queued
        invariant (forall j | 0 <= j < i :: accepts[j] > 0) ==>
          resps == [] || |Remaining(resps)| + |resps| + i <= |old(Remaining(resps))| + |old(resps)|
      {
        var result := TransmitOnce(accepts[i]);
      }
      NothingRemains();
    }
  }

  /** What sendmsg reports: no more than the vector holds. */
  method Accepted(iovs: seq<seq<Byte>>, accept: nat) returns (res: nat)
    ensures res <= accept && res <= |Flatten(iovs)|
    ensures res == accept || res == |Flatten(iovs)|
  {
    var total, i := 0, 0;
    assert iovs[..0] == [];
    while i < |iovs|
      invariant 0 <= i <= |iovs| && total == |Flatten(iovs[..i])|
    {
      assert iovs[..i + 1] == iovs[..i] + [iovs[i]];
      FlattenAppend(iovs[..i], iovs[i]);
      total := total + |iovs[i]|;
      i := i + 1;
    }
    assert iovs[..i] == iovs;
    res := if accept <= total then accept else total;
  }
}

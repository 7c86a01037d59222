/**
 * Large items and the append and prepend commands of memcached.c.
 *
 * The value of an item that is larger than one slab chunk is held in a chain of
 * chunks that starts with an empty one inside the item header. A chain is filled
 * by copying from another item, whose own chain is cut differently, and it grows
 * by a chunk whenever it becomes full.
 */
module ChunkCopy {
  import opened ByteStrings

  /** item_chunk: a buffer of which the first `used` bytes are in use. */
  class Chunk {
    var data: seq<Byte>
    var used: nat
    var next: Chunk?

    constructor (size: nat)
      ensures |data| == size && used == 0 && next == null
    {
      data, used, next := seq(size, _ => 0), 0, null;
    }

    predicate Full()
      reads this
    {
      used == |data|
    }
  }

  /** The slab allocator, by its answers: whether request number `k` is granted. */
  predicate Granted(grants: seq<bool>, k: nat) {
    k < |grants| && grants[k]
  }

  ghost predicate AllGranted(grants: seq<bool>, a: nat, b: nat) {
    forall k | a <= k < b :: Granted(grants, k)
  }

  /** The chunks of one chain, from the header chunk on. */
  ghost predicate Chain(cs: seq<Chunk>)
    reads cs
  {
    && cs != []
    && (forall i, j | 0 <= i < j < |cs| :: cs[i] != cs[j])
    && (forall i | 0 <= i < |cs| - 1 :: cs[i].next == cs[i + 1])
    && cs[|cs| - 1].next == null
  }

  /** Only the last chunk may have room. */
  ghost predicate Packed(cs: seq<Chunk>)
    reads cs
  {
    forall i | 0 <= i < |cs| - 1 :: cs[i].Full()
  }

  ghost predicate Sized(cs: seq<Chunk>)
    reads cs`used, cs`data
  {
    forall i | 0 <= i < |cs| :: cs[i].used <= |cs[i].data|
  }

  /** The bytes held by a chain. */
  ghost function Bytes(cs: seq<Chunk>): seq<Byte>
    requires Sized(cs)
    reads cs`used, cs`data
  {
    if cs == [] then []
    else Bytes(cs[..|cs| - 1]) + cs[|cs| - 1].data[..cs[|cs| - 1].used]
  }

  /** A well-formed chain that holds the value `v`. */
  ghost predicate Holds(cs: seq<Chunk>, v: seq<Byte>)
    reads cs
  {
    Chain(cs) && Sized(cs) && Bytes(cs) == v
  }

  ghost function Last(cs: seq<Chunk>): Chunk
    requires cs != []
  {
    cs[|cs| - 1]
  }

  /** Where chunk `k` starts in the bytes of its chain. */
  ghost function Offset(cs: seq<Chunk>, k: nat): nat
    requires k <= |cs|
    reads cs`used
  {
    if k == 0 then 0 else Offset(cs, k - 1) + cs[k - 1].used
  }

  lemma {:induction false} OffsetPrefix(cs: seq<Chunk>, n: nat, k: nat)
    requires k <= n <= |cs|
    ensures Offset(cs[..n], k) == Offset(cs, k)
  {
    if k > 0 { OffsetPrefix(cs, n, k - 1); }
  }

  /** A chunk's bytes stand in the chain's bytes at the chunk's offset. */
  lemma {:induction false} BytesAt(cs: seq<Chunk>, k: nat, a: nat, b: nat)
    requires Sized(cs) && k < |cs| && a <= b <= cs[k].used
    ensures Offset(cs, k) + b <= |Bytes(cs)| == Offset(cs, |cs|)
    ensures Bytes(cs)[Offset(cs, k) + a..Offset(cs, k) + b] == cs[k].data[a..b]
  {
    var n := |cs| - 1;
    BytesLength(cs[..n]);
    OffsetPrefix(cs, n, n);
    if k < n {
      BytesAt(cs[..n], k, a, b);
      OffsetPrefix(cs, n, k);
      assert Bytes(cs)[..|Bytes(cs[..n])|] == Bytes(cs[..n]);
    }
  }

  lemma {:induction false} BytesLength(cs: seq<Chunk>)
    requires Sized(cs)
    ensures |Bytes(cs)| == Offset(cs, |cs|)
  {
    if cs != [] {
      var n := |cs| - 1;
      BytesLength(cs[..n]);
      OffsetPrefix(cs, n, n);
    }
  }

  /** The piece of the value that lies in one chunk. */
  lemma Piece(cs: seq<Chunk>, v: seq<Byte>, k: nat, a: nat, b: nat)
    requires Holds(cs, v) && k < |cs| && a <= b <= cs[k].used
    ensures cs[k].used <= |cs[k].data| && Offset(cs, k) + b <= |v|
    ensures v[Offset(cs, k) + a..Offset(cs, k) + b] == cs[k].data[a..b]
    ensures |v| == Offset(cs, |cs|)
  {
    BytesAt(cs, k, a, b);
  }

  lemma OnlyLastEnds(cs: seq<Chunk>, k: nat)
    requires Chain(cs) && k < |cs|
    ensures cs[k].next == null <==> k == |cs| - 1
  {
    if k < |cs| - 1 {
      var after: Chunk := cs[k + 1];
      assert cs[k].next == after;
    }
  }

  lemma HoldsFacts(cs: seq<Chunk>, v: seq<Byte>)
    requires Holds(cs, v)
    ensures Chain(cs) && cs != [] && Last(cs).used <= |Last(cs).data|
  {}

  /** Adds bytes to the last chunk of a chain. */
  method Put(d: Chunk, ghost cs: seq<Chunk>, ghost v: seq<Byte>, piece: seq<Byte>)
    requires Holds(cs, v) && Packed(cs) && d == Last(cs) && d.used + |piece| <= |d.data|
    modifies d`used, d`data
    ensures Holds(cs, v + piece) && Packed(cs)
    ensures d.used == old(d.used) + |piece| && |d.data| == old(|d.data|)
  {
    assert d !in cs[..|cs| - 1];
    ghost var was := d.data[..d.used];
    d.data := d.data[..d.used] + piece + d.data[d.used + |piece|..];
    d.used := d.used + |piece|;
    assert d.data[..d.used] == was + piece;
  }

  /** do_item_alloc_chunk, where the slab allocator had memory. */
  method AllocChunk(d: Chunk, ghost cs: seq<Chunk>, ghost v: seq<Byte>, remain: nat, maxData: nat) returns (t: Chunk)
    requires Holds(cs, v) && Packed(cs) && d == Last(cs) && d.Full()
    modifies d`next
    ensures fresh(t) && t.used == 0 && |t.data| == if remain <= maxData then remain else maxData
    ensures Holds(cs + [t], v) && Packed(cs + [t])
  {
    t := new Chunk(if remain <= maxData then remain else maxData);
    d.next := t;
    assert (cs + [t])[..|cs|] == cs;
  }

  /** The chunk at which a copy goes on: the first with room, or the last. */
  method FirstRoom(head: Chunk, ghost cs: seq<Chunk>) returns (d: Chunk)
    requires Chain(cs) && Packed(cs) && head == cs[0]
    ensures cs != [] && d == Last(cs)
  {
    d := head;
    ghost var i := 0;
    while d.Full()
      invariant 0 <= i < |cs| && d == cs[i]
      decreases |cs| - i
    {
      OnlyLastEnds(cs, i);
      if d.next == null {
        break;
      }
      d := d.next;
      i := i + 1;
    }
  }

  /** One round of a copy: adds bytes, then a chunk if the last one is full. */
  method Fill(d: Chunk, ghost cs: seq<Chunk>, ghost v: seq<Byte>, piece: seq<Byte>, remain: nat, maxData: nat,
        granted: bool)
    returns (asked: bool, t: Chunk)
    requires Holds(cs, v) && Packed(cs) && d == Last(cs) && d.used + |piece| <= |d.data|
    modifies d
    ensures asked <==> old(d.used) + |piece| == old(|d.data|)
    ensures t == d || (fresh(t) && t.used == 0 && |t.data| == if remain <= maxData then remain else maxData)
    ensures t == d <==> !(asked && granted)
    ensures t == d ==> Holds(cs, v + piece) && Packed(cs)
    ensures t == d ==> d.used == old(d.used) + |piece| && |d.data| == old(|d.data|)
    ensures t != d ==> Holds(cs + [t], v + piece) && Packed(cs + [t])
  {
    Put(d, cs, v, piece);
    asked := d.Full();
    t := d;
    if asked && granted {
      t := AllocChunk(d, cs, v + piece, remain, maxData);
    }
  }

  lemma Join(v: seq<Byte>, w: seq<Byte>, a: nat, b: nat)
    requires a <= b <= |w|
    ensures v + w[..a] + w[a..b] == v + w[..b]
  {}

  /** How far a copy got: `m` bytes arrived, and only a refused request stops it. */
  ghost predicate Copied(ok: bool, m: nat, len: nat, grants: seq<bool>, asked: nat, next: nat) {
    && m <= len && asked <= next
    && (ok ==> m == len && AllGranted(grants, asked, next))
    && (!ok ==> asked < next && !Granted(grants, next - 1))
  }

  /** A chain after some chunks were added to it. */
  ghost predicate Grown(cs: seq<Chunk>, grown: seq<Chunk>, v: seq<Byte>)
    reads grown
  {
    cs <= grown && Holds(grown, v) && Packed(grown)
  }

  /** One round of a copy, as it appears to the loops around it. */
  method Round(d: Chunk, ghost cs: seq<Chunk>, ghost chain: seq<Chunk>, ghost v: seq<Byte>, ghost w: seq<Byte>,
        piece: seq<Byte>,
               ghost at: nat, remain: nat, maxData: nat, grants: seq<bool>, ghost asked: nat, next: nat)
    returns (ok: bool, after: nat, t: Chunk, ghost grown: seq<Chunk>)
    requires at + |piece| <= |w| && w[at..at + |piece|] == piece
    requires chain != [] && d == Last(chain) && d.used + |piece| <= |d.data|
    requires Grown(cs, chain, v + w[..at])
    requires asked <= next && AllGranted(grants, asked, next)
    modifies d
    ensures grown != [] && t == Last(grown) && Grown(cs, grown, v + w[..at + |piece|])
    ensures ok ==> asked <= after && AllGranted(grants, asked, after)
    ensures !ok ==> asked < after && !Granted(grants, after - 1)
    ensures grown == chain ||
      (grown == chain + [t] && fresh(t) && t.used == 0 && |t.data| == if remain <= maxData then remain else maxData)
    ensures old(d.used) + |piece| == old(|d.data|) && ok ==> grown != chain
    ensures grown == chain && ok ==> d.used == old(d.used) + |piece| && |d.data| == old(|d.data|)
  {
    hide Holds, Packed, Chain, Bytes, Sized;
    var full;
    full, t := Fill(d, chain, v + w[..at], piece, remain, maxData, Granted(grants, next));
    Join(v, w, at, at + |piece|);
    ok, after, grown := true, next, chain;
    if full {
      after := next + 1;
      if t == d {
        return false, after, t, grown;
      }
      grown := chain + [t];
    }
  }

  /** _store_item_copy_chunks from an item in one piece. */
  method CopyFlat(head: Chunk, ghost cs: seq<Chunk>, ghost v: seq<Byte>, src: seq<Byte>, len: nat, maxData: nat,
                  grants: seq<bool>, asked: nat)
    returns (ok: bool, next: nat, ghost grown: seq<Chunk>, ghost m: nat)
    requires Holds(cs, v) && Packed(cs) && head == cs[0] && len <= |src| && maxData > 0
    modifies Last(cs)
    ensures Copied(ok, m, len, grants, asked, next)
    ensures Grown(cs, grown, v + src[..m])
    ensures forall i | |cs| <= i < |grown| :: fresh(grown[i])
  {
    hide Holds, Packed, Chain, Bytes, Sized;
    HoldsFacts(cs, v);
    ok, next, grown := true, asked, cs;
    var d := FirstRoom(head, cs);
    var done := 0;
    assert v + src[..0] == v;
    while len > done
      invariant done <= len && ok && asked <= next
      invariant Grown(cs, grown, v + src[..done])
      invariant grown != [] && d == Last(grown) && (d == Last(cs) || fresh(d))
      invariant forall i | |cs| <= i < |grown| :: fresh(grown[i])
      invariant AllGranted(grants, asked, next)
      decreases len - done, |d.data| - d.used == 0
    {
      HoldsFacts(grown, v + src[..done]);
      var room := |d.data| - d.used;
      var todo := if room < len - done then room else len - done;
      ok, next, d, grown := Round(d, cs, grown, v, src, src[done..done + todo], done, len - done - todo,
        maxData, grants, asked, next);
      done := done + todo;
      if !ok { return ok, next, grown, done; }
    }
    m := done;
  }

  /** Where the copy stands in the chain it reads. */
  ghost predicate At(src: seq<Chunk>, sch: Chunk?, k: nat, copied: nat, done: nat)
    reads src
  {
    && k <= |src|
    && (k == |src| ==> sch == null && copied == 0)
    && (k < |src| ==> sch == src[k] && copied <= src[k].used <= |src[k].data|)
    && done == Offset(src, k) + copied
  }

  /** The source is passed on to the next chunk once all of it is copied. */
  method Pass(sch: Chunk, ghost src: seq<Chunk>, ghost w: seq<Byte>, ghost k: nat, copied: nat, ghost done: nat)
    returns (next: Chunk?, at: nat, ghost j: nat)
    requires Holds(src, w) && k < |src| && At(src, sch, k, copied, done)
    ensures At(src, next, j, at, done) && k <= j <= k + 1 && j <= |src|
    ensures j == k <==> copied < sch.used
    ensures copied < sch.used ==> next == sch && at == copied
    ensures copied == sch.used ==> next == sch.next && at == 0
  {
    next, at, j := sch, copied, k;
    if copied == sch.used {
      OnlyLastEnds(src, k);
      at, next, j := 0, sch.next, k + 1;
      if j < |src| { Piece(src, w, j, 0, 0); }
    }
  }

  /** The state of a copy from a chunked item: `done` bytes of `w` have arrived. */
  ghost predicate Copying(cs: seq<Chunk>, v: seq<Byte>, grown: seq<Chunk>, d: Chunk, src: seq<Chunk>, w: seq<Byte>,
                          sch: Chunk?, k: nat, copied: nat, done: nat, len: nat)
    reads grown, src
  {
    && done <= len <= |w| && k <= |src| && grown != [] && d == Last(grown)
    && Grown(cs, grown, v + w[..done]) && Holds(src, w) && At(src, sch, k, copied, done)
  }

  /** One round: the bytes that fit, a new chunk if the last one is full, the next source chunk if this one is used
      up. */
  method ChunkRound(d: Chunk, ghost cs: seq<Chunk>, ghost v: seq<Byte>, ghost chain: seq<Chunk>,
                    sch: Chunk, ghost src: seq<Chunk>, ghost w: seq<Byte>, ghost k: nat, copied: nat,
                      remain: nat, ghost len: nat,
                    maxData: nat, grants: seq<bool>, ghost asked: nat, next: nat)
    returns (ok: bool, after: nat, t: Chunk, ghost grown: seq<Chunk>, from: Chunk?, at: nat, left: nat, ghost j: nat)
    requires 0 < remain <= len && maxData > 0 && d !in src
    requires Copying(cs, v, chain, d, src, w, sch, k, copied, len - remain, len)
    requires asked <= next && AllGranted(grants, asked, next)
    modifies d
    ensures left <= remain && ((grown == chain && t == d) || (grown == chain + [t] && fresh(t)))
    ensures ok ==> Copying(cs, v, grown, t, src, w, from, j, at, len - left, len)
    ensures ok ==> asked <= after && AllGranted(grants, asked, after)
    ensures !ok ==> grown != [] && Grown(cs, grown, v + w[..len - left]) && asked < after && !Granted(grants, after - 1)
    ensures ok ==> left < remain || j > k || (j == k && old(d.used == |d.data|) && t.used < |t.data|)
    ensures ok ==> j >= k
  {
    hide Holds, Packed, Chain, Bytes, Sized, Offset, Grown, AllGranted, Granted, At;
    ghost var done := len - remain;
    GrownFacts(cs, chain, v + w[..done]);
    SourceFacts(src, w, sch, k, copied, done);
    var todo := Least(|d.data| - d.used, sch.used - copied, remain);
    Piece(src, w, k, copied, copied + todo);
    ok, after, t, grown := Round(d, cs, chain, v, w, sch.data[copied..copied + todo], done, remain - todo,
      maxData, grants, asked, next);
    left, from, at, j := remain - todo, sch, copied, k;
    if ok {
      Advance(src, sch, k, copied, done, todo);
      from, at, j := Pass(sch, src, w, k, copied + todo, done + todo);
    }
  }

  /** _store_item_copy_chunks from a chunked item. */
  method CopyChunked(head: Chunk, ghost cs: seq<Chunk>, ghost v: seq<Byte>,
                     from: Chunk, ghost src: seq<Chunk>, ghost w: seq<Byte>, len: nat, maxData: nat,
                     grants: seq<bool>, asked: nat)
    returns (ok: bool, next: nat, ghost grown: seq<Chunk>, ghost m: nat)
    requires Holds(cs, v) && Packed(cs) && head == cs[0] && maxData > 0
    requires Holds(src, w) && from == src[0] && len <= |w| && Last(cs) !in src
    modifies Last(cs)
    ensures Copied(ok, m, len, grants, asked, next)
    ensures Grown(cs, grown, v + w[..m])
    ensures forall i | |cs| <= i < |grown| :: fresh(grown[i])
  {
    hide Holds, Packed, Chain, Bytes, Sized, Offset, Grown, AllGranted, Granted, At;
    HoldsFacts(cs, v);
    HoldsFacts(src, w);
    Begin(cs, v, w, grants, asked);
    Start(src, w);
    ok, next, grown := true, asked, cs;
    var d := FirstRoom(head, cs);
    var remain: nat, sch: Chunk?, copied: nat := len, from, 0;
    ghost var k := 0;
    while sch != null && remain != 0
      invariant remain <= len && ok && asked <= next && AllGranted(grants, asked, next)
      invariant Copying(cs, v, grown, d, src, w, sch, k, copied, len - remain, len)
      invariant |cs| <= |grown| && (d == Last(cs) || fresh(d))
      invariant forall i | |cs| <= i < |grown| :: fresh(grown[i])
      decreases remain, |src| - k, |d.data| == d.used
    {
      ok, next, d, grown, sch, copied, remain, k :=
        ChunkRound(d, cs, v, grown, sch, src, w, k, copied, remain, len, maxData, grants, asked, next);
      if !ok { return ok, next, grown, len - remain; }
    }
    Finish(src, w, k, copied, len - remain);
    m := len;
  }

  /** The bytes moved in one round. */
  function Least(room: nat, left: nat, remain: nat): (n: nat)
    ensures n <= room && n <= left && n <= remain && (n == room || n == left || n == remain)
  {
    var todo := if room < left then room else left;
    if remain < todo then remain else todo
  }

  lemma SourceFacts(src: seq<Chunk>, w: seq<Byte>, sch: Chunk, k: nat, copied: nat, done: nat)
    requires Holds(src, w) && At(src, sch, k, copied, done)
    ensures k < |src| && sch == src[k] && copied <= sch.used && Offset(src, k) + copied == done
  {}

  lemma Advance(src: seq<Chunk>, sch: Chunk, k: nat, copied: nat, done: nat, n: nat)
    requires At(src, sch, k, copied, done) && copied + n <= sch.used
    ensures At(src, sch, k, copied + n, done + n)
  {}

  lemma Begin(cs: seq<Chunk>, v: seq<Byte>, w: seq<Byte>, grants: seq<bool>, asked: nat)
    requires Holds(cs, v) && Packed(cs)
    ensures Grown(cs, cs, v + w[..0]) && AllGranted(grants, asked, asked)
  {
    assert v + w[..0] == v;
  }

  lemma GrownFacts(cs: seq<Chunk>, grown: seq<Chunk>, v: seq<Byte>)
    requires Grown(cs, grown, v)
    ensures grown != [] && |cs| <= |grown| && Last(grown).used <= |Last(grown).data|
  {}

  lemma Start(src: seq<Chunk>, w: seq<Byte>)
    requires Holds(src, w)
    ensures At(src, src[0], 0, 0, 0)
  {}

  lemma Finish(src: seq<Chunk>, w: seq<Byte>, k: nat, copied: nat, done: nat)
    requires Holds(src, w) && k <= |src|
    ensures At(src, null, k, copied, done) ==> done == |w|
  {
    BytesLength(src);
  }

  /** An item's value: in one piece, or in a chain of chunks. `data` is the item's own
      memory from ITEM_data on, where a chunked item keeps its first chunk's header, and
      `behind` is what other items hold in the bytes that follow. */
  class Item {
    const chunked: bool
    const nbytes: nat
    const behind: nat -> Byte
    var data: seq<Byte>
    var head: Chunk?
    ghost var chain: seq<Chunk>

    constructor (chunked: bool, nbytes: nat, behind: nat -> Byte)
      ensures this.chunked == chunked && this.nbytes == nbytes && this.behind == behind && Empty()
      ensures fresh(chain)
    {
      this.chunked, this.nbytes, this.behind := chunked, nbytes, behind;
      var first := new Chunk(0);
      data, head, chain := seq(nbytes, _ => 0), first, [first];
      new;
      assert chain[..0] == [];
    }

    /** As do_item_alloc leaves it. */
    ghost predicate Empty()
      reads this, chain
    {
      if chunked then chain != [] && head == chain[0] && Holds(chain, []) && Packed(chain) else |data| == nbytes
    }

    /** What memcpy reads from ITEM_data on. */
    function Memory(n: nat): (m: seq<Byte>)
      reads `data
      ensures |m| == n && (n <= |data| ==> m == data[..n])
    {
      if n <= |data| then data[..n] else data + seq(n - |data|, i requires 0 <= i => behind(i))
    }

    /** The item's value is `v`. */
    ghost predicate Is(v: seq<Byte>)
      reads this, chain
    {
      if chunked then chain != [] && head == chain[0] && Holds(chain, v) else nbytes <= |data| && data[..nbytes] == v
    }
  }

  /** _store_item_copy_chunks: the first `len` bytes of `src` are added to `dst`. */
  method CopyChunks(dst: Item, ghost v: seq<Byte>, src: Item, ghost w: seq<Byte>, len: nat, maxData: nat,
                    grants: seq<bool>, asked: nat)
    returns (ok: bool, next: nat, ghost m: nat)
    requires dst.chunked && dst != src && dst.Is(v) && Packed(dst.chain) && src.Is(w) && len <= |w| && maxData > 0
    requires src.chunked ==> Last(dst.chain) !in src.chain
    modifies dst`chain, Last(dst.chain)
    ensures Copied(ok, m, len, grants, asked, next)
    ensures dst.Is(v + w[..m]) && Packed(dst.chain)
    ensures Last(dst.chain) == old(Last(dst.chain)) || fresh(Last(dst.chain))
  {
    hide Holds, Packed, Bytes, Sized;
    ghost var grown;
    if src.chunked {
      ok, next, grown, m := CopyChunked(dst.head, dst.chain, v, src.head, src.chain, w, len, maxData, grants, asked);
    } else {
      ok, next, grown, m := CopyFlat(dst.head, dst.chain, v, src.data, len, maxData, grants, asked);
      assert src.data[..m] == w[..m];
    }
    GrownFacts(dst.chain, grown, v + w[..m]);
    dst.chain := grown;
  }

  /** What append and prepend store: the two values with one line end. */
  function Joined(append: bool, oldValue: seq<Byte>, add: seq<Byte>): seq<Byte>
    requires |oldValue| >= 2 && |add| >= 2
  {
    if append then oldValue[..|oldValue| - 2] + add else add[..|add| - 2] + oldValue
  }

  lemma JoinedValue(append: bool, x: seq<Byte>, y: seq<Byte>)
    ensures Joined(append, x + CRLF, y + CRLF) == (if append then x + y else y + x) + CRLF
  {
    assert (x + CRLF)[..|x|] == x && (y + CRLF)[..|y|] == y;
  }

  /** _store_item_copy_data. The branch looks at the new item alone: when that is in
      one piece, the memory of both operands is copied, chunked or not. */
  method CopyData(append: bool, it: Item, ghost a: seq<Byte>, made: Item, add: Item, ghost b: seq<Byte>, maxData: nat,
                  grants: seq<bool>)
    returns (ok: bool, next: nat)
    requires it != made && add != made && it.Is(a) && add.Is(b) && made.Empty() && maxData > 0
    requires 2 <= it.nbytes == |a| && 2 <= add.nbytes == |b| && made.nbytes == |a| + |b| - 2
    requires made.chunked ==> Last(made.chain) !in it.chain && Last(made.chain) !in add.chain
    modifies made, made.chain
    ensures ok ==> AllGranted(grants, 0, next)
    ensures ok && (made.chunked || (!it.chunked && !add.chunked)) ==> made.Is(Joined(append, a, b))
    ensures !made.chunked ==> made.data == Joined(append, it.Memory(it.nbytes), add.Memory(add.nbytes))
    ensures !ok ==> made.chunked && next > 0 && !Granted(grants, next - 1)
  {
    var first, second := it, add;
    ghost var x, y := a, b;
    if !append { first, second, x, y := add, it, b, a; }
    if made.chunked {
      ok, next := CopyBoth(first, x, made, second, y, maxData, grants);
    } else {
      CopyMemory(first, made, second);
      ok, next := true, 0;
    }
  }

  /** The two memcpy calls into an item in one piece. */
  method CopyMemory(first: Item, made: Item, second: Item)
    requires first != made && second != made && 2 <= first.nbytes && 2 <= second.nbytes
    requires |made.data| == first.nbytes + second.nbytes - 2
    modifies made`data
    ensures made.data == first.Memory(first.nbytes)[..first.nbytes - 2] + second.Memory(second.nbytes)
  {
    made.data := first.Memory(first.nbytes) + made.data[first.nbytes..];
    made.data := made.data[..first.nbytes - 2] + second.Memory(second.nbytes);
  }

  /** The chunked form: the value of one item without its line end, then the other's. */
  method CopyBoth(first: Item, ghost x: seq<Byte>, made: Item, second: Item, ghost y: seq<Byte>, maxData: nat,
        grants: seq<bool>)
    returns (ok: bool, next: nat)
    requires first != made && second != made && made.chunked && first.Is(x) && second.Is(y) && made.Empty()
    requires maxData > 0
    requires 2 <= first.nbytes == |x| && second.nbytes == |y|
    requires Last(made.chain) !in first.chain && Last(made.chain) !in second.chain
    modifies made`chain, Last(made.chain)
    ensures ok ==> made.Is(x[..|x| - 2] + y) && AllGranted(grants, 0, next)
    ensures !ok ==> next > 0 && !Granted(grants, next - 1)
  {
    hide Holds, Packed, Bytes, Sized;
    ghost var m;
    ok, next, m := CopyChunks(made, [], first, x, first.nbytes - 2, maxData, grants, 0);
    if ok {
      assert [] + x[..m] == x[..|x| - 2];
      ok, next, m := CopyChunks(made, x[..|x| - 2], second, y, second.nbytes, maxData, grants, next);
      assert y[..|y|] == y;
    }
  }

  /** The size of an item's memory, by which do_item_alloc decides whether it is chunked. */
  function NTotal(header: nat, nkey: nat, flags: nat, nbytes: nat, useCas: bool): nat {
    header + nkey + 1 + (if flags == 0 then 0 else 4) + nbytes + (if useCas then 8 else 0)
  }

  /** The new item takes the old item's client flags. Whenever it is in one piece
      so are both operands, unless the added item is the larger one only by its own flags. */
  lemma OperandsInOnePiece(header: nat, nkey: nat, useCas: bool, chunkMax: nat, oldFlags: nat, oldBytes: nat,
        addFlags: nat, addBytes: nat)
    requires oldBytes >= 2 && addBytes >= 2
    ensures var oldValue := NTotal(header, nkey, oldFlags, oldBytes, useCas);
      var add := NTotal(header, nkey, addFlags, addBytes, useCas);
      var both := NTotal(header, nkey, oldFlags, addBytes + oldBytes - 2, useCas);
      (both > chunkMax || (oldValue <= chunkMax && add <= chunkMax))
      <==> !(oldFlags == 0 && addFlags != 0 && chunkMax < add <= chunkMax + 6 - oldBytes)
  {}

  // ---- When the joined value is stored ------------------------------------------------

  /** The sizes that decide which items are chunked, besides flags and value. */
  datatype Sizes = Sizes(header: nat, nkey: nat, useCas: bool, chunkMax: nat)

  predicate Chunked(z: Sizes, flags: nat, nbytes: nat) {
    NTotal(z.header, z.nkey, flags, nbytes, z.useCas) > z.chunkMax
  }

  /** What memory an item with this value may have from ITEM_data on. */
  ghost predicate Shows(z: Sizes, flags: nat, v: seq<Byte>, m: seq<Byte>) {
    |m| == |v| && (Chunked(z, flags, |v|) || m == v)
  }

  /** The copies into the new item give the joined value whatever memory holds: either
      they go through the chunks, or the memory of both operands makes it up. */
  ghost predicate StoresJoined(append: bool, z: Sizes, oldFlags: nat, a: seq<Byte>, addFlags: nat, b: seq<Byte>)
    requires |a| >= 2 && |b| >= 2
  {
    || Chunked(z, oldFlags, |a| + |b| - 2)
    || forall x, y | Shows(z, oldFlags, a, x) && Shows(z, addFlags, b, y) ::
      Joined(append, x, y) == Joined(append, a, b)
  }

  /** The added item alone is chunked, by its own flags. */
  predicate AddAlone(z: Sizes, oldFlags: nat, oldBytes: nat, addFlags: nat, addBytes: nat) {
    && oldFlags == 0 && addFlags != 0
    && z.chunkMax < NTotal(z.header, z.nkey, addFlags, addBytes, z.useCas) <= z.chunkMax + 6 - oldBytes
  }

  /** Append and prepend store the joined value exactly if it is not the added item
      alone that is chunked; only a prepended empty value may be, as only its line end
      would be copied. */
  lemma StoresJoinedExactly(append: bool, z: Sizes, oldFlags: nat, a: seq<Byte>, addFlags: nat, b: seq<Byte>)
    requires |a| >= 2 && |b| >= 2
    ensures StoresJoined(append, z, oldFlags, a, addFlags, b)
      <==> !(AddAlone(z, oldFlags, |a|, addFlags, |b|) && (append || |b| > 2))
  {
    OperandsInOnePiece(z.header, z.nkey, z.useCas, z.chunkMax, oldFlags, |a|, addFlags, |b|);
    if AddAlone(z, oldFlags, |a|, addFlags, |b|) {
      if append || |b| > 2 { OtherMemory(append, z, oldFlags, a, addFlags, b); }
    }
  }

  /** Another first byte in the chunked operand's memory gives another value. */
  lemma OtherMemory(append: bool, z: Sizes, oldFlags: nat, a: seq<Byte>, addFlags: nat, b: seq<Byte>)
    requires |a| >= 2 && |b| >= 2 && (append || |b| > 2) && AddAlone(z, oldFlags, |a|, addFlags, |b|)
    ensures !StoresJoined(append, z, oldFlags, a, addFlags, b)
  {
    var other: Byte := if b[0] == 0 then 1 else 0;
    var y := b[0 := other];
    var at := if append then |a| - 2 else 0;
    assert Joined(append, a, y)[at] == y[0] && Joined(append, a, b)[at] == b[0];
    assert Shows(z, oldFlags, a, a) && Shows(z, addFlags, b, y);
  }

  /** The append and prepend case of do_store_item: the new item takes the old item's
      flags and is chunked by its size, and then the operands are copied into it. */
  method MakeJoined(append: bool, it: Item, ghost a: seq<Byte>, oldFlags: nat, add: Item, ghost b: seq<Byte>,
                    ghost addFlags: nat, z: Sizes, behind: nat -> Byte, maxData: nat, grants: seq<bool>)
    returns (made: Item, ok: bool, next: nat)
    requires it.Is(a) && add.Is(b) && 2 <= it.nbytes == |a| && 2 <= add.nbytes == |b| && maxData > 0
    requires it.chunked == Chunked(z, oldFlags, it.nbytes) && add.chunked == Chunked(z, addFlags, add.nbytes)
    ensures fresh(made) && made.chunked == Chunked(z, oldFlags, |a| + |b| - 2)
    ensures ok && StoresJoined(append, z, oldFlags, a, addFlags, b) ==> made.Is(Joined(append, a, b))
    ensures !ok ==> made.chunked && next > 0 && !Granted(grants, next - 1)
  {
    hide Holds, Packed;
    var nbytes := it.nbytes + add.nbytes - 2;
    made := new Item(Chunked(z, oldFlags, nbytes), nbytes, behind);
    ok, next := CopyData(append, it, a, made, add, b, maxData, grants);
    ghost var x, y := it.Memory(it.nbytes), add.Memory(add.nbytes);
    assert Shows(z, oldFlags, a, x) && Shows(z, addFlags, b, y);
  }

  /** A value of `n` bytes, all the same. */
  function Repeated(x: Byte, n: nat): seq<Byte> { seq(n, _ => x) + CRLF }

  /** With the default sizes: half a megabyte with client flags, appended to an empty
      value without, is chunked, and the result is not. If the memory of its header
      item is clear, what is stored is clear too. */
  lemma ChunkedOperandOfFlatItem()
    ensures var z, b, zeros := Sizes(48, 1, true, 524288), Repeated(65, 524226), seq(524228, _ => 0);
      && Chunked(z, 1, |b|) && !Chunked(z, 0, |CRLF|) && !Chunked(z, 0, |CRLF| + |b| - 2)
      && Shows(z, 0, CRLF, CRLF) && Shows(z, 1, b, zeros) && Joined(true, CRLF, b) == b &&
        Joined(true, CRLF, zeros) == zeros
      && zeros != b
  {
    assert Repeated(65, 524226)[0] == 65;
  }
}

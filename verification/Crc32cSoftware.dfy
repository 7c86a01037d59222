/** crc32c.c without the crc32 instruction: eight bytes per step through eight
    lookup tables, in a little-endian and a big-endian form. Both are proved
    equal to `Crc32cSpec.Checksum`.
 */
module Crc32cSoftware {
  import opened Crc32cSpec

  // ---- Low bits that are all zero ------------------------------------------

  /** The low `n` bits of `v` are zero. */
  predicate EvenRun(v: Word, n: nat)
    decreases n
  {
    n > 0 ==> !Odd(v) && EvenRun(Half(v), n - 1)
  }

  /** Zero bits fall out of the register without touching the polynomial. */
  lemma {:induction false} EvenRunSteps(v: Word, n: nat)
    requires EvenRun(v, n)
    ensures Steps(n, v) == TopBits(v, n)
    decreases n
  {
    hide Odd, Half, Xor;
    if n > 0 {
      assert Step(v) == Half(v);
      EvenRunSteps(Half(v), n - 1);
    }
  }

  function HighBytes(c: Word): Word { c & 0xffffff00 }

  lemma HighBytesEven(c: Word)
    ensures EvenRun(HighBytes(c), 8)
  {
    var h := HighBytes(c);
    ByteEven(c);
    hide HighBytes, Odd, Half;
    var h2 := Half(Half(h));
    var h4 := Half(Half(h2));
    var h6 := Half(Half(h4));
    assert EvenRun(h6, 2);
    assert EvenRun(h4, 4);
    assert EvenRun(h2, 6);
  }

  lemma ByteEven(c: Word)
    ensures var h := HighBytes(c); !Odd(h) && !Odd(Half(h))
    ensures var h2 := Half(Half(HighBytes(c))); !Odd(h2) && !Odd(Half(h2))
    ensures var h4 := Half(Half(Half(Half(HighBytes(c))))); !Odd(h4) && !Odd(Half(h4))
    ensures var h6 := Half(Half(Half(Half(Half(Half(HighBytes(c))))))); !Odd(h6) && !Odd(Half(h6))
  {}

  lemma SplitLowByte(c: Word)
    ensures c == Xor(ByteWord(ByteAt(c, 0)), HighBytes(c))
  {}

  lemma HighBytesDrop(c: Word)
    ensures DropLowByte(HighBytes(c)) == DropLowByte(c)
  {}

  /** Eight zero bits: look up the low byte, move the others down. */
  lemma ByteLookup(c: Word)
    ensures Steps(8, c) == Xor(Steps(8, ByteWord(ByteAt(c, 0))), DropLowByte(c))
  {
    hide Steps, Xor, ByteWord, ByteAt, HighBytes, DropLowByte, Half, Odd;
    SplitLowByte(c);
    HighBytesDrop(c);
    HighBytesEven(c);
    EvenRunSteps(HighBytes(c), 8);
    TopByte(HighBytes(c), 0);
    StepsLinear(8, ByteWord(ByteAt(c, 0)), HighBytes(c));
  }

  lemma PlaceDown(b: bv8, k: nat)
    requires 0 < k < 4
    ensures Steps(8, Place(b, k)) == Place(b, k - 1)
  {
    PlaceFacts(b, k);
    hide Steps, Xor, ByteWord, ByteAt, Place, DropLowByte;
    ByteLookup(Place(b, k));
    StepsZero(8);
    XorLaws(Place(b, k - 1), 0, 0);
  }

  lemma PlaceFacts(b: bv8, k: nat)
    requires 0 < k < 4
    ensures ByteWord(ByteAt(Place(b, k), 0)) == 0
    ensures DropLowByte(Place(b, k)) == Place(b, k - 1)
  {}

  /** A byte at position `k` reaches the bottom after `k` zero bytes. */
  lemma {:induction false} PlaceSteps(b: bv8, k: nat, n: nat)
    requires k < 4 && k <= n
    ensures Steps(8 * n, Place(b, k)) == Steps(8 * (n - k), ByteWord(b))
    decreases k
  {
    if k > 0 {
      hide Steps, Place;
      StepsAdd(8 * (n - 1), 8, Place(b, k));
      PlaceDown(b, k);
      PlaceSteps(b, k - 1, n - 1);
    }
  }

  // ---- A register as a sum over bytes --------------------------------------

  /** Every byte moved over the bytes from itself to the end, summed up. */
  function ByteSum(s: seq<bv8>): Word {
    if s == [] then 0 else Xor(Steps(8 * |s|, ByteWord(s[0])), ByteSum(s[1..]))
  }

  /** From zero, the register is the sum over the bytes. */
  lemma {:induction false} RegisterIsByteSum(s: seq<bv8>)
    ensures Register(0, s) == ByteSum(s)
  {
    hide Steps, Xor, ByteWord;
    if s != [] {
      var b := ByteWord(s[0]);
      XorLaws(b, b, b);
      RegisterSplit(Steps(8, b), s[1..]);
      StepsAdd(8 * (|s| - 1), 8, b);
      RegisterIsByteSum(s[1..]);
    }
  }

  function Xor8(a: bv8, b: bv8): bv8 { a ^ b }

  function XorBytes(s: seq<bv8>, t: seq<bv8>): (r: seq<bv8>)
    requires |s| == |t|
    ensures |r| == |s|
  {
    seq(|s|, i requires 0 <= i < |s| => Xor8(s[i], t[i]))
  }

  lemma ByteWordXor(a: bv8, b: bv8)
    ensures ByteWord(Xor8(a, b)) == Xor(ByteWord(a), ByteWord(b))
  {}

  lemma XorMiddle(a: Word, b: Word, c: Word, d: Word)
    ensures Xor(Xor(a, b), Xor(c, d)) == Xor(Xor(a, c), Xor(b, d))
  {
    hide Xor;
    XorLaws(a, b, Xor(c, d));
    XorLaws(b, c, d);
    XorLaws(c, b, d);
    XorLaws(a, c, Xor(b, d));
  }

  /** The byte sum is linear. */
  lemma {:induction false} ByteSumLinear(s: seq<bv8>, t: seq<bv8>)
    requires |s| == |t|
    ensures ByteSum(XorBytes(s, t)) == Xor(ByteSum(s), ByteSum(t))
  {
    if s == [] {
      XorLaws(0, 0, 0);
    } else {
      hide Steps, Xor, ByteWord, Xor8;
      var n := 8 * |s|;
      assert XorBytes(s, t)[1..] == XorBytes(s[1..], t[1..]);
      ByteWordXor(s[0], t[0]);
      StepsLinear(n, ByteWord(s[0]), ByteWord(t[0]));
      ByteSumLinear(s[1..], t[1..]);
      XorMiddle(Steps(n, ByteWord(s[0])), Steps(n, ByteWord(t[0])), ByteSum(s[1..]), ByteSum(t[1..]));
    }
  }

  /** The bytes of a register, followed by four zero bytes. */
  function WideBytes(c: Word): (s: seq<bv8>)
    ensures |s| == 8
  {
    [ByteAt(c, 0), ByteAt(c, 1), ByteAt(c, 2), ByteAt(c, 3), 0, 0, 0, 0]
  }

  lemma ByteWordZero()
    ensures ByteWord(0) == 0
  {}

  lemma {:induction false} ByteSumZeros(s: seq<bv8>)
    requires forall i | 0 <= i < |s| :: s[i] == 0
    ensures ByteSum(s) == 0
  {
    ByteWordZero();
    hide Steps, Xor, ByteWord;
    if s != [] {
      StepsZero(8 * |s|);
      ByteSumZeros(s[1..]);
      XorLaws(0, 0, 0);
    }
  }

  lemma XorNest(a: Word, b: Word, c: Word, d: Word)
    ensures Xor(Xor(Xor(a, b), c), d) == Xor(a, Xor(b, Xor(c, Xor(d, 0))))
  {
    hide Xor;
    XorLaws(Xor(a, b), c, d);
    XorLaws(a, b, Xor(c, d));
    XorLaws(d, 0, 0);
  }

  lemma ByteSumHead(b: bv8, s: seq<bv8>)
    ensures ByteSum([b] + s) == Xor(Steps(8 * |s| + 8, ByteWord(b)), ByteSum(s))
  {
    assert ([b] + s)[1..] == s;
  }

  lemma ByteSumOfFour(b0: bv8, b1: bv8, b2: bv8, b3: bv8)
    ensures ByteSum([b0, b1, b2, b3, 0, 0, 0, 0])
         == Xor(Steps(64, ByteWord(b0)), Xor(Steps(56, ByteWord(b1)),
            Xor(Steps(48, ByteWord(b2)), Xor(Steps(40, ByteWord(b3)), 0))))
  {
    hide ByteSum, Steps, Xor, ByteWord;
    ByteSumZeros([0, 0, 0, 0]);
    ByteSumHead(b3, [0, 0, 0, 0]);
    ByteSumHead(b2, [b3] + [0, 0, 0, 0]);
    ByteSumHead(b1, [b2] + ([b3] + [0, 0, 0, 0]));
    ByteSumHead(b0, [b1] + ([b2] + ([b3] + [0, 0, 0, 0])));
    assert [b0, b1, b2, b3, 0, 0, 0, 0] == [b0] + ([b1] + ([b2] + ([b3] + [0, 0, 0, 0])));
  }

  /** Eight zero bytes through the register, byte by byte. */
  lemma WideByteSum(c: Word)
    ensures Steps(64, c) == ByteSum(WideBytes(c))
  {
    BytesOfWord(c);
    hide Steps, Xor, ByteWord, ByteAt, Place, ByteSum;
    var b0, b1, b2, b3 := ByteAt(c, 0), ByteAt(c, 1), ByteAt(c, 2), ByteAt(c, 3);
    var p0, p1, p2, p3 := Place(b0, 0), Place(b1, 1), Place(b2, 2), Place(b3, 3);
    StepsLinear(64, Xor(Xor(p0, p1), p2), p3);
    StepsLinear(64, Xor(p0, p1), p2);
    StepsLinear(64, p0, p1);
    PlaceSteps(b0, 0, 8);
    PlaceSteps(b1, 1, 8);
    PlaceSteps(b2, 2, 8);
    PlaceSteps(b3, 3, 8);
    ByteSumOfFour(b0, b1, b2, b3);
    XorNest(Steps(64, p0), Steps(64, p1), Steps(64, p2), Steps(64, p3));
  }

  /** Eight message bytes at once: xor them onto the register's bytes, then sum. */
  lemma EightBytes(c: Word, s: seq<bv8>)
    requires |s| == 8
    ensures Register(c, s) == ByteSum(XorBytes(WideBytes(c), s))
  {
    hide Register, ByteSum, XorBytes, WideBytes, Steps, Xor;
    RegisterSplit(c, s);
    RegisterIsByteSum(s);
    WideByteSum(c);
    ByteSumLinear(WideBytes(c), s);
  }

  // ---- Tables ----------------------------------------------------------------

  /** Entry [k, n] moves the byte n over k + 1 bytes. */
  ghost predicate IsSliceTable(t: array2<Word>)
    reads t
  {
    && t.Length0 == 8 && t.Length1 == 256
    && forall k, n | 0 <= k < 8 && 0 <= n < 256 :: t[k, n] == Steps(8 * (k + 1), ByteWord(n as bv8))
  }

  /** The register after the eight zero bits of a byte. */
  method ByteEntry(n: bv8) returns (crc: Word)
    ensures crc == Steps(8, ByteWord(n))
  {
    hide Step;
    crc := ByteWord(n);
    for i := 0 to 8
      invariant crc == Steps(i, ByteWord(n))
    {
      StepsAdd(1, i, ByteWord(n));
      assert Steps(1, crc) == Steps(0, Step(crc));
      crc := Step(crc);
    }
  }

  /** crc32c_init_sw_little: each table row follows from the one before. */
  method InitSwLittle() returns (t: array2<Word>)
    ensures fresh(t) && IsSliceTable(t)
  {
    hide Steps, ByteWord, Xor, DropLowByte, ByteAt;
    t := new Word[8, 256];
    for n := 0 to 256
      invariant forall m | 0 <= m < n :: t[0, m] == Steps(8, ByteWord(m as bv8))
    {
      var crc := ByteEntry(n as bv8);
      t[0, n] := crc;
    }
    for n := 0 to 256
      invariant forall m | 0 <= m < 256 :: t[0, m] == Steps(8, ByteWord(m as bv8))
      invariant forall k, m | 0 <= k < 8 && 0 <= m < n :: t[k, m] == Steps(8 * (k + 1), ByteWord(m as bv8))
    {
      var crc := t[0, n];
      for k := 1 to 8
        invariant crc == Steps(8 * k, ByteWord(n as bv8))
        invariant forall m | 0 <= m < 256 :: t[0, m] == Steps(8, ByteWord(m as bv8))
        invariant forall j, m | 0 <= j < 8 && 0 <= m < n :: t[j, m] == Steps(8 * (j + 1), ByteWord(m as bv8))
        invariant forall j | 0 <= j < k :: t[j, n] == Steps(8 * (j + 1), ByteWord(n as bv8))
      {
        ByteLookup(crc);
        StepsAdd(8, 8 * k, ByteWord(n as bv8));
        crc := Xor(t[0, Index(ByteAt(crc, 0))], DropLowByte(crc));
        t[k, n] := crc;
      }
    }
  }

  // ---- Sixty-four-bit words --------------------------------------------------

  function Widen(c: Word): bv64 { c as bv64 }

  function Narrow(w: bv64): Word { (w & 0xffffffff) as bv32 }

  function Xor64(a: bv64, b: bv64): bv64 { a ^ b }

  function DropByte(w: bv64): bv64 { w >> 8 }

  /** Byte `i` of a word, the least significant being byte 0. */
  function QuadByte(w: bv64, i: nat): bv8
    decreases i
  {
    if i == 0 then ByteOf(w) else QuadByte(DropByte(w), i - 1)
  }

  /** The bytes of a 64-bit word, least significant first. */
  function QuadBytes(w: bv64): (s: seq<bv8>)
    ensures |s| == 8
  {
    seq(8, i requires 0 <= i < 8 => QuadByte(w, i))
  }

  lemma ByteOfXor(a: bv64, b: bv64)
    ensures ByteOf(Xor64(a, b)) == Xor8(ByteOf(a), ByteOf(b))
  {}

  lemma DropByteXor(a: bv64, b: bv64)
    ensures DropByte(Xor64(a, b)) == Xor64(DropByte(a), DropByte(b))
  {}

  lemma {:induction false} QuadByteXor(a: bv64, b: bv64, i: nat)
    ensures QuadByte(Xor64(a, b), i) == Xor8(QuadByte(a, i), QuadByte(b, i))
    decreases i
  {
    hide ByteOf, Xor8, Xor64, DropByte;
    ByteOfXor(a, b);
    if i > 0 {
      DropByteXor(a, b);
      QuadByteXor(DropByte(a), DropByte(b), i - 1);
    }
  }

  lemma WidenDrop(c: Word)
    ensures ByteOf(Widen(c)) == ByteAt(c, 0)
    ensures DropByte(Widen(c)) == Widen(DropLowByte(c))
  {}

  lemma WideByteDrop(c: Word, i: nat)
    requires 0 < i < 8
    ensures WideBytes(DropLowByte(c))[i - 1] == WideBytes(c)[i]
  {}

  lemma {:induction false} QuadByteWiden(c: Word, i: nat)
    requires i < 8
    ensures QuadByte(Widen(c), i) == WideBytes(c)[i]
    decreases i
  {
    hide Widen, ByteOf, ByteAt, DropByte, DropLowByte;
    WidenDrop(c);
    if i > 0 {
      hide WideBytes;
      WideByteDrop(c, i);
      QuadByteWiden(DropLowByte(c), i - 1);
    }
  }

  lemma NarrowWiden(c: Word)
    ensures Narrow(Widen(c)) == c
  {}

  lemma {:induction false} LoadedByte(s: seq<bv8>, i: nat)
    requires i < |s| <= 8
    ensures QuadByte(LoadLittle(s), i) == s[i]
    decreases i
  {
    hide ByteOf, Append, Fits;
    LoadFits(s[1..]);
    ByteMaskSmall(|s| - 1);
    AppendSplit(s[0], LoadLittle(s[1..]), ByteMask(|s| - 1));
    if i > 0 { LoadedByte(s[1..], i - 1); }
  }

  /** The word that enters the tables has the bytes of `XorBytes`. */
  lemma FoldedBytes(c: Word, s: seq<bv8>)
    requires |s| == 8
    ensures QuadBytes(Xor64(Widen(c), LoadLittle(s))) == XorBytes(WideBytes(c), s)
  {
    hide QuadByte, Xor64, Widen, LoadLittle, WideBytes, Xor8;
    var w := Xor64(Widen(c), LoadLittle(s));
    forall i | 0 <= i < 8
      ensures QuadBytes(w)[i] == XorBytes(WideBytes(c), s)[i]
    {
      QuadByteXor(Widen(c), LoadLittle(s), i);
      QuadByteWiden(c, i);
      LoadedByte(s, i);
    }
  }

  // ---- Little-endian -----------------------------------------------------------

  /** The xor of the table entries for bytes `i` to 7 of `w`: byte i comes from row 7 - i. */
  function Lookup(t: array2<Word>, w: bv64, i: nat): Word
    requires t.Length0 == 8 && t.Length1 == 256 && i <= 8
    reads t
    decreases 8 - i
  {
    if i == 8 then 0 else Xor(t[7 - i, Index(QuadByte(w, i))], Lookup(t, w, i + 1))
  }

  lemma {:induction false} LookupIsByteSum(t: array2<Word>, w: bv64, i: nat)
    requires IsSliceTable(t) && i <= 8
    ensures Lookup(t, w, i) == ByteSum(QuadBytes(w)[i..])
    decreases 8 - i
  {
    hide Xor, Steps, ByteWord, QuadByte, Index;
    if i < 8 {
      LookupIsByteSum(t, w, i + 1);
      assert QuadBytes(w)[i..][1..] == QuadBytes(w)[i + 1..];
    }
  }

  /** Eight bytes through the eight tables. */
  lemma SliceStep(t: array2<Word>, c: Word, s: seq<bv8>)
    requires IsSliceTable(t) && |s| == 8
    ensures Lookup(t, Xor64(Widen(c), LoadLittle(s)), 0) == Register(c, s)
  {
    hide Lookup, ByteSum, QuadBytes, XorBytes, WideBytes, Register, Xor64, Widen, LoadLittle, Steps;
    var w := Xor64(Widen(c), LoadLittle(s));
    LookupIsByteSum(t, w, 0);
    FoldedBytes(c, s);
    EightBytes(c, s);
    assert QuadBytes(w)[0..] == QuadBytes(w);
  }

  lemma XorLowByte(c: Word, b: bv8)
    ensures ByteAt(Xor(c, ByteWord(b)), 0) == Xor8(ByteAt(c, 0), b)
    ensures DropLowByte(Xor(c, ByteWord(b))) == DropLowByte(c)
  {}

  /** One byte through row 0 extends the register over one more byte. */
  lemma ByteExtends(start: Word, c: Word, buf: seq<bv8>, at: nat)
    requires at < |buf| && c == Register(start, buf[..at])
    ensures Xor(Steps(8, ByteWord(Xor8(ByteAt(c, 0), buf[at]))), DropLowByte(c)) == Register(start, buf[..at + 1])
  {
    hide Steps, Xor, ByteWord, Xor8, ByteAt, DropLowByte;
    assert buf[..at + 1] == buf[..at] + [buf[at]];
    RegisterConcat(start, buf[..at], [buf[at]]);
    assert [buf[at]][1..] == [];
    XorLowByte(c, buf[at]);
    ByteLookup(Xor(c, ByteWord(buf[at])));
  }

  lemma RegisterExtends(start: Word, buf: seq<bv8>, at: nat)
    requires at + 8 <= |buf|
    ensures Register(Register(start, buf[..at]), buf[at..at + 8]) == Register(start, buf[..at + 8])
  {
    hide Register;
    assert buf[..at + 8] == buf[..at] + buf[at..at + 8];
    RegisterConcat(start, buf[..at], buf[at..at + 8]);
  }

  /** The address of the byte is a multiple of eight. */
  predicate OnEight(address: nat, at: nat) { (address + at) % 8 == 0 }

  lemma NextEight(address: nat, at: nat)
    requires OnEight(address, at)
    ensures OnEight(address, at + 8)
  {}

  /** A load at an address that is a multiple of eight. */
  function AlignedLittle(ghost address: nat, buf: seq<bv8>, at: nat): bv64
    requires at + 8 <= |buf| && OnEight(address, at)
  {
    LoadLittle(buf[at..at + 8])
  }

  /** crc32c_sw_little: the CRC-32C of `buf` at address `address`. */
  method Crc32cSwLittle(crc: Word, address: nat, buf: seq<bv8>) returns (result: Word)
    ensures result == Checksum(crc, buf)
    ensures result == Rfc3720Crc(crc, buf)
  {
    hide Register, Steps, Xor, Rfc3720Crc, Complement, ByteWord, Xor8, ByteAt, DropLowByte;
    hide Widen, Narrow, Xor64, LoadLittle, Lookup, Index, OnEight;
    var t := InitSwLittle();
    var start := Complement(crc);
    var c, next := start, 0;
    assert buf[..0] == [];
    RegisterEmpty(start);
    while next < |buf| && !OnEight(address, next)
      invariant next <= |buf| && c == Register(start, buf[..next]) && IsSliceTable(t)
    {
      ByteExtends(start, c, buf, next);
      c := Xor(t[0, Index(Xor8(ByteAt(c, 0), buf[next]))], DropLowByte(c));
      next := next + 1;
    }
    if |buf| - next >= 8 {
      var crcw := Widen(c);
      while |buf| - next >= 8
        invariant next <= |buf| && crcw == Widen(c) && c == Register(start, buf[..next]) && IsSliceTable(t)
        invariant next == |buf| || OnEight(address, next)
        decreases |buf| - next
      {
        SliceStep(t, c, buf[next..next + 8]);
        RegisterExtends(start, buf, next);
        crcw := Xor64(crcw, AlignedLittle(address, buf, next));
        c := Lookup(t, crcw, 0);
        crcw := Widen(c);
        NextEight(address, next);
        next := next + 8;
      }
      NarrowWiden(c);
      c := Narrow(crcw);
    }
    while next < |buf|
      invariant next <= |buf| && c == Register(start, buf[..next]) && IsSliceTable(t)
    {
      ByteExtends(start, c, buf, next);
      c := Xor(t[0, Index(Xor8(ByteAt(c, 0), buf[next]))], DropLowByte(c));
      next := next + 1;
    }
    assert buf[..next] == buf;
    ChecksumIsRfc3720(crc, buf);
    result := Complement(c);
  }

  // ---- Big-endian ----------------------------------------------------------------

  /** Reverses the bytes of a 64-bit word. */
  function Swap(x0: bv64): bv64 {
    var x1 := ((x0 << 8) & 0xff00ff00ff00ff00) | ((x0 >> 8) & 0xff00ff00ff00ff);
    var x2 := ((x1 << 16) & 0xffff0000ffff0000) | ((x1 >> 16) & 0xffff0000ffff);
    (x2 << 32) | (x2 >> 32)
  }

  /** An eight-byte load on a big-endian processor: the first byte is the most significant. */
  function LoadBig(s: seq<bv8>): bv64
    requires |s| == 8
  {
    LoadLittle(seq(8, i requires 0 <= i < 8 => s[7 - i]))
  }

  function AlignedBig(ghost address: nat, buf: seq<bv8>, at: nat): bv64
    requires at + 8 <= |buf| && OnEight(address, at)
  {
    LoadBig(buf[at..at + 8])
  }

  lemma SwapTwice(w: bv64)
    ensures Swap(Swap(w)) == w
  {}

  lemma SwapXor(a: bv64, b: bv64)
    ensures Swap(Xor64(a, b)) == Xor64(Swap(a), Swap(b))
  {}

  lemma SwapByteFacts(w: bv64)
    ensures var d := DropByte(DropByte(DropByte(w)));
            ByteOf(Swap(w)) == ByteOf(DropByte(DropByte(DropByte(DropByte(d)))))
    ensures ByteOf(DropByte(Swap(w))) == ByteOf(DropByte(DropByte(DropByte(DropByte(DropByte(DropByte(w)))))))
    ensures ByteOf(DropByte(DropByte(Swap(w)))) == ByteOf(DropByte(DropByte(DropByte(DropByte(DropByte(w))))))
    ensures ByteOf(DropByte(DropByte(DropByte(Swap(w))))) == ByteOf(DropByte(DropByte(DropByte(DropByte(w)))))
  {}

  lemma QuadByteUnrolled(w: bv64)
    ensures QuadByte(w, 0) == ByteOf(w)
    ensures QuadByte(w, 1) == ByteOf(DropByte(w))
    ensures QuadByte(w, 2) == ByteOf(DropByte(DropByte(w)))
    ensures QuadByte(w, 3) == ByteOf(DropByte(DropByte(DropByte(w))))
    ensures QuadByte(w, 4) == ByteOf(DropByte(DropByte(DropByte(DropByte(w)))))
    ensures QuadByte(w, 5) == ByteOf(DropByte(DropByte(DropByte(DropByte(DropByte(w))))))
    ensures QuadByte(w, 6) == ByteOf(DropByte(DropByte(DropByte(DropByte(DropByte(DropByte(w)))))))
    ensures QuadByte(w, 7) == ByteOf(DropByte(DropByte(DropByte(DropByte(DropByte(DropByte(DropByte(w))))))))
  {
    hide ByteOf, DropByte;
    var w2 := DropByte(DropByte(w));
    var w4 := DropByte(DropByte(w2));
    var w6 := DropByte(DropByte(w4));
    assert QuadByte(w, 2) == QuadByte(w2, 0);
    assert QuadByte(w, 3) == QuadByte(w2, 1);
    assert QuadByte(w, 4) == QuadByte(w2, 2) == QuadByte(w4, 0);
    assert QuadByte(w, 5) == QuadByte(w2, 3) == QuadByte(w4, 1);
    assert QuadByte(w, 6) == QuadByte(w2, 4) == QuadByte(w4, 2) == QuadByte(w6, 0);
    assert QuadByte(w, 7) == QuadByte(w2, 5) == QuadByte(w4, 3) == QuadByte(w6, 1);
  }

  lemma SwapLowByte(w: bv64, i: nat)
    requires i < 4
    ensures QuadByte(Swap(w), i) == QuadByte(w, 7 - i)
  {
    hide ByteOf, DropByte, Swap, QuadByte;
    SwapByteFacts(w);
    QuadByteUnrolled(w);
    QuadByteUnrolled(Swap(w));
  }

  /** Byte `i` of a swapped word is byte `7 - i` of the word. */
  lemma SwapByte(w: bv64, i: nat)
    requires i < 8
    ensures QuadByte(Swap(w), i) == QuadByte(w, 7 - i)
  {
    hide Swap, QuadByte;
    if i < 4 {
      SwapLowByte(w, i);
    } else {
      SwapTwice(w);
      SwapLowByte(Swap(w), 7 - i);
    }
  }

  /** A register as the big-endian routine keeps it. */
  function Swapped(c: Word): bv64 { Swap(Widen(c)) }

  lemma WidenXor(a: Word, b: Word)
    ensures Widen(Xor(a, b)) == Xor64(Widen(a), Widen(b))
  {}

  lemma SwappedXor(a: Word, b: Word)
    ensures Swapped(Xor(a, b)) == Xor64(Swapped(a), Swapped(b))
  {
    hide Swap, Widen, Xor, Xor64;
    WidenXor(a, b);
    SwapXor(Widen(a), Widen(b));
  }

  lemma SwappedZero()
    ensures Swapped(0) == 0
  {}

  /** Entry [k, n] is the swapped form of the little-endian entry. */
  ghost predicate IsBigTable(t: array2<bv64>)
    reads t
  {
    && t.Length0 == 8 && t.Length1 == 256
    && forall k, n | 0 <= k < 8 && 0 <= n < 256 :: t[k, n] == Swapped(Steps(8 * (k + 1), ByteWord(n as bv8)))
  }

  ghost predicate IsByteTable(t: array<Word>)
    reads t
  {
    t.Length == 256 && forall n | 0 <= n < 256 :: t[n] == Steps(8, ByteWord(n as bv8))
  }

  /** The table of single bytes, from which the others are made. */
  method ByteTable() returns (byte: array<Word>)
    ensures fresh(byte) && IsByteTable(byte)
  {
    hide Steps, ByteWord;
    byte := new Word[256];
    for n := 0 to 256
      invariant forall m | 0 <= m < n :: byte[m] == Steps(8, ByteWord(m as bv8))
    {
      var crc := ByteEntry(n as bv8);
      byte[n] := crc;
    }
  }

  ghost function BigEntry(k: nat, n: nat): bv64
    requires n < 256
  {
    Swapped(Steps(8 * (k + 1), ByteWord(n as bv8)))
  }

  /** The eight entries for one byte. */
  method BigColumn(byte: array<Word>, t: array2<bv64>, n: nat)
    requires IsByteTable(byte) && t.Length0 == 8 && t.Length1 == 256 && n < 256
    modifies t
    ensures forall k | 0 <= k < 8 :: t[k, n] == BigEntry(k, n)
    ensures forall k, m | 0 <= k < 8 && 0 <= m < 256 && m != n :: t[k, m] == old(t[k, m])
  {
    hide Steps, ByteWord, Xor, DropLowByte, ByteAt, Swapped;
    var crc := byte[n];
    t[0, n] := Swapped(crc);
    for k := 1 to 8
      invariant crc == Steps(8 * k, ByteWord(n as bv8))
      invariant forall j | 0 <= j < k :: t[j, n] == BigEntry(j, n)
      invariant forall j, m | 0 <= j < 8 && 0 <= m < 256 && m != n :: t[j, m] == old(t[j, m])
    {
      ByteLookup(crc);
      StepsAdd(8, 8 * k, ByteWord(n as bv8));
      crc := Xor(byte[Index(ByteAt(crc, 0))], DropLowByte(crc));
      t[k, n] := Swapped(crc);
    }
  }

  /** crc32c_init_sw_big */
  method InitSwBig() returns (byte: array<Word>, t: array2<bv64>)
    ensures fresh(byte) && fresh(t) && IsByteTable(byte) && IsBigTable(t)
  {
    hide Steps, ByteWord, Swapped;
    byte := ByteTable();
    t := new bv64[8, 256];
    for n := 0 to 256
      invariant IsByteTable(byte)
      invariant forall k, m | 0 <= k < 8 && 0 <= m < n :: t[k, m] == BigEntry(k, m)
    {
      BigColumn(byte, t, n);
    }
  }

  /** The byte sum taken from the back. */
  function BackSum(s: seq<bv8>, m: nat): Word
    requires m <= |s|
  {
    if m == 0 then 0 else Xor(Steps(8 * (|s| - m + 1), ByteWord(s[m - 1])), BackSum(s, m - 1))
  }

  lemma {:induction false} BackSumIsByteSum(s: seq<bv8>, m: nat)
    requires m <= |s|
    ensures Xor(BackSum(s, m), ByteSum(s[m..])) == ByteSum(s)
  {
    hide Steps, ByteWord, Xor;
    XorLaws(ByteSum(s), 0, 0);
    if m == 0 {
      assert s[0..] == s;
    } else {
      BackSumIsByteSum(s, m - 1);
      assert s[m - 1..][1..] == s[m..];
      var e := Steps(8 * (|s| - m + 1), ByteWord(s[m - 1]));
      XorLaws(e, BackSum(s, m - 1), ByteSum(s[m..]));
      XorLaws(BackSum(s, m - 1), e, ByteSum(s[m..]));
    }
  }

  /** The xor of the table entries for bytes `i` to 7 of `w`: byte i comes from row i. */
  function LookupBig(t: array2<bv64>, w: bv64, i: nat): bv64
    requires t.Length0 == 8 && t.Length1 == 256 && i <= 8
    reads t
    decreases 8 - i
  {
    if i == 8 then 0 else Xor64(t[i, Index(QuadByte(w, i))], LookupBig(t, w, i + 1))
  }

  lemma {:induction false} LookupBigIsBackSum(t: array2<bv64>, w: bv64, s: seq<bv8>, i: nat)
    requires IsBigTable(t) && i <= 8 && |s| == 8
    requires forall j | 0 <= j < 8 :: QuadByte(w, j) == s[7 - j]
    ensures LookupBig(t, w, i) == Swapped(BackSum(s, 8 - i))
    decreases 8 - i
  {
    hide Xor, Xor64, Steps, ByteWord, QuadByte, Index, Swapped;
    SwappedZero();
    if i < 8 {
      LookupBigIsBackSum(t, w, s, i + 1);
      SwappedXor(Steps(8 * (i + 1), ByteWord(s[7 - i])), BackSum(s, 7 - i));
    }
  }

  lemma BigFoldedByte(c: Word, s: seq<bv8>, j: nat)
    requires |s| == 8 && j < 8
    ensures QuadByte(Xor64(Swapped(c), LoadBig(s)), j) == XorBytes(WideBytes(c), s)[7 - j]
  {
    hide QuadByte, Xor64, Widen, LoadLittle, WideBytes, Xor8, Swap;
    QuadByteXor(Swapped(c), LoadBig(s), j);
    SwapByte(Widen(c), j);
    QuadByteWiden(c, 7 - j);
    LoadedByte(seq(8, i requires 0 <= i < 8 => s[7 - i]), j);
  }

  /** Eight bytes through the eight big-endian tables. */
  lemma BigSliceStep(t: array2<bv64>, c: Word, s: seq<bv8>)
    requires IsBigTable(t) && |s| == 8
    ensures LookupBig(t, Xor64(Swapped(c), LoadBig(s)), 0) == Swapped(Register(c, s))
  {
    hide Register, XorBytes, WideBytes, Steps, Xor, Swapped, Xor64, QuadByte, LoadBig, LookupBig, Index, ByteWord;
    var w, f := Xor64(Swapped(c), LoadBig(s)), XorBytes(WideBytes(c), s);
    forall j | 0 <= j < 8 ensures QuadByte(w, j) == f[7 - j] { BigFoldedByte(c, s, j); }
    LookupBigIsBackSum(t, w, f, 0);
    BackSumIsByteSum(f, 8);
    XorLaws(BackSum(f, 8), 0, 0);
    EightBytes(c, s);
  }

  /** crc32c_sw_big: the CRC-32C of `buf` at address `address`. */
  method Crc32cSwBig(crc: Word, address: nat, buf: seq<bv8>) returns (result: Word)
    ensures result == Checksum(crc, buf)
    ensures result == Rfc3720Crc(crc, buf)
  {
    hide Register, Steps, Xor, Rfc3720Crc, Complement, ByteWord, Xor8, ByteAt, DropLowByte;
    hide Swap, Widen, Narrow, Xor64, LoadBig, LookupBig, Index, OnEight;
    var byte, t := InitSwBig();
    var start := Complement(crc);
    var c, next := start, 0;
    assert buf[..0] == [];
    RegisterEmpty(start);
    while next < |buf| && !OnEight(address, next)
      invariant next <= |buf| && c == Register(start, buf[..next]) && IsByteTable(byte) && IsBigTable(t)
    {
      ByteExtends(start, c, buf, next);
      c := Xor(byte[Index(Xor8(ByteAt(c, 0), buf[next]))], DropLowByte(c));
      next := next + 1;
    }
    if |buf| - next >= 8 {
      var crcw := Swapped(c);
      while |buf| - next >= 8
        invariant next <= |buf| && crcw == Swapped(Register(start, buf[..next])) && IsByteTable(byte) && IsBigTable(t)
        invariant next == |buf| || OnEight(address, next)
        decreases |buf| - next
      {
        BigSliceStep(t, Register(start, buf[..next]), buf[next..next + 8]);
        RegisterExtends(start, buf, next);
        crcw := Xor64(crcw, AlignedBig(address, buf, next));
        crcw := LookupBig(t, crcw, 0);
        NextEight(address, next);
        next := next + 8;
      }
      SwapTwice(Widen(Register(start, buf[..next])));
      NarrowWiden(Register(start, buf[..next]));
      c := Narrow(Swap(crcw));
    }
    while next < |buf|
      invariant next <= |buf| && c == Register(start, buf[..next]) && IsByteTable(byte)
    {
      ByteExtends(start, c, buf, next);
      c := Xor(byte[Index(Xor8(ByteAt(c, 0), buf[next]))], DropLowByte(c));
      next := next + 1;
    }
    assert buf[..next] == buf;
    ChecksumIsRfc3720(crc, buf);
    result := Complement(c);
  }
}

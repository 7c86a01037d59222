/** CRC-32C, bit by bit.

    Two definitions of the checksum and the proof that they agree:
    - `Rfc3720Crc` is section 12.1 of RFC 3720: long division of the message
      by the generator polynomial, most significant coefficient first;
    - `Checksum` is the same division in reflected bit order, one byte at a
      time, which is the order every routine of crc32c.c works in.

    The rest of the module is the algebra the fast routines rely on: a bit
    step is linear over GF(2), so running zero bits through the register is a
    linear operator that can be split, composed and tabulated. Algebraic
    lemmas `hide` the bit-vector bodies, so that only the laws are used.
 */
module Crc32cSpec {

  /** A 32-bit register: a vector of 32 coefficients over GF(2). */
  type Word = bv32

  /** The generator in reversed bit order; crc32c.c calls it POLY. */
  const POLY: bv32 := 0x82f63b78

  /** The generator of section 12.1 of RFC 3720, without its leading term. */
  const GENERATOR: bv32 := 0x1edc6f41

  function Xor(a: Word, b: Word): Word { a ^ b }

  function Complement(a: Word): Word { !a }

  function ByteWord(b: bv8): Word { b as bv32 }

  predicate Odd(a: Word) { a & 1 == 1 }

  predicate Top(a: Word) { a >> 31 == 1 }

  function Half(a: Word): Word { a >> 1 }

  function Double(a: Word): Word { a << 1 }

  /** One zero bit through the reflected register. */
  function Step(c: Word): Word {
    if Odd(c) then Xor(Half(c), POLY) else Half(c)
  }

  /** `n` zero bits through the register. */
  function Steps(n: nat, c: Word): Word
    decreases n
  {
    if n == 0 then c else Steps(n - 1, Step(c))
  }

  /** One message bit through the register. */
  function BitStep(c: Word, bit: bool): Word {
    Step(if bit then Xor(c, 1) else c)
  }

  function BitSteps(c: Word, bits: seq<bool>): Word
    decreases |bits|
  {
    if bits == [] then c else BitSteps(BitStep(c, bits[0]), bits[1..])
  }

  /** The low `n` bits of a word, least significant first. */
  function WordBits(w: Word, n: nat): (bits: seq<bool>)
    ensures |bits| == n
    decreases n
  {
    if n == 0 then [] else [Odd(w)] + WordBits(Half(w), n - 1)
  }

  /** The bits of a message: bytes in order, each least significant bit first. */
  function MessageBits(s: seq<bv8>): seq<bool> {
    if s == [] then [] else WordBits(ByteWord(s[0]), 8) + MessageBits(s[1..])
  }

  /** The register after a message, one byte at a time. */
  function Register(c: Word, s: seq<bv8>): Word
    decreases |s|
  {
    if s == [] then c else Register(Steps(8, Xor(c, ByteWord(s[0]))), s[1..])
  }

  /** The checksum of `s` continued from the checksum `crc` of what came before. */
  function Checksum(crc: Word, s: seq<bv8>): Word {
    Complement(Register(Complement(crc), s))
  }

  /** One step of long division by GENERATOR: bring down a message bit. */
  function Divide(r: Word, bit: bool): Word {
    if Top(r) != bit then Xor(Double(r), GENERATOR) else Double(r)
  }

  function DivideBits(r: Word, bits: seq<bool>): Word
    decreases |bits|
  {
    if bits == [] then r else DivideBits(Divide(r, bits[0]), bits[1..])
  }

  /** Reverses the 32 bits of a word. */
  function Reflect(x0: Word): Word {
    var x1 := ((x0 >> 1) & 0x55555555) | ((x0 & 0x55555555) << 1);
    var x2 := ((x1 >> 2) & 0x33333333) | ((x1 & 0x33333333) << 2);
    var x3 := ((x2 >> 4) & 0x0f0f0f0f) | ((x2 & 0x0f0f0f0f) << 4);
    var x4 := ((x3 >> 8) & 0x00ff00ff) | ((x3 & 0x00ff00ff) << 8);
    (x4 >> 16) | (x4 << 16)
  }

  /** Section 12.1 of RFC 3720: the register starts complemented, the message
      is divided bit by bit, the remainder is complemented and read reflected. */
  function Rfc3720Crc(crc: Word, s: seq<bv8>): Word {
    Reflect(Complement(DivideBits(Reflect(Complement(crc)), MessageBits(s))))
  }

  // ---- Laws of words -------------------------------------------------------

  lemma XorLaws(a: Word, b: Word, c: Word)
    ensures Xor(Xor(a, b), c) == Xor(a, Xor(b, c))
    ensures Xor(a, b) == Xor(b, a)
    ensures Xor(0, a) == a == Xor(a, 0)
    ensures Xor(a, a) == 0
  {}

  lemma ComplementTwice(a: Word)
    ensures Complement(Complement(a)) == a
  {}

  lemma HalfXor(a: Word, b: Word)
    ensures Half(Xor(a, b)) == Xor(Half(a), Half(b))
  {}

  lemma OddXor(a: Word, b: Word)
    ensures Odd(Xor(a, b)) <==> (Odd(a) != Odd(b))
  {}

  // ---- Linearity -----------------------------------------------------------

  lemma StepLinear(a: Word, b: Word)
    ensures Step(Xor(a, b)) == Xor(Step(a), Step(b))
  {
    hide Xor, Half, Odd;
    HalfXor(a, b);
    OddXor(a, b);
    var x, y := Half(a), Half(b);
    XorLaws(x, y, POLY);
    XorLaws(x, POLY, y);
    XorLaws(x, POLY, Xor(y, POLY));
    XorLaws(POLY, y, POLY);
    XorLaws(y, POLY, POLY);
  }

  /** Running zero bits through the register is linear over GF(2). */
  lemma {:induction false} StepsLinear(n: nat, a: Word, b: Word)
    ensures Steps(n, Xor(a, b)) == Xor(Steps(n, a), Steps(n, b))
    decreases n
  {
    hide Step, Xor;
    if n > 0 {
      StepLinear(a, b);
      StepsLinear(n - 1, Step(a), Step(b));
    }
  }

  lemma {:induction false} StepsZero(n: nat)
    ensures Steps(n, 0) == 0
  {
    if n > 0 { StepsZero(n - 1); }
  }

  /** Zero-bit operators compose by adding their lengths. */
  lemma {:induction false} StepsAdd(m: nat, n: nat, c: Word)
    ensures Steps(m + n, c) == Steps(m, Steps(n, c))
    decreases n
  {
    hide Step;
    if n > 0 { StepsAdd(m, n - 1, Step(c)); }
  }

  /** A register is the shifted start value plus the register from zero. */
  lemma {:induction false} RegisterSplit(c: Word, s: seq<bv8>)
    ensures Register(c, s) == Xor(Steps(8 * |s|, c), Register(0, s))
    decreases |s|
  {
    hide Step, Xor, ByteWord;
    XorLaws(c, c, c);
    if s != [] {
      hide Steps;
      var b, rest, n := ByteWord(s[0]), s[1..], 8 * (|s| - 1);
      StepsLinear(8, c, b);
      RegisterSplit(Xor(Steps(8, c), Steps(8, b)), rest);
      XorLaws(b, b, b);
      RegisterSplit(Steps(8, b), rest);
      StepsLinear(n, Steps(8, c), Steps(8, b));
      StepsAdd(n, 8, c);
      XorLaws(Steps(n, Steps(8, c)), Steps(n, Steps(8, b)), Register(0, rest));
    }
  }

  lemma RegisterEmpty(c: Word)
    ensures Register(c, []) == c
  {}

  lemma {:induction false} RegisterConcat(c: Word, s: seq<bv8>, t: seq<bv8>)
    ensures Register(c, s + t) == Register(Register(c, s), t)
    decreases |s|
  {
    hide Steps, Xor, ByteWord;
    if s == [] {
      assert s + t == t;
    } else {
      assert (s + t)[1..] == s[1..] + t;
      RegisterConcat(Steps(8, Xor(c, ByteWord(s[0]))), s[1..], t);
    }
  }

  /** Checksums chain: feeding the checksum of one chunk back as the start
      value of the next gives the checksum of the concatenation. */
  lemma ChecksumConcat(crc: Word, s: seq<bv8>, t: seq<bv8>)
    ensures Checksum(Checksum(crc, s), t) == Checksum(crc, s + t)
  {
    hide Register, Complement;
    RegisterConcat(Complement(crc), s, t);
    ComplementTwice(Register(Complement(crc), s));
  }

  // ---- Bits and bytes ------------------------------------------------------

  lemma {:induction false} BitStepsConcat(c: Word, s: seq<bool>, t: seq<bool>)
    ensures BitSteps(c, s + t) == BitSteps(BitSteps(c, s), t)
    decreases |s|
  {
    hide BitStep;
    if s == [] {
      assert s + t == t;
    } else {
      assert (s + t)[1..] == s[1..] + t;
      BitStepsConcat(BitStep(c, s[0]), s[1..], t);
    }
  }

  function HighBits(b: Word): Word { b & 0xfffffffe }

  lemma HighBitsHalf(b: Word)
    ensures Half(HighBits(b)) == Half(b)
  {}

  lemma HighBitsEven(b: Word)
    ensures !Odd(HighBits(b))
  {}

  lemma LowBitSplit(b: Word)
    ensures b == Xor(if Odd(b) then 1 else 0, HighBits(b))
  {}

  /** The low bit of a word leaves the register; the others stay in it, one
      place lower. */
  lemma PeelBit(c: Word, b: Word)
    ensures Step(Xor(c, b)) == Xor(BitStep(c, Odd(b)), Half(b))
  {
    hide Xor, Half, HighBits, Odd;
    LowBitSplit(b);
    HighBitsHalf(b);
    HighBitsEven(b);
    assert Step(HighBits(b)) == Half(b);
    hide Step;
    var low, high := if Odd(b) then 1 else 0, HighBits(b);
    XorLaws(c, low, high);
    XorLaws(c, c, c);
    StepLinear(Xor(c, low), high);
  }

  /** The word after dropping its low `n` bits. */
  function TopBits(b: Word, n: nat): Word
    decreases n
  {
    if n == 0 then b else TopBits(Half(b), n - 1)
  }

  /** `n` message bits are `n` zero bits with the message word xored in first,
      as long as the word has no more than `n` bits. */
  lemma {:induction false} BitStepsAreSteps(c: Word, b: Word, n: nat)
    requires TopBits(b, n) == 0
    ensures BitSteps(c, WordBits(b, n)) == Steps(n, Xor(c, b))
    decreases n
  {
    hide Step, BitStep, Xor, Odd, Half;
    XorLaws(c, c, c);
    if n > 0 {
      PeelBit(c, b);
      assert WordBits(b, n)[1..] == WordBits(Half(b), n - 1);
      BitStepsAreSteps(BitStep(c, Odd(b)), Half(b), n - 1);
    }
  }

  lemma ByteTop(b: bv8)
    ensures TopBits(ByteWord(b), 8) == 0
  {
    var w := ByteWord(b);
    ByteTopBits(b);
    hide Half, ByteWord;
    var h2 := Half(Half(w));
    var h4 := Half(Half(h2));
    var h6 := Half(Half(h4));
    assert TopBits(w, 8) == TopBits(h2, 6);
    assert TopBits(h2, 6) == TopBits(h4, 4);
    assert TopBits(h4, 4) == TopBits(h6, 2);
  }

  lemma ByteTopBits(b: bv8)
    ensures Half(Half(Half(Half(Half(Half(Half(Half(ByteWord(b))))))))) == 0
  {}

  /** A byte through the register, bit by bit or all at once. */
  lemma ByteStep(c: Word, b: bv8)
    ensures BitSteps(c, WordBits(ByteWord(b), 8)) == Steps(8, Xor(c, ByteWord(b)))
  {
    hide *;
    ByteTop(b);
    BitStepsAreSteps(c, ByteWord(b), 8);
  }

  lemma {:induction false} RegisterIsBitSteps(c: Word, s: seq<bv8>)
    ensures Register(c, s) == BitSteps(c, MessageBits(s))
    decreases |s|
  {
    hide Steps, BitStep, WordBits, Xor, ByteWord;
    if s != [] {
      ByteStep(c, s[0]);
      RegisterIsBitSteps(Steps(8, Xor(c, ByteWord(s[0]))), s[1..]);
      BitStepsConcat(c, WordBits(ByteWord(s[0]), 8), MessageBits(s[1..]));
    }
  }

  // ---- Bytes of words and loads --------------------------------------------

  function DropLowByte(v: Word): Word { v >> 8 }

  lemma HalveByte(v: Word)
    ensures Half(Half(Half(Half(Half(Half(Half(Half(v)))))))) == DropLowByte(v)
  {}

  lemma TopByte(v: Word, n: nat)
    ensures TopBits(v, n + 8) == TopBits(DropLowByte(v), n)
  {
    HalveByte(v);
    hide Half, DropLowByte;
    var h2 := Half(Half(v));
    var h4 := Half(Half(h2));
    var h6 := Half(Half(h4));
    assert TopBits(v, n + 8) == TopBits(h2, n + 6);
    assert TopBits(h2, n + 6) == TopBits(h4, n + 4);
    assert TopBits(h4, n + 4) == TopBits(h6, n + 2);
    assert TopBits(h6, n + 2) == TopBits(Half(h6), n + 1);
  }

  /** A byte at byte position `k` of a word. */
  function Place(b: bv8, k: nat): Word
    requires k < 4
  {
    if k == 0 then b as bv32
    else if k == 1 then (b as bv32) << 8
    else if k == 2 then (b as bv32) << 16
    else (b as bv32) << 24
  }

  function ByteAt(w: Word, k: nat): bv8
    requires k < 4
  {
    if k == 0 then (w & 0xff) as bv8
    else if k == 1 then ((w >> 8) & 0xff) as bv8
    else if k == 2 then ((w >> 16) & 0xff) as bv8
    else (w >> 24) as bv8
  }

  function Index(b: bv8): (i: int)
    ensures 0 <= i < 256 && i as bv8 == b
  {
    b as int
  }

  lemma BytesOfWord(w: Word)
    ensures w == Xor(Xor(Xor(Place(ByteAt(w, 0), 0), Place(ByteAt(w, 1), 1)),
                         Place(ByteAt(w, 2), 2)), Place(ByteAt(w, 3), 3))
  {}

  function ByteOf(w: bv64): bv8 { (w & 0xff) as bv8 }

  /** A load of up to eight bytes on a little-endian processor: the first
      byte is the least significant. */
  function LoadLittle(s: seq<bv8>): bv64
    requires |s| <= 8
  {
    if s == [] then 0 else Append(s[0], LoadLittle(s[1..]))
  }

  function Append(b: bv8, w: bv64): bv64 { (b as bv64) | (w << 8) }

  /** All ones in the low `k` bytes. */
  function ByteMask(k: nat): bv64 {
    if k == 0 then 0 else Append(0xff, ByteMask(k - 1))
  }

  predicate Fits(w: bv64, m: bv64) { w & !m == 0 }

  lemma AppendFits(b: bv8, w: bv64, m: bv64)
    requires Fits(w, m)
    ensures Fits(Append(b, w), Append(0xff, m))
  {}

  lemma {:induction false} LoadFits(s: seq<bv8>)
    requires |s| <= 8
    ensures Fits(LoadLittle(s), ByteMask(|s|))
  {
    if s == [] {
      assert Fits(0, 0);
    } else {
      hide Fits, Append;
      LoadFits(s[1..]);
      AppendFits(s[0], LoadLittle(s[1..]), ByteMask(|s| - 1));
    }
  }

  lemma ByteMaskSmall(k: nat)
    requires k < 8
    ensures Fits(ByteMask(k), 0xffffffffffffff)
  {
    assert ByteMask(0) == 0 && ByteMask(1) == 0xff && ByteMask(2) == 0xffff;
    assert ByteMask(3) == 0xffffff && ByteMask(4) == 0xffffffff && ByteMask(5) == 0xffffffffff;
    assert ByteMask(6) == 0xffffffffffff && ByteMask(7) == 0xffffffffffffff;
  }

  lemma AppendSplit(b: bv8, w: bv64, m: bv64)
    requires Fits(w, m) && Fits(m, 0xffffffffffffff)
    ensures ByteOf(Append(b, w)) == b
    ensures Append(b, w) >> 8 == w
  {}

  // ---- The reflected register is the RFC's register ------------------------

  lemma ReflectDouble(x: Word)
    ensures Reflect(Double(x)) == Half(Reflect(x))
  {
    hide Reflect;
    ReflectShift(x);
  }

  lemma ReflectShift(x: Word)
    ensures Reflect(x << 1) == Reflect(x) >> 1
  {}

  lemma ReflectXor(x: Word, y: Word)
    ensures Reflect(Xor(x, y)) == Xor(Reflect(x), Reflect(y))
  {}

  lemma ReflectTop(x: Word)
    ensures Top(x) <==> Odd(Reflect(x))
  {}

  lemma ReflectTwice(x: Word)
    ensures Reflect(Reflect(x)) == x
  {}

  lemma ReflectComplement(x: Word)
    ensures Reflect(Complement(x)) == Complement(Reflect(x))
  {
    hide Reflect;
    ReflectNot(x);
  }

  lemma ReflectNot(x: Word)
    ensures Reflect(!x) == !Reflect(x)
  {}

  lemma GeneratorReflected()
    ensures Reflect(GENERATOR) == POLY
  {}

  lemma FlipLowBit(x: Word)
    ensures Half(Xor(x, 1)) == Half(x)
    ensures Odd(Xor(x, 1)) <==> !Odd(x)
  {}

  /** One division step, read backwards, is one step of the reflected register. */
  lemma DivideReflects(r: Word, bit: bool)
    ensures Reflect(Divide(r, bit)) == BitStep(Reflect(r), bit)
  {
    hide Reflect, Xor, Half, Double, Odd, Top;
    ReflectDouble(r);
    ReflectTop(r);
    ReflectXor(Double(r), GENERATOR);
    GeneratorReflected();
    FlipLowBit(Reflect(r));
  }

  lemma {:induction false} DivideBitsReflects(r: Word, bits: seq<bool>)
    ensures Reflect(DivideBits(r, bits)) == BitSteps(Reflect(r), bits)
    decreases |bits|
  {
    hide Reflect, Divide, BitStep;
    if bits != [] {
      DivideReflects(r, bits[0]);
      DivideBitsReflects(Divide(r, bits[0]), bits[1..]);
    }
  }

  /** The byte-wise reflected checksum is the CRC of section 12.1 of RFC 3720. */
  lemma ChecksumIsRfc3720(crc: Word, s: seq<bv8>)
    ensures Checksum(crc, s) == Rfc3720Crc(crc, s)
  {
    hide Reflect, Complement, Register, DivideBits, BitSteps, MessageBits;
    var start := Reflect(Complement(crc));
    DivideBitsReflects(start, MessageBits(s));
    ReflectTwice(Complement(crc));
    ReflectComplement(DivideBits(start, MessageBits(s)));
    RegisterIsBitSteps(Complement(crc), s);
  }
}

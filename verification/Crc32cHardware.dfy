/** crc32c.c for processors with the crc32 instruction.

    The routine runs three instructions in parallel on three blocks and joins
    the three registers by shifting a register over a block of zero bytes.
    The shift is a table of a GF(2) matrix, and the matrix is built by
    squaring. Everything here is proved equal to `Crc32cSpec.Checksum`.
 */
module Crc32cHardware {
  import opened Crc32cSpec

  const LONG: nat := 8192
  const SHORT: nat := 256

  // ---- The crc32 instruction ----------------------------------------------

  predicate QuadOdd(w: bv64) { w & 1 == 1 }

  function QuadHalf(w: bv64): bv64 { w >> 1 }

  /** The low `n` bits of a 64-bit operand, least significant first. */
  function QuadBits(w: bv64, n: nat): seq<bool>
    decreases n
  {
    if n == 0 then [] else [QuadOdd(w)] + QuadBits(QuadHalf(w), n - 1)
  }

  /** crc32b: eight bit steps. */
  function Crc32b(c: Word, b: bv8): Word {
    BitSteps(c, WordBits(ByteWord(b), 8))
  }

  /** crc32q: sixty-four bit steps. */
  function Crc32q(c: Word, w: bv64): Word {
    BitSteps(c, QuadBits(w, 64))
  }

  // ---- An eight-byte instruction is eight one-byte instructions ------------

  function MaskUp(m: bv64): bv64 { (m << 1) | 1 }

  function Mask(n: nat): bv64 {
    if n == 0 then 0 else MaskUp(Mask(n - 1))
  }

  function QuadDrop(w: bv64, n: nat): bv64
    decreases n
  {
    if n == 0 then w else QuadDrop(QuadHalf(w), n - 1)
  }

  predicate Agree(w: bv64, x: Word, mask: bv64) { w & mask == x as bv64 }

  lemma AgreePeel(w: bv64, x: Word, m: bv64)
    requires m < 256 && Agree(w, x, MaskUp(m))
    ensures QuadOdd(w) <==> Odd(x)
    ensures Agree(QuadHalf(w), Half(x), m)
  {}

  lemma MaskSmall(n: nat)
    requires n <= 8
    ensures Mask(n) < 256
    ensures Mask(8) == 0xff
  {
    assert Mask(0) == 0 && Mask(1) == 1 && Mask(2) == 3 && Mask(3) == 7 && Mask(4) == 15;
    assert Mask(5) == 31 && Mask(6) == 63 && Mask(7) == 127 && Mask(8) == 255;
  }

  lemma {:induction false} BitsAgree(w: bv64, x: Word, n: nat, k: nat)
    requires n <= 8 && Agree(w, x, Mask(n))
    ensures QuadBits(w, n + k) == WordBits(x, n) + QuadBits(QuadDrop(w, n), k)
    decreases n
  {
    hide Agree, QuadOdd, Odd, QuadHalf, Half, MaskUp, QuadBits, WordBits;
    if n > 0 {
      MaskSmall(n - 1);
      AgreePeel(w, x, Mask(n - 1));
      BitsAgree(QuadHalf(w), Half(x), n - 1, k);
      FirstBits(w, x, n, k);
    } else {
      NoBits(w, x, k);
    }
  }

  /** The lowest bit first. */
  lemma FirstBits(w: bv64, x: Word, n: nat, k: nat)
    requires n > 0 && QuadOdd(w) == Odd(x)
    requires QuadBits(QuadHalf(w), n - 1 + k) == WordBits(Half(x), n - 1) + QuadBits(QuadDrop(QuadHalf(w), n - 1), k)
    ensures QuadBits(w, n + k) == WordBits(x, n) + QuadBits(QuadDrop(QuadHalf(w), n - 1), k)
  {
    hide QuadOdd, Odd, QuadHalf, Half, QuadDrop;
  }

  lemma NoBits(w: bv64, x: Word, k: nat)
    ensures QuadBits(w, k) == WordBits(x, 0) + QuadBits(w, k)
  {}

  lemma DropByte(w: bv64)
    ensures QuadHalf(QuadHalf(QuadHalf(QuadHalf(QuadHalf(QuadHalf(QuadHalf(QuadHalf(w)))))))) == w >> 8
  {}

  lemma DropEight(w: bv64)
    ensures QuadDrop(w, 8) == w >> 8
  {
    DropByte(w);
    hide QuadHalf;
    var h2 := QuadHalf(QuadHalf(w));
    var h4 := QuadHalf(QuadHalf(h2));
    var h6 := QuadHalf(QuadHalf(h4));
    assert QuadDrop(w, 8) == QuadDrop(h2, 6);
    assert QuadDrop(h2, 6) == QuadDrop(h4, 4);
    assert QuadDrop(h4, 4) == QuadDrop(h6, 2);
  }

  lemma LowByteAgrees(w: bv64)
    ensures Agree(w, ByteWord(ByteOf(w)), 0xff)
  {}

  /** crc32b is the byte step of the register. */
  lemma ByteInstruction(c: Word, b: bv8)
    ensures Crc32b(c, b) == Steps(8, Xor(c, ByteWord(b)))
  {
    hide BitSteps, Steps, WordBits, Xor, ByteWord;
    ByteStep(c, b);
  }

  /** The instruction consumes its operand low byte first. */
  lemma QuadFirstByte(c: Word, w: bv64, k: nat)
    ensures BitSteps(c, QuadBits(w, 8 + k)) == BitSteps(Crc32b(c, ByteOf(w)), QuadBits(w >> 8, k))
  {
    hide QuadBits, WordBits, ByteWord, BitSteps, Agree, ByteOf;
    LowByteAgrees(w);
    MaskSmall(8);
    BitsAgree(w, ByteWord(ByteOf(w)), 8, k);
    DropEight(w);
    BitStepsConcat(c, WordBits(ByteWord(ByteOf(w)), 8), QuadBits(w >> 8, k));
  }

  /** crc32q on a little-endian load is the register after those bytes. */
  lemma {:induction false} QuadInstruction(c: Word, s: seq<bv8>)
    requires |s| <= 8
    ensures BitSteps(c, QuadBits(LoadLittle(s), 8 * |s|)) == Register(c, s)
    decreases |s|
  {
    hide Steps, Xor, ByteWord, Append, Crc32b, BitStep, ByteOf, Fits, QuadHalf, QuadOdd;
    if s != [] {
      var rest := LoadLittle(s[1..]);
      LoadFits(s[1..]);
      ByteMaskSmall(|s| - 1);
      AppendSplit(s[0], rest, ByteMask(|s| - 1));
      QuadFirstByte(c, LoadLittle(s), 8 * (|s| - 1));
      ByteInstruction(c, s[0]);
      QuadInstruction(Steps(8, Xor(c, ByteWord(s[0]))), s[1..]);
    }
  }

  // ---- GF(2) matrices ------------------------------------------------------

  /** `v` moved up `i` bit places. */
  function ShiftUp(v: Word, i: nat): Word
    decreases i
  {
    if i == 0 then v else ShiftUp(Double(v), i - 1)
  }

  /** The product of a matrix and a vector: the xor of the rows picked out by
      the bits of `vec`, row 0 by the least significant bit. */
  function MatrixTimes(mat: seq<Word>, vec: Word): Word
    decreases |mat|
  {
    if mat == [] then 0
    else Xor(if Odd(vec) then mat[0] else 0, MatrixTimes(mat[1..], Half(vec)))
  }

  /** The matrix whose rows are the images of the unit vectors under `n` zero bits. */
  ghost predicate IsZerosOperator(mat: seq<Word>, n: nat) {
    |mat| == 32 && forall i | 0 <= i < 32 :: mat[i] == Steps(n, ShiftUp(1, i))
  }

  lemma DoubleXor(a: Word, b: Word)
    ensures Double(Xor(a, b)) == Xor(Double(a), Double(b))
  {}

  lemma {:induction false} ShiftUpLinear(a: Word, b: Word, i: nat)
    ensures ShiftUp(Xor(a, b), i) == Xor(ShiftUp(a, i), ShiftUp(b, i))
    decreases i
  {
    hide Double, Xor;
    if i > 0 {
      DoubleXor(a, b);
      ShiftUpLinear(Double(a), Double(b), i - 1);
    }
  }

  lemma {:induction false} ShiftUpZero(i: nat)
    ensures ShiftUp(0, i) == 0
  {
    if i > 0 { ShiftUpZero(i - 1); }
  }

  lemma SplitLowBit(v: Word)
    ensures v == Xor(if Odd(v) then 1 else 0, Double(Half(v)))
  {}

  lemma {:induction false} TimesZero(mat: seq<Word>)
    ensures MatrixTimes(mat, 0) == 0
  {
    if mat != [] { TimesZero(mat[1..]); }
  }

  /** Rows `i` and up of a zeros operator apply it to a vector moved up `i` places. */
  lemma {:induction false} TimesFrom(mat: seq<Word>, n: nat, i: nat, v: Word)
    requires IsZerosOperator(mat, n)
    requires i <= 32 && TopBits(v, 32 - i) == 0
    ensures MatrixTimes(mat[i..], v) == Steps(n, ShiftUp(v, i))
    decreases 32 - i
  {
    hide Xor, Half, Double, Odd, Steps;
    ShiftUpZero(i);
    StepsZero(n);
    if i < 32 {
      var low := if Odd(v) then 1 else 0;
      assert mat[i..][1..] == mat[i + 1..];
      TimesFrom(mat, n, i + 1, Half(v));
      SplitLowBit(v);
      ShiftUpLinear(low, Double(Half(v)), i);
      StepsLinear(n, ShiftUp(low, i), ShiftUp(Double(Half(v)), i));
    }
  }

  lemma WordIs32Bits(v: Word)
    ensures TopBits(v, 32) == 0
  {
    hide TopBits, DropLowByte;
    var v1 := DropLowByte(v);
    var v2 := DropLowByte(v1);
    var v3 := DropLowByte(v2);
    TopByte(v, 24);
    TopByte(v1, 16);
    TopByte(v2, 8);
    TopByte(v3, 0);
    AllShiftedOut(v);
    NoTopBits(DropLowByte(v3));
  }

  lemma AllShiftedOut(v: Word)
    ensures DropLowByte(DropLowByte(DropLowByte(DropLowByte(v)))) == 0
  {}

  lemma NoTopBits(v: Word)
    ensures TopBits(v, 0) == v
  {}

  /** Multiplying by a zeros operator runs that many zero bits. */
  lemma TimesIsSteps(mat: seq<Word>, n: nat, v: Word)
    requires IsZerosOperator(mat, n)
    ensures MatrixTimes(mat, v) == Steps(n, v)
  {
    hide Steps, Double;
    WordIs32Bits(v);
    TimesFrom(mat, n, 0, v);
    assert mat[0..] == mat;
  }

  /** Squaring an operator doubles its length. */
  lemma SquareDoubles(mat: seq<Word>, square: seq<Word>, n: nat)
    requires IsZerosOperator(mat, n)
    requires |square| == 32 && forall i | 0 <= i < 32 :: square[i] == MatrixTimes(mat, mat[i])
    ensures IsZerosOperator(square, 2 * n)
  {
    hide Steps, ShiftUp, MatrixTimes;
    forall i | 0 <= i < 32
      ensures square[i] == Steps(2 * n, ShiftUp(1, i))
    {
      TimesIsSteps(mat, n, mat[i]);
      StepsAdd(n, n, ShiftUp(1, i));
    }
  }

  /** Multiplies a matrix and a vector, stopping at the vector's last one bit. */
  method GfMatrixTimes(mat: array<Word>, vec: Word) returns (sum: Word)
    requires mat.Length == 32
    ensures sum == MatrixTimes(mat[..], vec)
  {
    hide Xor, Odd, Half, TopBits;
    sum := 0;
    var v, i := vec, 0;
    WordIs32Bits(vec);
    assert mat[0..] == mat[..];
    XorLaws(MatrixTimes(mat[..], vec), 0, 0);
    while v != 0
      invariant i <= 32 && TopBits(v, 32 - i) == 0
      invariant Xor(sum, MatrixTimes(mat[i..], v)) == MatrixTimes(mat[..], vec)
      decreases 32 - i
    {
      if i == 32 { NoTopBits(v); }
      TopBitsPeel(v, 32 - i);
      assert mat[i..][1..] == mat[i + 1..];
      XorLaws(sum, if Odd(v) then mat[i] else 0, MatrixTimes(mat[i + 1..], Half(v)));
      XorLaws(sum, 0, 0);
      if Odd(v) {
        sum := Xor(sum, mat[i]);
      }
      v := Half(v);
      i := i + 1;
    }
    TimesZero(mat[i..]);
    XorLaws(sum, 0, 0);
  }

  lemma TopBitsPeel(v: Word, n: nat)
    requires n > 0
    ensures TopBits(v, n) == TopBits(Half(v), n - 1)
  {}

  method GfMatrixSquare(square: array<Word>, mat: array<Word>)
    requires square.Length == 32 && mat.Length == 32 && square != mat
    modifies square
    ensures forall i | 0 <= i < 32 :: square[i] == MatrixTimes(mat[..], mat[i])
  {
    hide MatrixTimes;
    for n := 0 to 32
      invariant forall i | 0 <= i < n :: square[i] == MatrixTimes(mat[..], mat[i])
      invariant mat[..] == old(mat[..])
    {
      square[n] := GfMatrixTimes(mat, mat[n]);
    }
  }

  // ---- The zero-bytes operator ---------------------------------------------

  /** The largest power of two not above `len`, and 1 for an empty length. */
  function PowerFloor(len: nat): nat {
    if len <= 1 then 1 else 2 * PowerFloor(len / 2)
  }

  /** Squares `mat` into `square`, doubling the operator's length. */
  method DoubleOperator(square: array<Word>, mat: array<Word>, ghost n: nat)
    requires square.Length == 32 && mat.Length == 32 && square != mat
    requires IsZerosOperator(mat[..], n)
    modifies square
    ensures IsZerosOperator(square[..], 2 * n)
  {
    hide MatrixTimes, Steps, ShiftUp;
    GfMatrixSquare(square, mat);
    SquareDoubles(mat[..], square[..], n);
  }

  /** `v` can be moved up `i` places without losing a one bit at the top. */
  predicate Room(v: Word, i: nat)
    decreases i
  {
    !Top(v) && (i > 0 ==> Room(Double(v), i - 1))
  }

  lemma {:induction false} RoomBelowTop(v: Word, i: nat, j: nat)
    requires Room(v, i) && j <= i
    ensures !Top(ShiftUp(v, j))
    decreases j
  {
    if j > 0 { RoomBelowTop(Double(v), i - 1, j - 1); }
  }

  lemma {:induction false} ShiftUpDouble(v: Word, i: nat)
    ensures ShiftUp(v, i + 1) == Double(ShiftUp(v, i))
    decreases i
  {
    hide Double;
    if i > 0 { ShiftUpDouble(Double(v), i - 1); }
  }

  lemma StepDouble(v: Word)
    requires !Top(v)
    ensures Step(Double(v)) == v
  {
    HalfDouble(v);
    EvenDouble(v);
    hide Half, Double, Odd, Xor;
  }

  lemma HalfDouble(v: Word)
    requires !Top(v)
    ensures Half(Double(v)) == v
  {}

  lemma EvenDouble(v: Word)
    ensures !Odd(Double(v))
  {}

  lemma UnitRoom()
    ensures Room(1, 30)
  {
    assert Room(0x40000000, 0) && Room(0x10000000, 2);
    assert Room(0x04000000, 4) && Room(0x01000000, 6);
    assert Room(0x00400000, 8) && Room(0x00100000, 10);
    assert Room(0x00040000, 12) && Room(0x00010000, 14);
    assert Room(0x00004000, 16) && Room(0x00001000, 18);
    assert Room(0x00000400, 20) && Room(0x00000100, 22);
    assert Room(0x00000040, 24) && Room(0x00000010, 26);
    assert Room(0x00000004, 28);
  }

  /** One zero bit moves every unit vector but the first down one place. */
  lemma UnitStep(i: nat)
    requires i < 31
    ensures Steps(1, ShiftUp(1, i + 1)) == ShiftUp(1, i)
  {
    UnitRoom();
    hide Step, Double, Top;
    RoomBelowTop(1, 30, i);
    ShiftUpDouble(1, i);
    StepDouble(ShiftUp(1, i));
    assert Steps(1, ShiftUp(1, i + 1)) == Steps(0, Step(ShiftUp(1, i + 1)));
  }

  lemma FirstUnitStep()
    ensures Steps(1, ShiftUp(1, 0)) == POLY
  {
    assert Odd(1) && Half(1) == 0;
    XorLaws(POLY, POLY, POLY);
    hide Xor, Odd, Half;
    assert Steps(1, 1) == Steps(0, Step(1));
  }

  /** The operator for one zero bit. */
  method OneBitOperator(odd: array<Word>)
    requires odd.Length == 32
    modifies odd
    ensures IsZerosOperator(odd[..], 1)
  {
    hide Steps, Double;
    odd[0] := POLY;
    FirstUnitStep();
    var row: Word := 1;
    for n := 1 to 32
      invariant row == ShiftUp(1, n - 1)
      invariant forall i | 0 <= i < n :: odd[i] == Steps(1, ShiftUp(1, i))
    {
      odd[n] := row;
      UnitStep(n - 1);
      ShiftUpDouble(1, n - 1);
      row := Double(row);
    }
  }

  /** Builds the operator for `len` zero bytes by repeated squaring; a length
      that is not a power of two is rounded down to one. */
  method ZerosOp(even: array<Word>, len: nat)
    requires even.Length == 32
    modifies even
    ensures IsZerosOperator(even[..], 8 * PowerFloor(len))
  {
    hide IsZerosOperator;
    var odd := new Word[32];
    OneBitOperator(odd);
    DoubleOperator(even, odd, 1);
    DoubleOperator(odd, even, 2);
    var l := len;
    ghost var m: nat := 1;
    while true
      invariant IsZerosOperator(odd[..], 4 * m)
      invariant PowerFloor(len) == m * PowerFloor(l)
      invariant l > 0 || l == len
      decreases l
    {
      DoubleOperator(even, odd, 4 * m);
      if l / 2 == 0 { return; }
      DoubleOperator(odd, even, 8 * m);
      if l / 4 == 0 { break; }
      PowerQuarter(l, m);
      l, m := l / 4, 4 * m;
    }
    assert PowerFloor(l) == 2 * PowerFloor(l / 2) == 2;
    for n := 0 to 32
      invariant even[..n] == odd[..n]
      invariant IsZerosOperator(odd[..], 16 * m)
    {
      even[n] := odd[n];
    }
    assert even[..] == even[..32] == odd[..];
  }

  lemma PowerQuarter(l: nat, m: nat)
    requires l / 4 > 0
    ensures m * PowerFloor(l) == 4 * m * PowerFloor(l / 4)
  {
    assert l / 2 / 2 == l / 4;
    assert PowerFloor(l) == 2 * PowerFloor(l / 2) == 4 * PowerFloor(l / 4);
    FourTimes(m, PowerFloor(l / 4));
  }

  lemma FourTimes(m: nat, p: nat)
    ensures m * (4 * p) == 4 * m * p
  {}

  // ---- Shift tables --------------------------------------------------------

  /** Four tables, one for each byte position, of the operator for `n` zero bits. */
  ghost predicate IsZerosTable(t: array2<Word>, n: nat)
    reads t
  {
    && t.Length0 == 4 && t.Length1 == 256
    && forall k, b | 0 <= k < 4 && 0 <= b < 256 :: t[k, b] == Steps(n, Place(b as bv8, k))
  }

  /** Builds the tables that move a register over `len` zero bytes. */
  method Zeros(len: nat) returns (zeros: array2<Word>)
    ensures fresh(zeros) && IsZerosTable(zeros, 8 * PowerFloor(len))
  {
    hide IsZerosOperator, Steps, Place, PowerFloor;
    var op := new Word[32];
    ZerosOp(op, len);
    zeros := new Word[4, 256];
    ghost var bits := 8 * PowerFloor(len);
    for n := 0 to 256
      invariant IsZerosOperator(op[..], bits)
      invariant forall k, b | 0 <= k < 4 && 0 <= b < n :: zeros[k, b] == Steps(bits, Place(b as bv8, k))
    {
      var byte := n as bv8;
      for k := 0 to 4
        invariant IsZerosOperator(op[..], bits)
        invariant forall k, b | 0 <= k < 4 && 0 <= b < n :: zeros[k, b] == Steps(bits, Place(b as bv8, k))
        invariant forall j | 0 <= j < k :: zeros[j, n] == Steps(bits, Place(byte, j))
      {
        TimesIsSteps(op[..], bits, Place(byte, k));
        var entry := GfMatrixTimes(op, Place(byte, k));
        zeros[k, n] := entry;
      }
    }
  }

  /** Applies a shift table to a register, byte by byte. */
  function Shift(zeros: array2<Word>, crc: Word): Word
    requires zeros.Length0 == 4 && zeros.Length1 == 256
    reads zeros
  {
    Xor(Xor(Xor(zeros[0, Index(ByteAt(crc, 0))], zeros[1, Index(ByteAt(crc, 1))]),
            zeros[2, Index(ByteAt(crc, 2))]), zeros[3, Index(ByteAt(crc, 3))])
  }

  /** A shift table moves a register over its zero bits. */
  lemma ShiftIsSteps(zeros: array2<Word>, n: nat, crc: Word)
    requires IsZerosTable(zeros, n)
    ensures Shift(zeros, crc) == Steps(n, crc)
  {
    BytesOfWord(crc);
    hide Xor, Place, ByteAt, Steps, Index;
    var p0, p1 := Place(ByteAt(crc, 0), 0), Place(ByteAt(crc, 1), 1);
    var p2, p3 := Place(ByteAt(crc, 2), 2), Place(ByteAt(crc, 3), 3);
    StepsLinear(n, Xor(Xor(p0, p1), p2), p3);
    StepsLinear(n, Xor(p0, p1), p2);
    StepsLinear(n, p0, p1);
  }

  // ---- The three-way routine -----------------------------------------------

  lemma RegisterExtend(c: Word, buf: seq<bv8>, i: nat, j: nat, k: nat)
    requires i <= j <= k <= |buf|
    ensures Register(c, buf[i..k]) == Register(Register(c, buf[i..j]), buf[j..k])
  {
    hide Register;
    assert buf[i..k] == buf[i..j] + buf[j..k];
    RegisterConcat(c, buf[i..j], buf[j..k]);
  }

  /** Three registers run side by side over three adjacent blocks join into the
      register over all three. */
  lemma JoinThree(c: Word, a: seq<bv8>, b: seq<bv8>, d: seq<bv8>, n: nat)
    requires |a| == |b| == |d| == n
    ensures Xor(Steps(8 * n, Xor(Steps(8 * n, Register(c, a)), Register(0, b))), Register(0, d))
         == Register(c, a + b + d)
  {
    hide Xor, Steps, Register;
    RegisterConcat(c, a + b, d);
    RegisterConcat(c, a, b);
    RegisterSplit(Register(c, a), b);
    RegisterSplit(Register(c, a + b), d);
  }

  /** The address of the byte is a multiple of eight. */
  predicate OnEight(address: nat, at: nat) { (address + at) % 8 == 0 }

  lemma OnEightPlus(address: nat, at: nat, n: nat)
    requires OnEight(address, at) && n % 8 == 0
    ensures OnEight(address, at + n)
  {}

  /** One load, at an address that is a multiple of eight, and one crc32q. */
  method Quad(c: Word, ghost address: nat, buf: seq<bv8>, at: nat) returns (r: Word)
    requires at + 8 <= |buf| && OnEight(address, at)
    ensures r == Register(c, buf[at..at + 8])
  {
    hide BitSteps, QuadBits, Register;
    QuadInstruction(c, buf[at..at + 8]);
    r := Crc32q(c, LoadLittle(buf[at..at + 8]));
  }

  lemma ThreeOnEight(address: nat, next: nat, block: nat, i: nat)
    requires OnEight(address, next) && block % 8 == 0 && i % 8 == 0
    ensures OnEight(address, next + i) && OnEight(address, next + block + i) && OnEight(address, next + 2 * block + i)
  {
    hide OnEight;
    OnEightPlus(address, next, i);
    OnEightPlus(address, next + i, block);
    OnEightPlus(address, next + block + i, block);
    assert next + i + block == next + block + i && next + block + i + block == next + 2 * block + i;
  }

  /** Three instruction streams over three adjacent blocks. */
  method ThreeStreams(c: Word, ghost address: nat, buf: seq<bv8>, next: nat, block: nat)
    returns (crc0: Word, crc1: Word, crc2: Word)
    requires next + 3 * block <= |buf| && block % 8 == 0 && OnEight(address, next)
    ensures crc0 == Register(c, buf[next..next + block])
    ensures crc1 == Register(0, buf[next + block..next + 2 * block])
    ensures crc2 == Register(0, buf[next + 2 * block..next + 3 * block])
  {
    hide Register, OnEight;
    crc0, crc1, crc2 := c, 0, 0;
    var i := 0;
    RegisterEmpty(c);
    RegisterEmpty(0);
    assert buf[next..next] == buf[next + block..next + block] == buf[next + 2 * block..next + 2 * block] == [];
    while i < block
      invariant 0 <= i <= block && i % 8 == 0
      invariant crc0 == Register(c, buf[next..next + i])
      invariant crc1 == Register(0, buf[next + block..next + block + i])
      invariant crc2 == Register(0, buf[next + 2 * block..next + 2 * block + i])
    {
      ThreeOnEight(address, next, block, i);
      crc0 := Quad(crc0, address, buf, next + i);
      crc1 := Quad(crc1, address, buf, next + block + i);
      crc2 := Quad(crc2, address, buf, next + 2 * block + i);
      RegisterExtend(c, buf, next, next + i, next + i + 8);
      RegisterExtend(0, buf, next + block, next + block + i, next + block + i + 8);
      RegisterExtend(0, buf, next + 2 * block, next + 2 * block + i, next + 2 * block + i + 8);
      i := i + 8;
    }
  }

  /** Three blocks of `block` bytes at a time, as long as three are left. */
  method ThreeWay(crc: Word, ghost address: nat, buf: seq<bv8>, start: nat, block: nat, zeros: array2<Word>)
    returns (crc0: Word, next: nat)
    requires start <= |buf| && block > 0 && block % 8 == 0 && (start == |buf| || OnEight(address, start))
    requires IsZerosTable(zeros, 8 * block)
    ensures start <= next <= |buf| && |buf| - next < 3 * block && (next == |buf| || OnEight(address, next))
    ensures crc0 == Register(crc, buf[start..next])
  {
    hide IsZerosTable, Register, Shift, Steps, Xor, OnEight;
    crc0, next := crc, start;
    RegisterEmpty(crc);
    assert buf[start..start] == [];
    while |buf| - next >= 3 * block
      invariant start <= next <= |buf| && (next == |buf| || OnEight(address, next))
      invariant crc0 == Register(crc, buf[start..next])
      decreases |buf| - next
    {
      var c0, c1, c2 := ThreeStreams(crc0, address, buf, next, block);
      JoinBlocks(crc0, buf, next, block);
      TableShape(zeros, 8 * block);
      ShiftIsSteps(zeros, 8 * block, c0);
      c0 := Xor(Shift(zeros, c0), c1);
      ShiftIsSteps(zeros, 8 * block, c0);
      c0 := Xor(Shift(zeros, c0), c2);
      RegisterExtend(crc, buf, start, next, next + 3 * block);
      ThreeEights(address, next, block);
      crc0, next := c0, next + 3 * block;
    }
  }

  lemma ThreeEights(address: nat, at: nat, n: nat)
    requires OnEight(address, at) && n % 8 == 0
    ensures OnEight(address, at + 3 * n)
  {
    OnEightPlus(address, at, n);
    OnEightPlus(address, at + n, n);
    OnEightPlus(address, at + 2 * n, n);
  }

  lemma JoinBlocks(c: Word, buf: seq<bv8>, next: nat, n: nat)
    requires next + 3 * n <= |buf|
    ensures Xor(Steps(8 * n, Xor(Steps(8 * n, Register(c, buf[next..next + n])),
                                 Register(0, buf[next + n..next + 2 * n]))),
                Register(0, buf[next + 2 * n..next + 3 * n]))
         == Register(c, buf[next..next + 3 * n])
  {
    hide Xor, Steps, Register;
    var a, b, d := buf[next..next + n], buf[next + n..next + 2 * n], buf[next + 2 * n..next + 3 * n];
    JoinThree(c, a, b, d, n);
    assert a + b + d == buf[next..next + 3 * n];
  }

  lemma TableShape(zeros: array2<Word>, n: nat)
    requires IsZerosTable(zeros, n)
    ensures zeros.Length0 == 4 && zeros.Length1 == 256
  {}

  /** The tables for both block sizes; the source fills them once. */
  method InitHw() returns (long: array2<Word>, short: array2<Word>)
    ensures fresh(long) && fresh(short)
    ensures IsZerosTable(long, 8 * LONG) && IsZerosTable(short, 8 * SHORT)
  {
    hide IsZerosTable;
    long := Zeros(LONG);
    short := Zeros(SHORT);
    assert PowerFloor(LONG) == LONG && PowerFloor(SHORT) == SHORT;
  }

  /** crc32c_hw: the CRC-32C of `buf` stored at address `address`, continued
      from `crc`, for every alignment, length and start value. */
  method Crc32cHw(crc: Word, address: nat, buf: seq<bv8>) returns (result: Word)
    ensures result == Checksum(crc, buf)
    ensures result == Rfc3720Crc(crc, buf)
  {
    hide IsZerosTable, Register, Steps, Xor, Rfc3720Crc, Complement, Crc32b, OnEight;
    var long, short := InitHw();
    var start := Complement(crc);
    var crc0, next := start, 0;
    RegisterEmpty(start);
    assert buf[0..0] == [];
    while next < |buf| && !OnEight(address, next)
      invariant next <= |buf| && crc0 == Register(start, buf[..next])
      invariant IsZerosTable(long, 8 * LONG) && IsZerosTable(short, 8 * SHORT)
    {
      crc0 := OneByte(start, crc0, buf, next);
      next := next + 1;
    }
    ghost var n0 := next;
    crc0, next := ThreeWay(crc0, address, buf, next, LONG, long);
    RegisterExtend(start, buf, 0, n0, next);
    ghost var n1 := next;
    crc0, next := ThreeWay(crc0, address, buf, next, SHORT, short);
    RegisterExtend(start, buf, 0, n1, next);
    var end := next + (|buf| - next) / 8 * 8;
    while next < end
      invariant next <= end <= |buf| && (end - next) % 8 == 0 && (next == |buf| || OnEight(address, next))
      invariant crc0 == Register(start, buf[..next])
    {
      crc0 := Quad(crc0, address, buf, next);
      RegisterExtend(start, buf, 0, next, next + 8);
      OnEightPlus(address, next, 8);
      next := next + 8;
    }
    while next < |buf|
      invariant next <= |buf| && crc0 == Register(start, buf[..next])
    {
      crc0 := OneByte(start, crc0, buf, next);
      next := next + 1;
    }
    assert buf[..next] == buf;
    ChecksumIsRfc3720(crc, buf);
    result := Complement(crc0);
  }

  /** One crc32b. */
  method OneByte(ghost start: Word, c: Word, buf: seq<bv8>, at: nat) returns (r: Word)
    requires at < |buf| && c == Register(start, buf[..at])
    ensures r == Register(start, buf[..at + 1])
  {
    hide Steps, Xor, ByteWord, Crc32b;
    RegisterExtend(start, buf, 0, at, at + 1);
    ByteInstruction(c, buf[at]);
    assert buf[at..at + 1] == [buf[at]];
    assert [buf[at]][1..] == [];
    r := Crc32b(c, buf[at]);
  }
}

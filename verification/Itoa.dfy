/** itoa_ljust.c: decimal printing two digits at a time, by a switch that is
    entered at the number of digits still to print and falls through.

    `Decimal` is the canonical text of a number; the printers are proved to
    write exactly that text, a NUL after it, and nothing else.
 */
module Itoa {
  import opened Arithmetic
  import opened Sequences

  const TWO32: nat := 0x1_0000_0000
  const TWO64: nat := 0x1_0000_0000_0000_0000

  /** The size of the buffer that `incr` and `decr` print into. */
  const INCR_MAX_STORAGE_LEN: nat := 24

  function Digit(n: nat): char
    requires n < 10
  {
    '0' + n as char
  }

  // ---- Decimal text -------------------------------------------------------------

  /** The canonical decimal text of a natural number. */
  function Decimal(n: nat): (s: string)
    ensures |s| > 0
  {
    if n < 10 then [Digit(n)] else Decimal(n / 10) + [Digit(n % 10)]
  }

  function SignedDecimal(i: int): string {
    if i < 0 then "-" + Decimal(-i) else Decimal(i)
  }

  /** The last `k` decimal digits of `n`, with leading zeros. */
  function Pad(n: nat, k: nat): (s: string)
    ensures |s| == k
    decreases k
  {
    if k == 0 then [] else Pad(n / 10, k - 1) + [Digit(n % 10)]
  }

  function Pow10(k: nat): (p: nat)
    ensures p > 0
  {
    if k == 0 then 1 else 10 * Pow10(k - 1)
  }

  /** Reading decimal digits back. */
  function Parse(s: string): nat
    requires forall i | 0 <= i < |s| :: '0' <= s[i] <= '9'
  {
    if s == [] then 0 else 10 * Parse(s[..|s| - 1]) + (s[|s| - 1] - '0') as nat
  }

  /** Only digits, no leading zero, and parsing gives the number back. */
  lemma {:induction false} DecimalIsCanonical(n: nat)
    ensures forall i | 0 <= i < |Decimal(n)| :: '0' <= Decimal(n)[i] <= '9'
    ensures Decimal(n)[0] == '0' ==> n == 0 && |Decimal(n)| == 1
    ensures Parse(Decimal(n)) == n
  {
    if n >= 10 {
      DecimalIsCanonical(n / 10);
      var s := Decimal(n);
      assert s[..|s| - 1] == Decimal(n / 10);
    } else {
      assert Decimal(n)[..0] == [];
    }
  }

  /** The text has a sign exactly if the number is negative, and the rest of it gives the
      magnitude back. */
  lemma SignedIsCanonical(i: int)
    ensures var s := SignedDecimal(i);
      var digits := if i < 0 then s[1..] else s;
      && (s[0] == '-' <==> i < 0) && digits != []
      && (forall k | 0 <= k < |digits| :: '0' <= digits[k] <= '9')
      && (digits[0] == '0' ==> i == 0 && |digits| == 1)
      && Parse(digits) == if i < 0 then -i else i
  {
    hide Decimal, Parse;
    DecimalIsCanonical(if i < 0 then -i else i);
    if i < 0 { assert SignedDecimal(i)[1..] == Decimal(-i); }
  }

  lemma {:induction false} DecimalLength(n: nat, k: nat)
    requires k > 0 && n < Pow10(k)
    ensures |Decimal(n)| <= k
  {
    if n >= 10 { DecimalLength(n / 10, k - 1); }
  }

  /** An unsigned 64-bit number and its NUL fit the `incr` buffer. */
  lemma U64TextFits(n: nat)
    requires n < TWO64
    ensures |Decimal(n)| + 1 <= 21 <= INCR_MAX_STORAGE_LEN
  {
    assert Pow10(20) == 100000 * Pow10(15) == 100000 * 100000 * Pow10(10) by {
      assert Pow10(20) == 100000 * Pow10(15) && Pow10(15) == 100000 * Pow10(10);
    }
    assert Pow10(10) == 100000 * Pow10(5) && Pow10(5) == 100000;
    DecimalLength(n, 20);
  }

  /** A number of exactly `k` digits needs no leading zeros. */
  lemma {:induction false} DecimalIsPad(n: nat, k: nat)
    requires k > 0 && n < Pow10(k) && (k == 1 || Pow10(k - 1) <= n)
    ensures Decimal(n) == Pad(n, k)
  {
    if k == 1 {
      assert Pow10(1) == 10 * Pow10(0) && Pad(n / 10, 0) == [];
    } else {
      assert n >= 10 by { assert Pow10(k - 1) == 10 * Pow10(k - 2); }
      DecimalIsPad(n / 10, k - 1);
    }
  }

  /** The number above the last `k` digits of `n`. */
  function High(n: nat, k: nat): nat
    decreases k
  {
    if k == 0 then n else High(n / 10, k - 1)
  }

  /** The number made of the last `k` digits of `n`. */
  function Low(n: nat, k: nat): nat
    decreases k
  {
    if k == 0 then 0 else 10 * Low(n / 10, k - 1) + n % 10
  }

  lemma {:induction false} HighAndLow(n: nat, k: nat)
    ensures n == Pow10(k) * High(n, k) + Low(n, k) && Low(n, k) < Pow10(k)
    decreases k
  {
    if k > 0 {
      HighAndLow(n / 10, k - 1);
      ShiftedDigits(n, Pow10(k - 1), High(n, k), Low(n / 10, k - 1));
    }
  }

  /** One more digit on the right. */
  lemma ShiftedDigits(n: nat, p: nat, q: nat, low: nat)
    requires n / 10 == p * q + low && low < p
    ensures n == (10 * p) * q + (10 * low + n % 10) && 10 * low + n % 10 < 10 * p
  {
    TenTimes(p, q);
  }

  lemma TenTimes(p: nat, q: nat)
    ensures 10 * (p * q) == (10 * p) * q
  {}

  lemma DivideUnique(n: nat, m: nat, q: nat, r: nat)
    requires r < m && n == m * q + r
    ensures n / m == q && n % m == r
  {
    var x := q - n / m;
    assert m * x == m * q - m * (n / m);
    MultipleAwayFromZero(m, x);
  }

  /** Dividing by a power of ten leaves the high digits. */
  lemma DivideIsHigh(n: nat, k: nat)
    ensures n / Pow10(k) == High(n, k)
  {
    HighAndLow(n, k);
    DivideUnique(n, Pow10(k), High(n, k), Low(n, k));
  }

  /** High digits and low digits print side by side. */
  lemma {:induction false} PadSplit(n: nat, a: nat, b: nat)
    ensures Pad(n, a + b) == Pad(High(n, b), a) + Pad(Low(n, b), b)
    decreases b
  {
    if b > 0 {
      PadSplit(n / 10, a, b - 1);
      assert Pad(n, a + b) == Pad(n / 10, a + b - 1) + [Digit(n % 10)];
      LowDigits(n, b);
      Regroup(Pad(High(n, b), a), Pad(Low(n / 10, b - 1), b - 1), [Digit(n % 10)]);
    } else {
      assert Pad(n, a) + [] == Pad(n, a);
    }
  }

  /** The same for a number without leading zeros. */
  lemma {:induction false} DecimalSplit(n: nat, b: nat)
    requires n >= Pow10(b)
    ensures Decimal(n) == Decimal(High(n, b)) + Pad(Low(n, b), b)
    decreases b
  {
    if b > 0 {
      assert n >= 10 && n / 10 >= Pow10(b - 1);
      DecimalSplit(n / 10, b - 1);
      assert Decimal(n) == Decimal(n / 10) + [Digit(n % 10)];
      LowDigits(n, b);
      Regroup(Decimal(High(n, b)), Pad(Low(n / 10, b - 1), b - 1), [Digit(n % 10)]);
    } else {
      assert Decimal(n) + [] == Decimal(n);
    }
  }

  lemma LowDigits(n: nat, b: nat)
    requires b > 0
    ensures Pad(Low(n, b), b) == Pad(Low(n / 10, b - 1), b - 1) + [Digit(n % 10)]
  {
    assert Low(n, b) / 10 == Low(n / 10, b - 1) && Low(n, b) % 10 == n % 10;
  }

  // ---- The pair table --------------------------------------------------------------

  /** Ten rows of the two-digit lookup table. */
  function Row(t: nat): (row: string)
    requires t < 10
    ensures |row| == 20
  {
    match t
    case 0 => "00010203040506070809"
    case 1 => "10111213141516171819"
    case 2 => "20212223242526272829"
    case 3 => "30313233343536373839"
    case 4 => "40414243444546474849"
    case 5 => "50515253545556575859"
    case 6 => "60616263646566676869"
    case 7 => "70717273747576777879"
    case 8 => "80818283848586878889"
    case _ => "90919293949596979899"
  }

  /** The lookup table, read as the source reads it: one pair for each number below 100. */
  function Lut(d: nat): string
    requires d < 100
  {
    var row, i := Row(d / 10), 2 * (d % 10);
    [row[i], row[i + 1]]
  }

  predicate Pairs(row: string, t: char) {
    && |row| == 20
    && row[0] == row[2] == row[4] == row[6] == row[8] == t
    && row[10] == row[12] == row[14] == row[16] == row[18] == t
    && row[1] == '0' && row[3] == '1' && row[5] == '2' && row[7] == '3' && row[9] == '4'
    && row[11] == '5' && row[13] == '6' && row[15] == '7' && row[17] == '8' && row[19] == '9'
  }

  lemma LowRows(t: nat)
    requires t < 4
    ensures Pairs(Row(t), Digit(t))
  {}

  lemma MiddleRows(t: nat)
    requires 4 <= t < 7
    ensures Pairs(Row(t), Digit(t))
  {}

  lemma HighRows(t: nat)
    requires 7 <= t < 10
    ensures Pairs(Row(t), Digit(t))
  {}

  lemma PairAt(row: string, t: char, u: nat)
    requires u < 10 && Pairs(row, t)
    ensures row[2 * u] == t && row[2 * u + 1] == Digit(u)
  {}

  /** Every entry of the table is the two digits of its index. */
  lemma LutIsPad(d: nat)
    requires d < 100
    ensures Lut(d) == Pad(d, 2)
  {
    hide Row, Pairs, Pad, Digit;
    if d / 10 < 4 { LowRows(d / 10); } else if d / 10 < 7 { MiddleRows(d / 10); } else { HighRows(d / 10); }
    PairAt(Row(d / 10), Digit(d / 10), d % 10);
    PadOfTwo(d);
  }

  lemma PadOfTwo(d: nat)
    requires d < 100
    ensures Pad(d, 2) == [Digit(d / 10), Digit(d % 10)]
  {
    PadOfOne(d / 10);
    assert Pad(d, 2) == Pad(d / 10, 1) + [Digit(d % 10)];
  }

  lemma PadOfOne(d: nat)
    requires d < 10
    ensures Pad(d, 1) == [Digit(d)]
  {
    assert Pad(d / 10, 0) == [] && d % 10 == d;
  }

  // ---- Writing into a buffer ---------------------------------------------------------

  /** `after` is `before` with `text` written at `p`. */
  ghost predicate Wrote(before: seq<char>, after: seq<char>, p: nat, text: string) {
    p + |text| <= |before| && after == before[..p] + text + before[p + |text|..]
  }

  lemma WroteTwice(a: seq<char>, b: seq<char>, c: seq<char>, p: nat, s: string, t: string)
    requires Wrote(a, b, p, s) && Wrote(b, c, p + |s|, t) && |s| + |t| + p <= |a|
    ensures Wrote(a, c, p, s + t)
  {
    assert b[p + |s| + |t|..] == a[p + |s| + |t|..];
    assert b[..p + |s|] == a[..p] + s;
  }

  /** Text over a NUL that an earlier call left behind. */
  lemma WroteOver(a: seq<char>, b: seq<char>, c: seq<char>, p: nat, s: string, z: char, t: string)
    requires Wrote(a, b, p, s + [z]) && Wrote(b, c, p + |s|, t) && |t| > 0 && p + |s| + |t| <= |a|
    ensures Wrote(a, c, p, s + t)
  {
    assert b[..p + |s|] == a[..p] + s;
    assert b[p + |s| + |t|..] == a[p + |s| + |t|..];
  }

  method Out1(c: char, buf: array<char>, p: nat) returns (q: nat)
    requires p + 1 <= buf.Length
    modifies buf
    ensures q == p + 1 && Wrote(old(buf[..]), buf[..], p, [c])
  {
    buf[p] := c;
    q := p + 1;
  }

  method Out2(d: nat, buf: array<char>, p: nat) returns (q: nat)
    requires d < 100 && p + 2 <= buf.Length
    modifies buf
    ensures q == p + 2 && Wrote(old(buf[..]), buf[..], p, Pad(d, 2))
  {
    LutIsPad(d);
    var pair := Lut(d);
    buf[p], buf[p + 1] := pair[0], pair[1];
    q := p + 2;
    assert buf[..] == old(buf[..])[..p] + pair + old(buf[..])[p + 2..];
  }

  // ---- The printers --------------------------------------------------------------------

  /** What the switch entered at case `n` writes. */
  function Tail(u: nat, n: nat): string
    requires n > 0
  {
    if n % 2 == 0 then Pad(u, n) else Pad(Low(u, n - 1), n - 1)
  }

  /** What the switch expects when it is entered at case `n`: at an odd case the
      leading digit `d` has been printed but not yet subtracted. */
  predicate AtCase(u: nat, d: nat, n: nat)
    requires n > 0
  {
    if n % 2 == 0 then u < Pow10(n) else d == High(u, n - 1)
  }

  lemma {:induction false} HighBelow(n: nat, a: nat, b: nat)
    requires n < Pow10(a + b)
    ensures High(n, b) < Pow10(a)
    decreases b
  {
    if b > 0 { HighBelow(n / 10, a, b - 1); }
  }

  lemma PairPrinted(u: nat, k: nat)
    requires u < Pow10(k + 2)
    ensures High(u, k) < 100
    ensures Pad(u, k + 2) == Pad(High(u, k), 2) + Pad(Low(u, k), k)
  {
    PadSplit(u, 2, k);
    HighBelow(u, 2, k);
    assert Pow10(2) == 10 * Pow10(1) == 100;
  }

  /** `u -= d * scale` on 32-bit words, the product taken modulo 2^32. */
  function Subtract(u: nat, d: nat, scale: nat): nat {
    (u - d * scale % TWO32) % TWO32
  }

  lemma SubtractLeavesLow(u: nat, k: nat)
    requires u < TWO32
    ensures Subtract(u, High(u, k), Pow10(k)) == Low(u, k)
  {
    hide High, Low, Pow10;
    HighAndLow(u, k);
    NoWrap(u, High(u, k) * Pow10(k));
  }

  lemma NoWrap(u: nat, x: nat)
    requires x <= u < TWO32
    ensures (u - x % TWO32) % TWO32 == u - x
  {}

  /** The switch at case `m` with `w` written at `at` so far and `total` to be
      written in the end. */
  ghost predicate Midway(before: seq<char>, now: seq<char>, at: nat, w: string, total: string, u: nat, d: nat, m: nat) {
    && u < TWO32 && 0 < m && AtCase(u, d, m)
    && at + |total| <= |before| && w + Tail(u, m) == total
    && Wrote(before, now, at, w)
  }

  /** Case `k`: print a pair. */
  method PrintPair(u: nat, ghost d0: nat, ghost k: nat, scale: nat, buf: array<char>, p: nat,
                   ghost before: seq<char>, ghost at: nat, ghost w: string, ghost total: string)
                     returns (d: nat, q: nat)
    requires k % 2 == 0 && k >= 2 && scale == Pow10(k - 2) && Midway(before, buf[..], at, w, total, u, d0, k)
    requires p == at + |w|
    modifies buf
    ensures q == p + 2 && d == High(u, k - 2)
    ensures u < TWO32 && at + |total| <= |before|
    ensures var w' := w + Pad(d, 2);
            |w'| == |w| + 2 && Wrote(before, buf[..], at, w') && w' + Pad(Low(u, k - 2), k - 2) == total
  {
    PairPrinted(u, k - 2);
    hide High, Low, Pad;
    DivideIsHigh(u, k - 2);
    d := u / scale;
    ghost var b := buf[..];
    q := Out2(d, buf, p);
    WroteTwice(before, b, buf[..], at, w, Pad(d, 2));
    Regroup(w, Pad(d, 2), Pad(Low(u, k - 2), k - 2));
  }

  lemma OddCase(before: seq<char>, now: seq<char>, at: nat, w: string, total: string, u: nat, d: nat, m: nat)
    requires m % 2 == 1 && Midway(before, now, at, w, total, u, d, m)
    ensures d == High(u, m - 1) && Wrote(before, now, at, w) && w + Pad(Low(u, m - 1), m - 1) == total
    ensures u < TWO32 && at + |total| <= |before|
  {}

  /** Taking the printed digits off leaves the switch at the next even case. */
  lemma TakenOff(before: seq<char>, now: seq<char>, at: nat, w: string, total: string, u: nat, k: nat)
    requires k > 0 && k % 2 == 0 && u < TWO32 && at + |total| <= |before|
    requires Wrote(before, now, at, w) && w + Pad(Low(u, k), k) == total
    ensures Midway(before, now, at, w, total, Subtract(u, High(u, k), Pow10(k)), High(u, k), k)
  {
    HighAndLow(u, k);
    hide Subtract, Wrote, High;
    SubtractLeavesLow(u, k);
  }

  /** Cases `k` and `k - 1` of the switch, reached when `m` digits are left:
      print a pair, then take the last printed digits off. */
  method TwoCases(u: nat, d: nat, m: nat, k: nat, scale: nat, buf: array<char>, p: nat,
                  ghost before: seq<char>, ghost at: nat, ghost w: string, ghost total: string)
    returns (u': nat, d': nat, m': nat, q: nat, ghost w': string)
    requires m <= k && k % 2 == 0 && k > 2 && scale == Pow10(k - 2) && p == at + |w|
    requires Midway(before, buf[..], at, w, total, u, d, m)
    modifies buf
    ensures m' <= k - 2 && q == at + |w'|
    ensures Midway(before, buf[..], at, w', total, u', d', m')
  {
    hide Midway, High, Low, Subtract, Wrote, Pad, Pow10;
    u', d', m', q, w' := u, d, m, p, w;
    if m == k {
      d', q := PrintPair(u, d, k, scale, buf, p, before, at, w, total);
      w' := w + Pad(d', 2);
    }
    if m >= k - 1 {
      if m == k - 1 { OddCase(before, buf[..], at, w, total, u, d, m); }
      TakenOff(before, buf[..], at, w', total, u, k - 2);
      u' := Subtract(u', d', scale);
      m' := k - 2;
    }
  }

  /** The switch, entered at case `n` and falling through to the end. */
  method Itoa(u: nat, p: nat, d: nat, n: nat, buf: array<char>) returns (q: nat)
    requires u < TWO32 && 0 < n <= 10 && AtCase(u, d, n)
    requires p + |Tail(u, n)| < buf.Length
    modifies buf
    ensures q == p + |Tail(u, n)|
    ensures Wrote(old(buf[..]), buf[..], p, Tail(u, n) + ['\0'])
  {
    hide AtCase, High, Low, Pad, Tail;
    ghost var b, total := buf[..], Tail(u, n);
    assert Midway(b, buf[..], p, [], total, u, d, n);
    hide Wrote, Midway;
    q := Cases(u, d, n, buf, p, b, total);
    ghost var c := buf[..];
    var end := Out1('\0', buf, q);
    WroteTwice(b, c, buf[..], p, total, ['\0']);
  }

  /** The cases, down to the last pair. */
  method Cases(u: nat, d: nat, n: nat, buf: array<char>, p: nat, ghost before: seq<char>, ghost total: string)
    returns (q: nat)
    requires n <= 10 && Midway(before, buf[..], p, [], total, u, d, n)
    modifies buf
    ensures q == p + |total| && Wrote(before, buf[..], p, total)
  {
    hide AtCase, High, Low, Pad, Tail, Wrote, Midway;
    PowersOfTen();
    hide Pow10;
    var v, e, m;
    ghost var w;
    v, e, m, q, w := TwoCases(u, d, n, 10, 100000000, buf, p, before, p, [], total);
    v, e, m, q, w := TwoCases(v, e, m, 8, 1000000, buf, q, before, p, w, total);
    v, e, m, q, w := TwoCases(v, e, m, 6, 10000, buf, q, before, p, w, total);
    v, e, m, q, w := TwoCases(v, e, m, 4, 100, buf, q, before, p, w, total);
    q := LastPair(v, m, e, buf, q, before, p, w, total);
  }

  /** Cases 2 and 1. */
  method LastPair(u: nat, m: nat, d: nat, buf: array<char>, p: nat,
                  ghost before: seq<char>, ghost at: nat, ghost w: string, ghost total: string) returns (q: nat)
    requires m <= 2 && p == at + |w| && Midway(before, buf[..], at, w, total, u, d, m)
    modifies buf
    ensures q == at + |total| && Wrote(before, buf[..], at, total)
  {
    q := p;
    if m == 2 {
      var e;
      e, q := PrintPair(u, d, 2, 1, buf, p, before, at, w, total);
      assert w + Pad(e, 2) == total;
    } else {
      assert Tail(u, m) == [];
      assert w == total;
    }
  }

  lemma OddDigits(u: nat, n: nat)
    requires n % 2 == 1 && u < Pow10(n) && (n == 1 || Pow10(n - 1) <= u)
    ensures High(u, n - 1) < 10 && AtCase(u, High(u, n - 1), n)
    ensures Decimal(u) == [Digit(High(u, n - 1))] + Tail(u, n)
  {
    DecimalIsPad(u, n);
    FirstDigit(u, n);
  }

  lemma FirstDigit(u: nat, n: nat)
    requires n > 0 && u < Pow10(n)
    ensures High(u, n - 1) < 10
    ensures Pad(u, n) == [Digit(High(u, n - 1))] + Pad(Low(u, n - 1), n - 1)
  {
    PadSplit(u, 1, n - 1);
    var d := High(u, n - 1);
    HighBelow(u, 1, n - 1);
    assert Pow10(1) == 10;
    assert Pad(d, 1) == Pad(d / 10, 0) + [Digit(d % 10)] == [Digit(d)];
  }

  /** An odd number of digits: the first is printed on its own. */
  method Digits(u: nat, k: nat, n: nat, buf: array<char>, p: nat)
    returns (d: nat, m: nat, q: nat, ghost text: string)
    requires n > 1 && n % 2 == 0 && k == Pow10(n - 2) && (n == 2 || k <= u) && u < 100 * k && p < buf.Length
    modifies buf
    ensures 0 < m <= n && AtCase(u, d, m) && Decimal(u) == text + Tail(u, m)
    ensures q == p + |text| && Wrote(old(buf[..]), buf[..], p, text)
  {
    d, m, q, text := 0, n, p, [];
    assert Pow10(n - 1) == 10 * k && Pow10(n) == 100 * k;
    hide Pow10, High, Low, Pad, Tail, AtCase, Decimal;
    if u < k * 10 {
      OddDigits(u, n - 1);
      DivideIsHigh(u, n - 2);
      d := u / k;
      q := Out1(Digit(d), buf, q);
      m := n - 1;
      text := [Digit(d)];
    } else {
      EvenDigits(u, n);
    }
  }

  lemma EvenDigits(u: nat, n: nat)
    requires n > 1 && n % 2 == 0 && Pow10(n - 1) <= u < Pow10(n)
    ensures AtCase(u, 0, n) && Decimal(u) == [] + Tail(u, n)
  {
    hide Pow10, Pad, Decimal;
    DecimalIsPad(u, n);
  }

  /** Where the switch is entered, by the size of the number. */
  method Entry(u: nat, buf: array<char>, p: nat) returns (d: nat, n: nat, q: nat, ghost text: string)
    requires u < TWO32 && p < buf.Length
    modifies buf
    ensures 0 < n <= 10 && AtCase(u, d, n) && Decimal(u) == text + Tail(u, n)
    ensures q == p + |text| && Wrote(old(buf[..]), buf[..], p, text)
  {
    hide AtCase, Wrote, High, Low, Pad, Tail, Decimal;
    PowersOfTen();
    hide Pow10;
    if u >= 100000000 {
      d, n, q, text := Digits(u, 100000000, 10, buf, p);
    } else if u < 100 {
      d, n, q, text := Digits(u, 1, 2, buf, p);
    } else if u < 10000 {
      d, n, q, text := Digits(u, 100, 4, buf, p);
    } else if u < 1000000 {
      d, n, q, text := Digits(u, 10000, 6, buf, p);
    } else {
      d, n, q, text := Digits(u, 1000000, 8, buf, p);
    }
  }

  /** itoa_u32 */
  method ItoaU32(u: nat, buf: array<char>, p: nat) returns (q: nat)
    requires u < TWO32 && p + |Decimal(u)| < buf.Length
    modifies buf
    ensures q == p + |Decimal(u)|
    ensures Wrote(old(buf[..]), buf[..], p, Decimal(u) + ['\0'])
  {
    hide AtCase, Wrote, High, Low, Pad, Tail, Decimal, Pow10;
    ghost var b0 := buf[..];
    var d, n;
    ghost var t;
    d, n, q, t := Entry(u, buf, p);
    ghost var b1 := buf[..];
    q := Itoa(u, q, d, n, buf);
    WroteTwice(b0, b1, buf[..], p, t, Tail(u, n) + ['\0']);
    Regroup(t, Tail(u, n), ['\0']);
  }

  lemma PowersOfTen()
    ensures Pow10(0) == 1 && Pow10(2) == 100 && Pow10(4) == 10000 && Pow10(6) == 1000000
    ensures Pow10(8) == 100000000 && Pow10(9) == 1000000000
  {
    assert Pow10(2) == 10 * Pow10(1) && Pow10(1) == 10 * Pow10(0);
    assert Pow10(4) == 10 * Pow10(3) && Pow10(3) == 10 * Pow10(2);
    assert Pow10(6) == 10 * Pow10(5) && Pow10(5) == 10 * Pow10(4);
    assert Pow10(8) == 10 * Pow10(7) && Pow10(7) == 10 * Pow10(6);
  }

  /** itoa_u64: everything above the last nine digits first, then those nine. */
  method ItoaU64(u: nat, buf: array<char>, p: nat) returns (q: nat)
    requires u < TWO64 && p + |Decimal(u)| < buf.Length
    modifies buf
    ensures q == p + |Decimal(u)|
    ensures Wrote(old(buf[..]), buf[..], p, Decimal(u) + ['\0'])
    decreases u
  {
    hide AtCase, Wrote, Pad, Tail, Decimal;
    var lower := u % TWO32;
    if lower == u {
      q := ItoaU32(lower, buf, p);
      return;
    }
    PowersOfTen();
    hide Pow10;
    DecimalSplit(u, 9);
    ghost var b0 := buf[..];
    DivideIsHigh(u, 9);
    HighAndLow(u, 9);
    var upper := u / 1000000000;
    PadLength(Low(u, 9), 9);
    q := ItoaU64(upper, buf, p);
    ghost var b1 := buf[..];
    lower := (u - upper * 1000000000) % TWO32;
    RestOf(u, 1000000000, upper, Low(u, 9));
    q := LastNine(lower, buf, q);
    WroteOver(b0, b1, buf[..], p, Decimal(upper), '\0', Pad(lower, 9) + ['\0']);
    Regroup(Decimal(upper), Pad(lower, 9), ['\0']);
  }

  lemma RestOf(u: nat, m: nat, q: nat, r: nat)
    requires u == m * q + r && r < TWO32
    ensures (u - q * m) % TWO32 == r
  {}

  /** The last nine digits, with leading zeros. */
  method LastNine(u: nat, buf: array<char>, p: nat) returns (q: nat)
    requires u < 1000000000 && p + 9 < buf.Length
    modifies buf
    ensures q == p + 9 && Wrote(old(buf[..]), buf[..], p, Pad(u, 9) + ['\0'])
  {
    PowersOfTen();
    hide AtCase, Wrote, Pad, Tail, Pow10;
    NineDigits(u);
    DivideIsHigh(u, 8);
    PadLength(u, 9);
    ghost var b0 := buf[..];
    var d := u / 100000000;
    q := Out1(Digit(d), buf, p);
    ghost var b1 := buf[..];
    q := Itoa(u, q, d, 9, buf);
    WroteTwice(b0, b1, buf[..], p, [Digit(d)], Tail(u, 9) + ['\0']);
    Regroup([Digit(d)], Tail(u, 9), ['\0']);
  }

  lemma PadLength(n: nat, k: nat)
    ensures |Pad(n, k)| == k
  {}

  lemma NineDigits(u: nat)
    requires u < Pow10(9)
    ensures High(u, 8) < 10 && AtCase(u, High(u, 8), 9)
    ensures Pad(u, 9) == [Digit(High(u, 8))] + Tail(u, 9)
  {
    hide Pow10, High, Low, Pad;
    FirstDigit(u, 9);
  }

  /** itoa_32: the magnitude is taken on the unsigned word, so INT_MIN prints too. */
  method Itoa32(i: int, buf: array<char>, p: nat) returns (q: nat)
    requires -0x8000_0000 <= i < 0x8000_0000 && p + |SignedDecimal(i)| < buf.Length
    modifies buf
    ensures q == p + |SignedDecimal(i)|
    ensures Wrote(old(buf[..]), buf[..], p, SignedDecimal(i) + ['\0'])
  {
    hide Wrote, Decimal;
    var u := i % TWO32;
    q := p;
    ghost var b0 := buf[..];
    if i < 0 {
      q := Out1('-', buf, q);
      u := (-u) % TWO32;
      assert u == -i;
      ghost var b1 := buf[..];
      q := ItoaU32(u, buf, q);
      WroteTwice(b0, b1, buf[..], p, "-", Decimal(u) + ['\0']);
      assert "-" + (Decimal(u) + ['\0']) == SignedDecimal(i) + ['\0'];
    } else {
      q := ItoaU32(u, buf, q);
    }
  }

  /** itoa_64 */
  method Itoa64(i: int, buf: array<char>, p: nat) returns (q: nat)
    requires -0x8000_0000_0000_0000 <= i < 0x8000_0000_0000_0000 && p + |SignedDecimal(i)| < buf.Length
    modifies buf
    ensures q == p + |SignedDecimal(i)|
    ensures Wrote(old(buf[..]), buf[..], p, SignedDecimal(i) + ['\0'])
  {
    hide Wrote, Decimal;
    var u := i % TWO64;
    q := p;
    ghost var b0 := buf[..];
    if i < 0 {
      q := Out1('-', buf, q);
      u := (-u) % TWO64;
      assert u == -i;
      ghost var b1 := buf[..];
      q := ItoaU64(u, buf, q);
      WroteTwice(b0, b1, buf[..], p, "-", Decimal(u) + ['\0']);
      assert "-" + (Decimal(u) + ['\0']) == SignedDecimal(i) + ['\0'];
    } else {
      q := ItoaU64(u, buf, q);
    }
  }
}

/** safe_strtoull of util.c and the arithmetic of incr and decr: the number in a value,
    and the text of the number that takes its place.

    The memory that is read starts at the value and goes on to the first NUL, which can
    lie behind the value; the end of a sequence stands for that NUL.
 */
module Numbers {
  import opened ByteStrings
  import opened Itoa
  import opened Options

  type U64 = x: int | 0 <= x < 0x1_0000_0000_0000_0000

  const TWO63: nat := 0x8000_0000_0000_0000

  const SPACE: Byte := 32
  const PLUS: Byte := 43
  const DASH: Byte := 45

  predicate IsSpace(b: Byte) { b == SPACE || 9 <= b <= 13 }

  predicate IsDigit(b: Byte) { 48 <= b <= 57 }

  /** The first place at or after `i` that is no space. */
  function SpacesEnd(m: seq<Byte>, i: nat): (k: nat)
    requires i <= |m|
    ensures i <= k <= |m| && (forall j | i <= j < k :: IsSpace(m[j])) && (k < |m| ==> !IsSpace(m[k]))
    decreases |m| - i
  {
    if i < |m| && IsSpace(m[i]) then SpacesEnd(m, i + 1) else i
  }

  /** The first place at or after `i` that is no digit. */
  function DigitsEnd(m: seq<Byte>, i: nat): (k: nat)
    requires i <= |m|
    ensures i <= k <= |m| && (forall j | i <= j < k :: IsDigit(m[j])) && (k < |m| ==> !IsDigit(m[k]))
    decreases |m| - i
  {
    if i < |m| && IsDigit(m[i]) then DigitsEnd(m, i + 1) else i
  }

  /** Bytes as characters and back. */
  function Chars(m: seq<Byte>): string { seq(|m|, i requires 0 <= i < |m| => m[i] as char) }

  function Bytes(s: string): seq<Byte>
    requires forall i | 0 <= i < |s| :: s[i] < 128 as char
  {
    seq(|s|, i requires 0 <= i < |s| => s[i] as int)
  }

  /** strtoull in base 10: the number and where it ends, unless there is no number or it
      is too large. A sign is applied to the 64-bit result. */
  function Strtoull(m: seq<Byte>): (r: Option<(U64, nat)>)
    ensures r.Some? ==> r.value.1 <= |m|
  {
    var i := SpacesEnd(m, 0);
    var from := if i < |m| && (m[i] == DASH || m[i] == PLUS) then i + 1 else i;
    var to := DigitsEnd(m, from);
    var n := Parse(Chars(m[from..to]));
    if from == to || n >= TWO64 then None
    else Some((if i < |m| && m[i] == DASH && n > 0 then TWO64 - n else n, to))
  }

  /** strchr(str, '-') */
  predicate HasDash(m: seq<Byte>) {
    m != [] && m[0] != 0 && (m[0] == DASH || HasDash(m[1..]))
  }

  function SafeStrtoull(m: seq<Byte>): Option<U64> {
    match Strtoull(m)
    case None => None
    case Some((n, end)) =>
      if end < |m| && !IsSpace(m[end]) && m[end] != 0 then None
      else if n >= TWO63 && HasDash(m) then None
      else Some(n)
  }

  /** An increment wraps around at 64 bits, a decrement stops at zero. */
  function NewNumber(incr: bool, delta: U64, n: U64): U64 {
    if incr then (n + delta) % TWO64 else if delta > n then 0 else n - delta
  }

  /** itoa_u64 */
  function Text(n: nat): (t: seq<Byte>)
    ensures t != [] && forall i | 0 <= i < |t| :: IsDigit(t[i])
  {
    DecimalIsCanonical(n);
    Bytes(Decimal(n))
  }

  // ----- what is read as a number -----

  /** Memory that starts with spaces, a sign and digits, each of them possibly missing. */
  ghost predicate Splits(m: seq<Byte>, spaces: seq<Byte>, sign: seq<Byte>, digits: seq<Byte>, rest: seq<Byte>) {
    && m == spaces + sign + digits + rest
    && (forall i | 0 <= i < |spaces| :: IsSpace(spaces[i]))
    && (sign == [] || sign == [PLUS] || sign == [DASH])
    && (forall i | 0 <= i < |digits| :: IsDigit(digits[i]))
    && (rest != [] ==> !IsDigit(rest[0]))
    && (rest != [] && sign == [] && digits == [] ==> !IsSpace(rest[0]) && rest[0] != PLUS && rest[0] != DASH)
  }

  /** All memory is of this form. */
  lemma EverySplits(m: seq<Byte>) returns (spaces: seq<Byte>, sign: seq<Byte>, digits: seq<Byte>, rest: seq<Byte>)
    ensures Splits(m, spaces, sign, digits, rest)
  {
    hide SpacesEnd, DigitsEnd, IsSpace, IsDigit;
    var i := SpacesEnd(m, 0);
    var from := if i < |m| && (m[i] == DASH || m[i] == PLUS) then i + 1 else i;
    var to := DigitsEnd(m, from);
    spaces, sign, digits, rest := m[..i], m[i..from], m[from..to], m[to..];
    FourParts(m, i, from, to);
    assert forall k | 0 <= k < |spaces| :: spaces[k] == m[k];
    assert forall k | 0 <= k < |digits| :: digits[k] == m[from + k];
    assert rest != [] ==> rest[0] == m[to];
    if from > i { assert sign == [m[i]]; }
    if sign == [] && digits == [] { assert from == i && to == i; }
  }

  lemma FourParts(m: seq<Byte>, i: nat, j: nat, k: nat)
    requires i <= j <= k <= |m|
    ensures m == m[..i] + m[i..j] + m[j..k] + m[k..]
  {
    assert m[..i] + m[i..j] == m[..j] && m[..j] + m[j..k] == m[..k];
  }

  /** What comes behind the spaces. */
  lemma BehindSpaces(m: seq<Byte>, spaces: seq<Byte>, sign: seq<Byte>, digits: seq<Byte>, rest: seq<Byte>)
    requires Splits(m, spaces, sign, digits, rest)
    ensures var b := sign + digits + rest;
      && (b != [] ==> !IsSpace(b[0]))
      && (b != [] && b[0] == DASH <==> sign == [DASH])
      && (b != [] && b[0] == PLUS <==> sign == [PLUS])
  {
    var b := sign + digits + rest;
    if sign != [] {
      assert b[0] == sign[0];
    } else if digits != [] {
      assert b[0] == digits[0];
    } else if rest != [] {
      assert b[0] == rest[0];
    }
  }

  lemma SpacesEndIs(m: seq<Byte>, k: nat)
    requires k <= |m| && (forall j | 0 <= j < k :: IsSpace(m[j])) && (k < |m| ==> !IsSpace(m[k]))
    ensures SpacesEnd(m, 0) == k
  {
    hide SpacesEnd;
  }

  lemma SpacesRun(m: seq<Byte>, spaces: seq<Byte>, sign: seq<Byte>, digits: seq<Byte>, rest: seq<Byte>)
    requires Splits(m, spaces, sign, digits, rest)
    ensures SpacesEnd(m, 0) == |spaces|
    ensures |spaces| < |m| && m[|spaces|] == DASH <==> sign == [DASH]
    ensures |spaces| < |m| && m[|spaces|] == PLUS <==> sign == [PLUS]
  {
    hide SpacesEnd, IsSpace, IsDigit;
    var b := sign + digits + rest;
    BehindSpaces(m, spaces, sign, digits, rest);
    assert m == spaces + b;
    hide Splits;
    assert forall j | 0 <= j < |spaces| :: m[j] == spaces[j];
    if b != [] { assert m[|spaces|] == b[0]; }
    SpacesEndIs(m, |spaces|);
  }

  /** The digits are read, the sign is applied to what they say, and all that follows them
      is a space, a NUL or the end; nothing else is a number. */
  lemma ReadsExactly(m: seq<Byte>, spaces: seq<Byte>, sign: seq<Byte>, digits: seq<Byte>, rest: seq<Byte>)
    requires Splits(m, spaces, sign, digits, rest)
    ensures SafeStrtoull(m) ==
      if digits == [] || Parse(Chars(digits)) >= TWO64 then None
      else if rest != [] && !IsSpace(rest[0]) && rest[0] != 0 then None
      else
        var n := Parse(Chars(digits));
        var v := if sign == [DASH] && n > 0 then TWO64 - n else n;
        if v >= TWO63 && DASH in BeforeNul(m) then None else Some(v)
  {
    hide Parse, Chars, SpacesEnd, DigitsEnd, HasDash, IsSpace, IsDigit, BeforeNul;
    SpacesRun(m, spaces, sign, digits, rest);
    var lead := spaces + sign;
    assert m == lead + digits + rest;
    DigitsRun(lead, digits, rest);
    assert m[|lead|..|lead| + |digits|] == digits;
    assert rest != [] ==> m[|lead| + |digits|] == rest[0];
    DashBeforeNul(m);
  }

  /** The string that starts here. */
  function BeforeNul(m: seq<Byte>): (s: seq<Byte>)
    ensures s <= m && 0 !in s && (|s| < |m| ==> m[|s|] == 0)
  {
    if m == [] || m[0] == 0 then [] else [m[0]] + BeforeNul(m[1..])
  }

  lemma {:induction false} DashBeforeNul(m: seq<Byte>)
    ensures HasDash(m) <==> DASH in BeforeNul(m)
  {
    if m != [] { DashBeforeNul(m[1..]); }
  }

  // ----- reading a printed number -----

  lemma CharsOfText(n: nat)
    ensures Chars(Text(n)) == Decimal(n) && Parse(Chars(Text(n))) == n
  {
    DecimalIsCanonical(n);
    assert Chars(Text(n)) == Decimal(n);
  }

  /** A number behind spaces and possibly a sign, and in front of no digit. */
  lemma ReadsText(sign: seq<Byte>, n: nat, rest: seq<Byte>)
    requires sign == [] || sign == [DASH]
    requires rest == [] || !IsDigit(rest[0])
    ensures Strtoull(sign + Text(n) + rest) ==
      if n >= TWO64 then None
      else Some((if sign == [DASH] && n > 0 then TWO64 - n else n, |sign| + |Text(n)|))
  {
    hide Text, Parse, Chars, SpacesEnd, DigitsEnd;
    var t, m := Text(n), sign + Text(n) + rest;
    CharsOfText(n);
    NoSpaces(sign, t, rest);
    DigitsRun(sign, t, rest);
    assert m[|sign|..|sign| + |t|] == t;
  }

  lemma NoSpaces(sign: seq<Byte>, t: seq<Byte>, rest: seq<Byte>)
    requires (sign == [] || sign == [DASH]) && t != [] && IsDigit(t[0])
    ensures SpacesEnd(sign + t + rest, 0) == 0
    ensures (sign + t + rest)[0] == if sign == [] then t[0] else DASH
  {}

  lemma DigitsRun(sign: seq<Byte>, t: seq<Byte>, rest: seq<Byte>)
    requires forall i | 0 <= i < |t| :: IsDigit(t[i])
    requires rest == [] || !IsDigit(rest[0])
    ensures DigitsEnd(sign + t + rest, |sign|) == |sign| + |t|
  {
    hide DigitsEnd;
    var m := sign + t + rest;
    assert forall j | |sign| <= j < |sign| + |t| :: m[j] == t[j - |sign|];
    assert m[|sign| + |t|..] == rest;
  }

  lemma {:induction false} DashBehind(a: seq<Byte>, b: seq<Byte>)
    requires forall i | 0 <= i < |a| :: a[i] != DASH && a[i] != 0
    ensures HasDash(a + b) == HasDash(b)
  {
    if a == [] {
      assert a + b == b;
    } else {
      DashBehind(a[1..], b);
      assert (a + b)[1..] == a[1..] + b;
    }
  }

  /** What was printed is read back, whatever blanks pad it and whatever lies behind the
      line end, unless the number is 2^63 or more and a dash follows before the next NUL. */
  lemma ReadsBack(n: U64, pad: nat, beyond: seq<Byte>)
    ensures SafeStrtoull(Text(n) + Blanks(pad) + CRLF + beyond) ==
      if n >= TWO63 && HasDash(beyond) then None else Some(n)
  {
    hide Text, Strtoull, HasDash, IsSpace, Blanks;
    var t, line := Text(n), Blanks(pad) + CRLF;
    var m := t + Blanks(pad) + CRLF + beyond;
    LineStart(pad, beyond);
    assert m == [] + t + (line + beyond) && m == (t + line) + beyond;
    ReadsText([], n, line + beyond);
    assert m[|t|] == (line + beyond)[0];
    DashBehind(t + line, beyond);
  }

  /** Behind a number comes a blank or the line end. */
  lemma LineStart(pad: nat, beyond: seq<Byte>)
    ensures var line := Blanks(pad) + CRLF;
      && IsSpace((line + beyond)[0]) && !IsDigit((line + beyond)[0])
      && forall i | 0 <= i < |line| :: line[i] != DASH && line[i] != 0
  {}

  function Blanks(n: nat): seq<Byte> { seq(n, _ => SPACE) }

  /** A negative number is refused only down to -2^63: further down it is taken for the
      positive number it wraps around to. */
  lemma NegativeNumbers(n: nat)
    ensures SafeStrtoull([DASH] + Text(n) + CRLF) ==
      if n == 0 then Some(0) else if n <= TWO63 || n >= TWO64 then None else Some(TWO64 - n)
  {
    hide Text, Strtoull;
    ReadsText([DASH], n, CRLF);
    assert ([DASH] + Text(n) + CRLF)[1 + |Text(n)|] == CRLF[0];
  }
}

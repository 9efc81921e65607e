/** Decimal text: what `snprintf` writes and what `atoi` and `strtoul` read back on a 32-bit target. */
module Decimal {
  import opened CTypes

  const MINUS: Byte := 0x2D
  const PLUS: Byte := 0x2B
  const ZERO: Byte := 0x30

  predicate IsDigit(b: Byte) { ZERO <= b < ZERO + 10 }

  predicate IsSpace(b: Byte) { b == 0x20 || 0x09 <= b <= 0x0D }

  predicate AllDigits(s: seq<Byte>) { forall i :: 0 <= i < |s| ==> IsDigit(s[i]) }

  /** `%u` and `%llu`. */
  function PrintNat(n: nat): (s: seq<Byte>)
    ensures |s| > 0 && AllDigits(s)
  {
    if n < 10 then [ZERO + n] else PrintNat(n / 10) + [ZERO + n % 10]
  }

  /** `%d`. */
  function PrintInt(i: int): (s: seq<Byte>)
    ensures forall b :: b in s ==> b == MINUS || IsDigit(b)
  {
    if i < 0 then [MINUS] + PrintNat(-i) else PrintNat(i)
  }

  /** The value of the digits at the start of `s`, read after `acc`. */
  function ReadDigits(acc: nat, s: seq<Byte>): nat
    decreases |s|
  {
    if s == [] || !IsDigit(s[0]) then acc else ReadDigits(10 * acc + (s[0] - ZERO), s[1..])
  }

  function SkipSpace(s: seq<Byte>): seq<Byte>
    decreases |s|
  {
    if s != [] && IsSpace(s[0]) then SkipSpace(s[1..]) else s
  }

  /** Sign and magnitude of the number at the start of `s`, before any saturation. */
  function ReadNumber(s: seq<Byte>): (bool, nat) {
    var t := SkipSpace(s);
    if t != [] && t[0] == MINUS then (true, ReadDigits(0, t[1..]))
    else if t != [] && t[0] == PLUS then (false, ReadDigits(0, t[1..]))
    else (false, ReadDigits(0, t))
  }

  /** `atoi`, which saturates like `strtol`. */
  function Atoi(s: seq<Byte>): Int32 {
    var (neg, magnitude) := ReadNumber(s);
    var v: int := magnitude;
    if neg then (if v > 0x8000_0000 then -0x8000_0000 else -v)
    else if v >= 0x8000_0000 then 0x7FFF_FFFF else v
  }

  /** `strtoul` to a 32-bit result: saturates, and negates modulo 2^32 after a minus sign. */
  function Strtoul(s: seq<Byte>): UInt32 {
    var (neg, v) := ReadNumber(s);
    if v >= 0x1_0000_0000 then 0xFFFF_FFFF
    else if neg && v > 0 then 0x1_0000_0000 - v else v
  }

  /** `strtoull`, the same to 64 bits. */
  function Strtoull(s: seq<Byte>): UInt64 {
    var (neg, v) := ReadNumber(s);
    if v >= 0x1_0000_0000_0000_0000 then 0xFFFF_FFFF_FFFF_FFFF
    else if neg && v > 0 then 0x1_0000_0000_0000_0000 - v else v
  }

  lemma {:induction false} ReadDigitsSnoc(acc: nat, s: seq<Byte>, d: Byte)
    requires AllDigits(s) && IsDigit(d)
    ensures ReadDigits(acc, s + [d]) == 10 * ReadDigits(acc, s) + (d - ZERO)
    decreases |s|
  {
    if s == [] {
      assert (s + [d])[1..] == [];
    } else {
      assert (s + [d])[1..] == s[1..] + [d];
      ReadDigitsSnoc(10 * acc + (s[0] - ZERO), s[1..], d);
    }
  }

  lemma {:induction false} ReadPrintNat(n: nat)
    ensures ReadDigits(0, PrintNat(n)) == n
  {
    if n >= 10 {
      ReadPrintNat(n / 10);
      ReadDigitsSnoc(0, PrintNat(n / 10), ZERO + n % 10);
    }
  }

  /** Reading back a printed number gives that number. */
  lemma ReadPrintInt(i: int)
    ensures ReadNumber(PrintInt(i)) == (i < 0, if i < 0 then -i else i)
  {
    ReadPrintNat(if i < 0 then -i else i);
    if i < 0 {
      assert PrintInt(i)[1..] == PrintNat(-i);
    } else {
      assert IsDigit(PrintNat(i)[0]);
    }
  }

  // ---------------------------------------------------------------- the one way to print a number

  lemma {:induction false} ReadDigitsAtLeast(acc: nat, s: seq<Byte>)
    requires AllDigits(s)
    ensures ReadDigits(acc, s) >= acc
    decreases |s|
  {
    if s != [] { ReadDigitsAtLeast(10 * acc + (s[0] - ZERO), s[1..]); }
  }

  /**
   * The printed number is the shortest digit string that reads back as the number, and the only one of its length: it
   * has no leading zero.
   */
  lemma {:induction false} PrintShortest(n: nat, s: seq<Byte>)
    requires s != [] && AllDigits(s) && ReadDigits(0, s) == n
    ensures |PrintNat(n)| <= |s|
    ensures |PrintNat(n)| == |s| ==> s == PrintNat(n)
    decreases |s|
  {
    var front, d := s[..|s| - 1], s[|s| - 1];
    assert s == front + [d];
    ReadDigitsSnoc(0, front, d);
    var value := ReadDigits(0, front);
    if front == [] {
      assert n == d - ZERO;
    } else {
      PrintShortest(value, front);
      assert n / 10 == value && n % 10 == d - ZERO;
    }
  }

  /** No leading zero, unless the number is zero, which is a single one. */
  lemma {:induction false} PrintCanonical(n: nat)
    ensures PrintNat(n)[0] == 0x30 <==> n == 0
    ensures n == 0 ==> PrintNat(n) == [0x30]
  {
    if n >= 10 { PrintCanonical(n / 10); }
  }

  /** With its sign: nothing that reads as the number is shorter, and nothing else as short, than what is printed. */
  lemma PrintIntShortest(i: int, s: seq<Byte>)
    requires s != [] && AllDigits(s) && ReadDigits(0, s) == if i < 0 then -i else i
    ensures i < 0 ==> PrintInt(i)[0] == 0x2D && |PrintInt(i)| <= 1 + |s|
    ensures i < 0 && |PrintInt(i)| == 1 + |s| ==> PrintInt(i) == [0x2D] + s
    ensures i >= 0 ==> |PrintInt(i)| <= |s| && (|PrintInt(i)| == |s| ==> PrintInt(i) == s)
  {
    PrintShortest(if i < 0 then -i else i, s);
  }

  // ---------------------------------------------------------------- what is read from any text

  lemma {:induction false} SkipsSpaces(spaces: seq<Byte>, s: seq<Byte>)
    requires (forall i :: 0 <= i < |spaces| ==> spaces[i] == 0x20 || 0x09 <= spaces[i] <= 0x0D)
    requires s == [] || !IsSpace(s[0])
    ensures SkipSpace(spaces + s) == s
    decreases |spaces|
  {
    if spaces == [] {
      assert spaces + s == s;
    } else {
      assert (spaces + s)[1..] == spaces[1..] + s;
      SkipsSpaces(spaces[1..], s);
    }
  }

  lemma {:induction false} ReadsDigits(acc: nat, digits: seq<Byte>, rest: seq<Byte>)
    requires AllDigits(digits) && (rest == [] || !IsDigit(rest[0]))
    ensures ReadDigits(acc, digits + rest) == ReadDigits(acc, digits)
    decreases |digits|
  {
    if digits == [] {
      assert digits + rest == rest;
    } else {
      assert (digits + rest)[1..] == digits[1..] + rest;
      ReadsDigits(10 * acc + (digits[0] - ZERO), digits[1..], rest);
    }
  }

  function Clamp(x: int, lo: int, hi: int): int {
    if x < lo then lo else if x > hi then hi else x
  }

  /**
   * Spaces, an optional sign, and a printed number, whatever follows: `atoi` gives the number, held within 32 bits, and
   * `strtoul` and `strtoull` give it modulo their width, or all ones when it does not fit.
   */
  lemma NumberText(spaces: seq<Byte>, sign: seq<Byte>, n: nat, rest: seq<Byte>)
    requires forall i :: 0 <= i < |spaces| ==> spaces[i] == 0x20 || 0x09 <= spaces[i] <= 0x0D
    requires sign == [] || sign == [0x2B] || sign == [0x2D]
    requires rest == [] || !(0x30 <= rest[0] <= 0x39)
    ensures
      var text := spaces + (sign + (PrintNat(n) + rest));
      var magnitude: int := n;
      var x := if sign == [0x2D] then -magnitude else magnitude;
      && Atoi(text) == Clamp(x, -0x8000_0000, 0x7FFF_FFFF)
      && Strtoul(text) == (if n < 0x1_0000_0000 then x % 0x1_0000_0000 else 0xFFFF_FFFF)
      && Strtoull(text) == (if n < 0x1_0000_0000_0000_0000 then x % 0x1_0000_0000_0000_0000 else 0xFFFF_FFFF_FFFF_FFFF)
  {
    TextReads(spaces, sign, n, rest);
    var text := spaces + (sign + (PrintNat(n) + rest));
    hide ReadNumber;
    ReadsSigned(text, sign == [0x2D], n);
    ReadsUnsigned(text, sign == [0x2D], n);
    ReadsLong(text, sign == [0x2D], n);
  }

  lemma TextReads(spaces: seq<Byte>, sign: seq<Byte>, n: nat, rest: seq<Byte>)
    requires forall i :: 0 <= i < |spaces| ==> spaces[i] == 0x20 || 0x09 <= spaces[i] <= 0x0D
    requires sign == [] || sign == [0x2B] || sign == [0x2D]
    requires rest == [] || !(0x30 <= rest[0] <= 0x39)
    ensures ReadNumber(spaces + (sign + (PrintNat(n) + rest))) == (sign == [0x2D], n)
  {
    var body := PrintNat(n) + rest;
    var t := sign + body;
    assert body[0] == PrintNat(n)[0] && IsDigit(body[0]);
    assert sign == [] ==> t == body;
    assert sign != [] ==> t[0] == sign[0] && t[1..] == body;
    SkipsSpaces(spaces, t);
    ReadsDigits(0, PrintNat(n), rest);
    ReadPrintNat(n);
    hide PrintNat, ReadDigits, SkipSpace;
  }

  lemma ReadsSigned(text: seq<Byte>, neg: bool, n: int)
    requires n >= 0 && ReadNumber(text) == (neg, n)
    ensures Atoi(text) == Clamp(if neg then -n else n, -0x8000_0000, 0x7FFF_FFFF)
  {
    hide ReadNumber;
  }

  lemma ReadsUnsigned(text: seq<Byte>, neg: bool, n: int)
    requires n >= 0 && ReadNumber(text) == (neg, n)
    ensures Strtoul(text) == if n < 0x1_0000_0000 then (if neg then -n else n) % 0x1_0000_0000 else 0xFFFF_FFFF
  {
    hide ReadNumber;
  }

  lemma ReadsLong(text: seq<Byte>, neg: bool, n: int)
    requires n >= 0 && ReadNumber(text) == (neg, n)
    ensures Strtoull(text) ==
            if n < 0x1_0000_0000_0000_0000 then (if neg then -n else n) % 0x1_0000_0000_0000_0000
            else 0xFFFF_FFFF_FFFF_FFFF
  {
    hide ReadNumber;
  }
}

/** The Dallas/Maxim CRC-8 of `owb/onewire_crc.c`, in its table form and its bit-by-bit form. */
module OneWireCrc {
  import opened ByteBits

  /** Entry `l` of a table row of sixteen. */
  function Cell(l: bv8, e0: bv8, e1: bv8, e2: bv8, e3: bv8, e4: bv8, e5: bv8, e6: bv8, e7: bv8,
                e8: bv8, e9: bv8, e10: bv8, e11: bv8, e12: bv8, e13: bv8, e14: bv8, e15: bv8): bv8 {
    if l < 4 then (if l == 0 then e0 else if l == 1 then e1 else if l == 2 then e2 else e3)
    else if l < 8 then (if l == 4 then e4 else if l == 5 then e5 else if l == 6 then e6 else e7)
    else if l < 12 then (if l == 8 then e8 else if l == 9 then e9 else if l == 10 then e10 else e11)
    else (if l == 12 then e12 else if l == 13 then e13 else if l == 14 then e14 else e15)
  }

  /** The 256-entry lookup table, sixteen entries to a row as the source lists them. */
  function Table(x: bv8): bv8 {
    var l := x & 0x0F;
    if x < 16 then Cell(l, 0, 94, 188, 226, 97, 63, 221, 131, 194, 156, 126, 32, 163, 253, 31, 65)
    else if x < 32 then Cell(l, 157, 195, 33, 127, 252, 162, 64, 30, 95, 1, 227, 189, 62, 96, 130, 220)
    else if x < 48 then Cell(l, 35, 125, 159, 193, 66, 28, 254, 160, 225, 191, 93, 3, 128, 222, 60, 98)
    else if x < 64 then Cell(l, 190, 224, 2, 92, 223, 129, 99, 61, 124, 34, 192, 158, 29, 67, 161, 255)
    else if x < 80 then Cell(l, 70, 24, 250, 164, 39, 121, 155, 197, 132, 218, 56, 102, 229, 187, 89, 7)
    else if x < 96 then Cell(l, 219, 133, 103, 57, 186, 228, 6, 88, 25, 71, 165, 251, 120, 38, 196, 154)
    else if x < 112 then Cell(l, 101, 59, 217, 135, 4, 90, 184, 230, 167, 249, 27, 69, 198, 152, 122, 36)
    else if x < 128 then Cell(l, 248, 166, 68, 26, 153, 199, 37, 123, 58, 100, 134, 216, 91, 5, 231, 185)
    else if x < 144 then Cell(l, 140, 210, 48, 110, 237, 179, 81, 15, 78, 16, 242, 172, 47, 113, 147, 205)
    else if x < 160 then Cell(l, 17, 79, 173, 243, 112, 46, 204, 146, 211, 141, 111, 49, 178, 236, 14, 80)
    else if x < 176 then Cell(l, 175, 241, 19, 77, 206, 144, 114, 44, 109, 51, 209, 143, 12, 82, 176, 238)
    else if x < 192 then Cell(l, 50, 108, 142, 208, 83, 13, 239, 177, 240, 174, 76, 18, 145, 207, 45, 115)
    else if x < 208 then Cell(l, 202, 148, 118, 40, 171, 245, 23, 73, 8, 86, 180, 234, 105, 55, 213, 139)
    else if x < 224 then Cell(l, 87, 9, 235, 181, 54, 104, 138, 212, 149, 203, 41, 119, 244, 170, 72, 22)
    else if x < 240 then Cell(l, 233, 183, 85, 11, 136, 214, 52, 106, 43, 117, 151, 201, 74, 20, 246, 168)
    else Cell(l, 116, 42, 200, 150, 21, 75, 169, 247, 182, 232, 10, 84, 215, 137, 107, 53)
  }

  /** One shift of the CRC register, fed with one message bit. */
  function ShiftIn(crc: bv8, bit: bool): bv8 {
    var x := ((crc & 1) != 0) != bit;
    if x then (crc >> 1) ^ 0x8C else crc >> 1
  }

  /** Eight shifts fed with zero bits. */
  function Shift8(c: bv8): bv8 {
    ShiftIn(ShiftIn(ShiftIn(ShiftIn(ShiftIn(ShiftIn(ShiftIn(ShiftIn(c,
      false), false), false), false), false), false), false), false)
  }

  /** The table-driven CRC of a byte string: the loop of the shipped (fast) build. */
  function CrcBytes(crc: bv8, s: Bytes): bv8
    decreases |s|
  {
    if s == [] then crc else CrcBytes(Table(crc ^ s[0]), s[1..])
  }

  /** The CRC of a bit string, one shift for each bit: the reference definition. */
  function CrcBits(crc: bv8, bits: seq<bool>): bv8
    decreases |bits|
  {
    if bits == [] then crc else CrcBits(ShiftIn(crc, bits[0]), bits[1..])
  }

  function BitsOf(s: Bytes): (bits: seq<bool>)
    ensures |bits| == 8 * |s|
  {
    seq(8 * |s|, i requires 0 <= i < 8 * |s| => Bit(s, i))
  }

  /** A frame is good when its last byte is the CRC of the bytes before it. */
  predicate FrameOk(s: Bytes)
    requires |s| > 0
  {
    CrcBytes(0, s[..|s| - 1]) == s[|s| - 1]
  }

  /** `a` and `b` differ, and only inside the eight bits from bit `w` on. */
  ghost predicate DifferInBurst(a: Bytes, b: Bytes, w: nat)
    requires |a| == |b|
  {
    && a != b
    && forall i: nat :: i < 8 * |a| && !(w <= i < w + 8) ==> Bit(a, i) == Bit(b, i)
  }

  // ---------------------------------------------------------------- the two loops

  method Crc8Fast(initCrc: bv8, input: array<bv8>, inputSize: nat) returns (crc: bv8)
    requires inputSize <= input.Length
    ensures crc == CrcBytes(initCrc, input[..inputSize])
  {
    hide Table;
    crc := initCrc;
    var i := 0;
    while i < inputSize
      invariant i <= inputSize
      invariant CrcBytes(crc, input[i..inputSize]) == CrcBytes(initCrc, input[..inputSize])
    {
      assert input[i..inputSize][1..] == input[i + 1..inputSize];
      crc := Table(crc ^ input[i]);
      i := i + 1;
    }
  }

  method Crc8Bitwise(initCrc: bv8, input: array<bv8>, inputSize: nat) returns (crc: bv8)
    requires inputSize <= input.Length
    ensures crc == CrcBits(initCrc, BitsOf(input[..inputSize]))
  {
    hide *;
    ghost var msg := input[..inputSize];
    crc := initCrc;
    var i := 0;
    CrcBitsNil(crc, BitsOf(msg[..0]));
    while i < inputSize
      invariant i <= inputSize
      invariant crc == CrcBits(initCrc, BitsOf(msg[..i]))
    {
      BitsOfSnoc(msg[..i], msg[i]);
      assert msg[..i] + [msg[i]] == msg[..i + 1];
      CrcBitsAppend(initCrc, BitsOf(msg[..i]), BitsOf([msg[i]]));
      crc := Crc8BitwiseByte(crc, input[i]);
      i := i + 1;
    }
    assert msg[..i] == msg;
  }

  /** The inner loop: one message byte, eight shifts. */
  method Crc8BitwiseByte(crc0: bv8, b: bv8) returns (crc: bv8)
    ensures crc == CrcBits(crc0, BitsOf([b]))
  {
    hide *;
    ghost var bits := BitsOf([b]);
    crc := crc0;
    var byte := b;
    var j := 0;
    assert bits[0..] == bits;
    while j < 8
      invariant j <= 8
      invariant forall k: nat :: k < 8 - j ==> BitOf(byte, k) == BitOf(b, k + j)
      invariant CrcBits(crc, bits[j..]) == CrcBits(crc0, bits)
    {
      BitsOfAt([b], 0, j);
      CrcBitsStep(crc, bits, j);
      ShiftStep(byte, crc);
      ShiftRightBits(byte);
      assert BitOf(byte, 0) == BitOf(b, 0 + j);
      var x := (byte ^ crc) & 0x01;
      crc := crc >> 1;
      if x != 0 {
        crc := crc ^ 0x8C;
      }
      byte := byte >> 1;
      j := j + 1;
    }
    CrcBitsNil(crc, bits[j..]);
  }

  lemma BitsOfSnoc(s: Bytes, b: bv8)
    ensures BitsOf(s + [b]) == BitsOf(s) + BitsOf([b])
  {}

  lemma BitsOfAt(s: Bytes, i: nat, j: nat)
    requires i < |s| && j < 8
    ensures BitsOf(s)[8 * i + j] == BitOf(s[i], j)
  {}

  lemma CrcBitsNil(c: bv8, bits: seq<bool>)
    requires bits == []
    ensures CrcBits(c, bits) == c
  {}

  lemma ShiftStep(byte: bv8, crc: bv8)
    ensures ShiftIn(crc, BitOf(byte, 0)) == if (byte ^ crc) & 0x01 != 0 then (crc >> 1) ^ 0x8C else crc >> 1
  {}

  lemma ShiftRightBits(byte: bv8)
    ensures forall k: nat {:trigger BitOf(byte >> 1, k)} :: k < 7 ==> BitOf(byte >> 1, k) == BitOf(byte, k + 1)
  {}

  // ---------------------------------------------------------------- table form == bit form

  /** Every table entry is eight shifts of its index with the polynomial 0x8C. */
  lemma TableIsShift8(x: bv8)
    ensures Table(x) == Shift8(x)
  {
    if x < 128 { LowerTable(x); } else { UpperTable(x); }
  }

  lemma LowerTable(x: bv8)
    requires x < 128
    ensures Table(x) == Shift8(x)
  {}

  lemma UpperTable(x: bv8)
    requires x >= 128
    ensures Table(x) == Shift8(x)
  {}

  /** The byte with the given bits, least significant first. */
  function Pack(w: seq<bool>): bv8
    requires |w| == 8
  {
    (if w[0] then 0x01 else 0) | (if w[1] then 0x02 else 0) | (if w[2] then 0x04 else 0) | (if w[3] then 0x08 else 0)
    | (if w[4] then 0x10 else 0) | (if w[5] then 0x20 else 0) | (if w[6] then 0x40 else 0) | (if w[7] then 0x80 else 0)
  }

  lemma PackBits(w: seq<bool>)
    requires |w| == 8
    ensures forall k: nat :: k < 8 ==> BitOf(Pack(w), k) == w[k]
  {}

  lemma PackByte(b: bv8, w: seq<bool>)
    requires |w| == 8 && forall k: nat :: k < 8 ==> w[k] == BitOf(b, k)
    ensures Pack(w) == b
  {}

  lemma CrcBitsStep(c: bv8, w: seq<bool>, i: nat)
    requires i < |w|
    ensures CrcBits(c, w[i..]) == CrcBits(ShiftIn(c, w[i]), w[i + 1..])
  {}

  lemma FeedBits(c: bv8, b: bv8)
    ensures ShiftIn(ShiftIn(ShiftIn(ShiftIn(ShiftIn(ShiftIn(ShiftIn(ShiftIn(c,
              BitOf(b, 0)), BitOf(b, 1)), BitOf(b, 2)), BitOf(b, 3)),
              BitOf(b, 4)), BitOf(b, 5)), BitOf(b, 6)), BitOf(b, 7)) == Shift8(c ^ b)
  {}

  /** Feeding eight bits is eight shifts of the register XORed with the byte they make up. */
  lemma FeedByte(c: bv8, w: seq<bool>)
    requires |w| == 8
    ensures CrcBits(c, w) == Shift8(c ^ Pack(w))
  {
    hide ShiftIn, Pack, Shift8, Mask;
    PackBits(w);
    FeedBits(c, Pack(w));
    var c1 := ShiftIn(c, w[0]);
    var c2 := ShiftIn(c1, w[1]);
    var c3 := ShiftIn(c2, w[2]);
    var c4 := ShiftIn(c3, w[3]);
    var c5 := ShiftIn(c4, w[4]);
    var c6 := ShiftIn(c5, w[5]);
    var c7 := ShiftIn(c6, w[6]);
    var c8 := ShiftIn(c7, w[7]);
    CrcBitsStep(c, w, 0);
    CrcBitsStep(c1, w, 1);
    CrcBitsStep(c2, w, 2);
    CrcBitsStep(c3, w, 3);
    CrcBitsStep(c4, w, 4);
    CrcBitsStep(c5, w, 5);
    CrcBitsStep(c6, w, 6);
    CrcBitsStep(c7, w, 7);
    assert w[0..] == w;
    assert CrcBits(c8, w[8..]) == c8;
    assert c8 == Shift8(c ^ Pack(w));
  }

  lemma {:induction false} CrcBitsAppend(c: bv8, s: seq<bool>, t: seq<bool>)
    ensures CrcBits(c, s + t) == CrcBits(CrcBits(c, s), t)
    decreases |s|
  {
    hide ShiftIn;
    if s == [] {
      assert s + t == t;
    } else {
      assert (s + t)[1..] == s[1..] + t;
      CrcBitsAppend(ShiftIn(c, s[0]), s[1..], t);
    }
  }

  /** The bits of a message are those of its first byte and then those of the others. */
  lemma FirstByteBits(s: Bytes)
    requires s != []
    ensures BitsOf(s) == BitsOf(s)[..8] + BitsOf(s[1..])
    ensures forall k: nat :: k < 8 ==> BitsOf(s)[k] == BitOf(s[0], k)
  {
    hide BitOf;
    var rest := BitsOf(s[1..]);
    forall k: nat | k < |rest| ensures rest[k] == BitsOf(s)[8 + k] {
      BitsOfAt(s, 1 + k / 8, k % 8);
      BitsOfAt(s[1..], k / 8, k % 8);
    }
  }

  /** The table-driven CRC is the bit-by-bit CRC, for every start value and every message. */
  lemma {:induction false} FastIsBitwise(c: bv8, s: Bytes)
    ensures CrcBytes(c, s) == CrcBits(c, BitsOf(s))
    decreases |s|
  {
    if s == [] {
      CrcBitsNil(c, BitsOf(s));
    } else {
      hide Table, ShiftIn, BitOf, Pack, Shift8, BitsOf, CrcBits;
      var first := BitsOf(s)[..8];
      FirstByteBits(s);
      CrcBitsAppend(c, first, BitsOf(s[1..]));
      FeedByte(c, first);
      PackByte(s[0], first);
      TableIsShift8(c ^ s[0]);
      FastIsBitwise(Table(c ^ s[0]), s[1..]);
    }
  }

  // ---------------------------------------------------------------- burst detection

  lemma ShiftInInjective(c: bv8, d: bv8, bit: bool)
    requires c != d
    ensures ShiftIn(c, bit) != ShiftIn(d, bit)
  {}

  lemma {:induction false} CrcBitsInjective(c: bv8, d: bv8, bits: seq<bool>)
    requires c != d
    ensures CrcBits(c, bits) != CrcBits(d, bits)
    decreases |bits|
  {
    hide ShiftIn;
    if bits != [] {
      ShiftInInjective(c, d, bits[0]);
      CrcBitsInjective(ShiftIn(c, bits[0]), ShiftIn(d, bits[0]), bits[1..]);
    }
  }

  lemma Shift8Injective(c: bv8, x: bv8, y: bv8)
    requires x != y
    ensures Shift8(c ^ x) != Shift8(c ^ y)
  {}

  lemma {:induction false} WindowChangesCrc(c: bv8, s: seq<bool>, t: seq<bool>)
    requires |s| == |t| <= 8 && s != t
    ensures CrcBits(c, s) != CrcBits(c, t)
    decreases 8 - |s|
  {
    hide ShiftIn, Shift8, Pack;
    var k :| 0 <= k < |s| && s[k] != t[k];
    if |s| == 8 {
      FeedByte(c, s);
      FeedByte(c, t);
      PackBits(s);
      PackBits(t);
      assert BitOf(Pack(s), k) != BitOf(Pack(t), k);
      Shift8Injective(c, Pack(s), Pack(t));
    } else {
      assert (s + [false])[k] != (t + [false])[k];
      WindowChangesCrc(c, s + [false], t + [false]);
      CrcBitsAppend(c, s, [false]);
      CrcBitsAppend(c, t, [false]);
    }
  }

  /** Two messages that differ inside one window of eight bits never share a CRC. */
  lemma BurstDetected(c: bv8, a: Bytes, b: Bytes, w: nat)
    requires |a| == |b| && DifferInBurst(a, b, w)
    ensures CrcBytes(c, a) != CrcBytes(c, b)
  {
    var x, y := BitsOf(a), BitsOf(b);
    var n := |x|;
    var lo := if w < n then w else n;
    var hi := if w + 8 < n then w + 8 else n;
    assert x[..lo] == y[..lo];
    assert x[hi..] == y[hi..];
    assert x[lo..hi] != y[lo..hi] by {
      if x[lo..hi] == y[lo..hi] {
        forall i: nat | i < n ensures Bit(a, i) == Bit(b, i) {
          if lo <= i < hi {
            assert x[i] == x[lo..hi][i - lo];
            assert y[i] == y[lo..hi][i - lo];
          }
        }
        BytesExtensional(a, b);
      }
    }
    var start := CrcBits(c, x[..lo]);
    WindowChangesCrc(start, x[lo..hi], y[lo..hi]);
    CrcBitsInjective(CrcBits(start, x[lo..hi]), CrcBits(start, y[lo..hi]), x[hi..]);
    ThreeParts(c, x, lo, hi);
    ThreeParts(c, y, lo, hi);
    FastIsBitwise(c, a);
    FastIsBitwise(c, b);
  }

  lemma ThreeParts(c: bv8, x: seq<bool>, lo: nat, hi: nat)
    requires lo <= hi <= |x|
    ensures CrcBits(c, x) == CrcBits(CrcBits(CrcBits(c, x[..lo]), x[lo..hi]), x[hi..])
  {
    assert x == x[..lo] + (x[lo..hi] + x[hi..]);
    CrcBitsAppend(c, x[..lo], x[lo..hi] + x[hi..]);
    CrcBitsAppend(CrcBits(c, x[..lo]), x[lo..hi], x[hi..]);
  }

  lemma {:induction false} CrcBytesSnoc(c: bv8, s: Bytes, b: bv8)
    ensures CrcBytes(c, s + [b]) == Table(CrcBytes(c, s) ^ b)
    decreases |s|
  {
    hide Table;
    if s == [] {
      assert s + [b] == [b];
    } else {
      assert (s + [b])[1..] == s[1..] + [b];
      CrcBytesSnoc(Table(c ^ s[0]), s[1..], b);
    }
  }

  lemma TableZero(x: bv8)
    ensures Table(x) == 0 <==> x == 0
  {
    TableIsShift8(x);
    hide Table;
    Shift8Zero(x);
  }

  lemma Shift8Zero(x: bv8)
    ensures Shift8(x) == 0 <==> x == 0
  {}

  /** A frame is good exactly when the CRC over the whole frame, CRC byte included, is zero. */
  lemma FrameOkIsZeroCrc(s: Bytes)
    requires |s| > 0
    ensures FrameOk(s) <==> CrcBytes(0, s) == 0
  {
    hide Table, CrcBytes;
    var n := |s| - 1;
    assert s == s[..n] + [s[n]];
    CrcBytesSnoc(0, s[..n], s[n]);
    TableOfXor(CrcBytes(0, s[..n]), s[n]);
  }

  lemma TableOfXor(x: bv8, y: bv8)
    ensures Table(x ^ y) == 0 <==> x == y
  {
    TableZero(x ^ y);
    hide Table;
    assert x ^ y == 0 <==> x == y;
  }

  /** A good frame hit by any burst of at most eight bits, even across its CRC byte, is no longer good. */
  lemma CorruptedFrameRejected(good: Bytes, bad: Bytes, w: nat)
    requires |good| == |bad| > 0 && FrameOk(good) && DifferInBurst(good, bad, w)
    ensures !FrameOk(bad)
  {
    FrameOkIsZeroCrc(good);
    FrameOkIsZeroCrc(bad);
    BurstDetected(0, good, bad, w);
  }
}

/** Bits of byte buffers, least significant bit first, as the 1-Wire code addresses them. */
module ByteBits {

  type Bytes = seq<bv8>

  /** `1 << k` for a bit position inside a byte. */
  function Mask(k: nat): bv8
    requires k < 8
  {
    match k
    case 0 => 0x01
    case 1 => 0x02
    case 2 => 0x04
    case 3 => 0x08
    case 4 => 0x10
    case 5 => 0x20
    case 6 => 0x40
    case _ => 0x80
  }

  predicate BitOf(b: bv8, k: nat)
    requires k < 8
  {
    b & Mask(k) != 0
  }

  /** Bit `i` of a buffer: byte `i / 8`, position `i % 8`. */
  predicate Bit(s: Bytes, i: nat)
    requires i < 8 * |s|
  {
    BitOf(s[i / 8], i % 8)
  }

  /** Sets or clears one bit of a byte. */
  function PutBitOf(b: bv8, k: nat, v: bool): bv8
    requires k < 8
  {
    if v then b | Mask(k) else b & !Mask(k)
  }

  lemma PutBitOfSpec(b: bv8, k: nat, v: bool)
    requires k < 8
    ensures BitOf(PutBitOf(b, k, v), k) == v
    ensures forall j: nat :: j < 8 && j != k ==> BitOf(PutBitOf(b, k, v), j) == BitOf(b, j)
  {
  }

  lemma ByteExtensional(a: bv8, b: bv8)
    requires forall k: nat :: k < 8 ==> BitOf(a, k) == BitOf(b, k)
    ensures a == b
  {
    assert BitOf(a, 0) == BitOf(b, 0) && BitOf(a, 1) == BitOf(b, 1);
    assert BitOf(a, 2) == BitOf(b, 2) && BitOf(a, 3) == BitOf(b, 3);
    assert BitOf(a, 4) == BitOf(b, 4) && BitOf(a, 5) == BitOf(b, 5);
    assert BitOf(a, 6) == BitOf(b, 6) && BitOf(a, 7) == BitOf(b, 7);
  }

  /** Two buffers with the same bits are the same buffer. */
  lemma BytesExtensional(s: Bytes, t: Bytes)
    requires |s| == |t|
    requires forall i: nat :: i < 8 * |s| ==> Bit(s, i) == Bit(t, i)
    ensures s == t
  {
    forall j: nat | j < |s| ensures s[j] == t[j] {
      forall k: nat | k < 8 ensures BitOf(s[j], k) == BitOf(t[j], k) {
        assert Bit(s, 8 * j + k) == Bit(t, 8 * j + k);
      }
      ByteExtensional(s[j], t[j]);
    }
  }

  /** Writing one bit of a buffer changes that bit and no other. */
  lemma PutBit(s: Bytes, i: nat, v: bool)
    requires i < 8 * |s|
    ensures
      var t := s[i / 8 := PutBitOf(s[i / 8], i % 8, v)];
      && Bit(t, i) == v
      && forall j: nat :: j < 8 * |s| && j != i ==> Bit(t, j) == Bit(s, j)
  {
    PutBitOfSpec(s[i / 8], i % 8, v);
  }
}

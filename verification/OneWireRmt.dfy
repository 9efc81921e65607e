/** The symbol decoder of `owb/onewire_bus_impl_rmt.c` and the bit symbols it has to invert. */
module OneWireRmt {
  import opened ByteBits

  /** One RMT symbol: two levels with their durations in microseconds. */
  datatype Symbol = Symbol(level0: bool, duration0: nat, level1: bool, duration1: nat)

  const SLOT_START_DURATION: nat := 2
  const SLOT_BIT_DURATION: nat := 60
  const SLOT_RECOVERY_DURATION: nat := 2
  const SLOT_BIT_SAMPLE_TIME: nat := 15

  const BIT0 := Symbol(false, SLOT_START_DURATION + SLOT_BIT_DURATION, true, SLOT_RECOVERY_DURATION)
  const BIT1 := Symbol(false, SLOT_START_DURATION, true, SLOT_BIT_DURATION + SLOT_RECOVERY_DURATION)

  /** The bytes encoder: one symbol for each bit, least significant bit of each byte first. */
  function Encode(s: Bytes): (symbols: seq<Symbol>)
    ensures |symbols| == 8 * |s|
  {
    seq(8 * |s|, i requires 0 <= i < 8 * |s| => if Bit(s, i) then BIT1 else BIT0)
  }

  /** What decoding must do to a buffer: bit `i` follows symbol `i`, bits without a symbol stay. */
  ghost predicate Decoded(symbols: seq<Symbol>, before: Bytes, after: Bytes) {
    && |after| == |before|
    && forall i: nat :: i < 8 * |before| ==>
         Bit(after, i) == if i < |symbols| then symbols[i].duration0 <= SLOT_BIT_SAMPLE_TIME else Bit(before, i)
  }

  method DecodeData(symbols: seq<Symbol>, rxBuf: array<bv8>)
    requires rxBuf.Length > 0 || symbols == []
    modifies rxBuf
    ensures Decoded(symbols, old(rxBuf[..]), rxBuf[..])
  {
    hide BitOf, PutBitOf, Mask;
    var bytePos, bitPos := 0, 0;
    var i := 0;
    while i < |symbols|
      invariant i <= |symbols| && i == 8 * bytePos + bitPos
      invariant bitPos < 8 && (bytePos < rxBuf.Length || symbols == [])
      invariant Decoded(symbols[..i], old(rxBuf[..]), rxBuf[..])
    {
      var one := symbols[i].duration0 <= SLOT_BIT_SAMPLE_TIME;
      ghost var before := rxBuf[..];
      assert i / 8 == bytePos && i % 8 == bitPos;
      PutBit(before, i, one);
      rxBuf[bytePos] := PutBitOf(rxBuf[bytePos], bitPos, one);
      assert rxBuf[..] == before[bytePos := PutBitOf(before[bytePos], bitPos, one)];
      bitPos := bitPos + 1;
      i := i + 1;
      if bitPos >= 8 {
        bitPos := 0;
        bytePos := bytePos + 1;
        if bytePos >= rxBuf.Length {
          break;
        }
      }
    }
  }

  /** Decoding inverts encoding for byte strings of any length, whatever symbols follow. */
  lemma DecodeInvertsEncode(s: Bytes, extra: seq<Symbol>, before: Bytes, after: Bytes)
    requires |before| == |s| && Decoded(Encode(s) + extra, before, after)
    ensures after == s
  {
    hide Bit;
    BytesExtensional(after, s);
  }

  /** A transmission cut after `n` symbols delivers its first `n` bits and leaves every later bit as it was. */
  lemma CutTransmission(s: Bytes, n: nat, before: Bytes, after: Bytes)
    requires |before| == |s| && n <= 8 * |s| && Decoded(Encode(s)[..n], before, after)
    ensures forall i: nat :: i < 8 * |s| ==> Bit(after, i) == if i < n then Bit(s, i) else Bit(before, i)
  {}

  /** A slot low for more than the 15 microseconds up to the sample is a zero bit, a shorter one is a one bit. */
  lemma SlotMeans(symbols: seq<Symbol>, before: Bytes, after: Bytes, i: nat)
    requires Decoded(symbols, before, after) && i < |symbols| && i < 8 * |before|
    ensures Bit(after, i) <==> symbols[i].duration0 <= 15
    ensures 16 <= symbols[i].duration0 <= 60 ==> !Bit(after, i)
  {
    hide Bit;
  }

  /** What is sent for a bit: a low pulse of 2 microseconds for a one and of 62 for a zero, in a slot of 64. */
  lemma SlotShape(s: Bytes, i: nat)
    requires i < 8 * |s|
    ensures Encode(s)[i] == if Bit(s, i) then Symbol(false, 2, true, 62) else Symbol(false, 62, true, 2)
  {}
}

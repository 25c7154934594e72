/** Bytes as 8-bit vectors and the two orders in which a byte is shifted out over a wire. */
module Bits {

  type Byte = bv8

  /** The byte with only bit i set, `1 << i`. */
  function Mask(i: nat): Byte
    requires i < 8
  {
    match i
    case 0 => 0x01 case 1 => 0x02 case 2 => 0x04 case 3 => 0x08
    case 4 => 0x10 case 5 => 0x20 case 6 => 0x40 case _ => 0x80
  }

  /** Bit i of `b`. */
  predicate Bit(b: Byte, i: nat)
    requires i < 8
  {
    b & Mask(i) != 0
  }

  /** `Bit` is the shift-and-mask test `(b >> i) & 1 == 1` written in the drivers. */
  lemma BitIsShiftAndMask(b: Byte, i: nat)
    requires i < 8
    ensures Bit(b, i) == ((b >> i) & 1 == 1)
  {
    match i
    case 0 => case 1 => case 2 => case 3 => case 4 => case 5 => case 6 => case 7 =>
  }

  /** The drivers' bit test `(b >> i) & 1 == 1`. */
  function ShiftedBit(b: Byte, i: nat): (x: bool)
    requires i < 8
    ensures x == Bit(b, i)
  {
    BitIsShiftAndMask(b, i);
    (b >> i) & 1 == 1
  }

  /** The drivers' bit set `b | (1 << i)`. */
  function WithBit(b: Byte, i: nat): (r: Byte)
    requires i < 8
    ensures forall k :: 0 <= k < 8 ==> Bit(r, k) == (Bit(b, k) || k == i)
  {
    SetBitIsShiftAndOr(b, i);
    b | ((1 as Byte) << i)
  }

  lemma SetBitIsShiftAndOr(b: Byte, i: nat)
    requires i < 8
    ensures forall k :: 0 <= k < 8 ==> Bit(b | ((1 as Byte) << i), k) == (Bit(b, k) || k == i)
  {
    var r := b | ((1 as Byte) << i);
    forall k | 0 <= k < 8
      ensures Bit(r, k) == (Bit(b, k) || k == i)
    {
      match i
      case 0 => case 1 => case 2 => case 3 => case 4 => case 5 => case 6 => case 7 =>
    }
  }

  /** The bits of `b`, least significant first. */
  function LsbBits(b: Byte): (r: seq<bool>)
    ensures |r| == 8 && forall i :: 0 <= i < 8 ==> r[i] == Bit(b, i)
  {
    seq(8, i requires 0 <= i < 8 => Bit(b, i))
  }

  /** The bits of `b`, most significant first. */
  function MsbBits(b: Byte): (r: seq<bool>)
    ensures |r| == 8 && forall i :: 0 <= i < 8 ==> r[i] == Bit(b, 7 - i)
  {
    seq(8, i requires 0 <= i < 8 => Bit(b, 7 - i))
  }

  function BitValue(x: bool): Byte { if x then 1 else 0 }

  /** The byte a receiver assembles from bits that arrive least significant first: each bit shifts the earlier ones up. */
  function FromLsb(bits: seq<bool>): Byte
    requires |bits| <= 8
  {
    if bits == [] then 0 else BitValue(bits[0]) | (FromLsb(bits[1..]) << 1)
  }

  /** Shifting a byte up by one and putting a bit below it moves bit k up to bit k + 1. */
  lemma ShiftInBit(x: bool, r: Byte, k: nat)
    requires k < 7
    ensures Bit(BitValue(x) | (r << 1), 0) == x
    ensures Bit(BitValue(x) | (r << 1), k + 1) == Bit(r, k)
  {
    match k
    case 0 => case 1 => case 2 => case 3 => case 4 => case 5 => case 6 =>
  }

  /** Bit i of the assembled byte is the i-th bit that arrived, and 0 past the last one. */
  lemma {:induction false} FromLsbBit(bits: seq<bool>)
    requires |bits| <= 8
    ensures forall i :: 0 <= i < 8 ==> Bit(FromLsb(bits), i) == (i < |bits| && bits[i])
  {
    if bits == [] {
      forall i | 0 <= i < 8
        ensures !Bit(0, i)
      {
      }
    } else {
      FromLsbBit(bits[1..]);
      ShiftInBit(bits[0], FromLsb(bits[1..]), 0);
      forall i | 1 <= i < 8
        ensures Bit(FromLsb(bits), i) == (i < |bits| && bits[i])
      {
        ShiftInBit(bits[0], FromLsb(bits[1..]), i - 1);
      }
    }
  }

  /** The byte a receiver assembles from eight bits that arrive most significant first. */
  function FromMsb(bits: seq<bool>): Byte
    requires |bits| == 8
  {
    (BitValue(bits[0]) << 7) | (BitValue(bits[1]) << 6) | (BitValue(bits[2]) << 5) | (BitValue(bits[3]) << 4) |
    (BitValue(bits[4]) << 3) | (BitValue(bits[5]) << 2) | (BitValue(bits[6]) << 1) | BitValue(bits[7])
  }

  lemma LsbRoundTrip(b: Byte)
    ensures FromLsb(LsbBits(b)) == b
  {
    FromLsbBit(LsbBits(b));
    SameBits(FromLsb(LsbBits(b)), b);
  }

  lemma MsbRoundTrip(b: Byte)
    ensures FromMsb(MsbBits(b)) == b
  {
  }

  /** Eight bits assembled least significant first read back as the same eight bits. */
  lemma LsbBitsOfFromLsb(bits: seq<bool>)
    requires |bits| == 8
    ensures LsbBits(FromLsb(bits)) == bits
  {
    FromLsbBit(bits);
  }

  /** A byte is determined by its eight bits. */
  lemma SameBits(a: Byte, b: Byte)
    requires forall k :: 0 <= k < 8 ==> Bit(a, k) == Bit(b, k)
    ensures a == b
  {
    assert Bit(a, 0) == Bit(b, 0) && Bit(a, 1) == Bit(b, 1) && Bit(a, 2) == Bit(b, 2) && Bit(a, 3) == Bit(b, 3);
    assert Bit(a, 4) == Bit(b, 4) && Bit(a, 5) == Bit(b, 5) && Bit(a, 6) == Bit(b, 6) && Bit(a, 7) == Bit(b, 7);
  }

  /** Event 5i + j of a byte sent five events per bit belongs to bit step i, at position j of it. */
  lemma SplitFive(i: nat, j: nat)
    requires j < 5
    ensures (5 * i + j) / 5 == i && (5 * i + j) % 5 == j
  {
  }
}

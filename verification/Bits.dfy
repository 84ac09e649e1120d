/** Little-endian bit fields: bit 0 is the least significant bit of the first byte. */
module Bits {
  import opened Endpoint

  function Pow2(n: nat): (p: nat)
    ensures p > 0
  {
    if n == 0 then 1 else 2 * Pow2(n - 1)
  }

  /** The number whose bits, least significant first, are these. */
  function Value(bits: seq<bool>): nat {
    if bits == [] then 0 else (if bits[0] then 1 else 0) + 2 * Value(bits[1..])
  }

  /** The little-endian number in a buffer. */
  function LittleEndian(buffer: seq<Byte>): nat {
    if buffer == [] then 0 else buffer[0] + 256 * LittleEndian(buffer[1..])
  }

  /** A byte shifted right by i, and its last bit. */
  function ShiftedBit(b: Byte, i: nat): (r: nat)
    ensures r < 2
  {
    b / Pow2(i) % 2
  }

  predicate BitOf(b: Byte, i: nat) {
    ShiftedBit(b, i) == 1
  }

  predicate Bit(buffer: seq<Byte>, k: nat)
    requires k / 8 < |buffer|
  {
    BitOf(buffer[k / 8], k % 8)
  }

  /** The bits of a stretch of the buffer. */
  function BitsFrom(buffer: seq<Byte>, offset: nat, length: nat): (bits: seq<bool>)
    requires offset + length <= 8 * |buffer|
    ensures |bits| == length
  {
    seq(length, i requires 0 <= i < length => Bit(buffer, offset + i))
  }

  /** The bitwise or of two numbers. */
  function Or(a: nat, b: nat): (r: nat)
    decreases a + b
  {
    if a == 0 && b == 0 then 0
    else (if a % 2 == 1 || b % 2 == 1 then 1 else 0) + 2 * Or(a / 2, b / 2)
  }

  function ShiftLeft(bit: nat, i: nat): nat {
    bit * Pow2(i)
  }

  lemma {:induction false} OrOfZero(a: nat)
    ensures Or(a, 0) == a && Or(0, a) == a
  {
    if a > 0 {
      OrOfZero(a / 2);
    }
  }

  /** A bit above all those of a number is set by adding it. */
  lemma {:induction false} OrSetsBit(a: nat, bit: nat, i: nat)
    requires a < Pow2(i) && bit < 2
    ensures Or(a, ShiftLeft(bit, i)) == a + ShiftLeft(bit, i)
    decreases i
  {
    if i == 0 || bit == 0 {
      OrOfZero(a);
      OrOfZero(bit);
    } else {
      OrSetsBit(a / 2, bit, i - 1);
      assert ShiftLeft(bit, i) == 2 * ShiftLeft(bit, i - 1);
    }
  }

  // ---------------------------------------------------------------- the accumulator loop

  lemma {:induction false} ValueSnoc(bits: seq<bool>, b: bool)
    ensures Value(bits + [b]) == Value(bits) + (if b then Pow2(|bits|) else 0)
    decreases |bits|
  {
    if bits == [] {
      assert bits + [b] == [b] && [b][1..] == [];
    } else {
      assert (bits + [b])[1..] == bits[1..] + [b];
      ValueSnoc(bits[1..], b);
    }
  }

  lemma {:induction false} ValueFits(bits: seq<bool>)
    ensures Value(bits) < Pow2(|bits|)
  {
    if bits != [] {
      ValueFits(bits[1..]);
    }
  }

  lemma NextBit(buffer: seq<Byte>, offset: nat, i: nat)
    requires offset + i < 8 * |buffer|
    ensures Value(BitsFrom(buffer, offset, i + 1))
            == Value(BitsFrom(buffer, offset, i)) + if Bit(buffer, offset + i) then Pow2(i) else 0
  {
    assert BitsFrom(buffer, offset, i + 1) == BitsFrom(buffer, offset, i) + [Bit(buffer, offset + i)];
    ValueSnoc(BitsFrom(buffer, offset, i), Bit(buffer, offset + i));
  }

  lemma ShiftedIn(bit: nat, i: nat)
    requires bit < 2
    ensures ShiftLeft(bit, i) == if bit == 1 then Pow2(i) else 0
  {
  }

  lemma NextOr(buffer: seq<Byte>, offset: nat, i: nat, bit: nat)
    requires offset + i < 8 * |buffer| && bit < 2 && (bit == 1 <==> Bit(buffer, offset + i))
    ensures Or(Value(BitsFrom(buffer, offset, i)), ShiftLeft(bit, i)) == Value(BitsFrom(buffer, offset, i + 1))
  {
    var before := Value(BitsFrom(buffer, offset, i));
    NextBit(buffer, offset, i);
    ValueFits(BitsFrom(buffer, offset, i));
    OrSetsBit(before, bit, i);
    ShiftedIn(bit, i);
  }

  /** At most 31 bits; each one lands above all those read before. */
  method ReadBitsLE(buffer: array<Byte>, bitOffset: nat, bitLength: nat) returns (result: nat)
    requires bitOffset + bitLength <= 8 * buffer.Length && bitLength <= 31
    ensures result == LittleEndian(buffer[..]) / Pow2(bitOffset) % Pow2(bitLength)
    ensures result == Value(BitsFrom(buffer[..], bitOffset, bitLength)) && result < Pow2(bitLength)
  {
    var byteIndex := bitOffset / 8;
    var bitIndex := bitOffset % 8;
    result := 0;
    for i := 0 to bitLength
      invariant 8 * byteIndex + bitIndex == bitOffset + i && 0 <= bitIndex <= 8 && 0 <= byteIndex
      invariant result == Value(BitsFrom(buffer[..], bitOffset, i))
    {
      if bitIndex > 7 {
        byteIndex := byteIndex + 1;
        bitIndex := 0;
      }
      var bit := ShiftedBit(buffer[byteIndex], bitIndex);
      assert (bitOffset + i) / 8 == byteIndex && (bitOffset + i) % 8 == bitIndex;
      NextOr(buffer[..], bitOffset, i, bit);
      result := Or(result, ShiftLeft(bit, i));
      bitIndex := bitIndex + 1;
    }
    ValueFits(BitsFrom(buffer[..], bitOffset, bitLength));
    FieldOfNumber(buffer[..], bitOffset, bitLength);
  }

  // ---------------------------------------------------------------- bits and numbers

  lemma Double(p: nat, v: nat)
    ensures 2 * (p * v) == (2 * p) * v
  {
  }

  lemma FirstBit(a: seq<bool>, b: seq<bool>)
    requires a != []
    ensures Value(a + b) == (if a[0] then 1 else 0) + 2 * Value(a[1..] + b)
  {
    assert (a + b)[0] == a[0] && (a + b)[1..] == a[1..] + b;
  }

  lemma {:induction false} ValueConcat(a: seq<bool>, b: seq<bool>)
    ensures Value(a + b) == Value(a) + Pow2(|a|) * Value(b)
    decreases |a|
  {
    if a == [] {
      assert a + b == b;
    } else {
      ValueConcat(a[1..], b);
      FirstBit(a, b);
      Double(Pow2(|a| - 1), Value(b));
    }
  }

  lemma AtLeast(p: nat, k: int)
    requires p > 0
    ensures k >= 1 ==> p * k >= p
    ensures k <= -1 ==> p * k + p <= 0
  {
  }

  lemma Split(x: nat, low: nat, high: nat, p: nat)
    requires p > 0 && low < p && x == low + p * high
    ensures x / p == high && x % p == low
  {
    var q, r := x / p, x % p;
    assert x == p * q + r;
    assert p * (q - high) == p * q - p * high;
    AtLeast(p, q - high);
  }

  /** Cutting bits off a number is dividing, and keeping its low bits is taking a remainder. */
  lemma DropAndTake(bits: seq<bool>, k: nat)
    requires k <= |bits|
    ensures Value(bits) / Pow2(k) == Value(bits[k..]) && Value(bits) % Pow2(k) == Value(bits[..k])
  {
    assert bits[..k] + bits[k..] == bits;
    ValueConcat(bits[..k], bits[k..]);
    ValueFits(bits[..k]);
    Split(Value(bits), Value(bits[..k]), Value(bits[k..]), Pow2(k));
  }

  lemma ByteBits(b: Byte)
    ensures Value(BitsFrom([b], 0, 8)) == b
  {
    BitsOfByte(b, 0);
    assert BitsFrom([b], 0, 8)[0..] == BitsFrom([b], 0, 8);
  }

  /** The bits of a byte from bit i on are what dividing leaves. */
  lemma {:induction false} BitsOfByte(b: Byte, i: nat)
    requires i <= 8
    ensures Value(BitsFrom([b], 0, 8)[i..]) == b / Pow2(i)
    decreases 8 - i
  {
    TwelveBits();
    if i < 8 {
      BitsOfByte(b, i + 1);
      assert BitsFrom([b], 0, 8)[i..][1..] == BitsFrom([b], 0, 8)[i + 1..];
      HalfOf(b, Pow2(i));
    }
  }

  lemma HalfOf(x: nat, p: nat)
    requires p > 0
    ensures x / p == x / p % 2 + 2 * (x / (2 * p))
  {
    var q := x / p;
    var r := x % p;
    assert x == p * q + r;
    assert q == 2 * (q / 2) + q % 2;
    var low := p * (q % 2) + r;
    assert q % 2 <= 1 && p * (q % 2) <= p;
    assert x == low + (2 * p) * (q / 2) by {
      assert p * q == p * (2 * (q / 2)) + p * (q % 2);
    }
    Split(x, low, q / 2, 2 * p);
  }

  /** A buffer's bits spell its little-endian number. */
  lemma {:induction false} AllBits(buffer: seq<Byte>)
    ensures Value(BitsFrom(buffer, 0, 8 * |buffer|)) == LittleEndian(buffer)
  {
    if buffer != [] {
      var rest := buffer[1..];
      var bits := BitsFrom(buffer, 0, 8 * |buffer|);
      var first, others := BitsFrom([buffer[0]], 0, 8), BitsFrom(rest, 0, 8 * |rest|);
      forall k | 0 <= k < |bits|
        ensures bits[k] == (first + others)[k]
      {
        if k >= 8 {
          assert (k - 8) / 8 == k / 8 - 1 && (k - 8) % 8 == k % 8;
        }
      }
      assert bits == first + others;
      ValueConcat(first, others);
      ByteBits(buffer[0]);
      TwelveBits();
      AllBits(rest);
    }
  }

  /** A field is the buffer's number shifted right by the offset, cut to its length. */
  lemma FieldOfNumber(buffer: seq<Byte>, offset: nat, length: nat)
    requires offset + length <= 8 * |buffer|
    ensures Value(BitsFrom(buffer, offset, length)) == LittleEndian(buffer) / Pow2(offset) % Pow2(length)
  {
    var all := BitsFrom(buffer, 0, 8 * |buffer|);
    AllBits(buffer);
    DropAndTake(all, offset);
    DropAndTake(all[offset..], length);
    Stretch(buffer, offset, length);
  }

  lemma Stretch(buffer: seq<Byte>, offset: nat, length: nat)
    requires offset + length <= 8 * |buffer|
    ensures BitsFrom(buffer, 0, 8 * |buffer|)[offset..][..length] == BitsFrom(buffer, offset, length)
  {
    var part := BitsFrom(buffer, 0, 8 * |buffer|)[offset..][..length];
    forall i | 0 <= i < length
      ensures part[i] == Bit(buffer, offset + i)
    {
    }
  }

  /** Two fields next to each other make one. */
  lemma FieldsConcatenate(buffer: seq<Byte>, offset: nat, a: nat, b: nat)
    requires offset + a + b <= 8 * |buffer|
    ensures Value(BitsFrom(buffer, offset, a + b))
            == Value(BitsFrom(buffer, offset, a)) + Pow2(a) * Value(BitsFrom(buffer, offset + a, b))
  {
    assert BitsFrom(buffer, offset, a + b) == BitsFrom(buffer, offset, a) + BitsFrom(buffer, offset + a, b);
    ValueConcat(BitsFrom(buffer, offset, a), BitsFrom(buffer, offset + a, b));
  }

  /** The three bytes that carry two 12-bit values. */
  function Packed(x: nat, y: nat): (bytes: seq<Byte>)
    requires x < 4096 && y < 4096
    ensures |bytes| == 3
  {
    [x % 256, x / 256 + 16 * (y % 16), y / 16]
  }

  lemma PackedValue(x: nat, y: nat)
    requires x < 4096 && y < 4096
    ensures LittleEndian(Packed(x, y)) == x + 4096 * y
  {
    ThreeBytes(x % 256, x / 256 + 16 * (y % 16), y / 16);
    PackedNumber(x, y);
  }

  /** Two fields of twelve bits in three bytes are the quotient and the remainder. */
  lemma TwelveAndTwelve(bytes: seq<Byte>)
    requires |bytes| == 3
    ensures Value(BitsFrom(bytes, 0, 12)) == LittleEndian(bytes) % 4096
    ensures Value(BitsFrom(bytes, 12, 12)) == LittleEndian(bytes) / 4096 % 4096
  {
    TwelveBits();
    FieldOfNumber(bytes, 0, 12);
    FieldOfNumber(bytes, 12, 12);
  }

  /** Both values come back. */
  lemma PackedIsRead(x: nat, y: nat)
    requires x < 4096 && y < 4096
    ensures Value(BitsFrom(Packed(x, y), 0, 12)) == x && Value(BitsFrom(Packed(x, y), 12, 12)) == y
  {
    PackedValue(x, y);
    TwelveAndTwelve(Packed(x, y));
    Split(x + 4096 * y, x, y, 4096);
  }

  lemma PackedNumber(x: nat, y: nat)
    ensures x % 256 + 256 * (x / 256 + 16 * (y % 16)) + 65536 * (y / 16) == x + 4096 * y
  {
  }

  lemma TwelveBits()
    ensures Pow2(12) == 4096 && Pow2(8) == 256 && Pow2(0) == 1
  {
    assert Pow2(2) == 4 && Pow2(4) == 16 && Pow2(6) == 64 && Pow2(8) == 256 && Pow2(10) == 1024;
  }

  lemma ThreeBytes(a: Byte, b: Byte, c: Byte)
    ensures LittleEndian([a, b, c]) == a + 256 * b + 65536 * c
  {
    assert [a, b, c][1..] == [b, c] && [b, c][1..] == [c] && [c][1..] == [];
    assert LittleEndian([c]) == c;
    assert LittleEndian([b, c]) == b + 256 * c;
  }
}

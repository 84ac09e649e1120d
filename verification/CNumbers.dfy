/** What the C library makes of numbers that do not fit: a long of 64 bits that stops at its ends, and its low 32 bits as an int. */
module CNumbers {

  const LONG_MAX: int := 0x7FFF_FFFF_FFFF_FFFF

  function Saturate(n: int): int {
    if n > LONG_MAX then LONG_MAX else if n < -LONG_MAX - 1 then -LONG_MAX - 1 else n
  }

  function ToInt32(n: int): (r: int)
    ensures -0x8000_0000 <= r < 0x8000_0000
  {
    var low := n % 0x1_0000_0000;
    if low < 0x8000_0000 then low else low - 0x1_0000_0000
  }

  function ToByte(n: int): (b: nat)
    ensures b < 0x100
  {
    n % 0x100
  }

  function ToU32(n: int): nat {
    n % 0x1_0000_0000
  }

  /** The low byte of an int is the low byte of the long it came from. */
  lemma LowByte(n: int)
    ensures ToByte(ToInt32(n)) == n % 0x100
  {
    var q, low := n / 0x1_0000_0000, n % 0x1_0000_0000;
    assert n == 0x100 * (0x100_0000 * q) + low;
    SameByte(0x100_0000 * q, low);
    SameByte(-0x100_0000, low);
  }

  lemma SameByte(k: int, low: int)
    ensures (0x100 * k + low) % 0x100 == low % 0x100
  {
  }
}

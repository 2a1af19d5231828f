// Fixed-width integers of the C source, as ranges of the mathematical integers.
module Words {
  type byte = x: int | 0 <= x < 0x100
  type uint16 = x: int | 0 <= x < 0x1_0000
  type uint32 = x: int | 0 <= x < 0x1_0000_0000
  type uint64 = x: int | 0 <= x < 0x1_0000_0000_0000_0000

  // The modulus of RTP sequence numbers.
  const RTP_SEQ_MOD: uint32 := 0x1_0000
  const TWO_32: int := 0x1_0000_0000

  // What storing `x` into a uint16_t, uint32_t or uint64_t leaves there.
  function Wrap16(x: int): uint16 { x % 0x1_0000 }
  function Wrap32(x: int): uint32 { x % 0x1_0000_0000 }
  function Wrap64(x: int): uint64 { x % 0x1_0000_0000_0000_0000 }

  // Numbers that wrap to the same 32 bits differ by a multiple of 2^32, and conversely.
  lemma Wrap32Same(a: int, b: int) returns (k: int)
    requires Wrap32(a) == Wrap32(b)
    ensures a == b + k * TWO_32
  {
    k := a / TWO_32 - b / TWO_32;
  }

  lemma Wrap32Shift(a: int, k: int)
    ensures Wrap32(a + k * TWO_32) == Wrap32(a)
  {
  }

  // The low bits of what is stored are those of the number.
  lemma LowBits(x: int)
    ensures Wrap32(x) % 0x1000 == x % 0x1000 && Wrap16(x) % 0x100 == x % 0x100
  {
    Low12(x, x / TWO_32);
    Low8(x, x / 0x1_0000);
  }

  lemma Low12(x: int, q: int)
    ensures (x - q * 0x1_0000_0000) % 0x1000 == x % 0x1000
  {
    Digit12(x / 0x1000, x % 0x1000);
    Digit12(x / 0x1000 - 0x10_0000 * q, x % 0x1000);
  }

  lemma Digit12(a: int, b: int)
    requires 0 <= b < 0x1000
    ensures (a * 0x1000 + b) % 0x1000 == b
  {
  }

  lemma Digit8(a: int, b: int)
    requires 0 <= b < 0x100
    ensures (a * 0x100 + b) % 0x100 == b
  {
  }

  lemma Low8(x: int, q: int)
    ensures (x - q * 0x1_0000) % 0x100 == x % 0x100
  {
    Digit8(x / 0x100, x % 0x100);
    Digit8(x / 0x100 - 0x100 * q, x % 0x100);
  }
}

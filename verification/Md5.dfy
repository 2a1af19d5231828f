// The MD5 machine behind random32: src/utils/random32.c against RFC 1321.
module Md5 {
  import opened Words

  // ---- 32-bit words: bits, bitwise operations, shifts, addition ----

  function Power(n: nat): nat { if n == 0 then 1 else 2 * Power(n - 1) }

  lemma Power32()
    ensures Power(32) == 0x1_0000_0000
  {
    assert Power(8) == 0x100;
    assert Power(16) == 0x1_0000;
    assert Power(24) == 0x100_0000;
  }

  function Bit(x: nat, i: nat): bool
    decreases i
  {
    if i == 0 then x % 2 == 1 else Bit(x / 2, i - 1)
  }

  // The number with the given bits, lowest first.
  function Number(s: seq<bool>): (r: nat)
    ensures r < Power(|s|)
  {
    if s == [] then 0 else (if s[0] then 1 else 0) + 2 * Number(s[1..])
  }

  lemma {:induction false} NumberBit(s: seq<bool>, i: nat)
    requires i < |s|
    ensures Bit(Number(s), i) == s[i]
    decreases i
  {
    assert Number(s) / 2 == Number(s[1..]);
    if i > 0 { NumberBit(s[1..], i - 1); }
  }

  function Word(s: seq<bool>): (r: uint32)
    requires |s| == 32
    ensures forall i :: 0 <= i < 32 ==> Bit(r, i) == s[i]
  {
    assert forall i :: 0 <= i < 32 ==> Bit(Number(s), i) == s[i] by {
      forall i | 0 <= i < 32 ensures Bit(Number(s), i) == s[i] { NumberBit(s, i); }
    }
    Power32();
    Number(s)
  }

  // Words with the same bits are the same.
  lemma {:induction false} SameBits(x: nat, y: nat, n: nat)
    requires x < Power(n) && y < Power(n)
    requires forall i :: 0 <= i < n ==> Bit(x, i) == Bit(y, i)
    ensures x == y
    decreases n
  {
    if n > 0 {
      assert Bit(x, 0) == Bit(y, 0);
      forall i | 0 <= i < n - 1 ensures Bit(x / 2, i) == Bit(y / 2, i) {
        assert Bit(x, i + 1) == Bit(y, i + 1);
      }
      SameBits(x / 2, y / 2, n - 1);
    }
  }

  function And(x: uint32, y: uint32): (r: uint32)
    ensures forall i :: 0 <= i < 32 ==> (Bit(r, i) <==> Bit(x, i) && Bit(y, i))
  {
    Word(seq(32, i requires 0 <= i < 32 => Bit(x, i) && Bit(y, i)))
  }

  function Or(x: uint32, y: uint32): (r: uint32)
    ensures forall i :: 0 <= i < 32 ==> (Bit(r, i) <==> Bit(x, i) || Bit(y, i))
  {
    Word(seq(32, i requires 0 <= i < 32 => Bit(x, i) || Bit(y, i)))
  }

  function Xor(x: uint32, y: uint32): (r: uint32)
    ensures forall i :: 0 <= i < 32 ==> (Bit(r, i) <==> Bit(x, i) != Bit(y, i))
  {
    Word(seq(32, i requires 0 <= i < 32 => Bit(x, i) != Bit(y, i)))
  }

  function Not(x: uint32): (r: uint32)
    ensures forall i :: 0 <= i < 32 ==> (Bit(r, i) <==> !Bit(x, i))
  {
    Word(seq(32, i requires 0 <= i < 32 => !Bit(x, i)))
  }

  function Add(x: uint32, y: uint32): uint32 { Wrap32(x + y) }

  function Left(x: uint32, s: nat): uint32
    decreases s
  {
    if s == 0 then x else Left(Wrap32(2 * x), s - 1)
  }

  function Right(x: uint32, s: nat): uint32
    decreases s
  {
    if s == 0 then x else Right(x / 2, s - 1)
  }

  // ---- RFC 1321, section 3.4: the auxiliary functions and the 64 operations ----

  datatype Regs = Regs(a: uint32, b: uint32, c: uint32, d: uint32)

  function F(x: uint32, y: uint32, z: uint32): uint32 { Or(And(x, y), And(Not(x), z)) }
  function G(x: uint32, y: uint32, z: uint32): uint32 { Or(And(x, z), And(y, Not(z))) }
  function H(x: uint32, y: uint32, z: uint32): uint32 { Xor(Xor(x, y), z) }
  function I(x: uint32, y: uint32, z: uint32): uint32 { Xor(y, Or(x, Not(z))) }

  function Aux(i: nat, x: uint32, y: uint32, z: uint32): uint32 {
    if i < 16 then F(x, y, z) else if i < 32 then G(x, y, z) else if i < 48 then H(x, y, z) else I(x, y, z)
  }

  // T[i] = floor(2^32 * abs(sin(i + 1))), round by round.
  function Sine1(j: nat): uint32 {
    match j
    case 0 => 0xd76aa478 case 1 => 0xe8c7b756 case 2 => 0x242070db case 3 => 0xc1bdceee
    case 4 => 0xf57c0faf case 5 => 0x4787c62a case 6 => 0xa8304613 case 7 => 0xfd469501
    case 8 => 0x698098d8 case 9 => 0x8b44f7af case 10 => 0xffff5bb1 case 11 => 0x895cd7be
    case 12 => 0x6b901122 case 13 => 0xfd987193 case 14 => 0xa679438e case _ => 0x49b40821
  }

  function Sine2(j: nat): uint32 {
    match j
    case 0 => 0xf61e2562 case 1 => 0xc040b340 case 2 => 0x265e5a51 case 3 => 0xe9b6c7aa
    case 4 => 0xd62f105d case 5 => 0x02441453 case 6 => 0xd8a1e681 case 7 => 0xe7d3fbc8
    case 8 => 0x21e1cde6 case 9 => 0xc33707d6 case 10 => 0xf4d50d87 case 11 => 0x455a14ed
    case 12 => 0xa9e3e905 case 13 => 0xfcefa3f8 case 14 => 0x676f02d9 case _ => 0x8d2a4c8a
  }

  function Sine3(j: nat): uint32 {
    match j
    case 0 => 0xfffa3942 case 1 => 0x8771f681 case 2 => 0x6d9d6122 case 3 => 0xfde5380c
    case 4 => 0xa4beea44 case 5 => 0x4bdecfa9 case 6 => 0xf6bb4b60 case 7 => 0xbebfbc70
    case 8 => 0x289b7ec6 case 9 => 0xeaa127fa case 10 => 0xd4ef3085 case 11 => 0x04881d05
    case 12 => 0xd9d4d039 case 13 => 0xe6db99e5 case 14 => 0x1fa27cf8 case _ => 0xc4ac5665
  }

  function Sine4(j: nat): uint32 {
    match j
    case 0 => 0xf4292244 case 1 => 0x432aff97 case 2 => 0xab9423a7 case 3 => 0xfc93a039
    case 4 => 0x655b59c3 case 5 => 0x8f0ccc92 case 6 => 0xffeff47d case 7 => 0x85845dd1
    case 8 => 0x6fa87e4f case 9 => 0xfe2ce6e0 case 10 => 0xa3014314 case 11 => 0x4e0811a1
    case 12 => 0xf7537e82 case 13 => 0xbd3af235 case 14 => 0x2ad7d2bb case _ => 0xeb86d391
  }

  function T(i: nat): uint32 {
    if i < 16 then Sine1(i) else if i < 32 then Sine2(i - 16) else if i < 48 then Sine3(i - 32) else Sine4(i - 48)
  }

  function Shift(i: nat): (s: nat)
    ensures s <= 32
  {
    if i < 16 then match i % 4 { case 0 => 7 case 1 => 12 case 2 => 17 case _ => 22 }
    else if i < 32 then match i % 4 { case 0 => 5 case 1 => 9 case 2 => 14 case _ => 20 }
    else if i < 48 then match i % 4 { case 0 => 4 case 1 => 11 case 2 => 16 case _ => 23 }
    else match i % 4 { case 0 => 6 case 1 => 10 case 2 => 15 case _ => 21 }
  }

  // The word each operation reads, as listed operation by operation in the RFC.
  function Round2(j: nat): nat {
    match j
    case 0 => 1 case 1 => 6 case 2 => 11 case 3 => 0
    case 4 => 5 case 5 => 10 case 6 => 15 case 7 => 4
    case 8 => 9 case 9 => 14 case 10 => 3 case 11 => 8
    case 12 => 13 case 13 => 2 case 14 => 7 case _ => 12
  }

  function Round3(j: nat): nat {
    match j
    case 0 => 5 case 1 => 8 case 2 => 11 case 3 => 14
    case 4 => 1 case 5 => 4 case 6 => 7 case 7 => 10
    case 8 => 13 case 9 => 0 case 10 => 3 case 11 => 6
    case 12 => 9 case 13 => 12 case 14 => 15 case _ => 2
  }

  function Round4(j: nat): nat {
    match j
    case 0 => 0 case 1 => 7 case 2 => 14 case 3 => 5
    case 4 => 12 case 5 => 3 case 6 => 10 case 7 => 1
    case 8 => 8 case 9 => 15 case 10 => 6 case 11 => 13
    case 12 => 4 case 13 => 11 case 14 => 2 case _ => 9
  }

  function WordIndex(i: nat): (k: nat)
    ensures k < 16
  {
    if i < 16 then i
    else if i < 32 then Round2(i - 16) else if i < 48 then Round3(i - 32) else Round4(i - 48)
  }

  function Rotate(v: uint32, s: nat): uint32
    requires s <= 32
  {
    Or(Left(v, s), Right(v, 32 - s))
  }

  // The sixteen words of a block.
  type Words16 = x: seq<uint32> | |x| == 16 witness seq(16, _ => 0)

  // What operation i computes from the register it replaces and the other three.
  type Mixer = (nat, uint32, uint32, uint32, uint32) -> uint32

  function Mix(i: nat, x: Words16, a: uint32, b: uint32, c: uint32, d: uint32): uint32 {
    Add(b, Rotate(Add(Add(Add(a, Aux(i, b, c, d)), x[WordIndex(i)]), T(i)), Shift(i)))
  }

  function MixerOf(x: Words16): Mixer {
    (i: nat, a: uint32, b: uint32, c: uint32, d: uint32) => Mix(i, x, a, b, c, d)
  }

  // One row of the RFC's listing: [ABCD k s i] [DABC k s i] [CDAB k s i] [BCDA k s i].
  function Row(i: nat, mix: Mixer, r: Regs): Regs {
    var a := mix(i, r.a, r.b, r.c, r.d);
    var d := mix(i + 1, r.d, a, r.b, r.c);
    var c := mix(i + 2, r.c, d, a, r.b);
    var b := mix(i + 3, r.b, c, d, a);
    Regs(a, b, c, d)
  }

  // The first n rows.
  function Rows(n: nat, mix: Mixer, r: Regs): Regs {
    if n == 0 then r else Row(4 * (n - 1), mix, Rows(n - 1, mix, r))
  }

  function Sum(r: Regs, s: Regs): Regs { Regs(Add(r.a, s.a), Add(r.b, s.b), Add(r.c, s.c), Add(r.d, s.d)) }

  function Compress(r: Regs, x: Words16): Regs { Sum(r, Rows(16, MixerOf(x), r)) }

  // Four bytes, low-order byte first.
  function WordAt(block: seq<byte>, j: nat): uint32
    requires |block| == 64 && j < 16
  {
    var b: nat := 4 * j;
    LittleEndian(block[b], block[b + 1], block[b + 2], block[b + 3])
  }

  function LittleEndian(b0: byte, b1: byte, b2: byte, b3: byte): uint32 {
    (b0 as int) + 0x100 * (b1 as int) + 0x1_0000 * (b2 as int) + 0x100_0000 * (b3 as int)
  }

  function WordsOf(block: seq<byte>): seq<uint32>
    requires |block| == 64
  {
    seq(16, j requires 0 <= j < 16 => WordAt(block, j))
  }

  const START: Regs := Regs(0x67452301, 0xefcdab89, 0x98badcfe, 0x10325476)

  function CompressBlock(r: Regs, block: Block): Regs { Compress(r, WordsOf(block)) }

  type Block = b: seq<byte> | |b| == 64 witness seq(64, _ => 0)

  type Compressor = (Regs, Block) -> Regs

  // The registers after the first n blocks of m.
  function Absorb(f: Compressor, m: seq<byte>, n: nat): Regs
    requires 64 * n <= |m|
  {
    if n == 0 then START else f(Absorb(f, m, n - 1), m[64 * (n - 1)..64 * n])
  }

  function Rfc1321(): Compressor { (r: Regs, b: Block) => CompressBlock(r, b) }

  function Zeros(n: nat): seq<byte> { seq(n, _ => 0) }

  // The length in bits modulo 2^64, low-order byte first.
  function LengthBytes(n: nat): (s: seq<byte>)
    ensures |s| == 8
  {
    seq(8, k requires 0 <= k < 8 => ByteOf(n * 8, k))
  }

  function ByteOf(v: nat, k: nat): byte {
    if k == 0 then v % 0x100 else ByteOf(v / 0x100, k - 1)
  }

  // Sections 3.1 and 3.2: a single 1 bit, then zeros up to 56 modulo 64, then the length.
  function Padded(m: seq<byte>): seq<byte> {
    m + [0x80] + Zeros((55 - |m|) % 64) + LengthBytes(|m|)
  }

  lemma PaddedWhole(m: seq<byte>)
    ensures |Padded(m)| % 64 == 0
  {
  }

  function Digest(m: seq<byte>): Regs {
    PaddedWhole(m);
    Absorb(Rfc1321(), Padded(m), |Padded(m)| / 64)
  }

  // ---- the rotation ----

  lemma {:induction false} ClearTop(x: nat, n: nat, i: nat)
    requires Power(n) <= x < 2 * Power(n) && i < n
    ensures Bit(x - Power(n), i) == Bit(x, i)
    decreases i
  {
    assert Power(n) == 2 * Power(n - 1);
    if i > 0 { ClearTop(x / 2, n - 1, i - 1); }
  }

  lemma DoubleBit(x: uint32, i: nat)
    requires i < 32
    ensures Bit(Wrap32(2 * x), i) <==> i > 0 && Bit(x, i - 1)
  {
    Power32();
    assert Power(31) == 0x8000_0000;
    if i > 0 && x >= 0x8000_0000 {
      assert Wrap32(2 * x) / 2 == x - Power(31);
      ClearTop(x, 31, i - 1);
    }
  }

  lemma {:induction false} LeftBit(x: uint32, s: nat, i: nat)
    requires i < 32
    ensures Bit(Left(x, s), i) <==> i >= s && Bit(x, i - s)
    decreases s
  {
    if s > 0 {
      LeftBit(Wrap32(2 * x), s - 1, i);
      if i >= s - 1 { DoubleBit(x, i - (s - 1)); }
    }
  }

  lemma {:induction false} RightBit(x: uint32, s: nat, i: nat)
    ensures Bit(Right(x, s), i) <==> Bit(x, i + s)
    decreases s
  {
    if s > 0 { RightBit(x / 2, s - 1, i); }
  }

  lemma {:induction false} NoHighBit(x: nat, n: nat, i: nat)
    requires x < Power(n) && i >= n
    ensures !Bit(x, i)
    decreases i
  {
    if i > 0 { NoHighBit(x / 2, if n == 0 then 0 else n - 1, i - 1); }
  }

  // Rotate(v, s) has each bit of v moved s places up, those at the top to the bottom.
  lemma RotateBit(v: uint32, s: nat, i: nat)
    requires 0 < s < 32 && i < 32
    ensures Bit(Rotate(v, s), i) <==> Bit(v, if i >= s then i - s else i + 32 - s)
  {
    LeftBit(v, s, i);
    RightBit(v, 32 - s, i);
    Power32();
    if i >= s { NoHighBit(v, 32, i + 32 - s); }
  }

  // ---- the rewritten round functions and index formulas ----

  lemma FRewritten(b: uint32, c: uint32, d: uint32)
    ensures Xor(d, And(b, Xor(c, d))) == F(b, c, d)
  {
    Power32();
    SameBits(Xor(d, And(b, Xor(c, d))), F(b, c, d), 32);
  }

  lemma GRewritten(b: uint32, c: uint32, d: uint32)
    ensures Xor(c, And(d, Xor(c, b))) == G(b, c, d)
  {
    Power32();
    SameBits(Xor(c, And(d, Xor(c, b))), G(b, c, d), 32);
  }

  lemma Index2(j: nat)
    requires j < 16
    ensures Round2(j) == (1 + 5 * (16 + j)) % 16
  {
  }

  lemma Index3(j: nat)
    requires j < 16
    ensures Round3(j) == (5 + 3 * (32 + j)) % 16
  {
  }

  lemma Index4(j: nat)
    requires j < 16
    ensures Round4(j) == (7 * (48 + j)) % 16
  {
  }

  // `mix` is the mixing of RFC 1321 on the words x.
  ghost predicate Mixes(mix: Mixer, x: Words16) {
    forall i: nat, a: uint32, b: uint32, c: uint32, d: uint32 {:trigger Mix(i, x, a, b, c, d)} ::
      mix(i, a, b, c, d) == Mix(i, x, a, b, c, d)
  }

  // The rewritten round functions of the macro CORE
  method SelectFunction(i: nat, b: uint32, c: uint32, d: uint32) returns (f: uint32)
    requires i < 64
    ensures f == Aux(i, b, c, d)
  {
    if i < 32 {
      if i < 16 {
        f := Xor(d, And(b, Xor(c, d)));
        FRewritten(b, c, d);
      } else {
        f := Xor(c, And(d, Xor(c, b)));
        GRewritten(b, c, d);
      }
    } else {
      f := if i < 48 then Xor(Xor(b, c), d) else Xor(c, Or(b, Not(d)));
    }
  }

  // The word it reads
  method SelectWord(i: nat) returns (k: nat)
    requires i < 64
    ensures k == WordIndex(i)
  {
    if i < 32 {
      if i < 16 {
        k := i % 16;
      } else {
        k := (1 + 5 * i) % 16;
        Index2(i - 16);
      }
    } else {
      if i < 48 {
        k := (5 + 3 * i) % 16;
        Index3(i - 32);
      } else {
        k := (7 * i) % 16;
        Index4(i - 48);
      }
    }
  }

  // The macro CORE
  method Core(i: nat, x: Words16, a0: uint32, b: uint32, c: uint32, d: uint32, ghost mix: Mixer) returns (a: uint32)
    requires i < 64 && Mixes(mix, x)
    ensures a == mix(i, a0, b, c, d)
  {
    var f := SelectFunction(i, b, c, d);
    var k := SelectWord(i);
    a := Turn(a0, b, T(i), Add(f, x[k]), Shift(i));
    TurnSum(a0, b, T(i), f, x[k], Shift(i));
    assert a == Mix(i, x, a0, b, c, d);
  }

  function Turn(a: uint32, b: uint32, t: uint32, f: uint32, s: nat): uint32
    requires s <= 32
  {
    Add(b, Rotate(Add(Add(a, t), f), s))
  }

  lemma TurnSum(a: uint32, b: uint32, t: uint32, f: uint32, x: uint32, s: uint32)
    requires s <= 32
    ensures Turn(a, b, t, Add(f, x), s) == Add(b, Rotate(Add(Add(Add(a, f), x), t), s))
  {
    SumOrder(a, t, f, x);
  }

  lemma SumOrder(a: uint32, t: uint32, f: uint32, x: uint32)
    ensures Add(Add(a, t), Add(f, x)) == Add(Add(Add(a, f), x), t)
  {
    TwoSums(a, t, f, x);
    ThreeSums(a, f, x, t);
  }

  lemma TwoSums(a: int, t: int, f: int, x: int)
    ensures Wrap32(Wrap32(a + t) + Wrap32(f + x)) == Wrap32(a + t + f + x)
  {
    WrapSum(a + t, f + x);
  }

  lemma ThreeSums(a: int, f: int, x: int, t: int)
    ensures Wrap32(Wrap32(Wrap32(a + f) + x) + t) == Wrap32(a + f + x + t)
  {
    WrapSum(Wrap32(a + f) + x, t);
    WrapSum(a + f, x + t);
  }

  lemma WrapSum(x: int, y: int)
    ensures Wrap32(Wrap32(x) + y) == Wrap32(x + y) && Wrap32(Wrap32(x) + Wrap32(y)) == Wrap32(x + y)
  {
  }

  // The macro CORE2
  method Core2(i: nat, x: Words16, a0: uint32, b0: uint32, c0: uint32, d0: uint32, ghost mix: Mixer)
    returns (a: uint32, b: uint32, c: uint32, d: uint32)
    requires i + 4 <= 64 && Mixes(mix, x)
    ensures Regs(a, b, c, d) == Row(i, mix, Regs(a0, b0, c0, d0))
  {
    a := Core(i, x, a0, b0, c0, d0, mix);
    d := Core(i + 1, x, d0, a, b0, c0, mix);
    c := Core(i + 2, x, c0, d, a, b0, mix);
    b := Core(i + 3, x, b0, c, d, a, mix);
  }

  // The macro CORE4; the registers are those after the first n rows from r.
  method Core4(i: nat, x: Words16, a0: uint32, b0: uint32, c0: uint32, d0: uint32, ghost n: nat, ghost r: Regs,
               ghost mix: Mixer)
    returns (a: uint32, b: uint32, c: uint32, d: uint32)
    requires i + 16 <= 64 && i == 4 * n && Mixes(mix, x) && Regs(a0, b0, c0, d0) == Rows(n, mix, r)
    ensures Regs(a, b, c, d) == Rows(n + 4, mix, r)
  {
    a, b, c, d := Core2(i, x, a0, b0, c0, d0, mix);
    assert Regs(a, b, c, d) == Rows(n + 1, mix, r);
    a, b, c, d := Core2(i + 4, x, a, b, c, d, mix);
    assert Regs(a, b, c, d) == Rows(n + 2, mix, r);
    a, b, c, d := Core2(i + 8, x, a, b, c, d, mix);
    assert Regs(a, b, c, d) == Rows(n + 3, mix, r);
    a, b, c, d := Core2(i + 12, x, a, b, c, d, mix);
  }

  // The registers, which the context keeps in reverse order.
  function Reversed(s: seq<uint32>): Regs
    requires |s| == 4
  {
    Regs(s[3], s[2], s[1], s[0])
  }

  // The 64 unrolled steps of body.
  method Rounds(x: Words16, a0: uint32, b0: uint32, c0: uint32, d0: uint32, ghost mix: Mixer)
    returns (a: uint32, b: uint32, c: uint32, d: uint32)
    requires Mixes(mix, x)
    ensures Regs(a, b, c, d) == Rows(16, mix, Regs(a0, b0, c0, d0))
  {
    ghost var r := Regs(a0, b0, c0, d0);
    a, b, c, d := Core4(0, x, a0, b0, c0, d0, 0, r, mix);
    a, b, c, d := Core4(16, x, a, b, c, d, 4, r, mix);
    a, b, c, d := Core4(32, x, a, b, c, d, 8, r, mix);
    a, b, c, d := Core4(48, x, a, b, c, d, 12, r, mix);
  }

  lemma MixerRight(x: Words16)
    ensures Mixes(MixerOf(x), x)
  {
  }

  method Body(abcd: array<uint32>, x: Words16)
    requires abcd.Length == 4
    modifies abcd
    ensures Reversed(abcd[..]) == Compress(Reversed(old(abcd[..])), x)
  {
    MixerRight(x);
    var a, b, c, d := Rounds(x, abcd[3], abcd[2], abcd[1], abcd[0], MixerOf(x));
    AddInto(abcd, a, b, c, d);
  }

  method AddInto(abcd: array<uint32>, a: uint32, b: uint32, c: uint32, d: uint32)
    requires abcd.Length == 4
    modifies abcd
    ensures Reversed(abcd[..]) == Sum(Reversed(old(abcd[..])), Regs(a, b, c, d))
  {
    abcd[0] := Add(abcd[0], d);
    abcd[1] := Add(abcd[1], c);
    abcd[2] := Add(abcd[2], b);
    abcd[3] := Add(abcd[3], a);
  }

  // ---- the context: any split of the message leaves the same one ----

  lemma {:induction false} AbsorbPrefix(f: Compressor, m: seq<byte>, k: seq<byte>, n: nat)
    requires 64 * n <= |m|
    ensures Absorb(f, m + k, n) == Absorb(f, m, n)
  {
    if n > 0 {
      AbsorbPrefix(f, m, k, n - 1);
      assert (m + k)[64 * (n - 1)..64 * n] == m[64 * (n - 1)..64 * n];
    }
  }

  // `f` is the compression of RFC 1321.
  ghost predicate Compresses(f: Compressor) {
    forall r: Regs, b: Block {:trigger CompressBlock(r, b)} :: f(r, b) == CompressBlock(r, b)
  }

  method BodyOn(abcd: array<uint32>, block: Block, ghost f: Compressor)
    requires abcd.Length == 4 && Compresses(f)
    modifies abcd
    ensures Reversed(abcd[..]) == f(Reversed(old(abcd[..])), block)
  {
    Body(abcd, WordsOf(block));
    assert Reversed(abcd[..]) == CompressBlock(Reversed(old(abcd[..])), block);
  }

  // Where the unfinished block starts.
  function Whole(n: nat): (w: nat)
    ensures w <= n && w == 64 * (n / 64) && n - w == n % 64
  {
    64 * (n / 64)
  }

  class Context {
    var len: uint64
    const block: array<byte>
    const abcd: array<uint32>
    ghost var msg: seq<byte>
    ghost const f: Compressor

    // The registers and the unfinished block, j bytes long, are those of `msg`.
    ghost predicate Holds(j: nat)
      reads this, block, abcd
    {
      block.Length == 64 && abcd.Length == 4 && Compresses(f) &&
      j == |msg| % 64 &&
      Reversed(abcd[..]) == Absorb(f, msg, |msg| / 64) &&
      block[..j] == msg[Whole(|msg|)..]
    }

    // The context after the bytes of `msg`.
    ghost predicate Valid()
      reads this, block, abcd
    {
      len == Wrap64(|msg|) && Holds(|msg| % 64)
    }

    // av_md5_init
    constructor ()
      ensures Valid() && msg == [] && f == Rfc1321() && fresh(block) && fresh(abcd)
    {
      len := 0;
      block := new byte[64](_ => 0);
      abcd := new uint32[4];
      msg := [];
      f := Rfc1321();
      new;
      CompressesRfc1321();
      abcd[0] := 0x10325476;
      abcd[1] := 0x98badcfe;
      abcd[2] := 0xefcdab89;
      abcd[3] := 0x67452301;
    }

    // One byte of av_md5_update, at position j of the block.
    method Feed(j: nat, x: byte) returns (k: nat)
      requires Holds(j)
      modifies this`msg, block, abcd
      ensures msg == old(msg) + [x] && Holds(k)
    {
      block[j] := x;
      k := j + 1;
      ghost var was, n := msg, |msg| / 64;
      msg := msg + [x];
      AbsorbPrefix(f, was, [x], n);
      assert block[..k] == msg[Whole(|was|)..];
      if k == 64 {
        BlockDone(|was|);
        ghost var full := block[..];
        assert full == msg[64 * n..64 * (n + 1)];
        BodyOn(abcd, block[..], f);
        k := 0;
        assert Reversed(abcd[..]) == f(Absorb(f, msg, n), full) == Absorb(f, msg, n + 1);
      } else {
        BlockOpen(|was|);
      }
    }

    // av_md5_update
    method Update(src: seq<byte>)
      requires Valid()
      modifies this, block, abcd
      ensures Valid() && msg == old(msg) + src
    {
      ghost var before := msg;
      LenMod(|msg|);
      var j: nat := len % 64;
      len := Wrap64(len + |src|);
      LenSum(|msg|, |src|);
      FeedAll(j, src);
      assert |msg| == |before| + |src|;
    }

    // The loop of av_md5_update
    method FeedAll(j0: nat, src: seq<byte>)
      requires Holds(j0)
      modifies this`msg, block, abcd
      ensures msg == old(msg) + src && Holds(|msg| % 64)
    {
      var i, j := 0, j0;
      while i < |src|
        invariant 0 <= i <= |src| && msg == old(msg) + src[..i] && Holds(j)
      {
        assert src[..i + 1] == src[..i] + [src[i]];
        j := Feed(j, src[i]);
        i := i + 1;
      }
      assert src[..|src|] == src;
    }

    // av_md5_final; dst as four 32-bit words of a little-endian host
    method Final() returns (dst: seq<uint32>)
      requires Valid()
      modifies this, block, abcd
      ensures dst == DigestWords(Absorb(f, Fed(old(msg)), |Fed(old(msg))| / 64))
    {
      ghost var m := msg;
      var finalcount := Wrap64(len * 8);
      Update([0x80]);
      FillUp(m + [0x80]);
      AppendCount(finalcount, |m|);
      assert msg == Fed(m);
      dst := Output();
    }

    // The length, as it lies in memory
    method AppendCount(finalcount: uint64, ghost n: nat)
      requires Valid() && finalcount == Wrap64(Wrap64(n) * 8)
      modifies this, block, abcd
      ensures Valid() && msg == old(msg) + LengthBytes(n)
    {
      CountBytes(n);
      var count := seq(8, k requires 0 <= k < 8 => ByteOf(finalcount, k));
      assert count == LengthBytes(n);
      Update(count);
    }

    // The output loop of av_md5_final
    method Output() returns (dst: seq<uint32>)
      requires Valid()
      ensures dst == DigestWords(Absorb(f, msg, |msg| / 64))
    {
      dst := [abcd[3], abcd[2], abcd[1], abcd[0]];
      assert dst == DigestWords(Reversed(abcd[..]));
    }

    // The padding loop of av_md5_final
    method FillUp(ghost start: seq<byte>)
      requires Valid() && msg == start
      modifies this, block, abcd
      ensures Valid() && msg == start + Zeros(Filled(|start|))
    {
      ghost var i := 0;
      LenMod(|msg|);
      assert start + Zeros(0) == start;
      while len % 64 < 56
        invariant Valid() && msg == start + Zeros(i) && len % 64 == |msg| % 64
        invariant i + Filled(|msg|) == Filled(|start|)
        decreases Filled(|msg|)
      {
        FilledNext(|msg|);
        Update([0]);
        assert Zeros(i + 1) == Zeros(i) + [0];
        i := i + 1;
        LenMod(|msg|);
      }
    }
  }

  function DigestWords(r: Regs): seq<uint32> { [r.a, r.b, r.c, r.d] }

  // How many zeros the padding loop appends after n bytes.
  function Filled(n: nat): nat { if n % 64 < 56 then 56 - n % 64 else 0 }

  lemma FilledNext(n: nat)
    requires n % 64 < 56
    ensures Filled(n) == Filled(n + 1) + 1
  {
  }

  // Everything av_md5_final makes the context absorb.
  function Fed(m: seq<byte>): seq<byte> {
    m + [0x80] + Zeros(Filled(|m| + 1)) + LengthBytes(|m|)
  }

  // av_md5_sum
  method Md5Sum(src: seq<byte>) returns (dst: seq<uint32>)
    ensures !(56 <= |src| % 64 <= 62) ==> dst == DigestWords(Digest(src))
    ensures dst == DigestWords(Absorb(Rfc1321(), Fed(src), |Fed(src)| / 64))
  {
    var ctx := new Context();
    ctx.Update(src);
    assert [] + src == src;
    dst := ctx.Final();
    FedRightIff(src);
  }

  // The loop stops at 56 modulo 64 or anywhere above, so the padding is the RFC's exactly
  // when the message does not end 56 to 62 bytes into a block; otherwise one block too few
  // is compressed and the end of the length never is.
  lemma FedRightIff(m: seq<byte>)
    ensures Fed(m) == Padded(m) <==> !(56 <= |m| % 64 <= 62)
    ensures |Fed(m)| % 64 == 0 <==> !(56 <= |m| % 64 <= 62)
    ensures 56 <= |m| % 64 <= 62 ==> |Fed(m)| / 64 + 1 == |Padded(m)| / 64
  {
    ZeroCounts(|m|);
  }

  // A message of 56 bytes: one block is compressed where the RFC has two.
  lemma OneBlockShort()
    ensures |Fed(Zeros(56))| / 64 == 1 && |Padded(Zeros(56))| / 64 == 2
  {
  }

  lemma ZeroCounts(n: nat)
    ensures Filled(n + 1) == (55 - n) % 64 <==> !(56 <= n % 64 <= 62)
    ensures (n + 9 + Filled(n + 1)) % 64 == 0 <==> !(56 <= n % 64 <= 62)
    ensures 56 <= n % 64 <= 62 ==> (n + 9 + Filled(n + 1)) / 64 + 1 == (n + 9 + (55 - n) % 64) / 64
  {
    var q, r := n / 64, n % 64;
    ZerosWanted(n, q, r);
    ZerosGiven(n, q, r);
  }

  lemma ZerosWanted(n: int, q: int, r: int)
    requires n == 64 * q + r && 0 <= r < 64
    ensures (55 - n) % 64 == if r <= 55 then 55 - r else 119 - r
    ensures (n + 9 + (55 - n) % 64) / 64 == if r <= 55 then q + 1 else q + 2
  {
    assert 55 - n == 64 * (-q) + (55 - r);
  }

  lemma ZerosGiven(n: nat, q: nat, r: nat)
    requires n == 64 * q + r && r < 64
    ensures Filled(n + 1) == if r <= 54 then 55 - r else if r == 63 then 56 else 0
    ensures (n + 9 + Filled(n + 1)) % 64 == if 56 <= r <= 62 then r - 55 else 0
    ensures 56 <= r <= 62 ==> (n + 9 + Filled(n + 1)) / 64 == q + 1
  {
    if r == 63 {
      Quotient(n + 1, q + 1, 0);
      Quotient(n + 65, q + 2, 0);
    } else {
      Quotient(n + 1, q, r + 1);
      if r <= 54 { Quotient(n + 64 - r, q + 1, 0); } else { Quotient(n + 9, q + 1, r - 55); }
    }
  }

  lemma Quotient(n: int, q: int, r: int)
    requires n == 64 * q + r && 0 <= r < 64
    ensures n / 64 == q && n % 64 == r
  {
  }

  // ---- the length modulo 2^64 has the right eight bytes ----

  function Power256(n: nat): nat { if n == 0 then 1 else 256 * Power256(n - 1) }

  lemma Associate(h: nat, p: nat)
    ensures h * (256 * p) == 256 * (h * p)
  {
  }

  lemma {:induction false} LowBytes(h: nat, l: nat, j: nat, k: nat)
    requires l < Power256(j) && k < j
    ensures ByteOf(h * Power256(j) + l, k) == ByteOf(l, k)
  {
    var p := h * Power256(j - 1);
    Associate(h, Power256(j - 1));
    assert h * Power256(j) + l == 256 * (p + l / 256) + l % 256;
    Shifted(p + l / 256, l % 256);
    if k > 0 { LowBytes(h, l / 256, j - 1, k - 1); }
  }

  lemma Shifted(q: nat, r: nat)
    requires r < 256
    ensures (256 * q + r) / 256 == q && (256 * q + r) % 256 == r
  {
  }

  lemma CountBytes(n: nat)
    ensures forall k :: 0 <= k < 8 ==> ByteOf(Wrap64(Wrap64(n) * 8), k) == ByteOf(n * 8, k)
  {
    forall k | 0 <= k < 8 ensures ByteOf(Wrap64(Wrap64(n) * 8), k) == ByteOf(n * 8, k) {
      var h := CountHigh(n);
      Power8();
      LowBytes(h, Wrap64(Wrap64(n) * 8), 8, k);
    }
  }

  lemma CountHigh(n: nat) returns (h: nat)
    ensures n * 8 == h * 0x1_0000_0000_0000_0000 + Wrap64(Wrap64(n) * 8)
  {
    h := 8 * (n / 0x1_0000_0000_0000_0000) + Wrap64(n) * 8 / 0x1_0000_0000_0000_0000;
  }

  lemma Power8()
    ensures Power256(8) == 0x1_0000_0000_0000_0000
  {
    assert Power256(4) == 0x1_0000_0000;
  }

  lemma CompressesRfc1321()
    ensures Compresses(Rfc1321())
  {
  }

  lemma BlockDone(n: nat)
    requires n % 64 == 63
    ensures (n + 1) / 64 == n / 64 + 1 && (n + 1) % 64 == 0
  {
  }

  lemma BlockOpen(n: nat)
    requires n % 64 < 63
    ensures (n + 1) / 64 == n / 64 && (n + 1) % 64 == n % 64 + 1
  {
  }

  lemma LenMod(n: nat)
    ensures Wrap64(n) % 64 == n % 64
  {
  }

  lemma LenSum(n: nat, k: nat)
    ensures Wrap64(Wrap64(n) + k) == Wrap64(n + k)
  {
  }
}

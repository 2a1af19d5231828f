// The text decoders of src/parsers/rtp_utils.c: base64 (section 4 of RFC 4648) and hex.
// Strings are sequences of bytes without the terminating zero.
module Codecs {
  import opened Words

  // map2, row by row: values of the characters from '+' (43) on, 0xff for characters outside
  // the alphabet.
  const MAP2: seq<seq<byte>> := [
    [0x3e, 0xff, 0xff, 0xff, 0x3f, 0x34, 0x35, 0x36],
    [0x37, 0x38, 0x39, 0x3a, 0x3b, 0x3c, 0x3d, 0xff],
    [0xff, 0xff, 0xff, 0xff, 0xff, 0xff, 0x00, 0x01],
    [0x02, 0x03, 0x04, 0x05, 0x06, 0x07, 0x08, 0x09],
    [0x0a, 0x0b, 0x0c, 0x0d, 0x0e, 0x0f, 0x10, 0x11],
    [0x12, 0x13, 0x14, 0x15, 0x16, 0x17, 0x18, 0x19],
    [0xff, 0xff, 0xff, 0xff, 0xff, 0xff, 0x1a, 0x1b],
    [0x1c, 0x1d, 0x1e, 0x1f, 0x20, 0x21, 0x22, 0x23],
    [0x24, 0x25, 0x26, 0x27, 0x28, 0x29, 0x2a, 0x2b],
    [0x2c, 0x2d, 0x2e, 0x2f, 0x30, 0x31, 0x32, 0x33]]

  function Entry(index: nat): byte
    requires index < 80
  {
    MAP2[index / 8][index % 8]
  }

  const EQUALS: byte := 61

  type sextet = x: int | 0 <= x < 64

  // The table's entry for a character, -1 where the decoder gives up.
  function Lookup(c: byte): (v: int)
    ensures v == -1 || 0 <= v < 0x100
  {
    if c < 43 || c - 43 >= 80 || Entry(c - 43) == 0xff then -1 else Entry(c - 43)
  }

  // The number a character stands for in the base64 alphabet.
  function Value64(c: byte): int {
    if 65 <= c <= 90 then c - 65
    else if 97 <= c <= 122 then c - 71
    else if 48 <= c <= 57 then c + 4
    else if c == 43 then 62
    else if c == 47 then 63
    else -1
  }

  function Char64(v: sextet): byte {
    if v < 26 then 65 + v else if v < 52 then 71 + v else if v < 62 then v - 4 else if v == 62 then 43 else 47
  }

  // The table is the inverse of the alphabet.
  lemma TableRight(c: byte)
    ensures Lookup(c) == Value64(c)
  {
    if 43 <= c < 123 {
      var row := (c - 43) / 8;
      assert c - 43 == row * 8 + (c - 43) % 8;
      RowRight(row, (c - 43) % 8);
    }
  }

  lemma RowRight(r: nat, k: nat)
    requires r < 10 && k < 8
    ensures var v := Value64(43 + 8 * r + k); MAP2[r][k] == if v == -1 then 0xff else v
  {
    var row := MAP2[r];
    assert |row| == 8;
    if r < 5 { RowsLow(r, k); } else { RowsHigh(r, k); }
  }

  lemma RowsLow(r: nat, k: nat)
    requires r < 5 && k < 8
    ensures var v := Value64(43 + 8 * r + k); MAP2[r][k] == if v == -1 then 0xff else v
  {
    assert MAP2[0] == [0x3e, 0xff, 0xff, 0xff, 0x3f, 0x34, 0x35, 0x36];
    assert MAP2[1] == [0x37, 0x38, 0x39, 0x3a, 0x3b, 0x3c, 0x3d, 0xff];
    assert MAP2[2] == [0xff, 0xff, 0xff, 0xff, 0xff, 0xff, 0x00, 0x01];
    assert MAP2[3] == [0x02, 0x03, 0x04, 0x05, 0x06, 0x07, 0x08, 0x09];
    assert MAP2[4] == [0x0a, 0x0b, 0x0c, 0x0d, 0x0e, 0x0f, 0x10, 0x11];
  }

  lemma RowsHigh(r: nat, k: nat)
    requires 5 <= r < 10 && k < 8
    ensures var v := Value64(43 + 8 * r + k); MAP2[r][k] == if v == -1 then 0xff else v
  {
    assert MAP2[5] == [0x12, 0x13, 0x14, 0x15, 0x16, 0x17, 0x18, 0x19];
    assert MAP2[6] == [0xff, 0xff, 0xff, 0xff, 0xff, 0xff, 0x1a, 0x1b];
    assert MAP2[7] == [0x1c, 0x1d, 0x1e, 0x1f, 0x20, 0x21, 0x22, 0x23];
    assert MAP2[8] == [0x24, 0x25, 0x26, 0x27, 0x28, 0x29, 0x2a, 0x2b];
    assert MAP2[9] == [0x2c, 0x2d, 0x2e, 0x2f, 0x30, 0x31, 0x32, 0x33];
  }

  // ---- base64, specified on groups of six bits ----

  // The characters before the first '='.
  function Body(s: seq<byte>): (b: seq<byte>)
    ensures |b| <= |s| && b == s[..|b|]
    ensures forall k :: 0 <= k < |b| ==> b[k] != EQUALS
    ensures |b| < |s| ==> s[|b|] == EQUALS
  {
    if s == [] || s[0] == EQUALS then [] else [s[0]] + Body(s[1..])
  }

  predicate Legal64(s: seq<byte>) { forall k :: 0 <= k < |s| ==> Value64(s[k]) != -1 }

  function Values(s: seq<byte>): (r: seq<sextet>)
    requires Legal64(s)
    ensures |r| == |s|
  {
    seq(|s|, k requires 0 <= k < |s| => Value64(s[k]) as sextet)
  }

  // The byte whose last bits are in a group's sextet number `pos` (1 to 3).
  function Byte(pos: nat, before: sextet, now: sextet): byte
    requires 1 <= pos <= 3
  {
    if pos == 1 then before * 4 + now / 16
    else if pos == 2 then before % 16 * 16 + now / 4
    else before % 4 * 64 + now
  }

  // The whole bytes in the bits of the first n sextets.
  function BytesOf(v: seq<sextet>, n: nat): (r: seq<byte>)
    requires n <= |v|
    ensures |r| <= n
  {
    if n == 0 then []
    else if (n - 1) % 4 == 0 then BytesOf(v, n - 1)
    else BytesOf(v, n - 1) + [Byte((n - 1) % 4, v[n - 2], v[n - 1])]
  }

  // The accumulator modulo 2^12 holds the last two sextets and nothing older.
  lemma Accumulate(v: uint32, m: sextet)
    ensures Wrap32(v * 64 + m) % 4096 == v % 64 * 64 + m
    ensures Wrap32(v * 64 + m) % 64 == m
  {
    var w: int := v * 64 + m;
    LowBits(w);
    TwelveBits(v, v / 64, v % 64, m);
    SixBits(Wrap32(w));
  }

  lemma TwelveBits(v: int, q: int, r: int, m: int)
    requires v == q * 64 + r && 0 <= r < 64 && 0 <= m < 64
    ensures (v * 64 + m) % 4096 == r * 64 + m && (r * 64 + m) % 64 == m
  {
  }

  lemma SixBits(x: int)
    ensures x % 4096 % 64 == x % 64
  {
  }

  lemma ExtractByte(v: uint32, a: sextet, b: sextet)
    requires v % 4096 == a as int * 64 + b as int
    ensures v / 16 % 0x100 == Byte(1, a, b) && v / 4 % 0x100 == Byte(2, a, b) && v % 0x100 == Byte(3, a, b)
  {
    Shift4(v, v / 4096, a, b);
    Shift2(v, v / 4096, a, b);
    Shift0(v, v / 4096, a, b);
  }

  lemma Shift4(v: int, q: int, a: int, b: int)
    requires v == q * 4096 + a * 64 + b && 0 <= a < 64 && 0 <= b < 64
    ensures v / 16 % 0x100 == a * 4 + b / 16
  {
    assert v / 16 == q * 0x100 + (a * 4 + b / 16);
  }

  lemma Shift2(v: int, q: int, a: int, b: int)
    requires v == q * 4096 + a * 64 + b && 0 <= a < 64 && 0 <= b < 64
    ensures v / 4 % 0x100 == a % 16 * 16 + b / 4
  {
    assert v / 4 == (q * 4 + a / 16) * 0x100 + (a % 16 * 16 + b / 4);
  }

  lemma Shift0(v: int, q: int, a: int, b: int)
    requires v == q * 4096 + a * 64 + b && 0 <= a < 64 && 0 <= b < 64
    ensures v % 0x100 == a % 4 * 64 + b
  {
    assert v == (q * 16 + a / 4) * 0x100 + (a % 4 * 64 + b);
  }

  function Min(a: int, b: int): int { if a < b then a else b }

  // One character: look it up, shift it in, and tell which byte a store would write.
  method Accept(v: uint32, c: byte, pos: nat, ghost before: sextet) returns (ok: bool, v': uint32, stored: byte)
    requires pos < 4 && (pos > 0 ==> v % 64 == before)
    ensures ok == (Value64(c) != -1)
    ensures ok ==> v' % 64 == Value64(c) && (pos > 0 ==> stored == Byte(pos, before, Value64(c)))
  {
    TableRight(c);
    stored := 0;
    if c < 43 || c - 43 >= 80 || Entry(c - 43) == 0xff { return false, v, 0; }
    var m: sextet := Entry(c - 43);
    v' := Wrap32(v * 64 + m);
    Accumulate(v, m);
    if pos != 0 {
      ExtractByte(v', before, m);
      stored := (if pos == 1 then v' / 16 else if pos == 2 then v' / 4 else v') % 0x100;
    }
    ok := true;
  }

  // The output holds the first bytes of `all`, as many as it has room for.
  ghost predicate Stored(out: array<byte>, dst: nat, outLength: nat, all: seq<byte>)
    reads out
  {
    outLength <= out.Length && dst == Min(|all|, outLength) && out[..dst] == all[..dst]
  }

  // *dst++ = b, as far as the output has room; `all` is what was stored or dropped so far.
  method Store(out: array<byte>, dst: nat, outLength: nat, b: byte, ghost all: seq<byte>) returns (dst': nat)
    requires Stored(out, dst, outLength, all)
    modifies out
    ensures Stored(out, dst', outLength, all + [b])
  {
    dst' := dst;
    if dst < outLength {
      out[dst] := b;
      dst' := dst + 1;
    }
  }

  // After i characters: the low bits of the accumulator and the bytes completed.
  ghost predicate Read(body: seq<byte>, i: nat, v: uint32, all: seq<byte>) {
    i <= |body| && Legal64(body[..i]) && (i >= 1 ==> v % 64 == Value64(body[i - 1])) &&
    all == BytesOf(Values(body[..i]), i)
  }

  // nms_base64_decode. The accumulator is a C int whose bits wrap; the shift before a store
  // looks only at its low twelve bits.
  method Base64Decode(out: array<byte>, s: seq<byte>, outLength: nat) returns (n: int)
    requires outLength <= out.Length
    modifies out
    ensures n == -1 <==> !Legal64(Body(s))
    ensures n != -1 ==>
              var all := BytesOf(Values(Body(s)), |Body(s)|);
              n == Min(|all|, outLength) && out[..n] == all[..n]
  {
    ghost var body, all: seq<byte> := Body(s), [];
    var v: uint32 := 0;
    var dst: nat := 0;
    var i: nat := 0;
    while i < |s| && s[i] != EQUALS
      invariant Read(body, i, v, all) && Stored(out, dst, outLength, all)
    {
      assert i < |body| && body[i] == s[i];
      var ok;
      ok, v, dst, all := Consume(out, dst, outLength, v, s[i], i, body, all);
      if !ok { return -1; }
      i := i + 1;
    }
    assert body[..i] == body;
    n := dst;
  }

  // One round of the loop; ok is false for a character outside the alphabet.
  method Consume(out: array<byte>, dst: nat, outLength: nat, v: uint32, c: byte, i: nat, ghost body: seq<byte>,
                 ghost all: seq<byte>)
    returns (ok: bool, v': uint32, dst': nat, ghost all': seq<byte>)
    requires Read(body, i, v, all) && Stored(out, dst, outLength, all) && i < |body| && body[i] == c
    modifies out
    ensures ok == (Value64(c) != -1)
    ensures ok ==> Read(body, i + 1, v', all') && Stored(out, dst', outLength, all')
  {
    var stored;
    ok, v', stored := Accept(v, c, i % 4, if i == 0 then 0 else Value64(body[i - 1]));
    dst', all' := dst, all;
    if !ok { return; }
    NextSextet(body, i);
    if i % 4 != 0 {
      dst' := Store(out, dst, outLength, stored, all);
      all' := all + [stored];
    }
  }

  lemma NextSextet(body: seq<byte>, i: nat)
    requires i < |body| && Legal64(body[..i]) && Value64(body[i]) != -1
    ensures Legal64(body[..i + 1])
    ensures BytesOf(Values(body[..i + 1]), i + 1) ==
            if i % 4 == 0 then BytesOf(Values(body[..i]), i)
            else BytesOf(Values(body[..i]), i) + [Byte(i % 4, Value64(body[i - 1]), Value64(body[i]))]
  {
    assert forall k :: 0 <= k < i ==> body[..i + 1][k] == body[..i][k];
    var a, b := Values(body[..i + 1]), Values(body[..i]);
    assert a[..i] == b;
    BytesOfPrefix(a, b, i);
  }

  lemma {:induction false} BytesOfPrefix(a: seq<sextet>, b: seq<sextet>, n: nat)
    requires n <= |a| && n <= |b| && a[..n] == b[..n]
    ensures BytesOf(a, n) == BytesOf(b, n)
  {
    if n > 0 {
      assert a[..n][..n - 1] == a[..n - 1] && b[..n][..n - 1] == b[..n - 1];
      assert forall k :: 0 <= k < n ==> a[k] == a[..n][k] && b[k] == b[..n][k];
      BytesOfPrefix(a, b, n - 1);
    }
  }

  // ---- the encoder of section 4 of RFC 4648 ----

  // The 6-bit groups of a byte string, the last one filled up with zero bits.
  function Sextets(b: seq<byte>): seq<sextet> {
    if b == [] then []
    else if |b| == 1 then [b[0] / 4, b[0] % 4 * 16]
    else if |b| == 2 then [b[0] / 4, b[0] % 4 * 16 + b[1] / 16, b[1] % 16 * 4]
    else Group(b[0], b[1], b[2]) + Sextets(b[3..])
  }

  // The sextets of three bytes.
  function Group(x: byte, y: byte, z: byte): seq<sextet> {
    [x / 4, x % 4 * 16 + y / 16, y % 16 * 4 + z / 64, z % 64]
  }

  function Chars(v: seq<sextet>): (r: seq<byte>)
    ensures |r| == |v|
  {
    seq(|v|, k requires 0 <= k < |v| => Char64(v[k]))
  }

  function Encode64(b: seq<byte>): seq<byte> {
    Chars(Sextets(b)) + if |b| % 3 == 1 then [EQUALS, EQUALS] else if |b| % 3 == 2 then [EQUALS] else []
  }

  lemma {:induction false} BytesOfAppend(g: seq<sextet>, v: seq<sextet>, n: nat)
    requires |g| == 4 && n <= |v|
    ensures BytesOf(g + v, 4 + n) == BytesOf(g, 4) + BytesOf(v, n)
  {
    if n == 0 {
      BytesOfPrefix(g + v, g, 4);
    } else {
      BytesOfAppend(g, v, n - 1);
      assert (g + v)[4 + n - 1] == v[n - 1];
      assert n >= 2 ==> (g + v)[4 + n - 2] == v[n - 2];
      NextGroup(n - 1);
    }
  }

  lemma NextGroup(n: nat)
    ensures (4 + n) % 4 == n % 4
  {
  }

  lemma FirstGroup(a: byte, b: byte, c: byte)
    ensures BytesOf(Group(a, b, c), 4) == [a, b, c]
  {
    FirstCut(a, b / 16);
    SecondCut(b, a % 4, c / 64);
    ThirdCut(c, b % 16);
    FourSextets(Group(a, b, c), a, b, c);
  }

  // The three places where a byte is cut between two sextets.
  lemma FirstCut(a: byte, after: nat)
    requires after < 16
    ensures Byte(1, a / 4, a % 4 * 16 + after) == a
  {
  }

  lemma SecondCut(b: byte, before: nat, after: nat)
    requires before < 4 && after < 4
    ensures Byte(2, before * 16 + b / 16, b % 16 * 4 + after) == b
  {
    assert (before * 16 + b / 16) % 16 == b / 16;
    assert (b % 16 * 4 + after) / 4 == b % 16;
  }

  lemma ThirdCut(c: byte, before: nat)
    requires before < 16
    ensures Byte(3, before * 4 + c / 64, c % 64) == c
  {
  }

  lemma FourSextets(g: seq<sextet>, a: byte, b: byte, c: byte)
    requires |g| == 4 && Byte(1, g[0], g[1]) == a && Byte(2, g[1], g[2]) == b && Byte(3, g[2], g[3]) == c
    ensures BytesOf(g, 4) == [a, b, c]
  {
    assert BytesOf(g, 1) == [];
    assert BytesOf(g, 2) == [] + [a];
    assert BytesOf(g, 3) == [a] + [b];
  }

  lemma ShortGroup(a: byte, b: byte)
    ensures BytesOf([a / 4, a % 4 * 16], 2) == [a]
    ensures BytesOf([a / 4, a % 4 * 16 + b / 16, b % 16 * 4], 3) == [a, b]
  {
    var g, h: seq<sextet> := [a / 4, a % 4 * 16 + b / 16, b % 16 * 4], [a / 4, a % 4 * 16];
    FirstCut(a, b / 16);
    FirstCut(a, 0);
    SecondCut(b, a % 4, 0);
    assert BytesOf(g, 1) == [] && BytesOf(h, 1) == [];
    assert BytesOf(g, 2) == [] + [a] && BytesOf(h, 2) == [] + [a];
  }

  lemma GroupBefore(x: byte, y: byte, z: byte, rest: seq<sextet>, b: seq<byte>)
    requires BytesOf(rest, |rest|) == b
    ensures BytesOf(Group(x, y, z) + rest, 4 + |rest|) == [x, y, z] + b
  {
    FirstGroup(x, y, z);
    BytesOfAppend(Group(x, y, z), rest, |rest|);
  }

  lemma ShortRoundTrip(b: seq<byte>)
    requires |b| < 3
    ensures BytesOf(Sextets(b), |Sextets(b)|) == b
  {
    if |b| == 1 { ShortGroup(b[0], 0); }
    if |b| == 2 { ShortGroup(b[0], b[1]); }
  }

  lemma {:induction false} SextetsRoundTrip(b: seq<byte>)
    ensures BytesOf(Sextets(b), |Sextets(b)|) == b
  {
    if |b| < 3 {
      ShortRoundTrip(b);
    } else {
      SextetsRoundTrip(b[3..]);
      GroupBefore(b[0], b[1], b[2], Sextets(b[3..]), b[3..]);
      assert b == [b[0], b[1], b[2]] + b[3..];
    }
  }

  lemma CharsAreLegal(v: sextet)
    ensures Char64(v) != EQUALS && Char64(v) != 0 && Value64(Char64(v)) == v
  {
  }

  lemma {:induction false} BodyOfPadded(s: seq<byte>, padding: seq<byte>)
    requires forall k :: 0 <= k < |s| ==> s[k] != EQUALS
    requires padding != [] ==> padding[0] == EQUALS
    ensures Body(s + padding) == s
  {
    if s == [] {
      assert s + padding == padding;
    } else {
      assert (s + padding)[1..] == s[1..] + padding;
      BodyOfPadded(s[1..], padding);
    }
  }

  // Decoding undoes encoding for every byte string: the decoder accepts the encoded text and
  // the bytes it emits are the original ones.
  lemma Base64RoundTrip(b: seq<byte>)
    ensures var body := Body(Encode64(b)); Legal64(body) && BytesOf(Values(body), |body|) == b
  {
    var v := Sextets(b);
    forall k | 0 <= k < |v| ensures Chars(v)[k] != EQUALS && Value64(Chars(v)[k]) == v[k] { CharsAreLegal(v[k]); }
    BodyOfPadded(Chars(v), Encode64(b)[|v|..]);
    assert Encode64(b) == Chars(v) + Encode64(b)[|v|..];
    assert Values(Chars(v)) == v;
    SextetsRoundTrip(b);
  }

  // ---- hexadecimal ----

  function HexValue(c: byte): int {
    if 48 <= c <= 57 then c - 48 else if 97 <= c <= 102 then c - 87 else if 65 <= c <= 70 then c - 55 else -1
  }

  // The digits are 0 to 9, A to F and a to f; their values are those printed; nothing else is one.
  lemma HexValueIff(c: byte)
    ensures HexValue(c) == -1 <==> !(48 <= c <= 57 || 65 <= c <= 70 || 97 <= c <= 102)
    ensures forall v: nat, upper :: v < 16 && c == HexChar(v, upper) ==> HexValue(c) == v
    ensures HexValue(c) != -1 ==> exists upper :: 0 <= HexValue(c) < 16 && HexChar(HexValue(c), upper) == c
  {
    if HexValue(c) != -1 { assert HexChar(HexValue(c), 65 <= c <= 70) == c; }
  }

  predicate LegalHex(s: seq<byte>) { forall k :: 0 <= k < |s| ==> HexValue(s[k]) != -1 }

  // One byte per pair among the first n digits.
  function HexBytes(s: seq<byte>, n: nat): (r: seq<byte>)
    requires n <= |s| && LegalHex(s)
    ensures |r| == n / 2
  {
    if n == 0 then []
    else if n % 2 == 1 then HexBytes(s, n - 1)
    else HexBytes(s, n - 2) + [HexValue(s[n - 2]) * 16 + HexValue(s[n - 1])]
  }

  method HexDigit(c: byte) returns (v: int)
    ensures v == HexValue(c)
  {
    if '0' as int <= c <= '9' as int {
      v := c - '0' as int;
    } else if 'a' as int <= c <= 'f' as int {
      v := c - 'a' as int + 10;
    } else if 'A' as int <= c <= 'F' as int {
      v := c - 'A' as int + 10;
    } else {
      v := -1;
    }
  }

  // nms_hex_decode. After each digit the accumulator keeps that digit only, shifted.
  method HexDecode(out: array<byte>, s: seq<byte>, outLength: nat) returns (n: int)
    requires outLength <= out.Length
    modifies out
    ensures n == -1 <==> !LegalHex(s)
    ensures n != -1 ==> n == Min(|s| / 2, outLength) && out[..n] == HexBytes(s, |s|)[..n]
  {
    ghost var all: seq<byte> := [];
    var c: int := 0;
    var dst: nat := 0;
    var i: nat := 0;
    while i < |s|
      invariant i <= |s| && forall k :: 0 <= k < i ==> HexValue(s[k]) != -1
      invariant c == if i == 0 then 0 else HexValue(s[i - 1]) * 16
      invariant |all| == i / 2
      invariant forall k :: 0 <= k < |all| ==> all[k] == HexValue(s[2 * k]) * 16 + HexValue(s[2 * k + 1])
      invariant dst == Min(|all|, outLength) && out[..dst] == all[..dst]
    {
      var digit := HexDigit(s[i]);
      if digit == -1 { return -1; }
      KeepDigit(if i == 0 then 0 else HexValue(s[i - 1]), digit);
      c := c + digit;
      if i % 2 == 1 {
        dst := Store(out, dst, outLength, c, all);
        all := all + [c];
      }
      c := c * 16 % 0x100;
      i := i + 1;
    }
    HexBytesAt(s, all, |s|);
    n := dst;
  }

  lemma KeepDigit(before: int, digit: int)
    requires 0 <= before < 16 && 0 <= digit < 16
    ensures 0 <= before * 16 + digit < 0x100
    ensures (before * 16 + digit) * 16 % 0x100 == digit * 16
  {
  }

  lemma {:induction false} HexBytesAt(s: seq<byte>, all: seq<byte>, n: nat)
    requires LegalHex(s) && n <= |s| && n / 2 <= |all|
    requires forall k :: 0 <= k < n / 2 ==> all[k] == HexValue(s[2 * k]) * 16 + HexValue(s[2 * k + 1])
    ensures HexBytes(s, n) == all[..n / 2]
  {
    if n > 0 {
      if n % 2 == 1 {
        HexBytesAt(s, all, n - 1);
      } else {
        var h := n / 2 - 1;
        assert n == 2 * h + 2;
        HexBytesAt(s, all, 2 * h);
        assert all[..h + 1] == all[..h] + [all[h]];
      }
    }
  }

  // Two digits per byte, each in either letter case.
  function HexChar(v: nat, upper: bool): byte
    requires v < 16
  {
    if v < 10 then 48 + v else if upper then 55 + v else 87 + v
  }

  function HexPair(x: byte, p: bool, q: bool): (r: seq<byte>)
    ensures |r| == 2
  {
    [HexChar(x / 16, p), HexChar(x % 16, q)]
  }

  function HexPrint(b: seq<byte>, upper: nat -> bool): (r: seq<byte>)
    ensures |r| == 2 * |b|
  {
    if b == [] then []
    else
      var k := |b| - 1;
      HexPrint(b[..k], upper) + HexPair(b[k], upper(2 * k), upper(2 * k + 1))
  }

  lemma {:induction false} HexPrefix(s: seq<byte>, t: seq<byte>, n: nat)
    requires LegalHex(s) && LegalHex(t) && n <= |s| && n <= |t| && s[..n] == t[..n]
    ensures HexBytes(s, n) == HexBytes(t, n)
  {
    if n > 0 {
      assert forall k :: 0 <= k < n ==> s[k] == s[..n][k] && t[k] == t[..n][k];
      if n % 2 == 1 {
        assert s[..n - 1] == t[..n - 1];
        HexPrefix(s, t, n - 1);
      } else {
        assert s[..n - 2] == t[..n - 2];
        HexPrefix(s, t, n - 2);
      }
    }
  }

  lemma HexDigits(v: nat, upper: bool)
    requires v < 16
    ensures HexValue(HexChar(v, upper)) == v
  {
  }

  // Two more digits decode to one more byte.
  lemma HexGrow(s: seq<byte>, b: seq<byte>, high: byte, low: byte)
    requires LegalHex(s) && |s| == 2 * |b| && HexBytes(s, |s|) == b
    requires HexValue(high) != -1 && HexValue(low) != -1
    ensures LegalHex(s + [high, low])
    ensures HexBytes(s + [high, low], |s| + 2) == b + [HexValue(high) * 16 + HexValue(low)]
  {
    var t := s + [high, low];
    assert forall k :: 0 <= k < |t| ==> t[k] == if k < |s| then s[k] else if k == |s| then high else low;
    HexPrefix(t, s, |s|);
  }

  lemma HexLast(s: seq<byte>, b: seq<byte>, x: byte, p: bool, q: bool)
    requires LegalHex(s) && |s| == 2 * |b| && HexBytes(s, |s|) == b
    ensures var t := s + HexPair(x, p, q);
            LegalHex(t) && HexBytes(t, |s| + 2) == b + [x]
  {
    HexDigits(x / 16, p);
    HexDigits(x % 16, q);
    HexGrow(s, b, HexChar(x / 16, p), HexChar(x % 16, q));
  }

  // Decoding undoes printing for every byte string and every choice of letter cases.
  lemma {:induction false} HexRoundTrip(b: seq<byte>, upper: nat -> bool)
    ensures LegalHex(HexPrint(b, upper)) && HexBytes(HexPrint(b, upper), 2 * |b|) == b
  {
    if b != [] {
      var k := |b| - 1;
      HexRoundTrip(b[..k], upper);
      HexLast(HexPrint(b[..k], upper), b[..k], b[k], upper(2 * k), upper(2 * k + 1));
      assert b == b[..k] + [b[k]];
    }
  }
}

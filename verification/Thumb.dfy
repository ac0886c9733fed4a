/** The Thumb-2 BL / B.W pair: a 25-bit signed displacement spread over two halfwords
    (thumb_encode_branch, thumb_decode_branch). Bit fields are read with `/` and `%`. */
module Thumb {
  import opened Bytes

  datatype Pair = Pair(p0: u16, p1: u16)

  const REACH := 0x100_0000

  predicate InRange(disp: int) {
    -REACH <= disp < REACH
  }

  function Bit(b: bool): int {
    if b then 1 else 0
  }

  /** S:I1:I2:imm10:imm11:0, with J = not (I xor S). */
  function Decode(p: Pair): (disp: int)
    ensures InRange(disp) && disp % 2 == 0
  {
    var s := p.p0 / 1024 % 2;
    var i1 := Bit(p.p1 / 8192 % 2 == s);
    var i2 := Bit(p.p1 / 2048 % 2 == s);
    var imm10 := p.p0 % 1024;
    var imm11 := p.p1 % 2048;
    i1 * 0x80_0000 + i2 * 0x40_0000 + imm10 * 0x1000 + imm11 * 2 - s * REACH
  }

  /** Everything in the pair that is not displacement: bits 15..11 of the first halfword, bits
      15, 14 and 12 of the second. */
  function Opcode(p: Pair): (int, int, int) {
    (p.p0 / 2048, p.p1 / 16384, p.p1 / 4096 % 2)
  }

  function Encode(p: Pair, disp: int): (r: Pair)
    requires InRange(disp)
  {
    var s := Bit(disp < 0);
    var j1 := Bit(disp / 0x80_0000 % 2 == s);
    var j2 := Bit(disp / 0x40_0000 % 2 == s);
    var imm10 := disp / 0x1000 % 1024;
    var imm11 := disp / 2 % 2048;
    Pair(p.p0 / 2048 * 2048 + s * 1024 + imm10,
         p.p1 / 16384 * 16384 + p.p1 / 4096 % 2 * 4096 + j1 * 8192 + j2 * 2048 + imm11)
  }

  lemma First(hi: int, s: int, imm10: int)
    requires 0 <= hi && 0 <= s < 2 && 0 <= imm10 < 1024
    ensures var w := hi * 2048 + s * 1024 + imm10; w / 1024 % 2 == s && w % 1024 == imm10 && w / 2048 == hi
  {
    Digits(hi * 2 + s, 1024, imm10);
    Digits(hi, 2048, s * 1024 + imm10);
    Digits(hi, 2, s);
  }

  lemma Second(hi: int, b12: int, j1: int, j2: int, imm11: int)
    requires 0 <= hi && 0 <= b12 < 2 && 0 <= j1 < 2 && 0 <= j2 < 2 && 0 <= imm11 < 2048
    ensures var w := hi * 16384 + b12 * 4096 + j1 * 8192 + j2 * 2048 + imm11;
      w / 8192 % 2 == j1 && w / 2048 % 2 == j2 && w % 2048 == imm11 && w / 16384 == hi && w / 4096 % 2 == b12
  {
    Digits(((hi * 2 + j1) * 2 + b12) * 2 + j2, 2048, imm11);
    Digits((hi * 2 + j1) * 2 + b12, 4096, j2 * 2048 + imm11);
    Digits(hi * 2 + j1, 8192, b12 * 4096 + j2 * 2048 + imm11);
    Digits(hi, 16384, j1 * 8192 + b12 * 4096 + j2 * 2048 + imm11);
    Digits((hi * 2 + j1) * 2 + b12, 2, j2);
    Digits(hi * 2 + j1, 2, b12);
    Digits(hi, 2, j1);
  }

  /** An even displacement in range is its own fields put back together. */
  lemma Fields(disp: int)
    requires InRange(disp) && disp % 2 == 0
    ensures disp == disp / 0x80_0000 % 2 * 0x80_0000 + disp / 0x40_0000 % 2 * 0x40_0000
                    + disp / 0x1000 % 1024 * 0x1000 + disp / 2 % 2048 * 2 - Bit(disp < 0) * REACH
  {
    assert disp / 2 == disp / 0x1000 * 2048 + disp / 2 % 2048;
    assert disp / 0x1000 == disp / 0x40_0000 * 1024 + disp / 0x1000 % 1024;
    assert disp / 0x40_0000 == disp / 0x80_0000 * 2 + disp / 0x40_0000 % 2;
    assert disp / 0x80_0000 == -2 * Bit(disp < 0) + disp / 0x80_0000 % 2;
  }

  /** The branch encoded is the branch decoded, and nothing but the displacement changes. */
  lemma RoundTrip(p: Pair, disp: int)
    requires InRange(disp) && disp % 2 == 0
    ensures Decode(Encode(p, disp)) == disp && Opcode(Encode(p, disp)) == Opcode(p)
  {
    var s := Bit(disp < 0);
    First(p.p0 / 2048, s, disp / 0x1000 % 1024);
    Second(p.p1 / 16384, p.p1 / 4096 % 2, Bit(disp / 0x80_0000 % 2 == s), Bit(disp / 0x40_0000 % 2 == s),
      disp / 2 % 2048);
    Fields(disp);
  }

  /** The two halfwords as they lie in memory. */
  function PairAt(s: seq<byte>, at: nat): Pair
    requires at + 4 <= |s|
  {
    Pair(Rd16(s, at), Rd16(s, at + 2))
  }

  function PairBytes(p: Pair): (s: seq<byte>)
    ensures |s| == 4
  {
    Le16(p.p0) + Le16(p.p1)
  }

  lemma PairReadBack(p: Pair, s: seq<byte>, at: nat)
    requires at + 4 <= |s| && s[at..at + 4] == PairBytes(p)
    ensures PairAt(s, at) == p
  {
    var t := s[at..at + 4];
    assert s[at] == t[0] && s[at + 1] == t[1] && s[at + 2] == t[2] && s[at + 3] == t[3];
  }
}

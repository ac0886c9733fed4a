/** The reflected CRC-32 that guards a flash slot (pkgslot_crc32). */
module Crc32 {
  import opened Bytes

  const POLY: bv32 := 0xEDB8_8320

  /** A byte as the integer promotion has it, one hexadecimal digit at a time. */
  function Wide(b: byte): bv32 {
    (Nibble(b / 16) << 4) | Nibble(b % 16)
  }

  function Nibble(d: nat): bv32
    requires d < 16
  {
    if d < 4 then (if d == 0 then 0 else if d == 1 then 1 else if d == 2 then 2 else 3)
    else if d < 8 then (if d == 4 then 4 else if d == 5 then 5 else if d == 6 then 6 else 7)
    else if d < 12 then (if d == 8 then 8 else if d == 9 then 9 else if d == 10 then 10 else 11)
    else if d == 12 then 12 else if d == 13 then 13 else if d == 14 then 14 else 15
  }

  function Mix(c: bv32, b: byte): bv32 {
    c ^ Wide(b)
  }

  function Bit(c: bv32): bv32 {
    if c & 1 == 1 then (c >> 1) ^ POLY else c >> 1
  }

  function Bits(c: bv32, n: nat): bv32 {
    if n == 0 then c else Bit(Bits(c, n - 1))
  }

  function Step(c: bv32, b: byte): bv32 {
    Bits(Mix(c, b), 8)
  }

  function Fold(c: bv32, data: seq<byte>): bv32 {
    if data == [] then c else Step(Fold(c, data[..|data| - 1]), data[|data| - 1])
  }

  function Flip(c: bv32): bv32 {
    !c
  }

  /** The CRC of `data` continued from `crc`; a fresh one starts from zero. */
  function Update(crc: bv32, data: seq<byte>): bv32 {
    Flip(Fold(Flip(crc), data))
  }

  /** The CRC of a whole buffer, as the 32-bit number a record stores. */
  function Of(data: seq<byte>): u32 {
    Update(0, data) as int
  }

  lemma {:induction false} FoldSplits(c: bv32, a: seq<byte>, b: seq<byte>)
    ensures Fold(c, a + b) == Fold(Fold(c, a), b)
    decreases |b|
  {
    hide Step;
    if b == [] {
      assert a + b == a;
    } else {
      var b' := b[..|b| - 1];
      assert (a + b)[..|a + b| - 1] == a + b';
      FoldSplits(c, a, b');
    }
  }

  lemma FlipTwice(c: bv32)
    ensures Flip(Flip(c)) == c
  {
  }

  lemma Nothing()
    ensures Update(0, []) == 0
  {
  }

  /** A CRC taken piece by piece is the CRC of the whole. */
  lemma {:induction false} UpdateSplits(crc: bv32, a: seq<byte>, b: seq<byte>)
    ensures Update(crc, a + b) == Update(Update(crc, a), b)
  {
    hide Fold, Flip;
    FoldSplits(Flip(crc), a, b);
    FlipTwice(Fold(Flip(crc), a));
  }

  /** The mask trick `POLY & -(crc & 1)` is the conditional xor. */
  lemma MaskedStep(c: bv32)
    ensures (c >> 1) ^ (POLY & (0 - (c & 1))) == Bit(c)
  {
    assert c & 1 == 0 || c & 1 == 1;
  }

  method StepByte(c: bv32, b: byte) returns (crc: bv32)
    ensures crc == Step(c, b)
  {
    crc := c ^ Wide(b);
    for k := 0 to 8
      invariant crc == Bits(c ^ Wide(b), k)
    {
      hide Bit;
      MaskedStep(crc);
      crc := (crc >> 1) ^ (POLY & (0 - (crc & 1)));
    }
  }

  method Compute(crc0: bv32, data: seq<byte>) returns (crc: bv32)
    ensures crc == Update(crc0, data)
  {
    hide Step, Flip;
    crc := Flip(crc0);
    for i := 0 to |data|
      invariant crc == Fold(Flip(crc0), data[..i])
    {
      assert data[..i + 1][..i] == data[..i];
      crc := StepByte(crc, data[i]);
    }
    assert data[..|data|] == data;
    crc := Flip(crc);
  }

  // ----- which CRC this is

  /** Term `k` of the polynomial, in reflected bit order. */
  function Term(k: nat): bv32
    requires k < 32
  {
    1 << (31 - k)
  }

  /** The generator of ISO 3309 (x^32 left out, as usual). */
  lemma Generator()
    ensures POLY == Term(26) | Term(23) | Term(22) | Term(16) | Term(12) | Term(11) | Term(10) | Term(8) | Term(7)
      | Term(5) | Term(4) | Term(2) | Term(1) | Term(0)
  {
  }

  /** Its published check value, that of the nine digits. */
  lemma CheckValue()
    ensures Of([0x31, 0x32, 0x33, 0x34, 0x35, 0x36, 0x37, 0x38, 0x39]) == 0xCBF4_3926
  {
    hide Step, Flip, Fold;
    FoldSplits(0xFFFF_FFFF, [0x31, 0x32, 0x33, 0x34, 0x35], [0x36, 0x37, 0x38, 0x39]);
    FoldFive();
    FoldFour();
    Flipped();
    assert [0x31, 0x32, 0x33, 0x34, 0x35] + [0x36, 0x37, 0x38, 0x39]
      == [0x31, 0x32, 0x33, 0x34, 0x35, 0x36, 0x37, 0x38, 0x39];
  }

  lemma FoldFive()
    ensures Fold(0xFFFF_FFFF, [0x31, 0x32, 0x33, 0x34, 0x35]) == 0x340A_C5E3
  {
    hide Step, Fold;
    FirstFive();
    Front(0xFFFF_FFFF, 0x31, [0x32, 0x33, 0x34, 0x35]);
    assert [0x31] + [0x32, 0x33, 0x34, 0x35] == [0x31, 0x32, 0x33, 0x34, 0x35];
    Front(0x7C23_1048, 0x32, [0x33, 0x34, 0x35]);
    assert [0x32] + [0x33, 0x34, 0x35] == [0x32, 0x33, 0x34, 0x35];
    Front(0xB0AC_BB32, 0x33, [0x34, 0x35]);
    assert [0x33] + [0x34, 0x35] == [0x33, 0x34, 0x35];
    Front(0x77B7_9C2D, 0x34, [0x35]);
    assert [0x34] + [0x35] == [0x34, 0x35];
    Front(0x641C_1F5C, 0x35, []);
    assert [0x35] + [] == [0x35];
  }

  lemma FoldFour()
    ensures Fold(0x340A_C5E3, [0x36, 0x37, 0x38, 0x39]) == 0x340B_C6D9
  {
    hide Step, Fold;
    LastFour();
    Front(0x340A_C5E3, 0x36, [0x37, 0x38, 0x39]);
    assert [0x36] + [0x37, 0x38, 0x39] == [0x36, 0x37, 0x38, 0x39];
    Front(0xF68D_2C9E, 0x37, [0x38, 0x39]);
    assert [0x37] + [0x38, 0x39] == [0x37, 0x38, 0x39];
    Front(0xAFFC_9660, 0x38, [0x39]);
    assert [0x38] + [0x39] == [0x38, 0x39];
    Front(0x651F_2550, 0x39, []);
    assert [0x39] + [] == [0x39];
  }

  lemma Front(c: bv32, b: byte, rest: seq<byte>)
    ensures Fold(c, [b] + rest) == if rest == [] then Step(c, b) else Fold(Step(c, b), rest)
  {
    hide Step;
    FoldSplits(c, [b], rest);
    assert Fold(c, [b]) == Step(Fold(c, []), b);
  }

  lemma Flipped()
    ensures Flip(0) == 0xFFFF_FFFF && Flip(0x340B_C6D9) as int == 0xCBF4_3926
  {
  }

  lemma FirstFive()
    ensures Step(0xFFFF_FFFF, 0x31) == 0x7C23_1048
    ensures Step(0x7C23_1048, 0x32) == 0xB0AC_BB32
    ensures Step(0xB0AC_BB32, 0x33) == 0x77B7_9C2D
    ensures Step(0x77B7_9C2D, 0x34) == 0x641C_1F5C
    ensures Step(0x641C_1F5C, 0x35) == 0x340A_C5E3
  {
  }

  lemma LastFour()
    ensures Step(0x340A_C5E3, 0x36) == 0xF68D_2C9E
    ensures Step(0xF68D_2C9E, 0x37) == 0xAFFC_9660
    ensures Step(0xAFFC_9660, 0x38) == 0x651F_2550
    ensures Step(0x651F_2550, 0x39) == 0x340B_C6D9
  {
  }

  // ----- a changed byte is noticed

  lemma BitOneToOne(c: bv32, d: bv32)
    ensures Bit(c) == Bit(d) ==> c == d
  {
  }

  lemma {:induction false} BitsOneToOne(c: bv32, d: bv32, n: nat)
    ensures Bits(c, n) == Bits(d, n) ==> c == d
  {
    hide Bit;
    if n > 0 {
      BitsOneToOne(c, d, n - 1);
      BitOneToOne(Bits(c, n - 1), Bits(d, n - 1));
    }
  }

  lemma WideOneToOne(a: byte, b: byte)
    ensures Wide(a) == Wide(b) ==> a == b
  {
    NibbleOneToOne(a / 16, b / 16);
    NibbleOneToOne(a % 16, b % 16);
    hide Nibble;
    Paired(Nibble(a / 16), Nibble(a % 16), Nibble(b / 16), Nibble(b % 16));
  }

  lemma NibbleOneToOne(i: nat, j: nat)
    requires i < 16 && j < 16
    ensures Nibble(i) < 16 && Nibble(j) < 16 && (Nibble(i) == Nibble(j) ==> i == j)
  {
  }

  lemma Paired(x: bv32, y: bv32, u: bv32, v: bv32)
    requires x < 16 && y < 16 && u < 16 && v < 16
    ensures (x << 4) | y == (u << 4) | v ==> x == u && y == v
  {
  }

  /** One step is one-to-one in the register and in the byte. */
  lemma StepOneToOne(c: bv32, a: byte, d: bv32, b: byte)
    ensures a == b && Step(c, a) == Step(d, b) ==> c == d
    ensures c == d && Step(c, a) == Step(d, b) ==> a == b
  {
    hide Bits, Wide, Mix;
    BitsOneToOne(Mix(c, a), Mix(d, b), 8);
    MixOneToOne(c, a, d, b);
  }

  lemma MixOneToOne(c: bv32, a: byte, d: bv32, b: byte)
    ensures a == b && Mix(c, a) == Mix(d, b) ==> c == d
    ensures c == d && Mix(c, a) == Mix(d, b) ==> a == b
  {
    hide Wide;
    WideOneToOne(a, b);
    XorOneToOne(c, Wide(a), Wide(b));
    XorOneToOne(Wide(a), c, d);
  }

  lemma XorOneToOne(c: bv32, x: bv32, y: bv32)
    ensures c ^ x == c ^ y ==> x == y
    ensures x ^ c == y ^ c ==> x == y
  {
  }

  lemma {:induction false} FoldOneToOne(c: bv32, d: bv32, data: seq<byte>)
    ensures Fold(c, data) == Fold(d, data) ==> c == d
  {
    hide Step;
    if data != [] {
      var init, b := data[..|data| - 1], data[|data| - 1];
      FoldOneToOne(c, d, init);
      StepOneToOne(Fold(c, init), b, Fold(d, init), b);
    }
  }

  /** Two buffers that differ in one byte have different CRCs. */
  lemma OneByteShows(data: seq<byte>, i: nat, b: byte)
    requires i < |data| && data[i] != b
    ensures Of(data[i := b]) != Of(data)
  {
    hide Fold, Step, Flip;
    var x, y := data[..i] + [data[i]], data[..i] + [b];
    var rest := data[i + 1..];
    assert data == x + rest && data[i := b] == y + rest;
    FoldSplits(Flip(0), x, rest);
    FoldSplits(Flip(0), y, rest);
    OneMore(Flip(0), data[..i], data[i]);
    OneMore(Flip(0), data[..i], b);
    StepOneToOne(Fold(Flip(0), data[..i]), data[i], Fold(Flip(0), data[..i]), b);
    FoldOneToOne(Fold(Flip(0), x), Fold(Flip(0), y), rest);
    FlipTwice(Fold(Flip(0), data));
    FlipTwice(Fold(Flip(0), data[i := b]));
    IntOneToOne(Update(0, data), Update(0, data[i := b]));
  }

  lemma OneMore(c: bv32, a: seq<byte>, b: byte)
    ensures Fold(c, a + [b]) == Step(Fold(c, a), b)
  {
    assert (a + [b])[..|a|] == a;
  }

  lemma IntOneToOne(a: bv32, b: bv32)
    ensures a as int == b as int ==> a == b
  {
    IntBack(a);
    IntBack(b);
  }

  lemma IntBack(a: bv32)
    ensures (a as int) as bv32 == a
  {
  }
}

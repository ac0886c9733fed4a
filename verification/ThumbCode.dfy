/** Reading Thumb code back: the few instructions a firmware veneer is made of, decoded from their encodings
    in the "Armv7-M Architecture Reference Manual", A7.7 (LDR literal T2, SVC T1, B T2, BKPT T1). */
module ThumbCode {
  import opened Bytes
  import opened PicLayout

  datatype Instr =
    | LoadWord(reg: nat, at: int)
    | Supervisor(imm: nat)
    | Jump(to: int)
    | Break(imm: nat)
    | Other

  /** 11111000 U1011111, Rt imm12: the word imm12 past (U) or before the four-aligned PC. */
  function LoadLiteral(h0: u16, h1: u16, v: int): Instr {
    var pc, imm12 := v + 4, h1 % 4096;
    var base := pc - pc % 4;
    if h0 / 256 != 0xF8 || h0 % 128 != 0x5F then Other
    else LoadWord(h1 / 4096, if h0 / 128 % 2 == 1 then base + imm12 else base - imm12)
  }

  /** The instruction at `code[i..]`, which is at address `v`. */
  function InstrAt(code: seq<byte>, i: nat, v: int): Instr
    requires i + 4 <= |code|
  {
    var h := Rd16(code, i);
    if h / 2048 in {0x1D, 0x1E, 0x1F} then LoadLiteral(h, Rd16(code, i + 2), v)
    else if h / 256 == 0xDF then Supervisor(h % 256)
    else if h / 256 == 0xBE then Break(h % 256)
    else if h / 2048 == 0x1C then Jump(v + 4 + 2 * if h % 2048 < 1024 then h % 2048 else h % 2048 - 2048)
    else Other
  }

  /** The code at `code[i..]`, run at address `v`, loads export index `ix` into r12 and makes supervisor call 0;
      should that return it goes no further. */
  ghost predicate Calls(code: seq<byte>, i: nat, v: int, ix: nat) {
    && i + VENEER <= |code|
    && (exists a :: InstrAt(code, i, v) == LoadWord(12, a) && LoadsFrom(code, i + (a - v), ix))
    && InstrAt(code, i + 4, v + 4) == Supervisor(0)
    && InstrAt(code, i + 6, v + 6) == Jump(v + 6)
    && InstrAt(code, i + 8, v + 8) == Break(0)
  }

  predicate LoadsFrom(code: seq<byte>, j: int, ix: nat) {
    0 <= j && j + 4 <= |code| && Rd32(code, j) == ix
  }

  /** A veneer at any four-aligned address does. */
  lemma VeneerCalls(code: seq<byte>, i: nat, v: nat, ix: u32)
    requires At(code, i, VeneerBytes(ix)) && v % 4 == 0
    ensures Calls(code, i, v, ix)
  {
    VeneerHalves(code, i, ix);
    assert InstrAt(code, i, v) == LoadWord(12, v + 12);
  }

  lemma VeneerHalves(code: seq<byte>, i: nat, ix: u32)
    requires At(code, i, VeneerBytes(ix))
    ensures i + VENEER <= |code| && Rd16(code, i) == 0xF8DF && Rd16(code, i + 2) == 0xC008
    ensures Rd16(code, i + 4) == 0xDF00 && Rd16(code, i + 6) == 0xE7FE && Rd16(code, i + 8) == 0xBE00
    ensures Rd32(code, i + 12) == ix
  {
    hide Le32, Rd32;
    var b := VeneerBytes(ix);
    assert forall k :: 0 <= k < 16 ==> code[i + k] == code[i..i + 16][k] == b[k];
    assert b[12..16] == Le32(ix);
    SubSlice(code, i, 16, 12, 4);
    ReadBack32(ix, code, i + 12);
  }
}

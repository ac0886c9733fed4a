/** What app_load's relocations mean once they are all applied, in terms of addresses: where a branch lands, what
    a pointer points at, what a pair of moves puts in a register. */
module AppMeaning {
  import opened Bytes
  import opened Elf
  import opened ElfLayout
  import opened PicLayout
  import opened PicTables
  import opened AppLayout
  import opened AppLoad
  import Thumb
  import PicSites
  import ThumbCode

  // ----- the two move instructions, read back

  /** imm4:i:imm3:imm8, the sixteen bits MOVW and MOVT hold. */
  function Imm16(p: Thumb.Pair): int {
    p.p0 % 16 * 0x1000 + p.p0 / 0x400 % 2 * 0x800 + p.p1 / 0x1000 % 8 * 0x100 + p.p1 % 0x100
  }

  /** All the other bits: operation, and destination register. */
  function MovRest(p: Thumb.Pair): (int, int, int, int) {
    (p.p0 / 0x800, p.p0 / 16 % 64, p.p1 / 0x8000, p.p1 / 0x100 % 16)
  }

  lemma MovHolds(p: Thumb.Pair, v: u16)
    ensures Imm16(MovPair(p, v)) == v && MovRest(MovPair(p, v)) == MovRest(p)
  {
    hide Imm16, MovRest;
    MovFields(p, v);
    Sixteen(v);
  }

  lemma MovFields(p: Thumb.Pair, v: u16)
    ensures Imm16(MovPair(p, v)) == v / 4096 * 0x1000 + v / 2048 % 2 * 0x800 + v / 256 % 8 * 0x100 + v % 256
    ensures MovRest(MovPair(p, v)) == MovRest(p)
  {
    var hi0, i, mid, imm4 := p.p0 / 2048, v / 2048 % 2, p.p0 % 1024 / 16, v / 4096;
    var hi1, imm3, rd, imm8 := p.p1 / 32768, v / 256 % 8, p.p1 / 256 % 16, v % 256;
    FirstHalf(hi0, i, mid, imm4);
    SecondHalf(hi1, imm3, rd, imm8);
    MiddleBits(p.p0);
    ByFields(p, MovPair(p, v), hi0, i, mid, imm4, hi1, imm3, rd, imm8);
  }

  lemma ByFields(p: Thumb.Pair, m: Thumb.Pair, hi0: int, i: int, mid: int, imm4: int, hi1: int, imm3: int, rd: int,
    imm8: int)
    requires m.p0 % 16 == imm4 && m.p0 / 0x400 % 2 == i && m.p0 / 0x800 == hi0 && m.p0 / 16 % 64 == mid
    requires m.p1 % 0x100 == imm8 && m.p1 / 0x1000 % 8 == imm3 && m.p1 / 0x8000 == hi1 && m.p1 / 0x100 % 16 == rd
    requires p.p0 / 2048 == hi0 && p.p0 / 16 % 64 == mid && p.p1 / 32768 == hi1 && p.p1 / 256 % 16 == rd
    ensures Imm16(m) == imm4 * 0x1000 + i * 0x800 + imm3 * 0x100 + imm8 && MovRest(m) == MovRest(p)
  {
  }

  lemma FirstHalf(hi: int, i: int, mid: int, imm4: int)
    requires 0 <= hi && 0 <= i < 2 && 0 <= mid < 64 && 0 <= imm4 < 16
    ensures var w := hi * 2048 + i * 1024 + mid * 16 + imm4;
      w % 16 == imm4 && w / 0x400 % 2 == i && w / 0x800 == hi && w / 16 % 64 == mid
  {
    Digits((hi * 2 + i) * 64 + mid, 16, imm4);
    Digits(hi * 2 + i, 64, mid);
    Digits(hi * 2 + i, 1024, mid * 16 + imm4);
    Digits(hi, 2, i);
    Digits(hi, 2048, i * 1024 + mid * 16 + imm4);
  }

  lemma SecondHalf(hi: int, imm3: int, rd: int, imm8: int)
    requires 0 <= hi && 0 <= imm3 < 8 && 0 <= rd < 16 && 0 <= imm8 < 256
    ensures var w := hi * 32768 + imm3 * 4096 + rd * 256 + imm8;
      w % 0x100 == imm8 && w / 0x1000 % 8 == imm3 && w / 0x8000 == hi && w / 0x100 % 16 == rd
  {
    Digits((hi * 8 + imm3) * 16 + rd, 256, imm8);
    Digits(hi * 8 + imm3, 16, rd);
    Digits(hi * 8 + imm3, 4096, rd * 256 + imm8);
    Digits(hi, 8, imm3);
    Digits(hi, 32768, imm3 * 4096 + rd * 256 + imm8);
  }

  lemma MiddleBits(x: u16)
    ensures x % 1024 / 16 == x / 16 % 64
  {
  }

  lemma Sixteen(v: u16)
    ensures v / 4096 * 0x1000 + v / 2048 % 2 * 0x800 + v / 256 % 8 * 0x100 + v % 256 == v
  {
  }

  // ----- what a relocation means

  /** A relocation of type `kind` at `P`, against a symbol at `S`, has made `now` of the file's bytes. The types by
      their numbers in "ELF for the Arm Architecture": THM_CALL 10, THM_JUMP24 30, ABS32 2, TARGET1 38, REL32 3,
      PREL31 42, ABS16 16, ABS8 17, THM_MOVW_ABS_NC 47, THM_MOVT_ABS 48. */
  ghost predicate Means(kind: byte, file: seq<byte>, now: seq<byte>, S: u32, P: u32, isFunc: bool) {
    && |file| == |now| == (if kind == 17 then 1 else if kind == 16 then 2 else 4)
    && (kind == 10 || kind == 30 ==> BranchTo(Thumb.PairAt(file, 0), Thumb.PairAt(now, 0), S, P))
    && (kind == 2 || kind == 38 ==> Rd32(now, 0) == (S + Rd32(file, 0)) % W32)
    && (kind == 3 ==> (Rd32(now, 0) + P) % W32 == (S + Rd32(file, 0)) % W32)
    && (kind == 42 ==> Relative31(Rd32(file, 0), Rd32(now, 0), S, P))
    && (kind == 16 ==> Rd16(now, 0) == (S + Rd16(file, 0)) % 0x1_0000)
    && (kind == 17 ==> now[0] == (S + file[0]) % 0x100)
    && (kind == 47 ==> Moves(Thumb.PairAt(file, 0), Thumb.PairAt(now, 0), Pointed(S, isFunc) % 0x1_0000))
    && (kind == 48 ==> Moves(Thumb.PairAt(file, 0), Thumb.PairAt(now, 0), Pointed(S, isFunc) / 0x1_0000))
  }

  /** Type 0 does nothing, 26 is the GOT load; those and the ones above are what is taken, where the site is inside
      its section (on an even offset for 10, 16, 30, 47 and 48) and the symbol resolves. */
  lemma Types(o: Object, names: seq<seq<byte>>, i: nat, q: nat)
    requires i < |o.sections| && o.sections[i].info < |o.sections| && q < |o.sections[i].rels|
    ensures var rel := o.sections[i].rels[q];
      && (rel.kind == GOT_BREL <==> rel.kind == 26)
      && (Taken(o, names, i, q) <==>
            || rel.kind == 0
            || (rel.kind in {2, 3, 10, 16, 17, 26, 30, 38, 42, 47, 48} && TargetOf(o, names, rel.sym).Good?
                && (rel.kind in {10, 16, 30, 47, 48} ==> rel.offset % 2 == 0)
                && rel.offset + (if rel.kind == 17 then 1 else if rel.kind == 16 then 2 else 4)
                   <= o.sections[o.sections[i].info].size))
  {
    hide TargetOf;
  }

  predicate IsFirst(names: seq<seq<byte>>, name: seq<byte>, ix: nat) {
    ix < |names| && names[ix] == name && name !in names[..ix]
  }

  /** What a symbol names: section 0 is the firmware's, 0xFFF1 a number, any other a place in that section. */
  lemma SymbolNames(o: Object, names: seq<seq<byte>>, idx: nat)
    requires idx < |o.syms|
    ensures var s, t := o.syms[idx], TargetOf(o, names, idx);
      && (s.shndx == 0 && s.name in names ==> t.Good? && t.value.Firmware? && IsFirst(names, s.name, t.value.index))
      && (s.shndx == 0 && s.name !in names ==> t == Bad(ErrUndefSymbol))
      && (s.shndx == 0xFFF1 ==> t == Good(Absolute(s.value)))
      && (s.shndx != 0 && s.shndx != 0xFFF1 ==>
            t == if s.shndx < |o.sections| && o.sections[s.shndx].alloc && o.sections[s.shndx].size != 0
                 then Good(Within(s.shndx, s.value)) else Bad(ErrUndefSymbol))
  {
  }

  /** The branch lands where the file's addend, the pipeline's four bytes put back, says from the symbol. */
  predicate BranchTo(was: Thumb.Pair, now: Thumb.Pair, S: u32, P: u32) {
    && Thumb.Opcode(now) == Thumb.Opcode(was)
    && (P + 4 + Thumb.Decode(now)) % W32 == (S / 2 * 2 + Thumb.Decode(was) + 4) % W32
  }

  /** Only the low 31 bits are the difference; the top bit stays. */
  predicate Relative31(was: u32, now: u32, S: u32, P: u32) {
    && now / 0x8000_0000 == was / 0x8000_0000
    && (now + P) % 0x8000_0000 == (S + was) % 0x8000_0000
  }

  predicate Moves(was: Thumb.Pair, now: Thumb.Pair, half: int) {
    Imm16(now) == half && MovRest(now) == MovRest(was)
  }

  /** The symbol's address, with the Thumb bit exactly if it is code. */
  function Pointed(S: u32, isFunc: bool): u32 {
    S / 2 * 2 + if isFunc then 1 else 0
  }

  lemma NewBytesMean(kind: byte, file: seq<byte>, S: u32, P: u32, isFunc: bool, now: seq<byte>)
    requires |file| == PatchWidth(kind) && NewBytes(kind, file, S, P, isFunc) == Good(now)
      && (IsBranch(kind) ==> P % 2 == 0)
    ensures Means(kind, file, now, S, P, isFunc)
  {
    hide Means, BranchTo, Relative31, Moves, Rd32, Rd16, Le32, Le16, Thumb.PairAt, Thumb.PairBytes, Thumb.Encode,
      Thumb.Decode;
    hide MovPair, Imm16, MovRest, NewBytes;
    if IsBranch(kind) {
      BranchMade(kind, file, S, P, isFunc, now);
    } else if kind == THM_MOVW_ABS_NC || kind == THM_MOVT_ABS {
      MoveMade(kind, file, S, P, isFunc, now);
    } else if kind == PREL31 {
      PrelMade(file, S, P, isFunc, now);
    } else {
      WordMade(kind, file, S, P, isFunc, now);
    }
  }

  lemma BranchMade(kind: byte, file: seq<byte>, S: u32, P: u32, isFunc: bool, now: seq<byte>)
    requires IsBranch(kind) && |file| == PatchWidth(kind) && NewBytes(kind, file, S, P, isFunc) == Good(now)
      && P % 2 == 0
    ensures Means(kind, file, now, S, P, isFunc)
  {
    hide Thumb.Encode, Thumb.Decode, Thumb.PairBytes, Thumb.PairAt, Thumb.Opcode, PicSites.Signed, Rd32, Rd16, Le32,
      Le16;
    var was := Thumb.PairAt(file, 0);
    var A := Thumb.Decode(was);
    var x := S / 2 * 2 + A + 4 - (P + 4);
    var disp := PicSites.Signed(x % W32);
    EvenSigned(x);
    Thumb.RoundTrip(was, disp);
    assert now[0..4] == now;
    Thumb.PairReadBack(Thumb.Encode(was, disp), now, 0);
    SignedBack(P + 4, x);
  }

  lemma EvenSigned(x: int)
    requires x % 2 == 0
    ensures PicSites.Signed(x % W32) % 2 == 0
  {
    var h, q := x / 2, x / W32;
    assert x % W32 == 2 * (h - 0x8000_0000 * q);
    assert PicSites.Signed(x % W32) == x % W32 || PicSites.Signed(x % W32) == 2 * (h - 0x8000_0000 * q - 0x8000_0000);
  }

  lemma SignedBack(p: int, x: int)
    ensures (p + PicSites.Signed(x % W32)) % W32 == (p + x) % W32
  {
    var k := x / W32;
    assert PicSites.Signed(x % W32) == x - W32 * k || PicSites.Signed(x % W32) == x - W32 * (k + 1);
  }

  lemma MoveMade(kind: byte, file: seq<byte>, S: u32, P: u32, isFunc: bool, now: seq<byte>)
    requires kind == THM_MOVW_ABS_NC || kind == THM_MOVT_ABS
    requires |file| == PatchWidth(kind) && NewBytes(kind, file, S, P, isFunc) == Good(now)
    ensures Means(kind, file, now, S, P, isFunc)
  {
    hide Thumb.PairBytes, Thumb.PairAt, MovPair, Imm16, MovRest, Rd32, Rd16, Le32, Le16;
    var was, val := Thumb.PairAt(file, 0), Pointed(S, isFunc);
    var half := (if kind == THM_MOVT_ABS then val / 0x1_0000 else val) % 0x1_0000;
    MovHolds(was, half);
    assert now[0..4] == now;
    Thumb.PairReadBack(MovPair(was, half), now, 0);
  }

  lemma PrelMade(file: seq<byte>, S: u32, P: u32, isFunc: bool, now: seq<byte>)
    requires |file| == 4 && NewBytes(PREL31, file, S, P, isFunc) == Good(now)
    ensures Means(PREL31, file, now, S, P, isFunc)
  {
    hide Rd32, Le32, Rd16, Le16;
    var w := Rd32(file, 0);
    var low := w % 0x8000_0000;
    var a := if low < 0x4000_0000 then low else low - 0x8000_0000;
    var v := w / 0x8000_0000 * 0x8000_0000 + (S + a - P) % W32 % 0x8000_0000;
    assert now[0..4] == now;
    ReadBack32(v, now, 0);
    Prel(w, S, P, v);
  }

  lemma Prel(w: u32, S: u32, P: u32, v: u32)
    requires var low := w % 0x8000_0000;
      var a := if low < 0x4000_0000 then low else low - 0x8000_0000;
      v == w / 0x8000_0000 * 0x8000_0000 + (S + a - P) % W32 % 0x8000_0000
    ensures Relative31(w, v, S, P)
  {
    var low, q := w % 0x8000_0000, w / 0x8000_0000;
    var a := if low < 0x4000_0000 then low else low - 0x8000_0000;
    var t := (S + a - P) % W32 % 0x8000_0000;
    Digits(q, 0x8000_0000, t);
    Half31(S + a - P);
    Congruent(v + P, S + a, q + (t - (S + a - P)) / 0x8000_0000);
    Congruent(S + w, S + a, q + if low < 0x4000_0000 then 0 else 1);
  }

  lemma Half31(x: int)
    ensures x % W32 % 0x8000_0000 == x % 0x8000_0000
    ensures x % 0x8000_0000 == x + 0x8000_0000 * ((x % 0x8000_0000 - x) / 0x8000_0000)
  {
    var q, r := x / W32, x % W32;
    IntDigits(2 * q + r / 0x8000_0000, 0x8000_0000, r % 0x8000_0000);
    IntDigits(-(x / 0x8000_0000), 0x8000_0000, 0);
  }

  lemma IntDigits(q: int, b: nat, r: nat)
    requires r < b
    ensures (b * q + r) / b == q && (b * q + r) % b == r
  {
    var x := b * q + r;
    var e := q - x / b;
    assert b * e == x % b - r;
    Tiny(e, b);
  }

  lemma Congruent(x: int, y: int, k: int)
    requires x == y + 0x8000_0000 * k
    ensures x % 0x8000_0000 == y % 0x8000_0000
  {
  }

  lemma WordMade(kind: byte, file: seq<byte>, S: u32, P: u32, isFunc: bool, now: seq<byte>)
    requires !IsBranch(kind) && kind != THM_MOVW_ABS_NC && kind != THM_MOVT_ABS && kind != PREL31
    requires |file| == PatchWidth(kind) && NewBytes(kind, file, S, P, isFunc) == Good(now)
    ensures Means(kind, file, now, S, P, isFunc)
  {
    hide Rd32, Rd16, Le32, Le16, BranchTo, Moves, Relative31;
    if kind == ABS8 {
    } else if kind == ABS16 {
      assert now[0..2] == now;
      ReadBack16((Rd16(file, 0) + S) % 0x1_0000, now, 0);
    } else {
      assert now[0..4] == now;
      var v := if kind == REL32 then (Rd32(file, 0) + S - P) % W32 else (Rd32(file, 0) + S) % W32;
      ReadBack32(v, now, 0);
      PlusBack(Rd32(file, 0) + S, P);
    }
  }

  lemma PlusBack(x: int, p: int)
    ensures ((x - p) % W32 + p) % W32 == x % W32
  {
  }

  // ----- a package that loaded

  /** Once loaded, relocation `r` of section `i` means what its type says, from the address its symbol has. */
  ghost predicate Landed(img: Image, i: nat, r: nat, now: seq<byte>)
    requires img.o.Read() && Active(img.o, i, r)
    reads img
  {
    var rel, t := img.o.sections[i].rels[r], img.o.sections[i].info;
    && rel.sym in img.addrOf && AddressIs(img.o, img.names, img.pool, img.Bases(), rel.sym, img.addrOf[rel.sym])
    && if rel.kind == GOT_BREL then
         |now| == 4 && Rd32(InFile(img.o, i, r), 0) == 0 && GotWord(img, Rd32(now, 0), img.addrOf[rel.sym])
       else
         Means(rel.kind, InFile(img.o, i, r), now, img.addrOf[rel.sym],
           (SecAddr(img.o, img.Bases(), t) + rel.offset) % W32,
               IsFunc(img.o, rel.sym))
  }

  /** Word `off` of the GOT holds `a`: one of the words in use. */
  ghost predicate GotWord(img: Image, off: u32, a: u32)
    reads img
  {
    off % 4 == 0 && off / 4 < |img.got| && img.got[off / 4] == a
  }

  /** That word is in memory. */
  lemma GotWordThere(img: Image, off: u32, a: u32)
    requires img.Valid() && GotWord(img, off, a)
    ensures off + 4 <= GotBytes(img.o) <= |img.Block(true)| && Rd32(img.Block(true), off) == a
  {
    hide Contained, LaidOut, GotBytes, GotSyms, WordsOk, PoolOk, PoolHeld, RelocSyms, VeneerCap, BlockSize, RoundUp,
      AddressIs;
  }

  /** What is at a site of a loaded package. */
  lemma SiteMeans(img: Image, i: nat, r: nat) returns (now: seq<byte>)
    requires img.Valid() && img.Progress(|img.o.sections|, 0) && Active(img.o, i, r)
    requires img.textBase % BLOCK == 0 && img.dataBase % BLOCK == 0
    ensures img.o.Read() && AtItsSite(img.o, i, r, img.Block(img.o.sections[img.o.sections[i].info].write), now)
    ensures Landed(img, i, r, now)
  {
    hide Contained, GotHeld, WordsOk, PoolOk, PoolHeld, RelocSyms, VeneerCap, BlockSize, RoundUp, LaidOut, GotBytes,
      GotSyms;
    hide Means, NewBytes, AtItsSite, InFile, AddressIs, SecAt, Le32, Rd32, SiteOk;
    var o, rel := img.o, img.o.sections[i].rels[r];
    var w := o.sections[o.sections[i].info].write;
    assert SiteState(o, img.Bases(), img.addrOf, img.got, img.Block(w), i, r, true);
    now :| Made(o, img.Bases(), img.addrOf, img.got, i, r, now) && AtItsSite(o, i, r, img.Block(w), now);
    if rel.kind == GOT_BREL {
      WordBack(img, img.addrOf[rel.sym], now);
    } else {
      var P := (SecAddr(o, img.Bases(), o.sections[i].info) + rel.offset) % W32;
      EvenSite(o, img.Bases(), i, r);
      NewBytesMean(rel.kind, InFile(o, i, r), img.addrOf[rel.sym], P, IsFunc(o, rel.sym), now);
    }
  }

  lemma WordBack(img: Image, a: u32, now: seq<byte>)
    requires WordAt(img.got, a, now)
    ensures |now| == 4 && GotWord(img, Rd32(now, 0), a)
  {
    hide Le32, Rd32;
    var k: u32 :| k < |img.got| && 4 * k < W32 && img.got[k] == a && now == Le32(4 * k);
    assert now[0..4] == now;
    ReadBack32(4 * k, now, 0);
  }

  /** A branch is at an even address: its offset is even, and so is every section's address. */
  lemma EvenSite(o: Object, bases: (u32, u32, u32), i: nat, r: nat)
    requires LaidOut(o.sections, GotBytes(o)) && Active(o, i, r) && bases.0 % BLOCK == 0 && bases.1 % BLOCK == 0
    ensures IsBranch(o.sections[i].rels[r].kind) ==>
      (SecAddr(o, bases, o.sections[i].info) + o.sections[i].rels[r].offset) % W32 % 2 == 0
  {
    hide SecAt, EndOf, GotBytes, RoundUp;
    var t := o.sections[i].info;
    AppLayout.Aligned(o, t, if o.sections[t].write then bases.1 else bases.0);
    assert AlignOk(o.sections[t]);
    EvenAddress(SecAddr(o, bases, t), AlignOf(o.sections[t]));
    EvenSum(SecAddr(o, bases, t), o.sections[i].rels[r].offset);
  }

  lemma EvenAddress(x: nat, a: nat)
    requires a in {4, 8, 16, 32, 64, 128, 256, 512, 1024, 2048, 4096} && x % (if a < BLOCK then a else BLOCK) == 0
    ensures x % 2 == 0
  {
    var b := if a < BLOCK then a else BLOCK;
    FactorMod(x, 2, b / 2);
  }

  lemma EvenSum(x: nat, y: nat)
    requires x % 2 == 0
    ensures y % 2 == 0 ==> (x + y) % W32 % 2 == 0
  {
  }

  /** So a package that loads is one with nothing to refuse: the reasons Load gives for failing are the only ones. */
  lemma Unblamed(img: Image, i: nat, r: nat, e: LoadError)
    requires img.Valid() && img.Progress(|img.o.sections|, 0) && img.textBase % BLOCK == 0 && img.dataBase % BLOCK == 0
    requires IsSource(img.o, i) && SitesOk(img.o, img.names, i) && r < |img.o.sections[i].rels|
    ensures img.o.Read()
    ensures !Unfit(img.o, img.names, img.Bases(), img.addrOf, i, r,
      if Active(img.o, i, r) then InFile(img.o, i, r) else [], e)
  {
    hide Image.Valid, Image.Progress, InFile, TargetOf, Known, Means, OutOfReach, Unfit, SiteOk, SecAddr, Rd32,
      AtItsSite,
      GotWord, AddressIs, Thumb.Decode, Thumb.PairAt;
    img.ReadOk();
    var o, rel := img.o, img.o.sections[i].rels[r];
    assert Taken(o, img.names, i, r);
    var cur := if Active(o, i, r) then InFile(o, i, r) else [];
    if rel.kind != NONE {
      var now := SiteMeans(img, i, r);
      var S, P := img.addrOf[rel.sym], (SecAddr(o, img.Bases(), o.sections[i].info) + rel.offset) % W32;
      if IsBranch(rel.kind) {
        Reached(rel.kind, cur, now, S, P, IsFunc(o, rel.sym));
      }
    }
    Fitting(o, img.names, img.Bases(), img.addrOf, i, r, cur, e);
  }

  lemma Fitting(o: Object, names: seq<seq<byte>>, bases: (u32, u32, u32), addrOf: map<nat, u32>, i: nat, r: nat,
                cur: seq<byte>, e: LoadError)
    requires i < |o.sections| && o.sections[i].info < |o.sections| && r < |o.sections[i].rels| && Taken(o, names, i, r)
    requires var rel := o.sections[i].rels[r];
      && (rel.kind == GOT_BREL ==> |cur| == 4 && Rd32(cur, 0) == 0)
      && (IsBranch(rel.kind) ==> |cur| == 4 && rel.sym in addrOf && !OutOfReach(addrOf[rel.sym],
            (SecAddr(o, bases, o.sections[i].info) + rel.offset) % W32, Thumb.Decode(Thumb.PairAt(cur, 0))))
    ensures !Unfit(o, names, bases, addrOf, i, r, cur, e)
  {
    hide OutOfReach, SecAddr, Thumb.Decode, Thumb.PairAt, Rd32, TargetOf, SiteOk;
  }

  lemma Reached(kind: byte, file: seq<byte>, now: seq<byte>, S: u32, P: u32, isFunc: bool)
    requires IsBranch(kind) && Means(kind, file, now, S, P, isFunc)
    ensures |file| == 4 && !OutOfReach(S, P, Thumb.Decode(Thumb.PairAt(file, 0)))
  {
    hide Thumb.Decode, Thumb.PairAt, Thumb.Opcode, Rd32, Rd16, Moves, Relative31;
    assert Thumb.InRange(Thumb.Decode(Thumb.PairAt(now, 0)));
  }

  ghost predicate SiteLanded(img: Image, i: nat, r: nat)
    reads img, img.text, img.data
  {
    img.o.Read() && Active(img.o, i, r) && exists now ::
      Landed(img, i, r, now)
      && AtItsSite(img.o, i, r, img.Block(img.o.sections[img.o.sections[i].info].write), now)
  }

  // ----- the rest of the image

  /** Each block is as long as its half, rounded up to a whole block, and no longer. */
  lemma BlocksTight(o: Object)
    requires LaidOut(o.sections, GotBytes(o))
    ensures var text, data := EndOf(o.sections, false, 0, |o.sections|), BlockSize(o, true);
      && text <= BlockSize(o, false) < text + 32 && BlockSize(o, false) % 32 == 0 && data % 32 == 0
      && data - 32 < EndOf(o.sections, true, BlockSize(o, false) + GotBytes(o), |o.sections|) - BlockSize(o,
        false) <= data
  {
    hide EndOf, GotBytes;
    var ss := o.sections;
    EndMonoStart(ss, true, TextEnd(ss) + GotBytes(o), TextEnd(ss) + GotBytes(o), |ss|);
    Difference(Total(ss, GotBytes(o)), TextEnd(ss));
  }

  lemma Difference(x: int, y: int)
    requires x % 32 == 0 && y % 32 == 0
    ensures (x - y) % 32 == 0
  {
  }

  /** Where nothing patches it, a section without file content is zero and any other is the file's bytes. */
  lemma Loaded(o: Object, w: bool, mem: seq<byte>, t: nat, x: nat)
    requires o.Read() && AsFile(o, w, mem) && t < |o.sections| && InHalf(o.sections[t], w) && x < o.sections[t].size
    requires !Covered(o, t, x)
    ensures 0 <= SecAt(o, t) + x < |mem|
    ensures if o.sections[t].kind.NoBits? then mem[SecAt(o, t) + x] == 0
      else |o.sections[t].bytes| == o.sections[t].size && mem[SecAt(o, t) + x] == o.sections[t].bytes[x]
  {
    hide SecAt, Covered;
    assert FileByte(o, t, x, mem);
  }

  const APP_MAIN := [0x61, 0x70, 0x70, 0x5F, 0x6D, 0x61, 0x69, 0x6E]

  /** A package is entered at its first symbol called app_main that it defines, with the Thumb bit. */
  lemma Entered(o: Object, bases: (u32, u32, u32), a: u32) returns (e: nat)
    requires AppLoad.EntryIs(o, bases, a)
    ensures e < |o.syms| && o.syms[e].name == APP_MAIN && o.syms[e].shndx != 0 && o.IsPlaced(o.syms[e].shndx)
    ensures forall j :: 0 <= j < e && o.syms[j].name == APP_MAIN ==> o.syms[j].shndx == 0
    ensures a % 2 == 1 && a / 2 == (SecAddr(o, bases, o.syms[e].shndx) + o.syms[e].value) % W32 / 2
  {
    hide SecAt;
    e :| 0 <= e < |o.syms| && IsMain(o.syms[e]) && (forall j :: 0 <= j < e ==> !IsMain(o.syms[j]))
      && o.IsPlaced(o.syms[e].shndx) && a == EntryAddr(o, bases, e);
  }

  /** app_load, and what it has done when it succeeds and no two relocations patch the same byte. */
  method LoadAll(o: Object, names: seq<seq<byte>>, textBase: u32, dataBase: u32, veneerBase: u32)
    returns (r: Outcome<u32>, img: Image?)
    requires o.Read() && |names| <= W32 && textBase % BLOCK == 0 && dataBase % BLOCK == 0 && veneerBase % BLOCK == 0
    ensures r.Good? ==> img != null && fresh(img) && img.Valid() && img.o == o && img.names == names
    ensures r.Good? && Apart(o) ==> forall i: nat, k: nat :: Active(o, i, k) ==> SiteLanded(img, i, k)
    ensures r.Good? ==> forall k :: 0 <= k < |img.pool| ==>
      ThumbCode.Calls(img.veneers[..], GATES + VENEER * k, veneerBase + GATES + VENEER * k, img.pool[k])
  {
    hide Image.Valid, Image.Progress, LaidOut, Apart, Landed, AtItsSite, Targets, Sources, SitesOk, GotBytes;
    r, img := Load(o, names, textBase, dataBase, veneerBase);
    if r.Good? {
      if Apart(o) {
        forall i: nat, k: nat | Active(o, i, k)
          ensures SiteLanded(img, i, k)
        {
          var now := SiteMeans(img, i, k);
        }
      }
      img.VeneersCall();
    }
  }
}

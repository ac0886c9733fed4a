/** The slot producer's view of an object: where things land in the blob and in the RAM block, how
    a symbol is recorded, and how much has to be reserved for it. */
module PicLayout {
  import opened Bytes
  import opened Elf
  import opened ElfLayout
  import opened Manifest
  import opened Sets

  const VENEER := 16

  function BlobOff(o: Object, i: nat): nat
    requires i < |o.sections|
  {
    OffOf(o.sections, false, 0, i)
  }

  function RamOff(o: Object, i: nat): nat
    requires i < |o.sections|
  {
    OffOf(o.sections, true, GotBytes(o), i)
  }

  /** Where the veneers start in the blob. */
  function VeneerOff(o: Object): nat {
    RoundUp(EndOf(o.sections, false, 0, |o.sections|), 4)
  }

  function RamEnd(o: Object): nat {
    EndOf(o.sections, true, GotBytes(o), |o.sections|)
  }

  // ----- objects whose sums do not wrap

  ghost predicate Pow2(a: nat) {
    a == 1 || (a > 1 && a % 2 == 0 && Pow2(a / 2))
  }

  /** The most read-only bytes for which blob offsets, veneers included, stay below 2^31. */
  const RO_MAX := 0x7FE0_0000

  /** Alignments are powers of two and neither half's running sum wraps. The producer does not check this;
      see PicSums for what becomes of an object that does not satisfy it. */
  ghost predicate Fits32(o: Object) {
    && (forall s :: s in o.sections && s.Placed() ==> Pow2(AlignOf(s)))
    && EndOf(o.sections, false, 0, |o.sections|) <= RO_MAX
    && EndOf(o.sections, true, GotBytes(o), |o.sections|) <= W32 - BLOCK
  }

  lemma SmallPow2(a: nat)
    requires a in {4, 8, 16, 32, 64, 128, 256, 512, 1024, 2048, 4096}
    ensures Pow2(a)
  {
    assert Pow2(1) && Pow2(2) && Pow2(4) && Pow2(8) && Pow2(16) && Pow2(32) && Pow2(64);
    assert Pow2(128) && Pow2(256) && Pow2(512) && Pow2(1024) && Pow2(2048) && Pow2(4096);
  }

  /** Whatever app_load lays out is well inside that. */
  lemma LaidOutFits(o: Object)
    requires LaidOut(o.sections, GotBytes(o))
    ensures Fits32(o)
  {
    hide EndOf, RoundUp, Pow2;
    EndMonoStart(o.sections, true, GotBytes(o), TextEnd(o.sections) + GotBytes(o), |o.sections|);
    forall s | s in o.sections && s.Placed()
      ensures Pow2(AlignOf(s))
    {
      SmallPow2(AlignOf(s));
    }
  }

  // ----- counting

  /** The symbols some GOT_BREL names; with `placed`, only relocations of a section that is loaded. */
  function GotSyms(o: Object, placed: bool): set<nat> {
    set i, r | 0 <= i < |o.sections| && 0 <= r < |o.sections[i].rels| && IsGotRel(o, placed, i, r) ::
      o.sections[i].rels[r].sym
  }

  predicate IsGotRel(o: Object, placed: bool, i: nat, r: nat)
    requires i < |o.sections| && r < |o.sections[i].rels|
  {
    var s := o.sections[i];
    && s.kind.Relocs? && (placed ==> o.IsPlaced(s.info))
    && s.rels[r].kind == GOT_BREL && s.rels[r].sym < |o.syms|
  }

  function GotBytes(o: Object): nat {
    4 * |GotSyms(o, false)|
  }

  /** Relocations in the first `n` sections. */
  function RelocCount(ss: seq<Section>, n: nat): nat
    requires n <= |ss|
  {
    if n == 0 then 0 else RelocCount(ss, n - 1) + if ss[n - 1].kind.Relocs? then |ss[n - 1].rels| else 0
  }

  /** Symbols named by relocations in the first `n` sections. */
  function RelocSyms(ss: seq<Section>, n: nat): set<nat>
    requires n <= |ss|
  {
    if n == 0 then {} else RelocSyms(ss, n - 1) + if ss[n - 1].kind.Relocs? then SymsOf(ss[n - 1].rels) else {}
  }

  function SymsOf(rels: seq<Rel>): set<nat> {
    set r | 0 <= r < |rels| :: rels[r].sym
  }

  lemma {:induction false} SymsOfSize(rels: seq<Rel>)
    ensures |SymsOf(rels)| <= |rels|
  {
    if rels != [] {
      var init := rels[..|rels| - 1];
      SymsOfSize(init);
      assert SymsOf(rels) == SymsOf(init) + {rels[|rels| - 1].sym} by {
        assert forall x :: x in SymsOf(rels) ==> x in SymsOf(init) || x == rels[|rels| - 1].sym;
        forall x | x in SymsOf(init)
          ensures x in SymsOf(rels)
        {
          var r :| 0 <= r < |init| && init[r].sym == x;
          assert rels[r].sym == x;
        }
      }
    }
  }

  lemma {:induction false} RelocSymsSize(ss: seq<Section>, n: nat)
    requires n <= |ss|
    ensures |RelocSyms(ss, n)| <= RelocCount(ss, n)
  {
    if n > 0 {
      RelocSymsSize(ss, n - 1);
      SymsOfSize(ss[n - 1].rels);
    }
  }

  lemma {:induction false} RelocSymsHas(ss: seq<Section>, n: nat, i: nat, r: nat)
    requires i < n <= |ss| && ss[i].kind.Relocs? && r < |ss[i].rels|
    ensures ss[i].rels[r].sym in RelocSyms(ss, n)
  {
    if i < n - 1 {
      RelocSymsHas(ss, n - 1, i, r);
    } else {
      assert ss[i].rels[r].sym in SymsOf(ss[i].rels);
    }
  }

  /** The veneer pool's ceiling, in veneers: one per relocation or per exported symbol, and one over.
      A firmware that reports no symbols does not tighten the bound. */
  function VeneerCap(o: Object, names: seq<seq<byte>>): nat {
    var n := RelocCount(o.sections, |o.sections|);
    1 + if |names| != 0 && n > |names| then |names| else n
  }

  // ----- how a symbol is recorded

  /** A resolved symbol: region and final region-relative pointer, Thumb bit included. */
  datatype Ref = Ref(cls: PicClass, value: u32, isFunc: bool)

  predicate Known(t: Target, ven: seq<nat>) {
    t.Firmware? ==> t.index in ven
  }

  function RefOf(o: Object, ven: seq<nat>, t: Target, isFunc: bool): Ref
    requires Known(t, ven) && (t.Within? ==> t.section < |o.sections|)
  {
    match t
    case Firmware(ix) => Ref(Slot, (VeneerOff(o) + VENEER * PosOf(ven, ix) + 1) % W32, true)
    case Absolute(a) => Ref(Abs, a, isFunc)
    case Within(s, v) =>
      if o.sections[s].write then Ref(Ram, (RamOff(o, s) + v) % W32, isFunc)
      else Ref(Slot, (BlobOff(o, s) + v) % W32, isFunc)
  }

  /** The symbol at `idx` resolves, with the veneers handed out so far, to `r`. */
  ghost predicate Resolves(o: Object, names: seq<seq<byte>>, ven: seq<nat>, idx: nat, r: Ref) {
    var t := TargetOf(o, names, idx);
    t.Good? && Known(t.value, ven) && r == RefOf(o, ven, t.value, IsFunc(o, idx))
  }

  /** Resolving a symbol again later gives the same answer: the pool only grows. */
  lemma ResolvesStable(o: Object, names: seq<seq<byte>>, ven: seq<nat>, more: seq<nat>, idx: nat, r: Ref)
    requires Resolves(o, names, ven, idx, r) && ven <= more
    ensures Resolves(o, names, more, idx, r)
  {
    var t := TargetOf(o, names, idx).value;
    if t.Firmware? {
      PosStable(ven, more, t.index);
    }
  }

  /** The supervisor-call veneer for one export: load the index, svc #0, and the index word. */
  function VeneerBytes(ix: nat): (s: seq<byte>)
    ensures |s| == VENEER
  {
    [0xdf, 0xf8, 0x08, 0xc0, 0x00, 0xdf, 0xfe, 0xe7, 0x00, 0xbe, 0x00, 0x00] + Le32(ix % W32)
  }
}

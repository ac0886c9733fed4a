/** The pointer sites the producer records, on any object whose alignments are powers of two: where they
    are, when they lie inside the RAM block it asks for, and an object for which one does not. */
module PicWrap {
  import opened Bytes
  import opened Elf
  import opened ElfLayout
  import opened Manifest
  import opened PicLayout
  import opened PicRam
  import opened PicSums
  import opened PicInstall

  // ----- which relocation a recorded pointer comes from

  lemma {:induction false} SectionFrom(o: Object, i: nat, r: nat, k: nat) returns (q: nat)
    requires i < |o.sections| && ForRam(o, i) && r <= |o.sections[i].rels| && k < |RamSection(o, i, r)|
    ensures q < r && IsPointer(o, i, q, RamSection(o, i, r)[k])
  {
    hide RamOff;
    if k < |RamSection(o, i, r - 1)| {
      q := SectionFrom(o, i, r - 1, k);
    } else {
      q := r - 1;
    }
  }

  lemma {:induction false} RamRelsFrom(o: Object, n: nat, k: nat) returns (i: nat, q: nat)
    requires n <= |o.sections| && k < |RamRels(o, n)|
    ensures i < n && IsPointer(o, i, q, RamRels(o, n)[k])
  {
    hide RamSection, IsPointer;
    var m := |RamRels(o, n - 1)|;
    if k < m {
      i, q := RamRelsFrom(o, n - 1, k);
    } else {
      i := n - 1;
      q := SectionFrom(o, i, |o.sections[i].rels|, k - m);
    }
  }

  /** Relocation `q` of section `i` is the pointer `p`. */
  predicate IsPointer(o: Object, i: nat, q: nat, p: RamRel) {
    && i < |o.sections| && ForRam(o, i) && q < |o.sections[i].rels| && o.sections[i].rels[q].kind != NONE
    && p == RamRel(RamOff(o, o.sections[i].info) + o.sections[i].rels[q].offset, o.sections[i].rels[q].sym)
  }

  // ----- where it is recorded

  /** Recorded pointer `k` is at the 32-bit site of some admitted relocation. */
  lemma RecordedAt(o: Object, names: seq<seq<byte>>, pool: seq<nat>, abs: seq<AbsEntry>, k: nat) returns (t: nat,
    offset: u32)
    requires Aligned(o.sections) && GotBytes(o) < W32 && PointersIn(o, |o.sections|)
    requires AllAbsOk(o, names, pool, RamRels(o, |o.sections|), abs) && k < |abs|
    ensures Admitted(o.sections, t, offset) && abs[k].site == SiteW(o.sections, GotBytes(o), t, offset)
  {
    hide Aligned, OffW, OffOf, GotBytes, RamRels, Resolves, RamEnd;
    var i, q := RamRelsFrom(o, |o.sections|, k);
    assert AbsOk(o, names, pool, RamRels(o, |o.sections|)[k], abs[k]);
    assert PointerIn(o, i, q);
    t, offset := o.sections[i].info, o.sections[i].rels[q].offset;
    OffExact(o.sections, true, GotBytes(o), t);
    WrapsAlone(RamOff(o, t), offset);
  }

  /** If every writable section that can hold a pointer is inside the RAM block where the producer put it, so
      is every recorded site. By SitesInside, no weaker condition on the sections is enough. */
  lemma RecordedInside(o: Object, names: seq<seq<byte>>, pool: seq<nat>, abs: seq<AbsEntry>)
    requires Aligned(o.sections) && GotBytes(o) < W32 && PointersIn(o, |o.sections|)
    requires AllAbsOk(o, names, pool, RamRels(o, |o.sections|), abs) && Enclosed(o.sections, GotBytes(o))
    ensures forall a :: a in abs ==> a.site + 4 <= RamSizeW(o.sections, GotBytes(o))
  {
    hide Aligned, SiteW, AllAbsOk, Enclosed, PointersIn, Admitted, RamSizeW, RamRels, GotBytes;
    SitesInside(o.sections, GotBytes(o));
    forall a | a in abs
      ensures a.site + 4 <= RamSizeW(o.sections, GotBytes(o))
    {
      var k :| 0 <= k < |abs| && abs[k] == a;
      var t, offset := RecordedAt(o, names, pool, abs, k);
    }
  }

  // ----- an object that escapes

  /** Code with one GOT word, two zeroed sections that together run over 2^32, a pointer in the first. */
  function Wrapping(): Object {
    Object([Section(Other, false, false, false, 0, 0, 0, [], []),
            Section(ProgBits, true, false, true, 4, 4, 0, [0, 0, 0, 0], []),
            Section(NoBits, true, true, false, 0xFFFF_FF00, 4, 0, [], []),
            Section(NoBits, true, true, false, 0x200, 4, 0, [], []),
            Section(Relocs, false, false, false, 8, 4, 1, [], [Rel(0, GOT_BREL, 1)]),
            Section(Relocs, false, false, false, 8, 4, 2, [], [Rel(0x1000_0000, ABS32, 1)])],
           [Sym(0, 0, false, []), Sym(1, 1, true, APP_MAIN)])
  }

  /** The producer accepts the pointer, asks for 288 bytes of RAM, and records a site 256 MB further on. */
  lemma SiteEscapes(names: seq<seq<byte>>)
    ensures var o := Wrapping(); var ss := o.sections;
      && Aligned(ss) && GotBytes(o) == 4 && RamSizeW(ss, 4) == 0x120 && PointersIn(o, |ss|)
      && AllAbsOk(o, names, [], RamRels(o, |ss|), [AbsEntry(0x1000_0004, 1, Slot)])
  {
    hide RamSizeW, Wrapping, AllAbsOk, PointersIn, Aligned, GotBytes;
    WrappingGot();
    WrappingSum();
    WrappingAbs(names);
  }

  lemma WrappingGot()
    ensures GotBytes(Wrapping()) == 4 && Aligned(Wrapping().sections)
  {
    var o := Wrapping();
    assert IsGotRel(o, false, 4, 0) && !IsGotRel(o, false, 5, 0) && o.sections[4].rels[0].sym == 1;
    assert GotSyms(o, false) == {1};
    SmallPow2(4);
  }

  lemma WrappingSum()
    ensures RamSizeW(Wrapping().sections, 4) == 0x120
  {
    hide AndNot;
    SmallPow2(4);
    SmallPow2(BLOCK);
    MaskIs(7, 4);
    MaskIs(0xFFFF_FF07, 4);
    MaskIs(0x123, BLOCK);
    assert MaskUp(4, 4) == 4 && MaskUp(0xFFFF_FF04, 4) == 0xFFFF_FF04 && MaskUp(0x104, BLOCK) == 0x120;
    hide MaskUp;
    var ss := Wrapping().sections;
    assert EndW(ss, true, 4, 2) == 4;
    assert EndW(ss, true, 4, 3) == 0xFFFF_FF04;
    assert EndW(ss, true, 4, 4) == 0x104;
    assert EndW(ss, true, 4, 5) == 0x104 && EndW(ss, true, 4, 6) == 0x104;
  }

  lemma WrappingAbs(names: seq<seq<byte>>)
    ensures PointersIn(Wrapping(), 6) && |Wrapping().sections| == 6
    ensures AllAbsOk(Wrapping(), names, [], RamRels(Wrapping(), 6), [AbsEntry(0x1000_0004, 1, Slot)])
  {
    WrappingGot();
    WrappingEnd();
    WrappingRels();
    WrappingRef(names);
    hide Wrapping, GotBytes, EndOf, RamRels, Resolves;
  }

  lemma WrappingEnd()
    ensures |Wrapping().sections| == 6 && Wrapping().syms[1].isFunc
    ensures EndOf(Wrapping().sections, true, 4, 6) == 0x1_0000_0104 && OffOf(Wrapping().sections, true, 4, 2) == 4
  {
    var ss := Wrapping().sections;
    assert EndOf(ss, true, 4, 2) == 4;
    assert EndOf(ss, true, 4, 3) == 0xFFFF_FF04;
    assert EndOf(ss, true, 4, 4) == 0x1_0000_0104;
    assert EndOf(ss, true, 4, 5) == 0x1_0000_0104;
  }

  lemma WrappingRels()
    ensures PointersIn(Wrapping(), 6) && |Wrapping().sections| == 6
    ensures RamRels(Wrapping(), 6) == [RamRel(0x1000_0004, 1)]
  {
    var o := Wrapping();
    WrappingGot();
    WrappingEnd();
    hide GotBytes, OffOf;
    assert !ForRam(o, 0) && !ForRam(o, 1) && !ForRam(o, 2) && !ForRam(o, 3) && !ForRam(o, 4) && ForRam(o, 5);
    assert RamSection(o, 5, 0) == [] && RamSection(o, 5, 1) == [RamRel(0x1000_0004, 1)];
    assert RamRels(o, 2) == [];
    assert RamRels(o, 4) == [];
    assert RamRels(o, 5) == [];
  }

  lemma WrappingRef(names: seq<seq<byte>>)
    ensures Resolves(Wrapping(), names, [], 1, Ref(Slot, 1, true)) && IsFunc(Wrapping(), 1)
  {
    var o := Wrapping();
    assert EndOf(o.sections, false, 0, 1) == 0;
    assert BlobOff(o, 1) == 0;
    hide EndOf, OffOf;
  }
}

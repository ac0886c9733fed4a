/** A package the pre-flight gets wrong. A GOT_BREL in the relocations of a section that is not loaded takes
    a GOT word in the layout and none in the measure; the word moves the writable half, and a section with a
    large alignment in it turns four bytes into almost a page. */
module PicStray {
  import opened Bytes
  import opened Elf
  import opened ElfLayout
  import opened Manifest
  import opened Sets
  import opened PicLayout
  import opened PicPatch
  import opened PicSites
  import opened PicRam
  import opened PicSums
  import opened PicTables
  import opened PicInstall
  import opened PicMeasure
  import PicPages
  import SlotFormat
  import SlotImage

  function Zeros(n: nat): (z: seq<byte>)
    ensures |z| == n && forall i :: 0 <= i < n ==> z[i] == 0
  {
    seq(n, _ => 0)
  }

  /** Eight bytes of code with app_main and one GOT load, two data sections, and relocations for a section of
      debugging information. */
  function Stray(): Object {
    Object([Section(Other, false, false, false, 0, 0, 0, [], []),
            Section(ProgBits, true, false, true, 8, 4, 0, Zeros(8), []),
            Section(ProgBits, true, true, false, 4092, 4, 0, Zeros(4092), []),
            Section(ProgBits, true, true, false, 4, 4096, 0, Zeros(4), []),
            Section(Relocs, false, false, false, 8, 4, 1, [], [Rel(0, GOT_BREL, 1)]),
            Section(Other, false, false, false, 4, 1, 0, [], []),
            Section(Relocs, false, false, false, 8, 4, 5, [], [Rel(0, GOT_BREL, 2)])],
           [Sym(0, 0, false, []), Sym(1, 1, true, APP_MAIN), Sym(2, 0, false, [])])
  }

  lemma StrayShape()
    ensures var o := Stray(); var ss := o.sections;
      && |ss| == 7 && |o.syms| == 3 && o.Read() && InHalf(ss[1], false) && Loaded(ss[2]) && Loaded(ss[3])
      && (forall i :: 0 <= i < 7 ==> (ss[i].Placed() <==> 1 <= i <= 3))
      && ss[1].size == 8 && ss[2].size == 4092 && ss[3].size == 4 && AlignOf(ss[1]) == AlignOf(ss[2]) == 4
        && AlignOf(ss[3]) == 4096
      && (forall i :: 0 <= i < 7 ==> (ss[i].kind.Relocs? <==> i == 4 || i == 6)) && ss[4].info == 1 && ss[6].info == 5
      && ss[4].rels == [Rel(0, GOT_BREL, 1)] && ss[6].rels == [Rel(0, GOT_BREL, 2)]
      && ss[1].bytes == Zeros(8) && !ss[1].kind.NoBits? && o.syms[1] == Sym(1, 1, true, APP_MAIN)
        && o.syms[0].shndx == SHN_UNDEF
  {
  }

  lemma StraySyms()
    ensures GotSyms(Stray(), true) == {1} && GotSyms(Stray(), false) == {1, 2}
  {
    var o := Stray();
    StrayShape();
    hide Stray;
    assert IsGotRel(o, true, 4, 0) && !IsGotRel(o, true, 6, 0);
    assert IsGotRel(o, false, 4, 0) && IsGotRel(o, false, 6, 0);
    assert o.sections[4].rels[0].sym == 1 && o.sections[6].rels[0].sym == 2;
  }

  lemma Grow(ss: seq<Section>, w: bool, start: nat, n: nat)
    requires n < |ss|
    ensures EndOf(ss, w, start, n + 1)
      == if InHalf(ss[n], w) then RoundUp(EndOf(ss, w, start, n), AlignOf(ss[n])) + ss[n].size
        else EndOf(ss, w, start, n)
    ensures EndOf(ss, w, start, 0) == start
    ensures OffOf(ss, w, start, n) == RoundUp(EndOf(ss, w, start, n), AlignOf(ss[n]))
  {
    hide RoundUp;
  }

  lemma GrowAll(ss: seq<Section>, w: bool, start: nat)
    requires |ss| == 7 && !InHalf(ss[0], w) && !InHalf(ss[4], w) && !InHalf(ss[5], w) && !InHalf(ss[6], w)
    ensures EndOf(ss, w, start, 1) == start && EndOf(ss, w, start, 7) == EndOf(ss, w, start, 4)
  {
    hide EndOf, RoundUp, InHalf, OffOf;
    Grow(ss, w, start, 0);
    Grow(ss, w, start, 4);
    Grow(ss, w, start, 5);
    Grow(ss, w, start, 6);
  }

  /** Where the writable half's sections go. */
  lemma StrayHalf(start: nat)
    requires start % 4 == 0
    ensures var ss := Stray().sections; var b := RoundUp(start + 4092, 4096);
      |ss| == 7 && OffOf(ss, true, start, 2) == start && OffOf(ss, true, start, 3) == b
        && EndOf(ss, true, start, 7) == b + 4
  {
    hide Stray, EndOf, RoundUp, OffOf;
    var ss := Stray().sections;
    StrayShape();
    Rounds(start, 4, start / 4);
    GrowAll(ss, true, start);
    Grow(ss, true, start, 1);
    Grow(ss, true, start, 2);
    Grow(ss, true, start, 3);
  }

  lemma StraySpan(got: nat)
    requires got % 4 == 0 && got < 4096
    ensures DataOff(Stray().sections, got) == got && DataEnd(Stray().sections, got) == RoundUp(got + 4092, 4096) + 4
  {
    var ss, b := Stray().sections, RoundUp(got + 4092, 4096);
    StrayShape();
    StrayHalf(got);
    hide Stray, EndOf, RoundUp, OffOf;
    SpanGrow(ss, got, 0);
    SpanGrow(ss, got, 1);
    SpanGrow(ss, got, 2);
    SpanGrow(ss, got, 3);
    SpanGrow(ss, got, 4);
    SpanGrow(ss, got, 5);
    SpanGrow(ss, got, 6);
    hide DataLo, DataHi;
  }

  lemma SpanGrow(ss: seq<Section>, got: nat, n: nat)
    requires n < |ss|
    ensures DataLo(ss, got, 0) == NO_DATA && DataHi(ss, got, 0) == 0
    ensures !Loaded(ss[n]) ==>
      DataLo(ss, got, n + 1) == DataLo(ss, got, n) && DataHi(ss, got, n + 1) == DataHi(ss, got, n)
    ensures Loaded(ss[n]) ==> var at, lo, hi := OffOf(ss, true, got, n), DataLo(ss, got, n), DataHi(ss, got, n);
      && DataLo(ss, got, n + 1) == (if at < lo then at else lo)
      && DataHi(ss, got, n + 1) == (if at + ss[n].size > hi then at + ss[n].size else hi)
  {
    hide OffOf;
  }

  lemma StrayBlob()
    ensures EndOf(Stray().sections, false, 0, |Stray().sections|) == 8 && VeneerOff(Stray()) == 8
      && BlobOff(Stray(), 1) == 0
  {
    hide Stray, EndOf, RoundUp, OffOf;
    var ss := Stray().sections;
    StrayShape();
    Rounds(0, 4, 0);
    Rounds(8, 4, 2);
    GrowAll(ss, false, 0);
    Grow(ss, false, 0, 1);
    Grow(ss, false, 0, 2);
    Grow(ss, false, 0, 3);
  }

  /** The pre-flight takes it for a slot package, and app_load would lay it out too. */
  lemma StrayAccepted()
    ensures Supported(Stray()) && GotSyms(Stray(), true) != {} && LaidOut(Stray().sections, GotBytes(Stray()))
      && Fits32(Stray())
  {
    hide Stray, GotSyms, LaidOut, Fits32;
    var o := Stray();
    StraySyms();
    StrayLaid();
    LaidOutFits(o);
    StraySupported();
  }

  lemma StraySupported()
    ensures Supported(Stray())
  {
    hide Stray;
    StrayShape();
  }

  lemma StrayLaid()
    ensures LaidOut(Stray().sections, GotBytes(Stray()))
  {
    hide Stray, GotSyms, EndOf, RoundUp, OffOf, VeneerOff;
    var ss := Stray().sections;
    StrayShape();
    StraySyms();
    StrayBlob();
    StrayHalf(40);
    Rounds(8, BLOCK, 1);
    Rounds(4132, 4096, 2);
  }

  /** What the measure says: a span of 4096 bytes, and a body that fits the 8192 of a 12288-byte slot. */
  lemma StrayMeasured(names: seq<seq<byte>>)
    ensures var c := CostOf(Stray(), names);
      && c.gotBytes == 4 && c.ramSize == 4128 && c.bodyBound <= 4160 && (|names| != 1 ==> c.bodyBound == 4160)
      && MeasuredGot(Stray()) < W32 && CostW(Stray(), names) == c
      && RouteOf(RouteIn(true, true, true, 12288, c.bodyBound)) == FlashSlot
  {
    hide Stray, GotSyms, EndOf, OffOf, DataOff, DataEnd, VeneerOff, AbsCap, VeneerCap, RelocCount, Supported, LaidOut,
      Fits32, CostW;
    hide RoundUp, Front, RouteOf;
    StrayAccepted();
    StraySyms();
    StrayBlob();
    StrayHalf(4);
    StraySpan(4);
    StrayCounts(names);
    Rounds(4096, 4096, 1);
    Rounds(4100, BLOCK, 129);
    var o := Stray();
    StrayFront(VeneerCap(o, names));
    CostExact(o, names);
    StrayRoute(CostOf(o, names).bodyBound);
  }

  lemma StrayFront(k: nat)
    ensures Front(8 + VENEER * k, 1, 0) == 16 + VENEER * k
  {
    hide RoundUp;
    Rounds(8 + VENEER * k, 4, 2 + 4 * k);
    Rounds(16 + VENEER * k, 4, 4 + 4 * k);
  }

  lemma StrayRoute(need: u32)
    requires need <= 4160
    ensures RouteOf(RouteIn(true, true, true, 12288, need)) == FlashSlot
  {
    assert RoundUp(need, SlotFormat.PAGE) < need + 256;
    hide RoundUp;
  }

  lemma StrayCounts(names: seq<seq<byte>>)
    ensures AbsCap(Stray(), |Stray().sections|) == 0 && RelocCount(Stray().sections, |Stray().sections|) == 2
    ensures VeneerCap(Stray(), names) == if |names| == 1 then 2 else 3
  {
    var o := Stray();
    StrayShape();
    hide Stray;
    assert AbsCap(o, 3) == 0;
    assert AbsCap(o, 6) == 0;
    assert RelocCount(o.sections, 3) == 0;
    assert RelocCount(o.sections, 5) == 1;
    assert RelocCount(o.sections, 6) == 1;
  }

  /** What is produced: a span of 8188 bytes, a larger RAM block, and a body past the bound and past the slot. */
  lemma StrayOverflows(names: seq<seq<byte>>, blob: seq<byte>, m: PicManifest, pool: seq<nat>, vals: Patches)
    requires Produced(Stray(), names, blob, m, pool, vals)
    ensures m.ext.gotBytes == 8 && m.ext.ramSize == 8224 && |m.dataInit| == 8188
    ensures |SlotImage.WithData(blob, m)| > CostOf(Stray(), names).bodyBound
    ensures SlotFormat.HEADER + |SlotImage.Body(blob, m)| > 12288
  {
    hide Stray, GotSyms, EndOf, OffOf, DataOff, DataEnd, VeneerOff, CostOf, CostW, Fits32, BlobOk, PoolFine, AllAbsOk,
      RamPristine, EntryAt;
    hide Front, FrontBound, SlotImage.WithData, RouteOf, RoundUp, SlotImage.Padded, SpanAt;
    StrayMeasured(names);
    StrayExtents(names, blob, m, pool, vals);
    BodyExact(Stray(), names, blob, m, pool, vals);
    FrontMono(8, 0, 0, |blob|, |m.got|, |m.abs|);
    LeastFront();
    PaddedPast(SlotImage.WithData(blob, m));
  }

  lemma StrayExtents(names: seq<seq<byte>>, blob: seq<byte>, m: PicManifest, pool: seq<nat>, vals: Patches)
    requires Produced(Stray(), names, blob, m, pool, vals)
    ensures m.ext.gotBytes == 8 && m.ext.ramSize == 8224 && |m.dataInit| == 8188 && |blob| >= 8
    ensures SpanAt(Stray().sections, GotBytes(Stray())) == 8188
  {
    hide Stray, GotSyms, EndOf, OffOf, DataOff, DataEnd, VeneerOff, Fits32, BlobOk, PoolFine, AllAbsOk, RamPristine,
      EntryAt, RoundUp;
    StraySyms();
    StrayBlob();
    StrayHalf(8);
    StraySpan(8);
    Rounds(4100, 4096, 2);
    Rounds(8196, BLOCK, 257);
    BlobLength(Stray(), names, m.got, pool, vals, blob);
  }

  lemma LeastFront()
    ensures Front(8, 0, 0) == 8
  {
  }

  lemma PaddedPast(d: seq<byte>)
    requires |d| > 8192
    ensures |SlotImage.Padded(d, SlotFormat.PAGE)| > 8192
  {
  }

  // ----- and it is produced

  ghost function Vals(): Patches {
    map[0 := GotWord(Ref(Slot, 1, true), 0)]
  }

  lemma StrayPristine()
    ensures Stray().Read() && |Stray().sections| == 7 && Pristine(Stray(), 7) == Zeros(8)
  {
    hide Stray, BlobOff, VeneerOff, Zeros;
    var o := Stray();
    StrayShape();
    StrayBlob();
    assert Pristine(o, 1) == Zeros(8);
    assert Pristine(o, 2) == Zeros(8);
    assert Pristine(o, 4) == Zeros(8);
    assert Pristine(o, 6) == Zeros(8);
  }

  lemma RelsGrow(o: Object, n: nat)
    requires n < |o.sections|
    ensures BlobRels(o, 0) == []
    ensures BlobRels(o, n + 1) == if ForBlob(o, n) then BlobRels(o, n) + SectionRels(o, n) else BlobRels(o, n)
  {
  }

  lemma StrayList()
    ensures |Stray().sections| == 7 && BlobRels(Stray(), 7) == SectionRels(Stray(), 4)
  {
    hide Stray, BlobRels, SectionRels;
    var o := Stray();
    StrayShape();
    RelsGrow(o, 0);
    RelsGrow(o, 1);
    RelsGrow(o, 2);
    RelsGrow(o, 3);
    assert BlobRels(o, 4) == [];
    RelsGrow(o, 4);
    assert BlobRels(o, 5) == SectionRels(o, 4);
    RelsGrow(o, 5);
    RelsGrow(o, 6);
  }

  lemma StrayRels()
    ensures Stray().Read() && Rels(Stray()) == [BlobRel(0, GOT_BREL, 1)] && Blank(Stray()) == Zeros(8)
  {
    hide Stray, BlobOff, BlobRels, VeneerOff, Pristine;
    StrayShape();
    StrayBlob();
    StrayList();
    StrayPristine();
    assert RelAt(Stray(), 4, 0) == BlobRel(0, GOT_BREL, 1);
  }

  /** The one patch: the GOT load of app_main names the first word. */
  lemma StrayPatched(names: seq<seq<byte>>)
    ensures var o, got := Stray(), [GotEntry(1, Slot, true)];
      o.Read() && PatchesOk(o, names, [], got, Vals()) && PicPages.Complete(o, Vals().Keys)
  {
    hide Stray, BlobOff, VeneerOff, Rels, Blank, PatchesOk, PicPages.Complete;
    var o, got := Stray(), [GotEntry(1, Slot, true)];
    StrayShape();
    StrayRels();
    StrayResolves(names);
    NonePatched(o, names, got);
    assert Vals() == map[][0 := GotWord(Ref(Slot, 1, true), 0)];
    StrayPatch(names, Blank(o));
    AddPatch(o, names, [], got, map[], 0, GotWord(Ref(Slot, 1, true), 0));
    StrayComplete();
  }

  lemma NonePatched(o: Object, names: seq<seq<byte>>, got: seq<GotEntry>)
    requires o.Read() && |Rels(o)| == 1
    ensures PatchesOk(o, names, [], got, map[]) && Whole(o, map[]) == Blank(o)
  {
    hide Rels, Blank;
    assert Fold(Blank(o), Rels(o), map[], 0) == Blank(o);
  }

  lemma StrayPatch(names: seq<seq<byte>>, blank: seq<byte>)
    requires blank == Zeros(8)
    ensures PatchOk(Stray(), names, [], [GotEntry(1, Slot, true)], BlobRel(0, GOT_BREL, 1), blank[0..4],
      GotWord(Ref(Slot, 1, true), 0))
  {
    hide Stray, Resolves;
    StrayResolves(names);
    PosFirst(GotEntry(1, Slot, true));
  }

  lemma PosFirst(e: GotEntry)
    ensures e in [e] && PosOf([e], e) == 0
  {
  }

  lemma StrayResolves(names: seq<seq<byte>>)
    ensures Resolves(Stray(), names, [], 1, Ref(Slot, 1, true))
  {
    hide Stray, BlobOff, VeneerOff;
    StrayShape();
    StrayBlob();
  }

  lemma StrayComplete()
    ensures PicPages.Complete(Stray(), Vals().Keys)
  {
    hide Stray, Blank, BlobRels, PicPages.Sited;
    StrayShape();
    StrayRels();
    StrayFirst();
    assert Vals().Keys == {0};
    forall i | 0 <= i < |Stray().sections|
      ensures PicPages.Checked(Stray(), i) && PicPages.NoneLeft(Stray(), {0}, i)
    {
    }
  }

  lemma StrayFirst()
    ensures |Stray().sections| == 7 && BlobRels(Stray(), 4) == []
  {
    hide Stray, BlobRels, SectionRels;
    StrayShape();
    RelsGrow(Stray(), 0);
    RelsGrow(Stray(), 1);
    RelsGrow(Stray(), 2);
    RelsGrow(Stray(), 3);
  }

  /** The producer's own output for it, with any header: so StrayOverflows speaks of something. */
  lemma StrayProduced(names: seq<seq<byte>>, hdr: seq<byte>) returns (blob: seq<byte>, m: PicManifest)
    requires |hdr| == HEADER_BYTES
    ensures Produced(Stray(), names, blob, m, [], Vals())
  {
    hide Stray, PatchesOk, PicPages.Complete, Whole, Fits32, LaidOut, Supported, RamPristine, VeneerOff, GotSyms, EndOf,
      OffOf;
    hide DataOff, DataEnd, VeneerCap, RamRels, AbsCap, RoundUp, Rels, BlobOff, PointersIn, RoBytes, RodataAt;
    var o := Stray();
    StrayAccepted();
    StraySyms();
    StrayPatched(names);
    StrayBlob();
    StrayHalf(8);
    StraySpan(8);
    StrayCounts(names);
    Rounds(4100, 4096, 2);
    Rounds(8196, BLOCK, 257);
    StrayEntry();
    StrayPointers();
    StrayText();
    PatchesInside(o, names, [], [GotEntry(1, Slot, true)], Vals());
    blob := Whole(o, Vals()) + Laid(VeneerBytes, []);
    m := PicManifest(Extents(hdr, 0, 0, 8, 8, 0, 0, 8, 0, 1, 8, 8, 8188, 8224, 1, 0),
                     [GotEntry(1, Slot, true)], [], RamPristine(o, |o.sections|)[8..8196]);
    assert RamRels(o, |o.sections|) == [];
    assert ExtentsFit(o, m, []);
    assert PoolFine(o, names, []);
    assert BlobOk(o, names, [], m.got, Vals(), blob);
  }

  lemma StrayText()
    ensures RoBytes(Stray().sections, true, |Stray().sections|) == 8
    ensures RoBytes(Stray().sections, false, |Stray().sections|) == 0 && RodataAt(Stray(), |Stray().sections|, 0)
  {
    hide Stray, EndOf;
    var ss := Stray().sections;
    StrayShape();
    StrayExec();
    assert RoBytes(ss, true, 1) == 0;
    assert RoBytes(ss, true, 2) == 8;
    assert RoBytes(ss, true, 4) == 8;
    assert RoBytes(ss, true, 6) == 8;
    RodataIs(Stray(), |ss|);
  }

  lemma StrayExec()
    ensures |Stray().sections| == 7 && Stray().sections[1].exec && Stray().sections[2].write
      && Stray().sections[3].write
  {
  }

  lemma StrayPointers()
    ensures PointersIn(Stray(), |Stray().sections|)
  {
    hide Stray;
    StrayShape();
  }

  lemma StrayEntry()
    ensures EntryAt(Stray(), 1)
  {
    hide Stray, BlobOff;
    StrayShape();
    StrayBlob();
    assert EntryIs(Stray(), 1, 1);
  }
}

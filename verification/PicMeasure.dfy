/** The pre-flight of a slot install: what a package would cost, and which way it goes, decided
    before anything is erased (app_pic_measure, pkg_route). */
module PicMeasure {
  import opened Bytes
  import opened Elf
  import opened ElfLayout
  import opened Manifest
  import opened Sets
  import opened PicLayout
  import opened PicPatch
  import opened PicRam
  import opened PicSums
  import opened PicInstall
  import PicPages
  import PicSites
  import SlotFormat
  import SlotImage

  // ----- counting distinct symbols with a bitmap

  function SectionGot(o: Object, placed: bool, i: nat, r: nat): set<nat>
    requires i < |o.sections| && r <= |o.sections[i].rels|
  {
    if r == 0 then {}
    else SectionGot(o, placed, i, r - 1) + if IsGotRel(o, placed, i, r - 1) then {o.sections[i].rels[r - 1].sym} else {}
  }

  function SeenGot(o: Object, placed: bool, n: nat): set<nat>
    requires n <= |o.sections|
  {
    if n == 0 then {} else SeenGot(o, placed, n - 1) + SectionGot(o, placed, n - 1, |o.sections[n - 1].rels|)
  }

  lemma {:induction false} SectionGotHas(o: Object, placed: bool, i: nat, n: nat, s: nat)
    requires i < |o.sections| && n <= |o.sections[i].rels|
    ensures s in SectionGot(o, placed, i, n) <==>
      exists r :: 0 <= r < n && IsGotRel(o, placed, i, r) && o.sections[i].rels[r].sym == s
  {
    if n > 0 {
      SectionGotHas(o, placed, i, n - 1, s);
    }
  }

  lemma {:induction false} SeenGotHas(o: Object, placed: bool, n: nat, s: nat)
    requires n <= |o.sections|
    ensures s in SeenGot(o, placed, n) <==>
      exists i, r ::
        0 <= i < n && 0 <= r < |o.sections[i].rels| && IsGotRel(o, placed, i, r) && o.sections[i].rels[r].sym == s
  {
    if n > 0 {
      SeenGotHas(o, placed, n - 1, s);
      SectionGotHas(o, placed, n - 1, |o.sections[n - 1].rels|, s);
    }
  }

  lemma SeenAll(o: Object, placed: bool)
    ensures SeenGot(o, placed, |o.sections|) == GotSyms(o, placed)
  {
    forall s
      ensures s in SeenGot(o, placed, |o.sections|) <==> s in GotSyms(o, placed)
    {
      SeenGotHas(o, placed, |o.sections|, s);
    }
  }

  // ----- what a slot can take

  /** Relocation `r` of section `i`, if it matters to what is loaded, is of a type the producer emits. */
  predicate RelSupported(o: Object, i: nat, r: nat)
    requires i < |o.sections| && r < |o.sections[i].rels| && Matters(o, i)
  {
    var k := o.sections[i].rels[r].kind;
    k == NONE
    || if o.sections[o.sections[i].info].write then k == ABS32 || k == TARGET1 else Patchable(k)
  }

  /** The types by their numbers: none and pointers (2, 38) in the RAM block, none, GOT loads (26) and branches
      (10, 30) in the blob. */
  lemma SupportedTypes(o: Object, i: nat, r: nat)
    requires i < |o.sections| && r < |o.sections[i].rels| && Matters(o, i)
    ensures RelSupported(o, i, r) <==>
      o.sections[i].rels[r].kind in (if o.sections[o.sections[i].info].write then {0, 2, 38} else {0, 10, 26, 30})
  {
  }

  ghost predicate Supported(o: Object) {
    forall i, r :: 0 <= i < |o.sections| && 0 <= r < |o.sections[i].rels| && Matters(o, i) ==> RelSupported(o, i, r)
  }

  predicate Matters(o: Object, i: nat)
    requires i < |o.sections|
  {
    o.sections[i].kind.Relocs? && o.IsPlaced(o.sections[i].info)
  }

  /** One relocation section: mark new symbols in the bitmap and count them, stop at a type the
      producer cannot emit. */
  method ScanSection(o: Object, i: nat, seen: array<bool>, count0: nat) returns (ok: bool, count: nat)
    requires i < |o.sections| && Matters(o, i) && seen.Length == |o.syms|
    requires count0 == |SeenGot(o, true, i)|
    requires forall s :: 0 <= s < seen.Length ==> seen[s] == (s in SeenGot(o, true, i))
    modifies seen
    ensures ok <==> forall r :: 0 <= r < |o.sections[i].rels| ==> RelSupported(o, i, r)
    ensures ok ==> count == |SeenGot(o, true, i + 1)| && forall s :: 0 <= s < seen.Length ==>
      seen[s] == (s in SeenGot(o, true, i + 1))
  {
    hide SeenGot, SectionGot, RelSupported;
    count := count0;
    ghost var base := SeenGot(o, true, i);
    var rels := o.sections[i].rels;
    ghost var had := base;
    SectionNone(o, i, base);
    for r := 0 to |rels|
      invariant had == base + SectionGot(o, true, i, r) && count == |had|
      invariant forall s :: 0 <= s < seen.Length ==> seen[s] == (s in had)
      invariant forall q :: 0 <= q < r ==> RelSupported(o, i, q)
    {
      if !RelSupported(o, i, r) {
        return false, count;
      }
      SectionNext(o, i, r, base);
      if IsGotRel(o, true, i, r) {
        assert rels[r].sym in had ==> had + {rels[r].sym} == had;
        had := had + {rels[r].sym};
        if !seen[rels[r].sym] {
          seen[rels[r].sym] := true;
          count := count + 1;
        }
      }
    }
    ok := true;
    SeenNext(o, i);
  }

  lemma SectionNone(o: Object, i: nat, base: set<nat>)
    requires i < |o.sections|
    ensures base + SectionGot(o, true, i, 0) == base
  {
  }

  lemma SectionNext(o: Object, i: nat, r: nat, base: set<nat>)
    requires i < |o.sections| && r < |o.sections[i].rels|
    ensures base + SectionGot(o, true, i, r + 1)
      == if IsGotRel(o, true, i, r) then base + SectionGot(o, true, i, r) + {o.sections[i].rels[r].sym}
        else base + SectionGot(o, true, i, r)
  {
  }

  lemma SeenNext(o: Object, i: nat)
    requires i < |o.sections|
    ensures SeenGot(o, true, i + 1) == SeenGot(o, true, i) + SectionGot(o, true, i, |o.sections[i].rels|)
    ensures !Matters(o, i) ==> SeenGot(o, true, i + 1) == SeenGot(o, true, i)
  {
    if !Matters(o, i) {
      forall s
        ensures s !in SectionGot(o, true, i, |o.sections[i].rels|)
      {
        SectionGotHas(o, true, i, |o.sections[i].rels|, s);
      }
    }
  }

  /** The one relocation pass: how many GOT slots, and whether the producer can emit everything. */
  method Scan(o: Object) returns (ok: bool, slots: nat)
    ensures ok <==> Supported(o)
    ensures ok ==> slots == |GotSyms(o, true)|
  {
    hide SeenGot, RelSupported, SectionGot, Matters;
    var seen := new bool[|o.syms|](_ => false);
    slots := 0;
    SeenNone(o);
    for i := 0 to |o.sections|
      invariant slots == |SeenGot(o, true, i)|
      invariant forall s :: 0 <= s < seen.Length ==> seen[s] == (s in SeenGot(o, true, i))
      invariant forall j, r :: 0 <= j < i && 0 <= r < |o.sections[j].rels| && Matters(o, j) ==> RelSupported(o, j, r)
    {
      SeenNext(o, i);
      if Matters(o, i) {
        ok, slots := ScanSection(o, i, seen, slots);
        if !ok {
          return;
        }
      }
    }
    SeenAll(o, true);
    ok := true;
  }

  lemma SeenNone(o: Object)
    ensures SeenGot(o, true, 0) == {}
  {
  }

  // ----- the measure

  datatype PicCost = PicCost(pic: bool, roBound: nat, bodyBound: nat, ramSize: nat, gotBytes: nat)

  /** What the commit writes before the initialisers, in its order: blob, GOT recipe, pointer recipe. */
  function Front(ro: nat, slots: nat, abs: nat): nat {
    RoundUp(RoundUp(RoundUp(ro, 4) + GOT_ENTRY * slots, 4) + ABS_ENTRY * abs, 4)
  }

  /** Bytes between the first and the last initialised byte of a writable half that starts at `got`. */
  function SpanAt(ss: seq<Section>, got: nat): nat {
    if DataOff(ss, got) <= DataEnd(ss, got) then DataEnd(ss, got) - DataOff(ss, got) else 0
  }

  /** Bytes of GOT the measure counts: relocations of loaded sections only. */
  function MeasuredGot(o: Object): nat {
    4 * |GotSyms(o, true)|
  }

  function RoBound(o: Object, names: seq<seq<byte>>): nat {
    VeneerOff(o) + VENEER * VeneerCap(o, names)
  }

  /** What goes before the initialisers, at most. */
  function FrontBound(o: Object, names: seq<seq<byte>>): nat {
    Front(RoBound(o, names), |GotSyms(o, true)|, AbsCap(o, |o.sections|))
  }

  /** The cost in true sums. */
  function CostOf(o: Object, names: seq<seq<byte>>): PicCost {
    var got := MeasuredGot(o);
    PicCost(true, RoBound(o, names), FrontBound(o, names) + SpanAt(o.sections, got),
            RoundUp(EndOf(o.sections, true, got, |o.sections|), BLOCK), got)
  }

  // ----- the same in 32 bits

  /** Four gigabytes of eight-byte relocations. */
  const RELOC_MAX := 0x2000_0000

  function VeneerCapW(relocs: nat, exports: nat): u32 {
    (1 + if exports != 0 && relocs % W32 > exports then exports else relocs % W32) % W32
  }

  function FrontW(ro: u32, slots: nat, abs: nat): u32 {
    MaskUp((MaskUp((MaskUp(ro, 4) + GOT_ENTRY * slots) % W32, 4) + ABS_ENTRY * (abs % W32)) % W32, 4)
  }

  function RoW(o: Object, names: seq<seq<byte>>): u32 {
    (MaskUp(EndW(o.sections, false, 0, |o.sections|), 4)
     + VENEER * VeneerCapW(RelocCount(o.sections, |o.sections|), |names|)) % W32
  }

  /** The cost as it is computed. */
  function CostW(o: Object, names: seq<seq<byte>>): PicCost
    requires MeasuredGot(o) < W32
  {
    var got, ro := MeasuredGot(o), RoW(o, names);
    PicCost(true, ro,
            (FrontW(ro, |GotSyms(o, true)|, AbsCap(o, |o.sections|))
             + DataEndW(o.sections, got) - DataOffW(o.sections, got)) % W32,
            RamSizeW(o.sections, got), got)
  }

  /** As many symbols as a section of sixteen-byte entries can hold. */
  const SYM_MAX := 0x1000_0000

  /** app_pic_measure: section headers and one relocation scan, nothing assembled. What it reports for
      a package that cannot take a slot is not used by any caller. */
  method Measure(o: Object, names: seq<seq<byte>>) returns (c: PicCost)
    requires |o.syms| < SYM_MAX
    ensures MeasuredGot(o) < W32
    ensures c.pic <==> Supported(o) && GotSyms(o, true) != {}
    ensures c.pic ==> c == CostW(o, names)
  {
    hide Supported, EndW, DataOffW, DataEndW, AbsCap, RelocCount, MaskUp, VeneerCapW;
    MeasuredBelow(o);
    hide GotSyms;
    var ok, slots := Scan(o);
    if !ok || slots == 0 {
      return PicCost(false, 0, 0, 0, 0);
    }
    var ss, n := o.sections, |o.sections|;
    var lo, hi := DataSpan(ss, 4 * slots);
    var roEnd, _ := AddUp(ss, false, 0);
    var rwEnd, _ := AddUp(ss, true, 4 * slots);
    var ro := (MaskUp(roEnd, 4) + VENEER * VeneerCapW(RelocCount(ss, n), |names|)) % W32;
    var b := (MaskUp(ro, 4) + GOT_ENTRY * slots) % W32;
    b := (MaskUp(b, 4) + ABS_ENTRY * (AbsCap(o, n) % W32)) % W32;
    b := (MaskUp(b, 4) + hi - lo) % W32;
    c := PicCost(true, ro, b, MaskUp(rwEnd, BLOCK), 4 * slots);
  }

  lemma MeasuredBelow(o: Object)
    requires |o.syms| < SYM_MAX
    ensures MeasuredGot(o) < W32
  {
    GotSymsBelow(o);
    hide GotSyms;
    GotExact(o);
  }

  /** When the true sums stay in 32 bits they are what the measure reports. */
  lemma CostExact(o: Object, names: seq<seq<byte>>)
    requires Fits32(o) && RelocCount(o.sections, |o.sections|) < RELOC_MAX && CostOf(o, names).bodyBound < W32
    ensures MeasuredGot(o) < W32 && CostW(o, names) == CostOf(o, names)
  {
    hide GotSyms, EndOf, EndW, DataOff, DataEnd, DataOffW, DataEndW, RoundUp, MaskUp, Pow2, AbsCap, RelocCount,
      MeasuredGot;
    var ss, got := o.sections, MeasuredGot(o);
    MeasuredFits(o);
    RoExact(o, names);
    FrontExact(RoBound(o, names), |GotSyms(o, true)|, AbsCap(o, |ss|));
    SpanExact(ss, got);
    SpanOk(ss, got);
    hide RoW, RoBound, FrontW, Front, RamSizeW, Fits32;
    RamExact(ss, got);
    Unwrapped(FrontBound(o, names));
    Unwrapped(CostOf(o, names).bodyBound);
  }

  lemma RamExact(ss: seq<Section>, got: u32)
    requires Aligned(ss) && EndOf(ss, true, got, |ss|) <= W32 - BLOCK
    ensures RamSizeW(ss, got) == RoundUp(EndOf(ss, true, got, |ss|), BLOCK)
  {
    hide EndOf, EndW, RoundUp, MaskUp, Pow2;
    SumExact(ss, true, got, |ss|);
    SmallPow2(BLOCK);
    MaskUpIs(EndOf(ss, true, got, |ss|), BLOCK);
    Below32(EndOf(ss, true, got, |ss|));
  }

  /** The measured half is no longer than the one the producer lays out. */
  lemma MeasuredFits(o: Object)
    requires Fits32(o)
    ensures MeasuredGot(o) < W32 && EndOf(o.sections, true, MeasuredGot(o), |o.sections|) <= W32 - BLOCK
  {
    assert EndOf(o.sections, true, MeasuredGot(o), 0) == MeasuredGot(o);
    hide EndOf, RoundUp, Pow2, GotSyms;
    GotExact(o);
    EndMono(o.sections, true, MeasuredGot(o), 0, |o.sections|);
    EndMonoStart(o.sections, true, MeasuredGot(o), GotBytes(o), |o.sections|);
  }

  lemma RoExact(o: Object, names: seq<seq<byte>>)
    requires Fits32(o) && RelocCount(o.sections, |o.sections|) < RELOC_MAX && RoBound(o, names) < W32
    ensures RoW(o, names) == RoBound(o, names)
  {
    hide EndOf, EndW, RoundUp, MaskUp, Pow2, GotBytes, RelocCount;
    var end := EndOf(o.sections, false, 0, |o.sections|);
    SumExact(o.sections, false, 0, |o.sections|);
    SmallPow2(4);
    MaskUpIs(end, 4);
    Unwrapped(RoundUp(end, 4));
    CapExact(RelocCount(o.sections, |o.sections|), |names|);
  }

  lemma CapExact(relocs: nat, exports: nat)
    requires relocs < W32 - 1
    ensures VeneerCapW(relocs, exports) == 1 + if exports != 0 && relocs > exports then exports else relocs
  {
  }

  lemma FrontExact(ro: u32, slots: nat, abs: nat)
    ensures FrontW(ro, slots, abs) == Front(ro, slots, abs) % W32
  {
    hide RoundUp, MaskUp, Pow2;
    SmallPow2(4);
    Unwrapped(ro);
    MaskUpIs(ro, 4);
    var b := RoundUp(ro, 4) + GOT_ENTRY * slots;
    WrapsAlone(RoundUp(ro, 4), GOT_ENTRY * slots);
    MaskUpIs(b, 4);
    var c := RoundUp(b, 4) + ABS_ENTRY * abs;
    WrapsTimes(RoundUp(b, 4), abs);
    MaskUpIs(c, 4);
  }

  lemma WrapsTimes(v: nat, n: nat)
    ensures (v % W32 + ABS_ENTRY * (n % W32)) % W32 == (v + ABS_ENTRY * n) % W32
  {
  }

  // ----- routing

  datatype Route = CopyToRam | FlashSlot | TooBig
  datatype RouteIn = RouteIn(pic: bool, svc: bool, slotFree: bool, slotBytes: u32, needBytes: u32)

  /** The most body a slot can hold: the last page has to fit whole. */
  function BodyCapacity(slotBytes: u32): (c: nat)
    ensures c % SlotFormat.PAGE == 0
  {
    if slotBytes <= SlotFormat.HEADER then 0 else (slotBytes - SlotFormat.HEADER) / SlotFormat.PAGE * SlotFormat.PAGE
  }

  function RouteOf(i: RouteIn): Route {
    if !i.pic || !i.svc then CopyToRam else
    if i.slotBytes == 0 || !i.slotFree then CopyToRam else
    if RoundUp(i.needBytes, SlotFormat.PAGE) % W32 > BodyCapacity(i.slotBytes) then TooBig else FlashSlot
  }

  /** A package routed to the slot fits it, pages and header included. The 32-bit rounding wraps for a
      need within a page of 2^32, and there the answer is wrong: see RouteWraps. */
  lemma RoutedFits(i: RouteIn, body: nat)
    requires RouteOf(i) == FlashSlot && body <= i.needBytes <= 0xFFFF_FF00
    ensures SlotFormat.HEADER + RoundUp(body, SlotFormat.PAGE) <= i.slotBytes || body == 0
  {
    hide RoundUp;
    RoundUpMono(body, i.needBytes, SlotFormat.PAGE);
  }

  /** And the other way: which way every request goes, short of that wrap. */
  lemma RouteExact(i: RouteIn)
    requires i.needBytes <= 0xFFFF_FF00
    ensures RouteOf(i) == CopyToRam <==> !(i.pic && i.svc && i.slotFree && i.slotBytes != 0)
    ensures RouteOf(i) == FlashSlot <==>
      && i.pic && i.svc && i.slotFree && i.slotBytes != 0
      && (i.needBytes == 0 || 4096 + RoundUp(i.needBytes, 256) <= i.slotBytes)
  {
    var r := RoundUp(i.needBytes, SlotFormat.PAGE);
    assert r == 256 * (r / 256) && (i.needBytes == 0 <==> r == 0);
    hide RoundUp;
    Unwrapped(r);
    PageFloor(r / 256, i.slotBytes);
  }

  lemma PageFloor(k: nat, slot: u32)
    ensures 256 * k <= BodyCapacity(slot) <==> k == 0 || 4096 + 256 * k <= slot
  {
  }

  /** Exactly when the page-rounded need survives 32 bits. */
  lemma RouteWraps(need: u32)
    ensures RoundUp(need, SlotFormat.PAGE) % W32 == RoundUp(need, SlotFormat.PAGE) <==> need <= 0xFFFF_FF00
    ensures RouteOf(RouteIn(true, true, true, 8192, 0xFFFF_FF01)) == FlashSlot
  {
  }

  // ----- the decision is sound

  /** The measured GOT is the one the producer reserves exactly when every symbol with a GOT_BREL has
      one in a section that is loaded. */
  lemma GotExact(o: Object)
    ensures MeasuredGot(o) == GotBytes(o) <==> GotSyms(o, true) == GotSyms(o, false)
    ensures MeasuredGot(o) <= GotBytes(o)
  {
    assert GotSyms(o, false) == GotSyms(o, true) + (GotSyms(o, false) - GotSyms(o, true));
  }

  /** The pre-flight turns away nothing the producer takes: what was produced is supported, but for relocations of
      read-only sections that lie outside them and so patch nothing. */
  lemma ProducedSupported(o: Object, names: seq<seq<byte>>, blob: seq<byte>, m: PicManifest, pool: seq<nat>,
    vals: Patches,
                          i: nat, r: nat)
    requires Produced(o, names, blob, m, pool, vals) && i < |o.sections| && Matters(o, i) && r < |o.sections[i].rels|
    ensures RelSupported(o, i, r)
      || (!o.sections[o.sections[i].info].write
          && o.sections[i].rels[r].offset + 4 > o.sections[o.sections[i].info].size)
  {
    hide Fits32, AllAbsOk, ExtentsFit, PoolFine, VeneerOff, Laid, PicSites.PatchesOk, PicPages.Complete, PicSites.Whole,
      RamRels, RelSupported, PointersIn;
    if o.sections[o.sections[i].info].write {
      RamSupported(o, i, r);
    } else {
      BlobSupported(o, names, pool, m.got, vals, i, r);
    }
  }

  lemma RamSupported(o: Object, i: nat, r: nat)
    requires PointersIn(o, |o.sections|) && i < |o.sections| && ForRam(o, i) && r < |o.sections[i].rels|
    ensures RelSupported(o, i, r)
  {
    hide SiteOk;
    assert PointerIn(o, i, r);
  }

  lemma BlobSupported(o: Object, names: seq<seq<byte>>, pool: seq<nat>, got: seq<GotEntry>, vals: Patches, i: nat,
    r: nat)
    requires o.Read() && PicSites.PatchesOk(o, names, pool, got, vals) && PicPages.Complete(o, vals.Keys)
    requires i < |o.sections| && ForBlob(o, i) && r < |o.sections[i].rels|
    ensures RelSupported(o, i, r) || o.sections[i].rels[r].offset + 4 > o.sections[o.sections[i].info].size
  {
    hide PicSites.PatchesOk, BlobOff, SectionRels;
    if PicPages.Sited(o, i, r) {
      assert PicPages.NoneLeft(o, vals.Keys, i);
      PatchedKind(o, names, pool, got, vals, PicPages.IndexOfRel(o, i, r));
      BlobRelsAt(o, |o.sections|, i, r);
    }
  }

  lemma PatchedKind(o: Object, names: seq<seq<byte>>, pool: seq<nat>, got: seq<GotEntry>, vals: Patches, k: nat)
    requires o.Read() && PicSites.PatchesOk(o, names, pool, got, vals) && k in vals
    ensures k < |PicSites.Rels(o)| && Patchable(PicSites.Rels(o)[k].kind)
  {
    hide PicSites.Rels, PicSites.Before, Resolves;
  }

  /** The blob never outgrows its bound. */
  lemma RoBounded(o: Object, names: seq<seq<byte>>, blob: seq<byte>, m: PicManifest, pool: seq<nat>, vals: Patches)
    requires Produced(o, names, blob, m, pool, vals)
    ensures |blob| <= RoBound(o, names)
  {
    hide BlobOk, AllAbsOk, Fits32, ExtentsFit, DataOff, DataEnd, VeneerOff, RoundUp, EndOf;
    BlobLength(o, names, m.got, pool, vals, blob);
  }

  /** How long the body is, and exactly when the bound covers it: what the other parts leave unused has to
      make up for any growth of the initialised span between the measured and the reserved GOT. */
  lemma BodyExact(o: Object, names: seq<seq<byte>>, blob: seq<byte>, m: PicManifest, pool: seq<nat>, vals: Patches)
    requires Produced(o, names, blob, m, pool, vals)
    ensures var front := Front(|blob|, |m.got|, |m.abs|);
      && |SlotImage.WithData(blob, m)| == front + SpanAt(o.sections, GotBytes(o))
      && front <= FrontBound(o, names)
      && (|SlotImage.WithData(blob, m)| <= CostOf(o, names).bodyBound <==>
            SpanAt(o.sections, GotBytes(o)) - SpanAt(o.sections, MeasuredGot(o)) <= FrontBound(o, names) - front)
  {
    hide BlobOk, Fits32, RamPristine, DataOff, DataEnd, VeneerOff, RoundUp, EndOf, AbsOk, AllAbsOk, PoolFine, Gots,
      Abses;
    hide VeneerCap, EntryAt, GotSyms, SlotImage.WithData, AbsCap, Front;
    RoBounded(o, names, blob, m, pool, vals);
    AbsBounded(o, names, pool, m.abs);
    FrontMono(|blob|, |m.got|, |m.abs|, RoBound(o, names), |GotSyms(o, true)|, AbsCap(o, |o.sections|));
    BodyLength(blob, m);
  }

  /** What the commit writes stays within the body bound if the initialised span does not grow when the GOT
      does; the RAM size never falls short of the measure, and is the measured one if the GOT is. */
  lemma CostSound(o: Object, names: seq<seq<byte>>, blob: seq<byte>, m: PicManifest, pool: seq<nat>, vals: Patches)
    requires Produced(o, names, blob, m, pool, vals)
    ensures SpanAt(o.sections, GotBytes(o)) <= SpanAt(o.sections, MeasuredGot(o)) ==>
      |SlotImage.WithData(blob, m)| <= CostOf(o, names).bodyBound
    ensures CostOf(o, names).ramSize <= m.ext.ramSize && CostOf(o, names).gotBytes <= m.ext.gotBytes
    ensures GotSyms(o, true) == GotSyms(o, false) ==>
      CostOf(o, names).ramSize == m.ext.ramSize && CostOf(o, names).gotBytes == m.ext.gotBytes
  {
    BodyExact(o, names, blob, m, pool, vals);
    hide BlobOk, Fits32, RamPristine, DataOff, DataEnd, VeneerOff, RoundUp, EndOf, AllAbsOk, PoolFine, VeneerCap,
      EntryAt;
    hide SlotImage.WithData, AbsCap, Front, SpanAt, FrontBound, GotSyms;
    GotExact(o);
    var ss := o.sections;
    EndMonoStart(ss, true, MeasuredGot(o), GotBytes(o), |ss|);
    RoundUpMono(EndOf(ss, true, MeasuredGot(o), |ss|), RamEnd(o), BLOCK);
  }

  // ----- when the span does not grow

  /** Growing the GOT by a multiple of every alignment moves the whole half. */
  ghost predicate Shifts(ss: seq<Section>, d: int) {
    forall s :: s in ss && InHalf(s, true) ==> d % AlignOf(s) == 0
  }

  lemma RoundUpShift(v: nat, d: nat, a: nat)
    requires 0 < a && d % a == 0
    ensures RoundUp(v + d, a) == RoundUp(v, a) + d
  {
    var x, y, k := RoundUp(v + d, a), RoundUp(v, a) + d, d / a;
    assert d == k * a;
    SumMod(RoundUp(v, a), d, 0, a);
    if x < y {
      NoMultipleBetween(x, y, a);
    } else if y < x {
      NoMultipleBetween(y, x, a);
    }
  }

  lemma {:induction false} EndShift(ss: seq<Section>, got: nat, d: nat, n: nat)
    requires n <= |ss| && Shifts(ss, d)
    ensures EndOf(ss, true, got + d, n) == EndOf(ss, true, got, n) + d
    ensures n < |ss| && InHalf(ss[n], true) ==> OffOf(ss, true, got + d, n) == OffOf(ss, true, got, n) + d
  {
    hide RoundUp;
    if n > 0 {
      EndShift(ss, got, d, n - 1);
    }
    if n < |ss| && InHalf(ss[n], true) {
      RoundUpShift(EndOf(ss, true, got, n), d, AlignOf(ss[n]));
    }
  }

  lemma {:induction false} SpanShifts(ss: seq<Section>, got: nat, d: nat, n: nat)
    requires n <= |ss| && Shifts(ss, d) && EndOf(ss, true, got + d, |ss|) < NO_DATA
    ensures DataLo(ss, got, n) == NO_DATA <==> DataLo(ss, got + d, n) == NO_DATA
    ensures DataLo(ss, got, n) == NO_DATA ==> DataHi(ss, got, n) == DataHi(ss, got + d, n) == 0
    ensures DataLo(ss, got, n) != NO_DATA ==>
      DataLo(ss, got + d, n) == DataLo(ss, got, n) + d && DataHi(ss, got + d, n) == DataHi(ss, got, n) + d
  {
    hide RoundUp, OffOf, EndOf, Shifts;
    if n > 0 {
      SpanShifts(ss, got, d, n - 1);
      if Loaded(ss[n - 1]) {
        EndShift(ss, got, d, n - 1);
        OffBounds(ss, true, got + d, n - 1);
      }
    }
  }

  /** So if the stray symbols take a multiple of every writable section's alignment, and with no section
      aligned past four they always do, the span is the measured one. */
  lemma SpanKept(o: Object)
    requires Fits32(o)
    requires Shifts(o.sections, GotBytes(o) - MeasuredGot(o))
      || forall s :: s in o.sections && InHalf(s, true) ==> AlignOf(s) == 4
    ensures SpanAt(o.sections, GotBytes(o)) == SpanAt(o.sections, MeasuredGot(o))
  {
    hide Pow2, EndOf, DataLo, DataHi, GotSyms, RoundUp;
    GotExact(o);
    SpanShifts(o.sections, MeasuredGot(o), GotBytes(o) - MeasuredGot(o), |o.sections|);
  }

  lemma AbsBounded(o: Object, names: seq<seq<byte>>, pool: seq<nat>, abs: seq<AbsEntry>)
    requires AllAbsOk(o, names, pool, RamRels(o, |o.sections|), abs)
    ensures |abs| <= AbsCap(o, |o.sections|)
  {
    hide AbsOk;
  }

  lemma FrontMono(ro: nat, slots: nat, abs: nat, ro': nat, slots': nat, abs': nat)
    requires ro <= ro' && slots <= slots' && abs <= abs'
    ensures Front(ro, slots, abs) <= Front(ro', slots', abs')
  {
    hide RoundUp;
    RoundUpMono(ro, ro', 4);
    var g, g' := RoundUp(ro, 4) + GOT_ENTRY * slots, RoundUp(ro', 4) + GOT_ENTRY * slots';
    RoundUpMono(g, g', 4);
    RoundUpMono(RoundUp(g, 4) + ABS_ENTRY * abs, RoundUp(g', 4) + ABS_ENTRY * abs', 4);
  }

  lemma BodyLength(blob: seq<byte>, m: PicManifest)
    ensures |SlotImage.WithData(blob, m)| == Front(|blob|, |m.got|, |m.abs|) + |m.dataInit|
  {
    hide RoundUp, Gots, Abses;
  }

  /** The pre-erase decision: measured as position-independent, routed to the slot, then whatever the
      producer makes fits the slot, so a later install of it can fail only if the chip does. The span condition
      is needed: see PicStray. */
  lemma PreEraseSound(o: Object, names: seq<seq<byte>>, blob: seq<byte>, m: PicManifest, pool: seq<nat>, vals: Patches,
    i: RouteIn)
    requires Produced(o, names, blob, m, pool, vals) && RelocCount(o.sections, |o.sections|) < RELOC_MAX
    requires SpanAt(o.sections, GotBytes(o)) <= SpanAt(o.sections, MeasuredGot(o))
      && CostOf(o, names).bodyBound <= 0xFFFF_FF00
    requires MeasuredGot(o) < W32 && i.needBytes == CostW(o, names).bodyBound && RouteOf(i) == FlashSlot
    ensures SlotFormat.HEADER + |SlotImage.Body(blob, m)| <= i.slotBytes
  {
    hide CostW, CostOf, SpanAt, Fits32, BlobOk, PoolFine, AllAbsOk, ExtentsFit, MeasuredGot;
    CostExact(o, names);
    CostSound(o, names, blob, m, pool, vals);
    NotEmpty(o, names, blob, m, pool, vals);
    RoutedFits(i, |SlotImage.WithData(blob, m)|);
  }

  lemma NotEmpty(o: Object, names: seq<seq<byte>>, blob: seq<byte>, m: PicManifest, pool: seq<nat>, vals: Patches)
    requires Produced(o, names, blob, m, pool, vals)
    ensures 0 < |SlotImage.WithData(blob, m)|
  {
    hide BlobOk, PoolFine, AllAbsOk, Fits32, RamPristine, DataOff, DataEnd, RamSize, Gots, Abses, RoundUp, EntryAt,
      VeneerOff;
    HasCode(o, m.ext.entryOff);
    BlobLength(o, names, m.got, pool, vals, blob);
  }

  lemma BlobLength(o: Object, names: seq<seq<byte>>, got: seq<GotEntry>, pool: seq<nat>, vals: Patches, blob: seq<byte>)
    requires o.Read() && BlobOk(o, names, pool, got, vals, blob)
    ensures |blob| == VeneerOff(o) + VENEER * |pool|
  {
    hide PicSites.PatchesOk, PicPages.Complete, VeneerOff, Laid;
    LaidLength(VeneerBytes, VENEER, pool);
  }

  lemma HasCode(o: Object, off: u32)
    requires EntryAt(o, off)
    ensures 0 < VeneerOff(o)
  {
    hide VeneerOff, BlobOff;
    var e: nat :| EntryIs(o, off, e);
    SectionFits(o, o.syms[e].shndx);
  }
}

/** Installing a package and loading it later means what loading it directly would have meant: every
    GOT load, branch and stored pointer denotes the address app_load's rules give for the place the
    two halves ended up in. */
module TwoStage {
  import opened Bytes
  import opened Elf
  import opened ElfLayout
  import opened Manifest
  import opened Sets
  import opened PicLayout
  import opened PicTables
  import opened PicPatch
  import opened PicSites
  import opened PicPages
  import opened PicRam
  import opened PicInstall
  import opened PicLoad
  import opened ThumbCode
  import Thumb
  import AppLayout
  import AppLoad

  /** Where sections and veneers are when the blob is at `b.slot` and the RAM block at `b.ram`. */
  function PlacedAt(o: Object, pool: seq<nat>, b: Bases): (p: Placement)
    ensures |p.addr| == |o.sections| && p.veneers.Keys == set ix | ix in pool
  {
    Placement(seq(|o.sections|, i requires 0 <= i < |o.sections| => SectionAddr(o, b, i)),
              map ix | ix in pool :: (b.slot + VeneerOff(o) + VENEER * PosOf(pool, ix)) % W32)
  }

  function SectionAddr(o: Object, b: Bases, i: nat): u32
    requires i < |o.sections|
  {
    if o.sections[i].write then (b.ram + RamOff(o, i)) % W32 else (b.slot + BlobOff(o, i)) % W32
  }

  /** The symbol's address under that placement, by app_load's rules. */
  ghost function SymAddr(o: Object, names: seq<seq<byte>>, pool: seq<nat>, b: Bases, idx: nat): u32
    requires TargetOf(o, names, idx).Good? && Known(TargetOf(o, names, idx).value, pool)
  {
    TargetInRange(o, names, idx);
    Address(TargetOf(o, names, idx).value, PlacedAt(o, pool, b))
  }

  /** Region base plus recorded value is the symbol's address. */
  lemma RefMeans(o: Object, names: seq<seq<byte>>, pool: seq<nat>, b: Bases, idx: nat, r: Ref)
    requires Resolves(o, names, pool, idx, r) && b.slot % BLOCK == 0
    ensures Pointer(b, r.cls, r.value) == SymAddr(o, names, pool, b, idx)
  {
    TargetInRange(o, names, idx);
    hide TargetOf, RefOf, Pointer, Address, PlacedAt;
    TargetMeans(o, pool, b, TargetOf(o, names, idx).value, IsFunc(o, idx));
  }

  lemma TargetMeans(o: Object, pool: seq<nat>, b: Bases, t: Target, isFunc: bool)
    requires Known(t, pool) && b.slot % BLOCK == 0 && (t.Within? ==> t.section < |o.sections|)
    ensures var r := RefOf(o, pool, t, isFunc); Pointer(b, r.cls, r.value) == Address(t, PlacedAt(o, pool, b))
  {
    hide BlobOff, RamOff, VeneerOff, PlacedAt;
    match t
    case Firmware(ix) =>
      VeneersStart(o);
      VeneerMeans(b.slot, VeneerOff(o), PosOf(pool, ix));
      PlacedVeneer(o, pool, b, ix);
    case Absolute(a) =>
    case Within(s, v) =>
      PlacedSection(o, pool, b, s);
      if o.sections[s].write {
        SplitSum(b.ram, RamOff(o, s), v);
      } else {
        SplitSum(b.slot, BlobOff(o, s), v);
      }
  }

  lemma VeneersStart(o: Object)
    ensures VeneerOff(o) % 4 == 0
  {
  }

  lemma PlacedVeneer(o: Object, pool: seq<nat>, b: Bases, ix: nat)
    requires ix in pool
    ensures PlacedAt(o, pool, b).veneers[ix] == (b.slot + VeneerOff(o) + VENEER * PosOf(pool, ix)) % W32
  {
    hide VeneerOff, SectionAddr, PosOf;
  }

  lemma PlacedSection(o: Object, pool: seq<nat>, b: Bases, i: nat)
    requires i < |o.sections|
    ensures PlacedAt(o, pool, b).addr[i] == SectionAddr(o, b, i)
  {
    hide VeneerOff, SectionAddr, PosOf;
  }

  lemma SplitSum(base: u32, off: nat, v: u32)
    ensures (base + (off + v) % W32) % W32 == ((base + off) % W32 + v) % W32
  {
  }

  lemma VeneerMeans(base: u32, off: nat, k: nat)
    requires base % BLOCK == 0 && off % 4 == 0
    ensures (base + (off + VENEER * k + 1) % W32) % W32 == (base + off + VENEER * k) % W32 / 2 * 2 + 1
  {
    var x := base + off + VENEER * k;
    assert x % 2 == 0;
    EvenMod(x);
    SplitSum(base, off + VENEER * k, 1);
  }

  lemma EvenMod(x: nat)
    requires x % 2 == 0
    ensures x % W32 % 2 == 0 && (x + 1) % W32 == x % W32 + 1 && x % W32 / 2 * 2 == x % W32
  {
    var q, h := x / W32, x / 2;
    assert x % W32 == 2 * (h - 0x8000_0000 * q);
    Digits(q, W32, x % W32 + 1);
  }

  // ----- the blob

  /** No two patching relocations share a byte. */
  ghost predicate SitesApart(o: Object) {
    forall j, k ::
      0 <= j < |Rels(o)| && 0 <= k < |Rels(o)| && j != k && Patchable(Rels(o)[j].kind) && Patchable(Rels(o)[k].kind)
      ==> Apart(Rels(o)[j].site, Rels(o)[k].site)
  }

  /** Then a site holds its own patch of its own original bytes. */
  lemma SitePatched(o: Object, names: seq<seq<byte>>, pool: seq<nat>, got: seq<GotEntry>, vals: Patches, k: nat)
    requires o.Read() && PatchesOk(o, names, pool, got, vals) && SitesApart(o) && k in vals
    ensures var site := Rels(o)[k].site; var old4 := Blank(o)[site..site + 4];
      && Before(o, vals, k) == old4 && Whole(o, vals)[site..site + 4] == PatchBytes(old4, vals[k])
  {
    hide PatchOk, PatchBytes, PatchAt, Pristine;
    var rels, b := Rels(o), Blank(o);
    var site := rels[k].site;
    assert forall j :: j in vals ==> PatchOk(o, names, pool, got, rels[j], Before(o, vals, j), vals[j]);
    AllPatchable(o, names, pool, got, vals);
    FoldSettled(b, rels, vals, 0, k, site);
    FoldSettled(b, rels, vals, k + 1, |rels|, site);
  }

  lemma AllPatchable(o: Object, names: seq<seq<byte>>, pool: seq<nat>, got: seq<GotEntry>, vals: Patches)
    requires o.Read() && PatchesOk(o, names, pool, got, vals)
    ensures forall j :: j in vals ==> j < |Rels(o)| && Patchable(Rels(o)[j].kind)
  {
    hide Rels, Before, Resolves;
  }

  lemma BlobShows(o: Object, names: seq<seq<byte>>, pool: seq<nat>, got: seq<GotEntry>, vals: Patches, blob: seq<byte>,
    k: nat)
    requires o.Read() && BlobOk(o, names, pool, got, vals, blob) && SitesApart(o) && k in vals
    ensures var site := Rels(o)[k].site; var old4 := Blank(o)[site..site + 4];
      && site + 4 <= VeneerOff(o) <= |blob| && blob[site..site + 4] == PatchBytes(old4, vals[k])
      && PatchOk(o, names, pool, got, Rels(o)[k], old4, vals[k])
  {
    SitePatched(o, names, pool, got, vals, k);
    hide PatchBytes, Whole, Laid, Rels, PatchOk;
    var site := Rels(o)[k].site;
    assert blob[..VeneerOff(o)] == Whole(o, vals);
    SubSlice(blob, 0, VeneerOff(o), site, 4);
  }

  lemma Builds(o: Object, names: seq<seq<byte>>, blob: seq<byte>, m: PicManifest, pool: seq<nat>, vals: Patches)
    requires Produced(o, names, blob, m, pool, vals)
    ensures Buildable(m) && 4 * |m.got| <= GotBytes(o) <= m.ext.ramSize
    ensures forall k :: 0 <= k < |m.abs| ==> GotBytes(o) <= m.abs[k].site
  {
    hide BlobOk, Resolves, RoundUp, RamPristine, EntryAt, PoolFine, Fits32;
    LayoutFacts(o);
    SubsetSize(GotSyms(o, true), GotSyms(o, false));
    assert RamEnd(o) <= RamSize(o);
    hide RamRels, GotBytes, RamEnd, GotSyms;
    forall k | 0 <= k < |m.abs|
      ensures GotBytes(o) <= m.abs[k].site && m.abs[k].site + 4 <= RamSize(o)
    {
      assert AbsOk(o, names, pool, RamRels(o, |o.sections|)[k], m.abs[k]);
      Unwrapped(RamRels(o, |o.sections|)[k].site);
    }
  }

  /** GOT words hold their pointers after everything else has been written. */
  lemma GotAfterLoad(m: PicManifest, b: Bases, i: nat, got: nat)
    requires Buildable(m) && i < |m.got| && 4 * |m.got| <= got <= m.ext.ramSize
    requires forall k :: 0 <= k < |m.abs| ==> got <= m.abs[k].site
    ensures Rd32(WithAbs(m, b, |m.abs|), 4 * i) == Pointer(b, m.got[i].cls, m.got[i].value)
  {
    hide WithAbs, WithGot, Pointer, Rd32, Le32;
    AbsLeaves(m, b, |m.abs|, 4 * i, 4 * i + 4);
    GotWordHeld(m, b, i, |m.got|);
    ReadBack32(Pointer(b, m.got[i].cls, m.got[i].value), WithAbs(m, b, |m.abs|), 4 * i);
  }

  /** What BlobShows says about one kind of site. */
  lemma GotSite(o: Object, names: seq<seq<byte>>, blob: seq<byte>, m: PicManifest, pool: seq<nat>, vals: Patches,
    k: nat)
    requires Produced(o, names, blob, m, pool, vals) && SitesApart(o) && k < |Rels(o)| && Rels(o)[k].kind == GOT_BREL
    ensures k in vals && Rels(o)[k].site + 4 <= |blob| && Resolves(o, names, pool, Rels(o)[k].sym, vals[k].ref)
    ensures AsEntry(vals[k].ref) in m.got && Rd32(blob, Rels(o)[k].site) == 4 * PosOf(m.got, AsEntry(vals[k].ref))
  {
    hide Fits32, AllAbsOk, ExtentsFit, PoolFine, Resolves, Rels, Rd32, Le32, Blank, Whole, PatchesOk, SitesApart;
    BlobShows(o, names, pool, m.got, vals, blob, k);
    ReadBack32(vals[k].off, blob, Rels(o)[k].site);
  }

  /** A GOT load: the word at the site is the offset of a GOT slot, and that slot holds the symbol's
      address once the package is loaded, whatever the fixups did after it was written. */
  lemma GotLoadMeans(o: Object, names: seq<seq<byte>>, blob: seq<byte>, m: PicManifest, pool: seq<nat>, vals: Patches,
                     b: Bases, k: nat)
    requires Produced(o, names, blob, m, pool, vals) && SitesApart(o) && b.slot % BLOCK == 0
    requires k < |Rels(o)| && Rels(o)[k].kind == GOT_BREL
    ensures k in vals && Rels(o)[k].site + 4 <= |blob| && Resolves(o, names, pool, Rels(o)[k].sym, vals[k].ref)
      && Buildable(m)
    ensures var off := Rd32(blob, Rels(o)[k].site);
      && off % 4 == 0 && off + 4 <= GotBytes(o) <= m.ext.ramSize
      && Rd32(WithAbs(m, b, |m.abs|), off) == SymAddr(o, names, pool, b, Rels(o)[k].sym)
  {
    hide Produced, SitesApart, Rels, WithAbs, Rd32, SymAddr, Buildable, Pointer, GotBytes;
    Builds(o, names, blob, m, pool, vals);
    GotSite(o, names, blob, m, pool, vals, k);
    var ref := vals[k].ref;
    GotAfterLoad(m, b, PosOf(m.got, AsEntry(ref)), GotBytes(o));
    RefMeans(o, names, pool, b, Rels(o)[k].sym, ref);
  }

  /** A branch: it lands on the symbol plus the branch's own addend, wherever the blob is, and only
      its displacement bits were rewritten. */
  lemma BranchMeans(o: Object, names: seq<seq<byte>>, blob: seq<byte>, m: PicManifest, pool: seq<nat>, vals: Patches,
                    b: Bases, k: nat)
    requires Produced(o, names, blob, m, pool, vals) && SitesApart(o) && b.slot % BLOCK == 0
    requires k < |Rels(o)| && IsBranch(Rels(o)[k].kind)
    ensures k in vals && Rels(o)[k].site + 4 <= VeneerOff(o) <= |blob|
      && Resolves(o, names, pool, Rels(o)[k].sym, vals[k].ref)
    ensures var site := Rels(o)[k].site;
      var was := Thumb.PairAt(Blank(o), site); var now := Thumb.PairAt(blob, site);
      && Thumb.Opcode(now) == Thumb.Opcode(was)
      && (b.slot + site + 4 + Thumb.Decode(now)) % W32
         == (SymAddr(o, names, pool, b, Rels(o)[k].sym) / 2 * 2 + Thumb.Decode(was) + 4) % W32
  {
    hide Produced, SitesApart, Rels, SymAddr, Thumb.Decode, Thumb.Encode, Thumb.PairAt, VeneerOff, Thumb.Opcode;
    hide Resolves, Blank, BranchDisp;
    BranchSite(o, names, blob, m, pool, vals, k);
    var site, ref := Rels(o)[k].site, vals[k].ref;
    var was := Thumb.PairAt(Blank(o), site);
    DispEven(was, site, ref.value);
    Thumb.RoundTrip(was, vals[k].disp);
    RefMeans(o, names, pool, b, Rels(o)[k].sym, ref);
    BranchLands(b, was, site, ref.value);
  }

  lemma BranchLands(b: Bases, was: Thumb.Pair, site: nat, value: u32)
    requires b.slot % BLOCK == 0
    ensures (b.slot + site + 4 + BranchDisp(was, site, value)) % W32
            == (Pointer(b, Slot, value) / 2 * 2 + Thumb.Decode(was) + 4) % W32
  {
    hide Thumb.Decode;
    LandsOn(b.slot, site, value, Thumb.Decode(was), BranchDisp(was, site, value));
  }

  lemma BranchSite(o: Object, names: seq<seq<byte>>, blob: seq<byte>, m: PicManifest, pool: seq<nat>, vals: Patches,
    k: nat)
    requires Produced(o, names, blob, m, pool, vals) && SitesApart(o) && k < |Rels(o)| && IsBranch(Rels(o)[k].kind)
    ensures o.Read() && k in vals && Rels(o)[k].site + 4 <= VeneerOff(o) <= |blob|
      && Resolves(o, names, pool, Rels(o)[k].sym, vals[k].ref)
    ensures var site := Rels(o)[k].site; var was := Thumb.PairAt(Blank(o), site);
      && vals[k].Branch? && vals[k].ref.cls == Slot && vals[k].disp == BranchDisp(was, site, vals[k].ref.value)
      && Thumb.InRange(vals[k].disp) && Thumb.PairAt(blob, site) == Thumb.Encode(was, vals[k].disp) && site % 2 == 0
  {
    BlobShows(o, names, pool, m.got, vals, blob, k);
    BranchEven(o, vals.Keys, k);
    hide Fits32, AllAbsOk, ExtentsFit, PoolFine, Resolves, Rels, Whole, PatchesOk, SitesApart, BranchDisp, Thumb.Encode,
      Thumb.PairBytes;
    var site := Rels(o)[k].site;
    var old4 := Blank(o)[site..site + 4];
    SamePair(Blank(o), site);
    Thumb.PairReadBack(Thumb.Encode(Thumb.PairAt(old4, 0), vals[k].disp), blob, site);
  }

  lemma SamePair(s: seq<byte>, site: nat)
    requires site + 4 <= |s|
    ensures Thumb.PairAt(s[site..site + 4], 0) == Thumb.PairAt(s, site)
  {
  }

  lemma BranchEven(o: Object, done: set<nat>, k: nat)
    requires Complete(o, done) && Fits32(o) && k < |Rels(o)| && IsBranch(Rels(o)[k].kind)
    ensures Rels(o)[k].site % 2 == 0
  {
    hide BlobRels, VeneerOff, RoundUp, EndOf, GotBytes;
    var i, r := BlobRelsFrom(o, |o.sections|, k);
    LayoutFacts(o);
    assert Checked(o, i) && RelSiteOk(o, i, r);
    EvenSite(o, i, r);
  }

  lemma EvenSite(o: Object, i: nat, r: nat)
    requires i < |o.sections| && ForBlob(o, i) && r < |o.sections[i].rels| && VeneerOff(o) <= RO_MAX + 4
    requires RelSiteOk(o, i, r) && IsBranch(RelAt(o, i, r).kind) && Pow2(AlignOf(o.sections[o.sections[i].info]))
    ensures RelAt(o, i, r).site % 2 == 0
  {
    hide RoundUp, VeneerOff, EndOf, Pow2;
    SiteInTarget(o, i, r);
    var off, offset := BlobOff(o, o.sections[i].info), o.sections[i].rels[r].offset;
    assert offset % 2 == 0;
    OffBounds(o.sections, false, 0, o.sections[i].info);
    EvenAlign(off, AlignOf(o.sections[o.sections[i].info]));
    hide BlobOff, OffOf;
    EvenWrap(off, offset);
  }

  lemma EvenWrap(x: nat, y: nat)
    requires x % 2 == 0 && y % 2 == 0
    ensures (x + y) % W32 % 2 == 0
  {
    EvenMod(x + y);
  }

  lemma EvenAlign(off: nat, a: nat)
    requires Pow2(a) && a >= 4 && off % a == 0
    ensures off % 2 == 0
  {
    FactorMod(off, 2, a / 2);
  }

  lemma DispEven(p: Thumb.Pair, site: nat, value: u32)
    requires site % 2 == 0
    ensures BranchDisp(p, site, value) % 2 == 0
  {
    hide Thumb.Decode;
  }

  lemma ModAdd(x: int, c: int)
    ensures (x % W32 + c) % W32 == (x + c) % W32
  {
  }

  /** Clearing the Thumb bit commutes with adding an even base. */
  lemma EvenPart(slot: u32, value: u32)
    requires slot % BLOCK == 0
    ensures (slot + value) % W32 / 2 * 2 == (slot + value / 2 * 2) % W32
  {
    var k := 16 * (slot / BLOCK) + value / 2;
    var s := slot + value / 2 * 2;
    assert s == 2 * k;
    Digits(k, 2, 0);
    EvenMod(s);
    RoundsDown(s % W32);
    assert slot + value == s || slot + value == s + 1;
  }

  lemma RoundsDown(y: nat)
    requires y / 2 * 2 == y
    ensures (y + 1) / 2 * 2 == y
  {
    Digits(y / 2, 2, 1);
  }

  lemma SignedMod(y: int, x: u32)
    ensures (y + Signed(x)) % W32 == (y + x) % W32
  {
  }

  lemma LandsOn(slot: u32, site: nat, value: u32, addend: int, disp: int)
    requires slot % BLOCK == 0 && disp == Signed((value / 2 * 2 + addend + 4) % W32) - (site + 4)
    ensures (slot + site + 4 + disp) % W32 == ((slot + value) % W32 / 2 * 2 + addend + 4) % W32
  {
    hide Signed;
    var t := value / 2 * 2 + addend + 4;
    SignedMod(slot, t % W32);
    ModAdd(t, slot);
    EvenPart(slot, value);
    ModAdd(slot + value / 2 * 2, addend + 4);
  }

  // ----- the writable half

  /** Every pointer's symbol resolves and its site is in the block, past the GOT. */
  ghost predicate PointersOk(o: Object, names: seq<seq<byte>>, pool: seq<nat>) {
    forall k :: 0 <= k < |RamRels(o, |o.sections|)| ==> PointerOk(o, names, pool, RamRels(o, |o.sections|)[k])
  }

  ghost predicate PointerOk(o: Object, names: seq<seq<byte>>, pool: seq<nat>, rel: RamRel) {
    && GotBytes(o) <= rel.site && rel.site + 4 <= RamSize(o)
    && TargetOf(o, names, rel.sym).Good? && Known(TargetOf(o, names, rel.sym).value, pool)
  }

  /** The initial block with the first `n` pointers relocated by app_load's ABS32 rule, `*p += S`. */
  ghost function Relocated(o: Object, names: seq<seq<byte>>, pool: seq<nat>, b: Bases, n: nat): (ram: seq<byte>)
    requires o.Read() && PointersOk(o, names, pool) && n <= |RamRels(o, |o.sections|)|
    ensures |ram| == RamSize(o)
  {
    if n == 0 then RamPristine(o, |o.sections|)
    else
      var rel := RamRels(o, |o.sections|)[n - 1];
      assert PointerOk(o, names, pool, rel);
      AddWord(Relocated(o, names, pool, b, n - 1), rel.site, SymAddr(o, names, pool, b, rel.sym))
  }

  lemma PointersFine(o: Object, names: seq<seq<byte>>, pool: seq<nat>, abs: seq<AbsEntry>)
    requires AllAbsOk(o, names, pool, RamRels(o, |o.sections|), abs)
    ensures PointersOk(o, names, pool)
  {
    hide RamRels, TargetOf, RoundUp, RamEnd, RefOf, GotBytes;
    var rels := RamRels(o, |o.sections|);
    forall k | 0 <= k < |rels|
      ensures PointerOk(o, names, pool, rels[k])
    {
      assert AbsOk(o, names, pool, rels[k], abs[k]);
      SpanFits(o);
    }
  }

  lemma AddWordFrom(x: seq<byte>, y: seq<byte>, g: nat, site: nat, v: u32)
    requires |x| == |y| && g <= site && site + 4 <= |x| && x[g..] == y[g..]
    ensures AddWord(x, site, v)[g..] == AddWord(y, site, v)[g..]
  {
    var d := site - g;
    assert x[site] == x[g..][d] && x[site + 1] == x[g..][d + 1] && x[site + 2] == x[g..][d + 2]
      && x[site + 3] == x[g..][d + 3];
    assert y[site] == y[g..][d] && y[site + 1] == y[g..][d + 1] && y[site + 2] == y[g..][d + 2]
      && y[site + 3] == y[g..][d + 3];
    assert Rd32(x, site) == Rd32(y, site);
    var w := Le32((Rd32(x, site) + v) % W32);
    hide Le32, Rd32;
    assert Splice(x, site, w)[g..] == Splice(x[g..], site - g, w);
    assert Splice(y, site, w)[g..] == Splice(y[g..], site - g, w);
  }

  /** One pointer further, both sides stay equal past the GOT. */
  lemma RamStep(o: Object, names: seq<seq<byte>>, m: PicManifest, pool: seq<nat>, b: Bases, n: nat)
    requires o.Read() && Buildable(m) && b.slot % BLOCK == 0 && 0 < n <= |m.abs|
      && GotBytes(o) <= m.ext.ramSize == RamSize(o)
    requires AllAbsOk(o, names, pool, RamRels(o, |o.sections|), m.abs) && PointersOk(o, names, pool)
    requires WithAbs(m, b, n - 1)[GotBytes(o)..] == Relocated(o, names, pool, b, n - 1)[GotBytes(o)..]
    ensures WithAbs(m, b, n)[GotBytes(o)..] == Relocated(o, names, pool, b, n)[GotBytes(o)..]
  {
    hide Resolves, SymAddr, Pointer, AddWord, GotBytes, RamSize, Splice, RamRels, TargetOf, RamPristine, WithGot;
    var rel, a := RamRels(o, |o.sections|)[n - 1], m.abs[n - 1];
    assert AbsOk(o, names, pool, rel, a) && PointerOk(o, names, pool, rel);
    Unwrapped(rel.site);
    RefMeans(o, names, pool, b, rel.sym, Ref(a.cls, a.value, IsFunc(o, rel.sym)));
    AddWordFrom(WithAbs(m, b, n - 1), Relocated(o, names, pool, b, n - 1), GotBytes(o), a.site,
      Pointer(b, a.cls, a.value));
  }

  lemma {:induction false} RamAgrees(o: Object, names: seq<seq<byte>>, m: PicManifest, pool: seq<nat>, b: Bases, n: nat)
    requires o.Read() && Buildable(m) && b.slot % BLOCK == 0 && n <= |m.abs|
      && GotBytes(o) <= m.ext.ramSize == RamSize(o)
    requires AllAbsOk(o, names, pool, RamRels(o, |o.sections|), m.abs) && PointersOk(o, names, pool)
    requires WithAbs(m, b, 0)[GotBytes(o)..] == RamPristine(o, |o.sections|)[GotBytes(o)..]
    ensures WithAbs(m, b, n)[GotBytes(o)..] == Relocated(o, names, pool, b, n)[GotBytes(o)..]
  {
    hide AllAbsOk, Buildable, PointersOk, RamPristine, WithAbs, GotBytes, Relocated, RamRels, RamSize;
    if n == 0 {
      RelocatedStart(o, names, pool, b);
    } else {
      RamAgrees(o, names, m, pool, b, n - 1);
      RamStep(o, names, m, pool, b, n);
    }
  }

  lemma RelocatedStart(o: Object, names: seq<seq<byte>>, pool: seq<nat>, b: Bases)
    requires o.Read() && PointersOk(o, names, pool)
    ensures Relocated(o, names, pool, b, 0) == RamPristine(o, |o.sections|)
  {
    hide RamPristine, PointersOk;
  }

  lemma RamStart(o: Object, names: seq<seq<byte>>, blob: seq<byte>, m: PicManifest, pool: seq<nat>, vals: Patches,
    b: Bases)
    requires Produced(o, names, blob, m, pool, vals) && Buildable(m) && 4 * |m.got| <= GotBytes(o) <= m.ext.ramSize
    ensures m.ext.ramSize == RamSize(o)
      && WithAbs(m, b, 0)[GotBytes(o)..] == RamPristine(o, |o.sections|)[GotBytes(o)..]
  {
    hide BlobOk, AllAbsOk, PoolFine, EntryAt, Fits32, RamPristine, DataOff, DataEnd, WithGot, Splice, RodataAt, RoBytes,
      PointersIn;
    LayoutFacts(o);
    SpanRestores(o);
    GotLeaves(m, b, |m.got|, GotBytes(o), m.ext.ramSize);
  }

  /** The writable half: past the GOT the loaded block is the initial contents with every pointer
      relocated in table order by app_load's rule; sites may even overlap. */
  lemma RamMeans(o: Object, names: seq<seq<byte>>, blob: seq<byte>, m: PicManifest, pool: seq<nat>, vals: Patches,
    b: Bases)
    requires Produced(o, names, blob, m, pool, vals) && b.slot % BLOCK == 0
    ensures o.Read() && Buildable(m) && PointersOk(o, names, pool) && |m.abs| == |RamRels(o, |o.sections|)|
    ensures GotBytes(o) <= m.ext.ramSize == RamSize(o)
    ensures WithAbs(m, b, |m.abs|)[GotBytes(o)..] == Relocated(o, names, pool, b, |m.abs|)[GotBytes(o)..]
  {
    hide BlobOk, PoolFine, ExtentsFit, Fits32, RamPristine, WithAbs, Relocated, GotBytes, AbsOk, Buildable, PointersOk;
    Builds(o, names, blob, m, pool, vals);
    RamStart(o, names, blob, m, pool, vals, b);
    PointersFine(o, names, pool, m.abs);
    RamAgrees(o, names, m, pool, b, |m.abs|);
  }

  // ----- veneers and entry

  /** A firmware symbol's address is that of a veneer in the blob that calls its export, wherever the blob is. */
  lemma VeneerHolds(o: Object, names: seq<seq<byte>>, blob: seq<byte>, m: PicManifest, pool: seq<nat>, vals: Patches,
                    b: Bases, idx: nat, ix: nat)
    requires Produced(o, names, blob, m, pool, vals) && b.slot % BLOCK == 0 && |names| < W32
    requires TargetOf(o, names, idx) == Good(Firmware(ix)) && ix in pool
    ensures ix < |names| && names[ix] == o.syms[idx].name
    ensures var at := VeneerOff(o) + VENEER * PosOf(pool, ix);
      && At(blob, at, VeneerBytes(ix)) && at + 16 <= |blob| && Rd32(blob, at + 12) == ix
      && SymAddr(o, names, pool, b, idx) == (b.slot + at) % W32 + 1
      && Calls(blob, at, (b.slot + at) % W32, ix)
  {
    hide Produced, Rels, VeneerOff, VeneerBytes, SymAddr, Rd32, Le32, TargetOf, Calls;
    TargetInRange(o, names, idx);
    VeneerAddr(o, names, pool, b, idx, ix);
    var whole := BlobHead(o, names, blob, m, pool, vals);
    VeneerInBlob(whole, pool, PosOf(pool, ix), blob);
    VeneersStart(o);
    FourAligned(b.slot, VeneerOff(o), PosOf(pool, ix));
    VeneerCalls(blob, VeneerOff(o) + VENEER * PosOf(pool, ix),
      (b.slot + (VeneerOff(o) + VENEER * PosOf(pool, ix))) % W32, ix);
  }

  lemma FourAligned(slot: u32, off: nat, k: nat)
    requires slot % BLOCK == 0 && off % 4 == 0
    ensures (slot + (off + VENEER * k)) % W32 % 4 == 0
  {
    var s, o := slot / BLOCK, off / 4;
    assert slot == BLOCK * s && off == 4 * o;
    FourMod(8 * s + o + 4 * k);
  }

  lemma FourMod(j: nat)
    ensures 4 * j % W32 % 4 == 0
  {
    var q := 4 * j / W32;
    assert 4 * j % W32 == 4 * (j - 0x4000_0000 * q);
    Digits(j - 0x4000_0000 * q, 4, 0);
  }

  lemma VeneerInBlob(whole: seq<byte>, pool: seq<nat>, k: nat, blob: seq<byte>)
    requires k < |pool| && pool[k] < W32 && blob == whole + Laid(VeneerBytes, pool)
    ensures var at := |whole| + VENEER * k;
      At(blob, at, VeneerBytes(pool[k])) && at + 16 <= |blob| && Rd32(blob, at + 12) == pool[k]
  {
    hide VeneerBytes, Rd32, Le32, Laid, At;
    LaidAt(VeneerBytes, VENEER, pool, k);
    VeneerIn(whole, Laid(VeneerBytes, pool), k, pool[k]);
    ReadBack32(pool[k], blob, |whole| + VENEER * k + 12);
  }

  lemma BlobHead(o: Object, names: seq<seq<byte>>, blob: seq<byte>, m: PicManifest, pool: seq<nat>, vals: Patches)
    returns (whole: seq<byte>)
    requires Produced(o, names, blob, m, pool, vals)
    ensures blob == whole + Laid(VeneerBytes, pool) && |whole| == VeneerOff(o)
  {
    hide Fits32, AllAbsOk, ExtentsFit, PoolFine, PatchesOk, Complete, Laid, VeneerOff;
    whole := Whole(o, vals);
  }

  lemma VeneerAddr(o: Object, names: seq<seq<byte>>, pool: seq<nat>, b: Bases, idx: nat, ix: nat)
    requires TargetOf(o, names, idx) == Good(Firmware(ix)) && ix in pool && b.slot % BLOCK == 0
    ensures SymAddr(o, names, pool, b, idx) == (b.slot + VeneerOff(o) + VENEER * PosOf(pool, ix)) % W32 + 1
  {
    hide TargetOf;
    var at := VeneerOff(o) + VENEER * PosOf(pool, ix);
    EvenSum(b.slot, at);
    EvenMod(b.slot + at);
  }

  lemma EvenSum(x: nat, y: nat)
    requires x % BLOCK == 0 && y % 4 == 0
    ensures (x + y) % 2 == 0
  {
  }

  lemma VeneerIn(whole: seq<byte>, veneers: seq<byte>, k: nat, ix: nat)
    requires VENEER * k + VENEER <= |veneers| && veneers[VENEER * k..VENEER * k + VENEER] == VeneerBytes(ix) && ix < W32
    ensures var at := |whole| + VENEER * k;
      At(whole + veneers, at, VeneerBytes(ix)) && (whole + veneers)[at + 12..at + 16] == Le32(ix)
  {
    hide Le32;
    var blob := whole + veneers;
    AtParts(whole, veneers);
    AtTrans(blob, |whole|, veneers, VENEER * k, VeneerBytes(ix));
    SubSlice(blob, |whole| + VENEER * k, VENEER, 12, 4);
  }

  /** The entry the loader jumps to, Thumb bit and all, is the first app_main of the read-only half, where the
      blob is. */
  lemma EntryMeans(o: Object, names: seq<seq<byte>>, blob: seq<byte>, m: PicManifest, pool: seq<nat>, vals: Patches,
    b: Bases)
    returns (i: nat)
    requires Produced(o, names, blob, m, pool, vals)
    ensures i < |o.syms| && IsEntry(o, i) && forall j :: 0 <= j < i ==> !IsEntry(o, j)
    ensures (b.slot + m.ext.entryOff) % W32 / 2 * 2 + 1
      == Address(Within(o.syms[i].shndx, o.syms[i].value), PlacedAt(o, pool, b)) / 2 * 2 + 1
  {
    hide Produced, PlacedAt, Address, BlobOff;
    EntryOf(o, names, blob, m, pool, vals);
    i :| EntryIs(o, m.ext.entryOff, i);
    EntryAddress(o, pool, b, m.ext.entryOff, i);
  }

  lemma EntryOf(o: Object, names: seq<seq<byte>>, blob: seq<byte>, m: PicManifest, pool: seq<nat>, vals: Patches)
    requires Produced(o, names, blob, m, pool, vals)
    ensures EntryAt(o, m.ext.entryOff)
  {
    hide BlobOk, PoolFine, AllAbsOk, Fits32, RamPristine, DataOff, DataEnd, EntryAt, VeneerOff, RamSize;
  }

  lemma EntryAddress(o: Object, pool: seq<nat>, b: Bases, off: u32, i: nat)
    requires EntryIs(o, off, i)
    ensures (b.slot + off) % W32 == Address(Within(o.syms[i].shndx, o.syms[i].value), PlacedAt(o, pool, b))
  {
    hide BlobOff, RamOff, PlacedAt;
    var s := o.syms[i];
    PlacedSection(o, pool, b, s.shndx);
    SplitSum(b.slot, BlobOff(o, s.shndx), s.value);
  }

  /** app_load takes the first app_main defined anywhere (`e`), the producer the first in a loaded read-only
      section (`i`): they are the same symbol exactly when the first one is in such a section, ... */
  lemma SameChoice(o: Object, e: nat, i: nat)
    requires e < |o.syms| && AppLoad.IsMain(o.syms[e]) && forall j :: 0 <= j < e ==> !AppLoad.IsMain(o.syms[j])
    requires i < |o.syms| && IsEntry(o, i) && forall j :: 0 <= j < i ==> !IsEntry(o, j)
    ensures e <= i && (e == i <==> IsEntry(o, e))
  {
  }

  /** ... and then both loaders enter the package at the same address, whenever its section is at the same one. */
  lemma SameEntry(o: Object, pool: seq<nat>, b: Bases, bases: (u32, u32, u32), off: u32, i: nat)
    requires EntryIs(o, off, i)
      && AppLoad.SecAddr(o, bases, o.syms[i].shndx) % W32 == SectionAddr(o, b, o.syms[i].shndx)
    ensures AppLoad.EntryAddr(o, bases, i) == (b.slot + off) % W32 / 2 * 2 + 1
  {
    hide BlobOff, RamOff, AppLayout.SecAt;
    var s := o.syms[i];
    SplitSum(b.slot, BlobOff(o, s.shndx), s.value);
    AppLoad.SumWraps(AppLoad.SecAddr(o, bases, s.shndx), s.value);
  }
}

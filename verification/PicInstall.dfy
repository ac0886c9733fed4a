/** app_pic_install: one pass that turns an object into a position-independent blob, streamed to a
    sink, and a manifest from which the writable half can be built at any address. */
module PicInstall {
  import opened Bytes
  import opened Elf
  import opened ElfLayout
  import opened Manifest
  import opened Sets
  import opened PicLayout
  import opened PicTables
  import opened PicPatch
  import opened PicSites
  import opened PicPages
  import opened PicRam
  import opened PicSums

  // ----- the ABS32 recipe

  /** Entry `a` records relocation `rel`: its site, in 32 bits, and what its symbol resolves to. */
  ghost predicate AbsOk(o: Object, names: seq<seq<byte>>, pool: seq<nat>, rel: RamRel, a: AbsEntry) {
    && a.site == rel.site % W32 && GotBytes(o) <= rel.site && rel.site + 4 <= RamEnd(o)
    && Resolves(o, names, pool, rel.sym, Ref(a.cls, a.value, IsFunc(o, rel.sym)))
  }

  ghost predicate AllAbsOk(o: Object, names: seq<seq<byte>>, pool: seq<nat>, rels: seq<RamRel>, abs: seq<AbsEntry>) {
    |abs| == |rels| && forall k :: 0 <= k < |rels| ==> AbsOk(o, names, pool, rels[k], abs[k])
  }

  lemma AbsGrow(o: Object, names: seq<seq<byte>>, pool: seq<nat>, more: seq<nat>, rels: seq<RamRel>, abs: seq<AbsEntry>)
    requires AllAbsOk(o, names, pool, rels, abs) && pool <= more
    ensures AllAbsOk(o, names, more, rels, abs)
  {
    hide Resolves;
    forall k | 0 <= k < |rels|
      ensures AbsOk(o, names, more, rels[k], abs[k])
    {
      ResolvesStable(o, names, pool, more, rels[k].sym, Ref(abs[k].cls, abs[k].value, IsFunc(o, rels[k].sym)));
    }
  }

  /** Every relocation of the writable sections among the first `n` is a pointer inside the section it is in. */
  ghost predicate PointersIn(o: Object, n: nat)
    requires n <= |o.sections|
  {
    forall i, r :: 0 <= i < n && ForRam(o, i) && 0 <= r < |o.sections[i].rels| ==> PointerIn(o, i, r)
  }

  ghost predicate PointerIn(o: Object, i: nat, r: nat)
    requires i < |o.sections| && ForRam(o, i) && r < |o.sections[i].rels|
  {
    var rel := o.sections[i].rels[r];
    rel.kind != NONE ==>
      (rel.kind == ABS32 || rel.kind == TARGET1) && SiteOk(ABS32, rel.offset, o.sections[o.sections[i].info].size)
  }

  /** The pointers of one section. */
  method AbsSection(t: Tables, i: nat, abs0: seq<AbsEntry>, cap: nat) returns (res: Outcome<seq<AbsEntry>>)
    requires t.Valid() && i < |t.o.sections| && ForRam(t.o, i)
    requires cap == AbsCap(t.o, |t.o.sections|) && AllAbsOk(t.o, t.names, t.pool, RamRels(t.o, i), abs0)
    modifies t`pool, t`poolSyms, t`memo
    ensures t.Valid() && old(t.pool) <= t.pool
    ensures res.Bad? ==> res.error != ErrTable
    ensures res.Good? ==> AllAbsOk(t.o, t.names, t.pool, RamRels(t.o, i + 1), res.value)
    ensures res.Good? ==> forall r :: 0 <= r < |t.o.sections[i].rels| ==> PointerIn(t.o, i, r)
  {
    hide AllAbsOk, RamSection, Tables.Valid, RelocSyms, RamOff, RamEnd;
    var o, sec := t.o, t.o.sections[i];
    var abs, full := abs0, false;
    NoneYet(o, i);
    for r := 0 to |sec.rels|
      invariant t.Valid() && old(t.pool) <= t.pool && !full
      invariant AllAbsOk(o, t.names, t.pool, RamRels(o, i) + RamSection(o, i, r), abs)
      invariant forall q :: 0 <= q < r ==> PointerIn(o, i, q)
    {
      var rel := sec.rels[r];
      OneMore(o, i, r);
      if rel.kind != NONE {
        if rel.kind != ABS32 && rel.kind != TARGET1 {
          return Bad(ErrUnsupported);
        }
        if !SiteOk(rel.kind, rel.offset, o.sections[sec.info].size) {
          return Bad(ErrRange);
        }
        CapHolds(o, t.names, t.pool, i, r, abs);
        RelocSymsHas(o.sections, |o.sections|, i, r);
        ghost var pool := t.pool;
        var ref := t.Resolve(rel.sym);
        if ref.Bad? {
          return Bad(ref.error);
        }
        ResolvedFunc(o, t.names, t.pool, rel.sym, ref.value);
        AbsGrow(o, t.names, pool, t.pool, RamRels(o, i) + RamSection(o, i, r), abs);
        RamFits(o, sec.info);
        if |abs| < cap {
          var a := AbsEntry((RamOff(o, sec.info) + rel.offset) % W32, ref.value.value, ref.value.cls);
          AbsSnoc(o, t.names, t.pool, i, r, abs, a);
          abs := abs + [a];
        } else {
          full := true;
        }
      }
    }
    res := if full then Bad(ErrTable) else Good(abs);
  }

  lemma NoneYet(o: Object, i: nat)
    requires i < |o.sections| && ForRam(o, i)
    ensures RamSection(o, i, 0) == [] && RamRels(o, i) + [] == RamRels(o, i)
    ensures RamRels(o, i + 1) == RamRels(o, i) + RamSection(o, i, |o.sections[i].rels|)
  {
  }

  lemma OneMore(o: Object, i: nat, r: nat)
    requires i < |o.sections| && ForRam(o, i) && r < |o.sections[i].rels|
    ensures var rel := o.sections[i].rels[r];
      var before := RamRels(o, i) + RamSection(o, i, r);
      RamRels(o, i) + RamSection(o, i, r + 1) ==
      if rel.kind == NONE then before else before + [RamRel(RamOff(o, o.sections[i].info) + rel.offset, rel.sym)]
  {
    hide RamOff, RamRels;
  }

  lemma CapHolds(o: Object, names: seq<seq<byte>>, pool: seq<nat>, i: nat, r: nat, abs: seq<AbsEntry>)
    requires i < |o.sections| && ForRam(o, i) && r < |o.sections[i].rels|
    requires AllAbsOk(o, names, pool, RamRels(o, i) + RamSection(o, i, r), abs)
    ensures |abs| < AbsCap(o, |o.sections|)
  {
    AbsCapMono(o, i + 1, |o.sections|);
  }

  lemma ResolvedFunc(o: Object, names: seq<seq<byte>>, pool: seq<nat>, idx: nat, r: Ref)
    requires Resolves(o, names, pool, idx, r)
    ensures r.isFunc == IsFunc(o, idx)
  {
    hide VeneerOff, RamOff, BlobOff;
    TargetInRange(o, names, idx);
  }

  lemma AbsSnoc(o: Object, names: seq<seq<byte>>, pool: seq<nat>, i: nat, r: nat, abs: seq<AbsEntry>, a: AbsEntry)
    requires i < |o.sections| && ForRam(o, i) && r < |o.sections[i].rels| && o.sections[i].rels[r].kind != NONE
    requires AllAbsOk(o, names, pool, RamRels(o, i) + RamSection(o, i, r), abs)
    requires AbsOk(o, names, pool,
      RamRel(RamOff(o, o.sections[i].info) + o.sections[i].rels[r].offset, o.sections[i].rels[r].sym), a)
    ensures AllAbsOk(o, names, pool, RamRels(o, i) + RamSection(o, i, r + 1), abs + [a])
  {
    hide AbsOk, RamRels, RamSection, RamOff;
    OneMore(o, i, r);
  }

  /** Every pointer in the writable half, in table order. */
  method AbsPass(t: Tables) returns (res: Outcome<seq<AbsEntry>>)
    requires t.Valid()
    modifies t`pool, t`poolSyms, t`memo
    ensures t.Valid() && old(t.pool) <= t.pool
    ensures res.Bad? ==> res.error != ErrTable
    ensures res.Good? ==> AllAbsOk(t.o, t.names, t.pool, RamRels(t.o, |t.o.sections|), res.value)
    ensures res.Good? ==> |res.value| <= AbsCap(t.o, |t.o.sections|) && PointersIn(t.o, |t.o.sections|)
  {
    hide AbsOk, Tables.Valid, RamEnd, PointerIn;
    res := Good([]);
    for i := 0 to |t.o.sections|
      invariant t.Valid() && old(t.pool) <= t.pool && res.Good?
      invariant AllAbsOk(t.o, t.names, t.pool, RamRels(t.o, i), res.value) && PointersIn(t.o, i)
    {
      if ForRam(t.o, i) {
        res := AbsSection(t, i, res.value, AbsCap(t.o, |t.o.sections|));
        if res.Bad? {
          return;
        }
      }
    }
  }

  // ----- the initialisers

  method ReadData(o: Object, lo: nat, hi: nat) returns (data: seq<byte>)
    requires o.Read() && RamEnd(o) < NO_DATA
    requires lo == DataOff(o.sections, GotBytes(o)) && hi == DataEnd(o.sections, GotBytes(o))
    ensures lo <= hi <= RamSize(o) && data == RamPristine(o, |o.sections|)[lo..hi]
  {
    hide RamPristine, DataOff, DataEnd, RamOff, RamSize, Splice, OffOf, EndOf;
    SpanOk(o.sections, GotBytes(o));
    SpanFits(o);
    var buf := new byte[hi - lo](_ => 0);
    RamBlank(o, lo, hi);
    assert buf[..] == RamPristine(o, 0)[lo..hi];
    for i := 0 to |o.sections|
      invariant buf[..] == RamPristine(o, i)[lo..hi]
    {
      RamNext(o, i, lo, hi);
      if Loaded(o.sections[i]) {
        Store(buf, RamOff(o, i) - lo, o.sections[i].bytes);
      }
    }
    data := buf[..];
  }

  lemma SpanFits(o: Object)
    ensures RamEnd(o) <= RamSize(o)
  {
  }

  lemma RamBlank(o: Object, lo: nat, hi: nat)
    requires o.Read() && lo <= hi <= RamSize(o)
    ensures RamPristine(o, 0)[lo..hi] == seq(hi - lo, _ => 0)
  {
    hide RamSize;
  }

  lemma RamNext(o: Object, i: nat, lo: nat, hi: nat)
    requires o.Read() && i < |o.sections| && RamEnd(o) < NO_DATA && lo <= hi <= RamSize(o)
    requires lo == DataOff(o.sections, GotBytes(o)) && hi == DataEnd(o.sections, GotBytes(o))
    ensures Loaded(o.sections[i]) ==>
      && lo <= RamOff(o, i) && |o.sections[i].bytes| == o.sections[i].size && RamOff(o, i) + o.sections[i].size <= hi
      && RamPristine(o, i + 1)[lo..hi] == Splice(RamPristine(o, i)[lo..hi], RamOff(o, i) - lo, o.sections[i].bytes)
    ensures !Loaded(o.sections[i]) ==> RamPristine(o, i + 1) == RamPristine(o, i)
  {
    hide RamOff, RamSize, Splice, DataOff, DataEnd;
    if Loaded(o.sections[i]) {
      var d := o.sections[i].bytes;
      RamFits(o, i);
      SpanHolds(o, i);
      SpliceHit(RamPristine(o, i), RamOff(o, i), d, lo, hi, RamOff(o, i), RamOff(o, i) + |d|);
      assert d[0..|d|] == d;
    }
  }

  // ----- the entry point

  const APP_MAIN: seq<byte> := [0x61, 0x70, 0x70, 0x5f, 0x6d, 0x61, 0x69, 0x6e]

  predicate IsEntry(o: Object, i: nat)
    requires i < |o.syms|
  {
    var s := o.syms[i];
    && s.shndx != SHN_UNDEF && s.shndx < |o.sections| && InHalf(o.sections[s.shndx], false) && s.name == APP_MAIN
  }

  /** The first app_main defined in a loaded read-only section. */
  method FindEntry(o: Object) returns (r: Outcome<nat>)
    ensures r.Good? ==> r.value < |o.syms| && IsEntry(o, r.value) && forall i :: 0 <= i < r.value ==> !IsEntry(o, i)
    ensures r.Bad? ==> r.error == ErrNoEntry && forall i :: 0 <= i < |o.syms| ==> !IsEntry(o, i)
  {
    for i := 0 to |o.syms|
      invariant forall j :: 0 <= j < i ==> !IsEntry(o, j)
    {
      if IsEntry(o, i) {
        return Good(i);
      }
    }
    r := Bad(ErrNoEntry);
  }

  // ----- the whole producer

  /** Bytes of read-only sections that are (or are not) code, over the first `n` sections. */
  function RoBytes(ss: seq<Section>, code: bool, n: nat): (b: nat)
    requires n <= |ss|
    ensures b <= EndOf(ss, false, 0, n)
  {
    if n == 0 then 0
    else RoBytes(ss, code, n - 1) + if InHalf(ss[n - 1], false) && ss[n - 1].exec == code then ss[n - 1].size else 0
  }

  /** Offset of the first read-only section that is not code, or zero. */
  function RodataOff(ss: seq<Section>, n: nat): (off: nat)
    requires n <= |ss|
    ensures off <= EndOf(ss, false, 0, n)
  {
    if n == 0 then 0
    else if InHalf(ss[n - 1], false) && !ss[n - 1].exec && RoBytes(ss, false, n - 1) == 0 then
      OffOf(ss, false, 0, n - 1)
    else RodataOff(ss, n - 1)
  }

  /** Section `i` is read-only data. */
  predicate IsRodata(o: Object, i: nat)
    requires i < |o.sections|
  {
    InHalf(o.sections[i], false) && !o.sections[i].exec
  }

  /** `off` is where the first read-only data of the first `n` sections is in the blob; zero without any. */
  ghost predicate RodataAt(o: Object, n: nat, off: nat)
    requires n <= |o.sections|
  {
    if forall i :: 0 <= i < n ==> !IsRodata(o, i) then off == 0
    else exists i :: 0 <= i < n && IsRodata(o, i) && off == BlobOff(o, i) && forall j :: 0 <= j < i ==> !IsRodata(o, j)
  }

  lemma {:induction false} RodataIs(o: Object, n: nat)
    requires n <= |o.sections|
    ensures RodataAt(o, n, RodataOff(o.sections, n))
    ensures RoBytes(o.sections, false, n) == 0 <==> forall i :: 0 <= i < n ==> !IsRodata(o, i)
  {
    hide OffOf, EndOf;
    if n > 0 {
      RodataIs(o, n - 1);
      if IsRodata(o, n - 1) && RoBytes(o.sections, false, n - 1) == 0 {
        assert RodataOff(o.sections, n) == BlobOff(o, n - 1);
      }
    }
  }

  /** Table sizes a 32-bit object and a real export table stay within. */
  ghost predicate Sized(o: Object, names: seq<seq<byte>>) {
    |names| < 0x1_0000 && |o.syms| < 0x1000_0000 && AbsCap(o, |o.sections|) < 0x1000_0000
  }

  /** The veneers are distinct exports, within the ceiling. */
  ghost predicate PoolFine(o: Object, names: seq<seq<byte>>, pool: seq<nat>) {
    Distinct(pool) && (forall ix :: ix in pool ==> ix < |names|) && |pool| < VeneerCap(o, names)
  }

  /** The blob: every patching relocation applied once, then the veneers. */
  ghost predicate BlobOk(o: Object, names: seq<seq<byte>>, pool: seq<nat>, got: seq<GotEntry>, vals: Patches,
    blob: seq<byte>)
    requires o.Read()
  {
    && Inside(Rels(o), vals, VeneerOff(o)) && PatchesOk(o, names, pool, got, vals) && Complete(o, vals.Keys)
    && blob == Whole(o, vals) + Laid(VeneerBytes, pool)
  }

  ghost predicate ExtentsFit(o: Object, m: PicManifest, pool: seq<nat>)
    requires o.Read()
  {
    && m.ext.veneerOff == VeneerOff(o) && m.ext.veneerSize == VENEER * |pool|
      && m.ext.roSize == VeneerOff(o) + VENEER * |pool|
    && m.ext.textSize == RoBytes(o.sections, true, |o.sections|)
      && m.ext.rodataSize == RoBytes(o.sections, false, |o.sections|)
    && RodataAt(o, |o.sections|, m.ext.rodataOff)
    && m.ext.gotBytes == GotBytes(o) && m.ext.ramSize == RamSize(o)
    && m.ext.dataOff == DataOff(o.sections, GotBytes(o))
      && m.ext.dataOff + m.ext.dataSize == DataEnd(o.sections, GotBytes(o)) <= RamSize(o)
    && m.dataInit == RamPristine(o, |o.sections|)[m.ext.dataOff..m.ext.dataOff + m.ext.dataSize]
    && EntryAt(o, m.ext.entryOff)
  }

  /** What a successful install promises about the blob, the manifest and the veneers in the blob. */
  ghost predicate Produced(o: Object, names: seq<seq<byte>>, blob: seq<byte>, m: PicManifest,
                           pool: seq<nat>, vals: Patches) {
    && o.Read() && Fits32(o) && m.Consistent()
    && PoolFine(o, names, pool) && BlobOk(o, names, pool, m.got, vals, blob)
    && Distinct(m.got) && |m.got| <= |GotSyms(o, true)|
    && AllAbsOk(o, names, pool, RamRels(o, |o.sections|), m.abs) && PointersIn(o, |o.sections|)
    && ExtentsFit(o, m, pool)
  }

  /** Symbol `i` is the first app_main in the read-only half, and `off` is where it is. */
  ghost predicate EntryIs(o: Object, off: u32, i: nat) {
    && i < |o.syms| && IsEntry(o, i) && (forall j :: 0 <= j < i ==> !IsEntry(o, j))
    && off == (BlobOff(o, o.syms[i].shndx) + o.syms[i].value) % W32
  }

  ghost predicate EntryAt(o: Object, off: u32) {
    exists i :: EntryIs(o, off, i)
  }

  /** The page pass, from an empty sink. */
  method EmitBlob(o: Object, names: seq<seq<byte>>, sink: Sink)
    returns (r: Outcome<Tables>, ghost vals: Patches)
    requires o.Read() && Fits32(o) && sink.Written() == []
    modifies sink
    ensures r.Bad? ==> r.error != ErrTable
    ensures r.Good? ==> fresh(r.value) && r.value.Valid() && r.value.o == o && r.value.names == names
    ensures r.Good? ==> PatchesOk(o, names, r.value.pool, r.value.got, vals) && Complete(o, vals.Keys)
    ensures r.Good? ==> sink.Written() == Whole(o, vals)
  {
    hide Tables.Valid, Complete, PatchesOk, VeneerOff, GotBytes, Fits32, Whole;
    LayoutFacts(o);
    var t := new Tables(o, names);
    var p := new Pager(o, t);
    Fresh(p);
    var pages := p.EmitAll(sink);
    vals := p.vals;
    r := if pages.Good? then Good(t) else Bad(pages.error);
  }

  /** The rest: pointers, initialisers, veneers last, entry point, manifest. */
  method Finish(t: Tables, hdr: seq<byte>, major: u16, minor: u16, sink: Sink, ghost vals: Patches)
    returns (r: Outcome<PicManifest>)
    requires t.Valid() && t.o.Read() && Fits32(t.o) && Sized(t.o, t.names) && |hdr| == HEADER_BYTES
    requires PatchesOk(t.o, t.names, t.pool, t.got, vals) && Complete(t.o, vals.Keys)
    requires sink.Written() == Whole(t.o, vals)
    modifies sink, t
    ensures r.Bad? ==> r.error != ErrTable
    ensures r.Good? ==> Produced(t.o, t.names, sink.Written(), r.value, t.pool, vals)
    ensures r.Good? ==> r.value.ext.header == hdr && r.value.ext.apiMajor == major && r.value.ext.apiMinor == minor
  {
    hide Tables.Valid, Complete, PatchesOk, Whole, VeneerOff, GotBytes, Fits32, AllAbsOk, PointersIn, Laid, Sized;
    hide RamEnd, ExtentsFit, PoolFine, GotSyms, VeneerBytes;
    LayoutFacts(t.o);
    ghost var pool0 := t.pool;
    var abs := AbsPass(t);
    if abs.Bad? {
      return Bad(abs.error);
    }
    PatchesGrow(t.o, t.names, pool0, t.got, vals, t.pool, t.got);
    PatchesInside(t.o, t.names, t.pool, t.got, vals);
    TableFacts(t);
    var ok := PutVeneers(t.pool, VeneerOff(t.o), sink);
    if !ok {
      return Bad(ErrRead);
    }
    r := Describe(t.o, t.names, t.pool, t.got, abs.value, hdr, major, minor);
  }

  /** Fill the manifest in. */
  method Describe(o: Object, names: seq<seq<byte>>, pool: seq<nat>, got: seq<GotEntry>, abs: seq<AbsEntry>,
                  hdr: seq<byte>, major: u16, minor: u16) returns (r: Outcome<PicManifest>)
    requires o.Read() && Fits32(o) && |hdr| == HEADER_BYTES
    requires |pool| < 0x1_0000 && GOT_ENTRY * |got| < W32 && ABS_ENTRY * |abs| < W32
    ensures r.Bad? ==> r.error != ErrTable
    ensures r.Good? ==> r.value.Consistent() && ExtentsFit(o, r.value, pool) && r.value.got == got && r.value.abs == abs
    ensures r.Good? ==> r.value.ext.header == hdr && r.value.ext.apiMajor == major && r.value.ext.apiMinor == minor
  {
    hide VeneerOff, GotBytes, Fits32, RamPristine, DataOff, DataEnd, RamSize, RamEnd, RoBytes, RodataOff, BlobOff;
    LayoutFacts(o);
    RoFacts(o);
    var lo, hi := DataSpan(o.sections, GotBytes(o));
    RamSpan(o);
    var data := ReadData(o, lo, hi);
    var entry := FindEntry(o);
    if entry.Bad? {
      return Bad(entry.error);
    }
    var e, n, size := o.syms[entry.value], |o.sections|, VENEER * |pool|;
    var ext := Extents(hdr, major, minor, VeneerOff(o) + size, RoBytes(o.sections, true, n), RodataOff(o.sections, n),
                       RoBytes(o.sections, false, n), VeneerOff(o), size, (BlobOff(o, e.shndx) + e.value) % W32,
                       GotBytes(o), lo, hi - lo, RamSize(o), |got|, |abs|);
    assert EntryIs(o, ext.entryOff, entry.value);
    RodataIs(o, n);
    r := Good(PicManifest(ext, got, abs, data));
  }

  lemma RamSpan(o: Object)
    requires Fits32(o) && GotBytes(o) < W32
    ensures DataOffW(o.sections, GotBytes(o)) == DataOff(o.sections, GotBytes(o))
    ensures DataEndW(o.sections, GotBytes(o)) == DataEnd(o.sections, GotBytes(o))
  {
    hide Pow2, EndOf, DataOff, DataEnd, DataOffW, DataEndW;
    SpanExact(o.sections, GotBytes(o));
  }

  /** The pool is final only after the pointers have been resolved, so it goes to the sink last. */
  method PutVeneers(pool: seq<nat>, at: nat, sink: Sink) returns (ok: bool)
    requires |sink.Written()| == at
    modifies sink
    ensures ok ==> sink.Written() == old(sink.Written()) + Laid(VeneerBytes, pool)
  {
    hide VeneerBytes;
    ok := true;
    if |pool| != 0 {
      ok := sink.Put(at, Laid(VeneerBytes, pool));
    }
  }

  lemma GotSymsBelow(o: Object)
    ensures |GotSyms(o, false)| <= |o.syms|
  {
    SubsetSize(GotSyms(o, false), Below(|o.syms|));
  }

  lemma TableFacts(t: Tables)
    requires t.Valid() && Sized(t.o, t.names) && GotBytes(t.o) < W32
    ensures Distinct(t.pool) && (forall ix :: ix in t.pool ==> ix < |t.names|)
    ensures PoolFine(t.o, t.names, t.pool) && |t.pool| < 0x1_0000 && ABS_ENTRY * AbsCap(t.o, |t.o.sections|) < W32
    ensures Distinct(t.got) && |t.got| <= |GotSyms(t.o, true)| && GOT_ENTRY * |t.got| < W32
  {
    PoolFits(t.o, t.names, t.pool, t.poolSyms);
    GotFits(t.o, t.names, t.pool, t.got, t.gotSyms);
    GotSymsBelow(t.o);
    hide GotSyms, GotBytes, AbsCap;
    DistinctFit(t.pool, Below(|t.names|));
  }

  lemma RoFacts(o: Object)
    requires Fits32(o)
    ensures RoBytes(o.sections, true, |o.sections|) <= RO_MAX && RoBytes(o.sections, false, |o.sections|) <= RO_MAX
    ensures RodataOff(o.sections, |o.sections|) <= RO_MAX
  {
    hide EndOf, RoundUp;
  }

  /** app_pic_install. */
  method Install(o: Object, names: seq<seq<byte>>, hdr: seq<byte>, major: u16, minor: u16, sink: Sink)
    returns (r: Outcome<PicManifest>, ghost pool: seq<nat>, ghost vals: Patches)
    requires o.Read() && Fits32(o) && Sized(o, names) && |hdr| == HEADER_BYTES
    requires sink.Written() == []
    modifies sink
    ensures r.Bad? ==> r.error != ErrTable
    ensures r.Good? ==> Produced(o, names, sink.Written(), r.value, pool, vals)
    ensures r.Good? ==> r.value.ext.header == hdr && r.value.ext.apiMajor == major && r.value.ext.apiMinor == minor
  {
    hide Tables.Valid, Complete, PatchesOk, Whole, VeneerOff, GotBytes, Fits32, Produced;
    pool := [];
    var blob;
    blob, vals := EmitBlob(o, names, sink);
    if blob.Bad? {
      return Bad(blob.error), pool, vals;
    }
    r := Finish(blob.value, hdr, major, minor, sink, vals);
    pool := blob.value.pool;
  }

  lemma LayoutFacts(o: Object)
    requires Fits32(o)
    ensures VeneerOff(o) <= RO_MAX + 4 && GotBytes(o) < W32 && RamEnd(o) <= W32 - BLOCK && RamSize(o) <= W32 - BLOCK
  {
    hide EndOf, RoundUp, Pow2;
    assert RamSize(o) % BLOCK == 0 && RamSize(o) < RamEnd(o) + BLOCK;
  }

  lemma Fresh(p: Pager)
    requires p.Sound() && p.pos == 0 && p.vals == map[] && p.out == []
    ensures p.AtBoundary()
  {
    hide PatchesOk, Tables.Valid;
  }
}

/** The writable half of a position-independent package: where its sections start out, which
    pointers in it need the final addresses, and the part of it that is not zero. */
module PicRam {
  import opened Bytes
  import opened Elf
  import opened ElfLayout
  import opened PicLayout

  // ----- the pointers

  datatype RamRel = RamRel(site: nat, sym: nat)

  /** Section `i` relocates a writable section that is loaded. */
  predicate ForRam(o: Object, i: nat)
    requires i < |o.sections|
  {
    o.sections[i].kind.Relocs? && o.IsPlaced(o.sections[i].info) && o.sections[o.sections[i].info].write
  }

  /** The first `r` relocations of section `i`, leaving out the null ones. */
  function RamSection(o: Object, i: nat, r: nat): (s: seq<RamRel>)
    requires i < |o.sections| && ForRam(o, i) && r <= |o.sections[i].rels|
    ensures |s| <= r
  {
    if r == 0 then [] else
    var rel := o.sections[i].rels[r - 1];
    RamSection(o, i, r - 1)
    + if rel.kind == NONE then [] else [RamRel(RamOff(o, o.sections[i].info) + rel.offset, rel.sym)]
  }

  /** All of them, for the first `n` sections, in table order. */
  function RamRels(o: Object, n: nat): (s: seq<RamRel>)
    requires n <= |o.sections|
    ensures |s| <= AbsCap(o, n)
  {
    if n == 0 then []
    else RamRels(o, n - 1) + if ForRam(o, n - 1) then RamSection(o, n - 1, |o.sections[n - 1].rels|) else []
  }

  /** Room reserved for the ABS32 recipe: every relocation against a writable section. */
  function AbsCap(o: Object, n: nat): nat
    requires n <= |o.sections|
  {
    if n == 0 then 0 else AbsCap(o, n - 1) + if ForRam(o, n - 1) then |o.sections[n - 1].rels| else 0
  }

  lemma {:induction false} AbsCapMono(o: Object, i: nat, j: nat)
    requires i <= j <= |o.sections|
    ensures AbsCap(o, i) <= AbsCap(o, j)
    decreases j
  {
    if i < j {
      AbsCapMono(o, i, j - 1);
    }
  }

  // ----- the initial contents

  function RamSize(o: Object): nat {
    RoundUp(RamEnd(o), BLOCK)
  }

  predicate Loaded(s: Section) {
    InHalf(s, true) && !s.kind.NoBits?
  }

  /** The RAM block before relocation: zeros, with the first `n` sections that have content in place. */
  function RamPristine(o: Object, n: nat): (b: seq<byte>)
    requires n <= |o.sections| && o.Read()
    ensures |b| == RamSize(o)
  {
    if n == 0 then seq(RamSize(o), _ => 0)
    else if Loaded(o.sections[n - 1]) then
      RamFits(o, n - 1);
      Splice(RamPristine(o, n - 1), RamOff(o, n - 1), o.sections[n - 1].bytes)
    else RamPristine(o, n - 1)
  }

  lemma RamFits(o: Object, i: nat)
    requires i < |o.sections| && InHalf(o.sections[i], true)
    ensures GotBytes(o) <= RamOff(o, i) && RamOff(o, i) + o.sections[i].size <= RamEnd(o) <= RamSize(o)
  {
    hide RoundUp;
    OffBounds(o.sections, true, GotBytes(o), i);
  }

  // ----- the span that is not zero

  const NO_DATA: nat := 0xFFFF_FFFF

  /** Lowest and highest byte of any section with content, over the first `n` sections of a writable
      half that starts at `got`. */
  function DataLo(ss: seq<Section>, got: nat, n: nat): nat
    requires n <= |ss|
  {
    if n == 0 then NO_DATA
    else if Loaded(ss[n - 1]) && OffOf(ss, true, got, n - 1) < DataLo(ss, got, n - 1) then OffOf(ss, true, got, n - 1)
    else DataLo(ss, got, n - 1)
  }

  function DataHi(ss: seq<Section>, got: nat, n: nat): nat
    requires n <= |ss|
  {
    if n == 0 then 0
    else if Loaded(ss[n - 1]) && OffOf(ss, true, got, n - 1) + ss[n - 1].size > DataHi(ss, got, n - 1) then
      OffOf(ss, true, got, n - 1) + ss[n - 1].size
    else DataHi(ss, got, n - 1)
  }

  /** A package with no initialised data has an empty span right behind the GOT. */
  function DataOff(ss: seq<Section>, got: nat): nat {
    var lo := DataLo(ss, got, |ss|);
    if lo == NO_DATA then got else lo
  }

  function DataEnd(ss: seq<Section>, got: nat): nat {
    if DataLo(ss, got, |ss|) == NO_DATA then got else DataHi(ss, got, |ss|)
  }

  lemma {:induction false} ExtentBounds(ss: seq<Section>, got: nat, n: nat, i: nat)
    requires i < n <= |ss| && Loaded(ss[i])
    ensures DataLo(ss, got, n) <= OffOf(ss, true, got, i) && OffOf(ss, true, got, i) + ss[i].size <= DataHi(ss, got, n)
  {
    hide RoundUp, OffOf;
    if i < n - 1 {
      ExtentBounds(ss, got, n - 1, i);
    }
  }

  lemma {:induction false} ExtentWithin(ss: seq<Section>, got: nat, n: nat)
    requires n <= |ss| && EndOf(ss, true, got, |ss|) < NO_DATA
    ensures (DataLo(ss, got, n) == NO_DATA && DataHi(ss, got, n) == 0)
            || got <= DataLo(ss, got, n) <= DataHi(ss, got, n) <= EndOf(ss, true, got, |ss|)
  {
    hide RoundUp, OffOf, EndOf;
    if n > 0 {
      ExtentWithin(ss, got, n - 1);
      if Loaded(ss[n - 1]) {
        OffBounds(ss, true, got, n - 1);
      }
    }
  }

  /** The span is inside the writable half, behind the GOT. */
  lemma SpanOk(ss: seq<Section>, got: nat)
    requires EndOf(ss, true, got, |ss|) < NO_DATA
    ensures got <= DataOff(ss, got) <= DataEnd(ss, got) <= EndOf(ss, true, got, |ss|)
  {
    hide RoundUp, DataLo, DataHi;
    ExtentWithin(ss, got, |ss|);
  }

  /** Outside the span the block starts out zero. */
  lemma {:induction false} ZeroOutside(o: Object, n: nat, x: nat)
    requires n <= |o.sections| && o.Read() && x < RamSize(o) && RamEnd(o) < NO_DATA
    requires x < DataOff(o.sections, GotBytes(o)) || DataEnd(o.sections, GotBytes(o)) <= x
    ensures RamPristine(o, n)[x] == 0
  {
    hide RoundUp, DataLo, DataHi, RamOff, RamSize;
    if n > 0 {
      ZeroOutside(o, n - 1, x);
      if Loaded(o.sections[n - 1]) {
        RamFits(o, n - 1);
        SpanHolds(o, n - 1);
        SpliceIndex(RamPristine(o, n - 1), RamOff(o, n - 1), o.sections[n - 1].bytes, x);
      }
    }
  }

  lemma SpanHolds(o: Object, i: nat)
    requires i < |o.sections| && Loaded(o.sections[i]) && RamEnd(o) < NO_DATA
    ensures DataOff(o.sections, GotBytes(o)) <= RamOff(o, i)
    ensures RamOff(o, i) + o.sections[i].size <= DataEnd(o.sections, GotBytes(o))
  {
    hide RoundUp, DataLo, DataHi;
    ExtentBounds(o.sections, GotBytes(o), |o.sections|, i);
    RamFits(o, i);
  }

  /** The initialisers, put back where they came from, are the whole initial block. */
  lemma SpanRestores(o: Object)
    requires o.Read() && RamEnd(o) < NO_DATA
    ensures var lo := DataOff(o.sections, GotBytes(o)); var hi := DataEnd(o.sections, GotBytes(o));
      && lo <= hi <= RamSize(o)
      && Splice(seq(RamSize(o), _ => 0), lo, RamPristine(o, |o.sections|)[lo..hi]) == RamPristine(o, |o.sections|)
  {
    hide RamPristine, DataOff, DataEnd;
    SpanOk(o.sections, GotBytes(o));
    var lo, hi := DataOff(o.sections, GotBytes(o)), DataEnd(o.sections, GotBytes(o));
    var zero: seq<byte> := seq(RamSize(o), _ => 0);
    var all := RamPristine(o, |o.sections|);
    hide RamSize, Splice;
    forall x | 0 <= x < |all|
      ensures Splice(zero, lo, all[lo..hi])[x] == all[x]
    {
      SpliceIndex(zero, lo, all[lo..hi], x);
      if !(lo <= x < hi) {
        ZeroOutside(o, |o.sections|, x);
      }
    }
  }
}

/** The producer's running sums as it computes them, in 32 bits and with no check; and exactly when the
    pointer sites it records lie inside the RAM block it asks for. */
module PicSums {
  import opened Bytes
  import opened Elf
  import opened ElfLayout
  import opened PicLayout
  import opened PicRam

  // ----- the sums

  /** `x & ~m`. */
  function AndNot(x: nat, m: nat): (r: nat)
    ensures r <= x
  {
    if x == 0 then 0 else AndNot(x / 2, m / 2) * 2 + if x % 2 == 1 && m % 2 == 0 then 1 else 0
  }

  /** `(v + a - 1) & ~(a - 1)` in 32 bits, for any `a`. */
  function MaskUp(v: u32, a: u32): u32
    requires 1 <= a
  {
    AndNot((v + a - 1) % W32, a - 1)
  }

  /** Where a half ends after its first `n` sections, as the producer adds it up. */
  function EndW(ss: seq<Section>, w: bool, start: u32, n: nat): u32
    requires n <= |ss|
  {
    if n == 0 then start
    else if InHalf(ss[n - 1], w) then (MaskUp(EndW(ss, w, start, n - 1), AlignOf(ss[n - 1])) + ss[n - 1].size) % W32
    else EndW(ss, w, start, n - 1)
  }

  /** Where it puts section `i` of a half. */
  function OffW(ss: seq<Section>, w: bool, start: u32, i: nat): u32
    requires i < |ss|
  {
    MaskUp(EndW(ss, w, start, i), AlignOf(ss[i]))
  }

  /** The RAM block it asks for. */
  function RamSizeW(ss: seq<Section>, got: u32): u32 {
    MaskUp(EndW(ss, true, got, |ss|), BLOCK)
  }

  /** One half's loop over the sections. */
  method AddUp(ss: seq<Section>, w: bool, start: u32) returns (end: u32, at: seq<u32>)
    ensures end == EndW(ss, w, start, |ss|) && |at| == |ss|
    ensures forall i :: 0 <= i < |ss| && InHalf(ss[i], w) ==> at[i] == OffW(ss, w, start, i)
  {
    hide MaskUp;
    end, at := start, seq(|ss|, _ => 0);
    for i := 0 to |ss|
      invariant end == EndW(ss, w, start, i) && |at| == |ss|
      invariant forall k :: 0 <= k < i && InHalf(ss[k], w) ==> at[k] == OffW(ss, w, start, k)
    {
      if InHalf(ss[i], w) {
        end := MaskUp(end, AlignOf(ss[i]));
        at := at[i := end];
        end := (end + ss[i].size) % W32;
      }
    }
  }

  // ----- when they do not wrap

  lemma {:induction false} MaskIs(x: nat, a: nat)
    requires Pow2(a)
    ensures AndNot(x, a - 1) == x / a * a
  {
    if a == 1 {
      MaskNone(x);
    } else {
      MaskIs(x / 2, a / 2);
      assert (a - 1) / 2 == a / 2 - 1 && (a - 1) % 2 == 1;
      HalfTwice(x, a / 2);
    }
  }

  lemma {:induction false} MaskNone(x: nat)
    ensures AndNot(x, 0) == x
  {
    if x != 0 {
      MaskNone(x / 2);
    }
  }

  /** Halving and then dividing by `b` is dividing by `2 * b`. */
  lemma HalfTwice(x: nat, b: nat)
    requires 0 < b
    ensures x / 2 / b * b * 2 == x / (2 * b) * (2 * b)
  {
    var h := x / 2;
    var q, r := h / b, h % b;
    assert h == b * q + r;
    assert x == 2 * b * q + (2 * r + x % 2) by {
      assert x == 2 * h + x % 2;
      assert 2 * (b * q) == 2 * b * q;
    }
    Digits(q, 2 * b, 2 * r + x % 2);
    assert q * b * 2 == q * (2 * b);
  }

  /** On a power of two the mask rounds up, in 32 bits. */
  lemma MaskUpIs(v: nat, a: u32)
    requires Pow2(a)
    ensures MaskUp(v % W32, a) == RoundUp(v, a) % W32
  {
    assert 1 <= a;
    hide AndNot, Pow2, RoundUp, MaskUp;
    Pow2Top();
    PowDivides(a, W32);
    MaskSum(v, a);
    var x := v + a - 1;
    MaskIs(x % W32, a);
    Cut(x, W32, a);
  }

  lemma MaskSum(v: nat, a: u32)
    requires 1 <= a
    ensures MaskUp(v % W32, a) == AndNot((v + a - 1) % W32, a - 1) && RoundUp(v, a) == (v + a - 1) / a * a
  {
    hide AndNot;
    WrapsAlone(v, a - 1);
  }

  lemma WrapsAlone(v: nat, d: nat)
    ensures (v % W32 + d) % W32 == (v + d) % W32
  {
  }

  /** Cutting to a multiple of `a` and to a multiple of `w` do not disturb each other. */
  lemma Cut(x: nat, w: nat, a: nat)
    requires 0 < a && 0 < w && w % a == 0
    ensures x / a * a % w == x % w / a * a
  {
    var k, y, q := x / w, x % w, w / a;
    CutAt(k, q, y / a, y % a, a);
    assert x == w * k + y;
    assert w == a * q;
    assert y == a * (y / a) + y % a;
  }

  lemma CutAt(k: nat, q: nat, p: nat, r: nat, a: nat)
    requires r < a && a * p + r < a * q
    ensures (a * q * k + (a * p + r)) / a * a % (a * q) == p * a
  {
    Regroup(k, q, p, a);
    Digits(q * k + p, a, r);
    Digits(k, a * q, p * a);
  }

  lemma Regroup(k: nat, q: nat, p: nat, a: nat)
    ensures a * q * k + a * p == a * (q * k + p) == (q * k + p) * a == a * q * k + p * a
  {
  }

  lemma {:induction false} PowDivides(a: nat, b: nat)
    requires Pow2(a) && Pow2(b) && a <= b
    ensures b % a == 0
  {
    if a > 1 {
      PowDivides(a / 2, b / 2);
      var k := b / 2 / (a / 2);
      assert b / 2 == a / 2 * k;
      assert b == a * k by {
        assert b == 2 * (b / 2) && a == 2 * (a / 2);
        assert 2 * (a / 2 * k) == 2 * (a / 2) * k;
      }
      Digits(k, a, 0);
    }
  }

  lemma Double(a: nat)
    requires Pow2(a)
    ensures Pow2(2 * a)
  {
  }

  lemma Pow2Half()
    ensures Pow2(0x1_0000)
  {
    assert Pow2(1) && Pow2(2) && Pow2(4) && Pow2(8) && Pow2(16) && Pow2(32) && Pow2(64) && Pow2(128) && Pow2(256);
    hide Pow2;
    Double(0x100);
    Double(0x200);
    Double(0x400);
    Double(0x800);
    Double(0x1000);
    Double(0x2000);
    Double(0x4000);
    Double(0x8000);
  }

  lemma {:induction false} Pow2Times(a: nat, b: nat)
    requires Pow2(a) && Pow2(b)
    ensures Pow2(a * b)
  {
    if a > 1 {
      Pow2Times(a / 2, b);
      Double(a / 2 * b);
      assert 2 * (a / 2 * b) == a * b;
    }
  }

  lemma Pow2Top()
    ensures Pow2(W32)
  {
    hide Pow2;
    Pow2Half();
    Pow2Times(0x1_0000, 0x1_0000);
  }

  /** Alignments are powers of two, as the ELF standard has it. */
  ghost predicate Aligned(ss: seq<Section>) {
    forall s :: s in ss && s.Placed() ==> Pow2(AlignOf(s))
  }

  /** What the producer has is the true sum, in 32 bits. */
  lemma {:induction false} SumExact(ss: seq<Section>, w: bool, start: u32, n: nat)
    requires n <= |ss| && Aligned(ss)
    ensures EndW(ss, w, start, n) == EndOf(ss, w, start, n) % W32
  {
    hide MaskUp, RoundUp, Pow2;
    if n > 0 {
      SumExact(ss, w, start, n - 1);
      if InHalf(ss[n - 1], w) {
        var v, a := EndOf(ss, w, start, n - 1), AlignOf(ss[n - 1]);
        MaskUpIs(v, a);
        WrapsAlone(RoundUp(v, a), ss[n - 1].size);
      }
    }
  }

  lemma OffExact(ss: seq<Section>, w: bool, start: u32, i: nat)
    requires i < |ss| && InHalf(ss[i], w) && Aligned(ss)
    ensures OffW(ss, w, start, i) == OffOf(ss, w, start, i) % W32
  {
    hide MaskUp, RoundUp, Pow2, EndOf, EndW;
    SumExact(ss, w, start, i);
    MaskUpIs(EndOf(ss, w, start, i), AlignOf(ss[i]));
  }

  /** On an object whose sums do not wrap the producer's offsets are the ones the rest of the model uses. */
  lemma SumsExact(o: Object)
    requires Fits32(o)
    ensures GotBytes(o) < W32 && RamSizeW(o.sections, GotBytes(o)) == RamSize(o)
    ensures MaskUp(EndW(o.sections, false, 0, |o.sections|), 4) == VeneerOff(o)
    ensures forall i :: 0 <= i < |o.sections| && InHalf(o.sections[i], true) ==>
      OffW(o.sections, true, GotBytes(o), i) == RamOff(o, i)
    ensures forall i :: 0 <= i < |o.sections| && InHalf(o.sections[i], false) ==>
      OffW(o.sections, false, 0, i) == BlobOff(o, i)
  {
    hide MaskUp, RoundUp, Pow2, EndOf, EndW, OffW, OffOf, GotBytes;
    var ss, got, n := o.sections, GotBytes(o), |o.sections|;
    SumExact(ss, true, got, n);
    SumExact(ss, false, 0, n);
    SmallPow2(BLOCK);
    SmallPow2(4);
    Below32(RamEnd(o));
    MaskUpIs(RamEnd(o), BLOCK);
    MaskUpIs(EndOf(ss, false, 0, n), 4);
    forall i, w | 0 <= i < n && InHalf(ss[i], w)
      ensures OffW(ss, w, if w then got else 0, i) == OffOf(ss, w, if w then got else 0, i)
    {
      OffExact(ss, w, if w then got else 0, i);
      OffBounds(ss, w, if w then got else 0, i);
    }
  }

  lemma Below32(v: nat)
    requires v <= W32 - BLOCK
    ensures RoundUp(v, BLOCK) <= W32 - BLOCK
  {
  }

  // ----- the initialised span

  function LoW(ss: seq<Section>, got: u32, n: nat): u32
    requires n <= |ss|
  {
    if n == 0 then NO_DATA
    else if Loaded(ss[n - 1]) && OffW(ss, true, got, n - 1) < LoW(ss, got, n - 1) then OffW(ss, true, got, n - 1)
    else LoW(ss, got, n - 1)
  }

  function HiW(ss: seq<Section>, got: u32, n: nat): u32
    requires n <= |ss|
  {
    if n == 0 then 0
    else if Loaded(ss[n - 1]) && (OffW(ss, true, got, n - 1) + ss[n - 1].size) % W32 > HiW(ss, got, n - 1) then
      (OffW(ss, true, got, n - 1) + ss[n - 1].size) % W32
    else HiW(ss, got, n - 1)
  }

  function DataOffW(ss: seq<Section>, got: u32): u32 {
    var lo := LoW(ss, got, |ss|);
    if lo == NO_DATA then got else lo
  }

  function DataEndW(ss: seq<Section>, got: u32): u32 {
    if LoW(ss, got, |ss|) == NO_DATA then got else HiW(ss, got, |ss|)
  }

  /** The lowest and highest byte of the sections with content, from the offsets the first loop left. */
  method DataSpan(ss: seq<Section>, got: u32) returns (lo: u32, hi: u32)
    ensures lo == DataOffW(ss, got) && hi == DataEndW(ss, got)
  {
    hide OffW, EndW;
    var _, at := AddUp(ss, true, got);
    lo, hi := NO_DATA, 0;
    for i := 0 to |ss|
      invariant lo == LoW(ss, got, i) && hi == HiW(ss, got, i)
    {
      if Loaded(ss[i]) {
        var end := (at[i] + ss[i].size) % W32;
        lo := if at[i] < lo then at[i] else lo;
        hi := if end > hi then end else hi;
      }
    }
    if lo == NO_DATA {
      lo, hi := got, got;
    }
  }

  lemma {:induction false} ExtentExact(ss: seq<Section>, got: u32, n: nat)
    requires n <= |ss| && Aligned(ss) && EndOf(ss, true, got, |ss|) < NO_DATA
    ensures LoW(ss, got, n) == DataLo(ss, got, n) && HiW(ss, got, n) == DataHi(ss, got, n)
  {
    hide OffW, OffOf, EndOf, Aligned;
    if n > 0 {
      ExtentExact(ss, got, n - 1);
      if Loaded(ss[n - 1]) {
        OffExact(ss, true, got, n - 1);
        OffBounds(ss, true, got, n - 1);
        Unwrapped(OffOf(ss, true, got, n - 1));
        Unwrapped(OffOf(ss, true, got, n - 1) + ss[n - 1].size);
      }
    }
  }

  lemma SpanExact(ss: seq<Section>, got: u32)
    requires Aligned(ss) && EndOf(ss, true, got, |ss|) < NO_DATA
    ensures DataOffW(ss, got) == DataOff(ss, got) && DataEndW(ss, got) == DataEnd(ss, got)
  {
    hide LoW, HiW, DataLo, DataHi, EndOf, Aligned;
    ExtentExact(ss, got, |ss|);
  }

  // ----- the recorded sites

  /** The site recorded for a pointer at `offset` of writable section `t`. */
  function SiteW(ss: seq<Section>, got: u32, t: nat, offset: u32): u32
    requires t < |ss|
  {
    (OffW(ss, true, got, t) + offset) % W32
  }

  /** A pointer relocation there would be accepted. */
  predicate Admitted(ss: seq<Section>, t: nat, offset: u32) {
    t < |ss| && InHalf(ss[t], true) && SiteOk(ABS32, offset, ss[t].size)
  }

  /** Every writable section that can hold a pointer is inside the RAM block where the producer put it. */
  predicate Enclosed(ss: seq<Section>, got: u32) {
    forall t :: 0 <= t < |ss| && InHalf(ss[t], true) && ss[t].size >= 4 ==>
      OffW(ss, true, got, t) + ss[t].size <= RamSizeW(ss, got)
  }

  /** Every site that can be recorded lies inside the RAM block if and only if every section that can hold one does. */
  lemma SitesInside(ss: seq<Section>, got: u32)
    ensures (forall t: nat, offset: u32 :: Admitted(ss, t, offset) ==>
      SiteW(ss, got, t, offset) + 4 <= RamSizeW(ss, got))
      <==> Enclosed(ss, got)
  {
    hide OffW, EndW, MaskUp;
    RamBelow(ss, got);
    hide RamSizeW;
    var ram := RamSizeW(ss, got);
    if Enclosed(ss, got) {
      forall t: nat, offset: u32 | Admitted(ss, t, offset)
        ensures SiteW(ss, got, t, offset) + 4 <= ram
      {
        Unwrapped(OffW(ss, true, got, t) + offset);
      }
    } else {
      var t: nat :| t < |ss| && InHalf(ss[t], true) && ss[t].size >= 4 && OffW(ss, true, got, t) + ss[t].size > ram;
      Outside(ss, got, t);
    }
  }

  /** The block is a multiple of 32 below 2^32. */
  lemma RamBelow(ss: seq<Section>, got: u32)
    ensures RamSizeW(ss, got) <= W32 - BLOCK
  {
    SmallPow2(BLOCK);
    MaskIs((EndW(ss, true, got, |ss|) + BLOCK - 1) % W32, BLOCK);
  }

  /** A section that sticks out of the block, or over the end of the address space, has a site that does. */
  lemma Outside(ss: seq<Section>, got: u32, t: nat)
    requires t < |ss| && InHalf(ss[t], true) && ss[t].size >= 4
      && OffW(ss, true, got, t) + ss[t].size > RamSizeW(ss, got)
    requires RamSizeW(ss, got) <= W32 - BLOCK
    ensures exists offset: u32 :: Admitted(ss, t, offset) && SiteW(ss, got, t, offset) + 4 > RamSizeW(ss, got)
  {
    hide OffW, RamSizeW;
    var off := OffW(ss, true, got, t);
    var offset: u32 := if off + ss[t].size <= W32 then ss[t].size - 4 else if off <= W32 - 4 then W32 - 4 - off else 0;
    Unwrapped(off + offset);
    assert Admitted(ss, t, offset) && SiteW(ss, got, t, offset) + 4 > RamSizeW(ss, got);
  }

  /** Sums that do not wrap are enough. */
  lemma FitsInside(o: Object, t: nat, offset: u32)
    requires Fits32(o) && Admitted(o.sections, t, offset)
    ensures GotBytes(o) < W32 && SiteW(o.sections, GotBytes(o), t, offset) == RamOff(o, t) + offset
    ensures RamOff(o, t) + offset + 4 <= RamSize(o) == RamSizeW(o.sections, GotBytes(o))
  {
    hide OffW, RamSizeW, RoundUp, Pow2, EndOf, GotBytes;
    SumsExact(o);
    OffBounds(o.sections, true, GotBytes(o), t);
    Unwrapped(RamOff(o, t) + offset);
  }
}

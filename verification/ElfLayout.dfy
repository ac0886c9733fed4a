/** Laying sections out: read-only sections in one block, writable ones in another, each half in
    section order, every section at its own alignment. */
module ElfLayout {
  import opened Bytes
  import opened Elf

  const BLOCK := 32
  const MAX_IMAGE := 0x100_0000

  function AlignOf(s: Section): (a: nat)
    ensures a >= 4
  {
    if s.align < 4 then 4 else s.align
  }

  predicate AlignOk(s: Section) {
    AlignOf(s) in {4, 8, 16, 32, 64, 128, 256, 512, 1024, 2048, 4096}
  }

  /** An alignment below four counts as four; placed are those that are powers of two up to 4096. */
  lemma Alignments(s: Section)
    ensures AlignOf(s) >= s.align && (AlignOf(s) == s.align || (AlignOf(s) == 4 && s.align < 4))
    ensures MAX_IMAGE == 16 * 1024 * 1024
    ensures AlignOk(s) <==> s.align <= 4 || s.align in {8, 16, 32, 64, 128, 256, 512, 1024, 2048, 4096}
  {
  }

  /** Section `s` belongs to the writable (`w`) or the read-only half. */
  predicate InHalf(s: Section, w: bool) {
    s.Placed() && s.write == w
  }

  /** Where a half ends after its first `n` sections, when it starts at `start`. */
  function EndOf(ss: seq<Section>, w: bool, start: nat, n: nat): (e: nat)
    requires n <= |ss|
    ensures e >= start
  {
    if n == 0 then start
    else if InHalf(ss[n - 1], w) then RoundUp(EndOf(ss, w, start, n - 1), AlignOf(ss[n - 1])) + ss[n - 1].size
    else EndOf(ss, w, start, n - 1)
  }

  /** Where section `i` of a half goes. */
  function OffOf(ss: seq<Section>, w: bool, start: nat, i: nat): nat
    requires i < |ss|
  {
    RoundUp(EndOf(ss, w, start, i), AlignOf(ss[i]))
  }

  lemma {:induction false} EndMono(ss: seq<Section>, w: bool, start: nat, i: nat, j: nat)
    requires i <= j <= |ss|
    ensures EndOf(ss, w, start, i) <= EndOf(ss, w, start, j)
    decreases j
  {
    hide RoundUp;
    if i < j {
      EndMono(ss, w, start, i, j - 1);
    }
  }

  /** A section lies inside its half, at its alignment, and runs up to where the next may start. */
  lemma OffBounds(ss: seq<Section>, w: bool, start: nat, i: nat)
    requires i < |ss| && InHalf(ss[i], w)
    ensures start <= OffOf(ss, w, start, i) && OffOf(ss, w, start, i) % AlignOf(ss[i]) == 0
    ensures OffOf(ss, w, start, i) + ss[i].size == EndOf(ss, w, start, i + 1) <= EndOf(ss, w, start, |ss|)
  {
    hide RoundUp;
    EndMono(ss, w, start, i + 1, |ss|);
  }

  /** Sections of one half never overlap. */
  lemma OffDisjoint(ss: seq<Section>, w: bool, start: nat, i: nat, j: nat)
    requires i < j < |ss| && InHalf(ss[i], w) && InHalf(ss[j], w)
    ensures OffOf(ss, w, start, i) + ss[i].size <= OffOf(ss, w, start, j)
  {
    hide RoundUp;
    EndMono(ss, w, start, i + 1, j);
  }

  lemma RoundUpMono(u: nat, v: nat, a: nat)
    requires u <= v && 0 < a
    ensures RoundUp(u, a) <= RoundUp(v, a)
  {
    var p, q := (u + a - 1) / a, (v + a - 1) / a;
    assert RoundUp(u, a) == p * a < u + a && v <= q * a == RoundUp(v, a);
    hide RoundUp;
    if p > q {
      NextMultiple(p, q, a);
    } else if p < q {
      NextMultiple(q, p, a);
    }
  }

  lemma {:induction false} EndMonoStart(ss: seq<Section>, w: bool, s0: nat, s1: nat, n: nat)
    requires n <= |ss| && s0 <= s1
    ensures EndOf(ss, w, s0, n) <= EndOf(ss, w, s1, n)
  {
    hide RoundUp;
    if n > 0 {
      EndMonoStart(ss, w, s0, s1, n - 1);
      RoundUpMono(EndOf(ss, w, s0, n - 1), EndOf(ss, w, s1, n - 1), AlignOf(ss[n - 1]));
    }
  }

  // ----- the copy-to-RAM layout

  /** Where app_load's read-only half stops, block-aligned. */
  function TextEnd(ss: seq<Section>): nat {
    RoundUp(EndOf(ss, false, 0, |ss|), BLOCK)
  }

  function Total(ss: seq<Section>, got: nat): nat {
    RoundUp(EndOf(ss, true, TextEnd(ss) + got, |ss|), BLOCK)
  }

  /** Exactly the objects whose sections layout_add will place. */
  ghost predicate LaidOut(ss: seq<Section>, got: nat) {
    && (forall s :: s in ss && s.Placed() ==> AlignOk(s))
    && EndOf(ss, false, 0, |ss|) <= MAX_IMAGE && TextEnd(ss) + got <= MAX_IMAGE
    && EndOf(ss, true, TextEnd(ss) + got, |ss|) <= MAX_IMAGE
  }

  /** Place one section after `total` bytes, or refuse it (layout_add). */
  method LayoutAdd(total: nat, s: Section) returns (r: Outcome<(nat, nat)>)
    ensures r.Good? <==> AlignOk(s) && RoundUp(total, AlignOf(s)) + s.size <= MAX_IMAGE
    ensures r.Good? ==> r.value.0 == RoundUp(total, AlignOf(s)) && r.value.1 == r.value.0 + s.size
  {
    hide RoundUp;
    if !AlignOk(s) {
      return Bad(ErrBadSection);
    }
    var t := RoundUp(total, AlignOf(s));
    if t + s.size > MAX_IMAGE {
      return Bad(ErrBadSection);
    }
    r := Good((t, t + s.size));
  }

  /** One pass over the sections: place those of one half after `start`. */
  method LayoutHalf(ss: seq<Section>, w: bool, start: nat, at0: seq<nat>) returns (r: Outcome<nat>, at: seq<nat>)
    requires |at0| == |ss| && start <= MAX_IMAGE
    ensures |at| == |ss|
    ensures r.Good? <==> (forall s :: s in ss && InHalf(s, w) ==> AlignOk(s)) && EndOf(ss, w, start, |ss|) <= MAX_IMAGE
    ensures r.Good? ==> r.value == EndOf(ss, w, start, |ss|)
    ensures r.Good? ==> forall i :: 0 <= i < |ss| ==>
      at[i] == if InHalf(ss[i], w) then OffOf(ss, w, start, i) else at0[i]
  {
    hide RoundUp;
    at := at0;
    var total := start;
    for i := 0 to |ss|
      invariant |at| == |ss| && total == EndOf(ss, w, start, i) <= MAX_IMAGE
      invariant forall k :: 0 <= k < i && InHalf(ss[k], w) ==> AlignOk(ss[k])
      invariant forall k :: 0 <= k < |ss| ==>
        at[k] == if k < i && InHalf(ss[k], w) then OffOf(ss, w, start, k) else at0[k]
    {
      if InHalf(ss[i], w) {
        EndMono(ss, w, start, i + 1, |ss|);
        var one := LayoutAdd(total, ss[i]);
        if one.Bad? {
          return Bad(one.error), at;
        }
        at := at[i := one.value.0];
        total := one.value.1;
      }
    }
    r := Good(total);
  }

  /** app_load's layout: both halves as though they were one block, the GOT between them. */
  method Layout(ss: seq<Section>, got: nat) returns (r: Outcome<nat>, at: seq<nat>)
    ensures r.Good? <==> LaidOut(ss, got)
    ensures r.Good? ==> r.value == TextEnd(ss) && |at| == |ss|
    ensures r.Good? ==> forall i :: 0 <= i < |ss| && ss[i].Placed() ==>
      at[i] == if ss[i].write then OffOf(ss, true, TextEnd(ss) + got, i) else OffOf(ss, false, 0, i)
  {
    hide RoundUp, EndOf, OffOf;
    r, at := LayoutHalf(ss, false, 0, seq(|ss|, _ => 0));
    if r.Good? {
      var textEnd := RoundUp(r.value, BLOCK);
      if textEnd + got > MAX_IMAGE {
        return Bad(ErrBadSection), at;
      }
      r, at := LayoutHalf(ss, true, textEnd + got, at);
      if r.Good? {
        r := Good(textEnd);
      }
    }
  }

  // ----- absolute alignment

  /** Multiples of `c` add and subtract to multiples of `c`. */
  lemma SumMod(x: nat, y: nat, z: nat, c: nat)
    requires 0 < c && x % c == 0 && y % c == 0 && z % c == 0 && z <= y
    ensures (x + y - z) % c == 0
  {
    var i, j, k := x / c, y / c, z / c;
    assert x + y - z == (i + j - k) * c;
    if i + j - k < 0 {
      NextMultiple(0, i + j - k, c);
    }
    MultipleMod(i + j - k, c);
  }

  lemma FactorMod(x: nat, c: nat, d: nat)
    requires 0 < c && 0 < d && x % (c * d) == 0
    ensures x % c == 0
  {
    var k := x / (c * d);
    assert x == k * d * c;
    MultipleMod(k * d, c);
  }

  /** On a block that is only 32-aligned a section keeps min(its alignment, 32). */
  lemma AbsoluteAlignment(base: nat, textEnd: nat, off: nat, s: Section)
    requires AlignOk(s)
    requires base % BLOCK == 0 && textEnd % BLOCK == 0 && textEnd <= off && off % AlignOf(s) == 0
    ensures (base + off - textEnd) % (if AlignOf(s) < BLOCK then AlignOf(s) else BLOCK) == 0
  {
    var a := AlignOf(s);
    if a < BLOCK {
      FactorMod(base, a, BLOCK / a);
      FactorMod(textEnd, a, BLOCK / a);
      SumMod(base, off, textEnd, a);
    } else {
      FactorMod(off, BLOCK, a / BLOCK);
      SumMod(base, off, textEnd, BLOCK);
    }
  }
}

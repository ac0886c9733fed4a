/** Patching the read-only blob: the relocations in table order as one list, and the effect of
    applying any subset of them to the whole blob. */
module PicPatch {
  import opened Bytes
  import opened Elf
  import opened ElfLayout
  import opened PicLayout
  import Thumb

  /** A relocation of the blob: its blob-relative site, type and symbol. */
  datatype BlobRel = BlobRel(site: u32, kind: byte, sym: nat)

  predicate Patchable(kind: byte) {
    kind == GOT_BREL || IsBranch(kind)
  }

  /** Section `i` relocates a read-only section that is loaded. */
  predicate ForBlob(o: Object, i: nat)
    requires i < |o.sections|
  {
    o.sections[i].kind.Relocs? && o.IsPlaced(o.sections[i].info) && !o.sections[o.sections[i].info].write
  }

  function SectionRels(o: Object, i: nat): (s: seq<BlobRel>)
    requires i < |o.sections|
    ensures |s| == if ForBlob(o, i) then |o.sections[i].rels| else 0
    ensures ForBlob(o, i) ==> forall r :: 0 <= r < |s| ==> s[r] == RelAt(o, i, r)
  {
    if ForBlob(o, i) then seq(|o.sections[i].rels|, r requires 0 <= r < |o.sections[i].rels| => RelAt(o, i, r)) else []
  }

  function RelAt(o: Object, i: nat, r: nat): BlobRel
    requires i < |o.sections| && r < |o.sections[i].rels| && ForBlob(o, i)
  {
    var rel := o.sections[i].rels[r];
    BlobRel((BlobOff(o, o.sections[i].info) + rel.offset) % W32, rel.kind, rel.sym)
  }

  /** The blob's relocations of the first `n` sections, in the order the producer visits them. */
  function BlobRels(o: Object, n: nat): seq<BlobRel>
    requires n <= |o.sections|
  {
    if n == 0 then [] else BlobRels(o, n - 1) + SectionRels(o, n - 1)
  }

  lemma {:induction false} BlobRelsAt(o: Object, n: nat, i: nat, r: nat)
    requires i < n <= |o.sections| && r < |SectionRels(o, i)|
    ensures |BlobRels(o, i)| + r < |BlobRels(o, n)|
    ensures BlobRels(o, n)[|BlobRels(o, i)| + r] == SectionRels(o, i)[r]
  {
    hide SectionRels;
    if i < n - 1 {
      BlobRelsAt(o, n - 1, i, r);
    }
  }

  /** Which section and which of its relocations the `k`-th of the list is. */
  lemma {:induction false} BlobRelsFrom(o: Object, n: nat, k: nat) returns (i: nat, r: nat)
    requires n <= |o.sections| && k < |BlobRels(o, n)|
    ensures i < n && ForBlob(o, i) && r < |o.sections[i].rels| && k == |BlobRels(o, i)| + r
    ensures BlobRels(o, n)[k] == RelAt(o, i, r)
  {
    hide RelAt, SectionRels;
    var m := |BlobRels(o, n - 1)|;
    if k < m {
      i, r := BlobRelsFrom(o, n - 1, k);
    } else {
      i, r := n - 1, k - m;
    }
  }

  // ----- the blob before relocation

  /** Zeros, then the content of the first `n` sections spliced in where they belong. */
  function Pristine(o: Object, n: nat): (b: seq<byte>)
    requires n <= |o.sections| && o.Read()
    ensures |b| == VeneerOff(o)
  {
    if n == 0 then seq(VeneerOff(o), _ => 0)
    else if Copied(o.sections[n - 1]) then
      SectionFits(o, n - 1);
      Splice(Pristine(o, n - 1), BlobOff(o, n - 1), o.sections[n - 1].bytes)
    else Pristine(o, n - 1)
  }

  predicate Copied(s: Section) {
    InHalf(s, false) && !s.kind.NoBits?
  }

  lemma SectionFits(o: Object, i: nat)
    requires i < |o.sections| && InHalf(o.sections[i], false)
    ensures BlobOff(o, i) + o.sections[i].size <= VeneerOff(o)
  {
    hide RoundUp;
    OffBounds(o.sections, false, 0, i);
  }

  // ----- patches

  /** What a site is patched with, and the reference it came from: the byte offset of a GOT slot, or
      a branch displacement. */
  datatype Patch = GotWord(ref: Ref, off: u32) | Branch(ref: Ref, disp: int)

  predicate Fits(p: Patch) {
    p.Branch? ==> Thumb.InRange(p.disp)
  }

  function PatchBytes(old4: seq<byte>, p: Patch): (s: seq<byte>)
    requires |old4| == 4 && Fits(p)
    ensures |s| == 4
  {
    match p
    case GotWord(_, off) => Le32(off)
    case Branch(_, disp) => Thumb.PairBytes(Thumb.Encode(Thumb.PairAt(old4, 0), disp))
  }

  function PatchAt(b: seq<byte>, site: nat, p: Patch): (r: seq<byte>)
    requires site + 4 <= |b| && Fits(p)
    ensures |r| == |b|
    ensures forall i :: 0 <= i < |b| && !(site <= i < site + 4) ==> r[i] == b[i]
    ensures r[site..site + 4] == PatchBytes(b[site..site + 4], p)
  {
    Splice(b, site, PatchBytes(b[site..site + 4], p))
  }

  type Patches = map<nat, Patch>

  /** The sites patched so far are inside the blob. */
  ghost predicate Inside(rels: seq<BlobRel>, vals: Patches, len: nat) {
    forall k :: k in vals ==> k < |rels| && rels[k].site + 4 <= len && Fits(vals[k])
  }

  /** Apply, in order, those of the first `n` relocations that have a patch. */
  function Fold(b: seq<byte>, rels: seq<BlobRel>, vals: Patches, n: nat): (r: seq<byte>)
    requires n <= |rels| && Inside(rels, vals, |b|)
    ensures |r| == |b|
  {
    if n == 0 then b
    else if n - 1 in vals then PatchAt(Fold(b, rels, vals, n - 1), rels[n - 1].site, vals[n - 1])
    else Fold(b, rels, vals, n - 1)
  }

  predicate Apart(a: nat, b: nat) {
    a + 4 <= b || b + 4 <= a
  }

  lemma PatchCommutes(b: seq<byte>, s: nat, p: Patch, t: nat, q: Patch)
    requires s + 4 <= |b| && t + 4 <= |b| && Fits(p) && Fits(q) && Apart(s, t)
    ensures PatchAt(PatchAt(b, s, p), t, q) == PatchAt(PatchAt(b, t, q), s, p)
  {
    hide PatchBytes;
    var l, r := PatchAt(PatchAt(b, s, p), t, q), PatchAt(PatchAt(b, t, q), s, p);
    assert PatchAt(b, s, p)[t..t + 4] == b[t..t + 4];
    assert PatchAt(b, t, q)[s..s + 4] == b[s..s + 4];
    assert l[s..s + 4] == PatchAt(b, s, p)[s..s + 4];
    assert r[t..t + 4] == PatchAt(b, t, q)[t..t + 4];
    forall i | 0 <= i < |b|
      ensures l[i] == r[i]
    {
      if s <= i < s + 4 {
        assert l[s..s + 4][i - s] == r[s..s + 4][i - s];
      } else if t <= i < t + 4 {
        assert l[t..t + 4][i - t] == r[t..t + 4][i - t];
      }
    }
  }

  /** A patch put in before patches that do not touch its site is a patch put in last. */
  lemma {:induction false} FoldInsert(b: seq<byte>, rels: seq<BlobRel>, vals: Patches, k: nat, p: Patch, n: nat)
    requires k < n <= |rels| && k !in vals && Fits(p) && rels[k].site + 4 <= |b|
    requires Inside(rels, vals, |b|)
    requires forall j :: j in vals && k < j < n ==> Apart(rels[j].site, rels[k].site)
    ensures Inside(rels, vals[k := p], |b|)
    ensures Fold(b, rels, vals[k := p], n) == PatchAt(Fold(b, rels, vals, n), rels[k].site, p)
  {
    hide PatchAt;
    if n == k + 1 {
      FoldSame(b, rels, vals, k, p, k);
    } else {
      FoldInsert(b, rels, vals, k, p, n - 1);
      if n - 1 in vals {
        PatchCommutes(Fold(b, rels, vals, n - 1), rels[k].site, p, rels[n - 1].site, vals[n - 1]);
      }
    }
  }

  /** A later patch does not change what happened before it. */
  lemma {:induction false} FoldSame(b: seq<byte>, rels: seq<BlobRel>, vals: Patches, k: nat, p: Patch, n: nat)
    requires n <= k < |rels| && k !in vals && Fits(p) && rels[k].site + 4 <= |b|
    requires Inside(rels, vals, |b|)
    ensures Inside(rels, vals[k := p], |b|)
    ensures Fold(b, rels, vals[k := p], n) == Fold(b, rels, vals, n)
  {
    hide PatchAt;
    if n > 0 {
      FoldSame(b, rels, vals, k, p, n - 1);
    }
  }

  /** Bytes no patch reaches keep their value. */
  lemma {:induction false} FoldUntouched(b: seq<byte>, rels: seq<BlobRel>, vals: Patches, n: nat, i: nat)
    requires n <= |rels| && Inside(rels, vals, |b|) && i < |b|
    requires forall k :: k in vals && k < n ==> !(rels[k].site <= i < rels[k].site + 4)
    ensures Fold(b, rels, vals, n)[i] == b[i]
  {
    if n > 0 {
      FoldUntouched(b, rels, vals, n - 1, i);
    }
  }

  /** From relocation `n` on nothing touches the site. */
  lemma {:induction false} FoldSettled(b: seq<byte>, rels: seq<BlobRel>, vals: Patches, n: nat, m: nat, site: nat)
    requires n <= m <= |rels| && Inside(rels, vals, |b|) && site + 4 <= |b|
    requires forall k :: k in vals && n <= k < m ==> Apart(rels[k].site, site)
    ensures Fold(b, rels, vals, m)[site..site + 4] == Fold(b, rels, vals, n)[site..site + 4]
    decreases m
  {
    if n < m {
      FoldSettled(b, rels, vals, n, m - 1, site);
      if m - 1 in vals {
        KeepsApart(Fold(b, rels, vals, m - 1), rels[m - 1].site, vals[m - 1], site);
      }
    }
  }

  lemma KeepsApart(b: seq<byte>, s: nat, p: Patch, site: nat)
    requires s + 4 <= |b| && site + 4 <= |b| && Fits(p) && Apart(s, site)
    ensures PatchAt(b, s, p)[site..site + 4] == b[site..site + 4]
  {
    hide PatchBytes;
  }
}

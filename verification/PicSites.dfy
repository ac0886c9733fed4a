/** What every patched site of the blob holds, in terms of the tables the producer has filled. */
module PicSites {
  import opened Bytes
  import opened Elf
  import opened Manifest
  import opened Sets
  import opened PicLayout
  import opened PicTables
  import opened PicPatch
  import Thumb

  function Signed(x: u32): int {
    if x < 0x8000_0000 then x else x - W32
  }

  /** Displacement from a branch at `site` to `value` plus the branch's own addend. The addend in an
      unresolved pair has the Thumb pipeline offset folded in, so four is added back. */
  function BranchDisp(pair: Thumb.Pair, site: nat, value: u32): int {
    Signed((value / 2 * 2 + Thumb.Decode(pair) + 4) % W32) - (site + 4)
  }

  ghost function Rels(o: Object): seq<BlobRel> {
    BlobRels(o, |o.sections|)
  }

  ghost function Blank(o: Object): (b: seq<byte>)
    requires o.Read()
    ensures |b| == VeneerOff(o)
  {
    Pristine(o, |o.sections|)
  }

  /** The four bytes at the site of relocation `k` when its turn comes. */
  ghost function Before(o: Object, vals: Patches, k: nat): (s: seq<byte>)
    requires o.Read() && Inside(Rels(o), vals, VeneerOff(o)) && k in vals
    ensures |s| == 4
  {
    var site := Rels(o)[k].site;
    Fold(Blank(o), Rels(o), vals, k)[site..site + 4]
  }

  /** Relocation `k` was patched as the tables say. */
  ghost predicate PatchOk(o: Object, names: seq<seq<byte>>, pool: seq<nat>, got: seq<GotEntry>, rel: BlobRel,
                          old4: seq<byte>, p: Patch)
    requires |old4| == 4
  {
    && Patchable(rel.kind) && Resolves(o, names, pool, rel.sym, p.ref)
    && (rel.kind == GOT_BREL ==>
          && p.GotWord? && Rd32(old4, 0) == 0 && AsEntry(p.ref) in got
          && p.off == 4 * PosOf(got, AsEntry(p.ref)))
    && (IsBranch(rel.kind) ==>
          && p.Branch? && p.ref.cls == Slot
          && p.disp == BranchDisp(Thumb.PairAt(old4, 0), rel.site, p.ref.value))
  }

  ghost predicate PatchesOk(o: Object, names: seq<seq<byte>>, pool: seq<nat>, got: seq<GotEntry>, vals: Patches)
    requires o.Read()
  {
    && Inside(Rels(o), vals, VeneerOff(o))
    && forall k :: k in vals ==> PatchOk(o, names, pool, got, Rels(o)[k], Before(o, vals, k), vals[k])
  }

  lemma PatchesInside(o: Object, names: seq<seq<byte>>, pool: seq<nat>, got: seq<GotEntry>, vals: Patches)
    requires o.Read() && PatchesOk(o, names, pool, got, vals)
    ensures Inside(Rels(o), vals, VeneerOff(o))
  {
  }

  /** The tables only grow, so what a site was patched with stays right. */
  lemma PatchesGrow(o: Object, names: seq<seq<byte>>, pool: seq<nat>, got: seq<GotEntry>, vals: Patches,
                    pool': seq<nat>, got': seq<GotEntry>)
    requires o.Read() && PatchesOk(o, names, pool, got, vals) && pool <= pool' && got <= got'
    ensures PatchesOk(o, names, pool', got', vals)
  {
    hide Before, Resolves, Rels;
    forall k | k in vals
      ensures Inside(Rels(o), vals, VeneerOff(o)) && k < |Rels(o)|
      ensures PatchOk(o, names, pool', got', Rels(o)[k], Before(o, vals, k), vals[k])
    {
      PatchGrows(o, names, pool, got, Rels(o)[k], Before(o, vals, k), vals[k], pool', got');
    }
  }

  lemma PatchGrows(o: Object, names: seq<seq<byte>>, pool: seq<nat>, got: seq<GotEntry>, rel: BlobRel,
                   old4: seq<byte>, p: Patch, pool': seq<nat>, got': seq<GotEntry>)
    requires |old4| == 4 && PatchOk(o, names, pool, got, rel, old4, p) && pool <= pool' && got <= got'
    ensures PatchOk(o, names, pool', got', rel, old4, p)
  {
    hide Resolves, Rd32, BranchDisp;
    ResolvesStable(o, names, pool, pool', rel.sym, p.ref);
    if rel.kind == GOT_BREL {
      PosStable(got, got', AsEntry(p.ref));
    }
  }

  /** The whole blob, with the patches made so far. */
  ghost function Whole(o: Object, vals: Patches): (b: seq<byte>)
    requires o.Read() && Inside(Rels(o), vals, VeneerOff(o))
    ensures |b| == VeneerOff(o)
  {
    Fold(Blank(o), Rels(o), vals, |Rels(o)|)
  }

  /** Patching one more site, when every patch that comes later in the list lies elsewhere. */
  lemma AddPatch(o: Object, names: seq<seq<byte>>, pool: seq<nat>, got: seq<GotEntry>, vals: Patches, k: nat, p: Patch)
    requires o.Read() && PatchesOk(o, names, pool, got, vals)
    requires k < |Rels(o)| && k !in vals && Fits(p) && Rels(o)[k].site + 4 <= VeneerOff(o)
    requires forall j :: j in vals && k < j ==> Apart(Rels(o)[j].site, Rels(o)[k].site)
    requires PatchOk(o, names, pool, got, Rels(o)[k], Whole(o, vals)[Rels(o)[k].site..Rels(o)[k].site + 4], p)
    ensures PatchesOk(o, names, pool, got, vals[k := p])
    ensures Whole(o, vals[k := p]) == PatchAt(Whole(o, vals), Rels(o)[k].site, p)
  {
    hide PatchOk, PatchAt;
    var rels, b, vals' := Rels(o), Blank(o), vals[k := p];
    var site := rels[k].site;
    FoldInsert(b, rels, vals, k, p, |rels|);
    forall j | j in vals'
      ensures PatchOk(o, names, pool, got, rels[j], Before(o, vals', j), vals'[j])
    {
      if j == k {
        FoldSame(b, rels, vals, k, p, k);
        FoldSettled(b, rels, vals, k, |rels|, site);
      } else {
        SameBefore(o, vals, k, p, j);
      }
    }
  }

  lemma SameBefore(o: Object, vals: Patches, k: nat, p: Patch, j: nat)
    requires o.Read() && Inside(Rels(o), vals, VeneerOff(o)) && j in vals
    requires k < |Rels(o)| && k !in vals && Fits(p) && Rels(o)[k].site + 4 <= VeneerOff(o)
    requires forall i :: i in vals && k < i ==> Apart(Rels(o)[i].site, Rels(o)[k].site)
    ensures Inside(Rels(o), vals[k := p], VeneerOff(o)) && Before(o, vals[k := p], j) == Before(o, vals, j)
  {
    hide Fold, PatchAt;
    var rels, b := Rels(o), Blank(o);
    if j < k {
      FoldSame(b, rels, vals, k, p, j);
    } else {
      FoldInsert(b, rels, vals, k, p, j);
      KeepsApart(Fold(b, rels, vals, j), rels[k].site, p, rels[j].site);
    }
  }
}

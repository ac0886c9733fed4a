/** The page pass of app_pic_install: read a page, patch it, hand it to the sink, forget it. */
module PicPages {
  import opened Bytes
  import opened Elf
  import opened ElfLayout
  import opened Manifest
  import opened Sets
  import opened PicLayout
  import opened PicTables
  import opened PicPatch
  import opened PicSites
  import Thumb
  import SlotProtocol

  const PAGE := 4096

  /** What the producer writes the blob to. A call must continue exactly where the last one ended;
      the sink may refuse it. */
  class Sink {
    var taken: seq<seq<byte>>

    ghost function Written(): seq<byte>
      reads this
    {
      SlotProtocol.Joined(taken)
    }

    constructor ()
      ensures taken == []
    {
      taken := [];
    }

    method Put(off: nat, data: seq<byte>) returns (ok: bool)
      requires off == |Written()|
      modifies this
      ensures Written() == if ok then old(Written()) + data else old(Written())
      ensures taken == if ok then old(taken) + [data] else old(taken)
    {
      ok := *;
      if ok {
        assert (taken + [data])[..|taken|] == taken;
        taken := taken + [data];
      }
    }
  }

  class Pager {
    const o: Object
    const t: Tables
    const page: array<byte>
    /** The page is `[pos, end)` of the blob. */
    var pos: nat
    var end: nat
    var emitEnd: nat
    var patchedTo: nat
    /** Every patch made so far, by position in the relocation list. */
    ghost var vals: Patches
    /** What has been handed to the sink so far. */
    ghost var out: seq<byte>

    constructor (o: Object, t: Tables)
      requires o.Read() && t.Valid() && t.o == o && VeneerOff(o) <= RO_MAX + 4 && GotBytes(o) < W32
      ensures this.o == o && this.t == t && fresh(page) && pos == 0 && vals == map[] && out == [] && Sound()
    {
      this.o, this.t := o, t;
      page := new byte[PAGE](_ => 0);
      pos, end, emitEnd, patchedTo := 0, 0, 0, 0;
      vals, out := map[], [];
    }

    ghost predicate Sound()
      reads this`vals, t
    {
      && o.Read() && t.Valid() && t.o == o && page.Length == PAGE
      && VeneerOff(o) <= RO_MAX + 4 && GotBytes(o) < W32
      && Inside(Rels(o), vals, VeneerOff(o)) && PatchesOk(o, t.names, t.pool, t.got, vals)
    }

    /** The page buffer is the corresponding part of the blob with the patches made so far, all of
        which lie before this page or inside it below `patchedTo`. */
    ghost predicate InPage()
      reads this, t, page
    {
      && Sound() && pos < end <= VeneerOff(o) && end - pos <= PAGE && emitEnd <= end && pos <= patchedTo <= end
      && View(o, vals, pos, end, page[..], out) && PatchedTo(o, vals.Keys, pos, patchedTo)
    }

    /** Start a page: zeros, then whatever the read-only sections hold there. */
    method Fill()
      requires Sound() && pos < VeneerOff(o) && PastPage(o, vals.Keys, 0, pos) && out == Whole(o, vals)[..pos]
      modifies this`end, this`emitEnd, this`patchedTo, page
      ensures InPage() && end == (if pos + PAGE < VeneerOff(o) then pos + PAGE else VeneerOff(o))
      ensures emitEnd == end && patchedTo == pos
    {
      hide PatchesOk, Tables.Valid, VeneerOff, Whole, Rels, Inside;
      end := if pos + PAGE < VeneerOff(o) then pos + PAGE else VeneerOff(o);
      emitEnd, patchedTo := end, pos;
      ReadPage();
      StillBlank(o, vals, pos, end);
      assert page[..][..end - pos] == page[..end - pos];
    }

    method ReadPage()
      requires o.Read() && page.Length == PAGE && pos <= end <= VeneerOff(o) && end - pos <= PAGE
      modifies page
      ensures page[..end - pos] == Blank(o)[pos..end]
    {
      hide VeneerOff, BlobOff, Pristine, Splice;
      Clear(page, end - pos);
      PristineStart(o, pos, end);
      for i := 0 to |o.sections|
        invariant page[..end - pos] == Pristine(o, i)[pos..end]
      {
        PristineNext(o, i);
        if Copied(o.sections[i]) {
          Overlay(page, pos, end, BlobOff(o, i), o.sections[i].bytes, Pristine(o, i));
        }
      }
    }

    /** What goes at a site, given the four bytes now there. */
    method Choose(ghost k: nat, rel: BlobRel, old4: seq<byte>, ref: Ref) returns (r: Outcome<Patch>)
      requires Sound() && |old4| == 4 && Resolves(o, t.names, t.pool, rel.sym, ref)
      requires rel.kind == GOT_BREL ==> rel.sym in GotSyms(o, true)
      modifies t`got, t`gotSyms
      ensures Sound() && t.pool == old(t.pool)
      ensures r.Good? ==> Patchable(rel.kind) && Fits(r.value) && PatchOk(o, t.names, t.pool, t.got, rel, old4, r.value)
      ensures r.Bad? ==> r.error != ErrTable
    {
      hide PatchesOk, Resolves, VeneerOff, GotSyms, Rd32, BranchDisp;
      if rel.kind == GOT_BREL {
        if Rd32(old4, 0) != 0 {
          return Bad(ErrUnsupported);
        }
        ghost var got := t.got;
        var slot := t.GotSlot(ref, rel.sym);
        PatchesGrow(o, t.names, t.pool, got, vals, t.pool, t.got);
        SlotInRange();
        r := if slot.Good? then Good(GotWord(ref, slot.value)) else Bad(ErrTable);
      } else if IsBranch(rel.kind) {
        if ref.cls != Slot {
          return Bad(ErrRange);
        }
        var disp := BranchDisp(Thumb.PairAt(old4, 0), rel.site, ref.value);
        if !Thumb.InRange(disp) {
          return Bad(ErrRange);
        }
        r := Good(Branch(ref, disp));
      } else {
        r := Bad(ErrUnsupported);
      }
    }

    lemma SlotInRange()
      requires t.Valid() && t.o == o && GotBytes(o) < W32
      ensures 4 * |t.got| < W32
    {
      GotFits(o, t.names, t.pool, t.got, t.gotSyms);
    }

    /** Patch one site that lies wholly inside the page. */
    method Apply(ghost k: nat, rel: BlobRel, ref: Ref) returns (r: Outcome<()>)
      requires InPage() && k < |Rels(o)| && Rels(o)[k] == rel
      requires pos <= rel.site && rel.site + 4 <= end && PastPage(o, vals.Keys, k, pos)
      requires Resolves(o, t.names, t.pool, rel.sym, ref) && (rel.kind == GOT_BREL ==> rel.sym in GotSyms(o, true))
      modifies this`patchedTo, this`vals, page, t`got, t`gotSyms
      ensures t.Valid() && (r.Bad? ==> r.error != ErrTable)
      ensures r.Good? ==> InPage() && Patchable(rel.kind) && vals.Keys == old(vals.Keys) + {k}
    {
      hide PatchesOk, Resolves, VeneerOff, GotSyms, Tables.Valid, PatchOk, Rels, Whole, PastPage, View, PatchedTo;
      var at := rel.site - pos;
      var buf := page[..];
      ViewSite(o, vals, pos, end, buf, out, rel.site);
      var c := Choose(k, rel, buf[at..at + 4], ref);
      if c.Bad? {
        return Bad(c.error);
      }
      Write(k, rel, c.value);
      r := Good(());
    }

    /** Put a chosen patch in the page buffer and record it. */
    method Write(ghost k: nat, rel: BlobRel, p: Patch)
      requires InPage() && k < |Rels(o)| && Rels(o)[k] == rel && Fits(p)
      requires pos <= rel.site && rel.site + 4 <= end && PastPage(o, vals.Keys, k, pos)
      requires PatchOk(o, t.names, t.pool, t.got, rel, Whole(o, vals)[rel.site..rel.site + 4], p)
      modifies this`patchedTo, this`vals, page
      ensures InPage() && vals.Keys == old(vals.Keys) + {k}
    {
      hide PatchesOk, VeneerOff, Tables.Valid, PatchOk, PatchBytes, Splice, Whole, Rels, View, PatchedTo, PastPage;
      var at := rel.site - pos;
      var buf := page[..];
      ViewSite(o, vals, pos, end, buf, out, rel.site);
      ViewStep(o, t.names, t.pool, t.got, vals, k, p, pos, end, buf, out, patchedTo);
      Store(page, at, PatchBytes(buf[at..at + 4], p));
      vals := vals[k := p];
      patchedTo := if rel.site + 4 > patchedTo then rel.site + 4 else patchedTo;
    }

    /** Visit one relocation: refuse a bad site, leave another page's alone, cut the page short at a
        site that straddles its end, patch any other. */
    method Visit(i: nat, r: nat) returns (res: Outcome<()>)
      requires InPage() && t.Valid() && i < |o.sections| && r < |o.sections[i].rels| && ForBlob(o, i)
      requires PastPage(o, vals.Keys, IndexOfRel(o, i, r), pos)
      modifies this`emitEnd, this`patchedTo, this`vals, page, t`got, t`gotSyms, t`pool, t`poolSyms, t`memo
      ensures t.Valid() && (res.Bad? ==> res.error != ErrTable)
      ensures res.Good? ==>
        InPage() && emitEnd <= old(emitEnd) && old(vals.Keys) <= vals.Keys <= old(vals.Keys) + {IndexOfRel(o, i, r)}
      ensures res.Good? ==> RelSiteOk(o, i, r) && Handled(o, vals.Keys, pos, end, emitEnd, IndexOfRel(o, i, r))
    {
      hide Pager.InPage, Tables.Valid, BlobOff, RelocSyms, GotSyms, BlobRels, PastPage, Resolves;
      var sec := o.sections[i];
      var rel := RelAt(o, i, r);
      ghost var k := IndexOfRel(o, i, r);
      BlobRelsAt(o, |o.sections|, i, r);
      res := Good(());
      if rel.kind == NONE {
        return;
      }
      if !SiteOk(rel.kind, sec.rels[r].offset, o.sections[sec.info].size) {
        return Bad(ErrRange);
      }
      if rel.site < pos || rel.site >= end {
        return;
      }
      if rel.site + 4 > end {
        Cut(rel.site);
        return;
      }
      RelocSymsHas(o.sections, |o.sections|, i, r);
      var ref := ResolveKeeping(rel.sym);
      if ref.Bad? {
        return Bad(ref.error);
      }
      GotSymFrom(o, i, r);
      res := Apply(k, rel, ref.value);
    }

    /** Stop the page short at a site that straddles its end. */
    method Cut(site: nat)
      requires InPage() && site < end
      modifies this`emitEnd
      ensures InPage() && emitEnd <= site && emitEnd <= old(emitEnd)
    {
      hide PatchesOk, Whole, VeneerOff, Rels, View, PatchedTo;
      emitEnd := if site < emitEnd then site else emitEnd;
    }

    /** Resolving may add a veneer; everything patched so far stands. */
    method ResolveKeeping(sym: nat) returns (r: Outcome<Ref>)
      requires InPage() && sym in RelocSyms(o.sections, |o.sections|)
      modifies t`pool, t`poolSyms, t`memo
      ensures InPage() && t.Valid() && t.got == old(t.got)
      ensures r.Good? ==> Resolves(o, t.names, t.pool, sym, r.value) && sym < |o.syms|
      ensures r.Bad? ==> r.error != ErrTable
    {
      hide PatchesOk, VeneerOff, Whole, Rels, RelocSyms, View, PatchedTo;
      ghost var pool := t.pool;
      r := t.Resolve(sym);
      PatchesGrow(o, t.names, pool, t.got, vals, t.pool, t.got);
    }

    /** The relocations of one section, against this page. */
    method PatchSection(i: nat) returns (res: Outcome<()>)
      requires InPage() && t.Valid() && i < |o.sections| && ForBlob(o, i)
      requires PastPage(o, vals.Keys, |BlobRels(o, i)|, pos)
      modifies this`emitEnd, this`patchedTo, this`vals, page, t`got, t`gotSyms, t`pool, t`poolSyms, t`memo
      ensures t.Valid() && (res.Bad? ==> res.error != ErrTable)
      ensures res.Good? ==> InPage() && emitEnd <= old(emitEnd) && old(vals.Keys) <= vals.Keys && Checked(o, i)
      ensures res.Good? ==> PastPage(o, vals.Keys, |BlobRels(o, i + 1)|, pos)
      ensures res.Good? ==> HandledSection(o, vals.Keys, pos, end, emitEnd, i)
    {
      hide Pager.InPage, Tables.Valid, Rels, RelSiteOk, Handled, BlobRels, PastPage;
      var n := |o.sections[i].rels|;
      SectionEnds(o, i);
      for r := 0 to n
        invariant InPage() && t.Valid() && emitEnd <= old(emitEnd) && old(vals.Keys) <= vals.Keys
        invariant PastPage(o, vals.Keys, IndexOfRel(o, i, r), pos)
        invariant forall q :: 0 <= q < r ==> RelSiteOk(o, i, q)
        invariant forall q :: 0 <= q < r ==> Handled(o, vals.Keys, pos, end, emitEnd, IndexOfRel(o, i, q))
      {
        ghost var done, cut := vals.Keys, emitEnd;
        res := Visit(i, r);
        if res.Bad? {
          return;
        }
        PastPageNext(o, done, vals.Keys, IndexOfRel(o, i, r), pos);
        forall q | 0 <= q < r
          ensures Handled(o, vals.Keys, pos, end, emitEnd, IndexOfRel(o, i, q))
        {
          HandledStays(o, done, vals.Keys, pos, end, cut, emitEnd, IndexOfRel(o, i, q));
        }
      }
      res := Good(());
    }

    /** Every relocation section, against this page; sections whose target lies elsewhere are skipped. */
    method PatchPage() returns (res: Outcome<()>)
      requires InPage() && t.Valid() && PastPage(o, vals.Keys, 0, pos)
      modifies this`emitEnd, this`patchedTo, this`vals, page, t`got, t`gotSyms, t`pool, t`poolSyms, t`memo
      ensures t.Valid() && (res.Bad? ==> res.error != ErrTable)
      ensures res.Good? ==> InPage() && emitEnd <= old(emitEnd) && old(vals.Keys) <= vals.Keys
      ensures res.Good? ==> forall i :: 0 <= i < |o.sections| ==> PageDone(o, vals.Keys, pos, end, emitEnd, i)
    {
      hide Pager.InPage, Tables.Valid, Rels, BlobRels, PastPage, Checked, HandledSection, BlobOff;
      PastPageStart(o);
      for i := 0 to |o.sections|
        invariant InPage() && t.Valid() && emitEnd <= old(emitEnd) && old(vals.Keys) <= vals.Keys
        invariant PastPage(o, vals.Keys, |BlobRels(o, i)|, pos)
        invariant forall j :: 0 <= j < i ==> PageDone(o, vals.Keys, pos, end, emitEnd, j)
      {
        ghost var done, cut := vals.Keys, emitEnd;
        PastPageLater(o, done, i, pos);
        if ForBlob(o, i) && InView(o, pos, end, i) {
          res := PatchSection(i);
          if res.Bad? {
            return;
          }
        }
        DoneStays(o, done, vals.Keys, pos, end, cut, emitEnd, i);
      }
      res := Good(());
    }

    /** Between pages: everything before `pos` is out and final. */
    ghost predicate AtBoundary()
      reads this, t
    {
      && Sound() && pos <= VeneerOff(o) && out == Whole(o, vals)[..pos]
      && PastPage(o, vals.Keys, 0, pos) && Covered(o, vals.Keys, pos)
    }

    /** One turn of the page loop: fill, patch, check the cut, hand to the sink, move on. */
    method EmitPage(sink: Sink) returns (res: Outcome<()>)
      requires AtBoundary() && pos < VeneerOff(o) && sink.Written() == out
      modifies this, page, t, sink
      ensures t.Valid() && (res.Bad? ==> res.error != ErrTable)
      ensures res.Good? ==> AtBoundary() && old(pos) < pos && sink.Written() == out
      ensures res.Good? ==> old(vals.Keys) <= vals.Keys
    {
      hide PatchesOk, VeneerOff, Whole, Rels, Inside, Covered, Tables.Valid, PastPage, PatchedTo, PageDone;
      Fill();
      ghost var done := vals.Keys;
      res := PatchPage();
      if res.Bad? {
        return;
      }
      if emitEnd <= pos {
        return Bad(ErrUnsupported);
      }
      if patchedTo > emitEnd {
        return Bad(ErrUnsupported);
      }
      CoveredNext(o, done, vals.Keys, pos, end, emitEnd);
      res := HandOver(sink);
    }

    /** The part of the page before the cut goes to the sink. */
    method HandOver(sink: Sink) returns (res: Outcome<()>)
      requires InPage() && pos < emitEnd && patchedTo <= emitEnd && Covered(o, vals.Keys, emitEnd)
        && sink.Written() == out
      modifies this`pos, this`out, sink
      ensures res.Bad? ==> res.error != ErrTable
      ensures res.Good? ==> AtBoundary() && pos == emitEnd && sink.Written() == out
    {
      hide VeneerOff, Covered, PastPage, PatchedTo, View, Rels;
      assert page.Length == PAGE;
      hide Pager.Sound, Whole;
      PageOut(o, vals, pos, end, emitEnd, page[..], out);
      Advance(o, vals.Keys, pos, patchedTo, emitEnd);
      var chunk := page[..][..emitEnd - pos];
      ghost var sent := out + chunk;
      assert sent == Whole(o, vals)[..emitEnd] && |out| == pos;
      var ok := sink.Put(pos, chunk);
      if !ok {
        return Bad(ErrRead);
      }
      out, pos := sent, emitEnd;
      res := Good(());
    }

    /** The page loop. What reaches the sink, a page or less at a time, is the whole blob with every
        patching relocation applied once, in list order. */
    method EmitAll(sink: Sink) returns (res: Outcome<()>)
      requires AtBoundary() && t.Valid() && pos == 0 && sink.Written() == []
      modifies this, page, t, sink
      ensures t.Valid() && (res.Bad? ==> res.error != ErrTable)
      ensures res.Good? ==> Sound() && Complete(o, vals.Keys) && sink.Written() == Whole(o, vals)
    {
      hide Sound, Covered, VeneerOff, Whole, PastPage, Tables.Valid;
      res := Good(());
      assert sink.Written() == out by {
        NothingOut();
      }
      while pos < VeneerOff(o)
        invariant AtBoundary() && t.Valid() && sink.Written() == out
        decreases VeneerOff(o) - pos
      {
        res := EmitPage(sink);
        if res.Bad? {
          return;
        }
      }
      AllOut();
      res := Good(());
    }

    lemma NothingOut()
      requires AtBoundary() && pos == 0
      ensures out == []
    {
      hide Whole, VeneerOff, Rels;
    }

    lemma AllOut()
      requires AtBoundary() && VeneerOff(o) <= pos
      ensures Sound() && Complete(o, vals.Keys) && out == Whole(o, vals)
    {
      hide Whole, VeneerOff, Rels, PatchesOk, Tables.Valid;
      CoveredAll(o, vals.Keys, pos);
      assert Whole(o, vals)[..pos] == Whole(o, vals);
    }
  }

  /** Every patching relocation is inside its target and has been patched, and nothing else has. */
  ghost predicate Complete(o: Object, done: set<nat>) {
    && (forall k :: 0 <= k < |Rels(o)| && Patchable(Rels(o)[k].kind) ==> k in done)
    && (forall i :: 0 <= i < |o.sections| ==> Checked(o, i) && NoneLeft(o, done, i))
  }

  /** Every relocation of section `i` whose site is inside its target has been patched, whatever its type. */
  ghost predicate NoneLeft(o: Object, done: set<nat>, i: nat)
    requires i < |o.sections|
  {
    ForBlob(o, i) ==> forall r :: 0 <= r < |o.sections[i].rels| && Sited(o, i, r) ==> IndexOfRel(o, i, r) in done
  }

  predicate Sited(o: Object, i: nat, r: nat)
    requires i < |o.sections| && r < |o.sections[i].rels| && ForBlob(o, i)
  {
    var rel := o.sections[i].rels[r];
    rel.kind != NONE && rel.offset + 4 <= o.sections[o.sections[i].info].size
  }

  lemma CoveredAll(o: Object, done: set<nat>, pos: nat)
    requires Covered(o, done, pos) && VeneerOff(o) == pos <= RO_MAX + 4
    ensures Complete(o, done)
  {
    hide RelAt, BlobRels, VeneerOff, BlobOff, Checked, NoneLeft;
    forall i | 0 <= i < |o.sections|
      ensures Checked(o, i) && NoneLeft(o, done, i)
    {
      assert CoveredSection(o, done, pos, i);
      CheckedAtEnd(o, done, pos, i);
      NoneAtEnd(o, done, pos, i);
    }
    forall k | 0 <= k < |Rels(o)| && Patchable(Rels(o)[k].kind)
      ensures k in done
    {
      var i, r := BlobRelsFrom(o, |o.sections|, k);
      assert CoveredSection(o, done, pos, i);
      DoneAtEnd(o, done, pos, i, r);
    }
  }

  lemma CheckedAtEnd(o: Object, done: set<nat>, pos: nat, i: nat)
    requires i < |o.sections| && CoveredSection(o, done, pos, i) && VeneerOff(o) == pos
    ensures Checked(o, i)
  {
    hide BlobOff, VeneerOff, RelSiteOk, RelAt;
    if ForBlob(o, i) {
      SectionFits(o, o.sections[i].info);
    }
  }

  lemma NoneAtEnd(o: Object, done: set<nat>, pos: nat, i: nat)
    requires i < |o.sections| && CoveredSection(o, done, pos, i) && VeneerOff(o) == pos <= RO_MAX + 4
    ensures NoneLeft(o, done, i)
  {
    hide BlobOff, VeneerOff, RelSiteOk, RelAt, Sited;
    if ForBlob(o, i) {
      SectionFits(o, o.sections[i].info);
      forall r | 0 <= r < |o.sections[i].rels| && Sited(o, i, r)
        ensures IndexOfRel(o, i, r) in done
      {
        SiteInTarget(o, i, r);
      }
    }
  }

  lemma DoneAtEnd(o: Object, done: set<nat>, pos: nat, i: nat, r: nat)
    requires i < |o.sections| && CoveredSection(o, done, pos, i) && VeneerOff(o) == pos <= RO_MAX + 4
    requires ForBlob(o, i) && r < |o.sections[i].rels| && Patchable(RelAt(o, i, r).kind)
    ensures IndexOfRel(o, i, r) in done
  {
    CheckedAtEnd(o, done, pos, i);
    PatchesInside4(o, i, r);
    hide BlobOff, VeneerOff, RelSiteOk, RelAt, Sited;
    SiteInTarget(o, i, r);
  }

  lemma PatchesInside4(o: Object, i: nat, r: nat)
    requires i < |o.sections| && ForBlob(o, i) && r < |o.sections[i].rels| && RelSiteOk(o, i, r)
    requires Patchable(RelAt(o, i, r).kind)
    ensures Sited(o, i, r)
  {
    hide BlobOff;
  }

  /** Every relocation section whose target starts before `pos` has been checked, and of its relocations inside
      it all those before `pos` are done. */
  ghost predicate Covered(o: Object, done: set<nat>, pos: nat) {
    forall i :: 0 <= i < |o.sections| ==> CoveredSection(o, done, pos, i)
  }

  ghost predicate CoveredSection(o: Object, done: set<nat>, pos: nat, i: nat)
    requires i < |o.sections|
  {
    ForBlob(o, i) && BlobOff(o, o.sections[i].info) < pos ==>
      && Checked(o, i)
      && forall r :: 0 <= r < |o.sections[i].rels| && Sited(o, i, r) && RelAt(o, i, r).site < pos ==>
           IndexOfRel(o, i, r) in done
  }

  lemma PageOut(o: Object, vals: Patches, pos: nat, end: nat, emitEnd: nat, buf: seq<byte>, out: seq<byte>)
    requires View(o, vals, pos, end, buf, out) && pos <= emitEnd <= end
    ensures out + buf[..emitEnd - pos] == Whole(o, vals)[..emitEnd] && |out| == pos
  {
    hide Whole, Rels, VeneerOff;
    var w := Whole(o, vals);
    SubSlice(w, pos, end - pos, 0, emitEnd - pos);
    SubSlice(buf, 0, end - pos, 0, emitEnd - pos);
  }

  lemma Advance(o: Object, done: set<nat>, pos: nat, to: nat, emitEnd: nat)
    requires PatchedTo(o, done, pos, to) && pos <= emitEnd && to <= emitEnd
    ensures PastPage(o, done, 0, emitEnd)
  {
    hide Rels;
  }

  lemma CoveredNext(o: Object, done: set<nat>, more: set<nat>, pos: nat, end: nat, emitEnd: nat)
    requires Covered(o, done, pos) && done <= more && pos <= emitEnd <= end && VeneerOff(o) <= RO_MAX + 4
    requires forall i :: 0 <= i < |o.sections| ==> PageDone(o, more, pos, end, emitEnd, i)
    ensures Covered(o, more, emitEnd)
  {
    forall i | 0 <= i < |o.sections|
      ensures CoveredSection(o, more, emitEnd, i)
    {
      assert PageDone(o, more, pos, end, emitEnd, i) && CoveredSection(o, done, pos, i);
      CoveredStep(o, done, more, pos, end, emitEnd, i);
    }
  }

  /** Inside its target is inside the blob. */
  lemma SiteInTarget(o: Object, i: nat, r: nat)
    requires i < |o.sections| && ForBlob(o, i) && r < |o.sections[i].rels| && VeneerOff(o) <= RO_MAX + 4
    requires Sited(o, i, r)
    ensures var tgt := o.sections[i].info; var site := RelAt(o, i, r).site;
      && BlobOff(o, tgt) <= site && site + 4 <= BlobOff(o, tgt) + o.sections[tgt].size <= VeneerOff(o)
      && site == BlobOff(o, tgt) + o.sections[i].rels[r].offset
  {
    hide BlobOff, VeneerOff;
    SectionFits(o, o.sections[i].info);
  }

  lemma CoveredStep(o: Object, done: set<nat>, more: set<nat>, pos: nat, end: nat, emitEnd: nat, i: nat)
    requires i < |o.sections| && CoveredSection(o, done, pos, i) && done <= more && pos <= emitEnd <= end
    requires PageDone(o, more, pos, end, emitEnd, i) && VeneerOff(o) <= RO_MAX + 4
    ensures CoveredSection(o, more, emitEnd, i)
  {
    hide BlobOff, VeneerOff, RelSiteOk, Handled, RelAt, Sited;
    if ForBlob(o, i) && BlobOff(o, o.sections[i].info) < emitEnd {
      forall r | 0 <= r < |o.sections[i].rels| && Sited(o, i, r) && RelAt(o, i, r).site < emitEnd
        ensures IndexOfRel(o, i, r) in more
      {
        SiteInTarget(o, i, r);
        if pos <= RelAt(o, i, r).site {
          SitedKind(o, i, r);
          HandledRel(o, more, pos, end, emitEnd, i, r);
        }
      }
    }
  }

  lemma SitedKind(o: Object, i: nat, r: nat)
    requires i < |o.sections| && ForBlob(o, i) && r < |o.sections[i].rels| && Sited(o, i, r)
    ensures o.sections[i].rels[r].kind != NONE
  {
  }

  lemma HandledRel(o: Object, done: set<nat>, pos: nat, end: nat, emitEnd: nat, i: nat, r: nat)
    requires i < |o.sections| && ForBlob(o, i) && r < |o.sections[i].rels| && o.sections[i].rels[r].kind != NONE
    requires Handled(o, done, pos, end, emitEnd, IndexOfRel(o, i, r)) && pos <= RelAt(o, i, r).site < emitEnd <= end
    ensures IndexOfRel(o, i, r) in done
  {
    hide BlobOff, BlobRels, SectionRels;
    BlobRelsAt(o, |o.sections|, i, r);
  }

  /** The target of relocation section `i` overlaps the page. */
  predicate InView(o: Object, pos: nat, end: nat, i: nat)
    requires i < |o.sections| && ForBlob(o, i)
  {
    var tgt := o.sections[i].info;
    BlobOff(o, tgt) < end && pos < BlobOff(o, tgt) + o.sections[tgt].size
  }

  /** Section `i` has been checked and dealt with if its target overlaps the page. */
  ghost predicate PageDone(o: Object, done: set<nat>, pos: nat, end: nat, emitEnd: nat, i: nat)
    requires i < |o.sections|
  {
    ForBlob(o, i) && InView(o, pos, end, i) ==> Checked(o, i) && HandledSection(o, done, pos, end, emitEnd, i)
  }

  lemma DoneStays(o: Object, done: set<nat>, more: set<nat>, pos: nat, end: nat, cut: nat, emitEnd: nat, n: nat)
    requires n <= |o.sections| && done <= more && emitEnd <= cut
    requires forall j :: 0 <= j < n ==> PageDone(o, done, pos, end, cut, j)
    ensures forall j :: 0 <= j < n ==> PageDone(o, more, pos, end, emitEnd, j)
  {
    hide Handled, Checked, InView;
    forall j | 0 <= j < n
      ensures PageDone(o, more, pos, end, emitEnd, j)
    {
      assert PageDone(o, done, pos, end, cut, j);
      if ForBlob(o, j) && InView(o, pos, end, j) {
        forall r | 0 <= r < |o.sections[j].rels|
          ensures Handled(o, more, pos, end, emitEnd, IndexOfRel(o, j, r))
        {
          HandledStays(o, done, more, pos, end, cut, emitEnd, IndexOfRel(o, j, r));
        }
      }
    }
  }

  lemma PastPageStart(o: Object)
    ensures |BlobRels(o, 0)| == 0
  {
  }

  lemma PastPageLater(o: Object, done: set<nat>, i: nat, pos: nat)
    requires i < |o.sections| && PastPage(o, done, |BlobRels(o, i)|, pos)
    ensures PastPage(o, done, |BlobRels(o, i + 1)|, pos)
  {
  }

  /** Every relocation of section `i` has been found to patch inside its own target. */
  ghost predicate Checked(o: Object, i: nat)
    requires i < |o.sections|
  {
    ForBlob(o, i) ==> forall r :: 0 <= r < |o.sections[i].rels| ==> RelSiteOk(o, i, r)
  }

  ghost predicate HandledSection(o: Object, done: set<nat>, pos: nat, end: nat, emitEnd: nat, i: nat)
    requires i < |o.sections|
  {
    ForBlob(o, i) ==> forall r :: 0 <= r < |o.sections[i].rels| ==>
      Handled(o, done, pos, end, emitEnd, IndexOfRel(o, i, r))
  }

  lemma HandledStays(o: Object, done: set<nat>, more: set<nat>, pos: nat, end: nat, cut: nat, emitEnd: nat, k: nat)
    requires Handled(o, done, pos, end, cut, k) && done <= more && emitEnd <= cut
    ensures Handled(o, more, pos, end, emitEnd, k)
  {
    hide Rels;
  }

  lemma SectionEnds(o: Object, i: nat)
    requires i < |o.sections| && ForBlob(o, i)
    ensures |BlobRels(o, i + 1)| == |BlobRels(o, i)| + |o.sections[i].rels|
  {
  }

  /** Patches from position `n` of the list on all belong to earlier pages. */
  ghost predicate PastPage(o: Object, done: set<nat>, n: nat, pos: nat) {
    forall j :: j in done && n <= j ==> j < |Rels(o)| && Rels(o)[j].site + 4 <= pos
  }

  lemma PastPageNext(o: Object, done: set<nat>, more: set<nat>, n: nat, pos: nat)
    requires PastPage(o, done, n, pos) && more <= done + {n}
    ensures PastPage(o, more, n + 1, pos)
  {
    hide Rels;
  }

  /** Position of relocation `r` of section `i` in the blob's list. */
  ghost function IndexOfRel(o: Object, i: nat, r: nat): nat
    requires i < |o.sections|
  {
    |BlobRels(o, i)| + r
  }

  predicate RelSiteOk(o: Object, i: nat, r: nat)
    requires i < |o.sections| && r < |o.sections[i].rels| && ForBlob(o, i)
  {
    var rel := o.sections[i].rels[r];
    rel.kind == NONE || SiteOk(rel.kind, rel.offset, o.sections[o.sections[i].info].size)
  }

  /** Relocation `k`, if it patches at all, is patched when it lies in the page and has cut the page
      short when it straddles its end. */
  ghost predicate Handled(o: Object, done: set<nat>, pos: nat, end: nat, emitEnd: nat, k: nat) {
    k < |Rels(o)| && (Rels(o)[k].kind != NONE && pos <= Rels(o)[k].site < end ==>
      if Rels(o)[k].site + 4 <= end then k in done else emitEnd <= Rels(o)[k].site)
  }

  lemma GotSymFrom(o: Object, i: nat, r: nat)
    requires i < |o.sections| && r < |o.sections[i].rels| && ForBlob(o, i) && o.sections[i].rels[r].sym < |o.syms|
    ensures o.sections[i].rels[r].kind == GOT_BREL ==> o.sections[i].rels[r].sym in GotSyms(o, true)
  {
    assert o.sections[i].rels[r].kind == GOT_BREL ==> IsGotRel(o, true, i, r);
  }

  /** The buffer shows the blob between `pos` and `end`, and `out` is the blob before it. */
  ghost predicate View(o: Object, vals: Patches, pos: nat, end: nat, buf: seq<byte>, out: seq<byte>) {
    && o.Read() && Inside(Rels(o), vals, VeneerOff(o)) && pos <= end <= VeneerOff(o) && end - pos <= |buf|
    && buf[..end - pos] == Whole(o, vals)[pos..end] && out == Whole(o, vals)[..pos]
  }

  /** Patches lie before the page, or inside it below `to`. */
  ghost predicate PatchedTo(o: Object, done: set<nat>, pos: nat, to: nat) {
    forall k :: k in done ==> k < |Rels(o)| && Rels(o)[k].site + 4 <= if Rels(o)[k].site < pos then pos else to
  }

  /** Nothing from `pos` on has been patched yet. */
  lemma StillBlank(o: Object, vals: Patches, pos: nat, end: nat)
    requires o.Read() && Inside(Rels(o), vals, VeneerOff(o)) && PastPage(o, vals.Keys, 0, pos)
      && pos <= end <= VeneerOff(o)
    ensures Whole(o, vals)[pos..end] == Blank(o)[pos..end]
  {
    hide VeneerOff, Rels;
    forall i | pos <= i < end
      ensures Whole(o, vals)[i] == Blank(o)[i]
    {
      FoldUntouched(Blank(o), Rels(o), vals, |Rels(o)|, i);
    }
    SameSlice(Whole(o, vals), Blank(o), pos, end);
  }

  lemma ViewSite(o: Object, vals: Patches, pos: nat, end: nat, buf: seq<byte>, out: seq<byte>, site: nat)
    requires View(o, vals, pos, end, buf, out) && pos <= site && site + 4 <= end
    ensures buf[site - pos..site - pos + 4] == Whole(o, vals)[site..site + 4]
  {
    hide Whole, Rels, VeneerOff;
    SubSlice(Whole(o, vals), pos, end - pos, site - pos, 4);
    SubSlice(buf, 0, end - pos, site - pos, 4);
  }

  /** Writing one patch into the buffer shows the blob with that patch. */
  lemma ViewStep(o: Object, names: seq<seq<byte>>, pool: seq<nat>, got: seq<GotEntry>, vals: Patches, k: nat, p: Patch,
                 pos: nat, end: nat, buf: seq<byte>, out: seq<byte>, to: nat)
    requires View(o, vals, pos, end, buf, out) && PatchesOk(o, names, pool, got, vals)
      && PatchedTo(o, vals.Keys, pos, to)
    requires k < |Rels(o)| && Fits(p) && pos <= Rels(o)[k].site && Rels(o)[k].site + 4 <= end
      && PastPage(o, vals.Keys, k, pos)
    requires PatchOk(o, names, pool, got, Rels(o)[k], Whole(o, vals)[Rels(o)[k].site..Rels(o)[k].site + 4], p)
    ensures var site := Rels(o)[k].site; var at := site - pos;
      && PatchesOk(o, names, pool, got, vals[k := p]) && Inside(Rels(o), vals[k := p], VeneerOff(o))
      && View(o, vals[k := p], pos, end, Splice(buf, at, PatchBytes(buf[at..at + 4], p)), out)
      && PatchedTo(o, vals[k := p].Keys, pos, if site + 4 > to then site + 4 else to)
  {
    hide PatchesOk, VeneerOff, PatchOk, PatchBytes, Splice, Whole, Rels, PatchAt;
    var site, whole := Rels(o)[k].site, Whole(o, vals);
    AddPatch(o, names, pool, got, vals, k, p);
    ViewSite(o, vals, pos, end, buf, out, site);
    PatchWindow(whole, pos, end, site, p, buf);
    SameSlice(whole, PatchAt(whole, site, p), 0, pos);
  }

  lemma PatchWindow(whole: seq<byte>, pos: nat, end: nat, site: nat, p: Patch, was: seq<byte>)
    requires pos <= site && site + 4 <= end <= |whole| && Fits(p) && end - pos <= |was|
    requires was[..end - pos] == whole[pos..end]
    ensures Splice(was, site - pos, PatchBytes(whole[site..site + 4], p))[..end - pos]
      == PatchAt(whole, site, p)[pos..end]
  {
    var d := PatchBytes(whole[site..site + 4], p);
    hide PatchBytes, Splice;
    SplicePrefix(was, end - pos, site - pos, d);
    SpliceHit(whole, site, d, pos, end, site, site + 4);
    assert d[0..4] == d;
  }

  /** Copy into the page the part of a section that overlaps it. */
  method Overlay(page: array<byte>, pos: nat, end: nat, s0: nat, bytes: seq<byte>, ghost blob: seq<byte>)
    requires pos <= end <= |blob| && end - pos <= page.Length && s0 + |bytes| <= |blob|
    requires page[..end - pos] == blob[pos..end]
    modifies page
    ensures page[..end - pos] == Splice(blob, s0, bytes)[pos..end]
  {
    hide Splice;
    var s1 := s0 + |bytes|;
    var lo := if s0 > pos then s0 else pos;
    var hi := if s1 < end then s1 else end;
    if lo < hi {
      ghost var was := page[..];
      var part := bytes[lo - s0..hi - s0];
      Store(page, lo - pos, part);
      SpliceHit(blob, s0, bytes, pos, end, lo, hi);
      SplicePrefix(was, end - pos, lo - pos, part);
      assert page[..end - pos] == page[..][..end - pos];
    } else {
      SpliceMiss(blob, s0, bytes, pos, end);
    }
  }

  method Clear(a: array<byte>, n: nat)
    requires n <= a.Length
    modifies a
    ensures a[..n] == seq(n, _ => 0)
  {
    for i := 0 to n
      invariant a[..i] == seq(i, _ => 0)
    {
      a[i] := 0;
    }
  }

  lemma PristineStart(o: Object, pos: nat, end: nat)
    requires o.Read() && pos <= end <= VeneerOff(o)
    ensures Pristine(o, 0)[pos..end] == seq(end - pos, _ => 0)
  {
    hide VeneerOff;
  }

  lemma PristineNext(o: Object, i: nat)
    requires o.Read() && i < |o.sections|
    ensures Copied(o.sections[i]) ==>
      && |o.sections[i].bytes| == o.sections[i].size && BlobOff(o, i) + o.sections[i].size <= VeneerOff(o)
      && Pristine(o, i + 1) == Splice(Pristine(o, i), BlobOff(o, i), o.sections[i].bytes)
    ensures !Copied(o.sections[i]) ==> Pristine(o, i + 1) == Pristine(o, i)
  {
    hide VeneerOff, BlobOff, Splice;
    if Copied(o.sections[i]) {
      SectionFits(o, i);
    }
  }

  lemma SplicePrefix(s: seq<byte>, n: nat, at: nat, d: seq<byte>)
    requires at + |d| <= n <= |s|
    ensures Splice(s, at, d)[..n] == Splice(s[..n], at, d)
  {
  }
}

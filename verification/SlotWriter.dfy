/** The streaming slot writer (PkgSlotWriter): one page buffer, lazy erase, a running CRC, and a
    commit record written last of everything. */
module SlotWriter {
  import opened Bytes
  import opened Flash
  import opened Manifest
  import opened SlotFormat
  import opened SlotImage
  import Crc32

  /** The largest chip the 32-bit offset arithmetic is safe for; RP2 flash is 16 MiB at most. */
  const CHIP_MAX := 0x8000_0000

  /** The log of an install under way: the header erase first, and after it nothing that touches
      the first program page. */
  ghost predicate InstallLog(ops: seq<Op>, slotOff: nat, slotBytes: nat) {
    && |ops| > 0 && ops[0] == Op.Erase(slotOff, HEADER)
    && forall j :: 1 <= j < |ops| ==> ops[j].Within(slotOff + PAGE, slotOff + slotBytes)
  }

  lemma LogSnoc(ops: seq<Op>, op: Op, slotOff: nat, slotBytes: nat)
    requires InstallLog(ops, slotOff, slotBytes) && op.Within(slotOff + PAGE, slotOff + slotBytes)
    ensures InstallLog(ops + [op], slotOff, slotBytes)
  {
  }

  class Writer {
    const fl: Chip
    const slotOff: nat
    const slotBytes: nat
    var cursor: nat
    var erasedTo: nat
    var crc: bv32
    var pageBase: nat
    var pageFill: nat
    var failed: bool
    const page: array<byte>
    /** Every byte appended to the body so far. */
    ghost var body: seq<byte>
    /** The chip when the install began. */
    ghost const before: seq<byte>
    ghost const log0: seq<Op>
    ghost const faults0: nat

    ghost function Ops(): seq<Op>
      reads fl
    {
      if |log0| <= |fl.log| then fl.log[|log0|..] else []
    }

    /** Holds from the header erase on: at most one operation has failed, and it was the last one tried. */
    ghost predicate Shape()
      reads fl
    {
      && fl.Valid() && page.Length == PAGE
      && slotOff % ERASE == 0 && slotBytes % ERASE == 0 && HEADER < slotBytes
      && slotOff + slotBytes <= |fl.mem| == |before| < CHIP_MAX
      && log0 < fl.log && faults0 <= fl.faults <= faults0 + 1
      && InstallLog(Ops(), slotOff, slotBytes) && Left(before, Ops(), fl.faults != faults0, fl.mem)
      && (forall i :: 0 <= i < |before| && !(slotOff <= i < slotOff + slotBytes) ==> fl.mem[i] == before[i])
    }

    /** No operation has failed, so the chip is what its log says. */
    ghost predicate Sound()
      reads fl
    {
      Shape() && fl.faults == faults0
    }

    /** In addition the flash holds `b` at the start of the body, and what follows is still clean. */
    ghost predicate Stored(b: seq<byte>)
      reads this`pageBase, this`erasedTo, fl
    {
      && Sound()
      && |b| == pageBase && pageBase % PAGE == 0 && erasedTo % ERASE == 0
      && pageBase <= erasedTo && HEADER + erasedTo <= slotBytes
      && At(fl.mem, slotOff + HEADER, b)
      && fl.Clean(slotOff, slotOff + HEADER)
      && fl.Clean(slotOff + HEADER + pageBase, slotOff + HEADER + erasedTo)
    }

    /** And the running CRC is that of `b`. */
    ghost predicate Programmed(b: seq<byte>)
      reads this`pageBase, this`erasedTo, this`crc, fl
    {
      Stored(b) && crc == Crc32.Update(0, b)
    }

    /** The page buffer holds the part of the body not programmed yet. */
    ghost predicate Streaming()
      reads this, fl, page
    {
      && Shape() && pageBase % PAGE == 0
      && pageBase + pageFill == cursor == |body| && pageFill <= PAGE == page.Length
      && Programmed(body[..pageBase])
      && page[..pageFill] == body[pageBase..]
    }

    constructor (fl: Chip, slotOff: nat, slotBytes: nat)
      ensures this.fl == fl && this.slotOff == slotOff && this.slotBytes == slotBytes
      ensures fresh(page) && page.Length == PAGE && !failed
      ensures cursor == erasedTo == pageBase == pageFill == 0 && crc == 0 && body == []
      ensures before == fl.mem && log0 == fl.log && faults0 == fl.faults
    {
      this.fl := fl;
      this.slotOff := slotOff;
      this.slotBytes := slotBytes;
      cursor, erasedTo, pageBase, pageFill, crc, failed := 0, 0, 0, 0, 0, false;
      page := new byte[PAGE](_ => 0);
      body := [];
      before, log0, faults0 := fl.mem, fl.log, fl.faults;
    }

    /** The header sector goes first: the old magic is gone before anything else is touched. */
    method Arm() returns (ok: bool)
      requires cursor == erasedTo == pageBase == pageFill == 0 && crc == 0 && body == []
      requires page.Length == PAGE && before == fl.mem && log0 == fl.log && faults0 == fl.faults
      requires fl.Valid() && |fl.mem| < CHIP_MAX && slotOff + slotBytes <= |fl.mem|
      requires HEADER < slotBytes && slotOff % ERASE == 0 && slotBytes % ERASE == 0
      modifies this`failed, fl
      ensures Shape() && failed == !ok && ok == (fl.faults == faults0)
      ensures fl.log == old(fl.log) + [Op.Erase(slotOff, HEADER)]
      ensures ok ==> Streaming()
    {
      hide Run, Crc32.Update, Apply, Left;
      ghost var op := Op.Erase(slotOff, HEADER);
      ok := fl.Erase(slotOff, HEADER);
      assert Ops() == [op] == [] + [op];
      RunNil(before);
      LeftSnoc(before, [], op, ok, fl.mem);
      ApplyOutside(before, op);
      if ok {
        EmptyCrc();
        assert body[..pageBase] == [] == body[pageBase..] == page[..pageFill];
      }
      failed := !ok;
    }

    /** One erase inside the slot, past its first page. */
    method DoErase(off: nat, len: nat) returns (ok: bool)
      requires Sound() && off % ERASE == 0 && len % ERASE == 0
      requires slotOff + PAGE <= off && off + len <= slotOff + slotBytes
      modifies fl
      ensures Shape() && ok == (fl.faults == faults0)
      ensures ok ==> Sound() && fl.mem == Apply(old(fl.mem), Op.Erase(off, len)) && fl.Clean(off, off + len)
      ensures forall i :: 0 <= i < |fl.mem| && !(off <= i < off + len) ==> fl.clean[i] == old(fl.clean[i])
    {
      hide InstallLog, Run, Left, Apply;
      ghost var op, ops := Op.Erase(off, len), Ops();
      LeftSound(before, ops, fl.mem);
      ok := fl.Erase(off, len);
      assert Ops() == ops + [op];
      LogSnoc(ops, op, slotOff, slotBytes);
      LeftSnoc(before, ops, op, ok, fl.mem);
      ApplyOutside(old(fl.mem), op);
    }

    /** One program inside the slot, past its first page, of bytes erased and not yet programmed. */
    method DoProgram(off: nat, data: seq<byte>) returns (ok: bool)
      requires Sound() && off % PROG == 0 && |data| % PROG == 0
      requires slotOff + PAGE <= off && off + |data| <= slotOff + slotBytes
      requires fl.Clean(off, off + |data|)
      modifies fl
      ensures Shape() && ok == (fl.faults == faults0)
      ensures ok ==> Sound() && fl.mem == Apply(old(fl.mem), Op.Program(off, data))
      ensures forall i :: 0 <= i < |fl.mem| && !(off <= i < off + |data|) ==> fl.clean[i] == old(fl.clean[i])
    {
      hide InstallLog, Run, Left, Apply;
      ghost var op, ops := Op.Program(off, data), Ops();
      LeftSound(before, ops, fl.mem);
      ok := fl.Program(off, data);
      assert Ops() == ops + [op];
      LogSnoc(ops, op, slotOff, slotBytes);
      LeftSnoc(before, ops, op, ok, fl.mem);
      ApplyOutside(old(fl.mem), op);
    }

    /** Erase forward so that the first `need` bytes of the body are erased. */
    method EraseTo(need: nat, ghost b: seq<byte>) returns (ok: bool)
      requires Stored(b) && need < CHIP_MAX
      modifies this`erasedTo, fl
      ensures Shape()
      ensures ok ==> Stored(b) && need <= erasedTo
      ensures !ok ==> fl.faults != faults0 || HEADER + need > slotBytes
    {
      hide InstallLog, Run, Left, Apply, At, RoundUp;
      if need <= erasedTo {
        return true;
      }
      var want := RoundUp(need, ERASE);
      SectorFit(need, slotBytes);
      if HEADER + want > slotBytes {
        return false;
      }
      ghost var mem := fl.mem;
      ok := DoErase(slotOff + HEADER + erasedTo, want - erasedTo);
      if ok {
        ApplyKeeps(mem, Op.Erase(slotOff + HEADER + erasedTo, want - erasedTo), slotOff + HEADER, b);
        erasedTo := want;
      }
    }

    /** Erase for and program the whole page buffer behind `b`. */
    method ProgramPage(ghost b: seq<byte>) returns (ok: bool)
      requires Stored(b)
      modifies this`erasedTo, this`pageBase, fl
      ensures Shape()
      ensures ok ==> Stored(b + page[..]) && pageBase == old(pageBase) + PAGE
      ensures !ok ==> fl.faults != faults0 || HEADER + |b| + PAGE > slotBytes
    {
      hide InstallLog, Run, Left, Splice, At, RoundUp;
      PageAligned(slotOff, pageBase);
      ok := EraseTo(pageBase + PAGE, b);
      if ok {
        ghost var mem := fl.mem;
        ok := DoProgram(slotOff + HEADER + pageBase, page[..]);
        if ok {
          AtSnoc(mem, slotOff + HEADER, b, page[..]);
          pageBase := pageBase + PAGE;
          assert fl.Clean(slotOff, slotOff + HEADER);
        }
      }
    }

    /** Program the page buffer, padded to a whole page. */
    method FlushPage() returns (ok: bool)
      requires Streaming()
      modifies this`erasedTo, this`crc, this`pageBase, this`pageFill, fl, page
      ensures Shape()
      ensures ok ==> Programmed(Padded(body, PAGE)) && pageFill == 0 && pageBase == RoundUp(|body|, PAGE)
      ensures !ok ==> fl.faults != faults0 || HEADER + RoundUp(|body|, PAGE) > slotBytes
    {
      hide Stored, Crc32.Update, RoundUp, Shape, Padded;
      ghost var b := body[..pageBase];
      if pageFill == 0 {
        WholePages(body);
        assert body == b;
        return true;
      }
      FillPage();
      LastPage(body, pageBase, page[..]);
      ok := ProgramPage(b);
      if ok {
        crc := Crc32.Compute(crc, page[..]);
        Crc32.UpdateSplits(0, b, page[..]);
        pageFill := 0;
      }
    }

    /** The tail of the page buffer becomes 0xFF, the value erased flash already holds. */
    method FillPage()
      requires page.Length == PAGE && pageFill <= PAGE
      modifies page
      ensures page[..pageFill] == old(page[..pageFill])
      ensures forall i :: pageFill <= i < PAGE ==> page[i] == ERASED
    {
      for i := pageFill to PAGE
        invariant page[..pageFill] == old(page[..pageFill])
        invariant forall j :: pageFill <= j < i ==> page[j] == ERASED
      {
        page[i] := ERASED;
      }
    }

    /** Append to the body at the cursor, programming each page as it fills. */
    method BodyAppend(data: seq<byte>) returns (ok: bool)
      requires Streaming() && pageFill < PAGE
      modifies this`cursor, this`erasedTo, this`crc, this`pageBase, this`pageFill, this`body, fl, page
      ensures Shape() && cursor <= old(cursor) + |data|
      ensures ok ==> Streaming() && pageFill < PAGE && body == old(body) + data
      ensures !ok ==> fl.faults != faults0 || HEADER + old(cursor) + |data| > slotBytes
    {
      hide Programmed, RoundUp, Shape;
      var at := 0;
      while at < |data|
        invariant 0 <= at <= |data|
        invariant Streaming() && pageFill < PAGE && body == old(body) + data[..at]
        decreases |data| - at
      {
        var room := PAGE - pageFill;
        var n := if |data| - at < room then |data| - at else room;
        Stage(data[at..at + n]);
        assert data[..at] + data[at..at + n] == data[..at + n];
        at := at + n;
        if pageFill == PAGE {
          WholePages(body);
          ok := FlushPage();
          if !ok {
            return;
          }
          assert body[..pageBase] == body;
        }
      }
      assert data[..at] == data;
      ok := true;
    }

    /** Copy bytes that fit into the page buffer. */
    method Stage(d: seq<byte>)
      requires Streaming() && pageFill + |d| <= PAGE
      modifies this`cursor, this`pageFill, this`body, page
      ensures Streaming() && body == old(body) + d && pageFill == old(pageFill) + |d|
    {
      hide Programmed, Shape;
      ghost var b := body;
      ghost var fill := pageFill;
      Store(page, pageFill, d);
      assert page[..fill + |d|] == page[..][..fill + |d|] == old(page[..])[..fill] + d;
      body := body + d;
      pageFill := pageFill + |d|;
      cursor := cursor + |d|;
      assert body[..pageBase] == b[..pageBase];
      assert body[pageBase..] == b[pageBase..] + d;
    }

    /** Pad the body forward with 0xFF, sixteen bytes at a time. */
    method BodyPadTo(to: nat) returns (ok: bool)
      requires Streaming() && pageFill < PAGE && cursor <= to
      modifies this`cursor, this`erasedTo, this`crc, this`pageBase, this`pageFill, this`body, fl, page
      ensures Shape()
      ensures ok ==> Streaming() && pageFill < PAGE && body == old(body) + Pad(to - old(cursor))
      ensures !ok ==> fl.faults != faults0 || HEADER + to > slotBytes
    {
      hide InstallLog, Run, Left, Crc32.Update, At;
      while cursor < to
        invariant Streaming() && pageFill < PAGE && old(cursor) <= cursor <= to
        invariant body == old(body) + Pad(cursor - old(cursor))
        decreases if cursor <= to then to - cursor else 0
      {
        var n := if to - cursor > 16 then 16 else to - cursor;
        assert Pad(cursor - old(cursor)) + Pad(n) == Pad(cursor + n - old(cursor));
        ok := BodyAppend(Pad(n));
        if !ok {
          return;
        }
      }
      ok := true;
    }

    /** The sink app_pic_install writes to: forward only, no gaps, no overlap. */
    method Sink(off: u32, data: seq<byte>) returns (ok: bool)
      requires Shape() && (!failed ==> Streaming() && pageFill < PAGE) && |data| < W32
      modifies this`cursor, this`erasedTo, this`crc, this`pageBase, this`pageFill, this`body, this`failed, fl, page
      ensures Shape() && failed == !ok
      ensures ok ==> Streaming() && pageFill < PAGE && off == |old(body)| && body == old(body) + data
      ensures old(failed) ==> fl.log == old(fl.log) && fl.mem == old(fl.mem)
      ensures !ok && !old(failed) ==>
        off != old(cursor) || fl.faults != faults0 || HEADER + old(cursor) + |data| > slotBytes
    {
      hide InstallLog, Run, Left, Crc32.Update, At;
      if failed {
        return false;
      }
      if off != cursor {
        failed := true;
        return false;
      }
      if (HEADER + cursor + |data|) % W32 > slotBytes {
        failed := true;
        return false;
      }
      ok := BodyAppend(data);
      failed := !ok;
    }

    /** Pad to a four-byte boundary and append: how each recipe array joins the body. */
    method AppendAligned(data: seq<byte>) returns (ok: bool, at: nat)
      requires Streaming() && pageFill < PAGE
      modifies this`cursor, this`erasedTo, this`crc, this`pageBase, this`pageFill, this`body, fl, page
      ensures Shape() && at == RoundUp(|old(body)|, 4)
      ensures ok ==> Streaming() && pageFill < PAGE && body == Padded(old(body), 4) + data
      ensures !ok ==> fl.faults != faults0 || HEADER + at + |data| > slotBytes
    {
      hide InstallLog, Run, Left, Crc32.Update, At, RoundUp;
      at := RoundUp(cursor, 4);
      ok := BodyPadTo(at);
      if ok {
        ok := BodyAppend(data);
      }
    }

    /** The blob is in; append both recipes and the initialisers and flush the last page. */
    method FinishBody(m: PicManifest) returns (ok: bool, gotOff: nat, absOff: nat, dataOff: nat)
      requires Streaming() && pageFill < PAGE && m.Consistent()
      modifies this`cursor, this`erasedTo, this`crc, this`pageBase, this`pageFill, this`body, fl, page
      ensures Shape()
      ensures ok ==> Programmed(Body(old(body), m))
      ensures ok ==>
        && gotOff == RoundUp(|old(body)|, 4) && absOff == RoundUp(|WithGot(old(body), m)|, 4)
        && dataOff == RoundUp(|WithAbs(old(body), m)|, 4)
      ensures !ok ==> fl.faults != faults0 || HEADER + |Body(old(body), m)| > slotBytes
    {
      hide InstallLog, Run, Left, Crc32.Update, At, RoundUp, Gots, Abses;
      gotOff, absOff, dataOff := 0, 0, 0;
      WholeArrays(m);
      ok, gotOff := AppendAligned(Gots(m.got)[..GOT_ENTRY * |m.got| % W32]);
      if ok {
        ok, absOff := AppendAligned(Abses(m.abs)[..ABS_ENTRY * |m.abs| % W32]);
        if ok {
          ok, dataOff := AppendAligned(m.dataInit);
          if ok {
            ok := FlushPage();
          }
        }
      }
    }

    /** This slot's bytes. */
    ghost function Slot(): seq<byte>
      requires slotOff + slotBytes <= |fl.mem|
      reads fl
    {
      fl.mem[slotOff..slotOff + slotBytes]
    }

    /** What holds once the commit record has been attempted: everything before it completed. */
    ghost predicate Ended()
      reads fl
    {
      && fl.Valid() && |fl.mem| == |before| && slotOff + slotBytes <= |before| && log0 < fl.log
      && faults0 <= fl.faults <= faults0 + 1
      && CompleteLog(Ops(), slotOff, slotBytes) && Left(before, Ops(), fl.faults != faults0, fl.mem)
      && (forall i :: 0 <= i < |before| && !(slotOff <= i < slotOff + slotBytes) ==> fl.mem[i] == before[i])
    }

    /** Program the commit record, in a page of its own. */
    method WriteCommit(hdr: seq<byte>) returns (ok: bool)
      requires Sound() && fl.Clean(slotOff, slotOff + PAGE) && |hdr| == PAGE
      modifies fl
      ensures Ended() && fl.faults == faults0 + if ok then 0 else 1
      ensures ok ==> fl.mem == Apply(old(fl.mem), Op.Program(slotOff, hdr))
    {
      hide InstallLog, Run, Left, Apply;
      ghost var mem, ops, op := fl.mem, Ops(), Op.Program(slotOff, hdr);
      LeftSound(before, ops, mem);
      ok := fl.Program(slotOff, hdr);
      assert Ops() == ops + [op] && Ops()[..|ops|] == ops;
      LeftSnoc(before, ops, op, ok, fl.mem);
      ApplyOutside(mem, op);
    }

    /** Program the metadata, then the commit record last of everything. */
    method WriteHeader(meta: seq<byte>, hdr: seq<byte>, ghost b: seq<byte>) returns (ok: bool)
      requires Programmed(b) && |meta| == META_BYTES && |hdr| == PAGE
      modifies fl
      ensures ok ==> Ended() && fl.faults == faults0 && |fl.mem| == |before|
      ensures ok ==> At(Slot(), HEADER, b) && At(Slot(), META_OFF, meta) && At(Slot(), 0, hdr)
      ensures !ok ==> fl.faults != faults0 && (Shape() || (Ended() && fl.faults == faults0 + 1))
    {
      hide InstallLog, Run, Left, Crc32.Update, At, Apply;
      ghost var mem0 := fl.mem;
      HeaderAligned(slotOff);
      ok := DoProgram(slotOff + META_OFF, meta);
      if ok {
        ghost var mem1 := fl.mem;
        ok := WriteCommit(hdr);
        if ok {
          HeaderLands(mem0, mem1, fl.mem, slotOff, slotBytes, b, meta, hdr);
        }
      }
    }

    /** pkgslot_commit: recipes, metadata, then the record that makes the slot loadable. */
    method Commit(m: PicManifest, api: Api) returns (ok: bool)
      requires Shape() && (!failed ==> Streaming() && pageFill < PAGE)
      requires m.Consistent() && |api.names| < NO_IDENTITY
      modifies this`cursor, this`erasedTo, this`crc, this`pageBase, this`pageFill, this`body, this`failed, fl, page
      ensures failed == !ok
      ensures old(failed) ==> !ok && fl.log == old(fl.log) && fl.mem == old(fl.mem)
      ensures ok ==> fl.faults == faults0 && |fl.mem| == |before| && |old(body)| == m.ext.roSize
      ensures ok ==> Committed(Slot(), old(body), m, api) && HEADER + |Body(old(body), m)| <= slotBytes
      ensures ok ==> Ended()
      ensures !ok ==> Shape() || (Ended() && fl.faults == faults0 + 1)
      ensures !ok && !old(failed) ==>
        |old(body)| != m.ext.roSize || fl.faults != faults0 || HEADER + |Body(old(body), m)| > slotBytes
    {
      hide InstallLog, Run, Left, Crc32.Update, At, Body, EncodeMeta, CommitPage, Ended, CompleteLog, MetaOf, RoundUp;
      if failed {
        return false;
      }
      if cursor != m.ext.roSize {
        failed := true;
        return false;
      }
      ghost var blob := body;
      var gotOff, absOff, dataOff;
      ok, gotOff, absOff, dataOff := FinishBody(m);
      if ok {
        MetaMade(blob, m, api, gotOff, absOff, dataOff);
        var meta := EncodeMeta(Meta(m.ext, GOT_ENTRY, ABS_ENTRY, 0, gotOff, absOff, dataOff, pageBase,
                                    |api.names|, PrefixCrc(api, |api.names|)));
        var hdr := CommitPage(SlotFormat.Commit(MAGIC, FORMAT, pageBase, crc as int, Crc32.Of(meta)));
        ok := WriteHeader(meta, hdr, Body(blob, m));
      }
      failed := !ok;
    }
  }

  /** The 32-bit products of count and entry size are the arrays' own lengths. */
  lemma WholeArrays(m: PicManifest)
    requires m.Consistent()
    ensures Gots(m.got)[..GOT_ENTRY * |m.got| % W32] == Gots(m.got)
    ensures Abses(m.abs)[..ABS_ENTRY * |m.abs| % W32] == Abses(m.abs)
  {
    hide Gots, Abses;
    Unwrapped(GOT_ENTRY * |m.got|);
    Unwrapped(ABS_ENTRY * |m.abs|);
  }

  lemma MetaMade(blob: seq<byte>, m: PicManifest, api: Api, gotOff: nat, absOff: nat, dataOff: nat)
    requires |Body(blob, m)| < CHIP_MAX && |api.names| < NO_IDENTITY
    requires gotOff == RoundUp(|blob|, 4) && absOff == RoundUp(|WithGot(blob, m)|, 4)
    requires dataOff == RoundUp(|WithAbs(blob, m)|, 4)
    ensures gotOff <= absOff <= dataOff < CHIP_MAX
    ensures MetaOf(blob, m, api) == Meta(m.ext, GOT_ENTRY, ABS_ENTRY, 0, gotOff, absOff, dataOff,
                                         |Body(blob, m)|, |api.names|, PrefixCrc(api, |api.names|))
  {
    hide RoundUp, Gots, Abses, PrefixCrc;
  }

  /** The log of an install that reached its last step: everything else, then the commit page. */
  ghost predicate CompleteLog(ops: seq<Op>, slotOff: nat, slotBytes: nat) {
    && |ops| > 1 && InstallLog(ops[..|ops| - 1], slotOff, slotBytes)
    && ops[|ops| - 1].Program? && ops[|ops| - 1].off == slotOff && |ops[|ops| - 1].data| == PAGE
  }

  lemma HeaderLands(mem0: seq<byte>, mem1: seq<byte>, mem2: seq<byte>, slotOff: nat, slotBytes: nat,
                    b: seq<byte>, meta: seq<byte>, hdr: seq<byte>)
    requires slotOff + slotBytes <= |mem0| && HEADER + |b| <= slotBytes && |meta| == META_BYTES && |hdr| == PAGE
    requires At(mem0, slotOff + HEADER, b)
    requires mem1 == Apply(mem0, Op.Program(slotOff + META_OFF, meta))
    requires mem2 == Apply(mem1, Op.Program(slotOff, hdr))
    ensures var slot := mem2[slotOff..slotOff + slotBytes];
      At(slot, HEADER, b) && At(slot, META_OFF, meta) && At(slot, 0, hdr)
  {
    hide At, Apply;
    ProgramLands(mem0, slotOff + META_OFF, meta);
    ProgramLands(mem1, slotOff, hdr);
    ApplyKeeps(mem0, Op.Program(slotOff + META_OFF, meta), slotOff + HEADER, b);
    ApplyKeeps(mem1, Op.Program(slotOff, hdr), slotOff + HEADER, b);
    ApplyKeeps(mem1, Op.Program(slotOff, hdr), slotOff + META_OFF, meta);
    AtInSlice(mem2, slotOff, slotOff + slotBytes, HEADER, b);
    AtInSlice(mem2, slotOff, slotOff + slotBytes, META_OFF, meta);
    AtInSlice(mem2, slotOff, slotOff + slotBytes, 0, hdr);
  }

  lemma ProgramLands(mem: seq<byte>, off: nat, d: seq<byte>)
    requires off + |d| <= |mem|
    ensures At(Apply(mem, Op.Program(off, d)), off, d) && |Apply(mem, Op.Program(off, d))| == |mem|
  {
  }

  /** In a slot of whole sectors, what fits unrounded fits rounded. */
  lemma SectorFit(need: nat, slotBytes: nat)
    requires slotBytes % ERASE == 0
    ensures HEADER + need <= slotBytes ==> HEADER + RoundUp(need, ERASE) <= slotBytes
  {
  }

  lemma PageAligned(slotOff: nat, pageBase: nat)
    requires slotOff % ERASE == 0 && pageBase % PAGE == 0
    ensures (slotOff + HEADER + pageBase) % PROG == 0 && (pageBase + PAGE) % PAGE == 0
  {
    var k, p := slotOff / ERASE, pageBase / PAGE;
    assert slotOff == ERASE * k && pageBase == PAGE * p;
    Digits(ERASE / PROG * k + HEADER / PROG + PAGE / PROG * p, PROG, 0);
    Digits(p + 1, PAGE, 0);
  }

  lemma WholePages(b: seq<byte>)
    requires |b| % PAGE == 0
    ensures Padded(b, PAGE) == b && RoundUp(|b|, PAGE) == |b|
  {
  }

  /** The programmed part and a filled-up page buffer are the body padded to a page. */
  lemma LastPage(body: seq<byte>, pageBase: nat, page: seq<byte>)
    requires |page| == PAGE && pageBase % PAGE == 0 && pageBase < |body| <= pageBase + PAGE
    requires page[..|body| - pageBase] == body[pageBase..]
    requires forall i :: |body| - pageBase <= i < PAGE ==> page[i] == ERASED
    ensures RoundUp(|body|, PAGE) == pageBase + PAGE
    ensures body[..pageBase] + page == Padded(body, PAGE)
  {
    var fill := |body| - pageBase;
    assert page == page[..fill] + page[fill..];
    assert page[fill..] == Pad(PAGE - fill);
    assert body[..pageBase] + (page[..fill] + page[fill..]) == body[..pageBase] + page[..fill] + page[fill..];
  }

  lemma HeaderAligned(slotOff: nat)
    requires slotOff % ERASE == 0
    ensures slotOff % PROG == 0 && (slotOff + META_OFF) % PROG == 0
  {
    var k := slotOff / ERASE;
    assert slotOff == ERASE * k;
    Digits(ERASE / PROG * k, PROG, 0);
    Digits(ERASE / PROG * k + META_OFF / PROG, PROG, 0);
  }

  lemma EmptyCrc()
    ensures Crc32.Update(0, []) == 0
  {
    Crc32.FlipTwice(0);
  }

  /** pkgslot_begin: refuses a slot it cannot erase, otherwise kills the old magic first. */
  method Begin(fl: Chip, slotOff: nat, slotBytes: nat) returns (w: Writer?)
    requires fl.Valid() && |fl.mem| < CHIP_MAX && slotOff + slotBytes <= |fl.mem|
    modifies fl
    ensures w != null ==> fresh(w) && fresh(w.page) && w.fl == fl && w.slotOff == slotOff && w.slotBytes == slotBytes
    ensures w != null ==> w.Streaming() && !w.failed && w.body == [] && w.pageFill < PAGE && w.before == old(fl.mem)
    ensures |fl.mem| == |old(fl.mem)| && (w != null ==> w.faults0 == old(fl.faults))
    ensures forall i :: 0 <= i < |fl.mem| && !(slotOff <= i < slotOff + slotBytes) ==> fl.mem[i] == old(fl.mem[i])
    ensures w != null ==> w.log0 == old(fl.log) && fl.log == old(fl.log) + [Op.Erase(slotOff, HEADER)]
    ensures w == null && fl.faults == old(fl.faults) ==> fl.log == old(fl.log) && fl.mem == old(fl.mem)
    ensures w == null && fl.faults != old(fl.faults) ==> fl.log == old(fl.log) + [Op.Erase(slotOff, HEADER)]
    ensures w == null && fl.faults != old(fl.faults) ==> Left(old(fl.mem), [Op.Erase(slotOff, HEADER)], true, fl.mem)
    ensures fl.faults <= old(fl.faults) + 1 && (fl.log != old(fl.log) ==> HEADER < slotBytes)
    ensures (w != null) == (HEADER < slotBytes && slotOff % ERASE == 0 && slotBytes % ERASE == 0
      && fl.faults == old(fl.faults))
  {
    w := null;
    if slotBytes <= HEADER || slotOff % ERASE != 0 || slotBytes % ERASE != 0 {
      return;
    }
    var v := new Writer(fl, slotOff, slotBytes);
    var ok := v.Arm();
    if ok {
      w := v;
    }
  }
}

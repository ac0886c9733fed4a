/** app_load for a sandboxed package: copy the sections into two blocks, synthesise the GOT and the
    veneers, and apply every relocation in place. */
module AppLoad {
  import opened Bytes
  import opened Elf
  import opened ElfLayout
  import opened Manifest
  import opened Sets
  import opened PicLayout
  import opened PicTables
  import opened AppLayout
  import Thumb
  import PicSites
  import ThumbCode
  import PicInstall

  const GATES := 48

  /** Refusals that come from what a relocation says. */
  predicate PackageError(e: LoadError) {
    e.ErrRead? || e.ErrUndefSymbol? || e.ErrUnsupported? || e.ErrRange?
  }

  function MovPair(p: Thumb.Pair, v: u16): Thumb.Pair {
    Thumb.Pair(p.p0 / 2048 * 2048 + v / 2048 % 2 * 1024 + p.p0 % 1024 / 16 * 16 + v / 4096,
               p.p1 / 32768 * 32768 + v / 256 % 8 * 4096 + p.p1 / 256 % 16 * 256 + v % 256)
  }

  /** What a relocation other than GOT_BREL leaves at its site: `cur` is what was there, `S` the symbol's
      address, `P` the site's. */
  function NewBytes(kind: byte, cur: seq<byte>, S: u32, P: u32, isFunc: bool): (r: Outcome<seq<byte>>)
    requires |cur| == PatchWidth(kind)
    ensures r.Good? ==> Applied(kind) && |r.value| == PatchWidth(kind)
  {
    if kind == ABS32 || kind == TARGET1 then Good(Le32((Rd32(cur, 0) + S) % W32))
    else if kind == REL32 then Good(Le32((Rd32(cur, 0) + S - P) % W32))
    else if kind == PREL31 then
      var w := Rd32(cur, 0);
      var low := w % 0x8000_0000;
      var a := if low < 0x4000_0000 then low else low - 0x8000_0000;
      Good(Le32(w / 0x8000_0000 * 0x8000_0000 + (S + a - P) % W32 % 0x8000_0000))
    else if kind == ABS16 then Good(Le16((Rd16(cur, 0) + S) % 0x1_0000))
    else if kind == ABS8 then Good([(cur[0] + S) % 256])
    else if kind == THM_MOVW_ABS_NC || kind == THM_MOVT_ABS then
      var val := S / 2 * 2 + if isFunc then 1 else 0;
      Good(Thumb.PairBytes(MovPair(Thumb.PairAt(cur, 0),
        (if kind == THM_MOVT_ABS then val / 0x1_0000 else val) % 0x1_0000)))
    else if IsBranch(kind) then
      var pair := Thumb.PairAt(cur, 0);
      var disp := PicSites.Signed((S / 2 * 2 + Thumb.Decode(pair) + 4 - (P + 4)) % W32);
      if Thumb.InRange(disp) then Good(Thumb.PairBytes(Thumb.Encode(pair, disp))) else Bad(ErrRange)
    else Bad(ErrUnsupported)
  }

  /** No displacement a branch can hold leads from a branch at `P` with addend `A` to what it should. */
  ghost predicate OutOfReach(S: u32, P: u32, A: int) {
    forall d :: Thumb.InRange(d) ==> (P + 4 + d) % W32 != (S / 2 * 2 + A + 4) % W32
  }

  /** Short of a branch that cannot reach, nothing that is applied is refused. */
  lemma NewBytesRefuses(kind: byte, cur: seq<byte>, S: u32, P: u32, isFunc: bool)
    requires Applied(kind) && kind != GOT_BREL && |cur| == PatchWidth(kind) && NewBytes(kind, cur, S, P, isFunc).Bad?
    ensures NewBytes(kind, cur, S, P, isFunc) == Bad(ErrRange) && IsBranch(kind)
    ensures OutOfReach(S, P, Thumb.Decode(Thumb.PairAt(cur, 0)))
  {
    hide Le32, Le16, Rd32, Rd16, Thumb.Encode, Thumb.Decode, MovPair, Thumb.PairBytes, Thumb.PairAt, PicSites.Signed;
    var A := Thumb.Decode(Thumb.PairAt(cur, 0));
    var x := S / 2 * 2 + A + 4 - (P + 4);
    forall d | Thumb.InRange(d)
      ensures (P + 4 + d) % W32 != (S / 2 * 2 + A + 4) % W32
    {
      OnlySigned(P + 4, d, x);
    }
  }

  /** A small number is the signed reading of what it is congruent to. */
  lemma OnlySigned(p: int, d: int, x: int)
    requires Thumb.InRange(d)
    ensures (p + d) % W32 == (p + x) % W32 ==> PicSites.Signed(x % W32) == d
  {
    if (p + d) % W32 == (p + x) % W32 {
      var k := (p + d) / W32 - (p + x) / W32;
      assert d - x == W32 * k;
      if d >= 0 {
        assert x % W32 == d;
      } else {
        assert x % W32 == d + W32;
      }
    }
  }

  /** Why relocation `r` of section `i` is refused with `e`, `cur` being what is at its site. */
  ghost predicate Unfit(o: Object, names: seq<seq<byte>>, bases: (u32, u32, u32), addrOf: map<nat, u32>, i: nat, r: nat,
                        cur: seq<byte>, e: LoadError)
    requires i < |o.sections| && o.sections[i].info < |o.sections| && r < |o.sections[i].rels|
  {
    var rel, t := o.sections[i].rels[r], o.sections[i].info;
    rel.kind != NONE &&
    if !SiteOk(rel.kind, rel.offset, o.sections[t].size) then e == ErrRange
    else if TargetOf(o, names, rel.sym).Bad? then e == TargetOf(o, names, rel.sym).error
    else if !Applied(rel.kind) then e == ErrUnsupported
    else if rel.kind == GOT_BREL then |cur| == 4 && Rd32(cur, 0) != 0 && e == ErrUnsupported
    else
      && IsBranch(rel.kind) && |cur| == 4 && rel.sym in addrOf && e == ErrRange
      && OutOfReach(addrOf[rel.sym], (SecAddr(o, bases, t) + rel.offset) % W32, Thumb.Decode(Thumb.PairAt(cur, 0)))
  }

  /** What a block holds at the site. */
  ghost function SiteBytes(o: Object, i: nat, r: nat, mem: seq<byte>): seq<byte>
    requires i < |o.sections| && o.sections[i].info < |o.sections| && r < |o.sections[i].rels|
  {
    var at := SecAt(o, o.sections[i].info) + o.sections[i].rels[r].offset;
    var width := PatchWidth(o.sections[i].rels[r].kind);
    if 0 <= at && at + width <= |mem| then mem[at..at + width] else []
  }

  /** The GOT words are distinct addresses, each that of a different symbol a loaded GOT_BREL names. */
  ghost predicate WordsOk(o: Object, got: seq<u32>, syms: seq<nat>, addrOf: map<nat, u32>) {
    && |syms| == |got| && Distinct(got)
    && forall k :: 0 <= k < |got| ==> syms[k] in GotSyms(o, true) && syms[k] in addrOf && addrOf[syms[k]] == got[k]
  }

  /** So they fit the room reserved by counting symbols. */
  lemma WordsFit(o: Object, got: seq<u32>, syms: seq<nat>, addrOf: map<nat, u32>)
    requires WordsOk(o, got, syms, addrOf)
    ensures 4 * |got| <= GotBytes(o)
  {
    DistinctFit(syms, GotSyms(o, true));
    SubsetSize(GotSyms(o, true), GotSyms(o, false));
  }

  /** The block begins with the GOT words, and the rest of the room for them is clear. */
  ghost predicate GotHeld(mem: seq<byte>, got: seq<u32>, room: nat) {
    && 4 * |got| <= room <= |mem| && (forall k :: 0 <= k < |got| ==> Rd32(mem, 4 * k) == got[k])
    && (forall x :: 4 * |got| <= x < room ==> mem[x] == 0)
  }

  /** A write past that room leaves the words alone; one right behind them adds a word. */
  lemma GotKept(mem: seq<byte>, got: seq<u32>, room: nat, off: nat, d: seq<byte>)
    requires GotHeld(mem, got, room) && room <= off && off + |d| <= |mem|
    ensures GotHeld(Splice(mem, off, d), got, room)
  {
    hide Splice;
  }

  lemma GotAdded(mem: seq<byte>, got: seq<u32>, room: nat, S: u32)
    requires GotHeld(mem, got, room) && 4 * |got| + 4 <= room
    ensures GotHeld(Splice(mem, 4 * |got|, Le32(S)), got + [S], room)
  {
    hide Splice, Le32;
    var now := Splice(mem, 4 * |got|, Le32(S));
    forall k | 0 <= k < |got|
      ensures Rd32(now, 4 * k) == got[k]
    {
    }
    hide Rd32;
    ReadBack32(S, now, 4 * |got|);
  }

  /** The index word of a veneer. */
  const LITERAL := 12

  /** The block holds the veneers of `pool` behind the gates. */
  ghost predicate PoolHeld(mem: seq<byte>, pool: seq<nat>) {
    && GATES + VENEER * |pool| <= |mem|
    && forall k :: 0 <= k < |pool| ==> At(mem, GATES + VENEER * k, VeneerBytes(pool[k]))
  }

  lemma PoolLiteral(mem: seq<byte>, pool: seq<nat>, k: nat)
    requires PoolHeld(mem, pool) && k < |pool| && pool[k] < W32
    ensures GATES + VENEER * k + VENEER <= |mem| && Rd32(mem, GATES + VENEER * k + LITERAL) == pool[k]
  {
    hide Le32, Rd32;
    var off, b := GATES + VENEER * k, VeneerBytes(pool[k]);
    assert At(mem, off, b);
    assert b[LITERAL..LITERAL + 4] == Le32(pool[k]);
    SubSlice(mem, off, VENEER, LITERAL, 4);
    ReadBack32(pool[k], mem, off + LITERAL);
  }

  /** Run where it is, the `k`-th veneer calls its export. */
  lemma PoolCalls(mem: seq<byte>, pool: seq<nat>, base: u32, k: nat)
    requires PoolHeld(mem, pool) && k < |pool| && pool[k] < W32 && base % BLOCK == 0
    ensures ThumbCode.Calls(mem, GATES + VENEER * k, base + GATES + VENEER * k, pool[k])
  {
    hide VeneerBytes, ThumbCode.Calls;
    assert At(mem, GATES + VENEER * k, VeneerBytes(pool[k]));
    var q := base / BLOCK;
    assert base == BLOCK * q;
    Digits(8 * q + GATES / 4 + 4 * k, 4, 0);
    ThumbCode.VeneerCalls(mem, GATES + VENEER * k, base + GATES + VENEER * k, pool[k]);
  }

  lemma PoolAdded(mem: seq<byte>, pool: seq<nat>, ix: nat)
    requires PoolHeld(mem, pool) && GATES + VENEER * |pool| + VENEER <= |mem|
    ensures PoolHeld(Splice(mem, GATES + VENEER * |pool|, VeneerBytes(ix)), pool + [ix])
  {
    hide VeneerBytes, Splice;
    var at, more := GATES + VENEER * |pool|, pool + [ix];
    var now := Splice(mem, at, VeneerBytes(ix));
    SpliceHit(mem, at, VeneerBytes(ix), at, at + VENEER, at, at + VENEER);
    forall k | 0 <= k < |more|
      ensures At(now, GATES + VENEER * k, VeneerBytes(more[k]))
    {
      if k < |pool| {
        assert At(mem, GATES + VENEER * k, VeneerBytes(pool[k]));
        SameSlice(mem, now, GATES + VENEER * k, GATES + VENEER * k + VENEER);
      }
    }
  }

  lemma WordsAdd(o: Object, got: seq<u32>, syms: seq<nat>, addrOf: map<nat, u32>, sym: nat)
    requires WordsOk(o, got, syms, addrOf) && sym in addrOf && sym in GotSyms(o, true) && addrOf[sym] !in got
    ensures WordsOk(o, got + [addrOf[sym]], syms + [sym], addrOf)
    ensures 4 * |got| + 4 <= GotBytes(o)
  {
    hide GotSyms;
    WordsFit(o, got + [addrOf[sym]], syms + [sym], addrOf);
  }

  lemma GotRoom(o: Object)
    requires LaidOut(o.sections, GotBytes(o))
    ensures GotBytes(o) <= BlockSize(o, true) && GotBytes(o) <= MAX_IMAGE
  {
    hide GotBytes, RoundUp, EndOf;
  }

  lemma InSizes(o: Object)
    ensures 0 <= BlockSize(o, false) && 0 <= BlockSize(o, true)
  {
    hide GotBytes, RoundUp, EndOf;
  }

  class Image {
    const o: Object
    const names: seq<seq<byte>>
    const textBase: u32
    const dataBase: u32
    const veneerBase: u32
    const veneerSize: nat
    const text: array<byte>
    const data: array<byte>
    /** The veneer block, and how much of it is in use. */
    const veneers: array<byte>
    var veneersUsed: nat
    /** Exports that have a veneer, in order behind the gates. */
    ghost var pool: seq<nat>
    /** GOT words in use; the words themselves are the first of the writable block. */
    var gotUsed: nat
    ghost var got: seq<u32>
    ghost const heapText: seq<byte>
    ghost const heapData: seq<byte>
    ghost var poolSyms: seq<nat>
    ghost var gotSyms: seq<nat>
    /** The address each symbol resolved to. */
    ghost var addrOf: map<nat, u32>
    /** Sections some relocation has patched. */
    ghost var touched: set<nat>

    ghost predicate Valid()
      reads this, text, data, veneers
    {
      && o.Read() && LaidOut(o.sections, GotBytes(o)) && text != data && veneers != text && veneers != data
        && |names| <= W32
      && text.Length == BlockSize(o, false) && data.Length == BlockSize(o, true)
      && veneerSize == RoundUp(VENEER * VeneerCap(o, names) + GATES, BLOCK) == veneers.Length
      && veneersUsed == GATES + VENEER * |pool| && PoolHeld(veneers[..], pool)
      && PoolOk(o, names, pool, poolSyms) && WordsOk(o, got, gotSyms, addrOf)
      && (forall s :: s in addrOf ==> AddressIs(o, names, pool, this.Bases(), s, addrOf[s]))
      && gotUsed == |got| && GotHeld(data[..], got, GotBytes(o))
      && Contained(o, false, heapText, text[..], touched) && Contained(o, true, heapData, data[..], touched)
    }

    function Bases(): (u32, u32, u32) {
      (textBase, dataBase, veneerBase)
    }

    /** Two fresh blocks holding whatever the heap held, the room for the GOT cleared. */
    constructor (o: Object, names: seq<seq<byte>>, textBase: u32, dataBase: u32, veneerBase: u32)
      requires o.Read() && LaidOut(o.sections, GotBytes(o)) && |names| <= W32
      ensures Valid() && fresh(text) && fresh(data) && fresh(veneers) && this.o == o && this.names == names && got == []
      ensures Bases() == (textBase, dataBase, veneerBase)
    {
      hide Contained, LaidOut, GotSyms, RelocSyms, VeneerCap, RoundUp, AddressIs, SecAt, Splice;
      GotRoom(o);
      InSizes(o);
      this.o, this.names := o, names;
      this.textBase, this.dataBase, this.veneerBase := textBase, dataBase, veneerBase;
      veneerSize := RoundUp(VENEER * VeneerCap(o, names) + GATES, BLOCK);
      var t, d := new byte[BlockSize(o, false)], new byte[BlockSize(o, true)];
      veneers := new byte[RoundUp(VENEER * VeneerCap(o, names) + GATES, BLOCK)];
      veneersUsed := GATES;
      pool, poolSyms, gotUsed, got, gotSyms, addrOf := [], [], 0, [], [], map[];
      touched := Below(|o.sections|);
      heapText, heapData := t[..], d[..];
      FreshContained(o, false, t[..]);
      FreshContained(o, true, d[..]);
      GotContained(o, d[..], d[..], Below(|o.sections|), 0, seq(GotBytes(o), _ => 0));
      Store(d, 0, seq(GotBytes(o), _ => 0));
      text, data := t, d;
      hide BlockSize, GotBytes;
      new;
    }

    /** The search reads the index words of the veneers already there. */
    method FindVeneer(ix: nat) returns (off: nat)
      requires Valid() && ix < |names|
      ensures off == if ix in pool then GATES + VENEER * PosOf(pool, ix) else veneersUsed
    {
      hide Contained, LaidOut, GotBytes, WordsOk, RelocSyms, TargetOf, VeneerCap, BlockSize, RoundUp, PoolHeld, Rd32,
        GotHeld, AddressIs;
      off := GATES;
      ghost var k := 0;
      while off < veneersUsed
        invariant off == GATES + VENEER * k && k <= |pool| && ix !in pool[..k]
        decreases |pool| - k
      {
        TargetInRange(o, names, poolSyms[k]);
        PoolLiteral(veneers[..], pool, k);
        if Rd32(veneers[..], off + LITERAL) == ix {
          PosInDistinct(pool, k);
          return;
        }
        assert pool[..k + 1] == pool[..k] + [pool[k]];
        off, k := off + VENEER, k + 1;
      }
      assert pool[..|pool|] == pool;
    }

    /** Find or add the veneer for export `ix`; the answer carries the Thumb bit. */
    method VeneerEmit(ix: nat, ghost sym: nat) returns (r: Outcome<u32>)
      requires Valid() && sym in RelocSyms(o.sections, |o.sections|) && TargetOf(o, names, sym) == Good(Firmware(ix))
        && ix < |names|
      modifies this`pool, this`poolSyms, this`veneersUsed, veneers
      ensures Valid() && old(pool) <= pool && r.Good? && ix in pool
      ensures r.value == VeneerAddress(veneerBase, PosOf(pool, ix))
    {
      hide Contained, LaidOut, GotBytes, WordsOk, RelocSyms, TargetOf, VeneerCap, BlockSize, RoundUp, PoolHeld, GotHeld,
        AddressIs;
      var off := FindVeneer(ix);
      r := Good((veneerBase + off) % W32 / 2 * 2 + 1);
      if off < veneersUsed {
        return;
      }
      assert ix !in pool;
      PoolFits(o, names, pool, poolSyms);
      if veneersUsed + VENEER > veneerSize {
        return Bad(ErrTable);
      }
      NewVeneer(ix, sym);
      PosInDistinct(pool, |pool| - 1);
    }

    method NewVeneer(ix: nat, ghost sym: nat)
      requires Valid() && sym in RelocSyms(o.sections, |o.sections|) && TargetOf(o, names, sym) == Good(Firmware(ix))
        && ix !in pool
      requires veneersUsed + VENEER <= veneerSize
      modifies this`pool, this`poolSyms, this`veneersUsed, veneers
      ensures Valid() && pool == old(pool) + [ix]
    {
      hide Contained, LaidOut, GotBytes, WordsOk, RelocSyms, TargetOf, VeneerCap, BlockSize, RoundUp, PoolHeld, GotHeld,
        AddressIs, VeneerBytes;
      PoolAdded(veneers[..], pool, ix);
      Store(veneers, veneersUsed, VeneerBytes(ix));
      ghost var was := pool;
      pool, poolSyms, veneersUsed := pool + [ix], poolSyms + [sym], veneersUsed + VENEER;
      forall s | s in addrOf
        ensures AddressIs(o, names, pool, Bases(), s, addrOf[s])
      {
        AddressStays(o, names, was, pool, Bases(), s, addrOf[s]);
      }
    }

    /** Resolve a symbol to the address the package will see. */
    method Resolve(sym: nat) returns (r: Outcome<u32>)
      requires Valid() && sym in RelocSyms(o.sections, |o.sections|)
      modifies this`pool, this`poolSyms, this`veneersUsed, veneers, this`addrOf
      ensures Valid() && old(pool) <= pool
      ensures r.Good? <==> TargetOf(o, names, sym).Good?
      ensures r.Good? ==> sym in addrOf && addrOf[sym] == r.value
      ensures r.Bad? ==> r.error == TargetOf(o, names, sym).error
      ensures Keeps(old(addrOf), addrOf)
    {
      hide Contained, LaidOut, GotBytes, GotSyms, GotHeld, PoolOk, PoolHeld, RelocSyms, TargetOf, VeneerCap, BlockSize,
        RoundUp, SecAt, VeneerAddress;
      var t := TargetOf(o, names, sym);
      if t.Bad? {
        return Bad(t.error);
      }
      TargetInRange(o, names, sym);
      match t.value {
        case Firmware(ix) => r := VeneerEmit(ix, sym);
        case Absolute(a) => r := Good(a);
        case Within(s, v) => r := Good((SecAddr(o, Bases(), s) + v) % W32);
      }
      assert AddressIs(o, names, pool, Bases(), sym, r.value);
      if sym in addrOf {
        OneAddress(o, names, pool, Bases(), sym, addrOf[sym], r.value);
      }
      addrOf := addrOf[sym := r.value];
    }

    /** The byte offset of the GOT word holding `addrOf[sym]`, added behind the others when new. */
    method GotOffsetFor(S: u32, ghost sym: nat) returns (r: Outcome<u32>)
      requires Valid() && sym in addrOf && addrOf[sym] == S && sym in GotSyms(o, true)
      modifies this`gotUsed, this`got, this`gotSyms, data
      ensures Valid() && old(got) <= got && r.Good?
      ensures WordAt(got, S, Le32(r.value))
      ensures forall x :: GotBytes(o) <= x < data.Length ==> data[x] == old(data[x])
    {
      hide Contained, LaidOut, GotBytes, GotSyms, PoolOk, PoolHeld, RelocSyms, VeneerCap, BlockSize, RoundUp, AddressIs,
        Rd32;
      WordsFit(o, got, gotSyms, addrOf);
      GotRoom(o);
      for k := 0 to gotUsed
        invariant S !in got[..k]
      {
        if Rd32(data[..], 4 * k) == S {
          return Good(4 * k);
        }
        assert got[..k + 1] == got[..k] + [got[k]];
      }
      assert got[..gotUsed] == got;
      WordsAdd(o, got, gotSyms, addrOf, sym);
      r := Bad(ErrTable);
      if 4 * gotUsed + 4 <= GotBytes(o) {
        GotAdded(data[..], got, GotBytes(o), S);
        GotContained(o, heapData, data[..], touched, 4 * gotUsed, Le32(S));
        Store(data, 4 * gotUsed, Le32(S));
        got, gotSyms := got + [S], gotSyms + [sym];
        gotUsed := gotUsed + 1;
        assert got[gotUsed - 1] == S;
        r := Good(4 * (gotUsed - 1));
      }
    }

    /** Write `d` inside loaded section `t`. */
    method Patch(t: nat, off: nat, d: seq<byte>)
      requires Valid() && o.IsPlaced(t) && off + |d| <= o.sections[t].size
      modifies this`touched, text, data
      ensures Valid() && touched == old(touched) + {t} && 0 <= SecAt(o, t)
        && SecAt(o, t) + off + |d| <= BlockSize(o, o.sections[t].write)
      ensures Block(true) == if o.sections[t].write then Splice(old(Block(true)), SecAt(o, t) + off, d)
        else old(Block(true))
      ensures Block(false) == if o.sections[t].write then old(Block(false))
        else Splice(old(Block(false)), SecAt(o, t) + off, d)
    {
      hide Contained, LaidOut, GotBytes, GotSyms, GotHeld, WordsOk, PoolOk, PoolHeld, RelocSyms, VeneerCap, BlockSize,
        RoundUp, AddressIs, SecAt, Splice;
      var at := SecAt(o, t) + off;
      InBlock(o, t);
      if o.sections[t].write {
        WordsFit(o, got, gotSyms, addrOf);
        WriteContained(o, true, heapData, data[..], touched, t, off, d);
        Widen(o, false, heapText, text[..], touched, touched + {t});
        GotKept(data[..], got, GotBytes(o), at, d);
        Store(data, at, d);
      } else {
        WriteContained(o, false, heapText, text[..], touched, t, off, d);
        Widen(o, true, heapData, data[..], touched, touched + {t});
        Store(text, at, d);
      }
      touched := touched + {t};
    }

    /** Apply relocation `r` of section `i`, whose target is loaded. */
    method ApplyRel(i: nat, r: nat) returns (res: Outcome<()>)
      requires Valid() && i < |o.sections| && o.sections[i].kind.Relocs? && o.IsPlaced(o.sections[i].info)
      requires r < |o.sections[i].rels|
      modifies this`pool, this`poolSyms, this`veneersUsed, this`addrOf, this`gotUsed, this`got, this`gotSyms,
        this`touched, text, data, veneers
      ensures Valid() && touched <= old(touched) + {o.sections[i].info} && old(got) <= got && old(pool) <= pool
      ensures Keeps(old(addrOf), addrOf)
      ensures res.Bad? ==> PackageError(res.error)
      ensures res.Bad? ==>
        Unfit(o, names, Bases(), addrOf, i, r, SiteBytes(o, i, r, old(Block(o.sections[o.sections[i].info].write))),
          res.error)
      ensures res.Good? ==> Taken(o, names, i, r)
      ensures res.Good? ==> Relocated(o, o.sections[i].info, o.sections[i].rels[r], Bases(), addrOf, got,
                                      old(Block(o.sections[o.sections[i].info].write)),
                                        Block(o.sections[o.sections[i].info].write))
      ensures OnlySite(o, true, i, r, old(Block(true)), Block(true))
        && OnlySite(o, false, i, r, old(Block(false)), Block(false))
      ensures !SiteOk(o.sections[i].rels[r].kind, o.sections[i].rels[r].offset, o.sections[o.sections[i].info].size)
        ==> Block(true) == old(Block(true)) && Block(false) == old(Block(false))
    {
      hide Contained, LaidOut, GotBytes, GotSyms, GotHeld, WordsOk, PoolOk, PoolHeld, RelocSyms, VeneerCap, BlockSize,
        RoundUp, AddressIs, SecAt, Splice;
      hide TargetOf, Relocated, Formula, OnlySite, Unfit, SiteBytes, OutOfReach;
      NoSite(o, true, i, r, Block(true), Block(true));
      NoSite(o, false, i, r, Block(false), Block(false));
      var rel, t := o.sections[i].rels[r], o.sections[i].info;
      var sec := o.sections[t];
      if !SiteOk(rel.kind, rel.offset, sec.size) {
        ByRefusal(o, names, Bases(), addrOf, i, r, SiteBytes(o, i, r, Block(sec.write)), ErrRange);
        return Bad(ErrRange);
      }
      ghost var cur := SiteBytes(o, i, r, Block(sec.write));
      if rel.kind == NONE {
        NoneLeaves(o, t, rel, Bases(), addrOf, got, Block(sec.write));
        return Good(());
      }
      RelocSymsHas(o.sections, |o.sections|, i, r);
      var S := Resolve(rel.sym);
      if S.Bad? {
        TargetNoTable(o, names, rel.sym);
        ByRefusal(o, names, Bases(), addrOf, i, r, cur, S.error);
        return Bad(S.error);
      }
      if !Applied(rel.kind) {
        ByRefusal(o, names, Bases(), addrOf, i, r, cur, ErrUnsupported);
        return Bad(ErrUnsupported);
      }
      var d := BytesFor(i, r, S.value);
      NoSite(o, true, i, r, old(Block(true)), Block(true));
      NoSite(o, false, i, r, old(Block(false)), Block(false));
      if d.Bad? {
        return Bad(d.error);
      }
      InBlock(o, t);
      ghost var was, mid := old(Block(sec.write)), Block(sec.write);
      AtSite(o, sec.write, i, r, was, mid, d.value);
      Patch(t, rel.offset, d.value);
      ByFormula(o, t, rel, Bases(), addrOf, got, was, mid, d.value);
      res := Good(());
    }

    /** What relocation `r` of section `i` will leave at its site, `S` being its symbol's address. */
    method BytesFor(i: nat, r: nat, S: u32) returns (d: Outcome<seq<byte>>)
      requires Valid() && i < |o.sections| && o.sections[i].kind.Relocs? && o.IsPlaced(o.sections[i].info)
      requires r < |o.sections[i].rels| && Applied(o.sections[i].rels[r].kind)
      requires SiteOk(o.sections[i].rels[r].kind, o.sections[i].rels[r].offset, o.sections[o.sections[i].info].size)
      requires TargetOf(o, names, o.sections[i].rels[r].sym).Good?
      requires o.sections[i].rels[r].sym in addrOf && addrOf[o.sections[i].rels[r].sym] == S
      modifies this`gotUsed, this`got, this`gotSyms, data
      ensures Valid() && old(got) <= got && forall x :: GotBytes(o) <= x < data.Length ==> data[x] == old(data[x])
      ensures d.Bad? ==> PackageError(d.error)
      ensures d.Bad? ==>
        Unfit(o, names, Bases(), addrOf, i, r, SiteBytes(o, i, r, old(Block(o.sections[o.sections[i].info].write))),
          d.error)
      ensures d.Good? ==> |d.value| == PatchWidth(o.sections[i].rels[r].kind)
      ensures d.Good? ==> Formula(o, o.sections[i].info, o.sections[i].rels[r], Bases(), addrOf, got,
                                  old(Block(o.sections[o.sections[i].info].write)), d.value)
    {
      hide Contained, LaidOut, GotBytes, GotSyms, GotHeld, WordsOk, PoolOk, PoolHeld, RelocSyms, VeneerCap, BlockSize,
        RoundUp, AddressIs, SecAt, Splice;
      hide TargetOf, NewBytes, Rd32, Le32, OutOfReach, Thumb.Decode, Thumb.PairAt;
      var rel, t := o.sections[i].rels[r], o.sections[i].info;
      var sec := o.sections[t];
      InBlock(o, t);
      var at, width := SecAt(o, t) + rel.offset, PatchWidth(rel.kind);
      var cur := if sec.write then data[at..at + width] else text[at..at + width];
      assert SiteBytes(o, i, r, Block(sec.write)) == cur;
      d := Bad(ErrUnsupported);
      if rel.kind != GOT_BREL {
        NewBytesNoTable(rel.kind, cur, S, (SecAddr(o, Bases(), t) + rel.offset) % W32, IsFunc(o, rel.sym));
        d := NewBytes(rel.kind, cur, S, (SecAddr(o, Bases(), t) + rel.offset) % W32, IsFunc(o, rel.sym));
        if d.Bad? {
          NewBytesRefuses(rel.kind, cur, S, (SecAddr(o, Bases(), t) + rel.offset) % W32, IsFunc(o, rel.sym));
        }
      } else if Rd32(cur, 0) == 0 {
        SliceWord(Block(sec.write), at);
        GotSymsHas(o, names, i, r);
        var off := GotOffsetFor(S, rel.sym);
        d := Good(Le32(off.value));
      }
    }

    /** The relocations of one section, in file order. */
    method ApplySection(i: nat) returns (res: Outcome<()>)
      requires Valid() && IsSource(o, i) && Unpatched() && (Apart(o) ==> Progress(i, 0))
      modifies this`pool, this`poolSyms, this`veneersUsed, this`addrOf, this`gotUsed, this`got, this`gotSyms,
        this`touched, text, data, veneers
      ensures Valid() && touched <= old(touched) + {o.sections[i].info} && Unpatched()
      ensures res.Bad? ==> PackageError(res.error) && Blames(i, res.error)
      ensures res.Good? ==> SitesOk(o, names, i) && (Apart(o) ==> Progress(i + 1, 0))
    {
      hide Image.Valid, AsFile, OnlySite, SiteOk, Relocated, UpTo, Apart, Keeps, Unfit, SiteBytes;
      for r := 0 to |o.sections[i].rels|
        invariant Valid() && touched <= old(touched) + {o.sections[i].info} && Unpatched()
          && (Apart(o) ==> Progress(i, r))
        invariant forall q :: 0 <= q < r ==> Taken(o, names, i, q)
      {
        ghost var d, t, was, words := Block(true), Block(false), addrOf, got;
        var one := ApplyRel(i, r);
        if SiteOk(o.sections[i].rels[r].kind, o.sections[i].rels[r].offset, o.sections[o.sections[i].info].size) {
          SiteKeepsFile(o, true, i, r, d, Block(true));
          SiteKeepsFile(o, false, i, r, t, Block(false));
        }
        if one.Bad? {
          FoundAt(o, Bases(), was, words, d, t, i, r);
          ReadOk();
          ghost var cur := SiteBytes(o, i, r, if o.sections[o.sections[i].info].write then d else t);
          assert Unfit(o, names, Bases(), addrOf, i, r, cur, one.error);
          return one;
        }
        if Apart(o) {
          OneFurther(o, Bases(), was, words, d, t, addrOf, got, Block(true), Block(false), i, r);
        }
      }
      if Apart(o) {
        NextSection(o, Bases(), addrOf, got, Block(true), Block(false), i);
      }
      res := Good(());
    }

    /** Run where it is, every veneer calls its export. */
    lemma VeneersCall()
      requires Valid() && veneerBase % BLOCK == 0
      ensures forall k :: 0 <= k < |pool| ==>
        ThumbCode.Calls(veneers[..], GATES + VENEER * k, veneerBase + GATES + VENEER * k, pool[k])
    {
      hide Contained, LaidOut, GotBytes, GotHeld, WordsOk, RelocSyms, TargetOf, VeneerCap, BlockSize, RoundUp, PoolHeld,
        ThumbCode.Calls, AddressIs;
      forall k | 0 <= k < |pool|
        ensures ThumbCode.Calls(veneers[..], GATES + VENEER * k, veneerBase + GATES + VENEER * k, pool[k])
      {
        TargetInRange(o, names, poolSyms[k]);
        PoolCalls(veneers[..], pool, veneerBase, k);
      }
    }

    lemma ReadOk()
      requires Valid()
      ensures o.Read()
    {
    }

    /** Every relocation of every loaded section. */
    method ApplyAll() returns (res: Outcome<()>)
      requires Valid() && Unpatched() && (Apart(o) ==> Progress(0, 0))
      modifies this`pool, this`poolSyms, this`veneersUsed, this`addrOf, this`gotUsed, this`got, this`gotSyms,
        this`touched, text, data, veneers
      ensures Valid() && touched <= old(touched) + Targets(o) && Unpatched()
      ensures res.Bad? ==> PackageError(res.error) && exists i :: Blames(i, res.error)
      ensures res.Good? ==> forall i :: i in Sources(o) ==> SitesOk(o, names, i)
      ensures res.Good? && Apart(o) ==> Progress(|o.sections|, 0)
    {
      hide Image.Valid, AsFile, UpTo, Apart;
      for i := 0 to |o.sections|
        invariant Valid() && touched <= old(touched) + Targets(o) && Unpatched() && (Apart(o) ==> Progress(i, 0))
        invariant forall q :: q in Sources(o) && q < i ==> SitesOk(o, names, q)
      {
        NextSection(o, Bases(), addrOf, got, Block(true), Block(false), i);
        if IsSource(o, i) {
          assert i in Sources(o) && o.sections[i].info in Targets(o);
          var one := ApplySection(i);
          if one.Bad? {
            return one;
          }
        }
      }
      res := Good(());
    }

    /** Copy or clear every loaded section into its block. */
    method LoadSections()
      requires Valid() && got == []
      modifies this`touched, text, data
      ensures Valid() && touched == {} && Unpatched() && Progress(0, 0)
    {
      hide AsFile, UpTo, Contained, LaidOut, GotBytes, GotSyms, GotHeld, WordsOk, PoolOk, PoolHeld, RelocSyms,
        VeneerCap, BlockSize, RoundUp, AddressIs, SecAt, Splice;
      touched := touched + Below(|o.sections|);
      Widen(o, false, heapText, text[..], old(touched), touched);
      Widen(o, true, heapData, data[..], old(touched), touched);
      for i := 0 to |o.sections|
        invariant Valid() && got == [] && forall k :: 0 <= k < i && o.IsPlaced(k) ==> k !in touched
      {
        if o.IsPlaced(i) {
          LoadOne(i);
        }
      }
      Narrow(o, false, heapText, text[..], touched);
      Narrow(o, true, heapData, data[..], touched);
      FreshFile(o, false, heapText, text[..]);
      FreshFile(o, true, heapData, data[..]);
      FreshSites(o, Bases(), addrOf, got, heapData, data[..], heapText, text[..]);
      touched := {};
    }

    method LoadOne(i: nat)
      requires Valid() && o.IsPlaced(i)
      modifies this`touched, text, data
      ensures Valid() && touched == old(touched) - {i}
    {
      hide Contained, LaidOut, GotBytes, GotSyms, GotHeld, WordsOk, PoolOk, PoolHeld, RelocSyms, VeneerCap, BlockSize,
        RoundUp, AddressIs, SecAt, Splice;
      var s := o.sections[i];
      LoadContained(o, s.write, if s.write then heapData else heapText, Block(s.write), touched, i);
      Elsewhere(o, !s.write, if s.write then heapText else heapData, Block(!s.write), touched, i);
      Patch(i, 0, Content(s));
      touched := old(touched) - {i};
    }

    /** Both blocks hold the file's bytes wherever no relocation patches. */
    ghost predicate Unpatched()
      reads text, data
    {
      AsFile(o, true, Block(true)) && AsFile(o, false, Block(false))
    }

    /** Some relocation of section `i` has to be refused with `e`, for what the package is. */
    ghost predicate Blames(i: nat, e: LoadError)
      reads this
    {
      && IsSource(o, i) && o.Read()
      && exists r: nat, cur :: r < |o.sections[i].rels| && Unfit(o, names, Bases(), addrOf, i, r, cur, e)
           && (Apart(o) && Active(o, i, r) ==> cur == InFile(o, i, r))
    }

    /** The relocations before number `r` of section `i` are in place, the others still to come. */
    ghost predicate Progress(i: nat, r: nat)
      reads this, text, data
    {
      UpTo(o, Bases(), addrOf, got, Block(true), Block(false), i, r)
    }

    /** What a block holds. */
    function Block(w: bool): seq<byte>
      reads text, data
    {
      if w then data[..] else text[..]
    }
  }

  lemma TargetNoTable(o: Object, names: seq<seq<byte>>, sym: nat)
    ensures TargetOf(o, names, sym).Bad? ==> PackageError(TargetOf(o, names, sym).error)
  {
  }

  lemma NewBytesNoTable(kind: byte, cur: seq<byte>, S: u32, P: u32, isFunc: bool)
    requires |cur| == PatchWidth(kind)
    ensures NewBytes(kind, cur, S, P, isFunc).Bad? ==> PackageError(NewBytes(kind, cur, S, P, isFunc).error)
  {
    hide Le32, Le16, Rd32, Rd16, Thumb.Encode, Thumb.Decode, Thumb.InRange, MovPair, Thumb.PairBytes, Thumb.PairAt;
  }

  lemma GotSymsHas(o: Object, names: seq<seq<byte>>, i: nat, r: nat)
    requires i < |o.sections| && o.sections[i].kind.Relocs? && o.IsPlaced(o.sections[i].info)
    requires r < |o.sections[i].rels| && o.sections[i].rels[r].kind == GOT_BREL
    requires TargetOf(o, names, o.sections[i].rels[r].sym).Good?
    ensures o.sections[i].rels[r].sym in GotSyms(o, true)
  {
    assert IsGotRel(o, true, i, r);
  }

  /** What applying `rel` did to the block of its section `t`: its site holds the offset of the GOT word
      with the symbol's address, or what the type's formula makes of the word before; every other byte
      above the GOT is as it was. */
  ghost predicate Relocated(o: Object, t: nat, rel: Rel, bases: (u32, u32, u32), addrOf: map<nat, u32>, got: seq<u32>,
                            was: seq<byte>, now: seq<byte>)
    requires t < |o.sections|
  {
    if rel.kind == NONE then now == was else
    var at, width := SecAt(o, t) + rel.offset, PatchWidth(rel.kind);
    && 0 <= at && at + width <= |was| == |now| && rel.sym in addrOf && Applied(rel.kind)
    && (forall x :: Reserved(o, o.sections[t].write) <= x < |was| && !(at <= x < at + width) ==> now[x] == was[x])
    && Formula(o, t, rel, bases, addrOf, got, was, now[at..at + width])
  }

  /** `d` is what `rel` makes of a block `was` at its site. */
  ghost predicate Formula(o: Object, t: nat, rel: Rel, bases: (u32, u32, u32), addrOf: map<nat, u32>, got: seq<u32>,
                          was: seq<byte>, d: seq<byte>)
    requires t < |o.sections|
  {
    var at, width := SecAt(o, t) + rel.offset, PatchWidth(rel.kind);
    && 0 <= at && at + width <= |was| && |d| == width && rel.sym in addrOf
    && if rel.kind == GOT_BREL then
         Rd32(was, at) == 0 && WordAt(got, addrOf[rel.sym], d)
       else
         NewBytes(rel.kind, was[at..at + width], addrOf[rel.sym], (SecAddr(o, bases, t) + rel.offset) % W32,
           IsFunc(o, rel.sym)) == Good(d)
  }

  /** `d` is the byte offset of a GOT word that holds `a`. */
  ghost predicate WordAt(got: seq<u32>, a: u32, d: seq<byte>) {
    exists k: u32 :: k < |got| && 4 * k < W32 && got[k] == a && d == Le32(4 * k)
  }

  /** Block `w` changed above its GOT at most where relocation `r` of section `i` patches. */
  ghost predicate OnlySite(o: Object, w: bool, i: nat, r: nat, was: seq<byte>, now: seq<byte>) {
    && i < |o.sections| && r < |o.sections[i].rels| && o.sections[i].info < |o.sections| && |now| == |was|
    && forall x :: Reserved(o, w) <= x < |was| && !(o.sections[o.sections[i].info].write == w && InSite(o, i, r, x)) ==>
      now[x] == was[x]
  }

  /** Byte `x` of the block is one relocation `r` of section `i` patches. */
  ghost predicate InSite(o: Object, i: nat, r: nat, x: int)
    requires i < |o.sections| && r < |o.sections[i].rels| && o.sections[i].info < |o.sections|
  {
    var rel := o.sections[i].rels[r];
    var at := SecAt(o, o.sections[i].info) + rel.offset;
    Applied(rel.kind) && at <= x < at + PatchWidth(rel.kind)
  }

  lemma NoSite(o: Object, w: bool, i: nat, r: nat, was: seq<byte>, now: seq<byte>)
    requires i < |o.sections| && r < |o.sections[i].rels| && o.sections[i].info < |o.sections| && |now| == |was|
    requires forall x :: Reserved(o, w) <= x < |was| ==> now[x] == was[x]
    ensures OnlySite(o, w, i, r, was, now)
  {
  }

  lemma AtSite(o: Object, w: bool, i: nat, r: nat, was: seq<byte>, mid: seq<byte>, d: seq<byte>)
    requires i < |o.sections| && r < |o.sections[i].rels| && o.sections[i].info < |o.sections| && |mid| == |was|
    requires o.sections[o.sections[i].info].write == w && Applied(o.sections[i].rels[r].kind)
      && |d| == PatchWidth(o.sections[i].rels[r].kind)
    requires forall x :: Reserved(o, w) <= x < |was| ==> mid[x] == was[x]
    requires var at := SecAt(o, o.sections[i].info) + o.sections[i].rels[r].offset; 0 <= at && at + |d| <= |was|
    ensures OnlySite(o, w, i, r, was, Splice(mid, SecAt(o, o.sections[i].info) + o.sections[i].rels[r].offset, d))
  {
    hide SecAt, Splice, GotBytes;
  }

  // ----- bytes no relocation patches

  /** Some relocation of a loaded section patches byte `x` of section `t`. */
  ghost predicate Covered(o: Object, t: nat, x: int) {
    exists i, r :: 0 <= i < |o.sections| && 0 <= r < |o.sections[i].rels| && Patches(o, i, r, t, x)
  }

  ghost predicate Patches(o: Object, i: nat, r: nat, t: nat, x: int)
    requires i < |o.sections| && r < |o.sections[i].rels|
  {
    var rel := o.sections[i].rels[r];
    o.sections[i].kind.Relocs? && o.sections[i].info == t && Applied(rel.kind)
      && rel.offset <= x < rel.offset + PatchWidth(rel.kind)
  }

  /** Every byte of a loaded section of block `w` that no relocation patches is the one in the file. */
  ghost predicate AsFile(o: Object, w: bool, mem: seq<byte>) {
    forall t, x ::
      0 <= t < |o.sections| && InHalf(o.sections[t], w) && 0 <= x < o.sections[t].size && !Covered(o, t, x) ==>
        FileByte(o, t, x, mem)
  }

  ghost predicate FileByte(o: Object, t: nat, x: nat, mem: seq<byte>)
    requires t < |o.sections|
  {
    0 <= SecAt(o, t) + x < |mem| && x < |Content(o.sections[t])| && mem[SecAt(o, t) + x] == Content(o.sections[t])[x]
  }

  /** A loaded section no relocation has touched is where it belongs. */
  lemma InPlace(o: Object, w: bool, heap: seq<byte>, mem: seq<byte>, t: nat)
    requires o.Read() && Contained(o, w, heap, mem, {}) && t < |o.sections| && InHalf(o.sections[t], w)
    ensures At(mem, SecAt(o, t), Content(o.sections[t])) && |Content(o.sections[t])| == o.sections[t].size
  {
    hide SecAt, BlockSize, GotBytes;
  }

  lemma FreshFile(o: Object, w: bool, heap: seq<byte>, mem: seq<byte>)
    requires o.Read() && Contained(o, w, heap, mem, {})
    ensures AsFile(o, w, mem)
  {
    hide SecAt, Contained, GotBytes, Covered, Content;
    forall t, x | 0 <= t < |o.sections| && InHalf(o.sections[t], w) && 0 <= x < o.sections[t].size && !Covered(o, t, x)
      ensures FileByte(o, t, x, mem)
    {
      var c := Content(o.sections[t]);
      InPlace(o, w, heap, mem, t);
      assert mem[SecAt(o, t)..SecAt(o, t) + |c|][x] == c[x];
    }
  }

  lemma SiteKeepsFile(o: Object, w: bool, i: nat, r: nat, was: seq<byte>, now: seq<byte>)
    requires AsFile(o, w, was) && OnlySite(o, w, i, r, was, now) && o.sections[i].kind.Relocs?
      && o.IsPlaced(o.sections[i].info)
    requires SiteOk(o.sections[i].rels[r].kind, o.sections[i].rels[r].offset, o.sections[o.sections[i].info].size)
    ensures AsFile(o, w, now)
  {
    hide SecAt, BlockSize, GotBytes, Content;
    forall t, x | 0 <= t < |o.sections| && InHalf(o.sections[t], w) && 0 <= x < o.sections[t].size && !Covered(o, t, x)
      ensures FileByte(o, t, x, now)
    {
      assert FileByte(o, t, x, was);
      InBlock(o, t);
      assert !Patches(o, i, r, t, x);
      var u := o.sections[i].info;
      if o.sections[u].write == w && u != t {
        Disjoint(o, t, u);
      }
    }
  }

  // ----- bytes relocations patch

  predicate IsSource(o: Object, i: nat) {
    i < |o.sections| && o.sections[i].kind.Relocs? && o.IsPlaced(o.sections[i].info)
  }

  /** Relocation `r` of section `i` patches its target, and inside it. */
  predicate Active(o: Object, i: nat, r: nat) {
    && IsSource(o, i) && r < |o.sections[i].rels| && Applied(o.sections[i].rels[r].kind)
    && SiteOk(o.sections[i].rels[r].kind, o.sections[i].rels[r].offset, o.sections[o.sections[i].info].size)
  }

  /** The bytes at its site, in the file and in its block. */
  ghost function InFile(o: Object, i: nat, r: nat): (d: seq<byte>)
    requires o.Read() && Active(o, i, r)
    ensures |d| == PatchWidth(o.sections[i].rels[r].kind)
  {
    var rel := o.sections[i].rels[r];
    Content(o.sections[o.sections[i].info])[rel.offset..rel.offset + PatchWidth(rel.kind)]
  }

  /** The site is on the block `mem` and holds `d`. */
  ghost predicate AtItsSite(o: Object, i: nat, r: nat, mem: seq<byte>, d: seq<byte>)
    requires Active(o, i, r)
  {
    At(mem, SecAt(o, o.sections[i].info) + o.sections[i].rels[r].offset, d)
  }

  /** `d` is what the relocation makes of the file's bytes. */
  ghost predicate Made(o: Object, bases: (u32, u32, u32), addrOf: map<nat, u32>, got: seq<u32>, i: nat, r: nat,
    d: seq<byte>)
    requires o.Read() && Active(o, i, r)
  {
    var rel, t := o.sections[i].rels[r], o.sections[i].info;
    && |d| == PatchWidth(rel.kind) && rel.sym in addrOf
    && if rel.kind == GOT_BREL then
         Rd32(InFile(o, i, r), 0) == 0 && WordAt(got, addrOf[rel.sym], d)
       else
         NewBytes(rel.kind, InFile(o, i, r), addrOf[rel.sym], (SecAddr(o, bases, t) + rel.offset) % W32,
           IsFunc(o, rel.sym)) == Good(d)
  }

  /** The site holds what the relocation makes of the file, or (not `done`) the file's bytes still. */
  ghost predicate SiteState(o: Object, bases: (u32, u32, u32), addrOf: map<nat, u32>, got: seq<u32>, mem: seq<byte>,
                            i: nat, r: nat, done: bool)
    requires o.Read() && Active(o, i, r)
  {
    if done then exists d :: Made(o, bases, addrOf, got, i, r, d) && AtItsSite(o, i, r, mem, d)
    else AtItsSite(o, i, r, mem, InFile(o, i, r))
  }

  ghost predicate UpTo(o: Object, bases: (u32, u32, u32), addrOf: map<nat, u32>, got: seq<u32>, data: seq<byte>,
                       text: seq<byte>, i: nat, r: nat) {
    o.Read() && forall j: nat, q: nat :: Active(o, j, q) ==>
      SiteState(o, bases, addrOf, got, if o.sections[o.sections[j].info].write then data else text, j, q,
                j < i || (j == i && q < r))
  }

  /** No two relocations patch the same byte. */
  ghost predicate Apart(o: Object) {
    forall i: nat, r: nat, j: nat, q: nat :: Active(o, i, r) && Active(o, j, q) && (i != j || r != q) ==>
      ApartPair(o, i, r, j, q)
  }

  ghost predicate ApartPair(o: Object, i: nat, r: nat, j: nat, q: nat)
    requires Active(o, i, r) && Active(o, j, q)
  {
    var x, y := o.sections[i].rels[r], o.sections[j].rels[q];
    o.sections[i].info == o.sections[j].info ==>
      x.offset + PatchWidth(x.kind) <= y.offset || y.offset + PatchWidth(y.kind) <= x.offset
  }

  ghost predicate Keeps(was: map<nat, u32>, now: map<nat, u32>) {
    forall s :: s in was ==> s in now && now[s] == was[s]
  }

  lemma OneAddress(o: Object, names: seq<seq<byte>>, pool: seq<nat>, bases: (u32, u32, u32), s: nat, a: u32, b: u32)
    requires AddressIs(o, names, pool, bases, s, a) && AddressIs(o, names, pool, bases, s, b)
    ensures a == b
  {
    hide TargetOf, SecAt, VeneerAddress;
  }

  /** Freshly loaded, every site holds the file's bytes. */
  lemma FreshSites(o: Object, bases: (u32, u32, u32), addrOf: map<nat, u32>, got: seq<u32>,
                   heapData: seq<byte>, data: seq<byte>, heapText: seq<byte>, text: seq<byte>)
    requires o.Read() && Contained(o, true, heapData, data, {}) && Contained(o, false, heapText, text, {})
    ensures UpTo(o, bases, addrOf, got, data, text, 0, 0)
  {
    hide SecAt, Contained, GotBytes, Made, Content;
    forall j: nat, q: nat | Active(o, j, q)
      ensures AtItsSite(o, j, q, if o.sections[o.sections[j].info].write then data else text, InFile(o, j, q))
    {
      var t := o.sections[j].info;
      var w := o.sections[t].write;
      var mem := if w then data else text;
      InPlace(o, w, if w then heapData else heapText, mem, t);
      AtTrans(mem, SecAt(o, t), Content(o.sections[t]), o.sections[j].rels[q].offset, InFile(o, j, q));
    }
  }

  /** A step that patches one site moves that site on and leaves the state of the others. */
  lemma OneFurther(o: Object, bases: (u32, u32, u32), addrOf: map<nat, u32>, got: seq<u32>, data: seq<byte>,
                   text: seq<byte>, addrOf': map<nat, u32>, got': seq<u32>, data': seq<byte>, text': seq<byte>, i: nat,
                     r: nat)
    requires UpTo(o, bases, addrOf, got, data, text, i, r) && Apart(o) && Keeps(addrOf, addrOf') && got <= got'
    requires IsSource(o, i) && r < |o.sections[i].rels|
    requires SiteOk(o.sections[i].rels[r].kind, o.sections[i].rels[r].offset, o.sections[o.sections[i].info].size)
    requires OnlySite(o, true, i, r, data, data') && OnlySite(o, false, i, r, text, text')
    requires var w := o.sections[o.sections[i].info].write;
      Relocated(o, o.sections[i].info, o.sections[i].rels[r], bases, addrOf', got', if w then data else text,
        if w then data' else text')
    ensures UpTo(o, bases, addrOf', got', data', text', i, r + 1)
  {
    hide SiteState, OnlySite, Relocated, Apart, Keeps, SiteOk;
    forall j: nat, q: nat | Active(o, j, q)
      ensures SiteState(o, bases, addrOf', got', if o.sections[o.sections[j].info].write then data' else text', j, q,
                        j < i || (j == i && q < r + 1))
    {
      var w := o.sections[o.sections[j].info].write;
      var mem, mem' := if w then data else text, if w then data' else text';
      if j == i && q == r {
        ThisSite(o, bases, addrOf, got, mem, addrOf', got', mem', i, r);
      } else {
        OtherSite(o, bases, addrOf, got, mem, addrOf', got', mem', i, r, w, j, q, j < i || (j == i && q < r));
      }
    }
  }

  lemma ThisSite(o: Object, bases: (u32, u32, u32), addrOf: map<nat, u32>, got: seq<u32>, mem: seq<byte>,
                 addrOf': map<nat, u32>, got': seq<u32>, mem': seq<byte>, i: nat, r: nat)
    requires o.Read() && Active(o, i, r) && SiteState(o, bases, addrOf, got, mem, i, r, false)
    requires Relocated(o, o.sections[i].info, o.sections[i].rels[r], bases, addrOf', got', mem, mem')
    ensures SiteState(o, bases, addrOf', got', mem', i, r, true)
  {
    hide SecAt, Content, NewBytes, Rd32, WordAt, SiteOk;
    var rel, t := o.sections[i].rels[r], o.sections[i].info;
    var at, width := SecAt(o, t) + rel.offset, PatchWidth(rel.kind);
    if rel.kind == GOT_BREL {
      SliceWord(mem, at);
    }
    var d := mem'[at..at + width];
    assert Made(o, bases, addrOf', got', i, r, d) && AtItsSite(o, i, r, mem', d);
  }

  lemma OtherSite(o: Object, bases: (u32, u32, u32), addrOf: map<nat, u32>, got: seq<u32>, mem: seq<byte>,
                  addrOf': map<nat, u32>, got': seq<u32>, mem': seq<byte>, i: nat, r: nat, w: bool, j: nat, q: nat,
                    done: bool)
    requires o.Read() && Active(o, j, q) && w == o.sections[o.sections[j].info].write && (i != j || r != q) && Apart(o)
    requires SiteState(o, bases, addrOf, got, mem, j, q, done) && OnlySite(o, w, i, r, mem, mem') && IsSource(o, i)
    requires SiteOk(o.sections[i].rels[r].kind, o.sections[i].rels[r].offset, o.sections[o.sections[i].info].size)
    requires Keeps(addrOf, addrOf') && got <= got'
    ensures SiteState(o, bases, addrOf', got', mem', j, q, done)
  {
    hide Made, AtItsSite, Apart, OnlySite, Keeps, SiteOk;
    if done {
      var d :| Made(o, bases, addrOf, got, j, q, d) && AtItsSite(o, j, q, mem, d);
      MadeStays(o, bases, addrOf, got, addrOf', got', j, q, d);
      SiteKept(o, i, r, w, j, q, mem, mem', d);
    } else {
      SiteKept(o, i, r, w, j, q, mem, mem', InFile(o, j, q));
    }
  }

  lemma MadeStays(o: Object, bases: (u32, u32, u32), addrOf: map<nat, u32>, got: seq<u32>,
                  addrOf': map<nat, u32>, got': seq<u32>, j: nat, q: nat, d: seq<byte>)
    requires o.Read() && Active(o, j, q) && Made(o, bases, addrOf, got, j, q, d) && Keeps(addrOf, addrOf')
      && got <= got'
    ensures Made(o, bases, addrOf', got', j, q, d) && |d| == PatchWidth(o.sections[j].rels[q].kind)
  {
    hide NewBytes, SecAddr, Content, Rd32, Le32, SiteOk;
  }

  lemma SiteKept(o: Object, i: nat, r: nat, w: bool, j: nat, q: nat, mem: seq<byte>, mem': seq<byte>, d: seq<byte>)
    requires o.Read() && Active(o, j, q) && w == o.sections[o.sections[j].info].write && (i != j || r != q) && Apart(o)
    requires OnlySite(o, w, i, r, mem, mem') && IsSource(o, i)
    requires SiteOk(o.sections[i].rels[r].kind, o.sections[i].rels[r].offset, o.sections[o.sections[i].info].size)
    requires AtItsSite(o, j, q, mem, d) && |d| == PatchWidth(o.sections[j].rels[q].kind)
    ensures AtItsSite(o, j, q, mem', d)
  {
    hide SecAt, GotBytes, BlockSize;
    var t, u := o.sections[j].info, o.sections[i].info;
    var at := SecAt(o, t) + o.sections[j].rels[q].offset;
    InBlock(o, t);
    if Active(o, i, r) {
      assert ApartPair(o, i, r, j, q);
      if o.sections[u].write == w && u != t {
        Disjoint(o, t, u);
      }
    }
    SameSlice(mem, mem', at, at + |d|);
  }

  lemma NextSection(o: Object, bases: (u32, u32, u32), addrOf: map<nat, u32>, got: seq<u32>, data: seq<byte>,
    text: seq<byte>, i: nat)
    requires i < |o.sections|
    ensures UpTo(o, bases, addrOf, got, data, text, i, |o.sections[i].rels|) ==>
      UpTo(o, bases, addrOf, got, data, text, i + 1, 0)
    ensures !IsSource(o, i) && UpTo(o, bases, addrOf, got, data, text, i, 0) ==>
      UpTo(o, bases, addrOf, got, data, text, i + 1, 0)
  {
    hide SiteState, SiteOk;
  }

  /** Relocation sections whose target is loaded, and those targets. */
  ghost function Sources(o: Object): set<nat> {
    set i | 0 <= i < |o.sections| && o.sections[i].kind.Relocs? && o.IsPlaced(o.sections[i].info)
  }

  ghost function Targets(o: Object): set<nat> {
    set i | i in Sources(o) :: o.sections[i].info
  }

  ghost predicate SitesOk(o: Object, names: seq<seq<byte>>, i: nat) {
    && i < |o.sections| && o.sections[i].info < |o.sections|
    && forall q :: 0 <= q < |o.sections[i].rels| ==> Taken(o, names, i, q)
  }

  /** Relocation `q` of section `i` is null, or of a type that is applied, inside its target, with a symbol that
      resolves. */
  predicate Taken(o: Object, names: seq<seq<byte>>, i: nat, q: nat)
    requires i < |o.sections| && o.sections[i].info < |o.sections| && q < |o.sections[i].rels|
  {
    var rel := o.sections[i].rels[q];
    && SiteOk(rel.kind, rel.offset, o.sections[o.sections[i].info].size)
    && (rel.kind == NONE || (Applied(rel.kind) && TargetOf(o, names, rel.sym).Good?))
  }

  lemma ByRefusal(o: Object, names: seq<seq<byte>>, bases: (u32, u32, u32), addrOf: map<nat, u32>, i: nat, r: nat,
                  cur: seq<byte>, e: LoadError)
    requires i < |o.sections| && o.sections[i].info < |o.sections| && r < |o.sections[i].rels|
    requires var rel := o.sections[i].rels[r];
      rel.kind != NONE &&
      if !SiteOk(rel.kind, rel.offset, o.sections[o.sections[i].info].size) then e == ErrRange
      else if TargetOf(o, names, rel.sym).Bad? then e == TargetOf(o, names, rel.sym).error
      else !Applied(rel.kind) && e == ErrUnsupported
    ensures Unfit(o, names, bases, addrOf, i, r, cur, e)
  {
  }

  /** When its turn comes, a site still holds the file's bytes, unless it overlaps another. */
  lemma FoundAt(o: Object, bases: (u32, u32, u32), addrOf: map<nat, u32>, got: seq<u32>, data: seq<byte>,
    text: seq<byte>,
                i: nat, r: nat)
    requires IsSource(o, i) && r < |o.sections[i].rels| && (Apart(o) ==> UpTo(o, bases, addrOf, got, data, text, i, r))
    ensures o.Read() && Apart(o) && Active(o, i, r) ==>
      SiteBytes(o, i, r, if o.sections[o.sections[i].info].write then data else text) == InFile(o, i, r)
  {
    hide SecAt, Content, Apart, SiteOk;
  }

  lemma NoneLeaves(o: Object, t: nat, rel: Rel, bases: (u32, u32, u32), addrOf: map<nat, u32>, got: seq<u32>,
    mem: seq<byte>)
    requires t < |o.sections| && rel.kind == NONE
    ensures Relocated(o, t, rel, bases, addrOf, got, mem, mem)
  {
  }

  lemma ByFormula(o: Object, t: nat, rel: Rel, bases: (u32, u32, u32), addrOf: map<nat, u32>, got: seq<u32>,
                  was: seq<byte>, mid: seq<byte>, d: seq<byte>)
    requires t < |o.sections| && Applied(rel.kind) && |was| == |mid| && Reserved(o, o.sections[t].write) <= SecAt(o, t)
    requires forall x :: Reserved(o, o.sections[t].write) <= x < |was| ==> mid[x] == was[x]
    requires Formula(o, t, rel, bases, addrOf, got, was, d)
    ensures Relocated(o, t, rel, bases, addrOf, got, was, Splice(mid, SecAt(o, t) + rel.offset, d))
  {
    hide SecAt, Splice, GotBytes, NewBytes, Le32, Rd32;
  }

  lemma SliceWord(s: seq<byte>, at: nat)
    requires at + 4 <= |s|
    ensures Rd32(s[at..at + 4], 0) == Rd32(s, at)
  {
  }

  ghost predicate EntryIs(o: Object, bases: (u32, u32, u32), a: u32) {
    exists e :: 0 <= e < |o.syms| && IsMain(o.syms[e]) && (forall j :: 0 <= j < e ==> !IsMain(o.syms[j]))
      && o.IsPlaced(o.syms[e].shndx) && a == EntryAddr(o, bases, e)
  }

  /** No app_main, or the first one is in a section that is not loaded. */
  ghost predicate NoEntry(o: Object) {
    forall e :: 0 <= e < |o.syms| && IsMain(o.syms[e]) && (forall j :: 0 <= j < e ==> !IsMain(o.syms[j])) ==>
      !o.IsPlaced(o.syms[e].shndx)
  }

  /** app_load, sandboxed: lay out, load, relocate, find the entry point. It fails only for what the
      package is (a section that does not fit, a symbol or site that is wrong, no entry), never for a
      table it sized itself; a section that no relocation targets is exactly as in the file. */
  method Load(o: Object, names: seq<seq<byte>>, textBase: u32, dataBase: u32, veneerBase: u32)
    returns (r: Outcome<u32>, img: Image?)
    requires o.Read() && |names| <= W32
    ensures r.Bad? ==> r.error != ErrTable
    ensures r.Bad? && LaidOut(o.sections, GotBytes(o)) ==>
      img != null && ((r.error == ErrNoEntry && NoEntry(o)) || exists i :: img.Blames(i, r.error))
    ensures (r.Bad? && r.error == ErrBadSection) <==> !LaidOut(o.sections, GotBytes(o))
    ensures img == null ==> r.Bad?
    ensures img != null ==> fresh(img) && img.Valid() && img.o == o && img.names == names
    ensures img != null ==>
      img.touched <= Targets(o) && img.Unpatched() && img.Bases() == (textBase, dataBase, veneerBase)
    ensures r.Good? ==>
      img != null && (forall i :: i in Sources(o) ==> SitesOk(o, names, i)) && EntryIs(o, img.Bases(), r.value)
    ensures r.Good? && Apart(o) ==> img.Progress(|o.sections|, 0)
  {
    hide Image.Valid, Image.Unpatched, Image.Progress, LaidOut, GotBytes, Targets, Sources, SitesOk, SecAt, Apart;
    img := null;
    var l, _ := Layout(o.sections, GotBytes(o));
    if l.Bad? {
      return Bad(ErrBadSection), null;
    }
    img := new Image(o, names, textBase, dataBase, veneerBase);
    img.LoadSections();
    var a := img.ApplyAll();
    if a.Bad? {
      return Bad(a.error), img;
    }
    var e := FindMain(o);
    r := if e < |o.syms| && o.IsPlaced(o.syms[e].shndx) then Good(EntryAddr(o, img.Bases(), e)) else Bad(ErrNoEntry);
  }

  /** The first defined app_main, if any. */
  method FindMain(o: Object) returns (e: nat)
    ensures e <= |o.syms| && (e < |o.syms| ==> IsMain(o.syms[e])) && forall j :: 0 <= j < e ==> !IsMain(o.syms[j])
  {
    e := 0;
    while e < |o.syms| && !IsMain(o.syms[e])
      invariant e <= |o.syms| && forall j :: 0 <= j < e ==> !IsMain(o.syms[j])
    {
      e := e + 1;
    }
  }

  predicate IsMain(s: Sym) {
    s.shndx != SHN_UNDEF && s.name == PicInstall.APP_MAIN
  }

  /** The address of symbol `e` with the Thumb bit. */
  function EntryAddr(o: Object, bases: (u32, u32, u32), e: nat): u32
    requires e < |o.syms| && o.IsPlaced(o.syms[e].shndx)
  {
    (SecAddr(o, bases, o.syms[e].shndx) + o.syms[e].value) % W32 / 2 * 2 + 1
  }


  /** The address of section `i` once the blocks are at `bases`. */
  function SecAddr(o: Object, bases: (u32, u32, u32), i: nat): int
    requires i < |o.sections|
  {
    (if o.sections[i].write then bases.1 else bases.0) + SecAt(o, i)
  }

  /** Where the `k`-th veneer is, behind the three gates, with the Thumb bit. */
  function VeneerAddress(base: u32, k: nat): u32 {
    (base + GATES + VENEER * k) % W32 / 2 * 2 + 1
  }

  /** Symbol `s` resolves to `a` when the blocks and the pool are at `bases`. */
  ghost predicate AddressIs(o: Object, names: seq<seq<byte>>, pool: seq<nat>, bases: (u32, u32, u32), s: nat, a: u32) {
    var t := TargetOf(o, names, s);
    && t.Good? && Known(t.value, pool)
    && (t.value.Within? ==>
      t.value.section < |o.sections| && a == (SecAddr(o, bases, t.value.section) + t.value.value) % W32)
    && (t.value.Absolute? ==> a == t.value.addr)
    && (t.value.Firmware? ==> a == VeneerAddress(bases.2, PosOf(pool, t.value.index)))
  }

  lemma AddressStays(o: Object, names: seq<seq<byte>>, was: seq<nat>, pool: seq<nat>, bases: (u32, u32, u32), s: nat,
    a: u32)
    requires AddressIs(o, names, was, bases, s, a) && was <= pool
    ensures AddressIs(o, names, pool, bases, s, a)
  {
    hide TargetOf, SecAt, VeneerAddress;
    var t := TargetOf(o, names, s).value;
    if t.Firmware? {
      PosStable(was, pool, t.index);
    }
  }

  /** Every veneer lies inside the block reserved for it, with room left for one more, and clear of the others. */
  lemma VeneersContained(o: Object, names: seq<seq<byte>>, pool: seq<nat>, syms: seq<nat>, k: nat)
    requires PoolOk(o, names, pool, syms) && k < |pool|
    ensures GATES + VENEER * k + 2 * VENEER <= RoundUp(VENEER * VeneerCap(o, names) + GATES, BLOCK)
    ensures forall j: nat :: j < |pool| && j != k ==>
      GATES + VENEER * j + VENEER <= GATES + VENEER * k || GATES + VENEER * k + VENEER <= GATES + VENEER * j
  {
    hide VeneerCap, RoundUp;
    PoolFits(o, names, pool, syms);
  }

  /** Where this load put things, in the terms the two-stage loader is judged by. */
  function PlacementOf(o: Object, pool: seq<nat>, bases: (u32, u32, u32)): (p: Placement)
    ensures |p.addr| == |o.sections| && p.veneers.Keys == set ix | ix in pool
  {
    Placement(seq(|o.sections|, i requires 0 <= i < |o.sections| => SecAddr(o, bases, i) % W32),
              map ix | ix in pool :: (bases.2 + GATES + VENEER * PosOf(pool, ix)) % W32)
  }

  /** The address a symbol resolves to is the one its target has under that placement. */
  lemma ResolvesAs(o: Object, names: seq<seq<byte>>, pool: seq<nat>, bases: (u32, u32, u32), s: nat, a: u32)
    requires AddressIs(o, names, pool, bases, s, a)
    ensures a == Address(TargetOf(o, names, s).value, PlacementOf(o, pool, bases))
  {
    hide TargetOf, SecAt, PosOf;
    var t := TargetOf(o, names, s).value;
    if t.Within? {
      SumWraps(SecAddr(o, bases, t.section), t.value);
    }
  }

  lemma SumWraps(x: int, v: u32)
    ensures (x % W32 + v) % W32 == (x + v) % W32
  {
  }
}

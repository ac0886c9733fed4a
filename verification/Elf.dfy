/** A relocatable ARM object as the loader sees it once its tables have been read: sections,
    symbols, relocations; and what a relocation's symbol names. */
module Elf {
  import opened Bytes

  // Relocation types of "ELF for the Arm Architecture" that the loader knows.
  const NONE := 0
  const ABS32 := 2
  const REL32 := 3
  const THM_CALL := 10
  const ABS16 := 16
  const ABS8 := 17
  const GOT_BREL := 26
  const THM_JUMP24 := 30
  const TARGET1 := 38
  const PREL31 := 42
  const THM_MOVW_ABS_NC := 47
  const THM_MOVT_ABS := 48

  const SHN_UNDEF := 0
  const SHN_ABS := 0xfff1

  datatype SectionKind = ProgBits | NoBits | Relocs | Other

  datatype Rel = Rel(offset: u32, kind: byte, sym: nat)

  /** `bytes` is the file content of a section that has one; `rels` that of a relocation section,
      whose `info` names the section it patches. */
  datatype Section = Section(kind: SectionKind, alloc: bool, write: bool, exec: bool, size: u32, align: u32,
                             info: nat, bytes: seq<byte>, rels: seq<Rel>)
  {
    predicate Placed() {
      alloc && size != 0
    }
  }

  datatype Sym = Sym(shndx: u16, value: u32, isFunc: bool, name: seq<byte>)

  datatype Object = Object(sections: seq<Section>, syms: seq<Sym>)
  {
    /** What reading the tables establishes: every section the loader copies is wholly in the file. */
    ghost predicate Read() {
      forall s :: s in sections && s.Placed() && !s.kind.NoBits? ==> |s.bytes| == s.size
    }

    predicate IsPlaced(i: nat) {
      i < |sections| && sections[i].Placed()
    }
  }

  datatype LoadError = ErrRead | ErrUndefSymbol | ErrUnsupported | ErrRange | ErrBadSection | ErrNoEntry | ErrTable
  datatype Outcome<T> = Good(value: T) | Bad(error: LoadError)

  // ----- what a symbol names

  /** A symbol's meaning before any address is known: an entry of the firmware's export table, a
      fixed address, or a place in a section. */
  datatype Target = Firmware(index: nat) | Absolute(addr: u32) | Within(section: nat, value: u32)

  /** Position of the first entry called `name`, or -1 (api_index_of). */
  function IndexOf(names: seq<seq<byte>>, name: seq<byte>): (ix: int)
    ensures ix == -1 || 0 <= ix < |names|
    ensures ix == -1 ==> name !in names
    ensures ix >= 0 ==> names[ix] == name && name !in names[..ix]
  {
    FirstFrom(names, name, 0)
  }

  function FirstFrom(names: seq<seq<byte>>, name: seq<byte>, i: nat): (ix: int)
    requires i <= |names| && name !in names[..i]
    ensures ix == -1 || i <= ix < |names|
    ensures ix == -1 ==> name !in names
    ensures ix >= 0 ==> names[ix] == name && name !in names[..ix]
    decreases |names| - i
  {
    if i == |names| then assert names[..i] == names; -1
    else if names[i] == name then i
    else assert names[..i + 1] == names[..i] + [names[i]]; FirstFrom(names, name, i + 1)
  }

  function TargetOf(o: Object, names: seq<seq<byte>>, idx: nat): Outcome<Target> {
    if idx >= |o.syms| then Bad(ErrRead) else
    var s := o.syms[idx];
    if s.shndx == SHN_UNDEF then
      var ix := IndexOf(names, s.name);
      if ix < 0 then Bad(ErrUndefSymbol) else Good(Firmware(ix))
    else if s.shndx == SHN_ABS then Good(Absolute(s.value))
    else if !o.IsPlaced(s.shndx) then Bad(ErrUndefSymbol)
    else Good(Within(s.shndx, s.value))
  }

  lemma TargetInRange(o: Object, names: seq<seq<byte>>, idx: nat)
    requires TargetOf(o, names, idx).Good?
    ensures var t := TargetOf(o, names, idx).value;
      && idx < |o.syms| && (t.Within? ==> o.IsPlaced(t.section))
      && (t.Firmware? ==> t.index < |names| && names[t.index] == o.syms[idx].name && IsFunc(o, idx))
  {
  }

  /** Everything the firmware exports is code, whatever the object says. */
  function IsFunc(o: Object, idx: nat): bool {
    idx < |o.syms| && (o.syms[idx].shndx == SHN_UNDEF || o.syms[idx].isFunc)
  }

  /** Where the sections and the veneers of a loaded package are. */
  datatype Placement = Placement(addr: seq<u32>, veneers: map<nat, u32>)

  /** The address app_load's resolve gives a target: section base plus value, an absolute symbol
      verbatim, and a firmware symbol as its veneer with the Thumb bit set. */
  function Address(t: Target, p: Placement): u32
    requires t.Within? ==> t.section < |p.addr|
    requires t.Firmware? ==> t.index in p.veneers
  {
    match t
    case Firmware(ix) => p.veneers[ix] / 2 * 2 + 1
    case Absolute(a) => a
    case Within(s, v) => (p.addr[s] + v) % W32
  }

  // ----- where a patch may land

  function PatchWidth(kind: byte): nat {
    if kind == ABS8 then 1 else if kind == ABS16 then 2 else 4
  }

  predicate Applied(kind: byte) {
    kind in {ABS32, TARGET1, REL32, GOT_BREL, PREL31, ABS16, ABS8, THM_MOVW_ABS_NC, THM_MOVT_ABS, THM_CALL, THM_JUMP24}
  }

  predicate OnEven(kind: byte) {
    kind in {ABS16, THM_MOVW_ABS_NC, THM_MOVT_ABS, THM_CALL, THM_JUMP24}
  }

  predicate IsBranch(kind: byte) {
    kind == THM_CALL || kind == THM_JUMP24
  }

  /** reloc_site_ok: the patch stays inside its own section, on an even offset where one is needed.
      A type the loader does not apply is left for the switch to refuse. */
  predicate SiteOk(kind: byte, offset: u32, size: u32) {
    Applied(kind) ==> (OnEven(kind) ==> offset % 2 == 0) && offset + PatchWidth(kind) <= size
  }
}

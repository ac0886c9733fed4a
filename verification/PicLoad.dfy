/** app_pic_load: build the writable half of an installed package at an address known only now. */
module PicLoad {
  import opened Bytes
  import opened Manifest
  import opened Elf
  import opened ElfLayout
  import SlotFormat

  datatype Bases = Bases(slot: u32, ram: u32)

  function BaseOf(b: Bases, cls: PicClass): u32 {
    match cls case Slot => b.slot case Ram => b.ram case Abs => 0
  }

  function Pointer(b: Bases, cls: PicClass, value: u32): u32 {
    (BaseOf(b, cls) + value) % W32
  }

  /** The manifest describes a block it fits in. */
  ghost predicate Buildable(m: PicManifest) {
    && m.Consistent() && 4 * |m.got| <= m.ext.ramSize && m.ext.dataOff + m.ext.dataSize <= m.ext.ramSize
    && forall k :: 0 <= k < |m.abs| ==> m.abs[k].site + 4 <= m.ext.ramSize
  }

  /** Zeros with the initialisers copied in. */
  function Initial(m: PicManifest): (ram: seq<byte>)
    requires Buildable(m)
    ensures |ram| == m.ext.ramSize
  {
    Splice(seq(m.ext.ramSize, _ => 0), m.ext.dataOff, m.dataInit)
  }

  /** The first `n` GOT words filled in. */
  function WithGot(m: PicManifest, b: Bases, n: nat): (ram: seq<byte>)
    requires Buildable(m) && n <= |m.got|
    ensures |ram| == m.ext.ramSize
  {
    if n == 0 then Initial(m)
    else Splice(WithGot(m, b, n - 1), 4 * (n - 1), Le32(Pointer(b, m.got[n - 1].cls, m.got[n - 1].value)))
  }

  /** `*p += v`, on a word of any alignment. */
  function AddWord(ram: seq<byte>, site: nat, v: u32): (r: seq<byte>)
    requires site + 4 <= |ram|
    ensures |r| == |ram|
  {
    Splice(ram, site, Le32((Rd32(ram, site) + v) % W32))
  }

  /** And the first `n` pointers fixed up. */
  function WithAbs(m: PicManifest, b: Bases, n: nat): (ram: seq<byte>)
    requires Buildable(m) && n <= |m.abs|
    ensures |ram| == m.ext.ramSize
  {
    if n == 0 then WithGot(m, b, |m.got|)
    else AddWord(WithAbs(m, b, n - 1), m.abs[n - 1].site, Pointer(b, m.abs[n - 1].cls, m.abs[n - 1].value))
  }

  method FillGot(m: PicManifest, b: Bases, ram: array<byte>)
    requires Buildable(m) && ram[..] == Initial(m)
    modifies ram
    ensures ram[..] == WithGot(m, b, |m.got|)
  {
    hide Splice, Le32, Pointer, Initial;
    GotStart(m, b);
    for k := 0 to |m.got|
      invariant ram[..] == WithGot(m, b, k)
    {
      Store(ram, 4 * k, Le32(Pointer(b, m.got[k].cls, m.got[k].value)));
    }
  }

  method FixPointers(m: PicManifest, b: Bases, ram: array<byte>)
    requires Buildable(m) && ram[..] == WithGot(m, b, |m.got|)
    modifies ram
    ensures ram[..] == WithAbs(m, b, |m.abs|)
  {
    hide Splice, Le32, Rd32, Pointer, WithGot;
    for k := 0 to |m.abs|
      invariant ram[..] == WithAbs(m, b, k)
    {
      var v := (Rd32(ram[..], m.abs[k].site) + Pointer(b, m.abs[k].cls, m.abs[k].value)) % W32;
      Store(ram, m.abs[k].site, Le32(v));
    }
  }

  lemma GotStart(m: PicManifest, b: Bases)
    requires Buildable(m)
    ensures WithGot(m, b, 0) == Initial(m)
  {
  }

  datatype LoadFailure = ApiMismatch | SlotAlign
  datatype Loaded = Loaded(ram: array<byte>, entry: u32, r9: u32) | Refused(why: LoadFailure)

  /** Initialisers first, the GOT, then every pointer exactly once. */
  method Load(m: PicManifest, b: Bases, api: SlotFormat.Api) returns (res: Loaded)
    requires Buildable(m)
    ensures res.Refused? <==> m.ext.apiMajor != api.major || m.ext.apiMinor > api.minor || b.slot % BLOCK != 0
    ensures res.Loaded? ==> fresh(res.ram) && res.ram[..] == WithAbs(m, b, |m.abs|)
    ensures res.Loaded? ==> res.entry == (b.slot + m.ext.entryOff) % W32 / 2 * 2 + 1 && res.r9 == b.ram
  {
    hide Splice, WithGot, WithAbs;
    if m.ext.apiMajor != api.major || m.ext.apiMinor > api.minor {
      return Refused(ApiMismatch);
    }
    if b.slot % BLOCK != 0 {
      return Refused(SlotAlign);
    }
    var ram := new byte[m.ext.ramSize](_ => 0);
    Store(ram, m.ext.dataOff, m.dataInit);
    assert ram[..] == Splice(seq(m.ext.ramSize, _ => 0), m.ext.dataOff, m.dataInit);
    FillGot(m, b, ram);
    FixPointers(m, b, ram);
    res := Loaded(ram, (b.slot + m.ext.entryOff) % W32 / 2 * 2 + 1, b.ram);
  }

  /** GOT words survive everything the loader does after writing them. */
  lemma {:induction false} GotWordHeld(m: PicManifest, b: Bases, k: nat, n: nat)
    requires Buildable(m) && k < n <= |m.got|
    ensures At(WithGot(m, b, n), 4 * k, Le32(Pointer(b, m.got[k].cls, m.got[k].value)))
  {
    hide Le32, Pointer;
    if k < n - 1 {
      GotWordHeld(m, b, k, n - 1);
      var w := Le32(Pointer(b, m.got[n - 1].cls, m.got[n - 1].value));
      SpliceMiss(WithGot(m, b, n - 1), 4 * (n - 1), w, 4 * k, 4 * k + 4);
    }
  }

  /** A fixup elsewhere leaves a run of bytes alone. */
  lemma {:induction false} AbsLeaves(m: PicManifest, b: Bases, n: nat, lo: nat, hi: nat)
    requires Buildable(m) && n <= |m.abs| && lo <= hi <= m.ext.ramSize
    requires forall k :: 0 <= k < n ==> m.abs[k].site + 4 <= lo || hi <= m.abs[k].site
    ensures WithAbs(m, b, n)[lo..hi] == WithGot(m, b, |m.got|)[lo..hi]
  {
    hide Le32, Pointer, Rd32, WithGot, Splice;
    if n > 0 {
      AbsLeaves(m, b, n - 1, lo, hi);
      var a := m.abs[n - 1];
      var prev := WithAbs(m, b, n - 1);
      SpliceMiss(prev, a.site, Le32((Rd32(prev, a.site) + Pointer(b, a.cls, a.value)) % W32), lo, hi);
    }
  }

  /** Filling the GOT in changes nothing beyond it. */
  lemma {:induction false} GotLeaves(m: PicManifest, b: Bases, n: nat, lo: nat, hi: nat)
    requires Buildable(m) && n <= |m.got| && 4 * n <= lo <= hi <= m.ext.ramSize
    ensures WithGot(m, b, n)[lo..hi] == Initial(m)[lo..hi]
  {
    hide Le32, Pointer, Initial, Splice;
    if n > 0 {
      GotLeaves(m, b, n - 1, lo, hi);
      SpliceMiss(WithGot(m, b, n - 1), 4 * (n - 1), Le32(Pointer(b, m.got[n - 1].cls, m.got[n - 1].value)), lo, hi);
    }
  }
}

/** Where a FAT12 volume keeps things, and its three parts read off the sectors: the table, the root
    directory, the clusters. */
module FatVolume {
  import opened Bytes
  import opened Sectors
  import PackedTable
  import opened FatChains
  import opened FatNames

  const MAX_CLUSTERS := 4084
  const PER := 16

  datatype Geo = Geo(reserved: nat, numFats: nat, rootEntries: nat, spc: nat, fatSectors: nat, clusters: nat)
  {
    function FirstFat(): nat {
      reserved
    }

    function FirstRoot(): nat {
      reserved + fatSectors * numFats
    }

    function RootSectors(): nat {
      (rootEntries * 32 + SECTOR - 1) / SECTOR
    }

    function FirstData(): nat {
      FirstRoot() + RootSectors()
    }

    /** The first sector of cluster `c`. */
    function ClusterAt(c: nat): nat
      requires 2 <= c
    {
      FirstData() + (c - 2) * spc
    }

    /** The volume fits a device of `n` sectors, and the table has an entry for every cluster. The root
        directory fills whole sectors, as the format requires. */
    ghost predicate Ok(n: nat) {
      && 1 <= reserved && 1 <= numFats && 1 <= spc < 256 && 1 <= fatSectors && 1 <= clusters <= MAX_CLUSTERS
      && PackedTable.TableBytes(clusters + 2) <= SECTOR * fatSectors && rootEntries < 0x1_0000 && rootEntries % PER == 0
      && FirstData() + clusters * spc <= n
    }

    /** A cluster number the table has an entry for. */
    predicate Has(c: nat) {
      2 <= c < clusters + 2
    }
  }

  /** The parts of a volume follow one another without overlap. */
  lemma Layout(g: Geo, n: nat)
    requires g.Ok(n)
    ensures g.FirstFat() + g.fatSectors <= g.FirstRoot() && g.FirstRoot() + g.RootSectors() == g.FirstData() <= n
    ensures g.RootSectors() * PER == g.rootEntries
  {
    Before(0, g.numFats, g.fatSectors);
    var k := g.rootEntries / PER;
    assert g.rootEntries == PER * k;
    Digits(k, SECTOR, SECTOR - 1);
  }

  lemma Before(a: nat, b: nat, s: nat)
    requires a < b
    ensures 0 <= a * s && a * s + s <= b * s
  {
    var k := b - a - 1;
    assert b * s == a * s + s + k * s;
    assert 0 <= k * s;
  }

  lemma ClusterIn(g: Geo, n: nat, c: nat)
    requires g.Ok(n) && g.Has(c)
    ensures g.FirstData() <= g.ClusterAt(c) && g.ClusterAt(c) + g.spc <= n
  {
    Before(c - 2, g.clusters, g.spc);
  }

  lemma ClustersApart(g: Geo, c: nat, d: nat)
    requires 2 <= c < d
    ensures g.ClusterAt(c) + g.spc <= g.ClusterAt(d)
  {
    Before(c - 2, d - 2, g.spc);
  }

  // ----- the table

  function FatOf(g: Geo, secs: seq<Sector>): (b: seq<byte>)
    requires g.Ok(|secs|)
    ensures |b| == SECTOR * g.fatSectors
  {
    Layout(g, |secs|);
    Region(secs, g.FirstFat(), g.fatSectors)
  }

  function TableOf(g: Geo, secs: seq<Sector>): (t: Table)
    requires g.Ok(|secs|)
    ensures |t| == g.clusters + 2
  {
    PackedTable.Table(FatOf(g, secs), g.clusters + 2)
  }

  /** What fat_get answers for any number on any device: an entry off the end of it reads as the end of
      a chain. */
  function RawGet(g: Geo, secs: seq<Sector>, c: nat): PackedTable.u12 {
    var at := PackedTable.At12(c);
    if g.FirstFat() + (at + 1) / SECTOR < |secs| then
      PackedTable.Unpack(c, secs[g.FirstFat() + at / SECTOR][at % SECTOR],
        secs[g.FirstFat() + (at + 1) / SECTOR][(at + 1) % SECTOR])
    else EOC
  }

  /** On a proper volume that is the table's entry. */
  lemma RawIsTable(g: Geo, secs: seq<Sector>, c: nat)
    requires g.Ok(|secs|) && c < g.clusters + 2
    ensures RawGet(g, secs, c) == TableOf(g, secs)[c]
  {
    Layout(g, |secs|);
    var at := PackedTable.At12(c);
    assert at + 1 < SECTOR * g.fatSectors;
    assert (at + 1) / SECTOR < g.fatSectors;
    hide PackedTable.Unpack;
  }

  // ----- the root directory

  /** A buffer cut into 32-byte slots. */
  function Slots(b: seq<byte>): (d: seq<Slot>)
    ensures |d| == |b| / 32
    ensures forall i :: 0 <= i < |d| ==> d[i] == b[32 * i..32 * i + 32]
  {
    seq(|b| / 32, i requires 0 <= i < |b| / 32 => b[32 * i..32 * i + 32])
  }

  lemma SlotsSplice(b: seq<byte>, s: nat, e: Slot)
    requires 32 * s + 32 <= |b|
    ensures Slots(Splice(b, 32 * s, e)) == Slots(b)[s := e]
  {
    hide Splice, Slots;
    var now := Splice(b, 32 * s, e);
    forall i | 0 <= i < |b| / 32
      ensures Slots(now)[i] == Slots(b)[s := e][i]
    {
      if i != s {
        SpliceMiss(b, 32 * s, e, 32 * i, 32 * i + 32);
      }
    }
  }

  function DirOf(g: Geo, secs: seq<Sector>): (d: seq<Slot>)
    requires g.Ok(|secs|)
    ensures |d| == g.rootEntries
  {
    Layout(g, |secs|);
    Slots(Region(secs, g.FirstRoot(), g.RootSectors()))
  }

  // ----- the clusters

  /** Bytes in a cluster. */
  function Bpc(g: Geo): nat {
    SECTOR * g.spc
  }

  function ClusterOf(g: Geo, secs: seq<Sector>, c: nat): (b: seq<byte>)
    requires g.Ok(|secs|) && g.Has(c)
    ensures |b| == Bpc(g)
  {
    ClusterIn(g, |secs|, c);
    Region(secs, g.ClusterAt(c), g.spc)
  }

  /** The bytes of a chain of clusters. */
  function DataOf(g: Geo, secs: seq<Sector>, cs: seq<nat>): (b: seq<byte>)
    requires g.Ok(|secs|) && forall i :: 0 <= i < |cs| ==> g.Has(cs[i])
    ensures |b| == |cs| * Bpc(g)
  {
    if cs == [] then [] else
    var init := cs[..|cs| - 1];
    assert |cs| * Bpc(g) == |init| * Bpc(g) + Bpc(g);
    DataOf(g, secs, init) + ClusterOf(g, secs, cs[|cs| - 1])
  }

  // ----- what a write elsewhere leaves alone

  /** The devices differ only in sectors `[lo, hi)`. */
  ghost predicate Elsewhere(a: seq<Sector>, b: seq<Sector>, lo: nat, hi: nat) {
    |a| == |b| && forall j :: 0 <= j < |a| && !(lo <= j < hi) ==> a[j] == b[j]
  }

  lemma TableKept(g: Geo, a: seq<Sector>, b: seq<Sector>)
    requires g.Ok(|a|) && Elsewhere(a, b, g.FirstRoot(), |a|)
    ensures TableOf(g, a) == TableOf(g, b)
  {
    Layout(g, |a|);
    RegionSame(a, b, g.FirstFat(), g.fatSectors);
  }

  lemma DirKept(g: Geo, a: seq<Sector>, b: seq<Sector>)
    requires g.Ok(|a|) && |a| == |b|
    requires forall j :: g.FirstRoot() <= j < g.FirstData() ==> a[j] == b[j]
    ensures DirOf(g, a) == DirOf(g, b)
  {
    Layout(g, |a|);
    RegionSame(a, b, g.FirstRoot(), g.RootSectors());
  }

  lemma ClusterKept(g: Geo, a: seq<Sector>, b: seq<Sector>, c: nat)
    requires g.Ok(|a|) && |a| == |b| && g.Has(c)
    requires forall j :: g.ClusterAt(c) <= j < g.ClusterAt(c) + g.spc ==> 0 <= j < |a| && a[j] == b[j]
    ensures ClusterOf(g, a, c) == ClusterOf(g, b, c)
  {
    ClusterIn(g, |a|, c);
    RegionSame(a, b, g.ClusterAt(c), g.spc);
  }

  lemma {:induction false} DataKept(g: Geo, a: seq<Sector>, b: seq<Sector>, cs: seq<nat>)
    requires g.Ok(|a|) && |a| == |b| && forall i :: 0 <= i < |cs| ==> g.Has(cs[i])
    requires forall i :: 0 <= i < |cs| ==> ClusterOf(g, a, cs[i]) == ClusterOf(g, b, cs[i])
    ensures DataOf(g, a, cs) == DataOf(g, b, cs)
  {
    hide ClusterOf;
    if cs != [] {
      DataKept(g, a, b, cs[..|cs| - 1]);
    }
  }
}

/** What the read-only reader's links and streams are, in terms of the FAT format: entries of the three widths as
    they are stored, files as the clusters of their chain, and on a FAT12 volume the very files f12 keeps. */
module FatRoChain {
  import opened Bytes
  import opened Sectors
  import opened FatRo
  import PackedTable
  import FatChains
  import FatVolume
  import FatState
  import FatDir
  import FatRead

  // ----- entries

  /** The table's bytes: `n` whole sectors of the device. */
  function TableBytes(g: Ro, dev: seq<Sector>, n: nat): (b: seq<byte>)
    requires g.firstFat + n <= |dev|
    ensures |b| == SECTOR * n
  {
    Region(dev, g.firstFat, n)
  }

  /** The reader finds byte `off` of the table in its sector. */
  lemma ByteAt(g: Ro, dev: seq<Sector>, n: nat, off: nat)
    requires g.firstFat + n <= |dev| <= W32 && off < SECTOR * n && off < W32
    ensures TableByte(g, dev, off) == Some(TableBytes(g, dev, n)[off])
  {
    hide Region;
    assert off / SECTOR < n;
    Unwrapped(g.firstFat + off / SECTOR);
  }

  /** On FAT12 a link is the packed entry, with every end mark read as zero. */
  lemma Next12(g: Ro, dev: seq<Sector>, n: nat, c: u32)
    requires g.kind.Fat12? && g.Valid(c) && g.firstFat + n <= |dev| <= W32 && SECTOR * n <= W32
    requires PackedTable.TableBytes(g.clusters + 2) <= SECTOR * n
    ensures var v := PackedTable.Table(TableBytes(g, dev, n), g.clusters + 2)[c];
      Next(g, dev, c) == if v >= FatChains.END then 0 else v
  {
    hide Region, TableByte;
    var at := PackedTable.At12(c);
    assert at + 1 < SECTOR * n;
    ByteAt(g, dev, n, at);
    ByteAt(g, dev, n, at + 1);
    Unwrapped(at);
    Unwrapped(at + 1);
    Twelve(c, TableBytes(g, dev, n)[at], TableBytes(g, dev, n)[at + 1]);
  }

  lemma Twelve(c: u32, b0: byte, b1: byte)
    ensures EntryValue(Fat12, c, b0, b1, 0, 0) == PackedTable.Unpack(c, b0, b1)
  {
  }

  /** On FAT16 it is the two bytes at twice the number, least significant first. */
  lemma Next16(g: Ro, dev: seq<Sector>, n: nat, c: u32, v: u16)
    requires g.kind.Fat16? && g.Valid(c) && g.firstFat + n <= |dev| <= W32 && SECTOR * n <= W32
    requires At(TableBytes(g, dev, n), 2 * c, Le16(v))
    ensures Next(g, dev, c) == if v >= 0xFFF8 then 0 else v
  {
    hide Region, TableByte, Le16;
    var b := TableBytes(g, dev, n);
    ByteAt(g, dev, n, 2 * c);
    ByteAt(g, dev, n, 2 * c + 1);
    Unwrapped(2 * c);
    Unwrapped(2 * c + 1);
    ReadBack16(v, b, 2 * c);
  }

  /** On FAT32 it is the low 28 bits of the four bytes at four times the number. */
  lemma Next32(g: Ro, dev: seq<Sector>, n: nat, c: u32, v: u32)
    requires g.kind.Fat32? && g.Valid(c) && g.firstFat + n <= |dev| <= W32 && SECTOR * n <= W32
    requires At(TableBytes(g, dev, n), 4 * c, Le32(v))
    ensures var low := v % 0x1000_0000; Next(g, dev, c) == if low >= 0xFFF_FFF8 then 0 else low
  {
    hide Region, TableByte, Le32;
    var b := TableBytes(g, dev, n);
    ByteAt(g, dev, n, 4 * c);
    ByteAt(g, dev, n, 4 * c + 1);
    ByteAt(g, dev, n, 4 * c + 2);
    ByteAt(g, dev, n, 4 * c + 3);
    Unwrapped(4 * c);
    Unwrapped(4 * c + 1);
    Unwrapped(4 * c + 2);
    Unwrapped(4 * c + 3);
    ReadBack32(v, b, 4 * c);
  }

  // ----- chains

  /** The clusters are on the device, all of them below sector 2^32. */
  ghost predicate OnDevice(g: Ro, dev: seq<Sector>) {
    0 < g.spc && g.firstData + g.clusters * g.spc <= |dev| <= W32
  }

  /** `cs` is linked head to tail, and after it comes no cluster. */
  ghost predicate Chain(g: Ro, dev: seq<Sector>, cs: seq<u32>) {
    && (forall i :: 0 <= i < |cs| ==> g.Valid(cs[i]))
    && (forall i :: 0 <= i < |cs| ==> Link(g, dev, cs, i))
  }

  ghost predicate Link(g: Ro, dev: seq<Sector>, cs: seq<u32>, i: nat)
    requires i < |cs|
  {
    var n := Next(g, dev, cs[i]);
    if i + 1 < |cs| then n == cs[i + 1] else !g.Valid(n)
  }

  lemma ClusterFits(g: Ro, dev: seq<Sector>, c: u32)
    requires OnDevice(g, dev) && g.Valid(c)
    ensures g.firstData + (c - 2) * g.spc + g.spc <= |dev| && 0 <= (c - 2) * g.spc
  {
    FatVolume.Before(c - 2, g.clusters, g.spc);
  }

  /** Cluster two is the first behind `firstData`, the others follow it. */
  function ClusterBytes(g: Ro, dev: seq<Sector>, c: u32): (b: seq<byte>)
    requires OnDevice(g, dev) && g.Valid(c)
    ensures |b| == g.ClusterBytes()
  {
    ClusterFits(g, dev, c);
    Region(dev, g.firstData + (c - 2) * g.spc, g.spc)
  }

  /** The clusters of a chain, one after another. */
  function Data(g: Ro, dev: seq<Sector>, cs: seq<u32>): (b: seq<byte>)
    requires OnDevice(g, dev) && forall i :: 0 <= i < |cs| ==> g.Valid(cs[i])
    ensures |b| == |cs| * g.ClusterBytes()
  {
    if cs == [] then [] else
    Longer(|cs| - 1, g.ClusterBytes());
    ClusterBytes(g, dev, cs[0]) + Data(g, dev, cs[1..])
  }

  lemma Longer(n: nat, b: nat)
    ensures (n + 1) * b == b + n * b
  {
  }

  lemma {:induction false} DataDrop(g: Ro, dev: seq<Sector>, cs: seq<u32>, k: nat)
    requires OnDevice(g, dev) && (forall i :: 0 <= i < |cs| ==> g.Valid(cs[i])) && k <= |cs|
    ensures k * g.ClusterBytes() <= |Data(g, dev, cs)|
    ensures Data(g, dev, cs)[k * g.ClusterBytes()..] == Data(g, dev, cs[k..])
  {
    hide ClusterBytes, Ro.ClusterBytes;
    if k == 0 {
      assert cs[0..] == cs;
    } else {
      Longer(k - 1, g.ClusterBytes());
      Longer(|cs| - 1, g.ClusterBytes());
      DataDrop(g, dev, cs[1..], k - 1);
      assert cs[1..][k - 1..] == cs[k..];
      var b, rest := g.ClusterBytes(), Data(g, dev, cs[1..]);
      assert Data(g, dev, cs) == ClusterBytes(g, dev, cs[0]) + rest;
      assert Data(g, dev, cs)[b + (k - 1) * b..] == rest[(k - 1) * b..];
    }
  }

  lemma SectorIn(g: Ro, dev: seq<Sector>, c: u32, within: nat, n: nat)
    requires OnDevice(g, dev) && g.Valid(c) && within < g.ClusterBytes() && within % SECTOR + n <= SECTOR
    ensures InReach(g, dev, c, within) && within + n <= g.ClusterBytes()
    ensures ClusterBytes(g, dev, c)[within..within + n]
      == dev[Lba(g, c, within)][within % SECTOR..within % SECTOR + n]
  {
    hide Region;
    ClusterFits(g, dev, c);
    var lo := g.firstData + (c - 2) * g.spc;
    var lba := lo + within / SECTOR;
    assert within / SECTOR < g.spc;
    Unwrapped(lba);
    RegionSlice(dev, lo, g.spc, lba, within % SECTOR, n);
    assert within == SECTOR * (lba - lo) + within % SECTOR;
  }

  /** On a chain the copying loop yields the chain's data from where it starts, as much as is wanted. */
  lemma {:induction false} StreamIs(g: Ro, dev: seq<Sector>, cs: seq<u32>, within: nat, len: nat)
    requires OnDevice(g, dev) && Chain(g, dev, cs) && cs != [] && within < g.ClusterBytes()
    ensures Stream(g, dev, cs[0], within, len) == FatRead.From(Data(g, dev, cs), within, len)
    decreases len
  {
    hide Next, Link, ClusterBytes, Lba, InReach, Piece, Ro.ClusterBytes, Stream, Data, FatRead.From, OnDevice;
    var data := Data(g, dev, cs);
    if len == 0 {
      Finished(g, dev, cs[0], within, 0);
      FatRead.FromNone(data, within);
      return;
    }
    var n := Piece(within, len);
    SectorIn(g, dev, cs[0], within, n);
    Split(g, dev, cs);
    FatRead.FromSplit(data, within, n, len);
    assert data[within..within + n] == ClusterBytes(g, dev, cs[0])[within..within + n];
    Unfold(g, dev, cs[0], within, len, []);
    assert [] + Stream(g, dev, cs[0], within, len) == Stream(g, dev, cs[0], within, len);
    if within + n < g.ClusterBytes() {
      StreamIs(g, dev, cs, within + n, len - n);
    } else {
      var rest := Data(g, dev, cs[1..]);
      FromBehind(data, ClusterBytes(g, dev, cs[0]), rest, len - n);
      if |cs| > 1 {
        StreamIs(g, dev, cs[1..], 0, len - n);
      } else {
        assert Link(g, dev, cs, 0);
        Beyond(g, dev, cs, len - n, rest);
      }
    }
    assert [] + Taken(g, dev, cs[0], within, len) == data[within..within + n];
  }

  lemma Beyond(g: Ro, dev: seq<Sector>, cs: seq<u32>, len: nat, rest: seq<byte>)
    requires |cs| == 1 && Link(g, dev, cs, 0) && rest == []
    ensures Stream(g, dev, Next(g, dev, cs[0]), 0, len) == FatRead.From(rest, 0, len)
  {
    hide Next;
  }

  lemma Split(g: Ro, dev: seq<Sector>, cs: seq<u32>)
    requires OnDevice(g, dev) && Chain(g, dev, cs) && cs != []
    ensures Data(g, dev, cs) == ClusterBytes(g, dev, cs[0]) + Data(g, dev, cs[1..])
    ensures Chain(g, dev, cs[1..]) && (|cs| == 1 ==> Data(g, dev, cs[1..]) == [])
      && (|cs| > 1 ==> cs[1..][0] == Next(g, dev, cs[0]))
  {
    hide Next, ClusterBytes;
    assert Link(g, dev, cs, 0);
    forall i | 0 <= i < |cs| - 1
      ensures Link(g, dev, cs[1..], i)
    {
      assert Link(g, dev, cs, i + 1);
    }
  }

  lemma FromBehind(data: seq<byte>, a: seq<byte>, b: seq<byte>, len: nat)
    requires data == a + b
    ensures FatRead.From(data, |a|, len) == FatRead.From(b, 0, len)
  {
  }

  lemma {:induction false} WalkIs(g: Ro, dev: seq<Sector>, cs: seq<u32>, k: nat)
    requires Chain(g, dev, cs) && k < |cs|
    ensures Walk(g, dev, cs[0], k) == cs[k]
  {
    hide Next;
    if k > 0 {
      WalkIs(g, dev, cs, k - 1);
      assert Link(g, dev, cs, k - 1);
    }
  }

  /** A read of a file is its chain's data from the offset, no further than its size; nothing in the last cluster
      below 4 GB. */
  lemma PlainIs(g: Ro, dev: seq<Sector>, cs: seq<u32>, size: u32, off: u32, len: u32)
    requires OnDevice(g, dev) && Chain(g, dev, cs) && cs != [] && size <= |Data(g, dev, cs)|
    ensures 0 < g.ClusterBytes()
    ensures Plain(g, dev, cs[0], size, off, len)
      == if off < W32 - g.ClusterBytes() then FatRead.Wanted(Data(g, dev, cs), size, off, len) else []
  {
    hide Data, Stream, Walk, Link, Next, OnDevice, Ro.ClusterBytes, FatRead.From, FatRead.Wanted, Plain;
    Positive(g, dev);
    var b, data := g.ClusterBytes(), Data(g, dev, cs);
    PlainBy(g, dev, cs[0], size, off, len);
    if len != 0 && off < size && off < W32 - b {
      InCluster(off, b, |cs|);
      var k: nat, within := off / b, off % b;
      WalkIs(g, dev, cs, k);
      Suffix(g, dev, cs, k);
      DataDrop(g, dev, cs, k);
      var n := Min(len, size - off);
      StreamIs(g, dev, cs[k..], within, n);
      FromDrop(data, k * b, within, n, size, len);
    } else {
      Nothing(data, size, off, len);
    }
  }

  lemma Positive(g: Ro, dev: seq<Sector>)
    requires OnDevice(g, dev)
    ensures 0 < g.ClusterBytes()
  {
  }

  lemma PlainBy(g: Ro, dev: seq<Sector>, first: u32, size: u32, off: u32, len: u32)
    requires 0 < g.ClusterBytes()
    ensures Plain(g, dev, first, size, off, len) ==
      if len == 0 || off >= size || off >= W32 - g.ClusterBytes() then []
      else
        Stream(g, dev, Walk(g, dev, first, off / g.ClusterBytes()), off % g.ClusterBytes(), Min(len, size - off))
  {
    hide Stream, Walk, Ro.ClusterBytes;
  }

  lemma InCluster(off: nat, b: nat, n: nat)
    requires 0 < b && off < n * b
    ensures 0 <= off / b < n && off == off / b * b + off % b && 0 <= off % b < b
  {
    assert off == b * (off / b) + off % b;
    Fewer(off / b, n, b);
  }

  lemma Suffix(g: Ro, dev: seq<Sector>, cs: seq<u32>, k: nat)
    requires Chain(g, dev, cs) && k < |cs|
    ensures Chain(g, dev, cs[k..])
  {
    hide Next;
    forall i | 0 <= i < |cs| - k
      ensures Link(g, dev, cs[k..], i)
    {
      assert Link(g, dev, cs, k + i);
    }
  }

  lemma FromDrop(data: seq<byte>, p: nat, within: nat, n: nat, size: nat, len: nat)
    requires p + within < size <= |data| && n == Min(len, size - (p + within))
    ensures FatRead.From(data[p..], within, n) == FatRead.Wanted(data, size, p + within, len)
  {
  }

  lemma Nothing(data: seq<byte>, size: nat, off: nat, len: nat)
    requires size <= |data|
    ensures len == 0 || off >= size ==> FatRead.Wanted(data, size, off, len) == []
  {
  }

  // ----- a FAT12 volume

  /** What mounting makes of a volume f12 keeps. */
  function RoOf(g: FatVolume.Geo): Ro
    requires g.FirstFat() < W32 && 0 <= g.FirstData() < W32 && g.clusters < W32
  {
    Ro(Fat12, g.spc, g.FirstFat(), g.FirstData(), g.clusters)
  }

  /** Both read the same links. */
  lemma SameLinks(g: FatVolume.Geo, secs: seq<Sector>, c: nat)
    requires g.Ok(|secs|) && |secs| < W32 && g.Has(c)
    ensures g.FirstFat() < W32 && 0 <= g.FirstData() < W32 && c < W32
    ensures var v := FatVolume.TableOf(g, secs)[c]; Next(RoOf(g), secs, c) == if v >= FatChains.END then 0 else v
  {
    FatVolume.Layout(g, |secs|);
    var n := (PackedTable.TableBytes(g.clusters + 2) + SECTOR - 1) / SECTOR;
    assert PackedTable.TableBytes(g.clusters + 2) <= SECTOR * n && n <= g.fatSectors && SECTOR * n <= W32;
    Next12(RoOf(g), secs, n, c);
    SamePart(g, secs, n, c);
  }

  lemma SamePart(g: FatVolume.Geo, secs: seq<Sector>, n: nat, c: nat)
    requires g.Ok(|secs|) && g.Has(c) && PackedTable.TableBytes(g.clusters + 2) <= SECTOR * n && n <= g.fatSectors
    requires g.FirstFat() + g.fatSectors <= |secs|
    ensures PackedTable.Table(Region(secs, g.FirstFat(), n), g.clusters + 2)[c] == FatVolume.TableOf(g, secs)[c]
  {
    hide PackedTable.Unpack, FatVolume.Geo.Ok;
  }

  /** So a chain of the table is a chain of links, with the same bytes. */
  lemma SameChain(g: FatVolume.Geo, secs: seq<Sector>, cs: seq<nat>)
    requires g.Ok(|secs|) && |secs| < W32 && FatChains.IsChain(FatVolume.TableOf(g, secs), cs)
    ensures g.FirstFat() < W32 && 0 <= g.FirstData() < W32
      && (forall i :: 0 <= i < |cs| ==> g.Has(cs[i]) && cs[i] < W32)
    ensures OnDevice(RoOf(g), secs) && Chain(RoOf(g), secs, cs)
      && Data(RoOf(g), secs, cs) == FatVolume.DataOf(g, secs, cs)
  {
    hide FatVolume.TableOf, Next, FatVolume.Geo.Ok, OnDevice, Data, FatVolume.DataOf, RoOf, FatVolume.Geo.Has, Ro.Valid;
    OnIt(g, |secs|, secs);
    HasAll(g, secs, cs);
    var ro := RoOf(g);
    forall i | 0 <= i < |cs|
      ensures Link(ro, secs, cs, i)
    {
      SameLinks(g, secs, cs[i]);
      Linked(g, secs, cs, i);
      IsRo(g, 0);
    }
    SameData(g, secs, cs);
  }

  lemma HasAll(g: FatVolume.Geo, secs: seq<Sector>, cs: seq<nat>)
    requires g.Ok(|secs|) && FatChains.IsChain(FatVolume.TableOf(g, secs), cs)
    requires g.FirstFat() < W32 && 0 <= g.FirstData() < W32
    ensures forall i :: 0 <= i < |cs| ==> g.Has(cs[i]) && cs[i] < W32 && RoOf(g).Valid(cs[i])
  {
    hide FatVolume.TableOf;
  }

  lemma OnIt(g: FatVolume.Geo, n: nat, secs: seq<Sector>)
    requires g.Ok(n) && n == |secs| < W32
    ensures g.FirstFat() < W32 && 0 <= g.FirstData() < W32 && OnDevice(RoOf(g), secs)
  {
    FatVolume.Layout(g, n);
  }

  lemma IsRo(g: FatVolume.Geo, c: int)
    requires g.FirstFat() < W32 && 0 <= g.FirstData() < W32 && g.clusters < W32
    ensures RoOf(g).Valid(c) <==> 2 <= c <= g.clusters + 1
  {
  }

  lemma Linked(g: FatVolume.Geo, secs: seq<Sector>, cs: seq<nat>, i: nat)
    requires g.Ok(|secs|) && FatChains.IsChain(FatVolume.TableOf(g, secs), cs) && i < |cs|
    ensures g.Has(cs[i])
    ensures var v := FatVolume.TableOf(g, secs)[cs[i]];
      if i < |cs| - 1 then v == cs[i + 1] && g.Has(v) && v < FatChains.END else v >= FatChains.END
  {
    hide FatVolume.TableOf;
  }

  lemma {:induction false} SameData(g: FatVolume.Geo, secs: seq<Sector>, cs: seq<nat>)
    requires g.Ok(|secs|) && |secs| < W32 && 0 <= g.FirstData() < W32 && g.FirstFat() < W32 && OnDevice(RoOf(g), secs)
    requires forall i :: 0 <= i < |cs| ==> g.Has(cs[i]) && cs[i] < W32 && RoOf(g).Valid(cs[i])
    ensures Data(RoOf(g), secs, cs) == FatVolume.DataOf(g, secs, cs)
  {
    hide FatVolume.Geo.Ok, Region;
    if cs != [] {
      var init, c := cs[..|cs| - 1], cs[|cs| - 1];
      SameData(g, secs, init);
      assert cs == init + [c];
      DataSnoc(RoOf(g), secs, init, c);
      assert ClusterBytes(RoOf(g), secs, c) == FatVolume.ClusterOf(g, secs, c);
    }
  }

  lemma {:induction false} DataSnoc(g: Ro, dev: seq<Sector>, cs: seq<u32>, c: u32)
    requires OnDevice(g, dev) && (forall i :: 0 <= i < |cs| ==> g.Valid(cs[i])) && g.Valid(c)
    ensures Data(g, dev, cs + [c]) == Data(g, dev, cs) + ClusterBytes(g, dev, c)
  {
    hide ClusterBytes, OnDevice;
    var all := cs + [c];
    if cs == [] {
      assert all[1..] == [] && all[0] == c;
    } else {
      assert all[1..] == cs[1..] + [c] && all[0] == cs[0];
      DataSnoc(g, dev, cs[1..], c);
    }
  }

  lemma Empty(data: seq<byte>, size: nat, off: nat, len: nat)
    ensures size <= |data| && off >= size ==> FatRead.Wanted(data, size, off, len) == []
  {
  }

  /** On every sound FAT12 volume the read-only reader returns the bytes of the files f12 keeps: chain data from the
      offset, no further than the size, with no wrap to watch for. */
  lemma ReadsFiles(g: FatVolume.Geo, secs: seq<Sector>, chains: FatChains.Chains, f: nat, size: u32, off: u32, len: u32)
    requires FatState.VolOk(g, secs, chains) && |secs| < W32 && f in chains && chains[f] != []
    ensures g.FirstFat() < W32 && 0 <= g.FirstData() < W32 && f < |FatVolume.DirOf(g, secs)|
    ensures (forall i :: 0 <= i < |chains[f]| ==> g.Has(chains[f][i])) && 0 < RoOf(g).ClusterBytes() == FatVolume.Bpc(g)
    ensures var data, first := FatVolume.DataOf(g, secs, chains[f]), FatDir.FirstOf(FatVolume.DirOf(g, secs)[f]);
      size <= |data| ==> Plain(RoOf(g), secs, first, size, off, len) == FatRead.Wanted(data, size, off, len)
  {
    hide FatVolume.DirOf, FatVolume.TableOf, FatVolume.DataOf, FatDir.Tidy, Plain, FatRead.Wanted, Chain,
      FatChains.IsChain,
      OnDevice;
    SameChain(g, secs, chains[f]);
    Positive(RoOf(g), secs);
    FatRead.DataFits(g, secs, chains[f]);
    Empty(FatVolume.DataOf(g, secs, chains[f]), size, off, len);
    if size <= |FatVolume.DataOf(g, secs, chains[f])| {
      PlainIs(RoOf(g), secs, chains[f], size, off, len);
    }
  }
}

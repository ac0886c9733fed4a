/** Laying down a fresh volume, and reading its parameters back. */
module FatFormat {
  import opened Bytes
  import opened Sectors
  import PackedTable
  import opened FatChains
  import opened FatNames
  import opened FatDir
  import opened FatVolume
  import opened FatState
  import opened Fat12

  const ROOT_ENTRIES := 128
  const ROOT_SECTORS := 8

  // ----- how large a table

  /** Sectors a table for `clusters` clusters takes, in 32-bit arithmetic. */
  function Need(clusters: nat): nat {
    (((clusters + 2) * 3 % W32 + 1) % W32 / 2 + SECTOR - 1) / SECTOR
  }

  /** The largest device on which none of that wraps. */
  const LIMIT := 0x5555_555C

  lemma NeedPlain(c: nat)
    requires c + 10 <= LIMIT
    ensures Need(c) == (((c + 2) * 3 + 1) / 2 + SECTOR - 1) / SECTOR
    ensures 1 <= Need(c) && PackedTable.TableBytes(c + 2) <= SECTOR * Need(c)
      && SECTOR * (Need(c) - 1) < PackedTable.TableBytes(c + 2)
  {
    Unwrapped((c + 2) * 3);
    Unwrapped((c + 2) * 3 + 1);
  }

  /** A smaller table never needs to be larger for fewer clusters. */
  lemma NeedMono(c: nat, d: nat)
    requires c <= d && d + 10 <= LIMIT
    ensures Need(c) <= Need(d)
  {
    hide Need;
    NeedPlain(c);
    NeedPlain(d);
  }

  /** One pass turns a table at least as large as the last into one no larger, and the other way round. */
  lemma Swing(total: u32, prev: nat, fat: nat)
    requires total <= LIMIT && 1 <= prev && 1 <= fat && Left(total, prev) > 0 && Left(total, fat) > 0
    requires fat == Need(Left(total, prev))
    ensures prev <= fat ==> Need(Left(total, fat)) <= fat
    ensures fat <= prev ==> Need(Left(total, fat)) >= fat
    ensures 1 <= Need(Left(total, fat))
  {
    hide Need;
    NeedPlain(Left(total, fat));
    if prev <= fat {
      NeedMono(Left(total, fat), Left(total, prev));
    }
    if fat <= prev {
      NeedMono(Left(total, prev), Left(total, fat));
    }
  }

  /** Clusters left beside a table of `fat` sectors. */
  function Left(total: int, fat: int): int {
    total - (1 + fat + ROOT_SECTORS)
  }

  /** A table sized for the clusters of a device leaves room for some. */
  lemma RoomLeft(total: u32, prev: nat)
    requires 11 <= total <= LIMIT && 1 <= prev && Left(total, prev) > 0
    ensures Left(total, Need(Left(total, prev))) > 0
  {
    NeedPlain(Left(total, prev));
    hide Need;
  }

  // ----- past the limit

  /** The sizes for which the wrapped count gives a table too small for the clusters. */
  predicate Uncovered(total: nat) {
    0x5555_555D <= total <= 0x5555_6413 || 0xAAAA_AAB3 <= total <= 0xAAAA_B968
  }

  /** What the wrap leaves of the count, for the first pass. */
  function Remnant(total: nat): nat
    requires 8 <= total
  {
    3 * (total - 8) % W32
  }

  /** Sectors for a count of `s`. */
  function Room(s: nat): nat {
    ((s + 1) / 2 + SECTOR - 1) / SECTOR
  }

  lemma Windows(total: nat)
    requires LIMIT + 1 < total < W32
    ensures 1 <= Remnant(total) <= W32 - 2 && (Remnant(total) <= 11297 <==> Uncovered(total))
  {
    var x := 3 * (total - 8);
    if x < 2 * W32 {
      Digits(1, W32, x - W32);
    } else {
      Digits(2, W32, x - 2 * W32);
    }
  }

  lemma NeedWide(total: nat, fat: nat)
    requires LIMIT + 1 < total < W32 && 1 <= fat && 3 * (fat - 1) <= Remnant(total)
    ensures Left(total, fat) > MAX_CLUSTERS && Need(Left(total, fat)) == Room(Remnant(total) - 3 * (fat - 1))
  {
    Windows(total);
    var x, r, c := 3 * (total - 8), Remnant(total), 3 * (total - 8) / W32;
    assert (Left(total, fat) + 2) * 3 == W32 * c + (r - 3 * (fat - 1));
    Digits(c, W32, r - 3 * (fat - 1));
    Unwrapped(r - 3 * (fat - 1) + 1);
  }

  /** Where the passes stand on a device past the limit. */
  ghost predicate Wide(total: nat, pass: nat, fat: nat)
    requires LIMIT < total < W32
  {
    var r := Remnant(total);
    if total == LIMIT + 1 then fat == if pass in {0, 2, 4, 6, 8} then 1 else 0
    else if r > 11297 then if pass == 0 then fat == 1 else 12 <= fat <= Room(r)
    else if r > 11264 then fat == if pass == 0 then 1 else if pass in {1, 3, 5, 7} then 12 else 11
    else 1 <= fat <= Room(r)
  }

  lemma WideStep(total: nat, pass: nat, fat: nat)
    requires LIMIT < total < W32 && pass < 8 && Wide(total, pass, fat)
    ensures Left(total, fat) > MAX_CLUSTERS
    ensures var need := Need(Left(total, fat));
      if need == fat then (fat >= 12 <==> !Uncovered(total)) else Wide(total, pass + 1, need)
  {
    if total == LIMIT + 1 {
      First(fat);
    } else {
      Windows(total);
      NeedWide(total, fat);
      hide Need, Remnant;
    }
  }

  /** The first size past the limit swings between no table at all and one sector. */
  lemma First(fat: nat)
    requires fat <= 1
    ensures Need(Left(LIMIT + 1, fat)) == 1 - fat
  {
    if fat == 1 {
      assert (Left(LIMIT + 1, fat) + 2) * 3 == W32 - 1;
      Unwrapped(W32 - 1);
    } else {
      assert (Left(LIMIT + 1, fat) + 2) * 3 == W32 + 2;
      Digits(1, W32, 2);
    }
  }

  lemma WideDone(total: nat, fat: nat)
    requires LIMIT < total < W32 && Wide(total, 8, fat)
    ensures fat >= 12 <==> !Uncovered(total)
  {
    if total > LIMIT + 1 {
      Windows(total);
    }
  }

  /** The clusters the volume ends up with. */
  function Capped(clusters: nat): nat {
    if clusters > MAX_CLUSTERS then MAX_CLUSTERS else clusters
  }

  /** Table and clusters fit a device of `total` sectors. */
  predicate FitsIn(total: nat, fat: nat, clusters: nat) {
    1 <= clusters && 1 + fat + ROOT_SECTORS + Capped(clusters) <= total
  }

  /** The table has an entry for every cluster. */
  predicate Covers(fat: nat, clusters: nat) {
    PackedTable.TableBytes(Capped(clusters) + 2) <= SECTOR * fat
  }

  /** The eight passes. The table grows and shrinks in turn around the answer, so after an even number of
      passes it is no larger than the one the cluster count allows for. On a device of any size the result
      fits; its table covers every cluster exactly outside the two windows where the wrapped count is small. */
  method Settle(total: u32) returns (ok: bool, fat: nat, clusters: nat)
    ensures ok <==> total >= 11
    ensures ok ==> FitsIn(total, fat, clusters) && (Covers(fat, clusters) <==> !Uncovered(total))
    ensures ok && !Uncovered(total) ==> 1 <= fat
    ensures ok ==> fat == Need(clusters) && clusters < total
  {
    fat, clusters := 1, 0;
    var pass := 0;
    ghost var prev := 1;
    hide Need, PackedTable.TableBytes, Wide, Uncovered, Covers, FitsIn;
    if LIMIT < total {
      WideStart(total);
    }
    while pass < 8
      invariant 0 <= pass <= 8 && 0 <= clusters && (pass == 0 ==> fat == 1)
      invariant pass > 0 ==> 0 < clusters == Left(total, prev) < total && fat == Need(clusters)
      invariant LIMIT < total ==> Wide(total, pass, fat) && (pass > 0 ==> clusters > MAX_CLUSTERS)
      invariant total <= LIMIT ==> 1 <= fat && 1 <= prev && (total >= 11 <==> Left(total, fat) > 0)
      invariant pass > 0 && total <= LIMIT ==>
        11 <= total && (pass in {1, 3, 5, 7} ==> prev <= fat) && (pass in {2, 4, 6, 8} ==> fat <= prev)
    {
      var overhead := 1 + fat + ROOT_SECTORS;
      if total <= LIMIT && total > overhead {
        RoomLeft(total, fat);
        NeedPlain(Left(total, fat));
        if pass > 0 {
          Swing(total, prev, fat);
        }
      } else if LIMIT < total {
        WideStep(total, pass, fat);
      }
      if total <= overhead {
        return false, fat, clusters;
      }
      clusters := total - overhead;
      var need := Need(clusters);
      prev := fat;
      if need == fat {
        break;
      }
      fat := need;
      pass := pass + 1;
    }
    if total <= LIMIT {
      NeedPlain(clusters);
      NarrowOk(total, fat, clusters);
    } else {
      if pass == 8 {
        WideDone(total, fat);
      }
      WideOk(total, fat, clusters);
    }
    ok := clusters != 0;
  }

  lemma WideStart(total: nat)
    requires LIMIT < total < W32
    ensures Wide(total, 0, 1)
  {
    if total > LIMIT + 1 {
      Windows(total);
    }
  }

  lemma NarrowOk(total: nat, fat: nat, clusters: nat)
    requires total <= LIMIT && 1 <= clusters && 1 + fat + ROOT_SECTORS + clusters <= total
    requires PackedTable.TableBytes(clusters + 2) <= SECTOR * fat
    ensures FitsIn(total, fat, clusters) && Covers(fat, clusters) && !Uncovered(total)
  {
  }

  lemma WideOk(total: nat, fat: nat, clusters: nat)
    requires LIMIT < total < W32 && clusters > MAX_CLUSTERS && fat == Need(clusters)
      && (fat >= 12 <==> !Uncovered(total))
    ensures FitsIn(total, fat, clusters) && (Covers(fat, clusters) <==> !Uncovered(total))
  {
    NeedBound(clusters);
    hide Need, Uncovered;
  }

  lemma NeedBound(c: nat)
    ensures Need(c) <= 0x40_0000
  {
  }

  // ----- the boot sector

  function Zeros(n: nat): (r: seq<byte>)
    ensures |r| == n && forall i :: 0 <= i < n ==> r[i] == 0
  {
    seq(n, _ => 0)
  }

  function ZeroSector(): (s: Sector)
    ensures forall i :: 0 <= i < SECTOR ==> s[i] == 0
  {
    Zeros(SECTOR)
  }

  /** A label in its eleven characters, padded with spaces. */
  function LabelName(title: seq<byte>): (r: seq<byte>)
    ensures |r| == 11 && (title != [] ==> r[0] == title[0]) && (title == [] ==> r[0] == SPACE)
  {
    if |title| >= 11 then title[..11] else title + seq(11 - |title|, _ => SPACE)
  }

  const MSWIN: seq<byte> := [0x4D, 0x53, 0x57, 0x49, 0x4E, 0x34, 0x2E, 0x31]
  const FAT12_TEXT: seq<byte> := [0x46, 0x41, 0x54, 0x31, 0x32, 0x20, 0x20, 0x20]
  const DEFAULT_SERIAL := 0x5250_4332

  /** The parameters, bytes 11 to 36 of the boot sector. A total that fits 16 bits goes in the short field. */
  function Params(g: Geo, total: u32): (r: seq<byte>)
    requires g.spc < 256 && g.reserved < 0x1_0000 && g.numFats < 256 && g.rootEntries < 0x1_0000
    ensures |r| == 25
  {
    ShapeParams(g) + SizeParams(g.fatSectors, total)
  }

  function ShapeParams(g: Geo): (r: seq<byte>)
    requires g.spc < 256 && g.reserved < 0x1_0000 && g.numFats < 256 && g.rootEntries < 0x1_0000
    ensures |r| == 8
  {
    Le16(SECTOR) + [g.spc] + Le16(g.reserved) + [g.numFats] + Le16(g.rootEntries)
  }

  function SizeParams(fat: nat, total: u32): (r: seq<byte>)
    ensures |r| == 17
  {
    Le16(if total < 0x1_0000 then total else 0) + [0xF8] + Le16(fat % 0x1_0000) + Le16(63) + Le16(255)
    + Le32(0) + Le32(if total < 0x1_0000 then 0 else total)
  }

  function Boot(g: Geo, total: u32, title: seq<byte>, serial: u32): (s: Sector)
    requires g.spc < 256 && g.reserved < 0x1_0000 && g.numFats < 256 && g.rootEntries < 0x1_0000
    ensures s[11..36] == Params(g, total) && s[510] == 0x55 && s[511] == 0xAA
  {
    var head := [0xEB, 0x3C, 0x90] + MSWIN;
    var tail := [0x80, 0, 0x29] + Le32(if serial == 0 then DEFAULT_SERIAL else serial)
      + LabelName(title) + FAT12_TEXT + Zeros(448) + [0x55, 0xAA];
    var s := head + Params(g, total) + tail;
    assert s[11..36] == Params(g, total);
    s
  }

  // ----- mounting

  /** f12_mount: the geometry the boot sector describes, if this code can work with it. */
  function Mount(secs: seq<Sector>): (r: Maybe<Geo>)
    ensures r.Some? ==>
      1 <= r.value.clusters <= MAX_CLUSTERS && r.value.FirstData() + r.value.clusters * r.value.spc <= |secs|
  {
    if secs == [] || secs[0][510] != 0x55 || secs[0][511] != 0xAA || Rd16(secs[0], 11) != SECTOR then None
    else Sized(Fields0(secs[0]), TotalField(secs[0]), |secs|)
  }

  /** The fields of a boot sector; the cluster count is still to be worked out. */
  function Fields0(b: Sector): Geo {
    Geo(Rd16(b, 14), b[16], Rd16(b, 17), b[13], Rd16(b, 22), 0)
  }

  function TotalField(b: Sector): u32 {
    if Rd16(b, 19) == 0 then Rd32(b, 32) else Rd16(b, 19)
  }

  /** The cluster count is the format: one that is not FAT12 is refused. */
  function Sized(g: Geo, total: u32, sectors: nat): (r: Maybe<Geo>)
    ensures r.Some? ==>
      1 <= r.value.clusters <= MAX_CLUSTERS && r.value.FirstData() + r.value.clusters * r.value.spc <= sectors
  {
    if g.spc == 0 || g.reserved == 0 || g.numFats == 0 || g.fatSectors == 0 then None
    else if total == 0 || total > sectors || g.FirstData() >= total then None
    else
      var n := (total - g.FirstData()) / g.spc;
      if n <= 0 || n > MAX_CLUSTERS then None
      else
        Floor(total - g.FirstData(), g.spc);
        Some(g.(clusters := n))
  }

  lemma Floor(x: nat, d: nat)
    requires 0 < d
    ensures x / d * d <= x
  {
    assert x == d * (x / d) + x % d;
  }

  lemma Field16(b: Sector, p: seq<byte>, at: nat, w: u16)
    requires |p| == 25 && b[11..36] == p && at + 2 <= 25 && p[at..at + 2] == Le16(w)
    ensures Rd16(b, 11 + at) == w
  {
    hide Rd16, Le16;
    SubSlice(b, 11, 25, at, 2);
    ReadBack16(w, b, 11 + at);
  }

  lemma Field32(b: Sector, p: seq<byte>, at: nat, w: u32)
    requires |p| == 25 && b[11..36] == p && at + 4 <= 25 && p[at..at + 4] == Le32(w)
    ensures Rd32(b, 11 + at) == w
  {
    hide Rd32, Le32;
    SubSlice(b, 11, 25, at, 4);
    ReadBack32(w, b, 11 + at);
  }

  lemma Field8(b: Sector, p: seq<byte>, at: nat)
    requires |p| == 25 && b[11..36] == p && at < 25
    ensures b[11 + at] == p[at]
  {
    assert b[11..36][at] == b[11 + at];
  }

  lemma ShapeParts(g: Geo)
    requires g.spc < 256 && g.reserved < 0x1_0000 && g.numFats < 256 && g.rootEntries < 0x1_0000
    ensures var x := ShapeParams(g);
      && x[0..2] == Le16(SECTOR) && x[2] == g.spc && x[3..5] == Le16(g.reserved) && x[5] == g.numFats
      && x[6..8] == Le16(g.rootEntries)
  {
    hide Le16;
  }

  lemma SizeParts(fat: nat, total: u32)
    ensures var y := SizeParams(fat, total);
      && y[0..2] == Le16(if total < 0x1_0000 then total else 0) && y[3..5] == Le16(fat % 0x1_0000)
      && y[13..17] == Le32(if total < 0x1_0000 then 0 else total)
  {
    hide Le16, Le32;
  }

  /** Every field of the boot sector reads back. */
  lemma Fields(g: Geo, total: u32, b: Sector)
    requires g.spc < 256 && g.reserved < 0x1_0000 && g.numFats < 256 && g.rootEntries < 0x1_0000
    requires b[11..36] == Params(g, total)
    ensures Rd16(b, 11) == SECTOR && b[13] == g.spc && Rd16(b, 14) == g.reserved && b[16] == g.numFats
      && Rd16(b, 17) == g.rootEntries
    ensures Rd16(b, 22) == g.fatSectors % 0x1_0000
    ensures TotalField(b) == total && Fields0(b) == g.(fatSectors := g.fatSectors % 0x1_0000, clusters := 0)
  {
    hide Rd16, Rd32, Le16, Le32, ShapeParams, SizeParams;
    var p := Params(g, total);
    ShapeParts(g);
    SizeParts(g.fatSectors, total);
    var x, y := ShapeParams(g), SizeParams(g.fatSectors, total);
    assert p[0..2] == x[0..2] && p[3..5] == x[3..5] && p[6..8] == x[6..8] && p[2] == x[2] && p[5] == x[5];
    assert p[8..10] == y[0..2] && p[11..13] == y[3..5] && p[21..25] == y[13..17];
    Field16(b, p, 0, SECTOR);
    Field8(b, p, 2);
    Field16(b, p, 3, g.reserved);
    Field8(b, p, 5);
    Field16(b, p, 6, g.rootEntries);
    Field16(b, p, 8, if total < 0x1_0000 then total else 0);
    Field16(b, p, 11, g.fatSectors % 0x1_0000);
    Field32(b, p, 21, if total < 0x1_0000 then 0 else total);
  }

  /** The geometry f12_format chooses. */
  function Fresh(fat: nat, clusters: nat): Geo {
    Geo(1, 1, ROOT_ENTRIES, 1, fat, clusters)
  }

  /** Mounting finds the formatted geometry again exactly when the table's size fits its 16-bit field. */
  lemma MountBack(fat: nat, clusters: nat, total: u32, secs: seq<Sector>)
    requires 1 <= fat && 1 <= clusters <= MAX_CLUSTERS && total == Fresh(fat, clusters).FirstData() + clusters <= |secs|
    requires secs[0][11..36] == Params(Fresh(fat, clusters), total) && secs[0][510] == 0x55 && secs[0][511] == 0xAA
    ensures Mount(secs) == Some(Fresh(fat, clusters)) <==> fat <= 0xFFFF
  {
    Fields(Fresh(fat, clusters), total, secs[0]);
    hide Params, Rd16, Rd32, TotalField, Fields0;
    if fat > 0xFFFF {
      assert fat % 0x1_0000 != fat;
    }
  }

  /** The label's directory entry. */
  function LabelEntry(title: seq<byte>): (e: Slot)
    ensures e[0] == LabelName(title)[0] && e[11] == 0x08
  {
    LabelName(title) + [0x08, 0, 0] + Le16(0) + Le16(33) + Le16(33) + Le16(0) + Le16(0) + Le16(33) + Le16(0) + Le32(0)
  }

  const RPCORTEX: seq<byte> := [0x52, 0x50, 0x43, 0x4F, 0x52, 0x54, 0x45, 0x58]

  /** An all-zero table is all free. */
  lemma ZeroTable(g: Geo, secs: seq<Sector>)
    requires g.Ok(|secs|)
    requires forall j :: g.FirstFat() <= j < g.FirstRoot() ==> 0 <= j < |secs| && secs[j] == ZeroSector()
    ensures forall c :: 0 <= c < g.clusters + 2 ==> TableOf(g, secs)[c] == FREE
  {
    Layout(g, |secs|);
    hide Geo.FirstRoot;
    var b := FatOf(g, secs);
    assert forall i :: 0 <= i < |b| ==> b[i] == 0;
  }

  lemma ZeroDir(g: Geo, secs: seq<Sector>)
    requires g.Ok(|secs|)
    requires forall j :: g.FirstRoot() <= j < g.FirstData() ==> 0 <= j < |secs| && secs[j] == ZeroSector()
    ensures forall i :: 0 <= i < g.rootEntries ==> DirOf(g, secs)[i][0] == 0
  {
    Layout(g, |secs|);
    hide Geo.FirstRoot, Geo.FirstData;
    var r := Region(secs, g.FirstRoot(), g.RootSectors());
    assert forall i :: 0 <= i < |r| ==> r[i] == 0;
    forall i | 0 <= i < g.rootEntries
      ensures DirOf(g, secs)[i][0] == 0
    {
      assert DirOf(g, secs)[i] == r[32 * i..32 * i + 32];
    }
  }

  /** A directory with only a label is in order and lists nothing. */
  lemma OnlyLabel(d: seq<Slot>, e: Slot)
    requires d != [] && e[0] != 0 && e[11] == 0x08 && forall i :: 0 <= i < |d| ==> d[i][0] == 0
    ensures Tidy(d[0 := e]) && Owners(d[0 := e], map[])
  {
  }

  /** A fresh table: two reserved entries, everything else free. */
  ghost predicate AllFree(t: Table) {
    t[0] == 0xFF8 && t[1] == EOC && forall c :: 2 <= c < |t| ==> t[c] == FREE
  }

  lemma FreshSound(g: Geo, secs: seq<Sector>)
    requires g.Ok(|secs|) && AllFree(TableOf(g, secs)) && Tidy(DirOf(g, secs)) && Owners(DirOf(g, secs), map[])
    ensures VolOk(g, secs, map[]) && Others(TableOf(g, secs), map[]) == {} && |FreeSet(TableOf(g, secs))| == g.clusters
  {
    hide TableOf, DirOf, Tidy, Owners;
    var t := TableOf(g, secs);
    assert FreeSet(t) == Numbers(|t|);
    assert forall c :: 2 <= c < |t| ==> t[c] == FREE;
  }

  /** f12_format: on any device it accepts, an empty volume that fits, whose table covers every cluster,
      and which mounting finds again; data sectors are left alone. */
  method Format(dev: seq<Sector>, title: Maybe<seq<byte>>, serial: u32) returns (ok: bool, v: Volume?)
    requires |dev| < W32 && !Uncovered(|dev|) && (title.Some? ==> IsName(title.value))
    ensures ok <==> |dev| >= 11
    ensures ok <==> v != null
    ensures ok ==> fresh(v) && v.Valid() && v.chains == map[] && |v.secs| == |dev|
    ensures ok ==> AllFree(TableOf(v.g, v.secs)) && Others(TableOf(v.g, v.secs), map[]) == {}
    ensures ok ==> |FreeSet(TableOf(v.g, v.secs))| == v.g.clusters
    ensures ok ==> (Mount(v.secs) == Some(v.g) <==> v.g.fatSectors <= 0xFFFF)
    ensures ok ==> forall j :: v.g.FirstData() <= j < |dev| ==> v.secs[j] == dev[j]
  {
    hide PackedTable.TableBytes, Need, TableOf, Mount, Others, FreeSet, VolOk, AllFree;
    var fat, clusters;
    ok, fat, clusters := Settle(|dev|);
    v := null;
    if !ok {
      return;
    }
    if clusters > MAX_CLUSTERS {
      TableShrinks(clusters, MAX_CLUSTERS);
      clusters := MAX_CLUSTERS;
    }
    v := LayDown(dev, fat, clusters, title, serial);
  }

  /** The boot sector, an empty table, an empty directory with the label. */
  method LayDown(dev: seq<Sector>, fat: nat, clusters: nat, title: Maybe<seq<byte>>, serial: u32) returns (v: Volume)
    requires Fresh(fat, clusters).Ok(|dev|) && |dev| < W32 && (title.Some? ==> IsName(title.value))
    ensures fresh(v) && v.g == Fresh(fat, clusters) && v.Valid() && v.chains == map[] && |v.secs| == |dev|
    ensures AllFree(TableOf(v.g, v.secs)) && Others(TableOf(v.g, v.secs), map[]) == {}
    ensures |FreeSet(TableOf(v.g, v.secs))| == v.g.clusters
    ensures Mount(v.secs) == Some(v.g) <==> v.g.fatSectors <= 0xFFFF
    ensures forall j :: v.g.FirstData() <= j < |dev| ==> v.secs[j] == dev[j]
  {
    hide PackedTable.TableBytes, TableOf, DirOf, Boot, Params, LabelEntry, Mount, Others, FreeSet, Tidy, Owners,
      AllFree;
    var g := Fresh(fat, clusters);
    var total := g.FirstData() + clusters * g.spc;
    v := new Volume(g, dev);
    var boot := Boot(g, total, if title.Some? then title.value else [], serial);
    v.secs := v.secs[0 := boot];
    var secs := ClearSectors(v.secs, g.FirstFat(), g.fatSectors * g.numFats);
    v.secs := ClearSectors(secs, g.FirstRoot(), g.RootSectors());
    ZeroTable(g, v.secs);
    ZeroDir(g, v.secs);
    ghost var d := DirOf(g, v.secs);
    ghost var s0 := v.secs;
    v.FatSet(0, 0xFF8);
    v.FatSet(1, EOC);
    ghost var s1 := v.secs;
    DirSame(g, s0, s1);
    var e := LabelEntry(if title.Some? then title.value else RPCORTEX);
    v.DirWriteSlot(0, e);
    FatSame(g, s1, v.secs);
    OnlyLabel(d, e);
    MadeFree(TableOf(g, s0), TableOf(g, v.secs));
    FreshSound(g, v.secs);
    MountBack(fat, clusters, total, v.secs);
  }

  lemma MadeFree(t: Table, u: Table)
    requires (forall c :: 0 <= c < |t| ==> t[c] == FREE) && u == t[0 := 0xFF8 % 0x1000][1 := EOC % 0x1000]
    ensures AllFree(u)
  {
  }

  lemma TableShrinks(c: nat, d: nat)
    requires d <= c
    ensures PackedTable.TableBytes(d + 2) <= PackedTable.TableBytes(c + 2)
  {
  }

  method ClearSectors(s0: seq<Sector>, lo: nat, n: nat) returns (secs: seq<Sector>)
    requires lo + n <= |s0|
    ensures |secs| == |s0| && forall j :: 0 <= j < |s0| ==> secs[j] == if lo <= j < lo + n then ZeroSector() else s0[j]
  {
    secs := s0;
    for i := 0 to n
      invariant |secs| == |s0|
      invariant forall j :: 0 <= j < |s0| ==> secs[j] == if lo <= j < lo + i then ZeroSector() else s0[j]
    {
      secs := secs[lo + i := ZeroSector()];
    }
  }
}

/** A device of 512-byte sectors, and runs of sectors seen as one flat buffer. */
module Sectors {
  import opened Bytes

  const SECTOR := 512

  type Sector = s: seq<byte> | |s| == SECTOR witness seq(SECTOR, _ => 0)

  /** Sectors `[lo, lo + n)` as bytes. */
  function Region(secs: seq<Sector>, lo: nat, n: nat): (r: seq<byte>)
    requires lo + n <= |secs|
    ensures |r| == SECTOR * n
    ensures forall i :: 0 <= i < SECTOR * n ==> r[i] == secs[lo + i / SECTOR][i % SECTOR]
  {
    seq(SECTOR * n, i requires 0 <= i < SECTOR * n => secs[lo + i / SECTOR][i % SECTOR])
  }

  lemma DivMod(i: int, q: int)
    requires SECTOR * q <= i < SECTOR * q + SECTOR
    ensures i / SECTOR == q && i % SECTOR == i - SECTOR * q
  {
  }

  /** Rewriting part of one sector of a region is a splice of the region. */
  lemma RegionHit(secs: seq<Sector>, lo: nat, n: nat, lba: nat, k: nat, d: seq<byte>)
    requires lo + n <= |secs| && lo <= lba < lo + n && k + |d| <= SECTOR
    ensures SECTOR * (lba - lo) + k + |d| <= SECTOR * n
    ensures Region(secs[lba := Splice(secs[lba], k, d)], lo, n) == Splice(Region(secs, lo, n), SECTOR * (lba - lo) + k,
      d)
  {
    hide Splice, Region;
    var now := secs[lba := Splice(secs[lba], k, d)];
    var l, r := Region(now, lo, n), Splice(Region(secs, lo, n), SECTOR * (lba - lo) + k, d);
    forall i | 0 <= i < SECTOR * n
      ensures l[i] == r[i]
    {
      SpliceIndex(Region(secs, lo, n), SECTOR * (lba - lo) + k, d, i);
      if i / SECTOR == lba - lo {
        SpliceIndex(secs[lba], k, d, i % SECTOR);
      }
    }
  }

  /** Regions of devices that agree there are equal. */
  lemma RegionSame(a: seq<Sector>, b: seq<Sector>, lo: nat, n: nat)
    requires lo + n <= |a| == |b| && forall j :: lo <= j < lo + n ==> a[j] == b[j]
    ensures Region(a, lo, n) == Region(b, lo, n)
  {
    hide Region;
    assert forall i :: 0 <= i < SECTOR * n ==> Region(a, lo, n)[i] == Region(b, lo, n)[i];
  }

  /** Part of one sector, seen in the region. */
  lemma RegionSlice(secs: seq<Sector>, lo: nat, n: nat, lba: nat, k: nat, w: nat)
    requires lo + n <= |secs| && lo <= lba < lo + n && k + w <= SECTOR
    ensures SECTOR * (lba - lo) + k + w <= SECTOR * n
    ensures Region(secs, lo, n)[SECTOR * (lba - lo) + k..SECTOR * (lba - lo) + k + w] == secs[lba][k..k + w]
  {
    hide Region;
    var base := SECTOR * (lba - lo) + k;
    var l, r := Region(secs, lo, n)[base..base + w], secs[lba][k..k + w];
    forall i | 0 <= i < w
      ensures l[i] == r[i]
    {
      DivMod(base + i, lba - lo);
    }
  }

  function Min(a: nat, b: nat): nat {
    if a < b then a else b
  }

  /** Bytes to take from the sector holding byte `within`, of `len` wanted. */
  function Piece(within: nat, len: nat): (n: nat)
    ensures n <= len && n <= SECTOR - within % SECTOR && (len > 0 ==> n > 0)
  {
    Min(SECTOR - within % SECTOR, len)
  }
}

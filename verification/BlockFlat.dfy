/** The cached disk as one flat run of bytes: sector `lba` is the bytes from `lba` sectors on. */
module BlockFlat {
  import opened Bytes
  import opened BlockCache

  /** Blocks of `bs` bytes. */
  ghost predicate Blocks(d: seq<seq<byte>>, bs: nat) {
    forall b :: 0 <= b < |d| ==> |d[b]| == bs
  }

  /** The blocks one after another. */
  function Flat(d: seq<seq<byte>>, bs: nat): (f: seq<byte>)
    requires Blocks(d, bs)
    ensures |f| == |d| * bs
  {
    if d == [] then [] else
    Distribute(|d| - 1, bs);
    Flat(d[..|d| - 1], bs) + d[|d| - 1]
  }

  lemma Distribute(n: nat, bs: nat)
    ensures (n + 1) * bs == n * bs + bs
  {
  }

  lemma {:induction false} FlatPart(d: seq<seq<byte>>, bs: nat, b: nat)
    requires Blocks(d, bs) && b < |d|
    ensures 0 <= b * bs && b * bs + bs <= |d| * bs && Flat(d, bs)[b * bs..b * bs + bs] == d[b]
    decreases |d|
  {
    var n := |d| - 1;
    Distribute(n, bs);
    if b < n {
      FlatPart(d[..n], bs, b);
      SubSlice(Flat(d, bs), 0, n * bs, b * bs, bs);
      assert Flat(d, bs)[0..n * bs] == Flat(d[..n], bs);
    }
  }

  /** Overwriting part of a block overwrites those bytes of the run. */
  lemma {:induction false} FlatWrite(d: seq<seq<byte>>, bs: nat, b: nat, off: nat, data: seq<byte>)
    requires Blocks(d, bs) && b < |d| && off + |data| <= bs
    ensures var e := d[b := Splice(d[b], off, data)];
      && Blocks(e, bs) && 0 <= b * bs && b * bs + off + |data| <= |d| * bs
      && Flat(e, bs) == Splice(Flat(d, bs), b * bs + off, data)
    decreases |d|
  {
    hide Splice;
    var n := |d| - 1;
    var e := d[b := Splice(d[b], off, data)];
    Distribute(n, bs);
    if b < n {
      FlatWrite(d[..n], bs, b, off, data);
      assert e[..n] == d[..n][b := Splice(d[b], off, data)] && e[n] == d[n];
      SpliceLeft(Flat(d[..n], bs), d[n], b * bs + off, data);
    } else {
      assert e[..n] == d[..n];
      SpliceRight(Flat(d[..n], bs), d[n], off, data);
    }
  }

  lemma SpliceLeft(x: seq<byte>, y: seq<byte>, at: nat, data: seq<byte>)
    requires at + |data| <= |x|
    ensures Splice(x, at, data) + y == Splice(x + y, at, data)
  {
  }

  lemma SpliceRight(x: seq<byte>, y: seq<byte>, at: nat, data: seq<byte>)
    requires at + |data| <= |y|
    ensures x + Splice(y, at, data) == Splice(x + y, |x| + at, data)
  {
  }

  /** Where sector `lba` is in the run. */
  function SectorAt(ss: nat, lba: u32): (at: nat) {
    lba * ss
  }

  /** Block and offset are the sector's place in the run, and there is such a block exactly when there is such a
      sector. */
  lemma Linear(c: Cache, lba: u32, n: nat)
    requires 1 <= c.sectorSize <= c.blockSize && c.blockSize % c.sectorSize == 0
    ensures c.BlockOf(lba) * c.blockSize + c.Offset(lba) == SectorAt(c.sectorSize, lba)
    ensures c.BlockOf(lba) < n <==> SectorAt(c.sectorSize, lba) + c.sectorSize <= n * c.blockSize
  {
    var bs, ss := c.blockSize, c.sectorSize;
    var per := bs / ss;
    var q, r := c.BlockOf(lba), lba % per;
    InBlock(lba, bs, ss);
    assert bs == ss * per && lba == per * q + r;
    Place(ss, per, q, r);
    Counted(q, n, bs, c.Offset(lba), ss);
  }

  lemma Place(ss: nat, per: nat, q: nat, r: nat)
    ensures q * (ss * per) + r * ss == (per * q + r) * ss
  {
  }

  lemma Counted(q: nat, n: nat, bs: nat, off: nat, ss: nat)
    requires off + ss <= bs && 1 <= ss
    ensures q < n <==> q * bs + off + ss <= n * bs
  {
    if q < n {
      NextMultiple(n, q, bs);
    } else if n < q {
      NextMultiple(q, n, bs);
    }
  }

  /** The run of bytes after the accepted writes, each put at its sector. */
  ghost function Written(f: seq<byte>, ss: nat, ops: seq<Op>, oks: seq<bool>): (g: seq<byte>)
    requires |ops| == |oks|
    ensures |g| == |f|
  {
    if ops == [] then f else
    var n := |ops| - 1;
    var g := Written(f, ss, ops[..n], oks[..n]);
    if ops[n].Wr? && oks[n]
      && SectorAt(ss, ops[n].lba) + |ops[n].data| <= |g| then Splice(g, SectorAt(ss, ops[n].lba), ops[n].data) else g
  }

  /** So the disk a run of calls leaves is the flat disk with the accepted writes at their sectors. */
  lemma {:induction false} AppliedFlat(c: Cache, d: seq<seq<byte>>, ops: seq<Op>, oks: seq<bool>)
    requires |ops| == |oks| && 1 <= c.sectorSize <= c.blockSize && c.blockSize % c.sectorSize == 0
    requires Blocks(d, c.blockSize) && forall i :: 0 <= i < |ops| ==> Takes(c, ops[i])
    ensures var e := Applied(d, Accepted(c, ops, oks));
      |e| == |d| && Blocks(e, c.blockSize)
        && Flat(e, c.blockSize) == Written(Flat(d, c.blockSize), c.sectorSize, ops, oks)
  {
    hide Splice, Flat;
    if ops != [] {
      var n := |ops| - 1;
      AppliedFlat(c, d, ops[..n], oks[..n]);
      var cs := Accepted(c, ops[..n], oks[..n]);
      if ops[n].Wr? && oks[n] {
        OneWrite(c, d, cs, ops[n]);
      } else {
        assert cs + ChangeOf(c, ops[n], oks[n]) == cs;
      }
    }
  }

  lemma OneWrite(c: Cache, d: seq<seq<byte>>, cs: seq<Change>, op: Op)
    requires op.Wr? && Takes(c, op) && |Applied(d, cs)| == |d| && Blocks(Applied(d, cs), c.blockSize)
    ensures var e, g := Applied(d, cs + ChangeOf(c, op, true)), Flat(Applied(d, cs), c.blockSize);
      && |e| == |d| && Blocks(e, c.blockSize)
      && Flat(e, c.blockSize)
         == if SectorAt(c.sectorSize, op.lba) + |op.data| <= |g| then Splice(g, SectorAt(c.sectorSize, op.lba), op.data)
           else g
  {
    hide Splice, Flat, Cache.BlockOf, Cache.Offset;
    var e, w := Applied(d, cs), Change(c.BlockOf(op.lba), c.Offset(op.lba), op.data);
    assert (cs + [w])[..|cs|] == cs;
    Linear(c, op.lba, |e|);
    if Fits(e, w) {
      FlatWrite(e, c.blockSize, w.block, w.off, w.data);
    }
  }

  /** And a read answers its sector of that run. */
  lemma AnswersFlat(c: Cache, d: seq<seq<byte>>, lba: u32, dst: seq<byte>)
    requires Answers(c, d, lba, dst) && Blocks(d, c.blockSize)
    ensures At(Flat(d, c.blockSize), SectorAt(c.sectorSize, lba), dst)
  {
    hide Flat, Cache.BlockOf, Cache.Offset;
    Linear(c, lba, |d|);
    FlatPart(d, c.blockSize, c.BlockOf(lba));
    SubSlice(Flat(d, c.blockSize), c.BlockOf(lba) * c.blockSize, c.blockSize, c.Offset(lba), c.sectorSize);
  }
}

/** One erase block held in memory between sector writes. The disk the caller sees is flash overlaid with
    the held block. */
module BlockCache {
  import opened Bytes

  const INVALID := 0xFFFF_FFFF

  class Cache {
    const blockSize: nat
    const sectorSize: nat
    const buf: array<byte>
    /** Flash, block by block. */
    var flash: seq<seq<byte>>
    var block: u32
    var dirty: bool
    /** A block write has failed, and with it the held bytes were given up. */
    ghost var lost: bool

    ghost predicate Shaped()
      reads this
    {
      && 1 <= sectorSize <= blockSize && blockSize % sectorSize == 0 && buf.Length == blockSize
      && |flash| <= INVALID && (forall b :: 0 <= b < |flash| ==> |flash[b]| == blockSize)
      && (block == INVALID ==> !dirty) && (block != INVALID ==> block < |flash|)
    }

    /** Until a block write fails, a clean held block is the one in flash. */
    ghost predicate Valid()
      reads this, buf
    {
      Shaped() && (!lost && block != INVALID && !dirty ==> buf[..] == flash[block])
    }

    /** The disk as its users see it. */
    ghost function Disk(): (d: seq<seq<byte>>)
      requires Shaped()
      reads this, buf
      ensures |d| == |flash|
    {
      if block == INVALID then flash else flash[block := buf[..]]
    }

    /** The block sector `lba` is in, and where in it. */
    function BlockOf(lba: u32): u32
      requires 1 <= sectorSize <= blockSize && blockSize % sectorSize == 0
    {
      InBlock(lba, blockSize, sectorSize);
      lba / (blockSize / sectorSize)
    }

    function Offset(lba: u32): (o: nat)
      requires 1 <= sectorSize <= blockSize && blockSize % sectorSize == 0
      ensures o + sectorSize <= blockSize
    {
      InBlock(lba, blockSize, sectorSize);
      lba % (blockSize / sectorSize) * sectorSize
    }

    constructor (blockSize: nat, sectorSize: nat, flash: seq<seq<byte>>)
      requires 1 <= sectorSize <= blockSize && blockSize % sectorSize == 0
      requires |flash| <= INVALID && forall b :: 0 <= b < |flash| ==> |flash[b]| == blockSize
      ensures Valid() && !lost && Disk() == flash && this.flash == flash && fresh(buf)
      ensures this.blockSize == blockSize && this.sectorSize == sectorSize
    {
      this.blockSize, this.sectorSize, this.flash := blockSize, sectorSize, flash;
      buf := new byte[blockSize](_ => 0);
      block, dirty, lost := INVALID, false, false;
    }

    /** The device's block read: it may fail, and then the buffer holds anything. */
    method ReadBlock(b: u32) returns (ok: bool)
      requires Shaped()
      modifies buf
      ensures ok ==> b < |flash| && buf[..] == flash[b]
    {
      ok := *;
      if b >= |flash| {
        ok := false;
      }
      if ok {
        Store(buf, 0, flash[b]);
      } else if buf.Length > 0 {
        buf[0] := *;
      }
    }

    /** The device's block write: it may fail, and then the block in flash is anybody's guess. */
    method WriteBlock(b: u32) returns (ok: bool)
      requires Shaped() && b < |flash|
      modifies this`flash, this`lost
      ensures Shaped() && |flash| == |old(flash)| && (lost <==> old(lost) || !ok)
      ensures ok ==> flash == old(flash)[b := buf[..]]
    {
      ok := *;
      if ok {
        flash := flash[b := buf[..]];
      } else {
        lost := true;
      }
    }

    /** bc_flush: flash becomes the disk. */
    method Flush() returns (ok: bool)
      requires Valid()
      modifies this
      ensures Valid() && |flash| == |old(flash)| && (lost <==> old(lost) || !ok) && block == old(block) && !dirty
      ensures !lost ==> Disk() == old(Disk()) == flash
    {
      if block == INVALID || !dirty {
        return true;
      }
      ok := WriteBlock(block);
      dirty := false;
    }

    /** Hold block `b`. A block that cannot be read costs nothing: what was held has been flushed. */
    method Load(b: u32) returns (ok: bool)
      requires Valid() && b != INVALID
      modifies this, buf
      ensures Valid() && |flash| == |old(flash)| && (old(lost) ==> lost) && (ok ==> block == b)
      ensures !lost ==> Disk() == old(Disk()) && (!ok ==> block == INVALID)
    {
      if block == b {
        return true;
      }
      var flushed := Flush();
      if !flushed {
        return false;
      }
      var got := ReadBlock(b);
      if !got {
        block := INVALID;
        return false;
      }
      block := b;
      ok := true;
    }

    /** bc_read_sector: the disk's bytes, and nothing changes. */
    method ReadSector(lba: u32) returns (ok: bool, dst: seq<byte>)
      requires Valid() && BlockOf(lba) != INVALID
      modifies this, buf
      ensures Valid() && |flash| == |old(flash)| && (old(lost) ==> lost)
      ensures !lost ==> Disk() == old(Disk())
      ensures ok ==> BlockOf(lba) < |flash| && dst == Disk()[BlockOf(lba)][Offset(lba)..Offset(lba) + sectorSize]
    {
      dst := [];
      ok := Load(BlockOf(lba));
      if ok {
        dst := buf[Offset(lba)..Offset(lba) + sectorSize];
        assert Disk()[block] == buf[..];
      }
    }

    /** bc_write_sector: exactly one sector of the disk changes, and none when it fails. */
    method WriteSector(lba: u32, src: seq<byte>) returns (ok: bool)
      requires Valid() && BlockOf(lba) != INVALID && |src| == sectorSize
      modifies this, buf
      ensures Valid() && |flash| == |old(flash)| && (old(lost) ==> lost)
      ensures ok ==> BlockOf(lba) < |flash|
      ensures ok && !lost ==> Disk() == old(Disk())[BlockOf(lba) := Splice(old(Disk())[BlockOf(lba)], Offset(lba), src)]
      ensures !ok && !lost ==> Disk() == old(Disk())
    {
      ok := Load(BlockOf(lba));
      if ok {
        assert Disk()[block] == buf[..];
        Store(buf, Offset(lba), src);
        dirty := true;
      }
    }

    /** bc_discard: the disk goes back to what flash holds. */
    method Discard()
      requires Valid()
      modifies this`dirty, this`block
      ensures Valid() && Disk() == flash == old(flash)
    {
      dirty := false;
      block := INVALID;
    }
  }

  /** The one sector whose block number is the mark for none held, so that the cache answers for it from
      whatever the buffer holds: the last of all, with one sector to a block. */
  lemma MarkedSector(lba: u32, bs: nat, ss: nat)
    requires 1 <= ss <= bs && bs % ss == 0
    ensures lba / (bs / ss) == INVALID <==> bs == ss && lba == INVALID
  {
    var per := bs / ss;
    InBlock(lba, bs, ss);
    assert bs == ss * per;
    if per > 1 {
      Halved(lba, per);
    }
  }

  lemma Halved(x: nat, p: nat)
    requires 2 <= p
    ensures 2 * (x / p) <= x
  {
    var q := x / p;
    assert x == p * q + x % p;
    Quotient(x, p);
    Stretch(p - 1, q);
    assert p * q == (p - 1) * q + q;
  }

  lemma InBlock(lba: u32, bs: nat, ss: nat)
    requires 1 <= ss <= bs && bs % ss == 0
    ensures 1 <= bs / ss && 0 <= lba / (bs / ss) <= lba && 0 <= lba % (bs / ss) * ss && lba % (bs / ss) * ss + ss <= bs
  {
    var per := bs / ss;
    assert bs == ss * per;
    Quotient(lba, per);
    Room(lba % per, per, ss);
  }

  lemma Room(k: nat, per: nat, ss: nat)
    requires k < per
    ensures 0 <= k * ss && k * ss + ss <= ss * per
  {
    var d := per - k - 1;
    assert per * ss == k * ss + ss + d * ss;
    assert 0 <= d * ss;
  }

  lemma Quotient(x: nat, p: nat)
    requires 1 <= p
    ensures 0 <= x / p <= x
  {
    Stretch(p, x / p);
  }

  lemma {:induction false} Stretch(p: nat, q: int)
    requires 1 <= p
    ensures q >= 0 ==> q <= p * q
  {
    if p > 1 {
      Stretch(p - 1, q);
      assert p * q == (p - 1) * q + q;
    }
  }

  // ----- whole runs

  datatype Op = Rd(lba: u32) | Wr(lba: u32, data: seq<byte>) | Sync

  /** One sector of a flat disk overwritten. */
  datatype Change = Change(block: nat, off: nat, data: seq<byte>)

  predicate Fits(d: seq<seq<byte>>, c: Change) {
    c.block < |d| && c.off + |c.data| <= |d[c.block]|
  }

  /** A flat disk after a row of changes; one that does not fit changes nothing. */
  function Applied(d: seq<seq<byte>>, cs: seq<Change>): seq<seq<byte>> {
    if cs == [] then d else
    var e, c := Applied(d, cs[..|cs| - 1]), cs[|cs| - 1];
    if Fits(e, c) then e[c.block := Splice(e[c.block], c.off, c.data)] else e
  }

  lemma AppliedSnoc(d: seq<seq<byte>>, cs: seq<Change>, c: Change)
    requires Fits(Applied(d, cs), c)
    ensures var e := Applied(d, cs); Applied(d, cs + [c]) == e[c.block := Splice(e[c.block], c.off, c.data)]
  {
    assert (cs + [c])[..|cs|] == cs;
  }

  /** The cache's own geometry takes every operation. */
  ghost predicate Takes(c: Cache, op: Op) {
    && 1 <= c.sectorSize <= c.blockSize && c.blockSize % c.sectorSize == 0
    && (op.Rd? ==> c.BlockOf(op.lba) != INVALID)
    && (op.Wr? ==> c.BlockOf(op.lba) != INVALID && |op.data| == c.sectorSize)
  }

  /** The changes of the writes that were accepted, in order. */
  ghost function Accepted(c: Cache, ops: seq<Op>, oks: seq<bool>): seq<Change>
    requires |ops| == |oks| && forall i :: 0 <= i < |ops| ==> Takes(c, ops[i])
  {
    if ops == [] then [] else
    var n := |ops| - 1;
    Accepted(c, ops[..n], oks[..n]) + ChangeOf(c, ops[n], oks[n])
  }

  ghost function ChangeOf(c: Cache, op: Op, ok: bool): seq<Change>
    requires Takes(c, op)
  {
    if op.Wr? && ok then [Change(c.BlockOf(op.lba), c.Offset(op.lba), op.data)] else []
  }

  lemma AcceptedNext(c: Cache, ops: seq<Op>, oks: seq<bool>, i: nat, ok: bool)
    requires i < |ops| && |oks| == i && forall k :: 0 <= k < |ops| ==> Takes(c, ops[k])
    ensures Accepted(c, ops[..i + 1], oks + [ok]) == Accepted(c, ops[..i], oks) + ChangeOf(c, ops[i], ok)
  {
    assert ops[..i + 1][..i] == ops[..i] && (oks + [ok])[..i] == oks;
  }

  /** What a read of sector `lba` of disk `d` answers. */
  ghost predicate Answers(c: Cache, d: seq<seq<byte>>, lba: u32, dst: seq<byte>) {
    && 1 <= c.sectorSize <= c.blockSize && c.blockSize % c.sectorSize == 0
    && c.BlockOf(lba) < |d| && c.Offset(lba) + c.sectorSize <= |d[c.BlockOf(lba)]|
    && dst == d[c.BlockOf(lba)][c.Offset(lba)..c.Offset(lba) + c.sectorSize]
  }

  /** Call `i`, if it was an accepted read, answered from the disk as the accepted writes before it left it. */
  ghost predicate Right(c: Cache, d: seq<seq<byte>>, ops: seq<Op>, oks: seq<bool>, outs: seq<seq<byte>>, i: nat)
    requires i < |oks| == |outs| <= |ops| && forall k :: 0 <= k < |ops| ==> Takes(c, ops[k])
  {
    ops[i].Rd? && oks[i] ==> Answers(c, Applied(d, Accepted(c, ops[..i], oks[..i])), ops[i].lba, outs[i])
  }

  /** Any sequence of sector reads, writes and flushes, block reads failing at will: as long as no block
      write has failed, the disk is the old one with exactly the accepted writes applied in order, and every
      accepted read answered from the disk those before it had made. */
  method Run(c: Cache, ops: seq<Op>) returns (oks: seq<bool>, outs: seq<seq<byte>>)
    requires c.Valid() && forall i :: 0 <= i < |ops| ==> Takes(c, ops[i])
    modifies c, c.buf
    ensures c.Valid() && |oks| == |ops| == |outs|
    ensures !c.lost ==> c.Disk() == Applied(old(c.Disk()), Accepted(c, ops, oks))
    ensures !c.lost ==> forall i :: 0 <= i < |ops| ==> Right(c, old(c.Disk()), ops, oks, outs, i)
  {
    hide Splice, Applied, Accepted, Answers, Right;
    oks, outs := [], [];
    ghost var d := c.Disk();
    NothingDone(c, d);
    for i := 0 to |ops|
      invariant c.Valid() && |oks| == |outs| == i
      invariant !c.lost ==> c.Disk() == Applied(d, Accepted(c, ops[..i], oks))
      invariant !c.lost ==> forall k :: 0 <= k < i ==> Right(c, d, ops, oks, outs, k)
    {
      ghost var was := c.Disk();
      var ok, out := Step(c, ops[i]);
      AcceptedNext(c, ops, oks, i, ok);
      if !c.lost {
        StepRight(c, d, ops, oks, outs, i, ok, out);
        OneMore(d, Accepted(c, ops[..i], oks), c, ops[i], ok, c.Disk());
      }
      oks, outs := oks + [ok], outs + [out];
    }
    assert ops[..|ops|] == ops;
  }

  lemma NothingDone(c: Cache, d: seq<seq<byte>>)
    ensures Accepted(c, [], []) == [] && Applied(d, []) == d
  {
  }

  /** One call, and what it makes of the disk. */
  method Step(c: Cache, op: Op) returns (ok: bool, out: seq<byte>)
    requires c.Valid() && Takes(c, op)
    modifies c, c.buf
    ensures c.Valid() && (old(c.lost) ==> c.lost)
    ensures !c.lost ==> Stepped(c, old(c.Disk()), op, ok, c.Disk())
    ensures !c.lost && op.Rd? && ok ==> Answers(c, old(c.Disk()), op.lba, out)
  {
    out := [];
    match op {
      case Rd(lba) =>
        ok, out := c.ReadSector(lba);
      case Wr(lba, data) =>
        ok := c.WriteSector(lba, data);
      case Sync =>
        ok := c.Flush();
    }
  }

  /** `e` is `d` with the change an accepted write makes, and otherwise `d`. */
  ghost predicate Stepped(c: Cache, d: seq<seq<byte>>, op: Op, ok: bool, e: seq<seq<byte>>)
    requires Takes(c, op)
  {
    if op.Wr? && ok then
      var w := Change(c.BlockOf(op.lba), c.Offset(op.lba), op.data);
      Fits(d, w) && e == d[w.block := Splice(d[w.block], w.off, w.data)]
    else e == d
  }

  lemma OneMore(d: seq<seq<byte>>, cs: seq<Change>, c: Cache, op: Op, ok: bool, e: seq<seq<byte>>)
    requires Takes(c, op) && Stepped(c, Applied(d, cs), op, ok, e)
    ensures e == Applied(d, cs + ChangeOf(c, op, ok))
  {
    if op.Wr? && ok {
      AppliedSnoc(d, cs, ChangeOf(c, op, ok)[0]);
    } else {
      assert cs + [] == cs;
    }
  }

  /** The answers so far stay right, and the new one is. */
  lemma StepRight(c: Cache, d: seq<seq<byte>>, ops: seq<Op>, oks: seq<bool>, outs: seq<seq<byte>>, i: nat, ok: bool,
    out: seq<byte>)
    requires i < |ops| && |oks| == |outs| == i && forall k :: 0 <= k < |ops| ==> Takes(c, ops[k])
    requires forall k :: 0 <= k < i ==> Right(c, d, ops, oks, outs, k)
    requires ops[i].Rd? && ok ==> Answers(c, Applied(d, Accepted(c, ops[..i], oks)), ops[i].lba, out)
    ensures forall k :: 0 <= k <= i ==> Right(c, d, ops, oks + [ok], outs + [out], k)
  {
    hide Answers, Applied, Accepted;
    forall k | 0 <= k <= i
      ensures Right(c, d, ops, oks + [ok], outs + [out], k)
    {
      assert (oks + [ok])[..k] == oks[..k];
      if k < i {
        assert Right(c, d, ops, oks, outs, k);
      } else {
        assert oks[..i] == oks;
      }
    }
  }
}

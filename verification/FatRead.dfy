/** Reading a file: walking its chain from the start or from a cursor, and what comes back. */
module FatRead {
  import opened Bytes
  import opened Sectors
  import opened FatChains
  import opened FatVolume
  import opened FatWrite
  import opened Sets

  /** One link, or stay put where the walk loops stop. */
  function Next(g: Geo, secs: seq<Sector>, c: nat): nat {
    if Follows(c) then RawGet(g, secs, c) else c
  }

  function Walk(g: Geo, secs: seq<Sector>, c: nat, k: nat): nat {
    if k == 0 then c else Next(g, secs, Walk(g, secs, c, k - 1))
  }

  lemma {:induction false} WalkOn(g: Geo, secs: seq<Sector>, c: nat, j: nat, k: nat)
    ensures Walk(g, secs, Walk(g, secs, c, j), k) == Walk(g, secs, c, j + k)
  {
    if k > 0 {
      WalkOn(g, secs, c, j, k - 1);
    }
  }

  lemma {:induction false} Stuck(g: Geo, secs: seq<Sector>, c: nat, k: nat)
    requires !Follows(c)
    ensures Walk(g, secs, c, k) == c
  {
    if k > 0 {
      Stuck(g, secs, c, k - 1);
    }
  }

  /** The sector holding byte `within` of cluster `c`. */
  function Lba(g: Geo, c: nat, within: nat): nat
    requires 2 <= c
  {
    g.ClusterAt(c) + within / SECTOR
  }

  /** Up to `len` bytes from byte `within` of cluster `c` on, as far as the chain and the device go. */
  function Stream(g: Geo, secs: seq<Sector>, c: nat, within: nat, len: nat): (r: seq<byte>)
    ensures |r| <= len
    decreases len
  {
    if len == 0 || !Follows(c) || Lba(g, c, within) >= |secs| then [] else
    var n := Piece(within, len);
    secs[Lba(g, c, within)][within % SECTOR..within % SECTOR + n] +
    if within + n >= Bpc(g) then Stream(g, secs, Next(g, secs, c), 0, len - n)
      else Stream(g, secs, c, within + n, len - n)
  }

  /** The length after f12_read's check against the size, which adds in 32 bits. */
  function Clamp(off: u32, len: u32, size: u32): nat
    requires off < size
  {
    if (off + len) % W32 > size then size - off else len
  }

  /** What a read with no cursor returns. */
  function Plain(g: Geo, secs: seq<Sector>, first: u16, size: u32, off: u32, len: u32): seq<byte>
    requires 0 < Bpc(g)
  {
    if off >= size then [] else Stream(g, secs, Walk(g, secs, first, off / Bpc(g)), off % Bpc(g), Clamp(off, len, size))
  }

  class Cursor {
    var first: nat
    var cluster: nat
    var at: nat

    constructor ()
      ensures first == 0 && cluster == 0 && at == 0
    {
      first, cluster, at := 0, 0, 0;
    }

    /** The cursor is where a walk of its file would be. */
    ghost predicate Seated(g: Geo, secs: seq<Sector>)
      reads this
    {
      cluster >= 2 ==> OnPath(g, secs, first, cluster, at)
    }
  }

  /** `cluster` is the one that holds byte `at` of the file starting at `first`, and begins there. */
  ghost predicate OnPath(g: Geo, secs: seq<Sector>, first: nat, cluster: nat, at: nat) {
    0 < Bpc(g) && at % Bpc(g) == 0 && cluster == Walk(g, secs, first, at / Bpc(g))
  }

  /** f12_read. Whatever the table holds and wherever the cursor was left, the answer is that of a read
      from the start. */
  method Read(g: Geo, secs: seq<Sector>, first: u16, size: u32, isDir: bool, cur: Cursor?, off: u32, len: u32)
    returns (out: seq<byte>)
    requires 1 <= g.spc && (cur != null ==> cur.Seated(g, secs))
    modifies cur
    ensures cur != null ==> cur.Seated(g, secs)
    ensures out == if isDir then [] else Plain(g, secs, first, size, off, len)
  {
    if isDir || off >= size {
      return [];
    }
    AtStart(g, secs, first);
    hide OnPath, Plain;
    var cluster, base := first, 0;
    if cur != null && cur.first == first && cur.cluster >= 2 && cur.at <= off {
      cluster, base := cur.cluster, cur.at;
    }
    var to, start;
    to, start, out := ReadFrom(g, secs, first, cluster, size, off, len, base);
    if cur != null && to >= 2 {
      cur.first, cur.cluster, cur.at := first, to, start;
    }
  }

  /** The read itself, from a cluster known to begin at `base`; also where it started. */
  method ReadFrom(g: Geo, secs: seq<Sector>, first: u16, c: nat, size: u32, off: u32, len: u32, base: nat)
    returns (to: nat, start: nat, out: seq<byte>)
    requires base <= off < size && OnPath(g, secs, first, c, base)
    ensures OnPath(g, secs, first, to, start) && out == Plain(g, secs, first, size, off, len)
  {
    hide OnPath, Stream, Clamp, Plain, Skip, Start, Walk, Bpc;
    Resume(g, secs, first, c, size, off, len, base);
    var n := Clamp(off, len, size);
    start := Start(off, base, Bpc(g));
    to := SkipLinks(g, secs, c, Skip(off, base, Bpc(g)));
    out := Collect(g, secs, to, off - start, n);
  }

  /** Links to follow from a cluster that begins at `base`, and where that leads to in the file. */
  function Skip(off: nat, base: nat, b: nat): nat
    requires 0 < b && base <= off
  {
    (off - base) / b
  }

  function Start(off: nat, base: nat, b: nat): nat
    requires 0 < b && base <= off
  {
    base + (off - base) / b * b
  }

  lemma Steps(off: nat, base: nat, b: nat)
    requires 0 < b && base <= off && base % b == 0
    ensures base / b + Skip(off, base, b) == off / b && Start(off, base, b) % b == 0
      && Start(off, base, b) / b == off / b
    ensures Start(off, base, b) <= off && off - Start(off, base, b) == off % b
  {
    var q, skip := base / b, (off - base) / b;
    assert base == b * q;
    assert off - base == b * skip + (off - base) % b;
    assert off == b * (q + skip) + (off - base) % b by {
      assert b * (q + skip) == b * q + b * skip;
    }
    Digits(q + skip, b, (off - base) % b);
    Digits(q + skip, b, 0);
    assert base + skip * b == b * (q + skip) + 0;
  }

  /** Resuming where the cursor stands leads where walking from the start does. */
  lemma Resume(g: Geo, secs: seq<Sector>, first: u16, c: nat, size: u32, off: u32, len: u32, base: nat)
    requires base <= off < size && OnPath(g, secs, first, c, base)
    ensures 0 < Bpc(g)
    ensures var start, to := Start(off, base, Bpc(g)), Walk(g, secs, c, Skip(off, base, Bpc(g)));
      && start <= off && OnPath(g, secs, first, to, start)
      && Stream(g, secs, to, off - start, Clamp(off, len, size)) == Plain(g, secs, first, size, off, len)
  {
    hide RawGet, Walk, Skip, Start, Stream, Bpc, Clamp;
    Steps(off, base, Bpc(g));
    WalkOn(g, secs, first, base / Bpc(g), Skip(off, base, Bpc(g)));
  }

  lemma AtStart(g: Geo, secs: seq<Sector>, first: nat)
    requires 1 <= g.spc
    ensures 0 < Bpc(g) && OnPath(g, secs, first, first, 0)
  {
  }

  /** Follow `skip` links, or as many as there are. */
  method SkipLinks(g: Geo, secs: seq<Sector>, c0: nat, skip0: nat) returns (c: nat)
    ensures c == Walk(g, secs, c0, skip0)
  {
    hide RawGet;
    c := c0;
    var skip := skip0;
    while skip > 0 && Follows(c)
      invariant 0 <= skip <= skip0 && c == Walk(g, secs, c0, skip0 - skip)
    {
      c := RawGet(g, secs, c);
      skip := skip - 1;
    }
    WalkOn(g, secs, c0, skip0 - skip, skip);
    if skip > 0 {
      Stuck(g, secs, c, skip);
    }
  }

  /** What follows the first piece. */
  function Rest(g: Geo, secs: seq<Sector>, c: nat, within: nat, len: nat): seq<byte>
    requires Follows(c)
  {
    var n := Piece(within, len);
    if within + n >= Bpc(g) then Stream(g, secs, RawGet(g, secs, c), 0, len - n)
      else Stream(g, secs, c, within + n, len - n)
  }

  lemma Unfold(g: Geo, secs: seq<Sector>, c: nat, within: nat, len: nat)
    requires 0 < len && Follows(c) && Lba(g, c, within) < |secs|
    ensures Stream(g, secs, c, within, len)
         == secs[Lba(g, c, within)][within % SECTOR..within % SECTOR + Piece(within, len)]
            + Rest(g, secs, c, within, len)
  {
    hide RawGet, Lba, Bpc;
  }

  lemma StreamStep(g: Geo, secs: seq<Sector>, c: nat, within: nat, len: nat, out: seq<byte>)
    requires 0 < len && Follows(c) && Lba(g, c, within) < |secs|
    ensures var n := Piece(within, len);
      out + Stream(g, secs, c, within, len) == out + secs[Lba(g, c, within)][within % SECTOR..within % SECTOR + n]
        + if within + n >= Bpc(g) then Stream(g, secs, RawGet(g, secs, c), 0, len - n)
          else Stream(g, secs, c, within + n, len - n)
  {
    hide RawGet, Lba, Bpc;
  }

  /** The copying loop. */
  method Collect(g: Geo, secs: seq<Sector>, c0: nat, within0: nat, len: nat) returns (out: seq<byte>)
    ensures out == Stream(g, secs, c0, within0, len)
  {
    hide RawGet, Geo.ClusterAt, Bpc, Piece, Lba, Stream;
    out := [];
    var c: nat, within: nat := c0, within0;
    while |out| < len && Follows(c) && Lba(g, c, within) < |secs|
      invariant |out| <= len && out + Stream(g, secs, c, within, len - |out|) == Stream(g, secs, c0, within0, len)
      decreases len - |out|
    {
      var n := Piece(within, len - |out|);
      StreamStep(g, secs, c, within, len - |out|, out);
      out := out + secs[Lba(g, c, within)][within % SECTOR..within % SECTOR + n];
      within := within + n;
      if within >= Bpc(g) {
        within, c := 0, RawGet(g, secs, c);
      }
    }
    StreamEnd(g, secs, c, within, len - |out|);
  }

  lemma StreamEnd(g: Geo, secs: seq<Sector>, c: nat, within: nat, len: nat)
    requires len == 0 || !Follows(c) || Lba(g, c, within) >= |secs|
    ensures Stream(g, secs, c, within, len) == []
  {
  }

  // ----- on a sound volume

  /** Walking a chain visits its clusters in order and then stops. */
  lemma {:induction false} WalkChain(g: Geo, secs: seq<Sector>, first: nat, cs: seq<nat>, k: nat)
    requires g.Ok(|secs|) && IsChain(TableOf(g, secs), cs) && Heads(first, cs)
    ensures if k < |cs| then Walk(g, secs, first, k) == cs[k] else !Follows(Walk(g, secs, first, k))
  {
    hide TableOf, RawGet;
    if k > 0 {
      WalkChain(g, secs, first, cs, k - 1);
      if k - 1 < |cs| {
        RawIsTable(g, secs, cs[k - 1]);
      }
    }
  }

  /** Where the `k`-th cluster's bytes begin in the chain's. */
  ghost function Mark(g: Geo, secs: seq<Sector>, cs: seq<nat>, k: nat): nat
    requires g.Ok(|secs|) && (forall j :: 0 <= j < |cs| ==> g.Has(cs[j])) && k <= |cs|
  {
    |DataOf(g, secs, cs[..k])|
  }

  lemma {:induction false} DataPrefix(g: Geo, secs: seq<Sector>, cs: seq<nat>, k: nat)
    requires g.Ok(|secs|) && (forall j :: 0 <= j < |cs| ==> g.Has(cs[j])) && k <= |cs|
    ensures DataOf(g, secs, cs[..k]) <= DataOf(g, secs, cs)
    decreases |cs|
  {
    hide ClusterOf;
    if k < |cs| {
      var init := cs[..|cs| - 1];
      assert init[..k] == cs[..k];
      DataPrefix(g, secs, init, k);
    } else {
      assert cs[..k] == cs;
    }
  }

  lemma MarkStep(g: Geo, secs: seq<Sector>, cs: seq<nat>, k: nat)
    requires g.Ok(|secs|) && (forall j :: 0 <= j < |cs| ==> g.Has(cs[j])) && k < |cs|
    ensures Mark(g, secs, cs, k + 1) == Mark(g, secs, cs, k) + Bpc(g) <= |DataOf(g, secs, cs)|
    ensures DataOf(g, secs, cs)[Mark(g, secs, cs, k)..Mark(g, secs, cs, k + 1)] == ClusterOf(g, secs, cs[k])
  {
    hide ClusterOf, Bpc;
    DataPrefix(g, secs, cs, k + 1);
    var p := cs[..k + 1];
    assert p[..|p| - 1] == cs[..k] && p[|p| - 1] == cs[k];
    var a, b := DataOf(g, secs, cs[..k]), ClusterOf(g, secs, cs[k]);
    assert DataOf(g, secs, p) == a + b;
    assert DataOf(g, secs, cs)[..|a + b|] == a + b;
    assert (a + b)[|a|..] == b;
  }

  /** A piece of a sector is a piece of the chain. */
  lemma PieceAt(g: Geo, secs: seq<Sector>, cs: seq<nat>, k: nat, within: nat, n: nat)
    requires g.Ok(|secs|) && (forall j :: 0 <= j < |cs| ==> g.Has(cs[j])) && k < |cs|
    requires within < Bpc(g) && within % SECTOR + n <= SECTOR
    ensures g.Has(cs[k]) && Lba(g, cs[k], within) < |secs| && within + n <= Bpc(g)
    ensures Mark(g, secs, cs, k) + within + n <= |DataOf(g, secs, cs)|
    ensures DataOf(g, secs, cs)[Mark(g, secs, cs, k) + within..Mark(g, secs, cs, k) + within + n]
         == secs[Lba(g, cs[k], within)][within % SECTOR..within % SECTOR + n]
  {
    hide DataOf, Geo.ClusterAt, Mark;
    var c := cs[k];
    ClusterIn(g, |secs|, c);
    assert within / SECTOR < g.spc;
    RegionSlice(secs, g.ClusterAt(c), g.spc, Lba(g, c, within), within % SECTOR, n);
    assert ClusterOf(g, secs, c)[within..within + n] == secs[Lba(g, c, within)][within % SECTOR..within % SECTOR + n];
    hide ClusterOf, Bpc, Lba;
    MarkStep(g, secs, cs, k);
    SubSlice(DataOf(g, secs, cs), Mark(g, secs, cs, k), Bpc(g), within, n);
  }

  /** Up to `len` of the data's bytes from `p` on. */
  function From(data: seq<byte>, p: nat, len: nat): seq<byte> {
    data[Min(p, |data|)..Min(p + len, |data|)]
  }

  lemma FromSplit(data: seq<byte>, p: nat, n: nat, len: nat)
    requires n <= len && p + n <= |data|
    ensures From(data, p, len) == data[p..p + n] + From(data, p + n, len - n)
  {
  }

  /** From inside the `k`-th cluster of a chain the stream is the chain's data. */
  lemma {:induction false} StreamIs(g: Geo, secs: seq<Sector>, cs: seq<nat>, k: nat, within: nat, len: nat)
    requires g.Ok(|secs|) && IsChain(TableOf(g, secs), cs) && (forall j :: 0 <= j < |cs| ==> g.Has(cs[j]))
    requires k < |cs| && within < Bpc(g)
    ensures Stream(g, secs, cs[k], within, len) == From(DataOf(g, secs, cs), Mark(g, secs, cs, k) + within, len)
    decreases len
  {
    hide TableOf, RawGet, DataOf, Mark, Lba, From, Geo.Ok, IsChain, Follows, Stream, Bpc, Piece;
    var data, p := DataOf(g, secs, cs), Mark(g, secs, cs, k) + within;
    if len == 0 {
      StreamEnd(g, secs, cs[k], within, 0);
      FromNone(data, p);
      return;
    }
    var n := Piece(within, len);
    PieceAt(g, secs, cs, k, within, n);
    FromSplit(data, p, n, len);
    LinkAt(g, secs, cs, k);
    MarkStep(g, secs, cs, k);
    Unfold(g, secs, cs[k], within, len);
    if within + n < Bpc(g) {
      StreamIs(g, secs, cs, k, within + n, len - n);
    } else if k + 1 < |cs| {
      StreamIs(g, secs, cs, k + 1, 0, len - n);
    } else {
      LastMark(g, secs, cs);
      StreamEnd(g, secs, RawGet(g, secs, cs[k]), 0, len - n);
      FromEnd(data, p + n, len - n);
    }
    assert Rest(g, secs, cs[k], within, len) == From(data, p + n, len - n);
    hide Rest;
  }

  lemma FromNone(data: seq<byte>, p: nat)
    ensures From(data, p, 0) == []
  {
  }

  lemma FromEnd(data: seq<byte>, p: nat, len: nat)
    requires |data| <= p
    ensures From(data, p, len) == []
  {
  }

  lemma LastMark(g: Geo, secs: seq<Sector>, cs: seq<nat>)
    requires g.Ok(|secs|) && forall j :: 0 <= j < |cs| ==> g.Has(cs[j])
    ensures Mark(g, secs, cs, |cs|) == |DataOf(g, secs, cs)|
  {
    assert cs[..|cs|] == cs;
  }

  lemma LinkAt(g: Geo, secs: seq<Sector>, cs: seq<nat>, k: nat)
    requires g.Ok(|secs|) && IsChain(TableOf(g, secs), cs) && k < |cs|
    ensures Follows(cs[k])
      && if k + 1 < |cs| then RawGet(g, secs, cs[k]) == cs[k + 1] else !Follows(RawGet(g, secs, cs[k]))
  {
    hide TableOf, RawGet;
    RawIsTable(g, secs, cs[k]);
  }

  /** A read of a chained file is the chain's data from the offset on, as long as the length allows. */
  lemma PlainIs(g: Geo, secs: seq<Sector>, first: u16, cs: seq<nat>, size: u32, off: u32, len: u32)
    requires g.Ok(|secs|) && IsChain(TableOf(g, secs), cs) && Heads(first, cs)
      && (forall j :: 0 <= j < |cs| ==> g.Has(cs[j]))
    requires off < size && 0 < Bpc(g)
    ensures Plain(g, secs, first, size, off, len) == From(DataOf(g, secs, cs), off, Clamp(off, len, size))
  {
    hide TableOf, RawGet, DataOf, Mark, From, Geo.Ok, IsChain, Stream, Bpc, Clamp, Walk, Heads;
    var k, within := off / Bpc(g), off % Bpc(g);
    WalkChain(g, secs, first, cs, k);
    if k < |cs| {
      MarkIs(g, secs, cs, k);
      StreamIs(g, secs, cs, k, within, Clamp(off, len, size));
      Pos(off, k, Bpc(g));
    } else {
      StreamEnd(g, secs, Walk(g, secs, first, k), within, Clamp(off, len, size));
      Past(off, |cs|, Bpc(g));
      FromEnd(DataOf(g, secs, cs), off, Clamp(off, len, size));
    }
  }

  lemma MarkIs(g: Geo, secs: seq<Sector>, cs: seq<nat>, k: nat)
    requires g.Ok(|secs|) && (forall j :: 0 <= j < |cs| ==> g.Has(cs[j])) && k <= |cs|
    ensures Mark(g, secs, cs, k) == k * Bpc(g)
  {
  }

  lemma Pos(off: nat, k: nat, b: nat)
    requires 0 < b && k == off / b
    ensures k * b + off % b == off
  {
  }

  lemma Past(off: nat, n: nat, b: nat)
    requires 0 < b && n <= off / b
    ensures n * b <= off
  {
    var k := off / b;
    assert (k - n) * b >= 0;
    assert k * b == n * b + (k - n) * b;
    Pos(off, k, b);
  }

  /** The clusters of a volume hold less than 32 bits can count. */
  lemma DataFits(g: Geo, secs: seq<Sector>, cs: seq<nat>)
    requires g.Ok(|secs|) && IsChain(TableOf(g, secs), cs) && forall j :: 0 <= j < |cs| ==> g.Has(cs[j])
    ensures |DataOf(g, secs, cs)| < 0x2000_0000 && Bpc(g) < 0x2_0000
  {
    hide TableOf;
    forall i, j | 0 <= i < j < |cs|
      ensures cs[i] != cs[j]
    {
      Acyclic(TableOf(g, secs), cs, i, j);
    }
    ListSize(cs);
    SubsetSize(Elems(cs), Numbers(g.clusters + 2));
    Product(|cs|, MAX_CLUSTERS, Bpc(g), SECTOR * 255);
  }

  lemma Product(a: nat, m: nat, b: nat, n: nat)
    requires a <= m && b <= n
    ensures a * b <= m * n
  {
    assert (m - a) * b >= 0;
    assert m * (n - b) >= 0;
  }

  /** What a caller means by a read: the file's bytes, none past its size. */
  function Wanted(data: seq<byte>, size: nat, off: nat, len: nat): seq<byte>
    requires size <= |data|
  {
    From(data[..size], off, len)
  }

  /** f12_read returns that, unless the offset and length add up past 32 bits on a file that does not fill
      its last cluster: then it runs on to the end of the cluster. */
  lemma ReadExact(g: Geo, secs: seq<Sector>, first: u16, cs: seq<nat>, size: u32, off: u32, len: u32)
    requires g.Ok(|secs|) && IsChain(TableOf(g, secs), cs) && Heads(first, cs)
      && (forall j :: 0 <= j < |cs| ==> g.Has(cs[j]))
    requires 0 < Bpc(g) && size <= |DataOf(g, secs, cs)|
    ensures Plain(g, secs, first, size, off, len) == Wanted(DataOf(g, secs, cs), size, off, len)
      <==> off >= size || off + len < W32 || size == |DataOf(g, secs, cs)|
  {
    hide TableOf, DataOf, Geo.Ok, IsChain, Stream, Bpc, Walk, Heads;
    DataFits(g, secs, cs);
    if off < size {
      PlainIs(g, secs, first, cs, size, off, len);
      hide Plain;
      ClampExact(DataOf(g, secs, cs), size, off, len);
    }
  }

  lemma ClampExact(data: seq<byte>, size: u32, off: u32, len: u32)
    requires off < size <= |data| < W32
    ensures From(data, off, Clamp(off, len, size)) == Wanted(data, size, off, len)
      <==> off + len < W32 || size == |data|
  {
    var got, want := From(data, off, Clamp(off, len, size)), Wanted(data, size, off, len);
    if off + len < W32 {
      assert got == want;
    } else {
      Wrapped(off + len);
      assert |got| == |data| - off && |want| == size - off;
      if size == |data| {
        assert got == want;
      }
    }
  }

  lemma Wrapped(x: int)
    requires W32 <= x < 2 * W32
    ensures x % W32 == x - W32
  {
  }

  /** A request for part of the file whose chain starts at `first`. */
  datatype Request = Request(first: u16, size: u32, off: u32, len: u32)

  /** Any sequence of reads, of any files, through one reused cursor: each answer is that of a read without. */
  method ReadMany(g: Geo, secs: seq<Sector>, reqs: seq<Request>) returns (outs: seq<seq<byte>>)
    requires 1 <= g.spc
    ensures |outs| == |reqs| && 0 < Bpc(g)
    ensures forall i :: 0 <= i < |reqs| ==>
      outs[i] == Plain(g, secs, reqs[i].first, reqs[i].size, reqs[i].off, reqs[i].len)
  {
    AtStart(g, secs, 0);
    hide Plain, OnPath, Bpc;
    var cur := new Cursor();
    outs := [];
    for i := 0 to |reqs|
      invariant cur.Seated(g, secs) && |outs| == i
      invariant forall k :: 0 <= k < i ==>
        outs[k] == Plain(g, secs, reqs[k].first, reqs[k].size, reqs[k].off, reqs[k].len)
    {
      var out := Read(g, secs, reqs[i].first, reqs[i].size, false, cur, reqs[i].off, reqs[i].len);
      outs := outs + [out];
    }
  }
}

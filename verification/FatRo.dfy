/** The read-only FAT12/16/32 reader: a one-sector cache of the table and a cursor per file, neither of
    which may change an answer. */
module FatRo {
  import opened Bytes
  import opened Sectors
  import opened FatNames

  datatype Kind = Fat12 | Fat16 | Fat32

  /** What mounting worked out: entry width, and where the table and the clusters are. */
  datatype Ro = Ro(kind: Kind, spc: nat, firstFat: u32, firstData: u32, clusters: u32)
  {
    function ClusterBytes(): nat {
      spc * SECTOR
    }

    /** Sectors per cluster are a power of two up to 128, as mounting checks, and the table lies where a
        32-bit sector number never reaches the cache's "nothing" mark. */
    ghost predicate Ok() {
      spc in {1, 2, 4, 8, 16, 32, 64, 128} && firstFat <= 0xFF7F_FFFF && clusters <= 0xFFFF_FFFC
    }

    predicate Valid(c: int) {
      2 <= c <= clusters + 1
    }
  }

  const NOTHING := 0xFFFF_FFFF

  // ----- the table without a cache

  function TableByte(g: Ro, dev: seq<Sector>, off: u32): Maybe<byte> {
    var lba := (g.firstFat + off / SECTOR) % W32;
    if lba < |dev| then Some(dev[lba][off % SECTOR]) else None
  }

  /** Where an entry is, how many bytes of the table it touches, and its value from those bytes. */
  function EntryAt(kind: Kind, c: u32): u32 {
    match kind
    case Fat12 => (c + c / 2) % W32
    case Fat16 => c * 2 % W32
    case Fat32 => c * 4 % W32
  }

  function EntryValue(kind: Kind, c: u32, b0: byte, b1: byte, b2: byte, b3: byte): u32 {
    var w: int := 256 * b1;
    match kind
    case Fat12 => if c % 2 == 1 then (b0 + w) / 16 else (b0 + w) % 0x1000
    case Fat16 => b0 + w
    case Fat32 => (b0 + w + 0x1_0000 * (b2 as int) + 0x100_0000 * (b3 as int)) % 0x1000_0000
  }

  /** Values from here on end a chain. */
  function EndMark(kind: Kind): u32 {
    match kind
    case Fat12 => 0xFF8
    case Fat16 => 0xFFF8
    case Fat32 => 0x0FFF_FFF8
  }

  function Ended(kind: Kind, v: u32): u32 {
    if v >= EndMark(kind) then 0 else v
  }

  /** The next cluster of a chain, zero where it cannot be followed. */
  function Next(g: Ro, dev: seq<Sector>, c: u32): u32 {
    if !g.Valid(c) then 0 else
    var off := EntryAt(g.kind, c);
    var b0, b1 := TableByte(g, dev, off), TableByte(g, dev, (off + 1) % W32);
    if b0.None? || b1.None? then 0
    else if !g.kind.Fat32? then Ended(g.kind, EntryValue(g.kind, c, b0.value, b1.value, 0, 0))
    else
      var b2, b3 := TableByte(g, dev, (off + 2) % W32), TableByte(g, dev, (off + 3) % W32);
      if b2.None? || b3.None? then 0 else Ended(g.kind, EntryValue(g.kind, c, b0.value, b1.value, b2.value, b3.value))
  }

  // ----- reading without a cursor

  function Walk(g: Ro, dev: seq<Sector>, first: u32, k: nat): u32 {
    if k == 0 then first else Next(g, dev, Walk(g, dev, first, k - 1))
  }

  /** A walk that has fallen off its chain stays off it. */
  lemma {:induction false} DeadStays(g: Ro, dev: seq<Sector>, first: u32, j: nat, k: nat)
    requires j <= k && Walk(g, dev, first, j) < 2
    ensures Walk(g, dev, first, k) < 2
    decreases k
  {
    if j < k {
      DeadStays(g, dev, first, j, k - 1);
    }
  }

  /** The sector holding byte `within` of cluster `c`. */
  function Lba(g: Ro, c: u32, within: nat): nat
    requires g.Valid(c)
  {
    (g.firstData + (c - 2) * g.spc + within / SECTOR) % W32
  }

  predicate InReach(g: Ro, dev: seq<Sector>, c: u32, within: nat) {
    g.Valid(c) && Lba(g, c, within) < |dev|
  }

  /** Up to `len` bytes from byte `within` of cluster `c` on. */
  function Stream(g: Ro, dev: seq<Sector>, c: u32, within: nat, len: nat): (r: seq<byte>)
    decreases len
  {
    if len == 0 || !InReach(g, dev, c, within) then []
    else dev[Lba(g, c, within)][within % SECTOR..within % SECTOR + Piece(within, len)] + Rest(g, dev, c, within, len)
  }

  function Rest(g: Ro, dev: seq<Sector>, c: u32, within: nat, len: nat): seq<byte>
    requires 0 < len
    decreases len, 0
  {
    var n := Piece(within, len);
    if within + n >= g.ClusterBytes() then Stream(g, dev, Next(g, dev, c), 0, len - n)
      else Stream(g, dev, c, within + n, len - n)
  }

  /** What a read from the start of the file returns. The skip loop adds a cluster to its position in 32
      bits, so it never arrives in the last cluster below 4 GB. */
  function Plain(g: Ro, dev: seq<Sector>, first: u32, size: u32, off: u32, len: u32): seq<byte>
    requires 0 < g.ClusterBytes()
  {
    if len == 0 || off >= size || off >= W32 - g.ClusterBytes() then []
    else Stream(g, dev, Walk(g, dev, first, Idx(g, off)), off % g.ClusterBytes(), Min(len, size - off))
  }

  /** Which cluster of a file holds byte `at`. */
  function Idx(g: Ro, at: nat): nat
    requires 0 < g.ClusterBytes()
  {
    at / g.ClusterBytes()
  }

  ghost predicate OnCluster(g: Ro, at: nat) {
    0 < g.ClusterBytes() && at % g.ClusterBytes() == 0
  }

  /** `c` is the cluster of the file at `first` that begins at byte `at`. */
  ghost predicate OnPath(g: Ro, dev: seq<Sector>, first: u32, c: u32, at: nat) {
    OnCluster(g, at) && c == Walk(g, dev, first, Idx(g, at))
  }

  lemma PathStart(g: Ro, dev: seq<Sector>, first: u32)
    requires 0 < g.ClusterBytes()
    ensures OnPath(g, dev, first, first, 0)
  {
    hide Ro.ClusterBytes;
  }

  lemma IdxStep(g: Ro, at: nat)
    requires OnCluster(g, at)
    ensures OnCluster(g, at + g.ClusterBytes()) && Idx(g, at + g.ClusterBytes()) == Idx(g, at) + 1
  {
    var b := g.ClusterBytes();
    hide Ro.ClusterBytes;
    assert at == b * (at / b);
    Digits(at / b + 1, b, 0);
    assert at + b == b * (at / b + 1) + 0;
  }

  lemma PathStep(g: Ro, dev: seq<Sector>, first: u32, c: u32, at: nat)
    requires OnPath(g, dev, first, c, at)
    ensures OnPath(g, dev, first, Next(g, dev, c), at + g.ClusterBytes())
  {
    hide OnCluster, Idx, Next;
    IdxStep(g, at);
  }

  /** Byte `off` is in the cluster that begins at `at`. */
  lemma IdxIn(g: Ro, at: nat, off: nat)
    requires OnCluster(g, at) && at <= off
    ensures Idx(g, at) <= Idx(g, off)
    ensures off < at + g.ClusterBytes() ==> Idx(g, off) == Idx(g, at) && off % g.ClusterBytes() == off - at
    ensures at + g.ClusterBytes() <= off ==> Idx(g, at) + 1 <= Idx(g, off)
  {
    var b := g.ClusterBytes();
    hide Ro.ClusterBytes;
    var q, r := at / b, (off - at) / b;
    assert at == b * q;
    assert off == b * (q + r) + (off - at) % b by {
      assert b * (q + r) == b * q + b * r;
    }
    Digits(q + r, b, (off - at) % b);
    assert off - at == b * r + (off - at) % b;
    if off < at + b {
      Digits(0, b, off - at);
    }
  }

  /** In the last cluster below 4 GB the loop's 32-bit sum is never past the offset. */
  lemma NeverThere(g: Ro, at: u32, off: u32)
    requires g.Ok() && OnCluster(g, at)
    ensures OnCluster(g, (at + g.ClusterBytes()) % W32)
    ensures off >= W32 - g.ClusterBytes() ==> (at + g.ClusterBytes()) % W32 <= off
    ensures off < W32 - g.ClusterBytes() && at <= off ==> (at + g.ClusterBytes()) % W32 == at + g.ClusterBytes()
  {
    var b := g.ClusterBytes();
    var m := 0x80_0000 / g.spc;
    assert 0 < b && b * m == W32;
    NeverAt(at, off, b, m);
  }

  lemma NeverAt(at: u32, off: u32, b: nat, m: nat)
    requires 0 < b && b * m == W32 && at % b == 0
    ensures (at + b) % W32 % b == 0 && (off >= W32 - b ==> (at + b) % W32 <= off)
    ensures off < W32 - b && at <= off ==> (at + b) % W32 == at + b
  {
    var q := at / b;
    assert at == b * q;
    Fewer(q, m, b);
    NextMultiple(q + 1, m, b);
    assert at + b == b * (q + 1);
  }

  /** The next multiple of `b`, modulo the multiple `b * m`. */
  lemma NextMultiple(q: nat, m: nat, b: nat)
    requires 0 < b && q <= m && b * m == W32
    ensures b * q % W32 == (if q == m then 0 else b * q) && b * q % W32 % b == 0 && b * q % W32 <= W32 - b
    ensures q < m ==> b * q + b <= W32
  {
    if q < m {
      assert b * (m - q - 1) >= 0;
      assert b * m == b * q + b + b * (m - q - 1);
      Unwrapped(b * q);
      Digits(q, b, 0);
    } else {
      Digits(0, b, 0);
    }
  }

  lemma Sizes(g: Ro)
    requires g.Ok()
    ensures SECTOR <= g.ClusterBytes() <= 0x1_0000 && g.ClusterBytes() % SECTOR == 0
  {
  }

  /** A skip towards `off` is on its file's path, with enough budget left; or can never arrive. */
  ghost predicate Going(g: Ro, dev: seq<Sector>, first: u32, c: u32, at: u32, off: u32, budget: nat, from: nat) {
    && OnCluster(g, at)
    && (off < W32 - g.ClusterBytes() ==>
      at <= off && OnPath(g, dev, first, c, at) && budget + Idx(g, at) == g.clusters + 2 + from)
  }

  /** There is nothing to read at `off`: out of reach, off the end of the chain, or more links away from
      cluster number `from` of the file than one read follows. */
  ghost predicate Lost(g: Ro, dev: seq<Sector>, first: u32, off: u32, from: nat)
    requires 0 < g.ClusterBytes()
  {
    off >= W32 - g.ClusterBytes() || Walk(g, dev, first, Idx(g, off)) < 2 || Idx(g, off) > g.clusters + 2 + from
  }

  lemma GoStart(g: Ro, dev: seq<Sector>, first: u32, c: u32, at: u32, off: u32)
    requires OnPath(g, dev, first, c, at) && at <= off
    ensures Going(g, dev, first, c, at, off, g.clusters + 2, Idx(g, at))
  {
  }

  lemma GoStep(g: Ro, dev: seq<Sector>, first: u32, c: u32, at: u32, off: u32, budget: nat, from: nat)
    requires g.Ok() && Going(g, dev, first, c, at, off, budget, from) && (at + g.ClusterBytes()) % W32 <= off
    ensures 0 < g.ClusterBytes()
    ensures budget > 0 ==> Going(g, dev, first, Next(g, dev, c), (at + g.ClusterBytes()) % W32, off, budget - 1, from)
    ensures Next(g, dev, c) < 2 || budget == 0 ==> Lost(g, dev, first, off, from)
  {
    NeverThere(g, at, off);
    Sizes(g);
    hide Ro.Ok, Ro.ClusterBytes, OnCluster, Idx, Next;
    if off < W32 - g.ClusterBytes() {
      PathStep(g, dev, first, c, at);
      IdxStep(g, at);
      IdxIn(g, at, off);
      if Next(g, dev, c) < 2 {
        DeadStays(g, dev, first, Idx(g, at) + 1, Idx(g, off));
      }
    }
  }

  lemma GoDone(g: Ro, dev: seq<Sector>, first: u32, c: u32, at: u32, off: u32, budget: nat, from: nat)
    requires g.Ok() && Going(g, dev, first, c, at, off, budget, from) && (at + g.ClusterBytes()) % W32 > off
    ensures 0 < g.ClusterBytes() && Idx(g, off) <= g.clusters + 2 + from
    ensures OnPath(g, dev, first, c, at) && at <= off < at + g.ClusterBytes() && off < W32 - g.ClusterBytes()
  {
    NeverThere(g, at, off);
    Sizes(g);
    hide Ro.Ok, Ro.ClusterBytes, OnCluster, Idx, Next, Walk;
    IdxIn(g, at, off);
  }

  class Cursor {
    var first: u32
    var cluster: u32
    var at: nat

    constructor ()
      ensures first == 0 && cluster == 0 && at == 0
    {
      first, cluster, at := 0, 0, 0;
    }

    ghost predicate Seated(g: Ro, dev: seq<Sector>)
      reads this
    {
      cluster >= 2 ==> OnPath(g, dev, first, cluster, at)
    }
  }

  /** Where in the file a read at `off` starts following links. */
  ghost function StartOf(cur: Cursor?, first: u32, off: u32): nat
    reads cur
  {
    if cur != null && cur.first == first && cur.cluster >= 2 && off >= cur.at then cur.at else 0
  }

  class Reader {
    const g: Ro
    const dev: seq<Sector>
    var cacheLba: u32
    var cache: Sector

    /** The cached sector is the one on the device. */
    ghost predicate Fresh()
      reads this
    {
      g.Ok() && (cacheLba != NOTHING ==> cacheLba < |dev| && cache == dev[cacheLba])
    }

    constructor (g: Ro, dev: seq<Sector>)
      requires g.Ok()
      ensures Fresh() && this.g == g && this.dev == dev
    {
      this.g, this.dev, cacheLba, cache := g, dev, NOTHING, seq(SECTOR, _ => 0);
    }

    /** One byte of the table, through the cache. */
    method FatByte(off: u32) returns (b: Maybe<byte>)
      requires Fresh()
      modifies this
      ensures Fresh() && b == TableByte(g, dev, off)
    {
      var lba := (g.firstFat + off / SECTOR) % W32;
      if lba != cacheLba {
        if lba >= |dev| {
          cacheLba := NOTHING;
          return None;
        }
        cache, cacheLba := dev[lba], lba;
      }
      b := Some(cache[off % SECTOR]);
    }

    method FatNext(c: u32) returns (n: u32)
      requires Fresh()
      modifies this
      ensures Fresh() && n == Next(g, dev, c)
    {
      hide TableByte, EntryAt, EntryValue, Ended, Ro.Ok;
      if !g.Valid(c) {
        return 0;
      }
      var off := EntryAt(g.kind, c);
      var b0 := FatByte(off);
      if b0.None? {
        return 0;
      }
      var b1 := FatByte((off + 1) % W32);
      if b1.None? {
        return 0;
      }
      if !g.kind.Fat32? {
        return Ended(g.kind, EntryValue(g.kind, c, b0.value, b1.value, 0, 0));
      }
      var b2 := FatByte((off + 2) % W32);
      if b2.None? {
        return 0;
      }
      var b3 := FatByte((off + 3) % W32);
      if b3.None? {
        return 0;
      }
      n := Ended(g.kind, EntryValue(g.kind, c, b0.value, b1.value, b2.value, b3.value));
    }

    /** Follow links until the cluster holding `off`; false when the chain or the budget ends first. */
    method SkipTo(first: u32, c0: u32, off: u32, at0: u32) returns (there: bool, c: u32, at: u32)
      requires Fresh() && OnPath(g, dev, first, c0, at0) && at0 <= off
      modifies this
      ensures Fresh() && 0 < g.ClusterBytes()
      ensures there ==>
        OnPath(g, dev, first, c, at) && at <= off < at + g.ClusterBytes() && off < W32 - g.ClusterBytes()
      ensures if there then Idx(g, off) <= g.clusters + 2 + Idx(g, at0) else Lost(g, dev, first, off, Idx(g, at0))
    {
      Sizes(g);
      assert g.Ok();
      hide Reader.Fresh, Ro.Ok, Ro.ClusterBytes, OnPath, Next, Going, Lost, Idx;
      var budget := g.clusters + 2;
      c, at := c0, at0;
      GoStart(g, dev, first, c, at, off);
      while (at + g.ClusterBytes()) % W32 <= off
        invariant Fresh() && 0 <= budget && Going(g, dev, first, c, at, off, budget, Idx(g, at0))
        decreases budget
      {
        GoStep(g, dev, first, c, at, off, budget, Idx(g, at0));
        c := FatNext(c);
        if c < 2 || budget == 0 {
          return false, c, at;
        }
        budget := budget - 1;
        at := (at + g.ClusterBytes()) % W32;
      }
      GoDone(g, dev, first, c, at, off, budget, Idx(g, at0));
      there := true;
    }

    /** Copy from cluster `c0`, which begins at `at0`; also where that ended, for the cursor. */
    method Collect(first: u32, c0: u32, at0: u32, off: u32, n: nat) returns (out: seq<byte>, c: u32, at: nat)
      requires Fresh() && OnPath(g, dev, first, c0, at0) && at0 <= off < at0 + g.ClusterBytes() && off + n < W32
      modifies this
      ensures Fresh() && OnPath(g, dev, first, c, at)
      ensures out == Stream(g, dev, c0, off - at0, n)
    {
      assert g.Ok();
      hide Reader.Fresh, Ro.Ok, Ro.ClusterBytes, OnPath, Next, Stream, Piece, InReach, Taken, Copied;
      out, c, at := [], c0, at0;
      CopyStart(g, dev, c0, off - at0, n);
      while |out| < n && InReach(g, dev, c, off + |out| - at)
        invariant Fresh() && OnPath(g, dev, first, c, at)
        invariant |out| <= n && at <= off + |out| && off + |out| - at < g.ClusterBytes()
        invariant Copied(g, dev, c0, off - at0, n, out, c, off + |out| - at)
        decreases n - |out|
      {
        var within := off + |out| - at;
        var piece := Piece(within, n - |out|);
        CopyStep(g, dev, c0, off - at0, n, out, c, within);
        out := out + Taken(g, dev, c, within, n - |out|);
        if within + piece >= g.ClusterBytes() {
          PathStep(g, dev, first, c, at);
          c := FatNext(c);
          at := at + g.ClusterBytes();
        }
      }
      CopyDone(g, dev, c0, off - at0, n, out, c, off + |out| - at);
    }

    /** fatro_read. For every kind of table and whatever the cache holds, the answer is that of an
        unlimited walk from the start of the file, unless `off` is more links away than one read follows
        from where it starts: the cursor if it can be used, else the file's first cluster. */
    method Read(first: u32, size: u32, isDir: bool, cur: Cursor?, off: u32, len: u32) returns (out: seq<byte>)
      requires Fresh() && (cur != null ==> cur.Seated(g, dev))
      modifies this, cur
      ensures Fresh() && (cur != null ==> cur.Seated(g, dev)) && 0 < g.ClusterBytes()
      ensures isDir ==> out == []
      ensures !isDir ==> out == if Idx(g, off) <= g.clusters + 2 + old(Idx(g, StartOf(cur, first, off)))
                                then Plain(g, dev, first, size, off, len) else []
    {
      Sizes(g);
      assert g.Ok();
      hide Reader.Fresh, Ro.Ok, Ro.ClusterBytes, OnPath, Stream, Plain, Idx, Lost;
      if isDir || len == 0 || off >= size {
        NothingAsked(g, dev, first, size, off, len);
        return [];
      }
      var n := if len > size - off then size - off else len;
      var cluster, at := first, 0;
      PathStart(g, dev, first);
      ghost var from := StartOf(cur, first, off);
      if cur != null && cur.first == first && cur.cluster >= 2 && off >= cur.at {
        cluster, at := cur.cluster, cur.at;
      }
      var there;
      there, cluster, at := SkipTo(first, cluster, off, at);
      if !there {
        LostEmpty(g, dev, first, size, off, len, Idx(g, from));
        return [];
      }
      Arrived(g, dev, first, size, off, len, cluster, at);
      var end, endAt;
      out, end, endAt := Collect(first, cluster, at, off, n);
      if cur != null {
        cur.first, cur.cluster, cur.at := first, end, endAt;
      }
    }
  }

  lemma NothingAsked(g: Ro, dev: seq<Sector>, first: u32, size: u32, off: u32, len: u32)
    requires 0 < g.ClusterBytes()
    ensures len == 0 || off >= size ==> Plain(g, dev, first, size, off, len) == []
  {
  }

  lemma LostEmpty(g: Ro, dev: seq<Sector>, first: u32, size: u32, off: u32, len: u32, from: nat)
    requires 0 < g.ClusterBytes() && Lost(g, dev, first, off, from)
    ensures Idx(g, off) <= g.clusters + 2 + from ==> Plain(g, dev, first, size, off, len) == []
  {
    hide Ro.ClusterBytes, Idx, Walk, Next;
  }

  /** The copying loop's state: what is out, and what is still to come, make up the stream. */
  ghost predicate Copied(g: Ro, dev: seq<Sector>, c0: u32, w0: nat, n: nat, out: seq<byte>, c: u32, within: nat) {
    |out| <= n && out + Stream(g, dev, c, within, n - |out|) == Stream(g, dev, c0, w0, n)
  }

  lemma CopyStart(g: Ro, dev: seq<Sector>, c0: u32, w0: nat, n: nat)
    ensures Copied(g, dev, c0, w0, n, [], c0, w0)
  {
    hide Stream;
  }

  lemma CopyStep(g: Ro, dev: seq<Sector>, c0: u32, w0: nat, n: nat, out: seq<byte>, c: u32, within: nat)
    requires g.Ok() && Copied(g, dev, c0, w0, n, out, c, within) && |out| < n && InReach(g, dev, c, within)
      && within < g.ClusterBytes()
    ensures var p, more := Piece(within, n - |out|), out + Taken(g, dev, c, within, n - |out|);
      && 0 < p && within + p <= g.ClusterBytes() && |more| == |out| + p <= n
      && (within + p >= g.ClusterBytes() ==> Copied(g, dev, c0, w0, n, more, Next(g, dev, c), 0))
      && (within + p < g.ClusterBytes() ==> Copied(g, dev, c0, w0, n, more, c, within + p))
  {
    hide Stream, Taken, Ro.Ok, Next, Ro.ClusterBytes, InReach, Piece;
    Unfold(g, dev, c, within, n - |out|, out);
    Within(g, within, Piece(within, n - |out|));
    var more := out + Taken(g, dev, c, within, n - |out|);
    assert |more| == |out| + Piece(within, n - |out|);
  }

  lemma CopyDone(g: Ro, dev: seq<Sector>, c0: u32, w0: nat, n: nat, out: seq<byte>, c: u32, within: nat)
    requires Copied(g, dev, c0, w0, n, out, c, within) && (|out| == n || !InReach(g, dev, c, within))
    ensures out == Stream(g, dev, c0, w0, n)
  {
    hide InReach;
    Finished(g, dev, c, within, n - |out|);
  }

  lemma Finished(g: Ro, dev: seq<Sector>, c: u32, within: nat, len: nat)
    requires len == 0 || !InReach(g, dev, c, within)
    ensures Stream(g, dev, c, within, len) == []
  {
  }

  lemma Arrived(g: Ro, dev: seq<Sector>, first: u32, size: u32, off: u32, len: u32, c: u32, at: nat)
    requires OnPath(g, dev, first, c, at) && at <= off < at + g.ClusterBytes() && off < W32 - g.ClusterBytes()
      && off < size && 0 < len
    ensures Stream(g, dev, c, off - at, if len > size - off then size - off else len)
      == Plain(g, dev, first, size, off, len)
  {
    hide Ro.ClusterBytes, Idx, Walk, OnCluster, Stream;
    IdxIn(g, at, off);
  }

  /** The bytes one pass of the copying loop adds. */
  function Taken(g: Ro, dev: seq<Sector>, c: u32, within: nat, len: nat): (r: seq<byte>)
    requires 0 < len && InReach(g, dev, c, within)
    ensures |r| == Piece(within, len)
  {
    dev[Lba(g, c, within)][within % SECTOR..within % SECTOR + Piece(within, len)]
  }

  lemma Unfold(g: Ro, dev: seq<Sector>, c: u32, within: nat, len: nat, out: seq<byte>)
    requires 0 < len && InReach(g, dev, c, within)
    ensures var n := Piece(within, len);
      out + Stream(g, dev, c, within, len) == out + Taken(g, dev, c, within, len) +
        if within + n >= g.ClusterBytes() then Stream(g, dev, Next(g, dev, c), 0, len - n)
          else Stream(g, dev, c, within + n, len - n)
  {
    hide Next, Lba;
  }

  /** A piece never runs past its cluster. */
  lemma Within(g: Ro, within: nat, n: nat)
    requires g.Ok() && within < g.ClusterBytes() && n <= SECTOR - within % SECTOR
    ensures within + n <= g.ClusterBytes()
  {
    Sizes(g);
    hide Ro.Ok;
  }

  /** In a file no larger than the volume nothing is out of reach from anywhere, so every cursor gives the
      same answer as none. */
  lemma WithinVolume(g: Ro, size: u32, off: u32, from: nat)
    requires g.Ok() && off < size <= g.clusters * g.ClusterBytes()
    ensures 0 < g.ClusterBytes() && Idx(g, off) <= g.clusters + 2 + from
  {
    Sizes(g);
    var b, k := g.ClusterBytes(), Idx(g, off);
    hide Ro.Ok, Ro.ClusterBytes;
    assert off == b * k + off % b;
    Fewer(k, g.clusters, b);
  }

  /** A request for part of the file whose chain starts at `first`. */
  datatype Request = Request(first: u32, size: u32, off: u32, len: u32)

  /** Any sequence of reads of files no larger than the volume, through one reused cursor and the cache: each
      answer is that of an unlimited walk from the start of its file. */
  method ReadMany(g: Ro, dev: seq<Sector>, reqs: seq<Request>) returns (outs: seq<seq<byte>>)
    requires g.Ok() && forall i :: 0 <= i < |reqs| ==> reqs[i].size <= g.clusters * g.ClusterBytes()
    ensures |outs| == |reqs| && 0 < g.ClusterBytes()
    ensures forall i :: 0 <= i < |reqs| ==>
      outs[i] == Plain(g, dev, reqs[i].first, reqs[i].size, reqs[i].off, reqs[i].len)
  {
    Sizes(g);
    var r := new Reader(g, dev);
    var cur := new Cursor();
    outs := [];
    hide Ro.Ok, Ro.ClusterBytes, Plain, OnPath, Idx, Reader.Fresh;
    for i := 0 to |reqs|
      invariant r.Fresh() && cur.Seated(g, dev) && |outs| == i
      invariant forall k :: 0 <= k < i ==>
        outs[k] == Plain(g, dev, reqs[k].first, reqs[k].size, reqs[k].off, reqs[k].len)
    {
      var q := reqs[i];
      NothingAsked(g, dev, q.first, q.size, q.off, q.len);
      if q.off < q.size {
        WithinVolume(g, q.size, q.off, Idx(g, StartOf(cur, q.first, q.off)));
      }
      var out := r.Read(q.first, q.size, false, cur, q.off, q.len);
      outs := outs + [out];
    }
  }
}

/** A package's heap: a first-fit allocator whose blocks carry their own headers. Memory is counted in
    eight-byte cells; a header is one cell, and sizes include it. */
module Arena {
  import opened Bytes

  const CELL := 8

  /** The largest arena whose split test cannot wrap. */
  const ARENA_MAX := 0xFFFF_FFE8

  /** Eight bytes: as a header, the block's size in bytes and its free flag. */
  datatype Cell = Cell(size: u32, free: u32)

  /** A block: where its header is, its length in cells, and whether it is free. */
  datatype Block = Block(start: nat, cells: nat, free: bool)
  {
    function End(): nat {
      start + cells
    }
  }

  function Header(b: Block): Cell
    requires CELL * b.cells < W32
  {
    Cell(CELL * b.cells, if b.free then 1 else 0)
  }

  // ----- rows of blocks

  /** The blocks cover cells `0..n` exactly, one after another, each with room for a header and a cell. */
  ghost predicate Tiles(bs: seq<Block>, n: nat) {
    && (bs == [] ==> n == 0)
    && (forall i :: 0 <= i < |bs| ==> Joined(bs, n, i))
    && (bs != [] ==> bs[0].start == 0)
  }

  /** Block `i` has room for a header and a cell, and runs up to the next. */
  ghost predicate Joined(bs: seq<Block>, n: nat, i: nat)
    requires i < |bs|
  {
    bs[i].cells >= 2 && bs[i].End() == After(bs, n, i)
  }

  /** Where the block after number `i` starts, or the end. */
  function After(bs: seq<Block>, n: nat, i: nat): nat
    requires i < |bs|
  {
    if i + 1 < |bs| then bs[i + 1].start else n
  }

  lemma {:induction false} InOrder(bs: seq<Block>, n: nat, i: nat, j: nat)
    requires Tiles(bs, n) && i < j < |bs|
    ensures bs[i].End() <= bs[j].start && bs[j].start + 2 <= bs[j].End() <= n
    decreases j
  {
    if i < j - 1 {
      InOrder(bs, n, i, j - 1);
    }
    assert Joined(bs, n, j - 1);
    InBounds(bs, n, j);
    assert Joined(bs, n, j);
  }

  lemma {:induction false} InBounds(bs: seq<Block>, n: nat, i: nat)
    requires Tiles(bs, n) && i < |bs|
    ensures bs[i].End() <= n
    decreases |bs| - i
  {
    assert Joined(bs, n, i);
    if i + 1 < |bs| {
      InBounds(bs, n, i + 1);
    }
  }

  /** Payloads of different blocks are disjoint. */
  lemma Disjoint(bs: seq<Block>, n: nat, i: nat, j: nat)
    requires Tiles(bs, n) && i < |bs| && j < |bs| && i != j
    ensures bs[i].End() <= bs[j].start || bs[j].End() <= bs[i].start
  {
    if i < j {
      InOrder(bs, n, i, j);
    } else {
      InOrder(bs, n, j, i);
    }
  }

  /** Cells in use, headers included. */
  function Used(bs: seq<Block>): nat {
    if bs == [] then 0 else Used(bs[..|bs| - 1]) + if bs[|bs| - 1].free then 0 else bs[|bs| - 1].cells
  }

  lemma {:induction false} UsedAppend(a: seq<Block>, b: seq<Block>)
    ensures Used(a + b) == Used(a) + Used(b)
  {
    if b == [] {
      assert a + b == a;
    } else {
      assert (a + b)[..|a + b| - 1] == a + b[..|b| - 1];
      UsedAppend(a, b[..|b| - 1]);
    }
  }

  /** The largest free block, in cells; zero when there is none. */
  function Biggest(bs: seq<Block>): nat {
    if bs == [] then 0 else
    var rest, last := Biggest(bs[..|bs| - 1]), bs[|bs| - 1];
    if last.free && last.cells > rest then last.cells else rest
  }

  lemma {:induction false} BiggestIs(bs: seq<Block>)
    ensures forall i :: 0 <= i < |bs| && bs[i].free ==> bs[i].cells <= Biggest(bs)
    ensures Biggest(bs) > 0 ==> exists i :: 0 <= i < |bs| && bs[i].free && bs[i].cells == Biggest(bs)
  {
    if bs != [] {
      var init := bs[..|bs| - 1];
      BiggestIs(init);
      if Biggest(init) > 0 {
        var i :| 0 <= i < |init| && init[i].free && init[i].cells == Biggest(init);
        assert bs[i] == init[i];
      }
      forall i | 0 <= i < |bs| && bs[i].free
        ensures bs[i].cells <= Biggest(bs)
      {
        if i < |init| {
          assert init[i] == bs[i];
        }
      }
      assert bs[|bs| - 1] == bs[|bs| - 1];
    }
  }

  /** What arena_largest reports, in bytes. */
  function Largest(bs: seq<Block>): nat {
    if Biggest(bs) > 1 then CELL * Biggest(bs) - CELL else 0
  }

  // ----- allocating

  /** The first free block of at least `want` cells, or the number of blocks. */
  function FirstFit(bs: seq<Block>, want: nat): (k: nat)
    ensures k <= |bs| && forall i :: 0 <= i < k ==> !(bs[i].free && bs[i].cells >= want)
    ensures k < |bs| ==> bs[k].free && bs[k].cells >= want
  {
    if bs == [] then 0 else
    var k := FirstFit(bs[..|bs| - 1], want);
    if k < |bs| - 1 then k else if bs[|bs| - 1].free && bs[|bs| - 1].cells >= want then |bs| - 1 else |bs|
  }

  /** What block `b` becomes when `want` of its cells are taken: what is left is split off when it can hold
      anything. */
  function TakenMid(b: Block, want: nat): seq<Block>
    requires want <= b.cells
  {
    if b.cells >= want + 2 then [Block(b.start, want, false), Block(b.start + want, b.cells - want, true)]
      else [b.(free := false)]
  }

  function Taken(bs: seq<Block>, k: nat, want: nat): seq<Block>
    requires k < |bs| && want <= bs[k].cells
  {
    Replaced(bs, k, k + 1, TakenMid(bs[k], want))
  }

  /** The split test as it is written, in 32 bits, and as it is meant. */
  predicate SplitTest(size: u32, want: u32) {
    size >= (want + CELL + 8) % W32
  }

  /** A request for `want` bytes, header included, of a block of `size` bytes in an arena of `arena`. */
  predicate Asked(arena: u32, size: u32, want: u32) {
    size % CELL == 0 && want % CELL == 0 && 2 * CELL <= want <= size <= arena
  }

  /** The test is right for every request if and only if the arena is at most ARENA_MAX bytes; above that a
      request for all but a header splits off a block with no room, or none at all. */
  lemma SplitExact(arena: u32)
    requires arena % CELL == 0
    ensures (forall size: u32, want: u32 :: Asked(arena, size, want) ==>
      (SplitTest(size, want) <==> size >= want + CELL + 8))
      <==> arena <= ARENA_MAX
  {
    if arena <= ARENA_MAX {
      forall size: u32, want: u32 | Asked(arena, size, want)
        ensures SplitTest(size, want) <==> size >= want + CELL + 8
      {
        Unwrapped(want + CELL + 8);
      }
    } else {
      assert Asked(arena, 0xFFFF_FFF0, 0xFFFF_FFF0) && SplitTest(0xFFFF_FFF0, 0xFFFF_FFF0);
    }
  }

  // ----- freeing

  /** How many of the blocks from `i` on are free without a break. */
  function FreeRun(bs: seq<Block>, i: nat): (m: nat)
    requires i <= |bs|
    ensures i + m <= |bs| && (forall j :: i <= j < i + m ==> bs[j].free) && (i + m < |bs| ==> !bs[i + m].free)
    decreases |bs| - i
  {
    if i < |bs| && bs[i].free then 1 + FreeRun(bs, i + 1) else 0
  }

  /** Block `k` freed and merged with the `m` blocks after it. */
  function Merged(bs: seq<Block>, k: nat, m: nat): seq<Block>
    requires k + m < |bs|
    requires bs[k].start <= bs[k + m].End()
  {
    Replaced(bs, k, k + m + 1, [Block(bs[k].start, bs[k + m].End() - bs[k].start, true)])
  }

  /** Blocks `[k, j)` replaced by `mid`. */
  function Replaced(bs: seq<Block>, k: nat, j: nat, mid: seq<Block>): (t: seq<Block>)
    requires k <= j <= |bs|
    ensures |t| == k + |mid| + |bs| - j
    ensures forall i :: 0 <= i < |t| ==>
      t[i] == if i < k then bs[i] else if i < k + |mid| then mid[i - k] else bs[i - k - |mid| + j]
  {
    bs[..k] + mid + bs[j..]
  }

  /** Replacing blocks by ones that cover the same cells keeps the row tiled. */
  lemma ReplacedTiles(bs: seq<Block>, n: nat, k: nat, j: nat, mid: seq<Block>)
    requires Tiles(bs, n) && k < j <= |bs| && 1 <= |mid| <= 2
    requires mid[0].start == bs[k].start && mid[|mid| - 1].End() == bs[j - 1].End()
      && (|mid| == 2 ==> mid[0].End() == mid[1].start)
    requires forall i :: 0 <= i < |mid| ==> mid[i].cells >= 2
    ensures Tiles(Replaced(bs, k, j, mid), n)
  {
    var t := Replaced(bs, k, j, mid);
    forall i | 0 <= i < |t|
      ensures Joined(t, n, i)
    {
      if i < k {
        assert Joined(bs, n, i);
      } else if i >= k + |mid| {
        assert Joined(bs, n, i - k - |mid| + j);
      } else if i == k + |mid| - 1 {
        assert Joined(bs, n, j - 1);
      }
    }
  }

  lemma TakenTiles(bs: seq<Block>, n: nat, k: nat, want: nat)
    requires Tiles(bs, n) && k < |bs| && 2 <= want <= bs[k].cells
    ensures Tiles(Taken(bs, k, want), n)
  {
    hide Tiles, Replaced;
    ReplacedTiles(bs, n, k, k + 1, TakenMid(bs[k], want));
  }

  lemma MergedTiles(bs: seq<Block>, n: nat, k: nat, m: nat)
    requires Tiles(bs, n) && k + m < |bs|
    ensures bs[k].start + 2 <= bs[k + m].End() && Tiles(Merged(bs, k, m), n)
  {
    assert Joined(bs, n, k);
    if m > 0 {
      InOrder(bs, n, k, k + m);
    }
    hide Replaced;
    ReplacedTiles(bs, n, k, k + m + 1, [Block(bs[k].start, bs[k + m].End() - bs[k].start, true)]);
  }

  // ----- the headers in memory

  /** Every block's header is where the block starts. */
  ghost predicate Headed(m: seq<Cell>, bs: seq<Block>) {
    CELL * |m| <= ARENA_MAX && Tiles(bs, |m|) && forall i :: 0 <= i < |bs| ==> HeadAt(m, bs[i])
  }

  ghost predicate HeadAt(m: seq<Cell>, b: Block) {
    b.start < |m| && CELL * b.cells < W32 && m[b.start] == Header(b)
  }

  /** Blocks other than `[k, j)` hold the cells they held. */
  ghost predicate Kept(m: seq<Cell>, u: seq<Cell>, bs: seq<Block>, k: nat, j: nat) {
    |u| == |m| && forall i, x :: 0 <= i < |bs| && !(k <= i < j) && bs[i].start <= x < bs[i].End() && x < |m| ==>
      u[x] == m[x]
  }

  /** Memory changed only inside blocks `[k, j)`, which now are `mid`: the headers are right again. */
  lemma ReplacedHeaded(m: seq<Cell>, u: seq<Cell>, bs: seq<Block>, k: nat, j: nat, mid: seq<Block>)
    requires Headed(m, bs) && |u| == |m| && k < j <= |bs| && Tiles(Replaced(bs, k, j, mid), |m|)
    requires forall x :: 0 <= x < |m| && !(bs[k].start <= x < bs[j - 1].End()) ==> u[x] == m[x]
    requires forall i :: 0 <= i < |mid| ==> HeadAt(u, mid[i])
    ensures Headed(u, Replaced(bs, k, j, mid)) && Kept(m, u, bs, k, j)
  {
    forall i | 0 <= i < |bs| && !(k <= i < j)
      ensures HeadAt(u, bs[i]) && forall x :: bs[i].start <= x < bs[i].End() && x < |m| ==> u[x] == m[x]
    {
      assert HeadAt(m, bs[i]) && Joined(bs, |m|, i);
      if i < k {
        InOrder(bs, |m|, i, k);
      } else {
        InOrder(bs, |m|, j - 1, i);
      }
    }
    hide Tiles, HeadAt;
    var t := Replaced(bs, k, j, mid);
    forall i | 0 <= i < |t|
      ensures HeadAt(u, t[i])
    {
    }
  }

  /** Taking block `k` writes one header, or two. */
  lemma TakenHeaded(m: seq<Cell>, u: seq<Cell>, bs: seq<Block>, k: nat, want: nat)
    requires Headed(m, bs) && k < |bs| && 2 <= want <= bs[k].cells && |u| == |m| && bs[k].End() <= |m|
    requires var b := bs[k];
      if b.cells >= want + 2 then
        u == m[b.start + want := Cell(CELL * (b.cells - want), 1)][b.start := Cell(CELL * want, 0)]
      else u == m[b.start := Cell(CELL * b.cells, 0)]
    ensures Headed(u, Taken(bs, k, want)) && Kept(m, u, bs, k, k + 1)
  {
    TakenTiles(bs, |m|, k, want);
    hide Tiles, Replaced, Kept;
    ReplacedHeaded(m, u, bs, k, k + 1, TakenMid(bs[k], want));
  }

  /** Freeing and merging writes one. */
  lemma MergedHeaded(m: seq<Cell>, u: seq<Cell>, bs: seq<Block>, k: nat, e: nat)
    requires Headed(m, bs) && k + e < |bs| && bs[k].start <= bs[k + e].End() <= |m|
    requires bs[k].start < |m| && u == m[bs[k].start := Cell(CELL * (bs[k + e].End() - bs[k].start), 1)]
    ensures Headed(u, Merged(bs, k, e)) && Kept(m, u, bs, k, k + e + 1)
  {
    MergedTiles(bs, |m|, k, e);
    hide Tiles, Replaced, Kept;
    ReplacedHeaded(m, u, bs, k, k + e + 1, [Block(bs[k].start, bs[k + e].End() - bs[k].start, true)]);
  }

  /** Cells a request of `n` bytes takes, header included. */
  function Cells(n: nat): nat {
    (n + 15) / CELL
  }

  /** A request fits some block exactly when it is no more than arena_largest says. */
  lemma FitsIff(bs: seq<Block>, n: nat)
    requires 1 <= n
    ensures FirstFit(bs, Cells(n)) < |bs| <==> n <= Largest(bs)
  {
    BiggestIs(bs);
    var k := FirstFit(bs, Cells(n));
    if n <= Largest(bs) {
      var i :| 0 <= i < |bs| && bs[i].free && bs[i].cells == Biggest(bs);
      assert bs[i].cells >= Cells(n);
    }
  }

  /** The live block whose payload starts at byte `p`, or none. */
  ghost predicate IsLive(bs: seq<Block>, k: nat, p: int) {
    k < |bs| && !bs[k].free && CELL * bs[k].start + CELL == p
  }

  class Heap {
    const mem: array<Cell>
    ghost var blocks: seq<Block>

    ghost predicate Valid()
      reads this, mem
    {
      Headed(mem[..], blocks)
    }

    /** arena_init: one free block over the whole, rounded down; nothing at all when that is too small. */
    constructor (size: u32)
      requires size / CELL * CELL <= ARENA_MAX
      ensures Valid() && fresh(mem) && mem.Length == (if size < 16 then 0 else size / CELL)
      ensures blocks == if size < 16 then [] else [Block(0, size / CELL, true)]
    {
      var n := if size < 16 then 0 else size / CELL;
      var m := new Cell[n];
      if n > 0 {
        m[0] := Cell(n * CELL, 1);
      }
      mem := m;
      blocks := if n == 0 then [] else [Block(0, n, true)];
      new;
      assert n > 0 ==> Joined(blocks, n, 0) && HeadAt(mem[..], blocks[0]);
    }

    /** The header at cell `b`, which starts block `k`, and where the next block starts. */
    lemma Next(k: nat)
      requires Valid() && k < |blocks|
      ensures blocks[k].start < mem.Length && CELL * blocks[k].cells < W32 && mem[blocks[k].start] == Header(blocks[k])
      ensures CELL * mem.Length <= ARENA_MAX && blocks[k].cells >= 2 && blocks[k].End() <= mem.Length
        && blocks[k].End() == After(blocks, mem.Length, k)
      ensures k + 1 < |blocks| ==> blocks[k + 1].start < mem.Length
    {
      assert HeadAt(mem[..], blocks[k]) && Joined(blocks, mem.Length, k);
      InBounds(blocks, mem.Length, k);
      if k + 1 < |blocks| {
        assert HeadAt(mem[..], blocks[k + 1]);
      }
    }

    /** Cell `b` starts block `k`, or is the end when `k` is the number of blocks. */
    ghost predicate AtBlock(b: nat, k: nat)
      reads this, mem
    {
      k <= |blocks| && b == if k < |blocks| then blocks[k].start else mem.Length
    }

    /** arena_alloc. */
    method Alloc(n: u32) returns (p: Maybe<nat>)
      requires Valid()
      modifies this, mem
      ensures Valid() && (p.Some? <==> 1 <= n <= Largest(old(blocks)))
      ensures p.None? ==> mem[..] == old(mem[..]) && blocks == old(blocks)
      ensures p.Some? ==> FirstFit(old(blocks), Cells(n)) < |old(blocks)| && var k := FirstFit(old(blocks), Cells(n));
        && blocks == Taken(old(blocks), k, Cells(n)) && p.value == CELL * old(blocks)[k].start + CELL
        && Kept(old(mem[..]), mem[..], old(blocks), k, k + 1)
    {
      hide Headed, Tiles, Kept, Taken, FirstFit, Largest;
      if mem.Length == 0 || n == 0 {
        SmallLargest(mem[..], blocks);
        return None;
      }
      FitsIff(blocks, n);
      var want := (n + CELL + 7) % W32 / CELL * CELL;
      if want < n {
        TooBig(mem[..], blocks, n);
        return None;
      }
      WantIs(n);
      var b: nat := 0;
      ghost var k := 0;
      StartsAt0(mem[..], blocks);
      while b < mem.Length
        invariant mem[..] == old(mem[..]) && blocks == old(blocks)
        invariant AtBlock(b, k) && forall i :: 0 <= i < k ==> !(blocks[i].free && blocks[i].cells >= Cells(n))
        decreases |blocks| - k
      {
        Inside(mem[..], blocks, k, b);
        Next(k);
        if mem[b].free != 0 && mem[b].size >= want {
          FirstIs(blocks, Cells(n), k);
          ghost var m := mem[..];
          Unwrapped(want + CELL + 8);
          if mem[b].size >= (want + CELL + 8) % W32 {
            mem[b + want / CELL] := Cell(mem[b].size - want, 1);
            mem[b] := Cell(want, mem[b].free);
          }
          mem[b] := Cell(mem[b].size, 0);
          TakenHeaded(m, mem[..], blocks, k, Cells(n));
          blocks := Taken(blocks, k, Cells(n));
          return Some(CELL * b + CELL);
        }
        b := b + mem[b].size / CELL;
        k := k + 1;
      }
      NoneFits(mem[..], blocks, Cells(n), k, b);
      return None;
    }

    /** arena_free: a pointer to a live block's payload frees it and merges what is free behind it; any other
        pointer changes nothing. */
    method Free(p: int)
      requires Valid()
      modifies this, mem
      ensures Valid()
      ensures (forall k :: 0 <= k < |old(blocks)| ==> !IsLive(old(blocks), k, p)) ==>
        mem[..] == old(mem[..]) && blocks == old(blocks)
      ensures forall k :: 0 <= k < |old(blocks)| && IsLive(old(blocks), k, p) ==>
        Freed(old(mem[..]), old(blocks), mem[..], blocks, k)
    {
      hide Headed, Tiles, Freed;
      var q := p - CELL;
      if mem.Length == 0 || q < 0 || q >= CELL * mem.Length {
        OutOfReach(mem[..], blocks, p);
        return;
      }
      var b: nat := 0;
      ghost var k := 0;
      StartsAt0(mem[..], blocks);
      while b < mem.Length
        invariant mem[..] == old(mem[..]) && blocks == old(blocks)
        invariant AtBlock(b, k) && forall i :: 0 <= i < k ==> CELL * blocks[i].start != q
        decreases |blocks| - k
      {
        Inside(mem[..], blocks, k, b);
        Next(k);
        if CELL * b == q {
          OnlyOne(mem[..], blocks, k, p);
          if mem[b].free == 0 {
            assert IsLive(blocks, k, p);
            Release(b, k);
          }
          return;
        }
        b := b + mem[b].size / CELL;
        k := k + 1;
      }
      NotThere(mem[..], blocks, k, b, p);
    }

    /** Mark block `k` free and take in the free blocks behind it. */
    method Release(b: nat, ghost k: nat)
      requires Valid() && k < |blocks| && b == blocks[k].start && !blocks[k].free
      modifies this, mem
      ensures Valid() && Freed(old(mem[..]), old(blocks), mem[..], blocks, k)
    {
      hide Headed, Growing, Freed, FreeRun, Merged;
      ghost var m := mem[..];
      ghost var e := 0;
      Next(k);
      mem[b] := Cell(mem[b].size, 1);
      GrowStart(m, mem[..], blocks, k);
      GrowAt(m, mem[..], blocks, k, 0);
      var next := b + mem[b].size / CELL;
      while next < mem.Length && mem[next].free != 0
        invariant b < mem.Length && next == b + mem[b].size / CELL
        invariant blocks == old(blocks) && e <= FreeRun(blocks, k + 1) && b < mem.Length
          && Growing(m, mem[..], blocks, k, e)
        decreases FreeRun(blocks, k + 1) - e
      {
        GrowAt(m, mem[..], blocks, k, e);
        mem[b] := Cell(mem[b].size + mem[next].size, 1);
        next := b + mem[b].size / CELL;
        e := e + 1;
      }
      GrowAt(m, mem[..], blocks, k, e);
      GrowDone(m, mem[..], blocks, k, e);
      blocks := Merged(blocks, k, e);
    }

    /** arena_used, in bytes. */
    method UsedBytes() returns (used: nat)
      requires Valid()
      ensures used == CELL * Used(blocks)
    {
      hide Headed;
      used := 0;
      SmallLargest(mem[..], blocks);
      if mem.Length == 0 {
        return;
      }
      StartsAt0(mem[..], blocks);
      var b: nat := 0;
      ghost var k := 0;
      while b < mem.Length
        invariant AtBlock(b, k) && used == CELL * Used(blocks[..k])
        decreases |blocks| - k
      {
        Inside(mem[..], blocks, k, b);
        Next(k);
        assert blocks[..k + 1][..k] == blocks[..k];
        if mem[b].free == 0 {
          used := used + mem[b].size;
        }
        b := b + mem[b].size / CELL;
        k := k + 1;
      }
      AllSeen(mem[..], blocks, k, b);
      assert blocks[..k] == blocks;
    }

    /** arena_largest, in bytes. */
    method LargestBytes() returns (r: nat)
      requires Valid()
      ensures r == Largest(blocks)
    {
      hide Headed;
      SmallLargest(mem[..], blocks);
      if mem.Length == 0 {
        return 0;
      }
      StartsAt0(mem[..], blocks);
      var b: nat, best: nat := 0, 0;
      ghost var k := 0;
      while b < mem.Length
        invariant AtBlock(b, k) && best == CELL * Biggest(blocks[..k])
        decreases |blocks| - k
      {
        Inside(mem[..], blocks, k, b);
        Next(k);
        assert blocks[..k + 1][..k] == blocks[..k];
        if mem[b].free != 0 && mem[b].size > best {
          best := mem[b].size;
        }
        b := b + mem[b].size / CELL;
        k := k + 1;
      }
      AllSeen(mem[..], blocks, k, b);
      assert blocks[..k] == blocks;
      r := if best > CELL then best - CELL else 0;
    }
  }

  /** Block `k` has been freed and has taken in the `e` blocks behind it. */
  ghost predicate Growing(m: seq<Cell>, u: seq<Cell>, bs: seq<Block>, k: nat, e: nat) {
    && Headed(m, bs) && k + e < |bs| && e <= FreeRun(bs, k + 1) && bs[k].start < bs[k + e].End() <= |m|
    && u == m[bs[k].start := Cell(CELL * (bs[k + e].End() - bs[k].start), 1)]
  }

  lemma GrowStart(m: seq<Cell>, u: seq<Cell>, bs: seq<Block>, k: nat)
    requires Headed(m, bs) && k < |bs| && bs[k].start < |m| && u == m[bs[k].start := Cell(m[bs[k].start].size, 1)]
    ensures Growing(m, u, bs, k, 0)
  {
    RunBounds(m, bs, k, 0);
    assert HeadAt(m, bs[k]);
  }

  lemma GrowAt(m: seq<Cell>, u: seq<Cell>, bs: seq<Block>, k: nat, e: nat)
    requires Growing(m, u, bs, k, e)
    ensures k + e < |bs| && |u| == |m| && bs[k].start < |u| && e <= FreeRun(bs, k + 1)
    ensures var s := bs[k].start; var n := s + u[s].size / CELL;
      && (n < |u| && u[n].free != 0 <==> e < FreeRun(bs, k + 1))
      && (e < FreeRun(bs, k + 1) ==>
        n < |u| && u[s].size + u[n].size < W32 && Growing(m, u[s := Cell(u[s].size + u[n].size, 1)], bs, k, e + 1))
  {
    RunBounds(m, bs, k, e);
    if e < FreeRun(bs, k + 1) {
      RunBounds(m, bs, k, e + 1);
    }
    hide Headed;
  }

  lemma GrowDone(m: seq<Cell>, u: seq<Cell>, bs: seq<Block>, k: nat, e: nat)
    requires Growing(m, u, bs, k, e) && k < |bs| && e == FreeRun(bs, k + 1)
    ensures k + e < |bs| && bs[k].start <= bs[k + e].End() && Headed(u, Merged(bs, k, e))
      && Freed(m, bs, u, Merged(bs, k, e), k)
  {
    hide Headed, Kept, Merged;
    MergedHeaded(m, u, bs, k, e);
  }

  /** Freeing block `k` and what follows it. */
  ghost predicate Freed(m: seq<Cell>, bs: seq<Block>, u: seq<Cell>, now: seq<Block>, k: nat)
    requires k < |bs|
  {
    var e := FreeRun(bs, k + 1);
    bs[k].start <= bs[k + e].End() && now == Merged(bs, k, e) && Kept(m, u, bs, k, k + e + 1)
  }

  /** The end of a run of free blocks behind block `k`, and the header found there. */
  lemma RunBounds(m: seq<Cell>, bs: seq<Block>, k: nat, e: nat)
    requires Headed(m, bs) && k + e < |bs| && e <= FreeRun(bs, k + 1)
    ensures bs[k].start < bs[k + e].End() <= |m| && CELL * |m| < W32
    ensures bs[k + e].End() < |m| ==> k + e + 1 < |bs| && CELL * bs[k + e + 1].cells < W32
    ensures bs[k + e].End() < |m| ==> m[bs[k + e].End()] == Header(bs[k + e + 1])
    ensures bs[k + e].End() < |m| ==> bs[k + e + 1].End() == bs[k + e].End() + bs[k + e + 1].cells
    ensures bs[k + e].End() < |m| ==> (bs[k + e + 1].free <==> e < FreeRun(bs, k + 1))
    ensures bs[k + e].End() == |m| ==> e == FreeRun(bs, k + 1)
  {
    InBounds(bs, |m|, k + e);
    assert Joined(bs, |m|, k + e);
    if e > 0 {
      InOrder(bs, |m|, k, k + e);
    }
    if k + e + 1 < |bs| {
      assert HeadAt(m, bs[k + e + 1]);
    }
  }

  lemma OutOfReach(m: seq<Cell>, bs: seq<Block>, p: int)
    requires Headed(m, bs) && (|m| == 0 || p - CELL < 0 || p - CELL >= CELL * |m|)
    ensures forall k :: 0 <= k < |bs| ==> !IsLive(bs, k, p)
  {
    forall k | 0 <= k < |bs|
      ensures !IsLive(bs, k, p)
    {
      assert HeadAt(m, bs[k]);
    }
  }

  lemma OnlyOne(m: seq<Cell>, bs: seq<Block>, k: nat, p: int)
    requires Headed(m, bs) && k < |bs| && CELL * bs[k].start + CELL == p
    ensures forall i :: 0 <= i < |bs| && IsLive(bs, i, p) ==> i == k
  {
    forall i | 0 <= i < |bs| && IsLive(bs, i, p)
      ensures i == k
    {
      assert Joined(bs, |m|, i) && Joined(bs, |m|, k);
      if i != k {
        Disjoint(bs, |m|, i, k);
      }
    }
  }

  lemma NotThere(m: seq<Cell>, bs: seq<Block>, k: nat, b: nat, p: int)
    requires Headed(m, bs) && b >= |m| && k <= |bs| && b == (if k < |bs| then bs[k].start else |m|)
    requires forall i :: 0 <= i < k ==> CELL * bs[i].start != p - CELL
    ensures forall i :: 0 <= i < |bs| ==> !IsLive(bs, i, p)
  {
    assert k < |bs| ==> HeadAt(m, bs[k]);
  }

  lemma SmallLargest(m: seq<Cell>, bs: seq<Block>)
    requires Headed(m, bs)
    ensures |m| == 0 ==> bs == [] && Largest(bs) == 0
  {
    if bs != [] {
      InBounds(bs, |m|, 0);
      assert Joined(bs, |m|, 0);
    }
  }

  lemma StartsAt0(m: seq<Cell>, bs: seq<Block>)
    requires Headed(m, bs) && |m| > 0
    ensures bs != [] && bs[0].start == 0
  {
  }

  lemma Inside(m: seq<Cell>, bs: seq<Block>, k: nat, b: nat)
    requires Headed(m, bs) && b < |m| && k <= |bs| && b == (if k < |bs| then bs[k].start else |m|)
    ensures k < |bs|
  {
  }

  lemma FirstIs(bs: seq<Block>, want: nat, k: nat)
    requires k < |bs| && bs[k].free && bs[k].cells >= want
    requires forall i :: 0 <= i < k ==> !(bs[i].free && bs[i].cells >= want)
    ensures FirstFit(bs, want) == k
  {
  }

  lemma NoneFits(m: seq<Cell>, bs: seq<Block>, want: nat, k: nat, b: nat)
    requires Headed(m, bs) && b >= |m| && k <= |bs| && b == (if k < |bs| then bs[k].start else |m|)
    requires forall i :: 0 <= i < k ==> !(bs[i].free && bs[i].cells >= want)
    ensures FirstFit(bs, want) == |bs|
  {
    assert k < |bs| ==> HeadAt(m, bs[k]);
  }

  /** When the rounding wraps the request was larger than any arena. */
  lemma TooBig(m: seq<Cell>, bs: seq<Block>, n: u32)
    requires Headed(m, bs) && (n + CELL + 7) % W32 / CELL * CELL < n
    ensures n > Largest(bs)
  {
    BiggestIs(bs);
    if n + 15 < W32 {
      Unwrapped(n + 15);
    }
    if Biggest(bs) > 0 {
      var i :| 0 <= i < |bs| && bs[i].free && bs[i].cells == Biggest(bs);
      assert HeadAt(m, bs[i]);
    }
  }

  lemma WantIs(n: u32)
    requires 1 <= n && (n + CELL + 7) % W32 / CELL * CELL >= n
    ensures (n + CELL + 7) % W32 / CELL * CELL == CELL * Cells(n) && 2 <= Cells(n)
  {
    assert (n + 15) % W32 == if n + 15 < W32 then n + 15 else n + 15 - W32;
  }

  lemma AllSeen(m: seq<Cell>, bs: seq<Block>, k: nat, b: nat)
    requires Headed(m, bs) && b >= |m| && k <= |bs| && b == (if k < |bs| then bs[k].start else |m|)
    ensures k == |bs|
  {
    assert k < |bs| ==> HeadAt(m, bs[k]);
  }

  // ----- an allocation undone

  lemma UsedReplaced(bs: seq<Block>, k: nat, j: nat, mid: seq<Block>)
    requires k <= j <= |bs|
    ensures Used(Replaced(bs, k, j, mid)) + Used(bs[k..j]) == Used(bs) + Used(mid)
  {
    UsedAppend(bs[..k] + mid, bs[j..]);
    UsedAppend(bs[..k], mid);
    assert bs == bs[..k] + bs[k..j] + bs[j..];
    UsedAppend(bs[..k] + bs[k..j], bs[j..]);
    UsedAppend(bs[..k], bs[k..j]);
    hide Used;
  }

  lemma {:induction false} UsedFree(bs: seq<Block>)
    requires forall i :: 0 <= i < |bs| ==> bs[i].free
    ensures Used(bs) == 0
  {
    if bs != [] {
      UsedFree(bs[..|bs| - 1]);
    }
  }

  /** The row after block `k` is freed. */
  ghost function FreedRow(bs: seq<Block>, n: nat, k: nat): seq<Block>
    requires Tiles(bs, n) && k < |bs|
  {
    MergedTiles(bs, n, k, FreeRun(bs, k + 1));
    Merged(bs, k, FreeRun(bs, k + 1))
  }

  /** Freeing a block takes exactly it out of the count. */
  lemma FreeUsed(bs: seq<Block>, n: nat, k: nat)
    requires Tiles(bs, n) && k < |bs| && !bs[k].free
    ensures Used(FreedRow(bs, n, k)) + bs[k].cells == Used(bs)
  {
    hide Used, Replaced, Tiles, Joined;
    var e := FreeRun(bs, k + 1);
    MergedTiles(bs, n, k, e);
    var one := [Block(bs[k].start, bs[k + e].End() - bs[k].start, true)];
    UsedFree(one);
    UsedReplaced(bs, k, k + e + 1, one);
    UsedSpan(bs, k, e);
  }

  lemma UsedSpan(bs: seq<Block>, k: nat, e: nat)
    requires k + e < |bs| && !bs[k].free && forall j :: k + 1 <= j < k + 1 + e ==> bs[j].free
    ensures Used(bs[k..k + e + 1]) == bs[k].cells
  {
    hide Used;
    var behind := bs[k + 1..k + e + 1];
    assert bs[k..k + e + 1] == [bs[k]] + behind;
    UsedFree(behind);
    UsedLive(bs[k]);
    UsedAppend([bs[k]], behind);
  }

  lemma UsedLive(b: Block)
    requires !b.free
    ensures Used([b]) == b.cells
  {
    assert [b][..0] == [];
  }

  /** It never makes the largest free block smaller. */
  lemma FreeBig(bs: seq<Block>, n: nat, k: nat)
    requires Tiles(bs, n) && k < |bs| && !bs[k].free
    ensures Biggest(FreedRow(bs, n, k)) >= Biggest(bs)
    ensures Biggest(FreedRow(bs, n, k)) >= bs[k + FreeRun(bs, k + 1)].End() - bs[k].start
  {
    var e := FreeRun(bs, k + 1);
    MergedTiles(bs, n, k, e);
    var t := Merged(bs, k, e);
    assert t[k].free && t[k].cells == bs[k + e].End() - bs[k].start;
    BiggestIs(t);
    BiggestIs(bs);
    hide Biggest;
    if Biggest(bs) > 0 {
      var i :| 0 <= i < |bs| && bs[i].free && bs[i].cells == Biggest(bs);
      StillBig(bs, n, k, e, i);
    }
  }

  /** A free block is still there after a merge, or part of the merged one. */
  lemma StillBig(bs: seq<Block>, n: nat, k: nat, e: nat, i: nat)
    requires Tiles(bs, n) && k + e < |bs| && i < |bs| && i != k && bs[i].free && bs[k].start <= bs[k + e].End()
    ensures exists x ::
      0 <= x < |Merged(bs, k, e)| && Merged(bs, k, e)[x].free && Merged(bs, k, e)[x].cells >= bs[i].cells
  {
    var t := Merged(bs, k, e);
    if i < k {
      assert t[i] == bs[i];
    } else if i > k + e {
      assert t[i - e] == bs[i];
    } else {
      InOrder(bs, n, k, i);
      if i < k + e {
        InOrder(bs, n, i, k + e);
      }
      assert t[k].cells >= bs[i].cells;
    }
  }

  /** An allocation followed by its own free restores what is used and does not shrink what is left. */
  lemma AllocFree(bs: seq<Block>, n: nat, k: nat, want: nat)
    requires Tiles(bs, n) && k < |bs| && bs[k].free && 2 <= want <= bs[k].cells
    ensures Tiles(Taken(bs, k, want), n) && k < |Taken(bs, k, want)| && !Taken(bs, k, want)[k].free
    ensures Taken(bs, k, want)[k].start == bs[k].start
    ensures Used(FreedRow(Taken(bs, k, want), n, k)) == Used(bs)
    ensures Largest(FreedRow(Taken(bs, k, want), n, k)) >= Largest(bs)
  {
    hide FreedRow, Used, Biggest, Tiles, FreeRun, Joined;
    var mid := Taken(bs, k, want);
    TakenTiles(bs, n, k, want);
    assert mid[k] == TakenMid(bs[k], want)[0];
    hide Replaced;
    FreeUsed(mid, n, k);
    TakenUsed(bs, k, want);
    FreeBig(mid, n, k);
    TakenSpan(bs, n, k, want);
    TakenBig(bs, k, want);
  }

  lemma TakenUsed(bs: seq<Block>, k: nat, want: nat)
    requires k < |bs| && bs[k].free && want <= bs[k].cells
    ensures Used(Taken(bs, k, want)) == Used(bs) + TakenMid(bs[k], want)[0].cells
  {
    UsedReplaced(bs, k, k + 1, TakenMid(bs[k], want));
    assert bs[k..k + 1] == [bs[k]];
    UsedOne(bs[k], want);
    hide Used, Replaced;
  }

  /** Every free block but the one taken is still there. */
  lemma TakenBig(bs: seq<Block>, k: nat, want: nat)
    requires k < |bs| && bs[k].free && want <= bs[k].cells
    ensures Biggest(bs) <= Biggest(Taken(bs, k, want)) || Biggest(bs) == bs[k].cells
  {
    hide Biggest, TakenMid, Replaced;
    var mid := Taken(bs, k, want);
    BiggestIs(bs);
    BiggestIs(mid);
    if Biggest(bs) > 0 {
      var i :| 0 <= i < |bs| && bs[i].free && bs[i].cells == Biggest(bs);
      if i != k {
        StillThere(bs, k, k + 1, TakenMid(bs[k], want), i);
      }
    }
  }

  /** A block outside the replaced ones is still in the row. */
  lemma StillThere(bs: seq<Block>, k: nat, j: nat, mid: seq<Block>, i: nat)
    requires k <= j <= |bs| && i < |bs| && !(k <= i < j)
    ensures var x := if i < k then i else i - j + k + |mid|;
      x < |Replaced(bs, k, j, mid)| && Replaced(bs, k, j, mid)[x] == bs[i]
  {
  }

  lemma UsedOne(b: Block, want: nat)
    requires b.free && want <= b.cells
    ensures Used([b]) == 0 && Used(TakenMid(b, want)) == TakenMid(b, want)[0].cells
  {
    var mid := TakenMid(b, want);
    assert [b][..0] == [] && mid[..1][..0] == [];
    if |mid| == 2 {
      assert mid[..1] == [mid[0]];
    } else {
      assert mid[..0] == [];
    }
  }

  /** The taken block and the free blocks behind it cover at least the block it was taken from. */
  lemma TakenSpan(bs: seq<Block>, n: nat, k: nat, want: nat)
    requires Tiles(bs, n) && k < |bs| && bs[k].free && 2 <= want <= bs[k].cells && Tiles(Taken(bs, k, want), n)
    ensures var mid := Taken(bs, k, want); var e := FreeRun(mid, k + 1);
      k + e < |mid| && mid[k].start == bs[k].start && mid[k + e].End() >= bs[k].End()
  {
    var mid := Taken(bs, k, want);
    var e := FreeRun(mid, k + 1);
    if bs[k].cells >= want + 2 {
      assert mid[k + 1].free && mid[k + 1].End() == bs[k].End();
      if e > 1 {
        InOrder(mid, n, k + 1, k + e);
      }
    } else if e > 0 {
      InOrder(mid, n, k, k + e);
    }
  }

  // ----- whole runs

  datatype Call = Ask(n: u32) | GiveBack(p: int)

  /** The block a live pointer stands for is there unchanged, header and payload. */
  ghost predicate Survives(m: seq<Cell>, bs: seq<Block>, u: seq<Cell>, now: seq<Block>, p: int) {
    forall i :: 0 <= i < |bs| && IsLive(bs, i, p) ==> Lives(m, bs[i], u, now, p)
  }

  ghost predicate Lives(m: seq<Cell>, b: Block, u: seq<Cell>, now: seq<Block>, p: int) {
    && |m| == |u| && (exists x :: 0 <= x < |now| && IsLive(now, x, p) && now[x] == b)
    && forall c :: b.start <= c < b.End() && c < |m| ==> u[c] == m[c]
  }

  /** A block outside the replaced ones survives. */
  lemma OutsideLives(m: seq<Cell>, u: seq<Cell>, bs: seq<Block>, k: nat, j: nat, mid: seq<Block>, i: nat, p: int)
    requires k <= j <= |bs| && i < |bs| && IsLive(bs, i, p) && !(k <= i < j) && Kept(m, u, bs, k, j)
    ensures Lives(m, bs[i], u, Replaced(bs, k, j, mid), p)
  {
    StillThere(bs, k, j, mid, i);
    hide Replaced;
    var x := if i < k then i else i - j + k + |mid|;
    assert IsLive(Replaced(bs, k, j, mid), x, p);
  }

  lemma TakenSurvives(m: seq<Cell>, u: seq<Cell>, bs: seq<Block>, k: nat, want: nat, p: int)
    requires k < |bs| && bs[k].free && want <= bs[k].cells && Kept(m, u, bs, k, k + 1)
    ensures Survives(m, bs, u, Taken(bs, k, want), p)
  {
    hide Kept, Replaced, Lives;
    forall i | 0 <= i < |bs| && IsLive(bs, i, p)
      ensures Lives(m, bs[i], u, Taken(bs, k, want), p)
    {
      OutsideLives(m, u, bs, k, k + 1, TakenMid(bs[k], want), i, p);
    }
  }

  lemma FreedSurvives(m: seq<Cell>, u: seq<Cell>, bs: seq<Block>, now: seq<Block>, k: nat, p: int)
    requires k < |bs| && Freed(m, bs, u, now, k) && !IsLive(bs, k, p)
    ensures Survives(m, bs, u, now, p)
  {
    hide Kept, Replaced, Lives;
    var e := FreeRun(bs, k + 1);
    forall i | 0 <= i < |bs| && IsLive(bs, i, p)
      ensures Lives(m, bs[i], u, now, p)
    {
      OutsideLives(m, u, bs, k, k + e + 1, [Block(bs[k].start, bs[k + e].End() - bs[k].start, true)], i, p);
    }
  }

  lemma Same(m: seq<Cell>, bs: seq<Block>, p: int)
    ensures Survives(m, bs, m, bs, p)
  {
  }

  lemma SurvivesOn(m: seq<Cell>, bs: seq<Block>, u: seq<Cell>, mid: seq<Block>, v: seq<Cell>, now: seq<Block>, p: int)
    requires Survives(m, bs, u, mid, p) && Survives(u, mid, v, now, p)
    ensures Survives(m, bs, v, now, p)
  {
    forall i | 0 <= i < |bs| && IsLive(bs, i, p)
      ensures Lives(m, bs[i], v, now, p)
    {
      assert Lives(m, bs[i], u, mid, p);
      var x :| 0 <= x < |mid| && IsLive(mid, x, p) && mid[x] == bs[i];
      assert Lives(u, mid[x], v, now, p);
    }
  }

  /** Any sequence of calls, with pointers good, bad or freed before: the blocks still tile the arena, and an
      allocation nobody freed is where it was with the bytes it had. */
  method Run(h: Heap, calls: seq<Call>)
    requires h.Valid()
    modifies h, h.mem
    ensures h.Valid()
    ensures forall p :: GiveBack(p) !in calls ==> Survives(old(h.mem[..]), old(h.blocks), h.mem[..], h.blocks, p)
  {
    hide Heap.Valid, Survives, Freed, Kept, Taken, Largest, FirstFit;
    ghost var m, bs := h.mem[..], h.blocks;
    forall p
      ensures Survives(m, bs, m, bs, p)
    {
      Same(m, bs, p);
    }
    for i := 0 to |calls|
      invariant h.Valid()
      invariant forall p :: GiveBack(p) !in calls ==> Survives(m, bs, h.mem[..], h.blocks, p)
    {
      ghost var u, mid := h.mem[..], h.blocks;
      match calls[i] {
        case Ask(n) =>
          var got := h.Alloc(n);
          AskSurvives(u, mid, h.mem[..], h.blocks, n, got.Some?);
        case GiveBack(q) =>
          h.Free(q);
          BackSurvives(u, mid, h.mem[..], h.blocks, q);
      }
      assert calls[i] in calls;
      forall p | GiveBack(p) !in calls
        ensures Survives(m, bs, h.mem[..], h.blocks, p)
      {
        SurvivesOn(m, bs, u, mid, h.mem[..], h.blocks, p);
      }
    }
  }

  lemma AskSurvives(m: seq<Cell>, bs: seq<Block>, u: seq<Cell>, now: seq<Block>, n: nat, took: bool)
    requires !took ==> u == m && now == bs
    requires took ==> var k := FirstFit(bs, Cells(n));
      k < |bs| && now == Taken(bs, k, Cells(n)) && Kept(m, u, bs, k, k + 1)
    ensures forall p :: Survives(m, bs, u, now, p)
  {
    hide Survives, Kept, Taken, FirstFit, Cells;
    var k := FirstFit(bs, Cells(n));
    forall p
      ensures Survives(m, bs, u, now, p)
    {
      if took {
        TakenSurvives(m, u, bs, k, Cells(n), p);
      } else {
        Same(m, bs, p);
      }
    }
  }

  lemma BackSurvives(m: seq<Cell>, bs: seq<Block>, u: seq<Cell>, now: seq<Block>, q: int)
    requires (forall k :: 0 <= k < |bs| ==> !IsLive(bs, k, q)) ==> u == m && now == bs
    requires forall k :: 0 <= k < |bs| && IsLive(bs, k, q) ==> Freed(m, bs, u, now, k)
    ensures forall p :: p != q ==> Survives(m, bs, u, now, p)
  {
    hide Survives, Freed;
    forall p | p != q
      ensures Survives(m, bs, u, now, p)
    {
      if exists k :: 0 <= k < |bs| && IsLive(bs, k, q) {
        var k :| 0 <= k < |bs| && IsLive(bs, k, q);
        FreedSurvives(m, u, bs, now, k, p);
      } else {
        Same(m, bs, p);
      }
    }
  }
}

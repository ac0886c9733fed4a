/** Bytes, little-endian words and alignment: the vocabulary every other module shares.
    Machine integers are ranges of `int`; wherever the firmware's unsigned arithmetic can wrap,
    the wrap is written out as `% W32`. */
module Bytes {
  type byte = x: int | 0 <= x < 0x100
  type u16 = x: int | 0 <= x < 0x1_0000
  type u32 = x: int | 0 <= x < 0x1_0000_0000

  datatype Maybe<+T> = None | Some(value: T)

  const W32: int := 0x1_0000_0000
  const ERASED: byte := 0xFF

  function Le16(w: u16): (s: seq<byte>)
    ensures |s| == 2
  {
    [w % 256, w / 256]
  }

  function Le32(w: u32): (s: seq<byte>)
    ensures |s| == 4
  {
    [w % 256, w / 0x100 % 256, w / 0x1_0000 % 256, w / 0x100_0000]
  }

  function Rd16(s: seq<byte>, off: int): (w: u16)
    requires 0 <= off && off + 2 <= |s|
  {
    var b1: int := s[off + 1];
    s[off] + 0x100 * b1
  }

  function Rd32(s: seq<byte>, off: int): (w: u32)
    requires 0 <= off && off + 4 <= |s|
  {
    var b1: int, b2: int, b3: int := s[off + 1], s[off + 2], s[off + 3];
    s[off] + 0x100 * b1 + 0x1_0000 * b2 + 0x100_0000 * b3
  }

  lemma ReadBack16(w: u16, s: seq<byte>, off: int)
    requires 0 <= off && off + 2 <= |s| && s[off..off + 2] == Le16(w)
    ensures Rd16(s, off) == w
  {
    var t := s[off..off + 2];
    assert s[off] == t[0] && s[off + 1] == t[1];
  }

  lemma ReadBack32(w: u32, s: seq<byte>, off: int)
    requires 0 <= off && off + 4 <= |s| && s[off..off + 4] == Le32(w)
    ensures Rd32(s, off) == w
  {
    var t := s[off..off + 4];
    assert s[off] == t[0] && s[off + 1] == t[1] && s[off + 2] == t[2] && s[off + 3] == t[3];
    Bytes4(w);
  }

  lemma Bytes4(w: u32)
    ensures w == w % 256 + 0x100 * (w / 0x100 % 256) + 0x1_0000 * (w / 0x1_0000 % 256) + 0x100_0000 * (w / 0x100_0000)
  {
    var a, b := w / 0x100, w / 0x1_0000;
    assert a == b * 256 + a % 256;
    assert b == w / 0x100_0000 * 256 + b % 256;
  }

  /** A slice of a slice. */
  lemma SubSlice<T>(s: seq<T>, off: int, n: int, a: int, w: int)
    requires 0 <= off && 0 <= a && 0 <= w && a + w <= n && off + n <= |s|
    ensures s[off..off + n][a..a + w] == s[off + a..off + a + w]
  {
    var l, r := s[off..off + n][a..a + w], s[off + a..off + a + w];
    assert forall k :: 0 <= k < w ==> l[k] == r[k];
  }

  /** `s` holds `p` at offset `off`. */
  ghost predicate At(s: seq<byte>, off: int, p: seq<byte>) {
    0 <= off && off + |p| <= |s| && s[off..off + |p|] == p
  }

  lemma AtParts(x: seq<byte>, p: seq<byte>)
    ensures At(x + p, 0, x) && At(x + p, |x|, p)
  {
  }

  lemma AtTrans(s: seq<byte>, off: int, b: seq<byte>, a: int, p: seq<byte>)
    requires At(s, off, b) && At(b, a, p)
    ensures At(s, off + a, p)
  {
    SubSlice(s, off, |b|, a, |p|);
  }

  lemma AtInSlice(s: seq<byte>, lo: int, hi: int, off: int, p: seq<byte>)
    requires 0 <= lo <= hi <= |s| && 0 <= off && lo + off + |p| <= hi && At(s, lo + off, p)
    ensures At(s[lo..hi], off, p)
  {
    SubSlice(s, lo, hi - lo, off, |p|);
  }

  /** `memcpy(s + off, d, |d|)`. */
  function Splice(s: seq<byte>, off: int, d: seq<byte>): (r: seq<byte>)
    requires 0 <= off && off + |d| <= |s|
    ensures |r| == |s|
    ensures r[off..off + |d|] == d
    ensures forall i :: 0 <= i < |s| && !(off <= i < off + |d|) ==> r[i] == s[i]
  {
    s[..off] + d + s[off + |d|..]
  }

  /** Writing `d` right behind `b` makes the two one run. */
  lemma AtSnoc(s: seq<byte>, off: int, b: seq<byte>, d: seq<byte>)
    requires At(s, off, b) && off + |b| + |d| <= |s|
    ensures At(Splice(s, off + |b|, d), off, b + d)
  {
    var r := Splice(s, off + |b|, d);
    assert r[off..off + |b|] == s[off..off + |b|];
    assert r[off..off + |b + d|] == r[off..off + |b|] + r[off + |b|..off + |b + d|];
  }

  /** `memcpy` into a buffer. */
  method Store(a: array<byte>, at: nat, d: seq<byte>)
    requires at + |d| <= a.Length
    modifies a
    ensures a[..] == Splice(old(a[..]), at, d)
  {
    for i := 0 to |d|
      invariant a[..at] == old(a[..at]) && a[at..at + i] == d[..i]
      invariant a[at + |d|..] == old(a[at + |d|..])
    {
      a[at + i] := d[i];
    }
    assert a[..] == a[..at] + a[at..at + |d|] + a[at + |d|..];
  }

  lemma SameSlice(s: seq<byte>, t: seq<byte>, a: nat, b: nat)
    requires a <= b <= |s| == |t| && forall i :: a <= i < b ==> s[i] == t[i]
    ensures s[a..b] == t[a..b]
  {
  }

  /** A window a splice misses. */
  lemma SpliceMiss(s: seq<byte>, off: nat, d: seq<byte>, pos: nat, end: nat)
    requires off + |d| <= |s| && pos <= end <= |s| && (off + |d| <= pos || end <= off || d == [] || pos == end)
    ensures Splice(s, off, d)[pos..end] == s[pos..end]
  {
    hide Splice;
  }

  lemma SpliceIndex(s: seq<byte>, off: nat, d: seq<byte>, k: nat)
    requires off + |d| <= |s| && k < |s|
    ensures Splice(s, off, d)[k] == if off <= k < off + |d| then d[k - off] else s[k]
  {
  }

  lemma SpliceHitAt(s: seq<byte>, off: nat, d: seq<byte>, pos: nat, end: nat, lo: nat, hi: nat, i: nat)
    requires off + |d| <= |s| && pos <= lo < hi <= end <= |s| && off <= lo && hi <= off + |d|
    requires (lo == off || lo == pos) && (hi == off + |d| || hi == end) && i < end - pos
    ensures Splice(s, off, d)[pos + i] == Splice(s[pos..end], lo - pos, d[lo - off..hi - off])[i]
  {
    hide Splice;
    SpliceIndex(s, off, d, pos + i);
    SpliceIndex(s[pos..end], lo - pos, d[lo - off..hi - off], i);
  }

  /** A window a splice overlaps in `[lo, hi)`: it sees that part spliced in. */
  lemma SpliceHit(s: seq<byte>, off: nat, d: seq<byte>, pos: nat, end: nat, lo: nat, hi: nat)
    requires off + |d| <= |s| && pos <= lo < hi <= end <= |s| && off <= lo && hi <= off + |d|
    requires (lo == off || lo == pos) && (hi == off + |d| || hi == end)
    ensures Splice(s, off, d)[pos..end] == Splice(s[pos..end], lo - pos, d[lo - off..hi - off])
  {
    var l, r := Splice(s, off, d)[pos..end], Splice(s[pos..end], lo - pos, d[lo - off..hi - off]);
    hide Splice;
    forall i | 0 <= i < end - pos
      ensures l[i] == r[i]
    {
      SpliceHitAt(s, off, d, pos, end, lo, hi, i);
    }
  }

  /** `n` copies of the erased value. */
  function Pad(n: nat): (r: seq<byte>)
    ensures |r| == n && forall i :: 0 <= i < n ==> r[i] == ERASED
  {
    seq(n, _ => ERASED)
  }

  /** `(v + a - 1) & ~(a - 1)` for a power of two `a`. */
  function RoundUp(v: int, a: int): (r: int)
    requires 0 <= v && 0 < a
    ensures v <= r < v + a && r % a == 0
  {
    RoundUpExact(v, a);
    (v + a - 1) / a * a
  }

  lemma RoundUpExact(v: int, a: int)
    requires 0 <= v && 0 < a
    ensures v <= (v + a - 1) / a * a < v + a && (v + a - 1) / a * a % a == 0
  {
    var q := (v + a - 1) / a;
    assert v + a - 1 == q * a + (v + a - 1) % a;
    MultipleMod(q, a);
  }

  lemma MultipleMod(q: int, a: int)
    requires 0 <= q && 0 < a
    ensures q * a % a == 0
  {
    var k := q * a / a;
    assert 0 <= (q - k) * a < a;
    Small(q - k, a);
  }

  lemma Small(d: int, a: int)
    requires 0 < a && 0 <= d * a < a
    ensures d == 0
  {
  }

  /** Reading off the two digits of `b * q + r` in base `b`. */
  lemma Digits(q: nat, b: nat, r: nat)
    requires r < b
    ensures (b * q + r) / b == q && (b * q + r) % b == r
  {
    var x := b * q + r;
    var e := q - x / b;
    assert b * e == x % b - r;
    Tiny(e, b);
  }

  lemma Tiny(e: int, b: int)
    requires -b < b * e < b
    ensures e == 0
  {
  }

  lemma Unwrapped(x: int)
    requires 0 <= x < W32
    ensures x % W32 == x
  {
  }

  lemma Fewer(k: nat, c: nat, b: nat)
    requires 0 < b && b * k < b * c
    ensures k < c
  {
    assert (c - k) * b > 0;
  }

  lemma NextMultiple(p: int, q: int, a: nat)
    requires p > q
    ensures p * a >= q * a + a
  {
    assert p * a == (p - q - 1) * a + q * a + a;
  }

  lemma NoMultipleBetween(r: nat, w: nat, a: nat)
    requires 0 < a && r % a == 0 && w % a == 0 && r + a > w
    ensures r >= w
  {
    var p, q := r / a, w / a;
    assert r == a * p && w == a * q;
    if p < q {
      NextMultiple(q, p, a);
    } else if q < p {
      NextMultiple(p, q, a);
    }
  }

  /** Reading a round-up off the multiples around it. */
  lemma Rounds(v: nat, a: nat, q: nat)
    requires 0 < a && a * q - a < v <= a * q
    ensures RoundUp(v, a) == a * q
  {
    var r := RoundUp(v, a);
    hide RoundUp;
    MultipleMod(q, a);
    assert q * a == a * q;
    if r < a * q {
      NoMultipleBetween(r, a * q, a);
    } else if a * q < r {
      NoMultipleBetween(a * q, r, a);
    }
  }
}

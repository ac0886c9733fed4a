/** The twelve-bit allocation table: two entries in every three bytes. */
module PackedTable {
  import opened Bytes

  type u12 = x: int | 0 <= x < 0x1000

  function At12(c: nat): nat {
    c + c / 2
  }

  /** Bytes needed for entries `0..n - 1`. */
  function TableBytes(n: nat): nat {
    (n * 3 + 1) / 2
  }

  function Get(b: seq<byte>, c: nat): u12
    requires At12(c) + 1 < |b|
  {
    Unpack(c, b[At12(c)], b[At12(c) + 1])
  }

  /** Even entries take the low twelve bits of their pair of bytes, odd ones the high. */
  function Unpack(c: nat, lo: int, hi: int): u12
    requires 0 <= lo < 256 && 0 <= hi < 256
  {
    if c % 2 == 1 then lo / 16 + hi * 16 else lo + hi % 16 * 256
  }

  /** Which bits of a byte a write replaces. */
  datatype Mask = LowNibble | HighNibble | WholeByte

  /** `(was & ~mask) | (value & mask)`. */
  function Merge(was: byte, m: Mask, value: byte): byte {
    match m
    case WholeByte => value
    case LowNibble => was / 16 * 16 + value % 16
    case HighNibble => value / 16 * 16 + was % 16
  }

  /** The two read-modify-writes that store one entry. */
  function Set(b: seq<byte>, c: nat, v: u12): (r: seq<byte>)
    requires At12(c) + 1 < |b|
    ensures |r| == |b|
  {
    var at := At12(c);
    if c % 2 == 1 then
      b[at := Merge(b[at], HighNibble, v * 16 % 256)][at + 1 := Merge(b[at + 1], WholeByte, v / 16)]
    else
      b[at := Merge(b[at], WholeByte, v % 256)][at + 1 := Merge(b[at + 1], LowNibble, v / 256)]
  }

  lemma Nibbles(was: byte, value: byte)
    ensures Merge(was, LowNibble, value) / 16 == was / 16 && Merge(was, LowNibble, value) % 16 == value % 16
    ensures Merge(was, HighNibble, value) / 16 == value / 16 && Merge(was, HighNibble, value) % 16 == was % 16
  {
  }

  lemma Shifted(q: int, r: int)
    requires 0 <= q && 0 <= r < 16
    ensures (16 * q + r) * 16 % 256 / 16 == r
  {
    assert (16 * q + r) * 16 == 256 * q + 16 * r;
  }

  lemma GetBack(b: seq<byte>, c: nat, v: u12)
    requires At12(c) + 1 < |b|
    ensures Get(Set(b, c, v), c) == v
  {
    if c % 2 == 1 {
      Nibbles(b[At12(c)], v * 16 % 256);
      Shifted(v / 16, v % 16);
    } else {
      Nibbles(b[At12(c) + 1], v / 256);
    }
    hide Merge;
  }

  /** Entries are independent, shared bytes or not. */
  lemma GetSet(b: seq<byte>, c: nat, v: u12, d: nat)
    requires At12(c) + 1 < |b| && At12(d) + 1 < |b|
    ensures Get(Set(b, c, v), d) == if c == d then v else Get(b, d)
  {
    if c == d {
      GetBack(b, c, v);
    } else if c % 2 == 1 {
      Nibbles(b[At12(c)], v * 16 % 256);
    } else {
      Nibbles(b[At12(c) + 1], v / 256);
    }
    hide Merge;
  }

  /** The table holds `n` entries. */
  function Table(b: seq<byte>, n: nat): (t: seq<u12>)
    requires TableBytes(n) <= |b|
    ensures |t| == n && forall c :: 0 <= c < n ==> t[c] == Get(b, c)
  {
    seq(n, c requires 0 <= c < n => Get(b, c))
  }

  /** Storing one entry changes that entry of the table and no other. */
  lemma TableSet(b: seq<byte>, n: nat, c: nat, v: u12)
    requires TableBytes(n) <= |b| && c < n
    ensures At12(c) + 1 < |b|
    ensures Table(Set(b, c, v), n) == Table(b, n)[c := v]
  {
    hide Get, Set;
    forall d | 0 <= d < n
      ensures Table(Set(b, c, v), n)[d] == Table(b, n)[c := v][d]
    {
      GetSet(b, c, v, d);
    }
  }
}

/** File names: the 8.3 form with its case bits, and long names spread over directory slots. */
module FatNames {
  import opened Bytes

  const DOT := 0x2E
  const SPACE := 0x20
  const BASE_LOWER := 0x08
  const EXT_LOWER := 0x10

  /** A C string's characters: no terminator inside. */
  ghost predicate IsName(s: seq<byte>) {
    forall i :: 0 <= i < |s| ==> s[i] != 0
  }

  /** What a C string in `s` reads as: everything before the first zero. */
  function CStr(s: seq<byte>): (r: seq<byte>)
    ensures |r| <= |s| && r == s[..|r|] && forall i :: 0 <= i < |r| ==> r[i] != 0
    ensures |r| < |s| ==> s[|r|] == 0
  {
    if s == [] || s[0] == 0 then [] else [s[0]] + CStr(s[1..])
  }

  lemma CStrIs(s: seq<byte>, n: nat)
    requires n <= |s| && IsName(s[..n]) && (n < |s| ==> s[n] == 0)
    ensures CStr(s) == s[..n]
  {
    assert forall i :: 0 <= i < n ==> s[..n][i] == s[i];
  }

  function Upper(c: byte): byte {
    if 0x61 <= c <= 0x7A then c - 32 else c
  }

  function Lower(c: byte): byte {
    if 0x41 <= c <= 0x5A then c + 32 else c
  }

  /** Case-insensitive equality. */
  ghost predicate Same(a: seq<byte>, b: seq<byte>) {
    |a| == |b| && forall i :: 0 <= i < |a| ==> Lower(a[i]) == Lower(b[i])
  }

  method Ieq(a: seq<byte>, b: seq<byte>) returns (r: bool)
    ensures r == Same(a, b)
  {
    var i := 0;
    while i < |a| && i < |b|
      invariant i <= |a| && i <= |b| && forall k :: 0 <= k < i ==> Lower(a[k]) == Lower(b[k])
    {
      if Lower(a[i]) != Lower(b[i]) {
        return false;
      }
      i := i + 1;
    }
    r := i == |a| && i == |b|;
  }

  // ----- the 8.3 form

  predicate Illegal(c: byte) {
    c < 0x20 || c in {0x22, 0x2A, 0x2B, 0x2C, 0x2E, 0x2F, 0x3A, 0x3B, 0x3C, 0x3D, 0x3E, 0x3F, 0x5B, 0x5C, 0x5D, 0x7C}
  }

  /** What is left of ASCII: space, digits, letters, these marks and DEL; and everything past ASCII. */
  lemma LegalSet(c: byte)
    ensures !Illegal(c) <==>
      || c == 0x20 || 0x30 <= c <= 0x39 || 0x41 <= c <= 0x5A || 0x61 <= c <= 0x7A || c >= 0x7F
      || c in {0x21, 0x23, 0x24, 0x25, 0x26, 0x27, 0x28, 0x29, 0x2D, 0x40, 0x5E, 0x5F, 0x60, 0x7B, 0x7D, 0x7E}
  {
  }

  /** The first `cap` legal characters. */
  function Kept(s: seq<byte>, cap: nat): (r: seq<byte>)
    ensures |r| <= cap && forall i :: 0 <= i < |r| ==> !Illegal(r[i])
  {
    if s == [] || cap == 0 then [] else if Illegal(s[0]) then Kept(s[1..], cap) else [s[0]] + Kept(s[1..], cap - 1)
  }

  lemma {:induction false} KeptSnoc(s: seq<byte>, c: byte, cap: nat)
    ensures Kept(s + [c], cap) == if Illegal(c) || |Kept(s, cap)| == cap then Kept(s, cap) else Kept(s, cap) + [c]
  {
    if s != [] && cap > 0 {
      assert (s + [c])[1..] == s[1..] + [c];
      KeptSnoc(s[1..], c, if Illegal(s[0]) then cap else cap - 1);
    } else if s == [] {
      assert [c][1..] == [];
    }
  }

  function Shout(s: seq<byte>): (r: seq<byte>)
    ensures |r| == |s| && forall i :: 0 <= i < |s| ==> r[i] == Upper(s[i])
  {
    seq(|s|, i requires 0 <= i < |s| => Upper(s[i]))
  }

  ghost predicate HasLower(s: seq<byte>) {
    exists i :: 0 <= i < |s| && 0x61 <= s[i] <= 0x7A
  }

  ghost predicate HasUpper(s: seq<byte>) {
    exists i :: 0 <= i < |s| && 0x41 <= s[i] <= 0x5A
  }

  function Widen(s: seq<byte>, n: nat): (r: seq<byte>)
    requires |s| <= n
    ensures |r| == n
  {
    s + seq(n - |s|, _ => SPACE)
  }

  datatype Short = Short(name: seq<byte>, flags: byte)

  /** Where the extension's dot is, or -1. */
  ghost predicate IsLastDot(name: seq<byte>, d: int) {
    && -1 <= d < |name| && (d >= 0 ==> name[d] == DOT)
    && forall i :: d < i < |name| ==> name[i] != DOT
  }

  /** The halves of a name split at `d`. */
  function BaseOf(name: seq<byte>, d: int): seq<byte>
    requires -1 <= d < |name|
  {
    if d < 0 then name else name[..d]
  }

  function ExtOf(name: seq<byte>, d: int): seq<byte>
    requires -1 <= d < |name|
  {
    if d < 0 then [] else name[d + 1..]
  }

  /** `r` is the 8.3 form of `name`, or there is none: a name that is all extension, or has no legal
      character in its base, has none. */
  ghost predicate IsShort(name: seq<byte>, r: Maybe<Short>) {
    if name == [] || name[0] == DOT then r.None?
    else exists d :: IsLastDot(name, d) && ShortAt(name, d, r)
  }

  ghost predicate ShortAt(name: seq<byte>, d: int, r: Maybe<Short>)
    requires -1 <= d < |name|
  {
    var base, ext := Kept(BaseOf(name, d), 8), Kept(ExtOf(name, d), 3);
    if base == [] then r.None?
    else
      && r.Some? && r.value.name == Substitute(Widen(Shout(base), 8) + Widen(Shout(ext), 3))
      && r.value.flags == (if HasLower(base) && !HasUpper(base) then BASE_LOWER else 0)
                          + (if HasLower(ext) && !HasUpper(ext) then EXT_LOWER else 0)
  }

  /** A leading 0xE5 would mark the entry deleted; the format stores 0x05 for it. */
  function Substitute(s: seq<byte>): (r: seq<byte>)
    ensures |r| == |s|
  {
    if s != [] && s[0] == 0xE5 then s[0 := 0x05] else s
  }

  /** One half of fat_shortname's work: keep, fold and note the case. */
  method FoldHalf(s: seq<byte>, cap: nat) returns (out: seq<byte>, lower: bool, upper: bool)
    ensures out == Shout(Kept(s, cap)) && lower == HasLower(Kept(s, cap)) && upper == HasUpper(Kept(s, cap))
  {
    out, lower, upper := [], false, false;
    var i := 0;
    while i < |s| && |out| < cap
      invariant i <= |s| && out == Shout(Kept(s[..i], cap))
      invariant lower == HasLower(Kept(s[..i], cap)) && upper == HasUpper(Kept(s[..i], cap))
    {
      var c := s[i];
      KeptSnoc(s[..i], c, cap);
      assert s[..i + 1] == s[..i] + [c];
      if !Illegal(c) {
        ghost var k := Kept(s[..i], cap);
        CaseSnoc(k, c);
        lower := lower || 0x61 <= c <= 0x7A;
        upper := upper || 0x41 <= c <= 0x5A;
        out := out + [Upper(c)];
      }
      i := i + 1;
    }
    KeptAll(s, i, cap);
  }

  lemma CaseSnoc(k: seq<byte>, c: byte)
    ensures HasLower(k + [c]) == (HasLower(k) || 0x61 <= c <= 0x7A)
    ensures HasUpper(k + [c]) == (HasUpper(k) || 0x41 <= c <= 0x5A)
  {
    var t := k + [c];
    assert t[|k|] == c && forall i :: 0 <= i < |k| ==> t[i] == k[i];
  }

  /** Once the cap is reached the rest does not matter. */
  lemma {:induction false} KeptAll(s: seq<byte>, i: nat, cap: nat)
    requires i <= |s| && (i == |s| || |Kept(s[..i], cap)| == cap)
    ensures Kept(s, cap) == Kept(s[..i], cap)
    decreases |s| - i
  {
    if i < |s| {
      assert s[..i + 1] == s[..i] + [s[i]];
      KeptSnoc(s[..i], s[i], cap);
      KeptAll(s, i + 1, cap);
    } else {
      assert s[..i] == s;
    }
  }

  /** fat_shortname. */
  method ShortName(name: seq<byte>) returns (r: Maybe<Short>)
    ensures IsShort(name, r)
    ensures r.Some? ==> |r.value.name| == 11 && r.value.flags < 256 && r.value.name[0] != 0xE5 && r.value.name[0] != 0
  {
    if name == [] || name[0] == DOT {
      return None;
    }
    var dot := -1;
    for i := 0 to |name|
      invariant -1 <= dot < i && (dot >= 0 ==> name[dot] == DOT) && forall k :: dot < k < i ==> name[k] != DOT
    {
      if name[i] == DOT {
        dot := i;
      }
    }
    assert IsLastDot(name, dot);
    var base, bl, bu := FoldHalf(BaseOf(name, dot), 8);
    r := None;
    if base != [] {
      var ext, el, eu := FoldHalf(ExtOf(name, dot), 3);
      var s := Widen(base, 8) + Widen(ext, 3);
      assert s[0] == base[0];
      r := Some(Short(Substitute(s), (if bl && !bu then BASE_LOWER else 0) + (if el && !eu then EXT_LOWER else 0)));
    }
    assert ShortAt(name, dot, r);
  }

  /** One half of an 8.3 name as it is shown. */
  function Shown(s: seq<byte>, lower: bool): (r: seq<byte>)
    ensures |r| <= |s|
  {
    if s == [] || s[0] == SPACE then [] else [if lower then Lower(s[0]) else s[0]] + Shown(s[1..], lower)
  }

  function Render(name: seq<byte>, flags: byte): seq<byte>
    requires |name| == 11
  {
    Shown(name[..8], flags / BASE_LOWER % 2 == 1)
    + if name[8] != SPACE then [DOT] + Shown(name[8..], flags / EXT_LOWER % 2 == 1) else []
  }

  // ----- long names

  const CHARS := 13
  const MAXNAME := 64

  /** Where character `k` of a long-name slot is: 1, 3 .. 9, 14, 16 .. 24, 28, 30. */
  function Place(k: nat): nat {
    if k < 5 then 1 + 2 * k else if k < 11 then 4 + 2 * k else 6 + 2 * k
  }

  type Slot = s: seq<byte> | |s| == 32 witness seq(32, _ => 0)
  type Buffer = s: seq<byte> | |s| == MAXNAME witness seq(MAXNAME, _ => 0)

  function Blank(): (b: Buffer)
    ensures forall i :: 0 <= i < MAXNAME ==> b[i] == 0
  {
    seq(MAXNAME, _ => 0)
  }

  function Unit(e: Slot, k: nat): u16
    requires k < CHARS
  {
    Rd16(e, Place(k))
  }

  /** Padding or terminator: nothing to store. */
  predicate Skipped(c: u16) {
    c == 0xFFFF || c == 0
  }

  predicate Fits(c: u16, at: nat) {
    at < MAXNAME - 1 && c <= 0x7F
  }

  /** The buffer after one long-name slot: its thirteen characters in place, or the name abandoned. */
  ghost function Gather(e: Slot, name: Buffer): Maybe<Buffer> {
    if e[0] % 32 == 0 || !AllFit(e, BaseAt(e)) then None else Some(Placed(e, name, BaseAt(e)))
  }

  /** Where a long-name slot's first character goes. */
  function BaseAt(e: Slot): nat
    requires e[0] % 32 != 0
  {
    (e[0] % 32 - 1) * CHARS
  }

  ghost function Placed(e: Slot, name: Buffer, base: nat): (r: Buffer)
    requires AllFit(e, base)
    ensures forall j :: 0 <= j < MAXNAME ==> r[j] == Raw(e, name, base, j)
  {
    seq(MAXNAME, j requires 0 <= j < MAXNAME => Put(e, name, base, j))
  }

  ghost predicate AllFit(e: Slot, base: nat) {
    forall k :: 0 <= k < CHARS ==> Skipped(Unit(e, k)) || Fits(Unit(e, k), base + k)
  }

  ghost function Raw(e: Slot, name: Buffer, base: nat, j: nat): int
    requires j < MAXNAME
  {
    if base <= j < base + CHARS && !Skipped(Unit(e, j - base)) then Unit(e, j - base) else name[j]
  }

  ghost function Put(e: Slot, name: Buffer, base: nat, j: nat): byte
    requires j < MAXNAME && AllFit(e, base)
  {
    assert base <= j < base + CHARS ==> Skipped(Unit(e, j - base)) || Fits(Unit(e, j - base), base + (j - base));
    Raw(e, name, base, j)
  }

  /** lfn_gather. */
  method LfnGather(e: Slot, name0: Buffer) returns (r: Maybe<Buffer>)
    ensures r == Gather(e, name0)
  {
    hide Unit;
    if e[0] % 32 == 0 {
      return None;
    }
    var base := BaseAt(e);
    var name := name0;
    for k := 0 to CHARS
      invariant forall i :: 0 <= i < k ==> Skipped(Unit(e, i)) || Fits(Unit(e, i), base + i)
      invariant forall j :: 0 <= j < MAXNAME ==> name[j] == if j < base + k then Raw(e, name0, base, j) else name0[j]
    {
      var c := Unit(e, k);
      if !Skipped(c) {
        if !Fits(c, base + k) {
          return None;
        }
        name := name[base + k := c];
      }
    }
    r := Some(name);
    assert forall j :: 0 <= j < MAXNAME ==> name[j] == Raw(e, name0, base, j);
    assert name == Gather(e, name0).value;
  }

  /** Character `i` of a long name as it is stored: the name, one terminator, then padding. */
  function UnitOf(name: seq<byte>, i: nat): u16 {
    if i < |name| then name[i] else if i == |name| then 0 else 0xFFFF
  }

  function Checksum(name: seq<byte>): byte {
    if name == [] then 0 else
    var s := Checksum(name[..|name| - 1]);
    (s % 2 * 128 + s / 2 + name[|name| - 1]) % 256
  }

  /** Rotated right by one bit, and a character added. */
  function Turned(s: byte, c: byte): byte {
    ((if s % 2 == 0 then s / 2 else 128 + s / 2) + c) % 256
  }

  lemma TurnedOneToOne(s: byte, t: byte, c: byte, d: byte)
    ensures s != t && c == d ==> Turned(s, c) != Turned(t, d)
    ensures s == t && c != d ==> Turned(s, c) != Turned(t, d)
  {
    SumDiffers(if s % 2 == 0 then s / 2 else 128 + s / 2, if t % 2 == 0 then t / 2 else 128 + t / 2, c, d);
  }

  lemma SumDiffers(x: byte, y: byte, c: byte, d: byte)
    ensures (x != y && c == d) || (x == y && c != d) ==> (x + c) % 256 != (y + d) % 256
  {
  }

  lemma ChecksumSnoc(name: seq<byte>, c: byte)
    ensures Checksum([]) == 0 && Checksum(name + [c]) == Turned(Checksum(name), c)
  {
    assert (name + [c])[..|name|] == name;
  }

  lemma StepOf(n: seq<byte>, k: nat)
    requires k < |n|
    ensures Checksum([]) == 0 && Checksum(n[..k + 1]) == Turned(Checksum(n[..k]), n[k])
  {
    hide Checksum, Turned;
    assert n[..k + 1] == n[..k] + [n[k]];
    ChecksumSnoc(n[..k], n[k]);
  }

  /** The stored form of "readme.txt". */
  lemma ChecksumOf()
    ensures Checksum([0x52, 0x45, 0x41, 0x44, 0x4D, 0x45, 0x20, 0x20, 0x54, 0x58, 0x54]) == 0x73
  {
    hide Checksum;
    var n: seq<byte> := [0x52, 0x45, 0x41, 0x44, 0x4D, 0x45, 0x20, 0x20, 0x54, 0x58, 0x54];
    assert n[..0] == [];
    StepOf(n, 0);
    assert Checksum(n[..1]) == 0x52;
    StepOf(n, 1);
    assert Checksum(n[..2]) == 0x6E;
    StepOf(n, 2);
    assert Checksum(n[..3]) == 0x78;
    StepOf(n, 3);
    assert Checksum(n[..4]) == 0x80;
    StepOf(n, 4);
    assert Checksum(n[..5]) == 0x8D;
    StepOf(n, 5);
    assert Checksum(n[..6]) == 0x0B;
    StepOf(n, 6);
    assert Checksum(n[..7]) == 0xA5;
    StepOf(n, 7);
    assert Checksum(n[..8]) == 0xF2;
    StepOf(n, 8);
    assert Checksum(n[..9]) == 0xCD;
    StepOf(n, 9);
    assert Checksum(n[..10]) == 0x3E;
    StepOf(n, 10);
    assert Checksum(n[..11]) == 0x73;
    assert n[..11] == n;
  }

  /** Two short names that differ in one character have different checksums. */
  lemma {:induction false} ChecksumNotices(a: seq<byte>, x: byte, y: byte, b: seq<byte>)
    requires x != y
    ensures Checksum(a + [x] + b) != Checksum(a + [y] + b)
    decreases |b|
  {
    hide Checksum, Turned;
    if b == [] {
      ChecksumSnoc(a, x);
      ChecksumSnoc(a, y);
      TurnedOneToOne(Checksum(a), Checksum(a), x, y);
      assert a + [x] + b == a + [x] && a + [y] + b == a + [y];
    } else {
      var init, c := b[..|b| - 1], b[|b| - 1];
      ChecksumNotices(a, x, y, init);
      ChecksumSnoc(a + [x] + init, c);
      ChecksumSnoc(a + [y] + init, c);
      TurnedOneToOne(Checksum(a + [x] + init), Checksum(a + [y] + init), c, c);
      assert a + [x] + b == a + [x] + init + [c] && a + [y] + b == a + [y] + init + [c];
    }
  }

  /** Slot number `q` of the run for `name`; the one written first carries 0x40. */
  ghost predicate IsLfn(e: Slot, name: seq<byte>, q: nat, first: bool, sum: byte) {
    && 1 <= q && e[0] == (if first && q / 64 % 2 == 0 then q + 64 else q) % 256
    && e[11] == 0x0F && e[12] == 0 && e[13] == sum && e[26] == 0 && e[27] == 0
    && forall k :: 0 <= k < CHARS ==> Unit(e, k) == UnitOf(name, (q - 1) * CHARS + k)
  }

  lemma PutUnit(e: Slot, k: nat, c: u16)
    requires k < CHARS
    ensures var f := e[Place(k) := c % 256][Place(k) + 1 := c / 256];
      && Unit(f, k) == c && (forall i :: 0 <= i < CHARS && i != k ==> Unit(f, i) == Unit(e, i))
      && (forall x :: x in {0, 11, 12, 13, 26, 27} ==> f[x] == e[x])
  {
  }

  method LfnEntry(name: seq<byte>, q: nat, first: bool, name83: seq<byte>) returns (e: Slot)
    requires 1 <= q && |name83| == 11
    ensures IsLfn(e, name, q, first, Checksum(name83))
  {
    hide UnitOf, Unit;
    e := seq(32, _ => 0);
    e := e[0 := (if first && q / 64 % 2 == 0 then q + 64 else q) % 256][11 := 0x0F];
    var sum: byte := 0;
    for k := 0 to 11
      invariant sum == Checksum(name83[..k])
    {
      assert name83[..k + 1][..k] == name83[..k];
      sum := (sum % 2 * 128 + sum / 2 + name83[k]) % 256;
    }
    assert name83[..11] == name83;
    e := e[13 := sum];
    for k := 0 to CHARS
      invariant e[0] == (if first && q / 64 % 2 == 0 then q + 64 else q) % 256 && e[11] == 0x0F && e[12] == 0
        && e[13] == sum
      invariant e[26] == 0 && e[27] == 0
      invariant forall i :: 0 <= i < k ==> Unit(e, i) == UnitOf(name, (q - 1) * CHARS + i)
    {
      var c := UnitOf(name, (q - 1) * CHARS + k);
      PutUnit(e, k, c);
      e := e[Place(k) := c % 256][Place(k) + 1 := c / 256];
    }
  }

  // ----- a long name comes back

  /** What a reader of the run holds once the characters from `lo` on are in. */
  ghost function Partial(name: seq<byte>, lo: nat): Buffer {
    seq(MAXNAME, j requires 0 <= j < MAXNAME => if lo <= j < |name| then name[j] else 0)
  }

  /** A name the reader can reassemble. */
  ghost predicate Readable(name: seq<byte>) {
    IsName(name) && |name| < MAXNAME && forall i :: 0 <= i < |name| ==> name[i] <= 0x7F
  }

  lemma GatherSlot(e: Slot, name: seq<byte>, q: nat, first: bool, sum: byte)
    requires IsLfn(e, name, q, first, sum) && Readable(name) && (q - 1) * CHARS < |name|
    ensures Gather(e, Partial(name, q * CHARS)) == Some(Partial(name, (q - 1) * CHARS))
  {
    hide Unit;
    var base := (q - 1) * CHARS;
    assert e[0] % 32 == q;
    forall k | 0 <= k < CHARS
      ensures Skipped(Unit(e, k)) || Fits(Unit(e, k), base + k)
    {
      assert Unit(e, k) == UnitOf(name, base + k);
    }
    assert AllFit(e, base);
    var want := Partial(name, base);
    var got := Gather(e, Partial(name, q * CHARS)).value;
    forall j | 0 <= j < MAXNAME
      ensures got[j] == want[j]
    {
      if base <= j < base + CHARS {
        assert Unit(e, j - base) == UnitOf(name, base + (j - base));
      }
    }
    assert got == want;
  }

  /** With every character in, the buffer reads as the name. */
  lemma Complete(name: seq<byte>)
    requires Readable(name)
    ensures CStr(Partial(name, 0)) == name
  {
    var b := Partial(name, 0);
    assert b[..|name|] == name;
    CStrIs(b, |name|);
  }
}

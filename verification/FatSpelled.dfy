/** What a fresh volume says about itself, read by the offsets and characters a host reads it by. */
module FatSpelled {
  import opened Bytes
  import opened Sectors
  import opened FatNames
  import opened FatVolume
  import opened FatDir
  import opened FatFormat
  import Calendar

  /** A text's characters as bytes. */
  function Ascii(t: string): (r: seq<byte>)
    requires forall i :: 0 <= i < |t| ==> (t[i] as int) < 0x80
    ensures |r| == |t|
  {
    seq(|t|, i requires 0 <= i < |t| => t[i] as int)
  }

  lemma Names()
    ensures MSWIN == Ascii("MSWIN4.1") && FAT12_TEXT == Ascii("FAT12   ") && RPCORTEX == Ascii("RPCORTEX")
  {
  }

  /** A label is cut or filled with spaces to eleven characters. */
  lemma LabelSpelled(title: seq<byte>, i: nat)
    requires i < 11
    ensures LabelName(title)[i] == if i < |title| then title[i] else 0x20
  {
  }

  /** The boot sector around the parameters: jump, maker, drive, signature, serial number (a given one when there
      is none), label, type, and the mark at the end. */
  lemma BootSpelled(g: Geo, total: u32, title: seq<byte>, serial: u32)
    requires g.spc < 256 && g.reserved < 0x1_0000 && g.numFats < 256 && g.rootEntries < 0x1_0000
    ensures var b := Boot(g, total, title, serial);
      && b[0..3] == [0xEB, 0x3C, 0x90] && b[3..11] == Ascii("MSWIN4.1")
      && b[36] == 0x80 && b[37] == 0 && b[38] == 0x29 && Rd32(b, 39) == (if serial == 0 then 0x5250_4332 else serial)
      && b[43..54] == LabelName(title) && b[54..62] == Ascii("FAT12   ")
      && (forall i :: 62 <= i < 510 ==> b[i] == 0) && b[510] == 0x55 && b[511] == 0xAA
  {
    hide Params, LabelName, Le32, Rd32, Ascii;
    Names();
    var b, n := Boot(g, total, title, serial), if serial == 0 then 0x5250_4332 else serial;
    assert b[39..43] == Le32(n);
    ReadBack32(n, b, 39);
  }

  /** The parameters: sector size, sectors to a cluster, reserved sectors, tables, root entries, the total in the short
      field if it fits, media, sectors to a table, and a disk geometry no one uses. */
  lemma ParamsSpelled(g: Geo, total: u32, title: seq<byte>, serial: u32)
    requires g.spc < 256 && g.reserved < 0x1_0000 && g.numFats < 256 && g.rootEntries < 0x1_0000
    ensures var b := Boot(g, total, title, serial);
      && Rd16(b, 11) == 512 && b[13] == g.spc && Rd16(b, 14) == g.reserved && b[16] == g.numFats
      && Rd16(b, 17) == g.rootEntries && Rd16(b, 19) == (if total < 0x1_0000 then total else 0) && b[21] == 0xF8
      && Rd16(b, 22) == g.fatSectors % 0x1_0000 && Rd16(b, 24) == 63 && Rd16(b, 26) == 255
      && Rd32(b, 28) == 0 && Rd32(b, 32) == (if total < 0x1_0000 then 0 else total)
  {
    hide Boot, Params, Rd16, Rd32, Le16, Le32, ShapeParams, SizeParams;
    var b := Boot(g, total, title, serial);
    FatFormat.Fields(g, total, b);
    SizesAt(g, total, b);
  }

  lemma SizesAt(g: Geo, total: u32, b: Sector)
    requires g.spc < 256 && g.reserved < 0x1_0000 && g.numFats < 256 && g.rootEntries < 0x1_0000
    requires b[11..36] == Params(g, total)
    ensures Rd16(b, 19) == (if total < 0x1_0000 then total else 0) && b[21] == 0xF8 && Rd16(b, 24) == 63
    ensures Rd16(b, 26) == 255 && Rd32(b, 28) == 0 && Rd32(b, 32) == (if total < 0x1_0000 then 0 else total)
  {
    hide Rd16, Rd32, Le16, Le32, ShapeParams, SizeParams;
    var p, y := Params(g, total), SizeParams(g.fatSectors, total);
    SizePieces(g.fatSectors, total);
    assert p[8..10] == y[0..2] && p[13..15] == y[5..7] && p[15..17] == y[7..9] && p[17..21] == y[9..13]
      && p[21..25] == y[13..17] && p[10] == y[2];
    Field16(b, p, 8, if total < 0x1_0000 then total else 0);
    Field8(b, p, 10);
    Field16(b, p, 13, 63);
    Field16(b, p, 15, 255);
    Field32(b, p, 17, 0);
    Field32(b, p, 21, if total < 0x1_0000 then 0 else total);
  }

  lemma SizePieces(fat: nat, total: u32)
    ensures var y := SizeParams(fat, total);
      && y[0..2] == Le16(if total < 0x1_0000 then total else 0) && y[2] == 0xF8 && y[5..7] == Le16(63)
        && y[7..9] == Le16(255)
      && y[9..13] == Le32(0) && y[13..17] == Le32(if total < 0x1_0000 then 0 else total)
  {
    hide Le16, Le32;
  }

  /** The label's entry: a label and nothing else, without clusters or size, made on 1980-01-01. */
  lemma EntrySpelled(title: seq<byte>)
    ensures var e := LabelEntry(title);
      && e[..11] == LabelName(title) && e[11] == 0x08 && IsLabel(e) && e[12] == 0 && e[13] == 0
      && Rd16(e, 14) == 0 && Rd16(e, 16) == 33 && Rd16(e, 18) == 33 && Rd16(e, 20) == 0
      && Rd16(e, 22) == 0 && Rd16(e, 24) == 33 && FirstOf(e) == 0 && SizeOf(e) == 0
  {
    hide LabelName;
  }

  /** That date is where FAT time starts. */
  lemma EntryDate()
    ensures Calendar.MonthField(33) <= 12 && Calendar.Epoch(33, 0) == 315_532_800
  {
    Calendar.Earliest();
    hide Calendar.Epoch;
  }

  /** Letters, all of one case. */
  ghost predicate OneCase(s: seq<byte>, lower: bool) {
    forall i :: 0 <= i < |s| ==> if lower then 'a' <= s[i] as char <= 'z' else 'A' <= s[i] as char <= 'Z'
  }

  function Spaces(n: nat): (r: seq<byte>)
    ensures |r| == n && forall i :: 0 <= i < n ==> r[i] == 0x20
  {
    seq(n, _ => 0x20)
  }

  /** A plain name of up to eight letters, a dot and up to three, each half in one case, is stored in upper case and
      padded; bit 0x08 records a lower-case base, bit 0x10 a lower-case extension. */
  lemma PlainShort(base: seq<byte>, ext: seq<byte>, bl: bool, el: bool)
    requires 1 <= |base| <= 8 && 1 <= |ext| <= 3 && OneCase(base, bl) && OneCase(ext, el)
    ensures IsShort(base + [0x2E] + ext, Some(Short(Shout(base) + Spaces(8 - |base|) + Shout(ext) + Spaces(3 - |ext|),
      (if bl then 0x08 else 0) + if el then 0x10 else 0)))
  {
    var name, d := base + [0x2E] + ext, |base|;
    hide Kept, Shout, OneCase, Widen, Substitute, HasLower, HasUpper;
    Half(base, 8, bl);
    Half(ext, 3, el);
    NoDots(base, ext, bl, el);
    assert BaseOf(name, d) == base && ExtOf(name, d) == ext;
    Stored(base, ext, bl);
    assert ShortAt(name, d, Some(Short(Shout(base) + Spaces(8 - |base|) + Shout(ext) + Spaces(3 - |ext|),
      (if bl then 0x08 else 0) + if el then 0x10 else 0)));
  }

  lemma Half(s: seq<byte>, cap: nat, lower: bool)
    requires 1 <= |s| <= cap && OneCase(s, lower)
    ensures Kept(s, cap) == s && HasLower(s) == lower && HasUpper(s) == !lower
  {
    AllKept(s, cap, lower);
    assert if lower then 'a' <= s[0] as char <= 'z' else 'A' <= s[0] as char <= 'Z';
  }

  lemma {:induction false} AllKept(s: seq<byte>, cap: nat, lower: bool)
    requires |s| <= cap && OneCase(s, lower)
    ensures Kept(s, cap) == s
  {
    if s != [] {
      assert if lower then 'a' <= s[0] as char <= 'z' else 'A' <= s[0] as char <= 'Z';
      forall i | 0 <= i < |s| - 1
        ensures s[1..][i] == s[i + 1]
      {
      }
      AllKept(s[1..], cap - 1, lower);
      assert s == [s[0]] + s[1..];
    }
  }

  lemma NoDots(base: seq<byte>, ext: seq<byte>, bl: bool, el: bool)
    requires 1 <= |base| && OneCase(base, bl) && OneCase(ext, el)
    ensures IsLastDot(base + [0x2E] + ext, |base|) && (base + [0x2E] + ext)[0] != DOT
  {
    var name := base + [0x2E] + ext;
    assert name[0] == base[0];
    forall i | |base| < i < |name|
      ensures name[i] != DOT
    {
      assert name[i] == ext[i - |base| - 1];
    }
  }

  lemma Stored(base: seq<byte>, ext: seq<byte>, bl: bool)
    requires 1 <= |base| <= 8 && |ext| <= 3 && OneCase(base, bl)
    ensures Substitute(Widen(Shout(base), 8) + Widen(Shout(ext), 3))
      == Shout(base) + Spaces(8 - |base|) + Shout(ext) + Spaces(3 - |ext|)
  {
    var s := Widen(Shout(base), 8) + Widen(Shout(ext), 3);
    assert s[0] == Shout(base)[0] == Upper(base[0]);
    assert if bl then 'a' <= base[0] as char <= 'z' else 'A' <= base[0] as char <= 'Z';
    assert Widen(Shout(base), 8) == Shout(base) + Spaces(8 - |base|);
    assert Widen(Shout(ext), 3) == Shout(ext) + Spaces(3 - |ext|);
    hide Shout, Widen;
  }

  /** A volume formatted or mounted here has at most the 4084 clusters that make it FAT12, and a file is marked for
      archiving. */
  lemma Bounds(secs: seq<Sector>, n: nat)
    ensures Mount(secs).Some? ==> Mount(secs).value.clusters <= 4084
    ensures Capped(n) == if n <= 4084 then n else 4084
  {
    hide Mount;
  }

  /** Upper and lower case differ exactly on letters, pair them up, and leave the result's case settled. */
  lemma Letters(c: byte)
    ensures Upper(c) != c <==> 'a' <= c as char <= 'z'
    ensures Lower(c) != c <==> 'A' <= c as char <= 'Z'
    ensures 'a' <= c as char <= 'z' ==> 'A' <= Upper(c) as char <= 'Z' && Lower(Upper(c)) == c
    ensures 'A' <= c as char <= 'Z' ==> 'a' <= Lower(c) as char <= 'z' && Upper(Lower(c)) == c
  {
  }

  /** No stored short name starts with the mark of a deleted entry, and only that character is changed. */
  lemma NeverDeleted(s: seq<byte>)
    requires s != []
    ensures Substitute(s)[0] == (if s[0] == 0xE5 then 5 else s[0]) && Substitute(s)[1..] == s[1..]
    ensures Substitute(s)[0] != DELETED
  {
  }

  /** A long name ends with a zero and is filled up with 0xFFFF; reading one, the first 63 characters and ASCII ones
      only are kept. */
  lemma LongSpelled(name: seq<byte>, i: nat, c: u16, at: nat)
    ensures i < |name| ==> UnitOf(name, i) == name[i]
    ensures i == |name| ==> UnitOf(name, i) == 0
    ensures i > |name| ==> UnitOf(name, i) == 0xFFFF
    ensures Fits(c, at) <==> at <= 62 && c < 0x80
  {
  }

  /** Attributes and name marks by their bits: 0x0F for a long name's slot, 0x08 for a label, 0x40 on the slot that
      opens a long name. */
  lemma MarksSpelled(e: Slot)
    ensures IsLong(e) <==> e[11] % 0x10 == 0x0F
    ensures IsLabel(e) <==> e[11] % 0x10 >= 8 && e[11] % 0x10 != 0x0F
    ensures Opens(e) <==> e[0] % 0x80 >= 0x40
    ensures Vacant(e) <==> e[0] == 0 || e[0] == 0xE5
  {
  }
}

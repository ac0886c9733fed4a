/** The on-flash format of a package slot and the reader that validates it (pkgslot_open). */
module SlotFormat {
  import opened Bytes
  import opened Manifest
  import Crc32

  const HEADER := 4096
  const PAGE := 256
  const META_OFF := 256
  const META_BYTES := 512
  const MAGIC: u32 := 0x534b_5052
  const FORMAT: u32 := 1
  const NO_IDENTITY: u32 := 0xFFFF_FFFF

  // ----- the firmware's export table

  /** The ordered table of exported names and the ABI version of the running firmware. */
  datatype Api = Api(names: seq<seq<byte>>, major: u16, minor: u16)

  /** CRC over the first `count` names, in order, each with its terminating NUL. */
  function PrefixFold(names: seq<seq<byte>>): bv32 {
    if names == [] then 0
    else Crc32.Update(PrefixFold(names[..|names| - 1]), names[|names| - 1] + [0])
  }

  /** The names as they lie in memory, one after another. */
  function NameBytes(names: seq<seq<byte>>): seq<byte> {
    if names == [] then [] else names[0] + [0] + NameBytes(names[1..])
  }

  lemma {:induction false} NameBytesSnoc(names: seq<seq<byte>>, last: seq<byte>)
    ensures NameBytes(names + [last]) == NameBytes(names) + last + [0]
  {
    var all := names + [last];
    if names == [] {
      assert all[1..] == [];
      assert last + [0] + [] == [] + last + [0];
    } else {
      assert all[1..] == names[1..] + [last] && all[0] == names[0];
      NameBytesSnoc(names[1..], last);
      var rest := NameBytes(names[1..]);
      assert names[0] + [0] + (rest + last + [0]) == names[0] + [0] + rest + last + [0];
    }
  }

  /** Name by name it is the CRC of all of them, NULs included. */
  lemma {:induction false} PrefixIs(names: seq<seq<byte>>)
    ensures PrefixFold(names) == Crc32.Update(0, NameBytes(names))
  {
    hide Crc32.Fold, Crc32.Flip;
    if names == [] {
      Crc32.Nothing();
    } else {
      var init, last := names[..|names| - 1], names[|names| - 1];
      PrefixIs(init);
      assert names == init + [last];
      NameBytesSnoc(init, last);
      assert NameBytes(init) + last + [0] == NameBytes(init) + (last + [0]);
      Crc32.UpdateSplits(0, NameBytes(init), last + [0]);
    }
  }

  function PrefixCrc(api: Api, count: u32): u32 {
    var n := if count > |api.names| then |api.names| else count;
    PrefixFold(api.names[..n]) as int
  }

  /** `later` is `api` after any number of symbols were appended. */
  ghost predicate Grown(api: Api, later: Api) {
    && api.names <= later.names && |later.names| < NO_IDENTITY
    && api.major == later.major && api.minor <= later.minor
  }

  // ----- the metadata page

  datatype Meta = Meta(ext: Extents, gotEntrySize: u16, absEntrySize: u16,
                       blobOff: u32, gotOff: u32, absOff: u32, dataInitOff: u32, bodyBytes: u32,
                       symCount: u32, prefixCrc: u32)

  function MetaWords(m: Meta): (ws: seq<u32>)
    ensures |ws| == 20
  {
    var e := m.ext;
    [e.roSize, e.textSize, e.rodataOff, e.rodataSize, e.veneerOff, e.veneerSize, e.entryOff,
     e.gotBytes, e.dataOff, e.dataSize, e.ramSize, e.gotCount, e.absCount,
     m.blobOff, m.gotOff, m.absOff, m.dataInitOff, m.bodyBytes, m.symCount, m.prefixCrc]
  }

  function Words(ws: seq<u32>): (s: seq<byte>)
    ensures |s| == 4 * |ws|
  {
    LaidLength(Le32, 4, ws);
    Laid(Le32, ws)
  }

  lemma WordReadBack(ws: seq<u32>, s: seq<byte>, off: nat, k: nat)
    requires At(s, off, Words(ws))
    requires k < |ws|
    ensures Rd32(s, off + 4 * k) == ws[k]
  {
    hide Rd32, Le32;
    LaidAt(Le32, 4, ws, k);
    SubSlice(s, off, |Words(ws)|, 4 * k, 4);
    ReadBack32(ws[k], s, off + 4 * k);
  }

  const META_USED := HEADER_BYTES + 8 + 80

  function EncodeMeta(m: Meta): (s: seq<byte>)
    requires |m.ext.header| == HEADER_BYTES
    ensures |s| == META_BYTES
  {
    m.ext.header + Le16(m.ext.apiMajor) + Le16(m.ext.apiMinor) + Le16(m.gotEntrySize) + Le16(m.absEntrySize)
    + Words(MetaWords(m)) + Pad(META_BYTES - META_USED)
  }

  function MetaWord(s: seq<byte>, k: nat): u32
    requires |s| == META_BYTES && k < 20
  {
    Rd32(s, HEADER_BYTES + 8 + 4 * k)
  }

  function DecodeMeta(s: seq<byte>): Meta
    requires |s| == META_BYTES
  {
    Meta(Extents(s[..HEADER_BYTES], Rd16(s, HEADER_BYTES), Rd16(s, HEADER_BYTES + 2),
                 MetaWord(s, 0), MetaWord(s, 1), MetaWord(s, 2), MetaWord(s, 3), MetaWord(s, 4), MetaWord(s, 5),
                 MetaWord(s, 6), MetaWord(s, 7), MetaWord(s, 8), MetaWord(s, 9), MetaWord(s, 10), MetaWord(s, 11),
                   MetaWord(s, 12)),
         Rd16(s, HEADER_BYTES + 4), Rd16(s, HEADER_BYTES + 6),
         MetaWord(s, 13), MetaWord(s, 14), MetaWord(s, 15), MetaWord(s, 16), MetaWord(s, 17), MetaWord(s, 18),
           MetaWord(s, 19))
  }

  lemma MetaHalves(m: Meta)
    requires |m.ext.header| == HEADER_BYTES
    ensures var s := EncodeMeta(m);
      && s[..HEADER_BYTES] == m.ext.header
      && Rd16(s, HEADER_BYTES) == m.ext.apiMajor && Rd16(s, HEADER_BYTES + 2) == m.ext.apiMinor
      && Rd16(s, HEADER_BYTES + 4) == m.gotEntrySize && Rd16(s, HEADER_BYTES + 6) == m.absEntrySize
  {
    hide Words, MetaWords;
  }

  /** The metadata page decodes to exactly the record it was built from. */
  lemma MetaRoundTrip(m: Meta)
    requires |m.ext.header| == HEADER_BYTES
    ensures DecodeMeta(EncodeMeta(m)) == m
  {
    hide Rd32, Rd16, Le16;
    var s, ws := EncodeMeta(m), MetaWords(m);
    MetaHalves(m);
    var at := HEADER_BYTES + 8;
    assert s[at..at + 80] == Words(ws);
    assert forall k: nat :: k < 20 ==> MetaWord(s, k) == ws[k] by {
      hide Words, MetaWords, EncodeMeta;
      forall k: nat | k < 20
        ensures MetaWord(s, k) == ws[k]
      {
        WordReadBack(ws, s, at, k);
      }
    }
  }

  // ----- the commit record, alone in the first program page

  datatype Commit = Commit(magic: u32, format: u32, bodyBytes: u32, bodyCrc: u32, metaCrc: u32)

  function CommitWords(c: Commit): seq<u32> {
    [c.magic, c.format, c.bodyBytes, c.bodyCrc, c.metaCrc, 0, 0, 0]
  }

  function CommitPage(c: Commit): (s: seq<byte>)
    ensures |s| == PAGE
  {
    Words(CommitWords(c)) + Pad(PAGE - 32)
  }

  function DecodeCommit(s: seq<byte>): Commit
    requires |s| >= 20
  {
    Commit(Rd32(s, 0), Rd32(s, 4), Rd32(s, 8), Rd32(s, 12), Rd32(s, 16))
  }

  lemma CommitRoundTrip(c: Commit, s: seq<byte>)
    requires |s| >= PAGE && s[..PAGE] == CommitPage(c)
    ensures DecodeCommit(s) == c
  {
    hide Rd32, Words;
    var ws := CommitWords(c);
    assert s[0..32] == s[..PAGE][..32] == Words(ws);
    WordReadBack(ws, s, 0, 0);
    WordReadBack(ws, s, 0, 1);
    WordReadBack(ws, s, 0, 2);
    WordReadBack(ws, s, 0, 3);
    WordReadBack(ws, s, 0, 4);
  }

  // ----- opening a slot

  datatype Status = Empty | BadFormat | BadCrc | BadAbi | BadSize | BadFw

  /** A slot that opened: the extents, and where in the slot the arrays lie. */
  datatype View = View(ext: Extents, blob: nat, got: nat, abs: nat, dataInit: nat)

  datatype OpenResult = Opened(view: View) | Refused(status: Status)

  /** The extents checks pkgslot_open makes once the CRCs have passed. */
  predicate ExtentsOk(m: Meta) {
    && m.blobOff + m.ext.roSize <= m.bodyBytes
    && m.gotOff + m.ext.gotCount * GOT_ENTRY % W32 <= m.bodyBytes
    && m.absOff + m.ext.absCount * ABS_ENTRY % W32 <= m.bodyBytes
    && m.dataInitOff + m.ext.dataSize <= m.bodyBytes
    && m.gotOff % 4 == 0 && m.absOff % 4 == 0 && m.blobOff == 0
    && m.ext.entryOff < m.ext.roSize
    && m.ext.gotCount * 4 % W32 <= m.ext.gotBytes
    && m.ext.dataOff + m.ext.dataSize <= m.ext.ramSize
  }

  predicate IdentityOk(m: Meta, api: Api) {
    m.symCount == NO_IDENTITY || (m.symCount <= |api.names| && PrefixCrc(api, m.symCount) == m.prefixCrc)
  }

  function Open(slot: seq<byte>, api: Api): OpenResult {
    if |slot| <= HEADER then Refused(BadSize) else
    var c := DecodeCommit(slot);
    if c.magic != MAGIC then Refused(Empty) else
    if c.format != FORMAT then Refused(BadFormat) else
    var metaBytes := slot[META_OFF..META_OFF + META_BYTES];
    if Crc32.Of(metaBytes) != c.metaCrc then Refused(BadCrc) else
    var m := DecodeMeta(metaBytes);
    if c.bodyBytes != m.bodyBytes then Refused(BadCrc) else
    if HEADER + m.bodyBytes > |slot| then Refused(BadSize) else
    if m.gotEntrySize != GOT_ENTRY || m.absEntrySize != ABS_ENTRY then Refused(BadFormat) else
    if Crc32.Of(slot[HEADER..HEADER + m.bodyBytes]) != c.bodyCrc then Refused(BadCrc) else
    if !ExtentsOk(m) then Refused(BadSize) else
    if m.ext.apiMajor != api.major || m.ext.apiMinor > api.minor then Refused(BadAbi) else
    if !IdentityOk(m, api) then Refused(BadFw) else
    Opened(View(m.ext, HEADER + m.blobOff, HEADER + m.gotOff, HEADER + m.absOff, HEADER + m.dataInitOff))
  }

  /** A slot whose first word reads erased is empty, whatever else it holds. */
  lemma ErasedMagicIsEmpty(slot: seq<byte>, api: Api)
    requires |slot| > HEADER && forall i :: 0 <= i < 4 ==> slot[i] == ERASED
    ensures Open(slot, api) == Refused(Empty)
  {
    assert Rd32(slot, 0) == 0xFFFF_FFFF;
  }
}

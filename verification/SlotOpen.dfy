/** What it means that a slot opened, and what becomes of a committed slot when something in it, or the
    firmware, has changed. */
module SlotOpen {
  import opened Bytes
  import opened Manifest
  import opened SlotFormat
  import opened SlotImage
  import Crc32

  // ----- what an opened slot is

  function RecordOf(slot: seq<byte>): Commit
    requires |slot| > HEADER
  {
    DecodeCommit(slot)
  }

  function MetaIn(slot: seq<byte>): Meta
    requires |slot| > HEADER
  {
    DecodeMeta(slot[META_OFF..META_OFF + META_BYTES])
  }

  /** Both CRCs are those of the bytes they cover, and the recorded body is inside the slot. */
  lemma OpenedIntact(slot: seq<byte>, api: Api, v: View)
    requires Open(slot, api) == Opened(v)
    ensures |slot| > 4096 && slot[0..4] == [0x52, 0x50, 0x4b, 0x53] && RecordOf(slot).format == 1
    ensures var n := RecordOf(slot).bodyBytes;
      && n == MetaIn(slot).bodyBytes && 4096 + n <= |slot|
      && Crc32.Of(slot[4096..4096 + n]) == RecordOf(slot).bodyCrc
      && Crc32.Of(slot[256..768]) == RecordOf(slot).metaCrc
  {
    hide Crc32.Of, DecodeMeta, ExtentsOk, IdentityOk;
    Spelled(slot);
  }

  lemma Spelled(s: seq<byte>)
    requires 4 <= |s| && Rd32(s, 0) == MAGIC
    ensures s[0..4] == [0x52, 0x50, 0x4b, 0x53]
  {
  }

  /** Blob and initialisers lie inside the recorded body, the recipe arrays are four-aligned, the entry is
      inside the blob, and what the loader will build fits the RAM block. */
  lemma OpenedInside(slot: seq<byte>, api: Api, v: View)
    requires Open(slot, api) == Opened(v)
    ensures |slot| > 4096 && v.ext == MetaIn(slot).ext
    ensures var end := 4096 + RecordOf(slot).bodyBytes;
      && v.blob == 4096 && v.blob + v.ext.roSize <= end <= |slot|
      && 4096 <= v.dataInit && v.dataInit + v.ext.dataSize <= end
      && 4096 <= v.got <= end && v.got % 4 == 0 && 4096 <= v.abs <= end && v.abs % 4 == 0
      && v.ext.entryOff < v.ext.roSize && v.ext.dataOff + v.ext.dataSize <= v.ext.ramSize
  {
    hide Crc32.Of, DecodeMeta, IdentityOk, DecodeCommit;
  }

  /** An array of `count` entries of `size` bytes from `at` ends by `end`. */
  predicate Whole(at: nat, count: nat, size: nat, end: nat) {
    at + size * count <= end
  }

  /** The byte counts of the recipe arrays are 32-bit products: each array is inside the body, and the GOT
      words inside the GOT, if and only if the count is one whose product does not wrap. */
  lemma OpenedArrays(slot: seq<byte>, api: Api, v: View)
    requires Open(slot, api) == Opened(v)
    ensures |slot| > 4096
    ensures var end := 4096 + RecordOf(slot).bodyBytes;
      && (Whole(v.got, v.ext.gotCount, 8, end) <==> v.ext.gotCount < 0x2000_0000)
      && (Whole(v.abs, v.ext.absCount, 12, end) <==> v.ext.absCount <= 0x1555_5555)
      && (4 * v.ext.gotCount <= v.ext.gotBytes <==> v.ext.gotCount < 0x4000_0000)
  {
    hide Crc32.Of, DecodeMeta, IdentityOk, DecodeCommit;
    var e := v.ext;
    Wraps(GOT_ENTRY, e.gotCount);
    Wraps(ABS_ENTRY, e.absCount);
    Wraps(4, e.gotCount);
  }

  lemma Wraps(size: nat, count: u32)
    ensures size * count < W32 ==> count * size % W32 == size * count
  {
  }

  /** It was built for this ABI, and the table prefix it was built against is this firmware's, unless it
      recorded none. */
  lemma OpenedFits(slot: seq<byte>, api: Api, v: View)
    requires Open(slot, api) == Opened(v)
    ensures |slot| > HEADER
    ensures var m := MetaIn(slot);
      && m.ext.apiMajor == api.major && m.ext.apiMinor <= api.minor
      && m.gotEntrySize == GOT_ENTRY && m.absEntrySize == ABS_ENTRY
      && (m.symCount == 0xFFFF_FFFF
          || (m.symCount <= |api.names| && Crc32.Of(NameBytes(api.names[..m.symCount])) == m.prefixCrc))
  {
    hide Crc32.Of, DecodeMeta, DecodeCommit, ExtentsOk, NameBytes;
    var m := MetaIn(slot);
    if m.symCount <= |api.names| {
      CrcIs(api, m.symCount);
    }
  }

  lemma CrcIs(api: Api, n: u32)
    requires n <= |api.names|
    ensures PrefixCrc(api, n) == Crc32.Of(NameBytes(api.names[..n]))
  {
    hide Crc32.Update, NameBytes;
    PrefixIs(api.names[..n]);
  }

  // ----- the records of the recipe

  /** The metadata window: 48 bytes of identity, four half words, twenty words, and erased from there on. */
  lemma MetaSpelled(m: Meta)
    requires |m.ext.header| == 48
    ensures var s := EncodeMeta(m);
      && |s| == 512 && s[..48] == m.ext.header && Rd16(s, 48) == m.ext.apiMajor && Rd16(s, 50) == m.ext.apiMinor
      && Rd16(s, 52) == m.gotEntrySize && Rd16(s, 54) == m.absEntrySize
      && (forall k: nat :: k < 20 ==> MetaWord(s, k) == MetaWords(m)[k]) && forall i :: 136 <= i < 512 ==> s[i] == 0xFF
  {
    hide Rd16, Rd32, Le16, Words, MetaWords;
    MetaHalves(m);
    var s, ws := EncodeMeta(m), MetaWords(m);
    assert s[56..136] == Words(ws);
    forall k: nat | k < 20
      ensures MetaWord(s, k) == ws[k]
    {
      WordReadBack(ws, s, 56, k);
    }
  }

  /** An eight-byte GOT record: value, region (0 slot, 1 RAM, 2 absolute), whether code, padding. */
  lemma GotSpelled(e: GotEntry)
    ensures var s := EncGot(e);
      && |s| == 8 && Rd32(s, 0) == e.value && s[5] == (if e.isFunc then 1 else 0) && s[6] == 0 && s[7] == 0
      && s[4] == match e.cls case Slot => 0 case Ram => 1 case Abs => 2
  {
    hide Le32, Rd32;
    var s := EncGot(e);
    assert s[0..4] == Le32(e.value);
    ReadBack32(e.value, s, 0);
  }

  /** A twelve-byte pointer record: site, value, region, padding. */
  lemma AbsSpelled(e: AbsEntry)
    ensures var s := EncAbs(e);
      && |s| == 12 && Rd32(s, 0) == e.site && Rd32(s, 4) == e.value && s[9] == 0 && s[10] == 0 && s[11] == 0
      && s[8] == match e.cls case Slot => 0 case Ram => 1 case Abs => 2
  {
    hide Le32, Rd32;
    var s := EncAbs(e);
    assert s[0..4] == Le32(e.site) && s[4..8] == Le32(e.value);
    ReadBack32(e.site, s, 0);
    ReadBack32(e.value, s, 4);
  }

  /** The commit page: magic, format, length and the two CRCs, three words of zero, and erased from there on. */
  lemma CommitSpelled(c: Commit)
    ensures var s := CommitPage(c);
      && Rd32(s, 0) == c.magic && Rd32(s, 4) == c.format && Rd32(s, 8) == c.bodyBytes && Rd32(s, 12) == c.bodyCrc
      && Rd32(s, 16) == c.metaCrc && Rd32(s, 20) == 0 && Rd32(s, 24) == 0 && Rd32(s, 28) == 0
      && forall i :: 32 <= i < 256 ==> s[i] == 0xFF
  {
    hide Rd32, Words;
    var s, ws := CommitPage(c), CommitWords(c);
    assert At(s, 0, Words(ws));
    forall k: nat | k < 8
      ensures Rd32(s, 0 + 4 * k) == ws[k]
    {
      WordReadBack(ws, s, 0, k);
    }
    assert Rd32(s, 0 + 4 * 0) == ws[0] && Rd32(s, 0 + 4 * 1) == ws[1] && Rd32(s, 0 + 4 * 2) == ws[2]
      && Rd32(s, 0 + 4 * 3) == ws[3] && Rd32(s, 0 + 4 * 4) == ws[4] && Rd32(s, 0 + 4 * 5) == ws[5]
      && Rd32(s, 0 + 4 * 6) == ws[6] && Rd32(s, 0 + 4 * 7) == ws[7];
  }

  // ----- a committed slot in which one byte has changed

  /** What a byte of a committed slot is part of. */
  datatype Part = Magic | Format | Record | Metadata | Code | Unused

  function PartOf(i: nat, body: nat): Part {
    if i < 4 then Magic
    else if i < 8 then Format
    else if i < 20 then Record
    else if 256 <= i < 768 then Metadata
    else if 4096 <= i < 4096 + body then Code
    else Unused
  }

  /** Changing any one byte that means something is noticed, on every firmware; changing any other makes no
      difference. */
  lemma ChangedByte(slot: seq<byte>, blob: seq<byte>, m: PicManifest, api: Api, any: Api, i: nat, b: byte)
    requires Committed(slot, blob, m, api) && i < |slot| && b != slot[i]
    ensures Open(slot[i := b], any) == match PartOf(i, |Body(blob, m)|)
      case Magic => Refused(Empty)
      case Format => Refused(BadFormat)
      case Record => Refused(BadCrc)
      case Metadata => Refused(BadCrc)
      case Code => Refused(BadCrc)
      case Unused => Open(slot, any)
  {
    hide Body, EncodeMeta, CommitPage, MetaOf, DecodeMeta, Crc32.Of, ExtentsOk, IdentityOk, DecodeCommit;
    var body, now := Body(blob, m), slot[i := b];
    Parts(slot, blob, m, api);
    RecordChanged(slot, i, b);
    SliceChanged(slot, META_OFF, META_OFF + META_BYTES, i, b);
    SliceChanged(slot, HEADER, HEADER + |body|, i, b);
    if META_OFF <= i < META_OFF + META_BYTES {
      Crc32.OneByteShows(slot[META_OFF..META_OFF + META_BYTES], i - META_OFF, b);
    }
    if HEADER <= i < HEADER + |body| {
      Crc32.OneByteShows(slot[HEADER..HEADER + |body|], i - HEADER, b);
    }
  }

  /** A committed slot passes every check on its own integrity. */
  lemma Parts(slot: seq<byte>, blob: seq<byte>, m: PicManifest, api: Api)
    requires Committed(slot, blob, m, api)
    ensures |slot| > HEADER && HEADER + |Body(blob, m)| <= |slot|
    ensures var c, meta := DecodeCommit(slot), DecodeMeta(slot[META_OFF..META_OFF + META_BYTES]);
      && c.magic == MAGIC && c.format == FORMAT && c.bodyBytes == meta.bodyBytes == |Body(blob, m)|
      && meta.gotEntrySize == GOT_ENTRY && meta.absEntrySize == ABS_ENTRY
      && c.metaCrc == Crc32.Of(slot[META_OFF..META_OFF + META_BYTES])
      && c.bodyCrc == Crc32.Of(slot[HEADER..HEADER + |Body(blob, m)|])
  {
    hide Body, EncodeMeta, DecodeMeta, CommitPage, PrefixCrc, Crc32.Of, DecodeCommit;
    var meta := MetaOf(blob, m, api);
    MetaRoundTrip(meta);
    CommitRoundTrip(CommitOf(Body(blob, m), EncodeMeta(meta)), slot);
  }

  lemma RecordChanged(slot: seq<byte>, i: nat, b: byte)
    requires |slot| > HEADER && i < |slot| && b != slot[i]
    ensures var was, now := DecodeCommit(slot), DecodeCommit(slot[i := b]);
      && (now.magic == was.magic <==> !(i < 4)) && (now.format == was.format <==> !(4 <= i < 8))
      && (now.bodyBytes == was.bodyBytes <==> !(8 <= i < 12)) && (now.bodyCrc == was.bodyCrc <==> !(12 <= i < 16))
      && (now.metaCrc == was.metaCrc <==> !(16 <= i < 20))
  {
    hide Rd32;
    WordChanged(slot, 0, i, b);
    WordChanged(slot, 4, i, b);
    WordChanged(slot, 8, i, b);
    WordChanged(slot, 12, i, b);
    WordChanged(slot, 16, i, b);
  }

  lemma WordChanged(s: seq<byte>, at: nat, i: nat, b: byte)
    requires at + 4 <= |s| && i < |s| && b != s[i]
    ensures Rd32(s[i := b], at) == Rd32(s, at) <==> !(at <= i < at + 4)
  {
  }

  lemma SliceChanged(s: seq<byte>, lo: nat, hi: nat, i: nat, b: byte)
    requires lo <= hi <= |s| && i < |s|
    ensures s[i := b][lo..hi] == if lo <= i < hi then s[lo..hi][i - lo := b] else s[lo..hi]
  {
  }

  // ----- a committed slot on another firmware

  /** The ABI decides first, then the identity of the table's prefix; nothing else about the firmware matters. */
  lemma OtherFirmware(slot: seq<byte>, blob: seq<byte>, m: PicManifest, api: Api, any: Api)
    requires Committed(slot, blob, m, api) && Loadable(blob, m, api)
    ensures Open(slot, any) ==
      if any.major != m.ext.apiMajor || any.minor < m.ext.apiMinor then Refused(BadAbi)
      else if |any.names| < |api.names|
              || Crc32.Of(NameBytes(any.names[..|api.names|])) != Crc32.Of(NameBytes(api.names)) then Refused(BadFw)
      else Opened(ViewOf(blob, m))
  {
    hide Body, MetaOf, Crc32.Of, ExtentsOk, NameBytes, EncodeMeta, CommitPage, CommitOf;
    ExtentsHold(blob, m, api);
    Judged(slot, blob, m, api, any);
  }

  /** The same of any slot written in full whose extents pass, whatever they describe. */
  lemma Judged(slot: seq<byte>, blob: seq<byte>, m: PicManifest, api: Api, any: Api)
    requires Committed(slot, blob, m, api) && ExtentsOk(MetaOf(blob, m, api))
    ensures Open(slot, any) ==
      if any.major != m.ext.apiMajor || any.minor < m.ext.apiMinor then Refused(BadAbi)
      else if |any.names| < |api.names|
              || Crc32.Of(NameBytes(any.names[..|api.names|])) != Crc32.Of(NameBytes(api.names)) then Refused(BadFw)
      else Opened(ViewOf(blob, m))
  {
    hide Body, EncodeMeta, DecodeMeta, CommitPage, PrefixCrc, Crc32.Of, DecodeCommit, ExtentsOk, NameBytes;
    var meta := MetaOf(blob, m, api);
    MetaRoundTrip(meta);
    CommitRoundTrip(CommitOf(Body(blob, m), EncodeMeta(meta)), slot);
    CrcIs(api, |api.names|);
    assert api.names[..|api.names|] == api.names;
    if |api.names| <= |any.names| {
      CrcIs(any, |api.names|);
    }
  }

  // ----- a slot whose recipe does not fit its body

  function Zeros(n: nat): (z: seq<byte>)
    ensures |z| == n
  {
    seq(n, _ => 0)
  }

  /** Four bytes of blob, no recipe, and a count of 2^29 GOT entries. */
  function Claims(): PicManifest {
    PicManifest(Extents(Zeros(HEADER_BYTES), 0, 0, 4, 4, 0, 0, 4, 0, 0, 0x8000_0000, 0, 0, 0x8000_0000, 0x2000_0000, 0),
                [], [], [])
  }

  /** It opens, and the entries it claims run four gigabytes past the body. */
  lemma ClaimsOpen() returns (slot: seq<byte>, v: View)
    ensures Open(slot, Api([], 0, 0)) == Opened(v) && v.ext.gotCount == 0x2000_0000
    ensures |slot| < 0x2000 && !Whole(v.got, v.ext.gotCount, GOT_ENTRY, |slot|)
  {
    hide EncodeMeta, CommitPage, Crc32.Of, PrefixCrc, NameBytes, Zeros, Open;
    var m, api, blob := Claims(), Api([], 0, 0), Zeros(4);
    ClaimsBody();
    hide Body, Pad;
    var meta := EncodeMeta(MetaOf(blob, m, api));
    var hdr := CommitPage(CommitOf(Body(blob, m), meta));
    slot := hdr + meta + Pad(HEADER - PAGE - META_BYTES) + Body(blob, m);
    assert At(slot, 0, hdr) && At(slot, META_OFF, meta) && At(slot, HEADER, Body(blob, m));
    Judged(slot, blob, m, api, api);
    assert api.names[..0] == api.names;
    v := ViewOf(blob, m);
  }

  lemma ClaimsBody()
    ensures |Body(Zeros(4), Claims())| == 256 && ExtentsOk(MetaOf(Zeros(4), Claims(), Api([], 0, 0)))
    ensures ViewOf(Zeros(4), Claims()).got == HEADER + 4
  {
    hide PrefixCrc, Zeros, RoundUp;
    Rounds(4, 4, 1);
    Rounds(4, PAGE, 1);
  }
}

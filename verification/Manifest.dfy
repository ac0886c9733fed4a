/** What the producer of a flash slot hands to the loader (PicManifest), and the bytes its
    pieces occupy on flash. */
module Manifest {
  import opened Bytes

  const HEADER_BYTES := 48
  const GOT_ENTRY := 8
  const ABS_ENTRY := 12

  /** Which region a recorded pointer is measured from. */
  datatype PicClass = Slot | Ram | Abs
  {
    function Code(): byte {
      match this case Slot => 0 case Ram => 1 case Abs => 2
    }
  }

  /** Any code the firmware does not know is read as an absolute address (base zero). */
  function ClassOf(code: byte): PicClass {
    if code == 0 then Slot else if code == 1 then Ram else Abs
  }

  datatype GotEntry = GotEntry(value: u32, cls: PicClass, isFunc: bool)
  datatype AbsEntry = AbsEntry(site: u32, value: u32, cls: PicClass)

  /** The package's identity and every number app_pic_load needs besides the arrays. */
  datatype Extents = Extents(
    header: seq<byte>, apiMajor: u16, apiMinor: u16,
    roSize: u32, textSize: u32, rodataOff: u32, rodataSize: u32, veneerOff: u32, veneerSize: u32,
    entryOff: u32, gotBytes: u32, dataOff: u32, dataSize: u32, ramSize: u32,
    gotCount: u32, absCount: u32)

  datatype PicManifest = PicManifest(ext: Extents, got: seq<GotEntry>, abs: seq<AbsEntry>, dataInit: seq<byte>)
  {
    /** The counts and the header length agree with the arrays they describe, and each array is one that
        32-bit memory can hold. */
    ghost predicate Consistent() {
      && |ext.header| == HEADER_BYTES
      && |got| == ext.gotCount && |abs| == ext.absCount && |dataInit| == ext.dataSize
      && GOT_ENTRY * |got| < W32 && ABS_ENTRY * |abs| < W32
    }
  }

  // ----- records laid end to end

  /** The encodings of `xs`, laid end to end. */
  function Laid<T>(enc: T -> seq<byte>, xs: seq<T>): seq<byte> {
    if xs == [] then [] else Laid(enc, xs[..|xs| - 1]) + enc(xs[|xs| - 1])
  }

  lemma {:induction false} LaidLength<T(!new)>(enc: T -> seq<byte>, w: nat, xs: seq<T>)
    requires forall x :: |enc(x)| == w
    ensures |Laid(enc, xs)| == w * |xs|
  {
    if xs != [] {
      var n := |xs| - 1;
      LaidLength(enc, w, xs[..n]);
      calc {
        |Laid(enc, xs)|;
        w * n + w;
        w * (n + 1);
      }
    }
  }

  /** Records of one width sit at multiples of it. */
  lemma {:induction false} LaidAt<T(!new)>(enc: T -> seq<byte>, w: nat, xs: seq<T>, k: nat)
    requires forall x :: |enc(x)| == w
    requires k < |xs|
    ensures w * k + w <= |Laid(enc, xs)| == w * |xs|
    ensures Laid(enc, xs)[w * k..w * k + w] == enc(xs[k])
  {
    var n := |xs| - 1;
    LaidLength(enc, w, xs);
    LaidLength(enc, w, xs[..n]);
    if k < n {
      LaidAt(enc, w, xs[..n], k);
      assert Laid(enc, xs)[..w * n] == Laid(enc, xs[..n]);
      SubSlice(Laid(enc, xs), 0, w * n, w * k, w);
    } else {
      assert w * n + w == w * (n + 1);
    }
  }

  // ----- the two recipe arrays

  function EncGot(e: GotEntry): (s: seq<byte>)
    ensures |s| == GOT_ENTRY
  {
    Le32(e.value) + [e.cls.Code(), if e.isFunc then 1 else 0, 0, 0]
  }

  function EncAbs(e: AbsEntry): (s: seq<byte>)
    ensures |s| == ABS_ENTRY
  {
    Le32(e.site) + Le32(e.value) + [e.cls.Code(), 0, 0, 0]
  }

  function GotAt(s: seq<byte>, off: nat): GotEntry
    requires off + GOT_ENTRY <= |s|
  {
    GotEntry(Rd32(s, off), ClassOf(s[off + 4]), s[off + 5] != 0)
  }

  function AbsAt(s: seq<byte>, off: nat): AbsEntry
    requires off + ABS_ENTRY <= |s|
  {
    AbsEntry(Rd32(s, off), Rd32(s, off + 4), ClassOf(s[off + 8]))
  }

  lemma GotReadBack(e: GotEntry, s: seq<byte>, off: nat)
    requires off + GOT_ENTRY <= |s| && s[off..off + GOT_ENTRY] == EncGot(e)
    ensures GotAt(s, off) == e
  {
    hide Rd32, Le32;
    var t := s[off..off + GOT_ENTRY];
    assert s[off..off + 4] == t[..4] && s[off + 4] == t[4] && s[off + 5] == t[5];
    ReadBack32(e.value, s, off);
  }

  lemma AbsReadBack(e: AbsEntry, s: seq<byte>, off: nat)
    requires off + ABS_ENTRY <= |s| && s[off..off + ABS_ENTRY] == EncAbs(e)
    ensures AbsAt(s, off) == e
  {
    hide Rd32, Le32;
    var t := s[off..off + ABS_ENTRY];
    SubSlice(s, off, ABS_ENTRY, 0, 4);
    SubSlice(s, off, ABS_ENTRY, 4, 4);
    assert s[off + 8] == t[8];
    assert t[..4] == Le32(e.site) && t[4..8] == Le32(e.value);
    ReadBack32(e.site, s, off);
    ReadBack32(e.value, s, off + 4);
  }

  function Gots(xs: seq<GotEntry>): (s: seq<byte>)
    ensures |s| == GOT_ENTRY * |xs|
  {
    LaidLength(EncGot, GOT_ENTRY, xs);
    Laid(EncGot, xs)
  }

  function Abses(xs: seq<AbsEntry>): (s: seq<byte>)
    ensures |s| == ABS_ENTRY * |xs|
  {
    LaidLength(EncAbs, ABS_ENTRY, xs);
    Laid(EncAbs, xs)
  }

  /** Every GOT recipe entry reads back out of any buffer that holds the array at `off`. */
  lemma GotsReadBack(xs: seq<GotEntry>, s: seq<byte>, off: nat)
    requires At(s, off, Gots(xs))
    ensures forall k :: 0 <= k < |xs| ==> GotAt(s, off + GOT_ENTRY * k) == xs[k]
  {
    hide GotAt, EncGot;
    forall k | 0 <= k < |xs|
      ensures GotAt(s, off + GOT_ENTRY * k) == xs[k]
    {
      LaidAt(EncGot, GOT_ENTRY, xs, k);
      SubSlice(s, off, |Gots(xs)|, GOT_ENTRY * k, GOT_ENTRY);
      GotReadBack(xs[k], s, off + GOT_ENTRY * k);
    }
  }

  lemma AbsesReadBack(xs: seq<AbsEntry>, s: seq<byte>, off: nat)
    requires At(s, off, Abses(xs))
    ensures forall k :: 0 <= k < |xs| ==> AbsAt(s, off + ABS_ENTRY * k) == xs[k]
  {
    hide AbsAt, EncAbs;
    forall k | 0 <= k < |xs|
      ensures AbsAt(s, off + ABS_ENTRY * k) == xs[k]
    {
      LaidAt(EncAbs, ABS_ENTRY, xs, k);
      SubSlice(s, off, |Abses(xs)|, ABS_ENTRY * k, ABS_ENTRY);
      AbsReadBack(xs[k], s, off + ABS_ENTRY * k);
    }
  }
}

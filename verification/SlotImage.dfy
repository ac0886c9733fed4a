/** What a finished install leaves in a slot, and the proof that the reader gets back exactly what
    the producer put there, on this firmware and on any later one that only appended symbols. */
module SlotImage {
  import opened Bytes
  import opened Manifest
  import opened SlotFormat
  import Crc32

  /** `s`, padded with erased bytes to a multiple of `a`. */
  function Padded(s: seq<byte>, a: nat): (r: seq<byte>)
    requires 0 < a
    ensures |r| == RoundUp(|s|, a) && s <= r
  {
    s + Pad(RoundUp(|s|, a) - |s|)
  }

  // The body in the order pkgslot_commit appends it, one piece at a time.

  function WithGot(blob: seq<byte>, m: PicManifest): seq<byte> {
    Padded(blob, 4) + Gots(m.got)
  }

  function WithAbs(blob: seq<byte>, m: PicManifest): seq<byte> {
    Padded(WithGot(blob, m), 4) + Abses(m.abs)
  }

  function WithData(blob: seq<byte>, m: PicManifest): seq<byte> {
    Padded(WithAbs(blob, m), 4) + m.dataInit
  }

  function Body(blob: seq<byte>, m: PicManifest): seq<byte> {
    Padded(WithData(blob, m), PAGE)
  }

  function MetaOf(blob: seq<byte>, m: PicManifest, api: Api): Meta
    requires |Body(blob, m)| < W32 && |api.names| < NO_IDENTITY
  {
    Meta(m.ext, GOT_ENTRY, ABS_ENTRY, 0, RoundUp(|blob|, 4), RoundUp(|WithGot(blob, m)|, 4),
         RoundUp(|WithAbs(blob, m)|, 4), |Body(blob, m)|, |api.names|, PrefixCrc(api, |api.names|))
  }

  function CommitOf(body: seq<byte>, meta: seq<byte>): Commit
    requires |body| < W32
  {
    Commit(MAGIC, FORMAT, |body|, Crc32.Of(body), Crc32.Of(meta))
  }

  /** The slot holds the three parts of a completed install. */
  ghost predicate Committed(slot: seq<byte>, blob: seq<byte>, m: PicManifest, api: Api) {
    var body := Body(blob, m);
    && |m.ext.header| == HEADER_BYTES && |api.names| < NO_IDENTITY
    && HEADER < |slot| < W32 && HEADER + |body| <= |slot|
    && At(slot, HEADER, body)
    && At(slot, META_OFF, EncodeMeta(MetaOf(blob, m, api)))
    && At(slot, 0, CommitPage(CommitOf(body, EncodeMeta(MetaOf(blob, m, api)))))
  }

  /** What pkgslot_open demands of the package itself. */
  ghost predicate Loadable(blob: seq<byte>, m: PicManifest, api: Api) {
    && m.Consistent() && |blob| == m.ext.roSize
    && m.ext.entryOff < m.ext.roSize && 4 * m.ext.gotCount <= m.ext.gotBytes
    && m.ext.dataOff + m.ext.dataSize <= m.ext.ramSize
    && m.ext.apiMajor == api.major && m.ext.apiMinor <= api.minor
  }

  function ViewOf(blob: seq<byte>, m: PicManifest): View {
    View(m.ext, HEADER, HEADER + RoundUp(|blob|, 4), HEADER + RoundUp(|WithGot(blob, m)|, 4),
         HEADER + RoundUp(|WithAbs(blob, m)|, 4))
  }

  /** The pieces of the body sit at the offsets the metadata records. */
  lemma BodyPieces(blob: seq<byte>, m: PicManifest)
    ensures var b := Body(blob, m); var v := ViewOf(blob, m);
      && At(b, 0, blob) && At(b, v.got - HEADER, Gots(m.got))
      && At(b, v.abs - HEADER, Abses(m.abs)) && At(b, v.dataInit - HEADER, m.dataInit)
  {
    hide Gots, Abses, RoundUp, At, Pad;
    var b, g, a, d := Body(blob, m), WithGot(blob, m), WithAbs(blob, m), WithData(blob, m);
    Piece(blob, 4, Gots(m.got));
    Piece(g, 4, Abses(m.abs));
    Piece(a, 4, m.dataInit);
    AtParts(d, Pad(RoundUp(|d|, PAGE) - |d|));
    AtTrans(b, 0, d, 0, a);
    AtTrans(b, 0, d, RoundUp(|a|, 4), m.dataInit);
    AtTrans(b, 0, a, 0, g);
    AtTrans(b, 0, a, RoundUp(|g|, 4), Abses(m.abs));
    AtTrans(b, 0, g, 0, blob);
    AtTrans(b, 0, g, RoundUp(|blob|, 4), Gots(m.got));
  }

  lemma Piece(s: seq<byte>, a: nat, p: seq<byte>)
    requires 0 < a
    ensures At(Padded(s, a) + p, 0, s) && At(Padded(s, a) + p, RoundUp(|s|, a), p)
  {
    hide At, RoundUp;
    AtParts(Padded(s, a), p);
    AtParts(s, Pad(RoundUp(|s|, a) - |s|));
    AtTrans(Padded(s, a) + p, 0, Padded(s, a), 0, s);
  }

  /** A symbol table that only grew keeps the identity of its old prefix. */
  lemma PrefixSurvives(api: Api, later: Api)
    requires Grown(api, later)
    ensures PrefixCrc(later, |api.names|) == PrefixCrc(api, |api.names|)
  {
    hide PrefixFold;
    assert later.names[..|api.names|] == api.names == api.names[..|api.names|];
  }

  lemma ExtentsHold(blob: seq<byte>, m: PicManifest, api: Api)
    requires Loadable(blob, m, api) && |Body(blob, m)| < W32 && |api.names| < NO_IDENTITY
    ensures ExtentsOk(MetaOf(blob, m, api))
  {
    BodyPieces(blob, m);
    hide Gots, Abses, Body, WithGot, WithAbs, PrefixCrc, RoundUp;
  }

  /** An install that finished opens, on the firmware that wrote it and on every later firmware
      whose table only grew. */
  lemma CommittedOpens(slot: seq<byte>, blob: seq<byte>, m: PicManifest, api: Api, later: Api)
    requires Committed(slot, blob, m, api) && Loadable(blob, m, api) && Grown(api, later)
    ensures Open(slot, later) == Opened(ViewOf(blob, m))
  {
    hide Body, EncodeMeta, DecodeMeta, CommitPage, PrefixCrc, Crc32.Of, DecodeCommit, ExtentsOk;
    var meta := MetaOf(blob, m, api);
    MetaRoundTrip(meta);
    CommitRoundTrip(CommitOf(Body(blob, m), EncodeMeta(meta)), slot);
    ExtentsHold(blob, m, api);
    PrefixSurvives(api, later);
  }

  /** What the opened slot shows is what the producer wrote: blob, both recipes, initialisers. */
  lemma CommittedContents(slot: seq<byte>, blob: seq<byte>, m: PicManifest, api: Api)
    requires Committed(slot, blob, m, api)
    ensures var v := ViewOf(blob, m);
      && At(slot, v.blob, blob) && At(slot, v.got, Gots(m.got))
      && At(slot, v.abs, Abses(m.abs)) && At(slot, v.dataInit, m.dataInit)
    ensures forall k :: 0 <= k < |m.got| ==> GotAt(slot, ViewOf(blob, m).got + GOT_ENTRY * k) == m.got[k]
    ensures forall k :: 0 <= k < |m.abs| ==> AbsAt(slot, ViewOf(blob, m).abs + ABS_ENTRY * k) == m.abs[k]
  {
    hide Gots, Abses, Body, GotAt, AbsAt, EncodeMeta, CommitPage, ViewOf, MetaOf;
    CommittedPieces(slot, blob, m);
    GotsReadBack(m.got, slot, ViewOf(blob, m).got);
    AbsesReadBack(m.abs, slot, ViewOf(blob, m).abs);
  }

  lemma CommittedPieces(slot: seq<byte>, blob: seq<byte>, m: PicManifest)
    requires At(slot, HEADER, Body(blob, m))
    ensures var v := ViewOf(blob, m);
      && At(slot, v.blob, blob) && At(slot, v.got, Gots(m.got))
      && At(slot, v.abs, Abses(m.abs)) && At(slot, v.dataInit, m.dataInit)
  {
    hide At, Body, Gots, Abses, RoundUp, WithGot, WithAbs;
    var b, v := Body(blob, m), ViewOf(blob, m);
    BodyPieces(blob, m);
    AtTrans(slot, HEADER, b, 0, blob);
    AtTrans(slot, HEADER, b, v.got - HEADER, Gots(m.got));
    AtTrans(slot, HEADER, b, v.abs - HEADER, Abses(m.abs));
    AtTrans(slot, HEADER, b, v.dataInit - HEADER, m.dataInit);
  }
}

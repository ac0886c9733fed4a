/** Safety of a whole install: what a power cut at any point leaves behind, and what a finished
    install can be opened as. */
module SlotProtocol {
  import opened Bytes
  import opened Flash
  import opened Manifest
  import opened SlotFormat
  import opened SlotImage
  import opened SlotWriter

  /** The chip after power is lost during a run of operations: the first `k` completed, and the
      next one, if `torn`, stopped somewhere inside its own range. */
  ghost predicate CutAt(before: seq<byte>, ops: seq<Op>, k: nat, torn: bool, m: seq<byte>)
    requires AllWithin(ops, 0, |before|) && k <= |ops|
  {
    if torn then k < |ops| && Torn(Run(before, ops[..k]), ops[k], m) else m == Run(before, ops[..k])
  }

  lemma {:induction false} CommitPageStaysErased(before: seq<byte>, ops: seq<Op>, slotOff: nat, slotBytes: nat, k: nat)
    requires AllWithin(ops, 0, |before|) && InstallLog(ops, slotOff, slotBytes) && 1 <= k <= |ops|
    requires slotOff + HEADER <= |before|
    ensures forall i :: slotOff <= i < slotOff + PAGE ==> Run(before, ops[..k])[i] == ERASED
    decreases k
  {
    assert ops[..k][..k - 1] == ops[..k - 1];
    if k > 1 {
      CommitPageStaysErased(before, ops, slotOff, slotBytes, k - 1);
      ApplyIsTorn(Run(before, ops[..k - 1]), ops[k - 1]);
    }
  }

  /** From the header erase until the commit record, a cut after any operation or inside any
      operation leaves a slot that opens as empty, whatever the chip held before. */
  lemma CutIsEmpty(before: seq<byte>, ops: seq<Op>, slotOff: nat, slotBytes: nat,
                   k: nat, torn: bool, m: seq<byte>, api: Api)
    requires HEADER < slotBytes && slotOff + slotBytes <= |before|
    requires AllWithin(ops, 0, |before|) && InstallLog(ops, slotOff, slotBytes)
    requires 1 <= k <= |ops| && CutAt(before, ops, k, torn, m)
    ensures Open(m[slotOff..slotOff + slotBytes], api) == Refused(Empty)
  {
    CommitPageStaysErased(before, ops, slotOff, slotBytes, k);
    ErasedMagicIsEmpty(m[slotOff..slotOff + slotBytes], api);
  }

  /** The same over the whole log of a finished install: every cut before the last program. */
  lemma CutBeforeCommitIsEmpty(before: seq<byte>, ops: seq<Op>, slotOff: nat, slotBytes: nat,
                               k: nat, torn: bool, m: seq<byte>, api: Api)
    requires HEADER < slotBytes && slotOff + slotBytes <= |before|
    requires AllWithin(ops, 0, |before|) && CompleteLog(ops, slotOff, slotBytes)
    requires 1 <= k < |ops| && (torn ==> k < |ops| - 1) && CutAt(before, ops, k, torn, m)
    ensures Open(m[slotOff..slotOff + slotBytes], api) == Refused(Empty)
  {
    var init := ops[..|ops| - 1];
    assert init[..k] == ops[..k];
    CutIsEmpty(before, init, slotOff, slotBytes, k, torn, m, api);
  }

  // ----- a whole attempt, finished or not

  /** What an attempt to install can have done: nothing; or an install log, perhaps with the commit record as
      its last operation. At most one operation failed, and nothing was tried after it: so if any other
      operation failed the commit record was never written. */
  ghost predicate Attempt(before: seq<byte>, ops: seq<Op>, failed: bool, m: seq<byte>, slotOff: nat, slotBytes: nat) {
    || (ops == [] && !failed && m == before)
    || ((InstallLog(ops, slotOff, slotBytes) || CompleteLog(ops, slotOff, slotBytes)) && Left(before, ops, failed, m))
  }

  /** Power lost after or inside any operation of the attempt past the header erase, the commit program
      excepted, leaves a slot that opens as empty. */
  ghost predicate CutsEmpty(before: seq<byte>, ops: seq<Op>, slotOff: nat, slotBytes: nat)
    requires slotOff + slotBytes <= |before|
  {
    && AllWithin(ops, 0, |before|)
    && (forall k: nat, torn, m :: CutBefore(before, ops, k, torn, m, slotOff, slotBytes) ==>
      OpensEmpty(m[slotOff..slotOff + slotBytes]))
  }

  /** Power was lost past the header erase and before the commit program. */
  ghost predicate CutBefore(before: seq<byte>, ops: seq<Op>, k: nat, torn: bool, m: seq<byte>, slotOff: nat,
    slotBytes: nat) {
    && AllWithin(ops, 0, |before|) && 1 <= k <= |ops| && CutAt(before, ops, k, torn, m) && |m| == |before|
    && (CompleteLog(ops, slotOff, slotBytes) ==> k < |ops| && (torn ==> k < |ops| - 1))
  }

  /** On any firmware the slot opens as empty. */
  ghost predicate OpensEmpty(slot: seq<byte>) {
    forall api :: Open(slot, api) == Refused(Empty)
  }

  lemma AttemptCuts(before: seq<byte>, ops: seq<Op>, failed: bool, m: seq<byte>, slotOff: nat, slotBytes: nat)
    requires Attempt(before, ops, failed, m, slotOff, slotBytes) && slotOff + slotBytes <= |before|
    requires ops != [] ==> HEADER < slotBytes
    ensures CutsEmpty(before, ops, slotOff, slotBytes)
  {
    hide Open, InstallLog, Left;
    if ops != [] {
      AttemptWithin(before, ops, failed, m, slotOff, slotBytes);
    }
    forall k: nat, torn, c | CutBefore(before, ops, k, torn, c, slotOff, slotBytes)
      ensures OpensEmpty(c[slotOff..slotOff + slotBytes])
    {
      CutOpensEmpty(before, ops, k, torn, c, slotOff, slotBytes);
    }
  }

  lemma CutOpensEmpty(before: seq<byte>, ops: seq<Op>, k: nat, torn: bool, m: seq<byte>, slotOff: nat, slotBytes: nat)
    requires InstallLog(ops, slotOff, slotBytes) || CompleteLog(ops, slotOff, slotBytes)
    requires HEADER < slotBytes && slotOff + slotBytes <= |before|
      && CutBefore(before, ops, k, torn, m, slotOff, slotBytes)
    ensures OpensEmpty(m[slotOff..slotOff + slotBytes])
  {
    hide Open;
    var slot := m[slotOff..slotOff + slotBytes];
    forall api
      ensures Open(slot, api) == Refused(Empty)
    {
      if CompleteLog(ops, slotOff, slotBytes) {
        CutBeforeCommitIsEmpty(before, ops, slotOff, slotBytes, k, torn, m, api);
      } else {
        CutIsEmpty(before, ops, slotOff, slotBytes, k, torn, m, api);
      }
    }
  }

  lemma AttemptWithin(before: seq<byte>, ops: seq<Op>, failed: bool, m: seq<byte>, slotOff: nat, slotBytes: nat)
    requires Attempt(before, ops, failed, m, slotOff, slotBytes) && ops != []
    ensures AllWithin(ops, 0, |before|) && Left(before, ops, failed, m)
  {
  }

  /** An attempt that erased the header and never tried the commit record leaves an empty slot. */
  lemma GaveUpEmpty(before: seq<byte>, ops: seq<Op>, failed: bool, m: seq<byte>, slotOff: nat, slotBytes: nat)
    requires HEADER < slotBytes && slotOff + slotBytes <= |before|
    requires InstallLog(ops, slotOff, slotBytes) && Left(before, ops, failed, m) && (failed ==> |ops| > 1)
    ensures OpensEmpty(m[slotOff..slotOff + slotBytes])
  {
    hide InstallLog, OpensEmpty;
    NotNone(ops, slotOff, slotBytes);
    assert ops[..|ops|] == ops;
    CutOpensEmpty(before, ops, if failed then |ops| - 1 else |ops|, failed, m, slotOff, slotBytes);
  }

  lemma NotNone(ops: seq<Op>, slotOff: nat, slotBytes: nat)
    requires InstallLog(ops, slotOff, slotBytes)
    ensures |ops| >= 1 && !CompleteLog(ops, slotOff, slotBytes)
  {
    if |ops| > 1 {
      assert ops[|ops| - 1].Within(slotOff + PAGE, slotOff + slotBytes);
    }
  }

  function Joined(chunks: seq<seq<byte>>): seq<byte> {
    if chunks == [] then [] else Joined(chunks[..|chunks| - 1]) + chunks[|chunks| - 1]
  }

  lemma {:induction false} JoinedPrefix(chunks: seq<seq<byte>>, i: nat)
    requires i <= |chunks|
    ensures Joined(chunks[..i]) <= Joined(chunks)
    decreases |chunks| - i
  {
    if i == |chunks| {
      assert chunks[..i] == chunks;
    } else {
      JoinedPrefix(chunks, i + 1);
      assert chunks[..i + 1][..i] == chunks[..i];
    }
  }

  lemma BlobFitsBody(blob: seq<byte>, m: PicManifest)
    ensures |blob| <= |Body(blob, m)|
  {
    hide RoundUp, Gots, Abses;
  }

  /** The producer's calls to the sink, for any way of cutting the blob up. */
  method SendBlob(w: Writer, chunks: seq<seq<byte>>) returns (ok: bool)
    requires w.Streaming() && !w.failed && w.pageFill < PAGE && w.body == [] && |Joined(chunks)| < W32
    modifies w`cursor, w`erasedTo, w`crc, w`pageBase, w`pageFill, w`body, w`failed, w.fl, w.page
    ensures w.Shape() && w.failed == !ok
    ensures ok ==> w.Streaming() && w.pageFill < PAGE && w.body == Joined(chunks)
    ensures !ok ==> w.fl.faults != w.faults0 || HEADER + |Joined(chunks)| > w.slotBytes
  {
    hide Writer.Programmed, Writer.Shape;
    ok := true;
    for i := 0 to |chunks|
      invariant w.Streaming() && !w.failed && w.pageFill < PAGE && w.body == Joined(chunks[..i])
    {
      JoinedPrefix(chunks, i + 1);
      assert chunks[..i + 1][..i] == chunks[..i];
      ok := w.Sink(w.cursor, chunks[i]);
      if !ok {
        return;
      }
    }
    assert chunks[..|chunks|] == chunks;
    ok := true;
  }

  lemma OpensLater(slot: seq<byte>, blob: seq<byte>, m: PicManifest, api: Api)
    requires Committed(slot, blob, m, api)
    ensures Loadable(blob, m, api) ==>
      forall later :: Grown(api, later) ==> Open(slot, later) == Opened(ViewOf(blob, m))
  {
    hide Committed, Loadable, Open;
    forall later | Loadable(blob, m, api) && Grown(api, later)
      ensures Open(slot, later) == Opened(ViewOf(blob, m))
    {
      CommittedOpens(slot, blob, m, api, later);
    }
  }

  /** A whole install, the blob arriving in any chunks. It succeeds exactly when the slot is one the
      writer takes, the sizes agree, there is room, and the chip does not fail; then the slot opens
      with what was written, on this firmware and on any that only appended symbols. When it does not
      succeed, at most its last operation failed; if that was not the commit program the slot opens as
      empty, and so it does after a power cut anywhere before that program. */
  method Install(fl: Chip, slotOff: nat, slotBytes: nat, chunks: seq<seq<byte>>, m: PicManifest, api: Api)
    returns (ok: bool)
    requires fl.Valid() && |fl.mem| < CHIP_MAX && slotOff + slotBytes <= |fl.mem|
    requires m.Consistent() && |api.names| < NO_IDENTITY && |Joined(chunks)| < W32
    modifies fl
    ensures |fl.mem| == |old(fl.mem)| && old(fl.log) <= fl.log
    ensures ok <==>
      && HEADER < slotBytes && slotOff % ERASE == 0 && slotBytes % ERASE == 0
      && |Joined(chunks)| == m.ext.roSize && HEADER + |Body(Joined(chunks), m)| <= slotBytes
      && fl.faults == old(fl.faults)
    ensures ok ==> Committed(fl.mem[slotOff..slotOff + slotBytes], Joined(chunks), m, api)
    ensures ok && Loadable(Joined(chunks), m, api) ==>
      forall later :: Grown(api, later) ==>
        Open(fl.mem[slotOff..slotOff + slotBytes], later) == Opened(ViewOf(Joined(chunks), m))
    ensures ok ==> CompleteLog(fl.log[|old(fl.log)|..], slotOff, slotBytes)
    ensures Attempt(old(fl.mem), fl.log[|old(fl.log)|..], fl.faults != old(fl.faults), fl.mem, slotOff, slotBytes)
    ensures CutsEmpty(old(fl.mem), fl.log[|old(fl.log)|..], slotOff, slotBytes)
    ensures var ops := fl.log[|old(fl.log)|..];
      ops != [] && !CompleteLog(ops, slotOff, slotBytes) && (|ops| > 1 || fl.faults == old(fl.faults))
      ==> OpensEmpty(fl.mem[slotOff..slotOff + slotBytes])
    ensures forall i :: 0 <= i < |fl.mem| && !(slotOff <= i < slotOff + slotBytes) ==> fl.mem[i] == old(fl.mem[i])
  {
    hide Committed, Loadable, Body, Attempt, CutsEmpty, OpensEmpty, Open, CompleteLog, InstallLog;
    ghost var before, log0, faults0 := fl.mem, fl.log, fl.faults;
    ok := Attempted(fl, slotOff, slotBytes, chunks, m, api);
    ghost var ops := fl.log[|log0|..];
    AttemptCuts(before, ops, fl.faults != faults0, fl.mem, slotOff, slotBytes);
    if ops != [] && !CompleteLog(ops, slotOff, slotBytes) && (|ops| > 1 || fl.faults == faults0) {
      AttemptIs(before, ops, fl.faults != faults0, fl.mem, slotOff, slotBytes);
      GaveUpEmpty(before, ops, fl.faults != faults0, fl.mem, slotOff, slotBytes);
    }
  }

  lemma AttemptIs(before: seq<byte>, ops: seq<Op>, failed: bool, m: seq<byte>, slotOff: nat, slotBytes: nat)
    requires Attempt(before, ops, failed, m, slotOff, slotBytes) && ops != [] && !CompleteLog(ops, slotOff, slotBytes)
    ensures InstallLog(ops, slotOff, slotBytes) && Left(before, ops, failed, m)
  {
  }

  /** The calls of an install, and the log they leave. */
  method Attempted(fl: Chip, slotOff: nat, slotBytes: nat, chunks: seq<seq<byte>>, m: PicManifest, api: Api)
    returns (ok: bool)
    requires fl.Valid() && |fl.mem| < CHIP_MAX && slotOff + slotBytes <= |fl.mem|
    requires m.Consistent() && |api.names| < NO_IDENTITY && |Joined(chunks)| < W32
    modifies fl
    ensures |fl.mem| == |old(fl.mem)| && old(fl.log) <= fl.log
    ensures ok <==>
      && HEADER < slotBytes && slotOff % ERASE == 0 && slotBytes % ERASE == 0
      && |Joined(chunks)| == m.ext.roSize && HEADER + |Body(Joined(chunks), m)| <= slotBytes
      && fl.faults == old(fl.faults)
    ensures ok ==> Committed(fl.mem[slotOff..slotOff + slotBytes], Joined(chunks), m, api)
    ensures ok && Loadable(Joined(chunks), m, api) ==>
      forall later :: Grown(api, later) ==>
        Open(fl.mem[slotOff..slotOff + slotBytes], later) == Opened(ViewOf(Joined(chunks), m))
    ensures ok ==> CompleteLog(fl.log[|old(fl.log)|..], slotOff, slotBytes)
    ensures fl.log != old(fl.log) ==> HEADER < slotBytes
    ensures Attempt(old(fl.mem), fl.log[|old(fl.log)|..], fl.faults != old(fl.faults), fl.mem, slotOff, slotBytes)
    ensures forall i :: 0 <= i < |fl.mem| && !(slotOff <= i < slotOff + slotBytes) ==> fl.mem[i] == old(fl.mem[i])
  {
    hide Committed, Loadable, Body, InstallLog, CompleteLog, Writer.Programmed, Open, Left;
    ghost var blob := Joined(chunks);
    BlobFitsBody(blob, m);
    var w := Begin(fl, slotOff, slotBytes);
    if w == null {
      OnlyErase(slotOff, slotBytes);
      return false;
    }
    ok := SendBlob(w, chunks);
    if ok {
      ok := w.Commit(m, api);
      if ok {
        assert w.Slot() == fl.mem[slotOff..slotOff + slotBytes];
        OpensLater(fl.mem[slotOff..slotOff + slotBytes], blob, m, api);
      }
    }
  }

  lemma OnlyErase(slotOff: nat, slotBytes: nat)
    ensures InstallLog([Op.Erase(slotOff, HEADER)], slotOff, slotBytes)
  {
  }
}

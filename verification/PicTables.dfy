/** The three tables app_pic_install fills while it works (veneer pool, GOT recipe, memo), and the
    proof that the room reserved for them before the object was relocated is always enough. */
module PicTables {
  import opened Bytes
  import opened Elf
  import opened Manifest
  import opened Sets
  import opened PicLayout

  const MEMO := 256

  datatype Memo = NoMemo | Memo(idx: nat, ref: Ref)

  /** `pool` holds distinct exports, each wanted by a different symbol that some relocation names. */
  ghost predicate PoolOk(o: Object, names: seq<seq<byte>>, pool: seq<nat>, syms: seq<nat>) {
    && |syms| == |pool| && Distinct(pool)
    && forall k :: 0 <= k < |pool| ==>
      syms[k] in RelocSyms(o.sections, |o.sections|) && TargetOf(o, names, syms[k]) == Good(Firmware(pool[k]))
  }

  /** `got` holds distinct references, each that of a different symbol a loaded GOT_BREL names. */
  ghost predicate GotOk(o: Object, names: seq<seq<byte>>, pool: seq<nat>, got: seq<GotEntry>, syms: seq<nat>) {
    && |syms| == |got| && Distinct(got)
    && forall k :: 0 <= k < |got| ==> syms[k] in GotSyms(o, true) && Resolves(o, names, pool, syms[k], AsRef(got[k]))
  }

  function AsRef(e: GotEntry): Ref {
    Ref(e.cls, e.value, e.isFunc)
  }

  function AsEntry(r: Ref): GotEntry {
    GotEntry(r.value, r.cls, r.isFunc)
  }

  /** The veneer pool never fills: its entries are distinct exports and come from distinct symbols. */
  lemma PoolFits(o: Object, names: seq<seq<byte>>, pool: seq<nat>, syms: seq<nat>)
    requires PoolOk(o, names, pool, syms)
    ensures |pool| < VeneerCap(o, names)
  {
    var n := |o.sections|;
    DistinctFit(syms, RelocSyms(o.sections, n));
    RelocSymsSize(o.sections, n);
    DistinctFit(pool, Below(|names|));
  }

  /** The GOT recipe never overflows what was reserved, nor what app_pic_measure counted. */
  lemma GotFits(o: Object, names: seq<seq<byte>>, pool: seq<nat>, got: seq<GotEntry>, syms: seq<nat>)
    requires GotOk(o, names, pool, got, syms)
    ensures |got| <= |GotSyms(o, true)| <= |GotSyms(o, false)|
  {
    forall i, j | 0 <= i < j < |syms|
      ensures syms[i] != syms[j]
    {
      assert AsEntry(AsRef(got[i])) == got[i] && AsEntry(AsRef(got[j])) == got[j];
    }
    DistinctFit(syms, GotSyms(o, true));
    SubsetSize(GotSyms(o, true), GotSyms(o, false));
  }

  /** One more reference still fits. */
  lemma GotHasRoom(o: Object, names: seq<seq<byte>>, pool: seq<nat>, got: seq<GotEntry>, syms: seq<nat>, sym: nat,
    r: Ref)
    requires GotOk(o, names, pool, got, syms) && sym in GotSyms(o, true) && Resolves(o, names, pool, sym, r)
    requires AsEntry(r) !in got
    ensures GotOk(o, names, pool, got + [AsEntry(r)], syms + [sym]) && |got| < |GotSyms(o, true)| <= |GotSyms(o, false)|
  {
    assert AsRef(AsEntry(r)) == r;
    GotFits(o, names, pool, got + [AsEntry(r)], syms + [sym]);
  }

  class Tables {
    const o: Object
    const names: seq<seq<byte>>
    const veneerCap: nat
    const gotCap: nat
    var pool: seq<nat>
    var got: seq<GotEntry>
    var memo: seq<Memo>
    ghost var poolSyms: seq<nat>
    ghost var gotSyms: seq<nat>

    ghost predicate Valid()
      reads this
    {
      && veneerCap == VeneerCap(o, names) && gotCap == |GotSyms(o, false)|
      && PoolOk(o, names, pool, poolSyms) && GotOk(o, names, pool, got, gotSyms)
      && |memo| == MEMO
      && forall k :: 0 <= k < MEMO && memo[k].Memo? ==> Resolves(o, names, pool, memo[k].idx, memo[k].ref)
    }

    constructor (o: Object, names: seq<seq<byte>>)
      ensures Valid() && this.o == o && this.names == names && pool == [] && got == []
    {
      this.o, this.names := o, names;
      veneerCap, gotCap := VeneerCap(o, names), |GotSyms(o, false)|;
      pool, got, memo := [], [], seq(MEMO, _ => NoMemo);
      poolSyms, gotSyms := [], [];
    }

    /** Find or add the veneer for export `ix` (pic_veneer). */
    method Veneer(ix: nat, ghost sym: nat) returns (r: Outcome<nat>)
      requires Valid() && sym in RelocSyms(o.sections, |o.sections|) && TargetOf(o, names, sym) == Good(Firmware(ix))
      modifies this`pool, this`poolSyms
      ensures Valid() && old(pool) <= pool && r.Good?
      ensures ix in pool && r.value == VENEER * PosOf(pool, ix)
    {
      for k := 0 to |pool|
        invariant ix !in pool[..k]
      {
        if pool[k] == ix {
          PosInDistinct(pool, k);
          return Good(VENEER * k);
        }
        assert pool[..k + 1] == pool[..k] + [pool[k]];
      }
      assert pool[..|pool|] == pool;
      PoolFits(o, names, pool, poolSyms);
      r := Bad(ErrTable);
      if |pool| < veneerCap {
        ghost var was := pool;
        pool := pool + [ix];
        poolSyms := poolSyms + [sym];
        Keep(was);
        PosInDistinct(pool, |was|);
        r := Good(VENEER * (|pool| - 1));
      }
    }

    /** Growing the pool keeps every reference already recorded. */
    lemma Keep(was: seq<nat>)
      requires was <= pool && GotOk(o, names, was, got, gotSyms) && |memo| == MEMO
      requires forall k :: 0 <= k < MEMO && memo[k].Memo? ==> Resolves(o, names, was, memo[k].idx, memo[k].ref)
      ensures GotOk(o, names, pool, got, gotSyms)
      ensures forall k :: 0 <= k < MEMO && memo[k].Memo? ==> Resolves(o, names, pool, memo[k].idx, memo[k].ref)
    {
      hide Resolves;
      forall k | 0 <= k < |got|
        ensures Resolves(o, names, pool, gotSyms[k], AsRef(got[k]))
      {
        ResolvesStable(o, names, was, pool, gotSyms[k], AsRef(got[k]));
      }
      forall k | 0 <= k < MEMO && memo[k].Memo?
        ensures Resolves(o, names, pool, memo[k].idx, memo[k].ref)
      {
        ResolvesStable(o, names, was, pool, memo[k].idx, memo[k].ref);
      }
    }

    /** Find or add the GOT slot for a resolved symbol; the answer is its byte offset. */
    method GotSlot(ref: Ref, ghost sym: nat) returns (r: Outcome<nat>)
      requires Valid() && sym in GotSyms(o, true) && Resolves(o, names, pool, sym, ref)
      modifies this`got, this`gotSyms
      ensures Valid() && old(got) <= got && r.Good?
      ensures AsEntry(ref) in got && r.value == 4 * PosOf(got, AsEntry(ref))
    {
      hide Resolves;
      for k := 0 to |got|
        invariant AsEntry(ref) !in got[..k]
      {
        if got[k] == AsEntry(ref) {
          PosInDistinct(got, k);
          return Good(4 * k);
        }
        assert got[..k + 1] == got[..k] + [got[k]];
      }
      assert got[..|got|] == got;
      GotHasRoom(o, names, pool, got, gotSyms, sym, ref);
      r := Bad(ErrTable);
      if |got| < gotCap {
        var n := |got|;
        got := got + [AsEntry(ref)];
        gotSyms := gotSyms + [sym];
        PosInDistinct(got, n);
        r := Good(4 * n);
      }
    }

    /** Resolve a symbol, through the direct-mapped memo. */
    method Resolve(idx: nat) returns (r: Outcome<Ref>)
      requires Valid() && idx in RelocSyms(o.sections, |o.sections|)
      modifies this`pool, this`poolSyms, this`memo
      ensures Valid() && old(pool) <= pool
      ensures r.Good? <==> TargetOf(o, names, idx).Good?
      ensures r.Good? ==> Resolves(o, names, pool, idx, r.value)
      ensures r.Bad? ==> r.error == TargetOf(o, names, idx).error
    {
      hide VeneerOff, RamOff, BlobOff, PoolOk, GotOk, RelocSyms, TargetOf, GotSyms, VeneerCap;
      var slot := memo[idx % MEMO];
      if slot.Memo? && slot.idx == idx {
        return Good(slot.ref);
      }
      var t := TargetOf(o, names, idx);
      if t.Bad? {
        return Bad(t.error);
      }
      TargetInRange(o, names, idx);
      if t.value.Firmware? {
        var v := Veneer(t.value.index, idx);
        r := if v.Good? then Good(Ref(Slot, (VeneerOff(o) + v.value + 1) % W32, true)) else Bad(ErrTable);
      } else {
        r := Good(RefOf(o, pool, t.value, IsFunc(o, idx)));
      }
      if r.Good? {
        memo := memo[idx % MEMO := Memo(idx, r.value)];
      }
    }
  }
}

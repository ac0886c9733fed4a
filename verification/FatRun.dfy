/** Any sequence of writes and removals, failed ones included: no cluster is lost or shared. */
module FatRun {
  import opened Bytes
  import opened Sectors
  import opened FatChains
  import opened FatNames
  import opened FatDir
  import opened FatVolume
  import opened FatState
  import opened Fat12
  import opened FatFormat

  datatype Op = Put(name: seq<byte>, size: u32, mtime: u32, source: seq<byte>) | Drop(name: seq<byte>)

  ghost predicate Nameable(op: Op) {
    op.Put? ==> IsName(op.name) && |op.name| <= MAX_LONG * CHARS
  }

  /** Clusters that are free or in a listed file's chain. */
  ghost function Accounted(v: Volume): nat
    requires v.Valid()
    reads v
  {
    |FreeSet(TableOf(v.g, v.secs))| + TotalLength(v.chains, v.g.rootEntries)
  }

  lemma Account(v: Volume)
    requires v.Valid()
    ensures Accounted(v) + |Others(TableOf(v.g, v.secs), v.chains)| == v.g.clusters
  {
    hide DirOf, TableOf, Sound, Others, TotalLength, FreeSet, Tidy;
    Conservation(TableOf(v.g, v.secs), v.chains, v.g.rootEntries);
  }

  /** Whatever is done, the volume stays sound and free clusters plus file lengths stay what they were. */
  method Run(v: Volume, ops: seq<Op>)
    requires v.Valid() && forall i :: 0 <= i < |ops| ==> Nameable(ops[i])
    modifies v
    ensures v.Valid() && Accounted(v) == old(Accounted(v))
    ensures Others(TableOf(v.g, v.secs), v.chains) == old(Others(TableOf(v.g, v.secs), v.chains))
  {
    hide DirOf, TableOf, Sound, Others, TotalLength, FreeSet, Tidy, Owners, FileKept, Stored, Refused, IsFirst,
      Accounted;
    Account(v);
    for i := 0 to |ops|
      invariant v.Valid() && Others(TableOf(v.g, v.secs), v.chains) == old(Others(TableOf(v.g, v.secs), v.chains))
    {
      assert Nameable(ops[i]);
      match ops[i] {
        case Put(name, size, mtime, source) =>
          var ok, s, at := v.Write(name, size, mtime, source);
        case Drop(name) =>
          var ok, s := v.Remove(name);
      }
    }
    Account(v);
  }

  /** On a volume formatted here that is every cluster. */
  method FormatAndRun(dev: seq<Sector>, title: Maybe<seq<byte>>, serial: u32, ops: seq<Op>) returns (v: Volume?)
    requires |dev| < W32 && !Uncovered(|dev|) && (title.Some? ==> IsName(title.value)) && forall i :: 0 <= i < |ops| ==>
      Nameable(ops[i])
    ensures v != null <==> |dev| >= 11
    ensures v != null ==> v.Valid() && Accounted(v) == v.g.clusters
  {
    hide DirOf, TableOf, Sound, Others, TotalLength, FreeSet, Tidy, Owners, Accounted, Mount, AllFree;
    var ok;
    ok, v := Format(dev, title, serial);
    if ok {
      Run(v, ops);
      Account(v);
    }
  }

  /** f12_free_bytes. */
  method FreeBytes(v: Volume) returns (n: nat)
    requires v.Valid()
    ensures n == |FreeSet(TableOf(v.g, v.secs))| * Bpc(v.g)
  {
    hide DirOf, TableOf, RawGet, Sound, Tidy, Owners;
    var count := 0;
    ghost var t := TableOf(v.g, v.secs);
    ghost var seen: set<nat> := {};
    for c := 2 to v.g.clusters + 2
      invariant count == |seen| && forall x: nat :: x in seen <==> 2 <= x < c && t[x] == FREE
    {
      var e := v.FatGet(c);
      RawIsTable(v.g, v.secs, c);
      if e == FREE {
        seen := seen + {c};
        count := count + 1;
      }
    }
    assert seen == FreeSet(t);
    n := count * v.g.spc * SECTOR;
  }
}

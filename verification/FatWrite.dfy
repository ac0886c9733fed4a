/** Steps of a file being written: clusters taken one by one and filled in order. */
module FatWrite {
  import opened Bytes
  import opened Sectors
  import opened FatChains
  import opened FatNames
  import opened FatVolume
  import opened FatState
  import opened Sets

  // ----- one cluster

  lemma PrefixSplice(b: seq<byte>, k: nat, sec: seq<byte>, want: nat, src: seq<byte>, at: nat)
    requires k + |sec| <= |b| && want <= |sec| && at + k + want <= |src|
    requires b[..k] == src[at..at + k] && sec[..want] == src[at + k..at + k + want]
    ensures Splice(b, k, sec)[..k + want] == src[at..at + k + want]
  {
    var r := Splice(b, k, sec);
    assert r[..k + want] == r[..k] + r[k..k + |sec|][..want];
    assert r[..k] == b[..k];
  }

  /** One sector of a cluster written. */
  lemma SectorIn(g: Geo, secs: seq<Sector>, c: nat, sn: nat, sec: Sector)
    requires g.Ok(|secs|) && g.Has(c) && sn < g.spc
    ensures g.ClusterAt(c) + sn < |secs| && SECTOR * sn + SECTOR <= SECTOR * g.spc
    ensures ClusterOf(g, secs[g.ClusterAt(c) + sn := sec], c) == Splice(ClusterOf(g, secs, c), SECTOR * sn, sec)
  {
    hide Splice;
    ClusterIn(g, |secs|, c);
    var lba := g.ClusterAt(c) + sn;
    RegionHit(secs, g.ClusterAt(c), g.spc, lba, 0, sec);
    WholeSector(secs[lba], sec);
  }

  lemma WholeSector(s: Sector, d: Sector)
    ensures Splice(s, 0, d) == d
  {
  }

  // ----- the chain so far

  /** `b` is `a` with free clusters `cs` made a chain; files and directory are as they were. */
  ghost predicate Mid(g: Geo, a: seq<Sector>, b: seq<Sector>, cs: seq<nat>) {
    && g.Ok(|a|) && |a| == |b| && Grown(TableOf(g, a), TableOf(g, b), cs)
    && DirOf(g, a) == DirOf(g, b) && UsedKept(g, a, b)
  }

  lemma MidStart(g: Geo, a: seq<Sector>)
    requires g.Ok(|a|)
    ensures Mid(g, a, a, [])
  {
  }

  lemma GrownMore(t: Table, u: Table, cs: seq<nat>, c: nat)
    requires Grown(t, u, cs) && 2 <= c < |u| && u[c] == FREE && Last(cs) < |u|
    ensures c !in cs && Grown(t, Linked(u, Last(cs), c), cs + [c])
  {
    ChainGrows(u, cs, c);
  }

  /** A cluster taken. */
  lemma MidAlloc(g: Geo, a: seq<Sector>, b: seq<Sector>, b1: seq<Sector>, cs: seq<nat>, c: nat)
    requires Mid(g, a, b, cs) && g.Has(c) && TableOf(g, b)[c] == FREE && Last(cs) < g.clusters + 2
    requires Elsewhere(b, b1, g.FirstFat(), g.FirstRoot()) && TableOf(g, b1) == Linked(TableOf(g, b), Last(cs), c)
    ensures c !in cs && Mid(g, a, b1, cs + [c])
    ensures forall n :: g.Has(n) ==> ClusterOf(g, b1, n) == ClusterOf(g, b, n)
  {
    hide TableOf, DirOf, ClusterOf;
    GrownMore(TableOf(g, a), TableOf(g, b), cs, c);
    Layout(g, |a|);
    DirKept(g, b, b1);
    forall n | g.Has(n)
      ensures ClusterOf(g, b1, n) == ClusterOf(g, b, n)
    {
      ClusterIn(g, |a|, n);
      ClusterKept(g, b, b1, n);
    }
  }

  /** A cluster of the chain filled. */
  lemma MidFill(g: Geo, a: seq<Sector>, b: seq<Sector>, b1: seq<Sector>, cs: seq<nat>, c: nat)
    requires Mid(g, a, b, cs) && g.Has(c) && c in cs && Elsewhere(b, b1, g.ClusterAt(c), g.ClusterAt(c) + g.spc)
    ensures Mid(g, a, b1, cs)
    ensures forall n :: g.Has(n) && n != c ==> ClusterOf(g, b1, n) == ClusterOf(g, b, n)
  {
    hide TableOf, DirOf, ClusterOf, Geo.ClusterAt;
    ClusterIn(g, |a|, c);
    Layout(g, |a|);
    DirKept(g, b, b1);
    TableKept(g, b, b1);
    forall n | g.Has(n) && n != c
      ensures ClusterOf(g, b1, n) == ClusterOf(g, b, n)
    {
      OtherCluster(g, b, b1, c, n);
    }
  }

  lemma OtherCluster(g: Geo, b: seq<Sector>, b1: seq<Sector>, c: nat, n: nat)
    requires g.Ok(|b|) && g.Has(c) && g.Has(n) && n != c && Elsewhere(b, b1, g.ClusterAt(c), g.ClusterAt(c) + g.spc)
    ensures ClusterOf(g, b1, n) == ClusterOf(g, b, n)
  {
    hide Geo.ClusterAt, ClusterOf;
    ClusterIn(g, |b|, n);
    if n < c {
      ClustersApart(g, n, c);
    } else {
      ClustersApart(g, c, n);
    }
    ClusterKept(g, b, b1, n);
  }

  /** Giving up: the table is exactly what it was. */
  lemma MidUndo(g: Geo, a: seq<Sector>, b: seq<Sector>, b1: seq<Sector>, cs: seq<nat>)
    requires Mid(g, a, b, cs) && Elsewhere(b, b1, g.FirstFat(), g.FirstRoot())
    requires forall i :: 0 <= i < |cs| ==> cs[i] < |TableOf(g, b)|
    requires TableOf(g, b1) == Zeroed(TableOf(g, b), cs)
    ensures |a| == |b1| && TableOf(g, b1) == TableOf(g, a) && DirOf(g, b1) == DirOf(g, a) && UsedKept(g, a, b1)
  {
    hide TableOf, DirOf, ClusterOf;
    GrownBack(TableOf(g, a), TableOf(g, b), cs);
    Layout(g, |a|);
    DirKept(g, b, b1);
    forall n | g.Has(n)
      ensures ClusterOf(g, b1, n) == ClusterOf(g, b, n)
    {
      ClusterIn(g, |a|, n);
      ClusterKept(g, b, b1, n);
    }
  }

  // ----- how much there is room for

  /** A chain taken from free clusters is no longer than there were; when none is left, exactly as long. */
  lemma RoomUsed(t: Table, u: Table, cs: seq<nat>)
    requires Grown(t, u, cs)
    ensures |cs| <= |FreeSet(t)| && (FreeSet(u) == {} ==> |cs| == |FreeSet(t)|)
  {
    forall i, j | 0 <= i < j < |cs|
      ensures cs[i] != cs[j]
    {
      Acyclic(u, cs, i, j);
    }
    ListSize(cs);
    var e, f := Elems(cs), FreeSet(t);
    hide Elems;
    forall c | c in e
      ensures c in f
    {
      var i :| 0 <= i < |cs| && cs[i] == c;
      ChainUsed(u, cs, i);
    }
    SubsetSize(e, f);
    if FreeSet(u) == {} {
      assert forall c :: c in f && c !in cs ==> c in FreeSet(u);
      assert e == f;
    }
  }

  // ----- the bytes so far

  /** The chain holds the first `done` bytes of the source. */
  ghost predicate Filled(g: Geo, secs: seq<Sector>, cs: seq<nat>, src: seq<byte>, done: nat) {
    && g.Ok(|secs|) && (forall i :: 0 <= i < |cs| ==> g.Has(cs[i]))
    && done <= |src| && done <= |DataOf(g, secs, cs)| && DataOf(g, secs, cs)[..done] == src[..done]
  }

  lemma FilledNone(g: Geo, secs: seq<Sector>, src: seq<byte>)
    requires g.Ok(|secs|)
    ensures Filled(g, secs, [], src, 0)
  {
  }

  lemma SomeBytes(g: Geo, n: nat)
    requires g.Ok(n)
    ensures 0 < Bpc(g)
  {
  }

  lemma MidParts(g: Geo, a: seq<Sector>, b: seq<Sector>, cs: seq<nat>)
    requires Mid(g, a, b, cs)
    ensures g.Ok(|a|) && |a| == |b| && Grown(TableOf(g, a), TableOf(g, b), cs) && UsedKept(g, a, b)
      && DirOf(g, a) == DirOf(g, b)
    ensures Last(cs) < g.clusters + 2 && (Last(cs) == 0 <==> cs == [])
    ensures forall i :: 0 <= i < |cs| ==> 2 <= cs[i] < g.clusters + 2
  {
  }

  /** The next cluster taken and filled. */
  lemma Refill(g: Geo, b: seq<Sector>, b1: seq<Sector>, b2: seq<Sector>, cs: seq<nat>, c: nat, src: seq<byte>,
    done: nat, more: nat)
    requires Filled(g, b, cs, src, done) && |b| == |b1| == |b2| && g.Has(c) && c !in cs && done == |cs| * Bpc(g)
    requires forall n :: g.Has(n) ==> ClusterOf(g, b1, n) == ClusterOf(g, b, n)
    requires forall n :: g.Has(n) && n != c ==> ClusterOf(g, b2, n) == ClusterOf(g, b1, n)
    requires more <= Bpc(g) && done + more <= |src| && ClusterOf(g, b2, c)[..more] == src[done..done + more]
    ensures Filled(g, b2, cs + [c], src, done + more) && |cs + [c]| * Bpc(g) == |cs| * Bpc(g) + Bpc(g)
  {
    hide ClusterOf;
    FilledMore(g, b, b2, cs, c, src, done, more);
  }

  lemma RoomFor(n: nat, free: nat, b: nat)
    requires n <= free
    ensures n * b <= free * b
  {
  }

  /** One more cluster filled, right behind full ones. */
  lemma FilledMore(g: Geo, a: seq<Sector>, b: seq<Sector>, cs: seq<nat>, c: nat, src: seq<byte>, done: nat, more: nat)
    requires Filled(g, a, cs, src, done) && |a| == |b| && g.Has(c) && done == |cs| * Bpc(g)
    requires forall i :: 0 <= i < |cs| ==> ClusterOf(g, b, cs[i]) == ClusterOf(g, a, cs[i])
    requires more <= Bpc(g) && done + more <= |src| && ClusterOf(g, b, c)[..more] == src[done..done + more]
    ensures Filled(g, b, cs + [c], src, done + more)
  {
    hide ClusterOf;
    DataKept(g, a, b, cs);
    var all := cs + [c];
    assert all[..|all| - 1] == cs;
    assert forall i :: 0 <= i < |all| ==> g.Has(all[i]);
    var d, e := DataOf(g, b, cs), ClusterOf(g, b, c);
    assert DataOf(g, b, all) == d + e;
    assert (d + e)[..done + more] == d + e[..more];
    assert src[..done + more] == src[..done] + src[done..done + more];
  }

  /** Writing directory slots afterwards touches neither table nor data. */
  lemma MidDir(g: Geo, a: seq<Sector>, m: seq<Sector>, b: seq<Sector>, cs: seq<nat>, src: seq<byte>, size: nat)
    requires Mid(g, a, m, cs) && Filled(g, m, cs, src, size) && Elsewhere(m, b, g.FirstRoot(), g.FirstData())
    ensures |a| == |b| && Grown(TableOf(g, a), TableOf(g, b), cs) && UsedKept(g, a, b) && Filled(g, b, cs, src, size)
  {
    hide TableOf, DirOf, ClusterOf;
    Layout(g, |a|);
    TableKept(g, m, b);
    forall n: nat | g.Has(n)
      ensures ClusterOf(g, m, n) == ClusterOf(g, b, n)
    {
      ClusterIn(g, |a|, n);
      ClusterKept(g, m, b, n);
    }
    DataKept(g, m, b, cs);
  }
}

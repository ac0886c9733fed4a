/** What a sound FAT12 volume is, and what one file's coming or going leaves alone. */
module FatState {
  import opened Bytes
  import opened Sectors
  import opened FatChains
  import opened FatNames
  import opened FatDir
  import opened FatVolume

  /** Every listed entry owns the chain its slot points at; chains are proper and disjoint. */
  ghost predicate VolOk(g: Geo, secs: seq<Sector>, chains: Chains) {
    && g.Ok(|secs|) && Tidy(DirOf(g, secs)) && Sound(TableOf(g, secs), chains)
    && Owners(DirOf(g, secs), chains)
  }

  ghost predicate Owners(d: seq<Slot>, chains: Chains) {
    && (forall i :: i in chains <==> Listed(d, i))
    && (forall i :: i in chains ==> i < |d| && Heads(FirstOf(d[i]), chains[i]))
  }

  lemma ChainHas(g: Geo, secs: seq<Sector>, cs: seq<nat>)
    requires g.Ok(|secs|) && IsChain(TableOf(g, secs), cs)
    ensures forall i :: 0 <= i < |cs| ==> g.Has(cs[i])
  {
  }

  /** The bytes of the clusters a listed entry owns. */
  ghost function FileData(g: Geo, secs: seq<Sector>, chains: Chains, i: nat): seq<byte>
    requires VolOk(g, secs, chains) && i in chains
  {
    ChainHas(g, secs, chains[i]);
    DataOf(g, secs, chains[i])
  }

  /** Entry `i` is the same in both volumes: slot, name, chain and bytes. */
  ghost predicate FileKept(g: Geo, a: seq<Sector>, ca: Chains, b: seq<Sector>, cb: Chains, i: nat)
    requires VolOk(g, a, ca) && VolOk(g, b, cb)
  {
    && i in ca && i in cb && ca[i] == cb[i] && DirOf(g, a)[i] == DirOf(g, b)[i]
    && NameAt(DirOf(g, a), i) == NameAt(DirOf(g, b), i)
    && FileData(g, a, ca, i) == FileData(g, b, cb, i)
  }

  // ----- the table's side

  /** Freeing one owner's chain. */
  lemma DropChain(t: Table, chains: Chains, s: nat)
    requires Sound(t, chains) && s in chains
    ensures forall i :: 0 <= i < |chains[s]| ==> chains[s][i] < |t|
    ensures Sound(Zeroed(t, chains[s]), chains - {s})
    ensures Others(Zeroed(t, chains[s]), chains - {s}) == Others(t, chains)
  {
    var u := Zeroed(t, chains[s]);
    forall k | k in chains - {s}
      ensures IsChain(u, chains[k])
    {
      assert Apart(chains[k], chains[s]);
      ChainKept(t, u, chains[k]);
    }
    forall c | 2 <= c < |t|
      ensures c in Others(u, chains - {s}) <==> c in Others(t, chains)
    {
      if c in chains[s] {
        assert Owns(chains, c);
      } else {
        OwnsLess(chains, s, c);
      }
    }
  }

  lemma OwnsLess(chains: Chains, s: nat, c: nat)
    requires s in chains && c !in chains[s]
    ensures Owns(chains - {s}, c) <==> Owns(chains, c)
  {
    if Owns(chains, c) {
      var k :| k in chains && c in chains[k];
      assert k in chains - {s} && c in (chains - {s})[k];
    }
  }

  /** `u` is `t` with the free clusters `cs` made into a chain. */
  ghost predicate Grown(t: Table, u: Table, cs: seq<nat>) {
    && |u| == |t| && IsChain(u, cs)
    && (forall c :: c in cs ==> c < |t| && t[c] == FREE)
    && (forall c :: 0 <= c < |t| && c !in cs ==> u[c] == t[c])
  }

  /** A new owner for clusters that were free. */
  lemma AddChain(t: Table, u: Table, chains: Chains, s: nat, cs: seq<nat>)
    requires Sound(t, chains) && s !in chains && Grown(t, u, cs)
    ensures Sound(u, chains[s := cs]) && Others(u, chains[s := cs]) == Others(t, chains)
  {
    forall k | k in chains
      ensures IsChain(u, chains[k]) && Apart(chains[k], cs) && Apart(cs, chains[k])
    {
      forall i | 0 <= i < |chains[k]|
        ensures chains[k][i] !in cs
      {
        ChainUsed(t, chains[k], i);
      }
      ChainKept(t, u, chains[k]);
    }
    forall c | 2 <= c < |t|
      ensures c in Others(u, chains[s := cs]) <==> c in Others(t, chains)
    {
      OwnsMore(chains, s, cs, c);
      if c in cs {
        var i :| 0 <= i < |cs| && cs[i] == c;
        ChainUsed(u, cs, i);
      }
    }
  }

  lemma OwnsMore(chains: Chains, s: nat, cs: seq<nat>, c: nat)
    requires s !in chains
    ensures Owns(chains[s := cs], c) <==> Owns(chains, c) || c in cs
  {
    var more := chains[s := cs];
    if c in cs {
      assert c in more[s];
    }
    if Owns(chains, c) {
      var k :| k in chains && c in chains[k];
      assert k in more && c in more[k];
    }
  }

  /** Freeing the clusters of a chain grown from free ones gives the table back. */
  lemma GrownBack(t: Table, u: Table, cs: seq<nat>)
    requires Grown(t, u, cs)
    ensures (forall i :: 0 <= i < |cs| ==> cs[i] < |u|) && Zeroed(u, cs) == t
  {
    assert forall i :: 0 <= i < |cs| ==> cs[i] in cs;
    assert forall c :: 0 <= c < |t| ==> Zeroed(u, cs)[c] == t[c];
  }

  // ----- the volume's side

  /** Clusters in use in `a` hold the same bytes in `b`. */
  ghost predicate UsedKept(g: Geo, a: seq<Sector>, b: seq<Sector>)
    requires g.Ok(|a|) && |a| == |b|
  {
    forall c: nat :: g.Has(c) && TableOf(g, a)[c] != FREE ==> ClusterOf(g, a, c) == ClusterOf(g, b, c)
  }

  lemma KeepFile(g: Geo, a: seq<Sector>, ca: Chains, b: seq<Sector>, cb: Chains, i: nat, lo: nat, hi: nat)
    requires VolOk(g, a, ca) && |a| == |b| && VolOk(g, b, cb) && i in ca && i in cb && ca[i] == cb[i]
    requires SameOutside(DirOf(g, a), DirOf(g, b), lo, hi) && !(lo <= i < hi) && UsedKept(g, a, b)
    ensures FileKept(g, a, ca, b, cb, i)
  {
    hide Tidy, Listed, NameAt, DirOf, TableOf, ClusterOf;
    ChainHas(g, a, ca[i]);
    forall k | 0 <= k < |ca[i]|
      ensures ClusterOf(g, a, ca[i][k]) == ClusterOf(g, b, ca[i][k])
    {
      ChainUsed(TableOf(g, a), ca[i], k);
    }
    DataKept(g, a, b, ca[i]);
  }

  /** One entry removed: the volume stays sound and every other file is untouched. */
  lemma RemoveOk(g: Geo, a: seq<Sector>, ca: Chains, b: seq<Sector>, s: nat)
    requires VolOk(g, a, ca) && |a| == |b| && s in ca && s < |DirOf(g, a)| && UsedKept(g, a, b)
    requires forall i :: 0 <= i < |ca[s]| ==> ca[s][i] < |TableOf(g, a)|
    requires TableOf(g, b) == Zeroed(TableOf(g, a), ca[s])
    requires Deleted(DirOf(g, a), DirOf(g, b), RunStart(DirOf(g, a), s), s)
    ensures VolOk(g, b, ca - {s}) && Others(TableOf(g, b), ca - {s}) == Others(TableOf(g, a), ca)
    ensures forall i :: i in ca - {s} ==> FileKept(g, a, ca, b, ca - {s}, i)
  {
    hide Tidy, NameAt, DirOf, TableOf, ClusterOf, UsedKept, Sound, Others, Listed, Vacant, RunStart, Deleted,
      SameOutside;
    var d, e := DirOf(g, a), DirOf(g, b);
    DropChain(TableOf(g, a), ca, s);
    DeleteOne(d, e, s);
    OwnersLess(d, e, ca, s);
    hide Owners, FileKept;
    forall i | i in ca - {s}
      ensures FileKept(g, a, ca, b, ca - {s}, i)
    {
      OwnersOutside(d, ca, i, s);
      KeepFile(g, a, ca, b, ca - {s}, i, RunStart(d, s), s + 1);
    }
  }

  lemma OwnersOutside(d: seq<Slot>, chains: Chains, i: nat, s: nat)
    requires Owners(d, chains) && i in chains && i != s && s < |d|
    ensures !(RunStart(d, s) <= i < s + 1)
  {
  }

  lemma OwnersLess(d: seq<Slot>, e: seq<Slot>, chains: Chains, s: nat)
    requires Owners(d, chains) && s < |d| && SameOutside(d, e, RunStart(d, s), s + 1)
    requires forall j :: RunStart(d, s) <= j <= s ==> Vacant(e[j])
    requires forall j :: RunStart(d, s) <= j < s ==> !Listed(d, j)
    ensures Owners(e, chains - {s})
  {
    hide NameAt, RunStart;
    forall i: nat
      ensures i in chains - {s} <==> Listed(e, i)
    {
      if RunStart(d, s) <= i <= s {
        assert !Listed(e, i);
      } else if i < |d| {
        assert Listed(d, i) <==> Listed(e, i);
      }
    }
  }

  /** One entry added: the volume stays sound and every other file is untouched. */
  lemma AddOk(g: Geo, a: seq<Sector>, ca: Chains, b: seq<Sector>, f: nat, run: seq<Slot>, name: seq<byte>, short: Short,
    cs: seq<nat>)
    requires VolOk(g, a, ca) && |a| == |b| && UsedKept(g, a, b) && Grown(TableOf(g, a), TableOf(g, b), cs)
    requires |short.name| == 11 && RunFor(run, name, short) && 1 <= |run| <= MAX_LONG + 1 && name != []
    requires IsRun(DirOf(g, a), f, |run|) && Added(DirOf(g, a), DirOf(g, b), f, run)
    requires Heads(FirstOf(run[|run| - 1]), cs)
    ensures f + |run| - 1 !in ca
    ensures VolOk(g, b, ca[f + |run| - 1 := cs])
    ensures Others(TableOf(g, b), ca[f + |run| - 1 := cs]) == Others(TableOf(g, a), ca)
    ensures forall i :: i in ca ==> FileKept(g, a, ca, b, ca[f + |run| - 1 := cs], i)
    ensures Readable(name) || |run| == 1 ==> NameAt(DirOf(g, b), f + |run| - 1) == name
  {
    hide Tidy, NameAt, DirOf, TableOf, ClusterOf, UsedKept, Sound, Others, Grown, RunFor, IsRun, Heads, Readable;
    var d, e, s := DirOf(g, a), DirOf(g, b), f + |run| - 1;
    AddOne(d, e, f, run, name, short);
    OwnersMore(d, e, ca, f, s, cs, run);
    AddChain(TableOf(g, a), TableOf(g, b), ca, s, cs);
    hide Owners, FileKept, Added, SameOutside;
    forall i | i in ca
      ensures FileKept(g, a, ca, b, ca[s := cs], i)
    {
      OwnersApart(d, ca, i, f, s);
      KeepFile(g, a, ca, b, ca[s := cs], i, f, f + |run|);
    }
  }

  lemma OwnersApart(d: seq<Slot>, chains: Chains, i: nat, f: nat, s: nat)
    requires Owners(d, chains) && i in chains && forall j :: f <= j <= s ==> !Listed(d, j)
    ensures !(f <= i < s + 1)
  {
  }

  lemma OwnersMore(d: seq<Slot>, e: seq<Slot>, chains: Chains, f: nat, s: nat, cs: seq<nat>, run: seq<Slot>)
    requires Owners(d, chains) && SameOutside(d, e, f, s + 1) && f <= s < |d| && s == f + |run| - 1
    requires (forall j :: f <= j <= s ==> !Listed(d, j)) && (forall j :: f <= j < s ==> !Listed(e, j)) && Listed(e, s)
    requires Added(d, e, f, run) && Heads(FirstOf(run[|run| - 1]), cs)
    ensures s !in chains && Owners(e, chains[s := cs])
  {
    hide NameAt, Heads;
    assert e[f + (|run| - 1)] == run[|run| - 1];
    forall i: nat
      ensures i in chains[s := cs] <==> Listed(e, i)
    {
      if !(f <= i <= s) && i < |d| {
        assert Listed(d, i) <==> Listed(e, i);
      }
    }
  }

  lemma KeptTrans(g: Geo, a: seq<Sector>, ca: Chains, b: seq<Sector>, cb: Chains, c: seq<Sector>, cc: Chains, i: nat)
    requires VolOk(g, a, ca) && VolOk(g, b, cb) && VolOk(g, c, cc)
    requires FileKept(g, a, ca, b, cb, i) && FileKept(g, b, cb, c, cc, i)
    ensures FileKept(g, a, ca, c, cc, i)
  {
    hide VolOk, NameAt, DirOf, FileData;
  }

  /** Every file but `s` is the same in both volumes, and `b` has none besides those and `at`. */
  ghost predicate Changed(g: Geo, a: seq<Sector>, ca: Chains, b: seq<Sector>, cb: Chains, s: int, at: int)
    requires VolOk(g, a, ca) && VolOk(g, b, cb)
  {
    && (forall i :: i in ca && i != s ==> FileKept(g, a, ca, b, cb, i))
    && (forall i: nat :: i in cb <==> (i in ca && i != s) || i == at)
    && (at >= 0 && at in ca ==> at == s)
    && Others(TableOf(g, b), cb) == Others(TableOf(g, a), ca)
  }

  lemma ChangedTrans(g: Geo, a: seq<Sector>, ca: Chains, b: seq<Sector>, cb: Chains, c: seq<Sector>, cc: Chains, s: int,
    at: int)
    requires VolOk(g, a, ca) && VolOk(g, b, cb) && VolOk(g, c, cc)
    requires Changed(g, a, ca, b, cb, s, -1) && Changed(g, b, cb, c, cc, -1, at)
    ensures Changed(g, a, ca, c, cc, s, at)
  {
    hide VolOk, FileKept, TableOf, Others;
    forall i | i in ca && i != s
      ensures FileKept(g, a, ca, c, cc, i)
    {
      assert FileKept(g, a, ca, b, cb, i);
      KeptIn(g, a, ca, b, cb, i);
      assert FileKept(g, b, cb, c, cc, i);
      KeptTrans(g, a, ca, b, cb, c, cc, i);
    }
  }

  lemma KeptIn(g: Geo, a: seq<Sector>, ca: Chains, b: seq<Sector>, cb: Chains, i: nat)
    requires VolOk(g, a, ca) && VolOk(g, b, cb) && FileKept(g, a, ca, b, cb, i)
    ensures i in ca && i in cb
  {
  }

  /** Same table, same directory, same bytes in use: the same volume to everyone. */
  lemma Untouched(g: Geo, a: seq<Sector>, ca: Chains, b: seq<Sector>)
    requires VolOk(g, a, ca) && |a| == |b| && TableOf(g, b) == TableOf(g, a) && DirOf(g, b) == DirOf(g, a)
      && UsedKept(g, a, b)
    ensures VolOk(g, b, ca) && Changed(g, a, ca, b, ca, -1, -1)
  {
    hide TableOf, DirOf, Tidy, NameAt, Listed, Others, FileKept, UsedKept;
    forall i | i in ca
      ensures FileKept(g, a, ca, b, ca, i)
    {
      KeepFile(g, a, ca, b, ca, i, 0, 0);
    }
  }
}

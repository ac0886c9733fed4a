/** Cluster chains inside an allocation table, and the accounting over all of them. */
module FatChains {
  import opened PackedTable
  import opened Sets

  const FREE := 0
  const EOC := 0xFFF
  const END := 0xFF8

  type Table = t: seq<u12> | 2 <= |t| <= END witness [0, 0]

  /** A value the walk loops follow. */
  predicate Follows(c: int) {
    2 <= c < END
  }

  /** `cs` is linked head to tail in `t` and properly ended. */
  ghost predicate IsChain(t: Table, cs: seq<nat>) {
    && (forall i :: 0 <= i < |cs| ==> 2 <= cs[i] < |t|)
    && (forall i :: 0 <= i < |cs| - 1 ==> t[cs[i]] == cs[i + 1])
    && (cs != [] ==> t[cs[|cs| - 1]] >= END)
  }

  /** `cs` is what walking from `first` visits. */
  ghost predicate Heads(first: int, cs: seq<nat>) {
    if cs == [] then !Follows(first) else cs[0] == first
  }

  /** No cluster of a chain is free. */
  lemma ChainUsed(t: Table, cs: seq<nat>, i: nat)
    requires IsChain(t, cs) && i < |cs|
    ensures 2 <= cs[i] < |t| && t[cs[i]] != FREE
  {
    if i < |cs| - 1 {
      assert t[cs[i]] == cs[i + 1];
    }
  }

  /** A chain that ends never visits a cluster twice: from equal clusters the walks would stay equal. */
  lemma {:induction false} Acyclic(t: Table, cs: seq<nat>, i: nat, j: nat)
    requires IsChain(t, cs) && i < j < |cs|
    ensures cs[i] != cs[j]
    decreases |cs| - j
  {
    assert t[cs[i]] == cs[i + 1] < END;
    if j + 1 < |cs| {
      Acyclic(t, cs, i + 1, j + 1);
    }
  }

  /** What a walk from `first` visits is determined by the table. */
  lemma {:induction false} Unique(t: Table, first: int, a: seq<nat>, b: seq<nat>, i: nat)
    requires IsChain(t, a) && IsChain(t, b) && Heads(first, a) && Heads(first, b) && i <= |a|
    ensures i <= |b| && a[..i] == b[..i]
    ensures i == |a| ==> a == b
  {
    if i > 0 {
      Unique(t, first, a, b, i - 1);
      assert a[..i] == a[..i - 1] + [a[i - 1]];
      if i > 1 {
        assert a[i - 2] == b[i - 2];
      }
      assert b[..i] == b[..i - 1] + [b[i - 1]];
    }
    forall j | 0 <= j < |b| - 1
      ensures t[b[j]] < END
    {
      assert t[b[j]] == b[j + 1];
    }
    if i == |a| && i > 0 {
      assert a[i - 1] == b[i - 1] && t[b[i - 1]] >= END;
      assert a == a[..i] && b == b[..i];
    }
  }

  /** A table that agrees on the clusters of a chain holds the same chain. */
  lemma ChainKept(t: Table, u: Table, cs: seq<nat>)
    requires IsChain(t, cs) && |u| == |t| && forall i :: 0 <= i < |cs| ==> u[cs[i]] == t[cs[i]]
    ensures IsChain(u, cs)
  {
  }

  /** What alloc_cluster does to the table: end mark first, then the link from `prev`. */
  function Linked(t: Table, prev: nat, c: nat): (u: Table)
    requires prev < |t| && 2 <= c < |t|
    ensures |u| == |t|
  {
    var one: seq<u12> := t[c := EOC];
    if prev == 0 then one else one[prev := c]
  }

  ghost function Last(cs: seq<nat>): nat {
    if cs == [] then 0 else cs[|cs| - 1]
  }

  lemma ChainGrows(t: Table, cs: seq<nat>, c: nat)
    requires IsChain(t, cs) && 2 <= c < |t| && t[c] == FREE && Last(cs) < |t|
    ensures c !in cs && IsChain(Linked(t, Last(cs), c), cs + [c])
    ensures forall d :: 0 <= d < |t| && d !in cs + [c] ==> Linked(t, Last(cs), c)[d] == t[d]
  {
    if c in cs {
      var i :| 0 <= i < |cs| && cs[i] == c;
      ChainUsed(t, cs, i);
    }
    var u := Linked(t, Last(cs), c);
    forall i | 0 <= i < |cs|
      ensures u[cs[i]] == (cs + [c])[i + 1]
    {
      if i < |cs| - 1 {
        Acyclic(t, cs, i, |cs| - 1);
      }
    }
  }

  /** `t` with every cluster of `cs` freed. */
  ghost function Zeroed(t: Table, cs: seq<nat>): (u: Table)
    requires forall i :: 0 <= i < |cs| ==> cs[i] < |t|
    ensures |u| == |t| && forall c :: 0 <= c < |t| ==> u[c] == if c in cs then FREE else t[c]
  {
    seq(|t|, c requires 0 <= c < |t| => if c in cs then FREE else t[c])
  }

  // ----- accounting

  /** Chains by owner. */
  type Chains = map<nat, seq<nat>>

  /** Every chain is in the table, and no cluster is in two chains. */
  ghost predicate Sound(t: Table, chains: Chains) {
    && (forall k :: k in chains ==> IsChain(t, chains[k]))
    && (forall k, l :: k in chains && l in chains && k != l ==> Apart(chains[k], chains[l]))
  }

  ghost predicate Apart(a: seq<nat>, b: seq<nat>) {
    forall x :: x in a ==> x !in b
  }

  ghost predicate Owns(chains: Chains, c: nat) {
    exists k :: k in chains && c in chains[k]
  }

  ghost function FreeSet(t: Table): set<nat> {
    set c | 2 <= c < |t| && t[c] == FREE
  }

  /** Clusters in use that no chain holds: bad ones, or those of something this code does not manage. */
  ghost function Others(t: Table, chains: Chains): set<nat> {
    set c | 2 <= c < |t| && t[c] != FREE && !Owns(chains, c)
  }

  ghost function Elems(cs: seq<nat>): (r: set<nat>)
    ensures forall x :: x in r <==> x in cs
  {
    set i | 0 <= i < |cs| :: cs[i]
  }

  /** Clusters of the chains with owner below `n`, and how many that is. */
  ghost function Held(chains: Chains, n: nat): set<nat> {
    if n == 0 then {} else Held(chains, n - 1) + if n - 1 in chains then Elems(chains[n - 1]) else {}
  }

  function TotalLength(chains: Chains, n: nat): nat {
    if n == 0 then 0 else TotalLength(chains, n - 1) + if n - 1 in chains then |chains[n - 1]| else 0
  }

  lemma {:induction false} HeldIs(chains: Chains, n: nat, c: nat)
    ensures c in Held(chains, n) <==> exists k :: 0 <= k < n && k in chains && c in chains[k]
  {
    if n > 0 {
      HeldIs(chains, n - 1, c);
    }
  }

  lemma {:induction false} ListSize(cs: seq<nat>)
    requires Distinct(cs)
    ensures |Elems(cs)| == |cs|
  {
    hide Elems;
    if cs != [] {
      var init := cs[..|cs| - 1];
      ListSize(init);
      assert cs == init + [cs[|cs| - 1]];
      assert Elems(cs) == Elems(init) + {cs[|cs| - 1]};
    }
  }

  lemma ChainSize(t: Table, chains: Chains, k: nat)
    requires Sound(t, chains) && k in chains
    ensures |Elems(chains[k])| == |chains[k]|
  {
    var cs := chains[k];
    forall i, j | 0 <= i < j < |cs|
      ensures cs[i] != cs[j]
    {
      Acyclic(t, cs, i, j);
    }
    ListSize(cs);
  }

  lemma HeldApart(t: Table, chains: Chains, n: nat, x: nat)
    requires Sound(t, chains) && n in chains && x in chains[n]
    ensures x !in Held(chains, n)
  {
    HeldIs(chains, n, x);
    assert forall k :: 0 <= k < n && k in chains ==> Apart(chains[n], chains[k]);
  }

  lemma {:induction false} HeldSize(t: Table, chains: Chains, n: nat)
    requires Sound(t, chains)
    ensures |Held(chains, n)| == TotalLength(chains, n)
  {
    hide Sound, Elems;
    if n > 0 {
      HeldSize(t, chains, n - 1);
      if n - 1 in chains {
        ChainSize(t, chains, n - 1);
        var mine := Elems(chains[n - 1]);
        forall x | x in mine
          ensures x !in Held(chains, n - 1)
        {
          HeldApart(t, chains, n - 1, x);
        }
        assert Held(chains, n - 1) !! mine;
      }
    }
  }

  /** The cluster numbers of a table with `n` entries. */
  ghost function Numbers(n: nat): (s: set<nat>)
    requires 2 <= n
    ensures |s| == n - 2 && forall c: nat :: c in s <==> 2 <= c < n
  {
    Below(n) - {0, 1}
  }

  lemma Parts(all: set<nat>, a: set<nat>, b: set<nat>, c: set<nat>)
    requires a <= all && b <= all && c <= all
    requires forall x :: x in all ==> x in a || x in b || x in c
    requires a !! b && a !! c && b !! c
    ensures |a| + |b| + |c| == |all|
  {
    assert |a + b| == |a| + |b|;
    assert all == a + b + c;
  }

  /** A chain below `n` holds only clusters in use. */
  lemma HeldUsed(t: Table, chains: Chains, n: nat, c: nat)
    requires Sound(t, chains) && c in Held(chains, n)
    ensures 2 <= c < |t| && t[c] != FREE
  {
    HeldIs(chains, n, c);
    var k :| 0 <= k < n && k in chains && c in chains[k];
    var i :| 0 <= i < |chains[k]| && chains[k][i] == c;
    ChainUsed(t, chains[k], i);
  }

  /** Free clusters, live chains and the rest are all the clusters there are. */
  lemma Conservation(t: Table, chains: Chains, n: nat)
    requires Sound(t, chains) && forall k :: k in chains ==> k < n
    ensures |FreeSet(t)| + TotalLength(chains, n) + |Others(t, chains)| == |t| - 2
  {
    HeldSize(t, chains, n);
    var all, held := Numbers(|t|), Held(chains, n);
    forall c: nat
      ensures c in held <==> Owns(chains, c)
      ensures c in held ==> c in all && t[c] != FREE
    {
      HeldIs(chains, n, c);
      if c in held {
        HeldUsed(t, chains, n, c);
      }
    }
    hide Owns, Held, Sound, TotalLength, Numbers;
    Parts(all, FreeSet(t), held, Others(t, chains));
  }
}

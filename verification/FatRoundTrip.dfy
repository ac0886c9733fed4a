/** A file written is found under its name and read back. */
module FatRoundTrip {
  import opened Bytes
  import opened Sectors
  import opened FatChains
  import opened FatNames
  import opened FatDir
  import opened FatVolume
  import opened FatState
  import opened FatWrite
  import opened Fat12
  import opened FatRead

  /** No two entries answer to `name`. */
  ghost predicate AtMostOne(d: seq<Slot>, name: seq<byte>) {
    forall i, j ::
      0 <= i < |d| && 0 <= j < |d| && Listed(d, i) && Listed(d, j) && Answers(d, i, name) && Answers(d, j, name) ==>
        i == j
  }

  lemma AnswersItself(d: seq<Slot>, i: nat, name: seq<byte>)
    requires i < |d| && NameAt(d, i) == name
    ensures Answers(d, i, name)
  {
  }

  lemma OwnerListed(g: Geo, secs: seq<Sector>, chains: Chains, i: nat)
    requires VolOk(g, secs, chains)
    ensures i in chains <==> Listed(DirOf(g, secs), i)
    ensures i in chains ==> i < |DirOf(g, secs)|
  {
    hide Listed, DirOf;
  }

  /** An untouched file answers to what it answered to. */
  lemma KeptAnswers(g: Geo, a: seq<Sector>, ca: Chains, b: seq<Sector>, cb: Chains, i: nat, name: seq<byte>)
    requires VolOk(g, a, ca) && VolOk(g, b, cb) && FileKept(g, a, ca, b, cb, i)
    ensures i < |DirOf(g, a)| && i < |DirOf(g, b)|
    ensures Listed(DirOf(g, a), i) && (Answers(DirOf(g, a), i, name) <==> Answers(DirOf(g, b), i, name))
  {
    hide NameAt, DirOf, Listed, FileData, Tidy, Sound;
    OwnerListed(g, a, ca, i);
    OwnerListed(g, b, cb, i);
  }

  /** After a write the new entry is the one that is found. */
  lemma FindsIt(g: Geo, a: seq<Sector>, ca: Chains, b: seq<Sector>, cb: Chains, s: int, at: nat, name: seq<byte>)
    requires VolOk(g, a, ca) && VolOk(g, b, cb) && Changed(g, a, ca, b, cb, s, at)
    requires AtMostOne(DirOf(g, a), name) && IsFirst(DirOf(g, a), name, s)
    requires at in cb && at < |DirOf(g, b)| && NameAt(DirOf(g, b), at) == name
    ensures IsFirst(DirOf(g, b), name, at)
  {
    hide Tidy, Sound, Owners, TableOf, DirOf, FileKept, NameAt, Others, Answers, Listed, Geo.Ok;
    var d, e := DirOf(g, a), DirOf(g, b);
    OwnerListed(g, b, cb, at);
    AnswersItself(e, at, name);
    forall j | 0 <= j < |e| && j < at
      ensures !(Listed(e, j) && Answers(e, j, name))
    {
      if Listed(e, j) && Answers(e, j, name) {
        OwnerListed(g, b, cb, j);
        KeptAnswers(g, a, ca, b, cb, j, name);
        NotOther(d, name, s, j);
      }
    }
  }

  lemma NotOther(d: seq<Slot>, name: seq<byte>, s: int, j: nat)
    requires AtMostOne(d, name) && IsFirst(d, name, s) && j < |d| && Listed(d, j) && Answers(d, j, name)
    ensures j == s
  {
    hide Listed, Answers;
  }

  /** f12_find: the entry that answers to `name`, or none. */
  method Find(v: Volume, name: seq<byte>) returns (slot: int, e: Slot)
    requires v.Valid()
    ensures IsFirst(DirOf(v.g, v.secs), name, slot)
    ensures slot >= 0 ==> slot < |DirOf(v.g, v.secs)| && e == DirOf(v.g, v.secs)[slot]
  {
    hide DirOf, IsFirst;
    slot := v.Locate(name);
    e := seq(32, _ => 0);
    if slot >= 0 {
      FirstListed(DirOf(v.g, v.secs), name, slot);
      e := v.DirReadSlot(slot);
    }
  }

  /** Write, then find, then read any part through a new cursor. */
  method WriteFindRead(v: Volume, name: seq<byte>, size: u32, mtime: u32, source: seq<byte>, off: u32, len: u32)
    returns (ok: bool, slot: int, e: Slot, out: seq<byte>)
    requires v.Valid() && IsName(name) && (Readable(name) || Exact(name)) && name != [] && |name| <= MAX_LONG * CHARS
    requires AtMostOne(DirOf(v.g, v.secs), name)
    modifies v
    ensures v.Valid()
    ensures ok ==>
      slot >= 0 && slot < |DirOf(v.g, v.secs)| && NameAt(DirOf(v.g, v.secs), slot) == name && SizeOf(e) == size
    ensures ok ==> size <= |source| && Stamped(e, mtime)
    ensures ok ==> (out == From(source[..size], off, len) <==> off >= size || off + len < W32 || size % Bpc(v.g) == 0)
  {
    hide DirOf, TableOf, IsFirst, Tidy, Sound, Owners, Geo.Ok, AtMostOne, Readable, Exact, Stored, Changed, Stamped,
      SizeOf, NameAt, Plain, From, Bpc, FirstOf;
    ghost var a, ca := v.secs, v.chains;
    ghost var s, at;
    ok, s, at := v.Write(name, size, mtime, source);
    slot, e := Find(v, name);
    out := [];
    if ok {
      StoredName(v.g, v.secs, v.chains, at, name, size, mtime, source);
      FindsIt(v.g, a, ca, v.secs, v.chains, s, at, name);
      FirstOnly(DirOf(v.g, v.secs), name, slot, at);
      Fetched(v.g, v.secs, v.chains, at, name, size, mtime, source, off, len);
      var cur := new Cursor();
      out := Read(v.g, v.secs, FirstOf(e), SizeOf(e), e[11] / 16 % 2 == 1, cur, off, len);
    }
  }

  lemma StoredName(g: Geo, secs: seq<Sector>, chains: Chains, at: int, name: seq<byte>, size: u32, mtime: u32,
    source: seq<byte>)
    requires VolOk(g, secs, chains) && Stored(g, secs, chains, at, name, size, mtime, source)
      && (Readable(name) || Exact(name))
    ensures at in chains && at < |DirOf(g, secs)| && NameAt(DirOf(g, secs), at) == name
      && SizeOf(DirOf(g, secs)[at]) == size
    ensures DirOf(g, secs)[at][11] / 16 % 2 == 0 && Stamped(DirOf(g, secs)[at], mtime) && size <= |source| && 1 <= g.spc
  {
    hide DirOf, NameAt, Stamped, FileData, Readable, Exact, Tidy, Sound, Owners;
  }

  /** Reading a stored file gives the source's bytes, exactly when the length check does not wrap or the
      file fills its clusters. */
  lemma Fetched(g: Geo, secs: seq<Sector>, chains: Chains, at: int, name: seq<byte>, size: u32, mtime: u32,
    source: seq<byte>, off: u32, len: u32)
    requires VolOk(g, secs, chains) && Stored(g, secs, chains, at, name, size, mtime, source)
    ensures at in chains && at < |DirOf(g, secs)| && size <= |source| && 0 < Bpc(g)
    ensures Plain(g, secs, FirstOf(DirOf(g, secs)[at]), size, off, len) == From(source[..size], off, len)
      <==> off >= size || off + len < W32 || size % Bpc(g) == 0
  {
    hide DirOf, TableOf, NameAt, Stamped, Readable, Exact, Tidy, IsChain, Plain, From, DataOf, Heads, FirstOf, SizeOf,
      Listed;
    var cs := chains[at];
    ChainHas(g, secs, cs);
    ReadExact(g, secs, FirstOf(DirOf(g, secs)[at]), cs, size, off, len);
    hide Bpc;
    Whole(size, |cs|, Bpc(g));
  }

  /** The last cluster is full exactly when the size is a multiple of the cluster. */
  lemma Whole(size: nat, n: nat, b: nat)
    requires 0 < b && size <= n * b < size + b
    ensures size % b == 0 <==> size == n * b
  {
    if size == n * b {
      Digits(n, b, 0);
    } else {
      var r := size - (n - 1) * b;
      assert (n - 1) * b == n * b - b;
      if n > 0 {
        Digits(n - 1, b, r);
      }
    }
  }
}

/** The mounted FAT12 volume: table, directory and data updated sector by sector. */
module Fat12 {
  import opened Bytes
  import opened Sectors
  import PackedTable
  import opened FatChains
  import opened FatNames
  import opened FatDir
  import opened FatVolume
  import opened FatState
  import opened FatWrite
  import Calendar

  class Volume {
    const g: Geo
    var secs: seq<Sector>
    /** The chain each listed entry owns. */
    ghost var chains: Chains

    constructor (g: Geo, secs: seq<Sector>)
      ensures this.g == g && this.secs == secs && chains == map[]
    {
      this.g, this.secs, chains := g, secs, map[];
    }

    ghost predicate Valid()
      reads this
    {
      VolOk(g, secs, chains)
    }

    // ----- the table

    /** Read-modify-write of one byte of the table. */
    method FatByteSet(off: nat, m: PackedTable.Mask, value: byte)
      requires g.Ok(|secs|) && off < SECTOR * g.fatSectors
      modifies this`secs
      ensures Elsewhere(old(secs), secs, g.FirstFat(), g.FirstRoot()) && g.Ok(|secs|)
      ensures FatOf(g, secs) == old(FatOf(g, secs))[off := PackedTable.Merge(old(FatOf(g, secs))[off], m, value)]
    {
      hide PackedTable.Merge, Splice;
      Layout(g, |secs|);
      var lba, k := g.FirstFat() + off / SECTOR, off % SECTOR;
      var sec := secs[lba];
      var b := PackedTable.Merge(sec[k], m, value);
      RegionHit(secs, g.FirstFat(), g.fatSectors, lba, k, [b]);
      SpliceOne(sec, k, b);
      SpliceOne(FatOf(g, secs), off, b);
      secs := secs[lba := sec[k := b]];
    }

    method FatGet(c: nat) returns (v: PackedTable.u12)
      ensures v == RawGet(g, secs, c)
    {
      hide PackedTable.Unpack;
      var at := PackedTable.At12(c);
      if g.FirstFat() + at / SECTOR >= |secs| || g.FirstFat() + (at + 1) / SECTOR >= |secs| {
        return EOC;
      }
      var a, b := secs[g.FirstFat() + at / SECTOR][at % SECTOR],
        secs[g.FirstFat() + (at + 1) / SECTOR][(at + 1) % SECTOR];
      v := PackedTable.Unpack(c, a, b);
    }

    /** Store an entry: that entry changes, no other, and nothing outside the table. */
    method FatSet(c: nat, value: u16)
      requires g.Ok(|secs|) && c < g.clusters + 2
      modifies this`secs
      ensures Elsewhere(old(secs), secs, g.FirstFat(), g.FirstRoot()) && g.Ok(|secs|)
      ensures TableOf(g, secs) == old(TableOf(g, secs))[c := value % 0x1000]
    {
      hide PackedTable.Merge, Geo.FirstRoot, Geo.FirstData, PackedTable.TableBytes, Region;
      var at, v := PackedTable.At12(c), value % 0x1000;
      PackedTable.TableSet(FatOf(g, secs), g.clusters + 2, c, v);
      if c % 2 == 1 {
        FatByteSet(at, PackedTable.HighNibble, v * 16 % 256);
        FatByteSet(at + 1, PackedTable.WholeByte, v / 16);
      } else {
        FatByteSet(at, PackedTable.WholeByte, v % 256);
        FatByteSet(at + 1, PackedTable.LowNibble, v / 256);
      }
    }

    /** Take the lowest free cluster, end-marked and linked from `prev` unless that is zero. */
    method AllocCluster(prev: nat) returns (c: nat)
      requires g.Ok(|secs|) && prev < g.clusters + 2
      modifies this`secs
      ensures Elsewhere(old(secs), secs, g.FirstFat(), g.FirstRoot()) && g.Ok(|secs|)
      ensures c == 0 <==> FreeSet(old(TableOf(g, secs))) == {}
      ensures c == 0 ==> secs == old(secs)
      ensures c != 0 ==>
        g.Has(c) && old(TableOf(g, secs))[c] == FREE && TableOf(g, secs) == Linked(old(TableOf(g, secs)), prev, c)
      ensures c != 0 ==> forall d :: 2 <= d < c ==> old(TableOf(g, secs))[d] != FREE
    {
      hide RawGet, TableOf, Linked;
      ghost var t := TableOf(g, secs);
      for i := 2 to g.clusters + 2
        invariant secs == old(secs) && forall d :: 2 <= d < i ==> t[d] != FREE
      {
        var v := FatGet(i);
        RawIsTable(g, secs, i);
        if v == FREE {
          assert i in FreeSet(t);
          LinkSteps(t, prev, i);
          FatSet(i, EOC);
          if prev != 0 {
            FatSet(prev, i);
          }
          return i;
        }
      }
      assert FreeSet(t) == {};
      return 0;
    }

    /** Free the clusters walked from `first`, which is the chain `cs`. */
    method FreeChain(first: nat, ghost cs: seq<nat>)
      requires g.Ok(|secs|) && IsChain(TableOf(g, secs), cs) && Heads(first, cs)
      modifies this`secs
      ensures Elsewhere(old(secs), secs, g.FirstFat(), g.FirstRoot()) && g.Ok(|secs|)
      ensures TableOf(g, secs) == Zeroed(old(TableOf(g, secs)), cs)
    {
      hide RawGet, TableOf, Geo.Ok, Geo.FirstRoot;
      ghost var t := TableOf(g, secs);
      var cluster := first;
      ghost var i := 0;
      assert Zeroed(t, []) == t;
      while Follows(cluster)
        invariant i <= |cs| && g.Ok(|secs|) && Elsewhere(old(secs), secs, g.FirstFat(), g.FirstRoot())
        invariant TableOf(g, secs) == Zeroed(t, cs[..i])
        invariant if i < |cs| then cluster == cs[i] else !Follows(cluster)
        decreases |cs| - i
      {
        NotYet(t, cs, i);
        RawIsTable(g, secs, cluster);
        var next := FatGet(cluster);
        FatSet(cluster, FREE);
        ZeroedSnoc(t, cs, i);
        cluster := next;
        i := i + 1;
      }
      assert cs[..i] == cs;
    }

    // ----- the directory

    method DirWriteSlot(s: nat, e: Slot)
      requires g.Ok(|secs|) && s < g.rootEntries
      modifies this`secs
      ensures Elsewhere(old(secs), secs, g.FirstRoot(), g.FirstData()) && g.Ok(|secs|)
      ensures DirOf(g, secs) == old(DirOf(g, secs))[s := e]
    {
      hide Splice, Slots;
      Layout(g, |secs|);
      var lba, k := g.FirstRoot() + s / PER, s % PER * 32;
      RegionHit(secs, g.FirstRoot(), g.RootSectors(), lba, k, e);
      SlotsSplice(Region(secs, g.FirstRoot(), g.RootSectors()), s, e);
      secs := secs[lba := Splice(secs[lba], k, e)];
    }

    /** The slot read off its sector. */
    method DirReadSlot(s: nat) returns (e: Slot)
      requires g.Ok(|secs|) && s < g.rootEntries
      ensures e == DirOf(g, secs)[s]
    {
      Layout(g, |secs|);
      var lba, k := g.FirstRoot() + s / PER, s % PER * 32;
      RegionSlice(secs, g.FirstRoot(), g.RootSectors(), lba, k, 32);
      e := secs[lba][k..k + 32];
    }

    /** The slot of the first entry that answers to `name`, or -1. */
    method Locate(name: seq<byte>) returns (s: int)
      requires g.Ok(|secs|)
      ensures IsFirst(DirOf(g, secs), name, s)
    {
      hide DirOf, Gather, ShortText, CStr;
      ghost var d := DirOf(g, secs);
      var st: Maybe<Buffer> := None;
      for i := 0 to g.rootEntries
        invariant Reaches(d, i) && st == StateAt(d, i)
        invariant forall j :: 0 <= j < i ==> !(Listed(d, j) && Answers(d, j, name))
      {
        var e := DirReadSlot(i);
        if e[0] == 0 {
          return -1;
        }
        if IsEntry(e) {
          var short := ShowShort(e);
          var shown := if st.Some? && st.value[0] != 0 then CStr(st.value) else short;
          var a := Ieq(shown, name);
          var b := Ieq(short, name);
          if a || b {
            return i;
          }
          st := None;
        } else if Vacant(e) || !IsLong(e) {
          st := None;
        } else {
          if Opens(e) {
            st := Some(Blank());
          }
          if st.Some? {
            st := LfnGather(e, st.value);
          }
        }
      }
      return -1;
    }

    /** The first run of `need` free slots, or -1 when the directory has none. */
    method FreeRun(need: nat) returns (f: int)
      requires g.Ok(|secs|) && Tidy(DirOf(g, secs)) && 1 <= need
      ensures f >= 0 ==> IsRun(DirOf(g, secs), f, need)
      ensures f < 0 ==> NoRun(DirOf(g, secs), need)
    {
      hide DirOf, Tidy, IsRun, Scanned, Vacant, NoRun;
      ghost var d := DirOf(g, secs);
      var start, len := -1, 0;
      ScanStart(d, need);
      for i := 0 to g.rootEntries
        invariant Scanned(d, need, i, start, len)
      {
        var e := DirReadSlot(i);
        if Vacant(e) {
          ScanVacant(d, need, i, start, len);
          if start < 0 {
            start, len := i, 0;
          }
          len := len + 1;
          if len >= need {
            return start;
          }
          if e[0] == 0 {
            Unwrapped(g.rootEntries - start);
            return if (g.rootEntries - start) % W32 >= need then start else -1;
          }
        } else {
          ScanUsed(d, need, i, start, len);
          start, len := -1, 0;
        }
      }
      ScanDone(d, need, start, len);
      return -1;
    }

    /** Mark entry `s` and the long-name slots in front of it deleted. */
    method DeleteSlots(s: nat)
      requires g.Ok(|secs|) && s < g.rootEntries
      modifies this`secs
      ensures Elsewhere(old(secs), secs, g.FirstRoot(), g.FirstData()) && g.Ok(|secs|)
      ensures Deleted(old(DirOf(g, secs)), DirOf(g, secs), RunStart(old(DirOf(g, secs)), s), s)
    {
      hide DirOf, IsLong, Opens, Deleted, RunStart;
      ghost var d := DirOf(g, secs);
      var e := DirReadSlot(s);
      DeletedFirst(d, s);
      DirWriteSlot(s, e[0 := DELETED]);
      var k: nat := s;
      RunStep(d, k);
      while k > 0
        invariant k <= s && g.Ok(|secs|) && Elsewhere(old(secs), secs, g.FirstRoot(), g.FirstData())
        invariant Deleted(d, DirOf(g, secs), k, s) && RunStart(d, s) == RunStart(d, k)
      {
        e := DirReadSlot(k - 1);
        DeletedMore(d, DirOf(g, secs), k, s);
        RunStep(d, k);
        if !IsLong(e) {
          break;
        }
        DirWriteSlot(k - 1, e[0 := DELETED]);
        k := k - 1;
        RunStep(d, k);
        if Opens(e) {
          return;
        }
      }
    }

    /** f12_remove: the file that answers to `name` goes, with its clusters; nothing else changes. */
    method Remove(name: seq<byte>) returns (ok: bool, ghost s: int)
      requires Valid()
      modifies this`secs, this`chains
      ensures Valid() && |secs| == |old(secs)|
      ensures IsFirst(old(DirOf(g, secs)), name, s) && ok == (s >= 0)
      ensures !ok ==> secs == old(secs) && chains == old(chains)
      ensures ok ==> s in old(chains) && chains == old(chains) - {s as nat}
      ensures ok ==> forall i :: i in chains ==> FileKept(g, old(secs), old(chains), secs, chains, i)
      ensures ok ==> SameOutside(old(DirOf(g, secs)), DirOf(g, secs), RunStart(old(DirOf(g, secs)), s), s + 1)
      ensures Others(TableOf(g, secs), chains) == Others(old(TableOf(g, secs)), old(chains))
    {
      hide DirOf, TableOf, Listed, Answers, Sound, Others, SameOutside, RunStart, Tidy, FileKept, Deleted, ClusterOf,
        IsFirst;
      var at := Locate(name);
      s := at;
      if at < 0 {
        return false, s;
      }
      ghost var d := DirOf(g, secs);
      FirstListed(d, name, at);
      var e := DirReadSlot(at);
      Removable(g, secs, chains, at);
      FreeChain(FirstOf(e), chains[at]);
      ghost var mid := secs;
      DirSame(g, old(secs), mid);
      DeleteSlots(at);
      FatSame(g, mid, secs);
      DataSame(g, old(secs), mid, secs);
      RemoveOk(g, old(secs), chains, secs, at);
      DeleteOne(d, DirOf(g, secs), at);
      chains := chains - {at as nat};
      ok := true;
    }

    // ----- writing

    /** Fill cluster `c` from the source, sector by sector, the tail of the last one zero. Fails when the
        source runs short. */
    method WriteCluster(c: nat, source: seq<byte>, done0: nat, size: nat) returns (ok: bool, done: nat)
      requires g.Ok(|secs|) && g.Has(c) && done0 < size && done0 <= |source|
      modifies this`secs
      ensures Elsewhere(old(secs), secs, g.ClusterAt(c), g.ClusterAt(c) + g.spc) && g.Ok(|secs|)
      ensures ok <==> Min(size, done0 + Bpc(g)) <= |source|
      ensures ok ==> done == Min(size, done0 + Bpc(g)) && ClusterOf(g, secs, c)[..done - done0] == source[done0..done]
    {
      hide ClusterOf, Splice, Geo.ClusterAt, Geo.Ok;
      var sn := 0;
      done := done0;
      while sn < g.spc && done < size
        invariant sn <= g.spc && done == Min(size, done0 + SECTOR * sn) <= |source| && g.Ok(|secs|)
        invariant Elsewhere(old(secs), secs, g.ClusterAt(c), g.ClusterAt(c) + g.spc)
        invariant ClusterOf(g, secs, c)[..done - done0] == source[done0..done]
        decreases g.spc - sn
      {
        var want := Min(SECTOR, size - done);
        if done + want > |source| {
          return false, done;
        }
        var sec: Sector := source[done..done + want] + seq(SECTOR - want, _ => 0);
        SectorIn(g, secs, c, sn, sec);
        PrefixSplice(ClusterOf(g, secs, c), SECTOR * sn, sec, want, source, done0);
        secs := secs[g.ClusterAt(c) + sn := sec];
        done := done + want;
        sn := sn + 1;
      }
      ok := true;
    }

    /** The data of a file: enough clusters, in a chain, filled in order. It fails exactly when there are
        too few free clusters or the source runs short, and then the table is what it was. */
    method WriteData(source: seq<byte>, size: nat) returns (ok: bool, first: nat, ghost cs: seq<nat>)
      requires g.Ok(|secs|)
      modifies this`secs
      ensures |secs| == |old(secs)| && DirOf(g, secs) == old(DirOf(g, secs)) && UsedKept(g, old(secs), secs)
      ensures ok <==> size <= |source| && size <= |FreeSet(old(TableOf(g, secs)))| * Bpc(g)
      ensures !ok ==> TableOf(g, secs) == old(TableOf(g, secs))
      ensures ok ==> Mid(g, old(secs), secs, cs) && Heads(first, cs) && Filled(g, secs, cs, source, size)
      ensures ok ==> size <= |cs| * Bpc(g) < size + Bpc(g) && first < 0x1_0000
    {
      hide TableOf, DirOf, Mid, Filled, FreeSet, Grown, UsedKept, Bpc, ClusterOf, Geo.ClusterAt, Linked, Elsewhere;
      var prev, done := 0, 0;
      first, cs := 0, [];
      ghost var full := 0;
      MidStart(g, secs);
      FilledNone(g, secs, source);
      SomeBytes(g, |secs|);
      while done < size
        invariant Mid(g, old(secs), secs, cs) && Filled(g, secs, cs, source, done)
        invariant full == |cs| * Bpc(g) && done == Min(size, full) <= |source|
        invariant prev == Last(cs) && first == (if cs == [] then 0 else cs[0])
        invariant cs != [] ==> full - Bpc(g) < size
        decreases size - done
      {
        MidParts(g, old(secs), secs, cs);
        ghost var b := secs;
        var c := AllocCluster(prev);
        if c == 0 {
          RoomUsed(TableOf(g, old(secs)), TableOf(g, secs), cs);
          if first != 0 {
            Undo(first, cs, old(secs));
          }
          return false, first, cs;
        }
        MidAlloc(g, old(secs), b, secs, cs, c);
        ghost var b1 := secs;
        MidParts(g, old(secs), b1, cs + [c]);
        first := if first == 0 then c else first;
        prev := c;
        var fine, now := WriteCluster(c, source, done, size);
        MidFill(g, old(secs), b1, secs, cs + [c], c);
        MidParts(g, old(secs), secs, cs + [c]);
        if !fine {
          Undo(first, cs + [c], old(secs));
          return false, first, cs;
        }
        Refill(g, b, b1, secs, cs, c, source, done, now - done);
        cs, full, done := cs + [c], full + Bpc(g), now;
      }
      MidParts(g, old(secs), secs, cs);
      RoomUsed(TableOf(g, old(secs)), TableOf(g, secs), cs);
      RoomFor(|cs|, |FreeSet(TableOf(g, old(secs)))|, Bpc(g));
      ok := true;
    }

    /** Give back the clusters taken so far. */
    method Undo(first: nat, ghost cs: seq<nat>, ghost a: seq<Sector>)
      requires Mid(g, a, secs, cs) && Heads(first, cs)
      modifies this`secs
      ensures g.Ok(|secs|) && |secs| == |a| && TableOf(g, secs) == TableOf(g, a) && DirOf(g, secs) == DirOf(g, a)
        && UsedKept(g, a, secs)
    {
      hide TableOf, DirOf, UsedKept;
      ghost var b := secs;
      FreeChain(first, cs);
      MidUndo(g, a, b, secs, cs);
    }

    /** The slots of a new entry: the long name in reverse, then the entry itself. */
    method WriteEntries(f: nat, name: seq<byte>, short: Short, ent: Slot) returns (ghost run: seq<Slot>)
      requires g.Ok(|secs|) && |short.name| == 11 && f + SlotsFor(name, short) <= g.rootEntries
      requires IsEntry(ent) && ent[..11] == short.name && ent[12] == short.flags
      modifies this`secs
      ensures Elsewhere(old(secs), secs, g.FirstRoot(), g.FirstData()) && g.Ok(|secs|)
      ensures |run| == SlotsFor(name, short) && RunFor(run, name, short) && run[|run| - 1] == ent
        && Added(old(DirOf(g, secs)), DirOf(g, secs), f, run)
    {
      hide DirOf, SlotsFor, IsLfn, IsEntry, Added;
      ghost var d := DirOf(g, secs);
      var n := SlotsFor(name, short) - 1;
      run := [];
      AddedNone(d, f);
      for i := 0 to n
        invariant |run| == i && g.Ok(|secs|) && Elsewhere(old(secs), secs, g.FirstRoot(), g.FirstData())
        invariant Added(d, DirOf(g, secs), f, run) && forall j :: 0 <= j < i ==> LongAt(run[j], j, n, name, short)
      {
        var e := LfnEntry(name, n - i, i == 0, short.name);
        assert LongAt(e, i, n, name, short);
        AddedSnoc(d, DirOf(g, secs), f, run, e);
        DirWriteSlot(f + i, e);
        run := run + [e];
      }
      AddedSnoc(d, DirOf(g, secs), f, run, ent);
      DirWriteSlot(f + n, ent);
      run := run + [ent];
    }

    /** Remove whatever answers to `name`, if anything does. */
    method Clear(name: seq<byte>) returns (ghost s: int)
      requires Valid()
      modifies this`secs, this`chains
      ensures Valid() && |secs| == |old(secs)| && IsFirst(old(DirOf(g, secs)), name, s)
      ensures Changed(g, old(secs), old(chains), secs, chains, s, -1)
    {
      hide DirOf, TableOf, Listed, Answers, Sound, Others, SameOutside, RunStart, Tidy, FileKept, ClusterOf, IsFirst,
        UsedKept, Owners;
      var found := Locate(name);
      if found >= 0 {
        var _, r := Remove(name);
        s := r;
        FirstOnly(old(DirOf(g, secs)), name, s, found);
      } else {
        s := -1;
        FirstOnly(old(DirOf(g, secs)), name, found, found);
        Same0(g, secs, chains);
      }
    }

    /** A new entry with the source's first `size` bytes; fails without a trace. */
    method Create(name: seq<byte>, size: u32, mtime: u32, source: seq<byte>) returns (ok: bool, ghost at: int)
      requires Valid() && name != [] && |name| <= MAX_LONG * CHARS
      modifies this`secs, this`chains
      ensures Valid() && |secs| == |old(secs)| && (ok <==> at >= 0)
      ensures Changed(g, old(secs), old(chains), secs, chains, -1, at)
      ensures ok ==> Stored(g, secs, chains, at, name, size, mtime, source)
      ensures !ok ==> Refused(g, secs, name, size, source)
    {
      hide DirOf, TableOf, Changed, Stored, Refused, IsFirst, IsShort, NoRun, IsRun, FileKept, Others, Mid, Filled,
        FreeSet, Tidy, RunFor, Added, Heads, SlotsFor, Bpc, UsedKept, Sound, Owners, Stamped, IsEntry;
      at := -1;
      Same0(g, secs, chains);
      var short := ShortName(name);
      if short.None? {
        RefusedName(g, secs, name, size, source);
        return false, at;
      }
      var n := SlotsFor(name, short.value);
      var f := FreeRun(n);
      if f < 0 {
        RefusedRun(g, secs, name, size, source, short.value);
        return false, at;
      }
      ghost var a := secs;
      var fine, first, cs := WriteData(source, size);
      if !fine {
        Untouched(g, a, chains, secs);
        RefusedRoom(g, a, secs, name, size, source);
        return false, at;
      }
      ghost var m := secs;
      var ent := Dirent(short.value, first, size, mtime);
      RunInside(DirOf(g, secs), f, n);
      ghost var run := WriteEntries(f, name, short.value, ent);
      at := f + |run| - 1;
      Finish(g, a, chains, m, secs, f, run, name, short.value, cs, first, size, mtime, source);
      chains := chains[at as nat := cs];
      ok := true;
    }

    /** f12_write: `name` is replaced or created with the source's first `size` bytes; every other file is
        untouched. A write that fails has at most removed the old file of that name. */
    method Write(name: seq<byte>, size: u32, mtime: u32, source: seq<byte>) returns (ok: bool, ghost s: int,
      ghost at: int)
      requires Valid() && IsName(name) && |name| <= MAX_LONG * CHARS
      modifies this`secs, this`chains
      ensures Valid() && |secs| == |old(secs)| && (ok <==> at >= 0)
      ensures name != [] ==> IsFirst(old(DirOf(g, secs)), name, s)
      ensures Changed(g, old(secs), old(chains), secs, chains, s, at)
      ensures ok ==> Stored(g, secs, chains, at, name, size, mtime, source)
      ensures !ok ==> Refused(g, secs, name, size, source)
    {
      hide VolOk, DirOf, TableOf, Changed, Stored, IsFirst, IsName, FileKept, Others;
      s, at := -1, -1;
      if name == [] {
        Same0(g, secs, chains);
        return false, s, at;
      }
      s := Clear(name);
      ghost var b, cb := secs, chains;
      ok, at := Create(name, size, mtime, source);
      ChangedTrans(g, old(secs), old(chains), b, cb, secs, chains, s, at);
    }
  }

  /** An 8.3 name as text (short_name). */
  method ShowShort(e: Slot) returns (out: seq<byte>)
    ensures out == ShortText(e)
  {
    hide Shown;
    var base := ShowHalf(e[..8], e[12] / BASE_LOWER % 2 == 1);
    assert e[..11][..8] == e[..8] && e[..11][8..] == e[8..11];
    out := base;
    if e[8] != SPACE {
      var ext := ShowHalf(e[8..11], e[12] / EXT_LOWER % 2 == 1);
      out := out + ([DOT] + ext);
    }
    assert out == Render(e[..11], e[12]);
    out := CStr(out);
  }

  method ShowHalf(s: seq<byte>, lower: bool) returns (out: seq<byte>)
    ensures out == Shown(s, lower)
  {
    out := [];
    var i := 0;
    while i < |s| && s[i] != SPACE
      invariant i <= |s| && out + Shown(s[i..], lower) == Shown(s, lower)
    {
      assert s[i..][1..] == s[i + 1..];
      out := out + [if lower then Lower(s[i]) else s[i]];
      i := i + 1;
    }
    assert Shown(s[i..], lower) == [];
  }

  /** No run of `need` free slots ends by slot `i`. */
  ghost predicate NoRunBefore(d: seq<Slot>, need: nat, i: nat) {
    forall k :: 0 <= k && k + need <= i ==> !IsRun(d, k, need)
  }

  /** With a used slot just before `from`, too few slots from there to the one just looked at. */
  lemma StillNone(d: seq<Slot>, need: nat, i: nat, from: nat)
    requires i < |d| && NoRunBefore(d, need, i) && from <= i + 1 < from + need && (from > 0 ==> !Vacant(d[from - 1]))
    ensures NoRunBefore(d, need, i + 1)
  {
    hide Vacant, Reaches;
  }

  /** The directory ends at slot `i`, inside free slots from `start` on: everything after is free. */
  lemma OpenEnded(d: seq<Slot>, need: nat, i: nat, start: nat)
    requires Tidy(d) && 1 <= need && start <= i < |d| && d[i][0] == 0 && Reaches(d, start)
      && NoRunBefore(d, need, i + 1)
    requires (forall j :: start <= j <= i ==> Vacant(d[j])) && (start > 0 ==> !Vacant(d[start - 1]))
    ensures if start + need <= |d| then IsRun(d, start, need) else NoRun(d, need)
  {
    if start + need > |d| {
      forall k | 0 <= k
        ensures !IsRun(d, k, need)
      {
        if k < start && k + need > start {
          assert !Vacant(d[start - 1]);
        } else if k > i {
          assert d[i][0] == 0;
        }
      }
    }
  }

  ghost predicate NoRun(d: seq<Slot>, need: nat) {
    forall k :: 0 <= k ==> !IsRun(d, k, need)
  }

  /** A scan up to slot `i` has seen no long enough run; `len` free slots from `start` lead up to it. */
  ghost predicate Scanned(d: seq<Slot>, need: nat, i: nat, start: int, len: nat) {
    && i <= |d| && Reaches(d, i) && len < need && len <= i && (if start < 0 then len == 0 else start == i - len)
    && (forall j :: i - len <= j < i ==> Vacant(d[j])) && (i - len > 0 ==> !Vacant(d[i - len - 1]))
    && NoRunBefore(d, need, i)
  }

  lemma ScanStart(d: seq<Slot>, need: nat)
    requires 1 <= need
    ensures Scanned(d, need, 0, -1, 0)
  {
  }

  lemma ScanUsed(d: seq<Slot>, need: nat, i: nat, start: int, len: nat)
    requires i < |d| && Scanned(d, need, i, start, len) && !Vacant(d[i])
    ensures Scanned(d, need, i + 1, -1, 0)
  {
    StillNone(d, need, i, i + 1);
    hide NoRunBefore;
  }

  lemma ScanVacant(d: seq<Slot>, need: nat, i: nat, start: int, len: nat)
    requires Tidy(d) && i < |d| && Scanned(d, need, i, start, len) && Vacant(d[i])
    ensures var s := if start < 0 then i else start;
      && 0 <= s <= |d| && (start < 0 ==> len == 0) && (len + 1 >= need ==> IsRun(d, s, need))
      && (len + 1 < need && d[i][0] != 0 ==> Scanned(d, need, i + 1, s, len + 1))
      && (len + 1 < need && d[i][0] == 0 ==>
        if s + need <= |d| then IsRun(d, s, need) else NoRun(d, need))
  {
    if len + 1 < need {
      StillNone(d, need, i, i - len);
      hide NoRunBefore;
      if d[i][0] == 0 {
        OpenEnded(d, need, i, i - len);
      }
    }
  }

  lemma ScanDone(d: seq<Slot>, need: nat, start: int, len: nat)
    requires Scanned(d, need, |d|, start, len)
    ensures NoRun(d, need)
  {
  }

  /** `s` is the first entry that answers to `name`, or -1 if none does. */
  ghost predicate IsFirst(d: seq<Slot>, name: seq<byte>, s: int) {
    && -1 <= s < |d| && (s >= 0 ==> Listed(d, s) && Answers(d, s, name))
    && forall j :: 0 <= j < |d| && (j < s || s == -1) ==> !(Listed(d, j) && Answers(d, j, name))
  }

  lemma FirstListed(d: seq<Slot>, name: seq<byte>, s: int)
    requires IsFirst(d, name, s) && s >= 0
    ensures s < |d| && Listed(d, s)
  {
  }

  lemma DeletedFirst(d: seq<Slot>, s: nat)
    requires s < |d|
    ensures Deleted(d, d[s := d[s][0 := DELETED]], s, s)
  {
  }

  lemma DeletedMore(d: seq<Slot>, e: seq<Slot>, k: nat, s: nat)
    requires Deleted(d, e, k, s) && 0 < k
    ensures |e| == |d| && e[k - 1] == d[k - 1] && Deleted(d, e[k - 1 := d[k - 1][0 := DELETED]], k - 1, s)
  {
  }

  lemma RunStep(d: seq<Slot>, k: nat)
    requires k < |d|
    ensures k == 0 ==> RunStart(d, k) == 0
    ensures k > 0 ==>
      RunStart(d, k) == if !IsLong(d[k - 1]) then k else if Opens(d[k - 1]) then k - 1 else RunStart(d, k - 1)
  {
  }

  lemma Removable(g: Geo, secs: seq<Sector>, chains: Chains, s: nat)
    requires VolOk(g, secs, chains) && s < |DirOf(g, secs)| && Listed(DirOf(g, secs), s)
    ensures s in chains && IsChain(TableOf(g, secs), chains[s]) && Heads(FirstOf(DirOf(g, secs)[s]), chains[s])
    ensures forall i :: 0 <= i < |chains[s]| ==> chains[s][i] < |TableOf(g, secs)|
  {
  }

  /** Writing the table leaves the directory as it was, and the other way round; neither touches data. */
  lemma DirSame(g: Geo, a: seq<Sector>, b: seq<Sector>)
    requires g.Ok(|a|) && Elsewhere(a, b, g.FirstFat(), g.FirstRoot())
    ensures DirOf(g, a) == DirOf(g, b)
  {
    Layout(g, |a|);
    DirKept(g, a, b);
  }

  lemma FatSame(g: Geo, a: seq<Sector>, b: seq<Sector>)
    requires g.Ok(|a|) && Elsewhere(a, b, g.FirstRoot(), |a|)
    ensures TableOf(g, a) == TableOf(g, b)
  {
    TableKept(g, a, b);
  }

  lemma DataSame(g: Geo, a: seq<Sector>, b: seq<Sector>, c: seq<Sector>)
    requires g.Ok(|a|) && Elsewhere(a, b, g.FirstFat(), g.FirstRoot()) && Elsewhere(b, c, g.FirstRoot(), g.FirstData())
    ensures UsedKept(g, a, c)
  {
    forall n: nat | g.Has(n)
      ensures ClusterOf(g, a, n) == ClusterOf(g, c, n)
    {
      ClusterIn(g, |a|, n);
      ClusterKept(g, a, c, n);
    }
  }

  lemma Same0(g: Geo, secs: seq<Sector>, chains: Chains)
    requires VolOk(g, secs, chains)
    ensures Changed(g, secs, chains, secs, chains, -1, -1)
  {
    hide DirOf, TableOf, Tidy, NameAt, FileData;
    Untouched(g, secs, chains, secs);
  }

  lemma FirstOnly(d: seq<Slot>, name: seq<byte>, s: int, t: int)
    requires IsFirst(d, name, s) && IsFirst(d, name, t)
    ensures s == t && s >= -1
  {
    hide Listed, Answers;
  }

  lemma RefusedName(g: Geo, secs: seq<Sector>, name: seq<byte>, size: u32, source: seq<byte>)
    requires g.Ok(|secs|) && IsShort(name, None)
    ensures Refused(g, secs, name, size, source)
  {
    hide IsShort;
  }

  lemma RefusedRun(g: Geo, secs: seq<Sector>, name: seq<byte>, size: u32, source: seq<byte>, short: Short)
    requires g.Ok(|secs|) && |short.name| == 11 && IsShort(name, Some(short))
      && NoRun(DirOf(g, secs), SlotsFor(name, short))
    ensures Refused(g, secs, name, size, source)
  {
    hide IsShort, NoRun;
  }

  lemma RefusedRoom(g: Geo, a: seq<Sector>, secs: seq<Sector>, name: seq<byte>, size: u32, source: seq<byte>)
    requires g.Ok(|secs|) && |a| == |secs| && TableOf(g, secs) == TableOf(g, a)
    requires !(size <= |source| && size <= |FreeSet(TableOf(g, a))| * Bpc(g))
    ensures Refused(g, secs, name, size, source)
  {
    hide IsShort, NoRun, TableOf, FreeSet;
  }

  lemma RunInside(d: seq<Slot>, f: nat, n: nat)
    requires IsRun(d, f, n)
    ensures f + n <= |d|
  {
  }

  /** The whole of a successful write, from the volume `a` before it to `b` after. */
  lemma Finish(g: Geo, a: seq<Sector>, ca: Chains, m: seq<Sector>, b: seq<Sector>, f: nat, run: seq<Slot>,
    name: seq<byte>,
               short: Short, cs: seq<nat>, first: nat, size: u32, mtime: u32, source: seq<byte>)
    requires VolOk(g, a, ca) && Mid(g, a, m, cs) && Filled(g, m, cs, source, size)
      && Elsewhere(m, b, g.FirstRoot(), g.FirstData())
    requires g.Ok(|m|) && g.Ok(|b|) && |short.name| == 11 && IsShort(name, Some(short)) && name != []
      && |name| <= MAX_LONG * CHARS
    requires RunFor(run, name, short) && IsRun(DirOf(g, a), f, |run|) && Added(DirOf(g, m), DirOf(g, b), f, run)
    requires var e := run[|run| - 1];
      FirstOf(e) == first < 0x1_0000 && SizeOf(e) == size && Stamped(e, mtime) && e[11] == ARCHIVE
    requires Heads(first, cs) && size <= |cs| * Bpc(g) < size + Bpc(g)
    ensures VolOk(g, b, ca[f + |run| - 1 := cs])
    ensures Changed(g, a, ca, b, ca[f + |run| - 1 := cs], -1, f + |run| - 1)
    ensures Stored(g, b, ca[f + |run| - 1 := cs], f + |run| - 1, name, size, mtime, source)
  {
    hide TableOf, DirOf, Tidy, IsShort, LongAt, Stamped, IsEntry, IsRun, Heads, FirstOf, SizeOf, FileKept, Sound,
      Others, NameAt, Grown, UsedKept, Added, Readable, CStr, Render;
    MidDir(g, a, m, b, cs, source, size);
    MidParts(g, a, m, cs);
    AddOk(g, a, ca, b, f, run, name, short, cs);
    AddedLast(DirOf(g, a), DirOf(g, b), f, run);
    if Exact(name) {
      ExactOne(name, short);
    }
  }

  lemma AddedLast(d: seq<Slot>, e: seq<Slot>, f: nat, run: seq<Slot>)
    requires Added(d, e, f, run) && run != []
    ensures f + |run| - 1 < |e| && e[f + |run| - 1] == run[|run| - 1]
  {
    assert e[f + (|run| - 1)] == run[|run| - 1];
  }

  /** A name has one 8.3 form. */
  lemma ExactOne(name: seq<byte>, short: Short)
    requires IsShort(name, Some(short)) && |short.name| == 11 && Exact(name)
    ensures SlotsFor(name, short) == 1
  {
    hide ShortAt, Render, CStr;
    var other: Short :| |other.name| == 11 && IsShort(name, Some(other))
      && CStr(Render(other.name, other.flags)) == name;
    var d :| IsLastDot(name, d) && ShortAt(name, d, Some(short));
    var e :| IsLastDot(name, e) && ShortAt(name, e, Some(other));
    assert d == e;
    SameShort(name, d, short, other);
  }

  lemma SameShort(name: seq<byte>, d: int, a: Short, b: Short)
    requires -1 <= d < |name| && ShortAt(name, d, Some(a)) && ShortAt(name, d, Some(b))
    ensures a == b
  {
  }

  const ARCHIVE := 0x20

  /** Entry `at` holds the file that was written. */
  ghost predicate Stored(g: Geo, secs: seq<Sector>, chains: Chains, at: int, name: seq<byte>, size: u32, mtime: u32,
    source: seq<byte>)
    requires VolOk(g, secs, chains)
  {
    && at in chains && at < |DirOf(g, secs)| && DirOf(g, secs)[at][11] == ARCHIVE && SizeOf(DirOf(g, secs)[at]) == size
    && Stamped(DirOf(g, secs)[at], mtime) && (Readable(name) || Exact(name) ==> NameAt(DirOf(g, secs), at) == name)
    && size <= |source| && size <= |FileData(g, secs, chains, at)| < size + Bpc(g)
    && FileData(g, secs, chains, at)[..size] == source[..size]
  }

  /** The entry's write time is `mtime` to the even second, or 1980 when that is earlier. */
  ghost predicate Stamped(e: Slot, mtime: u32) {
    && Calendar.MonthField(Rd16(e, 24)) <= 12
    && Calendar.Epoch(Rd16(e, 24), Rd16(e, 22)) == if mtime < Calendar.FAT_EPOCH then Calendar.FAT_EPOCH
      else mtime / 2 * 2
  }

  /** The 8.3 form shows the name exactly, so no long name is needed. */
  ghost predicate Exact(name: seq<byte>) {
    exists short: Short ::
      |short.name| == 11 && IsShort(name, Some(short)) && CStr(Render(short.name, short.flags)) == name
  }

  /** Why a write is refused: no name, no 8.3 form, no run of free slots, a short source, or no room. */
  ghost predicate Refused(g: Geo, secs: seq<Sector>, name: seq<byte>, size: u32, source: seq<byte>)
    requires g.Ok(|secs|)
  {
    || name == [] || IsShort(name, None) || size > |source| || size > |FreeSet(TableOf(g, secs))| * Bpc(g)
    || exists short: Short ::
      |short.name| == 11 && IsShort(name, Some(short)) && NoRun(DirOf(g, secs), SlotsFor(name, short))
  }

  /** fat_dirent for a file: name and case bits, times, first cluster, size. */
  method Dirent(short: Short, first: nat, size: u32, mtime: u32) returns (e: Slot)
    requires |short.name| == 11 && short.name[0] != 0 && short.name[0] != DELETED
    ensures IsEntry(e) && e[11] == ARCHIVE && e[..11] == short.name && e[12] == short.flags
    ensures FirstOf(e) == first % 0x1_0000 && SizeOf(e) == size && Stamped(e, mtime)
  {
    hide Calendar.Epoch, Calendar.IsDay, Calendar.PacksTime, Calendar.MonthLength, Rd16, Rd32, Le16, Le32;
    var date, time := Calendar.TimeEncode(mtime);
    if mtime < Calendar.FAT_EPOCH {
      Calendar.Earliest();
    } else {
      Calendar.Decodes(date, time, mtime);
    }
    var head := short.name + [ARCHIVE, short.flags, 0];
    var made := Le16(time) + Le16(date) + Le16(date) + Le16(0);
    var tail := Le16(time) + Le16(date) + Le16(first % 0x1_0000) + Le32(size);
    e := head + made + tail;
    assert e[..11] == short.name;
    assert e[22..24] == tail[0..2] == Le16(time) && e[24..26] == tail[2..4] == Le16(date);
    assert e[26..28] == tail[4..6] == Le16(first % 0x1_0000) && e[28..32] == tail[6..10] == Le32(size);
    ReadBack16(time, e, 22);
    ReadBack16(date, e, 24);
    ReadBack16(first % 0x1_0000, e, 26);
    ReadBack32(size, e, 28);
    assert e[0] == short.name[0] && e[11] == ARCHIVE && e[12] == short.flags;
  }

  lemma AddedNone(d: seq<Slot>, f: nat)
    requires f <= |d|
    ensures Added(d, d, f, [])
  {
  }

  lemma AddedSnoc(d: seq<Slot>, e: seq<Slot>, f: nat, run: seq<Slot>, x: Slot)
    requires Added(d, e, f, run) && f + |run| < |d|
    ensures |e| == |d| && Added(d, e[f + |run| := x], f, run + [x])
  {
  }

  lemma SpliceOne(s: seq<byte>, k: nat, b: byte)
    requires k < |s|
    ensures Splice(s, k, [b]) == s[k := b]
  {
  }

  lemma LinkSteps(t: Table, prev: nat, c: nat)
    requires prev < |t| && 2 <= c < |t|
    ensures prev == 0 ==> t[c := EOC % 0x1000] == Linked(t, prev, c)
    ensures prev != 0 ==> t[c := EOC % 0x1000][prev := c % 0x1000] == Linked(t, prev, c)
  {
  }

  lemma NotYet(t: Table, cs: seq<nat>, i: nat)
    requires IsChain(t, cs) && i < |cs|
    ensures 2 <= cs[i] < |t| && cs[i] !in cs[..i]
    ensures Zeroed(t, cs[..i])[cs[i]] == t[cs[i]]
    ensures if i + 1 < |cs| then t[cs[i]] == cs[i + 1] else !Follows(t[cs[i]])
  {
    forall j | 0 <= j < i
      ensures cs[j] != cs[i]
    {
      Acyclic(t, cs, j, i);
    }
  }

  lemma ZeroedSnoc(t: Table, cs: seq<nat>, i: nat)
    requires i < |cs| && forall j :: 0 <= j < |cs| ==> cs[j] < |t|
    ensures Zeroed(t, cs[..i])[cs[i] := FREE] == Zeroed(t, cs[..i + 1])
  {
    assert cs[..i + 1] == cs[..i] + [cs[i]];
  }
}

/** The root directory as a row of 32-byte slots: what files it lists under which names, and what
    adding or deleting one run of slots does to the rest. */
module FatDir {
  import opened Bytes
  import opened FatNames

  const DELETED := 0xE5

  predicate Vacant(e: Slot) {
    e[0] == 0 || e[0] == DELETED
  }

  predicate IsLong(e: Slot) {
    e[11] % 16 == 15
  }

  predicate IsLabel(e: Slot) {
    !IsLong(e) && e[11] / 8 % 2 == 1
  }

  /** The bit on the slot that opens a long name. */
  predicate Opens(e: Slot) {
    e[0] / 64 % 2 == 1
  }

  /** An entry proper: a file or a directory. */
  predicate IsEntry(e: Slot) {
    !Vacant(e) && !IsLong(e) && !IsLabel(e)
  }

  function FirstOf(e: Slot): u16 {
    Rd16(e, 26)
  }

  function SizeOf(e: Slot): u32 {
    Rd32(e, 28)
  }

  function ShortText(e: Slot): seq<byte> {
    CStr(Render(e[..11], e[12]))
  }

  // ----- what a scan makes of the slots

  /** The long name being assembled, carried past slot `e`. */
  ghost function Step(st: Maybe<Buffer>, e: Slot): Maybe<Buffer> {
    if Vacant(e) || !IsLong(e) then None
    else if Opens(e) then Gather(e, Blank())
    else if st.Some? then Gather(e, st.value)
    else None
  }

  /** The long name assembled before slot `i`. */
  ghost function StateAt(d: seq<Slot>, i: nat): Maybe<Buffer>
    requires i <= |d|
  {
    if i == 0 then None else Step(StateAt(d, i - 1), d[i - 1])
  }

  /** The directory goes on as far as slot `i`: a zero first byte ends it. */
  ghost predicate Reaches(d: seq<Slot>, i: nat) {
    i <= |d| && forall j :: 0 <= j < i ==> d[j][0] != 0
  }

  /** Slot `i` is listed. */
  ghost predicate Listed(d: seq<Slot>, i: nat) {
    i < |d| && Reaches(d, i) && IsEntry(d[i])
  }

  /** The name an entry is listed under: the long one where there is one, else the 8.3 one. */
  ghost function NameFor(st: Maybe<Buffer>, e: Slot): seq<byte> {
    if st.Some? && st.value[0] != 0 then CStr(st.value) else ShortText(e)
  }

  ghost function NameAt(d: seq<Slot>, i: nat): seq<byte>
    requires i < |d|
  {
    NameFor(StateAt(d, i), d[i])
  }

  /** An entry answers to its listed name and to its 8.3 name, in any case. */
  ghost predicate Answers(d: seq<Slot>, i: nat, name: seq<byte>)
    requires i < |d|
  {
    Matches(NameAt(d, i), ShortText(d[i]), name)
  }

  ghost predicate Matches(long: seq<byte>, short: seq<byte>, name: seq<byte>) {
    Same(long, name) || Same(short, name)
  }

  // ----- well-formed directories

  /** Once ended a directory stays ended, and a long name runs unbroken into the entry it names. */
  ghost predicate Tidy(d: seq<Slot>) {
    && (forall i, j :: 0 <= i < j < |d| && d[i][0] == 0 ==> d[j][0] == 0)
    && (forall i :: 0 <= i < |d| && !Vacant(d[i]) && IsLong(d[i]) ==> i + 1 < |d| && Continues(d[i + 1]))
  }

  ghost predicate Continues(e: Slot) {
    !Vacant(e) && !IsLabel(e) && (IsLong(e) ==> !Opens(e))
  }

  lemma ListedIs(d: seq<Slot>, i: nat)
    requires Tidy(d) && i < |d|
    ensures Listed(d, i) <==> IsEntry(d[i])
  {
    if IsEntry(d[i]) {
      forall j | 0 <= j < i
        ensures d[j][0] != 0
      {
      }
    }
  }

  /** Directories that agree before slot `i` are in the same state there. */
  lemma {:induction false} SamePrefix(d: seq<Slot>, e: seq<Slot>, i: nat)
    requires i <= |d| && i <= |e| && d[..i] == e[..i]
    ensures StateAt(d, i) == StateAt(e, i)
  {
    if i > 0 {
      assert d[..i - 1] == d[..i][..i - 1] && e[..i - 1] == e[..i][..i - 1];
      assert d[i - 1] == d[..i][i - 1] && e[i - 1] == e[..i][i - 1];
      SamePrefix(d, e, i - 1);
    }
  }

  /** Once two scans are in the same state and see the same slots, they stay in the same state. */
  lemma {:induction false} SameOnward(d: seq<Slot>, e: seq<Slot>, from: nat, i: nat)
    requires from <= i <= |d| == |e| && StateAt(d, from) == StateAt(e, from)
    requires forall j :: from <= j < i ==> d[j] == e[j]
    ensures StateAt(d, i) == StateAt(e, i)
    decreases i
  {
    if from < i {
      SameOnward(d, e, from, i - 1);
    }
  }

  /** Before a vacant slot no long name is pending in a tidy directory. */
  lemma NoPending(d: seq<Slot>, i: nat)
    requires Tidy(d) && i < |d| && Vacant(d[i])
    ensures StateAt(d, i) == None
  {
  }

  // ----- replacing a run of slots

  /** `d` and `e` differ only in slots `[lo, hi)`. */
  ghost predicate DifferIn(d: seq<Slot>, e: seq<Slot>, lo: nat, hi: nat) {
    |d| == |e| && forall j :: 0 <= j < |d| && !(lo <= j < hi) ==> d[j] == e[j]
  }

  /** A slot outside a replaced run is listed as before, under the same name, if both directories leave
      the run with no name pending. */
  lemma OutsideSame(d: seq<Slot>, e: seq<Slot>, lo: nat, hi: nat, i: nat)
    requires DifferIn(d, e, lo, hi) && lo <= hi <= |d| && i < |d| && !(lo <= i < hi)
    requires StateAt(d, hi) == None && StateAt(e, hi) == None
    ensures NameAt(d, i) == NameAt(e, i)
  {
    if i < lo {
      assert d[..i] == e[..i];
      SamePrefix(d, e, i);
    } else {
      SameOnward(d, e, hi, i);
    }
  }

  /** Two directories list the same entries outside `[lo, hi)`. */
  ghost predicate SameOutside(d: seq<Slot>, e: seq<Slot>, lo: nat, hi: nat) {
    && |d| == |e|
    && forall i :: 0 <= i < |d| && !(lo <= i < hi) ==>
      (Listed(d, i) <==> Listed(e, i)) && d[i] == e[i] && NameAt(d, i) == NameAt(e, i)
  }

  lemma Outside(d: seq<Slot>, e: seq<Slot>, lo: nat, hi: nat)
    requires Tidy(d) && Tidy(e) && DifferIn(d, e, lo, hi) && lo <= hi <= |d|
    requires StateAt(d, hi) == None && StateAt(e, hi) == None
    ensures SameOutside(d, e, lo, hi)
  {
    hide Tidy, NameAt, Listed, StateAt;
    forall i | 0 <= i < |d| && !(lo <= i < hi)
      ensures (Listed(d, i) <==> Listed(e, i)) && d[i] == e[i] && NameAt(d, i) == NameAt(e, i)
    {
      OutsideSame(d, e, lo, hi, i);
      ListedIs(d, i);
      ListedIs(e, i);
    }
  }

  // ----- deleting

  /** Where the run that ends in entry `s` starts: back over long-name slots as far as one that opens a
      name (a deleted slot's 0xE5 carries that bit too). */
  ghost function RunStart(d: seq<Slot>, s: nat): (k: nat)
    requires s < |d|
    ensures k <= s
    ensures forall j :: k <= j < s ==> IsLong(d[j])
    ensures k == 0 || !IsLong(d[k - 1]) || (k < s && Opens(d[k]))
  {
    if s == 0 || !IsLong(d[s - 1]) then s
    else if Opens(d[s - 1]) then s - 1
    else RunStart(d, s - 1)
  }

  /** `e` is `d` with slots `[k, s]` marked deleted. */
  ghost predicate Deleted(d: seq<Slot>, e: seq<Slot>, k: nat, s: nat) {
    && k <= s < |d| && DifferIn(d, e, k, s + 1)
    && forall j :: k <= j <= s ==> e[j] == d[j][0 := DELETED]
  }

  /** Deleting an entry leaves every other one as it was. */
  lemma DeleteOne(d: seq<Slot>, e: seq<Slot>, s: nat)
    requires Tidy(d) && Listed(d, s) && Deleted(d, e, RunStart(d, s), s)
    ensures Tidy(e) && SameOutside(d, e, RunStart(d, s), s + 1)
    ensures forall j :: RunStart(d, s) <= j <= s ==> Vacant(e[j])
    ensures forall j :: RunStart(d, s) <= j < s ==> !Listed(d, j)
  {
    var k := RunStart(d, s);
    forall i, j | 0 <= i < j < |e| && e[i][0] == 0
      ensures e[j][0] == 0
    {
    }
    forall i | 0 <= i < |e| && !Vacant(e[i]) && IsLong(e[i])
      ensures i + 1 < |e| && Continues(e[i + 1])
    {
      assert d[i] == e[i];
      assert Continues(d[i + 1]);
    }
    assert StateAt(d, s + 1) == Step(StateAt(d, s), d[s]);
    assert StateAt(e, s + 1) == Step(StateAt(e, s), e[s]);
    Outside(d, e, k, s + 1);
  }

  // ----- adding

  /** `n` vacant slots from `f` on, where the directory has not ended before. */
  ghost predicate IsRun(d: seq<Slot>, f: nat, n: nat) {
    f + n <= |d| && Reaches(d, f) && (forall j :: f <= j < f + n ==> Vacant(d[j]))
  }

  /** `run` is what is written for `name`: long-name slots counting down, then the entry. */
  ghost predicate RunFor(run: seq<Slot>, name: seq<byte>, short: Short)
    requires |short.name| == 11
  {
    && |run| == SlotsFor(name, short) && IsEntry(run[|run| - 1])
    && run[|run| - 1][..11] == short.name && run[|run| - 1][12] == short.flags
    && forall i :: 0 <= i < |run| - 1 ==> LongAt(run[i], i, |run| - 1, name, short)
  }

  /** `e` is the `i`-th of `n` long-name slots. */
  ghost predicate LongAt(e: Slot, i: nat, n: nat, name: seq<byte>, short: Short)
    requires i < n
  {
    IsLfn(e, name, n - i, i == 0, Checksum(short.name))
  }

  /** Slots a name takes: one when its 8.3 form shows it exactly, else one more per thirteen characters. */
  function SlotsFor(name: seq<byte>, short: Short): (n: nat)
    requires |short.name| == 11
    ensures 1 <= n
  {
    if name == CStr(Render(short.name, short.flags)) then 1 else 1 + (|name| + CHARS - 1) / CHARS
  }

  /** `e` is `d` with `run` written at `f`. */
  ghost predicate Added(d: seq<Slot>, e: seq<Slot>, f: nat, run: seq<Slot>) {
    && f + |run| <= |d| && DifferIn(d, e, f, f + |run|)
    && forall i :: 0 <= i < |run| ==> e[f + i] == run[i]
  }

  const MAX_LONG := 63

  /** Long-name slots of a run are in use, and only the first opens a name. */
  lemma LongSlot(e: Slot, i: nat, n: nat, name: seq<byte>, short: Short)
    requires i < n <= MAX_LONG && LongAt(e, i, n, name, short)
    ensures !Vacant(e) && IsLong(e) && (Opens(e) <==> i == 0)
  {
  }

  /** After `i` slots of the run its last characters are in. */
  lemma {:induction false} RunState(e: seq<Slot>, f: nat, run: seq<Slot>, name: seq<byte>, short: Short, i: nat)
    requires |short.name| == 11 && RunFor(run, name, short) && Readable(name)
    requires f + |run| <= |e| && forall j :: 0 <= j < |run| ==> e[f + j] == run[j]
    requires 1 <= i < |run|
    ensures StateAt(e, f + i) == Some(Partial(name, (|run| - 1 - i) * CHARS))
  {
    var n := |run| - 1;
    assert n == (|name| + CHARS - 1) / CHARS <= 5;
    assert LongAt(run[i - 1], i - 1, n, name, short);
    LongSlot(run[i - 1], i - 1, n, name, short);
    if i == 1 {
      assert Partial(name, n * CHARS) == Blank();
    } else {
      RunState(e, f, run, name, short, i - 1);
    }
    GatherSlot(run[i - 1], name, n - (i - 1), i == 1, Checksum(short.name));
    assert e[f + (i - 1)] == run[i - 1];
  }

  /** A run ends with no name pending, in both directories. */
  lemma RunCloses(d: seq<Slot>, e: seq<Slot>, f: nat, run: seq<Slot>)
    requires run != [] && IsEntry(run[|run| - 1]) && IsRun(d, f, |run|) && Added(d, e, f, run)
    ensures StateAt(d, f + |run|) == None && StateAt(e, f + |run|) == None
  {
    var l := f + |run| - 1;
    assert e[l] == run[|run| - 1] && Vacant(d[l]);
    assert StateAt(d, l + 1) == Step(StateAt(d, l), d[l]) && StateAt(e, l + 1) == Step(StateAt(e, l), e[l]);
  }

  lemma TidyAdded(d: seq<Slot>, e: seq<Slot>, f: nat, run: seq<Slot>, name: seq<byte>, short: Short)
    requires Tidy(d) && |short.name| == 11 && RunFor(run, name, short) && |run| <= MAX_LONG + 1
    requires IsRun(d, f, |run|) && Added(d, e, f, run)
    ensures Tidy(e) && forall j :: f <= j < f + |run| - 1 ==> IsLong(e[j])
  {
    hide LongAt, SlotsFor;
    forall i | 0 <= i < |run| - 1
      ensures e[f + i] == run[i] && !Vacant(run[i]) && IsLong(run[i]) && (Opens(run[i]) <==> i == 0)
    {
      LongSlot(run[i], i, |run| - 1, name, short);
    }
    var l := f + |run| - 1;
    assert e[l] == run[|run| - 1];
    forall j | f <= j <= l
      ensures !Vacant(e[j]) && (if j < l then IsLong(e[j]) && (Opens(e[j]) <==> j == f) else IsEntry(e[j]))
    {
      assert e[f + (j - f)] == run[j - f];
    }
    hide RunFor, Vacant, IsLong, Opens, IsLabel;
    TidyInside(d, e, f, l);
  }

  lemma TidyInside(d: seq<Slot>, e: seq<Slot>, f: nat, l: nat)
    requires Tidy(d) && f <= l && IsRun(d, f, l + 1 - f) && DifferIn(d, e, f, l + 1)
    requires forall j :: f <= j < l ==> !Vacant(e[j]) && IsLong(e[j]) && (Opens(e[j]) <==> j == f)
    requires IsEntry(e[l])
    ensures Tidy(e)
  {
    hide IsLong, Opens;
    forall i, j | 0 <= i < j < |e| && e[i][0] == 0
      ensures e[j][0] == 0
    {
      assert d[i][0] == 0;
    }
    forall i | 0 <= i < |e| && !Vacant(e[i]) && IsLong(e[i])
      ensures i + 1 < |e| && Continues(e[i + 1])
    {
      if !(f <= i <= l) {
        assert Continues(d[i + 1]);
      }
    }
  }

  /** The entry at the end of a run is listed under the name the run was written for. */
  lemma NameBack(d: seq<Slot>, e: seq<Slot>, f: nat, run: seq<Slot>, name: seq<byte>, short: Short)
    requires Tidy(d) && |short.name| == 11 && RunFor(run, name, short)
    requires IsRun(d, f, |run|) && Added(d, e, f, run) && name != [] && (Readable(name) || |run| == 1)
    ensures NameAt(e, f + |run| - 1) == name
  {
    hide Listed, Vacant, IsLong, Opens, IsLabel, Step, LongAt;
    assert e[f + (|run| - 1)] == run[|run| - 1];
    if |run| == 1 {
      NoPending(d, f);
      assert d[..f] == e[..f];
      SamePrefix(d, e, f);
    } else {
      RunState(e, f, run, name, short, |run| - 1);
      Complete(name);
    }
  }

  /** Writing a run into vacant slots adds one entry and changes no other; a name that can be read back
      is what the new entry is listed under. */
  lemma AddOne(d: seq<Slot>, e: seq<Slot>, f: nat, run: seq<Slot>, name: seq<byte>, short: Short)
    requires Tidy(d) && |short.name| == 11 && RunFor(run, name, short) && |run| <= MAX_LONG + 1
    requires IsRun(d, f, |run|) && Added(d, e, f, run) && name != []
    ensures Tidy(e) && SameOutside(d, e, f, f + |run|)
    ensures Listed(e, f + |run| - 1) && (Readable(name) || |run| == 1 ==> NameAt(e, f + |run| - 1) == name)
    ensures forall j :: f <= j < f + |run| ==> !Listed(d, j)
    ensures forall j :: f <= j < f + |run| - 1 ==> !Listed(e, j)
  {
    hide StateAt, LongAt, NameAt, SlotsFor, CStr, Readable;
    TidyAdded(d, e, f, run, name, short);
    RunCloses(d, e, f, run);
    Outside(d, e, f, f + |run|);
    var l := f + |run| - 1;
    assert e[l] == run[|run| - 1];
    ListedIs(e, l);
    forall j | f <= j < f + |run|
      ensures !Listed(d, j)
    {
    }
    if Readable(name) || |run| == 1 {
      NameBack(d, e, f, run, name, short);
    }
  }
}

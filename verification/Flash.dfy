/** The flash chip behind a package slot: erase sets a range to 0xFF, program writes a range that
    was erased and not programmed since, and either may fail part-way. */
module Flash {
  import opened Bytes

  const ERASE := 4096
  const PROG := 256

  datatype Op = Erase(off: nat, len: nat) | Program(off: nat, data: seq<byte>)
  {
    function Len(): nat {
      if Erase? then len else |data|
    }

    predicate Within(lo: int, hi: int) {
      lo <= off && off + Len() <= hi
    }

    /** The bytes the operation leaves in its range. */
    function Bytes(): (s: seq<byte>)
      ensures |s| == Len()
    {
      if Erase? then Pad(len) else data
    }
  }

  function Apply(mem: seq<byte>, op: Op): (m: seq<byte>)
    requires op.Within(0, |mem|)
    ensures |m| == |mem|
  {
    Splice(mem, op.off, op.Bytes())
  }

  /** `m` may differ from `mem` only inside the range of `op`: what an interrupted or failed
      operation can leave behind. */
  ghost predicate Torn(mem: seq<byte>, op: Op, m: seq<byte>) {
    |m| == |mem| && forall i :: 0 <= i < |mem| && !(op.off <= i < op.off + op.Len()) ==> m[i] == mem[i]
  }

  ghost predicate AllWithin(ops: seq<Op>, lo: int, hi: int) {
    forall op :: op in ops ==> op.Within(lo, hi)
  }

  function Run(mem: seq<byte>, ops: seq<Op>): (m: seq<byte>)
    requires AllWithin(ops, 0, |mem|)
    ensures |m| == |mem|
  {
    if ops == [] then mem else Apply(Run(mem, ops[..|ops| - 1]), ops[|ops| - 1])
  }

  /** An operation elsewhere leaves a run of bytes where it was. */
  lemma ApplyKeeps(mem: seq<byte>, op: Op, off: int, b: seq<byte>)
    requires op.Within(0, |mem|) && At(mem, off, b)
    requires off + |b| <= op.off || op.off + op.Len() <= off
    ensures At(Apply(mem, op), off, b)
  {
    assert Apply(mem, op)[off..off + |b|] == mem[off..off + |b|];
  }

  lemma ApplyIsTorn(mem: seq<byte>, op: Op)
    requires op.Within(0, |mem|)
    ensures Torn(mem, op, Apply(mem, op))
  {
  }

  /** What a run of operations leaves, where at most the last one failed. */
  ghost predicate Left(before: seq<byte>, ops: seq<Op>, failed: bool, m: seq<byte>) {
    && AllWithin(ops, 0, |before|) && |m| == |before|
    && if failed then ops != [] && Torn(Run(before, ops[..|ops| - 1]), ops[|ops| - 1], m) else m == Run(before, ops)
  }

  /** One more operation after a run that went well. */
  lemma LeftSnoc(before: seq<byte>, ops: seq<Op>, op: Op, ok: bool, m: seq<byte>)
    requires AllWithin(ops, 0, |before|) && op.Within(0, |before|)
    requires if ok then m == Apply(Run(before, ops), op) else Torn(Run(before, ops), op, m)
    ensures Left(before, ops + [op], !ok, m)
  {
    RunSnoc(before, ops, op);
    assert (ops + [op])[..|ops|] == ops;
    hide Run;
  }

  lemma LeftSound(before: seq<byte>, ops: seq<Op>, m: seq<byte>)
    requires Left(before, ops, false, m)
    ensures AllWithin(ops, 0, |before|) && m == Run(before, ops)
  {
  }

  lemma ApplyOutside(mem: seq<byte>, op: Op)
    requires op.Within(0, |mem|)
    ensures forall i :: 0 <= i < |mem| && !(op.off <= i < op.off + op.Len()) ==> Apply(mem, op)[i] == mem[i]
  {
  }

  lemma RunNil(mem: seq<byte>)
    ensures Run(mem, []) == mem
  {
  }

  lemma RunSnoc(mem: seq<byte>, ops: seq<Op>, op: Op)
    requires AllWithin(ops, 0, |mem|) && op.Within(0, |mem|)
    ensures AllWithin(ops + [op], 0, |mem|) && Run(mem, ops + [op]) == Apply(Run(mem, ops), op)
  {
    assert (ops + [op])[..|ops|] == ops;
  }

  class Chip {
    var mem: seq<byte>
    /** Which bytes are erased and have not been programmed since. */
    ghost var clean: seq<bool>
    /** Every operation attempted so far. */
    ghost var log: seq<Op>
    /** How many of them failed. */
    ghost var faults: nat

    ghost predicate Valid()
      reads this
    {
      |clean| == |mem| && forall i :: 0 <= i < |mem| && clean[i] ==> mem[i] == ERASED
    }

    ghost predicate Clean(lo: int, hi: int)
      reads this
    {
      0 <= lo && hi <= |clean| && forall i :: lo <= i < hi ==> clean[i]
    }

    method Erase(off: nat, len: nat) returns (ok: bool)
      requires Valid()
      requires off % ERASE == 0 && len % ERASE == 0 && off + len <= |mem|
      modifies this
      ensures Valid() && |mem| == old(|mem|)
      ensures log == old(log) + [Op.Erase(off, len)]
      ensures faults == old(faults) + if ok then 0 else 1
      ensures forall i :: 0 <= i < |mem| && !(off <= i < off + len) ==> clean[i] == old(clean[i])
      ensures ok ==> mem == Apply(old(mem), Op.Erase(off, len)) && Clean(off, off + len)
      ensures !ok ==> Torn(old(mem), Op.Erase(off, len), mem)
    {
      ok := *;
      if ok {
        mem := Splice(mem, off, Pad(len));
      } else {
        var junk: seq<byte> := *;
        if |junk| == len {
          mem := Splice(mem, off, junk);
        }
        faults := faults + 1;
      }
      clean := clean[..off] + seq(len, _ => ok) + clean[off + len..];
      log := log + [Op.Erase(off, len)];
    }

    method Program(off: nat, data: seq<byte>) returns (ok: bool)
      requires Valid()
      requires off % PROG == 0 && |data| % PROG == 0 && off + |data| <= |mem|
      requires Clean(off, off + |data|)
      modifies this
      ensures Valid() && |mem| == old(|mem|)
      ensures log == old(log) + [Op.Program(off, data)]
      ensures faults == old(faults) + if ok then 0 else 1
      ensures forall i :: 0 <= i < |mem| && !(off <= i < off + |data|) ==> clean[i] == old(clean[i])
      ensures ok ==> mem == Apply(old(mem), Op.Program(off, data))
      ensures !ok ==> Torn(old(mem), Op.Program(off, data), mem)
    {
      ok := *;
      if ok {
        mem := Splice(mem, off, data);
      } else {
        var junk: seq<byte> := *;
        if |junk| == |data| {
          mem := Splice(mem, off, junk);
        }
        faults := faults + 1;
      }
      clean := clean[..off] + seq(|data|, _ => false) + clean[off + |data|..];
      log := log + [Op.Program(off, data)];
    }
  }
}

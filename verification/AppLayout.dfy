/** Where app_load puts things: sections inside their block, the GOT at the base of the writable one,
    and what a block holds apart from the sections that were relocated. */
module AppLayout {
  import opened Bytes
  import opened Elf
  import opened ElfLayout
  import opened PicLayout
  import opened Sets

  /** Offset of section `i` from the start of its own block. */
  function SecAt(o: Object, i: nat): int
    requires i < |o.sections|
  {
    if o.sections[i].write then OffOf(o.sections, true, TextEnd(o.sections) + GotBytes(o), i) - TextEnd(o.sections)
    else OffOf(o.sections, false, 0, i)
  }

  function BlockSize(o: Object, w: bool): int {
    if w then Total(o.sections, GotBytes(o)) - TextEnd(o.sections) else TextEnd(o.sections)
  }

  /** The GOT takes the first bytes of the writable block. */
  function Reserved(o: Object, w: bool): nat {
    if w then GotBytes(o) else 0
  }

  /** Every loaded section lies inside its block, past what is reserved. */
  lemma InBlock(o: Object, i: nat)
    requires i < |o.sections| && o.sections[i].Placed()
    ensures Reserved(o, o.sections[i].write) <= SecAt(o, i)
    ensures SecAt(o, i) + o.sections[i].size <= BlockSize(o, o.sections[i].write)
  {
    hide RoundUp, EndOf, GotBytes;
    if o.sections[i].write {
      OffBounds(o.sections, true, TextEnd(o.sections) + GotBytes(o), i);
    } else {
      OffBounds(o.sections, false, 0, i);
    }
  }

  /** Loaded sections of one block never overlap. */
  lemma Disjoint(o: Object, i: nat, j: nat)
    requires i < |o.sections| && j < |o.sections| && i != j
    requires o.sections[i].Placed() && o.sections[j].Placed() && o.sections[i].write == o.sections[j].write
    ensures SecAt(o, i) + o.sections[i].size <= SecAt(o, j) || SecAt(o, j) + o.sections[j].size <= SecAt(o, i)
  {
    hide RoundUp, EndOf, GotBytes, OffOf;
    var w := o.sections[i].write;
    var start := if w then TextEnd(o.sections) + GotBytes(o) else 0;
    if i < j {
      OffDisjoint(o.sections, w, start, i, j);
    } else {
      OffDisjoint(o.sections, w, start, j, i);
    }
  }

  /** On 32-aligned blocks every section is aligned to the smaller of its own alignment and 32. */
  lemma Aligned(o: Object, i: nat, base: nat)
    requires LaidOut(o.sections, GotBytes(o)) && i < |o.sections| && o.sections[i].Placed() && base % BLOCK == 0
    ensures var a := AlignOf(o.sections[i]);
      0 <= SecAt(o, i) && (base + SecAt(o, i)) % (if a < BLOCK then a else BLOCK) == 0
  {
    hide EndOf, RoundUp, GotBytes;
    var s := o.sections[i];
    InBlock(o, i);
    if s.write {
      OffBounds(o.sections, true, TextEnd(o.sections) + GotBytes(o), i);
      AbsoluteAlignment(base, TextEnd(o.sections), OffOf(o.sections, true, TextEnd(o.sections) + GotBytes(o), i), s);
    } else {
      OffBounds(o.sections, false, 0, i);
      AbsoluteAlignment(base, 0, OffOf(o.sections, false, 0, i), s);
    }
  }

  // ----- containment

  function Content(s: Section): seq<byte> {
    if s.kind.NoBits? then seq(s.size, _ => 0) else s.bytes
  }

  ghost predicate Owned(o: Object, w: bool, x: int) {
    exists i :: 0 <= i < |o.sections| && InHalf(o.sections[i], w) && SecAt(o, i) <= x < SecAt(o, i) + o.sections[i].size
  }

  /** A block holds every section outside `touched` as loaded, and outside sections and GOT whatever
      was there when it was allocated. */
  ghost predicate Contained(o: Object, w: bool, heap: seq<byte>, mem: seq<byte>, touched: set<nat>) {
    && |mem| == BlockSize(o, w) == |heap|
    && (forall i :: 0 <= i < |o.sections| && InHalf(o.sections[i], w) && i !in touched ==>
      At(mem, SecAt(o, i), Content(o.sections[i])))
    && (forall x :: Reserved(o, w) <= x < |mem| && !Owned(o, w, x) ==> mem[x] == heap[x])
  }

  /** A write inside section `t` keeps the rest of the block as it was. */
  lemma WriteContained(o: Object, w: bool, heap: seq<byte>, mem: seq<byte>, touched: set<nat>, t: nat, off: nat,
    d: seq<byte>)
    requires o.Read() && Contained(o, w, heap, mem, touched) && t < |o.sections| && InHalf(o.sections[t], w)
    requires off + |d| <= o.sections[t].size
    ensures 0 <= SecAt(o, t) && SecAt(o, t) + o.sections[t].size <= |mem|
    ensures Contained(o, w, heap, Splice(mem, SecAt(o, t) + off, d), touched + {t})
  {
    hide SecAt, BlockSize, Splice, GotBytes;
    InBlock(o, t);
    var r := Splice(mem, SecAt(o, t) + off, d);
    forall i | 0 <= i < |o.sections| && InHalf(o.sections[i], w) && i !in touched + {t}
      ensures At(r, SecAt(o, i), Content(o.sections[i]))
    {
      Disjoint(o, i, t);
      InBlock(o, i);
      SpliceMiss(mem, SecAt(o, t) + off, d, SecAt(o, i), SecAt(o, i) + o.sections[i].size);
    }
    forall x | Reserved(o, w) <= x < |r| && !Owned(o, w, x)
      ensures r[x] == heap[x]
    {
      assert !(SecAt(o, t) <= x < SecAt(o, t) + o.sections[t].size);
    }
  }

  lemma Widen(o: Object, w: bool, heap: seq<byte>, mem: seq<byte>, touched: set<nat>, more: set<nat>)
    requires Contained(o, w, heap, mem, touched) && touched <= more
    ensures Contained(o, w, heap, mem, more)
  {
    hide SecAt, BlockSize, GotBytes;
  }

  lemma Elsewhere(o: Object, w: bool, heap: seq<byte>, mem: seq<byte>, touched: set<nat>, t: nat)
    requires Contained(o, w, heap, mem, touched) && t < |o.sections| && !InHalf(o.sections[t], w)
    ensures Contained(o, w, heap, mem, touched - {t})
  {
    hide SecAt, BlockSize, GotBytes;
  }

  lemma Narrow(o: Object, w: bool, heap: seq<byte>, mem: seq<byte>, touched: set<nat>)
    requires Contained(o, w, heap, mem, touched) && forall i :: 0 <= i < |o.sections| && o.IsPlaced(i) ==> i !in touched
    ensures Contained(o, w, heap, mem, {})
  {
    hide SecAt, BlockSize, GotBytes;
  }

  /** So does a write into the GOT. */
  lemma GotContained(o: Object, heap: seq<byte>, mem: seq<byte>, touched: set<nat>, off: nat, d: seq<byte>)
    requires o.Read() && Contained(o, true, heap, mem, touched) && off + |d| <= GotBytes(o) <= |mem|
    ensures Contained(o, true, heap, Splice(mem, off, d), touched)
  {
    hide SecAt, BlockSize, Splice, GotBytes;
    forall i | 0 <= i < |o.sections| && InHalf(o.sections[i], true) && i !in touched
      ensures At(Splice(mem, off, d), SecAt(o, i), Content(o.sections[i]))
    {
      InBlock(o, i);
      SpliceMiss(mem, off, d, SecAt(o, i), SecAt(o, i) + o.sections[i].size);
    }
    forall x | GotBytes(o) <= x < |mem| && !Owned(o, true, x)
      ensures Splice(mem, off, d)[x] == heap[x]
    {
    }
  }

  /** A fresh block, nothing loaded yet. */
  lemma FreshContained(o: Object, w: bool, heap: seq<byte>)
    requires |heap| == BlockSize(o, w)
    ensures Contained(o, w, heap, heap, Below(|o.sections|))
  {
    hide SecAt, BlockSize, GotBytes;
  }

  /** Loading a section makes it hold its content. */
  lemma LoadContained(o: Object, w: bool, heap: seq<byte>, mem: seq<byte>, touched: set<nat>, t: nat)
    requires o.Read() && Contained(o, w, heap, mem, touched) && t < |o.sections| && InHalf(o.sections[t], w)
    ensures |Content(o.sections[t])| == o.sections[t].size
    ensures 0 <= SecAt(o, t) && SecAt(o, t) + o.sections[t].size <= |mem|
    ensures Contained(o, w, heap, Splice(mem, SecAt(o, t), Content(o.sections[t])), touched - {t})
  {
    hide SecAt, BlockSize, GotBytes;
    var d := Content(o.sections[t]);
    WriteContained(o, w, heap, mem, touched, t, 0, d);
    assert At(Splice(mem, SecAt(o, t), d), SecAt(o, t), d);
  }
}

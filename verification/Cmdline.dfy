/** The shell's line parser: words split in place, operators found outside quotes. */
module Cmdline {
  import opened Bytes

  const SPACE := 0x20
  const QUOTE := 0x22
  const TICK := 0x27
  const SEMI := 0x3B
  const AMP := 0x26
  const BAR := 0x7C
  const GT := 0x3E

  predicate IsQuote(c: byte) {
    c == QUOTE || c == TICK
  }

  lemma Characters()
    ensures SPACE as char == ' ' && QUOTE as char == '"' && TICK as char == '\'' && SEMI as char == ';'
    ensures AMP as char == '&' && BAR as char == '|' && GT as char == '>'
  {
  }

  /** A line's characters: no terminator among them. */
  ghost predicate IsText(s: seq<byte>) {
    forall i :: 0 <= i < |s| ==> s[i] != 0
  }

  // ----- splitting

  /** The rest of a word, inside quote `q` or (zero) outside: its text, and how much of the line it took. */
  function Word(s: seq<byte>, q: byte): (r: (seq<byte>, nat))
    ensures r.1 <= |s| && |r.0| <= r.1
    ensures r.1 < |s| ==> s[r.1] == SPACE
  {
    if s == [] || (q == 0 && s[0] == SPACE) then ([], 0)
    else if q != 0 && s[0] == q then var t := Word(s[1..], 0); (t.0, t.1 + 1)
    else var t := Word(s[1..], q); ([s[0]] + t.0, t.1 + 1)
  }

  /** The word a line starts with: a leading quote is not part of it. */
  function First(s: seq<byte>): (r: (seq<byte>, nat))
    requires s != [] && s[0] != SPACE
    ensures 1 <= r.1 <= |s| && |r.0| <= r.1 && (r.1 < |s| ==> s[r.1] == SPACE)
  {
    if IsQuote(s[0]) then var t := Word(s[1..], s[0]); (t.0, t.1 + 1) else Word(s, 0)
  }

  /** Up to `max` words. */
  function Tokens(s: seq<byte>, max: nat): (r: seq<seq<byte>>)
    ensures |r| <= max
    decreases |s|
  {
    if s == [] || max == 0 then []
    else if s[0] == SPACE then Tokens(s[1..], max)
    else
      var f := First(s);
      [f.0] + Tokens(if f.1 < |s| then s[f.1 + 1..] else [], max - 1)
  }

  /** Memory at `p` holds the C string `t`. */
  ghost predicate Holds(m: seq<byte>, p: nat, t: seq<byte>) {
    p + |t| < |m| && m[p..p + |t|] == t && m[p + |t|] == 0
  }

  /** The words found so far are in place below `end`. */
  ghost predicate AllHeld(m: seq<byte>, argv: seq<nat>, toks: seq<seq<byte>>, end: nat) {
    |argv| == |toks| && forall k :: 0 <= k < |argv| ==> Holds(m, argv[k], toks[k]) && argv[k] + |toks[k]| < end
  }

  lemma HeldOn(m: seq<byte>, u: seq<byte>, argv: seq<nat>, toks: seq<seq<byte>>, end: nat)
    requires AllHeld(m, argv, toks, end) && |m| == |u| && end <= |m| && m[..end] == u[..end]
    ensures AllHeld(u, argv, toks, end)
  {
    forall k | 0 <= k < |argv|
      ensures Holds(u, argv[k], toks[k])
    {
      var p, n := argv[k], |toks[k]|;
      assert Holds(m, p, toks[k]);
      assert u[p..p + n] == u[..end][p..p + n] && m[p..p + n] == m[..end][p..p + n];
      assert u[p + n] == u[..end][p + n] && m[p + n] == m[..end][p + n];
    }
  }

  /** cmdline_split_args: quotes are removed as each word is copied down over itself. The write position never
      passes the read position, so what is still to be read is intact. */
  method SplitArgs(line: array<byte>, max: nat) returns (argv: seq<nat>)
    requires line.Length >= 1 && line[line.Length - 1] == 0 && IsText(line[..line.Length - 1])
    modifies line
    ensures AllHeld(line[..], argv, Tokens(old(line[..line.Length - 1]), max), line.Length)
  {
    hide Split, Tokens, First, AllHeld, Holds, IsText;
    var n := line.Length - 1;
    ghost var s := line[..n];
    ghost var toks := [];
    argv := [];
    var r: nat := 0;
    SplitStart(line[..], s, max);
    while line[r] != 0 && |argv| < max
      invariant r <= n && |argv| <= max && Split(line[..], s, argv, toks, r, max)
      decreases n - r
    {
      SplitParts(line[..], s, argv, toks, r, max);
      ghost var r0 := r;
      r := SkipSpaces(line, r, s, max - |argv|);
      SplitSkip(line[..], s, argv, toks, r0, r, max);
      if line[r] == 0 {
        break;
      }
      ghost var m := line[..];
      var next := CopyWord(line, r, s);
      SplitWord(m, line[..], s, argv, toks, r, next, max);
      argv := argv + [r];
      toks := toks + [First(s[r..]).0];
      r := next;
    }
    SplitDone(line[..], s, argv, toks, r, max);
  }

  /** The splitter's state: words in place below `r`, the line from `r` on still to be read. */
  ghost predicate Split(m: seq<byte>, s: seq<byte>, argv: seq<nat>, toks: seq<seq<byte>>, r: nat, max: nat) {
    && IsText(s) && r <= |s| && |m| == |s| + 1 && m[r..|s|] == s[r..] && m[|s|] == 0 && |argv| <= max
    && AllHeld(m, argv, toks, if r < |s| then r else |s| + 1)
    && toks + Tokens(s[r..], max - |argv|) == Tokens(s, max)
  }

  lemma SplitStart(m: seq<byte>, s: seq<byte>, max: nat)
    requires IsText(s) && |m| == |s| + 1 && m[..|s|] == s && m[|s|] == 0
    ensures Split(m, s, [], [], 0, max)
  {
    assert s[0..] == s && m[0..|s|] == m[..|s|];
  }

  lemma SplitParts(m: seq<byte>, s: seq<byte>, argv: seq<nat>, toks: seq<seq<byte>>, r: nat, max: nat)
    requires Split(m, s, argv, toks, r, max)
    ensures IsText(s) && r <= |s| && |m| == |s| + 1 && m[r..|s|] == s[r..] && m[|s|] == 0
  {
  }

  lemma SplitSkip(m: seq<byte>, s: seq<byte>, argv: seq<nat>, toks: seq<seq<byte>>, r0: nat, r: nat, max: nat)
    requires Split(m, s, argv, toks, r0, max) && r0 <= r <= |s|
      && Tokens(s[r..], max - |argv|) == Tokens(s[r0..], max - |argv|)
    requires m[r..|s|] == s[r..]
    ensures Split(m, s, argv, toks, r, max) && m[r] == if r < |s| then s[r] else 0
    ensures r < |s| ==> s[r] != 0
  {
    hide Tokens;
    Tail(m, s, r0, r);
  }

  lemma SplitWord(m: seq<byte>, u: seq<byte>, s: seq<byte>, argv: seq<nat>, toks: seq<seq<byte>>, r: nat, next: nat,
    max: nat)
    requires Split(m, s, argv, toks, r, max) && r < |s| && s[r] != SPACE && |argv| < max && |u| == |m|
    requires var f := First(s[r..]);
      && next == (if r + f.1 < |s| then r + f.1 + 1 else |s|) && Holds(u, r, f.0)
        && r + |f.0| < (if next < |s| then next else |s| + 1)
    requires u[..r] == m[..r] && u[next..|s|] == s[next..] && u[|s|] == 0
    ensures r < next && Split(u, s, argv + [r], toks + [First(s[r..]).0], next, max)
  {
    hide Tokens, First, AllHeld, Holds;
    HeldOn(m, u, argv, toks, r);
    Unfold(s, r, next, max - |argv|, toks);
    HeldSnoc(u, argv, toks, r, if next < |s| then next else |s| + 1, r, First(s[r..]).0);
  }

  lemma HeldSnoc(m: seq<byte>, argv: seq<nat>, toks: seq<seq<byte>>, was: nat, end: nat, p: nat, t: seq<byte>)
    requires AllHeld(m, argv, toks, was) && was <= end && Holds(m, p, t) && p + |t| < end
    ensures AllHeld(m, argv + [p], toks + [t], end)
  {
    hide Holds;
  }

  lemma SplitDone(m: seq<byte>, s: seq<byte>, argv: seq<nat>, toks: seq<seq<byte>>, r: nat, max: nat)
    requires Split(m, s, argv, toks, r, max) && (m[r] == 0 || |argv| == max)
    ensures AllHeld(m, argv, Tokens(s, max), |s| + 1)
  {
    Tail(m, s, r, r);
    Ended(s, r, max - |argv|);
    hide Tokens;
  }

  lemma Unfold(s: seq<byte>, r: nat, next: nat, max: nat, toks: seq<seq<byte>>)
    requires r < |s| && s[r] != SPACE && 0 < max
    requires var f := First(s[r..]); next == if r + f.1 < |s| then r + f.1 + 1 else |s|
    ensures toks + Tokens(s[r..], max) == toks + [First(s[r..]).0] + Tokens(s[next..], max - 1)
  {
    var u, f := s[r..], First(s[r..]);
    assert (if f.1 < |u| then u[f.1 + 1..] else []) == s[next..];
  }

  lemma Ended(s: seq<byte>, r: nat, max: nat)
    requires r <= |s|
    ensures r == |s| || max == 0 ==> Tokens(s[r..], max) == []
  {
  }

  method SkipSpaces(line: array<byte>, r0: nat, ghost s: seq<byte>, ghost max: nat) returns (r: nat)
    requires IsText(s) && line.Length == |s| + 1 && r0 <= |s| && line[r0..|s|] == s[r0..] && line[|s|] == 0
    ensures r0 <= r <= |s| && (r < |s| ==> s[r] != SPACE) && line[r..|s|] == s[r..]
      && line[r] == (if r < |s| then s[r] else 0)
    ensures Tokens(s[r..], max) == Tokens(s[r0..], max)
  {
    ghost var n := |s|;
    r := r0;
    while line[r] == SPACE
      invariant r0 <= r <= n && line[r..n] == s[r..] && Tokens(s[r..], max) == Tokens(s[r0..], max)
      decreases n - r
    {
      assert r < n && line[r..n][0] == line[r] && s[r..][0] == s[r];
      assert s[r..][1..] == s[r + 1..] && line[r + 1..n] == line[r..n][1..];
      r := r + 1;
    }
    if r < n {
      assert line[r..n][0] == line[r] && s[r..][0] == s[r];
    }
  }

  /** Copy one word down to its start, without its quotes, and end it; the answer is where to read on. */
  method CopyWord(line: array<byte>, r: nat, ghost s: seq<byte>) returns (next: nat)
    requires IsText(s) && line.Length == |s| + 1 && r < |s| && line[r..|s|] == s[r..] && line[|s|] == 0 && s[r] != SPACE
    modifies line
    ensures var f := First(s[r..]);
      && next == (if r + f.1 < |s| then r + f.1 + 1 else |s|) && Holds(line[..], r, f.0)
      && r + |f.0| < (if next < |s| then next else |s| + 1)
    ensures line[..r] == old(line[..r]) && line[next..|s|] == s[next..] && line[|s|] == 0
  {
    hide Copying, First, Word, Holds, IsText;
    ghost var m0 := line[..];
    var w: nat, i: nat := r, r;
    var q: byte := 0;
    CopyStart(m0, s, r);
    if IsQuote(line[r]) {
      q := line[r];
      i := r + 1;
    }
    while line[i] != 0 && (q != 0 || line[i] != SPACE)
      invariant w <= i <= |s| && Copying(line[..], s, m0, r, w, i, q)
      decreases |s| - i
    {
      CopyStep(line[..], s, m0, r, w, i, q);
      if q != 0 && line[i] == q {
        q := 0;
      } else {
        line[w] := line[i];
        w := w + 1;
      }
      i := i + 1;
    }
    CopyEnd(line[..], s, m0, r, w, i, q);
    next := if line[i] != 0 then i + 1 else i;
    line[w] := 0;
    assert line[..r] == line[..][..r] && old(line[..r]) == m0[..r];
    assert line[next..|s|] == line[..][next..|s|];
  }

  /** The copying loop: text up to `w`, the line from `i` on still to be read inside quote `q`. */
  ghost predicate Copying(m: seq<byte>, s: seq<byte>, m0: seq<byte>, r: nat, w: nat, i: nat, q: byte) {
    && IsText(s) && r <= w <= i <= |s| && r < |s| && s[r] != SPACE && |m| == |s| + 1 == |m0| && m[i..|s|] == s[i..]
      && m[..r] == m0[..r] && m[|s|] == 0
    && m[r..w] + Word(s[i..], q).0 == First(s[r..]).0 && i + Word(s[i..], q).1 == r + First(s[r..]).1
  }

  lemma CopyStart(m: seq<byte>, s: seq<byte>, r: nat)
    requires IsText(s) && |m| == |s| + 1 && r < |s| && m[r..|s|] == s[r..] && m[|s|] == 0 && s[r] != SPACE
    ensures m[r] == s[r] && if IsQuote(s[r]) then Copying(m, s, m, r, r, r + 1, s[r]) else Copying(m, s, m, r, r, r, 0)
  {
    Tail(m, s, r, r + 1);
    hide Word;
    assert s[r..][1..] == s[r + 1..] && s[r..][0] == s[r];
    assert m[r..r] == [];
  }

  /** A closing quote is passed over; anything else is copied. */
  lemma CopyStep(m: seq<byte>, s: seq<byte>, m0: seq<byte>, r: nat, w: nat, i: nat, q: byte)
    requires Copying(m, s, m0, r, w, i, q) && m[i] != 0 && (q != 0 || m[i] != SPACE)
    ensures i < |s|
    ensures if q != 0 && m[i] == q then Copying(m, s, m0, r, w, i + 1, 0)
      else Copying(m[w := m[i]], s, m0, r, w + 1, i + 1, q)
  {
    hide First;
    Tail(m, s, i, i + 1);
    assert s[i..][1..] == s[i + 1..] && s[i..][0] == s[i];
    if !(q != 0 && m[i] == q) {
      var u := m[w := m[i]];
      assert u[r..w + 1] == m[r..w] + [s[i]];
      assert u[i + 1..|s|] == m[i + 1..|s|];
      assert u[..r] == m[..r];
    }
  }

  lemma CopyEnd(m: seq<byte>, s: seq<byte>, m0: seq<byte>, r: nat, w: nat, i: nat, q: byte)
    requires Copying(m, s, m0, r, w, i, q) && (m[i] == 0 || (q == 0 && m[i] == SPACE))
    ensures var f := First(s[r..]);
      var next, u := if m[i] != 0 then i + 1 else i, m[w := 0];
      && next <= |s| && next == (if r + f.1 < |s| then r + f.1 + 1 else |s|) && Holds(u, r, f.0)
      && r + |f.0| < (if next < |s| then next else |s| + 1)
      && u[..r] == m0[..r] && u[next..|s|] == s[next..] && u[|s|] == 0
  {
    hide First;
    Tail(m, s, i, i);
    assert Word(s[i..], q) == ([], 0);
    hide Word;
    var next, u := if m[i] != 0 then i + 1 else i, m[w := 0];
    Tail(m, s, i, next);
    assert u[r..w] == m[r..w];
    assert u[next..|s|] == m[next..|s|];
    assert u[..r] == m[..r];
  }

  /** Reading on leaves the rest of the line as it was. */
  lemma Tail(m: seq<byte>, s: seq<byte>, i: nat, j: nat)
    requires i <= j <= |s| && |m| == |s| + 1 && m[i..|s|] == s[i..]
    ensures m[j..|s|] == s[j..] && (j < |s| ==> m[j] == s[j]) && (i < |s| ==> m[i] == s[i])
  {
    assert m[j..|s|] == m[i..|s|][j - i..] && s[j..] == s[i..][j - i..];
    if j < |s| {
      assert m[j] == m[j..|s|][0];
    }
    if i < |s| {
      assert m[i] == m[i..|s|][0];
    }
  }
}

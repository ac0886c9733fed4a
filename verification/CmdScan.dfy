/** Finding operators outside quotes; and a line built by quoting comes back as what was quoted. */
module CmdScan {
  import opened Bytes
  import opened Cmdline

  // ----- where quotes open and close

  /** Where the scans let a quote open. */
  predicate WordStart(s: seq<byte>, i: nat)
    requires i <= |s|
  {
    i == 0 || s[i - 1] in {SPACE, SEMI, AMP, BAR, GT}
  }

  predicate Opens(s: seq<byte>, i: nat)
    requires i < |s|
  {
    IsQuote(s[i]) && WordStart(s, i)
  }

  /** The quote character in force after character `i`, `q` being the one before (zero outside). */
  function After(s: seq<byte>, i: nat, q: byte): byte
    requires i < |s|
  {
    if q != 0 then (if s[i] == q then 0 else q) else if Opens(s, i) then s[i] else 0
  }

  function QuoteAt(s: seq<byte>, i: nat): (q: byte)
    requires i <= |s|
    ensures q == 0 || IsQuote(q)
  {
    if i == 0 then 0 else After(s, i - 1, QuoteAt(s, i - 1))
  }

  /** Character `i` is outside quotes and not a quote that opens: an operator there counts. */
  predicate Plain(s: seq<byte>, i: nat)
    requires i < |s|
  {
    QuoteAt(s, i) == 0 && !Opens(s, i)
  }

  /** The scans' own bookkeeping: step the quote state over character `i`; true if it is to be passed over. */
  method QuoteEdge(s: seq<byte>, i: nat, q: byte) returns (now: byte, skip: bool)
    requires i < |s| && q == QuoteAt(s, i)
    ensures now == QuoteAt(s, i + 1) && skip == !Plain(s, i)
  {
    if q != 0 {
      now := if s[i] == q then 0 else q;
      skip := true;
    } else if IsQuote(s[i]) && WordStart(s, i) {
      now, skip := s[i], true;
    } else {
      now, skip := 0, false;
    }
  }

  predicate Twice(s: seq<byte>, i: nat, c: byte) {
    i + 1 < |s| && s[i] == c && s[i + 1] == c
  }

  predicate IsConnector(s: seq<byte>, i: nat)
    requires i < |s|
  {
    Twice(s, i, AMP) || Twice(s, i, BAR) || s[i] == SEMI
  }

  /** The first connector outside quotes, or -1, and how long it is (cmdline_next_connector). */
  method NextConnector(s: seq<byte>) returns (at: int, skip: nat)
    ensures -1 <= at < |s|
    ensures at >= 0 ==> Plain(s, at) && IsConnector(s, at) && skip == if s[at] == SEMI then 1 else 2
    ensures forall i :: 0 <= i < |s| && (i < at || at == -1) ==> !(Plain(s, i) && IsConnector(s, i))
  {
    var q := 0;
    for i := 0 to |s|
      invariant q == QuoteAt(s, i) && forall j :: 0 <= j < i ==> !(Plain(s, j) && IsConnector(s, j))
    {
      var pass;
      q, pass := QuoteEdge(s, i, q);
      if !pass {
        if Twice(s, i, AMP) || Twice(s, i, BAR) {
          return i, 2;
        }
        if s[i] == SEMI {
          return i, 1;
        }
      }
    }
    return -1, 0;
  }

  /** Passing an operator leaves the state alone. */
  lemma Steady(s: seq<byte>, i: nat)
    requires i < |s| && QuoteAt(s, i) == 0 && !IsQuote(s[i])
    ensures QuoteAt(s, i + 1) == 0
  {
  }

  /** How many `c` in a row end just before `i`. */
  function Run(s: seq<byte>, i: nat, c: byte): nat
    requires i <= |s|
  {
    if i == 0 || s[i - 1] != c then 0 else Run(s, i - 1, c) + 1
  }

  /** Operators are read in pairs from the left: `i` is a bar on its own if it is the last of an odd number. */
  predicate IsPipe(s: seq<byte>, i: nat)
    requires i < |s|
  {
    Plain(s, i) && s[i] == BAR && !Twice(s, i, BAR) && Run(s, i, BAR) % 2 == 0
  }

  /** Likewise a redirection starts at every other of a row. */
  predicate IsRedirect(s: seq<byte>, i: nat)
    requires i < |s|
  {
    Plain(s, i) && s[i] == GT && Run(s, i, GT) % 2 == 0
  }

  /** The first single bar outside quotes, or -1 (cmdline_next_pipe). */
  method NextPipe(s: seq<byte>) returns (at: int)
    ensures -1 <= at < |s|
    ensures at >= 0 ==> IsPipe(s, at)
    ensures forall i :: 0 <= i < |s| && (i < at || at == -1) ==> !IsPipe(s, i)
  {
    var q, i := 0, 0;
    while i < |s|
      invariant 0 <= i <= |s| && q == QuoteAt(s, i) && (q == 0 ==> Run(s, i, BAR) % 2 == 0)
      invariant forall j :: 0 <= j < i ==> !IsPipe(s, j)
    {
      var pass;
      q, pass := QuoteEdge(s, i, q);
      if !pass {
        Steady2(s, i);
        if Twice(s, i, BAR) {
          i := i + 1;
        } else if s[i] == BAR {
          return i;
        }
      }
      i := i + 1;
    }
    return -1;
  }

  lemma NoQuoteYet(s: seq<byte>)
    ensures QuoteAt(s, 0) == 0 && Run(s, 0, GT) == 0
  {
  }

  lemma Steady2(s: seq<byte>, i: nat)
    requires i < |s| && Plain(s, i)
    ensures Twice(s, i, BAR) || Twice(s, i, GT) ==> QuoteAt(s, i + 1) == QuoteAt(s, i + 2) == 0
  {
    if Twice(s, i, BAR) || Twice(s, i, GT) {
      Steady(s, i);
      Steady(s, i + 1);
    }
  }

  /** A row of redirections goes on only through plain characters. */
  lemma RowStep(s: seq<byte>, i: nat)
    requires i < |s|
    ensures QuoteAt(s, i + 1) == 0 && !(Plain(s, i) && s[i] == GT) ==> Run(s, i + 1, GT) == 0
    ensures s[i] == GT ==> Run(s, i + 1, GT) == Run(s, i, GT) + 1
    ensures Plain(s, i) ==> QuoteAt(s, i) == 0
  {
  }

  /** The last redirection outside quotes, or -1, and whether it appends (cmdline_split_redirect). */
  method LastRedirect(s: seq<byte>) returns (at: int, append: bool)
    ensures -1 <= at < |s|
    ensures at >= 0 ==> IsRedirect(s, at) && append == Twice(s, at, GT)
    ensures forall i :: at < i < |s| ==> !IsRedirect(s, i)
    ensures forall i :: 0 <= i < |s| && Plain(s, i) && s[i] == GT ==> at >= 0 && i < at + if append then 2 else 1
  {
    hide Plain, QuoteAt, Run;
    var q, i := 0, 0;
    at, append := -1, false;
    NoQuoteYet(s);
    while i < |s|
      invariant 0 <= i <= |s| && q == QuoteAt(s, i) && -1 <= at < i
      invariant q == 0 && i < |s| && s[i] == GT ==> Run(s, i, GT) % 2 == 0
      invariant at >= 0 ==> IsRedirect(s, at) && append == Twice(s, at, GT)
      invariant forall j :: at < j < i ==> !IsRedirect(s, j)
      invariant forall j :: 0 <= j < i && Plain(s, j) && s[j] == GT ==> at >= 0 && j < at + if append then 2 else 1
    {
      var pass;
      q, pass := QuoteEdge(s, i, q);
      RowStep(s, i);
      if !pass && s[i] == GT {
        Steady2(s, i);
        at, append := i, Twice(s, i, GT);
        if append {
          RowStep(s, i + 1);
          i := i + 1;
        }
      }
      i := i + 1;
    }
  }

  // ----- the splitter's idea of a quote

  /** The splitter looks for a quote only where it starts a word: at the start or after a space. */
  predicate SplitterOpens(s: seq<byte>, i: nat)
    requires i < |s|
  {
    IsQuote(s[i]) && (i == 0 || s[i - 1] == SPACE)
  }

  /** The quote it is inside before character `i`, or zero. */
  function SplitterAt(s: seq<byte>, i: nat): (q: byte)
    requires i <= |s|
    ensures q == 0 || IsQuote(q)
  {
    if i == 0 then 0 else
    var q := SplitterAt(s, i - 1);
    if q != 0 then (if s[i - 1] == q then 0 else q) else if SplitterOpens(s, i - 1) then s[i - 1] else 0
  }

  /** A space that ends a word. */
  predicate Parts(s: seq<byte>, i: nat)
    requires i < |s|
  {
    s[i] == SPACE && SplitterAt(s, i) == 0
  }

  lemma {:induction false} WordRuns(s: seq<byte>, i: nat, q: byte)
    requires i <= |s| && SplitterAt(s, i) == q && (q == 0 ==> i > 0 && s[i - 1] != SPACE)
    ensures var e := i + Word(s[i..], q).1; (e < |s| ==> Parts(s, e)) && forall j :: i <= j < e ==> !Parts(s, j)
    decreases |s| - i
  {
    if i < |s| && !(q == 0 && s[i] == SPACE) {
      assert s[i..][1..] == s[i + 1..] && s[i..][0] == s[i];
      WordRuns(s, i + 1, SplitterAt(s, i + 1));
    }
  }

  /** A word that starts at `r` runs to the next space outside the splitter's quotes, and no further. */
  lemma FirstRuns(s: seq<byte>, r: nat)
    requires r < |s| && s[r] != SPACE && SplitterAt(s, r) == 0 && (r == 0 || s[r - 1] == SPACE)
    ensures var e := r + First(s[r..]).1;
      && r < e <= |s| && (forall j :: r <= j < e ==> !Parts(s, j))
      && (e < |s| ==> Parts(s, e) && SplitterAt(s, e + 1) == 0)
  {
    assert s[r..][1..] == s[r + 1..] && s[r..][0] == s[r];
    WordRuns(s, r + 1, SplitterAt(s, r + 1));
  }

  // ----- the words of a line, read off its characters

  /** Where the word at `i` ends: at the next space that parts words, or with the line. */
  function End(s: seq<byte>, i: nat): (e: nat)
    requires i <= |s|
    ensures i <= e <= |s| && (e < |s| ==> Parts(s, e)) && forall j :: i <= j < e ==> !Parts(s, j)
    decreases |s| - i
  {
    if i == |s| || Parts(s, i) then i else End(s, i + 1)
  }

  /** A quote that opens or closes a quotation of the splitter's. */
  predicate Edge(s: seq<byte>, i: nat)
    requires i < |s|
  {
    if SplitterAt(s, i) == 0 then SplitterOpens(s, i) else s[i] == SplitterAt(s, i)
  }

  /** The characters from `i` to `e` that are not such quotes. */
  function Text(s: seq<byte>, i: nat, e: nat): seq<byte>
    requires e <= |s|
    decreases e - i
  {
    if i >= e then [] else (if Edge(s, i) then [] else [s[i]]) + Text(s, i + 1, e)
  }

  /** The words from `i` on: what lies between parting spaces, however many there are, and nothing else. */
  function Words(s: seq<byte>, i: nat): (w: seq<seq<byte>>)
    requires i <= |s|
    decreases |s| - i
  {
    if i == |s| then [] else if Parts(s, i) then Words(s, i + 1) else [Text(s, i, End(s, i))] + Words(s, End(s, i))
  }

  lemma TextStep(s: seq<byte>, i: nat)
    requires i < |s| && !Parts(s, i)
    ensures End(s, i) == End(s, i + 1)
    ensures Text(s, i, End(s, i)) == if Edge(s, i) then Text(s, i + 1, End(s, i))
      else [s[i]] + Text(s, i + 1, End(s, i))
  {
  }

  lemma {:induction false} WordIs(s: seq<byte>, i: nat, q: byte)
    requires i <= |s| && SplitterAt(s, i) == q && (q == 0 ==> i > 0 && s[i - 1] != SPACE)
    ensures Word(s[i..], q) == (Text(s, i, End(s, i)), End(s, i) - i)
    decreases |s| - i
  {
    hide Text;
    if i < |s| && !(q == 0 && s[i] == SPACE) {
      assert s[i..][1..] == s[i + 1..] && s[i..][0] == s[i];
      TextStep(s, i);
      WordIs(s, i + 1, SplitterAt(s, i + 1));
    } else {
      NoText(s, i);
    }
  }

  lemma NoText(s: seq<byte>, i: nat)
    requires i <= |s| && (i == |s| || Parts(s, i))
    ensures End(s, i) == i && Text(s, i, i) == []
  {
  }

  lemma FirstIs(s: seq<byte>, i: nat)
    requires i < |s| && s[i] != SPACE && SplitterAt(s, i) == 0 && (i == 0 || s[i - 1] == SPACE)
    ensures First(s[i..]) == (Text(s, i, End(s, i)), End(s, i) - i) && i < End(s, i)
  {
    hide Text;
    assert s[i..][1..] == s[i + 1..] && s[i..][0] == s[i];
    TextStep(s, i);
    WordIs(s, i + 1, SplitterAt(s, i + 1));
  }

  lemma TokenStep(s: seq<byte>, i: nat, max: nat)
    requires i < |s| && s[i] != SPACE && 0 < max && First(s[i..]) == (Text(s, i, End(s, i)), End(s, i) - i)
    ensures Tokens(s[i..], max)
      == [Text(s, i, End(s, i))] + if End(s, i) < |s| then Tokens(s[End(s, i) + 1..], max - 1) else []
  {
    hide First, Text, End, Tokens;
    var e, t := End(s, i), s[i..];
    assert t[0] == s[i] && |t| == |s| - i;
    TokensFirst(t, max);
    if e < |s| {
      assert t[e - i + 1..] == s[e + 1..];
    } else {
      NoMore(max - 1);
    }
  }

  lemma TokensFirst(t: seq<byte>, max: nat)
    requires t != [] && t[0] != SPACE && 0 < max
    ensures var f := First(t); Tokens(t, max) == [f.0] + Tokens(if f.1 < |t| then t[f.1 + 1..] else [], max - 1)
  {
    hide First;
  }

  lemma NoMore(max: nat)
    ensures Tokens([], max) == []
  {
  }

  lemma WordStep(s: seq<byte>, i: nat)
    requires i < |s| && !Parts(s, i)
    ensures var e := End(s, i);
      Words(s, i) == [Text(s, i, e)] + if e < |s| then Words(s, e + 1) else []
  {
    hide Text;
  }

  /** The splitter's answer is the words of the line, as many as there is room for. */
  lemma {:induction false} TokensAre(s: seq<byte>, i: nat, max: nat)
    requires i <= |s| && SplitterAt(s, i) == 0 && (i == 0 || s[i - 1] == SPACE)
    ensures Tokens(s[i..], max) == if |Words(s, i)| <= max then Words(s, i) else Words(s, i)[..max]
    decreases |s| - i
  {
    hide First, Word, Text, Tokens, Words;
    if i == |s| || max == 0 {
      NoTokens(s, i, max);
    } else if s[i] == SPACE {
      SkipOne(s, i, max);
      TokensAre(s, i + 1, max);
    } else {
      FirstIs(s, i);
      TokenStep(s, i, max);
      WordStep(s, i);
      var e := End(s, i);
      if e < |s| {
        TokensAre(s, e + 1, max - 1);
      }
    }
  }

  lemma NoTokens(s: seq<byte>, i: nat, max: nat)
    requires i <= |s| && (i == |s| || max == 0)
    ensures Tokens(s[i..], max) == [] && (i == |s| ==> Words(s, i) == [])
  {
  }

  lemma SkipOne(s: seq<byte>, i: nat, max: nat)
    requires i < |s| && Parts(s, i)
    ensures Tokens(s[i..], max) == Tokens(s[i + 1..], max) && Words(s, i) == Words(s, i + 1)
  {
    assert s[i..][1..] == s[i + 1..] && s[i..][0] == s[i];
    NoTokens(s, i + 1, 0);
  }

  /** A quote straight after an operator, inside what the splitter takes for one word. */
  predicate Clash(s: seq<byte>, i: nat)
    requires i < |s|
  {
    IsQuote(s[i]) && SplitterAt(s, i) == 0 && i > 0 && s[i - 1] in {SEMI, AMP, BAR, GT}
  }

  predicate AgreeAt(s: seq<byte>, i: nat)
    requires i <= |s|
  {
    QuoteAt(s, i) == SplitterAt(s, i)
  }

  /** The scans and the splitter agree about every character exactly on lines without one. */
  lemma AgreeIff(s: seq<byte>)
    ensures (forall i :: 0 <= i <= |s| ==> AgreeAt(s, i)) <==> forall i :: 0 <= i < |s| ==> !Clash(s, i)
  {
    if forall i :: 0 <= i < |s| ==> !Clash(s, i) {
      forall i | 0 <= i <= |s|
        ensures AgreeAt(s, i)
      {
        AgreeTo(s, i);
      }
    } else {
      var i :| 0 <= i < |s| && Clash(s, i);
      assert Opens(s, i) && !SplitterOpens(s, i);
      assert !AgreeAt(s, i) || !AgreeAt(s, i + 1);
    }
  }

  lemma {:induction false} AgreeTo(s: seq<byte>, i: nat)
    requires i <= |s| && forall j :: 0 <= j < i ==> !Clash(s, j)
    ensures AgreeAt(s, i)
  {
    if i > 0 {
      AgreeTo(s, i - 1);
      assert !Clash(s, i - 1);
    }
  }

  /** On `a&"b c"` they do not: the scans take the space for quoted, the splitter makes two words of it. */
  lemma Disagree()
    ensures var s := [0x61, AMP, QUOTE, 0x62, SPACE, 0x63, QUOTE];
      QuoteAt(s, 4) == QUOTE && Parts(s, 4) && Tokens(s, 8) == [[0x61, AMP, QUOTE, 0x62], [0x63, QUOTE]]
  {
    var s: seq<byte> := [0x61, AMP, QUOTE, 0x62, SPACE, 0x63, QUOTE];
    assert QuoteAt(s, 0) == 0 && SplitterAt(s, 0) == 0;
    assert QuoteAt(s, 1) == 0 && SplitterAt(s, 1) == 0;
    assert QuoteAt(s, 2) == 0 && SplitterAt(s, 2) == 0;
    assert QuoteAt(s, 3) == QUOTE && SplitterAt(s, 3) == 0;
    DisagreeWords(s);
  }

  lemma DisagreeWords(s: seq<byte>)
    requires s == [0x61, AMP, QUOTE, 0x62, SPACE, 0x63, QUOTE]
    ensures Tokens(s, 8) == [[0x61, AMP, QUOTE, 0x62], [0x63, QUOTE]]
  {
    TextWord([0x61, AMP, QUOTE, 0x62], s[4..]);
    TextWord([0x63, QUOTE], []);
    assert s == [0x61, AMP, QUOTE, 0x62] + s[4..] && s[5..] == [0x63, QUOTE] + [];
    hide Word;
    assert Tokens(s[5..], 7) == [[0x63, QUOTE]];
  }

  /** Outside quotes a word is its text. */
  lemma {:induction false} TextWord(t: seq<byte>, rest: seq<byte>)
    requires SPACE !in t && (rest == [] || rest[0] == SPACE)
    ensures Word(t + rest, 0) == (t, |t|)
  {
    if t == [] {
      assert t + rest == rest;
    } else {
      assert (t + rest)[1..] == t[1..] + rest && t == [t[0]] + t[1..];
      TextWord(t[1..], rest);
    }
  }

  // ----- quoting

  /** Argument `a` wrapped in a kind of quote it does not contain. */
  function Quoted(a: seq<byte>): (r: seq<byte>)
    ensures |r| == |a| + 2
  {
    [Kind(a)] + a + [Kind(a)]
  }

  function Kind(a: seq<byte>): (q: byte)
    ensures IsQuote(q) && q != 0
  {
    if QUOTE in a then TICK else QUOTE
  }

  /** An argument free of at least one kind of quote. */
  ghost predicate Quotable(a: seq<byte>) {
    IsText(a) && (QUOTE !in a || TICK !in a)
  }

  function Line(args: seq<seq<byte>>): seq<byte> {
    if args == [] then [] else if |args| == 1 then Quoted(args[0]) else Quoted(args[0]) + [SPACE] + Line(args[1..])
  }

  /** What follows the first argument of a line. */
  function Rest(more: seq<seq<byte>>): seq<byte> {
    if more == [] then [] else [SPACE] + Line(more)
  }

  lemma LineSplit(args: seq<seq<byte>>)
    requires args != []
    ensures Line(args) == Quoted(args[0]) + Rest(args[1..])
  {
    hide Quoted;
  }

  lemma {:induction false} WordInside(a: seq<byte>, q: byte, rest: seq<byte>)
    requires q != 0 && q !in a && (rest == [] || rest[0] == SPACE)
    ensures Word(a + [q] + rest, q) == (a, |a| + 1)
  {
    var s := a + [q] + rest;
    if a == [] {
      assert s[1..] == rest;
      assert Word(rest, 0) == ([], 0);
    } else {
      assert s[1..] == a[1..] + [q] + rest && s[0] == a[0];
      assert a[0] in a && a == [a[0]] + a[1..];
      WordInside(a[1..], q, rest);
    }
  }

  lemma FirstQuoted(a: seq<byte>, rest: seq<byte>)
    requires Quotable(a) && (rest == [] || rest[0] == SPACE)
    ensures First(Quoted(a) + rest) == (a, |a| + 2)
  {
    var s := Quoted(a) + rest;
    assert s[1..] == a + [Kind(a)] + rest;
    WordInside(a, Kind(a), rest);
  }

  lemma TokensQuoted(a: seq<byte>, rest: seq<byte>, max: nat)
    requires Quotable(a) && (rest == [] || rest[0] == SPACE) && 0 < max
    ensures Tokens(Quoted(a) + rest, max) == [a] + Tokens(if rest == [] then [] else rest[1..], max - 1)
  {
    FirstQuoted(a, rest);
    var s := Quoted(a) + rest;
    assert s[0] == Kind(a);
    if rest != [] {
      assert s[|a| + 3..] == rest[1..];
    }
    hide First, Word;
  }

  /** Splitting a quoted line gives the arguments back, as many as there is room for. */
  lemma {:induction false} SplitQuoted(args: seq<seq<byte>>, max: nat)
    requires forall i :: 0 <= i < |args| ==> Quotable(args[i])
    ensures Tokens(Line(args), max) == if |args| <= max then args else args[..max]
  {
    hide Quotable, Tokens, Line, Quoted;
    if args == [] || max == 0 {
      Nothing(max);
      NoRoom(Line(args));
    } else {
      var a, more := args[0], args[1..];
      LineSplit(args);
      TokensQuoted(a, Rest(more), max);
      SplitQuoted(more, max - 1);
      Nothing(max - 1);
      assert args == [a] + more;
      assert more != [] ==> Rest(more)[1..] == Line(more);
    }
  }

  lemma NoRoom(s: seq<byte>)
    ensures Tokens(s, 0) == []
  {
  }

  lemma Nothing(max: nat)
    ensures Tokens([], max) == [] && Line([]) == []
  {
  }

  // ----- nothing in a quoted line is an operator

  /** The argument quoted at `p` is inside quotes throughout, and the state is clear behind it. */
  lemma {:induction false} InsideQuoted(s: seq<byte>, p: nat, a: seq<byte>, j: nat)
    requires Quotable(a) && p + |a| + 2 <= |s| && s[p..p + |a| + 2] == Quoted(a) && QuoteAt(s, p) == 0
      && WordStart(s, p)
    requires j <= |a|
    ensures QuoteAt(s, p + 1 + j) == Kind(a) && s[p] == Kind(a) && s[p + 1 + |a|] == Kind(a)
    ensures forall i :: 0 <= i < |a| ==> s[p + 1 + i] == a[i]
  {
    var t := Quoted(a);
    assert forall i :: 0 <= i < |t| ==> s[p + i] == s[p..p + |a| + 2][i] == t[i];
    assert s[p] == t[0] && s[p + 1 + |a|] == t[1 + |a|];
    forall i | 0 <= i < |a|
      ensures s[p + 1 + i] == a[i]
    {
      assert s[p + (1 + i)] == t[1 + i];
    }
    if j > 0 {
      InsideQuoted(s, p, a, j - 1);
      assert a[j - 1] in a;
    }
  }

  /** No character of a quoted argument is plain, and the state is clear behind it. */
  lemma OneQuoted(s: seq<byte>, p: nat, a: seq<byte>)
    requires Quotable(a) && p + |a| + 2 <= |s| && s[p..p + |a| + 2] == Quoted(a) && QuoteAt(s, p) == 0
      && WordStart(s, p)
    ensures QuoteAt(s, p + |a| + 2) == 0 && forall i :: p <= i < p + |a| + 2 ==> !Plain(s, i)
  {
    hide Quoted, Quotable;
    forall i | p <= i < p + |a| + 2
      ensures !Plain(s, i)
    {
      InsideQuoted(s, p, a, if i == p then 0 else i - p - 1);
    }
    InsideQuoted(s, p, a, |a|);
  }

  /** From `p` on the line is quoted arguments: only the spaces between them are plain. */
  lemma {:induction false} OnlySpaces(s: seq<byte>, p: nat, args: seq<seq<byte>>)
    requires p <= |s| && s[p..] == Line(args) && QuoteAt(s, p) == 0 && WordStart(s, p)
    requires forall i :: 0 <= i < |args| ==> Quotable(args[i])
    ensures forall i :: p <= i < |s| && Plain(s, i) ==> s[i] == SPACE
    decreases |args|
  {
    hide Quotable, Plain, QuoteAt, Quoted, Line, WordStart;
    if args == [] {
      Nothing(0);
    } else {
      var a, more := args[0], args[1..];
      var e := p + |a| + 2;
      LineSplit(args);
      Pieces(s, p, Quoted(a), Rest(more));
      OneQuoted(s, p, a);
      if more != [] {
        Pieces(s, e, [SPACE], Line(more));
        assert s[e] == s[e..e + 1][0];
        SpaceClear(s, e);
        OnlySpaces(s, e + 1, more);
      }
    }
  }

  lemma Pieces(s: seq<byte>, p: nat, a: seq<byte>, b: seq<byte>)
    requires p <= |s| && s[p..] == a + b
    ensures p + |a| + |b| == |s| && s[p..p + |a|] == a && s[p + |a|..] == b
  {
    assert s[p..p + |a|] == s[p..][..|a|];
    assert s[p + |a|..] == s[p..][|a|..];
  }

  lemma SpaceClear(s: seq<byte>, e: nat)
    requires e < |s| && s[e] == SPACE && QuoteAt(s, e) == 0
    ensures QuoteAt(s, e + 1) == 0 && WordStart(s, e + 1)
  {
  }

  /** Quote any arguments, scan the line for operators and split it: no operator is found, and the words are
      the arguments. */
  method RoundTrip(args: seq<seq<byte>>, max: nat) returns (con: int, pipe: int, redirect: int, line: array<byte>,
    argv: seq<nat>)
    requires |args| <= max && forall i :: 0 <= i < |args| ==> Quotable(args[i])
    ensures con == -1 && pipe == -1 && redirect == -1
    ensures AllHeld(line[..], argv, args, line.Length)
  {
    var s := Line(args);
    LineText(args);
    assert s[0..] == s;
    OnlySpaces(s, 0, args);
    SplitQuoted(args, max);
    hide Plain, Quotable, Line, Tokens, AllHeld;
    var skip;
    con, skip := NextConnector(s);
    pipe := NextPipe(s);
    var append;
    redirect, append := LastRedirect(s);
    line := new byte[|s| + 1](i => if 0 <= i < |s| then s[i] else 0);
    assert line[..|s|] == s;
    argv := SplitArgs(line, max);
  }

  lemma {:induction false} LineText(args: seq<seq<byte>>)
    requires forall i :: 0 <= i < |args| ==> Quotable(args[i])
    ensures IsText(Line(args))
  {
    if args != [] {
      LineText(args[1..]);
      assert Quotable(args[0]);
    }
  }
}

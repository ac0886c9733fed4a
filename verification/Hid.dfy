/** The keystroke queue between the shell task and the USB task, and the keyboard reports that come out of
    it: a state machine over the single steps of the two tasks. */
module Hid {
  import opened Bytes

  const RING := 64
  const HELD_MAX := 5

  datatype Action = Key(mod: bv8, kc: byte) | Delay(ms: u32) | Hold(mod: bv8, kc: byte) | Release(mod: bv8, kc: byte)

  /** What HOLD has put down and RELEASE not yet let go of. */
  datatype Held = Held(mod: bv8, keys: seq<byte>)

  datatype Report = Report(mod: bv8, keys: seq<byte>)

  const NOTHING := Held(0, [])

  // ----- what a sequence of actions means to the host

  function AddKey(keys: seq<byte>, kc: byte): (r: seq<byte>)
    ensures |keys| <= HELD_MAX ==> |r| <= HELD_MAX
  {
    if kc == 0 || kc in keys || |keys| >= HELD_MAX then keys else keys + [kc]
  }

  function DropKey(keys: seq<byte>, kc: byte): (r: seq<byte>)
    ensures |r| <= |keys|
  {
    if keys == [] || kc == 0 then keys
    else if keys[0] == kc then keys[1..]
    else [keys[0]] + DropKey(keys[1..], kc)
  }

  function Changed(h: Held, a: Action): Held {
    match a
    case Hold(mod, kc) => Held(h.mod | mod, AddKey(h.keys, kc))
    case Release(mod, kc) => if mod == 0 && kc == 0 then NOTHING else Held(h.mod & !mod, DropKey(h.keys, kc))
    case _ => h
  }

  /** The report for a held set with at most one transient key on top: six key slots, unused ones zero. */
  function ReportOf(h: Held, mod: bv8, kc: byte): Report {
    var keys := h.keys + if kc != 0 then [kc] else [];
    Report(h.mod | mod, if |keys| <= 6 then keys + seq(6 - |keys|, _ => 0) else keys[..6])
  }

  function HeldAfter(acts: seq<Action>): Held {
    if acts == [] then NOTHING else Changed(HeldAfter(acts[..|acts| - 1]), acts[|acts| - 1])
  }

  /** The reports an action gives rise to: a key is pressed and released, a hold or release shows at once,
      a delay is silent. */
  function ReportsFor(h: Held, a: Action): seq<Report> {
    match a
    case Key(mod, kc) => [ReportOf(h, mod, kc), ReportOf(h, 0, 0)]
    case Delay(_) => []
    case _ => [ReportOf(Changed(h, a), 0, 0)]
  }

  function ReportsOf(acts: seq<Action>): seq<Report> {
    if acts == [] then [] else
    var init := acts[..|acts| - 1];
    ReportsOf(init) + ReportsFor(HeldAfter(init), acts[|acts| - 1])
  }

  /** No key down at all. */
  function AllUp(): Report {
    ReportOf(NOTHING, 0, 0)
  }

  lemma Snoc(acts: seq<Action>, a: Action)
    ensures HeldAfter(acts + [a]) == Changed(HeldAfter(acts), a)
    ensures ReportsOf(acts + [a]) == ReportsOf(acts) + ReportsFor(HeldAfter(acts), a)
  {
    assert (acts + [a])[..|acts|] == acts;
  }

  /** The last report shows exactly what is held. */
  lemma {:induction false} LastReport(acts: seq<Action>)
    ensures ReportsOf(acts) != [] ==> ReportsOf(acts)[|ReportsOf(acts)| - 1] == ReportOf(HeldAfter(acts), 0, 0)
    ensures ReportsOf(acts) == [] ==> HeldAfter(acts) == NOTHING
  {
    hide ReportOf, AddKey, DropKey;
    if acts != [] {
      LastReport(acts[..|acts| - 1]);
    }
  }

  /** A report shows the held modifiers and keys, on top of them at most one transient key with its modifiers, and
      nothing else. */
  lemma ReportSays(h: Held, mod: bv8, kc: byte)
    requires |h.keys| <= HELD_MAX
    ensures var m := ReportOf(h, mod, kc).mod; m & h.mod == h.mod && m & mod == mod && m & !(h.mod | mod) == 0
    ensures var keys, n := ReportOf(h, mod, kc).keys, |h.keys|;
      |keys| == 6 && keys[..n] == h.keys && keys[n] == kc && forall i :: n < i < 6 ==> keys[i] == 0
  {
    Bits(h.mod, mod);
  }

  lemma Bits(a: bv8, b: bv8)
    ensures (a | b) & a == a && (a | b) & b == b && (a | b) & !(a | b) == 0
  {
  }

  /** The held set never has more than five keys, none twice, and no key that is none. */
  lemma {:induction false} HeldKeys(acts: seq<Action>)
    ensures KeySet(HeldAfter(acts).keys)
  {
    hide AddKey, DropKey, KeySet;
    NoKeys();
    if acts != [] {
      var init, a := acts[..|acts| - 1], acts[|acts| - 1];
      HeldKeys(init);
      if a.Hold? {
        KeyAdded(HeldAfter(init).keys, a.kc);
      } else if a.Release? {
        KeyDropped(HeldAfter(init).keys, a.kc);
      }
    }
  }

  ghost predicate KeySet(keys: seq<byte>) {
    |keys| <= HELD_MAX && 0 !in keys && forall i, j :: 0 <= i < j < |keys| ==> keys[i] != keys[j]
  }

  lemma NoKeys()
    ensures KeySet([])
  {
  }

  /** Holding a key leaves exactly it and what was held, if there is room; */
  lemma KeyAdded(keys: seq<byte>, kc: byte)
    requires KeySet(keys)
    ensures KeySet(AddKey(keys, kc))
    ensures forall k :: k in AddKey(keys, kc) <==> k in keys || (k == kc && kc != 0 && |keys| < HELD_MAX)
  {
  }

  /** releasing it leaves exactly the others. */
  lemma {:induction false} KeyDropped(keys: seq<byte>, kc: byte)
    requires KeySet(keys)
    ensures KeySet(DropKey(keys, kc)) && forall k :: k in DropKey(keys, kc) <==> k in keys && k != kc
  {
    if keys != [] && kc != 0 && keys[0] != kc {
      var rest := keys[1..];
      KeyDropped(rest, kc);
      var d := DropKey(rest, kc);
      forall k
        ensures k in [keys[0]] + d <==> k in keys && k != kc
      {
        assert k in keys <==> k == keys[0] || k in rest;
      }
      forall i, j | 0 <= i < j < |d| + 1
        ensures ([keys[0]] + d)[i] != ([keys[0]] + d)[j]
      {
        if i == 0 {
          assert d[j - 1] in rest;
        }
      }
    } else if keys != [] && kc != 0 {
      assert keys == [keys[0]] + keys[1..];
    }
  }

  // ----- the two tasks, step by step

  /** The shell task inside ring_push: before, after the check for room, after writing the slot. */
  datatype Producer = Idle | Checked(act: Action) | Written(act: Action)

  /** The USB task inside usbhid_service: between turns, or having read a slot. */
  datatype Consumer = Resting | Fetched(act: Action)

  /** The ring. `origin` is where both indices stood when the session began; `pushed` and `taken` (slots given
      back, by use or by abort) are its history. */
  datatype Queue = Queue(ring: seq<Action>, head: nat, tail: nat, prod: Producer, origin: nat, pushed: seq<Action>,
    taken: nat)

  /** The USB task's own state, with its history: the actions it consumed and the reports it sent. `cleared`
      once an abort has let go of everything. */
  datatype Board = Board(keyDown: bool, delaying: bool, until: u32, held: Held, consumed: seq<Action>,
    sent: seq<Report>, cleared: bool)

  datatype State = State(q: Queue, abort: bool, cons: Consumer, b: Board)

  datatype Step =
    | Check(act: Action)
    | WriteSlot
    | Publish
    | RaiseAbort
    | AbortTurn(ready: bool)
    | ReleaseTurn(ready: bool)
    | Wake(now: u32)
    | Fetch
    | Apply(ready: bool, now: u32)

  function Plus(i: nat): nat {
    (i + 1) % RING
  }

  /** Whether the delay is over: the signed difference of two 32-bit clocks. */
  predicate Elapsed(now: u32, until: u32) {
    (now - until) % W32 < 0x8000_0000
  }

  predicate Down(b: Board) {
    b.keyDown || b.held != NOTHING
  }

  function Wrote(q: Queue): Queue
    requires |q.ring| == RING && q.head < RING && q.prod.Checked?
  {
    q.(ring := q.ring[q.head := q.prod.act], prod := Written(q.prod.act))
  }

  function Published(q: Queue): Queue
    requires q.prod.Written?
  {
    q.(head := Plus(q.head), pushed := q.pushed + [q.prod.act], prod := Idle)
  }

  function TookOne(q: Queue): Queue {
    q.(tail := Plus(q.tail), taken := q.taken + 1)
  }

  function Dropped(q: Queue): Queue {
    q.(tail := q.head, taken := |q.pushed|)
  }

  /** The report side of a turn that found an abort. */
  function Clear(b: Board, ready: bool): Board {
    if ready && Down(b) then
      b.(delaying := false, keyDown := false, held := NOTHING, sent := b.sent + [AllUp()], cleared := true)
    else b.(delaying := false)
  }

  /** Whether an action can be carried out now: a delay always, anything else when the host is listening. */
  predicate CanDo(a: Action, ready: bool) {
    a.Delay? || ready
  }

  function Act(b: Board, a: Action, now: u32): Board {
    var c := b.(consumed := b.consumed + [a]);
    match a
    case Delay(ms) => c.(until := (now + ms) % W32, delaying := ms > 0)
    case Key(mod, kc) => c.(sent := b.sent + [ReportOf(b.held, mod, kc)], keyDown := true)
    case _ => c.(held := Changed(b.held, a), sent := b.sent + [ReportOf(Changed(b.held, a), 0, 0)])
  }

  function LetGo(b: Board): Board {
    b.(sent := b.sent + [ReportOf(b.held, 0, 0)], keyDown := false)
  }

  predicate Enabled(s: State, st: Step) {
    match st
    case Check(_) => s.q.prod.Idle? && !s.abort && Plus(s.q.head) != s.q.tail
    case WriteSlot => s.q.prod.Checked?
    case Publish => s.q.prod.Written?
    case RaiseAbort => s.q.prod.Idle?
    case AbortTurn(_) => s.cons.Resting? && s.abort
    case ReleaseTurn(_) => s.cons.Resting? && !s.abort && s.b.keyDown
    case Wake(now) => s.cons.Resting? && !s.abort && !s.b.keyDown && s.b.delaying && Elapsed(now, s.b.until)
    case Fetch => s.cons.Resting? && !s.abort && !s.b.keyDown && !s.b.delaying && s.q.tail != s.q.head
    case Apply(_, _) => s.cons.Fetched?
  }

  function Do(s: State, st: Step): State
    requires |s.q.ring| == RING && s.q.head < RING && s.q.tail < RING && Enabled(s, st)
  {
    match st
    case Check(a) => s.(q := s.q.(prod := Checked(a)))
    case WriteSlot => s.(q := Wrote(s.q))
    case Publish => s.(q := Published(s.q))
    case RaiseAbort => s.(abort := true)
    case AbortTurn(ready) => s.(q := Dropped(s.q), b := Clear(s.b, ready))
    case ReleaseTurn(ready) => if ready then s.(b := LetGo(s.b)) else s
    case Wake(_) => s.(b := s.b.(delaying := false))
    case Fetch => s.(cons := Fetched(s.q.ring[s.q.tail]))
    case Apply(ready, now) =>
      if CanDo(s.cons.act, ready) then s.(q := TookOne(s.q), cons := Resting, b := Act(s.b, s.cons.act, now))
        else s.(cons := Resting)
  }

  // ----- what every step keeps

  function At(q: Queue, i: nat): (k: nat)
    ensures k < RING
  {
    (q.origin + i) % RING
  }

  ghost predicate Indices(q: Queue) {
    && |q.ring| == RING && q.head == At(q, |q.pushed|) && q.tail == At(q, q.taken)
    && q.taken <= |q.pushed| < q.taken + RING && (!q.prod.Idle? ==> |q.pushed| + 1 < q.taken + RING)
    && (q.prod.Written? ==> q.ring[q.head] == q.prod.act)
  }

  /** Every slot not yet read holds what was pushed into it. */
  ghost predicate QueueOk(q: Queue) {
    Indices(q) && forall i :: q.taken <= i < |q.pushed| ==> q.ring[At(q, i)] == q.pushed[i]
  }

  /** Consumed actions are the first ones pushed, in order; only an abort skips any. */
  ghost predicate History(s: State) {
    && |s.b.consumed| <= s.q.taken <= |s.q.pushed| && s.b.consumed == s.q.pushed[..|s.b.consumed|]
    && (s.q.taken == |s.b.consumed| || (s.abort && s.cons.Resting?))
    && (s.cons.Fetched? ==> s.q.taken < |s.q.pushed| && s.cons.act == s.q.pushed[s.q.taken] && !s.b.keyDown)
    && (s.b.cleared ==> s.abort && s.cons.Resting?)
  }

  /** What has been sent is what the consumed actions mean, but for a release still owed; after an abort
      has cleared the keyboard, one all-up report follows. */
  ghost predicate Shows(b: Board) {
    if b.cleared then
      !Down(b) && b.sent != [] && b.sent[|b.sent| - 1] == AllUp() && b.sent[..|b.sent| - 1] <= ReportsOf(b.consumed)
    else
      b.held == HeldAfter(b.consumed)
        && b.sent + (if b.keyDown then [ReportOf(b.held, 0, 0)] else []) == ReportsOf(b.consumed)
  }

  ghost predicate Inv(s: State) {
    QueueOk(s.q) && History(s) && Shows(s.b)
  }

  lemma ModPlus(x: nat)
    ensures Plus(x % RING) == (x + 1) % RING
  {
  }

  lemma ModApart(x: nat, y: nat)
    requires x < y < x + RING
    ensures x % RING != y % RING
  {
  }

  lemma ModFull(x: nat, y: nat)
    requires x <= y < x + RING
    ensures Plus(y % RING) != x % RING ==> y + 1 < x + RING
    ensures x % RING != y % RING <==> x != y
  {
    if x < y {
      ModApart(x, y);
    }
  }

  lemma AtFacts(q: Queue)
    requires q.taken <= |q.pushed| < q.taken + RING
    ensures Plus(At(q, |q.pushed|)) == At(q, |q.pushed| + 1) && Plus(At(q, q.taken)) == At(q, q.taken + 1)
    ensures Plus(At(q, |q.pushed|)) != At(q, q.taken) ==> |q.pushed| + 1 < q.taken + RING
    ensures At(q, q.taken) != At(q, |q.pushed|) <==> q.taken != |q.pushed|
  {
    ModPlus(q.origin + |q.pushed|);
    ModPlus(q.origin + q.taken);
    ModFull(q.origin + q.taken, q.origin + |q.pushed|);
  }

  /** Writing the next slot never touches one that is still unread. */
  lemma NoOverwrite(q: Queue, i: nat)
    requires Indices(q) && q.prod.Checked? && q.taken <= i < |q.pushed|
    ensures q.head < RING && Wrote(q).ring[At(q, i)] == q.ring[At(q, i)]
  {
    ModApart(q.origin + i, q.origin + |q.pushed|);
  }

  lemma WroteOk(q: Queue)
    requires QueueOk(q) && q.prod.Checked?
    ensures q.head < RING && QueueOk(Wrote(q))
  {
    forall i | q.taken <= i < |q.pushed|
      ensures Wrote(q).ring[At(q, i)] == q.pushed[i]
    {
      NoOverwrite(q, i);
    }
  }

  lemma PublishedOk(q: Queue)
    requires QueueOk(q) && q.prod.Written?
    ensures QueueOk(Published(q))
  {
    AtFacts(q);
    hide Plus;
    var t := Published(q);
    forall i | t.taken <= i < |t.pushed|
      ensures t.ring[At(t, i)] == t.pushed[i]
    {
    }
  }

  lemma TookOk(q: Queue)
    requires QueueOk(q) && q.taken < |q.pushed|
    ensures QueueOk(TookOne(q))
  {
    AtFacts(q);
    hide Plus;
  }

  lemma DroppedOk(q: Queue)
    requires QueueOk(q)
    ensures QueueOk(Dropped(q))
  {
  }

  lemma ActShows(b: Board, a: Action, now: u32)
    requires Shows(b) && !b.cleared && !b.keyDown
    ensures Shows(Act(b, a, now))
  {
    hide ReportOf, HeldAfter, ReportsOf, Changed;
    Snoc(b.consumed, a);
    var c := Act(b, a, now);
    if a.Key? || a.Delay? {
      Silent(b.held, a);
    }
  }

  lemma Silent(h: Held, a: Action)
    requires a.Key? || a.Delay?
    ensures Changed(h, a) == h
  {
  }

  lemma LetGoShows(b: Board)
    requires Shows(b) && !b.cleared && b.keyDown
    ensures Shows(LetGo(b))
  {
    hide ReportOf, HeldAfter, ReportsOf;
  }

  lemma ClearShows(b: Board, ready: bool)
    requires Shows(b)
    ensures Shows(Clear(b, ready))
  {
    hide ReportOf, HeldAfter, ReportsOf, AllUp;
  }

  lemma CheckedOk(q: Queue, a: Action)
    requires QueueOk(q) && Plus(q.head) != q.tail
    ensures QueueOk(q.(prod := Checked(a)))
  {
    AtFacts(q);
    hide Plus;
  }

  /** The slot the consumer reads is the oldest not yet taken. */
  lemma FetchedOk(q: Queue)
    requires QueueOk(q) && q.tail != q.head
    ensures q.tail < RING && q.taken < |q.pushed| && q.ring[q.tail] == q.pushed[q.taken]
  {
    AtFacts(q);
    hide Plus;
  }

  lemma ProducerKeeps(s: State, st: Step)
    requires Inv(s) && Enabled(s, st) && (st.Check? || st.WriteSlot? || st.Publish? || st.RaiseAbort?)
    ensures s.q.head < RING && s.q.tail < RING && Inv(Do(s, st))
  {
    assert s.q.head < RING && s.q.tail < RING && |s.q.ring| == RING;
    if st.Check? {
      CheckedOk(s.q, st.act);
    } else if st.WriteSlot? {
      WroteOk(s.q);
    } else if st.Publish? {
      PublishedOk(s.q);
    }
    hide QueueOk, Shows, Plus;
  }

  lemma InBounds(q: Queue)
    requires QueueOk(q)
    ensures q.head < RING && q.tail < RING && |q.ring| == RING
  {
  }

  /** At most 63 actions wait, and the next one finds no room exactly when that many do. */
  lemma Capacity(q: Queue)
    requires QueueOk(q)
    ensures 0 <= |q.pushed| - q.taken <= 63 && (Plus(q.head) == q.tail <==> |q.pushed| - q.taken == 63)
    ensures q.head == q.tail <==> |q.pushed| == q.taken
  {
    var h, t := q.origin + |q.pushed|, q.origin + q.taken;
    ModPlus(h);
    if h + 1 < t + RING {
      ModApart(t, h + 1);
    } else {
      assert h + 1 == t + RING;
    }
    if t < h {
      ModApart(t, h);
    }
  }

  /** A delay begun at `start` is over after its milliseconds and not before, for as long as the clocks can be told
      apart, if it is at most 2^31 of them; a longer one is over at once. */
  lemma DelayLasts(b: Board, start: u32, ms: u32, e: nat)
    requires 0 < ms && e < ms + 0x8000_0000
    ensures Act(b, Delay(ms), start).delaying
    ensures var until := Act(b, Delay(ms), start).until;
      if ms <= 0x8000_0000 then Elapsed((start + e) % W32, until) <==> ms <= e else Elapsed(start, until)
  {
    hide ReportOf, Changed;
    if ms <= 0x8000_0000 {
      Since(start, ms, e);
    } else {
      Since(start, ms, 0);
      Unwrapped(start);
    }
  }

  lemma Since(start: u32, ms: u32, e: nat)
    requires e < W32 + ms
    ensures ((start + e) % W32 - (start + ms) % W32) % W32 == (if ms <= e then e - ms else e - ms + W32)
  {
    var x, y := (start + e) / W32, (start + ms) / W32;
    var d := (start + e) % W32 - (start + ms) % W32;
    assert d == e - ms - W32 * (x - y);
    if ms <= e {
      Congruent(d, e - ms, y - x);
    } else {
      Congruent(d, e - ms + W32, y - x - 1);
    }
  }

  lemma Congruent(d: int, r: int, k: int)
    requires d == r + W32 * k && 0 <= r < W32
    ensures d % W32 == r
  {
  }

  lemma ApplyKeeps(s: State, st: Step)
    requires Inv(s) && Enabled(s, st) && st.Apply?
    ensures s.q.head < RING && s.q.tail < RING && Inv(Do(s, st))
  {
    hide QueueOk, Shows, Plus, ReportOf, Changed, HeldAfter, ReportsOf;
    InBounds(s.q);
    TookOk(s.q);
    ActShows(s.b, s.cons.act, st.now);
  }

  lemma ConsumerKeeps(s: State, st: Step)
    requires Inv(s) && Enabled(s, st) && (st.AbortTurn? || st.ReleaseTurn? || st.Wake? || st.Fetch?)
    ensures s.q.head < RING && s.q.tail < RING && Inv(Do(s, st))
  {
    hide QueueOk, Shows, Plus, ReportOf, Elapsed, AllUp;
    InBounds(s.q);
    if st.Fetch? {
      FetchedOk(s.q);
    } else if st.Wake? {
      NotDelaying(s.b);
    } else if st.AbortTurn? {
      DroppedOk(s.q);
      ClearShows(s.b, st.ready);
    } else {
      LetGoShows(s.b);
    }
  }

  lemma NotDelaying(b: Board)
    requires Shows(b)
    ensures Shows(b.(delaying := false))
  {
  }

  /** Every step of either task keeps the invariant. */
  lemma StepKeeps(s: State, st: Step)
    requires Inv(s) && Enabled(s, st)
    ensures s.q.head < RING && s.q.tail < RING && Inv(Do(s, st))
  {
    hide Inv, Do, Enabled;
    if st.Check? || st.WriteSlot? || st.Publish? || st.RaiseAbort? {
      ProducerKeeps(s, st);
    } else if st.Apply? {
      ApplyKeeps(s, st);
    } else {
      ConsumerKeeps(s, st);
    }
  }

  // ----- whole sessions

  /** A session as it is armed: empty queue, nothing held, nothing owed. */
  ghost predicate Armed(s: State) {
    && |s.q.ring| == RING && s.q.origin < RING && s.q.head == s.q.tail == s.q.origin && s.q.prod.Idle?
      && s.q.pushed == [] && s.q.taken == 0
    && !s.abort && s.cons.Resting? && s.b.consumed == [] && s.b.sent == [] && !s.b.cleared && !Down(s.b)
  }

  /** `steps` can be taken one after another from `s`, and lead to `t`. */
  ghost predicate Leads(s: State, steps: seq<Step>, t: State)
    decreases |steps|
  {
    if steps == [] then s == t
    else
      var st := steps[|steps| - 1];
      exists u :: Leads(s, steps[..|steps| - 1], u) && |u.q.ring| == RING && u.q.head < RING && u.q.tail < RING
        && Enabled(u, st) && t == Do(u, st)
  }

  lemma {:induction false} Always(s: State, steps: seq<Step>, t: State)
    requires Armed(s) && Leads(s, steps, t)
    ensures Inv(t)
    decreases |steps|
  {
    if steps == [] {
      assert At(s.q, 0) == s.q.origin;
    } else {
      var st := steps[|steps| - 1];
      hide Inv, Do, Enabled;
      var u :| Leads(s, steps[..|steps| - 1], u) && |u.q.ring| == RING && u.q.head < RING && u.q.tail < RING
        && Enabled(u, st) && t == Do(u, st);
      Always(s, steps[..|steps| - 1], u);
      StepKeeps(u, st);
    }
  }

  /** Under any interleaving of the two tasks: what is consumed is a prefix of what was pushed, unread slots
      are intact, and the host saw what the consumed actions mean. */
  lemma AnyInterleaving(s: State, steps: seq<Step>, t: State)
    requires Armed(s) && Leads(s, steps, t)
    ensures t.b.consumed <= t.q.pushed && |t.q.ring| == RING
    ensures forall i :: t.q.taken <= i < |t.q.pushed| ==> t.q.ring[At(t.q, i)] == t.q.pushed[i]
    ensures !t.b.cleared ==> t.b.sent <= ReportsOf(t.b.consumed) && |ReportsOf(t.b.consumed)| <= |t.b.sent| + 1
  {
    hide Leads, ReportOf, ReportsOf, HeldAfter;
    Always(s, steps, t);
  }

  /** Once the producer's flush returns with no abort, everything pushed has been shown. */
  lemma Flushed(s: State)
    requires Inv(s) && !s.abort && s.q.head == s.q.tail && !s.b.keyDown
    ensures s.b.consumed == s.q.pushed && s.b.sent == ReportsOf(s.q.pushed)
  {
    hide ReportOf, ReportsOf, HeldAfter;
    AtFacts(s.q);
  }

  /** After an abort, one turn with the host listening leaves all keys up. */
  lemma AbortLetsGo(s: State)
    requires Inv(s) && s.abort && s.cons.Resting?
    ensures s.q.head < RING && s.q.tail < RING
    ensures var t := Do(s, AbortTurn(true));
      !Down(t.b) && t.q.head == t.q.tail && (t.b.sent != [] ==> t.b.sent[|t.b.sent| - 1] == AllUp())
  {
    hide ReportOf, ReportsOf, HeldAfter;
    LastReport(s.b.consumed);
  }
}

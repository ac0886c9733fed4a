/** usbhid_service and ring_push as the two tasks run them, on shared fields. */
module HidService {
  import opened Bytes
  import opened Hid

  /** One turn of the USB task, as steps of the state machine. */
  function Turn(s: State, ready: bool, now: u32): State
    requires Inv(s) && s.cons.Resting?
  {
    StepsKeep(s, ready, now);
    if s.abort then Do(s, AbortTurn(ready))
    else if s.b.keyDown then Do(s, ReleaseTurn(ready))
    else if s.b.delaying && !Elapsed(now, s.b.until) then s
    else
      var w := if s.b.delaying then Do(s, Wake(now)) else s;
      if w.q.tail == w.q.head then w else Do(Do(w, Fetch), Apply(ready, now))
  }

  lemma StepsKeep(s: State, ready: bool, now: u32)
    requires Inv(s) && s.cons.Resting?
    ensures |s.q.ring| == RING && s.q.head < RING && s.q.tail < RING
  {
    InBounds(s.q);
  }

  /** A turn ends between turns, with the invariant kept. */
  lemma TurnKeeps(s: State, ready: bool, now: u32)
    requires Inv(s) && s.cons.Resting?
    ensures Inv(Turn(s, ready, now)) && Turn(s, ready, now).cons.Resting?
  {
    InBounds(s.q);
    hide Inv, Shows, QueueOk, Elapsed, Plus, ReportOf, Changed, Act, Clear;
    if s.abort {
      StepKeeps(s, AbortTurn(ready));
    } else if s.b.keyDown {
      StepKeeps(s, ReleaseTurn(ready));
    } else if !(s.b.delaying && !Elapsed(now, s.b.until)) {
      var w := if s.b.delaying then Do(s, Wake(now)) else s;
      if s.b.delaying {
        StepKeeps(s, Wake(now));
      }
      if w.q.tail != w.q.head {
        StepKeeps(w, Fetch);
        StepKeeps(Do(w, Fetch), Apply(ready, now));
      }
    }
  }

  class Keyboard {
    const ring: array<Action>
    var head: nat
    var tail: nat
    var abort: bool
    var keyDown: bool
    var delaying: bool
    var until: u32
    var heldMod: bv8
    const heldKeys: array<byte>
    var heldN: nat
    ghost var st: State

    /** The keys held down, in the order they were added. */
    function Keys(): seq<byte>
      requires heldN <= heldKeys.Length
      reads this, heldKeys
    {
      heldKeys[..heldN]
    }

    ghost predicate Valid()
      reads this, ring, heldKeys
    {
      && ring.Length == RING && heldKeys.Length == HELD_MAX && heldN <= HELD_MAX
      && Inv(st) && st.cons.Resting?
      && st.q.ring == ring[..] && st.q.head == head && st.q.tail == tail && st.abort == abort
      && st.b.keyDown == keyDown && st.b.delaying == delaying && st.b.until == until
        && st.b.held == Held(heldMod, Keys())
    }

    method HeldAdd(kc: byte)
      requires heldKeys.Length == HELD_MAX && heldN <= HELD_MAX
      modifies this`heldN, heldKeys
      ensures heldN <= HELD_MAX && Keys() == AddKey(old(Keys()), kc)
    {
      if kc == 0 {
        return;
      }
      for j := 0 to heldN
        invariant kc !in heldKeys[..j]
      {
        if heldKeys[j] == kc {
          assert kc in Keys();
          return;
        }
        assert heldKeys[..j + 1] == heldKeys[..j] + [heldKeys[j]];
      }
      if heldN < HELD_MAX {
        heldKeys[heldN] := kc;
        heldN := heldN + 1;
        assert heldKeys[..heldN] == old(Keys()) + [kc];
      }
    }

    /** Close the gap at `j`. */
    method ShiftDown(j: nat)
      requires heldKeys.Length == HELD_MAX && j < heldN <= HELD_MAX
      modifies this`heldN, heldKeys
      ensures heldN == old(heldN) - 1 && Keys() == old(Keys())[..j] + old(Keys())[j + 1..]
    {
      for k := j + 1 to heldN
        invariant heldN == old(heldN)
        invariant forall i :: 0 <= i < j || k - 1 < i < HELD_MAX ==> heldKeys[i] == old(heldKeys[i])
        invariant forall i :: j + 1 <= i < k ==> heldKeys[i - 1] == old(heldKeys[i])
        invariant k < HELD_MAX ==> heldKeys[k] == old(heldKeys[k])
      {
        heldKeys[k - 1] := heldKeys[k];
      }
      ghost var was := old(Keys());
      heldN := heldN - 1;
      assert Keys()[..j] == was[..j];
      assert forall i :: j + 1 <= i < |was| ==> Keys()[i - 1] == was[i];
      assert Keys()[j..] == was[j + 1..];
      assert Keys() == Keys()[..j] + Keys()[j..];
    }

    method HeldRemove(kc: byte)
      requires heldKeys.Length == HELD_MAX && heldN <= HELD_MAX
      modifies this`heldN, heldKeys
      ensures heldN <= HELD_MAX && Keys() == DropKey(old(Keys()), kc)
    {
      ghost var keys := Keys();
      DropNone(keys, kc);
      if kc == 0 {
        return;
      }
      for j := 0 to heldN
        invariant heldN == old(heldN) && heldKeys[..] == old(heldKeys[..]) && forall i :: 0 <= i < j ==> keys[i] != kc
      {
        if heldKeys[j] == kc {
          DropAt(keys, kc, j);
          ShiftDown(j);
          return;
        }
      }
      DropAbsent(keys, kc);
    }

    /** One report: everything held, and at most one transient key on top. */
    method ReportNow(mod: bv8, kc: byte) returns (r: Report)
      requires heldKeys.Length == HELD_MAX && heldN <= HELD_MAX
      ensures r == ReportOf(Held(heldMod, Keys()), mod, kc)
    {
      var keys: seq<byte> := [];
      for j := 0 to heldN
        invariant keys == heldKeys[..j]
      {
        keys := keys + [heldKeys[j]];
      }
      if kc != 0 {
        keys := keys + [kc];
      }
      r := Report(heldMod | mod, keys + seq(6 - |keys|, _ => 0));
    }

    /** usbhid_service during a session: one turn of the state machine. */
    method Service(ready: bool, now: u32) returns (sent: Maybe<Report>)
      requires Valid()
      modifies this, heldKeys
      ensures Valid() && st == Turn(old(st), ready, now)
      ensures st.b.sent == old(st).b.sent + Sent(sent)
    {
      hide Inv, ReportOf, Elapsed, Plus, Turn, Act, Clear;
      InBounds2();
      TurnKeeps(st, ready, now);
      TurnStops(st, ready, now);
      ghost var next := Turn(st, ready, now);
      sent := None;
      if abort {
        tail := head;
        sent := LetAllGo(ready);
      } else if keyDown {
        if ready {
          var r := ReportNow(0, 0);
          sent := Some(r);
          keyDown := false;
        }
      } else if !(delaying && !Elapsed(now, until)) {
        TurnGoes(st, ready, now);
        delaying := false;
        if tail != head {
          sent := Carry(ring[tail], ready, now);
        }
      }
      st := next;
    }

    /** Let go of everything that is down, if the host is listening. */
    method LetAllGo(ready: bool) returns (sent: Maybe<Report>)
      requires heldKeys.Length == HELD_MAX && heldN <= HELD_MAX
      modifies this`keyDown, this`delaying, this`heldMod, this`heldN
      ensures heldN <= HELD_MAX
      ensures var c := Clear(old(Plain()), ready); Plain() == c.(sent := [], cleared := false) && c.sent == Sent(sent)
    {
      hide ReportOf;
      sent := None;
      delaying := false;
      if (keyDown || heldN != 0 || heldMod != 0) && ready {
        keyDown, heldMod, heldN := false, 0, 0;
        var r := ReportNow(0, 0);
        sent := Some(r);
      }
    }

    /** Carry out one action, if it can be, and give its slot back. */
    method Carry(a: Action, ready: bool, now: u32) returns (sent: Maybe<Report>)
      requires heldKeys.Length == HELD_MAX && heldN <= HELD_MAX
      modifies this`keyDown, this`delaying, this`until, this`heldMod, this`heldN, this`tail, heldKeys
      ensures heldN <= HELD_MAX
      ensures !CanDo(a, ready) ==> sent.None? && Plain() == old(Plain()) && tail == old(tail)
      ensures CanDo(a, ready) ==> tail == Plus(old(tail))
      ensures CanDo(a, ready) ==> var c := Act(old(Plain()), a, now);
        Plain() == c.(consumed := [], sent := []) && c.sent == Sent(sent)
    {
      hide ReportOf, Plus, Changed;
      sent := None;
      if a.Delay? {
        until := (now + a.ms) % W32;
        delaying := a.ms > 0;
        tail := Plus(tail);
        return;
      }
      if !ready {
        return;
      }
      var r;
      if a.Key? {
        r := ReportNow(a.mod, a.kc);
        keyDown := true;
      } else {
        Change(a);
        r := ReportNow(0, 0);
      }
      sent := Some(r);
      tail := Plus(tail);
    }

    /** What HOLD and RELEASE do to the held set. */
    method Change(a: Action)
      requires heldKeys.Length == HELD_MAX && heldN <= HELD_MAX && (a.Hold? || a.Release?)
      modifies this`heldMod, this`heldN, heldKeys
      ensures heldN <= HELD_MAX && Held(heldMod, Keys()) == Changed(old(Held(heldMod, Keys())), a)
    {
      hide AddKey, DropKey;
      if a.Hold? {
        heldMod := heldMod | a.mod;
        HeldAdd(a.kc);
      } else if a.mod == 0 && a.kc == 0 {
        heldMod, heldN := 0, 0;
      } else {
        heldMod := heldMod & !a.mod;
        HeldRemove(a.kc);
      }
    }

    /** What the USB task owns, without the history. */
    ghost function Plain(): Board
      requires heldN <= heldKeys.Length
      reads this, heldKeys
    {
      Board(keyDown, delaying, until, Held(heldMod, Keys()), [], [], false)
    }

    lemma InBounds2()
      requires Valid()
      ensures head < RING && tail < RING
    {
      InBounds(st.q);
    }

    /** The steps of ring_push, each of which a turn of the USB task can come before: look for room, ... */
    method CheckRoom(a: Action) returns (ok: bool)
      requires Valid() && st.q.prod.Idle?
      modifies this`st
      ensures Valid() && (ok <==> !abort && Plus(head) != tail)
      ensures st == if ok then Do(old(st), Check(a)) else old(st)
    {
      hide Inv, Plus;
      InBounds2();
      ok := !abort && Plus(head) != tail;
      if ok {
        StepKeeps(st, Check(a));
        st := Do(st, Check(a));
      }
    }

    /** ... fill the slot, ... */
    method FillSlot(a: Action)
      requires Valid() && st.q.prod == Checked(a)
      modifies this`st, ring
      ensures Valid() && |old(st).q.ring| == RING && old(st).q.head < RING && st == Do(old(st), WriteSlot)
    {
      hide Inv, Plus;
      InBounds2();
      StepKeeps(st, WriteSlot);
      ring[head] := a;
      st := Do(st, WriteSlot);
    }

    /** ... and hand it over. */
    method PublishSlot()
      requires Valid() && st.q.prod.Written?
      modifies this`st, this`head
      ensures Valid() && st == Do(old(st), Publish)
    {
      hide Inv, Plus;
      StepKeeps(st, Publish);
      head := Plus(head);
      st := Do(st, Publish);
    }

    /** One try of ring_push: the action goes behind the others, unless aborted or full. */
    method TryPush(a: Action) returns (ok: bool)
      requires Valid() && st.q.prod.Idle?
      modifies this`st, this`head, ring
      ensures Valid() && st.q.prod.Idle? && (ok <==> !old(abort) && Plus(old(head)) != old(tail))
      ensures st.q.pushed == if ok then old(st).q.pushed + [a] else old(st).q.pushed
      ensures st.b == old(st).b && st.abort == old(st).abort
    {
      hide Inv, Plus;
      ok := CheckRoom(a);
      if ok {
        FillSlot(a);
        PublishSlot();
      }
    }
  }

  function Sent(r: Maybe<Report>): seq<Report> {
    if r.Some? then [r.value] else []
  }

  /** A board without its history. */
  function Bare(b: Board): Board {
    b.(consumed := [], sent := [], cleared := false)
  }

  /** Past any delay, without its history. */
  function Unhurried(b: Board): Board {
    Bare(b).(delaying := false)
  }

  /** A turn in terms of what the USB task owns: aborted, a key to let go of, or waiting. */
  lemma TurnStops(s: State, ready: bool, now: u32)
    requires Inv(s) && s.cons.Resting?
    ensures s.abort ==> TurnIs(s, Turn(s, ready, now), s.q.head, Clear(Bare(s.b), ready))
    ensures !s.abort && s.b.keyDown ==>
      TurnIs(s, Turn(s, ready, now), s.q.tail, if ready then LetGo(Bare(s.b)) else Bare(s.b))
    ensures !s.abort && !s.b.keyDown && s.b.delaying && !Elapsed(now, s.b.until) ==>
      TurnIs(s, Turn(s, ready, now), s.q.tail, Bare(s.b))
  {
    hide Inv, Elapsed, Plus, ReportOf, Act;
  }

  /** Otherwise the next action, if there is one and it can be carried out. */
  predicate Goes(s: State, ready: bool) {
    s.q.tail != s.q.head && s.q.tail < |s.q.ring| && CanDo(s.q.ring[s.q.tail], ready)
  }

  lemma TurnGoes(s: State, ready: bool, now: u32)
    requires Inv(s) && s.cons.Resting? && !s.abort && !s.b.keyDown && !(s.b.delaying && !Elapsed(now, s.b.until))
    ensures |s.q.ring| == RING && s.q.tail < RING
    ensures Goes(s, ready) ==>
      TurnIs(s, Turn(s, ready, now), Plus(s.q.tail), Act(Unhurried(s.b), s.q.ring[s.q.tail], now))
    ensures !Goes(s, ready) ==> TurnIs(s, Turn(s, ready, now), s.q.tail, Unhurried(s.b))
  {
    hide Inv, Elapsed, Plus, ReportOf, Changed, Clear, Act, LetGo;
    StepsKeep(s, ready, now);
    ActBare(if s.b.delaying then s.b.(delaying := false) else s.b, s.q.ring[s.q.tail], now);
  }

  /** What an action does does not depend on the history. */
  lemma ActBare(b: Board, a: Action, now: u32)
    ensures Bare(Act(b, a, now)) == Bare(Act(Bare(b), a, now))
      && Act(b, a, now).sent == b.sent + Act(Bare(b), a, now).sent
  {
    hide ReportOf, Changed;
  }

  /** Turn `t` of `s` left the index at `tail` and did to the rest what made `c` of it. */
  ghost predicate TurnIs(s: State, t: State, tail: nat, c: Board) {
    && t.q == s.q.(tail := t.q.tail, taken := t.q.taken) && t.abort == s.abort
    && t.q.tail == tail && Bare(t.b) == Bare(c) && t.b.sent == s.b.sent + c.sent
  }

  lemma DropNone(keys: seq<byte>, kc: byte)
    ensures kc == 0 ==> DropKey(keys, kc) == keys
  {
  }

  lemma {:induction false} DropAt(keys: seq<byte>, kc: byte, j: nat)
    requires kc != 0 && j < |keys| && keys[j] == kc && forall i :: 0 <= i < j ==> keys[i] != kc
    ensures DropKey(keys, kc) == keys[..j] + keys[j + 1..]
  {
    if j > 0 {
      var rest := keys[1..];
      DropAt(rest, kc, j - 1);
      assert keys[..j] == [keys[0]] + rest[..j - 1] && keys[j + 1..] == rest[j..];
    }
  }

  lemma {:induction false} DropAbsent(keys: seq<byte>, kc: byte)
    requires forall i :: 0 <= i < |keys| ==> keys[i] != kc
    ensures DropKey(keys, kc) == keys
  {
    if keys != [] && kc != 0 {
      DropAbsent(keys[1..], kc);
    }
  }
}

/**
 The Conn object of internal/connection/hub.go: SendReporting, recordDrop, closeWith
 and runWriter on its fields. Each method, run by itself, is proved to be a run of
 the concurrent machine in module SendQueue (the ghost state `s`, and WriterIsARun),
 so the theorems about all interleavings are about this code.
 */
module ConnObject {
  import opened Basics
  import opened SendQueue
  import opened SendQueueTheorems
  import opened SendQueueClose

  // The frames up to and including the first close frame, and those behind it.
  function UpToClose(frames: seq<Frame>): seq<Frame> {
    if frames == [] then []
    else if frames[0].Close? then [frames[0]]
    else [frames[0]] + UpToClose(frames[1..])
  }

  function BehindClose(frames: seq<Frame>): seq<Frame> {
    if frames == [] then []
    else if frames[0].Close? then frames[1..]
    else BehindClose(frames[1..])
  }

  predicate HasClose(frames: seq<Frame>) {
    frames != [] && (frames[0].Close? || HasClose(frames[1..]))
  }

  // The writer reads up to the first close frame, which is the last it reads.
  lemma {:induction false} CloseSplits(frames: seq<Frame>)
    ensures UpToClose(frames) + BehindClose(frames) == frames
    ensures HasClose(frames) <==> exists i :: 0 <= i < |frames| && frames[i].Close?
    ensures HasClose(frames) ==> UpToClose(frames)[|UpToClose(frames)| - 1].Close?
    ensures forall i :: 0 <= i < |UpToClose(frames)| - 1 ==> !UpToClose(frames)[i].Close?
  {
    if frames != [] && !frames[0].Close? {
      var rest := frames[1..];
      CloseSplits(rest);
      assert frames == [frames[0]] + rest;
      assert forall i :: 0 < i < |frames| ==> frames[i] == rest[i - 1];
      assert HasClose(rest) ==> exists i :: 0 <= i < |frames| && frames[i].Close? by {
        if HasClose(rest) {
          var k :| 0 <= k < |rest| && rest[k].Close?;
          assert frames[k + 1].Close?;
        }
      }
    }
  }

  // ---- What the writer does with a queue, when write number `failAt` fails ----

  function Sooner(failAt: Option<nat>): Option<nat> {
    if failAt.Some? && failAt.value > 0 then Some(failAt.value - 1) else failAt
  }

  // It stops at this frame, written or not.
  predicate StopsAt(f: Frame, failAt: Option<nat>) {
    f.Close? || failAt == Some(0)
  }

  function Taken(frames: seq<Frame>, failAt: Option<nat>): seq<Frame> {
    if frames == [] then []
    else if StopsAt(frames[0], failAt) then [frames[0]]
    else [frames[0]] + Taken(frames[1..], Sooner(failAt))
  }

  function Emitted(frames: seq<Frame>, failAt: Option<nat>): seq<Frame> {
    if frames == [] || failAt == Some(0) then []
    else if frames[0].Close? then [frames[0]]
    else [frames[0]] + Emitted(frames[1..], Sooner(failAt))
  }

  function Remains(frames: seq<Frame>, failAt: Option<nat>): seq<Frame> {
    if frames == [] then []
    else if StopsAt(frames[0], failAt) then frames[1..]
    else Remains(frames[1..], Sooner(failAt))
  }

  predicate Ends(frames: seq<Frame>, failAt: Option<nat>) {
    frames != [] && (StopsAt(frames[0], failAt) || Ends(frames[1..], Sooner(failAt)))
  }

  // If the failing write comes before the end of what there is to write, the frames
  // before it were written, the frame itself is lost and the rest stays queued;
  // otherwise everything up to the close frame is written.
  lemma {:induction false} WriterOutcome(frames: seq<Frame>, failAt: Option<nat>)
    ensures var all := UpToClose(frames);
            if failAt.Some? && failAt.value < |all| then
              var k := failAt.value;
              && k < |frames| && Emitted(frames, failAt) == frames[..k] && Taken(frames, failAt) == frames[..k + 1]
              && Remains(frames, failAt) == frames[k + 1..] && Ends(frames, failAt)
            else
              && Emitted(frames, failAt) == all && Taken(frames, failAt) == all
              && Remains(frames, failAt) == BehindClose(frames) && (Ends(frames, failAt) <==> HasClose(frames))
  {
    if frames != [] && !StopsAt(frames[0], failAt) {
      var rest, later := frames[1..], Sooner(failAt);
      WriterOutcome(rest, later);
      if failAt.Some? && failAt.value < |UpToClose(frames)| {
        var k := failAt.value;
        assert frames[..k] == [frames[0]] + rest[..k - 1];
        assert frames[..k + 1] == [frames[0]] + rest[..k];
      }
    }
  }

  lemma BytesTaken(frames: seq<Frame>, failAt: Option<nat>)
    requires frames != []
    ensures Bytes(Taken(frames, failAt)) ==
            Size(frames[0]) + if StopsAt(frames[0], failAt) then 0 else Bytes(Taken(frames[1..], Sooner(failAt)))
  {
    BytesFromFront(Taken(frames, failAt));
    assert Taken(frames, failAt)[1..] == if StopsAt(frames[0], failAt) then [] else Taken(frames[1..], Sooner(failAt));
  }

  // One more step of goroutine `me` after `steps`.
  lemma AdvanceOnce(s: State, steps: seq<Step>, me: nat)
    requires me < |Exec(s, steps).slots|
    ensures var cur := Exec(s, steps);
            Exec(s, steps + [Advance(me, false)]) == GoNext(cur, me, MoveOf(cur, cur.slots[me], false))
  {
    ExecOne(s, steps, Advance(me, false));
  }

  lemma StartOnce(s: State, me: nat, call: Call)
    requires me < |s.slots| && s.slots[me] == Free
    ensures Exec(s, [Start(me, call)]) == GoNext(s, me, Move(Started(call), Nothing))
  {
    ExecOne(s, [], Start(me, call));
    assert [] + [Start(me, call)] == [Start(me, call)];
  }

  // The same from a state that differs from `base` only in that goroutine's slot.
  lemma AdvanceFrom(s: State, steps: seq<Step>, me: nat, base: State, slot: Slot)
    requires me < |base.slots| && Exec(s, steps) == base.(slots := base.slots[me := slot])
    ensures var m := MoveOf(base, slot, false);
            Exec(s, steps + [Advance(me, false)]) == Effected(base, m.effect).(slots := base.slots[me := m.slot])
  {
    var cur := Exec(s, steps);
    var m := MoveOf(base, slot, false);
    AdvanceOnce(s, steps, me);
    SlotsDoNotMatter(base, cur, slot);
    assert base.slots[me := slot][me := m.slot] == base.slots[me := m.slot];
    assert GoNext(cur, me, m) == Effected(base, m.effect).(slots := base.slots[me := m.slot]);
  }

  lemma SlotsDoNotMatter(s: State, s': State, slot: Slot)
    requires s' == s.(slots := s'.slots)
    ensures MoveOf(s, slot, false) == MoveOf(s', slot, false)
  {
  }

  // ---- The machine's side of closeWith ----

  lemma CloseIgnored(s: State, steps: seq<Step>, me: nat)
    requires me < |Exec(s, steps).slots| && Exec(s, steps).slots[me].Closing? && Exec(s, steps).once == Done
    ensures Exec(s, steps + [Advance(me, false)]) == Exec(s, steps).(slots := Exec(s, steps).slots[me := Free])
  {
    AdvanceOnce(s, steps, me);
  }

  lemma CloseEnters(s: State, steps: seq<Step>, me: nat)
    requires me < |Exec(s, steps).slots| && Exec(s, steps).slots[me].Closing? && Exec(s, steps).once == NotYet
    ensures var cur := Exec(s, steps);
            Exec(s, steps + [Advance(me, false)]) ==
            Entered(cur, cur.slots[me].category).(slots := cur.slots[me := CloseSending(cur.slots[me].code)])
  {
    AdvanceOnce(s, steps, me);
    EnterMove(Exec(s, steps), me);
  }

  lemma EnterMove(cur: State, me: nat)
    requires me < |cur.slots| && cur.slots[me].Closing? && cur.once == NotYet
    ensures GoNext(cur, me, MoveOf(cur, cur.slots[me], false)) ==
            Entered(cur, cur.slots[me].category).(slots := cur.slots[me := CloseSending(cur.slots[me].code)])
  {
  }

  function Entered(s: State, category: string): State {
    s.(once := Busy, reason := Some(category))
  }

  function CloseSent(s: State, code: nat): State {
    if HasRoom(s) then Effected(s, Push(Close(code))) else s
  }

  lemma CloseSends(s: State, steps: seq<Step>, me: nat, base: State, code: nat)
    requires me < |base.slots| && Exec(s, steps) == base.(slots := base.slots[me := CloseSending(code)])
    ensures Exec(s, steps + [Advance(me, false)]) == CloseSent(base, code).(slots := base.slots[me := CloseFlagging])
  {
    AdvanceFrom(s, steps, me, base, CloseSending(code));
  }

  lemma CloseFlags(s: State, steps: seq<Step>, me: nat, base: State)
    requires me < |base.slots| && Exec(s, steps) == base.(slots := base.slots[me := CloseFlagging])
    ensures Exec(s, steps + [Advance(me, false)]) == base.(once := Done, closed := true, slots := base.slots[me := Free])
  {
    AdvanceFrom(s, steps, me, base, CloseFlagging);
  }

  lemma CloseRuns(s: State, before: seq<Step>, me: nat, code: nat, category: string)
    requires me < |Exec(s, before).slots| && Exec(s, before).slots[me] == Closing(code, category)
    requires Exec(s, before).once == NotYet
    ensures var go, cur := Advance(me, false), Exec(s, before);
            Exec(s, before + [go] + [go] + [go]) ==
            CloseSent(Entered(cur, category), code).(once := Done, closed := true, slots := cur.slots[me := Free])
  {
    var go, entered := Advance(me, false), Entered(Exec(s, before), category);
    CloseEnters(s, before, me);
    CloseSends(s, before + [go], me, entered, code);
    CloseFlags(s, before + [go] + [go], me, CloseSent(entered, code));
  }

  // ---- The machine's side of SendReporting ----

  lemma StartAndCheck(s: State, me: nat, size: nat, body: nat)
    requires me < |s.slots| && s.slots[me] == Free
    ensures Exec(s, [Start(me, SendReporting(size, body)), Advance(me, false)]) ==
            s.(slots := s.slots[me := if s.closed then Free else Loading(Text(size, body))])
  {
    var start, go, f := Start(me, SendReporting(size, body)), Advance(me, false), Text(size, body);
    StartOnce(s, me, SendReporting(size, body));
    AdvanceFrom(s, [start], me, s, Checking(f));
    assert [start] + [go] == [start, go];
  }

  lemma SendRefused(s: State, me: nat, size: nat, body: nat)
    requires me < |s.slots| && s.slots[me] == Free && s.closed
    ensures Exec(s, [Start(me, SendReporting(size, body)), Advance(me, false)]) == s
  {
    StartAndCheck(s, me, size, body);
    assert s.slots[me := Free] == s.slots;
  }

  lemma SendLoads(s: State, me: nat, size: nat, body: nat)
    requires me < |s.slots| && s.slots[me] == Free && !s.closed
    ensures var go, f := Advance(me, false), Text(size, body);
            Exec(s, [Start(me, SendReporting(size, body)), go, go]) ==
            s.(slots := s.slots[me := if s.bufBytes + size > s.maxBuf then Dropping else Ready(f)])
  {
    var start, go := Start(me, SendReporting(size, body)), Advance(me, false);
    StartAndCheck(s, me, size, body);
    AdvanceFrom(s, [start, go], me, s, Loading(Text(size, body)));
    assert [start, go] + [go] == [start, go, go];
  }

  lemma SendRaises(s: State, steps: seq<Step>, me: nat, base: State, f: Frame)
    requires me < |base.slots| && Exec(s, steps) == base.(slots := base.slots[me := Queued(f)])
    ensures Exec(s, steps + [Advance(me, false)]) ==
            base.(bufBytes := base.bufBytes + Size(f), slots := base.slots[me := Resetting])
  {
    AdvanceFrom(s, steps, me, base, Queued(f));
  }

  lemma SendResets(s: State, steps: seq<Step>, me: nat, base: State)
    requires me < |base.slots| && Exec(s, steps) == base.(slots := base.slots[me := Resetting])
    ensures Exec(s, steps + [Advance(me, false)]) ==
            base.(drops := 0, events := base.events + [false], slots := base.slots[me := Free])
  {
    AdvanceFrom(s, steps, me, base, Resetting);
  }

  lemma SendFindsFull(s: State, me: nat, size: nat, body: nat)
    requires me < |s.slots| && s.slots[me] == Free && !s.closed && s.bufBytes + size <= s.maxBuf && !HasRoom(s)
    ensures var go := Advance(me, false);
            Exec(s, [Start(me, SendReporting(size, body)), go, go] + [go]) == s.(slots := s.slots[me := Dropping])
  {
    var go := Advance(me, false);
    SendLoads(s, me, size, body);
    AdvanceFrom(s, [Start(me, SendReporting(size, body)), go, go], me, s, Ready(Text(size, body)));
  }

  lemma SendFindsRoom(s: State, me: nat, size: nat, body: nat)
    requires me < |s.slots| && s.slots[me] == Free && !s.closed && s.bufBytes + size <= s.maxBuf && HasRoom(s)
    ensures var go, f := Advance(me, false), Text(size, body);
            Exec(s, [Start(me, SendReporting(size, body)), go, go] + [go]) ==
            Effected(s, Push(f)).(slots := s.slots[me := Queued(f)])
  {
    var go := Advance(me, false);
    SendLoads(s, me, size, body);
    AdvanceFrom(s, [Start(me, SendReporting(size, body)), go, go], me, s, Ready(Text(size, body)));
  }

  lemma SendIsCounted(s: State, steps: seq<Step>, me: nat, base: State, f: Frame)
    requires me < |base.slots| && base.slots[me] == Free
    requires Exec(s, steps) == base.(slots := base.slots[me := Queued(f)])
    ensures Exec(s, steps + [Advance(me, false)] + [Advance(me, false)]) ==
            base.(bufBytes := base.bufBytes + Size(f), drops := 0, events := base.events + [false])
  {
    SendRaises(s, steps, me, base, f);
    SendResets(s, steps + [Advance(me, false)], me, base.(bufBytes := base.bufBytes + Size(f)));
    assert base.slots[me := Free] == base.slots;
  }

  lemma FreeAgain(slots: seq<Slot>, me: nat, slot: Slot)
    requires me < |slots| && slots[me] == Free
    ensures slots[me := slot][me := Free] == slots
  {
  }

  // recordDrop's counter: where the goroutine goes from there.
  lemma DropCounts(s: State, before: seq<Step>, me: nat)
    requires me < |Exec(s, before).slots| && Exec(s, before).slots[me] == Dropping
    ensures Exec(s, before + [Advance(me, false)]) == AfterDrop(Exec(s, before), me)
  {
    AdvanceOnce(s, before, me);
    DropMove(Exec(s, before), me);
  }

  function AfterDrop(cur: State, me: nat): State
    requires me < |cur.slots|
  {
    if cur.maxDrops <= 0 then cur.(slots := cur.slots[me := Free])
    else
      cur.(drops := cur.drops + 1, events := cur.events + [true],
           slots := cur.slots[me := if cur.drops + 1 < cur.maxDrops then Free else Closing(1013, "slow consumer")])
  }

  lemma DropMove(cur: State, me: nat)
    requires me < |cur.slots| && cur.slots[me] == Dropping
    ensures GoNext(cur, me, MoveOf(cur, cur.slots[me], false)) == AfterDrop(cur, me)
  {
  }

  class Conn {
    const capacity: nat
    const maxBuf: int
    const maxDrops: int
    var sendCh: seq<Frame>
    var bufBytes: int
    var closed: bool
    var closeReason: Option<string>
    var consecDrops: nat
    var socket: seq<Frame>   // what was written to the websocket
    var drained: bool

    // The machine state agrees with the object, and no closeOnce is under way.
    ghost predicate Models(s: State)
      reads this
    {
      && s.capacity == capacity && s.maxBuf == maxBuf && s.maxDrops == maxDrops
      && s.queue == sendCh && s.bufBytes == bufBytes && s.closed == closed
      && s.reason == closeReason && s.drops == consecDrops && s.out == socket
      && s.once == if closed then Done else NotYet
    }

    constructor (capacity: nat, maxBuf: int, maxDrops: int)
      ensures forall goroutines: nat :: Models(Init(goroutines, this.capacity, this.maxBuf, this.maxDrops))
      ensures this.capacity == capacity && this.maxBuf == maxBuf && this.maxDrops == maxDrops && !drained
    {
      this.capacity, this.maxBuf, this.maxDrops := capacity, maxBuf, maxDrops;
      sendCh, bufBytes, closed, closeReason, consecDrops := [], 0, false, None, 0;
      socket, drained := [], false;
    }

    // closeWith, from the moment a goroutine is about to enter closeOnce.Do.
    method CloseWith(code: nat, category: string, ghost me: nat, ghost s: State, ghost before: seq<Step>)
      returns (ghost steps: seq<Step>)
      requires Models(Exec(s, before)) && me < |Exec(s, before).slots|
      requires Exec(s, before).slots[me] == Closing(code, category)
      modifies this`sendCh, this`closed, this`closeReason
      ensures Models(Exec(s, steps))
      ensures Exec(s, steps).slots == Exec(s, before).slots[me := Free]
      ensures closed
      ensures old(closed) ==> sendCh == old(sendCh) && closeReason == old(closeReason)
      ensures !old(closed) ==> closeReason == Some(category)
      ensures !old(closed) ==> sendCh == if |old(sendCh)| < capacity then old(sendCh) + [Close(code)] else old(sendCh)
    {
      ghost var go := Advance(me, false);
      if closed {
        CloseIgnored(s, before, me);
        return before + [go];
      }
      closeReason := Some(category);
      if |sendCh| < capacity {
        sendCh := sendCh + [Close(code)];
      }
      closed := true;
      steps := before + [go] + [go] + [go];
      CloseRuns(s, before, me, code, category);
    }

    // recordDrop.
    method RecordDrop(ghost me: nat, ghost s: State, ghost before: seq<Step>) returns (ghost steps: seq<Step>)
      requires Models(Exec(s, before)) && me < |Exec(s, before).slots| && Exec(s, before).slots[me] == Dropping
      modifies this`sendCh, this`closed, this`closeReason, this`consecDrops
      ensures Models(Exec(s, steps)) && Exec(s, steps).slots == Exec(s, before).slots[me := Free]
      ensures consecDrops == if maxDrops > 0 then old(consecDrops) + 1 else old(consecDrops)
      ensures closed <==> old(closed) || (maxDrops > 0 && consecDrops >= maxDrops)
      ensures closed == old(closed) ==> sendCh == old(sendCh) && closeReason == old(closeReason)
      ensures closed && !old(closed) ==> closeReason == Some("slow consumer")
      ensures closed && !old(closed) ==> sendCh == if |old(sendCh)| < capacity then old(sendCh) + [Close(1013)] else old(sendCh)
    {
      DropCounts(s, before, me);
      steps := before + [Advance(me, false)];
      if maxDrops <= 0 {
        return;
      }
      consecDrops := consecDrops + 1;
      if consecDrops < maxDrops {
        return;
      }
      ghost var slots := Exec(s, before).slots;
      steps := CloseWith(1013, "slow consumer", me, s, steps);
      assert slots[me := Closing(1013, "slow consumer")][me := Free] == slots[me := Free];
    }

    // SendReporting: accepted exactly when the connection is open, the frame fits
    // under the threshold and the channel has room.
    method SendReporting(size: nat, body: nat, ghost me: nat, ghost s: State) returns (accepted: bool, ghost steps: seq<Step>)
      requires Models(s) && me < |s.slots| && s.slots[me] == Free
      modifies this`sendCh, this`bufBytes, this`closed, this`closeReason, this`consecDrops
      ensures Models(Exec(s, steps)) && Exec(s, steps).slots == s.slots
      ensures accepted <==> !old(closed) && old(bufBytes) + size <= maxBuf && |old(sendCh)| < capacity
      ensures accepted ==> sendCh == old(sendCh) + [Text(size, body)] && bufBytes == old(bufBytes) + size && consecDrops == 0
      ensures !accepted ==> bufBytes == old(bufBytes)
      ensures !accepted ==> consecDrops == if !old(closed) && maxDrops > 0 then old(consecDrops) + 1 else old(consecDrops)
      ensures closed <==> old(closed) || (!accepted && maxDrops > 0 && consecDrops >= maxDrops)
      ensures !accepted && closed == old(closed) ==> sendCh == old(sendCh)
      ensures closed == old(closed) ==> closeReason == old(closeReason)
      ensures closed && !old(closed) ==> closeReason == Some("slow consumer")
      ensures closed && !old(closed) ==> sendCh == if |old(sendCh)| < capacity then old(sendCh) + [Close(1013)] else old(sendCh)
    {
      ghost var go := Advance(me, false);
      if closed {
        SendRefused(s, me, size, body);
        return false, [Start(me, SendQueue.Call.SendReporting(size, body)), go];
      }
      SendLoads(s, me, size, body);
      steps := [Start(me, SendQueue.Call.SendReporting(size, body)), go, go];
      if bufBytes + size > maxBuf {
        steps := RecordDrop(me, s, steps);
        FreeAgain(s.slots, me, Dropping);
        return false, steps;
      }
      steps := steps + [go];
      if |sendCh| >= capacity {
        SendFindsFull(s, me, size, body);
        steps := RecordDrop(me, s, steps);
        FreeAgain(s.slots, me, Dropping);
        return false, steps;
      }
      sendCh := sendCh + [Text(size, body)];
      bufBytes := bufBytes + size;
      consecDrops := 0;
      SendFindsRoom(s, me, size, body);
      SendIsCounted(s, steps, me, Effected(s, Push(Text(size, body))), Text(size, body));
      return true, steps + [go] + [go];
    }

    // runWriter, up to the point where it would block on an empty channel. It
    // writes what is queued up to the close frame, and stops there or at write number
    // `failAt`, if that one fails.
    method RunWriter(failAt: Option<nat>)
      requires !drained
      modifies this`sendCh, this`bufBytes, this`socket, this`drained
      ensures socket == old(socket) + Emitted(old(sendCh), failAt)
      ensures sendCh == Remains(old(sendCh), failAt)
      ensures bufBytes == old(bufBytes) - Bytes(Taken(old(sendCh), failAt))
      ensures drained <==> Ends(old(sendCh), failAt)
    {
      var left := failAt;
      while |sendCh| > 0
        invariant socket + Emitted(sendCh, left) == old(socket) + Emitted(old(sendCh), failAt) && !drained
        invariant Remains(sendCh, left) == Remains(old(sendCh), failAt) && Ends(sendCh, left) == Ends(old(sendCh), failAt)
        invariant bufBytes - Bytes(Taken(sendCh, left)) == old(bufBytes) - Bytes(Taken(old(sendCh), failAt))
        decreases |sendCh|
      {
        var frame := sendCh[0];
        BytesTaken(sendCh, left);
        assert socket + [frame] + Emitted(sendCh[1..], Sooner(left)) == socket + ([frame] + Emitted(sendCh[1..], Sooner(left)));
        sendCh := sendCh[1..];
        bufBytes := bufBytes - Size(frame);
        if left == Some(0) {
          drained := true;
          return;
        }
        socket := socket + [frame];
        if frame.Close? {
          drained := true;
          return;
        }
        left := Sooner(left);
      }
    }
  }

  // The machine's state after its writer went through the queue like that.
  function WriterDone(cur: State, failAt: Option<nat>): State {
    var q := cur.queue;
    cur.(queue := Remains(q, failAt), taken := cur.taken + |Taken(q, failAt)|,
         out := cur.out + Emitted(q, failAt), bufBytes := cur.bufBytes - Bytes(Taken(q, failAt)),
         failed := cur.failed || |Emitted(q, failAt)| < |Taken(q, failAt)|,
         writer := if Ends(q, failAt) then Stopped else Waiting)
  }

  // The state after one frame.
  function OneWritten(cur: State, ok: bool): State
    requires cur.queue != []
  {
    var f := cur.queue[0];
    cur.(queue := cur.queue[1..], taken := cur.taken + 1, out := if ok then cur.out + [f] else cur.out,
         failed := cur.failed || !ok, bufBytes := cur.bufBytes - Size(f),
         writer := if f.Close? || !ok then Stopped else Waiting)
  }

  lemma WriterUnfolds(cur: State, failAt: Option<nat>)
    requires cur.writer == Waiting
    ensures cur.queue == [] ==> WriterDone(cur, failAt) == cur
    ensures cur.queue != [] && StopsAt(cur.queue[0], failAt) ==> WriterDone(cur, failAt) == OneWritten(cur, failAt != Some(0))
    ensures cur.queue != [] && !StopsAt(cur.queue[0], failAt) ==>
              WriterDone(cur, failAt) == WriterDone(OneWritten(cur, true), Sooner(failAt))
  {
    if cur.queue == [] {
      assert cur.out + [] == cur.out;
    } else {
      BytesTaken(cur.queue, failAt);
      if failAt == Some(0) {
        assert cur.out + [] == cur.out;
      } else if !cur.queue[0].Close? {
        Regroup(cur.out, cur.queue[0], Emitted(cur.queue[1..], Sooner(failAt)));
      }
    }
  }

  lemma Regroup(out: seq<Frame>, f: Frame, rest: seq<Frame>)
    ensures out + ([f] + rest) == out + [f] + rest
  {
  }

  // What RunWriter does to the fields is what the machine's writer does, by a run.
  lemma {:induction false} WriterIsARun(s: State, before: seq<Step>, failAt: Option<nat>) returns (steps: seq<Step>)
    requires Exec(s, before).writer == Waiting
    ensures Exec(s, steps) == WriterDone(Exec(s, before), failAt)
    decreases |Exec(s, before).queue|
  {
    var cur := Exec(s, before);
    WriterUnfolds(cur, failAt);
    if cur.queue == [] {
      steps := before;
    } else {
      steps := before + [Take, Write(failAt != Some(0)), Settle];
      WriteOne(s, before, failAt != Some(0));
      if !StopsAt(cur.queue[0], failAt) {
        steps := WriterIsARun(s, steps, Sooner(failAt));
      }
    }
  }

  // The machine's writer taking, writing and settling one frame.
  lemma WriteOne(s: State, steps: seq<Step>, ok: bool)
    requires Exec(s, steps).writer == Waiting && Exec(s, steps).queue != []
    ensures Exec(s, steps + [Take, Write(ok), Settle]) == OneWritten(Exec(s, steps), ok)
  {
    ExecOne(s, steps, Take);
    ExecOne(s, steps + [Take], Write(ok));
    ExecOne(s, steps + [Take] + [Write(ok)], Settle);
    assert steps + [Take] + [Write(ok)] + [Settle] == steps + [Take, Write(ok), Settle];
  }
}

/**
 One connection's send queue (internal/connection/hub.go) as a concurrent state
 machine. Each of a fixed number of goroutines runs one SendReporting, SendNow,
 Ping or Close call at a time; the writer goroutine runs beside them. Every channel
 operation, atomic operation and socket write is one step.
 */
module SendQueue {

  import opened Basics

  datatype Frame = Text(size: nat, body: nat) | Ping | Close(code: nat)

  function Size(f: Frame): nat {
    if f.Text? then f.size else 0
  }

  /** Where a goroutine is in the call it is making. */
  datatype Slot =
    | Free
    | Checking(frame: Frame)        // SendReporting, before its first look at closed
    | Loading(frame: Frame)         // before reading bufBytes
    | Ready(frame: Frame)           // under the threshold, before the select
    | Queued(frame: Frame)          // enqueued, bufBytes not yet raised
    | Resetting                     // before consecDrops.Store(0)
    | Dropping                      // recordDrop, before its counter
    | Blocking(frame: Frame)        // SendNow, before its select
    | BlockQueued(frame: Frame)
    | PingChecking
    | PingReady
    | Closing(code: nat, category: string)  // before closeOnce.Do
    | CloseSending(code: nat)               // inside it, before the channel send
    | CloseFlagging                         // inside it, before close(closed)

  datatype Writer = Waiting | Holding(frame: Frame) | Written(frame: Frame, ok: bool) | Stopped

  datatype Once = NotYet | Busy | Done

  datatype State = State(
    capacity: nat, maxBuf: int, maxDrops: int,
    queue: seq<Frame>,
    bufBytes: int,
    closed: bool,
    once: Once,
    reason: Option<string>,
    drops: nat,
    slots: seq<Slot>,
    writer: Writer,
    out: seq<Frame>,          // written to the socket
    failed: bool,             // a socket write failed
    // history
    log: seq<Frame>,          // everything ever enqueued
    taken: nat,               // how much of it the writer took
    closeAt: Option<nat>,     // where in it the close frame is
    events: seq<bool>)        // the drop counter's history: true is a drop, false a reset

  datatype Call = SendReporting(size: nat, body: nat) | SendNow(size: nat, body: nat) | SendPing | CloseWith(code: nat, category: string)

  datatype Step =
    | Start(slot: nat, call: Call)
    | Advance(slot: nat, giveUp: bool)  // giveUp: take the closed or cancelled branch of a select
    | Take
    | Write(ok: bool)
    | Settle

  function Init(goroutines: nat, capacity: nat, maxBuf: int, maxDrops: int): State {
    State(capacity, maxBuf, maxDrops, [], 0, false, NotYet, None, 0, seq(goroutines, _ => Free), Waiting, [], false, [], 0, None, [])
  }

  predicate HasRoom(s: State) {
    |s.queue| < s.capacity
  }

  function Started(call: Call): Slot {
    match call
    case SendReporting(size, body) => Checking(Text(size, body))
    case SendNow(size, body) => Blocking(Text(size, body))
    case SendPing => PingChecking
    case CloseWith(code, category) => Closing(code, category)
  }

  /** What a goroutine's step does to the shared state. */
  datatype Effect =
    | Nothing
    | Push(frame: Frame)        // send on sendCh
    | Raise(bytes: nat)         // bufBytes.Add
    | ResetDrops
    | CountDrop
    | EnterOnce(category: string)
    | LeaveOnce                 // close(closed), and out of closeOnce.Do

  /** Where the goroutine goes next, and that effect. */
  datatype Move = Move(slot: Slot, effect: Effect)

  // SendReporting and recordDrop.
  function SendMove(s: State, slot: Slot, giveUp: bool): Move {
    match slot
    case Checking(f) => Move(if s.closed then Free else Loading(f), Nothing)
    case Loading(f) => Move(if s.bufBytes + Size(f) > s.maxBuf then Dropping else Ready(f), Nothing)
    case Ready(f) =>
      if s.closed && (giveUp || !HasRoom(s)) then Move(Free, Nothing)
      else if HasRoom(s) then Move(Queued(f), Push(f))
      else Move(Dropping, Nothing)
    case Queued(f) => Move(Resetting, Raise(Size(f)))
    case Resetting => Move(Free, ResetDrops)
    case Dropping =>
      if s.maxDrops <= 0 then Move(Free, Nothing)
      else Move(if s.drops + 1 < s.maxDrops then Free else Closing(1013, "slow consumer"), CountDrop)
    case _ => Move(slot, Nothing)
  }

  // SendNow, Ping and closeWith.
  function OtherMove(s: State, slot: Slot, giveUp: bool): Move {
    match slot
    case Blocking(f) =>
      if giveUp then Move(Free, Nothing)
      else if HasRoom(s) then Move(BlockQueued(f), Push(f))
      else Move(slot, Nothing)
    case BlockQueued(f) => Move(Free, Raise(Size(f)))
    case PingChecking => Move(if s.closed then Free else PingReady, Nothing)
    case PingReady =>
      Move(Free, if HasRoom(s) && !(s.closed && giveUp) then Push(Ping) else Nothing)
    case Closing(code, category) =>
      if s.once == NotYet then Move(CloseSending(code), EnterOnce(category))
      else Move(if s.once == Busy then slot else Free, Nothing)
    case CloseSending(code) => Move(CloseFlagging, if HasRoom(s) then Push(Close(code)) else Nothing)
    case CloseFlagging => Move(Free, LeaveOnce)
    case _ => Move(slot, Nothing)
  }

  function MoveOf(s: State, slot: Slot, giveUp: bool): Move {
    if slot.Checking? || slot.Loading? || slot.Ready? || slot.Queued? || slot.Resetting? || slot.Dropping?
    then SendMove(s, slot, giveUp) else OtherMove(s, slot, giveUp)
  }

  function Effected(s: State, e: Effect): State {
    match e
    case Nothing => s
    case Push(f) =>
      s.(queue := s.queue + [f], log := s.log + [f], closeAt := if f.Close? then Some(|s.log|) else s.closeAt)
    case Raise(n) => s.(bufBytes := s.bufBytes + n)
    case ResetDrops => s.(drops := 0, events := s.events + [false])
    case CountDrop => s.(drops := s.drops + 1, events := s.events + [true])
    case EnterOnce(category) => s.(once := Busy, reason := Some(category))
    case LeaveOnce => s.(once := Done, closed := true)
  }

  function GoNext(s: State, i: nat, m: Move): State
    requires i < |s.slots|
  {
    Effected(s, m.effect).(slots := s.slots[i := m.slot])
  }

  // runWriter.
  function WriterNext(s: State, step: Step): State {
    match step
    case Take =>
      if s.writer == Waiting && s.queue != []
      then s.(queue := s.queue[1..], writer := Holding(s.queue[0]), taken := s.taken + 1) else s
    case Write(ok) =>
      if !s.writer.Holding? then s
      else if ok then s.(writer := Written(s.writer.frame, true), out := s.out + [s.writer.frame])
      else s.(writer := Written(s.writer.frame, false), failed := true)
    case Settle =>
      if !s.writer.Written? then s
      else
        s.(writer := if s.writer.ok && !s.writer.frame.Close? then Waiting else Stopped,
           bufBytes := s.bufBytes - Size(s.writer.frame))
    case _ => s
  }

  function Next(s: State, step: Step): State {
    match step
    case Start(i, call) =>
      if i < |s.slots| && s.slots[i] == Free then GoNext(s, i, Move(Started(call), Nothing)) else s
    case Advance(i, giveUp) =>
      if i < |s.slots| then GoNext(s, i, MoveOf(s, s.slots[i], giveUp)) else s
    case _ => WriterNext(s, step)
  }

  function Exec(s: State, steps: seq<Step>): State {
    if steps == [] then s else Next(Exec(s, steps[..|steps| - 1]), steps[|steps| - 1])
  }
}

/** What holds of the send queue in every interleaving. */
module SendQueueTheorems {
  import opened Basics
  import opened SendQueue

  // ---- Sums ----

  function Bytes(frames: seq<Frame>): nat {
    if frames == [] then 0 else Bytes(frames[..|frames| - 1]) + Size(frames[|frames| - 1])
  }

  lemma OneMoreFrame(frames: seq<Frame>, f: Frame)
    ensures Bytes(frames + [f]) == Bytes(frames) + Size(f)
  {
    assert (frames + [f])[..|frames|] == frames;
  }

  lemma {:induction false} BytesFromFront(frames: seq<Frame>)
    requires frames != []
    ensures Bytes(frames) == Size(frames[0]) + Bytes(frames[1..])
  {
    if |frames| > 1 {
      var front := frames[..|frames| - 1];
      BytesFromFront(front);
      assert front[1..] == frames[1..][..|frames| - 2];
    } else {
      assert frames[..0] == [] && frames[1..] == [];
    }
  }

  // Bytes a goroutine has enqueued but not yet added to bufBytes.
  function Unadded(slot: Slot): nat {
    if slot.Queued? || slot.BlockQueued? then Size(slot.frame) else 0
  }

  // Bytes a goroutine may still enqueue on the strength of an earlier check.
  function Cleared(slot: Slot): nat {
    if slot.Ready? then Size(slot.frame) else 0
  }

  function SumUnadded(slots: seq<Slot>): nat {
    if slots == [] then 0 else SumUnadded(slots[..|slots| - 1]) + Unadded(slots[|slots| - 1])
  }

  function SumCleared(slots: seq<Slot>): nat {
    if slots == [] then 0 else SumCleared(slots[..|slots| - 1]) + Cleared(slots[|slots| - 1])
  }

  lemma {:induction false} SumsUpdate(slots: seq<Slot>, i: nat, slot: Slot)
    requires i < |slots|
    ensures SumUnadded(slots[i := slot]) == SumUnadded(slots) - Unadded(slots[i]) + Unadded(slot)
    ensures SumCleared(slots[i := slot]) == SumCleared(slots) - Cleared(slots[i]) + Cleared(slot)
  {
    var front := slots[..|slots| - 1];
    if i < |front| {
      SumsUpdate(front, i, slot);
      assert slots[i := slot][..|slots| - 1] == front[i := slot];
    } else {
      assert slots[i := slot][..|slots| - 1] == front;
    }
  }

  // ---- Byte accounting ----

  function InHand(w: Writer): nat {
    if w.Holding? || w.Written? then Size(w.frame) else 0
  }

  ghost predicate Accounted(s: State) {
    s.bufBytes + SumUnadded(s.slots) == Bytes(s.queue) + InHand(s.writer)
  }

  function PushedBytes(e: Effect): nat {
    if e.Push? then Size(e.frame) else 0
  }

  function RaisedBytes(e: Effect): nat {
    if e.Raise? then e.bytes else 0
  }

  // Every move balances what it enqueues, what it adds and what it still owes.
  ghost predicate Balanced(slot: Slot, m: Move) {
    RaisedBytes(m.effect) + Unadded(m.slot) == Unadded(slot) + PushedBytes(m.effect)
  }

  lemma MovesBalance(s: State, slot: Slot, giveUp: bool)
    ensures Balanced(slot, MoveOf(s, slot, giveUp))
  {
  }

  lemma EffectOnBytes(s: State, e: Effect)
    ensures var s' := Effected(s, e);
            && Bytes(s'.queue) == Bytes(s.queue) + PushedBytes(e)
            && s'.bufBytes == s.bufBytes + RaisedBytes(e)
            && s'.writer == s.writer && s'.maxBuf == s.maxBuf
  {
    if e.Push? {
      OneMoreFrame(s.queue, e.frame);
    }
  }

  lemma AccountedGo(s: State, i: nat, m: Move)
    requires Accounted(s) && i < |s.slots| && Balanced(s.slots[i], m)
    ensures Accounted(GoNext(s, i, m))
  {
    SumsUpdate(s.slots, i, m.slot);
    EffectOnBytes(s, m.effect);
  }

  lemma AccountedWriter(s: State, step: Step)
    requires Accounted(s)
    ensures Accounted(WriterNext(s, step))
  {
    if s.queue != [] {
      BytesFromFront(s.queue);
    }
  }

  lemma {:induction false} SlotsFree(n: nat)
    ensures SumUnadded(seq(n, _ => Free)) == 0 && SumCleared(seq(n, _ => Free)) == 0
  {
    if n == 0 {
    } else {
      SlotsFree(n - 1);
      assert seq(n, _ => Free)[..n - 1] == seq(n - 1, _ => Free);
    }
  }

  // In every interleaving, bufBytes plus what is enqueued but not yet added is
  // exactly the text bytes queued plus the frame in the writer's hand.
  lemma {:induction false} ByteAccounting(goroutines: nat, capacity: nat, maxBuf: int, maxDrops: int, steps: seq<Step>)
    ensures Accounted(Exec(Init(goroutines, capacity, maxBuf, maxDrops), steps))
  {
    if steps == [] {
      SlotsFree(goroutines);
    } else {
      var front, step := steps[..|steps| - 1], steps[|steps| - 1];
      ByteAccounting(goroutines, capacity, maxBuf, maxDrops, front);
      var s := Exec(Init(goroutines, capacity, maxBuf, maxDrops), front);
      match step
      case Start(i, call) =>
        if i < |s.slots| && s.slots[i] == Free {
          AccountedGo(s, i, Move(Started(call), Nothing));
        }
      case Advance(i, giveUp) =>
        if i < |s.slots| {
          MovesBalance(s, s.slots[i], giveUp);
          AccountedGo(s, i, MoveOf(s, s.slots[i], giveUp));
        }
      case _ => AccountedWriter(s, step);
    }
  }

  // ---- The bound on queued bytes ----

  // Only SendReporting enqueues text, with frames of at most `largest` bytes.
  ghost predicate SmallSlot(slot: Slot, largest: nat) {
    && !slot.Blocking? && !slot.BlockQueued?
    && (slot.Checking? || slot.Loading? || slot.Ready? || slot.Queued? ==> Size(slot.frame) <= largest)
  }

  ghost predicate SmallSlots(slots: seq<Slot>, largest: nat) {
    forall i :: 0 <= i < |slots| ==> SmallSlot(slots[i], largest)
  }

  ghost predicate SmallStep(step: Step, largest: nat) {
    step.Start? ==> !step.call.SendNow? && (step.call.SendReporting? ==> step.call.size <= largest)
  }

  // A goroutine that is sending: in SendReporting with a frame it may still enqueue
  // or has yet to count.
  predicate IsSender(slot: Slot) {
    slot.Checking? || slot.Loading? || slot.Ready? || slot.Queued?
  }

  function Senders(slots: seq<Slot>): nat {
    if slots == [] then 0 else Senders(slots[..|slots| - 1]) + if IsSender(slots[|slots| - 1]) then 1 else 0
  }

  // The bytes of `k` frames of `n`.
  function FrameBytes(k: nat, n: nat): nat {
    if k == 0 then 0 else FrameBytes(k - 1, n) + n
  }

  lemma {:induction false} FrameBytesIs(k: nat, n: nat)
    ensures FrameBytes(k, n) == k * n
  {
    if k == 0 {
    } else {
      FrameBytesIs(k - 1, n);
      OneMoreTimes(k - 1, n);
    }
  }

  lemma OneMoreTimes(n: int, k: int)
    ensures (n + 1) * k == n * k + k
  {
  }

  lemma {:induction false} FrameBytesGrow(a: nat, b: nat, n: nat)
    requires a <= b
    ensures FrameBytes(a, n) <= FrameBytes(b, n)
    decreases b
  {
    if a == b {
    } else {
      FrameBytesGrow(a, b - 1, n);
    }
  }

  // Text bytes queued or in hand, and those already cleared to be queued.
  ghost predicate WithinBound(s: State, spare: nat, largest: nat) {
    && SmallSlots(s.slots, largest)
    && Bytes(s.queue) + InHand(s.writer) + SumCleared(s.slots) <= s.maxBuf + spare
  }

  // Each sender has at most one frame cleared or unadded, and nobody else has any.
  lemma {:induction false} SumsAtMost(slots: seq<Slot>, largest: nat)
    requires SmallSlots(slots, largest)
    ensures SumUnadded(slots) + SumCleared(slots) <= FrameBytes(Senders(slots), largest)
  {
    if slots == [] {
    } else {
      var front, last := slots[..|slots| - 1], slots[|slots| - 1];
      SumsAtMost(front, largest);
      assert SmallSlot(last, largest);
    }
  }

  // A sender that has none leaves room for one frame less.
  lemma {:induction false} OthersAtMost(slots: seq<Slot>, i: nat, largest: nat)
    requires SmallSlots(slots, largest) && i < |slots| && slots[i].Loading?
    ensures Senders(slots) > 0 && SumUnadded(slots) + SumCleared(slots) <= FrameBytes(Senders(slots) - 1, largest)
  {
    var front, last := slots[..|slots| - 1], slots[|slots| - 1];
    if i < |front| {
      OthersAtMost(front, i, largest);
      assert SmallSlot(last, largest);
    } else {
      SumsAtMost(front, largest);
    }
  }

  // A move that clears nothing new, or clears a frame under the threshold.
  ghost predicate Restrained(s: State, slot: Slot, m: Move, largest: nat) {
    && SmallSlot(m.slot, largest)
    && (|| PushedBytes(m.effect) + Cleared(m.slot) <= Cleared(slot)
        || (slot.Loading? && PushedBytes(m.effect) == 0 && s.bufBytes + Cleared(m.slot) <= s.maxBuf))
  }

  lemma MovesAreRestrained(s: State, slot: Slot, giveUp: bool, largest: nat)
    requires SmallSlot(slot, largest)
    ensures Restrained(s, slot, MoveOf(s, slot, giveUp), largest)
  {
  }

  // The threshold check is where the bound comes from: at that moment the other
  // senders hold at most one frame each that bufBytes does not show.
  lemma BoundGo(s: State, i: nat, m: Move, k: nat, largest: nat)
    requires k > 0 && Accounted(s) && WithinBound(s, FrameBytes(k - 1, largest), largest) && Senders(s.slots) <= k
    requires i < |s.slots| && Restrained(s, s.slots[i], m, largest)
    ensures WithinBound(GoNext(s, i, m), FrameBytes(k - 1, largest), largest)
  {
    assert SmallSlots(GoNext(s, i, m).slots, largest);
    if s.slots[i].Loading? {
      OthersAtMost(s.slots, i, largest);
      FrameBytesGrow(Senders(s.slots) - 1, k - 1, largest);
    }
    BoundKept(s, i, m, FrameBytes(k - 1, largest));
  }

  lemma BoundKept(s: State, i: nat, m: Move, spare: int)
    requires Accounted(s) && i < |s.slots|
    requires Bytes(s.queue) + InHand(s.writer) + SumCleared(s.slots) <= s.maxBuf + spare
    requires || PushedBytes(m.effect) + Cleared(m.slot) <= Cleared(s.slots[i])
             || (&& PushedBytes(m.effect) == 0 && Cleared(s.slots[i]) == 0 && s.bufBytes + Cleared(m.slot) <= s.maxBuf
                 && SumUnadded(s.slots) + SumCleared(s.slots) <= spare)
    ensures var s' := GoNext(s, i, m);
            Bytes(s'.queue) + InHand(s'.writer) + SumCleared(s'.slots) <= s'.maxBuf + spare
  {
    SumsUpdate(s.slots, i, m.slot);
    EffectOnBytes(s, m.effect);
  }

  lemma BoundWriter(s: State, step: Step, spare: nat, largest: nat)
    requires WithinBound(s, spare, largest)
    ensures WithinBound(WriterNext(s, step), spare, largest)
  {
    if s.queue != [] {
      BytesFromFront(s.queue);
    }
  }

  lemma BoundStep(s: State, step: Step, k: nat, largest: nat)
    requires k > 0 && Accounted(s) && WithinBound(s, FrameBytes(k - 1, largest), largest)
    requires Senders(s.slots) <= k && SmallStep(step, largest)
    ensures WithinBound(Next(s, step), FrameBytes(k - 1, largest), largest)
  {
    match step
    case Start(i, call) =>
      if i < |s.slots| && s.slots[i] == Free {
        BoundGo(s, i, Move(Started(call), Nothing), k, largest);
      }
    case Advance(i, giveUp) =>
      if i < |s.slots| {
        MovesAreRestrained(s, s.slots[i], giveUp, largest);
        BoundGo(s, i, MoveOf(s, s.slots[i], giveUp), k, largest);
      }
    case _ => BoundWriter(s, step, FrameBytes(k - 1, largest), largest);
  }

  lemma Unchanging(s: State, step: Step)
    ensures |Next(s, step).slots| == |s.slots| && Next(s, step).maxBuf == s.maxBuf
  {
  }

  // At no moment are more than `k` goroutines sending.
  ghost predicate AtMostSending(init: State, steps: seq<Step>, k: nat) {
    forall n :: 0 <= n <= |steps| ==> Senders(Exec(init, steps[..n]).slots) <= k
  }

  // The runs the bound is about: never more than `k` senders, frames of at most
  // `largest` bytes and no SendNow.
  ghost predicate ModestRun(init: State, steps: seq<Step>, k: nat, largest: nat) {
    && AtMostSending(init, steps, k)
    && forall i :: 0 <= i < |steps| ==> SmallStep(steps[i], largest)
  }

  lemma {:induction false} StaysWithinBound(goroutines: nat, capacity: nat, maxBuf: nat, maxDrops: int, steps: seq<Step>, k: nat, largest: nat)
    requires k > 0 && ModestRun(Init(goroutines, capacity, maxBuf, maxDrops), steps, k, largest)
    ensures var s := Exec(Init(goroutines, capacity, maxBuf, maxDrops), steps);
            WithinBound(s, FrameBytes(k - 1, largest), largest) && s.maxBuf == maxBuf
  {
    if steps == [] {
      SlotsFree(goroutines);
    } else {
      var front, step := steps[..|steps| - 1], steps[|steps| - 1];
      assert forall n :: 0 <= n <= |front| ==> front[..n] == steps[..n];
      assert front[..|front|] == front;
      StaysWithinBound(goroutines, capacity, maxBuf, maxDrops, front, k, largest);
      ByteAccounting(goroutines, capacity, maxBuf, maxDrops, front);
      var s := Exec(Init(goroutines, capacity, maxBuf, maxDrops), front);
      BoundStep(s, step, k, largest);
      Unchanging(s, step);
    }
  }

  // With never more than k of any number of goroutines sending, whatever the others
  // do (ping, close, count drops), frames of at most `largest` bytes and no SendNow,
  // the bytes queued never exceed maxBuf + (k - 1) * largest, although the threshold
  // check and the enqueue are not one atomic step.
  lemma QueuedBytesBound(goroutines: nat, capacity: nat, maxBuf: nat, maxDrops: int, steps: seq<Step>, k: nat, largest: nat)
    requires k > 0 && ModestRun(Init(goroutines, capacity, maxBuf, maxDrops), steps, k, largest)
    ensures Bytes(Exec(Init(goroutines, capacity, maxBuf, maxDrops), steps).queue) <= maxBuf + (k - 1) * largest
  {
    FrameBytesIs(k - 1, largest);
    QueuedFramesBound(goroutines, capacity, maxBuf, maxDrops, steps, k, largest, (k - 1) * largest);
  }

  lemma QueuedFramesBound(goroutines: nat, capacity: nat, maxBuf: nat, maxDrops: int, steps: seq<Step>, k: nat, largest: nat, spare: int)
    requires k > 0 && ModestRun(Init(goroutines, capacity, maxBuf, maxDrops), steps, k, largest)
    requires spare == FrameBytes(k - 1, largest)
    ensures Bytes(Exec(Init(goroutines, capacity, maxBuf, maxDrops), steps).queue) <= maxBuf + spare
  {
    StaysWithinBound(goroutines, capacity, maxBuf, maxDrops, steps, k, largest);
  }

  lemma {:induction false} SendersAtMostAll(slots: seq<Slot>)
    ensures Senders(slots) <= |slots|
  {
    if slots == [] {
    } else {
      SendersAtMostAll(slots[..|slots| - 1]);
    }
  }

  // ---- The bound is attained ----

  lemma ExecOne(s: State, steps: seq<Step>, step: Step)
    ensures Exec(s, steps + [step]) == Next(Exec(s, steps), step)
  {
    assert (steps + [step])[..|steps|] == steps;
  }

  // Frames of at most `n` bytes that make up `total` bytes.
  function Filler(total: nat, n: nat): seq<Frame>
    requires n > 0
  {
    if total == 0 then []
    else
      var last := if total <= n then total else n;
      Filler(total - last, n) + [Text(last, 0)]
  }

  lemma {:induction false} FillerFills(total: nat, n: nat)
    requires n > 0
    ensures Bytes(Filler(total, n)) == total
    ensures forall i :: 0 <= i < |Filler(total, n)| ==> Filler(total, n)[i].Text? && Filler(total, n)[i].size <= n
  {
    if total == 0 {
    } else {
      var last := if total <= n then total else n;
      FillerFills(total - last, n);
      OneMoreFrame(Filler(total - last, n), Text(last, 0));
    }
  }

  // As few as possible.
  lemma {:induction false} FillerFits(total: nat, n: nat, room: nat)
    requires n > 0 && total <= FrameBytes(room, n)
    ensures |Filler(total, n)| <= room
    decreases total
  {
    if total == 0 {
    } else {
      assert room > 0;
      FillerFits(if total <= n then 0 else total - n, n, room - 1);
    }
  }

  // After `frames` were sent one by one, with every goroutine free again.
  function Filled(k: nat, capacity: nat, maxBuf: nat, frames: seq<Frame>): State {
    Init(k, capacity, maxBuf, 0).(queue := frames, log := frames, bufBytes := Bytes(frames), events := seq(|frames|, _ => false))
  }

  // From there, `j` goroutines have passed the check for `n` bytes; and then `j` of
  // them all have enqueued.
  function SomeReady(base: State, n: nat, j: nat): State {
    base.(slots := seq(|base.slots|, (i: nat) => if i < j then Ready(Text(n, 0)) else Free))
  }

  function Equal(n: nat, j: nat): seq<Frame> {
    seq(j, _ => Text(n, 0))
  }

  function SomeQueued(base: State, n: nat, j: nat): State {
    var frames := Equal(n, j);
    base.(slots := seq(|base.slots|, (i: nat) => if i < j then Queued(Text(n, 0)) else Ready(Text(n, 0))),
          queue := base.queue + frames, log := base.log + frames)
  }

  // One goroutine getting past the check.
  lemma PassesCheck(s: State, j: nat, f: Frame)
    requires j < |s.slots| && s.slots[j] == Free && !s.closed && f.Text? && s.bufBytes + Size(f) <= s.maxBuf
    ensures var checked := Next(Next(s, Start(j, SendReporting(f.size, f.body))), Advance(j, false));
            Next(checked, Advance(j, false)) == s.(slots := s.slots[j := Ready(f)])
  {
    assert s.slots[j := Checking(f)][j := Loading(f)][j := Ready(f)] == s.slots[j := Ready(f)];
  }

  lemma ReachPassed(init: State, before: seq<Step>, j: nat, f: Frame, n: nat) returns (steps: seq<Step>)
    requires forall i :: 0 <= i < |before| ==> SmallStep(before[i], n)
    requires f.Text? && f.size <= n
    requires var s := Exec(init, before);
             j < |s.slots| && s.slots[j] == Free && !s.closed && s.bufBytes + Size(f) <= s.maxBuf
    ensures var s := Exec(init, before);
            Exec(init, steps) == s.(slots := s.slots[j := Ready(f)])
    ensures forall i :: 0 <= i < |steps| ==> SmallStep(steps[i], n)
  {
    var start, go := Start(j, SendReporting(f.size, f.body)), Advance(j, false);
    PassesCheck(Exec(init, before), j, f);
    ExecOne(init, before, start);
    ExecOne(init, before + [start], go);
    ExecOne(init, before + [start] + [go], go);
    steps := before + [start] + [go] + [go];
  }

  lemma EnqueuesAndCounts(s: State, j: nat, f: Frame)
    requires j < |s.slots| && s.slots[j] == Ready(f) && !s.closed && f.Text? && HasRoom(s)
    ensures var go := Advance(j, false);
            Next(Next(Next(s, go), go), go) ==
            Effected(s, Push(f)).(bufBytes := s.bufBytes + Size(f), drops := 0, events := s.events + [false],
                                  slots := s.slots[j := Free])
  {
    assert s.slots[j := Queued(f)][j := Resetting][j := Free] == s.slots[j := Free];
  }

  // The state after goroutine 0, free at first, sent one frame.
  function SentOne(s: State, f: Frame): State {
    Effected(s, Push(f)).(bufBytes := s.bufBytes + Size(f), drops := 0, events := s.events + [false])
  }

  lemma ReachSent(init: State, before: seq<Step>, f: Frame, n: nat) returns (steps: seq<Step>)
    requires forall i :: 0 <= i < |before| ==> SmallStep(before[i], n)
    requires f.Text? && f.size <= n
    requires var s := Exec(init, before);
             0 < |s.slots| && s.slots[0] == Free && !s.closed && s.bufBytes + Size(f) <= s.maxBuf && HasRoom(s)
    ensures Exec(init, steps) == SentOne(Exec(init, before), f)
    ensures forall i :: 0 <= i < |steps| ==> SmallStep(steps[i], n)
  {
    var s, go := Exec(init, before), Advance(0, false);
    steps := ReachPassed(init, before, 0, f, n);
    EnqueuesAndCounts(Exec(init, steps), 0, f);
    ExecOne(init, steps, go);
    ExecOne(init, steps + [go], go);
    ExecOne(init, steps + [go] + [go], go);
    steps := steps + [go] + [go] + [go];
    assert s.slots[0 := Ready(f)][0 := Free] == s.slots;
  }

  lemma {:induction false} ReachFilled(k: nat, capacity: nat, maxBuf: nat, frames: seq<Frame>, n: nat) returns (steps: seq<Step>)
    requires k > 0 && |frames| <= capacity && Bytes(frames) <= maxBuf
    requires forall i :: 0 <= i < |frames| ==> frames[i].Text? && frames[i].size <= n
    ensures Exec(Init(k, capacity, maxBuf, 0), steps) == Filled(k, capacity, maxBuf, frames)
    ensures forall i :: 0 <= i < |steps| ==> SmallStep(steps[i], n)
  {
    if frames == [] {
      steps := [];
      assert Filled(k, capacity, maxBuf, []).events == [];
    } else {
      var front, f := frames[..|frames| - 1], frames[|frames| - 1];
      steps := ReachFilled(k, capacity, maxBuf, front, n);
      steps := ReachSent(Init(k, capacity, maxBuf, 0), steps, f, n);
      FilledOneMore(k, capacity, maxBuf, front, f);
      assert frames == front + [f];
    }
  }

  lemma FilledOneMore(k: nat, capacity: nat, maxBuf: nat, front: seq<Frame>, f: Frame)
    requires f.Text?
    ensures SentOne(Filled(k, capacity, maxBuf, front), f) == Filled(k, capacity, maxBuf, front + [f])
  {
    OneMoreFrame(front, f);
    assert seq(|front|, _ => false) + [false] == seq(|front| + 1, _ => false);
  }

  // All goroutines are free, and `n` bytes still pass the check.
  ghost predicate Poised(base: State, n: nat) {
    !base.closed && base.bufBytes + n <= base.maxBuf && forall i :: 0 <= i < |base.slots| ==> base.slots[i] == Free
  }

  lemma {:induction false} ReachReady(init: State, before: seq<Step>, n: nat, j: nat) returns (steps: seq<Step>)
    requires Poised(Exec(init, before), n) && j <= |Exec(init, before).slots|
    requires forall i :: 0 <= i < |before| ==> SmallStep(before[i], n)
    ensures Exec(init, steps) == SomeReady(Exec(init, before), n, j)
    ensures forall i :: 0 <= i < |steps| ==> SmallStep(steps[i], n)
  {
    var base := Exec(init, before);
    if j == 0 {
      steps := before;
      assert SomeReady(base, n, 0).slots == base.slots;
    } else {
      steps := ReachReady(init, before, n, j - 1);
      steps := ReachPassed(init, steps, j - 1, Text(n, 0), n);
      assert SomeReady(base, n, j - 1).slots[j - 1 := Ready(Text(n, 0))] == SomeReady(base, n, j).slots;
    }
  }

  lemma OneMoreQueued(base: State, n: nat, j: nat)
    requires j < |base.slots| && |base.queue| + |base.slots| <= base.capacity && !base.closed
    ensures Next(SomeQueued(base, n, j), Advance(j, false)) == SomeQueued(base, n, j + 1)
  {
    var s, s' := SomeQueued(base, n, j), SomeQueued(base, n, j + 1);
    assert s.slots[j := Queued(Text(n, 0))] == s'.slots;
    assert s.queue + [Text(n, 0)] == s'.queue && s.log + [Text(n, 0)] == s'.log;
  }

  lemma {:induction false} ReachQueued(init: State, before: seq<Step>, n: nat, j: nat) returns (steps: seq<Step>)
    requires var base := Exec(init, before);
             Poised(base, n) && j <= |base.slots| && |base.queue| + |base.slots| <= base.capacity
    requires forall i :: 0 <= i < |before| ==> SmallStep(before[i], n)
    ensures Exec(init, steps) == SomeQueued(Exec(init, before), n, j)
    ensures forall i :: 0 <= i < |steps| ==> SmallStep(steps[i], n)
  {
    var base := Exec(init, before);
    if j == 0 {
      steps := ReachReady(init, before, n, |base.slots|);
      assert SomeReady(base, n, |base.slots|).slots == SomeQueued(base, n, 0).slots;
      assert SomeQueued(base, n, 0).queue == base.queue && SomeQueued(base, n, 0).log == base.log;
    } else {
      steps := ReachQueued(init, before, n, j - 1);
      OneMoreQueued(base, n, j - 1);
      ExecOne(init, steps, Advance(j - 1, false));
      steps := steps + [Advance(j - 1, false)];
    }
  }

  lemma OneMoreEqual(front: seq<Frame>, n: nat, j: nat)
    ensures front + Equal(n, j + 1) == front + Equal(n, j) + [Text(n, 0)]
  {
  }

  lemma {:induction false} EqualFrames(front: seq<Frame>, n: nat, j: nat)
    ensures Bytes(front + Equal(n, j)) == Bytes(front) + FrameBytes(j, n)
  {
    if j == 0 {
      assert front + Equal(n, 0) == front;
    } else {
      EqualFrames(front, n, j - 1);
      OneMoreEqual(front, n, j - 1);
      OneMoreFrame(front + Equal(n, j - 1), Text(n, 0));
    }
  }

  // The bound cannot be improved: for every number k of goroutines, every frame size
  // up to the threshold and every capacity that can hold so many bytes in frames of
  // that size, there is a run that queues exactly maxBuf + (k - 1) * n bytes.
  lemma BoundIsAttained(k: nat, capacity: nat, maxBuf: nat, n: nat) returns (steps: seq<Step>)
    requires k > 0 && 0 < n <= maxBuf && maxBuf + (k - 1) * n <= capacity * n
    ensures ModestRun(Init(k, capacity, maxBuf, 0), steps, k, n)
    ensures Bytes(Exec(Init(k, capacity, maxBuf, 0), steps).queue) == maxBuf + (k - 1) * n
  {
    RoomForFiller(k, capacity, maxBuf, n);
    FillerFits(maxBuf - n, n, capacity - k);
    FillerFills(maxBuf - n, n);
    steps := ReachBound(k, capacity, maxBuf, Filler(maxBuf - n, n), n);
    AttainedBytes(k, maxBuf, n);
    AllMaySend(Init(k, capacity, maxBuf, 0), steps);
  }

  lemma ReachBound(k: nat, capacity: nat, maxBuf: nat, frames: seq<Frame>, n: nat) returns (steps: seq<Step>)
    requires k > 0 && |frames| + k <= capacity && Bytes(frames) + n <= maxBuf
    requires forall i :: 0 <= i < |frames| ==> frames[i].Text? && frames[i].size <= n
    ensures forall i :: 0 <= i < |steps| ==> SmallStep(steps[i], n)
    ensures Bytes(Exec(Init(k, capacity, maxBuf, 0), steps).queue) == Bytes(frames) + FrameBytes(k, n)
  {
    steps := ReachFilled(k, capacity, maxBuf, frames, n);
    steps := ReachQueued(Init(k, capacity, maxBuf, 0), steps, n, k);
    EqualFrames(frames, n, k);
  }

  lemma RoomForFiller(k: nat, capacity: nat, maxBuf: nat, n: nat)
    requires k > 0 && 0 < n <= maxBuf && maxBuf + (k - 1) * n <= capacity * n
    ensures k <= capacity && maxBuf - n <= FrameBytes(capacity - k, n)
  {
    assert (capacity - k) * n == capacity * n - (k - 1) * n - n;
    SignOfProduct(capacity - k, n);
    FrameBytesIs(capacity - k, n);
  }

  lemma SignOfProduct(a: int, b: int)
    requires b > 0
    ensures a * b >= 0 <==> a >= 0
  {
  }

  lemma AttainedBytes(k: nat, maxBuf: nat, n: nat)
    requires k > 0 && n <= maxBuf
    ensures maxBuf - n + FrameBytes(k, n) == maxBuf + (k - 1) * n
  {
    FrameBytesIs(k - 1, n);
  }

  lemma {:induction false} AllMaySend(init: State, steps: seq<Step>)
    ensures AtMostSending(init, steps, |init.slots|)
    ensures |Exec(init, steps).slots| == |init.slots|
  {
    if steps == [] {
      SendersAtMostAll(init.slots);
    } else {
      var front := steps[..|steps| - 1];
      AllMaySend(init, front);
      Unchanging(Exec(init, front), steps[|steps| - 1]);
      SendersAtMostAll(Exec(init, steps).slots);
      forall n | 0 <= n <= |steps| ensures Senders(Exec(init, steps[..n]).slots) <= |init.slots| {
        if n < |steps| {
          assert steps[..n] == front[..n];
        } else {
          assert steps[..n] == steps;
        }
      }
    }
  }
}

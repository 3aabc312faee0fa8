/**
 How a connection closes: the frames before the close frame are drained, nothing
 follows it, it is sent once, and a slow consumer is closed after a streak of drops.
 */
module SendQueueClose {
  import opened Basics
  import opened SendQueue
  import opened SendQueueTheorems

  // ---- Drain before close ----

  ghost predicate QueueInv(s: State) {
    s.taken <= |s.log| && s.log[s.taken..] == s.queue
  }

  // The close frame is where closeAt says, and nowhere else.
  ghost predicate CloseInv(s: State) {
    && (s.closeAt.Some? ==> s.closeAt.value < |s.log| && s.log[s.closeAt.value].Close?)
    && (forall k :: 0 <= k < |s.log| && s.log[k].Close? ==> s.closeAt == Some(k))
  }

  predicate InOnce(slot: Slot) {
    slot.CloseSending? || slot.CloseFlagging?
  }

  predicate CarriesText(slot: Slot) {
    (slot.Checking? || slot.Loading? || slot.Ready? || slot.Queued? || slot.Blocking? || slot.BlockQueued?) ==> slot.frame.Text?
  }

  ghost predicate OnceInv(s: State) {
    && (forall i :: 0 <= i < |s.slots| ==> CarriesText(s.slots[i]))
    && (forall i :: 0 <= i < |s.slots| && InOnce(s.slots[i]) ==> s.once == Busy)
    && (forall i, j :: 0 <= i < j < |s.slots| ==> !(InOnce(s.slots[i]) && InOnce(s.slots[j])))
    && (forall i :: 0 <= i < |s.slots| && s.slots[i].CloseSending? ==> s.closeAt.None?)
    && (s.once == NotYet ==> s.closeAt.None? && s.reason.None?)
    && (s.closed <==> s.once == Done)
  }

  // What the writer has written is what it took, in order; it stops without a
  // failure only at the close frame.
  ghost predicate WriterInv(s: State) {
    && s.taken <= |s.log|
    && (s.writer.Written? && !s.writer.ok ==> s.failed)
    && (!s.failed ==>
          match s.writer
          case Waiting => s.out == s.log[..s.taken] && (s.closeAt.Some? ==> s.closeAt.value >= s.taken)
          case Holding(f) =>
            && s.taken > 0 && s.log[s.taken - 1] == f && s.out == s.log[..s.taken - 1]
            && (s.closeAt.Some? ==> s.closeAt.value >= s.taken - 1)
          case Written(f, _) =>
            && s.taken > 0 && s.log[s.taken - 1] == f && s.out == s.log[..s.taken]
            && (s.closeAt.Some? ==> s.closeAt.value >= s.taken - 1)
          case Stopped =>
            s.taken > 0 && s.closeAt == Some(s.taken - 1) && s.out == s.log[..s.taken])
  }

  ghost predicate DrainInv(s: State) {
    QueueInv(s) && CloseInv(s) && OnceInv(s) && WriterInv(s)
  }

  // A move that keeps to the rules of closeOnce.
  ghost predicate Disciplined(s: State, slot: Slot, m: Move) {
    && CarriesText(m.slot)
    && (m.effect.Push? && m.effect.frame.Close? ==> slot.CloseSending?)
    && (InOnce(m.slot) ==> InOnce(slot) || (s.once == NotYet && m.effect.EnterOnce?))
    && (m.slot.CloseSending? ==> s.once == NotYet && m.effect.EnterOnce?)
    && (m.effect.EnterOnce? ==> s.once == NotYet && InOnce(m.slot))
    && (m.effect.LeaveOnce? <==> slot.CloseFlagging?)
    && (slot.CloseFlagging? ==> m.slot == Free)
  }

  lemma MovesAreDisciplined(s: State, slot: Slot, giveUp: bool)
    requires CarriesText(slot)
    ensures Disciplined(s, slot, MoveOf(s, slot, giveUp))
  {
  }

  // Only closeOnce's holder pushes a close frame, and only once.
  lemma OnceGo(s: State, i: nat, m: Move)
    requires OnceInv(s) && i < |s.slots| && Disciplined(s, s.slots[i], m)
    ensures OnceInv(GoNext(s, i, m))
    ensures m.effect.Push? && m.effect.frame.Close? ==> s.closeAt.None?
  {
    var s' := GoNext(s, i, m);
    assert forall j :: 0 <= j < |s.slots| ==> s'.slots[j] == if j == i then m.slot else s.slots[j];
    if m.effect.LeaveOnce? {
      assert InOnce(s.slots[i]);
    }
  }

  lemma QueueGrows(s: State, f: Frame)
    requires QueueInv(s) && CloseInv(s) && (f.Close? ==> s.closeAt.None?)
    ensures QueueInv(Effected(s, Push(f))) && CloseInv(Effected(s, Push(f)))
  {
    var s' := Effected(s, Push(f));
    assert s'.log[s.taken..] == s.log[s.taken..] + [f];
  }

  lemma WrittenStays(s: State, f: Frame)
    requires WriterInv(s) && (f.Close? ==> s.closeAt.None?)
    ensures WriterInv(Effected(s, Push(f)))
  {
    var s' := Effected(s, Push(f));
    assert s'.log[..s.taken] == s.log[..s.taken];
    assert s.taken > 0 ==> s'.log[..s.taken - 1] == s.log[..s.taken - 1] && s'.log[s.taken - 1] == s.log[s.taken - 1];
  }

  lemma LogGrows(s: State, i: nat, m: Move)
    requires QueueInv(s) && CloseInv(s) && WriterInv(s) && i < |s.slots|
    requires m.effect.Push? && m.effect.frame.Close? ==> s.closeAt.None?
    ensures var s' := GoNext(s, i, m);
            QueueInv(s') && CloseInv(s') && WriterInv(s')
  {
    if m.effect.Push? {
      QueueGrows(s, m.effect.frame);
      WrittenStays(s, m.effect.frame);
      SameLog(Effected(s, m.effect), GoNext(s, i, m));
    } else {
      SameLog(s, GoNext(s, i, m));
    }
  }

  // The drain invariants only look at the log, the queue and the writer.
  lemma SameLog(s: State, s': State)
    requires QueueInv(s) && CloseInv(s) && WriterInv(s)
    requires s'.log == s.log && s'.queue == s.queue && s'.taken == s.taken && s'.closeAt == s.closeAt
    requires s'.writer == s.writer && s'.out == s.out && s'.failed == s.failed
    ensures QueueInv(s') && CloseInv(s') && WriterInv(s')
  {
  }

  lemma DrainGo(s: State, i: nat, m: Move)
    requires DrainInv(s) && i < |s.slots| && Disciplined(s, s.slots[i], m)
    ensures DrainInv(GoNext(s, i, m))
  {
    OnceGo(s, i, m);
    LogGrows(s, i, m);
  }

  lemma DrainTake(s: State)
    requires DrainInv(s) && s.writer == Waiting && s.queue != []
    ensures DrainInv(WriterNext(s, Take))
  {
    assert s.log[s.taken] == s.log[s.taken..][0];
    assert s.log[s.taken + 1..] == s.log[s.taken..][1..];
    assert s.log[..s.taken + 1][..s.taken] == s.log[..s.taken];
  }

  lemma DrainWrite(s: State, ok: bool)
    requires DrainInv(s) && s.writer.Holding?
    ensures DrainInv(WriterNext(s, Write(ok)))
  {
    if !s.failed {
      assert s.log[..s.taken] == s.log[..s.taken - 1] + [s.log[s.taken - 1]];
    }
  }

  lemma DrainSettle(s: State)
    requires DrainInv(s) && s.writer.Written?
    ensures DrainInv(WriterNext(s, Settle))
  {
    if !s.failed && s.closeAt == Some(s.taken - 1) {
      assert s.log[s.taken - 1].Close?;
    }
  }

  lemma DrainStep(s: State, step: Step)
    requires DrainInv(s)
    ensures DrainInv(Next(s, step))
  {
    match step
    case Start(i, call) =>
      if i < |s.slots| && s.slots[i] == Free {
        DrainGo(s, i, Move(Started(call), Nothing));
      }
    case Advance(i, giveUp) =>
      if i < |s.slots| {
        MovesAreDisciplined(s, s.slots[i], giveUp);
        DrainGo(s, i, MoveOf(s, s.slots[i], giveUp));
      }
    case Take => if s.writer == Waiting && s.queue != [] { DrainTake(s); }
    case Write(ok) => if s.writer.Holding? { DrainWrite(s, ok); }
    case Settle => if s.writer.Written? { DrainSettle(s); }
  }

  lemma {:induction false} RunsKeepDrain(goroutines: nat, capacity: nat, maxBuf: int, maxDrops: int, steps: seq<Step>)
    ensures DrainInv(Exec(Init(goroutines, capacity, maxBuf, maxDrops), steps))
  {
    if steps == [] {
    } else {
      RunsKeepDrain(goroutines, capacity, maxBuf, maxDrops, steps[..|steps| - 1]);
      DrainStep(Exec(Init(goroutines, capacity, maxBuf, maxDrops), steps[..|steps| - 1]), steps[|steps| - 1]);
    }
  }

  // Drain before close, over every interleaving without a failed write: once the
  // close frame has found room, at `c`, the writer never writes past it, and when
  // it stops it has written exactly the frames queued before it in order and then
  // the close frame, whatever was enqueued behind. It stops only so: if the close
  // frame found no room, the writer never stops.
  lemma DrainBeforeClose(goroutines: nat, capacity: nat, maxBuf: int, maxDrops: int, steps: seq<Step>)
    ensures var s := Exec(Init(goroutines, capacity, maxBuf, maxDrops), steps);
            !s.failed ==>
              && s.out <= s.log
              && (s.closeAt.Some? ==> s.closeAt.value < |s.log| && s.log[s.closeAt.value].Close? && s.out <= s.log[..s.closeAt.value + 1])
              && (s.writer.Stopped? ==> s.closeAt.Some? && s.out == s.log[..s.closeAt.value + 1])
              && (forall k :: 0 <= k < |s.out| && s.out[k].Close? ==> s.closeAt == Some(k) && k == |s.out| - 1)
  {
    RunsKeepDrain(goroutines, capacity, maxBuf, maxDrops, steps);
  }

  // Nothing follows: a stopped writer writes nothing more.
  lemma NothingAfterStop(s: State, step: Step)
    requires s.writer.Stopped?
    ensures Next(s, step).out == s.out && Next(s, step).writer.Stopped?
  {
  }

  // ---- The writer gets there ----

  // Frames still ahead of the close, three writer steps each.
  function Remaining(s: State): int {
    if s.closeAt.None? || s.writer.Stopped? then 0
    else
      3 * (s.closeAt.value + 1 - s.taken)
      + match s.writer case Waiting => 0 case Holding(_) => 2 case _ => 1
  }

  predicate IsWriterStep(step: Step) {
    step.Take? || step.Write? || step.Settle?
  }

  // Once the close frame is queued and no write fails, until the writer has
  // stopped there is a writer step it can take, every such step brings it nearer
  // to the close frame, and nothing the senders do sets it back.
  lemma WriterReachesClose(goroutines: nat, capacity: nat, maxBuf: int, maxDrops: int, steps: seq<Step>, step: Step)
    ensures var s := Exec(Init(goroutines, capacity, maxBuf, maxDrops), steps);
            !s.failed && s.closeAt.Some? && !s.writer.Stopped? ==>
              && Remaining(s) > 0
              && (Next(s, Take) != s || Next(s, Write(true)) != s || Next(s, Settle) != s)
              && (IsWriterStep(step) && Next(s, step) != s ==> 0 <= Remaining(Next(s, step)) < Remaining(s))
              && (!IsWriterStep(step) ==> Remaining(Next(s, step)) == Remaining(s))
  {
    RunsKeepDrain(goroutines, capacity, maxBuf, maxDrops, steps);
    var s := Exec(Init(goroutines, capacity, maxBuf, maxDrops), steps);
    if !s.failed && s.closeAt.Some? && !s.writer.Stopped? {
      CanStep(s);
      StepsShrink(s, step);
    }
  }

  lemma CanStep(s: State)
    requires DrainInv(s) && !s.failed && s.closeAt.Some? && !s.writer.Stopped?
    ensures Remaining(s) > 0
    ensures Next(s, Take) != s || Next(s, Write(true)) != s || Next(s, Settle) != s
  {
    match s.writer
    case Waiting =>
      assert |s.queue| == |s.log| - s.taken > 0;
      assert Next(s, Take).writer.Holding?;
    case Holding(f) => assert Next(s, Write(true)).writer.Written?;
    case Written(f, ok) => assert !Next(s, Settle).writer.Written?;
  }

  lemma StepsShrink(s: State, step: Step)
    requires DrainInv(s) && !s.failed && s.closeAt.Some? && !s.writer.Stopped?
    ensures IsWriterStep(step) && Next(s, step) != s ==> 0 <= Remaining(Next(s, step)) < Remaining(s)
    ensures !IsWriterStep(step) ==> Remaining(Next(s, step)) == Remaining(s)
  {
    if step.Advance? && step.slot < |s.slots| {
      MovesAreDisciplined(s, s.slots[step.slot], step.giveUp);
      CloseStaysPut(s, step.slot, MoveOf(s, s.slots[step.slot], step.giveUp));
    } else if IsWriterStep(step) {
      WriterShrinks(s, step);
    }
  }

  lemma CloseStaysPut(s: State, i: nat, m: Move)
    requires OnceInv(s) && s.closeAt.Some? && i < |s.slots| && Disciplined(s, s.slots[i], m)
    ensures var s' := GoNext(s, i, m);
            s'.closeAt == s.closeAt && s'.taken == s.taken && s'.writer == s.writer
  {
    OnceGo(s, i, m);
  }

  lemma WriterShrinks(s: State, step: Step)
    requires WriterInv(s) && CloseInv(s) && !s.failed && s.closeAt.Some? && !s.writer.Stopped? && IsWriterStep(step)
    ensures WriterNext(s, step) != s ==> 0 <= Remaining(WriterNext(s, step)) < Remaining(s)
  {
  }

  // ---- SendNow and Ping ----

  // On an open connection with room SendNow enqueues its frame, behind whatever is
  // there, and counts its bytes.
  lemma SendNowEnqueues(s: State, i: nat, size: nat, body: nat)
    requires i < |s.slots| && s.slots[i] == Free && !s.closed && HasRoom(s)
    ensures Next(Next(Next(s, Start(i, SendNow(size, body))), Advance(i, false)), Advance(i, false)) ==
            s.(queue := s.queue + [Text(size, body)], log := s.log + [Text(size, body)], bufBytes := s.bufBytes + size)
  {
    var f := Text(size, body);
    var started := s.(slots := s.slots[i := Blocking(f)]);
    assert Next(s, Start(i, SendNow(size, body))) == started;
    var queued := s.(queue := s.queue + [f], log := s.log + [f], slots := s.slots[i := BlockQueued(f)]);
    assert Next(started, Advance(i, false)) == queued by {
      assert started.slots[i := BlockQueued(f)] == queued.slots;
    }
    assert queued.slots[i := Free] == s.slots;
  }

  // And Ping its own.
  lemma PingEnqueues(s: State, i: nat)
    requires i < |s.slots| && s.slots[i] == Free && !s.closed && HasRoom(s)
    ensures Next(Next(Next(s, Start(i, SendPing)), Advance(i, false)), Advance(i, false)) ==
            s.(queue := s.queue + [Ping], log := s.log + [Ping])
  {
    var started := s.(slots := s.slots[i := PingChecking]);
    assert Next(s, Start(i, SendPing)) == started;
    var ready := s.(slots := s.slots[i := PingReady]);
    assert Next(started, Advance(i, false)) == ready by {
      assert started.slots[i := PingReady] == ready.slots;
    }
    assert ready.slots[i := Free] == s.slots;
  }

  // Without room SendNow waits, unless it is cancelled or the connection is closed;
  // Ping gives up.
  lemma FullQueueWaits(s: State, i: nat, f: Frame)
    requires i < |s.slots| && !HasRoom(s)
    ensures s.slots[i] == Blocking(f) ==> Next(s, Advance(i, false)) == s
    ensures s.slots[i] == Blocking(f) ==> Next(s, Advance(i, true)) == s.(slots := s.slots[i := Free])
    ensures s.slots[i] == PingReady ==> Next(s, Advance(i, false)) == s.(slots := s.slots[i := Free])
  {
    assert s.slots[i := s.slots[i]] == s.slots;
  }

  // ---- Close once, and eviction ----

  // Only the first closer's category is recorded, and the flag is never taken back.
  lemma CloseHappensOnce(s: State, step: Step)
    requires DrainInv(s)
    ensures s.reason.Some? ==> Next(s, step).reason == s.reason
    ensures s.closed ==> Next(s, step).closed && Next(s, step).closeAt == s.closeAt
  {
    if step.Advance? && step.slot < |s.slots| {
      MovesAreDisciplined(s, s.slots[step.slot], step.giveUp);
    }
  }

  // Drops since the last reset.
  function Streak(events: seq<bool>): nat {
    if events == [] || !events[|events| - 1] then 0 else 1 + Streak(events[..|events| - 1])
  }

  lemma {:induction false} DropsAreAStreak(goroutines: nat, capacity: nat, maxBuf: int, maxDrops: int, steps: seq<Step>)
    ensures var s := Exec(Init(goroutines, capacity, maxBuf, maxDrops), steps);
            s.drops == Streak(s.events) && s.maxDrops == maxDrops
  {
    if steps == [] {
    } else {
      DropsAreAStreak(goroutines, capacity, maxBuf, maxDrops, steps[..|steps| - 1]);
      var s, step := Exec(Init(goroutines, capacity, maxBuf, maxDrops), steps[..|steps| - 1]), steps[|steps| - 1];
      StreakStep(s, step);
    }
  }

  lemma StreakStep(s: State, step: Step)
    requires s.drops == Streak(s.events)
    ensures var s' := Next(s, step);
            s'.drops == Streak(s'.events) && s'.maxDrops == s.maxDrops
  {
    if step.Advance? && step.slot < |s.slots| {
      StreakEffect(s, MoveOf(s, s.slots[step.slot], step.giveUp).effect);
    }
  }

  lemma StreakEffect(s: State, e: Effect)
    requires s.drops == Streak(s.events)
    ensures var s' := Effected(s, e);
            s'.drops == Streak(s'.events) && s'.maxDrops == s.maxDrops
  {
    assert (s.events + [true])[..|s.events|] == s.events;
  }

  // A goroutine goes on to evict the connection exactly when eviction is on and
  // its drop completes a streak of maxDrops with no successful send in between.
  lemma EvictsAfterStreak(goroutines: nat, capacity: nat, maxBuf: int, maxDrops: int, steps: seq<Step>, i: nat, giveUp: bool)
    requires var s := Exec(Init(goroutines, capacity, maxBuf, maxDrops), steps);
             i < |s.slots| && s.slots[i] == Dropping
    ensures var s := Exec(Init(goroutines, capacity, maxBuf, maxDrops), steps);
            MoveOf(s, s.slots[i], giveUp).slot.Closing? <==> maxDrops > 0 && Streak(s.events + [true]) >= maxDrops
  {
    DropsAreAStreak(goroutines, capacity, maxBuf, maxDrops, steps);
    var s := Exec(Init(goroutines, capacity, maxBuf, maxDrops), steps);
    assert (s.events + [true])[..|s.events|] == s.events;
  }
}

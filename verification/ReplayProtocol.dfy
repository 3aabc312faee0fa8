/**
 The live-versus-replay race of bus/bus.go, for one subscriber and one topic on
 one instance, over all interleavings of

   - publishers anywhere: XADD, later PUBLISH (two commands, PublishTopic);
   - stream trimming;
   - this instance's dispatch goroutine: handleTopic's critical section, then the
     send after the lock is released;
   - one SubscribeWithReplay call at a time: register, XRANGE, mark and send each
     entry, flip, drain, return;
   - plain subscribe and unsubscribe.

 `view` is what the bus keeps about this pair (module Subscriptions); every step
 on it is that module's operation, so other subscribers and topics cannot
 interfere.
 */
module ReplayProtocol {
  import opened Basics
  import opened Routing
  import opened StreamIds
  import opened Subscriptions
  import opened ReplayScan

  /** An announcement as this subscriber is concerned: `allowed` is its verdict
      under the message's recipients list. */
  datatype Message = Message(entry: Entry, allowed: bool)

  /** Why a frame was sent. Only Replayed frames carry replay=true on the wire;
      Carried marks the one frame that may have been decided before the call. */
  datatype Source = Replayed | Drained | Live | Carried

  datatype Frame = Frame(entry: Entry, source: Source)

  datatype Phase =
    | Idle
    | Registered
    | Replaying(next: nat, marked: bool)
    | Draining(leftover: seq<Entry>, done: nat)

  /** History of the latest SubscribeWithReplay call and the time since. */
  datatype Session = Session(
    cursor: Id,
    clean: bool,            // not subscribed and nothing in flight when it began
    broken: bool,           // the range read failed, or the subscriber was removed
    scanned: bool,
    trimmed: nat,           // stream bounds when XRANGE ran
    added: nat,
    result: seq<Entry>,     // what XRANGE gave above the cursor
    buffered: seq<Entry>,   // dispatched while buffering
    after: seq<Entry>)      // dispatched live after the flip

  datatype State = State(
    log: seq<Entry>,        // everything ever added to the stream
    trimmed: nat,           // how much of it was trimmed away
    published: seq<Message>,
    channel: seq<Message>,  // published, not yet handled here
    handled: seq<Message>,
    view: View,
    inflight: Option<Frame>,
    phase: Phase,
    session: Option<Session>,
    frames: seq<Frame>)     // sent since the latest call began

  const INIT := State([], 0, [], [], [], View(false, None), None, Idle, None, [])

  datatype Step =
    | XAdd(entry: Entry)
    | Trim(count: nat)
    | Publish(msg: Message)
    | Lose                  // an announcement that never reaches this instance
    | Dispatch
    | SendLive
    | Subscribe
    | Unsubscribe
    | BeginReplay(cursor: Id)
    | RangeFails
    | Range
    | MarkNext
    | SendReplayed
    | FlipToLive
    | SendDrained
    | Return

  // Steps of the environment and of the dispatch goroutine.
  function OuterNext(s: State, step: Step): State {
    match step
    case XAdd(e) =>
      if s.log != [] && !s.log[|s.log| - 1].id.Below(e.id) then s else s.(log := s.log + [e])
    case Trim(count) =>
      if s.trimmed + count > |s.log| then s else s.(trimmed := s.trimmed + count)
    case Publish(m) =>
      if m.entry !in s.log then s else s.(published := s.published + [m], channel := s.channel + [m])
    case Lose =>
      if s.channel == [] then s else s.(channel := s.channel[1..])
    case Dispatch =>
      if s.channel == [] || s.inflight.Some? then s else Dispatched(s, s.channel[0])
    case SendLive =>
      if s.inflight.None? then s else s.(inflight := None, frames := s.frames + [s.inflight.value])
    case Subscribe =>
      s.(view := s.view.(subscribed := true))
    case Unsubscribe =>
      s.(view := View(false, None), session := Broken(s.session))
    case _ => s
  }

  function Broken(session: Option<Session>): Option<Session> {
    if session.None? then None else Some(session.value.(broken := true))
  }

  function Noted(session: Option<Session>, e: Entry, route: Route): Option<Session> {
    if session.None? then None
    else if route == Buffered then Some(session.value.(buffered := session.value.buffered + [e]))
    else if route == Delivered then Some(session.value.(after := session.value.after + [e]))
    else session
  }

  function Dispatched(s: State, m: Message): State
    requires s.channel != []
  {
    var route := RouteOf(s.view, m.allowed);
    s.(channel := s.channel[1..],
       handled := s.handled + [m],
       view := Offer(s.view, m.entry),
       inflight := if route == Delivered then Some(Frame(m.entry, Live)) else None,
       session := Noted(s.session, m.entry, route))
  }

  // Steps of SubscribeWithReplay.
  function CallNext(s: State, step: Step): State {
    match step
    case BeginReplay(cursor) =>
      if s.phase != Idle then s
      else
        s.(view := Register(s.view),
           phase := Registered,
           session := Some(Session(cursor, !s.view.subscribed && s.inflight.None?, false, false, 0, 0, [], [], [])),
           inflight := if s.inflight.None? then None else Some(s.inflight.value.(source := Carried)),
           frames := [])
    case RangeFails =>
      if s.phase != Registered then s
      else s.(view := Abort(s.view), phase := Idle, session := Broken(s.session))
    case Range =>
      if s.phase != Registered || s.session.None? || s.trimmed > |s.log| then s
      else
        var ss := s.session.value;
        s.(phase := Replaying(0, false),
           session := Some(ss.(scanned := true, trimmed := s.trimmed, added := |s.log|,
                               result := Above(s.log[s.trimmed..], ss.cursor))))
    case MarkNext =>
      if !s.phase.Replaying? || s.session.None? || s.phase.marked || s.phase.next >= |s.session.value.result| then s
      else s.(view := MarkSeen(s.view, s.session.value.result[s.phase.next].id), phase := s.phase.(marked := true))
    case SendReplayed =>
      if !s.phase.Replaying? || s.session.None? || !s.phase.marked || s.phase.next >= |s.session.value.result| then s
      else
        s.(frames := s.frames + [Frame(s.session.value.result[s.phase.next], Replayed)],
           phase := Replaying(s.phase.next + 1, false))
    case FlipToLive =>
      if !s.phase.Replaying? || s.session.None? || s.phase.marked || s.phase.next < |s.session.value.result| then s
      else s.(view := Abort(s.view), phase := Draining(Leftover(s.view), 0))
    case SendDrained =>
      if !s.phase.Draining? || s.phase.done >= |s.phase.leftover| then s
      else
        s.(frames := s.frames + [Frame(s.phase.leftover[s.phase.done], Drained)],
           phase := s.phase.(done := s.phase.done + 1))
    case Return =>
      if !s.phase.Draining? || s.phase.done < |s.phase.leftover| then s else s.(phase := Idle)
    case _ => s
  }

  predicate IsCallStep(step: Step) {
    || step.BeginReplay? || step.RangeFails? || step.Range? || step.MarkNext?
    || step.SendReplayed? || step.FlipToLive? || step.SendDrained? || step.Return?
  }

  function Next(s: State, step: Step): State {
    if IsCallStep(step) then CallNext(s, step) else OuterNext(s, step)
  }

  // Every interleaving is a sequence of steps; a step that cannot happen is idle.
  function Exec(steps: seq<Step>): State {
    if steps == [] then INIT else Next(Exec(steps[..|steps| - 1]), steps[|steps| - 1])
  }

  // ---- The bus operation behind each step ----

  function BusOp(s: State, step: Step, sub: Subscriber, topic: string): Option<Op> {
    if Next(s, step) == s then None
    else
      match step
      case Dispatch => if s.channel == [] then None else Some(FanOut(topic, s.channel[0].entry))
      case Subscribe => Some(Add(topic, sub))
      case Unsubscribe => Some(Remove(topic, sub))
      case BeginReplay(_) => Some(Begin(topic, sub))
      case RangeFails => Some(Fail(topic, sub))
      case MarkNext =>
        if s.session.Some? && s.phase.Replaying? && s.phase.next < |s.session.value.result|
        then Some(Mark(topic, sub, s.session.value.result[s.phase.next].id)) else None
      case FlipToLive => Some(Flip(topic, sub))
      case _ => None
  }

  // Whatever else the shared maps hold, the step changes this pair's part of them
  // exactly as the protocol state says.
  lemma StepsAreBusOps(s: State, step: Step, b: Local, sub: Subscriber, topic: string)
    requires ViewOf(b, sub, topic) == s.view
    ensures var op := BusOp(s, step, sub, topic);
            ViewOf(if op.Some? then Apply(b, op.value) else b, sub, topic) == Next(s, step).view
  {
    var op := BusOp(s, step, sub, topic);
    if op.Some? {
      PairsAreIndependent(b, op.value, sub, topic);
    }
  }
}

/**
 What the replay protocol guarantees, over every interleaving: no gap, the exact
 number of copies of every message, and the order of frames.
 */
module ReplayTheorems {
  import opened Basics
  import opened StreamIds
  import opened Subscriptions
  import opened ReplayScan
  import opened ReplayProtocol
  import opened Sequences

  // ---- Frames by source ----

  function OfSource(frames: seq<Frame>, source: Source): seq<Entry> {
    if frames == [] then []
    else
      var last := frames[|frames| - 1];
      var front := OfSource(frames[..|frames| - 1], source);
      if last.source == source then front + [last.entry] else front
  }

  lemma OneMoreFrame(frames: seq<Frame>, f: Frame, source: Source)
    ensures OfSource(frames + [f], source) ==
            if f.source == source then OfSource(frames, source) + [f.entry] else OfSource(frames, source)
  {
    assert (frames + [f])[..|frames|] == frames;
  }

  lemma {:induction false} OfSourceMembers(frames: seq<Frame>, source: Source)
    ensures forall e :: e in OfSource(frames, source) <==> Frame(e, source) in frames
  {
    if frames == [] {
    } else {
      OfSourceMembers(frames[..|frames| - 1], source);
      assert frames == frames[..|frames| - 1] + [frames[|frames| - 1]];
    }
  }

  function Entries(frames: seq<Frame>): seq<Entry> {
    seq(|frames|, i requires 0 <= i < |frames| => frames[i].entry)
  }

  function Copies(s: seq<Entry>, e: Entry): nat {
    multiset(s)[e]
  }

  lemma OneMoreCopy(s: seq<Entry>, x: Entry, e: Entry)
    ensures Copies(s + [x], e) == if x == e then Copies(s, e) + 1 else Copies(s, e)
  {
  }

  // Copies of one message among the frames, by the reason they were sent.
  lemma {:induction false} CopiesBySource(frames: seq<Frame>, e: Entry)
    ensures Copies(Entries(frames), e) ==
            Copies(OfSource(frames, Replayed), e) + Copies(OfSource(frames, Drained), e)
            + Copies(OfSource(frames, Live), e) + Copies(OfSource(frames, Carried), e)
  {
    if frames == [] {
    } else {
      var front, last := frames[..|frames| - 1], frames[|frames| - 1];
      CopiesBySource(front, e);
      OneMoreEntry(front, last, e);
      assert frames == front + [last];
      OneMoreOf(front, last, Replayed, e);
      OneMoreOf(front, last, Drained, e);
      OneMoreOf(front, last, Live, e);
      OneMoreOf(front, last, Carried, e);
    }
  }

  lemma OneMoreEntry(frames: seq<Frame>, f: Frame, e: Entry)
    ensures Copies(Entries(frames + [f]), e) == Copies(Entries(frames), e) + if f.entry == e then 1 else 0
  {
    assert Entries(frames + [f]) == Entries(frames) + [f.entry];
    OneMoreCopy(Entries(frames), f.entry, e);
  }

  lemma OneMoreOf(frames: seq<Frame>, f: Frame, source: Source, e: Entry)
    ensures Copies(OfSource(frames + [f], source), e) ==
            Copies(OfSource(frames, source), e) + if f == Frame(e, source) then 1 else 0
  {
    OneMoreFrame(frames, f, source);
    OneMoreCopy(OfSource(frames, source), f.entry, e);
  }

  // A replayed frame is preceded only by replayed frames, save a carried one.
  ghost predicate ReplayedFirst(frames: seq<Frame>) {
    forall i, j :: 0 <= i < j < |frames| && frames[j].source == Replayed ==>
      frames[i].source == Replayed || frames[i].source == Carried
  }

  lemma OneMoreReplayed(frames: seq<Frame>, e: Entry)
    requires ReplayedFirst(frames)
    requires OfSource(frames, Drained) == [] && OfSource(frames, Live) == []
    ensures ReplayedFirst(frames + [Frame(e, Replayed)])
  {
    OfSourceMembers(frames, Drained);
    OfSourceMembers(frames, Live);
    forall i | 0 <= i < |frames| ensures frames[i].source == Replayed || frames[i].source == Carried {
      assert frames[i] == Frame(frames[i].entry, frames[i].source);
      assert frames[i] in frames;
    }
  }

  // ---- Invariants ----

  function EntriesOf(messages: seq<Message>): seq<Entry> {
    seq(|messages|, i requires 0 <= i < |messages| => messages[i].entry)
  }

  // The stream, and what is known about announcements.
  ghost predicate StreamInv(s: State) {
    && Increasing(s.log) && s.trimmed <= |s.log|
    && (forall i :: 0 <= i < |s.channel| ==> s.channel[i].entry in s.log)
    && (forall i :: 0 <= i < |s.handled| ==> s.handled[i].entry in s.log)
  }

  // Nothing is handled more often than it was announced.
  ghost predicate AnnounceInv(s: State) {
    multiset(EntriesOf(s.handled)) + multiset(EntriesOf(s.channel)) <= multiset(EntriesOf(s.published))
  }

  // What the range read returned, and that it stays valid as the log grows.
  ghost predicate ScanInv(s: State) {
    && (s.phase != Idle ==> s.session.Some?)
    && (s.session.Some? && s.session.value.scanned ==>
          var ss := s.session.value;
          && ss.trimmed <= ss.added <= |s.log|
          && ss.result == Above(s.log[ss.trimmed..ss.added], ss.cursor))
  }

  // Every handled announcement is accounted for by the session.
  ghost predicate Covered(log: seq<Entry>, ss: Session, m: Message)
    requires ss.added <= |log|
  {
    m.entry in log[..ss.added] || m.entry in ss.buffered || m.entry in ss.after || !m.allowed
  }

  ghost predicate CoverInv(s: State)
    requires ScanInv(s)
  {
    s.session.Some? && s.session.value.scanned && !s.session.value.broken ==>
      forall m :: m in s.handled ==> Covered(s.log, s.session.value, m)
  }

  ghost predicate CountInv(s: State) {
    s.session.Some? ==>
      multiset(s.session.value.buffered) + multiset(s.session.value.after) <= multiset(EntriesOf(s.handled))
  }

  ghost function IdsOf(s: seq<Entry>): set<Id> {
    set e | e in s :: e.id
  }

  function Waiting(inflight: Option<Frame>, source: Source): seq<Entry> {
    if inflight.Some? && inflight.value.source == source then [inflight.value.entry] else []
  }

  // The frames sent so far against the history of the session: `i` of the result
  // were replayed and `k` of the leftovers drained.
  ghost predicate SentSoFar(s: State, i: nat, leftover: seq<Entry>, k: nat)
    requires s.session.Some? && i <= |s.session.value.result| && k <= |leftover|
  {
    && OfSource(s.frames, Replayed) == s.session.value.result[..i]
    && OfSource(s.frames, Drained) == leftover[..k]
    && OfSource(s.frames, Live) + Waiting(s.inflight, Live) == s.session.value.after
    && ReplayedFirst(s.frames)
    && (s.session.value.clean ==> OfSource(s.frames, Carried) + Waiting(s.inflight, Carried) == [])
  }

  ghost predicate SessionInv(s: State)
    requires s.session.Some?
  {
    var ss := s.session.value;
    && s.view.subscribed
    && (s.inflight.Some? ==> s.inflight.value.source == Live || s.inflight.value.source == Carried)
    && match s.phase
       case Registered =>
         && !ss.scanned && ss.result == [] && ss.after == []
         && s.view.replay == Some(Replay(true, {}, ss.buffered))
         && SentSoFar(s, 0, [], 0)
       case Replaying(i, marked) =>
         && ss.scanned && ss.after == [] && i <= |ss.result| && (marked ==> i < |ss.result|)
         && s.view.replay == Some(Replay(true, IdsOf(ss.result[..if marked then i + 1 else i]), ss.buffered))
         && SentSoFar(s, i, [], 0)
       case Draining(leftover, k) =>
         && ss.scanned && s.view.replay.None? && k <= |leftover|
         && leftover == Unseen(ss.buffered, IdsOf(ss.result))
         && SentSoFar(s, |ss.result|, leftover, k)
       case Idle =>
         var leftover := Unseen(ss.buffered, IdsOf(ss.result));
         && ss.scanned && s.view.replay.None?
         && SentSoFar(s, |ss.result|, leftover, |leftover|)
  }

  ghost predicate FrameInv(s: State) {
    s.session.Some? && !s.session.value.broken ==> SessionInv(s)
  }

  ghost predicate Inv(s: State) {
    StreamInv(s) && AnnounceInv(s) && ScanInv(s) && CoverInv(s) && CountInv(s) && FrameInv(s)
  }

  // ---- Each invariant over each step ----

  lemma StreamStep(s: State, step: Step)
    requires StreamInv(s)
    ensures StreamInv(Next(s, step))
  {
  }

  lemma AnnounceStep(s: State, step: Step)
    requires AnnounceInv(s)
    ensures AnnounceInv(Next(s, step))
  {
    if s.channel != [] && (step.Lose? || step.Dispatch?) {
      HandleOne(s.handled, s.channel);
    } else if step.Publish? {
      PublishOne(s.channel, step.msg);
      PublishOne(s.published, step.msg);
    }
  }

  lemma HandleOne(handled: seq<Message>, channel: seq<Message>)
    requires channel != []
    ensures multiset(EntriesOf(handled + [channel[0]])) + multiset(EntriesOf(channel[1..])) ==
            multiset(EntriesOf(handled)) + multiset(EntriesOf(channel))
    ensures multiset(EntriesOf(channel[1..])) <= multiset(EntriesOf(channel))
  {
    assert EntriesOf(channel) == [channel[0].entry] + EntriesOf(channel[1..]);
    assert EntriesOf(handled + [channel[0]]) == EntriesOf(handled) + [channel[0].entry];
  }

  lemma PublishOne(messages: seq<Message>, m: Message)
    ensures multiset(EntriesOf(messages + [m])) == multiset(EntriesOf(messages)) + multiset{m.entry}
  {
    assert EntriesOf(messages + [m]) == EntriesOf(messages) + [m.entry];
  }

  lemma ScanStep(s: State, step: Step)
    requires StreamInv(s) && ScanInv(s)
    ensures ScanInv(Next(s, step))
  {
    if s.session.Some? && s.session.value.scanned {
      var ss, s' := s.session.value, Next(s, step);
      if step.XAdd? {
        assert s'.log[ss.trimmed..ss.added] == s.log[ss.trimmed..ss.added];
      }
    }
    if step.Range? {
      assert s.log[s.trimmed..|s.log|] == s.log[s.trimmed..];
    }
  }

  lemma CountDispatch(s: State)
    requires CountInv(s) && s.channel != []
    ensures CountInv(Dispatched(s, s.channel[0]))
  {
    PublishOne(s.handled, s.channel[0]);
  }

  // Any other step leaves the record of the session alone, or starts a new one.
  lemma CountOther(s: State, step: Step)
    requires !step.Dispatch?
    ensures var s' := Next(s, step);
            && s'.handled == s.handled
            && (s'.session.Some? ==>
                  || (s'.session.value.buffered == [] && s'.session.value.after == [])
                  || (s.session.Some? && s'.session.value.buffered == s.session.value.buffered
                      && s'.session.value.after == s.session.value.after))
  {
  }

  lemma CountStep(s: State, step: Step)
    requires CountInv(s)
    ensures CountInv(Next(s, step))
  {
    if !step.Dispatch? {
      CountOther(s, step);
    } else if s.channel != [] {
      CountDispatch(s);
    }
  }

  // At the range read everything handled so far is in the log that was read.
  lemma CoverRange(s: State)
    requires StreamInv(s) && ScanInv(s) && ScanInv(Next(s, Range)) && s.phase == Registered
    ensures CoverInv(Next(s, Range))
  {
    var s' := CallNext(s, Range);
    assert s'.log[..|s.log|] == s.log;
  }

  // Later announcements are buffered, delivered live, or not allowed.
  lemma CoverDispatch(s: State)
    requires ScanInv(s) && CoverInv(s) && FrameInv(s) && ScanInv(Next(s, Dispatch))
    requires s.channel != [] && s.inflight.None?
    ensures CoverInv(Next(s, Dispatch))
  {
    var s', m0 := Next(s, Dispatch), s.channel[0];
    if s'.session.Some? && s'.session.value.scanned && !s'.session.value.broken {
      var ss, ss' := s.session.value, s'.session.value;
      assert s.view.subscribed;
      forall m | m in s'.handled ensures Covered(s'.log, ss', m) {
        if m in s.handled {
          assert Covered(s.log, ss, m);
        } else {
          assert m == m0;
        }
      }
    }
  }

  lemma CoverStep(s: State, step: Step)
    requires StreamInv(s) && ScanInv(s) && CoverInv(s) && FrameInv(s) && ScanInv(Next(s, step))
    ensures CoverInv(Next(s, step))
  {
    if step.Range? && s.phase == Registered {
      CoverRange(s);
    } else if step.Dispatch? && s.channel != [] && s.inflight.None? {
      CoverDispatch(s);
    } else if step.XAdd? && s.session.Some? && s.session.value.scanned {
      var added := s.session.value.added;
      assert Next(s, step).log[..added] == s.log[..added];
    }
  }

  lemma OneMoreEach(frames: seq<Frame>, f: Frame)
    ensures OfSource(frames + [f], f.source) == OfSource(frames, f.source) + [f.entry]
    ensures forall source :: source != f.source ==> OfSource(frames + [f], source) == OfSource(frames, source)
    ensures ReplayedFirst(frames) && f.source != Replayed ==> ReplayedFirst(frames + [f])
  {
    forall source ensures OfSource(frames + [f], source) ==
                          if f.source == source then OfSource(frames, source) + [f.entry] else OfSource(frames, source)
    {
      OneMoreFrame(frames, f, source);
    }
  }

  lemma SentOneLive(s: State, i: nat, leftover: seq<Entry>, k: nat)
    requires s.session.Some? && i <= |s.session.value.result| && k <= |leftover|
    requires SentSoFar(s, i, leftover, k) && s.inflight.Some?
    requires s.inflight.value.source == Live || s.inflight.value.source == Carried
    ensures SentSoFar(OuterNext(s, SendLive), i, leftover, k)
  {
    var s' := OuterNext(s, SendLive);
    OneMoreEach(s.frames, s.inflight.value);
    assert OfSource(s'.frames, Live) + Waiting(s'.inflight, Live) == OfSource(s.frames, Live) + Waiting(s.inflight, Live);
    assert OfSource(s'.frames, Carried) + Waiting(s'.inflight, Carried) == OfSource(s.frames, Carried) + Waiting(s.inflight, Carried);
  }

  lemma FrameSendLive(s: State)
    requires s.session.Some? && SessionInv(s) && s.inflight.Some?
    ensures SessionInv(Next(s, SendLive))
  {
    var ss := s.session.value;
    match s.phase
    case Registered => SentOneLive(s, 0, [], 0);
    case Replaying(i, marked) => SentOneLive(s, i, [], 0);
    case Draining(leftover, k) => SentOneLive(s, |ss.result|, leftover, k);
    case Idle =>
      var leftover := Unseen(ss.buffered, IdsOf(ss.result));
      SentOneLive(s, |ss.result|, leftover, |leftover|);
  }

  lemma FrameDispatch(s: State)
    requires s.session.Some? && SessionInv(s) && s.channel != [] && s.inflight.None?
    ensures SessionInv(Next(s, Dispatch))
  {
    var s' := Next(s, Dispatch);
    assert OfSource(s.frames, Live) + [] == OfSource(s.frames, Live);
    assert OfSource(s.frames, Carried) + Waiting(s'.inflight, Carried) == OfSource(s.frames, Carried) + Waiting(s.inflight, Carried);
  }

  lemma FrameStepOuter(s: State, step: Step)
    requires FrameInv(s) && !IsCallStep(step)
    ensures FrameInv(Next(s, step))
  {
    if s.session.Some? && !s.session.value.broken {
      if step.SendLive? && s.inflight.Some? {
        FrameSendLive(s);
      } else if step.Dispatch? && s.channel != [] && s.inflight.None? {
        FrameDispatch(s);
      }
    }
  }

  lemma FrameBegin(s: State, cursor: Id)
    requires s.phase == Idle
    ensures SessionInv(Next(s, BeginReplay(cursor)))
  {
  }

  lemma FrameRange(s: State)
    requires s.session.Some? && SessionInv(s) && s.phase == Registered
    ensures SessionInv(Next(s, Range))
  {
    var s' := Next(s, Range);
    var result := s'.session.value.result;
    assert result[..0] == [] && IdsOf(result[..0]) == {};
  }

  lemma FrameMark(s: State)
    requires s.session.Some? && SessionInv(s)
    ensures SessionInv(Next(s, MarkNext))
  {
    var ss := s.session.value;
    if s.phase.Replaying? && !s.phase.marked && s.phase.next < |ss.result| {
      var i := s.phase.next;
      assert ss.result[..i + 1] == ss.result[..i] + [ss.result[i]];
      assert IdsOf(ss.result[..i + 1]) == IdsOf(ss.result[..i]) + {ss.result[i].id};
    }
  }

  lemma FrameSendReplayed(s: State)
    requires s.session.Some? && SessionInv(s)
    ensures SessionInv(Next(s, SendReplayed))
  {
    var ss := s.session.value;
    if s.phase.Replaying? && s.phase.marked {
      var i := s.phase.next;
      assert OfSource(s.frames, Live) == [];
      OneMoreReplayed(s.frames, ss.result[i]);
      OneMoreEach(s.frames, Frame(ss.result[i], Replayed));
      assert ss.result[..i + 1] == ss.result[..i] + [ss.result[i]];
    }
  }

  lemma FrameFlip(s: State)
    requires s.session.Some? && SessionInv(s)
    ensures SessionInv(Next(s, FlipToLive))
  {
    var ss := s.session.value;
    assert ss.result[..|ss.result|] == ss.result;
  }

  lemma FrameSendDrained(s: State)
    requires s.session.Some? && SessionInv(s)
    ensures SessionInv(Next(s, SendDrained))
  {
    if s.phase.Draining? && s.phase.done < |s.phase.leftover| {
      var k := s.phase.done;
      OneMoreEach(s.frames, Frame(s.phase.leftover[k], Drained));
      assert s.phase.leftover[..k + 1] == s.phase.leftover[..k] + [s.phase.leftover[k]];
    }
  }

  lemma FrameStepCall(s: State, step: Step)
    requires FrameInv(s) && IsCallStep(step)
    ensures FrameInv(Next(s, step))
  {
    if step.BeginReplay? && s.phase == Idle {
      FrameBegin(s, step.cursor);
    } else if s.session.Some? && !s.session.value.broken {
      match step
      case Range => if s.phase == Registered { FrameRange(s); }
      case MarkNext => FrameMark(s);
      case SendReplayed => FrameSendReplayed(s);
      case FlipToLive => FrameFlip(s);
      case SendDrained => FrameSendDrained(s);
      case _ =>
    }
  }

  lemma {:induction false} ExecKeepsInv(steps: seq<Step>)
    ensures Inv(Exec(steps))
  {
    if steps == [] {
    } else {
      ExecKeepsInv(steps[..|steps| - 1]);
      var s, step := Exec(steps[..|steps| - 1]), steps[|steps| - 1];
      StreamStep(s, step);
      AnnounceStep(s, step);
      ScanStep(s, step);
      CountStep(s, step);
      CoverStep(s, step);
      if IsCallStep(step) {
        FrameStepCall(s, step);
      } else {
        FrameStepOuter(s, step);
      }
    }
  }

  // ---- Leftovers ----

  lemma {:induction false} UnseenMembers(buf: seq<Entry>, seen: set<Id>)
    ensures forall e :: e in Unseen(buf, seen) <==> e in buf && e.id !in seen
  {
    if buf == [] {
    } else {
      UnseenMembers(buf[..|buf| - 1], seen);
      assert buf == buf[..|buf| - 1] + [buf[|buf| - 1]];
    }
  }

  lemma {:induction false} UnseenCopies(buf: seq<Entry>, seen: set<Id>, e: Entry)
    ensures Copies(Unseen(buf, seen), e) == if e.id in seen then 0 else Copies(buf, e)
  {
    if buf == [] {
    } else {
      var front, last := buf[..|buf| - 1], buf[|buf| - 1];
      UnseenCopies(front, seen, e);
      assert buf == front + [last];
      OneMoreCopy(front, last, e);
      OneMoreCopy(Unseen(front, seen), last, e);
      assert Unseen(front, seen) + [] == Unseen(front, seen);
    }
  }

  // An ID names one entry of the stream.
  lemma IdsAreUnique(log: seq<Entry>, a: Entry, b: Entry)
    requires Increasing(log) && a in log && b in log && a.id == b.id
    ensures a == b
  {
    var i :| 0 <= i < |log| && log[i] == a;
    var j :| 0 <= j < |log| && log[j] == b;
    IdsTellPlaces(log, i, j);
  }

  lemma IdsTellPlaces(log: seq<Entry>, i: nat, j: nat)
    requires Increasing(log) && i < |log| && j < |log| && log[i].id == log[j].id
    ensures i == j
  {
  }

  lemma {:induction false} IncreasingCopies(s: seq<Entry>, e: Entry)
    requires Increasing(s)
    ensures Copies(s, e) == if e in s then 1 else 0
  {
    if s == [] {
    } else {
      var front, last := s[..|s| - 1], s[|s| - 1];
      IncreasingCopies(front, e);
      assert s == front + [last];
      OneMoreCopy(front, last, e);
    }
  }

  lemma FrameShown(frames: seq<Frame>, f: Frame)
    requires f in frames
    ensures f.entry in Entries(frames)
  {
    var i :| 0 <= i < |frames| && frames[i] == f;
    assert Entries(frames)[i] == f.entry;
  }

  lemma NotedIsHandled(s: State, e: Entry)
    requires CountInv(s) && StreamInv(s) && s.session.Some?
    requires e in s.session.value.buffered || e in s.session.value.after
    ensures e in s.log
  {
    assert e in multiset(s.session.value.buffered) + multiset(s.session.value.after);
    assert e in EntriesOf(s.handled);
  }

  // ---- Theorems ----

  // SubscribeWithReplay returned without error, the subscriber was not removed
  // since it began, and no send is pending.
  ghost predicate Finished(s: State) {
    s.session.Some? && !s.session.value.broken && s.phase == Idle && s.inflight.None?
  }

  ghost predicate TrimmedBeforeRange(s: State, e: Entry)
    requires s.session.Some?
  {
    exists k :: 0 <= k < s.session.value.trimmed && k < |s.log| && s.log[k] == e
  }

  // No gap: every message above the cursor whose announcement this instance ever
  // dispatched (before, during or after the call) and that routing allows was
  // sent at least once, unless it was trimmed away before the range read.
  lemma NoGap(steps: seq<Step>, m: Message)
    requires Finished(Exec(steps))
    requires m in Exec(steps).handled && m.allowed
    requires Exec(steps).session.value.cursor.Below(m.entry.id)
    requires !TrimmedBeforeRange(Exec(steps), m.entry)
    ensures m.entry in Entries(Exec(steps).frames)
  {
    ExecKeepsInv(steps);
    var s := Exec(steps);
    var ss, e := s.session.value, m.entry;
    assert Covered(s.log, ss, m);
    if e in s.log[..ss.added] {
      InRange(s.log, ss.trimmed, ss.added, e);
      ReplayedIsShown(s, e);
    } else if e in ss.buffered {
      BufferedIsShown(s, e);
    } else {
      LiveIsShown(s, e);
    }
  }

  lemma InRange(log: seq<Entry>, trimmed: nat, added: nat, e: Entry)
    requires trimmed <= added <= |log| && e in log[..added]
    requires !exists k :: 0 <= k < trimmed && k < |log| && log[k] == e
    ensures e in log[trimmed..added]
  {
    var k :| 0 <= k < added && log[k] == e;
    assert log[trimmed..added][k - trimmed] == e;
  }

  lemma LiveIsShown(s: State, e: Entry)
    requires Inv(s) && Finished(s)
    requires e in s.session.value.after
    ensures e in Entries(s.frames)
  {
    OfSourceMembers(s.frames, Live);
    assert OfSource(s.frames, Live) + [] == OfSource(s.frames, Live);
    FrameShown(s.frames, Frame(e, Live));
  }

  lemma ReplayedIsShown(s: State, e: Entry)
    requires Inv(s) && Finished(s)
    requires e in s.log[s.session.value.trimmed..s.session.value.added] && s.session.value.cursor.Below(e.id)
    ensures e in s.session.value.result && e in Entries(s.frames)
  {
    var ss := s.session.value;
    AboveMembers(s.log[ss.trimmed..ss.added], ss.cursor);
    assert ss.result[..|ss.result|] == ss.result;
    OfSourceMembers(s.frames, Replayed);
    FrameShown(s.frames, Frame(e, Replayed));
  }

  lemma BufferedIsShown(s: State, e: Entry)
    requires Inv(s) && Finished(s)
    requires e in s.session.value.buffered
    ensures e in Entries(s.frames)
  {
    var ss := s.session.value;
    if e.id in IdsOf(ss.result) {
      var e' :| e' in ss.result && e'.id == e.id;
      AboveMembers(s.log[ss.trimmed..ss.added], ss.cursor);
      NotedIsHandled(s, e);
      IdsAreUnique(s.log, e, e');
      ReplayedIsShown(s, e);
    } else {
      var leftover := Unseen(ss.buffered, IdsOf(ss.result));
      UnseenMembers(ss.buffered, IdsOf(ss.result));
      assert leftover[..|leftover|] == leftover;
      OfSourceMembers(s.frames, Drained);
      FrameShown(s.frames, Frame(e, Drained));
    }
  }

  // The exact number of copies of every message, with no assumption on how often
  // it was announced: one if the range read returned it, else one per
  // announcement dispatched while buffering; plus one per announcement routed
  // live after the flip; plus a frame already decided before the call.
  lemma ExactCopies(steps: seq<Step>, e: Entry)
    requires Finished(Exec(steps)) && e in Exec(steps).log
    ensures var s := Exec(steps);
            var ss := s.session.value;
            Copies(Entries(s.frames), e) ==
            (if e in ss.result then 1 else Copies(ss.buffered, e))
            + Copies(ss.after, e) + Copies(OfSource(s.frames, Carried), e)
  {
    ExecKeepsInv(steps);
    var s := Exec(steps);
    var ss := s.session.value;
    var leftover := Unseen(ss.buffered, IdsOf(ss.result));
    CopiesBySource(s.frames, e);
    assert ss.result[..|ss.result|] == ss.result;
    assert leftover[..|leftover|] == leftover;
    assert OfSource(s.frames, Live) + [] == OfSource(s.frames, Live);
    UnseenCopies(ss.buffered, IdsOf(ss.result), e);
    ResultIsIncreasing(s);
    IncreasingCopies(ss.result, e);
    if e !in ss.result && e.id in IdsOf(ss.result) {
      var e' :| e' in ss.result && e'.id == e.id;
      AboveMembers(s.log[ss.trimmed..ss.added], ss.cursor);
      IdsAreUnique(s.log, e, e');
    }
  }

  lemma ResultIsIncreasing(s: State)
    requires StreamInv(s) && ScanInv(s) && s.session.Some? && s.session.value.scanned
    ensures Increasing(s.session.value.result)
    ensures forall e :: e in s.session.value.result ==> s.session.value.cursor.Below(e.id)
  {
    var ss := s.session.value;
    AboveIncreasing(s.log[ss.trimmed..ss.added], ss.cursor);
    AboveMembers(s.log[ss.trimmed..ss.added], ss.cursor);
  }

  // If the message was announced once and the call started clean, it is sent
  // twice exactly when the range read returned it and its announcement was
  // dispatched after the flip; never more often; and exactly once if its
  // announcement was dispatched while buffering.
  lemma DuplicatesExactly(steps: seq<Step>, e: Entry)
    requires Finished(Exec(steps)) && e in Exec(steps).log && Exec(steps).session.value.clean
    requires Copies(EntriesOf(Exec(steps).published), e) <= 1
    ensures var s := Exec(steps);
            var ss := s.session.value;
            && Copies(Entries(s.frames), e) <= 2
            && (Copies(Entries(s.frames), e) == 2 <==> e in ss.result && e in ss.after)
            && (e in ss.buffered ==> Copies(Entries(s.frames), e) == 1)
  {
    ExecKeepsInv(steps);
    ExactCopies(steps, e);
    var s := Exec(steps);
    var ss := s.session.value;
    assert Copies(ss.buffered, e) + Copies(ss.after, e) <= Copies(EntriesOf(s.handled), e) <= 1;
    assert e in ss.after <==> Copies(ss.after, e) > 0;
    assert e in ss.buffered <==> Copies(ss.buffered, e) > 0;
    assert OfSource(s.frames, Carried) == [];
  }

  // ---- Announcement order ----

  // What was handled was handled in the order it was published; what was buffered, and
  // what was routed live, keeps the order in which it was handled.
  ghost predicate OrderInv(s: State) {
    && PickedFrom(s.handled + s.channel, s.published)
    && (s.session.Some? ==>
          && PickedFrom(s.session.value.buffered, EntriesOf(s.handled))
          && PickedFrom(s.session.value.after, EntriesOf(s.handled)))
  }

  lemma OrderDispatch(s: State)
    requires OrderInv(s) && s.channel != []
    ensures OrderInv(Dispatched(s, s.channel[0]))
  {
    var m := s.channel[0];
    assert s.handled + [m] + s.channel[1..] == s.handled + s.channel;
    assert EntriesOf(s.handled + [m]) == EntriesOf(s.handled) + [m.entry];
    if s.session.Some? {
      PickBoth(s.session.value.buffered, EntriesOf(s.handled), m.entry);
      PickBoth(s.session.value.after, EntriesOf(s.handled), m.entry);
    }
  }

  lemma OrderAnnounced(s: State, step: Step)
    requires OrderInv(s) && !step.Dispatch?
    ensures PickedFrom(Next(s, step).handled + Next(s, step).channel, Next(s, step).published)
  {
    if step.Lose? && s.channel != [] {
      var all := s.handled + s.channel;
      PickWithout(all, |s.handled|);
      assert all[..|s.handled|] + all[|s.handled| + 1..] == s.handled + s.channel[1..];
      PickOfPicked(s.handled + s.channel[1..], all, s.published);
    } else if step.Publish? {
      PickLast(s.handled + s.channel, s.published, step.msg);
      assert s.handled + s.channel + [step.msg] == s.handled + (s.channel + [step.msg]);
    }
  }

  lemma {:induction false} RunsKeepOrder(steps: seq<Step>)
    ensures OrderInv(Exec(steps))
  {
    if steps == [] {
      assert INIT.handled + INIT.channel == [];
      PickNone(INIT.published);
    } else {
      var s, step := Exec(steps[..|steps| - 1]), steps[|steps| - 1];
      RunsKeepOrder(steps[..|steps| - 1]);
      if step.Dispatch? {
        if s.channel != [] {
          OrderDispatch(s);
        }
      } else {
        OrderAnnounced(s, step);
        CountOther(s, step);
        PickNone(EntriesOf(s.handled));
      }
    }
  }

  // Two frames of one source stand in this order among the entries of that source.
  lemma {:induction false} SourcePlaces(frames: seq<Frame>, source: Source, i: nat, j: nat) returns (p: nat, q: nat)
    requires i < j < |frames| && frames[i].source == source && frames[j].source == source
    ensures p < q < |OfSource(frames, source)|
    ensures OfSource(frames, source)[p] == frames[i].entry && OfSource(frames, source)[q] == frames[j].entry
  {
    var front := frames[..|frames| - 1];
    if j < |front| {
      p, q := SourcePlaces(front, source, i, j);
    } else {
      OfSourceMembers(front, source);
      assert front[i] == Frame(frames[i].entry, source) && front[i] in front;
      p :| 0 <= p < |OfSource(front, source)| && OfSource(front, source)[p] == frames[i].entry;
      q := |OfSource(front, source)|;
    }
  }

  // Both frames were drained, or both sent live.
  predicate LiveAlike(s: State, i: nat, j: nat)
    requires i < |s.frames| && j < |s.frames|
  {
    s.frames[i].source == s.frames[j].source && (s.frames[i].source == Drained || s.frames[i].source == Live)
  }

  // The two frames were handled in this order.
  ghost predicate HandledInOrder(s: State, i: nat, j: nat)
    requires i < |s.frames| && j < |s.frames|
  {
    exists a, b :: 0 <= a < b < |s.handled| && s.handled[a].entry == s.frames[i].entry && s.handled[b].entry == s.frames[j].entry
  }

  lemma PickedInOrder(s: State, source: Source, i: nat, j: nat)
    requires PickedFrom(OfSource(s.frames, source), EntriesOf(s.handled))
    requires i < j < |s.frames| && s.frames[i].source == source && s.frames[j].source == source
    ensures HandledInOrder(s, i, j)
  {
    var p, q := SourcePlaces(s.frames, source, i, j);
    var at: seq<nat> :| Picks(OfSource(s.frames, source), EntriesOf(s.handled), at);
    assert s.handled[at[p]].entry == s.frames[i].entry && s.handled[at[q]].entry == s.frames[j].entry;
  }

  lemma DrainedPicked(s: State)
    requires Inv(s) && OrderInv(s) && s.session.Some? && !s.session.value.broken
    ensures PickedFrom(OfSource(s.frames, Drained), EntriesOf(s.handled))
    ensures PickedFrom(OfSource(s.frames, Live), EntriesOf(s.handled))
  {
    var ss := s.session.value;
    var unseen, drained := Unseen(ss.buffered, IdsOf(ss.result)), OfSource(s.frames, Drained);
    SentShape(s);
    UnseenIsKept(ss.buffered, IdsOf(ss.result));
    assert PickedFrom(unseen, ss.buffered);
    PickOfPicked(unseen, ss.buffered, EntriesOf(s.handled));
    PickPrefix(unseen, EntriesOf(s.handled), |drained|);
    assert unseen[..|drained|] == drained;
    var live := OfSource(s.frames, Live);
    PickPrefix(ss.after, EntriesOf(s.handled), |live|);
    assert ss.after[..|live|] == live;
  }

  // Drained leftovers keep the order of their announcements among themselves, and so
  // do live frames: of any two of them the first was handled before the second, and
  // messages are handled in the order they were published in.
  lemma AnnouncementOrder(steps: seq<Step>)
    requires Exec(steps).session.Some? && !Exec(steps).session.value.broken
    ensures var s := Exec(steps);
            && PickedFrom(s.handled, s.published)
            && forall i, j :: 0 <= i < j < |s.frames| && LiveAlike(s, i, j) ==> HandledInOrder(s, i, j)
  {
    ExecKeepsInv(steps);
    RunsKeepOrder(steps);
    var s := Exec(steps);
    PickPrefix(s.handled + s.channel, s.published, |s.handled|);
    assert (s.handled + s.channel)[..|s.handled|] == s.handled;
    DrainedPicked(s);
    forall i, j | 0 <= i < j < |s.frames| && LiveAlike(s, i, j)
      ensures HandledInOrder(s, i, j)
    {
      PickedInOrder(s, s.frames[i].source, i, j);
    }
  }

  // ---- Messages the Judge withheld from the subscriber ----

  // What went out live had been allowed.
  ghost predicate LiveWasAllowed(s: State) {
    s.session.Some? ==> forall e :: e in s.session.value.after ==> Message(e, true) in s.handled
  }

  lemma AllowedDispatch(s: State)
    requires LiveWasAllowed(s) && s.channel != []
    ensures LiveWasAllowed(Dispatched(s, s.channel[0]))
  {
    var m, s' := s.channel[0], Dispatched(s, s.channel[0]);
    if s'.session.Some? {
      forall e | e in s'.session.value.after ensures Message(e, true) in s'.handled {
        if e !in s.session.value.after {
          assert m == Message(e, true);
        }
      }
    }
  }

  lemma {:induction false} RunsAllowLive(steps: seq<Step>)
    ensures LiveWasAllowed(Exec(steps))
  {
    if steps == [] {
    } else {
      var s, step := Exec(steps[..|steps| - 1]), steps[|steps| - 1];
      RunsAllowLive(steps[..|steps| - 1]);
      if !step.Dispatch? {
        CountOther(s, step);
      } else if s.channel != [] {
        AllowedDispatch(s);
      }
    }
  }

  // The stream entry and the buffer carry no recipients, so a message withheld from
  // this subscriber in every announcement handled here reaches it all the same, and
  // exactly so often: once if the range read returned it, else once for every
  // announcement that was buffered. It is kept from the subscriber exactly when the
  // range read missed it and nothing was buffered.
  lemma WithheldCopies(steps: seq<Step>, e: Entry)
    requires Finished(Exec(steps)) && Exec(steps).session.value.clean
    requires e in Exec(steps).log && Message(e, true) !in Exec(steps).handled
    ensures var s := Exec(steps);
            var ss := s.session.value;
            && Copies(Entries(s.frames), e) == (if e in ss.result then 1 else Copies(ss.buffered, e))
            && (e !in Entries(s.frames) <==> e !in ss.result && e !in ss.buffered)
  {
    ExecKeepsInv(steps);
    RunsAllowLive(steps);
    ExactCopies(steps, e);
    var s := Exec(steps);
    assert e !in s.session.value.after;
    assert OfSource(s.frames, Carried) == [];
  }

  // Frame order, at every moment of a call that started clean and is not broken:
  // replayed frames come first, strictly increasing and all above the cursor;
  // drained leftovers and live frames each keep announcement order.
  lemma ReplayOrder(steps: seq<Step>)
    requires Exec(steps).session.Some? && !Exec(steps).session.value.broken && Exec(steps).session.value.clean
    ensures var s := Exec(steps);
            var ss := s.session.value;
            && (forall i, j :: 0 <= i < j < |s.frames| && s.frames[j].source == Replayed ==>
                  s.frames[i].source == Replayed && s.frames[i].entry.id.Below(s.frames[j].entry.id))
            && (forall j :: 0 <= j < |s.frames| && s.frames[j].source == Replayed ==>
                  ss.cursor.Below(s.frames[j].entry.id))
            && OfSource(s.frames, Drained) <= Unseen(ss.buffered, IdsOf(ss.result))
            && OfSource(s.frames, Live) <= ss.after
  {
    ExecKeepsInv(steps);
    var s := Exec(steps);
    var ss := s.session.value;
    SentShape(s);
    if ss.scanned {
      ResultIsIncreasing(s);
      ReplayedInOrder(s.frames, ss.result, ss.cursor);
    } else {
      ReplayedInOrder(s.frames, [], ss.cursor);
    }
  }

  // What the frames are made of, in every phase.
  lemma SentShape(s: State)
    requires Inv(s) && s.session.Some? && !s.session.value.broken
    ensures var ss := s.session.value;
            && ReplayedFirst(s.frames) && (ss.clean ==> OfSource(s.frames, Carried) == [])
            && OfSource(s.frames, Replayed) <= ss.result && (!ss.scanned ==> OfSource(s.frames, Replayed) == [])
            && OfSource(s.frames, Drained) <= Unseen(ss.buffered, IdsOf(ss.result))
            && OfSource(s.frames, Live) <= ss.after
  {
    var ss := s.session.value;
    assert OfSource(s.frames, Live) + Waiting(s.inflight, Live) == ss.after;
  }

  // Replayed frames that are a prefix of an increasing result and come first.
  lemma ReplayedInOrder(frames: seq<Frame>, result: seq<Entry>, cursor: Id)
    requires ReplayedFirst(frames) && OfSource(frames, Carried) == [] && OfSource(frames, Replayed) <= result
    requires Increasing(result) && forall e :: e in result ==> cursor.Below(e.id)
    ensures forall i, j :: 0 <= i < j < |frames| && frames[j].source == Replayed ==>
              frames[i].source == Replayed && frames[i].entry.id.Below(frames[j].entry.id)
    ensures forall j :: 0 <= j < |frames| && frames[j].source == Replayed ==> cursor.Below(frames[j].entry.id)
  {
    NoCarriedPrefix(frames);
    forall j | 0 <= j < |frames| && frames[j].source == Replayed
      ensures j < |result| && frames[j].entry == result[j]
    {
      assert OfSource(frames, Replayed)[j] == result[j];
    }
  }

  // Without carried frames the replayed ones are a prefix of all frames.
  lemma {:induction false} NoCarriedPrefix(frames: seq<Frame>)
    requires ReplayedFirst(frames) && OfSource(frames, Carried) == []
    ensures forall j :: 0 <= j < |frames| && frames[j].source == Replayed ==>
              j < |OfSource(frames, Replayed)| && OfSource(frames, Replayed)[j] == frames[j].entry
    ensures (forall j :: 0 <= j < |frames| ==> frames[j].source == Replayed) ==> |OfSource(frames, Replayed)| == |frames|
    ensures forall i, j :: 0 <= i < j < |frames| && frames[j].source == Replayed ==> frames[i].source == Replayed
  {
    OfSourceMembers(frames, Carried);
    forall i | 0 <= i < |frames| ensures frames[i].source != Carried {
      assert frames[i] == Frame(frames[i].entry, frames[i].source) && frames[i] in frames;
    }
    if frames == [] {
    } else {
      var front, last := frames[..|frames| - 1], frames[|frames| - 1];
      NoCarriedPrefix(front);
    }
  }

  // ---- Runs that show the two limits are real ----

  lemma ExecOne(steps: seq<Step>, step: Step)
    ensures Exec(steps + [step]) == Next(Exec(steps), step)
  {
    assert (steps + [step])[..|steps|] == steps;
  }

  // The state after adding and announcing one message and beginning a replay.
  function Begun(e: Entry, cursor: Id, allowed: bool): State {
    var m := Message(e, allowed);
    State([e], 0, [m], [m], [], View(true, Some(Replay(true, {}, []))), None, Registered,
          Some(Session(cursor, true, false, false, 0, 0, [], [], [])), [])
  }

  lemma ReachBegun(e: Entry, cursor: Id, allowed: bool) returns (steps: seq<Step>)
    ensures Exec(steps) == Begun(e, cursor, allowed)
  {
    var m := Message(e, allowed);
    steps := [];
    ExecOne(steps, XAdd(e));
    steps := steps + [XAdd(e)];
    ExecTwo(steps, Publish(m), BeginReplay(cursor));
    PublishAndBegin(e, cursor, allowed);
    steps := steps + [Publish(m), BeginReplay(cursor)];
  }

  lemma PublishAndBegin(e: Entry, cursor: Id, allowed: bool)
    ensures var added := Next(INIT, XAdd(e));
            Next(Next(added, Publish(Message(e, allowed))), BeginReplay(cursor)) == Begun(e, cursor, allowed)
  {
    var m := Message(e, allowed);
    assert [] + [e] == [e] && [] + [m] == [m];
  }

  // The same call further on: after the range read, after the replay, and after
  // it returned, with the announcement still undispatched.
  function Ranged(e: Entry, cursor: Id): State {
    Begun(e, cursor, true).(phase := Replaying(0, false),
                      session := Some(Session(cursor, true, false, true, 0, 1, [e], [], [])))
  }

  function ReplaySent(e: Entry, cursor: Id): State {
    Ranged(e, cursor).(view := View(true, Some(Replay(true, {e.id}, []))), phase := Replaying(1, false),
                       frames := [Frame(e, Replayed)])
  }

  function Returned(e: Entry, cursor: Id): State {
    ReplaySent(e, cursor).(view := View(true, None), phase := Idle)
  }

  function SentAgain(e: Entry, cursor: Id): State {
    Returned(e, cursor).(channel := [], handled := [Message(e, true)],
                         frames := [Frame(e, Replayed), Frame(e, Live)],
                         session := Some(Session(cursor, true, false, true, 0, 1, [e], [], [e])))
  }

  lemma BegunToRanged(e: Entry, cursor: Id)
    requires cursor.Below(e.id)
    ensures Next(Begun(e, cursor, true), Range) == Ranged(e, cursor)
  {
    assert [e][0..] == [e] && [e][..0] == [];
    assert Above([e], cursor) == [e];
  }

  lemma RangedToSent(e: Entry, cursor: Id)
    ensures Next(Next(Ranged(e, cursor), MarkNext), SendReplayed) == ReplaySent(e, cursor)
  {
    assert {} + {e.id} == {e.id};
  }

  lemma SentToReturned(e: Entry, cursor: Id)
    ensures Next(Next(ReplaySent(e, cursor), FlipToLive), Return) == Returned(e, cursor)
  {
  }

  lemma ReturnedToSentAgain(e: Entry, cursor: Id)
    ensures Next(Next(Returned(e, cursor), Dispatch), SendLive) == SentAgain(e, cursor)
  {
    var m, again := Message(e, true), SentAgain(e, cursor);
    var dispatched := again.(inflight := Some(Frame(e, Live)), frames := [Frame(e, Replayed)]);
    assert Next(Returned(e, cursor), Dispatch) == dispatched by {
      assert [m][1..] == [] && [] + [m] == [m] && [] + [e] == [e];
    }
    assert [Frame(e, Replayed)] + [Frame(e, Live)] == [Frame(e, Replayed), Frame(e, Live)];
    assert Next(dispatched, SendLive) == again;
  }

  lemma ExecTwo(steps: seq<Step>, a: Step, b: Step)
    ensures Exec(steps + [a, b]) == Next(Next(Exec(steps), a), b)
  {
    assert steps + [a, b] == steps + [a] + [b];
    ExecOne(steps, a);
    ExecOne(steps + [a], b);
  }

  // Exactly-once fails for every message above the cursor: announced once, but
  // dispatched only after the flip, it is replayed and then sent live again.
  lemma LateAnnouncementIsSentTwice(e: Entry, cursor: Id) returns (steps: seq<Step>)
    requires cursor.Below(e.id)
    ensures Finished(Exec(steps)) && Copies(EntriesOf(Exec(steps).published), e) == 1
    ensures Copies(Entries(Exec(steps).frames), e) == 2
  {
    steps := ReachSentAgain(e, cursor);
    assert Entries(SentAgain(e, cursor).frames) == [e, e];
    assert EntriesOf(SentAgain(e, cursor).published) == [e];
  }

  lemma ReachSentAgain(e: Entry, cursor: Id) returns (steps: seq<Step>)
    requires cursor.Below(e.id)
    ensures Exec(steps) == SentAgain(e, cursor)
  {
    steps := ReachBegun(e, cursor, true);
    BegunToRanged(e, cursor);
    ExecOne(steps, Range);
    steps := steps + [Range];
    RangedToSent(e, cursor);
    ExecTwo(steps, MarkNext, SendReplayed);
    steps := steps + [MarkNext, SendReplayed];
    SentToReturned(e, cursor);
    ExecTwo(steps, FlipToLive, Return);
    steps := steps + [FlipToLive, Return];
    ReturnedToSentAgain(e, cursor);
    ExecTwo(steps, Dispatch, SendLive);
    steps := steps + [Dispatch, SendLive];
  }

  // When the range read fails, what was buffered is thrown away although the
  // subscription stays: the success in NoGap's hypothesis is needed.
  lemma FailedRangeLosesBuffered(e: Entry, cursor: Id) returns (steps: seq<Step>)
    ensures var s := Exec(steps);
            && s.phase == Idle && s.inflight.None? && s.view == View(true, None)
            && Message(e, true) in s.handled && s.frames == []
  {
    steps := ReachBegun(e, cursor, true);
    ExecOne(steps, Dispatch);
    steps := steps + [Dispatch];
    assert Exec(steps).handled == [Message(e, true)];
    ExecOne(steps, RangeFails);
    steps := steps + [RangeFails];
  }

  // The withheld message, dispatched while the call is registered and buffering.
  function Withheld(e: Entry, cursor: Id): State {
    Begun(e, cursor, false).(
      channel := [], handled := [Message(e, false)], view := View(true, Some(Replay(true, {}, [e]))),
      session := Some(Session(cursor, true, false, false, 0, 0, [], [e], [])))
  }

  lemma BegunToWithheld(e: Entry, cursor: Id)
    ensures Next(Begun(e, cursor, false), Dispatch) == Withheld(e, cursor)
  {
    var m := Message(e, false);
    assert [] + [m] == [m] && [m][1..] == [] && [] + [e] == [e];
  }

  lemma ReachWithheld(e: Entry, cursor: Id) returns (steps: seq<Step>)
    ensures Exec(steps) == Withheld(e, cursor)
  {
    steps := ReachBegun(e, cursor, false);
    BegunToWithheld(e, cursor);
    ExecOne(steps, Dispatch);
    steps := steps + [Dispatch];
  }

  // The same call further on: after the range read, which gives the message if it is
  // above the cursor; then after replaying it, or after the flip that leaves it over.
  function WithheldRanged(e: Entry, cursor: Id, result: seq<Entry>): State {
    Withheld(e, cursor).(phase := Replaying(0, false),
                         session := Some(Session(cursor, true, false, true, 0, 1, result, [e], [])))
  }

  function WithheldReplayed(e: Entry, cursor: Id): State {
    WithheldRanged(e, cursor, [e]).(view := View(true, Some(Replay(true, {e.id}, [e]))), phase := Replaying(1, false),
                                    frames := [Frame(e, Replayed)])
  }

  function WithheldLeft(e: Entry, cursor: Id): State {
    WithheldRanged(e, cursor, []).(view := View(true, None), phase := Draining([e], 0))
  }

  function Shown(e: Entry, cursor: Id, result: seq<Entry>, source: Source): State {
    WithheldRanged(e, cursor, result).(view := View(true, None), phase := Idle, frames := [Frame(e, source)])
  }

  lemma ToWithheldRanged(e: Entry, cursor: Id)
    ensures Next(Withheld(e, cursor), Range) == WithheldRanged(e, cursor, if cursor.Below(e.id) then [e] else [])
  {
    assert [e][0..] == [e] && [e][..0] == [];
    assert Above([e], cursor) == if cursor.Below(e.id) then [e] else [];
  }

  lemma ToWithheldReplayed(e: Entry, cursor: Id)
    ensures Next(Next(WithheldRanged(e, cursor, [e]), MarkNext), SendReplayed) == WithheldReplayed(e, cursor)
  {
    assert {} + {e.id} == {e.id};
  }

  lemma ReplayedToShown(e: Entry, cursor: Id)
    ensures Next(Next(WithheldReplayed(e, cursor), FlipToLive), Return) == Shown(e, cursor, [e], Replayed)
  {
    var flipped := WithheldReplayed(e, cursor).(view := View(true, None), phase := Draining([], 0));
    assert Next(WithheldReplayed(e, cursor), FlipToLive) == flipped by {
      assert [e][..0] == [] && Unseen([e], {e.id}) == [];
    }
    assert Next(flipped, Return) == flipped.(phase := Idle);
  }

  lemma ToWithheldLeft(e: Entry, cursor: Id)
    ensures Next(WithheldRanged(e, cursor, []), FlipToLive) == WithheldLeft(e, cursor)
  {
    assert [e][..0] == [] && Unseen([e], {}) == [e];
  }

  lemma LeftToShown(e: Entry, cursor: Id)
    ensures Next(Next(WithheldLeft(e, cursor), SendDrained), Return) == Shown(e, cursor, [], Drained)
  {
  }

  // For every message and every cursor there is a run that withholds the message
  // from the subscriber in its only announcement and still sends it.
  lemma WithheldIsSent(e: Entry, cursor: Id) returns (steps: seq<Step>)
    ensures Finished(Exec(steps)) && Exec(steps).published == [Message(e, false)]
    ensures Message(e, true) !in Exec(steps).handled && e in Entries(Exec(steps).frames)
  {
    if cursor.Below(e.id) {
      steps := ShowReplayed(e, cursor);
    } else {
      steps := ShowDrained(e, cursor);
    }
    assert Entries(Exec(steps).frames)[0] == e;
  }

  lemma ReachWithheldRanged(e: Entry, cursor: Id) returns (steps: seq<Step>)
    ensures Exec(steps) == WithheldRanged(e, cursor, if cursor.Below(e.id) then [e] else [])
  {
    steps := ReachWithheld(e, cursor);
    ToWithheldRanged(e, cursor);
    ExecOne(steps, Range);
    steps := steps + [Range];
  }

  lemma ShowReplayed(e: Entry, cursor: Id) returns (steps: seq<Step>)
    requires cursor.Below(e.id)
    ensures Exec(steps) == Shown(e, cursor, [e], Replayed)
  {
    steps := ReachWithheldRanged(e, cursor);
    ToWithheldReplayed(e, cursor);
    ReplayedToShown(e, cursor);
    ExecTwo(steps, MarkNext, SendReplayed);
    ExecTwo(steps + [MarkNext, SendReplayed], FlipToLive, Return);
    steps := steps + [MarkNext, SendReplayed] + [FlipToLive, Return];
  }

  lemma ShowDrained(e: Entry, cursor: Id) returns (steps: seq<Step>)
    requires !cursor.Below(e.id)
    ensures Exec(steps) == Shown(e, cursor, [], Drained)
  {
    steps := ReachWithheldRanged(e, cursor);
    ToWithheldLeft(e, cursor);
    LeftToShown(e, cursor);
    ExecOne(steps, FlipToLive);
    ExecTwo(steps + [FlipToLive], SendDrained, Return);
    steps := steps + [FlipToLive] + [SendDrained, Return];
  }
}

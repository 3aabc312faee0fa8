/**
 Per-user, per-topic acknowledgement cursors (internal/redisx/client.go).

 A cursor is one Redis string key with an optional time to live. `SetAckCursor` is a
 GET followed by a SET; the class runs the two back to back, and `Run` below lets the
 commands of several acks interleave.
 */
module AckCursors {
  import opened Basics
  import opened StreamIds

  type Key = (string, string)

  /** A key that exists in Redis; no deadline means that it stays for ever. */
  datatype Stored = Stored(id: string, deadline: Option<int>)

  // GET: "" for a key that is missing or past its deadline.
  function Read(cell: Option<Stored>, clock: int): string {
    if cell.Some? && (cell.value.deadline.None? || clock < cell.value.deadline.value) then cell.value.id else ""
  }

  // The guard between GET and SET.
  predicate Advances(current: string, streamId: string) {
    current == "" || StreamIdLess(current, streamId)
  }

  // An ack that does not advance leaves the time to live alone too.
  function AfterAck(cell: Option<Stored>, clock: int, streamId: string, ttl: nat): Option<Stored> {
    if Advances(Read(cell, clock), streamId)
    then Some(Stored(streamId, if ttl == 0 then None else Some(clock + ttl)))
    else cell
  }

  datatype Ack = Ack(time: int, id: string)

  // The key after a sequence of acks that do not overlap in time.
  function AfterAcks(start: Option<Stored>, acks: seq<Ack>, ttl: nat): Option<Stored> {
    if acks == [] then start
    else
      var last := acks[|acks| - 1];
      AfterAck(AfterAcks(start, acks[..|acks| - 1], ttl), last.time, last.id, ttl)
  }

  class CursorStore {
    var cursors: map<Key, Stored>
    var clock: int

    constructor ()
      ensures cursors == map[]
    {
      cursors := map[];
    }

    function Cell(userKey: string, topic: string): Option<Stored>
      reads this
    {
      if (userKey, topic) in cursors then Some(cursors[(userKey, topic)]) else None
    }

    method AckCursor(userKey: string, topic: string) returns (cursor: string)
      ensures cursor == Read(Cell(userKey, topic), clock)
    {
      if (userKey, topic) !in cursors {
        return "";
      }
      var stored := cursors[(userKey, topic)];
      if stored.deadline.Some? && stored.deadline.value <= clock {
        return "";
      }
      return stored.id;
    }

    // Every other key stays as it is.
    method SetAckCursor(userKey: string, topic: string, streamId: string, ttl: nat)
      modifies this`cursors
      ensures Cell(userKey, topic) == AfterAck(old(Cell(userKey, topic)), clock, streamId, ttl)
      ensures cursors - {(userKey, topic)} == old(cursors) - {(userKey, topic)}
      ensures IsRead(old(Cell(userKey, topic)), clock, streamId, ttl, Cell(userKey, topic))
    {
      AckIsRead(Cell(userKey, topic), clock, streamId, ttl);
      var current := AckCursor(userKey, topic);
      if current != "" && !StreamIdLess(current, streamId) {
        return;
      }
      cursors := cursors[(userKey, topic) := Stored(streamId, if ttl == 0 then None else Some(clock + ttl))];
    }

    // A client acking one ID after another, each call finished before the next.
    method AckAll(userKey: string, topic: string, acks: seq<Ack>, ttl: nat)
      modifies this
      ensures Cell(userKey, topic) == AfterAcks(old(Cell(userKey, topic)), acks, ttl)
      ensures cursors - {(userKey, topic)} == old(cursors) - {(userKey, topic)}
      ensures AreRead(old(Cell(userKey, topic)), acks, ttl, Cell(userKey, topic))
    {
      for i := 0 to |acks|
        invariant Cell(userKey, topic) == AfterAcks(old(Cell(userKey, topic)), acks[..i], ttl)
        invariant cursors - {(userKey, topic)} == old(cursors) - {(userKey, topic)}
      {
        clock := acks[i].time;
        SetAckCursor(userKey, topic, acks[i].id, ttl);
        assert acks[..i + 1][..i] == acks[..i];
      }
      assert acks[..|acks|] == acks;
      AcksAreRead(old(Cell(userKey, topic)), acks, ttl);
    }
  }

  // ---- What is read later ----

  // From `clock` on the ID is read for as long as the key lives, and nothing after that.
  ghost predicate IsReadFrom(cell: Option<Stored>, clock: int, id: string, ttl: nat) {
    forall later :: later >= clock ==> Read(cell, later) == if ttl == 0 || later < clock + ttl then id else ""
  }

  // An ack that finds no cursor or a smaller one is read from then on; any other one
  // changes no reading.
  ghost predicate IsRead(before: Option<Stored>, clock: int, id: string, ttl: nat, after: Option<Stored>) {
    var current := Read(before, clock);
    if current == "" || StreamIdLess(current, id) then IsReadFrom(after, clock, id, ttl)
    else forall later :: Read(after, later) == Read(before, later)
  }

  lemma AckIsRead(before: Option<Stored>, clock: int, id: string, ttl: nat)
    ensures IsRead(before, clock, id, ttl, AfterAck(before, clock, id, ttl))
  {
  }

  // One ack after another, each seen in what is read later: either none of them moved
  // the cursor, or the last that did, number k, is what is read.
  ghost predicate AreRead(before: Option<Stored>, acks: seq<Ack>, ttl: nat, after: Option<Stored>) {
    || (forall later :: Read(after, later) == Read(before, later))
    || exists k :: 0 <= k < |acks| && IsReadFrom(after, acks[k].time, acks[k].id, ttl)
  }

  lemma {:induction false} AcksAreRead(before: Option<Stored>, acks: seq<Ack>, ttl: nat)
    ensures AreRead(before, acks, ttl, AfterAcks(before, acks, ttl))
  {
    if acks == [] {
    } else {
      var n := |acks| - 1;
      var front, last := acks[..n], acks[n];
      var cell := AfterAcks(before, front, ttl);
      AcksAreRead(before, front, ttl);
      AckIsRead(cell, last.time, last.id, ttl);
      LastIsRead(before, front, last, ttl, cell, AfterAck(cell, last.time, last.id, ttl));
      assert acks == front + [last];
    }
  }

  lemma LastIsRead(before: Option<Stored>, front: seq<Ack>, last: Ack, ttl: nat, cell: Option<Stored>, after: Option<Stored>)
    requires AreRead(before, front, ttl, cell) && IsRead(cell, last.time, last.id, ttl, after)
    ensures AreRead(before, front + [last], ttl, after)
  {
    var acks := front + [last];
    if IsReadFrom(after, last.time, last.id, ttl) {
      assert acks[|front|] == last;
    } else if !(forall later :: Read(after, later) == Read(before, later)) {
      var k :| 0 <= k < |front| && IsReadFrom(cell, front[k].time, front[k].id, ttl);
      assert acks[k] == front[k];
      assert IsReadFrom(after, acks[k].time, acks[k].id, ttl);
    }
  }

  // ---- Acks that do not overlap ----

  function Ids(acks: seq<Ack>): seq<string> {
    seq(|acks|, i requires 0 <= i < |acks| => acks[i].id)
  }

  // `best` is one of `ids`, and none of them is above it.
  ghost predicate IsMaximum(best: string, ids: seq<string>) {
    best in ids && forall id :: id in ids ==> !StreamIdLess(best, id)
  }

  // Raising the cursor only when the guard says so keeps it a maximum.
  function Raised(best: string, id: string): string {
    if Advances(best, id) then id else best
  }

  lemma RaisedIsMaximum(best: string, ids: seq<string>, id: string)
    requires id != ""
    requires if ids == [] then best == "" else IsMaximum(best, ids) && best != ""
    ensures IsMaximum(Raised(best, id), ids + [id])
  {
    forall other | other in ids + [id]
      ensures !StreamIdLess(Raised(best, id), other)
    {
      LessIsTransitive(best, id, other);
    }
  }

  lemma LessIsTransitive(a: string, b: string, c: string)
    ensures !StreamIdLess(a, a)
    ensures StreamIdLess(a, b) && StreamIdLess(b, c) ==> StreamIdLess(a, c)
    ensures StreamIdLess(a, b) ==> !StreamIdLess(b, a)
    ensures !StreamIdLess(a, b) && !StreamIdLess(b, c) ==> !StreamIdLess(a, c)
  {
    LessIsCompareBelowZero(a, a);
    LessIsCompareBelowZero(a, b);
    LessIsCompareBelowZero(b, a);
    LessIsCompareBelowZero(b, c);
    LessIsCompareBelowZero(a, c);
    CompareIsTotalOrder(a, b, c);
    CompareIsTotalOrder(c, b, a);
    CompareIsTotalOrder(a, a, a);
  }

  // The last ack that found no cursor: the first one, or one that came after the
  // key had expired.
  function Restart(acks: seq<Ack>, ttl: nat): (k: nat)
    requires acks != []
    ensures k < |acks|
  {
    var front, last := acks[..|acks| - 1], acks[|acks| - 1];
    if front == [] || Read(AfterAcks(None, front, ttl), last.time) == "" then |front| else Restart(front, ttl)
  }

  lemma AckRaises(cell: Option<Stored>, clock: int, id: string, ttl: nat)
    ensures Read(AfterAck(cell, clock, id, ttl), clock) == Raised(Read(cell, clock), id)
  {
  }

  lemma OneMoreAck(front: seq<Ack>, last: Ack, ttl: nat)
    ensures var cell := AfterAcks(None, front, ttl);
            && AfterAcks(None, front + [last], ttl) == AfterAck(cell, last.time, last.id, ttl)
            && Restart(front + [last], ttl) ==
               if front == [] || Read(cell, last.time) == "" then |front| else Restart(front, ttl)
  {
    assert (front + [last])[..|front|] == front;
  }

  // The key is there and holds a maximum of the IDs.
  ghost predicate HoldsMaximum(cell: Option<Stored>, clock: int, ids: seq<string>) {
    Read(cell, clock) != "" && IsMaximum(Read(cell, clock), ids)
  }

  // Acks that do not overlap leave a maximum of everything acked since the key was
  // last missing, in whatever order they came and however often an ID was repeated.
  lemma {:induction false} AcksLeaveMaximum(acks: seq<Ack>, ttl: nat)
    requires acks != []
    requires forall i :: 0 <= i < |acks| ==> acks[i].id != ""
    ensures HoldsMaximum(AfterAcks(None, acks, ttl), acks[|acks| - 1].time, Ids(acks[Restart(acks, ttl)..]))
  {
    var front, last := acks[..|acks| - 1], acks[|acks| - 1];
    if front != [] {
      AcksLeaveMaximum(front, ttl);
    }
    assert acks == front + [last];
    MaximumStays(front, last, ttl);
  }

  lemma MaximumStays(front: seq<Ack>, last: Ack, ttl: nat)
    requires last.id != ""
    requires front != [] ==>
               HoldsMaximum(AfterAcks(None, front, ttl), front[|front| - 1].time, Ids(front[Restart(front, ttl)..]))
    ensures var acks := front + [last];
            HoldsMaximum(AfterAcks(None, acks, ttl), last.time, Ids(acks[Restart(acks, ttl)..]))
  {
    var cell := AfterAcks(None, front, ttl);
    OneMoreAck(front, last, ttl);
    if front == [] || Read(cell, last.time) == "" {
      FirstAck(cell, last, ttl);
      assert Ids((front + [last])[|front|..]) == [last.id];
    } else {
      var k := Restart(front, ttl);
      LaterAck(cell, front[|front| - 1].time, last, Ids(front[k..]), ttl);
      IdsOneMore(front, k, last);
    }
  }

  lemma FirstAck(cell: Option<Stored>, ack: Ack, ttl: nat)
    requires Read(cell, ack.time) == "" && ack.id != ""
    ensures HoldsMaximum(AfterAck(cell, ack.time, ack.id, ttl), ack.time, [ack.id])
  {
    AckRaises(cell, ack.time, ack.id, ttl);
    LessIsTransitive(ack.id, ack.id, ack.id);
  }

  lemma LaterAck(cell: Option<Stored>, before: int, ack: Ack, ids: seq<string>, ttl: nat)
    requires Read(cell, ack.time) != "" && ack.id != ""
    requires HoldsMaximum(cell, before, ids)
    ensures HoldsMaximum(AfterAck(cell, ack.time, ack.id, ttl), ack.time, ids + [ack.id])
  {
    ReadsAgree(cell, ack.time, before);
    AckRaises(cell, ack.time, ack.id, ttl);
    RaisedIsMaximum(Read(cell, ack.time), ids, ack.id);
  }

  lemma ReadsAgree(cell: Option<Stored>, a: int, b: int)
    requires Read(cell, a) != "" && Read(cell, b) != ""
    ensures Read(cell, a) == Read(cell, b)
  {
  }

  lemma IdsOneMore(front: seq<Ack>, k: nat, last: Ack)
    requires k <= |front|
    ensures Ids((front + [last])[k..]) == Ids(front[k..]) + [last.id]
  {
  }

  // A cursor without a time to live is never missing again, so then it is a maximum
  // of all acks.
  lemma {:induction false} KeptForEver(acks: seq<Ack>)
    requires acks != []
    requires forall i :: 0 <= i < |acks| ==> acks[i].id != ""
    ensures Restart(acks, 0) == 0
    ensures AfterAcks(None, acks, 0).Some? && AfterAcks(None, acks, 0).value.deadline.None?
    ensures AfterAcks(None, acks, 0).value.id != ""
  {
    var front := acks[..|acks| - 1];
    if front == [] {
      assert AfterAcks(None, front, 0) == None;
    } else {
      KeptForEver(front);
    }
  }

  // ---- Overlapping acks: GET and SET are separate commands ----

  datatype Pending = Pending(seen: string, id: string)

  /** `acked` are the acks finished since the key was last missing. */
  datatype State = State(cursor: string, pending: map<nat, Pending>, acked: seq<string>)

  datatype Step =
    | Get(slot: nat, id: string) // GET and the guard; an ack that does not advance ends here
    | Set(slot: nat)             // the SET of an ack that passed the guard
    | Expire                     // the key's time to live is up

  function Next(s: State, step: Step): State {
    match step
    case Get(slot, id) =>
      if slot in s.pending || id == "" then s
      else if Advances(s.cursor, id) then s.(pending := s.pending[slot := Pending(s.cursor, id)])
      else s.(acked := s.acked + [id])
    case Set(slot) =>
      if slot !in s.pending then s
      else
        var id := s.pending[slot].id;
        State(id, s.pending - {slot}, s.acked + [id])
    case Expire => s.(cursor := "", acked := [])
  }

  function Run(steps: seq<Step>): State {
    if steps == [] then State("", map[], [])
    else Next(Run(steps[..|steps| - 1]), steps[|steps| - 1])
  }

  // A SET that lands does not write an ID below the one it overwrites: the guard
  // that the code checked after its GET, checked again when the SET lands.
  predicate SetIsSafe(s: State, step: Step) {
    step.Set? && step.slot in s.pending && s.cursor != "" ==> !StreamIdLess(s.pending[step.slot].id, s.cursor)
  }

  ghost predicate SetsAreSafe(steps: seq<Step>) {
    forall i :: 0 <= i < |steps| ==> SetIsSafe(Run(steps[..i]), steps[i])
  }

  // The cursor is a maximum of the acks that have finished since it was last missing.
  ghost predicate AtMaximum(s: State) {
    s.acked == [] || IsMaximum(s.cursor, s.acked)
  }

  ghost predicate Inv(s: State) {
    && (s.acked == [] <==> s.cursor == "")
    && forall slot :: slot in s.pending ==> s.pending[slot].id != ""
  }

  lemma {:induction false} RunsKeepInv(steps: seq<Step>)
    ensures Inv(Run(steps))
  {
    if steps == [] {
    } else {
      RunsKeepInv(steps[..|steps| - 1]);
    }
  }

  // One step keeps the maximum exactly if it is safe.
  lemma SafeIffMaximum(s: State, step: Step)
    requires Inv(s) && AtMaximum(s)
    ensures AtMaximum(Next(s, step)) <==> SetIsSafe(s, step)
  {
    match step
    case Get(slot, id) =>
      if slot !in s.pending && id != "" && !Advances(s.cursor, id) {
        RaisedIsMaximum(s.cursor, s.acked, id);
      }
    case Set(slot) =>
      if slot in s.pending {
        SetIffMaximum(s, slot);
      }
    case Expire =>
  }

  lemma SetIffMaximum(s: State, slot: nat)
    requires Inv(s) && AtMaximum(s) && slot in s.pending
    ensures AtMaximum(Next(s, Set(slot))) <==> SetIsSafe(s, Set(slot))
  {
    var s', id := Next(s, Set(slot)), s.pending[slot].id;
    if SetIsSafe(s, Set(slot)) {
      forall other | other in s'.acked ensures !StreamIdLess(id, other) {
        LessIsTransitive(id, s.cursor, other);
      }
    } else {
      assert s.cursor in s'.acked;
    }
  }

  // "Cursors move forward only" holds of a run exactly when every SET is safe: then,
  // and only then, the cursor is at every moment a maximum of the acks finished since
  // the key was last missing, and it never moves back.
  lemma {:induction false} ForwardOnlyIff(steps: seq<Step>)
    ensures SetsAreSafe(steps) <==> forall n :: 0 <= n <= |steps| ==> AtMaximum(Run(steps[..n]))
    ensures SetsAreSafe(steps) <==> forall n :: 0 <= n < |steps| ==> !MovesBack(Run(steps[..n]), steps[n])
  {
    if SetsAreSafe(steps) {
      forall n | 0 <= n <= |steps| ensures AtMaximum(Run(steps[..n])) {
        SafePrefix(steps, n);
      }
    }
    if forall n :: 0 <= n <= |steps| ==> AtMaximum(Run(steps[..n])) {
      MaximumIsSafe(steps);
    }
    forall n | 0 <= n < |steps|
      ensures SetIsSafe(Run(steps[..n]), steps[n]) <==> !MovesBack(Run(steps[..n]), steps[n])
    {
      RunsKeepInv(steps[..n]);
      SafeIffNotBack(Run(steps[..n]), steps[n]);
    }
  }

  lemma MaximumIsSafe(steps: seq<Step>)
    requires forall n :: 0 <= n <= |steps| ==> AtMaximum(Run(steps[..n]))
    ensures SetsAreSafe(steps)
  {
    forall i | 0 <= i < |steps| ensures SetIsSafe(Run(steps[..i]), steps[i]) {
      RunsKeepInv(steps[..i]);
      assert steps[..i + 1][..i] == steps[..i];
      assert AtMaximum(Run(steps[..i])) && AtMaximum(Run(steps[..i + 1]));
      SafeIffMaximum(Run(steps[..i]), steps[i]);
    }
  }

  lemma SafeIffNotBack(s: State, step: Step)
    requires Inv(s)
    ensures SetIsSafe(s, step) <==> !MovesBack(s, step)
  {
    LessIsTransitive(s.cursor, "", "");
  }

  // The step replaces a cursor by a smaller one.
  predicate MovesBack(s: State, step: Step) {
    s.cursor != "" && Next(s, step).cursor != "" && StreamIdLess(Next(s, step).cursor, s.cursor)
  }

  lemma {:induction false} SafePrefix(steps: seq<Step>, n: nat)
    requires SetsAreSafe(steps) && n <= |steps|
    ensures AtMaximum(Run(steps[..n]))
    decreases n
  {
    if n == 0 {
    } else {
      SafePrefix(steps, n - 1);
      RunsKeepInv(steps[..n - 1]);
      assert steps[..n][..n - 1] == steps[..n - 1];
      SafeIffMaximum(Run(steps[..n - 1]), steps[n - 1]);
    }
  }

  // Every SET lands while the key still holds what its GET saw.
  ghost predicate SetsAreCurrent(steps: seq<Step>) {
    forall i :: 0 <= i < |steps| && steps[i].Set? ==>
      var s := Run(steps[..i]);
      steps[i].slot in s.pending ==> s.pending[steps[i].slot].seen == s.cursor
  }

  ghost predicate PendingAdvanced(s: State) {
    forall slot :: slot in s.pending ==> Advances(s.pending[slot].seen, s.pending[slot].id)
  }

  lemma {:induction false} PendingAdvances(steps: seq<Step>)
    ensures PendingAdvanced(Run(steps))
  {
    if steps == [] {
    } else {
      PendingAdvances(steps[..|steps| - 1]);
      PendingStep(Run(steps[..|steps| - 1]), steps[|steps| - 1]);
    }
  }

  lemma PendingStep(s: State, step: Step)
    requires PendingAdvanced(s)
    ensures PendingAdvanced(Next(s, step))
  {
    var s' := Next(s, step);
    forall slot | slot in s'.pending ensures Advances(s'.pending[slot].seen, s'.pending[slot].id) {
      if slot in s.pending {
        assert s'.pending[slot] == s.pending[slot];
      } else {
        assert s'.pending[slot] == Pending(s.cursor, step.id);
      }
    }
  }

  // Acks whose commands do not interleave on the key are such runs.
  lemma CurrentSetsLeaveMaximum(steps: seq<Step>)
    requires SetsAreCurrent(steps)
    ensures SetsAreSafe(steps) && AtMaximum(Run(steps))
  {
    forall i | 0 <= i < |steps| ensures SetIsSafe(Run(steps[..i]), steps[i]) {
      var s := Run(steps[..i]);
      PendingAdvances(steps[..i]);
      if steps[i].Set? && steps[i].slot in s.pending {
        LessIsTransitive(s.cursor, s.pending[steps[i].slot].id, s.cursor);
      }
    }
    SafePrefix(steps, |steps|);
    assert steps[..|steps|] == steps;
  }

  // And there are runs that are not: two acks read the missing key, the larger SET
  // lands first and the smaller one last.
  lemma OverlappingAcksRewind(larger: Id, smaller: Id)
    requires larger.FitsInt64() && smaller.FitsInt64() && smaller.Below(larger)
    ensures var high, low := IdText(larger), IdText(smaller);
            var steps := [Get(0, high), Get(1, low), Set(0), Set(1)];
            && Run(steps[..3]).cursor == high && Run(steps).cursor == low
            && StreamIdLess(low, high) && !AtMaximum(Run(steps))
  {
    var high, low := IdText(larger), IdText(smaller);
    CompareIsNumeric(smaller, larger);
    LessIsCompareBelowZero(low, high);
    var steps := [Get(0, high), Get(1, low), Set(0), Set(1)];
    assert steps[..3] == [Get(0, high), Get(1, low), Set(0)];
    assert steps[..3][..2] == [Get(0, high), Get(1, low)];
    assert steps[..3][..2][..1] == [Get(0, high)];
    assert Run(steps[..3][..2][..1]) == State("", map[0 := Pending("", high)], []);
    assert Run(steps[..3]).acked == [high];
    assert high in Run(steps).acked;
  }
}

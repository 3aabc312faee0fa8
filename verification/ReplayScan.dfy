/**
 Reading a topic's history: parseSinceCursor, replayMessages and the trimming of
 streams (bus/bus.go). A stream is a sequence of entries with increasing IDs that
 only ever loses entries at the front.
 */
module ReplayScan {
  import opened Basics
  import opened StreamIds
  import opened Subscriptions
  import opened Sequences

  ghost predicate Increasing(s: seq<Entry>) {
    forall i, j :: 0 <= i < j < |s| ==> s[i].id.Below(s[j].id)
  }

  ghost predicate FitInt64(s: seq<Entry>) {
    forall i :: 0 <= i < |s| ==> s[i].id.FitsInt64()
  }

  // The entries strictly above the cursor, in stream order.
  function Above(s: seq<Entry>, cursor: Id): seq<Entry> {
    if s == [] then []
    else
      var last := s[|s| - 1];
      Above(s[..|s| - 1], cursor) + if cursor.Below(last.id) then [last] else []
  }

  lemma {:induction false} AboveMembers(s: seq<Entry>, cursor: Id)
    ensures forall e :: e in Above(s, cursor) <==> e in s && cursor.Below(e.id)
  {
    if s == [] {
    } else {
      AboveMembers(s[..|s| - 1], cursor);
      assert s == s[..|s| - 1] + [s[|s| - 1]];
    }
  }

  lemma {:induction false} NoneAbove(s: seq<Entry>, cursor: Id)
    requires forall e :: e in s ==> !cursor.Below(e.id)
    ensures Above(s, cursor) == []
  {
    if s == [] {
    } else {
      assert forall e :: e in s[..|s| - 1] ==> e in s;
      NoneAbove(s[..|s| - 1], cursor);
    }
  }

  lemma {:induction false} AboveConcat(s: seq<Entry>, t: seq<Entry>, cursor: Id)
    ensures Above(s + t, cursor) == Above(s, cursor) + Above(t, cursor)
    decreases |t|
  {
    if t == [] {
      assert s + t == s;
    } else {
      AboveConcat(s, t[..|t| - 1], cursor);
      assert (s + t)[..|s + t| - 1] == s + t[..|t| - 1];
    }
  }

  lemma {:induction false} AboveIncreasing(s: seq<Entry>, cursor: Id)
    requires Increasing(s)
    ensures Increasing(Above(s, cursor))
  {
    if s == [] {
    } else {
      AboveIncreasing(s[..|s| - 1], cursor);
      AboveMembers(s[..|s| - 1], cursor);
      forall e | e in Above(s[..|s| - 1], cursor) ensures e.id.Below(s[|s| - 1].id) {
        var k :| 0 <= k < |s| - 1 && s[k] == e;
      }
    }
  }

  // ---- Cursors ----

  function IntText(n: int): string {
    if n < 0 then "-" + NatText(-n) else NatText(n)
  }

  // parseSinceCursor. `isoMs` is what the RFC 3339 parser makes of the text.
  function ParseSinceCursor(since: string, isoMs: Option<int>): Result<string> {
    if since == "" then Err("empty since cursor")
    else if IsStreamIdText(since) then Ok(since)
    else if AllDigits(since) then Ok(since + "-0")
    else
      match isoMs
      case None => Err("Invalid `since`")
      case Some(ms) => Ok(IntText(ms) + "-0")
  }

  // What is accepted, and the ID each accepted text stands for: the stream ID itself,
  // the start of the millisecond given in digits, or that of the timestamp. A time
  // before 1970 stands for none; Redis refuses it as a range start.
  predicate IsCursor(since: string, isoMs: Option<int>) {
    since != "" && (IsStreamIdText(since) || AllDigits(since) || isoMs.Some?)
  }

  function CursorId(since: string, isoMs: Option<int>): Option<Id> {
    if since == "" then None
    else if IsStreamIdText(since) then Some(IdOf(since))
    else if AllDigits(since) then Some(Id(NatOf(since), 0))
    else if isoMs.Some? && isoMs.value >= 0 then Some(Id(isoMs.value, 0))
    else None
  }

  lemma CursorsDenoteIds(since: string, isoMs: Option<int>)
    ensures ParseSinceCursor(since, isoMs).Ok? <==> IsCursor(since, isoMs)
    ensures IsCursor(since, isoMs) ==>
              var cursor, id := ParseSinceCursor(since, isoMs).value, CursorId(since, isoMs);
              && (IsStreamIdText(cursor) <==> id.Some?)
              && (id.Some? ==> IdOf(cursor) == id.value)
              && (IsStreamIdText(since) ==> cursor == since)
              && (RangeStart(SinceMs(cursor)).Some? <==> id.Some? && id.value.ms <= 0xFFFF_FFFF_FFFF_FFFF)
  {
    if !IsCursor(since, isoMs) {
    } else if IsStreamIdText(since) {
      RangeStartIff(since);
    } else if AllDigits(since) {
      DigitsDashZero(since);
      RangeStartIff(since + "-0");
    } else if isoMs.value >= 0 {
      NatTextRoundTrip(isoMs.value);
      DigitsDashZero(NatText(isoMs.value));
      RangeStartIff(NatText(isoMs.value) + "-0");
    } else {
      var cursor := ParseSinceCursor(since, isoMs).value;
      assert cursor[0] == '-';
      assert DashAt(cursor) == 0;
    }
  }

  lemma DigitsDashZero(digits: string)
    requires digits != [] && AllDigits(digits)
    ensures IsStreamIdText(digits + "-0") && IdOf(digits + "-0") == Id(NatOf(digits), 0)
  {
    DashAfterDigits(digits, "0");
    var s := digits + "-" + "0";
    assert s == digits + "-0";
    assert s[..|digits|] == digits && s[|digits| + 1..] == "0";
    assert NatOf("0") == 0;
  }

  // ---- XRANGE ----

  function SinceMs(since: string): string {
    var i := DashAt(since);
    if 0 < i < |since| then since[..i] else since
  }

  // How Redis reads an incomplete range start: `<ms>` is `<ms>-0`, a uint64.
  function RangeStart(start: string): Option<Id> {
    if start != [] && AllDigits(start) && NatOf(start) <= MAX_UINT64 then Some(Id(NatOf(start), 0)) else None
  }

  lemma RangeStartIff(cursor: string)
    requires IsStreamIdText(cursor)
    ensures RangeStart(SinceMs(cursor)).Some? <==> IdOf(cursor).ms <= 0xFFFF_FFFF_FFFF_FFFF
    ensures RangeStart(SinceMs(cursor)).Some? ==> RangeStart(SinceMs(cursor)).value == Id(IdOf(cursor).ms, 0)
  {
  }

  function From(s: seq<Entry>, ms: nat): seq<Entry> {
    if s == [] then []
    else
      var last := s[|s| - 1];
      From(s[..|s| - 1], ms) + if last.id.ms >= ms then [last] else []
  }

  // Filtering the range read is filtering the whole stream: nothing above the
  // cursor lies before the cursor's millisecond.
  lemma {:induction false} AboveFrom(s: seq<Entry>, cursor: Id)
    ensures Above(From(s, cursor.ms), cursor) == Above(s, cursor)
  {
    if s == [] {
    } else {
      var front, last := s[..|s| - 1], s[|s| - 1];
      AboveFrom(front, cursor);
      var kept := if last.id.ms >= cursor.ms then [last] else [];
      AboveConcat(From(front, cursor.ms), kept, cursor);
      if kept != [] {
        assert kept[..|kept| - 1] == [];
      }
    }
  }

  // ---- The post-filter, beyond int64 too ----

  // What is left of an ID once its parts are read as int64.
  function Saturated(id: Id): Id {
    Id(Min(id.ms, MAX_INT64), Min(id.seqNo, MAX_INT64))
  }

  // The post-filter sees that the ID is above the cursor.
  predicate SeenAbove(cursor: Id, id: Id) {
    Saturated(cursor).Below(Saturated(id))
  }

  lemma TextsCompareSaturated(a: string, b: string)
    requires IsStreamIdText(a) && IsStreamIdText(b)
    ensures CompareStreamIds(a, b) < 0 <==> SeenAbove(IdOf(a), IdOf(b))
    ensures CompareStreamIds(b, a) > 0 <==> SeenAbove(IdOf(a), IdOf(b))
  {
    SplitSaturates(a);
    SplitSaturates(b);
  }

  lemma ComparesSaturated(since: string, id: Id)
    requires IsStreamIdText(since)
    ensures CompareStreamIds(since, IdText(id)) < 0 <==> SeenAbove(IdOf(since), id)
    ensures CompareStreamIds(IdText(id), since) > 0 <==> SeenAbove(IdOf(since), id)
  {
    IdTextRoundTrip(id);
    TextsCompareSaturated(since, IdText(id));
  }

  predicate Returns(cursor: Id, id: Id) {
    cursor.ms <= id.ms && SeenAbove(cursor, id)
  }

  // What the range read and the post-filter let through, for any stream.
  function Returned(s: seq<Entry>, cursor: Id): seq<Entry> {
    if s == [] then []
    else
      var last := s[|s| - 1];
      Returned(s[..|s| - 1], cursor) + if Returns(cursor, last.id) then [last] else []
  }

  lemma ReturnsOnlyAbove(cursor: Id, id: Id)
    ensures Returns(cursor, id) <==> cursor.Below(id) && SeenAbove(cursor, id)
  {
  }

  // Nothing at or below the cursor gets through, and nothing above it is missing
  // exactly if the post-filter sees every entry above the cursor as such.
  lemma {:induction false} ReturnedIsAboveIff(s: seq<Entry>, cursor: Id)
    ensures |Returned(s, cursor)| <= |Above(s, cursor)|
    ensures Returned(s, cursor) == Above(s, cursor) <==>
            forall i :: 0 <= i < |s| && cursor.Below(s[i].id) ==> SeenAbove(cursor, s[i].id)
    ensures Returned(s, cursor) == Above(s, cursor) <==> |Returned(s, cursor)| == |Above(s, cursor)|
  {
    if s == [] {
      assert Returned(s, cursor) == Above(s, cursor);
    } else {
      var front, last := s[..|s| - 1], s[|s| - 1];
      ReturnedIsAboveIff(front, cursor);
      ReturnsOnlyAbove(cursor, last.id);
      if forall i :: 0 <= i < |s| && cursor.Below(s[i].id) ==> SeenAbove(cursor, s[i].id) {
        assert forall i :: 0 <= i < |front| && cursor.Below(front[i].id) ==> s[i] == front[i];
      } else if !(cursor.Below(last.id) && !SeenAbove(cursor, last.id)) {
        var i :| 0 <= i < |s| && cursor.Below(s[i].id) && !SeenAbove(cursor, s[i].id);
        assert front[i] == s[i];
      }
    }
  }

  // The parts of an ID that Redis can hold are uint64.
  predicate IsRedisId(id: Id) {
    id.ms <= MAX_UINT64 && id.seqNo <= MAX_UINT64
  }

  ghost predicate RedisIds(s: seq<Entry>) {
    forall i :: 0 <= i < |s| ==> IsRedisId(s[i].id)
  }

  // What gets through, for any stream: exactly the entries above the cursor that are
  // seen as such, in the order of the stream.
  lemma {:induction false} ReturnedInOrder(s: seq<Entry>, cursor: Id)
    ensures forall e :: e in Returned(s, cursor) <==> e in s && cursor.Below(e.id) && SeenAbove(cursor, e.id)
    ensures PickedFrom(Returned(s, cursor), s) && PickedFrom(Above(s, cursor), s)
  {
    if s == [] {
      PickNone(s);
    } else {
      var front, last := s[..|s| - 1], s[|s| - 1];
      ReturnedInOrder(front, cursor);
      ReturnsOnlyAbove(cursor, last.id);
      PickBoth(Returned(front, cursor), front, last);
      PickBoth(Above(front, cursor), front, last);
      assert s == front + [last];
      assert Returned(front, cursor) + [] == Returned(front, cursor) && Above(front, cursor) + [] == Above(front, cursor);
    }
  }

  // Neither part of the cursor lies in the range that reads as the largest int64 and
  // still has uint64 numbers above it.
  predicate Discerning(cursor: Id) {
    !(MAX_INT64 <= cursor.ms < MAX_UINT64) && !(MAX_INT64 <= cursor.seqNo < MAX_UINT64)
  }

  // Such a cursor, and no other that Redis takes as a range start, loses nothing on
  // any stream that Redis can hold.
  lemma DiscerningIff(cursor: Id)
    requires cursor.ms <= MAX_UINT64
    ensures Discerning(cursor) <==> forall id: Id :: IsRedisId(id) && cursor.Below(id) ==> SeenAbove(cursor, id)
  {
    var later, next := Id(cursor.ms + 1, 0), Id(cursor.ms, cursor.seqNo + 1);
    assert cursor.Below(later) && cursor.Below(next);
    assert MAX_INT64 <= cursor.ms < MAX_UINT64 ==> IsRedisId(later) && !SeenAbove(cursor, later);
    assert MAX_INT64 <= cursor.seqNo < MAX_UINT64 ==> IsRedisId(next) && !SeenAbove(cursor, next);
    forall id: Id | Discerning(cursor) && IsRedisId(id) && cursor.Below(id) ensures SeenAbove(cursor, id) {
      DiscernedIsSeen(cursor, id);
    }
  }

  lemma DiscernedIsSeen(cursor: Id, id: Id)
    requires Discerning(cursor) && IsRedisId(id) && cursor.Below(id)
    ensures SeenAbove(cursor, id)
  {
  }

  // A stream of int64 IDs, or any stream of Redis with a discerning cursor.
  ghost predicate Readable(s: seq<Entry>, cursor: Id) {
    FitInt64(s) || (RedisIds(s) && Discerning(cursor))
  }

  lemma ReadableIsSeen(s: seq<Entry>, cursor: Id, i: nat)
    requires Readable(s, cursor) && i < |s| && cursor.Below(s[i].id)
    ensures SeenAbove(cursor, s[i].id)
  {
    if !FitInt64(s) {
      DiscernedIsSeen(cursor, s[i].id);
    }
  }

  lemma {:induction false} ReturnedFrom(s: seq<Entry>, cursor: Id)
    ensures SeenIn(From(s, cursor.ms), cursor) == Returned(s, cursor)
  {
    if s == [] {
      assert SeenIn(From(s, cursor.ms), cursor) == [];
    } else {
      var front, last := s[..|s| - 1], s[|s| - 1];
      ReturnedFrom(front, cursor);
      var read := From(front, cursor.ms);
      if last.id.ms >= cursor.ms {
        assert (read + [last])[..|read|] == read;
      } else {
        assert read + [] == read;
      }
    }
  }

  // The post-filter alone.
  function SeenIn(s: seq<Entry>, cursor: Id): seq<Entry> {
    if s == [] then []
    else
      var last := s[|s| - 1];
      SeenIn(s[..|s| - 1], cursor) + if SeenAbove(cursor, last.id) then [last] else []
  }

  datatype Scan = Scan(out: seq<Entry>, truncated: bool, oldest: string)

  // replayMessages. `stream` is the stream when XRANGE reads it, `later` when the
  // oldest entry is read; each read may fail.
  method ReplayMessages(since: string, stream: seq<Entry>, rangeFails: bool, later: seq<Entry>, oldestFails: bool)
    returns (r: Result<Scan>)
    ensures r.Err? <==> rangeFails || RangeStart(SinceMs(since)).None?
    ensures r.Ok? && IsStreamIdText(since) ==> r.value.out == Returned(stream, IdOf(since))
    ensures r.Ok? && IsStreamIdText(since) && Readable(stream, IdOf(since)) ==>
              r.value.out == Above(stream, IdOf(since))
    ensures r.Ok? ==> (r.value.truncated <==> Flagged(since, later, oldestFails))
    ensures r.Ok? ==> r.value.oldest == if r.value.truncated then IdText(later[0].id) else ""
  {
    var sinceMs := SinceMs(since);
    var start := RangeStart(sinceMs);
    if rangeFails || start.None? {
      return Err("xrange");
    }
    var entries := From(stream, start.value.ms);
    var out: seq<Entry> := [];
    for i := 0 to |entries|
      invariant IsStreamIdText(since) ==> out == SeenIn(entries[..i], IdOf(since))
    {
      var e := entries[i];
      if IsStreamIdText(since) {
        ComparesSaturated(since, e.id);
      }
      if CompareStreamIds(IdText(e.id), since) > 0 {
        out := out + [e];
      }
      assert entries[..i + 1][..i] == entries[..i];
    }
    assert entries[..|entries|] == entries;
    if IsStreamIdText(since) {
      ReturnedFrom(stream, IdOf(since));
      NothingIsMissed(stream, IdOf(since));
    }

    var truncated, oldest := false, "";
    if Int64Of(sinceMs) > 0 {
      if !oldestFails && |later| > 0 {
        if CompareStreamIds(since, IdText(later[0].id)) < 0 {
          truncated, oldest := true, IdText(later[0].id);
        }
      }
    }
    return Ok(Scan(out, truncated, oldest));
  }

  predicate Flagged(since: string, later: seq<Entry>, oldestFails: bool) {
    && Int64Of(SinceMs(since)) > 0 && !oldestFails && later != []
    && CompareStreamIds(since, IdText(later[0].id)) < 0
  }

  // ---- What the flag means ----

  lemma CursorMsPositive(since: string)
    requires IsStreamIdText(since)
    ensures Int64Of(SinceMs(since)) > 0 <==> IdOf(since).ms > 0
  {
    Int64OfDigits(since[..DashAt(since)]);
  }

  // The replay is complete, for everything added before the range read, exactly
  // when no entry trimmed by then was above the cursor.
  lemma CompleteIffNothingTrimmedAbove(log: seq<Entry>, trimmed: nat, added: nat, cursor: Id)
    requires Increasing(log) && trimmed <= added <= |log|
    ensures Above(log[trimmed..added], cursor) == Above(log[..added], cursor) <==>
            trimmed == 0 || !cursor.Below(log[trimmed - 1].id)
  {
    var lost := log[..trimmed];
    assert log[..added] == lost + log[trimmed..added];
    AboveConcat(lost, log[trimmed..added], cursor);
    AboveMembers(lost, cursor);
    if trimmed > 0 && cursor.Below(log[trimmed - 1].id) {
      assert log[trimmed - 1] in lost;
      assert |Above(lost, cursor)| > 0;
    } else {
      forall e | e in lost ensures !cursor.Below(e.id) {
        var k :| 0 <= k < trimmed && log[k] == e;
      }
      NoneAbove(lost, cursor);
    }
  }

  lemma NothingIsMissed(s: seq<Entry>, cursor: Id)
    ensures Readable(s, cursor) ==> Returned(s, cursor) == Above(s, cursor)
  {
    if Readable(s, cursor) {
      forall i | 0 <= i < |s| && cursor.Below(s[i].id) ensures SeenAbove(cursor, s[i].id) {
        ReadableIsSeen(s, cursor, i);
      }
      ReturnedIsAboveIff(s, cursor);
    }
  }

  // If the oldest-entry read found an entry and the flag stayed down, nothing
  // above the cursor added before the range read is missing, even if the stream
  // was trimmed and extended between the two reads.
  lemma UnflaggedReplayIsComplete(log: seq<Entry>, trimmed: nat, added: nat, trimmedLater: nat, since: string)
    requires Increasing(log) && trimmed <= added <= |log| && trimmed <= trimmedLater < |log|
    requires IsStreamIdText(since) && IdOf(since).ms > 0 && Readable(log, IdOf(since))
    requires !Flagged(since, log[trimmedLater..], false)
    ensures Above(log[trimmed..added], IdOf(since)) == Above(log[..added], IdOf(since))
  {
    var oldest, cursor := log[trimmedLater..][0].id, IdOf(since);
    CursorMsPositive(since);
    ComparesSaturated(since, oldest);
    if cursor.Below(oldest) {
      ReadableIsSeen(log, cursor, trimmedLater);
    }
    CompleteIffNothingTrimmedAbove(log, trimmed, added, cursor);
  }

  // On every stream the flag says exactly that the cursor is seen to be below the
  // oldest entry still there; that is the numeric order for a readable stream, and for
  // a cursor and an entry that fit in int64.
  lemma FlagMeaning(since: string, later: seq<Entry>)
    requires IsStreamIdText(since)
    ensures Flagged(since, later, false) <==> IdOf(since).ms > 0 && later != [] && SeenAbove(IdOf(since), later[0].id)
    ensures IdOf(since).FitsInt64() && Readable(later, IdOf(since)) ==>
              (Flagged(since, later, false) <==> IdOf(since).ms > 0 && later != [] && IdOf(since).Below(later[0].id))
  {
    CursorMsPositive(since);
    if later != [] {
      ComparesSaturated(since, later[0].id);
      if Readable(later, IdOf(since)) && IdOf(since).Below(later[0].id) {
        ReadableIsSeen(later, IdOf(since), 0);
      }
    }
  }

  // Something above the cursor was trimmed before the range read. Then the flag is
  // down exactly for a cursor in millisecond 0, for a stream trimmed to nothing by
  // the time of the second read, and if that read fails.
  lemma FlagBlindSpots(log: seq<Entry>, trimmed: nat, trimmedLater: nat, since: string, oldestFails: bool)
    requires Increasing(log) && 0 < trimmed <= trimmedLater <= |log|
    requires IsStreamIdText(since) && Readable(log, IdOf(since))
    requires IdOf(since).Below(log[trimmed - 1].id)
    ensures !Flagged(since, log[trimmedLater..], oldestFails) <==>
            IdOf(since).ms == 0 || trimmedLater == |log| || oldestFails
  {
    CursorMsPositive(since);
    if trimmedLater < |log| {
      var oldest := log[trimmedLater..][0].id;
      assert log[trimmed - 1].id.Below(oldest);
      ComparesSaturated(since, oldest);
      ReadableIsSeen(log, IdOf(since), trimmedLater);
    }
  }

  lemma EmptiedStreamLosesSilently(e: Entry, since: string)
    requires e.id.FitsInt64() && IsStreamIdText(since) && IdOf(since).Below(e.id)
    ensures var log := [e];
            && !Flagged(since, log[1..], false)
            && Above(log[1..1], IdOf(since)) != Above(log[..1], IdOf(since))
  {
    CompleteIffNothingTrimmedAbove([e], 1, 1, IdOf(since));
  }

  // ---- Trimming ----

  // XTRIM MINID keeps the entries at or above the bound. On a stream that is a
  // front trim, the same shape as XADD's MAXLEN.
  function TrimMinId(s: seq<Entry>, bound: Id): seq<Entry> {
    if s == [] then []
    else
      var last := s[|s| - 1];
      TrimMinId(s[..|s| - 1], bound) + if last.id.Below(bound) then [] else [last]
  }

  lemma {:induction false} MinIdTrimsFront(s: seq<Entry>, bound: Id) returns (k: nat)
    requires Increasing(s)
    ensures k <= |s| && TrimMinId(s, bound) == s[k..]
    ensures forall i :: 0 <= i < |s| ==> (i < k <==> s[i].id.Below(bound))
  {
    if s == [] {
      k := 0;
    } else {
      k := MinIdTrimsFront(s[..|s| - 1], bound);
      var last := s[|s| - 1];
      if last.id.Below(bound) {
        k := |s|;
      } else {
        assert s[k..] == s[..|s| - 1][k..] + [last];
      }
    }
  }
}

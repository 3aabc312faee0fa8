/**
 SubscribeWithReplay of bus/bus.go as one call on the Bus object, without anything
 happening in between. Module ReplayProtocol takes the same sections apart and lets
 everything else interleave with them.
 */
module BusReplay {
  import opened Basics
  import opened Routing
  import opened StreamIds
  import opened Subscriptions
  import opened ReplayScan
  import opened BusObject

  /** A frame on its way to the subscriber; `replay` is the flag on the wire. */
  datatype Sent = Sent(entry: Entry, replay: bool)

  function Tagged(entries: seq<Entry>, replay: bool): seq<Sent> {
    seq(|entries|, i requires 0 <= i < |entries| => Sent(entries[i], replay))
  }

  // The entries one by one, tagged as replay.
  predicate AreReplayed(frames: seq<Sent>, entries: seq<Entry>) {
    |frames| == |entries| && forall k :: 0 <= k < |frames| ==> frames[k] == Sent(entries[k], true)
  }

  // The bus after a finished call: subscribed, and no replay entry for the pair.
  function Settled(b: Local, topic: string, sub: Subscriber): Local {
    SetReplay(AddSub(b, topic, sub), (sub, topic), None)
  }

  // A refused cursor changes nothing. A failed range read sends nothing but leaves
  // the subscription. Otherwise what the stream returns above the cursor is sent, in
  // order and tagged as replay, and the flag is as ReplayMessages says. No replay
  // entry survives in any case.
  method SubscribeWithReplay(bus: Bus, sub: Subscriber, topic: string, since: string, isoMs: Option<int>,
                             stream: seq<Entry>, rangeFails: bool, later: seq<Entry>, oldestFails: bool)
    returns (frames: seq<Sent>, r: Result<(bool, string)>)
    modifies bus
    ensures !IsCursor(since, isoMs) ==> bus.Local() == old(bus.Local())
    ensures IsCursor(since, isoMs) ==> bus.Local() == Settled(old(bus.Local()), topic, sub)
    ensures IsCursor(since, isoMs) ==>
              && bus.topicSubs == old(bus.topicSubs)[topic := old(bus.Subs(topic)) + {sub}]
              && bus.replay == old(bus.replay) - {(sub, topic)}
    ensures r.Err? ==> frames == []
    ensures var id := CursorId(since, isoMs);
            && (r.Ok? <==> id.Some? && id.value.ms <= 0xFFFF_FFFF_FFFF_FFFF && !rangeFails)
            && (r.Ok? ==> AreReplayed(frames, Returned(stream, id.value)))
            && (r.Ok? && Readable(stream, id.value) ==> AreReplayed(frames, Above(stream, id.value)))
            && (r.Ok? ==> (r.value.0 <==> id.value.ms > 0 && !oldestFails && later != [] && SeenAbove(id.value, later[0].id)))
            && (r.Ok? ==> r.value.1 == if r.value.0 then IdText(later[0].id) else "")
  {
    var parsed := ParseSinceCursor(since, isoMs);
    CursorsDenoteIds(since, isoMs);
    if parsed.Err? {
      return [], Err(parsed.error);
    }
    if IsStreamIdText(parsed.value) {
      FlagMeaning(parsed.value, later);
    }
    SettledFields(bus.Local(), topic, sub);
    frames, r := ReplayFrom(bus, sub, topic, parsed.value, stream, rangeFails, later, oldestFails);
  }

  lemma SettledFields(b: Local, topic: string, sub: Subscriber)
    ensures var after := Settled(b, topic, sub);
            && after.topicSubs == b.topicSubs[topic := Subscribers(b, topic) + {sub}]
            && after.replay == b.replay - {(sub, topic)}
  {
    if sub in Subscribers(b, topic) {
      assert Subscribers(b, topic) + {sub} == Subscribers(b, topic);
    }
  }

  // The call from the parsed cursor on.
  method ReplayFrom(bus: Bus, sub: Subscriber, topic: string, cursor: string,
                    stream: seq<Entry>, rangeFails: bool, later: seq<Entry>, oldestFails: bool)
    returns (frames: seq<Sent>, r: Result<(bool, string)>)
    requires IsStreamIdText(cursor) || RangeStart(SinceMs(cursor)).None?
    modifies bus
    ensures bus.Local() == Settled(old(bus.Local()), topic, sub)
    ensures r.Ok? <==> !rangeFails && RangeStart(SinceMs(cursor)).Some?
    ensures r.Err? ==> frames == []
    ensures r.Ok? ==>
              && IsStreamIdText(cursor) && frames == Tagged(Returned(stream, IdOf(cursor)), true)
              && (Readable(stream, IdOf(cursor)) ==> frames == Tagged(Above(stream, IdOf(cursor)), true))
              && (r.value.0 <==> Flagged(cursor, later, oldestFails))
              && r.value.1 == if r.value.0 then IdText(later[0].id) else ""
  {
    bus.BeginReplay(topic, sub);
    var scan := ReplayMessages(cursor, stream, rangeFails, later, oldestFails);
    if scan.Err? {
      bus.FailReplay(topic, sub);
      return [], Err(scan.error);
    }
    frames := SendReplayed(bus, sub, topic, scan.value.out);
    SettledAtLast(old(bus.Local()), topic, sub, scan.value.out);
    var leftover := bus.FlipReplay(topic, sub);
    var drained := SendDrained(leftover);
    assert drained == [];
    return frames + drained, Ok((scan.value.truncated, scan.value.oldest));
  }

  // Each replayed message is marked as seen, unless the subscriber was removed
  // meanwhile, and sent in any case.
  method SendReplayed(bus: Bus, sub: Subscriber, topic: string, msgs: seq<Entry>) returns (frames: seq<Sent>)
    modifies bus
    ensures frames == Tagged(msgs, true) && AreReplayed(frames, msgs)
    ensures bus.Local() == Marked(old(bus.Local()), (sub, topic), msgs)
    ensures bus.topicSubs == old(bus.topicSubs)
    ensures bus.replay == if (sub, topic) !in old(bus.replay) then old(bus.replay)
                          else old(bus.replay)[(sub, topic) := old(bus.replay)[(sub, topic)].(
                            seen := old(bus.replay)[(sub, topic)].seen + set e | e in msgs :: e.id)]
  {
    frames := [];
    MarkedNone(bus.Local(), (sub, topic));
    for i := 0 to |msgs|
      invariant bus.Local() == Marked(old(bus.Local()), (sub, topic), msgs[..i])
      invariant frames == Tagged(msgs[..i], true)
    {
      bus.MarkReplayed(topic, sub, msgs[i].id);
      frames := frames + [Sent(msgs[i], true)];
      MarkedOneMore(old(bus.Local()), (sub, topic), msgs[..i], msgs[i]);
      assert msgs[..i + 1] == msgs[..i] + [msgs[i]];
    }
    assert msgs[..|msgs|] == msgs;
  }

  method SendDrained(leftover: seq<Entry>) returns (frames: seq<Sent>)
    ensures frames == Tagged(leftover, false)
  {
    frames := [];
    for i := 0 to |leftover|
      invariant frames == Tagged(leftover[..i], false)
    {
      frames := frames + [Sent(leftover[i], false)];
    }
    assert leftover[..|leftover|] == leftover;
  }

  // The IDs of `msgs` are in the pair's seen set, if it has one; nothing else differs.
  function Marked(b: Local, p: Pair, msgs: seq<Entry>): Local {
    if p !in b.replay then b
    else b.(replay := b.replay[p := b.replay[p].(seen := b.replay[p].seen + IdSet(msgs))])
  }

  function IdSet(msgs: seq<Entry>): set<Id> {
    set e | e in msgs :: e.id
  }

  lemma MarkedNone(b: Local, p: Pair)
    ensures Marked(b, p, []) == b
  {
    assert IdSet([]) == {};
    if p in b.replay {
      assert b.replay[p].seen + {} == b.replay[p].seen;
      assert b.replay[p := b.replay[p]] == b.replay;
    }
  }

  lemma MarkedOneMore(b: Local, p: Pair, msgs: seq<Entry>, e: Entry)
    ensures Apply(Marked(b, p, msgs), Mark(p.1, p.0, e.id)) == Marked(b, p, msgs + [e])
  {
    assert IdSet(msgs + [e]) == IdSet(msgs) + {e.id};
    if p in b.replay {
      var seen := b.replay[p].seen;
      assert seen + IdSet(msgs) + {e.id} == seen + (IdSet(msgs) + {e.id});
    } else {
      assert b.replay - {p} == b.replay;
    }
  }

  lemma SettledAtLast(before: Local, topic: string, sub: Subscriber, msgs: seq<Entry>)
    ensures var b := Marked(Apply(before, Begin(topic, sub)), (sub, topic), msgs);
            && Apply(b, Flip(topic, sub)) == Settled(before, topic, sub)
            && Leftover(ViewOf(b, sub, topic)) == []
  {
  }
}

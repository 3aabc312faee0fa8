/**
 The Bus object: the methods of bus/bus.go that change `topicSubs`, `replay` and
 the LocalSubscriptions gauge, each one critical section of b.mu, and the sending
 half of handleTopic that runs after the lock is released.
 */
module BusObject {
  import opened Basics
  import opened Routing
  import opened StreamIds
  import opened Subscriptions

  datatype Report = Report(to: string, topic: string, id: Id, delivered: nat, dropped: nat, filtered: nat)

  class Bus {
    var topicSubs: map<string, set<Subscriber>>
    var replay: map<Pair, Replay>
    var localSubscriptions: int

    ghost function Local(): Local
      reads this
    {
      Subscriptions.Local(topicSubs, replay, localSubscriptions)
    }

    function Subs(topic: string): set<Subscriber>
      reads this
    {
      if topic in topicSubs then topicSubs[topic] else {}
    }

    predicate Buffers(topic: string, sub: Subscriber)
      reads this
    {
      (sub, topic) in replay && replay[(sub, topic)].buffering
    }

    constructor ()
      ensures Local() == Run([]).local
      ensures topicSubs == map[] && replay == map[] && localSubscriptions == 0
    {
      topicSubs := map[];
      replay := map[];
      localSubscriptions := 0;
    }

    method AddLocalSubscription(topic: string, sub: Subscriber)
      modifies this
      ensures Local() == Apply(old(Local()), Add(topic, sub))
      ensures topicSubs == old(topicSubs)[topic := old(Subs(topic)) + {sub}] && replay == old(replay)
      ensures localSubscriptions == old(localSubscriptions) + if sub in old(Subs(topic)) then 0 else 1
    {
      var subs := if topic in topicSubs then topicSubs[topic] else {};
      if sub !in subs {
        topicSubs := topicSubs[topic := subs + {sub}];
        localSubscriptions := localSubscriptions + 1;
      } else {
        assert subs + {sub} == subs;
      }
    }

    method RemoveLocalSubscription(topic: string, sub: Subscriber)
      modifies this
      ensures Local() == Apply(old(Local()), Remove(topic, sub))
      ensures forall t :: Subs(t) == if t == topic then old(Subs(t)) - {sub} else old(Subs(t))
      ensures topicSubs.Keys <= old(topicSubs).Keys && (topic in topicSubs ==> Subs(topic) != {})
      ensures replay == old(replay) - {(sub, topic)}
      ensures localSubscriptions == old(localSubscriptions) - if sub in old(Subs(topic)) then 1 else 0
    {
      if topic in topicSubs {
        var subs := topicSubs[topic];
        if sub in subs {
          subs := subs - {sub};
          localSubscriptions := localSubscriptions - 1;
        }
        if subs == {} {
          topicSubs := topicSubs - {topic};
        } else {
          topicSubs := topicSubs[topic := subs];
        }
        assert subs == old(topicSubs)[topic] - {sub};
      }
      replay := replay - {(sub, topic)};
    }

    method RemoveSubscriberAll(sub: Subscriber)
      modifies this
      ensures Local() == Apply(old(Local()), RemoveAll(sub))
      ensures forall t :: Subs(t) == old(Subs(t)) - {sub}
      ensures replay == map p | p in old(replay) && p.0 != sub :: old(replay)[p]
      ensures localSubscriptions == old(localSubscriptions) - |set t | t in old(topicSubs) && sub in old(topicSubs)[t]|
    {
      LeaveTopics(sub);
      var todo := replay.Keys;
      while todo != {}
        invariant todo <= old(replay).Keys
        invariant topicSubs == Apply(old(Local()), RemoveAll(sub)).topicSubs
        invariant localSubscriptions == Apply(old(Local()), RemoveAll(sub)).gauge
        invariant replay == map p | p in old(replay) && (p in todo || p.0 != sub) :: old(replay)[p]
        decreases todo
      {
        var p :| p in todo;
        todo := todo - {p};
        if p.0 == sub {
          replay := replay - {p};
        }
      }
    }

    // The first loop of RemoveSubscriberAll.
    method LeaveTopics(sub: Subscriber)
      modifies this`topicSubs, this`localSubscriptions
      ensures topicSubs == Apply(old(Local()), RemoveAll(sub)).topicSubs
      ensures localSubscriptions == Apply(old(Local()), RemoveAll(sub)).gauge
    {
      var before := topicSubs;
      var todo := before.Keys;
      while todo != {}
        invariant todo <= before.Keys
        invariant topicSubs == Leaving(before, sub, todo)
        invariant localSubscriptions == old(localSubscriptions) - |Left(before, sub, todo)|
        decreases todo
      {
        var topic :| topic in todo;
        LeaveOneMore(before, sub, todo, topic);
        todo := todo - {topic};
        var subs := topicSubs[topic];
        if sub in subs {
          localSubscriptions := localSubscriptions - 1;
          if subs - {sub} == {} {
            topicSubs := topicSubs - {topic};
          } else {
            topicSubs := topicSubs[topic := subs - {sub}];
          }
        }
      }
      assert Left(before, sub, todo) == set t | t in before && sub in before[t];
    }

    // SubscribeWithReplay, step 1: register and start buffering in one section.
    method BeginReplay(topic: string, sub: Subscriber)
      modifies this
      ensures Local() == Apply(old(Local()), Begin(topic, sub))
      ensures topicSubs == old(topicSubs)[topic := old(Subs(topic)) + {sub}]
      ensures replay == old(replay)[(sub, topic) := Replay(true, {}, [])]
    {
      AddLocalSubscription(topic, sub);
      replay := replay[(sub, topic) := Replay(true, {}, [])];
    }

    // The clean-up when the range read fails.
    method FailReplay(topic: string, sub: Subscriber)
      modifies this
      ensures Local() == Apply(old(Local()), Fail(topic, sub))
      ensures topicSubs == old(topicSubs) && replay == old(replay) - {(sub, topic)}
    {
      replay := replay - {(sub, topic)};
    }

    // Step 2, per replayed message, before it is sent.
    method MarkReplayed(topic: string, sub: Subscriber, id: Id)
      modifies this
      ensures Local() == Apply(old(Local()), Mark(topic, sub, id))
      ensures topicSubs == old(topicSubs) && replay.Keys == old(replay).Keys
      ensures forall p :: p in replay ==>
                replay[p] == if p == (sub, topic) then old(replay)[p].(seen := old(replay)[p].seen + {id}) else old(replay)[p]
    {
      if (sub, topic) in replay {
        var st := replay[(sub, topic)];
        replay := replay[(sub, topic) := st.(seen := st.seen + {id})];
      }
    }

    // Step 3: stop buffering and hand back what was buffered but not replayed.
    method FlipReplay(topic: string, sub: Subscriber) returns (leftover: seq<Entry>)
      modifies this
      ensures Local() == Apply(old(Local()), Flip(topic, sub))
      ensures leftover == Leftover(old(ViewOf(Local(), sub, topic)))
      ensures topicSubs == old(topicSubs) && replay == old(replay) - {(sub, topic)}
      ensures if (sub, topic) in old(replay)
              then KeepsUnseen(leftover, old(replay)[(sub, topic)].buf, old(replay)[(sub, topic)].seen)
              else leftover == []
    {
      leftover := [];
      if (sub, topic) in replay {
        var st := replay[(sub, topic)];
        for i := 0 to |st.buf|
          invariant leftover == Unseen(st.buf[..i], st.seen)
        {
          if st.buf[i].id !in st.seen {
            leftover := leftover + [st.buf[i]];
          }
          assert st.buf[..i + 1][..i] == st.buf[..i];
        }
        assert st.buf[..|st.buf|] == st.buf;
        UnseenIsKept(st.buf, st.seen);
      }
      replay := replay - {(sub, topic)};
    }

    // handleTopic's critical section: buffer for every subscriber mid-replay,
    // drop those the allowlist excludes, collect the rest. `order` is the order in
    // which Go happens to range over the topic's subscribers.
    method DecideFanOut(topic: string, entry: Entry, recipients: Recipients, order: seq<Subscriber>)
      returns (deliver: seq<Subscriber>, buffered: nat, filtered: nat)
      requires Enumerates(order, Subscribers(Local(), topic))
      modifies this`replay
      ensures Local() == Apply(old(Local()), FanOut(topic, entry))
      ensures Enumerates(deliver, Routed(old(Local()), topic, recipients, Delivered))
      ensures buffered == |Routed(old(Local()), topic, recipients, Buffered)|
      ensures filtered == |Routed(old(Local()), topic, recipients, Filtered)|
      ensures forall s :: s in deliver <==>
                && s in old(Subs(topic)) && !old(Buffers(topic, s))
                && (recipients.Nil? || s.id.None? || s.id.value in recipients.ids)
      ensures topicSubs == old(topicSubs) && replay.Keys == old(replay).Keys
      ensures forall p :: p in replay ==>
                replay[p] == if p.1 == topic && p.0 in old(Subs(topic)) && old(replay)[p].buffering
                             then old(replay)[p].(buf := old(replay)[p].buf + [entry]) else old(replay)[p]
    {
      ghost var b := Local();
      deliver, buffered, filtered := [], 0, 0;
      for i := 0 to |order|
        invariant replay == OfferEach(b.replay, topic, order[..i], entry)
        invariant deliver == Picked(b, topic, recipients, Delivered, order[..i])
        invariant buffered == |Picked(b, topic, recipients, Buffered, order[..i])|
        invariant filtered == |Picked(b, topic, recipients, Filtered, order[..i])|
      {
        var sub := order[i];
        assert order[..i + 1][..i] == order[..i];
        OffersLeaveOthers(b.replay, topic, order[..i], entry, sub);
        if (sub, topic) in replay && replay[(sub, topic)].buffering {
          var st := replay[(sub, topic)];
          replay := replay[(sub, topic) := st.(buf := st.buf + [entry])];
          buffered := buffered + 1;
        } else if !Allowed(recipients, sub) {
          filtered := filtered + 1;
        } else {
          deliver := deliver + [sub];
        }
      }
      assert order[..|order|] == order;
      OfferedToAll(b, topic, entry, order);
      PickedEnumerates(b, topic, recipients, Delivered, order);
      PickedEnumerates(b, topic, recipients, Buffered, order);
      PickedEnumerates(b, topic, recipients, Filtered, order);
    }
  }

  // The subscriptions while `sub` still has to leave the topics of `todo`.
  ghost function Leaving(before: map<string, set<Subscriber>>, sub: Subscriber, todo: set<string>): map<string, set<Subscriber>> {
    map t | t in before && (t in todo || before[t] != {sub}) :: if t in todo then before[t] else before[t] - {sub}
  }

  ghost function Left(before: map<string, set<Subscriber>>, sub: Subscriber, todo: set<string>): set<string> {
    set t | t in before && t !in todo && sub in before[t]
  }

  lemma LeaveOneMore(before: map<string, set<Subscriber>>, sub: Subscriber, todo: set<string>, topic: string)
    requires topic in todo && topic in before
    ensures var now, subs := Leaving(before, sub, todo), before[topic];
            && topic in now && now[topic] == subs
            && Leaving(before, sub, todo - {topic}) ==
               (if sub !in subs then now else if subs - {sub} == {} then now - {topic} else now[topic := subs - {sub}])
            && |Left(before, sub, todo - {topic})| == |Left(before, sub, todo)| + if sub in subs then 1 else 0
  {
    var subs := before[topic];
    assert sub in subs && subs - {sub} == {} <==> subs == {sub};
    if sub in subs {
      assert Left(before, sub, todo - {topic}) == Left(before, sub, todo) + {topic};
    } else {
      assert Left(before, sub, todo - {topic}) == Left(before, sub, todo);
      assert subs - {sub} == subs;
    }
  }

  // `s` lists the members of `members`, each once.
  ghost predicate Enumerates(s: seq<Subscriber>, members: set<Subscriber>) {
    NoDuplicates(s) && forall x :: x in s <==> x in members
  }

  lemma {:induction false} EnumerationLength(s: seq<Subscriber>, members: set<Subscriber>)
    requires Enumerates(s, members)
    ensures |s| == |members|
  {
    if s == [] {
      assert members == {};
    } else {
      var front, last := s[..|s| - 1], s[|s| - 1];
      assert s == front + [last];
      assert forall i :: 0 <= i < |front| ==> s[i] != s[|s| - 1];
      EnumerationLength(front, members - {last});
    }
  }

  // The subscribers of `order` that go to one class, in that order.
  ghost function Picked(b: Local, topic: string, recipients: Recipients, r: Route, order: seq<Subscriber>): seq<Subscriber> {
    if order == [] then []
    else
      var sub := order[|order| - 1];
      Picked(b, topic, recipients, r, order[..|order| - 1])
      + if RouteOf(ViewOf(b, sub, topic).(subscribed := true), Allowed(recipients, sub)) == r then [sub] else []
  }

  lemma {:induction false} PickedMembers(b: Local, topic: string, recipients: Recipients, r: Route, order: seq<Subscriber>)
    requires NoDuplicates(order)
    ensures var picked := Picked(b, topic, recipients, r, order);
            && NoDuplicates(picked)
            && forall s :: s in picked <==>
                 s in order && RouteOf(ViewOf(b, s, topic).(subscribed := true), Allowed(recipients, s)) == r
  {
    if order == [] {
    } else {
      var front, sub := order[..|order| - 1], order[|order| - 1];
      PickedMembers(b, topic, recipients, r, front);
      assert order == front + [sub];
      assert forall i :: 0 <= i < |front| ==> order[i] != order[|order| - 1];
    }
  }

  lemma PickedEnumerates(b: Local, topic: string, recipients: Recipients, r: Route, order: seq<Subscriber>)
    requires Enumerates(order, Subscribers(b, topic))
    ensures Enumerates(Picked(b, topic, recipients, r, order), Routed(b, topic, recipients, r))
    ensures |Picked(b, topic, recipients, r, order)| == |Routed(b, topic, recipients, r)|
  {
    PickedMembers(b, topic, recipients, r, order);
    EnumerationLength(Picked(b, topic, recipients, r, order), Routed(b, topic, recipients, r));
  }

  // The replay map after the message was offered to the subscribers of `order`.
  ghost function OfferEach(before: map<Pair, Replay>, topic: string, order: seq<Subscriber>, entry: Entry): map<Pair, Replay> {
    if order == [] then before
    else
      var now := OfferEach(before, topic, order[..|order| - 1], entry);
      var p := (order[|order| - 1], topic);
      if p in now && now[p].buffering then now[p := now[p].(buf := now[p].buf + [entry])] else now
  }

  lemma {:induction false} OffersLeaveOthers(before: map<Pair, Replay>, topic: string, order: seq<Subscriber>, entry: Entry, sub: Subscriber)
    ensures OfferEach(before, topic, order, entry).Keys == before.Keys
    ensures sub !in order && (sub, topic) in before ==>
              OfferEach(before, topic, order, entry)[(sub, topic)] == before[(sub, topic)]
  {
    if order == [] {
    } else {
      OffersLeaveOthers(before, topic, order[..|order| - 1], entry, sub);
    }
  }

  lemma {:induction false} OfferEachPointwise(before: map<Pair, Replay>, topic: string, order: seq<Subscriber>, entry: Entry, p: Pair)
    requires NoDuplicates(order) && p in before
    ensures p in OfferEach(before, topic, order, entry)
    ensures OfferEach(before, topic, order, entry)[p] ==
            if p.1 == topic && p.0 in order && before[p].buffering
            then before[p].(buf := before[p].buf + [entry]) else before[p]
  {
    if order == [] {
    } else {
      var front, last := order[..|order| - 1], order[|order| - 1];
      OfferEachPointwise(before, topic, front, entry, p);
      assert order == front + [last];
      assert forall i :: 0 <= i < |front| ==> order[i] != order[|order| - 1];
    }
  }

  lemma OfferedToAll(b: Local, topic: string, entry: Entry, order: seq<Subscriber>)
    requires Enumerates(order, Subscribers(b, topic))
    ensures OfferEach(b.replay, topic, order, entry) == Apply(b, FanOut(topic, entry)).replay
  {
    var after := OfferEach(b.replay, topic, order, entry);
    forall p | p in b.replay
      ensures p in after && after[p] == Apply(b, FanOut(topic, entry)).replay[p]
    {
      OfferEachPointwise(b.replay, topic, order, entry, p);
    }
    OffersLeaveOthers(b.replay, topic, order, entry, Subscriber(0, None, false));
  }

  // The subscribers that were asked and refused the frame.
  ghost function Refused(deliver: seq<Subscriber>, reportTo: string, accepts: set<Subscriber>): set<Subscriber> {
    set s | s in deliver && reportTo != "" && s.reporting && s !in accepts
  }

  lemma RefusedOneMore(deliver: seq<Subscriber>, i: nat, reportTo: string, accepts: set<Subscriber>)
    requires i < |deliver| && NoDuplicates(deliver)
    ensures |Refused(deliver[..i + 1], reportTo, accepts)| ==
            |Refused(deliver[..i], reportTo, accepts)|
            + if reportTo != "" && deliver[i].reporting && deliver[i] !in accepts then 1 else 0
  {
    var before, after := Refused(deliver[..i], reportTo, accepts), Refused(deliver[..i + 1], reportTo, accepts);
    assert deliver[..i + 1] == deliver[..i] + [deliver[i]];
    assert deliver[i] !in deliver[..i];
    if reportTo != "" && deliver[i].reporting && deliver[i] !in accepts {
      assert after == before + {deliver[i]};
    } else {
      assert after == before;
    }
  }

  // The sending half of handleTopic. `accepts` are the subscribers whose
  // SendReporting answers true; it is asked only when a report was requested.
  method DeliverAndReport(topic: string, entry: Entry, reportTo: string, deliver: seq<Subscriber>,
                          filtered: nat, accepts: set<Subscriber>)
    returns (delivered: nat, dropped: nat, report: Option<Report>)
    requires NoDuplicates(deliver)
    ensures delivered + dropped == |deliver|
    ensures dropped == |Refused(deliver, reportTo, accepts)|
    ensures report == if reportTo != "" && deliver != []
                      then Some(Report(reportTo, topic, entry.id, delivered, dropped, filtered)) else None
  {
    delivered, dropped := 0, 0;
    if |deliver| == 0 {
      report := None;
      return;
    }
    for i := 0 to |deliver|
      invariant delivered + dropped == i
      invariant dropped == |Refused(deliver[..i], reportTo, accepts)|
    {
      var sub := deliver[i];
      RefusedOneMore(deliver, i, reportTo, accepts);
      if reportTo != "" && sub.reporting && sub !in accepts {
        dropped := dropped + 1;
      } else {
        delivered := delivered + 1;
      }
    }
    assert deliver[..|deliver|] == deliver;
    report := if reportTo != "" then Some(Report(reportTo, topic, entry.id, delivered, dropped, filtered)) else None;
  }

  // handleTopic: nothing is lost and nothing is counted twice, and a report that
  // goes out carries exactly the counts of this fan-out.
  method HandleTopic(bus: Bus, topic: string, entry: Entry, recipients: Recipients, reportTo: string,
                     order: seq<Subscriber>, accepts: set<Subscriber>)
    returns (buffered: nat, filtered: nat, delivered: nat, dropped: nat, report: Option<Report>)
    requires Enumerates(order, Subscribers(bus.Local(), topic))
    modifies bus
    ensures bus.Local() == Apply(old(bus.Local()), FanOut(topic, entry))
    ensures buffered + filtered + delivered + dropped == |Subscribers(old(bus.Local()), topic)|
    ensures buffered == |Routed(old(bus.Local()), topic, recipients, Buffered)|
    ensures filtered == |Routed(old(bus.Local()), topic, recipients, Filtered)|
    ensures dropped == |set s | s in Routed(old(bus.Local()), topic, recipients, Delivered)
                               && reportTo != "" && s.reporting && s !in accepts|
    ensures delivered + dropped == |Routed(old(bus.Local()), topic, recipients, Delivered)|
    ensures report.Some? <==> reportTo != "" && Routed(old(bus.Local()), topic, recipients, Delivered) != {}
    ensures report.Some? ==> report.value == Report(reportTo, topic, entry.id, delivered, dropped, filtered)
  {
    ghost var b := bus.Local();
    var deliver;
    deliver, buffered, filtered := bus.DecideFanOut(topic, entry, recipients, order);
    delivered, dropped, report := DeliverAndReport(topic, entry, reportTo, deliver, filtered, accepts);
    RoutesPartition(b, topic, recipients);
    EnumerationLength(deliver, Routed(b, topic, recipients, Delivered));
    assert Refused(deliver, reportTo, accepts) ==
           set s | s in Routed(b, topic, recipients, Delivered) && reportTo != "" && s.reporting && s !in accepts;
  }

  // A report is asked for and none is sent: the only subscriber is filtered out. From
  // any bus without subscribers, for any topic, ID and message.
  method NoReport(bus: Bus, topic: string, id: string, entry: Entry, reportTo: string) returns (report: Option<Report>)
    requires bus.topicSubs == map[] && bus.replay == map[] && reportTo != ""
    modifies bus
    ensures report == None && |Subscribers(bus.Local(), topic)| == 1
  {
    var sub := Subscriber(0, Some(id), true);
    bus.AddLocalSubscription(topic, sub);
    AddSubscribers(Local(map[], map[], old(bus.localSubscriptions)), topic, sub, topic);
    assert Subscribers(bus.Local(), topic) == {sub};
    ghost var b := bus.Local();
    assert Enumerates([sub], Subscribers(b, topic));
    var buffered, filtered, delivered, dropped;
    buffered, filtered, delivered, dropped, report := HandleTopic(bus, topic, entry, List([]), reportTo, [sub], {});
    assert Subscribers(bus.Local(), topic) == Subscribers(b, topic);
    assert Routed(b, topic, List([]), Delivered) == {};
  }
}

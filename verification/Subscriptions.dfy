/**
 The local half of the bus: who is subscribed to what, who is mid-replay, and how
 one announcement is fanned out (bus/bus.go). Everything here happens under b.mu;
 sending happens after it is released.
 */
module Subscriptions {
  import opened Basics
  import opened Routing
  import opened StreamIds
  import opened Sequences

  datatype Entry = Entry(id: Id, data: string)

  datatype Replay = Replay(buffering: bool, seen: set<Id>, buf: seq<Entry>)

  // ---- One (subscriber, topic) pair ----

  /** What the bus knows about one pair. */
  datatype View = View(subscribed: bool, replay: Option<Replay>)

  datatype Route = Absent | Buffered | Filtered | Delivered

  function Register(v: View): View {
    View(true, Some(Replay(true, {}, [])))
  }

  function Abort(v: View): View {
    v.(replay := None)
  }

  function MarkSeen(v: View, id: Id): View {
    if v.replay.None? then v
    else v.(replay := Some(v.replay.value.(seen := v.replay.value.seen + {id})))
  }

  // The buffered messages that were not already replayed, in arrival order.
  function Unseen(buf: seq<Entry>, seen: set<Id>): seq<Entry> {
    if buf == [] then []
    else
      var last := buf[|buf| - 1];
      Unseen(buf[..|buf| - 1], seen) + if last.id in seen then [] else [last]
  }

  function Wanted(buf: seq<Entry>, seen: set<Id>): seq<bool> {
    seq(|buf|, k requires 0 <= k < |buf| => buf[k].id !in seen)
  }

  // `kept` are exactly the entries of `buf` whose ID is not in `seen`, in their order.
  ghost predicate KeepsUnseen(kept: seq<Entry>, buf: seq<Entry>, seen: set<Id>) {
    exists at: seq<nat> :: Picks(kept, buf, at) && ExactlyAt(at, Wanted(buf, seen))
  }

  lemma {:induction false} UnseenIsFiltered(buf: seq<Entry>, seen: set<Id>)
    ensures Unseen(buf, seen) == Marked(buf, Wanted(buf, seen))
  {
    if buf == [] {
    } else {
      var n := |buf| - 1;
      UnseenIsFiltered(buf[..n], seen);
      assert Wanted(buf, seen)[..n] == Wanted(buf[..n], seen);
    }
  }

  lemma UnseenIsKept(buf: seq<Entry>, seen: set<Id>)
    ensures KeepsUnseen(Unseen(buf, seen), buf, seen)
  {
    UnseenIsFiltered(buf, seen);
    MarkedPicks(buf, Wanted(buf, seen));
    PlacesAreExact(Wanted(buf, seen));
  }

  function Leftover(v: View): seq<Entry> {
    if v.replay.None? then [] else Unseen(v.replay.value.buf, v.replay.value.seen)
  }

  function RouteOf(v: View, allowed: bool): Route {
    if !v.subscribed then Absent
    else if v.replay.Some? && v.replay.value.buffering then Buffered
    else if allowed then Delivered
    else Filtered
  }

  function Offer(v: View, e: Entry): View {
    if v.subscribed && v.replay.Some? && v.replay.value.buffering
    then v.(replay := Some(v.replay.value.(buf := v.replay.value.buf + [e])))
    else v
  }

  // ---- The whole local state ----

  type Pair = (Subscriber, string)

  datatype Local = Local(topicSubs: map<string, set<Subscriber>>, replay: map<Pair, Replay>, gauge: int)

  function Subscribers(b: Local, topic: string): set<Subscriber> {
    if topic in b.topicSubs then b.topicSubs[topic] else {}
  }

  function ViewOf(b: Local, sub: Subscriber, topic: string): View {
    View(sub in Subscribers(b, topic), if (sub, topic) in b.replay then Some(b.replay[(sub, topic)]) else None)
  }

  function Pairs(b: Local): set<Pair> {
    set t, s | t in b.topicSubs && s in b.topicSubs[t] :: (s, t)
  }

  ghost predicate Valid(b: Local) {
    && (forall t :: t in b.topicSubs ==> b.topicSubs[t] != {})
    && b.gauge == |Pairs(b)|
    && (forall p :: p in b.replay ==> p.0 in Subscribers(b, p.1) && b.replay[p].buffering)
  }

  datatype Op =
    | Add(topic: string, sub: Subscriber)
    | Remove(topic: string, sub: Subscriber)
    | RemoveAll(sub: Subscriber)
    | Begin(topic: string, sub: Subscriber)       // SubscribeWithReplay, first critical section
    | Fail(topic: string, sub: Subscriber)        // its clean-up when the range read fails
    | Mark(topic: string, sub: Subscriber, id: Id)
    | Flip(topic: string, sub: Subscriber)        // its last critical section
    | FanOut(topic: string, entry: Entry)         // handleTopic's critical section

  function AddSub(b: Local, topic: string, sub: Subscriber): Local {
    if sub in Subscribers(b, topic) then b
    else b.(topicSubs := b.topicSubs[topic := Subscribers(b, topic) + {sub}], gauge := b.gauge + 1)
  }

  function WithoutSub(subs: map<string, set<Subscriber>>, topic: string, sub: Subscriber): map<string, set<Subscriber>> {
    if topic !in subs then subs
    else if subs[topic] - {sub} == {} then subs - {topic}
    else subs[topic := subs[topic] - {sub}]
  }

  function SetReplay(b: Local, p: Pair, r: Option<Replay>): Local {
    b.(replay := if r.Some? then b.replay[p := r.value] else b.replay - {p})
  }

  function Apply(b: Local, op: Op): Local {
    match op
    case Add(topic, sub) => AddSub(b, topic, sub)
    case Remove(topic, sub) =>
      Local(WithoutSub(b.topicSubs, topic, sub), b.replay - {(sub, topic)},
            if sub in Subscribers(b, topic) then b.gauge - 1 else b.gauge)
    case RemoveAll(sub) =>
      Local(map t | t in b.topicSubs && b.topicSubs[t] != {sub} :: b.topicSubs[t] - {sub},
            map p | p in b.replay && p.0 != sub :: b.replay[p],
            b.gauge - |set t | t in b.topicSubs && sub in b.topicSubs[t]|)
    case Begin(topic, sub) =>
      SetReplay(AddSub(b, topic, sub), (sub, topic), Register(ViewOf(b, sub, topic)).replay)
    case Fail(topic, sub) =>
      SetReplay(b, (sub, topic), None)
    case Mark(topic, sub, id) =>
      SetReplay(b, (sub, topic), MarkSeen(ViewOf(b, sub, topic), id).replay)
    case Flip(topic, sub) =>
      SetReplay(b, (sub, topic), None)
    case FanOut(topic, entry) =>
      b.(replay := map p | p in b.replay ::
           if p.1 == topic then Offer(ViewOf(b, p.0, topic), entry).replay.value else b.replay[p])
  }

  // ---- Every pair evolves on its own ----

  function ApplyToPair(v: View, sub: Subscriber, topic: string, op: Op): View {
    match op
    case RemoveAll(s) => if s == sub then View(false, None) else v
    case FanOut(t, entry) => if t == topic then Offer(v, entry) else v
    case _ =>
      if op.topic != topic || op.sub != sub then v
      else
        match op
        case Add(_, _) => v.(subscribed := true)
        case Remove(_, _) => View(false, None)
        case Begin(_, _) => Register(v)
        case Mark(_, _, id) => MarkSeen(v, id)
        case _ => Abort(v)
  }

  lemma RemoveSubscribers(b: Local, topic: string, sub: Subscriber, t: string)
    ensures Subscribers(Apply(b, Remove(topic, sub)), t) ==
            if t == topic then Subscribers(b, t) - {sub} else Subscribers(b, t)
  {
  }

  lemma RemoveAllSubscribers(b: Local, sub: Subscriber, t: string)
    ensures Subscribers(Apply(b, RemoveAll(sub)), t) == Subscribers(b, t) - {sub}
  {
  }

  lemma AddSubscribers(b: Local, topic: string, sub: Subscriber, t: string)
    ensures Subscribers(AddSub(b, topic, sub), t) ==
            if t == topic then Subscribers(b, t) + {sub} else Subscribers(b, t)
  {
  }

  lemma FanOutPair(b: Local, t: string, entry: Entry, sub: Subscriber, topic: string)
    ensures ViewOf(Apply(b, FanOut(t, entry)), sub, topic) ==
            if t == topic then Offer(ViewOf(b, sub, topic), entry) else ViewOf(b, sub, topic)
  {
  }

  lemma SetReplayPair(b: Local, p: Pair, r: Option<Replay>, sub: Subscriber, topic: string)
    ensures ViewOf(SetReplay(b, p, r), sub, topic) ==
            if p == (sub, topic) then ViewOf(b, sub, topic).(replay := r) else ViewOf(b, sub, topic)
  {
  }

  // An operation on the shared maps is, seen from any pair, exactly that pair's
  // own operation; pairs it does not name are untouched.
  lemma PairsAreIndependent(b: Local, op: Op, sub: Subscriber, topic: string)
    ensures ViewOf(Apply(b, op), sub, topic) == ApplyToPair(ViewOf(b, sub, topic), sub, topic, op)
  {
    match op
    case Add(t, s) => AddSubscribers(b, t, s, topic);
    case Remove(t, s) => RemoveSubscribers(b, t, s, topic);
    case RemoveAll(s) => RemoveAllSubscribers(b, s, topic);
    case Begin(t, s) =>
      AddSubscribers(b, t, s, topic);
      SetReplayPair(AddSub(b, t, s), (s, t), Register(ViewOf(b, s, t)).replay, sub, topic);
    case Fail(t, s) => SetReplayPair(b, (s, t), None, sub, topic);
    case Mark(t, s, id) => SetReplayPair(b, (s, t), MarkSeen(ViewOf(b, s, t), id).replay, sub, topic);
    case Flip(t, s) => SetReplayPair(b, (s, t), None, sub, topic);
    case FanOut(t, entry) => FanOutPair(b, t, entry, sub, topic);
  }

  // ---- State invariant over all runs ----

  /** The local state plus the SubscribeWithReplay calls still running. */
  datatype Tracked = Tracked(local: Local, active: set<Pair>)

  // At most one SubscribeWithReplay runs per pair; the steps of a call that is
  // not running do not happen.
  predicate Enabled(active: set<Pair>, op: Op) {
    match op
    case Begin(topic, sub) => (sub, topic) !in active
    case Fail(topic, sub) => (sub, topic) in active
    case Mark(topic, sub, _) => (sub, topic) in active
    case Flip(topic, sub) => (sub, topic) in active
    case _ => true
  }

  function NextActive(active: set<Pair>, op: Op): set<Pair> {
    match op
    case Begin(topic, sub) => active + {(sub, topic)}
    case Fail(topic, sub) => active - {(sub, topic)}
    case Flip(topic, sub) => active - {(sub, topic)}
    case _ => active
  }

  function Step(s: Tracked, op: Op): Tracked {
    if Enabled(s.active, op) then Tracked(Apply(s.local, op), NextActive(s.active, op)) else s
  }

  function Run(ops: seq<Op>): Tracked {
    if ops == [] then Tracked(Local(map[], map[], 0), {})
    else Step(Run(ops[..|ops| - 1]), ops[|ops| - 1])
  }

  lemma PairsIff(b: Local, sub: Subscriber, topic: string)
    ensures (sub, topic) in Pairs(b) <==> sub in Subscribers(b, topic)
  {
  }

  lemma AddPairs(b: Local, topic: string, sub: Subscriber)
    ensures Pairs(AddSub(b, topic, sub)) == Pairs(b) + {(sub, topic)}
  {
    forall s, t ensures (s, t) in Pairs(AddSub(b, topic, sub)) <==> (s, t) in Pairs(b) + {(sub, topic)} {
      AddSubscribers(b, topic, sub, t);
      PairsIff(b, s, t);
      PairsIff(AddSub(b, topic, sub), s, t);
    }
  }

  lemma RemovePairs(b: Local, topic: string, sub: Subscriber)
    ensures Pairs(Apply(b, Remove(topic, sub))) == Pairs(b) - {(sub, topic)}
  {
    var b' := Apply(b, Remove(topic, sub));
    forall s, t ensures (s, t) in Pairs(b') <==> (s, t) in Pairs(b) - {(sub, topic)} {
      RemoveSubscribers(b, topic, sub, t);
      PairsIff(b, s, t);
      PairsIff(b', s, t);
    }
  }

  lemma RemoveAllPairs(b: Local, sub: Subscriber)
    ensures var topics := set t | t in b.topicSubs && sub in b.topicSubs[t];
            var owned := set t | t in topics :: (sub, t);
            && Pairs(Apply(b, RemoveAll(sub))) == Pairs(b) - owned
            && owned <= Pairs(b) && |owned| == |topics|
  {
    var b' := Apply(b, RemoveAll(sub));
    var topics := set t | t in b.topicSubs && sub in b.topicSubs[t];
    var owned := set t | t in topics :: (sub, t);
    forall s, t ensures (s, t) in Pairs(b') <==> (s, t) in Pairs(b) - owned {
      RemoveAllSubscribers(b, sub, t);
      PairsIff(b, s, t);
      PairsIff(b', s, t);
    }
    PairedTopics(sub, topics);
  }

  lemma {:induction false} PairedTopics(sub: Subscriber, topics: set<string>)
    ensures |set t | t in topics :: (sub, t)| == |topics|
    decreases topics
  {
    if topics == {} {
    } else {
      var t0 :| t0 in topics;
      PairedTopics(sub, topics - {t0});
      assert (set t | t in topics :: (sub, t)) == (set t | t in topics - {t0} :: (sub, t)) + {(sub, t0)};
    }
  }

  lemma AddKeepsValid(b: Local, topic: string, sub: Subscriber)
    requires Valid(b)
    ensures Valid(AddSub(b, topic, sub))
  {
    AddPairs(b, topic, sub);
    PairsIff(b, sub, topic);
  }

  lemma RemoveKeepsValid(b: Local, topic: string, sub: Subscriber)
    requires Valid(b)
    ensures Valid(Apply(b, Remove(topic, sub)))
  {
    RemovePairs(b, topic, sub);
    PairsIff(b, sub, topic);
    forall p | p in Apply(b, Remove(topic, sub)).replay
      ensures p.0 in Subscribers(Apply(b, Remove(topic, sub)), p.1)
    {
      RemoveSubscribers(b, topic, sub, p.1);
    }
  }

  lemma RemoveAllKeepsValid(b: Local, sub: Subscriber)
    requires Valid(b)
    ensures Valid(Apply(b, RemoveAll(sub)))
  {
    RemoveAllPairs(b, sub);
    forall p | p in Apply(b, RemoveAll(sub)).replay
      ensures p.0 in Subscribers(Apply(b, RemoveAll(sub)), p.1)
    {
      RemoveAllSubscribers(b, sub, p.1);
    }
  }

  lemma SamePairs(b: Local, c: Local)
    requires b.topicSubs == c.topicSubs
    ensures Pairs(b) == Pairs(c)
  {
  }

  lemma BeginKeepsValid(b: Local, topic: string, sub: Subscriber)
    requires Valid(b)
    ensures Valid(Apply(b, Begin(topic, sub)))
  {
    AddKeepsValid(b, topic, sub);
    SetReplayKeepsValid(AddSub(b, topic, sub), (sub, topic), Replay(true, {}, []));
  }

  lemma SetReplayKeepsValid(b: Local, p: Pair, r: Replay)
    requires Valid(b)
    requires p.0 in Subscribers(b, p.1) && r.buffering
    ensures Valid(SetReplay(b, p, Some(r)))
  {
    SamePairs(SetReplay(b, p, Some(r)), b);
  }

  lemma ReplayOpsKeepValid(b: Local, op: Op)
    requires Valid(b)
    requires op.Fail? || op.Flip? || op.Mark? || op.FanOut?
    ensures Valid(Apply(b, op))
  {
    SamePairs(Apply(b, op), b);
  }

  lemma ApplyKeepsValid(b: Local, op: Op)
    requires Valid(b)
    ensures Valid(Apply(b, op))
  {
    match op
    case Add(topic, sub) => AddKeepsValid(b, topic, sub);
    case Remove(topic, sub) => RemoveKeepsValid(b, topic, sub);
    case RemoveAll(sub) => RemoveAllKeepsValid(b, sub);
    case Begin(topic, sub) => BeginKeepsValid(b, topic, sub);
    case _ => ReplayOpsKeepValid(b, op);
  }

  // Replay entries appear only with Begin and are gone after Fail and Flip, so
  // none outlives the call that made it.
  lemma ReplayKeys(b: Local, active: set<Pair>, op: Op)
    requires b.replay.Keys <= active
    ensures Apply(b, op).replay.Keys <= NextActive(active, op)
  {
  }

  // Over every run: each replay entry belongs to a current subscription, is
  // buffering and has its call still running (so none outlives its call, whether
  // it succeeded or failed); no topic maps to an empty set; and the gauge counts
  // the (topic, subscriber) pairs.
  lemma {:induction false} RunsKeepValid(ops: seq<Op>)
    ensures Valid(Run(ops).local) && Run(ops).local.replay.Keys <= Run(ops).active
  {
    if ops == [] {
    } else {
      RunsKeepValid(ops[..|ops| - 1]);
      var s, op := Run(ops[..|ops| - 1]), ops[|ops| - 1];
      ApplyKeepsValid(s.local, op);
      ReplayKeys(s.local, s.active, op);
    }
  }

  // ---- Fan-out ----

  function Routed(b: Local, topic: string, recipients: Recipients, route: Route): set<Subscriber> {
    set s | s in Subscribers(b, topic) && RouteOf(ViewOf(b, s, topic), Allowed(recipients, s)) == route
  }

  lemma RoutesPartition(b: Local, topic: string, recipients: Recipients)
    ensures var buffered := Routed(b, topic, recipients, Buffered);
            var filtered := Routed(b, topic, recipients, Filtered);
            var delivered := Routed(b, topic, recipients, Delivered);
            && buffered + filtered + delivered == Subscribers(b, topic)
            && buffered !! filtered !! delivered
            && |buffered| + |filtered| + |delivered| == |Subscribers(b, topic)|
  {
    var routes := Routes(b, topic, recipients);
    ClassesPartition(routes);
    RoutedIsClass(b, topic, recipients, Buffered);
    RoutedIsClass(b, topic, recipients, Filtered);
    RoutedIsClass(b, topic, recipients, Delivered);
  }

  function Routes(b: Local, topic: string, recipients: Recipients): (routes: map<Subscriber, Route>)
    ensures routes.Keys == Subscribers(b, topic)
    ensures forall s :: s in routes ==> routes[s] != Absent
  {
    map s | s in Subscribers(b, topic) :: RouteOf(ViewOf(b, s, topic), Allowed(recipients, s))
  }

  lemma RoutedIsClass(b: Local, topic: string, recipients: Recipients, r: Route)
    ensures Routed(b, topic, recipients, r) == Class(Routes(b, topic, recipients), r)
  {
  }

  function Class(routes: map<Subscriber, Route>, r: Route): set<Subscriber> {
    set s | s in routes && routes[s] == r
  }

  lemma ClassesPartition(routes: map<Subscriber, Route>)
    requires forall s :: s in routes ==> routes[s] != Absent
    ensures var buffered, filtered, delivered := Class(routes, Buffered), Class(routes, Filtered), Class(routes, Delivered);
            && buffered + filtered + delivered == routes.Keys
            && buffered !! filtered !! delivered
            && |buffered| + |filtered| + |delivered| == |routes.Keys|
  {
    var buffered, filtered, delivered := Class(routes, Buffered), Class(routes, Filtered), Class(routes, Delivered);
    assert buffered + filtered + delivered == routes.Keys;
    assert |buffered + filtered + delivered| == |buffered + filtered| + |delivered|;
  }

  // From the Judge's answer at publish to the fan-out on any instance: a
  // subscriber that is not mid-replay is picked for live delivery exactly when it
  // has no ID, or routing is by topic, or the Judge decided to deliver to it.
  lemma JudgeRoutesLiveDelivery(b: Local, topic: string, sub: Subscriber, call: JudgeCall, policy: FailurePolicy)
    requires sub in Subscribers(b, topic) && (sub, topic) !in b.replay
    ensures sub in Routed(b, topic, Decode(Encode(Verdict(call, policy))), Delivered) <==>
            || sub.id.None?
            || match call
               case NotConfigured => true
               case CandidatesFailed => policy == DeliverAll
               case JudgeFailed(candidates) => candidates == [] || policy == DeliverAll
               case Answered(candidates, decisions) =>
                 if candidates == [] then true
                 else if IsSound(candidates, decisions)
                 then exists i :: 0 <= i < |decisions| && decisions[i].deliver && decisions[i].id == sub.id.value
                 else policy == DeliverAll
  {
    WireKeepsRecipients(Verdict(call, policy), Nil);
    if call.Answered? {
      SoundIsWellFormed(call.candidates, call.decisions);
    }
  }

  // Reordering the Judge's decisions changes no route on any instance.
  lemma ReorderingChangesNoRoute(b: Local, topic: string, candidates: seq<Candidate>,
                                 a: seq<Decision>, c: seq<Decision>, policy: FailurePolicy, route: Route)
    requires multiset(a) == multiset(c)
    ensures Routed(b, topic, Verdict(Answered(candidates, a), policy), route) ==
            Routed(b, topic, Verdict(Answered(candidates, c), policy), route)
  {
    DecisionOrderIrrelevant(candidates, a, c);
    var first, second := Verdict(Answered(candidates, a), policy), Verdict(Answered(candidates, c), policy);
    assert forall s :: Allowed(first, s) <==> Allowed(second, s);
  }
}

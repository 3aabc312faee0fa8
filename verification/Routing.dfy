/**
 Judge routing: from a Judge's decisions at publish time, over the wire, to the
 verdict for one subscriber on any instance (bus/judge.go, bus/bus.go).
 */
module Routing {

  import opened Basics
  import opened Sequences

  /** A local subscriber. `handle` is its identity as a Go map key, `id` is present
      when it implements Identified, `reporting` when it implements DropReporter. */
  datatype Subscriber = Subscriber(handle: nat, id: Option<string>, reporting: bool)

  datatype Candidate = Candidate(id: string, criteria: string)

  datatype Decision = Decision(id: string, deliver: bool, score: real)

  /** The `[]string` of recipients: a nil slice is not an empty one. */
  datatype Recipients = Nil | List(ids: seq<string>)

  // ---- resolve ----

  function CandidateIds(candidates: seq<Candidate>): set<string> {
    set c | c in candidates :: c.id
  }

  function DecisionIds(decisions: seq<Decision>): seq<string> {
    seq(|decisions|, i requires 0 <= i < |decisions| => decisions[i].id)
  }

  ghost predicate NoDuplicates<T(!new)>(s: seq<T>) {
    forall i, j :: 0 <= i < j < |s| ==> s[i] != s[j]
  }

  // Every decision names a candidate, and no candidate twice.
  ghost predicate WellFormed(candidates: seq<Candidate>, decisions: seq<Decision>) {
    && (forall i :: 0 <= i < |decisions| ==> decisions[i].id in CandidateIds(candidates))
    && NoDuplicates(DecisionIds(decisions))
  }

  // The IDs given a deliver decision, in decision order.
  function Chosen(decisions: seq<Decision>): (ids: seq<string>)
    ensures forall id :: id in ids <==> exists i :: 0 <= i < |decisions| && decisions[i].deliver && decisions[i].id == id
  {
    if decisions == [] then []
    else
      var last := decisions[|decisions| - 1];
      Chosen(decisions[..|decisions| - 1]) + if last.deliver then [last.id] else []
  }

  method Resolve(candidates: seq<Candidate>, decisions: seq<Decision>) returns (r: Result<seq<string>>)
    ensures r.Ok? <==> IsSound(candidates, decisions)
    ensures r.Ok? ==> PicksDelivered(r.value, decisions)
    ensures r.Ok? <==> WellFormed(candidates, decisions)
    ensures r.Ok? ==> r.value == Chosen(decisions)
  {
    r := ChooseWellFormed(candidates, decisions);
    SoundIsWellFormed(candidates, decisions);
    ChosenInOrder(decisions);
  }

  // The body of resolve.
  method ChooseWellFormed(candidates: seq<Candidate>, decisions: seq<Decision>) returns (r: Result<seq<string>>)
    ensures r.Ok? <==> WellFormed(candidates, decisions)
    ensures r.Ok? ==> r.value == Chosen(decisions)
  {
    var known: set<string> := {};
    for i := 0 to |candidates|
      invariant known == CandidateIds(candidates[..i])
    {
      known := known + {candidates[i].id};
      assert candidates[..i + 1] == candidates[..i] + [candidates[i]];
    }
    assert candidates[..|candidates|] == candidates;
    var out: seq<string> := [];
    var seen: set<string> := {};
    for i := 0 to |decisions|
      invariant WellFormed(candidates, decisions[..i])
      invariant forall id :: id in seen <==> id in DecisionIds(decisions[..i])
      invariant out == Chosen(decisions[..i])
    {
      var d := decisions[i];
      assert d.id == DecisionIds(decisions)[i];
      if d.id !in known {
        return Err("judge returned a decision for unknown subscriber");
      }
      if d.id in seen {
        var j :| 0 <= j < i && DecisionIds(decisions[..i])[j] == d.id;
        assert DecisionIds(decisions)[j] == d.id;
        return Err("judge returned two decisions for subscriber");
      }
      seen := seen + {d.id};
      if d.deliver {
        out := out + [d.id];
      }
      assert decisions[..i + 1][..i] == decisions[..i];
      assert DecisionIds(decisions[..i + 1]) == DecisionIds(decisions[..i]) + [d.id];
    }
    assert decisions[..|decisions|] == decisions;
    return Ok(out);
  }

  // ---- Decision order does not matter ----

  lemma {:induction false} SameMultisetSameMembers<T>(a: seq<T>, b: seq<T>)
    requires multiset(a) == multiset(b)
    ensures forall x :: x in a <==> x in b
  {
    forall x ensures x in a <==> x in b {
      assert x in a <==> x in multiset(a);
      assert x in b <==> x in multiset(b);
    }
  }

  lemma {:induction false} NoDuplicatesByCount(s: seq<string>)
    ensures NoDuplicates(s) <==> forall x :: multiset(s)[x] <= 1
  {
    if s == [] {
    } else {
      var front, last := s[..|s| - 1], s[|s| - 1];
      assert s == front + [last];
      NoDuplicatesByCount(front);
      assert multiset(s) == multiset(front) + multiset{last};
      if NoDuplicates(s) {
        assert forall i :: 0 <= i < |front| ==> s[i] != s[|s| - 1];
        assert last !in front;
      } else if NoDuplicates(front) {
        assert exists i :: 0 <= i < |front| && front[i] == last;
        assert multiset(s)[last] >= 2;
      } else {
        var x :| multiset(front)[x] > 1;
        assert multiset(s)[x] > 1;
      }
    }
  }

  // Removing one element from the middle of a sequence of decisions.
  lemma IdsWithout(decisions: seq<Decision>, k: nat)
    requires k < |decisions|
    ensures var rest := decisions[..k] + decisions[k + 1..];
            && multiset(decisions) == multiset(rest) + multiset{decisions[k]}
            && multiset(DecisionIds(decisions)) == multiset(DecisionIds(rest)) + multiset{decisions[k].id}
  {
    assert decisions == decisions[..k] + [decisions[k]] + decisions[k + 1..];
    var ids, rest := DecisionIds(decisions), decisions[..k] + decisions[k + 1..];
    assert ids == ids[..k] + [ids[k]] + ids[k + 1..];
    assert DecisionIds(rest) == ids[..k] + ids[k + 1..];
  }

  lemma {:induction false} PermutedIds(a: seq<Decision>, b: seq<Decision>)
    requires multiset(a) == multiset(b)
    ensures multiset(DecisionIds(a)) == multiset(DecisionIds(b))
    decreases |a|
  {
    assert |a| == |multiset(a)| == |multiset(b)| == |b|;
    if a == [] {
    } else {
      assert a[0] in multiset(b);
      var k :| 0 <= k < |b| && b[k] == a[0];
      IdsWithout(a, 0);
      IdsWithout(b, k);
      var restA, restB := a[..0] + a[1..], b[..k] + b[k + 1..];
      SameRest(multiset(restA), multiset(restB), a[0]);
      PermutedIds(restA, restB);
    }
  }

  lemma SameRest<T>(a: multiset<T>, b: multiset<T>, x: T)
    requires a + multiset{x} == b + multiset{x}
    ensures a == b
  {
    assert a == (a + multiset{x}) - multiset{x};
    assert b == (b + multiset{x}) - multiset{x};
  }

  // A Judge may list its decisions in any order: the response is accepted or
  // rejected alike, and the same subscribers are chosen.
  lemma DecisionOrderIrrelevant(candidates: seq<Candidate>, a: seq<Decision>, b: seq<Decision>)
    requires multiset(a) == multiset(b)
    ensures WellFormed(candidates, a) <==> WellFormed(candidates, b)
    ensures forall id :: id in Chosen(a) <==> id in Chosen(b)
  {
    SameMultisetSameMembers(a, b);
    PermutedIds(a, b);
    NoDuplicatesByCount(DecisionIds(a));
    NoDuplicatesByCount(DecisionIds(b));
    assert forall i :: 0 <= i < |a| ==> a[i] in b;
    assert forall i :: 0 <= i < |b| ==> b[i] in a;
  }

  // ---- judge, judgeOnce ----

  datatype FailurePolicy = DeliverAll | DeliverNone

  /** What one call of the configured Candidates and Judge came back with. */
  datatype JudgeCall =
    | NotConfigured
    | CandidatesFailed
    | JudgeFailed(candidates: seq<Candidate>)
    | Answered(candidates: seq<Candidate>, decisions: seq<Decision>)

  // The outcome of a publish's routing decision, as the documentation of `judge`
  // words it: nil means route by exact topic, a list names the chosen.
  ghost predicate Accepted(call: JudgeCall) {
    call.Answered? && call.candidates != [] && WellFormed(call.candidates, call.decisions)
  }

  ghost predicate Failed(call: JudgeCall) {
    match call
    case NotConfigured => false
    case CandidatesFailed => true
    case JudgeFailed(candidates) => candidates != []
    case Answered(candidates, decisions) => candidates != [] && !WellFormed(candidates, decisions)
  }

  ghost function Verdict(call: JudgeCall, policy: FailurePolicy): Recipients {
    if Accepted(call) then List(Chosen(call.decisions))
    else if Failed(call) && policy == DeliverNone then List([])
    else Nil
  }

  method Judge(call: JudgeCall, policy: FailurePolicy) returns (recipients: Recipients)
    ensures recipients == Verdict(call, policy)
    ensures match call
            case NotConfigured => recipients == Nil
            case CandidatesFailed => recipients == if policy == DeliverNone then List([]) else Nil
            case JudgeFailed(candidates) =>
              recipients == if candidates != [] && policy == DeliverNone then List([]) else Nil
            case Answered(candidates, decisions) =>
              if candidates == [] then recipients == Nil
              else if IsSound(candidates, decisions) then recipients.List? && PicksDelivered(recipients.ids, decisions)
              else recipients == if policy == DeliverNone then List([]) else Nil
  {
    if call.Answered? {
      SoundIsWellFormed(call.candidates, call.decisions);
      ChosenInOrder(call.decisions);
    }
    if call.NotConfigured? {
      return Nil;
    }
    var r := JudgeOnce(call);
    if r.Ok? {
      return r.value;
    }
    if policy == DeliverNone {
      return List([]);
    }
    return Nil;
  }

  // Every decision names a candidate, and no two name the same.
  ghost predicate IsSound(candidates: seq<Candidate>, decisions: seq<Decision>) {
    && (forall i :: 0 <= i < |decisions| ==> exists k :: 0 <= k < |candidates| && candidates[k].id == decisions[i].id)
    && (forall i, j :: 0 <= i < j < |decisions| ==> decisions[i].id != decisions[j].id)
  }

  lemma KnownIds(candidates: seq<Candidate>, id: string)
    ensures id in CandidateIds(candidates) <==> exists k :: 0 <= k < |candidates| && candidates[k].id == id
  {
    if id in CandidateIds(candidates) {
      var c :| c in candidates && c.id == id;
      var k :| 0 <= k < |candidates| && candidates[k] == c;
    }
  }

  lemma SoundIsWellFormed(candidates: seq<Candidate>, decisions: seq<Decision>)
    ensures WellFormed(candidates, decisions) <==> IsSound(candidates, decisions)
  {
    forall i | 0 <= i < |decisions|
      ensures decisions[i].id in CandidateIds(candidates) <==>
              exists k :: 0 <= k < |candidates| && candidates[k].id == decisions[i].id
    {
      KnownIds(candidates, decisions[i].id);
    }
    var ids := DecisionIds(decisions);
    assert forall i :: 0 <= i < |decisions| ==> ids[i] == decisions[i].id;
    assert NoDuplicates(ids) <==> forall i, j :: 0 <= i < j < |decisions| ==> decisions[i].id != decisions[j].id by {
      if forall i, j :: 0 <= i < j < |decisions| ==> decisions[i].id != decisions[j].id {
        forall i, j | 0 <= i < j < |ids| ensures ids[i] != ids[j] {
          assert decisions[i].id != decisions[j].id;
        }
      } else {
        var i, j :| 0 <= i < j < |decisions| && decisions[i].id == decisions[j].id;
        assert ids[i] == ids[j];
      }
    }
  }

  function Delivers(decisions: seq<Decision>): seq<bool> {
    seq(|decisions|, i requires 0 <= i < |decisions| => decisions[i].deliver)
  }

  // The IDs of exactly the deliver decisions, in their order.
  ghost predicate PicksDelivered(ids: seq<string>, decisions: seq<Decision>) {
    exists at: seq<nat> :: Picks(ids, DecisionIds(decisions), at) && ExactlyAt(at, Delivers(decisions))
  }

  lemma {:induction false} ChosenIsFiltered(decisions: seq<Decision>)
    ensures Chosen(decisions) == Marked(DecisionIds(decisions), Delivers(decisions))
  {
    if decisions == [] {
    } else {
      var n := |decisions| - 1;
      ChosenIsFiltered(decisions[..n]);
      assert Delivers(decisions)[..n] == Delivers(decisions[..n]);
      assert DecisionIds(decisions)[..n] == DecisionIds(decisions[..n]);
    }
  }

  lemma ChosenInOrder(decisions: seq<Decision>)
    ensures PicksDelivered(Chosen(decisions), decisions)
  {
    ChosenIsFiltered(decisions);
    MarkedPicks(DecisionIds(decisions), Delivers(decisions));
    PlacesAreExact(Delivers(decisions));
  }

  method JudgeOnce(call: JudgeCall) returns (r: Result<Recipients>)
    requires !call.NotConfigured?
    ensures r.Err? <==> Failed(call)
    ensures r.Ok? ==> r.value == if Accepted(call) then List(Chosen(call.decisions)) else Nil
    ensures r.Err? <==>
            || call.CandidatesFailed?
            || (call.JudgeFailed? && call.candidates != [])
            || (call.Answered? && call.candidates != [] && !IsSound(call.candidates, call.decisions))
    ensures r.Ok? && (call.JudgeFailed? || call.candidates == []) ==> r.value == Nil
    ensures r.Ok? && call.Answered? && call.candidates != [] ==>
              r.value.List? && PicksDelivered(r.value.ids, call.decisions)
  {
    if call.Answered? {
      SoundIsWellFormed(call.candidates, call.decisions);
      ChosenInOrder(call.decisions);
    }
    if call.CandidatesFailed? {
      return Err("candidates");
    }
    if |call.candidates| == 0 {
      return Ok(Nil);
    }
    if call.JudgeFailed? {
      return Err("judge");
    }
    var resolved := Resolve(call.candidates, call.decisions);
    match resolved
    case Ok(ids) => return Ok(List(ids));
    case Err(e) => return Err(e);
  }

  // ---- The wire ----

  /** The `recipients` member of the announcement as JSON. */
  datatype Json = Missing | Null | Array(items: seq<string>)

  function Encode(r: Recipients): Json {
    match r
    case Nil => Null
    case List(ids) => Array(ids)
  }

  // What `omitempty` would have produced; the source rules it out.
  function EncodeOmitEmpty(r: Recipients): Json {
    if r.Nil? || r.ids == [] then Missing else Array(r.ids)
  }

  function Decode(j: Json): Recipients {
    match j
    case Missing => Nil
    case Null => Nil
    case Array(items) => List(items)
  }

  // nil, empty and non-empty survive the trip, so no two decisions are confused.
  // The omitempty encoding is faithful exactly on everything but the empty list,
  // which it would turn into "deliver to everybody".
  lemma WireKeepsRecipients(a: Recipients, b: Recipients)
    ensures Decode(Encode(a)) == a
    ensures Encode(a) == Encode(b) <==> a == b
    ensures Decode(EncodeOmitEmpty(a)) == a <==> a != List([])
    ensures a == List([]) ==> Decode(EncodeOmitEmpty(a)) == Nil
  {
  }

  // ---- allowedSubscriber ----

  predicate Allowed(recipients: Recipients, sub: Subscriber) {
    recipients.Nil? || sub.id.None? || sub.id.value in recipients.ids
  }
}

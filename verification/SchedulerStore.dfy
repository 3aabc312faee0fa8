/**
 The scheduler's code over one Redis: the functions of
 internal/redisx/scheduler_store.go and the tick of internal/scheduler/scheduler.go,
 with their loops, each with the function of the shared set that it computes. A tick
 without interference is proved to be a run of the state machine in module Scheduler
 (TickMeetsMachine), so what is proved there about all interleavings is about this code.
 */
module SchedulerStore {
  import opened Basics
  import opened Jobs
  import opened Scheduler
  import opened SchedulerTheorems
  import opened Sequences

  /** What processDue did with one due member. */
  datatype Outcome = DroppedMalformed | DroppedExpired | ClaimLost | AlreadyTaken | Ran(next: Option<Job>)

  // `order` lists the members of the set once each, as ZRANGE does.
  ghost predicate Lists(order: seq<Payload>, members: set<Payload>) {
    && (forall i, j :: 0 <= i < j < |order| ==> order[i] != order[j])
    && (forall p :: p in order <==> p in members)
  }

  // ---- What one tick does to the shared set, as a function ----

  /** The set, the claims and the members run so far. */
  datatype Shared = Shared(zset: map<Payload, int>, claims: set<string>, ran: seq<Payload>)

  function OutcomeOf(sh: Shared, d: Payload, now: int): Outcome
    requires IsTickTime(now)
  {
    if !HasJob(d) then DroppedMalformed
    else if Expired(d.job.value, now) then DroppedExpired
    else if d.job.value.jobId in sh.claims then ClaimLost
    else if d !in sh.zset then AlreadyTaken
    else Ran(NextRun(d.job.value, now))
  }

  // The next run of a job under its own new text, at its score.
  function WithNext(zset: map<Payload, int>, next: Option<Job>, atMs: int): map<Payload, int> {
    if next.Some? then zset[Stored(next.value.jobId, next) := atMs] else zset
  }

  function Processed(sh: Shared, d: Payload, now: int): Shared
    requires IsTickTime(now)
  {
    match OutcomeOf(sh, d, now)
    case DroppedMalformed => sh.(zset := sh.zset - {d})
    case DroppedExpired => sh.(zset := sh.zset - {d})
    case ClaimLost => sh
    case AlreadyTaken => sh.(claims := sh.claims + {d.job.value.jobId})
    case Ran(_) =>
      Shared(WithNext(sh.zset - {d}, NextRun(d.job.value, now), NextMs(d.job.value, now)),
             sh.claims + {d.job.value.jobId}, sh.ran + [d])
  }

  function ProcessedAll(sh: Shared, due: seq<Payload>, now: int): Shared
    requires IsTickTime(now)
  {
    if due == [] then sh else Processed(ProcessedAll(sh, due[..|due| - 1], now), due[|due| - 1], now)
  }

  // The due members that parse, in the order of the listing.
  function Listed(order: seq<Payload>, zset: map<Payload, int>, nowMs: int): seq<Payload> {
    if order == [] then []
    else
      var p := order[|order| - 1];
      var front := Listed(order[..|order| - 1], zset, nowMs);
      if p in zset && p.Stored? && Due(zset[p], nowMs) then front + [p] else front
  }

  // Several steps of the machine, one after another.
  function After(s: State, steps: seq<Step>): State {
    if steps == [] then s else Next(After(s, steps[..|steps| - 1]), steps[|steps| - 1])
  }

  lemma AfterOne(s: State, steps: seq<Step>, step: Step)
    ensures After(s, steps + [step]) == Next(After(s, steps), step)
  {
    assert (steps + [step])[..|steps|] == steps;
  }

  lemma {:induction false} AfterSteps(s: State, a: seq<Step>, b: seq<Step>)
    ensures After(s, a + b) == After(After(s, a), b)
    decreases |b|
  {
    if b == [] {
      assert a + b == a;
    } else {
      var front, step := b[..|b| - 1], b[|b| - 1];
      AfterSteps(s, a, front);
      AfterOne(s, a + front, step);
      AfterOne(After(s, a), front, step);
      assert b == front + [step] && a + b == a + front + [step];
    }
  }

  class Store {
    var zset: map<Payload, int>
    var claims: set<string>

    ghost function SharedNow(ran: seq<Payload>): Shared
      reads this
    {
      Shared(zset, claims, ran)
    }

    constructor ()
      ensures zset == map[] && claims == {}
    {
      zset, claims := map[], {};
    }

    method JobExistsScan(order: seq<Payload>, jobId: string) returns (found: bool)
      requires Lists(order, zset.Keys)
      ensures found <==> JobExists(zset, jobId)
      ensures found <==> exists p | p in zset.Keys :: p.Stored? && p.jobId == jobId
    {
      found := false;
      for i := 0 to |order|
        invariant forall k :: 0 <= k < i ==> !(order[k].Stored? && order[k].jobId == jobId)
      {
        if order[i].Stored? && order[i].jobId == jobId {
          assert order[i] in zset.Keys;
          return true;
        }
      }
    }

    // AddJob. None is a nil job. The two commands run back to back here.
    method AddJob(order: seq<Payload>, job: Option<Job>) returns (r: Result<()>)
      requires Lists(order, zset.Keys)
      modifies this`zset
      ensures r.Ok? <==>
              && job.Some? && job.value.jobId != "" && job.value.executeAt.Stamp?
              && !exists p | p in old(zset).Keys :: p.Stored? && p.jobId == job.value.jobId
      ensures zset == if r.Ok? then old(zset)[Stored(job.value.jobId, job) := job.value.executeAt.nanos / 1_000_000] else old(zset)
      ensures r.Ok? ==> JobExists(zset, job.value.jobId)
    {
      if job.None? || job.value.jobId == "" {
        return Err("job must have a jobId");
      }
      if job.value.executeAt.Garbage? {
        return Err("executeAt");
      }
      var exists_ := JobExistsScan(order, job.value.jobId);
      if exists_ {
        return Err("already exists in the scheduler");
      }
      var p := Stored(job.value.jobId, job);
      zset := zset[p := ScoreOf(job.value)];
      assert p in zset.Keys;
      return Ok(());
    }

    // RemoveJob takes out one member under the ID, the first in score order.
    method RemoveJob(order: seq<Payload>, jobId: string) returns (r: Result<Payload>)
      requires Lists(order, zset.Keys)
      modifies this`zset
      ensures r.Ok? <==> exists p | p in old(zset).Keys :: p.Stored? && p.jobId == jobId
      ensures r.Ok? ==> r.value in old(zset) && r.value.Stored? && r.value.jobId == jobId && zset == old(zset) - {r.value}
      ensures r.Ok? ==> exists i :: 0 <= i < |order| && order[i] == r.value && NoneUnder(order[..i], jobId)
      ensures r.Err? ==> zset == old(zset)
    {
      for i := 0 to |order|
        invariant zset == old(zset)
        invariant forall k :: 0 <= k < i ==> !(order[k].Stored? && order[k].jobId == jobId)
      {
        if order[i].Stored? && order[i].jobId == jobId {
          assert order[i] in zset.Keys;
          assert NoneUnder(order[..i], jobId);
          zset := zset - {order[i]};
          return Ok(order[i]);
        }
      }
      return Err("does not exist in the scheduler");
    }

    // ListDueJobs: exactly the due members that parse, in the order of the listing.
    method ListDueJobs(order: seq<Payload>, nowMs: int) returns (due: seq<Payload>)
      requires Lists(order, zset.Keys)
      ensures forall p :: p in due <==> p in zset && p.Stored? && 0 <= zset[p] <= nowMs
      ensures PickedFrom(due, order)
      ensures forall i, j :: 0 <= i < j < |due| ==> due[i] != due[j]
      ensures due == Listed(order, zset, nowMs)
    {
      due := [];
      for i := 0 to |order|
        invariant due == Listed(order[..i], zset, nowMs)
      {
        var p := order[i];
        assert p in order && p in zset;
        assert order[..i + 1][..i] == order[..i];
        if Due(zset[p], nowMs) && p.Stored? {
          due := due + [p];
        }
      }
      assert order[..|order|] == order;
      ListedMembers(order, zset, nowMs);
      ListedPicked(order, zset, nowMs);
    }

    method RemoveJobMember(p: Payload) returns (removed: bool)
      modifies this`zset
      ensures removed <==> p in old(zset)
      ensures zset == old(zset) - {p}
    {
      removed := p in zset;
      zset := zset - {p};
    }

    method ClaimJob(jobId: string) returns (won: bool)
      modifies this`claims
      ensures won <==> jobId !in old(claims)
      ensures claims == old(claims) + {jobId}
    {
      won := jobId !in claims;
      claims := claims + {jobId};
    }

    method AddRescheduledJob(job: Job, atMs: int)
      modifies this`zset
      ensures zset == old(zset)[Stored(job.jobId, Some(job)) := atMs]
    {
      zset := zset[Stored(job.jobId, Some(job)) := atMs];
    }

    method ProcessDue(d: Payload, now: int) returns (outcome: Outcome)
      requires IsTickTime(now) && d.Stored?
      modifies this
      ensures outcome == OutcomeOf(old(SharedNow([])), d, now)
      ensures SharedNow(if outcome.Ran? then [d] else []) == Processed(old(SharedNow([])), d, now)
      ensures outcome == DroppedMalformed <==> d.job.None?
      ensures outcome == DroppedExpired <==> d.job.Some? && EndsBefore(d.job.value, now)
      ensures outcome.Ran? <==>
                d.job.Some? && !EndsBefore(d.job.value, now) && d.job.value.jobId !in old(claims) && d in old(zset)
      ensures outcome == DroppedMalformed || outcome == DroppedExpired ==> zset == old(zset) - {d} && claims == old(claims)
      ensures outcome == ClaimLost ==> zset == old(zset) && claims == old(claims) && d.job.value.jobId in claims
      ensures outcome == AlreadyTaken ==> zset == old(zset) && claims == old(claims) + {d.job.value.jobId}
      ensures outcome.Ran? ==>
                var job := d.job.value;
                var at := SumMs(job, now);
                && claims == old(claims) + {job.jobId}
                && zset == if job.interval > 0 && !EndsBeforeMs(job, at)
                           then (old(zset) - {d})[Stored(job.jobId, Some(job.(executeAt := Stamp(at * 1_000_000, "RFC3339Nano")))) := at]
                           else old(zset) - {d}
    {
      if d.job.Some? {
        ExpiredIff(d.job.value, now);
        NextRunIff(d.job.value, now);
        if d.job.value.interval > 0 {
          SumMsIsNextMs(d.job.value, now);
        }
      }
      if d.job.None? {
        var _ := RemoveJobMember(d);
        return DroppedMalformed;
      }
      var job := d.job.value;
      if Expired(job, now) {
        var _ := RemoveJobMember(d);
        return DroppedExpired;
      }
      var won := ClaimJob(job.jobId);
      if !won {
        assert claims == old(claims);
        return ClaimLost;
      }
      var removed := RemoveJobMember(d);
      if !removed {
        assert zset == old(zset);
        return AlreadyTaken;
      }
      var next := NextRun(job, now);
      if next.Some? {
        AddRescheduledJob(next.value, NextMs(job, now));
      }
      return Ran(next);
    }

    // tick: list, then process each listed member in turn.
    method Tick(order: seq<Payload>, now: int) returns (ran: seq<Payload>)
      requires Lists(order, zset.Keys) && IsTickTime(now)
      modifies this
      ensures SharedNow(ran) == ProcessedAll(old(SharedNow([])), Listed(order, old(zset), Millis(now)), now)
      ensures PickedFrom(ran, order)
    {
      var due := ListDueJobs(order, Millis(now));
      ran := [];
      for i := 0 to |due|
        invariant SharedNow(ran) == ProcessedAll(old(SharedNow([])), due[..i], now)
      {
        assert due[i] in due;
        ghost var sh := SharedNow(ran);
        RanIsLogged(sh, due[i], now);
        var outcome := ProcessDue(due[i], now);
        if outcome.Ran? {
          ran := ran + [due[i]];
        }
        assert SharedNow(ran) == Processed(sh, due[i], now);
        ProcessedOneMore(old(SharedNow([])), due, i, now);
      }
      assert due[..|due|] == due;
      RanPicked(old(SharedNow([])), due, now);
      PickOfPicked(ran, due, order);
    }
  }

  lemma {:induction false} ListedMembers(order: seq<Payload>, zset: map<Payload, int>, nowMs: int)
    requires forall i, j :: 0 <= i < j < |order| ==> order[i] != order[j]
    ensures var due := Listed(order, zset, nowMs);
            && (forall p :: p in due <==> p in order && p in zset && p.Stored? && Due(zset[p], nowMs))
            && (forall i, j :: 0 <= i < j < |due| ==> due[i] != due[j])
  {
    if order == [] {
      assert Listed(order, zset, nowMs) == [];
    } else {
      var front, last := order[..|order| - 1], order[|order| - 1];
      ListedMembers(front, zset, nowMs);
      assert order == front + [last];
      assert last !in front;
    }
  }

  lemma {:induction false} ListedPicked(order: seq<Payload>, zset: map<Payload, int>, nowMs: int)
    ensures PickedFrom(Listed(order, zset, nowMs), order)
  {
    if order == [] {
      PickNone(order);
    } else {
      var front, last := order[..|order| - 1], order[|order| - 1];
      ListedPicked(front, zset, nowMs);
      PickBoth(Listed(front, zset, nowMs), front, last);
      assert order == front + [last];
    }
  }

  // The members that a tick runs are run in the order in which they are listed.
  lemma {:induction false} RanPicked(sh: Shared, due: seq<Payload>, now: int)
    requires IsTickTime(now) && sh.ran == []
    ensures PickedFrom(ProcessedAll(sh, due, now).ran, due)
  {
    if due == [] {
      PickNone(due);
    } else {
      var front, last := due[..|due| - 1], due[|due| - 1];
      var before := ProcessedAll(sh, front, now);
      RanPicked(sh, front, now);
      RanIsLogged(before, last, now);
      PickBoth(before.ran, front, last);
      assert due == front + [last];
    }
  }

  ghost predicate NoneUnder(members: seq<Payload>, jobId: string) {
    forall k :: 0 <= k < |members| ==> !(members[k].Stored? && members[k].jobId == jobId)
  }

  lemma ProcessedOneMore(sh: Shared, due: seq<Payload>, i: nat, now: int)
    requires IsTickTime(now) && i < |due|
    ensures ProcessedAll(sh, due[..i + 1], now) == Processed(ProcessedAll(sh, due[..i], now), due[i], now)
  {
    assert due[..i + 1][..i] == due[..i];
  }

  // Processing looks at the set and the claims only; a run adds to the record.
  lemma RanIsLogged(sh: Shared, d: Payload, now: int)
    requires IsTickTime(now)
    ensures var bare := sh.(ran := []);
            && OutcomeOf(sh, d, now) == OutcomeOf(bare, d, now)
            && Processed(sh, d, now) ==
               Processed(bare, d, now).(ran := if OutcomeOf(bare, d, now).Ran? then sh.ran + [d] else sh.ran)
            && Processed(bare, d, now).ran == if OutcomeOf(bare, d, now).Ran? then [d] else []
  {
  }

  lemma OneMoreMember(fired: seq<Fire>, f: Fire)
    ensures Members(fired + [f]) == Members(fired) + [f.member]
  {
  }

  lemma TickStarts(s: State, inst: nat, now: int, due: seq<Payload>)
    requires JobInv(s) && WorkOf(s, inst) == Resting && IsTickTime(now) && IsDueList(s.zset, now, due)
    ensures var s' := After(s, [Scheduler.Step.Tick(inst, now, due)]);
            && JobInv(s') && s'.zset == s.zset && s'.claims == s.claims && s'.fired == s.fired
            && WorkOf(s', inst) == Working(now, due, Pick)
  {
    AfterJust(s, Scheduler.Step.Tick(inst, now, due));
    InstMoves(s, Scheduler.Step.Tick(inst, now, due), inst);
  }

  // ---- The machine's side of processDue ----

  // The instance is about to look at `d`.
  ghost predicate Picks(s: State, inst: nat, d: Payload, now: int) {
    && JobInv(s) && IsTickTime(now) && d.Stored?
    && WorkOf(s, inst).Working? && WorkOf(s, inst).now == now && WorkOf(s, inst).stage == Pick
    && WorkOf(s, inst).due != [] && WorkOf(s, inst).due[0] == d
  }

  // It has dealt with it, leaving the set, the claims and the log like this.
  ghost predicate Dealt(s: State, s': State, inst: nat, zset: map<Payload, int>, claims: set<string>, fired: seq<Fire>)
    requires WorkOf(s, inst).Working? && WorkOf(s, inst).due != []
  {
    && JobInv(s') && s'.zset == zset && s'.claims == claims && s'.fired == fired
    && WorkOf(s', inst) == Skipped(WorkOf(s, inst))
  }

  lemma AfterJust(s: State, a: Step)
    ensures After(s, [a]) == Next(s, a)
  {
    AfterOne(s, [], a);
    assert [] + [a] == [a];
  }

  lemma AfterTwo(s: State, a: Step, b: Step)
    ensures After(s, [a, b]) == Next(Next(s, a), b)
  {
    AfterJust(s, a);
    AfterOne(s, [a], b);
    assert [a] + [b] == [a, b];
  }

  lemma MachineDrops(s: State, inst: nat, step: Step)
    requires WorkOf(s, inst).Working? && WorkOf(s, inst).due != []
    requires Picks(s, inst, WorkOf(s, inst).due[0], WorkOf(s, inst).now)
    requires var d := WorkOf(s, inst).due[0];
             || (step == DropMalformed(inst) && d.job.None?)
             || (step == DropExpired(inst) && HasJob(d) && Expired(d.job.value, WorkOf(s, inst).now))
    ensures Dealt(s, After(s, [step]), inst, s.zset - {WorkOf(s, inst).due[0]}, s.claims, s.fired)
  {
    var d := WorkOf(s, inst).due[0];
    var bucket := if d.job.None? then ToMalformed else ToExpired;
    AfterJust(s, step);
    InstDrops(s, step, inst);
    assert Next(s, step) == With(Removed(s, d, bucket), inst, Skipped(WorkOf(s, inst)));
    assert d !in s.zset ==> s.zset - {d} == s.zset;
  }

  ghost predicate PicksLive(s: State, inst: nat) {
    && WorkOf(s, inst).Working? && WorkOf(s, inst).due != []
    && var d := WorkOf(s, inst).due[0];
       Picks(s, inst, d, WorkOf(s, inst).now) && HasJob(d) && !Expired(d.job.value, WorkOf(s, inst).now)
  }

  lemma MachineLoses(s: State, inst: nat)
    requires PicksLive(s, inst) && WorkOf(s, inst).due[0].job.value.jobId in s.claims
    ensures Dealt(s, After(s, [Claim(inst)]), inst, s.zset, s.claims, s.fired)
  {
    AfterJust(s, Claim(inst));
    InstMoves(s, Claim(inst), inst);
  }

  lemma MachineClaims(s: State, inst: nat)
    requires PicksLive(s, inst) && WorkOf(s, inst).due[0].job.value.jobId !in s.claims
    ensures var s1, w := Next(s, Claim(inst)), WorkOf(s, inst);
            && JobInv(s1)
            && s1 == With(s, inst, w.(stage := Claimed)).(claims := s.claims + {w.due[0].job.value.jobId})
  {
    InstMoves(s, Claim(inst), inst);
  }

  lemma MachineSkips(s: State, inst: nat)
    requires JobInv(s) && WorkOf(s, inst).Working? && WorkOf(s, inst).stage == Claimed
    requires WorkOf(s, inst).due[0] !in s.zset
    ensures Next(s, Take(inst)) == With(s, inst, Skipped(WorkOf(s, inst)))
    ensures JobInv(Next(s, Take(inst)))
  {
    TakeIs(s, inst);
    KeepSkipped(s, inst);
  }

  lemma MachineMisses(s: State, inst: nat)
    requires PicksLive(s, inst) && WorkOf(s, inst).due[0].job.value.jobId !in s.claims
    requires WorkOf(s, inst).due[0] !in s.zset
    ensures Dealt(s, After(s, [Claim(inst), Take(inst)]), inst, s.zset,
                  s.claims + {WorkOf(s, inst).due[0].job.value.jobId}, s.fired)
  {
    AfterTwo(s, Claim(inst), Take(inst));
    MachineClaims(s, inst);
    MachineSkips(Next(s, Claim(inst)), inst);
  }

  lemma MachineTakes(s: State, inst: nat)
    requires JobInv(s) && WorkOf(s, inst).Working? && WorkOf(s, inst).stage == Claimed
    requires WorkOf(s, inst).due[0] in s.zset
    ensures WorkOf(s, inst).due[0] in s.origin
    ensures Next(s, Take(inst)) == StartRun(s, inst, WorkOf(s, inst).due[0])
    ensures JobInv(Next(s, Take(inst)))
  {
    TakeIs(s, inst);
    KeepStartRun(s, inst, WorkOf(s, inst).due[0]);
  }

  lemma MachineFinishes(s: State, inst: nat)
    requires JobInv(s) && WorkOf(s, inst).Working? && WorkOf(s, inst).stage.Running?
    ensures var w := WorkOf(s, inst);
            var next := NextRun(w.due[0].job.value, w.now);
            Dealt(s, Next(s, Reschedule(inst)), inst,
                  WithNext(s.zset, next, NextMs(w.due[0].job.value, w.now)),
                  s.claims, s.fired)
  {
    InstRuns(s, Reschedule(inst), inst);
    var w := WorkOf(s, inst);
    assert Next(s, Reschedule(inst)) == FinishRun(s, inst, w.due[0].job.value, w.now, w.stage.token);
    FinishRunShape(s, inst, w.due[0].job.value, w.now, w.stage.token);
  }

  lemma FinishRunShape(s: State, inst: nat, job: Job, now: int, token: nat)
    requires IsTickTime(now) && WorkOf(s, inst).Working? && WorkOf(s, inst).due != []
    ensures var s', next := FinishRun(s, inst, job, now, token), NextRun(job, now);
            && s'.zset == WithNext(s.zset, next, NextMs(job, now))
            && s'.claims == s.claims && s'.fired == s.fired && WorkOf(s', inst) == Skipped(WorkOf(s, inst))
  {
  }

  lemma MachineRuns(s: State, inst: nat)
    requires PicksLive(s, inst) && WorkOf(s, inst).due[0].job.value.jobId !in s.claims
    requires WorkOf(s, inst).due[0] in s.zset
    ensures var d, now := WorkOf(s, inst).due[0], WorkOf(s, inst).now;
            var next := NextRun(d.job.value, now);
            && d in s.origin
            && Dealt(s, After(s, [Claim(inst), Take(inst), Reschedule(inst)]), inst,
                     WithNext(s.zset - {d}, next, NextMs(d.job.value, now)),
                     s.claims + {d.job.value.jobId}, s.fired + [Fire(d, now, s.origin[d])])
  {
    AfterTwo(s, Claim(inst), Take(inst));
    AfterOne(s, [Claim(inst), Take(inst)], Reschedule(inst));
    assert [Claim(inst), Take(inst)] + [Reschedule(inst)] == [Claim(inst), Take(inst), Reschedule(inst)];
    MachineClaims(s, inst);
    var s1 := Next(s, Claim(inst));
    MachineTakes(s1, inst);
    MachineFinishes(Next(s1, Take(inst)), inst);
  }

  // The machine's steps behind each outcome.
  function StepsOf(outcome: Outcome, inst: nat): seq<Step> {
    match outcome
    case DroppedMalformed => [DropMalformed(inst)]
    case DroppedExpired => [DropExpired(inst)]
    case ClaimLost => [Claim(inst)]
    case AlreadyTaken => [Claim(inst), Take(inst)]
    case Ran(_) => [Claim(inst), Take(inst), Reschedule(inst)]
  }

  function SharedOf(s: State): Shared {
    Shared(s.zset, s.claims, Members(s.fired))
  }

  // processDue is a run of the machine, which then does to the shared set, the
  // claims and the log of runs exactly what the code does.
  lemma ProcessDueIsARun(s: State, inst: nat, d: Payload, now: int)
    requires Picks(s, inst, d, now)
    ensures var s' := After(s, StepsOf(OutcomeOf(SharedOf(s), d, now), inst));
            && JobInv(s') && SharedOf(s') == Processed(SharedOf(s), d, now)
            && WorkOf(s', inst) == Skipped(WorkOf(s, inst))
  {
    match OutcomeOf(SharedOf(s), d, now)
    case DroppedMalformed => MachineDrops(s, inst, DropMalformed(inst));
    case DroppedExpired => MachineDrops(s, inst, DropExpired(inst));
    case ClaimLost => MachineLoses(s, inst);
    case AlreadyTaken => MachineMisses(s, inst);
    case Ran(_) =>
      MachineRuns(s, inst);
      OneMoreMember(s.fired, Fire(d, now, s.origin[d]));
  }

  // So is a whole tick, from any state that some run reaches: what is proved about
  // all interleavings is about this code.
  lemma {:induction false} TickIsARun(s: State, inst: nat, due: seq<Payload>, n: nat, now: int) returns (steps: seq<Step>)
    requires JobInv(s) && WorkOf(s, inst) == Resting && IsTickTime(now) && IsDueList(s.zset, now, due) && n <= |due|
    ensures var s' := After(s, steps);
            && JobInv(s') && SharedOf(s') == ProcessedAll(SharedOf(s), due[..n], now)
            && WorkOf(s', inst) == Working(now, due[n..], Pick)
    decreases n
  {
    if n == 0 {
      steps := [Scheduler.Step.Tick(inst, now, due)];
      TickStarts(s, inst, now, due);
      assert due[0..] == due;
    } else {
      steps := TickIsARun(s, inst, due, n - 1, now);
      var s1, d := After(s, steps), due[n - 1];
      assert due[n - 1..][0] == d && due[n - 1..][1..] == due[n..];
      ProcessDueIsARun(s1, inst, d, now);
      var more := StepsOf(OutcomeOf(SharedOf(s1), d, now), inst);
      AfterSteps(s, steps, more);
      assert due[..n][..n - 1] == due[..n - 1];
      steps := steps + more;
    }
  }

  lemma {:induction false} ListedIsDueList(order: seq<Payload>, zset: map<Payload, int>, now: int)
    ensures IsDueList(zset, now, Listed(order, zset, Millis(now)))
  {
    if order == [] {
      assert Listed(order, zset, Millis(now)) == [];
    } else {
      ListedIsDueList(order[..|order| - 1], zset, now);
    }
  }

  // What ran before makes no difference to a tick, and stays in the record.
  lemma {:induction false} RanComesFirst(sh: Shared, due: seq<Payload>, now: int)
    requires IsTickTime(now)
    ensures var alone := ProcessedAll(sh.(ran := []), due, now);
            ProcessedAll(sh, due, now) == alone.(ran := sh.ran + alone.ran)
  {
    if due == [] {
      assert sh.ran + [] == sh.ran;
    } else {
      var front, d := due[..|due| - 1], due[|due| - 1];
      RanComesFirst(sh, front, now);
      var with, alone := ProcessedAll(sh, front, now), ProcessedAll(sh.(ran := []), front, now);
      RanIsLogged(with, d, now);
      RanIsLogged(alone, d, now);
      assert sh.ran + (alone.ran + [d]) == (sh.ran + alone.ran) + [d];
    }
  }

  // What Tick is proved to do to the set and the claims, and the members it is
  // proved to run, are what some run of the machine does and runs, from every state
  // the invariant allows and for every order of the listing.
  lemma TickMeetsMachine(s: State, inst: nat, order: seq<Payload>, now: int) returns (steps: seq<Step>)
    requires JobInv(s) && WorkOf(s, inst) == Resting && IsTickTime(now)
    ensures var s' := After(s, steps);
            var tick := ProcessedAll(Shared(s.zset, s.claims, []), Listed(order, s.zset, Millis(now)), now);
            && JobInv(s') && s'.zset == tick.zset && s'.claims == tick.claims
            && Members(s'.fired) == Members(s.fired) + tick.ran
            && WorkOf(s', inst) == Working(now, [], Pick)
  {
    var due := Listed(order, s.zset, Millis(now));
    ListedIsDueList(order, s.zset, now);
    steps := TickIsARun(s, inst, due, |due|, now);
    assert due[..|due|] == due && due[|due|..] == [];
    RanComesFirst(SharedOf(s), due, now);
  }

  // ---- Intervals shorter than a claim ----

  // A due member that is still there is run exactly if no claim on its ID is in force;
  // if one is, the set, the claims and the runs stay as they are.
  lemma RunsIffUnclaimed(s: State, inst: nat)
    requires PicksLive(s, inst) && WorkOf(s, inst).due[0] in s.zset
    ensures var d, now := WorkOf(s, inst).due[0], WorkOf(s, inst).now;
            var s' := After(s, StepsOf(OutcomeOf(SharedOf(s), d, now), inst));
            && (Members(s'.fired) == Members(s.fired) + [d] <==> d.job.value.jobId !in s.claims)
            && (d.job.value.jobId in s.claims ==> SharedOf(s') == SharedOf(s))
  {
    var d, now := WorkOf(s, inst).due[0], WorkOf(s, inst).now;
    ProcessDueIsARun(s, inst, d, now);
    ProcessedRunsIff(SharedOf(s), d, now);
  }

  lemma ProcessedRunsIff(sh: Shared, d: Payload, now: int)
    requires IsTickTime(now) && HasJob(d) && !Expired(d.job.value, now) && d in sh.zset
    ensures Processed(sh, d, now).ran == sh.ran + [d] <==> d.job.value.jobId !in sh.claims
    ensures d.job.value.jobId in sh.claims ==> Processed(sh, d, now) == sh
  {
    assert |sh.ran + [d]| != |sh.ran|;
  }

  lemma TickOfOne(zset: map<Payload, int>, claims: set<string>, p: Payload, now: int)
    requires zset.Keys == {p} && p.Stored? && Due(zset[p], Millis(now)) && IsTickTime(now)
    ensures ProcessedAll(Shared(zset, claims, []), Listed([p], zset, Millis(now)), now) ==
            Processed(Shared(zset, claims, []), p, now)
  {
    assert p in zset.Keys;
    assert [p][..0] == [] && [] + [p] == [p];
    assert Listed([p], zset, Millis(now)) == [p];
  }

  // The conditions under which two ticks find a recurring job due.
  ghost predicate DueTwice(job: Job, now: int, later: int) {
    && Schedulable(job) && IsTickTime(now) && IsTickTime(later)
    && Due(ScoreOf(job), Millis(now)) && !Expired(job, now) && !Expired(job, later)
    && NextRun(job, now).Some? && 0 <= NextMs(job, now) <= Millis(later)
  }

  function Pending(job: Job): Payload {
    Stored(job.jobId, Some(job))
  }

  lemma FirstTickRuns(job: Job, claims: set<string>, now: int, later: int)
    requires DueTwice(job, now, later) && job.jobId !in claims
    ensures var p, zset := Pending(job), map[Pending(job) := ScoreOf(job)];
            ProcessedAll(Shared(zset, claims, []), Listed([p], zset, Millis(now)), now) ==
            Shared(map[Pending(NextRun(job, now).value) := NextMs(job, now)], claims + {job.jobId}, [p])
  {
    var p, zset := Pending(job), map[Pending(job) := ScoreOf(job)];
    TickOfOne(zset, claims, p, now);
    assert zset - {p} == map[] && [] + [p] == [p];
  }

  lemma SecondTickLeaves(job: Job, claims: set<string>, now: int, later: int)
    requires DueTwice(job, now, later) && job.jobId in claims
    ensures var q := Pending(NextRun(job, now).value);
            var zset := map[q := NextMs(job, now)];
            && Listed([q], zset, Millis(later)) == [q]
            && ProcessedAll(Shared(zset, claims, []), [q], later) == Shared(zset, claims, [])
  {
    var q := Pending(NextRun(job, now).value);
    var zset := map[q := NextMs(job, now)];
    TickOfOne(zset, claims, q, later);
    assert [q][..0] == [] && [] + [q] == [q];
    assert OutcomeOf(Shared(zset, claims, []), q, later) == ClaimLost;
  }

  // What two ticks do to a recurring job, its claim still in force at the second: the
  // first runs it and adds the next run; the second lists that one, for it is due, and
  // leaves it.
  lemma SecondTickLoses(job: Job, claims: set<string>, now: int, later: int)
    requires DueTwice(job, now, later) && job.jobId !in claims
    ensures var p, q := Pending(job), Pending(NextRun(job, now).value);
            var zset := map[p := ScoreOf(job)];
            var first := ProcessedAll(Shared(zset, claims, []), Listed([p], zset, Millis(now)), now);
            && first == Shared(map[q := NextMs(job, now)], claims + {job.jobId}, [p])
            && Listed([q], first.zset, Millis(later)) == [q]
            && ProcessedAll(Shared(first.zset, first.claims, []), [q], later) == Shared(first.zset, first.claims, [])
  {
    FirstTickRuns(job, claims, now, later);
    SecondTickLeaves(job, claims + {job.jobId}, now, later);
  }

  // "interval: repeat interval in ms" is not kept by any job whose next run falls due
  // while the claim of the last one lasts: for every such job, and every state in which
  // it is the only member, there is a run in which two ticks find it due and run it once.
  lemma IntervalIsMissed(s: State, inst: nat, job: Job, now: int, later: int) returns (steps: seq<Step>)
    requires JobInv(s) && WorkOf(s, inst) == Resting
    requires DueTwice(job, now, later) && s.zset == map[Pending(job) := ScoreOf(job)] && job.jobId !in s.claims
    ensures Members(After(s, steps).fired) == Members(s.fired) + [Pending(job)]
    ensures After(s, steps).zset == map[Pending(NextRun(job, now).value) := NextMs(job, now)]
    ensures job.jobId in After(s, steps).claims
  {
    var p, q := Pending(job), Pending(NextRun(job, now).value);
    SecondTickLoses(job, s.claims, now, later);
    var first := TickMeetsMachine(s, inst, [p], now);
    var s1 := After(s, first);
    InstMoves(s1, Rest(inst), inst);
    var s2 := Next(s1, Rest(inst));
    AfterOne(s, first, Rest(inst));
    var second := TickMeetsMachine(s2, inst, [q], later);
    AfterSteps(s, first + [Rest(inst)], second);
    steps := first + [Rest(inst)] + second;
    assert Members(s.fired) + [p] + [] == Members(s.fired) + [p];
  }
}

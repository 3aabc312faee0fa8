/**
 How a job gets lost: exactly which steps take a lineage's place away, and that a
 crash does so for good.
 */
module SchedulerLosses {
  import opened Basics
  import opened Jobs
  import opened Scheduler
  import opened SchedulerTheorems

  // ---- How a job is lost ----

  // The step takes the lineage's only place away.
  predicate Loses(s: State, step: Step, token: nat) {
    match step
    case RemoveZrem(u) =>
      u in s.users && s.users[u].Removing? && s.users[u].member in s.origin && s.origin[s.users[u].member] == token
    case DropExpired(inst) =>
      && WorkOf(s, inst).Working? && WorkOf(s, inst).due != [] && WorkOf(s, inst).stage == Pick
      && var d := WorkOf(s, inst).due[0];
         HasJob(d) && EndsBefore(d.job.value, WorkOf(s, inst).now) && d in s.origin && s.origin[d] == token
    case Rest(inst) => RunsToken(s, inst, token)
    case GiveUp(inst) => RunsToken(s, inst, token)
    case Reschedule(inst) =>
      && RunsToken(s, inst, token) && WorkOf(s, inst).due != [] && HasJob(WorkOf(s, inst).due[0]) && IsTickTime(WorkOf(s, inst).now)
      && var job := WorkOf(s, inst).due[0].job.value;
         var at := SumMs(job, WorkOf(s, inst).now);
         || job.interval <= 0
         || EndsBeforeMs(job, at)
         || Stored(job.jobId, Some(job.(executeAt := Stamp(at * 1_000_000, "RFC3339Nano")))) in s.zset
    case _ => false
  }

  predicate RunsToken(s: State, inst: nat, token: nat) {
    WorkOf(s, inst).Working? && WorkOf(s, inst).stage == Running(token)
  }

  // Pending and running members belong to lineages as before.
  lemma SamePlaces(s: State, s': State, token: nat)
    requires s'.origin == s.origin && s'.insts == s.insts
    ensures Free(s', token) <==> Free(s, token)
  {
    assert forall i: nat :: IsRunning(s', i, token) <==> IsRunning(s, i, token);
  }

  lemma RemovedPlaces(s: State, p: Payload, bucket: Bucket, token: nat)
    requires TokenInv(s)
    ensures Free(Removed(s, p, bucket), token) <==> Free(s, token) || (p in s.origin && s.origin[p] == token)
  {
    var s' := Removed(s, p, bucket);
    assert forall i: nat :: IsRunning(s', i, token) <==> IsRunning(s, i, token);
    assert p in s.zset ==> forall q :: q in s'.origin <==> q in s.origin && q != p;
  }

  // An instance that starts no run gives up the one it had.
  lemma WithPlaces(s: State, inst: nat, w: Work, token: nat)
    requires TokenInv(s) && !(w.Working? && w.stage.Running?)
    ensures Free(With(s, inst, w), token) <==> Free(s, token) || IsRunning(s, inst, token)
  {
    var s' := With(s, inst, w);
    assert forall i: nat :: IsRunning(s', i, token) <==> i != inst && IsRunning(s, i, token);
  }

  lemma StartPlaces(s: State, inst: nat, d: Payload, token: nat)
    requires TokenInv(s) && WorkOf(s, inst).Working? && WorkOf(s, inst).stage == Claimed && d in s.origin
    ensures Free(StartRun(s, inst, d), token) <==> Free(s, token)
  {
    var s', t := StartRun(s, inst, d), s.origin[d];
    assert IsRunning(s', inst, t);
    assert forall i: nat :: i != inst ==> (IsRunning(s', i, token) <==> IsRunning(s, i, token));
    if token == t {
      assert s.origin[d] == token;
    } else {
      assert forall i: nat :: IsRunning(s', i, token) <==> IsRunning(s, i, token);
      assert forall q :: q in s.origin && s.origin[q] == token ==> q in s'.origin && s'.origin[q] == token;
    }
  }

  lemma RescheduledPlaces(s: State, job: Job, atMs: int, own: nat, token: nat)
    requires TokenInv(s)
    ensures Free(Rescheduled(s, job, atMs, own), token) <==>
            Free(s, token) && (token == own ==> Stored(job.jobId, Some(job)) in s.zset)
  {
    var p, s' := Stored(job.jobId, Some(job)), Rescheduled(s, job, atMs, own);
    assert forall i: nat :: IsRunning(s', i, token) <==> IsRunning(s, i, token);
    if p !in s.zset {
      assert p !in s.origin;
      assert forall q :: q in s'.origin <==> q in s.origin || q == p;
    }
  }

  lemma FinishPlaces(s: State, inst: nat, own: nat, token: nat)
    requires JobInv(s) && IsRunning(s, inst, own) && WorkOf(s, inst).due != []
    requires HasJob(WorkOf(s, inst).due[0]) && IsTickTime(WorkOf(s, inst).now)
    ensures var w := WorkOf(s, inst);
            Free(FinishRun(s, inst, w.due[0].job.value, w.now, own), token) <==>
            Free(s, token) || (token == own && Loses(s, Reschedule(inst), token))
  {
    var w := WorkOf(s, inst);
    var next := NextRun(w.due[0].job.value, w.now);
    NextRunIff(w.due[0].job.value, w.now);
    KeepSkipped(s, inst);
    WithPlaces(s, inst, Skipped(w), token);
    if next.Some? {
      RescheduledPlaces(With(s, inst, Skipped(w)), next.value, NextMs(w.due[0].job.value, w.now), own, token);
    }
  }

  lemma InsertedPlaces(s: State, job: Job, token: nat)
    requires JobInv(s) && Schedulable(job) && token < |s.lineages|
    ensures Free(UserInserted(s, job), token) <==> Free(s, token)
  {
    var p, s' := Stored(job.jobId, Some(job)), UserInserted(s, job);
    assert forall i: nat :: IsRunning(s', i, token) <==> IsRunning(s, i, token);
    if p !in s.zset {
      assert p !in s.origin;
      assert forall q :: q in s'.origin <==> q in s.origin || q == p;
    }
  }

  lemma AddInsertPlaces(s: State, u: nat, token: nat)
    requires JobInv(s) && token < |s.lineages|
    ensures Free(UserNext(s, AddInsert(u)), token) <==> Free(s, token)
  {
    if u in s.users && s.users[u].Adding? && Schedulable(s.users[u].job) {
      InsertedPlaces(s, s.users[u].job, token);
      SamePlaces(UserInserted(s, s.users[u].job), UserNext(s, AddInsert(u)), token);
    }
  }

  lemma RemoveZremPlaces(s: State, u: nat, token: nat)
    requires TokenInv(s)
    ensures Free(UserNext(s, RemoveZrem(u)), token) <==> Free(s, token) || Loses(s, RemoveZrem(u), token)
  {
    if u in s.users && s.users[u].Removing? {
      RemovedPlaces(s, s.users[u].member, ToByUser, token);
      SamePlaces(Removed(s, s.users[u].member, ToByUser), UserNext(s, RemoveZrem(u)), token);
    }
  }

  lemma UserPlaces(s: State, step: Step, token: nat)
    requires JobInv(s) && !IsInstStep(step) && token < |s.lineages|
    ensures Free(UserNext(s, step), token) <==> Free(s, token) || Loses(s, step, token)
  {
    match step
    case AddInsert(u) => AddInsertPlaces(s, u, token);
    case RemoveZrem(u) => RemoveZremPlaces(s, u, token);
    case _ => SamePlaces(s, UserNext(s, step), token);
  }

  lemma DropPlaces(s: State, step: Step, inst: nat, token: nat)
    requires JobInv(s) && (step == DropMalformed(inst) || step == DropExpired(inst))
    ensures Free(InstNext(s, step, inst), token) <==> Free(s, token) || Loses(s, step, token)
  {
    var w := WorkOf(s, inst);
    if w.Working? && w.due != [] {
      assert WorkOk(w);
      if HasJob(w.due[0]) {
        ExpiredIff(w.due[0].job.value, w.now);
      }
      var d, bucket := w.due[0], if step.DropMalformed? then ToMalformed else ToExpired;
      if w.stage == Pick && (if step.DropMalformed? then d.Stored? && d.job.None? else HasJob(d) && Expired(d.job.value, w.now)) {
        KeepRemoved(s, d, bucket);
        RemovedPlaces(s, d, bucket, token);
        WithPlaces(Removed(s, d, bucket), inst, Skipped(w), token);
        assert !IsRunning(Removed(s, d, bucket), inst, token);
      }
    }
  }

  lemma TakePlaces(s: State, inst: nat, token: nat)
    requires JobInv(s)
    ensures Free(InstNext(s, Take(inst), inst), token) <==> Free(s, token)
  {
    var w := WorkOf(s, inst);
    if w.Working? && w.stage == Claimed {
      TakeIs(s, inst);
      if w.due[0] in s.origin {
        StartPlaces(s, inst, w.due[0], token);
      } else {
        WithPlaces(s, inst, Skipped(w), token);
        assert !IsRunning(s, inst, token);
      }
    }
  }

  lemma MovePlaces(s: State, step: Step, inst: nat, token: nat)
    requires JobInv(s) && IsInstStep(step) && step.inst == inst
    requires step.Tick? || step.Rest? || step.GiveUp? || step.Claim?
    ensures Free(InstNext(s, step, inst), token) <==> Free(s, token) || Loses(s, step, token)
  {
    match step
    case Tick(_, now, due) =>
      if InstNext(s, step, inst) != s {
        WithPlaces(s, inst, Working(now, due, Pick), token);
      }
    case Rest(_) => WithPlaces(s, inst, Resting, token);
    case GiveUp(_) => GiveUpPlaces(s, inst, token);
    case Claim(_) => ClaimPlaces(s, inst, token);
  }

  lemma GiveUpPlaces(s: State, inst: nat, token: nat)
    requires JobInv(s)
    ensures Free(InstNext(s, GiveUp(inst), inst), token) <==> Free(s, token) || IsRunning(s, inst, token)
  {
    var w := WorkOf(s, inst);
    if w.Working? {
      assert WorkOk(w);
      if w.due != [] {
        WithPlaces(s, inst, Skipped(w), token);
      }
    }
  }

  lemma ClaimPlaces(s: State, inst: nat, token: nat)
    requires TokenInv(s)
    ensures Free(InstNext(s, Claim(inst), inst), token) <==> Free(s, token)
  {
    var w, s' := WorkOf(s, inst), InstNext(s, Claim(inst), inst);
    if s' != s {
      var w' := s'.insts[inst];
      assert w.stage == Pick;
      WithPlaces(s, inst, w', token);
      SamePlaces(With(s, inst, w'), s', token);
    }
  }

  lemma ReschedulePlaces(s: State, inst: nat, token: nat)
    requires JobInv(s)
    ensures Free(InstNext(s, Reschedule(inst), inst), token) <==> Free(s, token) || Loses(s, Reschedule(inst), token)
  {
    var w := WorkOf(s, inst);
    if w.Working? && w.stage.Running? {
      assert WorkOk(w) && IsRunning(s, inst, w.stage.token);
      FinishPlaces(s, inst, w.stage.token, token);
    }
  }

  // A lineage loses its place, as a pending member or a run in progress, exactly by
  // one of these: a user's ZREM; expiry of its validUntil; a crash or a failed command
  // while it runs; the end of a run after which there is none to come, or whose
  // next member is there already. Once lost it stays lost.
  lemma HowPlacesAreLost(s: State, step: Step, token: nat)
    requires JobInv(s) && token < |s.lineages|
    ensures Free(Next(s, step), token) <==> Free(s, token) || Loses(s, step, token)
  {
    if !IsInstStep(step) {
      UserPlaces(s, step, token);
    } else if step.DropMalformed? || step.DropExpired? {
      DropPlaces(s, step, step.inst, token);
    } else if step.Take? {
      TakePlaces(s, step.inst, token);
    } else if step.Reschedule? {
      ReschedulePlaces(s, step.inst, token);
    } else {
      MovePlaces(s, step, step.inst, token);
    }
  }

  lemma LineagesGrow(s: State, step: Step)
    ensures |s.lineages| <= |Next(s, step).lineages|
  {
    if IsInstStep(step) {
      LineagesStay(s, step);
    }
  }

  lemma LineagesStay(s: State, step: Step)
    requires IsInstStep(step)
    ensures |InstNext(s, step, step.inst).lineages| == |s.lineages|
  {
  }

  // A lineage with no place runs no more.
  lemma NoPlaceNoRun(s: State, step: Step, token: nat)
    requires JobInv(s) && token < |s.lineages| && Free(s, token)
    ensures |s.lineages| <= |Next(s, step).lineages| && Next(s, step).lineages[token] == s.lineages[token]
  {
    LineagesGrow(s, step);
    if step.Take? {
      var w := WorkOf(s, step.inst);
      if w.Working? && w.stage == Claimed {
        TakeIs(s, step.inst);
        assert w.due[0] in s.origin ==> s.origin[w.due[0]] != token;
      }
    } else {
      OnlyTakeRuns(s, step, token);
    }
  }

  lemma OnlyTakeRuns(s: State, step: Step, token: nat)
    requires !step.Take? && token < |s.lineages|
    ensures token < |Next(s, step).lineages| && Next(s, step).lineages[token] == s.lineages[token]
  {
  }

  // No step after `from` is a losing one.
  ghost predicate NeverLoses(steps: seq<Step>, from: nat, token: nat) {
    forall n :: from <= n < |steps| ==> !Loses(Exec(steps[..n]), steps[n], token)
  }

  lemma NeverLosesOneMore(front: seq<Step>, step: Step, from: nat, token: nat)
    requires from <= |front|
    ensures NeverLoses(front + [step], from, token) <==> NeverLoses(front, from, token) && !Loses(Exec(front), step, token)
  {
    var steps := front + [step];
    assert steps[..|front|] == front;
    assert forall n :: 0 <= n < |front| ==> steps[..n] == front[..n] && steps[n] == front[n];
  }

  // Over every run: a lineage that has a place after `from` steps still has one at the
  // end exactly if no step in between was a losing one.
  lemma {:induction false} KeepsPlaceIff(steps: seq<Step>, from: nat, token: nat)
    requires from <= |steps| && token < |Exec(steps[..from]).lineages| && !Free(Exec(steps[..from]), token)
    ensures token < |Exec(steps).lineages|
    ensures !Free(Exec(steps), token) <==> NeverLoses(steps, from, token)
    decreases |steps|
  {
    if from == |steps| {
      assert steps[..from] == steps;
    } else {
      var front, step := steps[..|steps| - 1], steps[|steps| - 1];
      assert front[..from] == steps[..from] && steps == front + [step];
      KeepsPlaceIff(front, from, token);
      KeepsOneMore(front, step, from, token);
    }
  }

  lemma KeepsOneMore(front: seq<Step>, step: Step, from: nat, token: nat)
    requires from <= |front| && token < |Exec(front).lineages|
    requires !Free(Exec(front), token) <==> NeverLoses(front, from, token)
    ensures token < |Exec(front + [step]).lineages|
    ensures !Free(Exec(front + [step]), token) <==> NeverLoses(front + [step], from, token)
  {
    NeverLosesOneMore(front, step, from, token);
    PlaceAfter(front, step, token);
  }

  lemma PlaceAfter(front: seq<Step>, step: Step, token: nat)
    requires token < |Exec(front).lineages|
    ensures token < |Exec(front + [step]).lineages|
    ensures Free(Exec(front + [step]), token) <==> Free(Exec(front), token) || Loses(Exec(front), step, token)
    ensures Free(Exec(front), token) ==> Exec(front + [step]).lineages[token] == Exec(front).lineages[token]
  {
    ExecOne(front, step);
    ExecKeepsInv(front);
    HowPlacesAreLost(Exec(front), step, token);
    LineagesGrow(Exec(front), step);
    if Free(Exec(front), token) {
      NoPlaceNoRun(Exec(front), step, token);
    }
  }

  // The lineage has no place before and after, and ran no more in between.
  ghost predicate IsLost(before: State, s: State, token: nat) {
    && token < |before.lineages| && token < |s.lineages|
    && Free(s, token) && s.lineages[token] == before.lineages[token]
  }

  lemma LostOneMore(before: State, steps: seq<Step>, step: Step, token: nat)
    requires IsLost(before, Exec(steps), token)
    ensures IsLost(before, Exec(steps + [step]), token)
  {
    PlaceAfter(steps, step, token);
  }

  // And from the moment it has none it never runs again.
  lemma {:induction false} LostForEver(steps: seq<Step>, more: seq<Step>, token: nat)
    requires token < |Exec(steps).lineages| && Free(Exec(steps), token)
    ensures IsLost(Exec(steps), Exec(steps + more), token)
    decreases |more|
  {
    if more == [] {
      assert steps + more == steps;
    } else {
      var front, step := more[..|more| - 1], more[|more| - 1];
      LostForEver(steps, front, token);
      LostOneMore(Exec(steps), steps + front, step, token);
      assert steps + more == steps + front + [step];
    }
  }

  // ---- A crash loses a job ----

  // The member added, listed as due, claimed and taken.
  function Added(job: Job): State
    requires Schedulable(job)
  {
    var p := Stored(job.jobId, Some(job));
    INIT.(zset := map[p := ScoreOf(job)], origin := map[p := 0],
          ledger := INIT.ledger.(inserted := multiset{p}),
          lineages := [Lineage(job.jobId, ScoreOf(job), job.interval, LimitOf(job), 0)])
  }

  lemma ReachAdded(job: Job) returns (steps: seq<Step>)
    requires Schedulable(job)
    ensures Exec(steps) == Added(job)
  {
    steps := [AddCheck(0, job), AddInsert(0)];
    var p := Stored(job.jobId, Some(job));
    assert steps[..1] == [AddCheck(0, job)] && steps[..1][..0] == [];
    var checked := INIT.(users := map[0 := Adding(job)]);
    assert Exec(steps[..1]) == checked;
    assert multiset{} + multiset{p} == multiset{p};
    assert checked.users - {0} == map[];
    assert Next(checked, AddInsert(0)) == Added(job);
  }

  lemma ExecOne(steps: seq<Step>, step: Step)
    ensures Exec(steps + [step]) == Next(Exec(steps), step)
  {
    assert (steps + [step])[..|steps|] == steps;
  }

  // The instance has taken the member, and crashes.
  lemma TakenAndGone(job: Job, now: int)
    requires Schedulable(job) && IsTickTime(now) && Due(ScoreOf(job), Millis(now)) && !Expired(job, now)
    ensures var p := Stored(job.jobId, Some(job));
            var s := Next(Next(Added(job), Tick(0, now, [p])), Claim(0));
            var lost := Next(Next(s, Take(0)), Rest(0));
            && lost.zset == map[] && lost.origin == map[] && lost.insts == map[0 := Resting]
            && lost.lineages == [Lineage(job.jobId, ScoreOf(job), job.interval, LimitOf(job), 1)]
  {
    var p := Stored(job.jobId, Some(job));
    var a := Added(job);
    var ticked := a.(insts := map[0 := Working(now, [p], Pick)]);
    assert Next(a, Tick(0, now, [p])) == ticked;
    var claimed := a.(insts := map[0 := Working(now, [p], Claimed)], claims := {job.jobId});
    assert Next(ticked, Claim(0)) == claimed by {
      assert {} + {job.jobId} == {job.jobId};
      assert ticked.insts[0 := Working(now, [p], Claimed)] == claimed.insts;
    }
    TakenOnly(job, now, claimed);
  }

  lemma TakenOnly(job: Job, now: int, s: State)
    requires Schedulable(job) && IsTickTime(now)
    requires var p := Stored(job.jobId, Some(job));
             s == Added(job).(insts := map[0 := Working(now, [p], Claimed)], claims := {job.jobId})
    ensures var lost := Next(Next(s, Take(0)), Rest(0));
            && lost.zset == map[] && lost.origin == map[] && lost.insts == map[0 := Resting]
            && lost.lineages == [Lineage(job.jobId, ScoreOf(job), job.interval, LimitOf(job), 1)]
  {
    var p := Stored(job.jobId, Some(job));
    assert Next(s, Take(0)) == StartRun(s, 0, p);
    assert s.zset - {p} == map[] && s.origin - {p} == map[];
    var taken := StartRun(s, 0, p);
    assert taken.insts == map[0 := Working(now, [p], Running(0))];
    assert taken.insts[0 := Resting] == map[0 := Resting];
  }

  // "A given fire happens exactly once" and "jobs with intervals are re-enqueued" fail
  // for every due job: after a crash between the ZREM and the ZADD it is neither
  // pending nor running, and whatever happens later its lineage never runs again.
  lemma CrashLosesJob(job: Job, now: int, more: seq<Step>) returns (steps: seq<Step>)
    requires Schedulable(job) && IsTickTime(now) && Due(ScoreOf(job), Millis(now)) && !Expired(job, now)
    ensures Exec(steps).zset == map[] && |Exec(steps).lineages| == 1 && Free(Exec(steps), 0)
    ensures |Exec(steps + more).lineages| > 0
    ensures Exec(steps + more).lineages[0].fires == Exec(steps).lineages[0].fires == 1 && Free(Exec(steps + more), 0)
  {
    var p := Stored(job.jobId, Some(job));
    steps := ReachAdded(job);
    ExecOne(steps, Tick(0, now, [p]));
    steps := steps + [Tick(0, now, [p])];
    ExecOne(steps, Claim(0));
    steps := steps + [Claim(0)];
    ExecOne(steps, Take(0));
    steps := steps + [Take(0)];
    ExecOne(steps, Rest(0));
    steps := steps + [Rest(0)];
    TakenAndGone(job, now);
    LostForEver(steps, more, 0);
  }
}

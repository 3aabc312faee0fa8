/**
 What claims do to a job's runs: one run per claim, and claims that last keep the runs
 apart, whatever the job's interval.
 */
module SchedulerClaims {
  import opened Basics
  import opened Jobs
  import opened Scheduler
  import opened SchedulerTheorems

  // ---- One run per claim ----

  function RunsUnder(fired: seq<Fire>, jobId: string): nat {
    if fired == [] then 0
    else
      var last := fired[|fired| - 1].member;
      RunsUnder(fired[..|fired| - 1], jobId) + if HasJob(last) && last.job.value.jobId == jobId then 1 else 0
  }

  // The step ends a claim on the ID that is in force.
  predicate Ends(s: State, step: Step, jobId: string) {
    step == ClaimExpires(jobId) && jobId in s.claims
  }

  function Expiries(steps: seq<Step>, jobId: string): nat {
    if steps == [] then 0
    else
      var front := steps[..|steps| - 1];
      Expiries(front, jobId) + if Ends(Exec(front), steps[|steps| - 1], jobId) then 1 else 0
  }

  // The instance has claimed the job and not yet tried to take its member.
  ghost predicate HoldsClaim(w: Work, jobId: string) {
    w.Working? && w.stage == Claimed && w.due != [] && HasJob(w.due[0]) && w.due[0].job.value.jobId == jobId
  }

  ghost function Holders(insts: map<nat, Work>, jobId: string): set<nat> {
    set i | i in insts && HoldsClaim(insts[i], jobId)
  }

  // Every claim ever granted was used for a run, is held, or was given up; and the
  // grants are the expiries, plus the one still in force.
  ghost predicate ClaimInv(s: State, jobId: string, expiries: nat) {
    RunsUnder(s.fired, jobId) + |Holders(s.insts, jobId)| <= expiries + if jobId in s.claims then 1 else 0
  }

  lemma HoldersUpdate(insts: map<nat, Work>, inst: nat, w: Work, jobId: string)
    ensures |Holders(insts[inst := w], jobId)| ==
            |Holders(insts, jobId)| - (if inst in Holders(insts, jobId) then 1 else 0) + (if HoldsClaim(w, jobId) then 1 else 0)
  {
    HoldersAfter(insts, inst, w, jobId);
    SetAt(Holders(insts, jobId), inst, HoldsClaim(w, jobId));
  }

  lemma HoldersAfter(insts: map<nat, Work>, inst: nat, w: Work, jobId: string)
    ensures Holders(insts[inst := w], jobId) ==
            Holders(insts, jobId) - {inst} + if HoldsClaim(w, jobId) then {inst} else {}
  {
    forall i ensures i in Holders(insts[inst := w], jobId) <==>
                     if i == inst then HoldsClaim(w, jobId) else i in Holders(insts, jobId)
    {
      if i in insts[inst := w] && i != inst {
        assert insts[inst := w][i] == insts[i];
      }
    }
  }

  lemma SetAt(s: set<nat>, x: nat, on: bool)
    ensures |s - {x} + if on then {x} else {}| == |s| - (if x in s then 1 else 0) + if on then 1 else 0
  {
    assert |s - {x}| == |s| - if x in s then 1 else 0;
    assert s - {x} + {} == s - {x};
    assert x !in s - {x};
  }

  // An instance's step that neither claims nor starts a run.
  lemma ClaimMoves(s: State, s': State, inst: nat, w: Work, jobId: string, expiries: nat)
    requires ClaimInv(s, jobId, expiries) && !HoldsClaim(w, jobId)
    requires s'.insts == s.insts[inst := w] && s'.claims == s.claims && s'.fired == s.fired
    ensures ClaimInv(s', jobId, expiries)
  {
    HoldersUpdate(s.insts, inst, w, jobId);
  }

  lemma ClaimTaken(s: State, inst: nat, w: Work, id: string, jobId: string, expiries: nat)
    requires ClaimInv(s, jobId, expiries) && id !in s.claims && (HoldsClaim(w, jobId) ==> id == jobId)
    ensures ClaimInv(With(s, inst, w).(claims := s.claims + {id}), jobId, expiries)
  {
    HoldersUpdate(s.insts, inst, w, jobId);
  }

  lemma ClaimGranted(s: State, inst: nat, jobId: string, expiries: nat)
    requires ClaimInv(s, jobId, expiries)
    ensures ClaimInv(InstNext(s, Claim(inst), inst), jobId, expiries)
  {
    var w, s' := WorkOf(s, inst), InstNext(s, Claim(inst), inst);
    if s'.claims != s.claims {
      ClaimTaken(s, inst, w.(stage := Claimed), w.due[0].job.value.jobId, jobId, expiries);
    } else if s' != s {
      ClaimMoves(s, s', inst, Skipped(w), jobId, expiries);
    }
  }

  lemma ClaimUsed(s: State, inst: nat, jobId: string, expiries: nat)
    requires ClaimInv(s, jobId, expiries) && JobInv(s)
    ensures ClaimInv(InstNext(s, Take(inst), inst), jobId, expiries)
  {
    var w := WorkOf(s, inst);
    if w.Working? && w.stage == Claimed {
      ClaimedIsAboutToTake(s, inst);
      TakeIs(s, inst);
      var s' := Taken(s, inst);
      if w.due[0] in s.origin {
        ClaimSpent(s, s', inst, w.(stage := Running(s.origin[w.due[0]])), Fire(w.due[0], w.now, s.origin[w.due[0]]), jobId, expiries);
      } else {
        ClaimMoves(s, s', inst, Skipped(w), jobId, expiries);
      }
    }
  }

  // The run uses up the claim that the instance held.
  lemma ClaimSpent(s: State, s': State, inst: nat, w: Work, f: Fire, jobId: string, expiries: nat)
    requires ClaimInv(s, jobId, expiries) && !HoldsClaim(w, jobId)
    requires HasJob(f.member) && HoldsClaim(WorkOf(s, inst), f.member.job.value.jobId)
    requires s'.insts == s.insts[inst := w] && s'.claims == s.claims && s'.fired == s.fired + [f]
    ensures ClaimInv(s', jobId, expiries)
  {
    HoldersUpdate(s.insts, inst, w, jobId);
    assert s'.fired[..|s.fired|] == s.fired;
    assert f.member.job.value.jobId == jobId ==> inst in Holders(s.insts, jobId);
  }

  lemma ClaimRescheduled(s: State, inst: nat, jobId: string, expiries: nat)
    requires ClaimInv(s, jobId, expiries)
    ensures ClaimInv(InstNext(s, Reschedule(inst), inst), jobId, expiries)
  {
    var w, s' := WorkOf(s, inst), InstNext(s, Reschedule(inst), inst);
    if w.Working? && w.due != [] && IsTickTime(w.now) && w.stage.Running? && HasJob(w.due[0]) {
      FinishRunFrame(s, inst, w.due[0].job.value, w.now, w.stage.token);
      ClaimMoves(s, s', inst, Skipped(w), jobId, expiries);
    }
  }

  lemma FinishRunFrame(s: State, inst: nat, job: Job, now: int, token: nat)
    requires IsTickTime(now) && WorkOf(s, inst).Working? && WorkOf(s, inst).due != []
    ensures var s' := FinishRun(s, inst, job, now, token);
            && s'.insts == s.insts[inst := Skipped(WorkOf(s, inst))] && s'.claims == s.claims && s'.fired == s.fired
  {
  }

  lemma ClaimOthers(s: State, step: Step, jobId: string, expiries: nat)
    requires ClaimInv(s, jobId, expiries) && IsInstStep(step)
    requires !step.Claim? && !step.Take? && !step.Reschedule?
    ensures ClaimInv(InstNext(s, step, step.inst), jobId, expiries)
  {
    var s' := InstNext(s, step, step.inst);
    if s' != s {
      ClaimMoves(s, s', step.inst, s'.insts[step.inst], jobId, expiries);
    }
  }

  lemma ClaimUser(s: State, step: Step, jobId: string, expiries: nat)
    requires ClaimInv(s, jobId, expiries) && !IsInstStep(step)
    ensures ClaimInv(UserNext(s, step), jobId, expiries + if Ends(s, step, jobId) then 1 else 0)
  {
    UserFrame(s, step);
  }

  lemma UserFrame(s: State, step: Step)
    requires !IsInstStep(step)
    ensures var s' := UserNext(s, step);
            && s'.insts == s.insts && s'.fired == s.fired
            && s'.claims == if step.ClaimExpires? then s.claims - {step.jobId} else s.claims
  {
  }

  lemma {:induction false} RunsKeepClaims(steps: seq<Step>, jobId: string)
    ensures ClaimInv(Exec(steps), jobId, Expiries(steps, jobId))
  {
    if steps == [] {
      assert Holders(INIT.insts, jobId) == {};
    } else {
      var front, step := steps[..|steps| - 1], steps[|steps| - 1];
      var s, n := Exec(front), Expiries(front, jobId);
      RunsKeepClaims(front, jobId);
      if !IsInstStep(step) {
        ClaimUser(s, step, jobId, n);
      } else if step.Claim? {
        ClaimGranted(s, step.inst, jobId, n);
      } else if step.Take? {
        ExecKeepsInv(front);
        ClaimUsed(s, step.inst, jobId, n);
      } else if step.Reschedule? {
        ClaimRescheduled(s, step.inst, jobId, n);
      } else {
        ClaimOthers(s, step, jobId, n);
      }
    }
  }

  // A claim is never released, only left to expire. So over every run a job, under
  // all its reschedules and re-additions, runs at most once more than its claim
  // expired: it cannot recur faster than claims expire, whatever its interval.
  lemma OneRunPerClaim(steps: seq<Step>, jobId: string)
    ensures RunsUnder(Exec(steps).fired, jobId) <= 1 + Expiries(steps, jobId)
  {
    RunsKeepClaims(steps, jobId);
  }

  // ---- Claims in time ----

  // A claim on the ID is in force after `n` steps; step `n` takes it; step `n` ends it.
  ghost predicate InForceAt(steps: seq<Step>, n: nat, jobId: string)
    requires n <= |steps|
  {
    jobId in Exec(steps[..n]).claims
  }

  ghost predicate GrantedAt(steps: seq<Step>, n: nat, jobId: string)
    requires n < |steps|
  {
    !InForceAt(steps, n, jobId) && InForceAt(steps, n + 1, jobId)
  }

  ghost predicate EndedAt(steps: seq<Step>, n: nat, jobId: string)
    requires n < |steps|
  {
    InForceAt(steps, n, jobId) && !InForceAt(steps, n + 1, jobId)
  }

  lemma ClaimsEndByExpiry(s: State, step: Step, jobId: string)
    ensures jobId in s.claims && jobId !in Next(s, step).claims <==> Ends(s, step, jobId)
  {
    if !IsInstStep(step) {
      UserFrame(s, step);
    } else {
      ClaimsOnlyGrow(s, step);
    }
  }

  lemma ClaimsOnlyGrow(s: State, step: Step)
    requires IsInstStep(step)
    ensures s.claims <= InstNext(s, step, step.inst).claims
  {
    var w := WorkOf(s, step.inst);
    if step.Reschedule? && w.Working? && w.due != [] && IsTickTime(w.now) && HasJob(w.due[0]) && w.stage.Running? {
      FinishRunFrame(s, step.inst, w.due[0].job.value, w.now, w.stage.token);
    }
  }

  lemma EndedByExpiry(steps: seq<Step>, n: nat, jobId: string)
    requires n < |steps| && EndedAt(steps, n, jobId)
    ensures steps[n] == ClaimExpires(jobId)
  {
    assert steps[..n + 1][..n] == steps[..n];
    ClaimsEndByExpiry(Exec(steps[..n]), steps[n], jobId);
  }

  // What held at `i` and no longer at `j` was lost at some step in between.
  lemma {:induction false} Falls(b: seq<bool>, i: nat, j: nat) returns (k: nat)
    requires i < j < |b| && b[i] && !b[j]
    ensures i <= k < j && b[k] && !b[k + 1]
    decreases j
  {
    if b[j - 1] {
      k := j - 1;
    } else {
      k := Falls(b, i, j - 1);
    }
  }

  lemma LastInForce(steps: seq<Step>, i: nat, j: nat, jobId: string) returns (k: nat)
    requires i < j <= |steps| && InForceAt(steps, i, jobId) && !InForceAt(steps, j, jobId)
    ensures i <= k < j && EndedAt(steps, k, jobId)
  {
    k := Falls(seq(|steps| + 1, n requires 0 <= n <= |steps| => InForceAt(steps, n, jobId)), i, j);
  }

  // Between two grants of one ID the first claim has expired.
  lemma ClaimsAreApart(steps: seq<Step>, i: nat, j: nat, jobId: string) returns (k: nat)
    requires i < j < |steps| && GrantedAt(steps, i, jobId) && GrantedAt(steps, j, jobId)
    ensures i < k < j && EndedAt(steps, k, jobId) && steps[k] == ClaimExpires(jobId)
  {
    k := LastInForce(steps, i + 1, j, jobId);
    EndedByExpiry(steps, k, jobId);
  }

  // Each step has a time, and a claim on the ID lasts at least `ttl`.
  ghost predicate ClaimsLast(steps: seq<Step>, times: seq<int>, ttl: nat, jobId: string)
    requires |times| == |steps|
  {
    && (forall i, j :: 0 <= i < j < |times| ==> times[i] <= times[j])
    && (forall i, k :: 0 <= i < k < |steps| && GrantedAt(steps, i, jobId) && steps[k] == ClaimExpires(jobId) ==>
          times[i] + ttl <= times[k])
  }

  // Two grants of one ID are at least the claim's time to live apart.
  lemma GrantsAreApart(steps: seq<Step>, times: seq<int>, ttl: nat, jobId: string, i: nat, j: nat)
    requires |times| == |steps| && ClaimsLast(steps, times, ttl, jobId) && i < j < |steps|
    requires GrantedAt(steps, i, jobId) && GrantedAt(steps, j, jobId)
    ensures times[i] + ttl <= times[j]
  {
    var k := ClaimsAreApart(steps, i, j, jobId);
    assert times[k] <= times[j];
  }

  // The claim was granted at `bound` or later.
  ghost predicate GrantedSince(steps: seq<Step>, times: seq<int>, bound: int, jobId: string)
    requires |times| == |steps|
  {
    exists g :: 0 <= g < |steps| && GrantedAt(steps, g, jobId) && bound <= times[g]
  }

  // It is `bound` or later, and so was the grant of a claim in force.
  ghost predicate PacedBy(steps: seq<Step>, times: seq<int>, bound: int, jobId: string)
    requires |times| == |steps| > 0
  {
    && bound <= times[|times| - 1]
    && (jobId in Exec(steps).claims ==> GrantedSince(steps, times, bound, jobId))
  }

  function Spent(steps: seq<Step>, ttl: nat, jobId: string): nat {
    Expiries(steps, jobId) * ttl
  }

  // Every expiry so far has taken its time, and so has the claim in force.
  lemma {:induction false} RunsArePacedBy(steps: seq<Step>, times: seq<int>, ttl: nat, jobId: string)
    requires |times| == |steps| > 0 && ClaimsLast(steps, times, ttl, jobId)
    ensures PacedBy(steps, times, times[0] + Spent(steps, ttl, jobId), jobId)
  {
    var n := |steps| - 1;
    var front := steps[..n];
    if n == 0 {
      assert steps == [steps[0]] && times == [times[0]];
      FirstIsPaced(steps[0], times[0], ttl, jobId);
    } else {
      ClaimsLastFront(steps, times, ttl, jobId);
      RunsArePacedBy(front, times[..n], ttl, jobId);
      if Ends(Exec(front), steps[n], jobId) {
        PacedByExpiry(steps, times, ttl, jobId);
      } else {
        PacedByOther(steps, times, ttl, jobId);
      }
    }
  }

  lemma ClaimsLastFront(steps: seq<Step>, times: seq<int>, ttl: nat, jobId: string)
    requires |times| == |steps| > 0 && ClaimsLast(steps, times, ttl, jobId)
    ensures ClaimsLast(steps[..|steps| - 1], times[..|steps| - 1], ttl, jobId)
  {
    var front := steps[..|steps| - 1];
    assert forall i :: 0 <= i <= |front| ==> front[..i] == steps[..i];
    assert forall i :: 0 <= i < |front| ==> (GrantedAt(front, i, jobId) <==> GrantedAt(steps, i, jobId));
  }

  lemma PacedByExpiry(steps: seq<Step>, times: seq<int>, ttl: nat, jobId: string)
    requires |times| == |steps| > 1 && ClaimsLast(steps, times, ttl, jobId)
    requires var n := |steps| - 1;
             && Ends(Exec(steps[..n]), steps[n], jobId)
             && PacedBy(steps[..n], times[..n], times[0] + Spent(steps[..n], ttl, jobId), jobId)
    ensures PacedBy(steps, times, times[0] + Spent(steps, ttl, jobId), jobId)
  {
    var n := |steps| - 1;
    var bound := times[0] + Spent(steps[..n], ttl, jobId);
    EndedClaim(steps, jobId);
    ExpiryTakesTime(steps, times, ttl, bound, jobId);
    SpentByExpiry(steps, ttl, jobId);
  }

  lemma EndedClaim(steps: seq<Step>, jobId: string)
    requires steps != [] && Ends(Exec(steps[..|steps| - 1]), steps[|steps| - 1], jobId)
    ensures jobId in Exec(steps[..|steps| - 1]).claims && jobId !in Exec(steps).claims
  {
    ClaimsEndByExpiry(Exec(steps[..|steps| - 1]), steps[|steps| - 1], jobId);
  }

  lemma SpentByExpiry(steps: seq<Step>, ttl: nat, jobId: string)
    requires steps != [] && Ends(Exec(steps[..|steps| - 1]), steps[|steps| - 1], jobId)
    ensures Spent(steps, ttl, jobId) == Spent(steps[..|steps| - 1], ttl, jobId) + ttl
  {
    OneMoreTtl(Expiries(steps[..|steps| - 1], jobId), ttl);
  }

  lemma PacedByOther(steps: seq<Step>, times: seq<int>, ttl: nat, jobId: string)
    requires |times| == |steps| > 1 && times[|steps| - 2] <= times[|steps| - 1]
    requires var n := |steps| - 1;
             && !Ends(Exec(steps[..n]), steps[n], jobId)
             && PacedBy(steps[..n], times[..n], times[0] + Spent(steps[..n], ttl, jobId), jobId)
    ensures PacedBy(steps, times, times[0] + Spent(steps, ttl, jobId), jobId)
  {
    var n := |steps| - 1;
    ExpiriesOneMore(steps[..n], steps[n], jobId);
    NextIsPaced(steps[..n], steps[n], times[..n], times[n], times[0] + Spent(steps[..n], ttl, jobId), jobId);
    assert steps == steps[..n] + [steps[n]] && times == times[..n] + [times[n]];
  }

  lemma FirstIsPaced(step: Step, time: int, ttl: nat, jobId: string)
    ensures PacedBy([step], [time], time + Spent([step], ttl, jobId), jobId)
  {
    assert [step][..0] == [] && [step][..1] == [step] && Exec([step][..0]) == INIT;
    assert Expiries([step], jobId) == 0;
    if jobId in Exec([step]).claims {
      assert GrantedAt([step], 0, jobId);
    }
  }

  // An expiry comes `ttl` after the grant.
  lemma ExpiryTakesTime(steps: seq<Step>, times: seq<int>, ttl: nat, bound: int, jobId: string)
    requires |times| == |steps| > 0 && ClaimsLast(steps, times, ttl, jobId)
    requires steps[|steps| - 1] == ClaimExpires(jobId)
    requires GrantedSince(steps[..|steps| - 1], times[..|steps| - 1], bound, jobId)
    ensures bound + ttl <= times[|steps| - 1]
  {
    var front := steps[..|steps| - 1];
    var g :| 0 <= g < |front| && GrantedAt(front, g, jobId) && bound <= times[..|steps| - 1][g];
    assert front[..g] == steps[..g] && front[..g + 1] == steps[..g + 1];
    assert GrantedAt(steps, g, jobId);
  }

  lemma GrantStays(front: seq<Step>, step: Step, times: seq<int>, time: int, bound: int, jobId: string)
    requires |times| == |front| && GrantedSince(front, times, bound, jobId)
    ensures GrantedSince(front + [step], times + [time], bound, jobId)
  {
    var g :| 0 <= g < |front| && GrantedAt(front, g, jobId) && bound <= times[g];
    assert (front + [step])[..g] == front[..g] && (front + [step])[..g + 1] == front[..g + 1];
    assert GrantedAt(front + [step], g, jobId) && (times + [time])[g] == times[g];
  }

  lemma NewGrant(front: seq<Step>, step: Step, times: seq<int>, time: int, bound: int, jobId: string)
    requires |times| == |front| && bound <= time
    requires jobId !in Exec(front).claims && jobId in Exec(front + [step]).claims
    ensures GrantedSince(front + [step], times + [time], bound, jobId)
  {
    var n := |front|;
    assert (front + [step])[..n] == front && (front + [step])[..n + 1] == front + [step];
    assert GrantedAt(front + [step], n, jobId) && (times + [time])[n] == time;
  }

  lemma ExpiriesOneMore(front: seq<Step>, step: Step, jobId: string)
    ensures Expiries(front + [step], jobId) == Expiries(front, jobId) + if Ends(Exec(front), step, jobId) then 1 else 0
    ensures jobId in Exec(front).claims && jobId !in Exec(front + [step]).claims <==> Ends(Exec(front), step, jobId)
  {
    assert (front + [step])[..|front|] == front;
    ClaimsEndByExpiry(Exec(front), step, jobId);
  }

  lemma NextIsPaced(front: seq<Step>, step: Step, times: seq<int>, time: int, bound: int, jobId: string)
    requires |times| == |front| > 0 && PacedBy(front, times, bound, jobId) && times[|times| - 1] <= time
    ensures PacedBy(front + [step], times + [time], bound, jobId)
  {
    if jobId in Exec(front).claims {
      GrantStays(front, step, times, time, bound, jobId);
    } else if jobId in Exec(front + [step]).claims {
      NewGrant(front, step, times, time, bound, jobId);
    }
  }

  lemma OneMoreTtl(n: int, ttl: int)
    ensures (n + 1) * ttl == n * ttl + ttl
  {
  }

  // So with claims that last `ttl`, n runs of a job take at least (n - 1) * ttl from
  // the first step to the last: a job whose interval is shorter falls behind, at the
  // latest when the difference has added up to one run.
  lemma RunsArePaced(steps: seq<Step>, times: seq<int>, ttl: nat, jobId: string)
    requires |times| == |steps| > 0 && ClaimsLast(steps, times, ttl, jobId)
    ensures times[0] + (RunsUnder(Exec(steps).fired, jobId) - 1) * ttl <= times[|times| - 1]
  {
    OneRunPerClaim(steps, jobId);
    RunsArePacedBy(steps, times, ttl, jobId);
    TimesIsMonotone(RunsUnder(Exec(steps).fired, jobId) - 1, Expiries(steps, jobId), ttl);
  }

  lemma TimesIsMonotone(a: int, b: int, k: nat)
    requires a <= b
    ensures a * k <= b * k
  {
    assert (b - a) * k >= 0;
  }
}

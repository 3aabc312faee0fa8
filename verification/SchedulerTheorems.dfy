/**
 What the scheduler guarantees over every run: each member is run at most once per
 insertion with exact accounting, no job ever multiplies, no job runs early, and a
 recurring job with a validUntil fires a bounded number of times.
 */
module SchedulerTheorems {
  import opened Finite
  import opened Basics
  import opened Jobs
  import opened Scheduler

  // ---- Accounting ----

  ghost predicate LedgerInv(s: State) {
    s.ledger.inserted ==
    multiset(s.zset.Keys) + s.ledger.started + s.ledger.expired + s.ledger.malformed + s.ledger.byUser
  }

  function Members(fired: seq<Fire>): seq<Payload> {
    seq(|fired|, i requires 0 <= i < |fired| => fired[i].member)
  }

  // The log of runs is what the ledger counts as started.
  ghost predicate LogInv(s: State) {
    multiset(Members(s.fired)) == s.ledger.started
  }

  lemma RemovedLedger(s: State, p: Payload, bucket: Bucket)
    requires LedgerInv(s)
    ensures LedgerInv(Removed(s, p, bucket))
  {
    if p in s.zset {
      assert (s.zset - {p}).Keys == s.zset.Keys - {p};
      assert multiset(s.zset.Keys) == multiset(s.zset.Keys - {p}) + multiset{p};
    }
  }

  lemma InsertedLedger(s: State, p: Payload, score: int)
    requires LedgerInv(s)
    ensures LedgerInv(Inserted(s, p, score))
  {
    assert s.zset[p := score].Keys == s.zset.Keys + {p};
    if p in s.zset {
      assert s.zset.Keys + {p} == s.zset.Keys;
    } else {
      assert multiset(s.zset.Keys + {p}) == multiset(s.zset.Keys) + multiset{p};
    }
  }

  // ---- Scores ----

  ghost predicate ScoreInv(s: State) {
    forall p :: p in s.zset && HasJob(p) ==> p.job.value.executeAt.Stamp? && s.zset[p] == ScoreOf(p.job.value)
  }

  // ---- Instances ----

  ghost predicate DueAt(p: Payload, now: int) {
    && p.Stored?
    && (p.job.Some? ==> p.job.value.executeAt.Stamp? && Due(ScoreOf(p.job.value), Millis(now)))
  }

  ghost predicate WorkOk(w: Work) {
    w.Working? ==>
      && IsTickTime(w.now)
      && (forall i :: 0 <= i < |w.due| ==> DueAt(w.due[i], w.now))
      && (w.stage != Pick ==> w.due != [] && HasJob(w.due[0]) && !Expired(w.due[0].job.value, w.now))
  }

  ghost predicate WorkInv(s: State) {
    forall i :: i in s.insts ==> WorkOk(s.insts[i])
  }

  lemma SkippedOk(w: Work)
    requires WorkOk(w) && w.Working? && w.due != []
    ensures WorkOk(Skipped(w))
  {
    forall i | 0 <= i < |w.due[1..]| ensures DueAt(w.due[1..][i], w.now) {
      assert w.due[1..][i] == w.due[i + 1];
    }
  }

  // ---- Tokens ----

  ghost predicate IsRunning(s: State, inst: nat, token: nat) {
    WorkOf(s, inst).Working? && WorkOf(s, inst).stage == Running(token)
  }

  // Each lineage has at most one place: one pending member or one running instance.
  ghost predicate TokenInv(s: State) {
    && (forall p :: p in s.zset && HasJob(p) ==> p in s.origin)
    && (forall p :: p in s.origin ==> p in s.zset && HasJob(p) && s.origin[p] < |s.lineages|)
    && (forall p, q :: p in s.origin && q in s.origin && p != q ==> s.origin[p] != s.origin[q])
    && (forall i: nat, t: nat :: IsRunning(s, i, t) ==> t < |s.lineages|)
    && (forall i: nat, t: nat, p :: IsRunning(s, i, t) && p in s.origin ==> s.origin[p] != t)
    && (forall i: nat, j: nat, t: nat :: IsRunning(s, i, t) && IsRunning(s, j, t) ==> i == j)
  }

  // ---- Recurrence arithmetic ----

  function Gap(l: Lineage): nat {
    if l.interval > 0 then l.interval else 0
  }

  function Nth(l: Lineage, n: int): int {
    l.first + n * Gap(l)
  }

  ghost predicate SameJob(l: Lineage, job: Job) {
    job.jobId == l.jobId && job.interval == l.interval && LimitOf(job) == l.limit
  }

  // A pending member of the lineage, with its score.
  ghost predicate Ready(l: Lineage, p: Payload, score: int) {
    && HasJob(p) && SameJob(l, p.job.value)
    && (l.interval <= 0 ==> l.fires == 0)
    && (score < 0 || score >= Nth(l, l.fires))
  }

  // A run in progress at tick time `now`.
  ghost predicate InRun(l: Lineage, p: Payload, now: int) {
    && HasJob(p) && SameJob(l, p.job.value)
    && l.fires > 0 && Millis(now) >= 0 && Millis(now) >= Nth(l, l.fires - 1)
  }

  ghost predicate Bounded(l: Lineage) {
    && (l.interval <= 0 ==> l.fires <= 1)
    && (l.fires > 0 && l.limit.Some? ==> Nth(l, l.fires - 1) <= Millis(l.limit.value))
  }

  ghost predicate ProgressInv(s: State)
    requires TokenInv(s) && WorkInv(s)
  {
    && (forall p :: p in s.origin ==> Ready(s.lineages[s.origin[p]], p, s.zset[p]))
    && (forall i: nat, t: nat :: IsRunning(s, i, t) ==> InRun(s.lineages[t], WorkOf(s, i).due[0], WorkOf(s, i).now))
    && (forall t: nat :: t < |s.lineages| ==> Bounded(s.lineages[t]))
  }

  // ---- The record of runs ----

  function Fires(fired: seq<Fire>, token: nat): nat {
    if fired == [] then 0
    else Fires(fired[..|fired| - 1], token) + if fired[|fired| - 1].token == token then 1 else 0
  }

  ghost predicate FireOk(f: Fire) {
    && HasJob(f.member) && f.member.job.value.executeAt.Stamp?
    && Due(ScoreOf(f.member.job.value), Millis(f.now))
    && !Expired(f.member.job.value, f.now)
  }

  ghost predicate FireInv(s: State) {
    && (forall t: nat :: t < |s.lineages| ==> Fires(s.fired, t) == s.lineages[t].fires)
    && (forall t: nat :: t >= |s.lineages| ==> Fires(s.fired, t) == 0)
    && (forall k :: 0 <= k < |s.fired| ==> FireOk(s.fired[k]))
  }

  lemma OneMoreFire(fired: seq<Fire>, f: Fire, token: nat)
    ensures Fires(fired + [f], token) == Fires(fired, token) + if f.token == token then 1 else 0
  {
    assert (fired + [f])[..|fired|] == fired;
  }

  ghost predicate JobInv(s: State) {
    ScoreInv(s) && WorkInv(s) && TokenInv(s) && ProgressInv(s) && FireInv(s)
  }

  // ---- Each primitive keeps the invariant ----

  // An instance moves on without starting a run.
  lemma KeepWith(s: State, inst: nat, w: Work)
    requires JobInv(s) && WorkOk(w) && !(w.Working? && w.stage.Running?)
    ensures JobInv(With(s, inst, w))
    ensures forall t: nat :: IsRunning(s, inst, t) ==> Free(With(s, inst, w), t)
  {
    var s' := With(s, inst, w);
    assert forall i: nat, t: nat :: IsRunning(s', i, t) ==> i != inst && IsRunning(s, i, t);
  }

  // Nothing pending or running belongs to the lineage.
  ghost predicate Free(s: State, token: nat) {
    && (forall p :: p in s.origin ==> s.origin[p] != token)
    && (forall i: nat :: !IsRunning(s, i, token))
  }

  lemma KeepRemoved(s: State, p: Payload, bucket: Bucket)
    requires JobInv(s)
    ensures JobInv(Removed(s, p, bucket))
  {
    var s' := Removed(s, p, bucket);
    assert forall i: nat, t: nat :: IsRunning(s', i, t) <==> IsRunning(s, i, t);
  }

  // A member without job data, or one that was there already with its score.
  lemma KeepInserted(s: State, p: Payload, score: int)
    requires JobInv(s)
    requires HasJob(p) ==> p in s.zset && p.job.value.executeAt.Stamp? && score == ScoreOf(p.job.value)
    ensures JobInv(Inserted(s, p, score))
  {
    var s' := Inserted(s, p, score);
    if HasJob(p) {
      assert s'.zset == s.zset;
      assert s' == s;
    } else {
      KeepForeign(s, s', p, score);
    }
  }

  lemma KeepForeign(s: State, s': State, p: Payload, score: int)
    requires JobInv(s) && !HasJob(p)
    requires s'.zset == s.zset[p := score] && s'.origin == s.origin && s'.lineages == s.lineages
    requires s'.insts == s.insts && s'.fired == s.fired
    ensures JobInv(s')
  {
    assert forall i: nat, t: nat :: IsRunning(s', i, t) <==> IsRunning(s, i, t);
    assert TokenInv(s');
  }

  // A new lineage that nothing belongs to yet.
  lemma KeepNewLineage(s: State, s': State, l: Lineage)
    requires JobInv(s) && l.fires == 0
    requires s'.zset == s.zset && s'.origin == s.origin && s'.lineages == s.lineages + [l]
    requires s'.insts == s.insts && s'.fired == s.fired
    ensures JobInv(s') && Free(s', |s.lineages|)
  {
    assert forall i: nat, t: nat :: IsRunning(s', i, t) <==> IsRunning(s, i, t);
    assert forall t: nat :: t < |s.lineages| ==> s'.lineages[t] == s.lineages[t];
    assert TokenInv(s');
  }

  // A new pending member for a lineage that has nothing pending or running.
  lemma KeepPlaced(s: State, s': State, p: Payload, score: int, token: nat)
    requires JobInv(s) && p !in s.zset && token < |s.lineages| && Free(s, token)
    requires HasJob(p) && p.job.value.executeAt.Stamp? && score == ScoreOf(p.job.value)
    requires Ready(s.lineages[token], p, score)
    requires s'.zset == s.zset[p := score] && s'.origin == s.origin[p := token] && s'.lineages == s.lineages
    requires s'.insts == s.insts && s'.fired == s.fired
    ensures JobInv(s')
  {
    PlacedTokens(s, s', p, token);
    assert forall i: nat, t: nat :: IsRunning(s', i, t) <==> IsRunning(s, i, t);
    assert ScoreInv(s') && WorkInv(s') && FireInv(s');
  }

  lemma PlacedTokens(s: State, s': State, p: Payload, token: nat)
    requires TokenInv(s) && p !in s.zset && token < |s.lineages| && Free(s, token) && HasJob(p)
    requires s'.zset.Keys == s.zset.Keys + {p} && s'.origin == s.origin[p := token] && s'.lineages == s.lineages
    requires s'.insts == s.insts
    ensures TokenInv(s')
  {
    assert forall i: nat, t: nat :: IsRunning(s', i, t) <==> IsRunning(s, i, t);
    assert p !in s.origin;
  }

  lemma KeepUserInserted(s: State, job: Job)
    requires JobInv(s) && Schedulable(job)
    ensures JobInv(UserInserted(s, job))
  {
    var p, score := Stored(job.jobId, Some(job)), ScoreOf(job);
    if p in s.zset {
      KeepInserted(s, p, score);
    } else {
      var l := Lineage(job.jobId, score, job.interval, LimitOf(job), 0);
      var mid := s.(lineages := s.lineages + [l]);
      KeepNewLineage(s, mid, l);
      assert Nth(l, 0) == score;
      KeepPlaced(mid, UserInserted(s, job), p, score, |s.lineages|);
    }
  }

  lemma KeepRescheduled(s: State, job: Job, atMs: int, token: nat)
    requires JobInv(s) && job.executeAt.Stamp? && atMs == ScoreOf(job) && token < |s.lineages| && Free(s, token)
    requires Ready(s.lineages[token], Stored(job.jobId, Some(job)), atMs)
    ensures JobInv(Rescheduled(s, job, atMs, token))
  {
    var p := Stored(job.jobId, Some(job));
    if p in s.zset {
      KeepInserted(s, p, atMs);
    } else {
      KeepPlaced(s, Rescheduled(s, job, atMs, token), p, atMs, token);
    }
  }

  // The run of a lineage: one more fire, moved from pending to running.
  lemma RunArithmetic(l: Lineage, p: Payload, score: int, now: int)
    requires Ready(l, p, score) && Due(score, Millis(now)) && !Expired(p.job.value, now) && Bounded(l)
    ensures var l' := l.(fires := l.fires + 1);
            Bounded(l') && InRun(l', p, now)
  {
    var l' := l.(fires := l.fires + 1);
    assert Nth(l', l'.fires - 1) == Nth(l, l.fires) <= score <= Millis(now);
    if l.limit.Some? {
      MillisMonotone(now, l.limit.value);
    }
  }

  lemma MillisMonotone(a: int, b: int)
    requires a <= b
    ensures Millis(a) <= Millis(b)
  {
  }

  lemma StartRunTokens(s: State, inst: nat, d: Payload)
    requires TokenInv(s) && WorkOf(s, inst).Working? && WorkOf(s, inst).stage == Claimed && d in s.origin
    ensures TokenInv(StartRun(s, inst, d))
  {
    var s', token := StartRun(s, inst, d), s.origin[d];
    assert forall i: nat, t: nat :: IsRunning(s', i, t) <==> (i == inst && t == token) || (i != inst && IsRunning(s, i, t));
  }

  lemma KeepStartRun(s: State, inst: nat, d: Payload)
    requires JobInv(s) && WorkOf(s, inst).Working? && WorkOf(s, inst).stage == Claimed
    requires d in s.origin && d == WorkOf(s, inst).due[0]
    ensures JobInv(StartRun(s, inst, d))
  {
    var s', w, token := StartRun(s, inst, d), WorkOf(s, inst), s.origin[d];
    StartRunTokens(s, inst, d);
    RunArithmetic(s.lineages[token], d, s.zset[d], w.now);
    forall t: nat ensures Fires(s'.fired, t) == Fires(s.fired, t) + if t == token then 1 else 0 {
      OneMoreFire(s.fired, Fire(d, w.now, token), t);
    }
    StartRunProgress(s, inst, d);
  }

  lemma StartRunWork(s: State, inst: nat, d: Payload)
    requires JobInv(s) && WorkOf(s, inst).Working? && WorkOf(s, inst).stage == Claimed && d in s.origin
    ensures WorkInv(StartRun(s, inst, d))
  {
  }

  lemma StartRunPending(s: State, inst: nat, d: Payload)
    requires JobInv(s) && WorkOf(s, inst).Working? && d in s.origin
    ensures var s' := StartRun(s, inst, d);
            && (forall p :: p in s'.origin ==>
                  p in s'.zset && s'.origin[p] < |s'.lineages| && Ready(s'.lineages[s'.origin[p]], p, s'.zset[p]))
            && |s'.lineages| == |s.lineages|
            && (forall t: nat :: t < |s.lineages| && t != s.origin[d] ==> s'.lineages[t] == s.lineages[t])
  {
    var s' := StartRun(s, inst, d);
    forall p | p in s'.origin ensures s'.origin[p] == s.origin[p] != s.origin[d] && s'.zset[p] == s.zset[p] {
      assert p in s.origin && p != d;
    }
  }

  lemma StartRunProgress(s: State, inst: nat, d: Payload)
    requires JobInv(s) && WorkOf(s, inst).Working? && WorkOf(s, inst).stage == Claimed
    requires d in s.origin && d == WorkOf(s, inst).due[0]
    requires TokenInv(StartRun(s, inst, d))
    ensures WorkInv(StartRun(s, inst, d)) && ProgressInv(StartRun(s, inst, d))
  {
    var s', w, token := StartRun(s, inst, d), WorkOf(s, inst), s.origin[d];
    RunArithmetic(s.lineages[token], d, s.zset[d], w.now);
    StartRunWork(s, inst, d);
    StartRunPending(s, inst, d);
    forall i: nat, t: nat | IsRunning(s', i, t)
      ensures InRun(s'.lineages[t], WorkOf(s', i).due[0], WorkOf(s', i).now)
    {
      if i != inst {
        assert IsRunning(s, i, t) && t != token;
      }
    }
  }

  lemma RescheduleArithmetic(l: Lineage, p: Payload, now: int)
    requires InRun(l, p, now) && IsTickTime(now) && NextRun(p.job.value, now).Some?
    ensures var next := NextRun(p.job.value, now).value;
            Ready(l, Stored(next.jobId, Some(next)), NextMs(p.job.value, now))
  {
    NextRunScore(p.job.value, now);
    assert Nth(l, l.fires) == Nth(l, l.fires - 1) + l.interval;
  }

  lemma KeepFinishRun(s: State, inst: nat, token: nat)
    requires JobInv(s) && IsRunning(s, inst, token)
    ensures var w := WorkOf(s, inst);
            JobInv(FinishRun(s, inst, w.due[0].job.value, w.now, token))
  {
    var w := WorkOf(s, inst);
    var d := w.due[0];
    SkippedOk(w);
    KeepWith(s, inst, Skipped(w));
    var next := NextRun(d.job.value, w.now);
    if next.Some? {
      RescheduleArithmetic(s.lineages[token], d, w.now);
      RescheduledScore(d.job.value, w.now);
      KeepRescheduled(With(s, inst, Skipped(w)), next.value, NextMs(d.job.value, w.now), token);
    }
  }

  // ---- Each step keeps the invariants ----

  lemma LedgerFinish(s: State, inst: nat, job: Job, now: int, token: nat)
    requires LedgerInv(s) && IsTickTime(now) && WorkOf(s, inst).Working? && WorkOf(s, inst).due != []
    ensures LedgerInv(FinishRun(s, inst, job, now, token))
  {
    var next := NextRun(job, now);
    if next.Some? {
      var s' := With(s, inst, Skipped(WorkOf(s, inst)));
      InsertedLedger(s', Stored(next.value.jobId, next), NextMs(job, now));
    }
  }

  lemma LedgerInst(s: State, step: Step, inst: nat)
    requires LedgerInv(s) && IsInstStep(step)
    ensures LedgerInv(InstNext(s, step, inst))
  {
    var w := WorkOf(s, inst);
    if w.Working? && w.due != [] && IsTickTime(w.now) {
      var d := w.due[0];
      if step.DropMalformed? {
        RemovedLedger(s, d, ToMalformed);
      } else if step.DropExpired? {
        RemovedLedger(s, d, ToExpired);
      } else if step.Take? {
        RemovedLedger(s, d, ToStarted);
      } else if step.Reschedule? && w.stage.Running? && HasJob(d) {
        LedgerFinish(s, inst, d.job.value, w.now, w.stage.token);
      }
    }
  }

  lemma LedgerUser(s: State, step: Step)
    requires LedgerInv(s) && !IsInstStep(step)
    ensures LedgerInv(UserNext(s, step))
  {
    match step
    case AddInsert(u) =>
      if u in s.users && s.users[u].Adding? && Schedulable(s.users[u].job) {
        var job := s.users[u].job;
        InsertedLedger(s, Stored(job.jobId, Some(job)), ScoreOf(job));
      }
    case RemoveZrem(u) =>
      if u in s.users && s.users[u].Removing? {
        RemovedLedger(s, s.users[u].member, ToByUser);
      }
    case Foreign(p, score) => InsertedLedger(s, p, score);
    case _ =>
  }

  lemma LogStart(s: State, inst: nat, d: Payload)
    requires LogInv(s) && d in s.origin && d in s.zset && s.origin[d] < |s.lineages| && WorkOf(s, inst).Working?
    ensures LogInv(StartRun(s, inst, d))
  {
    var f := Fire(d, WorkOf(s, inst).now, s.origin[d]);
    assert Members(s.fired + [f]) == Members(s.fired) + [d];
  }

  lemma LogTake(s: State, inst: nat)
    requires LogInv(s)
    ensures LogInv(InstNext(s, Take(inst), inst))
  {
    var w := WorkOf(s, inst);
    if w.Working? && w.due != [] {
      var d := w.due[0];
      if d in s.zset && d in s.origin && s.origin[d] < |s.lineages| {
        LogStart(s, inst, d);
      }
    }
  }

  // No other step touches the log or what it is compared with.
  lemma LogQuiet(s: State, step: Step)
    requires !step.Take?
    ensures Next(s, step).fired == s.fired && Next(s, step).ledger.started == s.ledger.started
  {
    if !IsInstStep(step) {
      LogQuietUser(s, step);
    }
  }

  lemma LogQuietUser(s: State, step: Step)
    requires !IsInstStep(step)
    ensures UserNext(s, step).fired == s.fired && UserNext(s, step).ledger.started == s.ledger.started
  {
  }

  lemma InstMoves(s: State, step: Step, inst: nat)
    requires JobInv(s) && (step.Tick? || step.Rest? || step.GiveUp? || step.Claim?)
    ensures JobInv(InstNext(s, step, inst))
  {
    var w := WorkOf(s, inst);
    if step.Tick? {
      if IsDueList(s.zset, step.now, step.due) && IsTickTime(step.now) {
        KeepWith(s, inst, Working(step.now, step.due, Pick));
      }
    } else if step.Rest? {
      KeepWith(s, inst, Resting);
    } else if w.Working? && w.due != [] {
      KeepSkipped(s, inst);
      if step.Claim? && HasJob(w.due[0]) && !Expired(w.due[0].job.value, w.now) {
        KeepClaim(s, inst, s.claims + {w.due[0].job.value.jobId});
      }
    }
  }

  lemma KeepSkipped(s: State, inst: nat)
    requires JobInv(s) && WorkOf(s, inst).Working? && WorkOf(s, inst).due != []
    ensures JobInv(With(s, inst, Skipped(WorkOf(s, inst))))
  {
    SkippedOk(WorkOf(s, inst));
    KeepWith(s, inst, Skipped(WorkOf(s, inst)));
  }

  lemma InstDrops(s: State, step: Step, inst: nat)
    requires JobInv(s) && (step.DropMalformed? || step.DropExpired?)
    ensures JobInv(InstNext(s, step, inst))
  {
    var w := WorkOf(s, inst);
    if w.Working? && w.due != [] {
      var bucket := if step.DropMalformed? then ToMalformed else ToExpired;
      SkippedOk(w);
      KeepRemoved(s, w.due[0], bucket);
      KeepWith(Removed(s, w.due[0], bucket), inst, Skipped(w));
    }
  }

  lemma InstRuns(s: State, step: Step, inst: nat)
    requires JobInv(s) && (step.Take? || step.Reschedule?)
    ensures JobInv(InstNext(s, step, inst))
  {
    if step.Take? {
      InstTakes(s, step, inst);
    } else {
      var w := WorkOf(s, inst);
      if w.Working? && w.due != [] && w.stage.Running? {
        KeepFinishRun(s, inst, w.stage.token);
      }
    }
  }

  lemma InstTakes(s: State, step: Step, inst: nat)
    requires JobInv(s) && step.Take?
    ensures JobInv(InstNext(s, step, inst))
  {
    var w := WorkOf(s, inst);
    if w.Working? && w.stage == Claimed {
      TakeIs(s, inst);
      if w.due[0] in s.origin {
        KeepStartRun(s, inst, w.due[0]);
      } else {
        KeepSkipped(s, inst);
      }
    }
  }

  // The instance has claimed a member that is tracked if it is there.
  ghost predicate AboutToTake(s: State, inst: nat) {
    && WorkOf(s, inst).Working? && WorkOf(s, inst).stage == Claimed && WorkOf(s, inst).due != []
    && IsTickTime(WorkOf(s, inst).now)
    && var d := WorkOf(s, inst).due[0];
       (d in s.zset <==> d in s.origin) && (d in s.origin ==> s.origin[d] < |s.lineages|)
  }

  lemma ClaimedIsAboutToTake(s: State, inst: nat)
    requires JobInv(s) && WorkOf(s, inst).Working? && WorkOf(s, inst).stage == Claimed
    ensures AboutToTake(s, inst) && HasJob(WorkOf(s, inst).due[0])
  {
    assert WorkOk(WorkOf(s, inst));
  }

  ghost function Taken(s: State, inst: nat): State
    requires AboutToTake(s, inst)
  {
    var d := WorkOf(s, inst).due[0];
    if d in s.origin then StartRun(s, inst, d) else With(s, inst, Skipped(WorkOf(s, inst)))
  }

  lemma TakeIs(s: State, inst: nat)
    requires JobInv(s) && WorkOf(s, inst).Working? && WorkOf(s, inst).stage == Claimed
    ensures AboutToTake(s, inst) && InstNext(s, Take(inst), inst) == Taken(s, inst)
  {
    ClaimedIsAboutToTake(s, inst);
    TakeFrom(s, inst);
  }

  lemma TakeFrom(s: State, inst: nat)
    requires AboutToTake(s, inst)
    ensures InstNext(s, Take(inst), inst) == Taken(s, inst)
  {
  }

  lemma KeepClaim(s: State, inst: nat, claims: set<string>)
    requires JobInv(s) && WorkOf(s, inst).Working? && WorkOf(s, inst).due != []
    requires HasJob(WorkOf(s, inst).due[0]) && !Expired(WorkOf(s, inst).due[0].job.value, WorkOf(s, inst).now)
    ensures JobInv(With(s, inst, WorkOf(s, inst).(stage := Claimed)).(claims := claims))
  {
    var w := WorkOf(s, inst).(stage := Claimed);
    KeepWith(s, inst, w);
    SameJobs(With(s, inst, w), With(s, inst, w).(claims := claims));
  }

  // Claims, user work and the ledger do not matter to the invariant.
  lemma SameJobs(s: State, s': State)
    requires JobInv(s)
    requires s'.zset == s.zset && s'.origin == s.origin && s'.lineages == s.lineages
    requires s'.insts == s.insts && s'.fired == s.fired
    ensures JobInv(s')
  {
    assert forall i: nat, t: nat :: IsRunning(s', i, t) <==> IsRunning(s, i, t);
    assert TokenInv(s');
  }

  lemma KeepAddInsert(s: State, u: nat)
    requires JobInv(s)
    ensures JobInv(UserNext(s, AddInsert(u)))
  {
    if u in s.users && s.users[u].Adding? && Schedulable(s.users[u].job) {
      KeepUserInserted(s, s.users[u].job);
      SameJobs(UserInserted(s, s.users[u].job), UserNext(s, AddInsert(u)));
    }
  }

  lemma KeepRemoveZrem(s: State, u: nat)
    requires JobInv(s)
    ensures JobInv(UserNext(s, RemoveZrem(u)))
  {
    if u in s.users && s.users[u].Removing? {
      KeepRemoved(s, s.users[u].member, ToByUser);
      SameJobs(Removed(s, s.users[u].member, ToByUser), UserNext(s, RemoveZrem(u)));
    }
  }

  lemma UserStep(s: State, step: Step)
    requires JobInv(s) && !IsInstStep(step)
    ensures JobInv(UserNext(s, step))
  {
    match step
    case AddInsert(u) => KeepAddInsert(s, u);
    case RemoveZrem(u) => KeepRemoveZrem(s, u);
    case Foreign(p, score) =>
      if !HasJob(p) {
        KeepInserted(s, p, score);
      }
    case _ => SameJobs(s, UserNext(s, step));
  }

  lemma {:induction false} ExecKeepsInv(steps: seq<Step>)
    ensures LedgerInv(Exec(steps)) && LogInv(Exec(steps)) && JobInv(Exec(steps))
  {
    if steps == [] {
    } else {
      ExecKeepsInv(steps[..|steps| - 1]);
      var s, step := Exec(steps[..|steps| - 1]), steps[|steps| - 1];
      if step.Take? {
        LogTake(s, step.inst);
      } else {
        LogQuiet(s, step);
      }
      if !IsInstStep(step) {
        LedgerUser(s, step);
        UserStep(s, step);
      } else {
        LedgerInst(s, step, step.inst);
        if step.Take? || step.Reschedule? {
          InstRuns(s, step, step.inst);
        } else if step.DropMalformed? || step.DropExpired? {
          InstDrops(s, step, step.inst);
        } else {
          InstMoves(s, step, step.inst);
        }
      }
    }
  }

  // ---- Theorems ----

  // At most once, with exact accounting: every insertion is still pending, was
  // run, or was removed as expired, as malformed or by a user, exactly one of
  // these; in particular no member is run more often than it was inserted.
  lemma AtMostOnce(steps: seq<Step>, p: Payload)
    ensures var s := Exec(steps);
            var l := s.ledger;
            && l.inserted[p] == (if p in s.zset then 1 else 0) + l.started[p] + l.expired[p] + l.malformed[p] + l.byUser[p]
            && multiset(Members(s.fired))[p] <= l.inserted[p]
            && |l.inserted| == |s.zset| + |s.fired| + |l.expired| + |l.malformed| + |l.byUser|
  {
    ExecKeepsInv(steps);
    var s := Exec(steps);
    assert |multiset(s.zset.Keys)| == |s.zset.Keys| == |s.zset|;
    assert |multiset(Members(s.fired))| == |s.fired|;
  }

  ghost function PendingOf(s: State, jobId: string): set<Payload> {
    set p | p in s.zset && HasJob(p) && p.job.value.jobId == jobId
  }

  ghost function RunningOf(s: State, jobId: string): set<nat> {
    set i | i in s.insts && s.insts[i].Working? && s.insts[i].stage.Running? && s.insts[i].due != []
            && HasJob(s.insts[i].due[0]) && s.insts[i].due[0].job.value.jobId == jobId
  }

  ghost function AddedOf(s: State, jobId: string): set<nat> {
    set t | 0 <= t < |s.lineages| && s.lineages[t].jobId == jobId
  }

  // Every place under a job ID belongs to its own lineage under that ID.
  lemma PlacesAreFewer(s: State, jobId: string)
    requires TokenInv(s)
    requires forall p :: p in s.origin ==> s.lineages[s.origin[p]].jobId == p.job.value.jobId
    requires forall i: nat, t: nat :: IsRunning(s, i, t) ==>
               WorkOf(s, i).due != [] && HasJob(WorkOf(s, i).due[0])
               && s.lineages[t].jobId == WorkOf(s, i).due[0].job.value.jobId
    ensures |PendingOf(s, jobId)| + |RunningOf(s, jobId)| <= |AddedOf(s, jobId)|
  {
    var pending, running := PendingOf(s, jobId), RunningOf(s, jobId);
    var tokens := map i | i in running :: s.insts[i].stage.token;
    forall i | i in running ensures tokens[i] in AddedOf(s, jobId) {
      assert IsRunning(s, i, tokens[i]);
    }
    forall i, p | i in running && p in pending ensures s.origin[p] != tokens[i] {
      assert IsRunning(s, i, tokens[i]);
    }
    forall i, j | i in running && j in running && i != j ensures tokens[i] != tokens[j] {
      assert IsRunning(s, i, tokens[i]) && IsRunning(s, j, tokens[j]);
    }
    DisjointImages(pending, s.origin, running, tokens, AddedOf(s, jobId));
  }

  // Rescheduling never multiplies a job: under one ID there are never more
  // members pending and runs in progress, together, than AddJob inserted.
  lemma NeverMultiplies(steps: seq<Step>, jobId: string)
    ensures var s := Exec(steps);
            |PendingOf(s, jobId)| + |RunningOf(s, jobId)| <= |AddedOf(s, jobId)|
  {
    ExecKeepsInv(steps);
    PlacesAreFewer(Exec(steps), jobId);
  }

  // Never early: a run happens at a tick time that the member's own executeAt has
  // reached, however stale the list it was picked from, and not after validUntil.
  lemma NeverEarly(steps: seq<Step>, k: nat)
    requires k < |Exec(steps).fired|
    ensures var f := Exec(steps).fired[k];
            && HasJob(f.member) && f.member.job.value.executeAt.Stamp?
            && 0 <= f.member.job.value.executeAt.nanos / 1_000_000 <= f.now / 1_000_000
            && !EndsBefore(f.member.job.value, f.now)
  {
    ExecKeepsInv(steps);
    assert FireOk(Exec(steps).fired[k]);
  }

  // Bounded recurrence, whatever the instances' clocks say: the job added as
  // lineage `t` runs at most once without an interval; and with an interval and a
  // validUntil at most (validUntil - first) / interval + 1 times, not at all if
  // its first time is past validUntil.
  lemma BoundedRecurrence(steps: seq<Step>, t: nat)
    requires t < |Exec(steps).lineages|
    ensures var l := Exec(steps).lineages[t];
            var fires := Fires(Exec(steps).fired, t);
            && (l.interval <= 0 ==> fires <= 1)
            && (l.limit.Some? && Millis(l.limit.value) < l.first ==> fires == 0)
            && (l.limit.Some? && l.interval > 0 && l.first <= Millis(l.limit.value) ==>
                  fires <= (Millis(l.limit.value) - l.first) / l.interval + 1)
  {
    RunsAreBounded(steps, t);
    FireBound(Exec(steps).lineages[t]);
  }

  lemma RunsAreBounded(steps: seq<Step>, t: nat)
    requires t < |Exec(steps).lineages|
    ensures Bounded(Exec(steps).lineages[t]) && Fires(Exec(steps).fired, t) == Exec(steps).lineages[t].fires
  {
    ExecKeepsInv(steps);
  }

  lemma FireBound(l: Lineage)
    requires Bounded(l)
    ensures l.interval <= 0 ==> l.fires <= 1
    ensures l.limit.Some? && Millis(l.limit.value) < l.first ==> l.fires == 0
    ensures l.limit.Some? && l.interval > 0 && l.first <= Millis(l.limit.value) ==>
              l.fires <= (Millis(l.limit.value) - l.first) / l.interval + 1
  {
    if l.fires > 0 && l.limit.Some? {
      assert (l.fires - 1) * Gap(l) >= 0;
      if l.interval > 0 {
        DivideBound(l.fires - 1, l.interval, Millis(l.limit.value) - l.first);
      }
    }
  }

  lemma DivideBound(n: nat, gap: int, span: int)
    requires gap > 0 && n * gap <= span
    ensures n <= span / gap
  {
    var q := span / gap;
    assert n * gap < (q + 1) * gap;
    CancelFactor(n, q + 1, gap);
  }

  lemma CancelFactor(a: int, b: int, factor: int)
    requires factor > 0 && a * factor < b * factor
    ensures a < b
  {
    assert (b - a) * factor > 0;
  }
}

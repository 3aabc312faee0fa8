/**
 The distributed scheduler as a state machine: any number of instances tick, claim,
 remove, run and reschedule members of one shared sorted set while users add and
 remove jobs. Every Redis command is one step; instances have clocks of their own,
 claims expire at any time, commands fail and instances crash.
 */
module Scheduler {
  import opened Basics
  import opened Jobs

  // ---- State ----

  datatype Stage = Pick | Claimed | Running(token: nat)

  /** Where an instance is in tick: `due[0]` is the member being processed. */
  datatype Work = Resting | Working(now: int, due: seq<Payload>, stage: Stage)

  datatype UserWork = Adding(job: Job) | Removing(member: Payload)

  /** How often members were inserted, and why they left. */
  datatype Ledger = Ledger(
    inserted: multiset<Payload>,
    started: multiset<Payload>,
    expired: multiset<Payload>,
    malformed: multiset<Payload>,
    byUser: multiset<Payload>)

  /** One job as a user added it, through all its reschedules. */
  datatype Lineage = Lineage(jobId: string, first: int, interval: int, limit: Option<int>, fires: nat)

  datatype Fire = Fire(member: Payload, now: int, token: nat)

  datatype State = State(
    zset: map<Payload, int>,
    claims: set<string>,
    insts: map<nat, Work>,
    users: map<nat, UserWork>,
    ledger: Ledger,
    origin: map<Payload, nat>,  // the lineage of each pending member
    lineages: seq<Lineage>,
    fired: seq<Fire>)

  const INIT := State(map[], {}, map[], map[], Ledger(multiset{}, multiset{}, multiset{}, multiset{}, multiset{}), map[], [], [])

  datatype Step =
    | AddCheck(user: nat, job: Job)            // AddJob: validation and jobExists
    | AddInsert(user: nat)                     // its ZADD
    | RemoveFind(user: nat, member: Payload)   // RemoveJob: the scan
    | RemoveZrem(user: nat)                    // its ZREM
    | Foreign(member: Payload, score: int)     // a member without job data, from elsewhere
    | ClaimExpires(jobId: string)
    | Tick(inst: nat, now: int, due: seq<Payload>)
    | DropMalformed(inst: nat)
    | DropExpired(inst: nat)
    | Claim(inst: nat)
    | Take(inst: nat)                          // ZREM, and the run it entitles to
    | Reschedule(inst: nat)                    // ZADD after the run, if there is a next run
    | GiveUp(inst: nat)                        // a failed command: on to the next member
    | Rest(inst: nat)                          // end of tick, or a crash

  function WorkOf(s: State, inst: nat): Work {
    if inst in s.insts then s.insts[inst] else Resting
  }

  // ---- The two things that happen to the sorted set ----

  datatype Bucket = ToStarted | ToExpired | ToMalformed | ToByUser

  function Entered(l: Ledger, bucket: Bucket, p: Payload): Ledger {
    match bucket
    case ToStarted => l.(started := l.started + multiset{p})
    case ToExpired => l.(expired := l.expired + multiset{p})
    case ToMalformed => l.(malformed := l.malformed + multiset{p})
    case ToByUser => l.(byUser := l.byUser + multiset{p})
  }

  // ZREM of one member.
  function Removed(s: State, p: Payload, bucket: Bucket): State {
    if p !in s.zset then s
    else s.(zset := s.zset - {p}, origin := s.origin - {p}, ledger := Entered(s.ledger, bucket, p))
  }

  // ZADD: a member already there only gets its score set again.
  function Inserted(s: State, p: Payload, score: int): State {
    if p in s.zset then s.(zset := s.zset[p := score])
    else s.(zset := s.zset[p := score], ledger := s.ledger.(inserted := s.ledger.inserted + multiset{p}))
  }

  function UserInserted(s: State, job: Job): State
    requires Schedulable(job)
  {
    var p := Stored(job.jobId, Some(job));
    var s' := Inserted(s, p, ScoreOf(job));
    if p in s.zset then s'
    else
      s'.(origin := s.origin[p := |s.lineages|],
          lineages := s.lineages + [Lineage(job.jobId, ScoreOf(job), job.interval, LimitOf(job), 0)])
  }

  function Rescheduled(s: State, job: Job, atMs: int, token: nat): State {
    var p := Stored(job.jobId, Some(job));
    var s' := Inserted(s, p, atMs);
    if p in s.zset then s' else s'.(origin := s.origin[p := token])
  }

  // ---- Instances ----

  function With(s: State, inst: nat, w: Work): State {
    s.(insts := s.insts[inst := w])
  }

  function Skipped(w: Work): Work
    requires w.Working? && w.due != []
  {
    w.(due := w.due[1..], stage := Pick)
  }

  function StartRun(s: State, inst: nat, d: Payload): State
    requires d in s.origin && d in s.zset && s.origin[d] < |s.lineages| && WorkOf(s, inst).Working?
  {
    var w, token := WorkOf(s, inst), s.origin[d];
    var l := s.lineages[token];
    With(Removed(s, d, ToStarted), inst, w.(stage := Running(token)))
      .(lineages := s.lineages[token := l.(fires := l.fires + 1)],
        fired := s.fired + [Fire(d, w.now, token)])
  }

  function FinishRun(s: State, inst: nat, job: Job, now: int, token: nat): State
    requires IsTickTime(now) && WorkOf(s, inst).Working? && WorkOf(s, inst).due != []
  {
    var s' := With(s, inst, Skipped(WorkOf(s, inst)));
    var next := NextRun(job, now);
    if next.Some? then Rescheduled(s', next.value, NextMs(job, now), token) else s'
  }

  function InstNext(s: State, step: Step, inst: nat): State {
    var w := WorkOf(s, inst);
    if step.Tick? then
      if w != Resting || !IsTickTime(step.now) || !IsDueList(s.zset, step.now, step.due) then s
      else With(s, inst, Working(step.now, step.due, Pick))
    else if step.Rest? then With(s, inst, Resting)
    else if !w.Working? || w.due == [] || !IsTickTime(w.now) then s
    else
      var d := w.due[0];
      match step
      case GiveUp(_) => With(s, inst, Skipped(w))
      case DropMalformed(_) =>
        if w.stage == Pick && d.Stored? && d.job.None? then With(Removed(s, d, ToMalformed), inst, Skipped(w)) else s
      case DropExpired(_) =>
        if w.stage == Pick && HasJob(d) && Expired(d.job.value, w.now)
        then With(Removed(s, d, ToExpired), inst, Skipped(w)) else s
      case Claim(_) =>
        if w.stage != Pick || !HasJob(d) || Expired(d.job.value, w.now) then s
        else if d.job.value.jobId in s.claims then With(s, inst, Skipped(w))
        else With(s, inst, w.(stage := Claimed)).(claims := s.claims + {d.job.value.jobId})
      case Take(_) =>
        if w.stage != Claimed then s
        else if d !in s.zset then With(s, inst, Skipped(w))
        else if d in s.origin && s.origin[d] < |s.lineages| then StartRun(s, inst, d)
        else s
      case Reschedule(_) =>
        if w.stage.Running? && HasJob(d) then FinishRun(s, inst, d.job.value, w.now, w.stage.token) else s
      case _ => s
  }

  // ListDueJobs: members with a score between 0 and now that parse.

  predicate IsDueList(zset: map<Payload, int>, now: int, due: seq<Payload>) {
    forall i | 0 <= i < |due| :: due[i].Stored? && due[i] in zset && Due(zset[due[i]], Millis(now))
  }

  // ---- Users ----

  predicate JobExists(zset: map<Payload, int>, jobId: string) {
    exists p | p in zset.Keys :: p.Stored? && p.jobId == jobId
  }

  function UserNext(s: State, step: Step): State {
    match step
    case AddCheck(u, job) =>
      if u in s.users || !Schedulable(job) || JobExists(s.zset, job.jobId) then s
      else s.(users := s.users[u := Adding(job)])
    case AddInsert(u) =>
      if u !in s.users || !s.users[u].Adding? || !Schedulable(s.users[u].job) then s
      else UserInserted(s, s.users[u].job).(users := s.users - {u})
    case RemoveFind(u, p) =>
      if u in s.users || p !in s.zset || !p.Stored? then s
      else s.(users := s.users[u := Removing(p)])
    case RemoveZrem(u) =>
      if u !in s.users || !s.users[u].Removing? then s
      else Removed(s, s.users[u].member, ToByUser).(users := s.users - {u})
    case Foreign(p, score) =>
      if HasJob(p) then s else Inserted(s, p, score)
    case ClaimExpires(id) =>
      s.(claims := s.claims - {id})
    case _ => s
  }

  predicate IsInstStep(step: Step) {
    || step.Tick? || step.DropMalformed? || step.DropExpired? || step.Claim?
    || step.Take? || step.Reschedule? || step.GiveUp? || step.Rest?
  }

  function Next(s: State, step: Step): State {
    if IsInstStep(step) then InstNext(s, step, step.inst) else UserNext(s, step)
  }

  function Exec(steps: seq<Step>): State {
    if steps == [] then INIT else Next(Exec(steps[..|steps| - 1]), steps[|steps| - 1])
  }
}

/**
 Scheduler payloads and the pure decisions made about them
 (internal/scheduler/scheduler.go, internal/redisx/scheduler_store.go).
 */
module Jobs {
  import opened Basics

  const NANOS_PER_MILLI := 1_000_000
  const TWO_63: int := 0x8000_0000_0000_0000
  const TWO_64: int := 0x1_0000_0000_0000_0000

  type Int64 = n: int | -TWO_63 <= n < TWO_63

  /** A timestamp text: the instant it denotes (nanoseconds since 1970) and how it
      is spelt, or a text the RFC 3339 parser rejects. */
  datatype Stamp = Stamp(nanos: int, spelling: string) | Garbage(spelling: string)

  /** `validUntil` is None for the empty text. */
  datatype Job = Job(jobId: string, executeAt: Stamp, validUntil: Option<Stamp>, interval: Int64, request: string)

  /** A member of the scheduler set, identified by its whole content as the JSON
      text is: one that does not parse, or one with or without job data. */
  datatype Payload = Unparsable(raw: string) | Stored(jobId: string, job: Option<Job>)

  predicate HasJob(p: Payload) {
    p.Stored? && p.job.Some?
  }

  // time.Time.UnixMilli: rounds down, before 1970 too.
  function Millis(nanos: int): int {
    nanos / NANOS_PER_MILLI
  }

  // int64 addition.
  function Add64(a: Int64, b: Int64): Int64 {
    var sum := a + b;
    if sum >= TWO_63 then sum - TWO_64 else if sum < -TWO_63 then sum + TWO_64 else sum
  }

  // The instant in validUntil, if the text is there and parses.
  function LimitOf(job: Job): Option<int> {
    match job.validUntil
    case Some(Stamp(nanos, _)) => Some(nanos)
    case _ => None
  }

  predicate Expired(job: Job, now: int) {
    LimitOf(job).Some? && LimitOf(job).value < now
  }

  function ScoreOf(job: Job): int
    requires job.executeAt.Stamp?
  {
    Millis(job.executeAt.nanos)
  }

  predicate Schedulable(job: Job) {
    job.jobId != "" && job.executeAt.Stamp?
  }

  predicate IsTickTime(now: int) {
    -TWO_63 <= Millis(now) < TWO_63
  }

  // When processDue would run the job next: the score it adds it back with.
  function NextMs(job: Job, now: int): Int64
    requires IsTickTime(now)
  {
    Add64(Millis(now), job.interval)
  }

  // What processDue adds back after running a job at tick time `now`: the same job
  // with its executeAt overwritten.
  function NextRun(job: Job, now: int): (next: Option<Job>)
    requires IsTickTime(now)
    ensures next.Some? ==> next.value.executeAt.Stamp?
  {
    if job.interval <= 0 then None
    else
      var nextMs := NextMs(job, now);
      if LimitOf(job).Some? && Millis(LimitOf(job).value) < nextMs then None
      else Some(job.(executeAt := Stamp(nextMs * NANOS_PER_MILLI, "RFC3339Nano")))
  }

  // A rescheduled job's score is at least one interval after the tick that ran
  // it, unless the int64 sum overflowed; then it is negative and, since due jobs
  // are listed from score 0 up, the job is never listed again.
  lemma NextRunScore(job: Job, now: int)
    requires IsTickTime(now) && Millis(now) >= 0 && NextRun(job, now).Some?
    ensures var next := NextRun(job, now).value;
            && ScoreOf(next) == NextMs(job, now)
            && (ScoreOf(next) == Millis(now) + job.interval || ScoreOf(next) < 0)
            && (ScoreOf(next) < 0 <==> Millis(now) + job.interval >= TWO_63)
            && next == job.(executeAt := next.executeAt)
            && (ScoreOf(next) >= 0 && LimitOf(job).Some? ==> ScoreOf(next) <= Millis(LimitOf(job).value))
  {
    RescheduledScore(job, now);
  }

  // The text written into the job denotes the millisecond of its score.
  lemma RescheduledScore(job: Job, now: int)
    requires IsTickTime(now) && NextRun(job, now).Some?
    ensures ScoreOf(NextRun(job, now).value) == NextMs(job, now)
  {
    var nextMs := NextMs(job, now);
    assert nextMs * NANOS_PER_MILLI / NANOS_PER_MILLI == nextMs;
  }

  predicate Due(score: int, nowMs: int) {
    0 <= score <= nowMs
  }

  // ---- The same in numbers ----

  // The job has a validUntil that parses, and it lies before `nanos`.
  predicate EndsBefore(job: Job, nanos: int) {
    job.validUntil.Some? && job.validUntil.value.Stamp? && job.validUntil.value.nanos < nanos
  }

  // The job has a validUntil that parses, and its millisecond lies before `ms`.
  predicate EndsBeforeMs(job: Job, ms: int) {
    job.validUntil.Some? && job.validUntil.value.Stamp? && job.validUntil.value.nanos / 1_000_000 < ms
  }

  // The tick's millisecond plus the interval, as int64 addition gives it.
  function SumMs(job: Job, now: int): int {
    var sum := now / 1_000_000 + job.interval;
    if sum >= 0x8000_0000_0000_0000 then sum - 0x1_0000_0000_0000_0000 else sum
  }

  lemma ExpiredIff(job: Job, now: int)
    ensures Expired(job, now) <==> EndsBefore(job, now)
  {
  }

  lemma SumMsIsNextMs(job: Job, now: int)
    requires IsTickTime(now) && job.interval > 0
    ensures NextMs(job, now) == SumMs(job, now)
  {
  }

  // When there is a next run, and what it is: for a positive interval, unless the
  // validUntil ends before it, the same job at the sum of tick and interval.
  lemma NextRunIff(job: Job, now: int)
    requires IsTickTime(now)
    ensures NextRun(job, now).Some? <==> job.interval > 0 && !EndsBeforeMs(job, SumMs(job, now))
    ensures NextRun(job, now).Some? ==>
              NextRun(job, now).value == job.(executeAt := Stamp(SumMs(job, now) * 1_000_000, "RFC3339Nano"))
  {
    if job.interval > 0 {
      SumMsIsNextMs(job, now);
    }
  }

  lemma ScoreIsMillis(job: Job)
    requires job.executeAt.Stamp?
    ensures ScoreOf(job) == job.executeAt.nanos / 1_000_000
  {
  }
}

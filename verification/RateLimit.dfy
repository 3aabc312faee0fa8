/**
 The sliding-window rate limiter (internal/ratelimit/ratelimit.go): the Lua script
 over one sorted set with a time to live, and what it bounds over whole runs.

 A request carries the caller's own timestamp and the Redis clock at which the
 script runs; the two may differ by the skew between instances. Redis deletes an
 expired key at some moment after its deadline, not necessarily at once; `evicted`
 says whether it has by the time of this request.
 */
module RateLimit {
  import opened Finite
  import opened Basics

  /** The text "<now>-<seq>". */
  datatype Member = Member(now: int, seqNo: nat)

  datatype Request = Request(now: int, clock: int, member: Member, evicted: bool)

  datatype Config = Config(window: int, limit: int)

  datatype Bucket = Bucket(zset: map<Member, int>, deadline: Option<int>)

  const EMPTY := Bucket(map[], None)

  function Trim(zset: map<Member, int>, bound: int): map<Member, int> {
    map m | m in zset && zset[m] > bound :: zset[m]
  }

  function Expire(b: Bucket, r: Request): Bucket {
    if r.evicted && b.deadline.Some? && b.deadline.value <= r.clock then EMPTY else b
  }

  // What the script counts.
  function Kept(b: Bucket, cfg: Config, r: Request): map<Member, int> {
    Trim(Expire(b, r).zset, r.now - cfg.window)
  }

  predicate Allows(b: Bucket, cfg: Config, r: Request) {
    |Kept(b, cfg, r)| < cfg.limit
  }

  function Script(b: Bucket, cfg: Config, r: Request): Bucket {
    var kept := Kept(b, cfg, r);
    if Allows(b, cfg, r) then Bucket(kept[r.member := r.now], Some(r.clock + cfg.window))
    else Bucket(kept, if kept == map[] then None else b.deadline)
  }

  class Limiter {
    var bucket: Bucket
    var seqNo: nat

    constructor ()
      ensures bucket == EMPTY && seqNo == 0
    {
      bucket, seqNo := EMPTY, 0;
    }

    // Allow, with the commands of the script one by one.
    method Allow(cfg: Config, now: int, clock: int, evicted: bool) returns (allowed: bool)
      modifies this
      ensures seqNo == old(seqNo) + 1
      ensures var r := Request(now, clock, Member(now, seqNo), evicted);
              bucket == Script(old(bucket), cfg, r) && allowed == Allows(old(bucket), cfg, r)
    {
      seqNo := seqNo + 1;
      var member := Member(now, seqNo);
      if evicted && bucket.deadline.Some? && bucket.deadline.value <= clock {
        bucket := EMPTY;
      }
      var kept := map m | m in bucket.zset && !(bucket.zset[m] <= now - cfg.window) :: bucket.zset[m];
      assert kept == Kept(old(bucket), cfg, Request(now, clock, member, evicted));
      bucket := Bucket(kept, if kept == map[] then None else bucket.deadline);
      if |bucket.zset| >= cfg.limit {
        return false;
      }
      bucket := bucket.(zset := bucket.zset[member := now]);
      bucket := bucket.(deadline := Some(clock + cfg.window));
      return true;
    }
  }

  // ---- Runs ----

  function Run(cfg: Config, reqs: seq<Request>): Bucket {
    if reqs == [] then EMPTY else Script(Run(cfg, reqs[..|reqs| - 1]), cfg, reqs[|reqs| - 1])
  }

  predicate Admitted(cfg: Config, reqs: seq<Request>, i: nat)
    requires i < |reqs|
  {
    Allows(Run(cfg, reqs[..i]), cfg, reqs[i])
  }

  lemma RunNext(cfg: Config, reqs: seq<Request>, i: nat)
    requires i < |reqs|
    ensures Run(cfg, reqs[..i + 1]) == Script(Run(cfg, reqs[..i]), cfg, reqs[i])
  {
    assert reqs[..i + 1][..i] == reqs[..i];
  }

  // Redis time does not go back, each caller's clock is within `skew` of it, and
  // no two requests use the same member.
  ghost predicate Clocked(reqs: seq<Request>) {
    forall i, j :: 0 <= i < j < |reqs| ==> reqs[i].clock <= reqs[j].clock
  }

  ghost predicate Skewed(reqs: seq<Request>, skew: nat) {
    forall i :: 0 <= i < |reqs| ==> reqs[i].clock - skew <= reqs[i].now <= reqs[i].clock + skew
  }

  ghost predicate Distinct(reqs: seq<Request>) {
    forall i, j :: 0 <= i < j < |reqs| ==> reqs[i].member != reqs[j].member
  }

  // No request after `i` and before `n` is a window away from it, on either clock.
  ghost predicate Near(cfg: Config, reqs: seq<Request>, i: nat, n: nat)
    requires i < n <= |reqs|
  {
    forall k :: i < k < n ==>
      reqs[k].now - reqs[i].now < cfg.window && reqs[k].clock - reqs[i].clock < cfg.window
  }

  // The request is stored with its time to live.
  ghost predicate Holds(b: Bucket, cfg: Config, stored: Request) {
    && stored.member in b.zset && b.zset[stored.member] == stored.now
    && b.deadline.Some? && b.deadline.value >= stored.clock + cfg.window
  }

  // A stored request that is less than a window away is counted by the next call
  // and still stored after it.
  lemma StaysKept(b: Bucket, cfg: Config, stored: Request, r: Request)
    requires Holds(b, cfg, stored)
    requires r.now - stored.now < cfg.window && r.clock - stored.clock < cfg.window
    ensures stored.member in Kept(b, cfg, r) && Kept(b, cfg, r)[stored.member] == stored.now
    ensures stored.clock <= r.clock && stored.member != r.member ==> Holds(Script(b, cfg, r), cfg, stored)
  {
    assert stored.member in Kept(b, cfg, r);
    assert Kept(b, cfg, r) != map[];
  }

  lemma {:induction false} StillHeld(cfg: Config, reqs: seq<Request>, i: nat, n: nat)
    requires i < n <= |reqs| && Holds(Run(cfg, reqs[..i + 1]), cfg, reqs[i])
    requires forall k :: i < k < n ==> reqs[i].clock <= reqs[k].clock && reqs[i].member != reqs[k].member
    requires Near(cfg, reqs, i, n)
    ensures Holds(Run(cfg, reqs[..n]), cfg, reqs[i])
    decreases n
  {
    if i + 1 < n {
      assert Near(cfg, reqs, i, n - 1);
      StillHeld(cfg, reqs, i, n - 1);
      var r := reqs[n - 1];
      assert reqs[i].clock <= r.clock && reqs[i].member != r.member;
      assert r.now - reqs[i].now < cfg.window && r.clock - reqs[i].clock < cfg.window;
      RunNext(cfg, reqs, n - 1);
      StaysKept(Run(cfg, reqs[..n - 1]), cfg, reqs[i], r);
    }
  }

  // An admitted request is still stored, with its time to live, as long as
  // nothing a window away has run.
  lemma Survives(cfg: Config, reqs: seq<Request>, i: nat, n: nat)
    requires i < n <= |reqs| && Clocked(reqs) && Distinct(reqs)
    requires Admitted(cfg, reqs, i) && Near(cfg, reqs, i, n)
    ensures Holds(Run(cfg, reqs[..n]), cfg, reqs[i])
  {
    RunNext(cfg, reqs, i);
    IsStored(Run(cfg, reqs[..i]), cfg, reqs[i]);
    StillHeld(cfg, reqs, i, n);
  }

  lemma IsStored(b: Bucket, cfg: Config, r: Request)
    requires Allows(b, cfg, r)
    ensures Holds(Script(b, cfg, r), cfg, r)
  {
  }

  // ---- The bound on every span ----

  ghost function MemberMap(reqs: seq<Request>): map<nat, Member> {
    map i: nat | i < |reqs| :: reqs[i].member
  }

  // If the last of some admitted requests still counts all the others, there are
  // at most `limit` of them.
  lemma CountedTogether(cfg: Config, reqs: seq<Request>, group: set<nat>, last: nat)
    requires Distinct(reqs) && last in group && (forall i :: i in group ==> i <= last < |reqs|)
    requires Admitted(cfg, reqs, last)
    requires forall i :: i in group && i != last ==> reqs[i].member in Kept(Run(cfg, reqs[..last]), cfg, reqs[last])
    ensures |group| <= cfg.limit
  {
    var others, members := group - {last}, MemberMap(reqs);
    var kept := Kept(Run(cfg, reqs[..last]), cfg, reqs[last]);
    assert forall a, b :: a in others && b in others && a != b ==> (a < b || b < a) && members[a] != members[b];
    ImageSize(others, members);
    assert Image(others, members) <= kept.Keys;
    SubsetSize(Image(others, members), kept.Keys);
  }

  lemma {:induction false} HasLast(group: set<nat>) returns (last: nat)
    requires group != {}
    ensures last in group && forall i :: i in group ==> i <= last
    decreases group
  {
    var x :| x in group;
    var rest := group - {x};
    last := x;
    if rest != {} {
      var other := HasLast(rest);
      last := if other > x then other else x;
    }
    assert forall i :: i in group ==> i == x || i in rest;
  }

  // Admitted requests that are pairwise close are at most `limit`.
  lemma CloseRequestsAreFew(cfg: Config, reqs: seq<Request>, group: set<nat>)
    requires Clocked(reqs) && Distinct(reqs)
    requires forall i :: i in group ==> i < |reqs| && Admitted(cfg, reqs, i)
    requires forall i, j :: i in group && j in group && i < j ==> Near(cfg, reqs, i, j + 1)
    ensures |group| <= if cfg.limit > 0 then cfg.limit else 0
  {
    if group != {} {
      var last := HasLast(group);
      forall i | i in group && i != last
        ensures reqs[i].member in Kept(Run(cfg, reqs[..last]), cfg, reqs[last])
      {
        assert Near(cfg, reqs, i, last + 1);
        Survives(cfg, reqs, i, last);
        StaysKept(Run(cfg, reqs[..last]), cfg, reqs[i], reqs[last]);
      }
      CountedTogether(cfg, reqs, group, last);
    }
  }

  ghost function AdmittedByClock(cfg: Config, reqs: seq<Request>, from: int, length: int): set<nat> {
    set i: nat | i < |reqs| && Admitted(cfg, reqs, i) && from <= reqs[i].clock < from + length
  }

  ghost function AdmittedByTimestamp(cfg: Config, reqs: seq<Request>, from: int, length: int): set<nat> {
    set i: nat | i < |reqs| && Admitted(cfg, reqs, i) && from <= reqs[i].now < from + length
  }

  // The rate bound: whatever the requests, every half-open span of length
  // window - 2 * skew holds at most `limit` admitted ones, both in Redis time and
  // in the callers' timestamps, expiry of the key included. Without skew that is
  // every span of one full window.
  lemma RateBound(cfg: Config, reqs: seq<Request>, skew: nat, from: int)
    requires Clocked(reqs) && Skewed(reqs, skew) && Distinct(reqs)
    ensures |AdmittedByClock(cfg, reqs, from, cfg.window - 2 * skew)| <= if cfg.limit > 0 then cfg.limit else 0
    ensures |AdmittedByTimestamp(cfg, reqs, from, cfg.window - 2 * skew)| <= if cfg.limit > 0 then cfg.limit else 0
  {
    CloseRequestsAreFew(cfg, reqs, AdmittedByClock(cfg, reqs, from, cfg.window - 2 * skew));
    var byTime := AdmittedByTimestamp(cfg, reqs, from, cfg.window - 2 * skew);
    forall i, j | i in byTime && j in byTime && i < j ensures Near(cfg, reqs, i, j + 1) {
      forall k | i < k < j + 1
        ensures reqs[k].now - reqs[i].now < cfg.window && reqs[k].clock - reqs[i].clock < cfg.window
      {
        assert reqs[k].clock <= reqs[j].clock;
      }
    }
    CloseRequestsAreFew(cfg, reqs, byTime);
  }

  // ---- The time to live ----

  // Request `i` was admitted, and none between it and `n`.
  ghost predicate IsLastAdmitted(cfg: Config, reqs: seq<Request>, i: nat, n: nat)
    requires n <= |reqs|
  {
    i < n && Admitted(cfg, reqs, i) && forall k :: i < k < n ==> !Admitted(cfg, reqs, k)
  }

  lemma {:induction false} EmptyHasNoDeadline(cfg: Config, reqs: seq<Request>, n: nat)
    requires n <= |reqs| && Run(cfg, reqs[..n]).zset == map[]
    ensures Run(cfg, reqs[..n]).deadline == None
    decreases n
  {
    if n == 0 {
      assert reqs[..0] == [];
    } else {
      RunNext(cfg, reqs, n - 1);
      if Run(cfg, reqs[..n - 1]).zset == map[] {
        EmptyHasNoDeadline(cfg, reqs, n - 1);
      }
      DeadlineStep(Run(cfg, reqs[..n - 1]), cfg, reqs[n - 1]);
    }
  }

  // The set is empty, or its deadline is one window after the last admission.
  ghost predicate LivesFromLast(cfg: Config, reqs: seq<Request>, n: nat)
    requires n <= |reqs|
  {
    var b := Run(cfg, reqs[..n]);
    b.zset == map[] || exists i: nat :: IsLastAdmitted(cfg, reqs, i, n) && b.deadline == Some(reqs[i].clock + cfg.window)
  }

  lemma LivesOn(cfg: Config, reqs: seq<Request>, n: nat)
    requires n < |reqs| && LivesFromLast(cfg, reqs, n)
    ensures LivesFromLast(cfg, reqs, n + 1)
  {
    var b := Run(cfg, reqs[..n]);
    RunNext(cfg, reqs, n);
    DeadlineStep(b, cfg, reqs[n]);
    if Admitted(cfg, reqs, n) {
      assert IsLastAdmitted(cfg, reqs, n, n + 1);
    } else if Script(b, cfg, reqs[n]).zset != map[] {
      var i: nat :| IsLastAdmitted(cfg, reqs, i, n) && b.deadline == Some(reqs[i].clock + cfg.window);
      assert IsLastAdmitted(cfg, reqs, i, n + 1);
    }
  }

  // The key exists as long as the set is not empty, and lives one window from the last
  // admission: a denial does not prolong it.
  lemma {:induction false} DeadlineIsLastAdmission(cfg: Config, reqs: seq<Request>, n: nat)
    requires n <= |reqs|
    ensures LivesFromLast(cfg, reqs, n)
    decreases n
  {
    if n == 0 {
      assert reqs[..0] == [];
    } else {
      DeadlineIsLastAdmission(cfg, reqs, n - 1);
      LivesOn(cfg, reqs, n - 1);
    }
  }

  lemma DeadlineStep(b: Bucket, cfg: Config, r: Request)
    ensures Allows(b, cfg, r) ==> Script(b, cfg, r).deadline == Some(r.clock + cfg.window) && Script(b, cfg, r).zset != map[]
    ensures !Allows(b, cfg, r) && Script(b, cfg, r).zset == map[] ==> Script(b, cfg, r).deadline == None
    ensures !Allows(b, cfg, r) && Script(b, cfg, r).zset != map[] ==>
              b.zset != map[] && Script(b, cfg, r).deadline == b.deadline
  {
    if Allows(b, cfg, r) {
      assert r.member in Script(b, cfg, r).zset;
    } else if Kept(b, cfg, r) != map[] {
      var m :| m in Kept(b, cfg, r);
      assert m in Expire(b, r).zset;
    }
  }

  // Once Redis has removed the expired key, the script starts from nothing.
  lemma EvictedStartsAfresh(b: Bucket, cfg: Config, r: Request)
    requires r.evicted && b.deadline.Some? && b.deadline.value <= r.clock
    ensures Allows(b, cfg, r) <==> cfg.limit > 0
    ensures Script(b, cfg, r).zset == if cfg.limit > 0 then map[r.member := r.now] else map[]
  {
    assert Kept(b, cfg, r) == map[];
  }

  // ---- Denials ----

  // Everything stored is an admitted request with its timestamp as score.
  lemma {:induction false} StoredWasAdmitted(cfg: Config, reqs: seq<Request>, n: nat, m: Member) returns (i: nat)
    requires n <= |reqs| && m in Run(cfg, reqs[..n]).zset
    ensures i < n && Admitted(cfg, reqs, i) && reqs[i].member == m && Run(cfg, reqs[..n]).zset[m] == reqs[i].now
    decreases n
  {
    if n == 0 {
      assert false;
    } else {
      RunNext(cfg, reqs, n - 1);
      ScriptMembers(Run(cfg, reqs[..n - 1]), cfg, reqs[n - 1], m);
      if Admitted(cfg, reqs, n - 1) && m == reqs[n - 1].member {
        i := n - 1;
      } else {
        i := StoredWasAdmitted(cfg, reqs, n - 1, m);
      }
    }
  }

  lemma ScriptMembers(b: Bucket, cfg: Config, r: Request, m: Member)
    requires m in Script(b, cfg, r).zset
    ensures if Allows(b, cfg, r) && m == r.member then Script(b, cfg, r).zset[m] == r.now
            else m in b.zset && Script(b, cfg, r).zset[m] == b.zset[m]
  {
  }

  // The admitted requests before `n` whose timestamp is later than n's minus the window.
  ghost function InWindow(cfg: Config, reqs: seq<Request>, n: nat): set<nat>
    requires n < |reqs|
  {
    set i: nat | i < n && Admitted(cfg, reqs, i) && reqs[i].now > reqs[n].now - cfg.window
  }

  lemma KeptAreInWindow(cfg: Config, reqs: seq<Request>, n: nat)
    requires n < |reqs| && Distinct(reqs)
    ensures Kept(Run(cfg, reqs[..n]), cfg, reqs[n]).Keys <= Image(InWindow(cfg, reqs, n), MemberMap(reqs))
    ensures |Image(InWindow(cfg, reqs, n), MemberMap(reqs))| == |InWindow(cfg, reqs, n)|
  {
    var kept := Kept(Run(cfg, reqs[..n]), cfg, reqs[n]);
    var members, window := MemberMap(reqs), InWindow(cfg, reqs, n);
    forall m | m in kept ensures m in Image(window, members) {
      var i := StoredWasAdmitted(cfg, reqs, n, m);
      assert i in window && members[i] == m;
    }
    assert forall a, b :: a in window && b in window && a != b ==> (a < b || b < a) && members[a] != members[b];
    ImageSize(window, members);
  }

  // A denial is justified, with any skew: `limit` admitted requests are later
  // than the denied request's timestamp minus the window.
  lemma DenialIsJustified(cfg: Config, reqs: seq<Request>, n: nat)
    requires n < |reqs| && Distinct(reqs) && !Admitted(cfg, reqs, n)
    ensures |InWindow(cfg, reqs, n)| >= cfg.limit
  {
    KeptAreInWindow(cfg, reqs, n);
    SubsetSize(Kept(Run(cfg, reqs[..n]), cfg, reqs[n]).Keys, Image(InWindow(cfg, reqs, n), MemberMap(reqs)));
  }

  // ---- Without skew: the ideal sliding window ----

  // The specification: remember every admitted timestamp for ever, count those
  // within the window.
  ghost predicate Ideal(cfg: Config, reqs: seq<Request>, n: nat)
    requires n < |reqs|
    decreases n
  {
    |set i: nat | i < n && Ideal(cfg, reqs, i) && reqs[i].now > reqs[n].now - cfg.window| < cfg.limit
  }

  // Without skew what is stored and counted is exactly the window.
  lemma KeptIsWindow(cfg: Config, reqs: seq<Request>, n: nat)
    requires Clocked(reqs) && Skewed(reqs, 0) && Distinct(reqs) && n < |reqs|
    ensures |Kept(Run(cfg, reqs[..n]), cfg, reqs[n])| == |InWindow(cfg, reqs, n)|
  {
    var window, members := InWindow(cfg, reqs, n), MemberMap(reqs);
    var kept := Kept(Run(cfg, reqs[..n]), cfg, reqs[n]);
    KeptAreInWindow(cfg, reqs, n);
    forall i | i in window ensures members[i] in kept {
      WindowIsKept(cfg, reqs, n, i);
    }
    assert Image(window, members) <= kept.Keys;
    assert kept.Keys == Image(window, members);
    assert |kept| == |kept.Keys|;
  }

  lemma WindowIsKept(cfg: Config, reqs: seq<Request>, n: nat, i: nat)
    requires Clocked(reqs) && Skewed(reqs, 0) && Distinct(reqs) && n < |reqs| && i in InWindow(cfg, reqs, n)
    ensures reqs[i].member in Kept(Run(cfg, reqs[..n]), cfg, reqs[n])
  {
    assert reqs[i].clock == reqs[i].now && reqs[n].clock == reqs[n].now;
    forall k | i < k < n
      ensures reqs[k].now - reqs[i].now < cfg.window && reqs[k].clock - reqs[i].clock < cfg.window
    {
      assert reqs[k].clock <= reqs[n].clock;
    }
    Survives(cfg, reqs, i, n);
    StaysKept(Run(cfg, reqs[..n]), cfg, reqs[i], reqs[n]);
  }

  // If every caller's clock is Redis's, the trimmed, expiring set decides every
  // request exactly as the ideal sliding window does.
  lemma {:induction false} IsIdealWithoutSkew(cfg: Config, reqs: seq<Request>, n: nat)
    requires Clocked(reqs) && Skewed(reqs, 0) && Distinct(reqs) && n < |reqs|
    ensures Admitted(cfg, reqs, n) <==> Ideal(cfg, reqs, n)
    decreases n
  {
    forall i: nat | i < n ensures Admitted(cfg, reqs, i) <==> Ideal(cfg, reqs, i) {
      IsIdealWithoutSkew(cfg, reqs, i);
    }
    assert InWindow(cfg, reqs, n) ==
           set i: nat | i < n && Ideal(cfg, reqs, i) && reqs[i].now > reqs[n].now - cfg.window;
    KeptIsWindow(cfg, reqs, n);
  }

  // ---- The hypotheses are needed ----

  // `n` requests at Redis time `skew` by a caller whose clock reads 0.
  function Burst(n: nat, skew: nat): seq<Request> {
    seq(n, (i: nat) => Request(0, skew, Member(0, i), false))
  }

  lemma BurstGoesOn(b: Bucket, cfg: Config, n: nat, r: Request)
    requires |b.zset| == n < cfg.limit && cfg.window > 0 && (forall m :: m in b.zset ==> b.zset[m] == 0 && m.seqNo < n)
    requires r.now == 0 && r.member.seqNo == n && !r.evicted
    ensures Allows(b, cfg, r)
    ensures var zset := Script(b, cfg, r).zset;
            |zset| == n + 1 && forall m :: m in zset ==> zset[m] == 0 && m.seqNo < n + 1
  {
    assert Kept(b, cfg, r) == b.zset;
    assert r.member !in b.zset;
    assert b.zset[r.member := r.now].Keys == b.zset.Keys + {r.member};
  }

  lemma {:induction false} BurstIsAdmitted(cfg: Config, n: nat, skew: nat)
    requires n <= cfg.limit && cfg.window > 0
    ensures var b := Run(cfg, Burst(n, skew));
            && |b.zset| == n && forall m :: m in b.zset ==> b.zset[m] == 0 && m.seqNo < n
    ensures forall i :: 0 <= i < n ==> Admitted(cfg, Burst(n, skew), i)
  {
    if n == 0 {
    } else {
      var before, r := Burst(n - 1, skew), Burst(n, skew)[n - 1];
      BurstIsAdmitted(cfg, n - 1, skew);
      BurstGoesOn(Run(cfg, before), cfg, n - 1, r);
      AdmittedAfter(cfg, before, r);
      assert Burst(n, skew) == before + [r];
      RunOneMore(cfg, before, r);
    }
  }

  lemma RunOneMore(cfg: Config, reqs: seq<Request>, r: Request)
    ensures Run(cfg, reqs + [r]) == Script(Run(cfg, reqs), cfg, r)
  {
    assert (reqs + [r])[..|reqs|] == reqs;
  }

  // The bound is tight in every configuration: one tick more than
  // window - 2 * skew of Redis time can hold limit + 1 admitted requests.
  lemma BoundIsTight(cfg: Config, skew: nat) returns (reqs: seq<Request>)
    requires cfg.limit >= 0 && 2 * skew < cfg.window
    ensures Clocked(reqs) && Skewed(reqs, skew) && Distinct(reqs) && |reqs| == cfg.limit + 1
    ensures forall i :: 0 <= i < |reqs| ==> skew <= reqs[i].clock < skew + (cfg.window - 2 * skew + 1)
    ensures cfg.limit > 0 ==> forall i :: 0 <= i < |reqs| ==> Admitted(cfg, reqs, i)
  {
    var burst := Burst(cfg.limit, skew);
    var late := Request(cfg.window, cfg.window - skew, Member(cfg.window, cfg.limit), false);
    reqs := burst + [late];
    BurstIsAdmitted(cfg, cfg.limit, skew);
    if cfg.limit > 0 {
      assert Kept(Run(cfg, burst), cfg, late) == map[];
      AdmittedAfter(cfg, burst, late);
    }
  }

  lemma AdmittedAfter(cfg: Config, reqs: seq<Request>, r: Request)
    requires forall i :: 0 <= i < |reqs| ==> Admitted(cfg, reqs, i)
    requires Allows(Run(cfg, reqs), cfg, r)
    ensures forall i :: 0 <= i <= |reqs| ==> Admitted(cfg, reqs + [r], i)
  {
    forall i | 0 <= i <= |reqs| ensures Admitted(cfg, reqs + [r], i) {
      assert (reqs + [r])[..i] == reqs[..i];
      assert reqs[..|reqs|] == reqs;
      if i < |reqs| {
        assert Admitted(cfg, reqs, i);
      }
    }
  }

  // Distinct members are needed: two processes that produce the same
  // "<now>-<seq>" overwrite each other, and three requests pass a limit of two.
  lemma CollidingMembersOverAdmit(window: int, now: int) returns (reqs: seq<Request>)
    requires window > 0
    ensures |reqs| == 3 && Clocked(reqs) && Skewed(reqs, 0)
    ensures forall i :: 0 <= i < 3 ==> reqs[i].now == now && Admitted(Config(window, 2), reqs, i)
  {
    var cfg := Config(window, 2);
    var a := Request(now, now, Member(now, 1), false);
    var c := Request(now, now, Member(now, 2), false);
    reqs := [a, a, c];
    assert reqs[..0] == [] && reqs[..1] == [a] && reqs[..2] == [a, a];
    assert [a][..0] == [] && [a, a][..1] == [a];
    assert Run(cfg, []) == EMPTY && Kept(EMPTY, cfg, a) == map[];
    var one := Run(cfg, [a]);
    assert one.zset == map[a.member := now];
    assert Kept(one, cfg, a) == one.zset;
    assert Run(cfg, [a, a]).zset == one.zset;
    assert Kept(Run(cfg, [a, a]), cfg, c) == one.zset;
  }
}

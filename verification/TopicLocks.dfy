/**
 Distributed topic locks (internal/redisx/locks.go): keys with a time to live, taken
 by SETNX, released by a script that checks the owner, renewed by GET then SET.
 */
module TopicLocks {
  import opened Basics

  datatype Kind = Publish | Subscribe

  datatype Key = Key(topic: string, kind: Kind)

  /** A lock as stored, plus the number of the acquisition it stems from. */
  datatype Lease = Lease(holder: string, deadline: int, acquisition: nat)

  datatype Table = Table(locks: map<Key, Lease>, clock: int, acquisitions: nat)

  const DEFAULT_TTL := 300_000

  function Ttl(ttl: int): int {
    if ttl <= 0 then DEFAULT_TTL else ttl
  }

  // GET: a key past its deadline is not there.
  function Current(t: Table, key: Key): Option<Lease> {
    if key in t.locks && t.clock < t.locks[key].deadline then Some(t.locks[key]) else None
  }

  function Owner(t: Table, key: Key): Option<string> {
    if Current(t, key).Some? then Some(Current(t, key).value.holder) else None
  }

  // SETNX with a time to live.
  function Acquired(t: Table, key: Key, holder: string, ttl: int): Table {
    if Current(t, key).Some? then t
    else t.(locks := t.locks[key := Lease(holder, t.clock + Ttl(ttl), t.acquisitions)], acquisitions := t.acquisitions + 1)
  }

  // The unlock script.
  function Released(t: Table, key: Key, holder: string): Table {
    if Owner(t, key) == Some(holder) then t.(locks := t.locks - {key}) else t
  }

  // SET with a time to live: it overwrites whatever is there. It continues the
  // acquisition its GET saw if that is still current, and is a new one otherwise.
  function Renewed(t: Table, key: Key, holder: string, ttl: int, seen: nat): Table {
    if Current(t, key).Some? && Current(t, key).value.acquisition == seen
    then t.(locks := t.locks[key := Lease(holder, t.clock + Ttl(ttl), seen)])
    else t.(locks := t.locks[key := Lease(holder, t.clock + Ttl(ttl), t.acquisitions)], acquisitions := t.acquisitions + 1)
  }

  // ---- Several callers at once ----

  datatype Renewal = Renewal(key: Key, holder: string, ttl: int, seen: nat)

  datatype State = State(table: Table, renewals: map<nat, Renewal>)

  datatype Step =
    | Lock(key: Key, holder: string, ttl: int)
    | Unlock(key: Key, holder: string)
    | RenewGet(slot: nat, key: Key, holder: string, ttl: int)
    | RenewSet(slot: nat)
    | Pass(time: nat)

  function Next(s: State, step: Step): State {
    var t := s.table;
    match step
    case Lock(key, holder, ttl) => s.(table := Acquired(t, key, holder, ttl))
    case Unlock(key, holder) => s.(table := Released(t, key, holder))
    case RenewGet(slot, key, holder, ttl) =>
      if slot in s.renewals || Owner(t, key) != Some(holder) then s
      else s.(renewals := s.renewals[slot := Renewal(key, holder, ttl, Current(t, key).value.acquisition)])
    case RenewSet(slot) =>
      if slot !in s.renewals then s
      else
        var r := s.renewals[slot];
        State(Renewed(t, r.key, r.holder, r.ttl, r.seen), s.renewals - {slot})
    case Pass(time) => s.(table := t.(clock := t.clock + time))
  }

  const INIT := State(Table(map[], 0, 0), map[])

  function Exec(steps: seq<Step>): State {
    if steps == [] then INIT else Next(Exec(steps[..|steps| - 1]), steps[|steps| - 1])
  }

  // The lease a renewal's GET saw is still current when its SET lands.
  predicate IsCurrent(s: State, slot: nat) {
    slot in s.renewals ==>
      var r := s.renewals[slot];
      Current(s.table, r.key).Some? && Current(s.table, r.key).value.acquisition == r.seen
  }

  // An acquisition has one holder, so a renewal that saw it has the same one.
  ghost predicate Inv(s: State) {
    && (forall key :: key in s.table.locks ==> s.table.locks[key].acquisition < s.table.acquisitions)
    && (forall slot :: slot in s.renewals ==>
          var r := s.renewals[slot];
          && r.seen < s.table.acquisitions
          && (r.key in s.table.locks && s.table.locks[r.key].acquisition == r.seen ==> s.table.locks[r.key].holder == r.holder))
  }

  lemma StepKeepsInv(s: State, step: Step)
    requires Inv(s)
    ensures Inv(Next(s, step))
  {
  }

  lemma {:induction false} RunsKeepInv(steps: seq<Step>)
    ensures Inv(Exec(steps))
  {
    if steps == [] {
    } else {
      RunsKeepInv(steps[..|steps| - 1]);
      StepKeepsInv(Exec(steps[..|steps| - 1]), steps[|steps| - 1]);
    }
  }

  // The ways a holder properly loses a lock: its own unlock, or its time is up.
  predicate Ends(s: State, step: Step, key: Key, holder: string) {
    && Owner(s.table, key) == Some(holder)
    && match step
       case Unlock(k, h) => k == key && h == holder
       case Pass(time) => s.table.clock + time >= Current(s.table, key).value.deadline
       case _ => false
  }

  // A holder loses a lock exactly by one of these, or by someone else's renewal
  // whose SET lands after the lease its GET saw is gone.
  lemma HowLocksAreLost(s: State, step: Step, key: Key, holder: string)
    requires Inv(s) && Owner(s.table, key) == Some(holder)
    ensures Owner(Next(s, step).table, key) != Some(holder) <==>
            || Ends(s, step, key, holder)
            || (&& step.RenewSet? && step.slot in s.renewals && s.renewals[step.slot].key == key
                && s.renewals[step.slot].holder != holder)
    ensures step.RenewSet? && step.slot in s.renewals && s.renewals[step.slot].key == key && s.renewals[step.slot].holder != holder
            ==> !IsCurrent(s, step.slot)
  {
  }

  ghost predicate RenewalsAreCurrent(steps: seq<Step>) {
    forall i :: 0 <= i < |steps| && steps[i].RenewSet? ==> IsCurrent(Exec(steps[..i]), steps[i].slot)
  }

  // Ownership over runs: if every renewal's SET lands while the lease its GET saw
  // is current, then between a moment at which `holder` owns the lock and a later
  // one at which it does not, the lock was ended by that holder's own unlock or by
  // expiry; no other client can take it away.
  lemma {:induction false} LocksPassProperly(steps: seq<Step>, from: nat, key: Key, holder: string) returns (at: nat)
    requires RenewalsAreCurrent(steps) && from <= |steps|
    requires Owner(Exec(steps[..from]).table, key) == Some(holder)
    requires Owner(Exec(steps).table, key) != Some(holder)
    ensures from <= at < |steps| && Ends(Exec(steps[..at]), steps[at], key, holder)
    decreases |steps|
  {
    assert steps[..|steps|] == steps;
    var front, step := steps[..|steps| - 1], steps[|steps| - 1];
    assert from <= |front|;
    if Owner(Exec(front).table, key) == Some(holder) {
      RunsKeepInv(front);
      HowLocksAreLost(Exec(front), step, key, holder);
      at := |front|;
    } else {
      assert forall i :: 0 <= i <= |front| ==> front[..i] == steps[..i];
      at := LocksPassProperly(front, from, key, holder);
    }
  }

  // The renewal whose SET lands finds the key free or its own.
  predicate IsHarmless(s: State, step: Step) {
    step.RenewSet? && step.slot in s.renewals ==>
      var r := s.renewals[step.slot];
      Owner(s.table, r.key).None? || Owner(s.table, r.key) == Some(r.holder)
  }

  // A holder loses its lock in this step otherwise than by its own unlock or expiry.
  ghost predicate IsStolen(s: State, step: Step, key: Key, holder: string) {
    && Owner(s.table, key) == Some(holder) && Owner(Next(s, step).table, key) != Some(holder)
    && !Ends(s, step, key, holder)
  }

  lemma StolenIffHarmful(s: State, step: Step)
    requires Inv(s)
    ensures IsHarmless(s, step) <==> forall key, holder :: !IsStolen(s, step, key, holder)
  {
    forall key, holder | Owner(s.table, key) == Some(holder)
      ensures IsStolen(s, step, key, holder) <==>
              && step.RenewSet? && step.slot in s.renewals && s.renewals[step.slot].key == key
              && s.renewals[step.slot].holder != holder
    {
      HowLocksAreLost(s, step, key, holder);
    }
    if !IsHarmless(s, step) {
      var key := s.renewals[step.slot].key;
      assert IsStolen(s, step, key, Owner(s.table, key).value);
    }
  }

  // Over every run: no lock is ever taken from its holder exactly if no renewal's SET
  // lands on a lock that somebody else holds.
  lemma LocksPassProperlyIff(steps: seq<Step>)
    ensures (forall n :: 0 <= n < |steps| ==> IsHarmless(Exec(steps[..n]), steps[n])) <==>
            (forall n, key, holder :: 0 <= n < |steps| ==> !IsStolen(Exec(steps[..n]), steps[n], key, holder))
  {
    forall n | 0 <= n < |steps|
      ensures IsHarmless(Exec(steps[..n]), steps[n]) <==>
              forall key, holder :: !IsStolen(Exec(steps[..n]), steps[n], key, holder)
    {
      RunsKeepInv(steps[..n]);
      StolenIffHarmful(Exec(steps[..n]), steps[n]);
    }
  }

  // A client that does not own the lock cannot change it: neither by locking, nor
  // unlocking, nor by a current renewal.
  lemma NonOwnerIsHarmless(s: State, step: Step, key: Key, holder: string)
    requires Inv(s) && Owner(s.table, key) == Some(holder)
    requires match step
             case Lock(_, h, _) => h != holder
             case Unlock(_, h) => h != holder
             case RenewGet(_, _, h, _) => h != holder
             case RenewSet(slot) => IsCurrent(s, slot) && (slot in s.renewals ==> s.renewals[slot].holder != holder)
             case Pass(_) => false
    ensures Current(Next(s, step).table, key) == Current(s.table, key)
  {
  }

  // The hypothesis on renewals is needed: for any two clients there is a run in
  // which the first takes the second's live lock through a late SET.
  lemma LateRenewalSteals(key: Key, first: string, second: string) returns (steps: seq<Step>)
    requires first != second
    ensures |steps| > 0 && !steps[|steps| - 1].Unlock? && !steps[|steps| - 1].Pass?
    ensures Owner(Exec(steps[..|steps| - 1]).table, key) == Some(second)
    ensures Owner(Exec(steps).table, key) == Some(first)
  {
    var lock1, get := Lock(key, first, 1), RenewGet(0, key, first, 1);
    var lock2, set_ := Lock(key, second, 1), RenewSet(0);
    steps := [lock1, get, Pass(1), lock2, set_];
    assert steps[..4] == [lock1, get, Pass(1), lock2];
    assert steps[..4][..3] == [lock1, get, Pass(1)];
    assert steps[..4][..3][..2] == [lock1, get];
    assert steps[..4][..3][..2][..1] == [lock1];
    assert Exec([lock1]) == State(Table(map[key := Lease(first, 1, 0)], 0, 1), map[]) by {
      assert [lock1][..0] == [];
    }
    assert Exec([lock1, get]).renewals == map[0 := Renewal(key, first, 1, 0)];
    assert Exec([lock1, get, Pass(1)]).table.clock == 1;
    assert Owner(Exec(steps[..4]).table, key) == Some(second);
  }

  // Locking again what one already holds is accepted and changes nothing; in
  // particular it does not extend the lease.
  lemma RelockDoesNotRefresh(t: Table, key: Key, holder: string, ttl: int)
    requires Owner(t, key) == Some(holder)
    ensures Acquired(t, key, holder, ttl) == t
  {
  }

  // The time to live in numbers: five minutes unless one is given.
  lemma OwnedWhile(t: Table, key: Key, holder: string, ttl: int, time: nat)
    requires Current(t, key).None?
    ensures Owner(Acquired(t, key, holder, ttl).(clock := t.clock + time), key) ==
            if time < (if ttl > 0 then ttl else 300_000) then Some(holder) else None
  {
  }

  lemma OwnedWhileRenewed(t: Table, key: Key, holder: string, ttl: int, seen: nat, time: nat)
    ensures Owner(Renewed(t, key, holder, ttl, seen).(clock := t.clock + time), key) ==
            if time < (if ttl > 0 then ttl else 300_000) then Some(holder) else None
  {
  }

  // ---- The code ----

  datatype Outcome = Done | HeldByOther | NotHeld

  // The key is leased for its time to live; no other key has changed.
  ghost predicate IsLeased(before: Table, after: Table, key: Key, holder: string, ttl: int) {
    && after.clock == before.clock && after.locks - {key} == before.locks - {key}
    && key in after.locks && after.locks[key].holder == holder
    && after.locks[key].deadline == before.clock + (if ttl > 0 then ttl else 300_000)
  }

  class Locks {
    var table: Table
    var lockedTopics: map<string, set<string>>

    constructor ()
      ensures table == INIT.table && lockedTopics == map[]
    {
      table, lockedTopics := INIT.table, map[];
    }

    function TopicsOf(holder: string): set<string>
      reads this
    {
      if holder in lockedTopics then lockedTopics[holder] else {}
    }

    method LockTopic(topic: string, kind: Kind, holder: string, ttl: int) returns (r: Outcome)
      modifies this
      ensures table == Acquired(old(table), Key(topic, kind), holder, ttl)
      ensures r == if Owner(table, Key(topic, kind)) == Some(holder) then Done else HeldByOther
      ensures if old(Owner(table, Key(topic, kind))).None?
              then IsLeased(old(table), table, Key(topic, kind), holder, ttl) else table == old(table)
      ensures TopicsOf(holder) == old(TopicsOf(holder)) + if old(Owner(table, Key(topic, kind))).None? then {topic} else {}
      ensures forall other :: other != holder ==> TopicsOf(other) == old(TopicsOf(other))
    {
      var key := Key(topic, kind);
      var owner := Owner(table, key);
      if owner.None? {
        table := table.(locks := table.locks[key := Lease(holder, table.clock + Ttl(ttl), table.acquisitions)],
                        acquisitions := table.acquisitions + 1);
        lockedTopics := lockedTopics[holder := TopicsOf(holder) + {topic}];
        return Done;
      }
      return if owner.value == holder then Done else HeldByOther;
    }

    method UnlockTopic(topic: string, kind: Kind, holder: string)
      modifies this
      ensures table == Released(old(table), Key(topic, kind), holder)
      ensures table == if old(Owner(table, Key(topic, kind))) == Some(holder)
                       then old(table).(locks := old(table).locks - {Key(topic, kind)}) else old(table)
      ensures TopicsOf(holder) == old(TopicsOf(holder)) - if old(Owner(table, Key(topic, kind))) == Some(holder) then {topic} else {}
      ensures forall other :: other != holder ==> TopicsOf(other) == old(TopicsOf(other))
    {
      var key := Key(topic, kind);
      if Owner(table, key) == Some(holder) {
        table := table.(locks := table.locks - {key});
        lockedTopics := lockedTopics[holder := TopicsOf(holder) - {topic}];
      }
    }

    // RenewLock with nothing between its GET and its SET.
    method RenewLock(topic: string, kind: Kind, holder: string, ttl: int) returns (r: Outcome)
      modifies this`table
      ensures r == if old(Owner(table, Key(topic, kind))) == Some(holder) then Done else NotHeld
      ensures r.NotHeld? ==> table == old(table)
      ensures r.Done? ==> Owner(table, Key(topic, kind)) == Some(holder)
                          && Current(table, Key(topic, kind)).value.deadline == table.clock + (if ttl > 0 then ttl else 300_000)
      ensures r.Done? ==> Current(table, Key(topic, kind)).value.acquisition == old(Current(table, Key(topic, kind))).value.acquisition
      ensures table.clock == old(table.clock) && table.locks - {Key(topic, kind)} == old(table.locks) - {Key(topic, kind)}
    {
      var key := Key(topic, kind);
      var current := Current(table, key);
      if current.None? || current.value.holder != holder {
        return NotHeld;
      }
      table := Renewed(table, key, holder, ttl, current.value.acquisition);
      return Done;
    }

    // The body of ReleaseUserLocks' loop.
    method UnlockBoth(topic: string, holder: string)
      modifies this
      ensures table.clock == old(table.clock)
      ensures forall key :: Current(table, key) ==
                if Owner(old(table), key) == Some(holder) && key.topic == topic then None else Current(old(table), key)
      ensures TopicsOf(holder) == old(TopicsOf(holder)) - if Owns(old(table), topic, holder) then {topic} else {}
      ensures forall other :: other != holder ==> TopicsOf(other) == old(TopicsOf(other))
    {
      UnlockTopic(topic, Publish, holder);
      UnlockTopic(topic, Subscribe, holder);
      ReleasedBoth(old(table), topic, holder);
    }

    // ReleaseUserLocks, going through the topics in some order. Exactly the
    // holder's locks on the topics recorded for it are gone afterwards, every other
    // lease is as it was, and a recorded topic stays recorded only if the holder
    // owned no lock on it.
    method ReleaseUserLocks(holder: string, topics: seq<string>)
      requires forall t :: t in topics <==> t in TopicsOf(holder)
      modifies this
      ensures forall key :: Current(table, key) ==
                if Owner(old(table), key) == Some(holder) && key.topic in old(TopicsOf(holder)) then None else Current(old(table), key)
      ensures TopicsOf(holder) == set t | t in old(TopicsOf(holder)) && !Owns(old(table), t, holder)
      ensures forall other :: other != holder ==> TopicsOf(other) == old(TopicsOf(other))
    {
      for i := 0 to |topics|
        invariant table.clock == old(table.clock)
        invariant forall key :: Current(table, key) ==
                    if Owner(old(table), key) == Some(holder) && key.topic in topics[..i] then None else Current(old(table), key)
        invariant TopicsOf(holder) == set t | t in old(TopicsOf(holder)) && !(t in topics[..i] && Owns(old(table), t, holder))
        invariant forall other :: other != holder ==> TopicsOf(other) == old(TopicsOf(other))
      {
        ghost var before := table;
        UnlockBoth(topics[i], holder);
        assert topics[..i + 1] == topics[..i] + [topics[i]];
        assert topics[i] !in topics[..i] ==> (Owns(before, topics[i], holder) <==> Owns(old(table), topics[i], holder));
        assert topics[i] in topics[..i] ==> !Owns(before, topics[i], holder);
      }
      assert topics[..|topics|] == topics;
    }
  }

  predicate Owns(t: Table, topic: string, holder: string) {
    Owner(t, Key(topic, Publish)) == Some(holder) || Owner(t, Key(topic, Subscribe)) == Some(holder)
  }

  lemma ReleasedBoth(t: Table, topic: string, holder: string)
    ensures var t' := Released(Released(t, Key(topic, Publish), holder), Key(topic, Subscribe), holder);
            && t'.clock == t.clock
            && forall key :: Current(t', key) ==
                 if Owner(t, key) == Some(holder) && key.topic == topic then None else Current(t, key)
  {
    var t' := Released(Released(t, Key(topic, Publish), holder), Key(topic, Subscribe), holder);
    forall key ensures Current(t', key) == if Owner(t, key) == Some(holder) && key.topic == topic then None else Current(t, key) {
      match key.kind {
        case Publish => assert key == Key(key.topic, Publish);
        case Subscribe => assert key == Key(key.topic, Subscribe);
      }
    }
  }

  // So the documented "unlocks every lock owned by holder" holds exactly when the
  // topic of every lock it owns is still recorded.
  lemma ReleasesAllIff(t: Table, after: Table, recorded: set<string>, holder: string)
    requires forall key :: Current(after, key) ==
               if Owner(t, key) == Some(holder) && key.topic in recorded then None else Current(t, key)
    ensures (forall key :: Owner(after, key) != Some(holder)) <==>
            (forall key :: Owner(t, key) == Some(holder) ==> key.topic in recorded)
  {
    if forall key :: Owner(after, key) != Some(holder) {
      forall key | Owner(t, key) == Some(holder) ensures key.topic in recorded {
        assert Owner(after, key) != Some(holder);
      }
    }
  }

  // And it need not be: both kinds share one record per topic, so unlocking one
  // kind makes the other kind's lock unrecorded.
  method UnrecordedLock(topic: string, holder: string) returns (locks: Locks)
    ensures fresh(locks)
    ensures Owner(locks.table, Key(topic, Subscribe)) == Some(holder) && topic !in locks.TopicsOf(holder)
  {
    locks := new Locks();
    var r := locks.LockTopic(topic, Publish, holder, 0);
    r := locks.LockTopic(topic, Subscribe, holder, 0);
    locks.UnlockTopic(topic, Publish, holder);
  }
}

# A verified model of go-ws-server

go-ws-server is a WebSocket server whose instances share nothing but Redis: topics with
replay, message routing by a Judge, a distributed scheduler, a sliding-window rate limiter,
topic locks, acknowledgement cursors and per-topic authorization by glob patterns. This
project models the parts of it that are hard to get right and proves what they promise.

`dafny verify dfyconfig.toml` checks the whole project.

## How the model is built

Two layers, tied together by proof.

* **State machines.** A Redis command, a critical section of `b.mu`, a channel operation or an
  atomic operation is one step. A run is any sequence of steps, so the theorems hold for every
  interleaving of any number of instances, clients and goroutines. A step that is not possible
  leaves the state as it is. Modules `ReplayProtocol`, `Scheduler`, `SendQueue`, `TopicLocks`,
  and the runs in `Subscriptions`, `RateLimit` and `AckCursors`.
* **The code.** Where the source changes fields in place or loops, a class or a method does
  too (`BusObject.Bus`, `SchedulerStore.Store`, `ConnObject.Conn`, `RateLimit.Limiter`,
  `TopicLocks.Locks`, `AckCursors.CursorStore`, `Routing.Resolve`, `ReplayScan.ReplayMessages`).
  Its postconditions state its whole new state, and postconditions or a lemma beside it say which
  operation or which run of the machine it is.

| component | code | machine and theorems |
|---|---|---|
| bus: subscriptions, fan-out | `Bus.dfy` | `Subscriptions.dfy` |
| bus: Judge routing | `Routing.dfy` | `Routing.dfy`, `Subscriptions.dfy` |
| bus: live versus replay | `Bus.dfy`, `BusReplay.dfy`, `ReplayScan.dfy` | `ReplayProtocol.dfy`, `ReplayTheorems.dfy` |
| scheduler | `SchedulerStore.dfy`, `Jobs.dfy` | `Scheduler.dfy`, `SchedulerTheorems.dfy`, `SchedulerClaims.dfy`, `SchedulerLosses.dfy` |
| rate limiter | `RateLimit.dfy` | `RateLimit.dfy` |
| send queue | `Conn.dfy` | `SendQueue.dfy`, `SendQueueClose.dfy` |
| locks, cursors, stream IDs | `TopicLocks.dfy`, `AckCursors.dfy` | the same files, `StreamIds.dfy` |
| topic rules | `TopicGlobs.dfy` | `TopicGlobTheorems.dfy` |

## Where the documentation promises more than the code does

Each of these has a run or an input that shows it, and the condition under which the promise holds.

* "Cursors move forward only" (`internal/redisx/client.go:115-117`): GET and SET are separate, so
  overlapping acks can rewind the cursor (`OverlappingAcksRewind`). It moves forward only, and is
  a maximum of the finished acks, exactly in the runs in which no SET lands on a larger ID
  (`ForwardOnlyIff`).
* A lock "prevents the classic race" only for unlocking: `RenewLock` can overwrite another
  client's lock (`LateRenewalSteals`). Locks pass properly exactly in the runs in which no
  renewal's SET lands on another client's lock (`LocksPassProperlyIff`).
* `LockTopic` "acquires (or refreshes)": locking again does not extend the lease
  (`RelockDoesNotRefresh`).
* `ReleaseUserLocks` "unlocks every lock": exactly those whose topic is recorded
  (`ReleasesAllIff`), and unlocking one kind un-records the other (`UnrecordedLock`).
* When messages were lost to trimming, the truncation flag is silent exactly for a cursor in
  millisecond 0, for a stream trimmed to nothing, and if the oldest-entry read fails
  (`FlagBlindSpots`, `EmptiedStreamLosesSilently`).
* The stream entry carries no recipients although the comment in `PublishTopic` says that it
  carries the decision (`bus/bus.go:437-449`). Any message withheld from a subscriber can reach it
  by replay or from the buffer (`WithheldIsSent`); it is kept from the subscriber exactly if the
  range read missed it and no announcement of it was buffered (`WithheldCopies`).
* "The server dedupes the brief window where stream and pub/sub overlap" (`README.md:499`): a
  replayed message announced late is sent again (`LateAnnouncementIsSentTwice`); announced once, a
  message is sent twice exactly if the range read returned it and its announcement was dispatched
  after the flip (`DuplicatesExactly`).
* A requested delivery report is sent by an instance exactly if the routes known before the
  call leave it a subscriber to deliver to (`HandleTopic`), and not for a message that is filtered
  or buffered everywhere (`NoReport`).
* Wildcards stop at segment boundaries (`authz/authz.go:155-156`), but a character class can
  match the separator (`ClassCrossesSegments`). Segment counts agree for all topics exactly for
  the patterns in which no class admits it, or some class admits nothing (`SegmentsKeptIff`).
* A substituted identity is escaped so that it cannot act as a wildcard
  (`authz/authz.go:118-122`). Non-empty keys are literal in a pattern exactly if its placeholders
  stand alone or it grants nothing at all (`LiteralIff`). Three inputs where a key is not: an empty
  key can leave the bare `*` (`EmptyKeyOpensEverything`; a non-empty one cannot, `BareStar`); a
  placeholder in a character class turns the key into ranges (`ClassFreesTheKey`); and one after an
  unpaired backslash undoes the escape (`UnpairedBackslashFreesTheKey`), exactly for the keys whose
  first character other than a backslash is a metacharacter or missing (`UnpairedBackslashIff`).
* "Repeat interval in ms" (`README.md:335`): claims are never released, so a run that falls due
  while the claim of the last one lasts is missed (`IntervalIsMissed`). A due member is run exactly
  if no claim on its ID is in force (`RunsIffUnclaimed`); with claims that last ttl, n runs take at
  least (n - 1) * ttl (`RunsArePaced`). The source claims for 30 seconds; its example interval is 10.
* "A given fire happens exactly once" and jobs "are re-enqueued" (`internal/scheduler/scheduler.go:4-7`):
  runs happen at most once (`AtMostOnce`), and a crash between the ZREM and the ZADD loses the job
  for good (`CrashLosesJob`). A job keeps its place exactly if it meets none of: a user's ZREM,
  expiry, a crash or failed command while it runs, a last run, and a next run whose member is there
  already (`HowPlacesAreLost`, `KeepsPlaceIff`).

## Model

| member | source | states |
|---|---|---|
| `ReplayTheorems.ExecKeepsInv` | bus/bus.go:247-600 | the invariant that ties every frame sent to the history of the call, kept by every interleaving of XADD, trim, PUBLISH, dispatch, send, XRANGE, mark, flip, drain, subscribe and unsubscribe |
| `ReplayTheorems.NoGap` | bus/bus.go:537-600 | after a successful SubscribeWithReplay every allowed message above the cursor whose announcement was ever dispatched here has been sent at least once, unless trimmed before the XRANGE |
| `ReplayTheorems.ExactCopies` | bus/bus.go:570-597 | the exact number of frames sent for every message, for any number of announcements |
| `ReplayTheorems.DuplicatesExactly` | bus/bus.go:273-287 | announced once, a message is sent twice iff it was in the XRANGE result and dispatched after the flip; never more; exactly once if dispatched while buffering |
| `ReplayTheorems.ReplayOrder` | bus/bus.go:545-599 | replay frames strictly increase, lie above the cursor and precede all others |
| `ReplayTheorems.AnnouncementOrder` | bus/bus.go:273-320 | of any two drained frames, and of any two live ones, the first was handled before the second, and messages are handled in the order they were published in |
| `ReplayTheorems.LateAnnouncementIsSentTwice` | bus/bus.go:581-597 | for every message above the cursor there is a run that sends it twice |
| `ReplayTheorems.FailedRangeLosesBuffered` | bus/bus.go:557-564 | after a failed range read the buffered messages are gone while the subscription stays |
| `ReplayTheorems.WithheldCopies` | bus/bus.go:437-449 | how often a message withheld in every announcement handled is sent all the same: once if the range read returned it, else once per buffered announcement; kept back iff neither |
| `ReplayTheorems.WithheldIsSent` | bus/bus.go:273-277 | for every message and cursor a run that withholds it in its only announcement and sends it |
| `ReplayProtocol.StepsAreBusOps` | bus/bus.go:545-593 | whatever else the shared maps hold, a protocol step changes the pair's part of them exactly as the corresponding bus operation |
| `Subscriptions.PairsAreIndependent` | bus/bus.go:477-531 | an operation on the shared maps is, for each (subscriber, topic) pair, that pair's own operation |
| `Subscriptions.RunsKeepValid` | bus/bus.go:477-593 | over all runs: replay entries belong to current subscriptions, are buffering and do not outlive their call; no topic maps to the empty set; the gauge is the number of pairs |
| `Subscriptions.ApplyKeepsValid` | bus/bus.go:483-531 | every single operation keeps that invariant, from any state in which it holds |
| `Subscriptions.RoutesPartition` | bus/bus.go:273-287 | buffered, filtered and picked for delivery partition the topic's subscribers |
| `Subscriptions.UnseenIsKept` | bus/bus.go:584-591 | what a flip drains stands at strictly increasing places of the buffer, which are exactly those of unseen IDs |
| `Subscriptions.JudgeRoutesLiveDelivery` | bus/bus.go:254-287 | end to end over the wire, case by case: a subscriber not mid-replay is picked iff it has no ID, or nothing is configured, or there are no candidates, or a sound answer delivers to it, or the source, the Judge or its answer failed under DeliverAll |
| `Subscriptions.ReorderingChangesNoRoute` | bus/judge.go:158-178 | reordering the Judge's decisions changes no subscriber's route on any instance |
| `BusObject.Bus.constructor` | bus/bus.go:140-157 | a new bus is the start of every run |
| `BusObject.Bus.AddLocalSubscription` | bus/bus.go:477-493 | is the Add operation; subscribing twice counts once |
| `BusObject.Bus.RemoveLocalSubscription` | bus/bus.go:497-509 | is the Remove operation, replay entry and gauge included |
| `BusObject.Bus.RemoveSubscriberAll` | bus/bus.go:514-531 | is the RemoveAll operation: every topic and every replay entry of the subscriber, and nothing else |
| `BusObject.Bus.BeginReplay` | bus/bus.go:545-554 | is the Begin operation: subscription and buffering start together |
| `BusObject.Bus.FailReplay` | bus/bus.go:558-563 | is the Fail operation |
| `BusObject.Bus.MarkReplayed` | bus/bus.go:570-576 | is the Mark operation, without effect if the subscriber was removed meanwhile |
| `BusObject.Bus.FlipReplay` | bus/bus.go:581-593 | is the Flip operation and hands back exactly the buffered messages whose ID was not replayed, in the order they were buffered in |
| `BusObject.Bus.DecideFanOut` | bus/bus.go:273-287 | buffers for exactly the subscribers mid-replay, lists exactly those to deliver to, once each, and counts the others, in whatever order the map is ranged over |
| `BusObject.DeliverAndReport` | bus/bus.go:297-325 | delivered plus dropped is the list's length, dropped are exactly those asked that refused, and the report carries these counts |
| `BusObject.HandleTopic` | bus/bus.go:247-325 | buffered + filtered + delivered + dropped is the topic's local subscriber count, each is the size of its class; a report is sent iff asked for and the routes before the call leave somebody to deliver to, with exactly the counts |
| `BusObject.NoReport` | bus/bus.go:297-299 | for every topic, message and identified subscriber: a publish that asks for a report and gets none |
| `BusReplay.SubscribeWithReplay` | bus/bus.go:537-600 | one call, on any stream, stated by the ID that `since` stands for: a refused cursor changes nothing; a failed read leaves the subscription and sends nothing; success sends exactly what the range read returns above that ID, in order, with the flag; no replay entry survives |
| `BusReplay.SendReplayed` | bus/bus.go:570-577 | sends every message once as replay and adds exactly their IDs to the pair's seen set, or nothing if the pair was removed meanwhile |
| `Routing.Resolve` | bus/judge.go:158-178 | succeeds iff every decision names a candidate and no two name the same; then yields the IDs of exactly the deliver decisions, in order |
| `Routing.DecisionOrderIrrelevant` | bus/judge.go:158-178 | permuted decisions are accepted alike and choose the same subscribers |
| `Routing.Judge` | bus/bus.go:740-775 | case by case: the chosen IDs for a sound answer; the empty list under DeliverNone, nil under DeliverAll, when the candidates, the Judge or its answer fail; nil when nothing is configured or there are no candidates |
| `Routing.JudgeOnce` | bus/bus.go:777-795 | an error exactly on a failed source, on a failed Judge with candidates or on unsound decisions with candidates; nil without candidates; the chosen IDs otherwise |
| `Routing.WireKeepsRecipients` | bus/bus.go:221-245 | nil, empty and list survive the wire and stay distinct; with omitempty exactly the empty list would not |
| `ReplayScan.ReplayMessages` | bus/bus.go:602-642 | on any stream, what the millisecond range plus the post-filter return; that this is the whole stream filtered by ID above the cursor, in order, for every stream of int64 IDs, and for every stream of Redis with a discerning cursor; when it errs; when it flags truncation and with which oldest ID |
| `ReplayScan.ReturnedIsAboveIff` | bus/bus.go:618-625 | nothing at or below the cursor gets through; nothing above it is missing iff the saturating comparison sees every entry above the cursor as such |
| `ReplayScan.ReturnedInOrder` | bus/bus.go:618-625 | on any stream what gets through are exactly the entries above the cursor that are seen as such, in stream order |
| `ReplayScan.DiscerningIff` | bus/bus.go:722-731 | the cursors that lose nothing on any stream of uint64 IDs are exactly those with neither part in the range from the largest int64 up to but without the largest uint64 |
| `ReplayScan.AboveFrom` | bus/bus.go:605-625 | a range read from the cursor's millisecond loses nothing above the cursor |
| `ReplayScan.CompleteIffNothingTrimmedAbove` | bus/bus.go:602-642 | a replay is complete iff no entry above the cursor had been trimmed |
| `ReplayScan.UnflaggedReplayIsComplete` | bus/bus.go:627-639 | flag down and an oldest entry found: nothing above the cursor is missing, even with trimming and adding between the two reads |
| `ReplayScan.FlagMeaning` | bus/bus.go:627-639 | on any stream the flag is up iff the saturating comparison sees the cursor below the oldest entry still there; in numbers too for an int64 cursor on a stream it can read |
| `ReplayScan.FlagBlindSpots` | bus/bus.go:627-639 | when something above the cursor was trimmed, the flag stays down iff the cursor is in millisecond 0, the stream was emptied or the oldest-entry read failed |
| `ReplayScan.EmptiedStreamLosesSilently` | bus/bus.go:627-639 | an input for which the flag is down and messages are lost |
| `ReplayScan.CursorsDenoteIds` | bus/bus.go:685-700 | which texts are accepted, and the ID each stands for: a stream ID is itself and unchanged, digits and a time are the start of that millisecond, a time before 1970 is none and the range read refuses it |
| `ReplayScan.MinIdTrimsFront` | bus/bus.go:661-674 | trimming by minimum ID removes exactly a prefix of the stream |
| `StreamIds.LessIsCompareBelowZero` | internal/redisx/client.go:158-169 | StreamIDLess and compareStreamIDs are the same order on all strings |
| `StreamIds.CompareIsTotalOrder` | bus/bus.go:704-720 | antisymmetric, transitive, total, with ties exactly on equal (ms, seq) pairs |
| `StreamIds.SplitSaturates` | bus/bus.go:722-731 | the parts read from a well-formed ID are its numbers saturated at int64 |
| `StreamIds.CompareIsNumeric` | bus/bus.go:702-731 | on the texts of int64 IDs the comparison is the numeric order |
| `StreamIds.CompareIsNumericBelow` | bus/bus.go:702-731 | -1, 0 or 1 by the numeric order, for parts below two to the sixty-third |
| `StreamIds.DecimalExamples` | internal/redisx/client.go:153-157 | "1000-2" is before "1000-10" and "9-0" before "10-0" |
| `StreamIds.SignExamples` | bus/bus.go:722-731 | signs, and 0 for a text that is not a number |
| `StreamIds.StreamIdTextIff` | bus/bus.go:682-689 | a stream ID is one dash with digits only, at least one, on each side |
| `StreamIds.SaturationTies` | bus/bus.go:722-731 | exactly which different IDs compare as equal beyond int64 |
| `StreamIds.IdTextRoundTrip` | bus/bus.go:722-731 | the text of an ID denotes that ID |
| `AckCursors.CursorStore.SetAckCursor` | internal/redisx/client.go:119-135 | an ack that finds no cursor, an expired or a smaller one is read from then on, for its time to live and no longer, or for ever without one; any other ack changes no later reading; other keys stay |
| `AckCursors.CursorStore.AckCursor` | internal/redisx/client.go:139-151 | the stored cursor, or the empty text if missing or expired |
| `AckCursors.CursorStore.AckAll` | internal/redisx/client.go:119-135 | acks one after another: at every later time the last one that moved the cursor is read, while it lives |
| `AckCursors.AcksAreRead` | internal/redisx/client.go:119-151 | the same for every sequence of acks on every key |
| `AckCursors.AcksLeaveMaximum` | internal/redisx/client.go:113-135 | acks that do not overlap leave a maximum of the IDs acked since the key was last missing, in any order and with repeats |
| `AckCursors.KeptForEver` | internal/redisx/client.go:119-135 | without a time to live that is all of them |
| `AckCursors.ForwardOnlyIff` | internal/redisx/client.go:115-131 | for every interleaving, expiry of the key included: the cursor is always a maximum of the acks finished since the key was last missing, and is never replaced by a smaller one, iff no SET lands on a larger ID |
| `AckCursors.CurrentSetsLeaveMaximum` | internal/redisx/client.go:119-135 | in particular if every SET lands on what its GET saw |
| `AckCursors.OverlappingAcksRewind` | internal/redisx/client.go:115-131 | for any two IDs, a run of two overlapping acks that moves the cursor back |
| `SchedulerTheorems.ExecKeepsInv` | internal/scheduler/scheduler.go:184-262 | accounting, scores, tokens and progress are invariant over any number of instances, clocks, claim expiries, failures and crashes |
| `SchedulerTheorems.AtMostOnce` | internal/scheduler/scheduler.go:196-262 | each insertion is pending, run, expired, malformed or removed by a user, exactly one of these, member by member and in total; runs never exceed insertions |
| `SchedulerTheorems.NeverMultiplies` | internal/scheduler/scheduler.go:243-260 | pending members plus runs in progress under an ID never exceed the insertions by AddJob |
| `SchedulerTheorems.NeverEarly` | internal/scheduler/scheduler.go:184-194 | every run is at a tick time that the member's own executeAt has reached and not past its validUntil, even from a stale list |
| `SchedulerTheorems.BoundedRecurrence` | internal/scheduler/scheduler.go:204-256 | at most (validUntil - first)/interval + 1 runs, none if the first time is past validUntil, one without an interval, whatever the clocks say |
| `SchedulerClaims.OneRunPerClaim` | internal/redisx/scheduler_store.go:162-171 | over every run the runs under a job ID are at most one more than the claims on it that expired |
| `SchedulerClaims.GrantsAreApart` | internal/redisx/scheduler_store.go:162-171 | if claims last ttl, two grants of one ID are at least ttl apart |
| `SchedulerClaims.RunsArePaced` | internal/scheduler/scheduler.go:212-222 | if claims last ttl, n runs under a job ID take at least (n - 1) * ttl, whatever the interval |
| `SchedulerLosses.HowPlacesAreLost` | internal/scheduler/scheduler.go:196-262 | a pending or running job loses its place in one step iff by a user's ZREM, expiry, a crash or failed command while running, a last run, or a ZADD onto an identical member |
| `SchedulerLosses.KeepsPlaceIff` | internal/scheduler/scheduler.go:196-262 | over every run a job still has its place iff no step was a losing one |
| `SchedulerLosses.LostForEver` | internal/scheduler/scheduler.go:196-262 | a job without a place never gets one or runs again |
| `SchedulerLosses.CrashLosesJob` | internal/scheduler/scheduler.go:224-260 | for every due job a run with a crash after the ZREM, after which, whatever follows, it never runs again |
| `Jobs.NextRunScore` | internal/scheduler/scheduler.go:243-256 | the next score is tick plus interval and within validUntil, or int64 overflow makes it negative and the job is never listed again |
| `Jobs.NextRunIff` | internal/scheduler/scheduler.go:243-256 | there is a next run iff the interval is positive and no validUntil that parses ends before tick plus interval; it is the same job at that sum |
| `Jobs.RescheduledScore` | internal/scheduler/scheduler.go:245-255 | the executeAt written into a rescheduled job denotes the millisecond of the score it is added with |
| `SchedulerStore.Store.JobExistsScan` | internal/redisx/scheduler_store.go:59-74 | true iff some member that parses has the ID |
| `SchedulerStore.Store.AddJob` | internal/redisx/scheduler_store.go:32-57 | exactly when it is refused; otherwise one member with the score of its executeAt |
| `SchedulerStore.Store.RemoveJob` | internal/redisx/scheduler_store.go:78-96 | fails iff there is none; otherwise removes one member under the ID |
| `SchedulerStore.Store.ListDueJobs` | internal/redisx/scheduler_store.go:107-124 | exactly the members that parse with a score from 0 to now, once each, in the order of the listing |
| `SchedulerStore.Store.RemoveJobMember` | internal/redisx/scheduler_store.go:128-134 | tells whether the member was still there, and it is gone |
| `SchedulerStore.Store.ClaimJob` | internal/redisx/scheduler_store.go:162-171 | won iff nobody holds the claim |
| `SchedulerStore.Store.AddRescheduledJob` | internal/redisx/scheduler_store.go:138-144 | adds the member with the given score |
| `SchedulerStore.Store.ProcessDue` | internal/scheduler/scheduler.go:196-262 | in numbers: dropped iff without job data or past validUntil; executed iff not, claim free and member still there; then re-added at tick plus interval iff the interval is positive and validUntil allows it; the whole resulting set and claims in every case |
| `SchedulerStore.ProcessDueIsARun` | internal/scheduler/scheduler.go:196-262 | what it does to the set, the claims and the log of runs is what a run of the machine does |
| `SchedulerStore.Store.Tick` | internal/scheduler/scheduler.go:184-194 | processes exactly the listed due members, one after another; those that run are run in the order of the listing |
| `SchedulerStore.TickIsARun` | internal/scheduler/scheduler.go:184-194 | every part of a tick, from any state the invariant allows, is a run of the machine |
| `SchedulerStore.TickMeetsMachine` | internal/scheduler/scheduler.go:184-194 | for every order of the listing, the set, the claims and the runs that Tick is proved to produce are those of a run of the machine |
| `SchedulerStore.MachineRuns` | internal/scheduler/scheduler.go:212-260 | claim, remove, run and reschedule without interference: the whole resulting set, claims and log |
| `SchedulerStore.RunsIffUnclaimed` | internal/scheduler/scheduler.go:212-222 | a due member that is there is run iff no claim on its ID is in force; otherwise it is left as it is |
| `SchedulerStore.SecondTickLoses` | internal/scheduler/scheduler.go:184-262 | two ticks of the code with the claim still in force: the first runs the job and adds the next run, the second lists that one and leaves it |
| `SchedulerStore.IntervalIsMissed` | internal/scheduler/scheduler.go:243-256 | for every recurring job whose next run falls due while the claim lasts, a run of the machine in which it is due twice and run once |
| `RateLimit.Limiter.Allow` | internal/ratelimit/ratelimit.go:60-92 | the commands one by one are the script's transition, and the answer is its decision |
| `RateLimit.RateBound` | internal/ratelimit/ratelimit.go:46-92 | every half-open span of window - 2*skew holds at most MaxRequests admitted requests, in Redis time and in caller timestamps, with key expiry |
| `RateLimit.DenialIsJustified` | internal/ratelimit/ratelimit.go:60-74 | a denial implies MaxRequests admitted requests later than now - window |
| `RateLimit.IsIdealWithoutSkew` | internal/ratelimit/ratelimit.go:46-92 | without skew the trimmed, expiring set decides exactly as a sliding window that forgets nothing |
| `RateLimit.Survives` | internal/ratelimit/ratelimit.go:60-74 | an admitted request stays stored, under its time to live, until a request a window away |
| `RateLimit.DeadlineIsLastAdmission` | internal/ratelimit/ratelimit.go:60-74 | the key lives exactly one window from the last admission; a denial does not prolong it |
| `RateLimit.EvictedStartsAfresh` | internal/ratelimit/ratelimit.go:60-74 | once the expired key is gone the script starts from nothing |
| `RateLimit.BoundIsTight` | internal/ratelimit/ratelimit.go:46-92 | in every configuration one tick more than window - 2*skew can hold one request too many |
| `RateLimit.CollidingMembersOverAdmit` | internal/ratelimit/ratelimit.go:54-56 | two processes with equal members let more than MaxRequests pass |
| `SendQueueTheorems.ByteAccounting` | internal/connection/hub.go:313-341 | in every interleaving bufBytes plus bytes enqueued but not added equals bytes queued plus the frame in the writer's hand |
| `SendQueueTheorems.QueuedBytesBound` | internal/connection/hub.go:313-341 | with never more than k of any number of goroutines in SendReporting, whatever the others do, frames of at most N bytes and no SendNow, queued bytes never exceed maxBuf + (k-1)*N |
| `SendQueueTheorems.BoundIsAttained` | internal/connection/hub.go:313-341 | for every k, every N up to maxBuf and every capacity that can hold so many bytes in frames of N, a run that reaches that bound |
| `SendQueueClose.DrainBeforeClose` | internal/connection/hub.go:406-465 | without a failed write the writer emits exactly the frames queued before the close frame, in order, then it, then nothing (section 5.5.1 of RFC 6455) |
| `SendQueueClose.NothingAfterStop` | internal/connection/hub.go:437-465 | a stopped writer writes nothing more |
| `SendQueueClose.WriterReachesClose` | internal/connection/hub.go:437-465 | the frames ahead of the close frame are a measure every writer step lowers and no sender raises; the writer can always step |
| `SendQueueClose.CloseHappensOnce` | internal/connection/hub.go:406-415 | only the first closer's category and frame count |
| `SendQueueClose.DropsAreAStreak` | internal/connection/hub.go:352-366 | the drop counter is the number of drops since the last reset |
| `SendQueueClose.EvictsAfterStreak` | internal/connection/hub.go:352-366 | eviction iff it is on and the drop completes a streak of maxDrops |
| `SendQueueClose.SendNowEnqueues` | internal/connection/hub.go:371-380 | on an open connection with room SendNow enqueues its frame behind the others and counts its bytes, and changes nothing else |
| `SendQueueClose.PingEnqueues` | internal/connection/hub.go:383-395 | so does Ping, without bytes |
| `SendQueueClose.FullQueueWaits` | internal/connection/hub.go:371-395 | without room SendNow waits until cancelled or closed, Ping gives up |
| `ConnObject.Conn.SendReporting` | internal/connection/hub.go:313-341 | accepted iff open, under the threshold and room in the channel; is a run of the machine; what changes in each case |
| `ConnObject.Conn.RecordDrop` | internal/connection/hub.go:352-366 | counts, and closes exactly at maxDrops; is a run of the machine |
| `ConnObject.Conn.CloseWith` | internal/connection/hub.go:406-415 | the first call closes and enqueues the close frame iff there is room, later calls do nothing; is a run of the machine |
| `ConnObject.Conn.RunWriter` | internal/connection/hub.go:437-465 | with or without a failing write: what is written, what is taken off the queue and off bufBytes, what is left, and whether it stops |
| `ConnObject.WriterOutcome` | internal/connection/hub.go:437-465 | those are: without a failure everything up to and including the close frame; with the k-th write failing the frames before it, that frame lost and the rest left |
| `ConnObject.WriterIsARun` | internal/connection/hub.go:437-465 | the machine's writer does the same to its whole state, by a run |
| `ConnObject.CloseSplits` | internal/connection/hub.go:437-465 | what is written and what is left make up the queue; a close frame is the last written and nothing before it is one |
| `TopicLocks.HowLocksAreLost` | internal/redisx/locks.go:33-119 | a holder loses a lock in one step iff by its own unlock, expiry, or another's renewal that is no longer current |
| `TopicLocks.LocksPassProperly` | internal/redisx/locks.go:33-119 | over every run with current renewals a lock leaves its holder only through that holder's unlock or expiry |
| `TopicLocks.LocksPassProperlyIff` | internal/redisx/locks.go:33-119 | for every run: each loss of a lock is by the holder's own unlock or expiry iff no renewal's SET lands on a lock another client holds |
| `TopicLocks.NonOwnerIsHarmless` | internal/redisx/locks.go:79-119 | a non-owner's lock, unlock or current renewal leaves the lease unchanged |
| `TopicLocks.LateRenewalSteals` | internal/redisx/locks.go:97-119 | for any two clients a run in which a late SET takes a live lock |
| `TopicLocks.RelockDoesNotRefresh` | internal/redisx/locks.go:47-75 | locking again leaves the lease as it is |
| `TopicLocks.OwnedWhile` | internal/redisx/locks.go:49-75 | a lock is owned for exactly its time to live, five minutes unless one is given |
| `TopicLocks.OwnedWhileRenewed` | internal/redisx/locks.go:97-119 | so is a renewed one, from the renewal on |
| `TopicLocks.Locks.LockTopic` | internal/redisx/locks.go:49-75 | acquires iff free, for the given time or five minutes, tells who holds it, records the topic |
| `TopicLocks.Locks.UnlockTopic` | internal/redisx/locks.go:79-93 | releases and un-records iff the caller owns it |
| `TopicLocks.Locks.RenewLock` | internal/redisx/locks.go:97-119 | extends the lease iff the caller owns it, and touches no other lock |
| `TopicLocks.Locks.ReleaseUserLocks` | internal/redisx/locks.go:148-162 | exactly the holder's locks of both kinds on its recorded topics are gone, every other lease stays, and which topics stay recorded |
| `TopicLocks.ReleasesAllIff` | internal/redisx/locks.go:146-162 | it releases all of the holder's locks iff all their topics are recorded |
| `TopicLocks.UnrecordedLock` | internal/redisx/locks.go:84-91 | a call sequence that leaves a held lock unrecorded |
| `TopicGlobTheorems.SubstitutedKeyIsLiteral` | authz/authz.go:133-163 | for any number of placeholders that stand alone the expanded pattern matches iff the topic is prefix match, key, match, key, ..., suffix match with '.' and '/' identified, or the pattern became the bare `*` |
| `TopicGlobTheorems.LiteralIff` | authz/authz.go:118-163 | for every pattern but the bare `*`: it keeps that meaning for all non-empty keys and topics iff its placeholders stand alone or it grants nothing to anybody |
| `TopicGlobTheorems.ClassFreesTheKey` | authz/authz.go:135-153 | a placeholder in a character class makes the key a range |
| `TopicGlobTheorems.OnePlaceholder` | authz/authz.go:133-163 | with one placeholder and a non-empty key: prefix match, literal key, suffix match, both directions |
| `TopicGlobTheorems.BareStar` | authz/authz.go:135-140 | a non-empty key never makes a pattern the bare `*` |
| `TopicGlobTheorems.EmptyKeyOpensEverything` | authz/authz.go:135-163 | an empty key can, and then every topic is granted |
| `TopicGlobTheorems.UnpairedBackslashFreesTheKey` | authz/authz.go:135-153 | a placeholder after an unpaired backslash lets a star in the key act as a wildcard |
| `TopicGlobTheorems.UnpairedBackslashIff` | authz/authz.go:135-153 | after an unpaired backslash a non-empty key is literal, in every such pattern and for every topic, iff its first character other than a backslash exists and is plain; any other key is denied even its own topic |
| `TopicGlobTheorems.SegmentCount` | authz/authz.go:155-163 | a pattern other than the bare `*` whose classes do not admit the separator matches only topics with its own number of segments; without classes that is the number in its text |
| `TopicGlobTheorems.SegmentsKeptIff` | authz/authz.go:155-163 | all topics a pattern matches have its own number of segments iff none of its classes admits the separator or one of them admits nothing |
| `TopicGlobTheorems.ClassCrossesSegments` | authz/authz.go:155-163 | a negated class that crosses a segment boundary |
| `TopicGlobTheorems.KeysAreKeptApart` | authz/authz.go:110-122 | where any number of placeholders fill whole segments, two keys granted the same topic are equal up to '.' and '/' |
| `TopicGlobTheorems.SeparatorsAreIdentified` | authz/authz.go:157-163 | keys equal up to '.' and '/' are granted exactly the same topics by every pattern |
| `TopicGlobs.EscapeGlob` | authz/authz.go:142-153 | the loop escapes the text character by character |
| `TopicGlobs.TokenizeEscaped` | authz/authz.go:142-153 | an escaped key reads back as its own characters, whatever follows it |
| `TopicGlobTheorems.StarMeans` | authz/authz.go:155-163 | a star takes exactly a text without a separator |
| `TopicGlobTheorems.OneCharacterMeans` | authz/authz.go:155-163 | `?` takes exactly one character other than the separator, a class one in or out of its ranges, anything else itself |
| `TopicGlobTheorems.TokensAreWritten` | authz/authz.go:155-163 | how stars, `?`, escapes and plain characters are written |
| `TopicGlobTheorems.ClassIsWritten` | authz/authz.go:155-163 | a class of any ranges, negated or not, is read back from its text |
| `TopicGlobTheorems.MalformedPatterns` | authz/authz.go:161-162 | the malformed classes that never match |
| `TopicGlobTheorems.MetaCharacters` | authz/authz.go:142-153 | exactly the five metacharacters are escaped; exactly the dot becomes a separator |
| `TopicGlobTheorems.BareStarMatches` | authz/authz.go:158-160 | the bare `*` matches every topic |
| `TopicGlobTheorems.ReplacesAll` | authz/authz.go:135-140 | substitution replaces every placeholder from left to right |
| `TopicGlobTheorems.ReplacesNothingElse` | authz/authz.go:135-140 | and leaves a pattern without one as it is |
| `TopicGlobs.Authorize` | authz/authz.go:124-131 | allowed iff the action has a pattern that, expanded, matches; no patterns deny |

## Left out

- ReplayTheorems.NoGap: the protocol's range read compares IDs as numbers, which `ReplayScan.ReplayMessages` proves of the code for int64 streams and for discerning cursors. A message whose announcement never reaches this instance (Redis pub/sub is at most once) is covered only if the range read returned it.
- SchedulerTheorems.AtMostOnce: a run counts from the ZREM that entitles to it; whether a crash after that comes before or after the HTTP call is not distinguished.
- SchedulerStore.Store.ProcessDue: the method (like the other methods of the classes) runs without interference and with commands that succeed; interference, failures and crashes are steps of the machine.
- TopicGlobs.Authorize: path.Match is modelled by its documented grammar; Go's greedy matching of chunks can differ only for patterns with classes that admit '/'.
- Judge filtering of replayed and buffered messages: the stream entry and the buffer carry no recipients.
- A total order of frames after the flip: leftovers are sent outside the lock.
- The order in which Go ranges over maps and Redis lists sets: a parameter (`order`, `topics`) over which every theorem quantifies.
- Clocks, timers and the time at which Redis evicts a key: parameters or steps.
- Scores as float64: exact up to 2^53 milliseconds, here unbounded integers.
- A Redis command that fails is taken to have had no effect; a lost reply to a command that ran is not modelled.
- Wrap-around of the limiter's process-wide uint64 sequence number, and distinctness of members across processes (a hypothesis of `RateBound`).
- SADD and SREM of `lockedTopics` as steps of their own; the class runs them with the lock command.
- The close code 0, which the writer replaces by 1000: a close frame carries the code it is sent with.
- Redis keys as concatenated text; the model uses pairs and datatypes.
- Job text as JSON: a member is its content; members put there by others that carry job data are not modelled.
- JSON, HTTP requests of jobs, JWT, TLS, DNS checks, websocket framing, metrics and logging: I/O or foreign libraries.
- Connection counts, presence, the hub's maps, handler chain, configuration, message validation and the command-line tools: they would only add easy members.

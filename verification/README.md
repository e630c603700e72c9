# AlertMesh: a verified model of its alert path

AlertMesh takes alerts from Kafka, runs them through a rule engine, keeps one incident per alert group,
notifies people on a schedule, and pushes changes to browsers. This project models the parts of that path
whose correctness depends on interleaving, on arithmetic, or on a loop, and proves what they keep.

`dafny verify dfyconfig.toml` checks everything.

How the models are built:

- An object whose methods update its fields is a class; its methods are proved against functions of the old
  and new state (`Tracking`, `Aggregation`, `Inhibition`, `Routing`, `DedupTable`, `HubIndex`, `Reload`,
  `Migrate`). A loop of the original is a loop with invariants (`SharedSort`, `Utf8`, `Paths`, `Epoch`, `Buckets`).
- Where goroutines share state, the module gives a `State`, a `Step` per atomic action, and `Enabled` and
  `Apply`. A run is any finite sequence of steps (`Runs`), so a theorem about a run is about every
  interleaving. Atomic means: one critical section, one channel operation, one atomic map operation, or one
  database statement. The state machines use the functions the classes are proved against.
- Where the original falls short of what one would expect, the model keeps its behaviour. A lemma then
  shows a concrete run or input that fails, and another says exactly when it does not fail.

| module | part of the system |
|---|---|
| `Tracking`, `Worker` | offset tracker of one Kafka worker; the worker's fetcher, processors, committer and final flush |
| `Reload`, `Debouncer` | reconciling Kafka reader groups with the table; the debounced reload loop |
| `Dedup`, `DedupTable` | lock-free deduplicator, interleaved and sequential |
| `Routing`, `Inhibition`, `Aggregation`, `Engine` | rule matching, group keys, inhibition, sharded aggregation, and the whole engine under concurrency |
| `SharedSort` | computing a group key in place, alone and concurrently |
| `Incidents`, `EndToEnd` | incident table under alert groups, recoveries, the staleness reaper and operators; the engine and the table together |
| `Schedule`, `Escalation` | repeat intervals and the severity ladder; one incident under the schedule |
| `HubIndex`, `Fanout` | browser topic hub, its classes and its interleavings |
| `Migrate` | schema migration runner and its crash protocol |
| `Utf8`, `Paths`, `Epoch`, `Buckets` | byte-limited cutting, path fingerprints, numeric timestamps, recipient bucketing |
| `Int64`, `Runs`, `Sets`, `Wrappers`, `Ascii` | shared vocabulary |

Results about what the original does *not* guarantee, each with its exact condition where there is one:

- An offset can be committed before an earlier one is processed if it is acked first
  (`Worker.EarlierOffsetOvertaken`); `Worker.EmittedIsDone` says exactly when it is covered.
- The deduplicator's cleanup deletes by key, so it can remove a fresh entry
  (`Dedup.UnsafeRemovalDoublesWinner`). The comment above that delete says it is safe;
  `Dedup.DeleteSafeExactly` says when it is. Even a safe delete lets a slow caller win with a time inside the previous
  window (`Dedup.LateCallerWinsEarlyTime`); `Dedup.DeleteKeepsCapturesExactly` says when that cannot happen.
- Concurrent calls sort a rule's group_by list in place, so they can compute different keys for the same labels
  unless the list is stored sorted (`SharedSort.KeysAgreeExactly`, `SharedSort.OneKeyExactly`), and a recovery can then miss the group of its
  firing alert (`Engine.UnsortedMisses`, `Engine.SignalsHitExactly`).
- Commas in label values can give different alerts the same group key (`Routing.PairCollisionExactly`); without them
  the key tells apart exactly what the alerts are grouped by (`Routing.KeySeparates`).
- An acknowledgement has no status check (`Incidents.UncheckedAckDoubles`, `Incidents.AckKeepsOneExactly`), and a
  failed lookup counts as an empty one (`Incidents.FailedLookupDoubles`, `Incidents.BlindCreateKeepsOneExactly`).
- An alert group can be appended to an incident that was closed since the lookup, and then its key has no active
  incident (`Incidents.AppendToClosed`, `Incidents.FlushActivatesExactly`).
- Saving a whole incident row can undo an escalation (`Escalation.OldSaveUndoesClimb`,
  `Escalation.SaveKeepsRungExactly`) or make a repeat come early (`Escalation.OldSaveRepeatsTwice`,
  `Escalation.SaveKeepsPaceExactly`).
- Schedule durations wrap in int64 (`Schedule.PositiveExactly`, `Schedule.UncappedInMinutes`,
  `Schedule.OverflownInMinutes`, `Schedule.CappedInMinutes`).
- After a failed spawn, taking the edit back leaves the group stopped for good
  (`Reload.RevertedRowStaysDown`, `Reload.SettledExactly`). The comment on spawning says a later reload retries.
- Unit detection compares strictly: ten digits are documented as seconds, but `1000000000` is refused
  (`Epoch.BillionthSecondRefused`, `Epoch.SpellingReadBackExactly`).
- A regex matcher outside the router is never compiled (`Routing.UncompiledRegexNeedsMissingLabel`).

Smaller observations about the code: the lock lets the empty group key through, but that branch is dead, since every
key comes out of the hash (`EndToEnd.EngineKeysGuarded`); `severityRank` lists the words critical, warning and info, but
`maxSeverity` only ever looks up mapped severities, so those entries are never used; and four of the seven
path patterns never decide anything (`Paths.ThreePatternsDecide`).

## Model

| member | source | states |
|---|---|---|
| Tracking.FrontierIsRunEnd | internal/ingestion/partition_tracker.go:95-125 | the commit frontier is the one offset at which a contiguous run of acks from the floor ends |
| Tracking.FrontierGrows | internal/ingestion/partition_tracker.go:111-125 | more acks never move the frontier back |
| Tracking.ReplayIsAckSet | internal/ingestion/partition_tracker.go:76-93 | of any call history a partition keeps only its first ack (the floor) and the set of acks from there on |
| Tracking.OrderIrrelevant | internal/ingestion/partition_tracker.go:70-150 | two histories with the same first ack and the same acks agree on frontier and on what waits behind a gap, in any order and with any drains |
| Tracking.PartitionTracker.constructor | internal/ingestion/partition_tracker.go:57-64 | an empty tracker stands for the empty history |
| Tracking.PartitionTracker.Ack | internal/ingestion/partition_tracker.go:70-129 | after the call the four maps say exactly what the extended history says: high-water mark is the frontier, pending is what lies beyond it |
| Tracking.PartitionTracker.DrainCommittable | internal/ingestion/partition_tracker.go:136-150 | one genuinely acked message per partition whose frontier moved since the last drain, carrying that frontier, and none for any other |
| Tracking.PartitionTracker.PendingDepth | internal/ingestion/partition_tracker.go:155-163 | the number of acked offsets beyond their partition's frontier |
| Worker.EmittedIsDone | internal/ingestion/kafka_manager.go:511-682 | in every interleaving an emitted offset is covered by finished work on all earlier ones if and only if everything below the partition's floor is finished |
| Worker.SafeFromLowestFirstAck | internal/ingestion/kafka_manager.go:598-682 | when the first ack is for the lowest offset handed out, no offset is emitted before it and all earlier ones are processed or dropped |
| Worker.EmissionsIncrease | internal/ingestion/kafka_manager.go:647-682 | emitted offsets of a partition strictly increase over the whole run |
| Worker.FlushIsComplete | internal/ingestion/kafka_manager.go:541-554 | after the final flush nothing is pending and the highest offset emitted per partition is the last one put in the channel |
| Worker.FlushWaitsForChannel | internal/ingestion/kafka_manager.go:541-551 | no flush happens before the channel is closed and empty and every message in it has been counted by the tracker |
| Worker.EarlierOffsetOvertaken | internal/ingestion/partition_tracker.go:76-83 | a run in which offset 11 is emitted while offset 10 is still being processed |
| Worker.ChannelBounded | internal/ingestion/kafka_manager.go:511-540 | eight processors, and never more than 32 messages in the channel |
| Worker.AlwaysCanFlush | internal/ingestion/kafka_manager.go:541-554 | from any moment a worker can be stopped: some run reaches the flush and stops the committer, and then every message ever put in the channel is counted by the tracker |
| Worker.ClosedIsCancelled | internal/ingestion/kafka_manager.go:562-593 | the fetcher closes the channel only after a cancellation |
| Worker.StoppedIsFlushed | internal/ingestion/kafka_manager.go:541-554 | the committer is stopped only after the flush |
| Worker.NothingAfterStop | internal/ingestion/kafka_manager.go:647-682 | nothing is emitted after that |
| Reload.ReconcileAt | internal/ingestion/kafka_manager.go:258-287 | what one reload does to every id: keep, replace, stop, or forget |
| Reload.SettledExactly | internal/ingestion/kafka_manager.go:248-288 | a reload leaves exactly the enabled rows running at their current hash if and only if every spawn it needs succeeds and no row it leaves alone has a stopped group |
| Reload.UnchangedKeepsGroup | internal/ingestion/kafka_manager.go:263-266 | a row with an unchanged hash keeps the very group it had |
| Reload.ChangedGetsNewGroup | internal/ingestion/kafka_manager.go:267-277 | a changed row that spawns runs a group that never ran before |
| Reload.SettledIsFixpoint | internal/ingestion/kafka_manager.go:260-287 | a reload without changes does nothing |
| Reload.RevertedRowStaysDown | internal/ingestion/kafka_manager.go:263-276 | edit, failed spawn, revert: the group stays stopped through every later reload of those rows |
| Reload.KafkaManager.Reload | internal/ingestion/kafka_manager.go:248-288 | the loop over rows and the loop over groups do what `Reconcile` says; a failed load changes nothing |
| Reload.KafkaManager.StopOutside | internal/ingestion/kafka_manager.go:280-287 | stopping groups one at a time in any order stops and forgets exactly those outside the wanted set |
| Reload.KafkaManager.ShutdownAll | internal/ingestion/kafka_manager.go:290-297 | every group is stopped and forgotten |
| Reload.NothingRunsAfterShutdown | internal/ingestion/kafka_manager.go:290-297 | after it no group is held and none runs |
| Debouncer.NoRequestLost | internal/ingestion/kafka_manager.go:199-243 | until a load begins after a request or the loop is shut down, a token is queued or a load is due |
| Debouncer.InSyncAtRest | internal/ingestion/kafka_manager.go:208-288 | at rest, with notifications delivered and loads since then successful, the running groups are exactly the enabled rows if and only if the last reload was complete, whatever failed before |
| Debouncer.TickCatchesUp | internal/ingestion/kafka_manager.go:216-217 | from any run, one undisturbed round after the floor tick settles everything if and only if each unchanged row's group is running and each other row can be spawned now |
| Debouncer.LoadsBounded | internal/ingestion/kafka_manager.go:199-243 | loads never outnumber requests and ticks |
| Debouncer.NoLeakedGroup | internal/ingestion/kafka_manager.go:232-237 | every running group is held by the manager, and after shutdown none runs |
| Debouncer.BurstLoadsOnce | internal/ingestion/kafka_manager.go:207-243 | two changes whose notifications arrive within one debounce window cost one load, which applies the later one and leaves nothing owed |
| Debouncer.TickApplies | internal/ingestion/kafka_manager.go:216-288 | a change whose notification is lost or whose load fails stays known as missed until the floor tick applies it |
| Debouncer.ShutsDownAtOnce | internal/ingestion/kafka_manager.go:213-241 | the waiting or debouncing loop can be shut down at once and then holds no group |
| Dedup.OneWinnerPerEntry | internal/engine/dedup.go:47-78 | every entry that ever sat in the map was won by exactly the call that brought it |
| Dedup.DuplicateMeansAlive | internal/engine/dedup.go:64-69 | a duplicate answer names an entry of that fingerprint, installed and alive at the caller's time |
| Dedup.CountIsHits | internal/engine/dedup.go:52-69 | an entry's count is one plus the duplicates answered against it |
| Dedup.WinnersApart | internal/engine/dedup.go:55-77 | with no delete in between, captured times of successive winners are a full TTL apart |
| Dedup.WinsApartInRealTime | internal/engine/dedup.go:80-98 | a later winner wins no earlier than the previous winner's expiry, unless that winner's own entry was deleted alive |
| Dedup.DeleteSafeExactly | internal/engine/dedup.go:85-93 | in any reachable state the delete keeps all later wins a TTL away, in real time, from the winner it removes if and only if the removed entry has expired |
| Dedup.DeleteKeepsCapturesExactly | internal/engine/dedup.go:47-93 | in any reachable state the delete keeps the captured times of all later winners a TTL away from that of the winner it removes if and only if the removed entry has expired and no call of the fingerprint that can still win read the clock before that expiry |
| Dedup.UnsafeRemovalDoublesWinner | internal/engine/dedup.go:85-93 | a run in which the delete takes out a fresh entry and two calls win at the same moment |
| Dedup.LateCallerWinsEarlyTime | internal/engine/dedup.go:48-62 | a run in which a winner's captured time lies inside the previous winner's TTL although the delete was safe |
| Dedup.CleanupAlone | internal/engine/dedup.go:80-98 | a cleanup that nothing disturbs takes out exactly the entries whose time is over, strictly, and touches no call and no counter |
| DedupTable.Deduplicator.LoadOrStore | internal/engine/dedup.go:57-62 | returns the stored entry, or stores the offered one |
| DedupTable.Deduplicator.CompareAndSwap | internal/engine/dedup.go:74-76 | replaces exactly the entry that was examined, or nothing |
| DedupTable.Deduplicator.IsDuplicate | internal/engine/dedup.go:47-78 | an undisturbed call answers whether a live entry exists, counts the hit or installs a fresh entry, and touches no other entry |
| DedupTable.Deduplicator.Cleanup | internal/engine/dedup.go:80-98 | removes exactly the entries expired at the time of the pass |
| DedupTable.CleanupInvisible | internal/engine/dedup.go:80-98 | no later call can tell whether the cleanup ran |
| DedupTable.UndisturbedCall | internal/engine/dedup.go:47-78 | the interleaved model run without interruption answers as the sequential one and leaves the same map, entries and counters |
| Routing.CheckAll | internal/engine/routing.go:193-200 | true if and only if every matcher holds |
| Routing.LiteralMatches | internal/engine/routing.go:106-128 | a literal matcher holds if and only if the labels have the name with just that value, a negated one if and only if not |
| Routing.CompiledMatches | internal/engine/routing.go:106-128 | a compiled regex holds if and only if the label is present and its value accepted, a negated one if and only if not |
| Routing.MissingLabelMatches | internal/engine/routing.go:107-112 | a missing label satisfies exactly the negated matchers, of any kind |
| Routing.MatchesAllSplits | internal/engine/routing.go:193-200 | matchers are joined by "and", none is left out, and none at all always holds |
| Routing.UncompiledRegexNeedsMissingLabel | internal/engine/routing.go:106-120 | an uncompiled regex matcher holds exactly when the label is missing and the matcher is negated |
| Routing.PreparedRegex | internal/engine/routing.go:151-180 | after routes are set, a regex matcher on a present label means its pattern, and a bad pattern never matches |
| Routing.PreparedLiteral | internal/engine/routing.go:151-180 | setting routes does not change what a literal matcher means |
| Routing.Router.SetRoutes | internal/engine/routing.go:151-180 | every matcher of every route is prepared, nothing else about the routes changes |
| Routing.Router.Match | internal/engine/routing.go:183-191 | the first route whose matchers all hold, or none |
| Routing.FirstRouteIsFirst | internal/engine/routing.go:183-191 | the function the engine uses picks the same route |
| Routing.FirstPolicyPlaces | internal/engine/aggregation.go:92-118 | the first policy whose matchers hold gives its group_by when it lists any, else the route's, else "alertname", and its wait when positive, else the default; without one the route and the default decide |
| Routing.BelowIsLexicographic | internal/engine/aggregation.go:161-161 | names are compared as in a dictionary |
| Routing.SortSorts | internal/engine/aggregation.go:161-161 | sorting the group_by labels orders them and keeps them all |
| Routing.SortedUnique | internal/engine/aggregation.go:161-161 | there is only one sorted arrangement of the same labels |
| SharedSort.SortInPlace | internal/engine/aggregation.go:161-161 | insertion sort in place: sorted, and the same labels |
| SharedSort.ComputeGroupKey | internal/engine/aggregation.go:159-167 | an undisturbed call returns the key of the labels and leaves the rule's own list sorted |
| SharedSort.SortedListUntouched | internal/engine/aggregation.go:159-167 | in every interleaving of calls on a sorted list nobody writes to it and every call gets the key a single call computes |
| SharedSort.SortedReturns | internal/engine/aggregation.go:159-167 | whatever a call on a list stored sorted returns, in any interleaving, is the key of its labels |
| SharedSort.InOrderReturns | internal/engine/aggregation.go:159-167 | more generally on a list that is in order for the labels: no two of its names stand in the wrong order except where the labels give both the same text |
| SharedSort.OneKeyExactly | internal/engine/aggregation.go:159-167 | with a hash that tells texts apart, calls for given labels always return one key, in whatever interleavings, if and only if the list is in order for them |
| SharedSort.InOrderIsSorted | internal/engine/aggregation.go:159-167 | for an alert without labels, and for names without an equals sign, in order means sorted |
| SharedSort.AloneReturns | internal/engine/aggregation.go:159-167 | so is what a call returns that no other interrupts, whatever the order of the list and wherever other calls stand in their sorting |
| SharedSort.ReturnsHash | internal/engine/aggregation.go:165-166 | whatever any call returns is an output of the hash |
| SharedSort.UnsortedDisagrees | internal/engine/aggregation.go:161-164 | on every unsorted list some interleaving gives two calls for the same labels different keys |
| SharedSort.KeysAgreeExactly | internal/engine/aggregation.go:159-167 | with a hash that tells texts apart, concurrent calls always agree if and only if the rule stores its list sorted |
| Routing.GroupKeyIgnoresOrder | internal/engine/aggregation.go:159-167 | the key does not depend on the order of group_by |
| Routing.KeyText | internal/engine/aggregation.go:162-166 | the hashed text is name=value for the first label and adds a comma, name=value for each further one, in order |
| Routing.KeySeparates | internal/engine/aggregation.go:159-167 | with a hash that tells texts apart and values without commas, two alerts get the same key if and only if they agree on every label they are grouped by, missing ones counting as empty |
| Routing.PairCollisionExactly | internal/engine/aggregation.go:162-165 | for two names and any values, keys collide if and only if the values agree or one pair runs on past the separating text |
| Routing.SameResolve | internal/engine/aggregation.go:92-118 | policies and routes that differ only in group_by order resolve to the same labels and the same wait |
| Routing.TwinsShareKey | internal/engine/pipeline.go:102-117 | rules that differ only in the order of group_by give the same key to the same labels |
| Inhibition.CleanupInvisible | internal/engine/inhibition.go:163-176 | removing expired sources changes no later decision |
| Inhibition.RefiringExtends | internal/engine/inhibition.go:96-117 | a source seen again keeps its targets inhibited for its TTL |
| Inhibition.InhibitedExactly | internal/engine/inhibition.go:96-150 | a group is inhibited if and only if some past alert, the latest source sighting of its fingerprint and no older than ten minutes, matches a rule's source side, the group its target side, and both agree on the rule's equal labels, missing ones counting as empty |
| Inhibition.Inhibitor.Track | internal/engine/inhibition.go:96-117 | the alert is stored, with a new expiry, if and only if some rule's source side matches |
| Inhibition.Inhibitor.IsInhibited | internal/engine/inhibition.go:123-150 | true if and only if some rule, some live source and the equal labels agree |
| Inhibition.Inhibitor.Cleanup | internal/engine/inhibition.go:163-176 | exactly the expired sources are gone |
| Aggregation.WorstAppend | internal/engine/aggregation.go:129-133 | appending keeps the group's severity the rank-maximum of its alerts' mapped severities |
| Aggregation.WorstIsOrderFree | internal/engine/aggregation.go:176-199 | that maximum is the same for every arrival order |
| Aggregation.SeverityWords | internal/engine/aggregation.go:169-190 | which words stand for which severity; anything else is P3 |
| Aggregation.WorstInWords | internal/engine/aggregation.go:192-199 | one P0 makes a group P0, otherwise one critical or P1 makes it P1, otherwise one warning or P2 makes it P2, else P3 |
| Aggregation.AddKeepsBook | internal/engine/aggregation.go:121-157 | adding keeps timers and groups in one-to-one correspondence and every group at its worst severity |
| Aggregation.FireKeepsBook | internal/engine/aggregation.go:144-154 | a timer always finds the group it was armed for, and that group is then gone |
| Aggregation.UnionPut | internal/engine/aggregation.go:76-80 | storing in the key's shard is storing in the single map |
| Aggregation.UnionDrop | internal/engine/aggregation.go:144-150 | deleting from the key's shard is deleting from the single map |
| Aggregation.Aggregator.Add | internal/engine/aggregation.go:121-157 | the sixteen shards behave as one map of groups with one timer each |
| Aggregation.Aggregator.Expire | internal/engine/aggregation.go:144-154 | the timer closure takes away exactly the group pending under its key |
| Engine.Conservation | internal/engine/pipeline.go:87-172 | in every interleaving each alert is in exactly one place: in flight, resolved, duplicate, silenced, one pending, flushing, inhibited or delivered group, and once in it |
| Engine.TimersMatchGroups | internal/engine/aggregation.go:144-156 | pending groups and armed timers correspond one to one in every reachable state |
| Engine.DeliveredSeverity | internal/engine/pipeline.go:154-171 | a delivered group carries the worst severity among exactly the alerts it brings |
| Engine.WhySilenced | internal/engine/pipeline.go:123-145 | a silenced alert was once past the deduplicator at a moment when a silence in force matched it |
| Engine.WhyGrouped | internal/engine/pipeline.go:123-154 | an alert in any group was once past the deduplicator at a moment when no silence in force matched it |
| Engine.WhyDelivered | internal/engine/pipeline.go:154-171 | a delivered group was taken out by its timer and not inhibited at that later moment; it carries its route |
| Engine.WhyInhibited | internal/engine/pipeline.go:154-171 | a held-back group was taken out by its timer and inhibited at that later moment |
| Engine.InhibitedByRun | internal/engine/inhibition.go:96-176 | at any moment of any run, reloads and cleanups included, a group is inhibited if and only if a firing alert that passed the inhibitor suppresses it |
| Engine.AddedAsPlaced | internal/engine/aggregation.go:121-156 | an alert is keyed by the list, and a new group timed by the wait, of the first policy that holds, failing these of the route or the default |
| Engine.FlushedAfterWait | internal/engine/aggregation.go:144-156 | a group goes out no earlier than its first alert opened it plus the wait that the rules gave then |
| Engine.AlertGoesOut | internal/engine/pipeline.go:119-171 | a firing alert that no silence covers goes out as soon as its wait is over, with the route its labels take, unless it is inhibited just then |
| Engine.OneRuleset | internal/engine/pipeline.go:92-93 | an alert is judged by one set of rules from its arrival until it leaves the running calls |
| Engine.SignalHitsGroup | internal/engine/pipeline.go:102-171 | in every interleaving whose reloads keep the rules up to group_by order, and whose keys come from lists stored in order for the labels (as sorted lists are) or from calls that no other interrupts, a resolved alert is reported under the key of every pending, flushing, inhibited or delivered group that holds an alert with its labels |
| Engine.GroupsTellApart | internal/engine/aggregation.go:121-167 | in such runs, with a hash that tells texts apart and values without commas, two grouped alerts with the same group_by list are under the same key if and only if they agree on these labels |
| Engine.SignalsHitExactly | internal/engine/pipeline.go:102-171 | for any rules and a hash that tells texts apart, that holds in every interleaving without reloads if and only if for all labels the list that groups them is stored in order for them |
| Engine.PlainSignalsHitExactly | internal/engine/pipeline.go:102-171 | for rules whose group_by names contain no equals sign, if and only if every list by which alerts are grouped is stored sorted |
| Engine.OneListSignalsHitExactly | internal/engine/pipeline.go:102-171 | for rules that group all alerts by one list, with any names, if and only if that list is stored sorted |
| Engine.UnsortedMisses | internal/engine/aggregation.go:161-164 | for any rules and labels whose list is not in order for them, a run of the engine in which a firing alert is grouped under one key and its resolved twin reported under another |
| Engine.KeysAreHashes | internal/engine/aggregation.go:159-167 | under any reloads, every key on a group or a signal is an output of the hash |
| Engine.KeysNonempty | internal/engine/aggregation.go:165-166 | so no key handed to the incident layer is empty |
| Incidents.AtMostOne | internal/incident/service.go:116-135 | over every interleaving, failing queries included, each non-empty key has at most one active incident, when acknowledgements hit active ones and no incident is created after a failed query while its key has an active one |
| Incidents.AtMostOneExactly | internal/incident/service.go:81-89 | the lock guards a key if and only if the key is not empty |
| Incidents.EmptyKeyRaces | internal/incident/service.go:82-84 | what the defensive branch for the empty key would let happen: two handlers both create |
| Incidents.AckKeepsOneExactly | internal/incident/service.go:1088-1098 | an acknowledgement keeps its key at one active incident if and only if its row is still active or no other is |
| Incidents.StaleAckPending | internal/incident/service.go:1088-1098 | a reachable state in which an acknowledgement read before a recovery is about to be written |
| Incidents.UncheckedAckDoubles | internal/incident/service.go:1088-1098 | writing it gives one key two active incidents |
| Incidents.SignalLeavesNoneActive | internal/incident/service.go:828-851 | after a resolved signal has written and until it releases the lock, its key has no active incident |
| Incidents.FlushLeavesOne | internal/incident/service.go:116-279 | an undisturbed alert-group pass leaves exactly one active incident for its key, stamped with the flush, and touches no other key |
| Incidents.RecoveryLeavesNone | internal/incident/service.go:828-902 | an undisturbed recovery leaves none, and repeating it changes nothing |
| Incidents.GroupAlone | internal/incident/service.go:116-135 | a stretch of a run in which only one alert-group handler acts, from waiting for its lock to done, does exactly one pass and leaves locks and other handlers alone |
| Incidents.GroupRuns | internal/incident/service.go:116-135 | every such pass is a run, from any moment at which the key is free |
| Incidents.SignalAlone | internal/incident/service.go:828-851 | the same for the resolved-signal handler |
| Incidents.SignalRuns | internal/incident/service.go:828-851 | every pass of the resolved-signal handler is a run |
| Incidents.FlushActivatesExactly | internal/incident/service.go:116-279 | under any interference the write of an alert-group handler leaves its row active exactly unless it appends to an incident closed since the lookup, and its key with at most one active incident exactly unless it creates one after a failed query while there is one |
| Incidents.AppendToClosed | internal/incident/service.go:251-270 | a run in which that happens and the key has no active incident |
| Incidents.BlindCreateKeepsOneExactly | internal/incident/service.go:124-134 | from any reachable state in which a handler is about to create an incident after a failed query, the write keeps the key at one active incident if and only if it has none then |
| Incidents.FailedLookupDoubles | internal/incident/service.go:124-134 | a run in which one failed lookup gives a key two active incidents |
| Incidents.LaterFailuresAreHarmless | internal/incident/service.go:124-134 | a handler whose later queries fail after the first found nothing goes on to create, knowing that its key has no active incident |
| Incidents.PassAppends | internal/incident/service.go:251-270 | an alert group whose key has an unfinished incident only stamps the one opened last |
| Incidents.PassReopensExactly | internal/incident/repository.go:65-80 | without one, no row is added if and only if there is a reopen window and a row of the key was resolved within it |
| Incidents.PassEffect | internal/incident/service.go:116-190 | then the row resolved last is open again, its resolution gone and its schedule restarted; otherwise exactly one row is added, open, with the group's severity and key and a finished row of the key for parent if there is any |
| Incidents.RecoveryEffect | internal/incident/service.go:828-880 | a recovery resolves the unfinished incident opened last, marked as automatic, and nothing else; without one it does nothing |
| Incidents.OperatorRuns | internal/incident/service.go:1088-1156 | an operator action that nothing disturbs changes just the status of its row, and the time of resolution when it resolves |
| Incidents.ReaperRuns | internal/incident/service.go:856-880 | the reaper resolves its incident if that is unfinished and otherwise leaves the table alone |
| Incidents.LateWritesGuarded | internal/incident/service.go:878-897 | a finished or missing row is never touched by a recovery or the reaper, however late they write |
| Incidents.QueriesAnswer | internal/incident/repository.go:45-100 | every query has an answer, whatever the table |
| Incidents.PassesExist | internal/incident/service.go:116-135 | an alert-group handler and a resolved-signal handler can always run to their end |
| Incidents.ReopensWhileWindowLasts | internal/incident/repository.go:69-80 | a run in which an incident that recovered is reopened by an alert group any time later if and only if no more than the window has passed |
| EndToEnd.TwinSharesKey | internal/engine/pipeline.go:102-171 | in every run of the engine whose keys come from lists stored in order for the labels or from uninterrupted calls, the signal of a resolved twin carries the key of the delivered group, and that key takes the lock |
| EndToEnd.TwinLeavesNoneActive | internal/incident/service.go:828-851 | in such runs, and under every interleaving in the incident layer, once the twin's signal has been written the row of the flushed group is still there, no longer active, and its key has no active incident |
| EndToEnd.TwinClosesIncident | internal/incident/service.go:828-903 | in such runs, when nothing comes between the two handlers, the flushed incident is resolved at the time of the signal, none is active, and further signals do nothing |
| EndToEnd.EngineKeysGuarded | internal/incident/service.go:81-89 | every key the engine hands over is guarded by the lock |
| Schedule.PositiveExactly | internal/incident/service.go:517-545 | every interval of a parsed schedule is positive if and only if every positive minute count of its head stays positive as an int64 |
| Schedule.HeadAsWritten | internal/incident/service.go:517-523 | after i positive counts comes interval i, in minutes, in the order written; the head is as long as there are positive counts, and a negative index waits like zero |
| Schedule.TailAsWritten | internal/incident/service.go:525-544 | past the head, with counts that fit and a tail within 292 years: the last positive count plus the steps, at most the cap, and when that is nothing the cap or half an hour |
| Schedule.MinutesFit | internal/incident/service.go:633-644 | the largest minute count that survives conversion, and the next one turns negative |
| Schedule.ParsedIsSane | internal/incident/service.go:608-673 | a schedule of such minute counts parses to durations of a minute or more, or zero |
| Schedule.TailPositive | internal/incident/service.go:534-544 | past the head the interval is positive whatever wraps |
| Schedule.TailNondecreasing | internal/incident/service.go:525-544 | past the head intervals do not shrink while the tail fits |
| Schedule.UncappedSlowsDownExactly | internal/incident/service.go:534-544 | without a cap, when the first step past the head fits, they do not shrink up to an index if and only if the tail fits there |
| Schedule.OverflownSlowsDownExactly | internal/incident/service.go:534-544 | without a cap, when the first step overflows already, they do not shrink if and only if no tail lands strictly between zero and half an hour and none beyond it overflows once more |
| Schedule.CappedSlowsDownExactly | internal/incident/service.go:534-544 | with a cap they do not shrink if and only if no overflow lands strictly between zero and the cap, whether the first step fits or not |
| Schedule.CappedInMinutes | internal/incident/service.go:525-544 | in the minute counts the operator writes, each at most 153,722,867 (292 years): with a cap, if and only if no tail of more than 292 years lands, modulo 2^64 nanoseconds, strictly between zero and the cap |
| Schedule.UncappedInMinutes | internal/incident/service.go:525-544 | for such counts without a cap, when the first step stays within 292 years, if and only if the tail does |
| Schedule.OverflownInMinutes | internal/incident/service.go:525-544 | for such counts without a cap, when the first step exceeds 292 years, if and only if no tail lands strictly between zero and half an hour and each that follows one above half an hour stays positive |
| Schedule.TailCapped | internal/incident/service.go:536-537 | past the head a positive cap is never exceeded |
| Schedule.TailReachesCap | internal/incident/service.go:530-537 | from max/step further repeats on, the interval is the cap if and only if the tail fits or its overflow does not land strictly between zero and the cap |
| Schedule.AtLeastAMinute | internal/incident/service.go:517-545 | an interval is shorter than a minute exactly where an overflow lands strictly between zero and a minute |
| Schedule.TierForIsMatch | internal/incident/service.go:549-557 | the first tier with the severity, or none |
| Schedule.NextTierIsUp | internal/incident/service.go:561-569 | on distinct severities the tier right above the one the severity stands on, none from the top |
| Schedule.ParsedLadder | internal/incident/service.go:645-666 | a parsed chain is a ladder if and only if its severities are distinct |
| Schedule.ChainAsWritten | internal/incident/service.go:645-673 | the ladder has the tiers that name a severity, in the order written, trimmed, in upper case, with a dwell only when positive; without any there is no schedule |
| Schedule.TierForParsed | internal/incident/service.go:549-557 | on a parsed ladder an incident stands on the first tier whose severity is its own, trimmed and in upper case |
| Schedule.TrimIsCore | internal/incident/service.go:646-652 | trimming takes off white space at both ends, all of it and nothing else |
| Schedule.UpperIsAscii | internal/incident/service.go:651-651 | upper case moves the small ASCII letters by 32 and leaves the rest |
| Escalation.RungNeverFalls | internal/incident/service.go:362-373 | over every run in which no save carries an older severity, reopenings included, the rung never decreases |
| Escalation.ClimbsBounded | internal/incident/service.go:445-470 | in such a run an incident escalates fewer times than the chain is long, one rung each |
| Escalation.RungNotBefore | internal/incident/service.go:365-371 | in every run, whatever operators save, a rung is reached no earlier than opening time plus the dwells of the rungs passed |
| Escalation.SameReadingClimbsOnce | internal/incident/service.go:450-467 | two passes with the same reading climb only once |
| Escalation.UndisturbedPass | internal/incident/service.go:340-470 | from any reachable moment a pass that nothing disturbs climbs one rung if the dwell of the rung has passed, else repeats if never notified or the interval has passed, else stays silent; with the row, index, stamps and the one notification it leaves |
| Escalation.ReopeningRestarts | internal/incident/service.go:750-762 | reopening restarts both clocks: a pass some time later climbs if and only if the whole dwell has passed since, and the cadence starts from index 0 |
| Escalation.SilentOnceInactive | internal/incident/service.go:340-349 | once an incident is put aside and no pass is under way, nothing is sent until it is reopened or saved |
| Escalation.SaveKeepsRungExactly | internal/incident/service.go:1088-1098 | saving a row read earlier keeps the rung if and only if it had read the current rung |
| Escalation.OldSaveUndoesClimb | internal/incident/service.go:1088-1098 | a run in which an old save takes an escalation back |
| Escalation.OldSaveClimbsAgain | internal/incident/service.go:1088-1098 | for every n a run in which saving one old row again and again makes the incident escalate n times on a chain of two |
| Escalation.RepeatsPaced | internal/incident/service.go:375-433 | with passes serialised and each save, at whatever moment, bearable, the n-th repeat in a row comes no earlier than the sum of the n intervals that fell due |
| Escalation.RepeatsPacedFromStart | internal/incident/service.go:375-433 | when no save touches the cadence columns these are the n intervals from the index its tier starts at: 0 after creation or reopening, 1 after escalation |
| Escalation.RepeatsBounded | internal/incident/service.go:375-433 | so n repeats in a row take at least n minutes, unless an interval that fell due is an overflow that landed strictly between zero and a minute |
| Escalation.SaveKeepsPaceExactly | internal/incident/service.go:1088-1098 | a save made at any moment, between passes or during one, keeps every later repeat on time, however things go on without further saves, if and only if the row it writes is bearable: it makes neither the pass under way, nor the next one, nor the one after this pass has sent, repeat early |
| Escalation.OldSaveRepeatsTwice | internal/incident/service.go:1088-1098 | a run with one pass at a time in which an old save makes two repeats go out at the same instant |
| HubIndex.JoinMembers | internal/realtime/hub.go:86-95 | joining adds the subscriber to exactly the listed topics |
| HubIndex.LeaveMembers | internal/realtime/hub.go:103-113 | leaving removes it from exactly those, and never leaves an empty topic |
| HubIndex.LeaveUndoesJoin | internal/realtime/hub.go:86-113 | leaving undoes joining |
| HubIndex.Hub.Subscribe | internal/realtime/hub.go:78-98 | a fresh open subscriber is listed under exactly its topics |
| HubIndex.Hub.Unsubscribe | internal/realtime/hub.go:103-119 | the subscriber is in no topic when its channel is closed |
| HubIndex.Hub.Broadcast | internal/realtime/hub.go:126-143 | every member of the topic gets the payload unless its queue holds 32; nothing else changes |
| Fanout.HubSafe | internal/realtime/hub.go:78-143 | in every interleaving the index is exact, no topic set is empty, queues hold at most 32 and no send hits a closed channel |
| Fanout.ReceivedInOrder | internal/realtime/hub.go:126-143 | with one broadcaster each subscriber receives an in-order subsequence of the broadcasts on its topics |
| Fanout.BroadcastAlone | internal/realtime/hub.go:126-143 | a broadcast that runs on alone offers its event to every client registered for the topic, drops it where 32 are queued, and leaves everyone else alone |
| Fanout.ClosingAwaitedPanics | internal/realtime/hub.go:100-119 | what the locks keep out: closing the channel of a client that a broadcast still awaits makes the send panic |
| Fanout.ReorderedOnlyIfOverlapping | internal/realtime/hub.go:126-143 | with any broadcasters two messages are swapped only if their broadcasts overlapped, and none comes twice |
| Fanout.OverlappingMayReverse | internal/realtime/hub.go:126-136 | a run of the hub, which the program with its single broadcaster never makes, in which two overlapping broadcasts arrive reversed |
| Fanout.ServedOrDropped | internal/realtime/hub.go:133-142 | a finished broadcast reached or was dropped for every subscriber present when it began, never both |
| Fanout.DroppedOnlyWhenFull | internal/realtime/hub.go:134-141 | a drop happens only on a channel holding 32 |
| Migrate.CleanNeverRuns | internal/store/migrate.go:84-94 | whenever a migration's SQL runs, it is not clean and exactly the lower versions are |
| Migrate.ReleaseConsistentExactly | internal/store/migrate.go:84-94 | a release that adds migrations keeps the database consistent if and only if each lies above all versions begun so far |
| Migrate.LaterReleaseConsistent | internal/store/migrate.go:84-94 | appending higher versions in a later release keeps everything consistent |
| Migrate.MarkDirtyOk | internal/store/migrate.go:185-192 | marking the next version dirty keeps the clean prefix |
| Migrate.ExecuteOk | internal/store/migrate.go:199-201 | executing it then is in turn |
| Migrate.MarkCleanOk | internal/store/migrate.go:203-210 | marking it clean extends the prefix by one |
| Migrate.Database.RunMigration | internal/store/migrate.go:184-217 | whichever statement fails, before or after taking effect, the database is consistent; it succeeds exactly when all three do |
| Migrate.Database.Backfill | internal/store/migrate.go:164-177 | only empty names change |
| Migrate.Database.Migrate | internal/store/migrate.go:51-106 | from any consistent database, whatever fails: consistent again, clean versions stay clean and are not run, and exactly when nothing needed fails every version ends clean |
| Migrate.Database.constructor | internal/store/migrate.go:57-65 | an empty table is consistent with any list of migrations |
| Migrate.Database.StartRepeatedly | internal/store/migrate.go:51-106 | any number of starts that may break off anywhere: consistent throughout, nothing clean is lost or run again, and an undisturbed last start ends with every version clean |
| Utf8.MaskTest | internal/incident/service.go:1082-1082 | the mask test of the loop recognises exactly continuation bytes |
| Utf8.DecodeInverts | internal/incident/service.go:1077-1086 | the encoding of RFC 3629 section 3 is inverted by an independent strict decoder |
| Utf8.EncodeInverts | internal/incident/service.go:1077-1086 | every string the decoder accepts is the encoding of what it returns |
| Utf8.FittingIsMost | internal/incident/service.go:1081-1084 | the number of characters kept is the most that fit in the limit |
| Utf8.CutKeepsWholeCharacters | internal/incident/service.go:1081-1085 | on valid strings the back-off stops at the largest character boundary not above the limit, within three bytes |
| Utf8.BackOff | internal/incident/service.go:1081-1084 | on any string the loop stops at the nearest byte at or below the limit that is no continuation byte, or at the start |
| Utf8.TruncateReport | internal/incident/service.go:1077-1086 | a report that fits is kept; a longer valid one becomes its longest fitting prefix of characters plus the notice |
| Utf8.TrimSpaceDecodes | internal/notification/sms.go:109-109 | on valid strings trimming bytes is trimming Unicode white space characters |
| Utf8.WhiteSpaceListed | internal/notification/sms.go:109-109 | the twenty-five white space characters of Unicode |
| Utf8.NoticeReads | internal/incident/service.go:1085-1085 | the notice and the ellipsis as they are read |
| Utf8.SmsTrim | internal/notification/sms.go:107-118 | surrounding white space goes, then the same with 280 bytes and an ellipsis |
| Paths.StripQuery | internal/ingestion/kafka_filter.go:962-967 | the longest prefix without a question mark |
| Paths.JoinUndoesSplit | internal/ingestion/kafka_filter.go:997-1014 | joining undoes splitting |
| Paths.SplitUndoesJoin | internal/ingestion/kafka_filter.go:997-1014 | splitting undoes joining for segments without slashes |
| Paths.ThreePatternsDecide | internal/ingestion/kafka_filter.go:975-983 | a segment is an id if and only if one of three of the seven patterns matches |
| Paths.IdsInWords | internal/ingestion/kafka_filter.go:975-983 | an identifier is a nonempty run of digits, twenty or more letters, digits, underscores and dashes, or 0x and sixteen or more hexadecimal digits |
| Paths.OtherPatternsInWords | internal/ingestion/kafka_filter.go:979-980 | the bare hexadecimal and the base 58 pattern in words |
| Paths.ReplacementIsNoId | internal/ingestion/kafka_filter.go:1005-1005 | `{id}` and the empty segment match no pattern |
| Paths.NormalizePath | internal/ingestion/kafka_filter.go:993-1015 | the in-place loop with its two shortcuts computes the normal form |
| Paths.OnlyIdsChange | internal/ingestion/kafka_filter.go:993-1015 | the segment count is kept and only segments that match change |
| Paths.Idempotent | internal/ingestion/kafka_filter.go:993-1015 | normalising twice is normalising once |
| Paths.SameNormalFormExactly | internal/ingestion/kafka_filter.go:985-1015 | two paths share a normal form if and only if they differ only in ids |
| Epoch.ValueOfDecimal | internal/ingestion/kafka_filter.go:865-874 | the number that a decimal spelling denotes is the number spelled |
| Epoch.LengthOfDecimal | internal/ingestion/kafka_filter.go:846-846 | a spelling has at most k digits if and only if the number is below ten to the k |
| Epoch.WrapStep | internal/ingestion/kafka_filter.go:871-871 | wrapping after each operation of the digit loop is wrapping once |
| Epoch.ParseInt | internal/ingestion/kafka_filter.go:865-874 | refuses anything but digits, else the number spelled, wrapped to int64 |
| Epoch.ParseNumeric | internal/ingestion/kafka_filter.go:846-861 | ten to nineteen digits are taken for the instant their size suggests |
| Epoch.NumbersRead | internal/ingestion/kafka_filter.go:848-858 | which numbers are taken for which unit, in figures |
| Epoch.RefusedExactly | internal/ingestion/kafka_filter.go:846-874 | a string is refused if and only if it is shorter than ten or longer than nineteen, holds another character than a digit, or spells at most 10^9 |
| Epoch.TooSmallMisread | internal/ingestion/kafka_filter.go:849-858 | a number too small for its unit is never taken for the right instant, not even by wrapping around |
| Epoch.SpellingReadBackExactly | internal/ingestion/kafka_filter.go:846-874 | spelling an instant in a unit and reading it back gives it up to the unit if and only if the number exceeds the unit's threshold |
| Epoch.SpellingsAgree | internal/ingestion/kafka_filter.go:846-874 | from the second after 10^9 seconds to 2^63-1 nanoseconds all four spellings give the instant, each within its unit |
| Epoch.BillionthSecondRefused | internal/ingestion/kafka_filter.go:856-857 | 10^9 itself, ten digits, is refused |
| Buckets.GroupByChannelTarget | internal/notification/contact.go:257-284 | one bucket per composite key in first-seen order, holding everyone under it in order, with mirrored contact ids and the first one's configuration |
| Buckets.BucketsArePartition | internal/notification/contact.go:267-282 | the flattened buckets are a permutation of the recipients |
| Buckets.BucketsInFirstSeenOrder | internal/notification/contact.go:254-256 | buckets appear in the order of their first recipients |
| Buckets.CollisionExactly | internal/notification/contact.go:268-268 | two pairs share a composite key if and only if they are equal or one channel continues the other past a separator |
| Buckets.OneBucketPerTarget | internal/notification/contact.go:267-281 | when no channel contains the separator, there is exactly one bucket per channel and target |
| Buckets.BucketsPureExactly | internal/notification/contact.go:267-281 | every bucket holds one target if and only if no two different targets of the input share a composite key |

## Left out

- Worker.SafeFromLowestFirstAck: has the first-ack condition as a hypothesis, because the code does not enforce it; Worker.EmittedIsDone gives the equivalence without it.
- Incidents.AtMostOne: takes each acknowledgement to hit an active incident and each creation after a failed query to find none; Incidents.AckKeepsOneExactly and Incidents.BlindCreateKeepsOneExactly say that just these writes keep the property.
- Incidents.FlushLeavesOne: about a pass that nothing disturbs; Incidents.FlushActivatesExactly is the statement under interference.
- Routing.KeySeparates: about values without commas; Routing.PairCollisionExactly is the exact condition for two names and any values.
- Schedule.TailAsWritten: about tails within 292 years; the lemmas on minutes say what longer ones do.
- Routing.TwinsShareKey: about the function that an undisturbed call computes; Engine.SignalHitsGroup is the statement about runs, where keys come from concurrent in-place sorts.
- Engine.SignalHitsGroup: needs lists stored in order for the labels or calls that no other interrupts; Engine.SignalsHitExactly is the equivalence. A key is any that some interleaving of calls on the stored list returns, so the keys of one run need not come from the same interleaving, and a call that disturbs another need not be a step of the run.
- Escalation.RungNeverFalls: about runs in which an operator's save does not carry an older severity; Escalation.SaveKeepsRungExactly is the equivalence.
- Escalation.ClimbsBounded: about the same runs; Escalation.OldSaveClimbsAgain shows that there is no bound without.
- Schedule.CappedInMinutes: like Schedule.UncappedInMinutes and Schedule.OverflownInMinutes about minute counts that each fit in int64 nanoseconds; Schedule.MinutesFit says where that ends.
- Escalation.RepeatsPaced: about runs in which passes are serialised by the key's lock and each save is bearable; Escalation.SaveKeepsPaceExactly says that just these saves keep later repeats on time.
- Escalation.RepeatsPacedFromStart: about runs in which no save touches the cadence columns; Escalation.RepeatsPaced covers the rest.
- Fanout.ReceivedInOrder: needs broadcasts that do not overlap, as made by the single listener; Fanout.ReorderedOnlyIfOverlapping covers the rest.
- Dedup.WinnersApart: about a slot from which nothing is deleted in between; Dedup.DeleteKeepsCapturesExactly is the equivalence for a delete.
- Dedup.WinsApartInRealTime: needs that the earlier winner's entry was not deleted alive; Dedup.DeleteSafeExactly is the equivalence.
- Schedule.TailNondecreasing: about tails that do not overflow; Schedule.UncappedSlowsDownExactly, Schedule.OverflownSlowsDownExactly and Schedule.CappedSlowsDownExactly say what overflow does.
- PostgreSQL, gorm, LISTEN/NOTIFY and the Kafka broker: a table is a map, a query an atomic read, a commit what the tracker emits, and the reader a stream of consecutive offsets per partition. Commit calls may reach the broker in another order than emitted.
- Partition rebalancing, and the int64 range of offsets in the tracker.
- SHA-256, FNV and regular expressions of rules: functions given as parameters. JSON decoding, expr-lang and gjson.
- Clocks: a time that only grows, or a parameter. Timers fire at any step after they are due; the debounce timer at any step.
- The retry loop of `IsDuplicate` is in the interleaved model only; the sequential class cannot meet a failed swap.
- The engine takes any answer from the deduplicator, so its conservation theorem does not depend on it.
- Lists of more than twelve group_by labels, which the library sorts by another method, and torn reads of a string being swapped.
- Matcher slices shared between the caller and the router: the model stores new ones.
- Failing writes of the incident layer.
- Severity words outside ASCII, and white space beyond blank, tab and line ends, in upper-casing and trimming.
- Soft deletion, titles, timeline rows, metrics, alert rows, notification bodies and the choice of the parent incident among finished ones; severity and repeat columns are in `Escalation`, not in `Incidents`.
- The staleness scan's selection, order and limit of 200: the reaper is modelled from the moment it has chosen an incident, and may choose any.
- The incident service is a transition system over table rows rather than a class; updates of the in-memory copy of a row after a write are not modelled.
- Dwell durations are given already parsed; time formats other than digit strings are not modelled.
- Cancelling a worker with its five-second limit: stopping a group is one step. What a group's spawn can fail on is an input.
- Migrations: reading files, parsing versions and sorting them; versions are taken distinct and ascending. Two runners at once.
- The loop that sends one SMS per number.
- Counting a topic's subscribers, and connections, pings and write errors of the hub: a receiver may stop receiving at any time.
- More than one replica: the per-key lock is per process.
- HTTP routers, the Kubernetes proxy, LLM agents, chat, e-mail and voice senders, authentication, AI task claiming: not part of this model.

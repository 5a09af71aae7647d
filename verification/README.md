# SentinelMesh, verified

SentinelMesh collects kernel events (process exec, file open, TCP connect) from
agents, stores them, raises alerts and serves a view over several regions. This
project models the parts of the collector and the agent in which a fast,
concurrent or bounded structure has to agree with a simple description, and
proves that agreement for every input, every run and every interleaving.

| file | component | what it is held against |
|---|---|---|
| `RateLimiter.dfy` | per-stream token bucket | the budget of every window of the run |
| `TimeKeys.dfy` | storage keys | real time, through the calendar |
| `StoreScan.dfy` | iterator listings, reverse and forward | the sorted, filtered and cut list of records |
| `StoreProtocol.dfy` | writes that race a deadline, counters, acknowledgements | the committed records |
| `StoreTally.dfy`, `StoreInvariants.dfy`, `StoreRuns.dfy` | what its steps and runs keep and what follows for whole runs | counters, prefixes and keys |
| `StoreGuarantees.dfy` | the acknowledgements of that protocol | what was committed, refused or given up on |
| `AnomalyDetector.dfy` | pruned sliding windows | the full event history |
| `Dispatcher.dfy` | concurrent alert dispatch | cooldown per rule and node, slot accounting |
| `HeartbeatRegistry.dfy` | registry and heartbeat checker | the contacts and sweeps of the run |
| `AgentTokens.dfy` | per-agent tokens | the latest issue and the revocations |
| `StreamIngest.dfy` | the event stream loop | one exact acknowledgement per event |
| `StreamDurability.dfy` | a stream over a run of the store | a true acknowledgement means committed |
| `KernelRecords.dfy` | ring-buffer records | what the probes stored |
| `AgentDelivery.dfy` | queue, bridge and reconnects | the source's own order |
| `ReconnectBackoff.dfy` | reconnect delays | a closed form |
| `RegionAggregator.dfy` | cross-region polling | any order of the polls |
| `Bytes.dfy`, `Options.dfy`, `Sums.dfy` | byte strings and their order, options, finite sums | |

Objects whose methods update fields are classes; protocols whose steps
interleave are state machines over single atomic steps, in which a step that is
not enabled changes nothing, so that every sequence of steps is a run. Clock
readings, store outcomes, scheduling, random tokens and the network are
parameters or steps. Byte strings are sequences of 0..255, durations and times
are integers (nanoseconds), and bucket tokens and jitter are exact reals.

Places where the code differs from what its comments or callers may expect:

- Listings are described as newest first (go-collector/internal/store/badger.go:185).
  Within one second they are not: trailing zeros of the fraction are trimmed, and
  `KeyOrder` gives the exact condition. Two listed events are out of order only
  when the earlier one's printed fraction is a proper prefix of the later one's.
- A node that `SetInactive` takes out of the active state never gets an inactive
  mark and is not evicted until it is heard from again. `SilentNodeLeavesIff` is
  exact: a silent node is evicted in time if and only if that did not happen; a
  `SetInactive` on a node a sweep has already marked changes nothing.
- The bucket's windows include the one that opens at the call itself, which
  matters only for a burst below one token.
- `PollOnce` is independent of scheduling exactly when the configured regions are
  distinct (`ConfluentIffDistinct`); nothing in the code checks that they are.
- The jitter factor never reaches 1.25 (rust-agent/agent/src/grpc.rs:102 suggests
  that it can).

## Model

| member | source | states |
|---|---|---|
| `RateLimiter.LevelIsTightestWindow` | go-collector/internal/receiver/grpc.go:77-89 | The constant-time token level is the minimum, over all windows that end now, of burst plus what the window earned minus what it granted |
| `RateLimiter.LevelRefinesWindows` | go-collector/internal/receiver/grpc.go:77-89 | A sequence of answers follows the level rule if and only if every call is granted exactly when all windows ending at it have room |
| `RateLimiter.AnswersByWindows` | go-collector/internal/receiver/grpc.go:73-89 | For every call sequence, the bucket's answers satisfy the window specification |
| `RateLimiter.WindowsDetermineAnswers` | go-collector/internal/receiver/grpc.go:73-89 | The window specification has exactly one solution, the bucket's answers |
| `RateLimiter.WindowBound` | go-collector/internal/receiver/grpc.go:73-89 | Any stretch of calls within a time interval is granted at most burst + rate * length tokens |
| `RateLimiter.NoPolicyGrantsMore` | go-collector/internal/receiver/grpc.go:73-89 | No other choice of grants that keeps every window within budget has granted more calls at any point of the run |
| `RateLimiter.TokenBucket.Allow` | go-collector/internal/receiver/grpc.go:77-89 | One call appends its instant to the run and returns the run's next answer; the fields stay those of the run |
| `TimeKeys.StampOrder` | go-collector/internal/store/badger.go:170 | Comparing calendar fields from year to second is comparing positions on the time line |
| `TimeKeys.KeyOrder` | go-collector/internal/store/badger.go:170-171 | For receive times s before t, the key of s sorts below that of t if and only if the seconds differ or the trimmed fraction of s is not a proper prefix of that of t; the ids never matter |
| `TimeKeys.KeyOrderFails` | go-collector/internal/store/badger.go:170-171 | A whole second and the half second after it are always listed the wrong way round |
| `TimeKeys.KeyInjective` | go-collector/internal/store/badger.go:171 | A key determines its receive time and its id, whatever bytes (colons included) the id holds |
| `TimeKeys.TextReads` | go-collector/internal/store/badger.go:170-171 | The text of an instant reads back to it: the decimal fields of the date and time at their places, a point and the nanoseconds without trailing zeros when there are any, and a closing Z |
| `StoreScan.RangesDisjoint` | go-collector/internal/store/agenttoken.go:33-35 | No key lies under two of the event, alert and agent-token prefixes |
| `StoreScan.ScanStartsAbove` | go-collector/internal/store/badger.go:200-203 | In any store the collector wrote, everything under a listed prefix is a record of that kind and lies below the position the reverse scan starts from |
| `StoreScan.DescendingUnique` | go-collector/internal/store/badger.go:196-203 | There is exactly one descending list of a set of keys, the one listings are stated with |
| `StoreScan.SeekFindsFirst` | go-collector/internal/store/badger.go:200-203 | The reverse seek lands on the largest key under the prefix, or leaves the prefix only when it holds no key |
| `StoreScan.NextFindsNext` | go-collector/internal/store/badger.go:203-222 | A reverse step lands on the next key under the prefix, or leaves the prefix only when none remains |
| `StoreScan.ListNewest` | go-collector/internal/store/badger.go:189-226 | The iterator loop computes the listing: the first `limit` matches, in descending key order, of all records under the prefix, or of the top `cap` of them when a node filter is set, up to the first record that does not decode |
| `StoreScan.ListingMeans` | go-collector/internal/store/badger.go:200-222 | Position by position: each item is the record at its position and, under a filter, of that node; no such record before it is left out, later ones only beyond the limit; it fails exactly when a record in its scope does not decode before the limit is reached |
| `StoreScan.MatchingCounts` | go-collector/internal/store/badger.go:217-219 | Every record of the node is kept as often as it is stored, and no record of another node is |
| `StoreScan.ListingOrder` | go-collector/internal/store/badger.go:185-226 | In any listing the seconds never increase, and an older record precedes a newer one only within a second and only through a trimmed fraction |
| `StoreScan.AscendingUnique` | go-collector/internal/store/agenttoken.go:98-121 | There is exactly one ascending list of a set of keys, the one the forward scan is stated with |
| `StoreScan.ListForward` | go-collector/internal/store/agenttoken.go:104-116 | The forward prefix scan returns the records under the prefix in ascending key order, up to the first one that does not decode, and fails exactly when there is such a one |
| `StoreProtocol.LoadCounters` | go-collector/internal/store/badger.go:117-135 | The startup scan of the event prefix yields, for every type, the number of records of that type under the prefix |
| `StoreProtocol.RangeHoldsTheEvents` | go-collector/internal/store/badger.go:124 | When kinds and prefixes coincide, as they do in every run, counting under the event prefix counts every stored event and nothing else |
| `StoreInvariants.RunsKeepInv` | go-collector/internal/store/badger.go:148-183 | In every run: startup scan + commits since startup == counter + commits still to be counted + abandoned commits == stored + replaced + expired records, for every event type; a nil result means committed; events, alerts and tokens each lie under their own prefix |
| `StoreRuns.CountersAgree` | go-collector/internal/store/badger.go:159-183 | With distinct (time, id) pairs nothing is ever replaced, and stored plus expired events == counter + uncounted + abandoned commits |
| `StoreRuns.FreshRunsStayApart` | go-collector/internal/store/badger.go:159-183 | With distinct (time, id) pairs no two writes ever share a key and no running write's key is already stored |
| `StoreRuns.RestartIsExact` | go-collector/internal/store/badger.go:117-135 | After a restart at any point of any run, each counter, which comes from a scan of the event prefix alone, equals the number of stored events of its type |
| `StoreRuns.RunsAreListable` | go-collector/internal/store/badger.go:200-203 | In every run everything stored under the event or alert prefix lies below the position the reverse scan starts from, so a listing misses nothing |
| `StoreRuns.TrueAckIsDurable` | go-collector/internal/receiver/grpc.go:352-426 | In every run, a true acknowledgement means that the event and each of its alerts have been committed, and are stored unless replaced or expired |
| `StoreGuarantees.StoredUntilExpired` | go-collector/internal/store/badger.go:159-183 | With distinct (time, id) pairs, every record of a turn acknowledged true is stored, or an expiry of that very record happened in the run |
| `StoreGuarantees.TurnsAreAnsweredOnce` | go-collector/internal/receiver/grpc.go:352-426 | In every run no turn is acknowledged twice, and an acknowledged turn is over |
| `StoreGuarantees.FatesHaveCauses` | go-collector/internal/store/badger.go:148-157 | In every run a caller gives up only because it timed out, and gets the store's error only because the update failed |
| `StoreGuarantees.TimelyTurnsAreAcknowledged` | go-collector/internal/receiver/grpc.go:352-426 | In every run, a turn none of whose writes failed or timed out is acknowledged true |
| `StoreGuarantees.TurnsCanGoWell` | go-collector/internal/store/badger.go:159-183 | Every run can go on with an event and any list of alerts so that the turn is acknowledged true and its event counted exactly once |
| `StoreGuarantees.OnlyGivingUpLeavesOpen` | go-collector/internal/store/badger.go:148-157 | For every acknowledgement of every run with distinct (time, id) pairs, at any later point: unless its caller gave up, a record is committed if and only if its write returned nil; one that returned the store's error never is |
| `StoreGuarantees.FalseAckIsOpen` | go-collector/internal/store/badger.go:148-157 | Giving up does leave it open: every run can go on to a false acknowledgement of a fresh event that is absent, and from there it may be committed or may never be |
| `AnomalyDetector.PruningIsInvisible` | go-collector/internal/anomaly/detector.go:126-150 | Dropping times before the longest window's cutoff changes no window's count, now or later |
| `AnomalyDetector.InWindowCounts` | go-collector/internal/anomaly/detector.go:141-150 | A window's count is the number of events not before its cutoff, each counted once |
| `AnomalyDetector.ReportsMeans` | go-collector/internal/anomaly/detector.go:73-92 | There is an alert if and only if some window of the full history holds more events than its threshold; it is one alert, for this event, about the first such window, with the number of events in it |
| `AnomalyDetector.Detector.Record` | go-collector/internal/anomaly/detector.go:63-93 | An alert is returned if and only if some window's count over the full, never-pruned history exceeds its threshold, and it reports the first such window and that count |
| `AnomalyDetector.Detector.Prune` | go-collector/internal/anomaly/detector.go:126-138 | What is dropped is a prefix whose times are all before the longest window; other streams are untouched |
| `AnomalyDetector.Detector.WindowStats` | go-collector/internal/anomaly/detector.go:98-122 | For every event type and label, the count served equals the total over all nodes' full histories |
| `AnomalyDetector.ShareSums` | go-collector/internal/anomaly/detector.go:108-119 | What one stream adds under a label is the sum of the event counts of exactly the windows with that label |
| `AnomalyDetector.LabelMeans` | go-collector/internal/anomaly/detector.go:195-204 | A label is the duration in whole seconds, minutes or hours, cut toward zero, in the largest of these units that fits |
| `AnomalyDetector.Detector.Gc` | go-collector/internal/anomaly/detector.go:173-183 | A stream is kept exactly when its full history has a time inside the longest window, and the history the answers depend on is unchanged |
| `AnomalyDetector.Detector.MaxDuration` | go-collector/internal/anomaly/detector.go:185-193 | The longest configured window: no window exceeds it, and it is zero or one of them |
| `AnomalyDetector.TotalsAgree` | go-collector/internal/anomaly/detector.go:98-122 | Totals over the pruned table equal totals over the full history, also for streams the collector has forgotten |
| `Dispatcher.DispatchAccounted` | go-collector/internal/notify/notify.go:138-177 | In every interleaving at most 32 dispatches hold a slot, slots == started - finished, every call is started or dropped and never both, the drop counter is exact, and only started calls ever reach the cooldown record |
| `Dispatcher.RunsCool` | go-collector/internal/notify/notify.go:114-131 | In every interleaving the recorded time of a key is its latest send in lock order and its sends are a cooldown apart, with clock readings reaching the lock in any order |
| `Dispatcher.CooldownHolds` | go-collector/internal/notify/notify.go:114-131 | For every run, rule and node, send j and send i have recorded times at least (j - i) cooldowns apart |
| `Dispatcher.SuppressionExplained` | go-collector/internal/notify/notify.go:126-128 | Whatever the lock suppresses has an earlier recorded send of the same rule and node less than one cooldown before its own reading |
| `Dispatcher.FloorHolds` | go-collector/internal/notify/notify.go:114-131 | In every run what is sent is at or above the severity floor; what is suppressed at or above it has a recorded send of its key less than one cooldown before its reading; without a cooldown nothing at or above the floor is suppressed |
| `Dispatcher.ReadingsComeFromTheClock` | go-collector/internal/notify/notify.go:122-126 | Every decision under the lock is about a time that its own dispatch read from the clock earlier in the run |
| `Dispatcher.DispatchesCanFinish` | go-collector/internal/notify/notify.go:142-177 | From every point of every run a started dispatch can go on to its end, where it has released its slot |
| `Dispatcher.CooldownKeyInjective` | go-collector/internal/notify/notify.go:121 | With NUL-free node ids the cooldown key determines rule and node, for arbitrary rule ids |
| `Dispatcher.NodesMergeIff` | go-collector/internal/notify/notify.go:121 | Two different node ids can share a cooldown key for some rules if and only if one ends in a NUL followed by the other |
| `HeartbeatRegistry.Registry.Register` | go-collector/internal/registry/registry.go:50-76 | Refuses an empty id; otherwise adds the node or refreshes it and clears its inactive mark |
| `HeartbeatRegistry.Registry.MarkStaleInactive` | go-collector/internal/registry/registry.go:183-197 | The in-place sweep with deletions equals marking every node and then keeping those not due for eviction |
| `HeartbeatRegistry.EveryNodeHasAnOrigin` | go-collector/internal/registry/registry.go:50-94 | In every run each node's last-seen time is that of its latest contact, an inactive mark was set by a later sweep more than the timeout after that contact, and the node is inactive only through such a mark or a SetInactive since that contact |
| `HeartbeatRegistry.NodesAreAsRegistered` | go-collector/internal/registry/registry.go:50-76 | In every run a node's host data and registration time are those of the registration that brought it in, and its region is that of its latest registration, "default" when that was empty |
| `HeartbeatRegistry.OthersUntouched` | go-collector/internal/registry/registry.go:50-94 | A registration, heartbeat or SetInactive of one node changes no other |
| `HeartbeatRegistry.EvictionIsSafe` | go-collector/internal/registry/registry.go:183-197 | In every run an evicted node was last heard from more than timeout + evictAfter before the sweep, has been silent since before it was marked, and (evictAfter >= 0) was marked by an earlier sweep |
| `HeartbeatRegistry.SetInactiveNeverEvicts` | go-collector/internal/registry/registry.go:88-94 | A node taken from active by SetInactive stays, unchanged, through any operations until it is heard from |
| `HeartbeatRegistry.SilentNodeLeavesIff` | go-collector/internal/registry/registry.go:162-197 | With sweeps at most `interval` apart, a silent node is inactive by timeout + interval, and gone by timeout + evictAfter + 2 * interval if and only if no SetInactive took it out of the active state |
| `AgentTokens.TokenStore.IssueToken` | go-collector/internal/store/agenttoken.go:58-80 | Refused while the node has an active token; otherwise the node's record is replaced by an active one |
| `AgentTokens.TokenStore.RevokeToken` | go-collector/internal/store/agenttoken.go:85-96 | Marks an active record revoked, changes nothing else, and succeeds when there is nothing to revoke |
| `AgentTokens.TokenStore.ListTokens` | go-collector/internal/store/agenttoken.go:100-121 | Every token record, once, in ascending order of node id |
| `AgentTokens.TokenStore.LookupNodeID` | go-collector/internal/store/agenttoken.go:134-151 | Finds the node of some active record with the token's hash, or there is none |
| `AgentTokens.RecordOrigin` | go-collector/internal/store/agenttoken.go:58-96 | After any commands a record holds the latest successful issue for its node with its time, and is revoked exactly when a revocation followed, at the time of the first one |
| `AgentTokens.LookupIsExact` | go-collector/internal/store/agenttoken.go:58-151 | With fresh tokens and a collision-free hash, lookup resolves a token to n if and only if it came from the latest successful issue for n and n has not been revoked since |
| `AgentTokens.CheckAuth` | go-collector/internal/receiver/grpc.go:587-611 | Auth is skipped exactly when disabled; the lookup fails exactly when a bearer token is given and the records cannot be read; an identity needs a bearer token that resolves to it; a refusal needs a missing or malformed header or a token that resolves to none |
| `StreamIngest.ValidFieldsAll` | go-collector/internal/receiver/grpc.go:130-140 | The field scan passes exactly when every field is short enough and printable |
| `StreamIngest.ValidIffProper` | go-collector/internal/receiver/grpc.go:144-215 | An event is valid if and only if its ids and each free-form field of the payload of its kind are at most 256 bytes within 0x20..0x7e and, for tcp, each address is empty, or at most 256 bytes and parses |
| `StreamIngest.ValidIdsAreNulFree` | go-collector/internal/receiver/grpc.go:178-215 | A validated event's node id and event id hold no NUL |
| `StreamIngest.AdmitsByWindows` | go-collector/internal/receiver/grpc.go:294-314 | The limiter's answers on a stream satisfy the window specification over all received events, so rejected events spend like accepted ones |
| `StreamIngest.StreamEvents` | go-collector/internal/receiver/grpc.go:261-430 | On every stream run the k-th acknowledgement answers the k-th event and is true if and only if the event was admitted, valid, of the right identity, saved, and all of its alerts saved; the saved events and dispatched alerts are exactly those of the accepted events, in order; only a failed send leaves an event unanswered |
| `StreamIngest.SavesMean` | go-collector/internal/receiver/grpc.go:302-352 | The saved events are, in order of arrival, exactly the received ones that were admitted, have proper fields and are of the right identity |
| `StreamIngest.NoticesMean` | go-collector/internal/receiver/grpc.go:388-420 | The dispatched alerts are exactly the alerts raised for those events, each once, in order, with their rule and the event's node |
| `StreamIngest.AcksMean` | go-collector/internal/receiver/grpc.go:302-426 | Acknowledgement k is true if and only if event k was admitted, proper and of the right identity, and it and every alert it raised were saved |
| `StreamIngest.Handle` | go-collector/internal/receiver/grpc.go:315-421 | One event: saved exactly when admitted, valid and of the right identity; one notice per alert, whether or not the alert was saved |
| `StreamIngest.SavesAreAuthentic` | go-collector/internal/receiver/grpc.go:333-340 | Under a non-empty identity every saved event carries that identity |
| `StreamIngest.StreamsNeverShareCooldowns` | go-collector/internal/receiver/grpc.go:320-326 | Alerts dispatched by any two streams share a cooldown key if and only if they have the same rule and node |
| `StreamIngest.ServeStream` | go-collector/internal/receiver/grpc.go:634-646 | After any token commands with non-empty node ids, every event saved on an authenticated stream carries the node id its token was last issued for, not revoked since; a refused stream saves nothing |
| `StreamIngest.BindsIffNonEmpty` | go-collector/internal/receiver/grpc.go:333-340 | Whatever is received, a stream saves only events of its identity if and only if that identity is not empty, which is why the token command must refuse an empty node id |
| `StreamDurability.AckTrueMeansCommitted` | go-collector/internal/receiver/grpc.go:352-426 | For every stream over every run of the store: a true acknowledgement means the event and every alert it raised are committed, and an accepted event is answered false only when a write of its turn did not return nil |
| `KernelRecords.FieldSurvives` | rust-agent/agent-ebpf/src/main.rs:68-78 | A field store that no later store overlaps is read back unchanged |
| `KernelRecords.PaddingIsZero` | rust-agent/agent-ebpf/src/main.rs:112-115 | Every byte no store touches is zero when the record is submitted |
| `KernelRecords.RingEntry.TryExec` | rust-agent/agent-ebpf/src/main.rs:60-81 | Whatever the reserved bytes held, the submitted record decodes to the upper half of one helper's result, the lower half of the other's and the trimmed name, and is filed as "exec" |
| `KernelRecords.RingEntry.TryOpenat` | rust-agent/agent-ebpf/src/main.rs:94-128 | Likewise for the file record, with a path of any length read, filed as "file" although kernel and protobuf number the kinds differently |
| `KernelRecords.RingEntry.TryTcpConnect` | rust-agent/agent-ebpf/src/main.rs:141-187 | Likewise for the connect record: it decodes to the socket's addresses in memory order and both ports in host order, filed as "tcp" |
| `KernelRecords.ExecRoundTrip` | rust-agent/agent/src/events.rs:238-256 | For all field values the 28-byte exec record decodes to its own fields |
| `KernelRecords.FileRoundTrip` | rust-agent/agent/src/events.rs:257-274 | For all field values the 288-byte file record decodes to its own fields, the user id lies at its place although userspace skips it, and the unread rest of the path is trimmed |
| `KernelRecords.TcpRoundTrip` | rust-agent/agent/src/events.rs:275-294 | For every socket the 36-byte record decodes to both addresses in memory order, the remote port from network order and the local port in host order |
| `KernelRecords.NamesSurvive` | rust-agent/agent/src/events.rs:316-320 | A NUL-free name up to the field's length survives padding and trimming |
| `KernelRecords.TrimNulMeans` | rust-agent/agent/src/events.rs:316-320 | A name ends where only NULs follow |
| `AgentDelivery.RunsKeepLedger` | rust-agent/agent/src/grpc.rs:160-209 | Over any number of reconnects, what the attempts took in, then the pending event, then the queue, is exactly the stamped sequence of events that entered the queue; all capacities hold |
| `AgentDelivery.DeliveryIsInOrder` | rust-agent/agent/src/grpc.rs:160-209 | The events handed to successive outbound streams have the bodies of source events in source order, each source position at most once, and each carries the node id |
| `AgentDelivery.NextEventIsHanded` | rust-agent/agent/src/grpc.rs:186-193 | On an idle connection the next queued event is handed to the stream, stamped, and leaves the queue |
| `AgentDelivery.DropsFindTheQueueFull` | rust-agent/agent/src/events.rs:297-309 | In every run an event that never entered the queue was produced when the queue held 256 events |
| `AgentDelivery.SourceIsProduced` | rust-agent/agent/src/events.rs:226-310 | The source is what was produced before it closed |
| `AgentDelivery.LossIsBounded` | rust-agent/agent/src/events.rs:297-309 | Source events == dropped + handed + bridged + pending + queued + lost, and the lost ones are at most 257 per ended attempt |
| `ReconnectBackoff.BaseSteps` | rust-agent/agent/src/grpc.rs:87 | Doubling and capping moves from min(100 * 2^n, 30000) to the next, and never down |
| `ReconnectBackoff.TotalClosedForm` | rust-agent/agent/src/grpc.rs:12-13 | The total base delay of n failures: 100 * (2^n - 1) up to nine, then 51100 + 30000 * (n - 9) |
| `ReconnectBackoff.JitterRange` | rust-agent/agent/src/grpc.rs:96-104 | A wait lies in [0.75, 1.25) of its base |
| `ReconnectBackoff.JitterSpreads` | rust-agent/agent/src/grpc.rs:96-104 | The wait grows with the clock reading from 0.75 of the base in steps of 0.0005 of it |
| `ReconnectBackoff.Reconnect` | rust-agent/agent/src/grpc.rs:66-91 | After n failures the base is min(100 * 2^n, 30000) ms, each wait is within its jitter range, and the total lies between the matching multiples of the total base delay |
| `RegionAggregator.ConfluentIffAgree` | go-collector/internal/aggregator/aggregator.go:155-194 | One round of polls ends in the same state for every interleaving if and only if upstreams sharing a region brought the same result |
| `RegionAggregator.ConfluentIffDistinct` | go-collector/internal/aggregator/aggregator.go:155-194 | Rounds are independent of scheduling, whatever the upstreams answer, if and only if the configured regions are distinct |
| `RegionAggregator.RegionsAreIsolated` | go-collector/internal/aggregator/aggregator.go:167-194 | With distinct regions each ends with the result of its own poll, and no other region is touched |
| `RegionAggregator.PollsAreAllOrNothing` | go-collector/internal/aggregator/aggregator.go:167-194 | A poll leaves the three lists it fetched, each in its place, or, when any fetch failed, no lists and the first error |
| `RegionAggregator.Aggregator.PollUpstream` | go-collector/internal/aggregator/aggregator.go:167-194 | The method replaces its own region's entry by that and no other |
| `RegionAggregator.Aggregator.PollOnce` | go-collector/internal/aggregator/aggregator.go:155-165 | A round is its region updates in the order the scheduler chose |
| `RegionAggregator.Aggregator.Merged` | go-collector/internal/aggregator/aggregator.go:218-254 | The merged list holds every reachable region's items with their multiplicities and nothing else |
| `RegionAggregator.Aggregator.RollUp` | go-collector/internal/aggregator/aggregator.go:257-273 | The region list has one exact entry per region, in order of name |
| `RegionAggregator.EntriesAreExact` | go-collector/internal/aggregator/aggregator.go:261-270 | An entry gives its region's number of nodes, number of nodes whose status is active, reachability and error |
| `RegionAggregator.RollUpIsUnique` | go-collector/internal/aggregator/aggregator.go:257-273 | The region list does not depend on map iteration order |
| `RegionAggregator.CountsAddUp` | go-collector/internal/aggregator/aggregator.go:218-273 | The node counts of the region list add up to the size of the merged node list |

## Left out

- RateLimiter.TokenBucket.Allow: tokens are exact reals; floating-point rounding is not modelled.
- ReconnectBackoff.JitterRange: the factor is an exact real; the rounding of `mul_f64` is not modelled.
- KernelRecords.NamesSurvive: speaks of bytes; the lossy UTF-8 decoding before the trimming is not modelled.
- StreamIngest.StreamEvents: whether a string parses as an IP address is a parameter, and the alerts raised for an event are given with the event.
- Dispatcher.SuppressionExplained: severity names are given by their rank, and direct synchronous calls of `Dispatch` are not modelled.
- HeartbeatRegistry.SilentNodeLeavesIff: the zero time that stands for "no mark" is an option, so a clock reading of the zero time itself is not modelled; the timeout is not negative, as the checker ensures (go-collector/internal/registry/registry.go:163-165), and a negative evictAfter is bounded by the marking sweep.
- AgentTokens.LookupIsExact: a write counts as stored when its command saw success; token commands run under a context that never ends, so an abandoned token write is not modelled.
- StoreScan.ListNewest: a listing that is abandoned when its context ends returns only the context's error and is not modelled.
- AnomalyDetector.Detector.WindowStats: a window label is an amount and a unit, not its text.
- BadgerDB itself, value-log garbage collection and when a record expires: the database is an ordered map with atomic updates, and expiry is a step that may happen at any time.
- gRPC, TLS, HTTP, SMTP and Slack transport, server start and graceful shutdown.
- JSON, protobuf, SHA-256, random tokens and UUIDs: decoders are parameters, the hash is an arbitrary function, freshness and collision freedom are premises.
- The rule engine and rule validation: matching per rule, with no property that spans operations.
- REST handlers, bearer middleware, upstream parsing, the registry's list views, the mock event source, metrics, traces, logs and the web interface: easy members.

# A model of the distributed data service

This project models the parts of the distributed data service whose correctness is hardest to see, and
proves what they keep in every run. `dafny verify dfyconfig.toml` checks it.

- **FlowControl**, **FlowControlRuns**, **FlowControlProgress**: the delayed-task scheduler. Each section
  under its lock is one step; runs interleave submitters, removers and timer callbacks.
- **EventCenter**: the thread-local deferred event queue, with handlers as arbitrary programs that post
  events, nest Defers and change observers.
- **AutoCache**, **AutoCacheRuns**: the cache of open stores with its reference counts, leases and
  self-arming collection timer.
- **SyncRetry**, **LastSync**, **WorkPipeline**: retries of cloud syncs, the records of the last sync
  against a log of starts and finishes, and the retrying pipeline of works.
- **Strings**, **MetaKeys**: Join, Split and IsValidPath, and the "###" keys of the metadata store.
- **MetaUpgrade**, **MetaUpgradeKeys**, **MetaUpgradeRuns**, **MetaUpgradeStore**, **MetaUpgradeLoss**: the upgrade
  of store metadata to keys with a path, batch by batch, with failing saves and deletes, running again, and a
  database on which it loses a secret.
- **Base64**, **AssetBlob**: the two codecs.

Classes hold the code in its imperative form; each method is proved against a function or predicate on
values, and the laws are lemmas about those. A *run* is a sequence of states from an initial one, each the
successor of the one before; a theorem about `run[k]` is about every reachable state.

Where the code does something other than what its names suggest, the model follows the code:

- The parser of an asset list takes the first two bytes of the magic word for the number of assets, so it
  reads at most 0x4553 = 17747 of them (`AssetBlob.BlobRoundTrip`).
- A miss of GetStoresIfPresent drops all entries of the token (`AutoCache.MissEvictsToken`).
- The bound on retries holds for each chain. One sync can have more attempts in all when an attempt reports
  again after its retry has started, and only then (`SyncRetry.SyncsEnd`, `SyncRetry.ForksIff`,
  `SyncRetry.LateReportsRetryForEver`).
- A retry that is removed before it starts leaves its id in activeInfos_, and its sync is not retried any more
  (`SyncRetry.RemovedRetryBlocks`).
- UpgradeStoreMeta answers true also when old keys could not be deleted (`MetaUpgradeRuns.FailedDeleteStays`).
- UpgradeStoreMeta loses the secret of a record when an earlier batch held another instance of its store, both
  older than 0x03000004 and with different paths: they share the old secret key, and the earlier batch deletes it
  (`MetaUpgradeLoss.SecretIsLost`, with the exact condition in `MetaUpgradeRuns.SecretsSurviveIff`).
- Split cannot give back an empty last field (`Strings.SplitJoin`).

## Model

| member | source | states |
|---|---|---|
| `FlowControlRuns.RunsAreSafe` | services/distributeddataservice/framework/flow_control_manager/flow_control_manager.cpp:47-157 | in every state of every interleaving of submitters, removers and timer callbacks: a non-empty queue has a pending timer that no thread is about to cancel and that rings no later than the earliest task (or now), or a thread that will still schedule; and every submitted task is in exactly one of queued, dispatched once, discarded, each batch in due order and none early |
| `FlowControlRuns.WakeupKept` | services/distributeddataservice/framework/flow_control_manager/flow_control_manager.cpp:100-133 | no single step loses the wakeup of a queued task, given that the recorded timer is pending or its callback is still to come |
| `FlowControlRuns.RecordKept` | services/distributeddataservice/framework/flow_control_manager/flow_control_manager.cpp:82-98 | the recorded timer id never names a cancelled timer, nor a fired one whose callback has already run |
| `FlowControlRuns.CancelsKept` | services/distributeddataservice/framework/flow_control_manager/flow_control_manager.cpp:100-113 | no thread is ever about to cancel the timer that is recorded now |
| `FlowControlRuns.ConservedKept` | services/distributeddataservice/framework/flow_control_manager/flow_control_manager.cpp:56-98 | a step moves tasks between queued, dispatched and discarded without losing, repeating or inventing one |
| `FlowControlRuns.DiscardedIff` | services/distributeddataservice/framework/flow_control_manager/flow_control_manager.cpp:142-157 | in every run a real task is discarded exactly when some Remove, whose filter matched it or which had none, met it in the queue |
| `FlowControlRuns.RemoveDiscardsMatching` | services/distributeddataservice/framework/flow_control_manager/flow_control_manager.cpp:142-157 | one Remove discards a queued task if and only if its filter matches or is absent, and dispatches nothing |
| `FlowControlRuns.IdleRunsRecordNone` | services/distributeddataservice/framework/flow_control_manager/flow_control_manager.cpp:100-113 | in every run, with nothing queued and every thread done, no timer is recorded |
| `FlowControlRuns.GivenUpIsCancelled` | services/distributeddataservice/framework/flow_control_manager/flow_control_manager.cpp:100-113 | Schedule gives up the recorded timer exactly when the queue is empty, and then goes on to cancel just that timer |
| `FlowControlRuns.CancelIsFinal` | services/distributeddataservice/framework/flow_control_manager/flow_control_manager.cpp:100-113 | in every run a timer that was cancelled before it rang never rings afterwards |
| `FlowControlProgress.InternalStepsCost` | services/distributeddataservice/framework/flow_control_manager/flow_control_manager.cpp:69-133 | every step the pool takes on its own lowers a measure of the state |
| `FlowControlProgress.InternalRunsAreShort` | services/distributeddataservice/framework/flow_control_manager/flow_control_manager.cpp:69-133 | so the scheduler comes to rest by itself after at most that many steps |
| `FlowControlProgress.RestIsNoStep` | services/distributeddataservice/framework/flow_control_manager/flow_control_manager.cpp:69-133 | it is at rest exactly when no internal step is possible |
| `FlowControlProgress.NothingDueAtRest` | services/distributeddataservice/framework/flow_control_manager/flow_control_manager.cpp:69-98 | at rest no due task is left in the queue, in any run |
| `FlowControlProgress.DueTasksLeave` | services/distributeddataservice/framework/flow_control_manager/flow_control_manager.cpp:69-133 | from any reachable state, without new calls, every due task is dispatched (a null one discarded) within the bound |
| `FlowControl.FlowControlManager.Push` | services/distributeddataservice/framework/flow_control_manager/flow_control_manager.cpp:56-66 | the task is queued, and the caller owes a Schedule call exactly when it can be the queue's top |
| `FlowControl.FlowControlManager.ExecuteTask` | services/distributeddataservice/framework/flow_control_manager/flow_control_manager.cpp:69-98 | the pop loop hands over exactly the due tasks, once each and in due order, drops null tasks that reach the top, and forgets the timer |
| `FlowControl.FlowControlManager.ArmTimer` | services/distributeddataservice/framework/flow_control_manager/flow_control_manager.cpp:114-133 | one timer for the earliest task, due at once if that is overdue; a recorded timer is reset rather than doubled |
| `FlowControl.FlowControlManager.RemoveTasks` | services/distributeddataservice/framework/flow_control_manager/flow_control_manager.cpp:142-157 | after Remove(filter) a task that was queued is still queued exactly when there is a filter and it does not match; nothing else changes |
| `EventCenter.OutermostDelivers` | services/distributeddataservice/framework/eventcenter/event_center.cpp:80-119 | an outermost Defer delivers the events posted under it in posting order, at most MAX_CAPABILITY of them, each once to every observer registered when its turn comes and then to the temporary handler registered for it once they have returned, the first ever registered for its id; it loses events exactly when more than that were accepted |
| `EventCenter.Exec` | services/distributeddataservice/framework/eventcenter/event_center.cpp:40-90 | for arbitrary handler programs: code under a live Defer delivers nothing and only appends events that duplicate no queued one; code outside leaves no queue behind and every queue it used well drained |
| `EventCenter.ExecScope` | services/distributeddataservice/framework/eventcenter/event_center.cpp:66-90 | a nested Defer neither drains nor deletes the queue; the outermost does both |
| `EventCenter.PostedAtOnce` | services/distributeddataservice/framework/eventcenter/event_center.cpp:40-64 | an event posted outside any Defer goes once to each of its observers, and after that the events they posted are delivered in the same way |
| `EventCenter.PostedLater` | services/distributeddataservice/framework/eventcenter/event_center.cpp:40-52 | an event posted under a Defer is queued last, unless an equal one of its id is queued: exactly then the queue stays as it is; nothing is delivered |
| `EventCenter.PostsAreAccepted` | services/distributeddataservice/framework/eventcenter/event_center.cpp:126-138 | a program that posts events under a Defer gets them accepted in program order, each unless an equal one of its id is queued in front of it, and delivers none |
| `EventCenter.ScopeDeliversPosts` | services/distributeddataservice/framework/eventcenter/event_center.cpp:66-119 | an outermost Defer around such a program delivers the accepted events first, in program order, up to MAX_CAPABILITY |
| `EventCenter.NestedDeferRegisters` | services/distributeddataservice/framework/eventcenter/event_center.cpp:66-78 | after a nested Defer its handler is registered for its id, unless one was before |
| `EventCenter.ObserversChange` | services/distributeddataservice/framework/eventcenter/event_center.cpp:27-38 | Subscribe appends to the observers of its id, Unsubscribe drops them all, and neither touches another id |
| `EventCenter.DrainDelivers` | services/distributeddataservice/framework/eventcenter/event_center.cpp:98-119 | what any drain delivers and to whom, with the worlds between its turns, for any queue it starts from |
| `EventCenter.Serve` | services/distributeddataservice/framework/eventcenter/event_center.cpp:98-119 | one turn serves one event and keeps the order of what is queued, the event staying in front of duplicates posted by its own handlers |
| `EventCenter.DrainLoop` | services/distributeddataservice/framework/eventcenter/event_center.cpp:98-119 | the drain ends with all accepted events served or with MAX_CAPABILITY of them served, even if handlers post forever |
| `EventCenter.Drain` | services/distributeddataservice/framework/eventcenter/event_center.cpp:80-119 | after the outermost Defer there is no queue, and exactly one more queue was deleted |
| `EventCenter.ServeIsTurn` | services/distributeddataservice/framework/eventcenter/event_center.cpp:103-116 | one turn calls the observers of the front event in order, then the temporary handler found after they returned, if any, and logs just that |
| `EventCenter.TurnsServe` | services/distributeddataservice/framework/eventcenter/event_center.cpp:98-119 | every turn of a drain went to the observers and the temporary handler of its own moment |
| `EventCenter.TurnsLog` | services/distributeddataservice/framework/eventcenter/event_center.cpp:98-119 | what a drain delivered is the log of its turns, and no temporary handler ever gives way to a later one of its id |
| `EventCenter.EventThread.PostEventCode` | services/distributeddataservice/framework/eventcenter/event_center.cpp:40-52 | under a Defer the event is queued last unless an equal one of its id is, and nothing is delivered; outside it has gone to each observer, in order, and no queue is left; a null event changes nothing; and which code is returned |
| `EventCenter.EventThread.Defer` | services/distributeddataservice/framework/eventcenter/event_center.cpp:66-78 | the constructor opens the queue or deepens it, and registers a handler only for an id that has none |
| `EventCenter.EventThread.CloseDefer` | services/distributeddataservice/framework/eventcenter/event_center.cpp:80-119 | the destructor, with its drain loop, computes ExecScope's end |
| `EventCenter.EventThread.PostToQueue` | services/distributeddataservice/framework/eventcenter/event_center.cpp:126-138 | an event equal to a queued one of its id is dropped, any other appended |
| `EventCenter.EventThread.ServeFront` | services/distributeddataservice/framework/eventcenter/event_center.cpp:98-119 | one loop turn of the code is one turn of the model |
| `AutoCacheRuns.RunsAreSafe` | services/distributeddataservice/framework/store/auto_cache.cpp:102-281 | in every state of every interleaving: reference counts are right, leases are recorded, exactly one collection timer is pending or in a callback before its reset if taskId_ is set and none otherwise, and a non-empty cache has a timer or a thread that owes StartTimer |
| `AutoCacheRuns.CollectionRespectsLeases` | services/distributeddataservice/framework/store/auto_cache.cpp:258-281 | in every run a collection removes exactly the entries last acquired more than their interval ago, not EL4 under a locked screen, and not busy |
| `AutoCacheRuns.EntryIsAsOpened` | services/distributeddataservice/framework/store/auto_cache.cpp:132-149 | in every run, while an entry stays it has the store, the area and the interval of the call that opened it |
| `AutoCacheRuns.CollectionByOpening` | services/distributeddataservice/framework/store/auto_cache.cpp:258-281 | so a collection removes it exactly when it was last acquired more than that interval before, was not opened as EL4 or the screen is not locked, and is not busy |
| `AutoCacheRuns.TimersStayNear` | services/distributeddataservice/framework/store/auto_cache.cpp:177-199 | in every run a collection timer that waits rings no later than the interval configured now, counted from now |
| `AutoCacheRuns.ConfigureMovesTimer` | services/distributeddataservice/framework/store/auto_cache.cpp:302-308 | Configure sets the timer that waits, if there is one, to the new interval from now, and no other |
| `AutoCacheRuns.GetReusesStore` | services/distributeddataservice/framework/store/auto_cache.cpp:121-131 | while an entry stays, every GetDBStore returns its first store, adds one reference and creates nothing |
| `AutoCacheRuns.ZeroMeansUnused` | services/distributeddataservice/framework/store/auto_cache.cpp:310-356 | a store's count is zero exactly when it is neither cached nor held |
| `AutoCacheRuns.TimerKept` | services/distributeddataservice/framework/store/auto_cache.cpp:177-199 | no step gives the cache a second live timer or loses the one it has |
| `AutoCacheRuns.CollectedKept` | services/distributeddataservice/framework/store/auto_cache.cpp:177-199 | no step leaves a non-empty cache without a timer or a thread that will start one |
| `AutoCacheRuns.CountsKept` | services/distributeddataservice/framework/store/auto_cache.cpp:310-356 | every operation keeps count == (1 if cached) + live handles |
| `AutoCacheRuns.LeasesKept` | services/distributeddataservice/framework/store/auto_cache.cpp:331-345 | an entry's expiry is always its last acquisition plus its interval |
| `AutoCache.MissEvictsToken` | services/distributeddataservice/framework/store/auto_cache.cpp:156-175 | GetStoresIfPresent drops no entry of a cached token exactly when the key is empty or cached; otherwise it drops all of the token's |
| `AutoCache.PresentAt` | services/distributeddataservice/framework/store/auto_cache.cpp:156-175 | what GetStoresIfPresent does to any entry: a found one is leased anew, a miss drops all of the token, everything else stays as it is |
| `AutoCache.CreatedAs` | services/distributeddataservice/framework/store/auto_cache.cpp:132-149 | the entry a creation leaves, with its two references, the cache's and the caller's |
| `AutoCache.CheckStatusBeforeOpen` | services/distributeddataservice/framework/store/auto_cache.cpp:79-100 | which code a store is refused with, exactly: EL4 under a locked screen; else, for a user other than 0 and an area other than EL1, a user that is deactivating or not verified |
| `AutoCache.GetKeeps` | services/distributeddataservice/framework/store/auto_cache.cpp:102-149 | GetDBStore keeps counts exact on a hit, a creation and a failed creation |
| `AutoCache.PresentKeeps` | services/distributeddataservice/framework/store/auto_cache.cpp:156-175 | GetStoresIfPresent keeps counts exact, whether it finds stores or evicts |
| `AutoCache.EvictKeeps` | services/distributeddataservice/framework/store/auto_cache.cpp:201-281 | removing entries gives back exactly their references |
| `AutoCache.AutoCache.GetDBStore` | services/distributeddataservice/framework/store/auto_cache.cpp:102-149 | status, handle and new cache for disabled and locked stores, a hit, a creation (the entry with the area asked for and the interval configured, as CreatedAs says) and a failed creation, with the creator's own code |
| `AutoCache.AutoCache.GetStoresIfPresent` | services/distributeddataservice/framework/store/auto_cache.cpp:156-175 | the handles are the found stores, once each; without any the token's entries are gone |
| `AutoCache.AutoCache.GarbageCollect` | services/distributeddataservice/framework/store/auto_cache.cpp:258-281 | an entry is erased exactly when it is expired or the collection is forced, it is not EL4 under a locked screen, and it is not busy; the others stay as they are |
| `AutoCache.AutoCache.CloseStore` | services/distributeddataservice/framework/store/auto_cache.cpp:201-220 | exactly the token's entries for the key (or all, for an empty key) that the screen lock allows are erased |
| `AutoCache.AutoCache.Configure` | services/distributeddataservice/framework/store/auto_cache.cpp:302-308 | the interval is set, and a waiting timer moved to it |
| `AutoCache.AutoCache.EraseIf` | services/distributeddataservice/framework/store/auto_cache.cpp:222-281 | the erase-while-iterating loop removes exactly the matching entries and releases each once |
| `SyncRetry.RunsAreSafe` | services/distributeddataservice/service/cloud/sync_manager.cpp:426-460 | in every run, late and repeated reports included: per sync id at most one retry is pending or was removed while it was, and exactly then its id is in activeInfos_ with its ticket; actives_ holds exactly the unfinished tracked tasks; `times` counts attempts |
| `SyncRetry.ChainsEnd` | services/distributeddataservice/service/cloud/sync_manager.cpp:615-655 | every retry chain has at most 6, 3 or 1 attempts by its origin, and a chain that long is never extended, whatever is reported |
| `SyncRetry.RetriesAreReported` | services/distributeddataservice/service/cloud/sync_manager.cpp:615-655 | in every run every retry comes from a report of its parent, made before, of a network error or of another failure the cloud asks to retry, neither success nor a merged task, by an attempt with `times` below 6 |
| `SyncRetry.QuietSyncsRunOnce` | services/distributeddataservice/service/cloud/sync_manager.cpp:615-655 | in every run a sync none of whose attempts made such a report is attempted once |
| `SyncRetry.ReportRetries` | services/distributeddataservice/service/cloud/sync_manager.cpp:615-655 | exactly which reports lead to another attempt, and to which: the next of the same sync; any other report changes nothing |
| `SyncRetry.LongestChain` | services/distributeddataservice/service/cloud/sync_manager.cpp:275-287 | for every origin some run reaches that bound |
| `SyncRetry.SyncsEnd` | services/distributeddataservice/service/cloud/sync_manager.cpp:426-430 | in every run a sync none of whose attempts has two retries is attempted at most 6, 3 or 1 times in all |
| `SyncRetry.OneChainIff` | services/distributeddataservice/service/cloud/sync_manager.cpp:644-655 | in every run all attempts of a sync are on one chain exactly when none of them has two retries |
| `SyncRetry.ForksIff` | services/distributeddataservice/service/cloud/sync_manager.cpp:644-655 | in every run some attempt of a sync has two retries exactly when an attempt that had one reported a code to retry while no retry of the sync was pending or removed |
| `SyncRetry.ForkArises` | services/distributeddataservice/service/cloud/sync_manager.cpp:644-655 | the same for one step |
| `SyncRetry.LateReportsRetryForEver` | services/distributeddataservice/service/cloud/sync_manager.cpp:644-655 | then there is no bound: a first attempt that keeps reporting makes any number of attempts |
| `SyncRetry.ActiveInfosExact` | services/distributeddataservice/service/cloud/sync_manager.cpp:426-430 | an id is in activeInfos_ exactly when a retry of its sync is pending or was removed before it started |
| `SyncRetry.RemovedRetryBlocks` | services/distributeddataservice/service/cloud/sync_manager.cpp:644-652 | after a pending retry was removed no report leads to another attempt of that sync, in the rest of the run |
| `SyncRetry.OneRetryKept` | services/distributeddataservice/service/cloud/sync_manager.cpp:644-652 | no step gives a sync id a second pending retry, or marks or unmarks an id without one |
| `SyncRetry.TrackedKept` | services/distributeddataservice/service/cloud/sync_manager.cpp:595-614 | actives_ stays the set of tickets of unfinished tracked tasks |
| `SyncRetry.ChainCountsTimes` | services/distributeddataservice/service/cloud/sync_manager.cpp:426-430 | `times` is the first value of the origin plus the attempts so far |
| `SyncRetry.SyncManager.Retryer` | services/distributeddataservice/service/cloud/sync_manager.cpp:615-655 | the retryer does what ReportRetries says of the model, registering the attempt before scheduling it; it answers false exactly when another attempt is due by code and `times` and there is no executor |
| `SyncRetry.SyncManager.Sync` | services/distributeddataservice/service/cloud/sync_manager.cpp:275-287 | a sync gets a new id, the first `times` of its origin, and a ticket if it is internal |
| `LastSync.RecordsAreLog` | services/distributeddataservice/service/cloud/sync_manager.cpp:1012-1065 | for every log of starts and finishes: the live records are the started and not ended syncs, and the saved record of a store is that of the last finish that met its own live record |
| `LastSync.AnswerIsLog` | services/distributeddataservice/service/cloud/sync_manager.cpp:941-965 | a query answers the live sync with the greatest id, else the last saved one if its account matches, else nothing |
| `LastSync.AnswerSays` | services/distributeddataservice/service/cloud/sync_manager.cpp:941-965 | every answer is about a sync of just the user, account, application and store asked for: start time, finish time, code (one outside 0..8 becomes 1) and status are those of its logged events, and a saved one is the last save of the store for any account |
| `LastSync.RecordedIff` | services/distributeddataservice/service/cloud/sync_manager.cpp:1012-1065 | a sync has a record in memory exactly when it has an account, its application is none of kvApps_, and its last start was not finished and no sync of its key finished six hours or more after it |
| `LastSync.FinishIsFound` | services/distributeddataservice/service/cloud/sync_manager.cpp:1040-1065 | a live sync that finishes and is saved is what the next query answers, unless another sync of the key still runs |
| `LastSync.StartsAreLogged` | services/distributeddataservice/service/cloud/sync_manager.cpp:1012-1038 | one call of UpdateStartSyncInfo is as many starts in the log |
| `LastSync.SecondFinishSavesNothing` | services/distributeddataservice/service/cloud/sync_manager.cpp:1040-1065 | a second finish of a sync without a new start between saves nothing |
| `LastSync.LiveStep` | services/distributeddataservice/service/cloud/sync_manager.cpp:1040-1065 | a finish ends its own record and those 6 hours old, and no other |
| `LastSync.SyncRecords.UpdateStartSyncInfo` | services/distributeddataservice/service/cloud/sync_manager.cpp:1012-1038 | the loop records every started sync |
| `LastSync.SyncRecords.UpdateFinishSyncInfo` | services/distributeddataservice/service/cloud/sync_manager.cpp:1040-1065 | the erase loop computes the finish of the model |
| `LastSync.SyncRecords.GetLastResults` | services/distributeddataservice/service/cloud/sync_manager.cpp:924-939 | the record with the greatest id, or none |
| `LastSync.SyncRecords.QueryLastSyncInfo` | services/distributeddataservice/service/cloud/sync_manager.cpp:941-965 | the answers of all keys that have one; for keys of one store the first answer counts |
| `WorkPipeline.RoundsAreBounded` | services/distributeddataservice/service/cloud/cloud_service_impl.cpp:1316-1352 | a pipeline of n works runs at most n + 2 rounds, whatever users, network and works do |
| `WorkPipeline.RoundsReachBound` | services/distributeddataservice/service/cloud/cloud_service_impl.cpp:1316-1352 | some run takes n + 2 rounds exactly when there are works at all |
| `WorkPipeline.WorksRunInOrder` | services/distributeddataservice/service/cloud/cloud_service_impl.cpp:1316-1352 | the work of a round is the one after as many works as finished before it: a work starts only after all earlier ones finished |
| `WorkPipeline.EntriesAreRounds` | services/distributeddataservice/service/cloud/cloud_service_impl.cpp:1316-1352 | every round that runs a work has an executor and a network, and the work finishes exactly when users are found and it succeeds for each that is verified: others and user 0 make no difference |
| `WorkPipeline.WhyItStops` | services/distributeddataservice/service/cloud/cloud_service_impl.cpp:1316-1352 | a pipeline stops only for want of an executor or a network, after its third failure, or when all works finished |
| `WorkPipeline.RunRound` | services/distributeddataservice/service/cloud/cloud_service_impl.cpp:1318-1351 | one round: a work finishes when users are known, there are some, and it succeeds for every verified one |
| `Strings.SplitJoin` | services/distributeddataservice/framework/utils/constant.cpp:44-77 | Split undoes Join exactly when the last field is not empty, for fields free of the delimiter's first character |
| `Strings.IsValidPath` | services/distributeddataservice/framework/utils/constant.cpp:103-123 | true exactly when there is no backslash and no component "..", so the stride-3 search misses nothing |
| `Strings.JoinLoop` | services/distributeddataservice/framework/utils/constant.cpp:44-58 | the appending loop computes Join |
| `Strings.SplitLoop` | services/distributeddataservice/framework/utils/constant.cpp:60-77 | the find loop computes the pieces between delimiters, without an empty last one |
| `MetaKeys.PrefixFindsExtensions` | services/distributeddataservice/framework/metadata/store_meta_data.cpp:252-264 | GetPrefix(fs) is a prefix of GetKey(gs) exactly when fs is a proper list prefix of gs |
| `MetaKeys.KeysAreInjective` | services/distributeddataservice/framework/metadata/store_meta_data.cpp:252-259 | keys of '#'-free fields are equal exactly when family and fields are |
| `MetaKeys.GetKeyInjective` | services/distributeddataservice/framework/metadata/store_meta_data.cpp:179-185 | GetKey tells apart device, user, bundle, store, instance and path, though it omits instance 0 |
| `MetaUpgradeStore.UpgradeWorks` | services/distributeddataservice/app/src/kvstore_meta_manager.cpp:268-313 | UpgradeStoreMeta on a device with one record per store, when it answers true: every record is at its keys with a path, at no old key if no delete failed, every store and local value and every secret that is not shared is unchanged, and no other key is touched; whoever knows the device, user, bundle, store and instance of a record finds its mapping, whatever path they have; the upgrade is complete exactly when every old key was deleted by some batch and every old secret was copied to each of its new keys in time |
| `MetaUpgradeStore.UpgradeSays` | services/distributeddataservice/app/src/kvstore_meta_manager.cpp:268-313 | the same key by key, of whatever the database has for the device: store, mapping and local part at the keys with a path, none of the five old keys left if no delete failed, any key that is none of a record's nine as it was |
| `MetaUpgradeStore.SecondUpgradeChangesNothing` | services/distributeddataservice/app/src/kvstore_meta_manager.cpp:268-313 | a second call after a first that saved and deleted everything leaves the database as it is, whatever fails in it |
| `MetaUpgradeStore.RerunCompletes` | services/distributeddataservice/app/src/kvstore_meta_manager.cpp:268-313 | an upgrade cut short anywhere and run again ends in the same database as one whole run exactly when the first run left every secret reachable at one of its keys |
| `MetaUpgradeStore.MovesAgree` | services/distributeddataservice/app/src/kvstore_meta_manager.cpp:277-313 | two runs that move the same records differ at shared secrets only |
| `MetaUpgradeStore.RerunLoadsTheSame` | services/distributeddataservice/app/src/kvstore_meta_manager.cpp:271-276 | the prefix query of a rerun finds the same records |
| `MetaUpgradeStore.LoadedAreConsistent` | services/distributeddataservice/app/src/kvstore_meta_manager.cpp:270-276 | the records loaded for a device with one record per store, each at its key with or without its path, have no key in common but old secrets |
| `MetaUpgradeStore.PrefixFindsHomes` | services/distributeddataservice/framework/metadata/store_meta_data.cpp:261-264 | of all keys an upgrade touches, the prefix of the device finds the store record's two keys only |
| `MetaUpgradeStore.QueryFindsDevice` | services/distributeddataservice/app/src/kvstore_meta_manager.cpp:270-276 | the query is for "KvStoreMetaData###" and the device, and finds a record's key, with or without its path, exactly when the record is of that device |
| `MetaUpgradeRuns.WhenUpgraded` | services/distributeddataservice/app/src/kvstore_meta_manager.cpp:279-313 | what a run that answers true has done, for any outcome of the deletes, whose answer is ignored; exact condition for a complete upgrade |
| `MetaUpgradeRuns.SecretsSurviveIff` | services/distributeddataservice/app/src/kvstore_meta_manager.cpp:293-310 | when all saves and deletes work the upgrade is complete exactly when, for every record, the first batch that holds its old secret key also holds a record with its new one, or the new key has the value already |
| `MetaUpgradeRuns.SecretSurvivesIff` | services/distributeddataservice/app/src/kvstore_meta_manager.cpp:293-310 | for each record and any outcomes: its secret is at its new key exactly when some batch copied it before one deleted it, or it was there already |
| `MetaUpgradeRuns.SecretIsLostIff` | services/distributeddataservice/app/src/kvstore_meta_manager.cpp:293-310 | when all saves and deletes work, a secret that was at the old key only is at neither key after the batch of its record exactly when that first batch holds no record with the new key |
| `MetaUpgradeLoss.SecretIsLost` | services/distributeddataservice/app/src/kvstore_meta_manager.cpp:268-313 | a database with 101 old records of the instances of one store and their secret: UpgradeStoreMeta loads them, saves and deletes everything, answers true, and the secret of the record in the second batch is at neither key |
| `MetaUpgradeRuns.FailedDeleteStays` | services/distributeddataservice/app/src/kvstore_meta_manager.cpp:305-310 | one record whose delete fails: the answer is true and each old key that was there still is |
| `MetaUpgradeRuns.OldKeyAfter` | services/distributeddataservice/app/src/kvstore_meta_manager.cpp:305-310 | an old key is there after some batches, with its value, exactly when it was there and none of them deleted it |
| `MetaUpgradeRuns.BatchesUpgrade` | services/distributeddataservice/app/src/kvstore_meta_manager.cpp:277-313 | after any number of saved batches the records they hold, and no others, are settled at their keys with a path; if the deletes worked their old keys are gone |
| `MetaUpgradeRuns.NextBatchCutShort` | services/distributeddataservice/app/src/kvstore_meta_manager.cpp:305-310 | the same between a batch's save and its delete, and with any part of the deletes done |
| `MetaUpgradeStore.MetaStore.UpgradeStoreMeta` | services/distributeddataservice/app/src/kvstore_meta_manager.cpp:268-313 | the code runs the batches one by one and stops at the first that cannot be saved |
| `MetaUpgradeStore.MetaStore.BatchProcess` | services/distributeddataservice/framework/include/utils/constant.h:48-59 | batches of at most 100 in order; false exactly when one fails |
| `MetaUpgradeStore.MetaStore.CollectBatch` | services/distributeddataservice/app/src/kvstore_meta_manager.cpp:283-304 | the do-while loop collects the entries and the keys to delete of all records |
| `MetaUpgradeStore.MetaStore.LoadRecords` | services/distributeddataservice/framework/include/metadata/meta_data_manager.h:77-91 | the loaded list is what the found entries read as |
| `MetaUpgrade.UpgradeIsUnique` | services/distributeddataservice/app/src/kvstore_meta_manager.cpp:277-313 | a complete upgrade depends on the set of records only, not on their order or the batches |
| `MetaUpgrade.BatchSettles` | services/distributeddataservice/app/src/kvstore_meta_manager.cpp:305-310 | a saved batch carries every value of its own records, shared secrets included, with any part of its deletes done |
| `MetaUpgrade.Compose` | services/distributeddataservice/app/src/kvstore_meta_manager.cpp:277-313 | batch after batch settles the records of both |
| `MetaUpgradeKeys.RecordsAreConsistent` | services/distributeddataservice/framework/metadata/store_meta_data.cpp:179-303 | with '#'-free fields and absolute paths, records of different stores have no key in common but secrets, and no key an upgrade writes is one it deletes |
| `MetaUpgradeKeys.StoresApart` | services/distributeddataservice/framework/metadata/store_meta_data.cpp:179-303 | the same for two records, across all nine key builders |
| `MetaUpgradeKeys.SharedSecrets` | services/distributeddataservice/framework/metadata/store_meta_data.cpp:196-202 | who shares an old secret key, and who the new one too: old records of the instances of one store, and of one path |
| `MetaUpgradeKeys.KeysAgree` | services/distributeddataservice/framework/metadata/store_meta_data.cpp:179-332 | for '#'-free records: two have the same mapping key, the same store key without a path, or the same local key without one, exactly when device, user, bundle, store and instance agree; the same keys with a path exactly when the path agrees too |
| `MetaUpgradeKeys.InfoKeysAgree` | services/distributeddataservice/framework/metadata/store_meta_data.cpp:217-238 | the same for the keys of debug and dfx information, which have no path |
| `MetaUpgradeKeys.KeysSpelled` | services/distributeddataservice/framework/metadata/store_meta_data.cpp:179-332 | store, local and mapping keys character by character: family, fields in order, the instance unless it is 0, the path or none |
| `MetaUpgradeKeys.SecretKeySpelled` | services/distributeddataservice/framework/metadata/store_meta_data.cpp:196-303 | the secret keys character by character: no device, the instance from version 0x03000004 on |
| `MetaUpgradeKeys.InfoKeysSpelled` | services/distributeddataservice/framework/metadata/store_meta_data.cpp:217-238 | the debug and dfx keys character by character, the instance always |
| `Base64.DecodeEncode` | services/distributeddataservice/framework/utils/base64_utils.cpp:96-180 | Decode undoes Encode, for every input |
| `Base64.EncodeDecode` | services/distributeddataservice/framework/utils/base64_utils.cpp:96-180 | Encode undoes Decode exactly on canonical text: only characters and the right padding, none left over, spare bits zero |
| `Base64.EncodeKeepsBits` | services/distributeddataservice/framework/utils/base64_utils.cpp:64-78 | the characters hold the bits of the input in order and then zero bits only, as in section 4 of RFC 4648 |
| `Base64.CharsAreText` | services/distributeddataservice/framework/utils/base64_utils.cpp:22-25 | the alphabet is A-Z, a-z, 0-9, + and /, in that order, and the padding is = |
| `Base64.EncodedLength` | services/distributeddataservice/framework/utils/base64_utils.cpp:96-135 | the text has 4 * ceil(n / 3) characters |
| `Base64.DecodeKeepsBits` | services/distributeddataservice/framework/utils/base64_utils.cpp:80-94 | whatever the characters, the bytes are their bits in order, as many as fill whole bytes |
| `Base64.BodyOfEncoded` | services/distributeddataservice/framework/utils/base64_utils.cpp:116-134 | in encoded text the characters stop at the padding |
| `Base64.Encode` | services/distributeddataservice/framework/utils/base64_utils.cpp:96-135 | the loop and the padded last group compute the encoding |
| `Base64.Decode` | services/distributeddataservice/framework/utils/base64_utils.cpp:137-180 | the loop stops at the first byte outside the alphabet; the zero-filled last group gives one byte less than its characters |
| `AssetBlob.BlobRoundTrip` | services/distributeddataservice/service/cloud/cloud_data_translate.cpp:114-151 | parsing an encoded list gives back its first 17747 assets: all of them exactly when there are no more than that, because the count is read from the magic word |
| `AssetBlob.CutBlobParses` | services/distributeddataservice/service/cloud/cloud_data_translate.cpp:114-151 | a blob cut anywhere behind its head gives back exactly the assets whose frames are whole (up to 17747) |
| `AssetBlob.LongTextStops` | services/distributeddataservice/service/cloud/cloud_data_translate.cpp:34-41 | a text of 65536 bytes or more whose truncated beginning cannot be read ends the list: the assets in front of it come back |
| `AssetBlob.CutHeadParses` | services/distributeddataservice/service/cloud/cloud_data_translate.cpp:114-135 | cut inside its head it gives back nothing |
| `AssetBlob.ListSound` | services/distributeddataservice/service/cloud/cloud_data_translate.cpp:114-151 | whatever the bytes: what is used are readable frames within the data, and a further one follows only after 17747 |
| `AssetBlob.FramesSound` | services/distributeddataservice/service/cloud/cloud_data_translate.cpp:139-150 | the same for the loop over frames, for any number of assets asked for |
| `AssetBlob.FramesComplete` | services/distributeddataservice/service/cloud/cloud_data_translate.cpp:139-150 | readable frames in front of something that is no frame are all parsed, and nothing else |
| `AssetBlob.ParsesNothing` | services/distributeddataservice/service/cloud/cloud_data_translate.cpp:78-112 | one asset is parsed exactly when a readable frame is at the front |
| `AssetBlob.CutFrame` | services/distributeddataservice/service/cloud/cloud_data_translate.cpp:78-112 | a frame cut short is not parsed |
| `AssetBlob.NumIsMagic` | services/distributeddataservice/service/cloud/cloud_data_translate.cpp:136-137 | the number that is read is 0x4553, whatever was written |
| `AssetBlob.ListHeadSays` | services/distributeddataservice/service/cloud/cloud_data_translate.cpp:45-50 | a list starts with the bytes of the magic word and then its number of assets modulo 65536 |
| `AssetBlob.AssetsToBlob` | services/distributeddataservice/service/cloud/cloud_data_translate.cpp:45-58 | the loop writes the head and every frame in order |
| `AssetBlob.ParseAsset` | services/distributeddataservice/service/cloud/cloud_data_translate.cpp:78-112 | the cursor code answers 0 exactly where nothing is parsed, and the bytes used otherwise |
| `AssetBlob.ParseAssets` | services/distributeddataservice/service/cloud/cloud_data_translate.cpp:114-151 | the loop over the cursor computes the parse of the list |

## Left out

- IPC stubs, parcels, the Rust extension and the DistributedDB store: plumbing or foreign code. The metadata
  store is a map whose batch save and batch delete each happen wholly or not at all.
- The ExecutorPool and ConcurrentMap are not part of this model: a timer fires once unless cancelled or reset
  before, Reset of a fired timer has no effect, and each ConcurrentMap operation is atomic. The map of maps of
  stores is one map keyed by token and key.
- CryptoManager, backup and clone flows, adapters, dumps, reporting and watchdogs.
- JSON field by field: a stored metadata value reads back as it was written; an asset is its JSON text, and
  what a text reads as is a parameter.
- StopCloudSync, ClearLastSyncInfo, GetSchemaMeta, UpdateMetaData and UpdateStoreMetaData.
- Destructors and shutdown of FlowControlManager, AutoCache and SyncManager: properties hold while running.
- FlowControl.FlowControlManager.Push: the order of tasks with the same due time is left open, as the priority queue leaves it.
- EventCenter: other threads that change the observers at the same time, and a failing allocation in Defer.
- AutoCache: SetObservers, Enable and Disable beyond the test of a disabled store in GetDBStore; CloseStore with a filter is
  covered by EraseIf only.
- SyncRetry: the wrap-around of the 32-bit counter behind GenerateId; ids are new.
- LastSync: whether a save succeeds is part of the logged event.
- Strings.SplitLoop: requires a delimiter that is not empty; with an empty one the loop of Split does not end.
- Strings: characters outside ASCII.
- MetaUpgradeStore: two loaded records of one store with different contents or paths; the cache in front of the
  metadata store.
- Base64: text is bytes and the character classes are those of the C locale.
- AssetBlob.BlobRoundTrip: texts of 65536 bytes or more; LongTextStops says what comes back if their truncated
  beginning cannot be read.

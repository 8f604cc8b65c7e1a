# Effector broker verification

A Dafny model of the state machines behind Effector's broker and browser extension, with proofs of what
they guarantee over whole runs. `dafny verify dfyconfig.toml` checks everything.

| files | component |
|---|---|
| `Lanes`, `OperationTasks`, `OperationSafety`, `OperationTheorems`, `OperationOutcomes`, `OperationProgress`, `OperationRegistry` | the keyed, lane-based operation scheduler |
| `Baselines`, `Snapshots`, `Hierarchy`, `Counting`, `SnapshotPages`, `SnapshotRenderer`, `SnapshotTheorems`, `SnapshotCounts` | baseline validation, filtering, sorting, cursors and hierarchical pages |
| `Retention` | the class-aware retention store |
| `References`, `Runtime`, `BrokerRuntime`, `RuntimeTheorems`, `CaptureTheorems`, `CaptureResults` | the runtime's lock sections: reference reconciliation, capture, continue, connect, clear |
| `SnapshotAgreement` | the extension's run and the broker's history together |
| `RequestLifecycle`, `LifecycleTheorems`, `Decimal`, `Broker`, `WriterInterleaving` | pending requests, their tombstones, the size preflight and the native writer |
| `Discovery`, `Notifications` | tool-list notification over a channel that holds one token |
| `BrowserModel`, `BrowserModelObject`, `BrowserModelTheorems` | the extension's browser model |
| `TrajectoryMeasure`, `TrajectoryLayout`, `TrajectoryBaseline`, `TrajectoryRoundTrip` | the measuring tool's page-to-baseline conversion |
| `Wrappers`, `Sorting` | options, results, stable sorting |

How concurrency is modelled. Every critical section, atomic channel access or stretch between two awaits is
one step of a transition system (`OperationTasks`, `Discovery`, `BrowserModels`, `WriterInterleaving`, the event
types of `RuntimeTheorems` and `LifecycleTheorems`), and the theorems quantify over all runs, so over all
interleavings. Beside the scheduler, the runtime, the request lifecycle, the notifier list and the browser model stands a class
with the source's fields, whose methods perform the same sections in place and are proved to be those steps.
`finish` and a shutdown are several steps: other operations interleave between their parts.

Random names (UUIDs) are drawn from a counter, so they are fresh by construction. Instants are nanoseconds,
given as arguments. Serialized sizes and query text matching are function parameters.

Four results about the code deserve a note.

* `BrokerRuntime::clear` replaces the discovery by the default one and notifies nobody, so a listener that had
  read the connected tool list is not told of a disconnection. The no-lost-update guarantee therefore
  holds exactly while a browser is connected: `Discovery.NoLostUpdate` proves it there,
  `Discovery.DisconnectionIsSilent` gives a run where it fails, `Discovery.ClearAloneIsSilent` shows that
  clear is the only replacement that fails to reach a listener, and `Discovery.OnlyDisconnectionsAreMissed`
  that a listener left with an old reading was left there by such a disconnection. In the program the only
  caller of `clear` is the broker's shutdown (`native/src/broker.rs:204`); the model lets connections and
  publications follow a clear as well.
* `request` does not turn away a request whose deadline rounds down to 0 ms; the writer expires it. Deadlines on
  the wire are still between 1 and 29000 ms (`Broker.DeadlineIsLongest`).
* The extension's sets of forced ids never make a difference: an event that puts an id there deletes its key too,
  and only an applied read gives it one again (`BrowserModelTheorems.ForcedIdsHaveNoKey`).
* A `counts` capture takes over revision and fingerprint, but the references it reconciled are dropped
  (`BrokerRuntimes.BrokerRuntime.CommitCapture`).

## Model

| member | source | states |
|---|---|---|
| Lanes.LaneSetIsCanonical | native/src/operation_tasks.rs:51-58 | Two lane lists make equal lane sets exactly when they are equal as sets; only the empty list is refused. |
| Lanes.OverlapIsSetIntersection | native/src/operation_tasks.rs:60-71 | Overlap depends on the sets alone and is symmetric: a shared lane, or the browser lane on either side. |
| OperationSafety.StepKeepsInv | native/src/operation_tasks.rs:138-300 | Every step of every interleaving keeps the scheduler invariant, and no outcome, key, lane set or predecessor list ever changes. |
| OperationTheorems.LaneMutualExclusion | native/src/operation_tasks.rs:167-218 | In every run two operations with overlapping lanes never both have a body in progress, even after a shutdown relabelled a running one Unknown. |
| OperationTheorems.StartNeedsSettledPredecessors | native/src/operation_tasks.rs:204-215 | A body starts only after every predecessor ended Completed or NotDispatched and left its body. |
| OperationTheorems.UnknownPredecessorContains | native/src/operation_tasks.rs:204-210 | With an Unknown predecessor an operation is Queued or NotDispatched for ever and never starts. |
| OperationTheorems.DeclinedOnlyByDirectUnknown | native/src/operation_tasks.rs:167-210 | Before a shutdown, an operation that ended without starting has a direct, overlapping predecessor that did start and is Unknown: NotDispatched does not spread. |
| OperationTheorems.NotDispatchedIsPassed | native/src/operation_tasks.rs:204-210 | A waiting operation gets past a predecessor that is NotDispatched. |
| OperationTheorems.ExactlyOncePerRetainedKey | native/src/operation_tasks.rs:149-160 | While a key is retained it names one operation, whose body starts at most once, and nothing else of that key starts. |
| OperationTheorems.StaleCallsTouchNoEntry | native/src/operation_tasks.rs:259-300 | A finish or attach_abort whose entry is gone, or whose key was reused, leaves all entries alone. |
| OperationTheorems.AdmissionIsBoundedAndKeyed | native/src/operation_tasks.rs:149-165 | In every run at most 32 entries; a retained key joins if the lane sets are equal and is a conflict otherwise; a new key is refused after shutdown, and before it is admitted exactly if there are fewer than 32 entries. |
| OperationTheorems.ShutdownAbortsEverything | native/src/operation_tasks.rs:239-279 | After a shutdown and its abort calls the registry is empty, all outcomes are fixed, and every attached task is finished or aborted. |
| OperationTheorems.ClosedChannelsCarryAnOutcome | native/src/operation_tasks.rs:398-413 | A status channel whose senders are gone carries a terminal status, also for a task aborted before its first poll. |
| OperationOutcomes.LostBodyIsUnknown | native/src/operation_tasks.rs:344-355 | In every run an operation whose body was lost half way, by a panic or an abort, can have no outcome but Unknown. |
| OperationOutcomes.OutcomeIsTheBodys | native/src/operation_tasks.rs:215-216 | A started operation is Completed or NotDispatched only if its body returned just that; Unknown only if the body returned it or was lost, or a shutdown came. |
| OperationOutcomes.ReturnedOutcomeIsPublished | native/src/operation_tasks.rs:366-380 | What the body returned is what finish publishes, unless a shutdown came first. |
| OperationOutcomes.ReturnedOutcomeStands | native/src/operation_tasks.rs:366-393 | After its body returned, an operation has that outcome or, only after a shutdown, Unknown. |
| OperationOutcomes.PanicEndsUnknown | native/src/operation_tasks.rs:344-355 | A body in progress can be lost at any moment; its guard then reads Running and publishes Unknown. |
| OperationOutcomes.AbortDropsTask | native/src/operation_tasks.rs:252-256 | An aborted task that has not started can be dropped while it waits, and its body does not start. |
| OperationOutcomes.EvictedEntryGoes | native/src/operation_tasks.rs:228-300 | Capacity comes back: the entry of an evicted operation is gone at once if it had an outcome, and otherwise when its task has ended. |
| OperationOutcomes.KeptUntilEvicted | native/src/operation_tasks.rs:149-157 | Until its owner evicts it or a shutdown clears all, an admitted key stays, and a call with its lanes joins its operation. |
| OperationProgress.LeastUnsettledCanStep | native/src/operation_tasks.rs:201-218 | No deadlock: the unsettled operation of least sequence can always step, whoever holds the registry lock. |
| OperationProgress.SchedulerRunsAreBounded | native/src/operation_tasks.rs:197-222 | Without new calls the scheduler takes at most as many steps as a measure of the admitted set says. |
| OperationProgress.QuiescentMeansSettled | native/src/operation_tasks.rs:197-300 | Where no step of its own is left, every operation has an outcome, every spawned one has ended and every shutdown is complete. |
| OperationRegistry.OperationTaskRegistry.JoinOrSpawn | native/src/operation_tasks.rs:138-195 | The admission section: joins, refuses, or admits with an ascending list of exactly the overlapping open operations as predecessors. |
| OperationRegistry.OperationTaskRegistry.CollectConflicts | native/src/operation_tasks.rs:167-178 | The scan finds exactly the registered, overlapping, unsettled operations, each once. |
| OperationRegistry.OperationTaskRegistry.EvictOwner | native/src/operation_tasks.rs:228-237 | Evicts a terminal entry, and otherwise only gives up the owner's hold. |
| OperationRegistry.OperationTaskRegistry.Attach | native/src/operation_tasks.rs:259-279 | Keeps the handle with an unfinished entry; aborts at once when the entry is gone after a shutdown. |
| OperationRegistry.OperationTaskRegistry.Finish | native/src/operation_tasks.rs:281-300 | Publishes the outcome, then runs the registry section, as the two steps of the transition system. |
| OperationRegistry.OperationTaskRegistry.ShutdownAndClear | native/src/operation_tasks.rs:239-257 | An uninterrupted shutdown gives every registered operation an outcome, aborts those with a handle and empties the registry. |
| Retention.RetainedStore.Insert | native/src/retention.rs:143-230 | Either fails and leaves the records alone, with the error of the first failing check, or removes the due records, then the least oldest-first run of the class, then the least oldest-first run of all, and appends the candidate. |
| Retention.RetainedStore.Expire | native/src/retention.rs:113-125 | A record no younger than its time to live leaves, returned in order, and every other stays, in order; cached bytes stay the true sum. |
| Retention.DueFrom | native/src/retention.rs:118 | A record is due at every instant from its creation plus its time to live on, and at none before. |
| Retention.RetainedStore.RemoveAt | native/src/retention.rs:241-253 | Removes one record and subtracts its bytes without underflow. |
| Retention.RetainedStore.Get | native/src/retention.rs:127-136 | Finds the first record of a key, and nothing only if there is none. |
| Retention.RetainedStore.ClassUsage | native/src/retention.rs:232-239 | Counts and sums the records of a class; the sum never exceeds the cached total. |
| Retention.RetainedStore.MakeClassRoom | native/src/retention.rs:203-213 | The class loop removes the shortest oldest-first run that makes the class fit; its unreachable arm is never taken. |
| Retention.RetainedStore.MakeRoom | native/src/retention.rs:215-218 | The aggregate loop removes the shortest oldest-first run that frees the room. |
| Retention.InsertConserves | native/src/retention.rs:202-230 | Old records and the candidate are together exactly the records kept and those returned as removed. |
| Retention.InsertMeetsLimits | native/src/retention.rs:202-230 | After an insert class count, class bytes and fixed-plus-stored bytes are within their limits and no kept record is due. |
| Retention.InsertIsDetermined | native/src/retention.rs:202-218 | The specification leaves no choice: kept and removed records are determined by the inputs. |
| Retention.RefusedIff | native/src/retention.rs:156-200 | An insert is refused exactly for a taken key, a policy without room, a record too large for its class or for an empty store, or sums that do not fit. |
| Baselines.Validate | native/src/browser_snapshot.rs:254-391 | The scanning validator accepts exactly the baselines that satisfy the declarative form: identities unique across kinds, indexes 0 to n-1 in each window, each group one stretch of one window, openers known, optional fields as the support flags say. |
| Baselines.CheckStrip | native/src/browser_snapshot.rs:326-358 | One window's scan accepts exactly if its positions are exact and none of its groups is split. |
| Baselines.NamesApart | native/src/browser_snapshot.rs:261-324 | In an accepted baseline a key names one object of whatever kind, an id one object of its kind, and a strip position one tab. |
| Snapshots.LookupsInBounds | native/src/browser_snapshot.rs:823-826 | After acceptance every tab finds itself, its window and its group by key, the group in the same window. |
| Snapshots.MatchedAreSelected | native/src/browser_snapshot.rs:792-832 | The matched tabs are exactly those selected, each once, in strict order: focused windows, window id, index. |
| Snapshots.GroupRun | native/src/browser_snapshot.rs:330-358 | Filtering and sorting never split a group: between two matched tabs of a group there are only its tabs. |
| References.MatchedMeansWanted | native/src/references.rs:111-155 | Matching fails exactly if a requested reference is unknown; otherwise a tab is listed exactly if its own, its window's and its group's public references are those asked for and its flags and text match. |
| References.MatchTabs | native/src/browser_snapshot.rs:766-833 | Resolves the targets in order, fails with NotFound on an unknown reference, and returns the sorted matches otherwise. |
| Hierarchy.RegroupFlattens | native/src/browser_snapshot.rs:963-1048 | Grouping a flat list into windows and groups and flattening it again loses and reorders nothing. |
| Hierarchy.HierarchyUnique | native/src/browser_snapshot.rs:963-1048 | Two hierarchies without empty or adjacent equal nodes that flatten to the same list are equal. |
| SnapshotPages.WindowCounts | native/src/browser_snapshot.rs:967-990 | Comparing the two counts of a window says whether a matched tab of it lies on another page. |
| SnapshotPages.GroupCounts | native/src/browser_snapshot.rs:1016-1039 | The same for the two counts of a group. |
| SnapshotRenderer.RenderPage | native/src/browser_snapshot.rs:930-1072 | The rendering loop yields exactly the page of the tabs from an offset on, regrouped, or the size refusal; no missing-reference or hierarchy error can occur. |
| SnapshotRenderer.PrepareCursors | native/src/browser_snapshot.rs:888-896 | Exactly the starts of later pages get a cursor, the two tables are inverse, and the number issued is the pre-checked one. |
| SnapshotTheorems.PageHierarchy | native/src/browser_snapshot.rs:963-1048 | On every page each window and each group heads exactly one node, flattening gives the page's tabs in order, and no other canonical hierarchy does. |
| SnapshotTheorems.PartialTellsTheTruth | native/src/browser_snapshot.rs:964-1044 | Every header on a page is that of a real window or group, marked partial exactly if a matched tab of it lies on another page. |
| SnapshotTheorems.DetailLevels | native/src/browser_snapshot.rs:1074-1121 | Full detail shows every recorded field, compact detail only the identifying ones and a true `frozen`; empty texts are never shown. |
| SnapshotTheorems.CursorChainPartitions | native/src/browser_snapshot.rs:888-1066 | Following nextCursor from page 0 lists every matched tab exactly once, in sorted order, and ends after one page more than there are cursors; all pages but the last are full, and each gives the number of tabs the chain lists. |
| SnapshotTheorems.NextPage | native/src/browser_snapshot.rs:1050-1054 | A page start has a next cursor exactly if tabs remain, and that cursor is retained for the offset where the page ended. |
| SnapshotCounts.CountsAgreeWithPage | native/src/browser_snapshot.rs:835-856 | The counts are those a reader would find on a page that holds every match. |
| References.ReconcileKind | native/src/runtime.rs:272-321 | Fails exactly if a surviving key changed its Chrome id; otherwise keeps the references of surviving keys, drops the others and issues distinct new ones. |
| References.Reconcile | native/src/runtime.rs:259-295 | The same for windows, groups and tabs together. |
| References.ReconciledCovers | native/src/runtime.rs:290-330 | After reconciliation every object of the baseline has a reference and no two objects of a kind share one. |
| BrokerRuntimes.BuiltIsOk | native/src/browser_snapshot.rs:664-688 | What validation, reconciliation and matching leave is a snapshot the renderer can be trusted with, whatever the filter. |
| BrokerRuntimes.BrokerRuntime.CommitCapture | native/src/browser_snapshot.rs:609-717 | Performs one capture as the step the histories are made of: nothing but names used up by a failure, revision and fingerprint by counts, and references, bytes, snapshot, revision and fingerprint together by a page. |
| CaptureTheorems.CaptureSucceeds | native/src/browser_snapshot.rs:609-717 | Over every history a capture succeeds only if its baseline is valid, of the connected browser and its capabilities, newer than all captured on the connection or equal to the latest, and with no key on another id; and it succeeds if besides its targets are known and everything is within its limit. |
| CaptureTheorems.RevisionsAscend | native/src/browser_snapshot.rs:631-645 | The revisions of the captures that succeed on one connection never go down, and equal revisions mean equal models. |
| CaptureTheorems.RefusalErrors | native/src/browser_snapshot.rs:600-665 | Which error a capture gets for its size, an invalid or stale baseline, a missing or other browser, a missing capability or a reused key. |
| CaptureResults.CapturedPage | native/src/browser_snapshot.rs:680-717 | A page capture answers with the first page of exactly the tabs wanted, in the detail and limit asked for or compact and 100, and retains that snapshot as taken at that moment. |
| CaptureResults.CapturedCounts | native/src/browser_snapshot.rs:675-682 | A counts capture counts exactly the tabs wanted and keeps neither references nor a snapshot. |
| CaptureResults.FeaturesAsNegotiated | native/src/browser_snapshot.rs:646-665 | A captured model has revision at least 1 and shows `frozen` and `shared` exactly if they were negotiated with the browser it is of. |
| CaptureResults.WhatEventsLeaveAlone | native/src/runtime.rs:114-172 | A failed capture changes nothing, counts change revision and fingerprint alone, a change of capabilities only these, reading a cursor only lets expired snapshots go, and a connect or clear leaves nothing. |
| CaptureResults.CapturedCursorLives | native/src/browser_snapshot.rs:898-921 | While its snapshot is retained, the next cursor of a page captured at t is honoured at every time before t + 120 s and expired at every time from then on. |
| CaptureResults.ConnectionsAreApart | native/src/runtime.rs:114-172 | After a connect or clear no earlier reference is ever known again and every earlier cursor is expired. |
| CaptureResults.CapabilitiesAreNewest | native/src/runtime.rs:137-164 | While a connection lasts the capabilities in force are those of the highest revision accepted, and a change is accepted exactly if it is for this browser, implemented and above all revisions before. |
| BrokerRuntimes.CandidateFits | native/src/runtime.rs:340-369 | Retaining fails only because references and snapshot exceed 32 MiB, never by a duplicate key or overflow. |
| BrokerRuntimes.BrokerRuntime.ContinueSnapshot | native/src/browser_snapshot.rs:898-921 | Answers from the one live record that holds the cursor, or says expired if there is none; the later lookups by handle cannot fail. |
| BrokerRuntimes.BrokerRuntime.ApplyCapabilities | native/src/runtime.rs:137-164 | Capabilities change only for the connected browser and only to a higher revision; nothing retained changes. |
| BrokerRuntimes.BrokerRuntime.Connect | native/src/runtime.rs:114-135 | A new connection drops references, snapshots, revision and fingerprint. |
| BrokerRuntimes.BrokerRuntime.Clear | native/src/runtime.rs:166-172 | Clearing drops the connection and everything retained for it. |
| RuntimeTheorems.HistoryStaysBounded | native/src/runtime.rs:25-27 | In every history references plus retained bytes stay within 32 MiB, snapshots within 16, and snapshots exist only for the connected browser. |
| RuntimeTheorems.ReferenceIdentity | native/src/runtime.rs:258-330 | Over every history a public reference denotes one incarnation key and one Chrome id. |
| RuntimeTheorems.CommittedKeepsReferences | native/src/runtime.rs:276-289 | A committed capture keeps the references of keys still present and holds exactly the keys of its baseline. |
| RuntimeTheorems.DroppedNeverReissued | native/src/runtime.rs:276-321 | A reference once dropped is never issued again. |
| RuntimeTheorems.ReplayIsImmutable | native/src/browser_snapshot.rs:898-921 | All honoured reads of one cursor give the same result, whatever captures, connections and capability changes lie between. |
| RuntimeTheorems.CursorLifetime | native/src/browser_snapshot.rs:898-921 | A cursor is honoured exactly while its snapshot is retained and less than 120 s old; then a browser is connected. |
| RuntimeTheorems.EvictsOldestFirst | native/src/runtime.rs:340-369 | A capture keeps exactly those live snapshots that fit, together with all younger ones, the new one and the references, into 16 records and 32 MiB. |
| RuntimeTheorems.RecordLeaves | native/src/runtime.rs:249-256 | A snapshot leaves only by connect, clear, coming due, or because a committed capture found it not to fit together with all younger live ones, the new snapshot and the new references. |
| RequestLifecycles.RequestLifecycle.Register | native/src/request_lifecycle.rs:56-75 | Registers a new id as queued and refuses an id that is active or remembered, changing nothing. |
| RequestLifecycles.RequestLifecycle.BeginDispatch | native/src/request_lifecycle.rs:80-90 | Claims a frame exactly if its request is active and queued. |
| RequestLifecycles.RequestLifecycle.MarkDispatched | native/src/request_lifecycle.rs:92-103 | Moves a claimed request on, active or already ended, and touches nothing else. |
| RequestLifecycles.RequestLifecycle.TakeResponse | native/src/request_lifecycle.rs:105-132 | The first response gets the waiter and ends the request; a late one only learns the method; an unknown one nothing. |
| RequestLifecycles.RequestLifecycle.Finish | native/src/request_lifecycle.rs:134-151 | Ends an active request with its phase kept; a request that has ended is left alone. |
| RequestLifecycles.RequestLifecycle.InsertTerminal | native/src/request_lifecycle.rs:157-165 | The eviction loop ends and leaves the newest 128 ended ids, the map and the queue holding the same ones. |
| RequestLifecycles.RequestWaiterGuard.Drop | native/src/request_lifecycle.rs:198-205 | Dropping the guard abandons a request that is still active, unless it had timed out. |
| LifecycleTheorems.HistoryKeepsOk | native/src/request_lifecycle.rs:56-165 | In every history active and ended ids are disjoint, the queue is the newest 128 of the ids ended since the last clear in that order, and every waiter registered is pending, consumed or dropped, and only one of these. |
| LifecycleTheorems.WaitersAddUp | native/src/request_lifecycle.rs:56-165 | Waiters registered equal those pending, consumed and dropped together. |
| LifecycleTheorems.WaiterConsumedOnce | native/src/request_lifecycle.rs:105-121 | No waiter answers two responses. |
| LifecycleTheorems.ResponseMatchesRegistration | native/src/request_lifecycle.rs:56-121 | Whatever happens to other requests between, the first response to a pending request gets the method and the waiter it was registered with. |
| LifecycleTheorems.EndIsRemembered | native/src/request_lifecycle.rs:105-151 | A request that ends is remembered with its method, phase and outcome, and a late response learns the method and gets no waiter. |
| LifecycleTheorems.ClaimedAtMostOnce | native/src/request_lifecycle.rs:80-90 | Between two claims of an id lies a new registration of it. |
| LifecycleTheorems.NeverWrittenAfterEnd | native/src/request_lifecycle.rs:77-90 | A request that was answered, timed out or abandoned is not claimed afterwards without a new registration. |
| LifecycleTheorems.PhaseNeverRegresses | native/src/request_lifecycle.rs:92-151 | Within one registration the phase never goes back, the method and waiter stay, and the outcome that came first stays. |
| LifecycleTheorems.PhaseAfterCalls | native/src/request_lifecycle.rs:80-103 | A claimed request is Dispatching and a marked one Dispatched, whether it has ended meanwhile or not; marking any other changes nothing. |
| Decimal.NumeralLengthMonotone | native/src/broker.rs:418-427 | A smaller number never has a longer decimal numeral. |
| Decimal.NumeralStandsFor | native/src/broker.rs:418-427 | A numeral is not empty, has no leading zero but for 0, and stands for its number. |
| Broker.PreflightProtectsWriter | native/src/broker.rs:369-427 | A request that passed the size preflight never makes the writer's serialization fail, since its deadline only shrinks. |
| Broker.DeadlineIsLongest | native/src/broker.rs:369-383 | The deadline on the wire is the greatest that is at most 29000 ms and ends a second before the broker's; it is positive exactly if a second and a millisecond are left. |
| Broker.PrepareRequest | native/src/broker.rs:430-499 | Succeeds exactly if Chrome is ready, the permit came within 29 s, the frame is at most 768 KiB and the id is new; then the request is registered and preflighted; each refusal has its cause and changes nothing. |
| Broker.WriteOne | native/src/broker.rs:355-414 | A request is dispatched exactly if Chrome is ready, a second and a millisecond are left and its frame is unclaimed, with the longest deadline there is and at most 768 KiB; it expires exactly if less is left; serialization cannot fail. |
| Broker.NativeWriter | native/src/broker.rs:349-416 | The writer's loop never fails, writes in queue order with deadlines in time, no request id twice and every payload. |
| WriterInterleaving.WriterNeverFails | native/src/broker.rs:349-416 | With registrations, responses, timeouts, cancellations and clears between any two of its lines, the writer never fails to serialize, every frame written is at most 768 KiB, and its deadline is the longest up to 29000 ms that ends a second before the caller gives up. |
| WriterInterleaving.ReadyFrameIsWritten | native/src/broker.rs:364-414 | A message taken is dropped exactly if Chrome is not ready or less than a second and a millisecond is left; otherwise, if its id is still queued, it is claimed, written and marked. |
| WriterInterleaving.OneFramePerRegistration | native/src/broker.rs:384-414 | In every such run at most one frame is written for a registration, under the id registered; if no id was registered twice it is the frame registered. |
| WriterInterleaving.EndedIsNeverWritten | native/src/broker.rs:384-387 | In every such run a request that was answered, timed out or given up before its frame was claimed is never written. |
| Discovery.NoLostUpdate | native/src/runtime.rs:185-226 | In every interleaving, while a browser is connected, a registered listener with an old reading has a token, has taken one, or is covered by a publisher or registrar still to notify it. |
| Discovery.SettledListenersAreCurrent | native/src/runtime.rs:200-226 | When no call, token or wake-up is outstanding, every registered listener has read the current discovery. |
| Discovery.StillMeansCurrent | native/src/runtime.rs:185-226 | No notification waits for ever: where publishers, registrars and listeners can all do nothing more by themselves, every registered listener has read the current discovery. |
| Discovery.ClearAloneIsSilent | native/src/runtime.rs:166-172 | For an idle, up-to-date listener a replacement of the discovery is announced if and only if it is not a clear. |
| Discovery.DisconnectionIsSilent | native/src/runtime.rs:166-172 | A run after which a listener holds the old tool list and nothing is on its way. |
| Discovery.OnlyDisconnectionsAreMissed | native/src/runtime.rs:114-172 | A listener left with an old reading and nothing pending was left so by a clear with no publication since. |
| Notifications.DiscoveryRuntime.Publish | native/src/runtime.rs:206-226 | A publication left alone is a run of the protocol's steps: it replaces the discovery, drops dead notifiers and leaves a token with every live one listed, keeping tokens already there. |
| Notifications.DiscoveryRuntime.Register | native/src/runtime.rs:185-204 | A registration left alone is a run of the protocol's steps: the notifier is listed once, and has a token if a browser is connected. |
| Notifications.DiscoveryRuntime.Receive | native/src/capabilities.rs:152-176 | A listener wakes exactly if a token is there, and takes it, as the step of the protocol. |
| BrowserModels.AssignKeysAssigns | extension/browser-model.js:97-129 | Ids present keep an unforced key, all other keys are distinct new names, other ids lose theirs, and the forced ids seen are cleared. |
| BrowserModelObject.BrowserModel.Normalize | extension/browser-model.js:118-181 | Prunes, assigns keys to windows, groups and tabs, and maps the source with those keys. |
| BrowserModelObject.BrowserModel.Apply | extension/browser-model.js:183-200 | Replaces the records and advances the revision exactly if they differ; support flags are only ever gained. |
| BrowserModelObject.BrowserModel.ResumeReconcile | extension/browser-model.js:206-214 | Applies the read exactly if its generation is still current, and loops again otherwise. |
| BrowserModelObject.BrowserModel.MarkCreated | extension/browser-model.js:56-62 | Forgets the id's key, forces a new one, counts the event and starts a read if none is under way. |
| BrowserModelTheorems.RecordsResolve | extension/browser-model.js:130-178 | Every applied read keeps Chrome's order and fields; each tab's own, window, group and opener key is that of the record with the id Chrome gave, or absent if there is none, and `frozen` is shown exactly if supported. |
| BrowserModelTheorems.GroupRecordsResolve | extension/browser-model.js:137-147 | The same for a group's own key, its window key, `collapsed` and `shared`. |
| BrowserModelTheorems.WindowRecordsResolve | extension/browser-model.js:130-136 | The same for a window's own key and `focused`. |
| BrowserModelTheorems.FlipChangesRecords | extension/browser-model.js:183-195 | A read that flips a support flag always changes the records. |
| BrowserModelTheorems.RevisionDeterminesContent | extension/browser-model.js:183-233 | Within an epoch equal revisions mean equal records and equal support flags. |
| BrowserModelTheorems.RevisionCountsChanges | extension/browser-model.js:192-195 | The revision moves by one with every change of the records, and only then. |
| BrowserModelTheorems.SupportedIffSeen | extension/browser-model.js:19-24 | A feature counts as supported exactly if some read applied so far showed its property on some object. |
| BrowserModelTheorems.FingerprintsAgree | native/src/browser_snapshot.rs:639-645 | Two snapshots of equal revision, taken at any states of an epoch, have equal fingerprints. |
| SnapshotAgreement.SameRevisionNeverRejected | native/src/browser_snapshot.rs:639-645 | In every history of the broker whose captures since the last connect or clear report one run of the extension, the same-revision check lets each of them pass. |
| BrowserModelTheorems.KeyNamesOneObject | extension/browser-model.js:97-107 | Over a whole epoch a key names one kind and one Chrome id. |
| BrowserModelTheorems.KeyKeptIffUnbroken | extension/browser-model.js:56-107 | Of any two applied reads that show an object, the second finds it under the same key if and only if no create, remove or replace event named it, and no applied read missed it, in between. |
| BrowserModelTheorems.KeyFreshAfterBreak | extension/browser-model.js:97-129 | After such an event or a read that missed it, an object that is shown again has a key no object ever had before. |
| BrowserModelTheorems.ForcedIdsHaveNoKey | extension/browser-model.js:56-107 | In every reachable state an id in the set of forced ids has no key, so the deletion that set asks for never removes one. |
| BrowserModelTheorems.AppliedReadIsQuiet | extension/browser-model.js:207-213 | A read is applied if and only if no event arrived between its start and the end of the drain. |
| BrowserModelTheorems.SettledIsCurrent | extension/browser-model.js:202-219 | When the loop ends by itself the model reflects a read of the current generation. |
| BrowserModelTheorems.ReadIsStarted | extension/browser-model.js:51-62 | After every event a read is under way, and after every demand too, unless the model is current. |
| BrowserModelTheorems.IdleIsCurrent | extension/browser-model.js:202-219 | When no read is under way the model is current, or a read failed and no event or demand has come since. |
| BrowserModelTheorems.SnapshotIsFresh | extension/browser-model.js:221-233 | A snapshot whose awaited reconciliation ended without failure, with no event since, shows the content of a read begun after the last event. |
| TrajectoryMeasure.NativeSnapshotBaseline | tools/trajectory-measure/src/main.rs:1474-1576 | The nested loops number windows, groups and tabs from one and count each strip from zero, in page order. |
| TrajectoryLayout.PlaceAllMirrors | tools/trajectory-measure/src/main.rs:1481-1562 | The numbering lists the page's tabs in order under their windows and groups, each group in one stretch. |
| TrajectoryBaseline.NativeIsValid | tools/trajectory-measure/src/main.rs:1474-1619 | The baseline made from a compact page passes the broker's validation. |
| TrajectoryBaseline.NativeInOrder | tools/trajectory-measure/src/main.rs:1481-1562 | If its focused windows come first, its tabs are listed in the order in which a snapshot lists them. |
| TrajectoryRoundTrip.RoundTrip | tools/trajectory-measure/src/main.rs:1474-1619 | From a complete compact page to a baseline and, unfiltered, back to a page: same nesting, order, compact fields, time of capture and number of tabs, up to fresh references. |
| TrajectoryRoundTrip.FullFieldsReturn | tools/trajectory-measure/src/main.rs:1484-1619 | In full detail the baseline made from a page gives back every window, group and tab field that the tool carries over. |

## Left out

- OperationRegistry.OperationTaskRegistry.ShutdownAndClear: states what a shutdown nobody interrupts leaves; interleaved shutdowns are the steps of the transition system.
- Broker.PrepareRequest: ends at the queue; waiting for the writer's outcome and the response, and the timeout around it, are not modelled.
- Broker.WriteOne: claim, write and mark are one uninterrupted round here; `WriterInterleaving` separates them.
- Broker.NativeWriter: other calls into the lifecycle between two messages are not interleaved here; `WriterInterleaving` covers them.
- BrowserModelObject.BrowserModel.Apply: the listeners called on a support change are not modelled, only when they are called.
- BrowserModelTheorems.FingerprintsAgree: the decoding of a snapshot is a parameter that may depend on revision, support, records and time only, and on time only through `capturedAt`.
- TrajectoryMeasure.NativeSnapshotBaseline: ids beyond 32 bits, which the broker could not decode, are not modelled.
- Discovery.NoLostUpdate: the interleaved publishers, registrars and listeners are steps on values; `Notifications` has the fields and the calls in place, each uninterrupted.
- Discovery.DisconnectionIsSilent: clear is a step that may come at any time here, while the program takes it only at the broker's shutdown.
- BrokerRuntimes.BrokerRuntime.Connect: the discovery and the notification that follows are modelled in `Notifications` and `Discovery`, not in this class.
- BrokerRuntimes.BrokerRuntime.Clear: the discovery is modelled in `Notifications` and `Discovery`, and the shutdown of operations in `OperationTasks`, not in this class.
- The capability check before a capture or a continue, which is a lock section of its own.
- A spawn that panics outside an async runtime after admission.
- Poisoned locks, and tokio's channels beyond the cell, token and flag they are modelled as.
- JSON: sizes, parsing, null checks and number formats other than the deadline's numeral.
- JavaScript values: ids that are not integers (except in create and remove events), and revisions beyond 2^53.
- Query text matching, titles, URLs and favicons beyond being copied.
- A replace event with ids that are not integers.
- stdin and stdout framing, HTTP, authorization, MCP routing, schemas, installation, `doctor`, token files.
- Field validation of messages, error texts, capability conjunctions and implementation negotiation: true but easy.
- The background controller's reconnection, the popup, the `tabs.list` path.
- The measuring tool's token counts, reports and corpus checks.

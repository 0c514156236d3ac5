# Verified model of the workload governor

A Dafny model of the WorkloadGovernor smart contract and of the off-chain services around it, with
proofs of what they keep over every run.

| file | models |
|---|---|
| `Prelude.dfy` | u32, saturating subtraction, facts about finite sets |
| `Contract.dfy` | the contract as a state machine over typed tables: checks, effects, events, runs |
| `Accounting.dfy` | expiring applications and the counter that summarises them |
| `Hold.dfy` | who can keep lapsed slots charged, and for how long |
| `Assignments.dfy` | assignments, their per-organisation counters, debug builds, the diagnostic |
| `EventLog.dfy` | what the emitted events determine |
| `Projection.dfy` | non-interference between contributors |
| `Caps.dfy` | caps that move under existing counts; the capacity queries |
| `Authority.dfy` | whose signature each kind of change needs |
| `Reach.dfy` | which counts can be reached under which caps |
| `Guards.dfy` | exactly when each call succeeds and what it leaves, off the stored fields; the log decides |
| `Storage.dfy` | the flat two-tier key-value store, its keys and typed wrappers |
| `Governor.dfy` | the entry points over the flat store, in the source's order of checks and writes |
| `Indexer.dfy` | the event indexer with faults, crashes and restarts |
| `IndexedHistory.dfy` | contract, indexer and table end to end |
| `Sync.dfy` | the per-organisation asynchronous queues and the service that owns them |
| `RateLimit.dfy` | the wallet rate limiter and its clean-up job |
| `Headers.dfy` | replies and headers of the wallet limiter, off the requests alone |
| `Fees.dfy` | the fee cushion and the stroop-to-XLM printer |
| `GithubSync.dfy` | the GitHub reconciliation transaction |

## How the contract is modelled

`Contract` splits a call into the first check that fails (`Refusal`) and its effect on four
independent tables (configuration, temporary entries, assignments, log). A run is any sequence of
calls, each with the set of addresses that signed the transaction, and of ledger advances; a
panicking call leaves no trace. Temporary entries carry the last ledger at which they are live, and
entries past it read as absent. `Governor` holds the same calls as methods that read and write the
flat store in the source's order; `HostInvoke` adds the rollback, and each invocation is proved to be
exactly one step of the typed machine. `Run` carries that over any sequence of steps, so every theorem
about runs of the typed machine is a theorem about the flat one.

The host is modelled as follows. `set` on a live temporary entry keeps its deadline, on any other it
creates the entry with the network's minimum lifetime (`MIN_TEMP_TTL`, an arbitrary value of at most
17281 ledgers, which covers the SDK's 16 and mainnet's 17280). `extend_ttl` with threshold and target
T moves the deadline to at least T ledgers from now. Persistent entries never expire. Ledger numbers
do not wrap.

The Rust source uses some names it does not define. The organisation cap range is taken as [1, 20]
from the comment on `set_org_cap`, and the organisation-cap event carries the organisation, the old
and the new cap. That event's topic is taken as `org_cap`; what is proved of it needs only that the
topic is not one the indexer knows. The `g_cap` helpers appear twice with one meaning and are modelled once.

## Where the code differs from its documentation

- The contributor's count is documented as pending applications, and as zero once all entries have
  expired. It is neither: a lapsed application is charged until its owner's counter is removed or
  itself expires (`Accounting.ExactAccounting`, `Accounting.CountIsLiveIffNoneLapsed`). The count can
  exceed the live applications (`Accounting.LapsedApplicationStaysCharged`) and be positive with none
  left (`Accounting.CountWithoutApplications`); `Accounting.CountGoesWrongIff` names the one step that
  breaks the documented reading and exactly when it does, `Accounting.CountComesRightIff` the one that
  restores it.
- The count is documented to lie in [0, 15] and the organisation count in [0, 4]. The caps can be
  moved: under a largest cap p so far, the reachable counts are exactly 0 to p, with p from 15 to 100
  and from 4 to 20 (`Reach.GlobalCountRange`, `Reach.OrgCountRange`), and a count can go above 15 or 4
  exactly when it already is above or the cap in force is (`Reach.GlobalCountCanPass`,
  `Reach.OrgCountCanPass`).
- `admin` is documented as having to match the stored admin when maintainers are registered and
  deregistered and in the emergency cap change. The code only requires the stored admin's signature,
  and logs the argument where it logs an admin (`Authority.AdminArgumentUnchecked`). The argument
  decides nothing (`Authority.AdminArgumentIsIgnored`), and the log names the stored admin if and only
  if the caller passed it (`Authority.LoggedAdminIsTheArgument`).
- The indexer lists `maintainer_registered` among its event types. The contract emits `maint_reg`, so
  registrations are never stored (`IndexedHistory.WorkflowEventsAreIndexed`).
- The event table is documented to hold every event once. Events whose ids have fewer than three
  parts share the index 0, so two of one transaction collide and the second is lost
  (`Indexer.ShortIdsCollide`); nothing is lost if and only if the parseable events' keys are distinct
  (`Indexer.NothingLostIff`). A table with losses can show an assignment that has ended
  (`IndexedHistory.MisledOnARun`); `IndexedHistory.TableIsRightIff` says exactly when it is right.
- The wallet limiter is documented as a sliding window of 10 requests a minute. It uses fixed
  windows opened by the first request, so 19 can be admitted within a minute
  (`RateLimit.NineteenInAMinute`). The minute from a given time on sees at most 10, whatever comes, if
  and only if no window is in force at its start or that window is already full
  (`RateLimit.TenPerMinuteExactly`).
- The GitHub sync is documented to leave exactly the fetched issues open. That holds if and only if no
  fetched id is stored under another repository (`GithubSync.SyncReconciles`).

## Model

| member | source | states |
|---|---|---|
| Accounting.AdmitSound | src/lib.rs:277-280 | applying makes the issue live for a full TTL, adds exactly it to the contributor's live applications, raises the count by one, and keeps the counter's deadline no earlier than any application's |
| Accounting.TakeSound | src/lib.rs:321-328 | withdrawing or assigning a live application removes exactly it and takes exactly one off the count; the counter entry goes precisely when the count reaches zero |
| Accounting.ProlongSound | src/lib.rs:691-699 | extending a live application moves its deadline and its counter's, and changes neither the count nor the set of live applications |
| Accounting.StepAccounting | src/lib.rs:267-331 | every step keeps the temporary entries sound, and moves the count against the live applications by what was admitted, consumed and newly lapsed |
| Accounting.AlwaysSound | src/storage.rs:142-165 | in every reachable state live applications never exceed the count, each is outlived by its counter, a live counter is at least one, and no deadline is more than 17280 ledgers away |
| Accounting.ExactAccounting | src/lib.rs:267-331 | over all runs, the count is the applications admitted minus those consumed since the counter entry was created, and equals live applications plus those that lapsed since then |
| Accounting.CounterOutlivesApplications | src/lib.rs:279-280 | every live application has a live counter entry with a deadline at least as late |
| Accounting.ConsumeIsExact | src/lib.rs:395-402 | the saturating subtraction never saturates in a reachable state, and the counter is removed only when no live application is left |
| Accounting.CountIsLiveIffNoneLapsed | src/lib.rs:705-727 | the count is the number of live applications if and only if none has lapsed since the counter was created |
| Accounting.LapsedApplicationStaysCharged | src/lib.rs:705-727 | a run after which the count is two and one application is live |
| Accounting.CountWithoutApplications | src/lib.rs:705-727 | a run after which the count is one and no application is live |
| Accounting.CountGoesWrongIff | src/lib.rs:705-727 | from a reachable state where the count is the number of live applications, a step breaks that if and only if ledgers pass so that some live application's deadline is behind them and the counter's is not |
| Accounting.CountComesRightIff | src/storage.rs:142-165 | from a reachable state where the count is not the number of live applications, a step makes it so if and only if ledgers pass beyond the counter's deadline |
| Accounting.Recovery | src/storage.rs:160-165 | more than 17280 ledgers without a successful apply or extend for a contributor leave count zero and no live application |
| Accounting.KeepAlive | src/storage.rs:224-234 | an application extended at gaps of at most 17280 ledgers stays live, with a positive count, until withdrawn or assigned |
| Accounting.DeadlineHolds | src/lib.rs:691-699 | no call that does not consume an application ever brings its deadline forward |
| Hold.AnyoneCanHold | src/lib.rs:691-699 | from any reachable state with a live application, ledgers passing and unsigned extensions alone keep it live and its contributor's count the same for any number of ledgers, and bring nothing lapsed back |
| Hold.HeldForeverIff | src/lib.rs:691-699 | a positive count can be kept for every number of ledgers without its contributor's signature if and only if some application of the contributor is live |
| Assignments.CounterEqualsReality | src/lib.rs:403-404 | over all runs the organisation counter is the number of assignment sentinels, and is stored only while positive |
| Assignments.ReleaseTallied | src/lib.rs:463-470 | ending an assignment keeps counter and sentinels in agreement |
| Assignments.NoInconsistency | src/lib.rs:405-413 | no reachable call, in either build, fails with the counter inconsistency, and debug assertions change no outcome |
| Assignments.BuildsAgree | src/lib.rs:456-462 | a debug and a release build reach the same state on every run |
| Assignments.CompleteMirrorsRevoke | src/lib.rs:497-525 | in reachable states complete and revoke fail with the same error or succeed into states that differ only in the emitted event |
| Assignments.DiagnosticSilent | src/lib.rs:531-552 | on reachable states the diagnostic reports nothing, whatever it is asked to probe |
| Assignments.ReportsOrphansInOrder | src/lib.rs:560-584 | on any state, corrupt ones included, the report lists the probed positions with counter zero and a probed assigned issue, each once, in the order of the probe |
| EventLog.LogReplaysToState | src/events.rs:64-198 | the log determines the admin, both kinds of cap, the maintainers, the recorded applications and the assignments by the latest event about each, and every organisation counter as a balance of events |
| EventLog.EveryEventLawful | src/lib.rs:372-416 | every logged event was lawful: assigned, completed and revoked name a then-registered maintainer, each assignment consumes its own application below the cap in force, logged old caps are right, and initialisation comes first and once |
| Guards.LawfulCallsSucceed | src/lib.rs:59-633 | the converse: in every reachable state a call that is signed, in time and whose event would be lawful on the log so far is accepted and logs just that event; any other call leaves no trace |
| Guards.InitializeExactly | src/lib.rs:59-68 | initialising succeeds if and only if it has not happened and the new admin signs, and leaves the admin, cap 15 and nothing else; it fails with which error |
| Guards.MaintainersExactly | src/lib.rs:88-139 | registering succeeds if and only if the stored admin signs, deregistering if the pair is also registered; effect and error of each |
| Guards.GlobalCapExactly | src/lib.rs:169-228 | either cap call succeeds if and only if the stored admin signs and the cap is at most 100, stores just that cap, and the emergency one logs the cap it replaces; error otherwise |
| Guards.OrgCapExactly | src/lib.rs:620-633 | setting an organisation cap succeeds if and only if a registered maintainer signs and it lies in [1, 20], and stores just that; error otherwise |
| Guards.ApplyExactly | src/lib.rs:267-283 | in every reachable state an application succeeds if and only if the contributor signs, the stored count is below the stored cap and the issue has no live application; entry and counter then live 17280 ledgers and the count is one more; error otherwise |
| Guards.WithdrawExactly | src/lib.rs:315-331 | a withdrawal succeeds if and only if the contributor signs and the application is live; entry and one slot go, the counter keeps its deadline; error otherwise |
| Guards.ExtendExactly | src/lib.rs:691-699 | in every reachable state an extension succeeds if and only if the application is live, whoever signs, and moves both deadlines to 17280 ledgers from now |
| Guards.AssignExactly | src/lib.rs:372-416 | in every reachable state and either build an assignment succeeds if and only if a registered maintainer signs, the application is live, the contributor holds fewer issues of the organisation than its cap and not this one; effect and error |
| Guards.EndExactly | src/lib.rs:439-525 | in every reachable state and either build completing and revoking succeed if and only if a registered maintainer signs and the issue is assigned; sentinel and one of the counter go; error otherwise |
| Guards.NewCapGoverns | src/lib.rs:830-846 | after a cap call with any cap up to 100 the capacity query answers by that cap |
| Guards.NewOrgCapGoverns | src/lib.rs:806-828 | after an organisation cap call with any cap from 1 to 20 the capacity query answers by that cap and the issues held |
| Projection.OthersAreInvisible | src/storage.rs:137-185 | deleting all steps of other contributors from any run changes no outcome of the remaining steps and nothing of this contributor's counters, applications, deadlines, assignments and events |
| Projection.ForeignStepInvisible | src/lib.rs:267-283 | a step on one contributor leaves everything another one can see as it was |
| Projection.KeptStepAgrees | src/storage.rs:317-370 | a step has the same outcome, and the same effect for a contributor, in any two states that agree on that contributor |
| Caps.GlobalCountRisesBelowCap | src/lib.rs:270-277 | the global count rises by one at a time and only from below the cap in force |
| Caps.OrgCountRisesBelowCap | src/lib.rs:387-403 | the organisation count rises by one at a time and only from below the cap in force |
| Caps.CountsWithinPeakCaps | src/lib.rs:169-228 | each count stays within the largest cap there has been: at most 100 globally, at most 20 per organisation |
| Caps.DefaultOrgCap | src/storage.rs:428-434 | an organisation whose cap was never set has had no cap but 4 |
| Caps.NoRiseWhileAtCap | src/lib.rs:183-186 | while a count is at or above the cap in force it cannot rise |
| Caps.GlobalCapacityIsExact | src/lib.rs:830-846 | if the global capacity is k, then of any applications to distinct issues not yet applied for the first k succeed and all others fail with the limit error |
| Caps.OrgCapacityIsExact | src/lib.rs:806-828 | the same for assigning distinct applied and unassigned issues of one organisation |
| Caps.NoOrgRiseWhileAtCap | src/lib.rs:387-390 | while an organisation count is at or above the cap in force it cannot rise |
| Authority.ConfigurationAuthority | src/lib.rs:88-139 | the admin is set once and by its own signature; global cap and maintainers move only by the stored admin's signature, an organisation's cap only by one of its maintainers' |
| Authority.ApplicationAuthority | src/lib.rs:267-276 | an application appears and a count rises only by the contributor's signature |
| Authority.RemovalAuthority | src/lib.rs:315-386 | outside expiry an application goes only by its contributor's signature or that of a maintainer of its organisation |
| Authority.AssignmentAuthority | src/lib.rs:372-525 | assignments and their counter change only by a signing maintainer of the organisation |
| Authority.NothingBeforeInitialize | src/storage.rs:123-128 | until the contract is initialised every table and the log stay empty |
| Authority.ApplicationTraced | src/lib.rs:267-283 | every recorded application goes back to an earlier successful step signed by its contributor |
| Authority.AssignmentTraced | src/lib.rs:372-416 | every assignment goes back to a step signed by a maintainer registered for the organisation at that step, and before it to an application its contributor signed |
| Authority.AdminArgumentIsIgnored | src/lib.rs:88-139 | the `admin` argument of the admin calls changes neither the error nor any table |
| Authority.LoggedAdminIsTheArgument | src/lib.rs:169-228 | the logged admin is the stored one if and only if the argument is |
| Authority.AdminArgumentUnchecked | src/lib.rs:77-228 | in a reachable state registering, deregistering and the emergency cap change each succeed under the stored admin's signature with any other `admin` argument, and the latter two log that argument |
| Authority.AdminIsForever | src/lib.rs:59-68 | once set, the admin never changes |
| Reach.GlobalCountRange | src/lib.rs:715-727 | with p the largest global cap so far, the counts a contributor can reach are exactly 0 to p, and p is exactly 15 to 100 |
| Reach.GlobalCountCanPass | src/lib.rs:715-727 | from any reachable state some continuation without a global cap call takes the count above v if and only if it is above v already or the cap in force is |
| Reach.OrgCountRange | src/lib.rs:740-752 | with p the largest cap the organisation has had, the reachable organisation counts are exactly 0 to p, and p is exactly 4 to 20 |
| Reach.OrgCountCanPass | src/lib.rs:740-752 | the same for an organisation count and the organisation's cap |
| Reach.RaiseGlobal | src/lib.rs:267-283 | every count from the present one to the cap in force can be reached without touching the cap |
| Reach.RaiseOrg | src/lib.rs:372-416 | every organisation count from the present one to the cap in force can be reached without touching that cap |
| Storage.Encode | src/storage.rs:84-86 | each key builder's value reads back as its builder and arguments |
| Storage.KeysNeverCollide | src/storage.rs:9-50 | two keys are equal only if they come from the same builder on the same arguments, the scalar cap and admin keys included |
| Storage.ViewIsDetermined | src/storage.rs:137-440 | a flat store encodes at most one typed state |
| Storage.Env.constructor | src/storage.rs:3-7 | an empty store encodes the initial state |
| Storage.Env.TempSet | src/storage.rs:148-151 | a live entry keeps its deadline, any other gets the minimum lifetime |
| Storage.Env.TempExtendTtl | src/storage.rs:160-165 | the deadline becomes the later of the old one and now plus the target; other entries are untouched |
| Storage.Env.GetAdmin | src/storage.rs:269-271 | reads the typed state's admin off the flat store |
| Storage.Env.GetGlobalCap | src/storage.rs:90-95 | reads the cap in force, 15 when none is stored |
| Storage.Env.GetOrgCap | src/storage.rs:428-434 | reads the organisation's cap, 4 when none is stored |
| Storage.Env.IsMaintainer | src/storage.rs:290-296 | tells exactly the registered pairs |
| Storage.Env.GetGlobalAppCount | src/storage.rs:142-145 | reads the live counter, 0 when absent or expired |
| Storage.Env.HasAppEntry | src/storage.rs:188-199 | tells exactly the live applications |
| Storage.Env.GetOrgAssignmentCount | src/storage.rs:322-329 | reads the organisation counter, 0 when absent |
| Storage.Env.HasAssignment | src/storage.rs:373-384 | tells exactly the assigned triples |
| Storage.Env.SetAdmin | src/storage.rs:274-276 | changes the admin and nothing else |
| Storage.Env.SetGlobalCapEntry | src/storage.rs:98-100 | changes the global cap and nothing else |
| Storage.Env.SetOrgCapEntry | src/storage.rs:437-440 | changes one organisation's cap and nothing else |
| Storage.Env.SetMaintainer | src/storage.rs:299-302 | adds one registration and changes nothing else |
| Storage.Env.RemoveMaintainer | src/storage.rs:305-308 | removes one registration and changes nothing else |
| Storage.Env.SetGlobalAppCount | src/storage.rs:148-151 | changes one contributor's counter and nothing else |
| Storage.Env.RemoveGlobalAppCount | src/storage.rs:154-157 | removes one contributor's counter and nothing else |
| Storage.Env.ExtendGlobalAppCountTtl | src/storage.rs:160-165 | moves one counter's deadline and nothing else |
| Storage.Env.SetAppEntry | src/storage.rs:202-210 | records one application and changes nothing else |
| Storage.Env.RemoveAppEntry | src/storage.rs:213-221 | removes one application and nothing else |
| Storage.Env.ExtendAppEntryTtl | src/storage.rs:224-234 | moves one application's deadline and nothing else |
| Storage.Env.SetOrgAssignmentCount | src/storage.rs:332-340 | changes one organisation counter and nothing else |
| Storage.Env.RemoveOrgAssignmentCount | src/storage.rs:343-350 | removes one organisation counter and nothing else |
| Storage.Env.SetAssignment | src/storage.rs:387-395 | records one assignment and changes nothing else |
| Storage.Env.RemoveAssignment | src/storage.rs:398-406 | removes one assignment and nothing else |
| Storage.Env.Publish | src/events.rs:64-69 | appends one event to the log |
| Governor.InitializeContract | src/lib.rs:59-68 | refines the typed initialize: same error or same state |
| Governor.Register | src/lib.rs:88-95 | refines the typed maintainer registration |
| Governor.Deregister | src/lib.rs:129-139 | refines the typed maintainer deregistration |
| Governor.ChangeGlobalCap | src/lib.rs:169-179 | refines the typed cap change |
| Governor.EmergencyChangeGlobalCap | src/lib.rs:217-228 | refines the typed emergency cap change, the old cap logged |
| Governor.ChangeOrgCap | src/lib.rs:620-633 | refines the typed organisation cap change |
| Governor.Apply | src/lib.rs:267-283 | refines the typed application; no overflow, and neither deadline extension can trap |
| Governor.TakeOne | src/lib.rs:395-402 | the decrement shared by withdraw and assign refines the typed one |
| Governor.BookOne | src/lib.rs:403-404 | one more on the organisation counter and the sentinel, and nothing else |
| Governor.StoreOrgCount | src/lib.rs:466-470 | a counter at zero is removed, any other stored, and nothing else changes |
| Governor.Withdraw | src/lib.rs:315-331 | refines the typed withdrawal |
| Governor.Assign | src/lib.rs:372-416 | refines the typed assignment in both builds |
| Governor.Complete | src/lib.rs:439-473 | refines the typed completion in both builds |
| Governor.Revoke | src/lib.rs:497-525 | refines the typed revocation although the sentinel goes before the counter check |
| Governor.Extend | src/lib.rs:691-699 | refines the typed extension |
| Governor.HostInvoke | src/lib.rs:512-516 | one invocation over the flat store is exactly one step of the typed machine, and a failing one leaves both tiers and the log as they were |
| Governor.Run | src/lib.rs:59-699 | any run over the flat store ends in the state of the typed run |
| Governor.CloseLedgers | src/storage.rs:60-62 | passing ledgers write nothing and move the typed machine's clock |
| Governor.GetGlobalApplicationCapacity | src/lib.rs:843-846 | the query over the flat store returns the typed capacity |
| Governor.GetOrgAssignmentCapacity | src/lib.rs:821-828 | the query over the flat store returns the typed capacity |
| Governor.CheckConsistency | src/lib.rs:560-584 | on any state, returns in input order with repeats exactly the pairs with counter zero and a probed assigned issue |
| Indexer.EventIndexer.InitCursor | src/eventIndexer.ts:230-256 | resumes from the highest stored ledger, or from the beginning when there is none or it cannot be read |
| Indexer.EventIndexer.StoreEvent | src/eventIndexer.ts:366-389 | inserts a row if its key is new and says whether it did |
| Indexer.EventIndexer.PollBatch | src/eventIndexer.ts:276-302 | a batch interrupted at any event stores exactly the events before it and leaves the cursor; a completed one advances it |
| Indexer.ParsedFields | src/eventIndexer.ts:321-362 | exactly the contract events with one of six names parse; type, contributor, ledger, transaction hash or id, and the third id part or 0 are those of the raw event |
| Indexer.ParsedData | src/eventIndexer.ts:123-154 | organisation and issue are read from the front of the data list for applied and withdrew, past the maintainer for the others |
| Indexer.BrokenPollStores | src/eventIndexer.ts:263-302 | a poll reads at most 200 events; broken off at one of them it has stored those before it and no others and keeps the cursor |
| Indexer.ResumesAtHighest | src/eventIndexer.ts:230-256 | a readable restart resumes at the highest stored ledger, from the beginning if none is above 0; an unreadable one from the beginning |
| Indexer.StoreOne | src/eventIndexer.ts:280-289 | re-reading a covered event changes nothing, reading the next one adds its row if its key is new |
| Indexer.StepCovers | src/eventIndexer.ts:260-313 | every action leaves the table that of a prefix stored once, no shorter than before, that the cursor has not passed |
| Indexer.ExactlyOnce | src/eventIndexer.ts:226-313 | under any faults, crashes, restarts and arrivals the table is the first row per key of a stream prefix, in order, and the cursor never points past it |
| Indexer.RowsAreFirstPerKey | src/eventIndexer.ts:339-344 | the rows are those of the parseable events that come first with their transaction hash (or id) and third id part (or 0), and no others |
| Indexer.NothingLostIff | src/eventIndexer.ts:366-372 | the table holds every parseable event, each once, if and only if no two share transaction hash (or id) and third id part (or 0) |
| Indexer.ThirdPartsTellApart | src/eventIndexer.ts:340-341 | two parseable events of one transaction with different third id parts are both stored, in order |
| Indexer.ShortIdsCollide | src/eventIndexer.ts:339-344 | of two parseable events of one transaction with ids of fewer than three parts only the first is stored |
| Indexer.PollAdvances | src/eventIndexer.ts:291-293 | a faultless poll moves the cursor past exactly the batch it fetched |
| Indexer.IdleMeansComplete | src/eventIndexer.ts:276-302 | whenever the cursor is at the end of the stream the table is complete |
| Indexer.CatchUp | src/eventIndexer.ts:260-313 | after any history of faults, enough faultless pages of 200 complete the table |
| Indexer.RowsAppendOnly | src/eventIndexer.ts:366-372 | over any run of polls, faults, restarts and arrivals stored rows are never changed or reordered |
| IndexedHistory.WorkflowEventsAreIndexed | src/eventIndexer.ts:321-362 | exactly the five workflow events of the contract become rows, with type, contributor, organisation and issue intact |
| IndexedHistory.RenderingLosesNothing | src/events.rs:64-198 | topics and data together determine the event |
| IndexedHistory.TableKnowsAssignments | src/eventIndexer.ts:123-154 | the rows of an indexed stretch know of each assignment what the contract's log without the events lost to a shared key does, for every stream |
| IndexedHistory.CollisionMisleadsTable | src/eventIndexer.ts:339-344 | after any stretch, an assignment and its completion under one new key leave the table showing the assignment |
| IndexedHistory.TableEqualsContract | src/eventIndexer.ts:226-389 | after any faults, once the cursor is at the end of the contract's events the table shows the assignments of the log without the events lost to a shared key, and with distinct keys exactly the assignment sentinels |
| IndexedHistory.TableIsRightIff | src/eventIndexer.ts:366-372 | a caught-up table is right about a triple if and only if the number of its assigned, completed and revoked events lost since the latest one that survived is even; in other words, if the latest such event and the latest surviving one both are assignments or neither is |
| IndexedHistory.MisledOnARun | src/eventIndexer.ts:339-344 | a run from genesis, and an indexer that has read all its events, whose table shows an assignment that has ended |
| Sync.AlwaysSafe | src/sync.ts:72-102 | at every await point processing means the queue is non-empty, at most one save runs and it is the head, and attempted events followed by the queue are the accepted events in order |
| Sync.SettleSafe | src/sync.ts:86-101 | the save that settles is that of the head, saved or not the head goes, and it is recorded as attempted with that outcome |
| Sync.DrainsCompletely | src/sync.ts:71-102 | after as many saves as events wait, whatever their outcome, the queue is idle and every accepted event was attempted once, in order |
| Sync.AcceptsItsEvents | src/sync.ts:52-69 | whatever arrives and settles in whatever order, a queue accepts exactly the events of its organisation, in order of arrival |
| Sync.OrgQueue.constructor | src/sync.ts:40-49 | a new queue is empty and idle |
| Sync.OrgQueue.Enqueue | src/sync.ts:52-69 | an event of another organisation is ignored, any other is queued and starts a drain only when idle |
| Sync.OrgQueue.ProcessNext | src/sync.ts:72-86 | starts saving the head, or goes idle |
| Sync.OrgQueue.Resume | src/sync.ts:87-101 | a settled save removes the head and continues, saved or not |
| Sync.SyncService.LoadAndRegisterOrgs | src/sync.ts:164-184 | registers each new organisation once with its own queue and listener and keeps every queue there was |
| Sync.SyncService.RegisterOrg | src/sync.ts:173-182 | a known organisation is left alone |
| Sync.SyncService.StartOrgListener | src/sync.ts:193-198 | adds one listener on the organisation's channel |
| Sync.SyncService.HandleEvent | src/sync.ts:204-215 | hands the event to the organisation's queue, or drops it when there is none |
| Sync.SyncService.SettleSave | src/sync.ts:86-101 | a settled save moves its own organisation's queue and no other |
| Sync.SyncService.Emit | src/sync.ts:195-197 | every listener on the channel handles the event |
| Sync.QueuesAreIndependent | src/sync.ts:160-215 | any interleaving of loads, arrivals and saves leaves each organisation's queue where it would be alone, with exactly one listener |
| Sync.FleetAttemptsOwnEvents | src/sync.ts:52-59 | a queue of the fleet only ever attempts events of its own organisation, in the order accepted |
| Sync.FleetAcceptsExactly | src/sync.ts:160-215 | an organisation has a queue if and only if a load has named it, under its first address, and the queue has accepted exactly the events of its own id emitted on its channel since then, in order |
| RateLimit.WalletLimiter.Limit | src/middleware/rate-limit.ts:83-118 | the reply, headers and new store are those of the window in force |
| RateLimit.WalletLimiter.CleanupExpiredLimits | src/middleware/rate-limit.ts:125-132 | deletes exactly the windows that have passed |
| RateLimit.CleanupIsInvisible | src/middleware/rate-limit.ts:124-140 | clean-ups anywhere in a run change no later decision or header |
| Headers.RepliesTell | src/middleware/rate-limit.ts:92-117 | request k of a window is admitted if and only if k is at most 10, with 11 - k remaining, which is 10 less those admitted since the opener; reset is the opener plus a minute in whole seconds rounded up, and a refusal gives the seconds to it rounded up, 60 at the very end |
| Headers.NoWalletNoLimit | src/middleware/rate-limit.ts:83-89 | a request without a wallet is let through and leaves no trace |
| Headers.CleanupLeavesExactly | src/middleware/rate-limit.ts:125-132 | after a clean-up the store holds exactly the windows still in force, unchanged |
| RateLimit.WindowBound | src/middleware/rate-limit.ts:80-118 | any interval of T milliseconds admits at most 10 * (1 + floor(T / 60001)) requests of a wallet when 60001 divides T, and at most 10 * (2 + floor(T / 60001)) - 1 otherwise |
| RateLimit.MaximumReached | src/middleware/rate-limit.ts:80-118 | for every length some run reaches that bound, so it is the maximum |
| RateLimit.TenPerMinuteExactly | src/middleware/rate-limit.ts:9-10 | after any run before a time, every continuation admits at most 10 in the minute from that time on if and only if the wallet has no window in force then or a full one |
| RateLimit.NineteenInAMinute | src/middleware/rate-limit.ts:9-10 | a run that admits 19 requests within a minute |
| Fees.XlmRoundTrip | src/soroban.ts:366-372 | parsing the printed amount gives the stroops back, for every amount |
| Fees.XlmIsCanonical | src/soroban.ts:366-372 | the output has no leading zeros, one to seven fraction digits, and no trailing zero except ".0" |
| Fees.XlmIsUnique | src/soroban.ts:366-372 | every canonical amount string is the printed form of the amount it denotes |
| Fees.EstimateAddsUp | src/soroban.ts:357-383 | the printed base fee is 100 stroops, base and resource fee add up to the printed total, and the stated cushion of 20 per cent is what is put on the simulated fee, rounded down |
| Fees.EstimateMonotone | src/soroban.ts:362-376 | a larger resource fee never prints a smaller total |
| GithubSync.IssueDb.SyncIssuesToDb | backend/src/github.ts:179-244 | a fault at any statement leaves the table as it was; otherwise the synced table, the number of issues, and the number of open rows of this owner and repository that were not fetched |
| GithubSync.UpsertEffect | backend/src/github.ts:188-220 | upserting opens exactly the fetched ids, gives each its latest content, keeps owner, repository, number and creation time of stored ones, takes those of a new one from its first record, and touches nothing else |
| GithubSync.SyncReconciles | backend/src/github.ts:173-178 | the repository's open rows are exactly the fetched ids if and only if no fetched id is stored under another repository |
| GithubSync.OtherReposUntouched | backend/src/github.ts:222-234 | without foreign ids every other repository's rows stay as they were and none are added |
| GithubSync.ReportsWhatItCloses | backend/src/github.ts:222-237 | the rows closed are exactly the previously open ones not fetched |
| GithubSync.UnfetchedRow | backend/src/github.ts:224-231 | a stored row that was not fetched stays as it was if its owner or its repository differs, and is closed, else unchanged, if both agree |
| GithubSync.ClosesVanished | backend/src/github.ts:224-237 | a row goes from open to closed if and only if it has exactly this owner and this repository and was not fetched, and these are the rows reported |
| GithubSync.SyncIsIdempotent | backend/src/github.ts:179-244 | repeating a sync closes nothing and changes nothing |
| GithubSync.ForeignIdEscapes | backend/src/github.ts:197-204 | a fetched id stored under another repository is reopened there and missing here |
| GithubSync.ForeignRepoEscapes | backend/src/github.ts:197-204 | the same for an id stored under another repository of the same owner |

## Left out

- Signatures, XDR decoding and address validation: a signature is membership in the signer set, and decoded values are taken as given.
- WASM upgrade, instance lifetime bumps, archival of persistent entries, and the test-only assignment seeding, which can break the organisation counter.
- Numeric error codes; the errors are a datatype. Failing a signature check is one error of its own.
- Live-event publishing after an insert and the damaged end of the indexer source; the insert follows its comment, insert if absent.
- Splitting an event id at its dashes and turning numeric strings into numbers: the ledger, the paging token and the parts of the id are fields. The timestamp column is left out.
- The indexer's `isRunning` flag and its endless loop: one turn of the loop is one step of a run. Time between turns is left out.
- Chain reorganisations: the stream only grows, and the stored rows are never deleted.
- Indexer.ExactlyOnce: assumes that paging tokens increase and that ledgers never decrease along the stream.
- Sync.OrgQueue.Resume: loggers do not throw and `saveEvent` fails only by rejecting; a logger that throws after the first shift would shift the queue twice.
- Stopping and restarting the sync service's poll timer.
- RateLimit.WindowBound: assumes a clock in whole milliseconds that never goes back; the per-IP and API-key limiters are library and Redis behaviour.
- Fees.EstimateAddsUp: takes the simulated resource fee as a non-negative whole number of stroops; simulation itself is a remote call.
- GithubSync.IssueDb.SyncIssuesToDb: the overwritten columns are one field and the sync time is left out; statements of one transaction see no concurrent writer.
- The GitHub ETag cache and paging, HTTP routes, schemas, Redis, health checks and the user interface.

# A verified model of the 3m-ui panel

3m-ui is a panel around the Mihomo proxy core: it keeps listeners, users and remote nodes in a database,
compiles them to the configuration of the core, runs and updates the core, and hands client profiles to
users. This project models the parts of its Go back end that are hardest to get right and proves what
they are for.

| modules | what they model |
|---|---|
| `ProcessLifecycle`, `ProcessProgress`, `CredentialSync`, `ApplyDebounce` | three concurrent protocols as transition systems, with safety theorems over every run and, from every state of every run, what can still be brought to its end |
| `CoreStore`, `CoreUpdate`, `ConfigApply` | the binary store, the core update job and the configuration transaction; each keeps a journal of every state its files have been in, so a crash is the choice of a journal entry |
| `Text`, `PortSpec` | the Go string functions in use, and the independent parsers of port texts, proved against one reading |
| `ListenerModel`, `ConfigFit`, `ListenerTable`, `Registry` | a listener, its validation with what that does to the JSON configuration, and its conflict relation; the table as a value; the registry with its mutators and the other writers of its rows, where any database statement may fail |
| `GenerationCheck`, `TlsMaterial` | what a generation of the core's configuration demands of the registry's listeners, and what it and the start-up hydration write to their configurations |
| `Credentials`, `ClientExport`, `TuicModes` | what a compiled listener accepts, what clients are given, that the second is within the first, that nobody is left out and that nobody else gets in |
| `Sockets` | expected endpoints, the socket index against a scan, the readiness loop |
| `RateLimit`, `Names`, `Reconcile` | the attempt limiter, proxy names in merged subscriptions, remote-node reconciliation |
| `Collections`, `Wrappers` | finite sets, `Option` |

`dafny verify dfyconfig.toml` checks everything.

## How the code is read

* A method that updates fields in the source is a method of a class here, with its loops. Each is proved
  against a function or predicate of the old state, and those carry the lemmas.
* Results of the operating system are inputs: `JobIO` and `ApplyIO` for files and processes,
  `works` (which database statements of the run succeed) in `Registry` and `Reconcile`, `random` for the
  port draws, and scripts of observations in `Sockets`. `Healthy()` says that no statement fails from here on;
  clauses that need it start with it, all others hold under any pattern of failures.
* `net.ParseIP`, SHA-256, `fmt.Sprint`, the JSON codec and the schema checks of single values are parameters
  with the properties stated in `Lawful`, `IsDigest`, `ShowsStrings` and `LawfulPanel`; SHA-256 need not be
  injective. The registry takes validation as a parameter too; `ConfigFit.PanelRulesAreLawful` with
  `ListenerModel.ValidateIsLawful` shows that the validation of the panel qualifies.

## Where the code does not do what one would expect

Each item is a theorem with its exact condition.

* **ApplyConfig** restores the file after a refused configuration exactly when `Revertible` holds: an empty
  previous file is never written back, and a core running without a file leaves the refused text behind
  (`ConfigApply.EmptyPreviousIsNotRestored`, `ConfigApply.MissingPreviousIsNotRestored`). Two rollbacks
  restore the pair of files exactly when there was a live file.
* **Rolling a listener back** can be undone exactly when the row it replaced still validates, and restores the table
  exactly when that row validates to itself (`Registry.Service.RollbackAndUndo`). A row nothing but the mutators has
  written always validates, but its public host is normalised once more, which is not idempotent: `[ a ]` becomes
  ` a ` and then `a` (`ListenerModel.HostNormalisationIsNotIdempotent`).
* **Generations and hydration** rewrite stored configurations and can leave one that validation refuses, so that
  undoing a rollback fails. `TlsMaterial.Spoils` and `TlsMaterial.HydrationSpoils` say exactly when: a certificate
  pair kept on disk comes back next to REALITY, a TLS mirror or an enabled AnyTLS wrapper
  (`TlsMaterial.ForgottenPairComesBack`); two smaller families are a minted pair next to a mirror entry that is null,
  and an AnyTLS listener whose only enabled wrapper was unfinished.
* **The generator checks endpoints again**, with another idea of addresses: it takes the bind address where the
  registry takes the listen address, and it knows "any address" by value and family where the registry knows two
  spellings. A table at peace can therefore fail it, and then nothing is generated at all
  (`GenerationCheck.TwoAddressesMislead`). Peace is enough exactly for listeners that are `Straight`.
* **Clone** without a port of its own and **InstantiateTemplate** without a port are always refused: the copy
  clashes with its source, and the port "0" is not valid.
* **Delete** is refused when another row already bears the freed name `<name>__deleted_<id>`.
* **The debounced apply** forgets what a failing mutator has already written. A deletion that stops half-way keeps
  the bindings deleted, or the name freed, and returns an error without scheduling; `DeletionAbandons` says
  exactly which failing statements do it. A batch whose withdrawal fails (`Stuck`) does the same. In a quiet state
  the newest state has been generated exactly unless a commit was abandoned since the last generation
  (`ApplyDebounce.QuietMeansCovered`, `ApplyDebounce.AbandonedIsNeverGenerated`).
* **BatchCreate** commits before it checks endpoints. Only when the check fails and a soft delete of the
  withdrawal fails too (`Stuck`) are clashing listeners left behind.
* **TUIC**: the compiler looks for users in a map from which they are kept out, so a legacy `tuic` listener is
  v4 exactly when it has tokens, while the client export also asks for the absence of users; they differ
  exactly when both are configured, and then no profile is accepted. Validation excludes this.
  `listenerToProxies` refuses `tuic-v4` and `tuic-v5` altogether, because `internal/config` does not list
  them; these are exported by `BuildShare`. The exported token is the first one as written, which the server
  accepts exactly when it is neither blank nor padded. For Hysteria 2, AnyTLS and Mieru the exact conditions
  are about colliding names and padded passwords (`ClientExport.BoundPasswordsAgreeIff`,
  `ClientExport.ConfiguredNamesAgreeIff`); the `password` fallback of the export is never accepted.
* **SyncRemoteNodes** stores a new mirror as enabled even when the node is listed as disabled: the column has
  `default:true`, so the create statement leaves a false flag to the database. The flag is the listed one exactly
  unless the mirror is new, listed once and disabled (`Reconcile.NewDisabledNodeIsEnabled`). A mirror removed
  locally makes the sync fail, because its tombstone holds the key.

## Model

| member | source | states |
|---|---|---|
| ProcessLifecycle.RunInv | backend/internal/mihomo/process.go:398-560 | every interleaving of Start, Stop, Restart, quiesce, exits and delayed restarts keeps the structural invariant |
| ProcessLifecycle.RunIntent | backend/internal/mihomo/process.go:562-649 | a revival in progress concerns the recorded child and is still wanted; while stop waits nobody wants the core |
| ProcessLifecycle.AtMostOneChild | backend/internal/mihomo/process.go:398-560 | at most one spawned core is alive in every state of every run |
| ProcessLifecycle.NoRevivalAfterStop | backend/internal/mihomo/process.go:657-766 | after Stop or quiesce returned, nothing is alive and no pending goroutine spawns, until an explicit start |
| ProcessLifecycle.EarlyExitNeverRevived | backend/internal/mihomo/process.go:520-560 | a child that exits inside the start window is never restarted automatically |
| ProcessLifecycle.SpawnIsJustified | backend/internal/mihomo/process.go:562-649 | a spawn belongs to the Start or Restart call that holds the lock, or replaces the dead recorded child while it is still wanted |
| ProcessLifecycle.StopMeansStopped | backend/internal/mihomo/process.go:657-745 | when a Stop call gives the lock back nothing is alive and nobody wants the core |
| ProcessLifecycle.RevivesOnce | backend/internal/mihomo/process.go:585-649 | a goroutine tries its delayed restart once at most |
| ProcessProgress.StartBringsUp | backend/internal/mihomo/process.go:392-560 | from every state of every run with the lock free, Start brings up a new recorded, wanted child unless the old one is seen running |
| ProcessProgress.EarlyExitTakesDown | backend/internal/mihomo/process.go:520-560 | a child that exits inside the window leaves the core down and no longer wanted |
| ProcessProgress.StopTakesDown | backend/internal/mihomo/process.go:651-745 | Stop takes the core down, whatever it finds |
| ProcessProgress.QuiesceTakesDown | backend/internal/mihomo/process.go:908-918 | so does quiesce |
| ProcessProgress.RestartBringsUp | backend/internal/mihomo/process.go:748-766 | Restart brings up a new child whether or not one was running |
| ProcessProgress.CrashedCoreComesBack | backend/internal/mihomo/process.go:562-649 | from every state of every run in which the recorded, wanted child has died and the lock is free, its own goroutine alone can bring up a new recorded, wanted child |
| CredentialSync.PendingMeansRunning | backend/internal/mihomo/core_update.go:59-78 | a queued callback implies a running job |
| CredentialSync.NoLostSync | backend/internal/mihomo/core_update.go:59-78 | the newest committed change has been regenerated from, or a call or the slot still owes it; once all is quiet it is covered |
| CredentialSync.QueuedCallbackIsTaken | backend/internal/mihomo/core_update.go:232-264 | a busy call leaves its callback in the slot, which then holds it or one queued later until the step that ends the job takes and calls that one |
| CredentialSync.RanCoversItsChange | backend/internal/mihomo/service.go:140-151 | a call that was not refused regenerated from a database at least as new as its change |
| CredentialSync.SnapshotsAreRead | backend/internal/mihomo/service.go:140-151 | what counts as covered is what some call that returned without error has read from the database |
| CredentialSync.JobsKeepCallsOut | backend/internal/mihomo/core_update.go:59-78 | a call is queued or sent back exactly while a job runs, at each of its three tests |
| CredentialSync.CallRuns | backend/internal/mihomo/core_update.go:59-78 | with no job running a call that keeps proceeding has regenerated after at most four steps of its own |
| CredentialSync.EverythingCanSettle | backend/internal/mihomo/core_update.go:232-264 | from every state of every run ending the job and letting the calls proceed leaves nothing owed |
| ApplyDebounce.NoLostMutation | backend/internal/listener/service.go:43-80 | an uncovered mutation has the flag set with a timer outstanding, a flush still to generate, its mutator before scheduling, or an abandoned commit since the last generation |
| ApplyDebounce.QuietMeansCovered | backend/internal/listener/service.go:97-242 | once nothing is under way the newest state has been generated exactly unless a commit was abandoned since |
| ApplyDebounce.LostMeansAbandoned | backend/internal/listener/service.go:229-239 | that condition is: some mutator returned an error after a commit, and nothing was generated after it |
| ApplyDebounce.AbandonedIsNeverGenerated | backend/internal/listener/p2.go:135-142 | a run in which a committed change is never generated although nothing is under way |
| ApplyDebounce.FiresOncePerSchedule | backend/internal/listener/service.go:43-80 | between two firings of the timer somebody has scheduled |
| ApplyDebounce.EverythingCanSettle | backend/internal/listener/service.go:43-80 | from every state of every run all that is under way can finish, and then the newest state has been generated unless a commit was abandoned |
| CoreStore.CoreDirectory.PublishBinary | backend/internal/mihomo/core_store.go:66-100 | content-addressed publication: exact success condition, never an overwrite, at most one directory change |
| CoreStore.SavedSelectionLoads | backend/internal/mihomo/core_store.go:101-156 | a saved selection is what the next start goes on with exactly when its active core verifies; saving two different cores then keeps the directory sound |
| CoreStore.DamageIsNoticed | backend/internal/mihomo/core_store.go:101-156 | a start goes on with a saved selection exactly when the file of its active core is there, regular, executable, of 128 MiB at most and unaltered |
| CoreStore.CoreDirectory.PruneBinaries | backend/internal/mihomo/core_store.go:157-174 | exactly the digest-named binaries outside the kept set go, and every state in between has the kept ones |
| CoreStore.SoundWithFewerBinaries | backend/internal/mihomo/core_store.go:157-174 | a directory stays loadable as long as the active binary stays |
| CoreStore.PublishingKeepsPublishable | backend/internal/mihomo/core_store.go:66-100 | publishing one core does not decide whether another can be published |
| CoreUpdate.Updater.Boot | backend/internal/mihomo/core_update.go:80-109 | start-up fails exactly on a saved selection that does not load or lies behind symbolic links, otherwise goes on with it; what it reports of the last job for each saved status, an interrupted one as failed |
| CoreUpdate.Updater.Begin | backend/internal/mihomo/core_update.go:157-221 | each refusal with its exact condition, a lock held by another process included; an accepted request records a running job and fixes its version |
| CoreUpdate.Updater.Fetch | backend/internal/mihomo/core_update.go:322-338 | the candidate exists exactly as specified, and publishing it changes no later decision of the job |
| CoreUpdate.Updater.Check | backend/internal/mihomo/core_update.go:344-375 | passes exactly when the candidate runs, has the version and accepts the configuration, and the old core is healthy and readable |
| CoreUpdate.Updater.BackUp | backend/internal/mihomo/core_update.go:372-394 | the old core is published and, before the first update, recorded as selected; nothing else changes |
| CoreUpdate.Updater.RecoverOld | backend/internal/mihomo/core_update.go:403-418 | recovery reports rolled back exactly when the old core is the current one again and runs if it ran |
| CoreUpdate.Updater.Switch | backend/internal/mihomo/core_update.go:398-437 | commits both selections at once or leaves the selection and the directory as they were |
| CoreUpdate.Updater.PerformCoreUpdate | backend/internal/mihomo/core_update.go:322-437 | a job succeeds exactly when every check passes, and ends as committed with the old core under the version it prints as predecessor, rolled back to an old core that passed its readiness check if it ran, or failed without commit |
| CoreUpdate.Updater.Prune | backend/internal/mihomo/core_store.go:157-174 | what remains is the current and the selected binaries; every intermediate state still loads |
| CoreUpdate.Updater.AtMostThreeBinaries | backend/internal/mihomo/core_update.go:246-248 | at most three binaries remain after a finished job |
| CoreUpdate.Updater.FinishCoreUpdate | backend/internal/mihomo/core_update.go:232-264 | the outcome is recorded in memory and, if that write succeeds, on disk, and the store pruned without touching selection or current core |
| CoreUpdate.Updater.RunUpdate | backend/internal/mihomo/core_update.go:228-264 | a whole request: exact condition of acceptance and of success, the directory tells a running job until it tells how it ended, the core is up exactly if it was when it succeeds or rolls back, and a successful rollback exchanges active and previous |
| CoreUpdate.Updater.RollbackTwice | backend/internal/mihomo/core_update.go:322-437 | two successful rollbacks restore the digests of the selection |
| CoreUpdate.RestartReports | backend/internal/mihomo/core_update.go:80-109 | a restart after any of the directory changes of a job reports it failed if it comes before the record of its end and as it ended otherwise |
| CoreUpdate.UpdateAndBack | backend/internal/mihomo/core_update.go:322-437 | an install that meets no obstacle selects the download with the old core as predecessor, a rollback after it exchanges them, and the core stays up or down |
| CoreUpdate.Lifetime | backend/internal/mihomo/core_store.go:101-125 | over any sequence of jobs, each meeting a running or stopped core, with restarts after them and crashes between any two directory changes, every start, from whatever panel image, loads the selection |
| ConfigApply.ConfigService.ApplyConfig | backend/internal/mihomo/service.go:140-215 | exact outcome of every call, with the exact condition under which an error restores the file; a crash at any point leaves the previous configuration live or as the backup of the new one |
| ConfigApply.ConfigService.SaveConfig | backend/internal/mihomo/service.go:102-135 | exact success condition; a text the core refuses is replaced by the previous one exactly when that can be written; what a crash can leave |
| ConfigApply.ConfigService.RollbackConfig | backend/internal/mihomo/service.go:217-226 | everything ApplyConfig promises for the backup as the new text; without a backup nothing changes |
| ConfigApply.ConfigService.RollbackTwice | backend/internal/mihomo/service.go:217-226 | two successful rollbacks restore both files exactly when there was a live file |
| ConfigApply.EmptyPreviousIsNotRestored | backend/internal/mihomo/manager.go:15-51 | an empty previous file is lost although no operation fails |
| ConfigApply.MissingPreviousIsNotRestored | backend/internal/mihomo/service.go:190-201 | a core running without a file keeps the refused text on disk |
| PortSpec.ReadIgnoresTrim | backend/internal/listener/validation.go:73-101 | blanks around a port text have no influence |
| PortSpec.TwoDashesAreRefused | backend/internal/listener/endpoints.go:11-36 | splitting at every dash and splitting once refuse the same parts |
| PortSpec.ValidPort | backend/internal/listener/validation.go:73-101 | accepts exactly the texts with a reading |
| PortSpec.IsValidPortString | backend/internal/node/validator.go:68-99 | accepts exactly the texts with a reading |
| PortSpec.PortRanges | backend/internal/listener/endpoints.go:11-36 | accepts exactly the texts with a reading and returns its ranges |
| PortSpec.ParsePortRanges | backend/internal/listener/validation.go:117-138 | returns the same ranges on every text with a reading |
| PortSpec.MeetingRangesSharePort | backend/internal/listener/endpoints.go:38-52 | ranges meet exactly when the texts share a port |
| PortSpec.PortsOverlap | backend/internal/listener/endpoints.go:38-52 | true exactly for texts that share a port |
| PortSpec.PortRangesOverlap | backend/internal/listener/validation.go:106-115 | agrees with portsOverlap on all texts with a reading |
| PortSpec.ConfigPortRanges | backend/internal/mihomo/config/generator.go:142-163 | the generator's parser returns the same ranges on every text with a reading |
| PortSpec.ConfigPortsOverlap | backend/internal/mihomo/config/generator.go:131-140 | the generator's overlap test agrees with the others on all texts with a reading |
| PortSpec.SinglePortOverlap | backend/internal/listener/quick.go:72-110 | a port in decimal overlaps a text exactly if the text denotes it |
| ListenerModel.ValidateTwice | backend/internal/listener/validation.go:15-62 | validating a validated listener changes nothing but the public host |
| ListenerModel.ValidateModel | backend/internal/listener/validation.go:15-62 | the two validators one after the other compute what is specified as validation |
| ListenerModel.ValidateIsLawful | backend/internal/node/validator.go:16-66 | validation has every property the registry relies on |
| ConfigFit.SanitisingTwice | backend/internal/listener/validation.go:169-191 | dropping client-only keys is idempotent |
| ConfigFit.EnsuringObjectTwice | backend/internal/credentials/generator.go:17-105 | filling credentials into a whole configuration is idempotent whatever would be drawn |
| ConfigFit.FitIsIdempotent | backend/internal/listener/validation.go:47-55 | sanitising, checking and filling a configuration that went through it changes nothing |
| ConfigFit.FitConfig | backend/internal/listener/validation.go:47-55 | sanitising, schema check, filling and protocol checks in the order of the code yield what is specified as fitting |
| ConfigFit.PanelRulesAreLawful | backend/internal/node/validator.go:16-66 | the rules of the panel have the properties validation relies on |
| ListenerModel.HostNormalisationIsNotIdempotent | backend/internal/node/validator.go:46-49 | a host for which a second validation changes the result |
| ListenerModel.ClashIsSymmetric | backend/internal/listener/endpoints.go:54-82 | the conflict relation is symmetric |
| ListenerModel.ClashIsReflexive | backend/internal/listener/endpoints.go:54-82 | two listeners at one endpoint always conflict |
| GenerationCheck.ValidateListenerEndpoints | backend/internal/mihomo/config/generator.go:82-129 | accepts exactly the lists of well-placed listeners with different names of which no two collide in the generator's sense |
| GenerationCheck.PeaceIsEnoughIff | backend/internal/mihomo/config/generator.go:121-180 | a listener at peace with its well-behaved neighbours never collides with one if and only if registry and generator read its address alike |
| GenerationCheck.TwoAddressesMislead | backend/internal/listener/endpoints.go:54-82 | two listeners that validation accepts and the registry finds at peace, and that stop every generation |
| ListenerTable.StartableIff | backend/internal/mihomo/config/generator.go:82-108 | for rows of the registry the generator's check comes down to its address relation |
| ListenerTable.PeacefulStraightStart | backend/internal/mihomo/config/generator.go:82-108 | a table at peace whose listeners are all read alike passes the generator's check |
| ListenerTable.RewritingKeepsRows | backend/internal/mihomo/config/generator.go:277-284 | writing configurations behind the mutators keeps the table free of clashes and every other field as validation left it |
| TlsMaterial.GeneratedModesIff | backend/internal/mihomo/config/tls_ensure.go:15-90 | the generator leaves accepted TLS modes accepted exactly unless the configuration is spoilt, for all nine protocols with certificates |
| TlsMaterial.GenerationSpoilsIff | backend/internal/mihomo/config/generator.go:202-284 | a settled configuration rewritten by a generation is refused exactly when it is spoilt, and otherwise settled again |
| TlsMaterial.GenerateText | backend/internal/mihomo/config/generator.go:202-284 | the steps of the generator from a stored configuration to the one it stores yield what is specified |
| TlsMaterial.ListenerProtocolNeedsCert | backend/internal/mihomo/config/tls_ensure.go:63-98 | the tests of the generator decide as specified which listeners need a certificate |
| TlsMaterial.HydrationSpoilsIff | backend/internal/certstore/hydrate.go:27-76 | the same for the pair the start-up hydration restores, with its own exact condition |
| TlsMaterial.HydrateText | backend/internal/certstore/hydrate.go:17-81 | hydration of one row writes what is specified |
| TlsMaterial.GeneratedRowValidatesIff | backend/internal/node/validator.go:366-383 | so a rewritten row validates, to itself but for its public host, exactly unless it is spoilt |
| TlsMaterial.ForgottenPairComesBack | backend/internal/mihomo/config/generator.go:227-294 | a listener that is generated, moved to REALITY and generated again ends with both ways of securing it, which validation refuses |
| ListenerTable.JoiningManyKeepsPeace | backend/internal/listener/p2.go:151-163 | checking each new listener against all others is enough for the whole table |
| ListenerTable.RecordedOnceEach | backend/internal/listener/p2.go:14-28 | recording a batch gives each of its listeners exactly one version |
| ListenerTable.LastVersionRestores | backend/internal/listener/p2.go:34-50 | rolling back to the version recorded last restores the recorded row as validated |
| ListenerTable.RecordedVersionStays | backend/internal/listener/p2.go:14-50 | under every later history the one version with the number a row got is that row, and it is what a rollback to it restores |
| ListenerTable.FreedNamesDiffer | backend/internal/listener/service.go:225-229 | two listeners deleted under one name get different freed names |
| Registry.Service.SaveVersion | backend/internal/listener/p2.go:14-28 | appends one snapshot of a live row with the next number and the reason, and touches no other listener's history, or changes nothing |
| Registry.Service.EnsureUniqueName | backend/internal/listener/service.go:244-270 | purges or renames only tombstones of that name, changes no other row, and says exactly why it refuses |
| Registry.Service.EnsureEndpointAvailable | backend/internal/listener/service.go:274-297 | passes only if no other live listener clashes and no row holds the name; each refusal has its reason |
| Registry.Service.AllocateFreePort | backend/internal/listener/quick.go:72-110 | a port from 10000-60000 denoted by no live listener and not tried before; gives up only when a draw fails or 300 draws hit used ports |
| Registry.Service.EveryPortCanBeDrawn | backend/internal/listener/quick.go:72-110 | every port from 10000 to 60000 is what some random number stands for |
| Registry.Service.RetryElsewhere | backend/internal/listener/service.go:118-143 | a retried create ends on a free port other than the requested one or with a refusal that is not about the endpoint it tried, after eight ports or when no further one is found; on a working database with a usable name it fails only for want of luck in the draws |
| Registry.Service.StoreNew | backend/internal/listener/service.go:150-161 | the row is inserted under a fresh key, past tombstones of its name, or no live row changes |
| Registry.Service.Create | backend/internal/listener/service.go:97-168 | exactly one validated row joins or nothing changes; the registry stays free of clashes; on a working database a valid request with a name of its own fails only if the draws are unlucky |
| Registry.Service.Update | backend/internal/listener/service.go:186-210 | succeeds exactly for a valid live listener with a free name and endpoint; records the old row and replaces it; every reason it refuses with is real |
| Registry.Service.RollbackVersion | backend/internal/listener/p2.go:34-60 | succeeds exactly when the version exists, validates and still fits; records the row and restores the snapshot that bears the number |
| Registry.Service.RestoreRecorded | backend/internal/listener/p2.go:34-60 | a row recorded at any point is what a rollback to the number it got restores, whatever was recorded since; exact success condition |
| Registry.Service.RollbackAndUndo | backend/internal/listener/p2.go:34-60 | the "before-rollback" version can be rolled back to if and only if the recorded row validates, comes back as validated, and restores the table if and only if it validates to itself; both follow, up to one normalisation of the host, for rows only mutators have written |
| Registry.Service.Generate | backend/internal/mihomo/config/generator.go:56-74 | a generation changes configurations of enabled rows only, to what the credential provider and the generator make of the rows they loaded, and keeps the registry valid; on a working database its endpoint check stops it exactly when two enabled rows collide |
| Registry.Service.GeneratedRow | backend/internal/mihomo/config/generator.go:56-74 | row by row: disabled listeners are untouched, those with users get at most what the generator makes of them, and after a complete generation each has exactly what it or else the credential provider makes of it |
| Registry.Service.Hydrate | backend/internal/certstore/hydrate.go:17-81 | hydration rewrites the configurations of live rows, nothing else, and keeps the registry valid |
| Registry.Service.ProvideCredentials | backend/internal/user/service_creds.go:22-111 | writes only to enabled listeners without users, and on a working database fails exactly for a listener it cannot prepare |
| Registry.Service.Delete | backend/internal/listener/service.go:212-242 | exactly the live row goes, recorded and with its name freed, and exactly the bindings of that listener go with it; exact condition of refusal, and of a refusal that leaves something changed without scheduling an apply |
| Registry.Service.HealthyDeletionsFinish | backend/internal/listener/service.go:227-240 | a deletion is abandoned half-way only when a statement fails |
| Registry.Service.Clone | backend/internal/listener/p2.go:61-94 | exactly one validated copy joins, differing from its source in key, name and port before validation; exact success condition; refused without a port |
| Registry.Service.InstantiateTemplate | backend/internal/listener/p2.go:249-278 | exactly one validated instance joins; exact success condition; refused without a port |
| Registry.Service.EnsureBatchEndpointsAvailable | backend/internal/listener/p2.go:151-163 | passes only a batch at peace with the table, and passes every batch at peace with table and itself |
| Registry.Service.BatchCreate | backend/internal/listener/p2.go:95-150 | all prepared listeners join or the live set is unchanged, and every batch that fits is accepted |
| Registry.Service.BatchSetEnabled | backend/internal/listener/p2.go:164-197 | never refused for a conflict or a name; succeeds exactly for distinct live ids; records each, sets their flag to the requested value and changes nothing else |
| Credentials.NormalizeUsersValue | backend/internal/protocol/compile.go:308-334 | exactly the rows of a configured list or map |
| Credentials.AsUsersArray | backend/internal/protocol/compile.go:173-231 | exactly one row per bound credential with something in it, else the configured rows |
| Credentials.AsUsersMap | backend/internal/protocol/compile.go:235-262 | the map in which the last credential of a name wins, else the configured map |
| Credentials.AsUsersMapUuid | backend/internal/protocol/compile.go:267-306 | the union of configured and bound keys, bound ones on top |
| Credentials.ByKeysFinds | backend/internal/protocol/compile.go:267-306 | with consistent keys every complete bound credential is in the map |
| Credentials.AllStringTokens | backend/internal/protocol/compile_modules.go:285-311 | the trimmed non-blank string tokens in order |
| Credentials.Compile | backend/internal/protocol/compile_modules.go:33-250 | what each of the eleven kinds of listener accepts |
| ClientExport.CredentialsFromListenerConfig | backend/internal/converter/client.go:1283-1404 | exactly the credentials a configuration holds for its kind |
| ClientExport.EmitProxies | backend/internal/converter/client.go:133-548 | exactly the profiles of the chosen credentials, or none when it refuses |
| ClientExport.ListenerToProxies | backend/internal/converter/client.go:106-126 | refuses tuic-v4 and tuic-v5, otherwise hands out exactly those profiles, one with the credential of every bound user or else of every configured one |
| ClientExport.EveryUserGetsAProfile | backend/internal/converter/client.go:133-548 | an export that holds all profiles of the chosen credentials holds the UUID, password, login or key of every user, protocol by protocol |
| ClientExport.ClientIsAccepted | backend/internal/converter/client.go:106-548 | whatever a client is given, the listener compiled from the same configuration and users accepts |
| ClientExport.OnlyUsersAreAdmitted | backend/internal/protocol/compile.go:173-262 | a listener compiled with bound users admits nothing but a credential of one of them (TUIC apart, whose configured users stay) |
| ClientExport.BoundKeysAgreeIff | backend/internal/protocol/compile.go:285-302 | bound TUIC users (v5, or legacy without tokens) are all accepted exactly when no key comes with two passwords |
| ClientExport.ConfiguredKeysAgreeIff | backend/internal/protocol/compile.go:267-284 | configured TUIC users are all accepted exactly when every padded key has an unpadded twin with the same password |
| ClientExport.BoundNamesAgreeIff | backend/internal/protocol/compile.go:235-246 | bound Mieru users are all accepted exactly when all are named and no name comes with two passwords |
| ClientExport.BoundPasswordsAgreeIff | backend/internal/protocol/compile.go:235-246 | bound Hysteria 2 and AnyTLS users are all accepted exactly when every password survives under some name |
| ClientExport.ConfiguredNamesAgreeIff | backend/internal/converter/client.go:1356-1384 | unbound listeners with a map of names: accepted exactly when the credentials come from the map and are free of padding |
| ClientExport.TokenAgreesIff | backend/internal/converter/client.go:833-851 | a TUIC token (v4, or legacy with tokens and without users) is accepted exactly when the text, or the first element of the list, can be presented as it stands |
| ClientExport.BothModesAgreeOnNothing | backend/internal/converter/client.go:407-417 | with tokens and users configured server and client differ in mode and no profile is accepted |
| TuicModes.FirstNonEmptyToken | backend/internal/protocol/share_modules.go:875-895 | the first of the compiled tokens, or none |
| TuicModes.ValidateTuic | backend/internal/node/validator.go:195-225 | the checks of the validator are the one-mode rule |
| TuicModes.BuildShare | backend/internal/protocol/share_modules.go:645-711 | mode and credential of a share as specified by ShareOf |
| TuicModes.FirstTokenIsServed | backend/internal/protocol/share_modules.go:686-702 | a share token taken from the configuration is one of the compiled tokens |
| TuicModes.ModesCohere | backend/internal/node/validator.go:195-225 | under the exactly-one rule compiler, client export and share builder take the same mode |
| TuicModes.ShareModeIff | backend/internal/protocol/share_modules.go:645-672 | without the rule share builder and compiler agree on a legacy listener exactly under the stated condition |
| TuicModes.ShareIsAccepted | backend/internal/protocol/share_modules.go:603-711 | every TUIC share of a valid listener is accepted by it, for bound users, configured users and tokens |
| TuicModes.DecodeUsers | backend/internal/protocol/decode.go:102-163 | exactly the users a listener is shared with: the bound ones, one per token, or the configured ones |
| TuicModes.ExportShares | backend/internal/protocol/share.go:34-47 | a listener is exported when it has users who all have shares, and then with exactly those |
| TuicModes.TokenListenerIsShared | backend/internal/protocol/decode.go:134-155 | a valid token listener without bound users is shared with a token it accepts |
| TuicModes.AutofillTuicUsers | backend/internal/listener/autofill.go:373-410 | leaves a valid listener of one mode with a clean token, keeps what was configured, and takes each new token, UUID and password from its own draw |
| TuicModes.EnsuringTwice | backend/internal/credentials/generator.go:17-105 | filling missing credentials is idempotent whatever would be drawn |
| TuicModes.EnsureListenerCredentials | backend/internal/credentials/generator.go:17-70 | missing credentials are filled in protocol by protocol as specified |
| TuicModes.EnsuredIsUsable | backend/internal/credentials/generator.go:17-70 | a listener that had no credentials admits the drawn one once it is filled in and compiled, and a TUIC listener nothing else |
| Sockets.ScanIgnoresOrder | backend/internal/mihomo/socket_index.go:29-59 | the state of a key does not depend on the order of connections |
| Sockets.Record | backend/internal/mihomo/socket_index.go:31-57 | one connection changes exactly the keys it covers or might cover |
| Sockets.IndexSockets | backend/internal/mihomo/socket_index.go:29-59 | looking a key up in the index equals scanning all connections for it |
| Sockets.Endpoints | backend/internal/mihomo/listener_runtime.go:60-113 | accepts exactly the port texts with a reading and lists each denoted port once per network |
| Sockets.ListenerNetworks | backend/internal/mihomo/listener_runtime.go:60-78 | the networks a listener of each kind opens |
| Sockets.InspectEndpoints | backend/internal/mihomo/listener_runtime.go:117-147 | the worst state over all endpoints, and which of them are bound |
| Sockets.FindMissing | backend/internal/mihomo/listener_runtime.go:238-251 | reports an expected endpoint that is missing, of the first listener that misses one, or that none is |
| Sockets.WaitForListenerSockets | backend/internal/mihomo/listener_runtime.go:218-262 | the exact outcome of the polling loop: the first turn after which it does not go on decides, and a report names an endpoint missing in the last inspection |
| Sockets.CheckUpdateReadiness | backend/internal/mihomo/core_update.go:442-479 | no error exactly if the core stays alive and both waits end on a completed inspection that misses nothing, or the second never looks because its deadline has passed |
| RateLimit.SlidingWindow | backend/internal/auth/api.go:77-104 | no interval as long as the window holds more accepted attempts of a client than the maximum without a reset between them |
| RateLimit.QuietClientIsAllowed | backend/internal/auth/api.go:91-103 | a client without attempts in the last window is let in |
| RateLimit.FewAttemptsAreAllowed | backend/internal/auth/api.go:91-103 | a client with fewer accepted attempts than the maximum since its last reset or a pause longer than the window is let in |
| RateLimit.BlockEnds | backend/internal/auth/api.go:91-103 | a refused client is let in once a window has passed, whatever it tried while blocked |
| RateLimit.PanelLimits | backend/internal/auth/api.go:77-150 | eight logins or three password changes in any quarter of an hour, and no fewer |
| RateLimit.Limiter.Sweep | backend/internal/auth/api.go:82-86 | exactly the stale entries go |
| RateLimit.Limiter.Allow | backend/internal/auth/api.go:117-144 | the decision is that of the client alone, and other clients keep everything that still matters |
| RateLimit.LiveDecides | backend/internal/auth/api.go:82-86 | what the sweep drops changes no decision, now or later |
| RateLimit.Run | backend/internal/auth/api.go:77-150 | over every sequence of attempts and resets the shared table decides like one limiter per client |
| Names.Disambiguate | backend/internal/converter/external_links.go:62-68 | the first free candidate, found within one more try than there are names |
| Names.MergeDocument | backend/internal/converter/external_links.go:51-71 | merges in order, keeps earlier names, and keeps a duplicate-free list duplicate-free |
| Names.ItoaU | backend/internal/converter/remote_merge.go:114-126 | the decimal text of every 64-bit number fits the 20-byte buffer |
| Names.AppendRemoteProxies | backend/internal/converter/remote_merge.go:33-57 | appends every proxy in order, the j-th of the i-th mirror at its place under its own name or its mirror's, prefixed with the server unless it has that prefix |
| Names.PrefixesAreDisjoint | backend/internal/converter/remote_merge.go:44-49 | a name starts with the prefix of at most one server |
| Names.ServersNeverShareNames | backend/internal/converter/remote_merge.go:33-57 | proxies of different servers never share a name |
| Reconcile.UniqueUint | backend/internal/cluster/sync_nodes.go:249-263 | the non-zero ids, each once |
| Reconcile.Service.BindUserRemoteNodes | backend/internal/cluster/sync_nodes.go:189-233 | the user is bound to exactly the non-zero ids or nothing changes; exact refusal condition; one row per pair, tombstones revived, other users untouched |
| Reconcile.Service.Upsert | backend/internal/cluster/sync_nodes.go:101-127 | one listed node changes exactly its entry of the view; refused exactly when its mirror was removed locally |
| Reconcile.Service.DisableUnlisted | backend/internal/cluster/sync_nodes.go:129-139 | exactly the unlisted mirrors of the server end up disabled |
| Reconcile.Service.SyncRemoteNodes | backend/internal/cluster/sync_nodes.go:34-143 | the view after a sync is the specified function of the view before and the list; other servers untouched |
| Reconcile.NewDisabledNodeIsEnabled | backend/internal/cluster/sync_nodes.go:101-127 | a new node listed once as disabled ends up enabled, and disabled only by the next sync |
| Reconcile.SyncIsExact | backend/internal/cluster/sync_nodes.go:101-139 | every listed node has one mirror with the last listed material, the rest is disabled, with the exact exception for the flag |

## Left out

- GORM, SQLite, YAML, JSON, HTTP handlers, cryptography and the reading of `/proc` are parameters or absent.
- Processes the manager did not spawn itself, reuse of process ids, and crash alerts.
- Stage names and timestamps of jobs, the download of releases from GitHub and the syntax of versions.
- That the applied YAML is the newest one: generating and applying it are not one critical section.
- Shadowsocks, snell and sudoku in the credential agreement: server and client prefer different sources there.
- User fields that are not credentials (`flow`, `alterId`) and every profile option besides the credential.
- Registry.Service.Generate: the configuration routes and the start of the panel generate without the lock, so their writes can fall between two statements of a mutator.
- Registry.Service.Update: the certificate store that autofill reads is part of the parameter `autofill`, which does not change.
- Other writers of listener rows: the node service, whose create, update and delete have no route, and the repair of duplicate names at start-up.
- The compilation of the listeners of a generation, and its refusal when all of them are skipped.
- ConfigFit.FitIsIdempotent: the schema tables are parameters; what they say about credentials, certificates and obfuscation options is stated in `LawfulPanel`.
- ListenerModel.ClashIsSymmetric: addresses that are no IP addresses are compared with ASCII folding only.
- Names.MergeDocument: fetching and parsing the documents; names of local proxies are not protected against the prefix of a server.
- Reconcile.Service.SyncRemoteNodes: the answers of the remote panel are the input, and the share material of a node is one text.
- Creating, listing and deleting templates, listing and diffing versions, and the read-only queries, which would add only easy members.

# Verified model of Minecraft Server Hub's protocols and algorithms

This project models, in Dafny 4.11, the parts of the desktop application and of
its developer tool whose correctness is not visible from one function body, and
proves what they promise. `dafny verify dfyconfig.toml` checks all of it.

| File | What it models |
|---|---|
| `BrowserAuthRecord.dfy` | the mutex-guarded record of the browser login, as a class; one method for each locked section |
| `BrowserAuthProtocol.dfy` | start, poll and cancel as a transition system over those sections and the awaits between them |
| `BrowserAuthOutcomes.dfy` | what each step of a login comes to, said of the fields, and a login that succeeds |
| `Notifications.dfy` | the Discord notification service, as a class, and the functions its sections compute |
| `NotificationDispatch.dfy` | commands, event sources and the worker around the service, with the dispatch lock |
| `NotificationSections.dfy` | the sections of the dispatch, run without interruption, are the methods of the service |
| `NotificationState.dfy` | what the shown results and the enabled configurations satisfy in every run |
| `NotificationOutcomes.dfy` | what the steps of a notification come to, said of the fields, and one that is delivered |
| `ServerLifecycle.dfy`, `ServerName.dfy`, `Delivery.dfy` | the lifecycle automaton, the sanitised server name, the retry loop |
| `Crossplay.dfy` | the rewriting of Geyser's configuration and the loop that checks it |
| `CrossplayMeaning.dfy` | what is written and accepted, said of the text: which lines, and that the number on them is the port |
| `Backup.dfy`, `Restore.dfy` | writing, scanning and extracting an archive; the exchange of folders on a disk that fails |
| `BackupSelection.dfy`, `BackupOutcomes.dfy` | which paths an archive holds and which of them protected, component by component; why writing fails and what becomes of each entry |
| `SupplyChainDiff.dfy`, `SupplyChainCompare.dfy` | the comparison of two dependency snapshots: its meaning and laws, and its loops |
| `SupplyChainReasons.dfy` | which entries two snapshots call for, said of the packages' fields, and in which order |
| `DependencyInventory.dfy`, `LicenseReview.dfy` | merging packages; review items, register, summary and gate |
| `LicenseOutcomes.dfy` | which decision is recorded, active or refused, the gate and the order of items, said of the fields |
| `NeoForge.dfy` | reading the build list, mapping builds to versions, choosing a build |
| `NeoForgeMeaning.dfy` | how numbers and builds read, which version is newer, where an element begins and ends |
| `Merging.dfy`, `Sequences.dfy`, `Text.dfy`, `Options.dfy` | insertion-ordered merging, sums and the sort (proved to order, to keep what it sorts and to be stable), string operations |

## How it is modelled

* **Login.** A step is one locked section or one await of one command; a run is
  any sequence of steps, where a step that is not enabled changes nothing, so
  every theorem is about all interleavings of any number of calls. The clock and
  the poisoning of the mutex are steps too. The account service never issues a
  request id twice. Generations are natural numbers.
* **Notifications.** The holder of the dispatch lock has a program of sections
  and runs one per step. Calls that hold no lock read a configuration in the
  three sections that `config` really has (cache, credential store, cache) and
  may queue a job, between any two steps of the holder. Generations are numbers
  given out upwards, which stands for fresh identifiers and lets a theorem say
  "older". Membership, session binding, the URL check and whether the server is
  known are inputs of the worker's step. A test notification is queued like any
  other event and then reported as queued. The class `DiscordService` is the same
  service with each method run as a whole: `SavingRuns`, `DisablingRuns`,
  `LocaleRuns` and `CallRuns` show that a program or a call whose sections nothing
  interrupts has exactly the effect of the method.
* **Crossplay.** The loops work on lines; `ConfigureText` is the whole
  configuration of a file, from the text that is read to the text that is written,
  with the choice of the line ending.
* **Backup.** A folder is a map from paths to nodes; the walk is any sequence
  that covers the folder and names every folder before what is in it. The
  operating system's protection is a pair of functions that are inverse for
  equal scopes, with a recognisable blob that grows by at most 8 MiB. An archive
  on the disk is readable or damaged, and reading all entries tells which.
* **Restore.** Each operation on the disk has its own fault; a failed removal
  leaves an arbitrary rest, a failed extraction an arbitrary staging folder. The
  disk keeps every state it has been in, so the theorem is about each of them.
* **Supply chain.** `localeCompare` is an arbitrary comparison; the laws hold for
  each. Sorting is the stable sort. The review hash is an arbitrary function, so
  items are merged by id. Dates are integers.

## What turned out false, and exactly when

* *Once a delete, save or disable has completed, no POST for an older
  configuration starts.* The lazy load of a configuration is not covered by the
  dispatch lock: a call can read the credential store, be overtaken by a delete,
  and then put the deleted configuration back into the cache, where the worker
  finds it. `DeletedConfigurationCanPost` builds such a run for every deliverable
  configuration. `StrayPostsExactly` gives the condition, for every reachable
  state in which no save, disable, delete or change of the locale is half done:
  without a further one such a POST is possible if and only if a locale is set
  and a call or the cache holds a deliverable configuration that is not the saved
  one. `EveryPostIsFenced` and `NothingOlderIsPosted` prove the promise for every
  run in which no save or delete overtook a read. The promise about locales holds
  in every run.
* *Configuring crossplay twice changes nothing the second time.* There are two ways
  to fail. An unindented `auth-type:` line that ends in a colon starts a section
  for the first run and is a plain line for the second (`OneRunIsNotEnough`). And
  where the file has no "\r\n", a last line that is left alone and ends in a bare
  carriage return gets a line feed behind it, so that the second run takes the
  file for one with "\r\n" and ends every line anew (`BareReturnIsNotEnough`, a
  file without any auth-type line). `SecondRunChangesNothing` is the condition for
  every accepted file: it holds if and only if neither is the case. What is
  accepted once is accepted again, and two runs are always enough.
* *Every listed NeoForge version can be downloaded.* A build whose part before
  the hyphen has fewer than three components is listed but never found
  (`ShortBuildIsLost`). A listed version can be found if and only if some
  three-component build in the list is for it (`ListedIsFoundExactly`).
* *The list of NeoForge versions names each version once.* Only neighbours are
  removed, and the sort compares numbers: "1.21.x", "1.21.0", "1.21.x" stay as they
  are (`SampleRepeats`, and `SameNumbersRepeat` for every such pair). The list
  repeats a version if and only if, in the order in which the builds are given,
  two builds of it have one of another version with the same numbers between them
  (`WholeListRepeatsExactly`); where the list is cut off at forty, the second of
  them must also stand on one of the listed places (`RepeatsExactly`).
* *The polling flag is never left set.* While the mutex works the flag is set
  exactly when a poll in flight works on the attempt (`PollingFlagIsExact`). A poll
  that finds the mutex poisoned cannot reset it; `FlagCanStick` is a run that ends
  with every command returned and the flag set. `FlagSticksExactly` gives the
  condition: after the mutex is poisoned the flag is set, now and for good, if and
  only if a poll was in flight on the pending attempt at that moment. No two polls
  work on one attempt in either case. Such a run needs a panic in a locked section
  that leaves the attempt in the record, and as they are written none of them has
  anything in it that panics: the one call out of a section, `store_session`, is
  made after the attempt was taken out.
* *A restoration that reports an error has changed nothing.* When only the removal
  of the old folder fails, the restored folder is already in place
  (`StopsReplaced`); when both renames fail the old folder stays aside
  (`StopsAside`); and when the first rename fails the whole extracted folder is
  left beside the server's (`StopsBeside`). `RestoreBackup` says for all faults
  which of the endings it is and what is left of the staging folder.
* *An exact match is either unchanged or reported.* A package whose advisories
  were exchanged for as many others is neither (`ExchangedAdvisoryIsSilent`);
  `UnchangedIsSilent` characterises both.

## Model

| member | source | states |
|---|---|---|
| BrowserAuthRecord.BrowserAuthState.constructor | src-tauri/src/account_auth.rs:41-51 | the record starts without an attempt |
| BrowserAuthRecord.BrowserAuthState.Begin | src-tauri/src/account_auth.rs:748-753 | a start gets a newer generation, becomes the current one and hands out the attempt it displaces |
| BrowserAuthRecord.BrowserAuthState.TryInstall | src-tauri/src/account_auth.rs:838-850 | the attempt is installed exactly when generation and client are still those of this start |
| BrowserAuthRecord.BrowserAuthState.ClearStartIfCurrent | src-tauri/src/account_auth.rs:699-707 | the failure cleanup touches the record only for the current start |
| BrowserAuthRecord.BrowserAuthState.ClaimForPoll | src-tauri/src/account_auth.rs:901-933 | exactly when each of the five answers is given, on the fields; only a claim sets the flag and only expiry drops the attempt |
| BrowserAuthRecord.BrowserAuthState.ResetBrowserPoll | src-tauri/src/account_auth.rs:709-716 | the flag is reset for the attempt of this request only |
| BrowserAuthRecord.BrowserAuthState.ClearBrowserAttempt | src-tauri/src/account_auth.rs:718-729 | an attempt is dropped under a new generation, if it is the pending one |
| BrowserAuthRecord.BrowserAuthState.CommitSession | src-tauri/src/account_auth.rs:1049-1083 | exactly when each of the four results is given, on the fields, and what is left of the record |
| BrowserAuthRecord.BrowserAuthState.CancelAttempt | src-tauri/src/account_auth.rs:1128-1136 | a cancel that matches takes the attempt and the start away under a new generation |
| BrowserAuthProtocol.StoreIsFenced | src-tauri/src/account_auth.rs:748-1136 | in every run a session is stored only for the attempt that the most recent start installed, before its deadline, with no cancel since, and once for a request |
| BrowserAuthProtocol.RequestInOnePlace | src-tauri/src/account_auth.rs:754-879 | each request id a start obtained is in exactly one place: being installed, pending, owed a cancel, cancelled, or used up |
| BrowserAuthProtocol.DisplacedIsCancelledOnce | src-tauri/src/account_auth.rs:754-762 | an installed attempt displaced by a start or a cancel gets exactly one remote cancel |
| BrowserAuthProtocol.CleanupKeepsPending | src-tauri/src/account_auth.rs:699-707 | the failure cleanup of a start never drops an installed attempt |
| BrowserAuthProtocol.PollingFlagIsExact | src-tauri/src/account_auth.rs:901-1083 | while the mutex works the flag is set exactly when one poll in flight works on the attempt; never do two, with or without it |
| BrowserAuthProtocol.RecordIsFrozen | src-tauri/src/account_auth.rs:699-729 | once the mutex is poisoned nothing changes the record any more, whatever runs |
| BrowserAuthProtocol.FlagSticksExactly | src-tauri/src/account_auth.rs:709-716 | after the mutex was poisoned the flag stays set if and only if a poll was in flight on the pending attempt at that moment |
| BrowserAuthProtocol.FlagCanStick | src-tauri/src/account_auth.rs:709-716 | a run in which every command has returned and the flag is still set, for any valid ids |
| BrowserAuthProtocol.TokenDisposedOnce | src-tauri/src/account_auth.rs:1014-1114 | each receipt of a valid token is matched by one store or one revocation, on every path and interleaving |
| BrowserAuthProtocol.InvRun | src-tauri/src/account_auth.rs:731-1147 | the invariant behind these theorems holds after every run |
| BrowserAuthProtocol.CallsShrink | src-tauri/src/account_auth.rs:731-1147 | every step of a command brings it nearer to its return |
| BrowserAuthProtocol.CallsNeverStick | src-tauri/src/account_auth.rs:731-1147 | a command that has not returned can take a step |
| BrowserAuthOutcomes.CommitStoresExactly | src-tauri/src/account_auth.rs:1049-1114 | a commit stores the session if and only if the attempt of this id is pending with its flag set and its client current, its deadline has not come and the write succeeds; in every other case the token goes on to be revoked |
| BrowserAuthOutcomes.StoredExactly | src-tauri/src/account_auth.rs:1049-1114 | in every run flag and client are as they should be: the session is stored if and only if the attempt is still pending, in time, and the write succeeds |
| BrowserAuthOutcomes.LoginSucceeds | src-tauri/src/account_auth.rs:731-1083 | for any valid ids and token, a run from the start to the stored session |
| BrowserAuthOutcomes.IdsAreHex | src-tauri/src/account_auth.rs:114-124 | ids are 32 lower-case hexadecimal digits, tokens 64 of either case |
| BrowserAuthOutcomes.StartTakesOver | src-tauri/src/account_auth.rs:732-762 | a start with a valid client id takes the record over and goes on to cancel what it displaced; any other returns at once |
| BrowserAuthOutcomes.ReplyOpensAttempt | src-tauri/src/account_auth.rs:769-837 | a well-formed reply opens an attempt that lives ten minutes, a refused one is cancelled, and one without a valid id only cleaned up |
| BrowserAuthOutcomes.InstalledExactly | src-tauri/src/account_auth.rs:838-879 | the attempt is installed if and only if generation and client are those of this start; otherwise it is cancelled |
| BrowserAuthOutcomes.PollAsksExactly | src-tauri/src/account_auth.rs:891-933 | a poll asks if and only if the pending attempt is its own, in time and polled by nobody else |
| BrowserAuthOutcomes.AnswerIsUsed | src-tauri/src/account_auth.rs:946-1048 | a reply is waited for again, ends the attempt, or brings a token; exactly a well-formed token with an account is committed, and one without is revoked |
| BrowserAuthOutcomes.CancelTakesExactly | src-tauri/src/account_auth.rs:1118-1147 | a cancel takes start and attempt away if and only if it names the current client, and goes on to cancel the attempt |
| BrowserAuthOutcomes.ProceedsOn | src-tauri/src/account_auth.rs:754-1147 | what a call does next: each request it owes a cancel for is cancelled, and each token it holds is revoked |
| BrowserAuthOutcomes.CleanupTouchesOwn | src-tauri/src/account_auth.rs:699-729 | the sections that clean up touch the record only where it is still theirs |
| Notifications.DeliveryNeedsConfirmation | src-tauri/src/discord_notifications.rs:849-866 | settings are refused exactly where the role number is invalid, a target is missing, or something is widened without confirmation; otherwise the whole new configuration, switched on only as asked for and with the mentions left alone |
| Notifications.QueueGrowsExactly | src-tauri/src/discord_notifications.rs:344-387 | an event puts its job at the end of the queue if and only if the configuration is enabled, its own field for the event is true (a test needs none), a locale is set, no such event was queued within ten seconds and the queue has room below 32 |
| Notifications.EnqueueReports | src-tauri/src/discord_notifications.rs:344-387 | what the server shows after an event: a missing locale or a full queue is reported, everything else leaves the result alone |
| Notifications.MentionsExactly | src-tauri/src/discord_notifications.rs:87-110 | mentions are valid exactly where the role number is empty or 17 to 22 digits, and given where a role is to be mentioned |
| Notifications.SaveShows | src-tauri/src/discord_notifications.rs:235-289 | after a save the server shows no result |
| Notifications.JobResultShows | src-tauri/src/discord_notifications.rs:258-289 | a job's result shows if and only if its configuration and its locale are still the live ones |
| Notifications.ReadingStays | src-tauri/src/discord_notifications.rs:221-234 | reading a configuration changes no cached one, no result and no queue |
| Notifications.SavedOverCached | src-tauri/src/discord_notifications.rs:221-245 | caching a reading makes no difference to what is saved over it |
| Notifications.DisabledIsFinal | src-tauri/src/discord_notifications.rs:290-300 | after disabling no job of the server is queued and its result is "cancelled" |
| Notifications.PurgeTwice | src-tauri/src/discord_notifications.rs:298 | purging the queue once more changes nothing |
| Notifications.DiscordService.constructor | src-tauri/src/discord_notifications.rs:173-186 | the service starts empty and without a locale |
| Notifications.DiscordService.ReadConfig | src-tauri/src/discord_notifications.rs:221-234 | the cached configuration comes first, and a saved one is cached |
| Notifications.DiscordService.Save | src-tauri/src/discord_notifications.rs:235-245 | a save takes the jobs, the result and the recent event of the server with it; a failed write changes nothing |
| Notifications.DiscordService.SaveDisabled | src-tauri/src/discord_notifications.rs:292-296 | the disabled configuration is saved and reported as cancelled |
| Notifications.DiscordService.Disable | src-tauri/src/discord_notifications.rs:290-300 | the whole new state, with and without a configuration, and when the write fails |
| Notifications.DiscordService.Purge | src-tauri/src/discord_notifications.rs:241 | exactly the jobs of the server leave the queue |
| Notifications.DiscordService.Record | src-tauri/src/discord_notifications.rs:246-257 | a result is recorded only under the live configuration generation |
| Notifications.DiscordService.RecordJob | src-tauri/src/discord_notifications.rs:258-263 | and a job's result only under the live locale generation as well |
| Notifications.DiscordService.CancelJobs | src-tauri/src/discord_notifications.rs:197-199 | exactly the servers with a job of their live configuration show "cancelled" |
| Notifications.DiscordService.CancelTests | src-tauri/src/discord_notifications.rs:200-208 | exactly the live results that say "queued" become "cancelled" |
| Notifications.DiscordService.SetLocale | src-tauri/src/discord_notifications.rs:174-210 | an effective change empties queue and recent events and withdraws what was waiting; any other call changes nothing |
| Notifications.DiscordService.Enqueue | src-tauri/src/discord_notifications.rs:344-387 | the whole new state after an event: cache, queue, recent events and results |
| Notifications.LocaleChangedShows | src-tauri/src/discord_notifications.rs:187-210 | after a change of the locale what was queued or reported as queued shows as cancelled, every other result stays, and nothing is shown as queued |
| NotificationSections.SavingRuns | src-tauri/src/discord_notifications.rs:235-245 | the sections of a save, run without interruption, have the effect of the method and record that it is complete |
| NotificationSections.DisablingRuns | src-tauri/src/discord_notifications.rs:290-300 | so do those of a disable |
| NotificationSections.DeletingRuns | src-tauri/src/discord_notifications.rs:887-902 | a delete takes configuration, jobs and result of the server and leaves everything else |
| NotificationSections.LocaleRuns | src-tauri/src/discord_notifications.rs:174-210 | the sections of a locale change, one report for each drained job among them, have the effect of the method |
| NotificationSections.CallRuns | src-tauri/src/discord_notifications.rs:344-387 | a call that reads, drafts and queues section by section has the effect of the method, and reports a test notification after it |
| NotificationOutcomes.EventIsDelivered | src-tauri/src/discord_notifications.rs:344-492 | from any state at rest: an event that the configuration asks for is queued, posted under this configuration in the active locale, and shows as sent |
| NotificationOutcomes.DraftedExactly | src-tauri/src/discord_notifications.rs:344-362 | a call drafts a job if and only if the configuration asks for the event and a locale is set, and which job |
| NotificationOutcomes.DraftIsQueued | src-tauri/src/discord_notifications.rs:363-387 | a drafted job is queued if and only if no such event was queued moments ago and fewer than 32 jobs wait |
| NotificationOutcomes.WorkerProceeds | src-tauri/src/discord_notifications.rs:415-431 | the worker takes the oldest job, and goes on with it if and only if the locale is still the job's; a job may expire |
| NotificationOutcomes.PostedExactly | src-tauri/src/discord_notifications.rs:432-482 | a job is posted if and only if server and session are known, the configuration is of its generation and asks for the event, the mentions are valid and so is the URL; what it is finished as otherwise |
| NotificationOutcomes.AnsweredExactly | src-tauri/src/discord_notifications.rs:574-592 | what the worker makes of a reply: a third attempt is the last, and only an acceptable delay leads to another one |
| NotificationOutcomes.FinishShows | src-tauri/src/discord_notifications.rs:483-489 | the result shows if and only if the job's configuration and locale are the live ones |
| NotificationOutcomes.DisqualifiedDisables | src-tauri/src/discord_notifications.rs:436-439 | a lost qualification disables the server: which sections run, and with which configuration |
| NotificationOutcomes.WithdrawalEnds | src-tauri/src/discord_notifications.rs:436-439 | and the job is then finished as unqualified, with the lock free |
| NotificationOutcomes.DestinationSaved | src-tauri/src/discord_notifications.rs:794-828 | a new destination is saved switched off with every event selected, unless its role number is invalid |
| NotificationOutcomes.SettingsSaved | src-tauri/src/discord_notifications.rs:829-875 | settings are saved as decided, and what was under way shows as cancelled if delivery was on or the mentions changed |
| NotificationOutcomes.OtherCommands | src-tauri/src/discord_notifications.rs:788-903 | which sections the other commands run; a locale that is unknown or set already runs none |
| NotificationDispatch.EveryPostIsChecked | src-tauri/src/discord_notifications.rs:432-482 | in every run a POST is under an enabled configuration of the job's generation whose own field for the event is true (a test needs none), in the active locale, as one of three attempts |
| NotificationDispatch.EveryPostIsFenced | src-tauri/src/discord_notifications.rs:432-482 | and under the saved configuration, as long as no save or delete overtook a read |
| NotificationDispatch.NothingOlderIsPosted | src-tauri/src/discord_notifications.rs:789-903 | after a save, disable, delete or locale change has completed nothing older is posted; for configurations on the same condition |
| NotificationDispatch.StrayPostsExactly | src-tauri/src/discord_notifications.rs:221-234 | for every reachable state with no command half done: exactly when a configuration that is not the saved one can still be posted under without a further save, disable or delete |
| NotificationDispatch.DeletedConfigurationCanPost | src-tauri/src/discord_notifications.rs:221-234 | a run that posts under a deleted configuration, for every deliverable one |
| NotificationDispatch.PostsAreNumbered | src-tauri/src/discord_notifications.rs:579-592 | the POSTs of one queue entry are its first, second and third attempt at most |
| NotificationDispatch.QueueIsBounded | src-tauri/src/discord_notifications.rs:363-374 | the queue never holds more than 32 jobs |
| NotificationDispatch.QueueGrowsExactly | src-tauri/src/discord_notifications.rs:344-387 | of all steps only that of a drafted call puts a job into the queue: its own, at the end, and while there is room |
| NotificationDispatch.EverythingComesToRest | src-tauri/src/discord_notifications.rs:388-492 | from every reachable state the lock can come free, the worker back to idle and the queue empty |
| NotificationDispatch.CallsShrink | src-tauri/src/discord_notifications.rs:344-387 | every section of a call brings it nearer to its return |
| NotificationDispatch.InvRun | src-tauri/src/discord_notifications.rs:388-492 | the invariant behind these theorems holds after every run |
| NotificationState.StepRecordsLive | src-tauri/src/discord_notifications.rs:246-263 | whatever step is taken, a result is recorded only for the live configuration |
| NotificationState.ResultsWereLive | src-tauri/src/discord_notifications.rs:246-263 | every result there is was recorded while its generation was live |
| NotificationState.ShownResultIsOfLiveConfig | src-tauri/src/discord_notifications.rs:264-289 | the result shown for a server was recorded while the configuration that is live now was live |
| NotificationState.EnabledHasTarget | src-tauri/src/discord_notifications.rs:794-875 | in every run an enabled configuration that mentions a role has a role number of 17 to 22 digits |
| ServerLifecycle.LifecycleTable.constructor | src-tauri/src/discord_notifications.rs:301-309 | no server is known at first |
| ServerLifecycle.LifecycleTable.Spawn | src-tauri/src/discord_notifications.rs:301-309 | a spawned server is starting and no stop is expected |
| ServerLifecycle.LifecycleTable.Stop | src-tauri/src/discord_notifications.rs:310-314 | a known server expects a stop |
| ServerLifecycle.LifecycleTable.FailStop | src-tauri/src/discord_notifications.rs:315-319 | a failed stop withdraws the expectation |
| ServerLifecycle.LifecycleTable.Observe | src-tauri/src/discord_notifications.rs:320-343 | which notification an observed state causes, and what is remembered |
| ServerLifecycle.StateExactly | src-tauri/src/discord_notifications.rs:301-343 | after any history the remembered state is the one set last |
| ServerLifecycle.KnownExactly | src-tauri/src/discord_notifications.rs:301-343 | a server is known exactly when something set a state |
| ServerLifecycle.StopExactly | src-tauri/src/discord_notifications.rs:310-338 | a stop is expected exactly when one was requested of a known server and not withdrawn since |
| ServerLifecycle.StartedExactly | src-tauri/src/discord_notifications.rs:600-606 | exactly when "started" goes out in a history |
| ServerLifecycle.ExitExactly | src-tauri/src/discord_notifications.rs:607-617 | exactly when "stopped" and when "crashed" goes out: on which observation, with or without a standing request, right out of starting, running or stopping |
| ServerLifecycle.ExitsAlternate | src-tauri/src/discord_notifications.rs:600-617 | between two reported exits the server was seen starting, running or stopping |
| ServerName.SafeServerName | src-tauri/src/discord_notifications.rs:618-642 | at most 64 characters, no control or bidi character, every "@" followed by its zero-width space, and it is the longest prefix that fits |
| ServerName.RenderSafe | src-tauri/src/discord_notifications.rs:618-640 | whatever the name, what is written holds no bare "@" and nothing unprintable |
| ServerName.RenderMeans | src-tauri/src/discord_notifications.rs:618-640 | what is written for each character: an "@" gets its zero-width space, a control or direction character becomes a space |
| ServerName.TrimEndKeepsSafe | src-tauri/src/discord_notifications.rs:641 | the final trim cannot separate an "@" from its zero-width space |
| ServerName.TrimStartKeepsSafe | src-tauri/src/discord_notifications.rs:641 | nor can trimming the front |
| Delivery.Deliver | src-tauri/src/discord_notifications.rs:574-592 | which of three attempts decides the result, that only a delay of 0 to 30 seconds is retried, and exactly how long is waited: what was asked for, but at least a second |
| Crossplay.HeadersAfter | src-tauri/src/crossplay.rs:119-125 | the rewriting keeps every section header except the auth-type ones, which never open the bedrock section |
| Crossplay.TargetSays | src-tauri/src/crossplay.rs:126-135 | every line the rewriting targets says its setting in the output, in the section where the check looks for it |
| Crossplay.Configure | src-tauri/src/crossplay.rs:113-150 | the rewriting succeeds exactly when every line it has to set is there, and gives the rewritten lines; CrossplayMeaning says what they read |
| Crossplay.ConfigMatches | src-tauri/src/crossplay.rs:193-215 | the check accepts exactly when each setting is said somewhere |
| Crossplay.ConfigureFile | src-tauri/src/crossplay.rs:106-152 | the whole configuration of a file, from the text read to the text written, with its line ending |
| Crossplay.RewriteAt | src-tauri/src/crossplay.rs:118-139 | the number of lines stays and only targeted lines differ |
| Crossplay.RewrittenReads | src-tauri/src/crossplay.rs:126-135 | a rewritten line keeps its indent, reads as its setting and starts no section |
| Crossplay.SectionsAfter | src-tauri/src/crossplay.rs:119-125 | the sections of the output are those of the input without its auth-type headers |
| Crossplay.CheckAcceptsRewriting | src-tauri/src/crossplay.rs:113-216 | whatever the rewriting accepts, the check accepts its output |
| Crossplay.AcceptedAgain | src-tauri/src/crossplay.rs:140-150 | whatever the rewriting accepts it accepts again, so a second configuration does reach the second rewriting |
| Crossplay.WrittenFileMatches | src-tauri/src/crossplay.rs:107-216 | also when the output is written with either line ending and read back |
| Crossplay.SecondRunChangesNothing | src-tauri/src/crossplay.rs:106-152 | for every accepted file, written and read back in between: a second configuration changes nothing if and only if every line was left settled and no bare carriage return was left at the end of a file without "\r\n" |
| Crossplay.WrittenIsAccepted | src-tauri/src/crossplay.rs:106-152 | the written file is accepted again |
| Crossplay.OneRunIsEnough | src-tauri/src/crossplay.rs:106-152 | which is so without unindented auth-type headers and such a carriage return |
| Crossplay.TwoRunsAreEnough | src-tauri/src/crossplay.rs:106-152 | a third configuration never changes an accepted file |
| Crossplay.OneRunIsNotEnough | src-tauri/src/crossplay.rs:113-152 | a file of five lines that is accepted both times and that the second configuration changes once more |
| Crossplay.BareReturnIsNotEnough | src-tauri/src/crossplay.rs:106-152 | so is a file without any auth-type line, every line settled, that ends in a bare carriage return |
| CrossplayMeaning.ConfiguredMeans | src-tauri/src/crossplay.rs:106-152 | of the text that is read and the one that is written: accepted if and only if the lines that have to be set are there; every one of them keeps its indent and then says its setting, the port as a decimal number that reads as the port; every other line stays |
| CrossplayMeaning.DecimalReads | src-tauri/src/crossplay.rs:128 | the digits that are written read, from left to right, as the number, without a leading zero |
| CrossplayMeaning.ReadsOnce | src-tauri/src/crossplay.rs:128 | and no other digits do |
| CrossplayMeaning.UsualPort | src-tauri/src/crossplay.rs:128 | for instance 19132 |
| CrossplayMeaning.KindMeans | src-tauri/src/crossplay.rs:118-135 | which lines are set: the port and the cloning flag in the bedrock section, the auth type wherever it stands |
| CrossplayMeaning.SectionMeans | src-tauri/src/crossplay.rs:119-125 | a line is in the bedrock section if and only if the last line before it that opens a section names bedrock |
| CrossplayMeaning.MatchesMeans | src-tauri/src/crossplay.rs:193-216 | the check accepts a file if and only if it shows the port in decimal, no cloning and, where asked for, floodgate, each in its place |
| Backup.ScanSource | src-tauri/src/backup.rs:556-586 | the announced size and number are the saturated sums over the kept regular files |
| Backup.WriteZip | src-tauri/src/backup.rs:588-694 | the entries in the order of the walk, the first failure, and the saturated counts of what was written; BackupSelection says which entries and how stored |
| Backup.WritingFailsExactly | src-tauri/src/backup.rs:638-653 | writing fails exactly where the protected file is kept and is too large or cannot be protected |
| Backup.ScanAnnouncesWriting | src-tauri/src/backup.rs:556-694 | the announced number and size are those of the files in the archive that is then written, once extracted |
| Backup.EssentialAncestors | src-tauri/src/backup.rs:722-750 | whatever is essential, so is every folder above it |
| Backup.AncestorsAreKept | src-tauri/src/backup.rs:715-750 | in either scope all folders above something kept are kept |
| Backup.ExtractArchive | src-tauri/src/backup.rs:307-360 | the tree that the entries make one after the other, or the first failure |
| Backup.ContentComesBack | src-tauri/src/backup.rs:335-357 | what was stored for a file comes back as it was, protected or not |
| Backup.RoundTrip | src-tauri/src/backup.rs:307-360 | extracting a written archive under the same profile and id gives exactly the kept tree |
| BackupSelection.ArchiveHoldsProperly | src-tauri/src/backup.rs:638-709 | in a written archive of a Palworld profile every file whose path is Pal/Saved/Config/WindowsServer/PalWorldSettings.ini, in any case of the letters, is stored protected for the scope made of profile, backup and lower-cased name, recognisably so if the protection works; every other file is stored as it is |
| BackupSelection.SettingsAreProtected | src-tauri/src/backup.rs:696-699 | for instance the settings under the name that the game itself uses |
| BackupSelection.ArchiveNames | src-tauri/src/backup.rs:606-637 | an archive has an entry for every kept path of the walk, and for no other |
| BackupSelection.KeptMeans | src-tauri/src/backup.rs:715-720 | everything is kept but links, the root and the folder of the application; in the small scope only what is essential |
| BackupSelection.EssentialMeans | src-tauri/src/backup.rs:722-750 | what is essential, component by component and in any case of the letters: the six folders and what is in them, the folders above them, not the logs, crashes and profiles, and not the paks of the game |
| BackupOutcomes.WritingEnds | src-tauri/src/backup.rs:638-653 | writing ends with the first obstacle on the walk, the settings of a Palworld server being larger than 8 MiB or not protected, and with an archive if there is none |
| BackupOutcomes.PlacedExactly | src-tauri/src/backup.rs:317-357 | for every entry: refused for a component that escapes, for a file where a folder is needed or the reverse, or for settings that are too large or do not open; otherwise the tree that it leaves, path by path |
| BackupOutcomes.FoldersMade | src-tauri/src/backup.rs:330-334 | all folders on the way are made, unless something else is in the way |
| BackupOutcomes.EscapesExactly | src-tauri/src/backup.rs:322-328 | which names are refused, character by character |
| Restore.Disk.CreateBackup | src-tauri/src/backup.rs:183-235 | the safety archive is kept only if it can be read back, and is the archive of the folder |
| Restore.Disk.CreateStaging | src-tauri/src/backup.rs:276-279 | an empty staging folder, if there was none of that name |
| Restore.Disk.SetStaging | src-tauri/src/backup.rs:325-357 | one more state of the staging folder while it is filled |
| Restore.Disk.ExtractInto | src-tauri/src/backup.rs:280-283 | extraction fills the staging folder only, entry by entry |
| Restore.Disk.RenameAway | src-tauri/src/backup.rs:290 | the server folder moves as a whole or not at all |
| Restore.Disk.RenameIn | src-tauri/src/backup.rs:291 | so does the extracted folder |
| Restore.Disk.RenameBack | src-tauri/src/backup.rs:292 | and the folder that is moved back |
| Restore.Disk.RemoveStaging | src-tauri/src/backup.rs:293 | a removal may leave a rest of the staging folder |
| Restore.Disk.RemovePrevious | src-tauri/src/backup.rs:296-303 | or of the old folder |
| Restore.Stage | src-tauri/src/backup.rs:272-289 | staging succeeds exactly when the whole archive was extracted and holds server.properties; the server folder is untouched |
| Restore.Swap | src-tauri/src/backup.rs:290-305 | through every state of the exchange the server folder is whole, and exactly how it ends |
| Restore.RestoreBackup | src-tauri/src/backup.rs:248-305 | in every state, whichever operations fail, the complete old folder is in place or aside until the complete restored one is in place, never a part, with a readable safety archive from the first rename on; and for all faults exactly how it ends: nothing changed, the old folder aside, or the restored one in place with or without a rest of the old one; with which error; and what is left of the staging folder |
| Restore.StagedMeans | src-tauri/src/backup.rs:248-289 | a restoration gets as far as the exchange if and only if the archive is readable, extracts to a folder with server.properties, the safety archive could be written and read, and nothing failed on the way |
| Restore.EndingMeans | src-tauri/src/backup.rs:290-305 | for each combination of faults in the exchange where the two folders are, what is left of the staging folder, and that only a complete one is a success |
| Restore.LeftMeans | src-tauri/src/backup.rs:272-289 | what a restoration that stops before leaves of the staging folder |
| Restore.RestoreOwnBackup | src-tauri/src/backup.rs:248-305 | restoring the backup just made of a folder ends exactly as the faults of the exchange say |
| Restore.StopsAside | src-tauri/src/backup.rs:291-294 | an error that leaves the old folder aside and nothing in its place |
| Restore.StopsReplaced | src-tauri/src/backup.rs:296-303 | an error although the restored folder is in place, with any rest of the old one |
| Restore.StopsBeside | src-tauri/src/backup.rs:290 | an error that changes neither folder and leaves the whole extracted one beside them |
| Restore.SampleIsRestorable | src-tauri/src/backup.rs:248-305 | a folder to which these endings apply |
| Restore.SafetyArchiveIsComplete | src-tauri/src/backup.rs:265-271 | the safety archive gives back everything a full backup keeps |
| Restore.RestoringTheSafetyArchive | src-tauri/src/backup.rs:248-305 | restoring it results in exactly that tree |
| SupplyChainDiff.PackageKeyIsExact | developer-tools/src/supplyChainDiff.ts:98-99 | equal keys of valid packages mean the same lineage and version |
| SupplyChainDiff.LineageKeyIsExact | developer-tools/src/supplyChainDiff.ts:99 | equal lineage keys mean the same ecosystem and name |
| SupplyChainDiff.PairFlips | developer-tools/src/supplyChainDiff.ts:219-234 | a pair reports mirrored changes from either side |
| SupplyChainDiff.LineageBalance | developer-tools/src/supplyChainDiff.ts:249-263 | in every lineage the surplus of one side is added or removed and each pair is one update, so none has both added and removed |
| SupplyChainDiff.LeftoversAccounted | developer-tools/src/supplyChainDiff.ts:249-263 | every package without an exact match is removed or updated, or added or updated |
| SupplyChainDiff.Conservation | developer-tools/src/supplyChainDiff.ts:236-267 | baseline and current packages are accounted for by exact matches, updates, removals and additions; with unique keys both sides have equally many exact matches |
| SupplyChainDiff.SwapFlips | developer-tools/src/supplyChainDiff.ts:236-267 | however changes are weighed, swapping the arguments weighs the mirrored changes, apart from risks of added packages |
| SupplyChainDiff.SwapExchanges | developer-tools/src/supplyChainDiff.ts:236-267 | swapping exchanges added and removed and keeps the numbers of updates and license changes |
| SupplyChainDiff.SwapExchangesRisks | developer-tools/src/supplyChainDiff.ts:224-233 | swapping exchanges pairwise regressions and improvements |
| SupplyChainDiff.SwapMirrors | developer-tools/src/supplyChainDiff.ts:236-267 | each change is reported as often as its mirror image the other way round |
| SupplyChainDiff.SelfComparison | developer-tools/src/supplyChainDiff.ts:236-267 | a snapshot compared with itself has no changes |
| SupplyChainDiff.SelfUnchanged | developer-tools/src/supplyChainDiff.ts:243-248 | and all packages are unchanged exactly when no key is repeated |
| SupplyChainDiff.UnchangedIsSilent | developer-tools/src/supplyChainDiff.ts:247 | exactly when an exact match reports nothing, and when it counts as unchanged |
| SupplyChainDiff.ExchangedAdvisoryIsSilent | developer-tools/src/supplyChainDiff.ts:244-247 | two valid packages that match exactly, report nothing and do not count as unchanged |
| SupplyChainDiff.JoinIsExact | developer-tools/src/supplyChainDiff.ts:247 | comparing joined advisory lists compares the lists |
| SupplyChainCompare.DiffResult.constructor | developer-tools/src/supplyChainDiff.ts:238 | the result starts empty |
| SupplyChainCompare.DiffResult.Push | developer-tools/src/supplyChainDiff.ts:211-215 | an entry goes to the list of its kind |
| SupplyChainCompare.DiffResult.ComparePair | developer-tools/src/supplyChainDiff.ts:219-234 | the changes of a pair are pushed in order |
| SupplyChainCompare.DiffResult.CompareVersion | developer-tools/src/supplyChainDiff.ts:220 | an update is pushed exactly when the versions differ |
| SupplyChainCompare.DiffResult.CompareLicense | developer-tools/src/supplyChainDiff.ts:221-223 | a license change, with its reason |
| SupplyChainCompare.DiffResult.CompareRisk | developer-tools/src/supplyChainDiff.ts:224-233 | regressions and improvements, with their reasons in order |
| SupplyChainCompare.DiffResult.CompareMatch | developer-tools/src/supplyChainDiff.ts:244-247 | an exact match is compared, and counted if unchanged |
| SupplyChainCompare.DiffResult.CompareKeys | developer-tools/src/supplyChainDiff.ts:243-248 | all exact matches, the unchanged count and the matched keys |
| SupplyChainCompare.DiffResult.CompareExact | developer-tools/src/supplyChainDiff.ts:239-248 | the same for two snapshots, where the last package of a key counts |
| SupplyChainCompare.DiffResult.CompareLineage | developer-tools/src/supplyChainDiff.ts:253-262 | pairs by position, then what is left of either side |
| SupplyChainCompare.DiffResult.Remove | developer-tools/src/supplyChainDiff.ts:257 | one removal for each surplus package |
| SupplyChainCompare.DiffResult.Add | developer-tools/src/supplyChainDiff.ts:258-262 | one addition for each surplus package, with its risks |
| SupplyChainCompare.DiffResult.AddOne | developer-tools/src/supplyChainDiff.ts:259-261 | an addition, and a regression if the package brings a risk |
| SupplyChainCompare.DiffResult.CompareLeftovers | developer-tools/src/supplyChainDiff.ts:249-263 | every lineage in the order in which it came up |
| SupplyChainCompare.DiffResult.SortLists | developer-tools/src/supplyChainDiff.ts:264 | the lists keep their entries and are sorted |
| SupplyChainCompare.CompareSnapshots | developer-tools/src/supplyChainDiff.ts:236-267 | refused exactly for an invalid snapshot; otherwise the lists hold exactly the changes, sorted, and the unchanged count; SupplyChainReasons says which changes |
| SupplyChainCompare.ListLength | developer-tools/src/supplyChainDiff.ts:265 | the length of a list is the number of changes of its kind |
| SupplyChainCompare.ListMultiplicity | developer-tools/src/supplyChainDiff.ts:264-265 | the sorted list of a kind holds each change of that kind as often as it was found, and no other |
| SupplyChainReasons.PairReports | developer-tools/src/supplyChainDiff.ts:219-234 | a compared pair reports exactly the entries that its fields call for: license risk up for (permissive, reciprocal), (permissive, unknown) and (reciprocal, unknown), down for the reverse pairs, integrity lost or gained, more or fewer advisories, another license class or expression, another version |
| SupplyChainReasons.PairReportsOnce | developer-tools/src/supplyChainDiff.ts:219-234 | and no kind of entry twice |
| SupplyChainReasons.NewReports | developer-tools/src/supplyChainDiff.ts:258-262 | a new package is reported as added, and as a regression for a license that is not permissive, missing integrity or advisories, with exactly these reasons |
| SupplyChainReasons.OldReports | developer-tools/src/supplyChainDiff.ts:257 | one that has gone is reported as removed and nothing else |
| SupplyChainReasons.ChangesAreExplained | developer-tools/src/supplyChainDiff.ts:236-267 | every reported change has its reason in the fields of packages of the two snapshots |
| SupplyChainReasons.MatchIsReported | developer-tools/src/supplyChainDiff.ts:243-248 | two packages of one key, where no later one has it, are compared, and all that is due is reported |
| SupplyChainReasons.ListsMean | developer-tools/src/supplyChainDiff.ts:236-267 | each list of the result holds exactly the changes of its kind, all of them explained |
| SupplyChainReasons.UnchangedCounts | developer-tools/src/supplyChainDiff.ts:243-248 | without repeated keys the unchanged count is the number of baseline packages that have a twin with the same license, class, integrity and advisories |
| SupplyChainReasons.OnePackageCompared | developer-tools/src/supplyChainDiff.ts:236-267 | two snapshots of one package each with one key: exactly what is due for the pair is reported |
| SupplyChainReasons.OnePackageUpdated | developer-tools/src/supplyChainDiff.ts:249-263 | the same for another version, with the update |
| SupplyChainReasons.PairedByVersion | developer-tools/src/supplyChainDiff.ts:249-256 | within a lineage packages are paired from the lowest version on |
| SupplyChainReasons.ListsAreSorted | developer-tools/src/supplyChainDiff.ts:101 | each list is in the order of ecosystem, name, old version and new version |
| SupplyChainReasons.SnapshotMeans | developer-tools/src/supplyChainDiff.ts:149-182 | a snapshot is valid if and only if its date, digests, texts and numbers are within their bounds and its count is right |
| DependencyInventory.UniqueDependencyPackages | developer-tools/src/supplyChain.ts:378-395 | the merged packages, sorted |
| DependencyInventory.SharedFlags | developer-tools/src/supplyChain.ts:383-389 | a merged package has what some component says of it and nothing else |
| DependencyInventory.SnapshotKeysAreDistinct | developer-tools/src/supplyChainDiff.ts:115-128 | a built snapshot has no two packages of one key |
| LicenseOutcomes.SnapshotKeeps | developer-tools/src/supplyChainDiff.ts:117-128 | what a snapshot keeps of a package, field by field: the license cut at 512 characters, 64 component and 64 advisory ids at most, in order |
| LicenseOutcomes.SnapshotIdsAreSorted | developer-tools/src/supplyChainDiff.ts:126-127 | its identifiers are in the order of the comparison |
| LicenseOutcomes.SharedTexts | developer-tools/src/supplyChain.ts:383-390 | license and integrity of a merged package are the first that are given, the rest is the first component's |
| LicenseOutcomes.SharedAreListed | developer-tools/src/supplyChain.ts:394 | merged packages are listed by ecosystem, name and version |
| LicenseOutcomes.SnapshotIsListed | developer-tools/src/supplyChainDiff.ts:128 | and so are those of a snapshot |
| Merging.Merge | developer-tools/src/supplyChain.ts:379-393 | the loop gives one record for each key, in the order in which keys came up |
| LicenseReview.BuildLicenseReviewItems | developer-tools/src/supplyChain.ts:147-185 | the merged and sorted items |
| LicenseReview.ItemsPartition | developer-tools/src/supplyChain.ts:147-185 | items have distinct ids, which are exactly the ids of the packages that are not permissive |
| LicenseReview.ItemFlags | developer-tools/src/supplyChain.ts:154-157 | an item is direct if one component says so, and for development only if all do |
| LicenseReview.SavedExactly | developer-tools/src/supplyChain.ts:242-271 | a saved decision is valid and comes first, the decision it replaces goes, and all others stay while there is room |
| LicenseReview.RemovedExactly | developer-tools/src/supplyChain.ts:273-276 | exactly the decisions on the item go; refused exactly for an invalid digest |
| LicenseReview.RegisterHolds | developer-tools/src/supplyChain.ts:242-276 | after any commands ids are unique and at most 500 records are kept |
| LicenseReview.BuildLicenseReviewState | developer-tools/src/supplyChain.ts:213-240 | from the packages: the items, the active and expired records and the summary's numbers |
| LicenseReview.RecordsAddUp | developer-tools/src/supplyChain.ts:216-237 | records are active, expired or stale |
| LicenseReview.SummaryAddsUp | developer-tools/src/supplyChain.ts:213-240 | for the items of any packages and the register after any commands, items are pending, approved, restricted or blocked, and the summary's numbers add up to them |
| LicenseReview.ReviewedLicenseGate | developer-tools/src/supplyChain.ts:283-304 | the status that the counts of a class give |
| LicenseReview.StricterIsNoMilder | developer-tools/src/supplyChain.ts:278-302 | a stricter policy never lowers the severity |
| LicenseReview.BlockedFails | developer-tools/src/supplyChain.ts:298-299 | one active blocked decision in a class that is not empty makes the gate fail |
| LicenseReview.DecisionAfter | developer-tools/src/supplyChain.ts:216-224 | a new record changes the decision on its own item only |
| LicenseReview.ApprovingPendingIsNoHarsher | developer-tools/src/supplyChain.ts:242-304 | approving a pending item never raises the severity of any class while the register has room |
| LicenseOutcomes.DecisionRecorded | developer-tools/src/supplyChain.ts:242-271 | for every draft the reason for which it is refused, or the record that is put in front of those for other items, field by field |
| LicenseOutcomes.ValidMeans | developer-tools/src/supplyChain.ts:119-136 | which records can be kept: every bound, and a validity of 29 to 366 days |
| LicenseOutcomes.GateMeans | developer-tools/src/supplyChain.ts:283-304 | of a class that is not empty: one blocked item fails it, then a pending one fails or warns as the policy wants, then a restricted one warns; otherwise it passes |
| LicenseOutcomes.DecisionMeans | developer-tools/src/supplyChain.ts:216-224 | the decision on an item is that of the last record for it |
| LicenseOutcomes.ActiveMeans | developer-tools/src/supplyChain.ts:106-117 | a record is active exactly while it is unexpired and an item still is what the decision was made about, and expired exactly when only the time is over |
| LicenseOutcomes.ItemsAreListed | developer-tools/src/supplyChain.ts:180-184 | direct items come first, then the order is by class, ecosystem, name and version |
| LicenseOutcomes.ItemGathers | developer-tools/src/supplyChain.ts:153-160 | what an item takes from a further component, field by field |
| LicenseOutcomes.ItemIdsAreSorted | developer-tools/src/supplyChain.ts:179 | the ids of an item's components are sorted |
| LicenseOutcomes.ReasonsGathered | developer-tools/src/supplyChain.ts:157-159 | reasons are gathered once each, behind those that were there, an empty one never |
| LicenseOutcomes.ItemIdIs | developer-tools/src/supplyChain.ts:101-104 | what the id of an item is made of |
| NeoForge.XmlVersions | src-tauri/src/downloads.rs:466-478 | the trimmed texts between "<version>" and "</version>", in order |
| NeoForge.TextsBetween | src-tauri/src/downloads.rs:466-478 | the same for any pair of tags |
| NeoForge.ElementsRead | src-tauri/src/downloads.rs:466-478 | a text that consists of elements is read as exactly these |
| NeoForgeMeaning.SpansMean | src-tauri/src/downloads.rs:466-478 | for any text: the next element begins at the first opening tag and ends at the first closing one behind it, and none is read only where there is none |
| NeoForgeMeaning.VersionMeans | src-tauri/src/downloads.rs:480-490 | the version of any build is made of its first two components, "1." in front below 26, and of minor version 0 where there is one component |
| NeoForgeMeaning.VersionOfParts | src-tauri/src/downloads.rs:480-490 | and whatever follows the two does not matter |
| NeoForgeMeaning.PrefixMeans | src-tauri/src/downloads.rs:492-498 | the prefix for a version leaves a "1." in front out |
| NeoForgeMeaning.Samples | src-tauri/src/downloads.rs:506-510 | for instance "21.1.219", "26.1.0-beta" and "1.20.6" |
| NeoForgeMeaning.ParsedMeans | src-tauri/src/downloads.rs:459-464 | digits of a 32-bit number, with or without a plus sign, count as their value, everything else as zero |
| NeoForge.PrefixOfVersion | src-tauri/src/downloads.rs:480-498 | the prefix of a build's version is made of the build's own first two components |
| NeoForge.SameVersion | src-tauri/src/downloads.rs:480-490 | two builds are for one version exactly when these components agree |
| NeoForge.FoundExactly | src-tauri/src/downloads.rs:371-374 | a build is found for the version of another exactly when it has three components and is for that version |
| NeoForge.FindsItselfExactly | src-tauri/src/downloads.rs:371-374 | a build is found for its own version exactly when it has three components |
| NeoForge.SelectBuild | src-tauri/src/downloads.rs:372-378 | the last of the newest candidates, and none only if there is none |
| NeoForge.ListedNewestFirst | src-tauri/src/downloads.rs:204-212 | versions are listed newest first |
| NeoForgeMeaning.ListedMeans | src-tauri/src/downloads.rs:204-212 | the list has forty versions at most and none that is newer, at its first different number or by having more of them, than one above it |
| NeoForgeMeaning.SelectedMeans | src-tauri/src/downloads.rs:372-378 | no candidate is newer than the chosen build, and it is newer than all candidates behind it |
| NeoForgeMeaning.SelectedOnce | src-tauri/src/downloads.rs:372-378 | which fixes the text of the chosen build |
| NeoForgeMeaning.ComparedMeans | src-tauri/src/downloads.rs:208 | the comparison of keys is this order, and ties only equal keys |
| NeoForge.ListedIsMapped | src-tauri/src/downloads.rs:204-212 | every listed version is the version of some build |
| NeoForge.CandidatesExactly | src-tauri/src/downloads.rs:371-374 | the candidates of a listed version are exactly the three-component builds that are for it |
| NeoForge.ListedIsFoundExactly | src-tauri/src/downloads.rs:371-374 | a listed version has a candidate exactly when some three-component build in the list is for it |
| Sequences.SortIsStable | src-tauri/src/downloads.rs:208 | what the comparison does not tell apart stays in its order |
| NeoForge.RepeatsExactly | src-tauri/src/downloads.rs:204-212 | the list repeats a version if and only if two builds of it have one of another version with the same numbers between them, the second on a listed place |
| NeoForge.WholeListRepeatsExactly | src-tauri/src/downloads.rs:204-212 | a list that is not cut off: if and only if there are three such builds |
| NeoForge.ListLength | src-tauri/src/downloads.rs:204-212 | how long the list is, counted on the builds, and that no build stands further down |
| NeoForge.RepeatsNeedEqualKeys | src-tauri/src/downloads.rs:204-212 | which takes two different versions with the same numbers |
| NeoForge.SameNumbersRepeat | src-tauri/src/downloads.rs:204-212 | and two builds of one of them around one of the other do repeat it |
| NeoForge.SampleRepeats | src-tauri/src/downloads.rs:204-212 | for instance "1.21.x" around "1.21.0" |
| NeoForge.ShortBuildIsLost | src-tauri/src/downloads.rs:480-498 | a build with fewer is listed and not found |

## Left out

- BrowserAuthProtocol.PollingFlagIsExact: about the flag only while the mutex is not poisoned; FlagSticksExactly says what holds after that.
- NotificationDispatch.EveryPostIsFenced: stated for runs in which no save or delete overtook a read; without that it is false.
- NotificationDispatch.NothingOlderIsPosted: likewise for configurations; unconditional for locales.
- Crossplay.WrittenFileMatches: the check also refuses files above a size limit, which the rewriting could reach by lengthening lines; so does a second configuration (SecondRunChangesNothing, TwoRunsAreEnough).
- Backup.RoundTrip: the path under which an entry is stored is taken as its components; joining and splitting them, and archives that other programs wrote with parent components, are not modelled.
- LicenseReview.ApprovingPendingIsNoHarsher: with a full register the oldest record is dropped, which can make another item pending.
- A failing read of the credential store (`src-tauri/src/discord_notifications.rs:225`): what meets it, be it a call, a command, a delivery or a withdrawal, ends there without an effect of its own; a read here finds a configuration or none.
- Sockets, pipes and devices in a server folder: on Windows, the one platform that is shipped, whatever is neither a folder nor a link is a regular file.
- HTTP, credential store, ZIP container, checksums and process handling: each is a step or an input with a free result.
- A panic inside the commit of a login, around `store_session` (`src-tauri/src/account_auth.rs:1070`): it would poison the mutex and lose the token without revoking it; here a mutex is poisoned between two sections.
- Cryptography: digests and the operating system's protection are assumed to work; code challenges and verifiers are opaque.
- Wrap-around of the login generation at 2^64, and commands that are dropped in the middle of an await.
- The ten-second coalescing of events inside the interleavings: there a queued event may be skipped freely; the class states the rule itself.
- In the interleavings the lock holder reads and caches a configuration in one step, and each of several locks is taken by one section.
- Lower-casing is ASCII; trimming uses the white space of Unicode, and for review drafts it is an arbitrary function.
- Reading and writing errors while an archive is written, apart from a failed write of the safety archive as a whole; progress events; the list, deletion and clean-up of archives.
- The exchange of Geyser's configuration file, which has the same form as the exchange of folders.
- Storage of snapshots, policies and records in the browser, the export of a comparison, advisory scanning and the evidence check.
- Message texts, time formatting, mention payloads, validators of URLs, billing, the readiness verdict and the user interface.

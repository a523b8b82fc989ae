# Quil, modelled and proved in Dafny

Quil is a terminal multiplexer: a daemon that owns panes, tabs and projects, a bridge that
exposes several hosts over MCP, and an updater. It has no single algorithm at its centre. It
has a dozen small state machines whose comments promise something about whole runs, about
every chunking of a stream, or about every interleaving of independent processes. Each module
here models one of them and proves what it promises, or finds exactly when the promise holds.

| module | part of Quil |
|---|---|
| `Redraw` | the rate limiter for redraw keys, whose window belongs to the receiving child |
| `MouseModes`, `TokenCapture` | scanners that carry state across chunk boundaries |
| `UpdateApply` | the failure-atomic swap of two binaries |
| `HostRouter` | single-flight dialling of remote hosts |
| `ProjectLists`, `ProjectNames`, `Session`, `ProjectMerge`, `SessionManagers` | two linked tab orderings, project names, and the session manager over them |
| `HookFiles` | two files written by unsynchronised hook processes |
| `GitCache` | a two-level cache validated by the modification time of HEAD |
| `EventQueues` | the bounded, aggregating notification queue |
| `FsPermits`, `Browse` | the permit pool for uncancellable filesystem calls, and the requests that draw on it |
| `Overlays` | per-client visibility claims, idle eviction, and the cap |
| `Dib`, `DibRoundTrip` | the clipboard bitmap decoder, and a reference encoder it inverts |
| `Sanitize` | the title and prompt sanitizers |
| `Common` | `Option` and `Result` |

`dafny verify dfyconfig.toml` checks the whole project.

Where the source updates an object in place, the model is a class whose methods are proved to
perform a function on values; the run properties are lemmas about those functions. Where the
source is a protocol between goroutines or processes, the model is a step function, and a main
result quantifies over every sequence of steps. I/O, clocks and kernel calls are
nondeterministic methods (`Disk`, `World`, `Machine`) or parameters of a step. Several state
types carry history fields that no step reads (`Run.log`, `Sys.dials`, `Sys.told`, `Repos.past`);
they say what happened, so that properties need no search for witnesses.

## Where the code and its comments part ways

The model follows the code. Each of these is a lemma.

- Redraw spacing fails across a restart: a key still waiting for a child when a new child is
  installed is handed to the new child without a stamp. Installing a child is safe if and only
  if no key is waiting (`SpawnSafeIff`); `RestartBreaksSpacing` is a whole run.
- A redraw request can be lost with room in the queue and no failed write: a timer armed for the
  previous child keeps the only timer slot (`StaleTimerLosesARequest`). `StepCover` says exactly
  which steps lose a request; a restart over a waiting key is not one of them.
- A chunk boundary loses mode changes if the unfinished escape sequence is longer than 64 bytes
  or holds a `:`, which the scanner accepts and the carry does not; otherwise never (`CutSafeIff`).
- The dial backoff is counted from the last dial only: a dial that connects in between forgets
  an earlier failure (`BackoffForgottenAcrossAConnect`), and nothing else does
  (`FailedDialHoldsOff`, `RedialWithinBackoffIff`).
- The transcript sidecar is described as always fresher than the path recorded at session start.
  A session that starts again under its own id is read back with the older path
  (`RestartKeepsStalePath`). `ReadBackIs` says which path is read back in every run, and
  `NewestPathReadBackIff` exactly when it is the newest. The id itself is never stale.
- The minutes-to-nanoseconds product is said to wrap above 307,445,734 minutes. It wraps above
  153,722,867, first to negative values, which disable eviction (`TimeoutExactIff`,
  `WrappedTimeouts`). The clamp is far below either.
- The overlay cap does not look at visibility claims (`CapIgnoresClaims`); only the idle sweep
  does. `CapSparesIff` says exactly which overlays a cap spares.
- Capping a sorted listing is said to drop trailing files only. It drops a directory exactly when
  there are more than 500 (`CapDropsADirectoryIff`); links to directories count as files there.
- A filesystem permit can be refused while one is free, because another refused claim has not yet
  undone its add (`SpuriousRefusal`, and `SpuriousRefusalHappens` from a quiet pool).
- An agent that polls for events from the last timestamp misses events that share a millisecond
  or arrive out of order (`DrainIsCompleteIff`, `PollingSkipsOne`).
- Scanning the queue before registering a watcher is said to close the race on registration. The
  two are separate steps, and a push between them is missed (`WatchMissesIff`).
- The highlighted tab is said to be always in the visible list. Closing tabs, destroying, switching
  and merging projects keep it there; opening or choosing a tab may not (`StepShowsIff`,
  `OpeningElsewhereHides`).

## Model

| member | source | states |
|---|---|---|
| Redraw.KicksAreSpaced | internal/daemon/redraw.go:50-171 | over every run of senders, timer fires, a stalling writer, exits and restarts, the redraw keys any one child receives are a full cooldown apart on that child, and never two are on their way to one child; restarts are those with no key still waiting |
| Redraw.SpawnSafeIff | internal/daemon/daemon.go:5469-5485 | installing a new child keeps every continuation spaced if and only if no redraw key is still waiting to be handed to a child |
| Redraw.UnsafeSpawnPairs | internal/daemon/redraw.go:128-171 | from any restart with a key still waiting, a continuation that breaks spacing |
| Redraw.RestartBreaksSpacing | internal/daemon/redraw.go:50-171 | a whole run that breaks spacing: every pane just created can be started, sent a key no writer picks up, and restarted |
| Redraw.QueuedMeansPending | internal/daemon/redraw.go:106-120 | the position comparison both senders make means exactly that a key is still on its way |
| Redraw.DueClearsHits | internal/daemon/redraw.go:50-102 | a send the cooldown allows is a full cooldown after everything the child has received |
| Redraw.SendsAtOnceIff | internal/daemon/redraw.go:50-102 | a request on a live pane is painted at once exactly when a cooldown has passed since the child's last key, no key is on its way and the queue has room |
| Redraw.FiresAtOnceIff | internal/daemon/redraw.go:128-171 | the timer paints exactly when the child it was armed for is installed and lives, a cooldown has passed, no key is on its way and the queue has room |
| Redraw.HeldForTheRest | internal/daemon/redraw.go:50-102 | a held request is held until at least a cooldown after the last key and at most a cooldown from now; until exactly a cooldown after the last key if the clock was read under the lock |
| Redraw.RearmedForTheRest | internal/daemon/redraw.go:128-171 | a timer that fires too early is armed again for exactly a cooldown after the last key |
| Redraw.InvOnePending | internal/daemon/redraw.go:50-102 | the invariant forbids two redraw keys in the queue and the writer's hand together |
| Redraw.StepCover | internal/daemon/redraw.go:50-171 | one step keeps the latest request accounted for (delivered, queued, or a timer armed) if and only if it is not one of the losing guards; restarts over a waiting key included |
| Redraw.EveryRequestCovered | internal/daemon/redraw.go:50-171 | in every run, whatever it restarts over, each request is at every moment repainted at or after it, or a key is queued, or a timer is armed, if and only if no step is a losing one |
| Redraw.PaintedWithinCooldown | internal/daemon/redraw.go:50-171 | bounded response in every run: whenever a request is accounted for, the clock, the timer and a writer that does not stall paint it within a cooldown, plus what senders' readings of the clock lag behind |
| Redraw.StaleTimerLosesARequest | internal/daemon/redraw.go:50-102 | a run that loses a request through a timer of the previous child, with an empty queue at the end |
| Redraw.Pane.SendRedrawKey | internal/daemon/redraw.go:50-102 | the sender performs the protocol's send step on the pane's own fields |
| Redraw.Pane.DeferredRedrawKey | internal/daemon/redraw.go:128-171 | the timer callback performs the protocol's fire step |
| Redraw.Pane.EnqueueInputSeq | internal/daemon/session.go:430-438 | a FIFO of 256 that refuses when full and numbers what it accepts |
| Redraw.Pane.MarkInputWritten | internal/daemon/session.go:509-517 | the writer's restamp: a redraw key's stamp moves to the moment it was written |
| MouseModes.CutSafeIff | internal/daemon/mousemode.go:203-228 | for one cut, every continuation yields the modes of the uncut stream if and only if the unfinished sequence is at most 64 bytes and holds no sub-parameter |
| MouseModes.ChunksAgreeWithWhole | internal/daemon/mousemode.go:95-158 | folding the scanner with its carried tail over any chunking with safe cuts gives the modes and the tail of one scan of the stream |
| MouseModes.SafeCutResumes | internal/daemon/mousemode.go:203-228 | after a safe cut the next scan continues as if nothing had been cut |
| MouseModes.ScanMouseModes | internal/daemon/mousemode.go:95-158 | the index loop computes the automaton's modes and carry for every byte string |
| MouseModes.SequenceSwitches | internal/daemon/mousemode.go:95-158 | wherever it comes in a stream, also inside another sequence, an introducer, a list of numbers and `h` or `l` sets or clears exactly the flags of modes 9, 1000, 1002, 1003, 1006, 2004 and 47, 1047, 1049 that are listed; any other final byte changes nothing |
| MouseModes.OnlySequencesSwitch | internal/daemon/mousemode.go:95-158 | nothing else changes a mode: only an `h` or `l` that ends an introducer and its parameters |
| MouseModes.IncompleteModeSeq | internal/daemon/mousemode.go:203-228 | the backward search finds exactly the sequence the automaton is still inside, if it may be carried |
| MouseModes.ModeNumber | internal/daemon/mousemode.go:171-193 | the digit loop gives the mode a parameter names |
| MouseModes.ModeIsNumeric | internal/daemon/mousemode.go:171-193 | leading zeros and sub-parameters never change which mode a parameter names; values from 10000 on name none |
| MouseModes.DecimalValue | internal/daemon/mousemode.go:171-193 | the number a parameter names is the one its digits write in decimal |
| MouseModes.CarryIsSuffix | internal/daemon/mousemode.go:203-228 | what is carried is a suffix of what was read |
| MouseModes.NoIntroNoChange | internal/daemon/mousemode.go:95-158 | a chunk without an introducer changes no mode, so the cheap gate skips nothing |
| MouseModes.Pane.FlushAll | internal/daemon/daemon.go:3842-3851 | a pane fed a whole stream in safe chunks ends in the modes of one scan |
| UpdateApply.Disk.SwapPair | cmd/quil/update_apply.go:135-168 | for every combination of failing removes, renames and copies: success means both targets are new, an error whose rollbacks worked means both are the originals, and each original survives at its target or at a path the error names; with nothing failing the pair is swapped exactly when all four files are there; leftover backups stop it only when more than twenty operations fail |
| UpdateApply.Disk.SwapOne | cmd/quil/update_apply.go:419-434 | one swap installs and keeps a backup, or leaves the target as it was, or names the backup holding it; nothing else is touched; with nothing failing it succeeds exactly when target and staged file are there; want of a backup slot takes a failure at every slot |
| UpdateApply.Disk.FreeBackupPath | cmd/quil/update_apply.go:399-412 | a slot of that target with nothing at it, the first that could be cleared: each one passed over cost a failure, and an error a failure at every one; the target is never touched |
| UpdateApply.Disk.InstallOptional | cmd/quil/update_apply.go:213-288 | the optional tier disturbs only its own targets and their backups, installs nothing the manifest does not declare, reports every target it could not leave whole, and installs every declared and staged file but for at most one a failure |
| UpdateApply.Disk.InstallOne | cmd/quil/update_apply.go:213-288 | one optional target is as it was, or new, or reported; with nothing failing a target that was not there gets no backup |
| HostRouter.OneDialAtATime | cmd/quil/mcp_hosts.go:156-212 | in every interleaving at most one dial is in flight, and then no bridge is installed |
| HostRouter.OneOwner | cmd/quil/mcp_hosts.go:156-249 | every dialled connection is at every moment installed, or in one caller's hands, or released, and is released at most once |
| HostRouter.ChannelsCloseOnce | cmd/quil/mcp_hosts.go:156-226 | each waiters' channel has been closed exactly once, but for that of the dial in flight, which has not; and whoever waits is waiting for that dial |
| HostRouter.FailedDialHoldsOff | cmd/quil/mcp_hosts.go:156-212 | a failed dial holds off every later one but the startup sweep's, until a dial connects: they start at least the backoff after it, however many failed in between |
| HostRouter.RedialWithinBackoffIff | cmd/quil/mcp_hosts.go:156-212 | with the host idle and the link down, a dial other than the startup sweep's starts within the backoff of a failed dial if and only if the last dial, a later one, connected |
| HostRouter.StartsDialIff | cmd/quil/mcp_hosts.go:156-212 | in every interleaving a caller dials if and only if the link is down, nobody dials, and it is the startup sweep, or the last dial did not fail, or the backoff has run out |
| HostRouter.EnterOutcome | cmd/quil/mcp_hosts.go:156-226 | in every interleaving a caller returns at once exactly when the link is up, waits exactly when a dial is in flight, and then for that dial, and otherwise dials or is refused, taking the dead link to release |
| HostRouter.BackoffForgottenAcrossAConnect | cmd/quil/mcp_hosts.go:156-212 | a run in which a dial follows an earlier failure within the backoff, because one between connected |
| HostRouter.OneRetryQueued | cmd/quil/mcp_hosts.go:332-348 | however often status is read, at most one background retry exists |
| HostRouter.SchedulesRetryIff | cmd/quil/mcp_hosts.go:315-348 | in every interleaving a status read schedules a background retry exactly when the link is down, nobody dials, none is scheduled, and the last dial did not fail or its backoff has run out; a lost link is retried at once |
| HostRouter.ErrorReported | cmd/quil/mcp_hosts.go:156-212 | the error a host reports is none while a link is installed, the failure of a last dial that failed, and a lost connection after one that connected |
| HostRouter.HostConn.ConnectBegin | cmd/quil/mcp_hosts.go:156-226 | the first critical section: refuse, wait, use the bridge, or claim the dial |
| HostRouter.HostConn.ConnectFinish | cmd/quil/mcp_hosts.go:156-212 | the second critical section: install or record the failure, and end the dial |
| HostRouter.HostConn.RetryDisconnectedLocked | cmd/quil/mcp_hosts.go:332-348 | a retry is scheduled exactly for a host that is down, idle and past its backoff |
| ProjectLists.SlideString | internal/daemon/project.go:439-460 | the overlapping in-place copy moves the entry to the clamped ordinal, shifting what lies between, and reports whether it moved |
| ProjectLists.SlideIsReorder | internal/daemon/project.go:352-383 | on a duplicate-free list the slide and the remove-then-insert of a reorder are one permutation with one changed flag, for every index |
| ProjectLists.ReanchorRestores | internal/daemon/project.go:471-490 | afterwards the global order restricted to the project is the project's own order |
| ProjectLists.ReanchorMovesOnlyTab | internal/daemon/project.go:471-490 | no tab but the moved one changes its place among the others |
| ProjectLists.ReanchorBeside | internal/daemon/project.go:464-491 | among the tabs of other projects the tab lands right behind its predecessor in the project, else right before its successor, else last |
| ProjectNames.UniqueProjectName | internal/daemon/project.go:40-62 | terminates for every list of taken names and returns the trimmed text, or it with the least free suffix, free under trim and case folding |
| ProjectNames.TakenPigeons | internal/daemon/project.go:40-62 | if the suffixes below n are all taken, at least n-2 names are |
| ProjectNames.CandidatesDiffer | internal/daemon/project.go:40-62 | two suffixes never give the same name, whatever the base |
| ProjectNames.UniqueNameIsUnique | internal/daemon/project.go:40-62 | the name is determined by the taken names |
| ProjectNames.SecondOfAName | internal/daemon/project.go:40-62 | a free name is kept, trimmed; the first suffix tried is " (2)" |
| Session.CreateProjectKeepsWF | internal/daemon/project.go:91-113 | a new project keeps the two orderings consistent |
| Session.CreateProjectLands | internal/daemon/project.go:91-113 | a new project comes last and empty, and becomes active only if there was none |
| Session.DestroyProjectKeepsWF | internal/daemon/project.go:119-170 | destroying a project takes exactly its own tabs, leaves the order of the rest, and leaves the active tab in the active project's list |
| Session.DestroyProjectLands | internal/daemon/project.go:119-166 | the order keeps the rest; the active project stays, or the first that is left takes over; the active tab is the one the active project remembers, else its first |
| Session.SwitchProjectKeepsWF | internal/daemon/project.go:325-350 | switching keeps consistency and lands on a tab of the project switched to, if it has one |
| Session.SwitchThereAndBack | internal/daemon/project.go:325-350 | looking at another project and coming back shows the tab that was left, if its project remembers it, and changes nothing but what the other project remembers |
| Session.ReorderProjectKeepsWF | internal/daemon/project.go:352-383 | reordering projects disturbs no tab |
| Session.ReorderTabKeepsWF | internal/daemon/session.go:884-900 | a drag keeps every project's order a restriction of the global order and moves no other tab |
| Session.ReorderTabPlaces | internal/daemon/session.go:884-900 | the tab lands at the clamped ordinal of its own project and the rest of that list keeps its order |
| Session.ReorderProjectPlaces | internal/daemon/project.go:352-383 | a project lands at the clamped rank, the others keep their order, and nothing else changes |
| Session.AddTabKeepsWF | internal/daemon/session.go:569-611 | a new tab is appended to both orderings and owned on both sides |
| Session.AddTabLands | internal/daemon/session.go:594-610 | a new tab comes last in the global order and in its project, is remembered or active only if nothing was, and no other project changes |
| Session.ResolveKeepsWF | internal/daemon/session.go:569-611 | a tab always ends up in a project that exists |
| Session.DestroyTabKeepsWF | internal/daemon/session.go:613-683 | closing a tab removes it from both orderings and from the active marks |
| Session.DestroyTabTakesOne | internal/daemon/session.go:613-683 | closing a tab takes that tab and nothing else: both orderings keep the rest in order, every other project is as it was |
| Session.DestroyTabHandsOver | internal/daemon/session.go:637-680 | a closed tab that was remembered or active hands over to its neighbour in its own project, the right one unless it was the last; only a project's last tab hands over to the first tab there is |
| Session.SwitchTabLands | internal/daemon/session.go:846-859 | choosing a tab makes its project remember it and changes nothing else but the active tab |
| Session.UpdateProjectLands | internal/daemon/project.go:175-199 | a project renamed or adopted keeps its tabs and is no longer one the daemon invented |
| Session.DestroyTabShows | internal/daemon/session.go:613-683 | closing a tab never leaves a highlighted tab outside the visible list |
| ProjectMerge.MergeKeepsWF | internal/daemon/project.go:225-310 | a fold keeps the two orderings consistent, whatever is absorbed |
| ProjectMerge.MergeConserves | internal/daemon/project.go:225-310 | the combined multiset of listed tabs is unchanged, every tab of an absorbed project is owned and listed by the survivor in order, unmoved tabs keep their relative order, all other projects are as they were, and exactly the absorbed ones are gone |
| ProjectMerge.MergeShowsActiveTab | internal/daemon/project.go:296-308 | afterwards the active tab lies in the active survivor whenever it has tabs |
| ProjectMerge.MergeLands | internal/daemon/project.go:278-309 | in the survivor the user is on the tab that was active if it is now there, else on the one the survivor remembered, else on its first, and the survivor remembers that tab; elsewhere nothing moves; the survivor has the new name and is the user's own |
| ProjectMerge.MergeThenAwayAndBack | internal/daemon/project.go:289-309 | looking at another project after a merge and coming back shows the tab the merge showed |
| ProjectMerge.EachTabListedOnce | internal/daemon/project.go:225-310 | in a consistent state the project lists together hold every tab exactly once |
| ProjectMerge.MergeNeverDoubles | internal/daemon/project.go:234-276 | even from a snapshot that lists tabs under several projects, a fold of any list of projects lists no tab twice, leaves the projects it does not name as they were, and both sides of the link agree for every tab it took |
| ProjectMerge.ReanchorAllAligns | internal/daemon/project.go:245-270 | re-anchoring the absorbed tabs one by one aligns the global order with the survivor's grown list |
| SessionManagers.RunsStayConsistent | internal/daemon/project.go:91-383 | in every state of every run of project and tab operations both orderings are consistent and no two projects share a name under trim and case folding |
| SessionManagers.StepKeepsNames | internal/daemon/project.go:175-199 | create, rename and merge each keep names pairwise distinct |
| SessionManagers.AdoptedOnce | internal/daemon/project.go:175-199 | a project adopted or renamed refuses every later adoption until another is invented |
| SessionManagers.StepShowsIff | internal/daemon/session.go:637-646 | an operation loses the highlighted tab from the visible list if and only if it creates the first tab of the active project while another project's tab is active, or chooses a tab of a project other than an active one with tabs |
| SessionManagers.RunShowsIff | internal/daemon/project.go:296-303 | the highlighted tab is visible throughout a run if and only if no operation of it is one of those |
| SessionManagers.OpenedTabShowsIff | internal/daemon/daemon.go:1999-2009 | after a client's request for a new tab, which creates and chooses it, the tab is visible exactly if it went to the active project or that project lists none |
| SessionManagers.OpeningElsewhereHides | internal/daemon/daemon.go:1999-2009 | a run from the empty session in which a tab opened for another project is highlighted but not listed |
| SessionManagers.SessionManager.MergeProjects | internal/daemon/project.go:225-310 | the loops perform the fold on values, with a name free once the absorbed projects are gone |
| SessionManagers.SessionManager.DestroyProject | internal/daemon/project.go:119-170 | the loop performs the destruction on values, passing over ids that name no tab |
| SessionManagers.SessionManager.CreateProject | internal/daemon/project.go:91-113 | a project is appended under a disambiguated name |
| SessionManagers.SessionManager.UpdateProject | internal/daemon/project.go:175-199 | renames unless the project is unknown, or must still be the bootstrap one and is not |
| SessionManagers.SessionManager.SwitchProject | internal/daemon/project.go:325-350 | performs the switch and returns the tab switched to |
| SessionManagers.SessionManager.ReorderProject | internal/daemon/project.go:352-383 | performs the reorder and reports whether the place changed |
| SessionManagers.SessionManager.ReorderTab | internal/daemon/session.go:884-900 | performs the drag; when nothing moved, nothing changed |
| SessionManagers.SessionManager.CreateTab | internal/daemon/session.go:569-611 | resolves the project, bootstrapping one if there is none, and appends the tab |
| HookFiles.PersistedIdIsLastStart | internal/claudehook/runhook.go:489-555 | in every interleaving of SessionStart writes, Stop reads and writes, and daemon reads, the id on disk is that of the last SessionStart written |
| HookFiles.ReadPathWasReported | internal/claudehook/claudehook.go:320-364 | a record read, at whatever two moments its files were read, carries no path or one some hook reported for that same session, up to trimming and the read limit |
| HookFiles.ReadBackIs | internal/claudehook/claudehook.go:320-364 | in every interleaving what is read back is the last SessionStart's id, with the path of the last sidecar written if that names the id, fits the record limit and is not blank, and otherwise that SessionStart's own |
| HookFiles.StartedPathReadBackIff | internal/claudehook/claudehook.go:342-349 | the path is the last SessionStart's if and only if no such sidecar says otherwise |
| HookFiles.NewestPathReadBackIff | internal/claudehook/claudehook.go:342-349 | the path is the one last recorded for the session except exactly when the sidecar naming it is usable but older than its start, or newer but not usable, and the two paths differ |
| HookFiles.FormatParses | internal/claudehook/claudehook.go:384-394 | what SessionStart writes parses back to its id and path for every length, a path past the read limit being cut there |
| HookFiles.ValidIdIff | internal/claudehook/runhook.go:493-500 | an id is accepted exactly if it is 32 to 64 hexadecimal digits and dashes |
| HookFiles.WithinLimitOnlyTrims | internal/claudehook/claudehook.go:366-374 | below the read limit a path that is one line only loses white space; one with a line break is dropped whole |
| HookFiles.AloneStopRepairs | internal/claudehook/runhook.go:533-555 | a Stop of the current session that nothing interrupts leaves its own path as the one read back |
| HookFiles.StopStepsAlone | internal/claudehook/runhook.go:533-555 | the interleavable steps of a Stop, back to back, are the undisturbed refresh |
| HookFiles.RestartKeepsStalePath | internal/claudehook/claudehook.go:341-349 | a run in which the exception happens: a session that starts again under its own id is read back with the path an earlier Stop recorded |
| HookFiles.SessionFiles.WriteSessionFile | internal/claudehook/runhook.go:489-515 | replaces the id file with the formatted record, or leaves it |
| HookFiles.SessionFiles.RefreshTranscriptPath | internal/claudehook/runhook.go:533-555 | writes the sidecar only, and only for the current session with a changed path |
| HookFiles.SessionFiles.ReadPersistedSession | internal/claudehook/claudehook.go:320-351 | the id file's record, with the sidecar's path when that names the same session |
| GitCache.ProbedPairCoherent | internal/daemon/gitcache.go:194-222 | a branch stored with the HEAD time taken before the probe is current whenever that time is, whatever is checked out before, during or after the probe |
| GitCache.LateStatIsIncoherent | internal/daemon/gitcache.go:194-222 | with the HEAD time taken after the probe one checkout in between would never be noticed |
| GitCache.EvolvingKeepsAll | internal/daemon/gitcache.go:53-57 | checkouts between refreshes never make a valid-looking entry wrong |
| GitCache.GitCache.Refresh | internal/daemon/gitcache.go:128-225 | with checkouts going on all the while: entries stay coherent, each checkout is probed at most once, no key is left that no live directory leads to, and every non-stale branch was checked out at the start of the refresh or later; with no permit refused, an entry is stale only because its own probe did not answer, and every live directory is as git last answered; a checkout known before is probed only if its HEAD is not the one last seen or cannot be read, or its last probe did not answer; and every entry says rightly whether it is a linked worktree |
| GitCache.GitCache.RefreshOne | internal/daemon/gitcache.go:183-222 | one checkout is left alone only when its branch is current, and is otherwise probed, its entry replaced or marked stale by the answer, or marked stale for want of a permit |
| GitCache.GitCache.Resolve | internal/daemon/gitcache.go:134-176 | known checkouts and fresh negative answers are left alone; with no permit refused every other directory is asked about, and what git answers is what is written down |
| GitCache.DueIs | internal/daemon/gitcache.go:134-146 | a directory in a checkout is asked about once, any other again after a minute |
| GitCache.ResolvedStep | internal/daemon/gitcache.go:134-176 | one directory after the other adds up to that |
| GitCache.GitCache.ReferencedDirs | internal/daemon/gitcache.go:268-282 | each checkout some given directory resolves to, once |
| GitCache.GitCache.Sweep | internal/daemon/gitcache.go:238-264 | keeps exactly the live directories and the checkouts they lead to, unchanged |
| EventQueues.RunKeepsInv | internal/daemon/event.go:63-127 | in every run the queue holds at most its maximum and at most one card per pane and title |
| EventQueues.PushLands | internal/daemon/event.go:63-91 | in every run a pushed event heads the queue, with its own data but for the count, under the id of the card it folds into; behind it are the other cards in order, and only the last is dropped, when the queue was full and the event brought a new card |
| EventQueues.CardCountsItsPushes | internal/daemon/event.go:63-91 | in every run a card counts exactly the pushes of its pair since the pair last had no card, through its decimal text, and keeps the id it was born with |
| EventQueues.AtoiOfItoa | internal/daemon/event.go:71-83 | the count survives its trip through text up to the largest int |
| EventQueues.DrainIsCompleteIff | internal/daemon/event.go:173-189 | polling from the last answer's timestamp visits every matching event exactly once, oldest first, if and only if their timestamps strictly increase |
| EventQueues.PollingSkipsOne | internal/daemon/event.go:173-189 | of any two events of different cards pushed in one millisecond or out of order, an agent polling the resulting queue never sees the second |
| EventQueues.DrainVisitsEverything | internal/daemon/event.go:173-189 | with strictly increasing push times polling misses nothing in any reachable queue |
| EventQueues.EventQueue.Push | internal/daemon/event.go:63-107 | performs the fold on values; the watchers that hear the pane are woken with the stored event and consumed, the others stay in order |
| EventQueues.EventQueue.FindSince | internal/daemon/event.go:173-189 | the backward loop returns the oldest matching event |
| EventQueues.OldestSinceIs | internal/daemon/event.go:173-189 | that is the last in the queue that is newer than the timestamp and of a pane asked for, if there is one |
| EventQueues.WatchMissesIff | internal/daemon/daemon.go:6718-6741 | whatever else happens to the queue and its watchers, a watch call whose scan found nothing misses, of the pushes it asked for, exactly those between its scan and its registration; after any other it has an answer |
| EventQueues.WatchAnswersFirstIff | internal/daemon/daemon.go:6718-6741 | the answer is the first matching push after the registration, as stored; it is the first since the scan if and only if none fell in between |
| EventQueues.EventQueue.DismissEvent | internal/daemon/event.go:110-120 | removes the first event with the id and nothing else |
| EventQueues.EventQueue.EventsOldestFirst | internal/daemon/event.go:156-165 | the stored events in reverse |
| FsPermits.PermitsBounded | internal/daemon/browse.go:467-503 | with a claim's add, comparison and undo as separate steps, in every interleaving callers with a limit of L or less never hold more than L permits together, for every L |
| FsPermits.AllPermitsBounded | internal/daemon/browse.go:467-503 | nobody together ever holds more than eight |
| FsPermits.RootProbesLeaveReserve | internal/daemon/browse_roots.go:48-62 | over any number of sweeps root probes hold at most half the pool |
| FsPermits.ZeroIffQuiet | internal/daemon/browse.go:467-503 | the counter is zero exactly when nobody claims and every worker has finished |
| FsPermits.GrantedIff | internal/daemon/browse.go:489-498 | a claim is granted exactly when at its add the permits out and the claims in progress left room, whatever any caller does between its add and its comparison |
| FsPermits.SpuriousRefusal | internal/daemon/browse.go:489-498 | with all permits out, five steps after which a claim is refused with a permit free, because another refusal is not yet undone |
| FsPermits.SpuriousRefusalHappens | internal/daemon/browse.go:467-503 | with ten callers or more, a run from the quiet pool that ends in such a refusal |
| Browse.Machine.BrowseDirResponse | internal/daemon/browse.go:105-186 | one directory response takes no longer than its one deadline and abandons at most three blocked calls, one where no roots are swept, however many entries hang; it returns the read entries, directories first and capped, each link classified by its own probe, with both truncation flags exact; before the deadline every probe and the read is answered but for calls given up on, permits refused and reads that fail |
| Browse.Machine.DirsExistResponse | internal/daemon/browse.go:605-617 | one existence request takes no longer than its one deadline, abandons at most one call, starts none when given too many paths, and returns exactly the paths that answered as directories; before the deadline each one is answered but for calls given up on and permits refused |
| Browse.Machine.ClassifyEntries | internal/daemon/browse.go:260-270 | one shared deadline lets at most one link resolution be abandoned; exactly the links are resolved, each entry by its own answer, and before the deadline none goes unanswered without a fault |
| Browse.Machine.SweepRoots | internal/daemon/browse_roots.go:107-131 | complete exactly when every candidate was probed and answered; at most two probes go unanswered, each by a fault, and each takes a second at most; the roots are the candidates that answered as directories, in order |
| Browse.CapDropsADirectoryIff | internal/daemon/browse.go:163-180 | directories first, then the cap: a directory is dropped exactly when there are more of them than the cap |
| Overlays.RunKeepsInv | internal/daemon/overlay.go:188-293 | in every run an overlay on some attached client's screen carries no hidden stamp |
| Overlays.IdleEvictionIsFair | internal/daemon/overlay.go:84-113 | in every run the idle sweep evicts an overlay if and only if the policy is on and some earlier step put it out of sight at least the timeout ago, since when no attached client has had it on screen and no report has shown it |
| Overlays.ShownIsNotEvicted | internal/daemon/overlay.go:84-113 | in every run the idle sweep spares what is on an attached client's screen |
| Overlays.HiddenSince | internal/daemon/overlay.go:242-259 | over any stretch of a run without a visible report the eviction deadline does not move |
| Overlays.ReportDecides | internal/daemon/overlay.go:242-259 | a report leaves a deadline running exactly when it says hidden and one ran already or no attached client is left with the overlay on screen; the first hide sets it to now, a visible report clears it |
| Overlays.CapHolds | internal/daemon/overlay.go:130-178 | after the cap as many are live as it allows, or all there were; the admitted one survives, no other kind of pane is touched, and every evicted one was shown no later than every other survivor |
| Overlays.CapSparesIff | internal/daemon/overlay.go:130-178 | whatever the cap chooses among equals it spares an overlay, if and only if it is off or not exceeded or enough others were shown strictly before that overlay to make up the excess; claims do not enter |
| Overlays.CapIgnoresClaims | internal/daemon/overlay.go:130-178 | a run in which the cap evicts the overlay that is on the only client's screen |
| Overlays.ClampedTimeoutExact | internal/daemon/overlay.go:38-59 | a clamped policy converts to a duration without wrapping, and is disabled exactly for zero and below |
| Overlays.TimeoutExactIff | internal/daemon/overlay.go:38-43 | the unclamped product is exact up to 153,722,867 minutes and no further |
| Overlays.WrappedTimeouts | internal/daemon/overlay.go:38-43 | for up to 461,168,601 minutes the product is negative exactly from 153,722,868 to 307,445,734, and from 307,445,735 on it starts again at a near-immediate 26 seconds |
| Overlays.Keeper.ApplyOverlayVisibility | internal/daemon/overlay.go:242-259 | performs one client's report: claims of attached clients only, and only the first hide stamps |
| Overlays.Keeper.HideUnclaimedOverlays | internal/daemon/overlay.go:276-293 | stamps exactly the unstamped overlays nobody claims |
| Overlays.Keeper.SweepIdleOverlays | internal/daemon/overlay.go:84-113 | destroys exactly the expired overlays |
| Overlays.Keeper.EnforceOverlayCap | internal/daemon/overlay.go:130-178 | evicts a choice of least recently shown overlays, as many as are over the cap |
| Dib.DecodeDIB | internal/clipboard/dib.go:40-172 | on every byte string, in wrapping 32- and 64-bit arithmetic: never out of range, accepts exactly what the unbounded layout accepts, and returns exactly the picture it describes |
| Dib.ExtentCheck | internal/clipboard/dib.go:83-107 | the wrapping extent is exact for every capped height, and rejects a height of -2^31, whose negation wraps |
| Dib.ScanAlpha | internal/clipboard/dib.go:121-132 | the early-exit scan says whether any alpha byte is set |
| Dib.Copy | internal/clipboard/dib.go:134-169 | the rows come out from the top in RGBA, for both row orders and both pixel sizes |
| Dib.FlatAt | internal/clipboard/dib.go:103-112 | entry k of chunk i of equally long rows lies at i times the stride plus k |
| DibRoundTrip.DecodeInvertsEncode | internal/clipboard/dib.go:40-172 | for every picture, header size, row order, mask and padding content, decoding the encoding gives the picture, opaque where 24 bits or an all-zero alpha demand it; an encoding is refused exactly for a length of 2^32 or more, which the code sees modulo 2^32 |
| DibRoundTrip.EncodedAccepted | internal/clipboard/dib.go:40-118 | the header of every encoding reads as written, and an encoding is accepted if and only if it is shorter than 2^32 bytes |
| DibRoundTrip.AlphaReads | internal/clipboard/dib.go:117-132 | the stored alpha bytes are all zero exactly when the picture is nowhere opaque |
| TokenCapture.ReadLoop | internal/claudetoken/capture.go:137-183 | for every cutting of the stream into reads the token taken is the whole stream's |
| TokenCapture.AcceptedIsFinal | internal/claudetoken/capture.go:40-64 | an accepted token is the answer for every continuation: no prefix is accepted and nothing later makes an earlier match |
| TokenCapture.AcceptedIff | internal/claudetoken/capture.go:55-64 | what is accepted is the leftmost and longest match of the pattern, once it cannot grow |
| TokenCapture.FindIsFirstMatch | internal/claudetoken/capture.go:40 | the search is the pattern's leftmost-longest match, and finds one if there is one |
| TokenCapture.EveryAnswerIsFinal | internal/claudetoken/capture.go:137-183 | no answer along the way differs from the final one |
| Sanitize.TitleFixedIff | internal/claudesessions/claudesessions.go:915-933 | sanitizing leaves exactly the neat titles alone, hence sanitizing twice is sanitizing once, also where the ellipsis makes a title one rune longer than its cap |
| Sanitize.TitleProps | internal/claudesessions/claudesessions.go:915-933 | a title holds no control or format character, words separated by single blanks, and at most one rune more than its cap |
| Sanitize.TitleKeepsInk | internal/claudesessions/claudesessions.go:915-933 | a title shows every readable rune of its text in order; a capped one shows a beginning |
| Sanitize.TitleCutAt | internal/claudesessions/claudesessions.go:928-932 | a title is cut only beyond 240 runes, right there or one rune before if that is a blank, and gets the ellipsis |
| Sanitize.PromptFixedIff | internal/claudesessions/claudesessions.go:875-913 | sanitizing leaves exactly the neat prompts alone, hence sanitizing twice is sanitizing once |
| Sanitize.PromptProps | internal/claudesessions/claudesessions.go:875-913 | a prompt holds no control character but line breaks and no format character, no leading blank line, no two in a row, no ragged line ends, and at most one rune more than its cap |
| Sanitize.PromptKeepsInk | internal/claudesessions/claudesessions.go:875-913 | a prompt shows every readable rune of its text in order; a capped one shows a beginning |
| Sanitize.PromptCutAt | internal/claudesessions/claudesessions.go:908-911 | a prompt is cut only beyond 1200 runes, behind the last of them that is neither blank nor line break, and gets the ellipsis |
| Sanitize.SanitizePrompt | internal/claudesessions/claudesessions.go:875-913 | the whole computation, with its loop, is the function those properties are about |
| Sanitize.CollapseLines | internal/claudesessions/claudesessions.go:891-906 | the counter loop keeps trimmed lines, dropping leading blanks and collapsing runs |
| Sanitize.RejoinFields | internal/claudesessions/claudesessions.go:926 | a single-spaced text is its own fields joined |
| Sanitize.NeatIsFixed | internal/claudesessions/claudesessions.go:875-913 | every text of the sanitized shape is left alone |

## Left out

- Redraw: enqueueing a key and recording its position are one step; a timer callback that runs after the pane's input was stopped, and the wrap of the 64-bit position counters, are not modelled.
- MouseModes: what the modes are used for once scanned (broadcasts, wheel handling).
- UpdateApply: the apply lock and its takeover, file modes, the respawn after the swap, and the later removal of backups; the swap is run by one process.
- HostRouter: name resolution, the bridge's own traffic, id-to-host memory, fan-out to several hosts.
- Session: panes of a tab, persistence and restore. Identifiers are numbers instead of strings, since they are only compared, and are drawn fresh: a collision of two shortened random ids is not modelled.
- SessionManagers.RunsStayConsistent: starts from the empty session; a restored snapshot, which is read without any uniqueness check, may already break the orderings or hold two equal names.
- SessionManagers.SessionManager.DestroyProject: the detached panes it returns are not modelled.
- HookFiles: characters stand for bytes; the temporary file behind an atomic replacement, and files written by anything but these hooks.
- GitCache: ahead and behind counts, worktree names, broadcast fingerprints. What a directory resolves to is taken not to change once git has answered; a directory removed and cloned anew is not modelled. A checkout may go on being probed from a directory no live pane is in; if that directory is gone every probe fails and the entry stays stale.
- EventQueues: the closing of a forgotten watcher's channel, and the size caps on the wire. An event that arrives with a count of its own starts its card at that count, which the counting result excludes.
- FsPermits: the counter is unbounded; a 64-bit one cannot be exhausted by the goroutines there can be.
- Browse: time passes in calls only, and a call is given up on just when its budget is spent; path joining, home expansion and the rejection of names with separators; entries are assumed to come back from a read in name order, as the standard library returns them, so that the sort is a stable partition.
- Overlays.IdleEvictionIsFair: each report, disconnect and sweep is one step; a report arriving between a sweep's filter and its destroys is not modelled.
- Dib: images wider than the encoder's header field allows are refused by the cap before it matters; the Windows side that obtains the bytes is not part of this model.
- TokenCapture: escape sequences are taken to be stripped already, since stripping a prefix need not be a prefix of the stripped whole; the overall time budget and the process being driven.
- Sanitize: invalid encodings; the Unicode tables are a parameter of which only the few facts the code relies on are assumed.
- Everything else in the repository (terminal emulation, layout, sandboxes, configuration, command-line prompts, tool registration) would add glue or one-branch logic.

# agentiso: verified models

agentiso runs workspaces as small virtual machines, with a host server and an agent in each guest.
This project models the parts of it that are small state machines, loops and codecs, and proves what
they are relied on for.

| file | what it models |
|---|---|
| `RateLimit.dfy`, `RateLimitByName.dfy` | token buckets with lazy refill, one per category of calls; the limiter as callers see it, by name |
| `Dhcp.dfy` | the address allocator: a circular scan with a wrapping 16-bit cursor |
| `Daemon.dfy`, `DaemonRuns.dfy` | the guest's mailbox, daemon loop, semaphore and result outbox, under any interleaving |
| `Jobs.dfy` | the guest's background job table: start, reap, poll and kill, under any interleaving |
| `Auth.dfy`, `Ownership.dfy` | sessions, workspace ownership and quotas, and runs over them |
| `AdoptAll.dfy` | adopting every workspace after a restart |
| `ExecParallel.dfy`, `Swarm.dfy`, `SwarmRun.dfy` | commands and swarms whose parts finish in any order |
| `Streams.dfy`, `Framing.dfy` | byte streams with short reads and writes; length-prefixed messages over them |
| `Shell.dfy` | quoting for the shell, the git command lines, and a reader of shell words |
| `Text.dfy`, `Porcelain.dfy` | the parser of `git status --porcelain=v2 --branch` |
| `Utf8.dfy`, `Decimal.dfy` | UTF-8 validity and the two byte-limited cuts; decimal numerals |
| `Prelude.dfy`, `Sums.dfy` | shared types; sums over finite sets |

Code that updates its state in place is a class or a method with a loop, proved equal to a function of
the old state; what those functions mean, one call at a time and over whole runs, are lemmas about them
that do not mention how they compute. The concurrent parts
(`Daemon`, `Jobs`) are transition systems whose steps are the sections under a lock: a run is any
sequence of steps, and a step that cannot be taken is skipped, so a statement about `After(steps)` for
all `steps` is a statement about every interleaving. Run `dafny verify dfyconfig.toml`.

Where the code differs from what one would expect, the model follows the code:

- A scan of a full pool never ends when the cursor is 0, 1 or 2. The cursor 2 does not occur with a full
  pool (`Dhcp.RunInvariant`); restoring the address with offset 0xFFFF leads to 0
  (`Dhcp.MarkingBroadcastBreaksAllocate`), and restoring offset 0 after that to 1
  (`Dhcp.MarkingNetworkBreaksAllocate`). `Dhcp.ScanStopsExactly` gives the exact condition.
- The gateway offset needs no restriction: with gateway offset 2 the part of offset 2 in the invariant is
  played by 3.
- A full inbox can drop a message that is newer than messages the daemon still holds
  (`DaemonRuns.NewerDroppedWhileOlderWaits`); `DaemonRuns.DropsOldestExactly` says exactly when.
- The daemon dies on a malformed assignment whose content cannot be cut after 200 bytes, since the cut is by
  bytes (`DaemonRuns.CrashesExactly`, `DaemonRuns.FatalExactly`), and every such message kills an idle daemon
  (`DaemonRuns.FatalMessageKills`). What it held is then lost: the batch and held messages move to `lost`, and
  the fatal assignment counts as dequeued without a result. Commands are lost to panics in the same way
  (`DaemonRuns.DiesExactly`, `DaemonRuns.PanicsExactly`). All results about runs cover these runs.
- A poll that reports no pending work may leave results behind (`DaemonRuns.PendingZeroIsNotAllDelivered`);
  `DaemonRuns.PendingZeroDeliversExactly` says when everything was delivered.
- The job counter is a 32-bit counter that wraps, and an insertion does not look whether its id is still in
  the table. Every live job has an entry of its own exactly in the runs in which no insertion meets an entry
  of its id (`Jobs.OwnEntriesExactly`), which all runs of at most 2^32 starts are; the first start after that
  can break it (`Jobs.ReusedIdCompletesTooEarly`).
- The writers have no 4 MiB limit, only the readers do (`Framing.ReaderAcceptsExactly`), and a payload of
  2^32 bytes or more does not survive its own length prefix (`Framing.PayloadRoundTripExactly`).
- The status parser strips every leading `? ` of an untracked path (`Porcelain.RoundTripExactly`).
- Restoring sessions applies the default quota without checking it (`Ownership.RestoreConsistentExactly`).
- A swarm is charged for a worker whose destroy task panicked (`SwarmRun.CleanupIsNeutralExactly`).

## Model

| member | source | states |
|---|---|---|
| `RateLimit.TokenBucket.constructor` | agentiso/src/mcp/rate_limit.rs:29-36 | a new bucket is full, with the per-minute rate turned into a rate per second |
| `RateLimit.TokenBucket.TryAcquire` | agentiso/src/mcp/rate_limit.rs:40-54 | one call: refill up to the cap, then take a token if there is one; the verdict and the whole new state |
| `RateLimit.LevelIsLeastLine` | agentiso/src/mcp/rate_limit.rs:40-54 | min-plus form of the refill: the level is the least of one line for each earlier call, and is attained |
| `RateLimit.ClosedForm` | agentiso/src/mcp/rate_limit.rs:40-54 | for calls at nondecreasing times, the tokens left are the minimum over earlier calls k of burst + rate * time since k - calls admitted from k on |
| `RateLimit.RefusedExactly` | agentiso/src/mcp/rate_limit.rs:40-54 | a call is refused if and only if admitting it would put more than burst + rate * length calls into some window ending now |
| `RateLimit.WindowBound` | agentiso/src/mcp/rate_limit.rs:40-54 | no window anywhere holds more than burst + rate * length admitted calls |
| `RateLimit.RateLimiter.constructor` | agentiso/src/mcp/rate_limit.rs:65-96 | four separate buckets with bursts 3, 10, 20 and 50 and the configured rates |
| `RateLimit.RateLimiter.CheckCategory` | agentiso/src/mcp/rate_limit.rs:102-125 | a check touches only the bucket its name is routed to, unknown names to the default one; disabled limiters let everything pass |
| `RateLimit.BucketsAreIndependent` | agentiso/src/mcp/rate_limit.rs:102-125 | in any mix of calls each bucket evolves as if the calls routed to it were the only ones |
| `RateLimit.CallRefusedExactly` | agentiso/src/mcp/rate_limit.rs:102-125 | over any run of the limiter a call fails if and only if the limiter is enabled and the call would overfill a window of its bucket; the error quotes the configured limit |
| `RateLimit.CategoryWindowBound` | agentiso/src/mcp/rate_limit.rs:102-125 | the window bound for each bucket under any interleaving of categories |
| `RateLimitByName.RefusedExactlyByName` | agentiso/src/mcp/rate_limit.rs:65-125 | in terms of names alone: a call fails if and only if the limiter is enabled and the call would put more than 3, 10, 50 or 20 calls, and a sixtieth of the configured limit for each second, into a window shared by the names of its bucket; what the refusal quotes |
| `RateLimitByName.BurstExactly` | agentiso/src/mcp/rate_limit.rs:65-125 | of calls of one name at one instant to a fresh limiter exactly the first 3 ("create"), 10 ("exec"), 50 ("team_message") or 20 (any other name) succeed |
| `Dhcp.IpAllocator.constructor` | agentiso/src/network/dhcp.rs:30-49 | a fresh pool reserves offset 0 and the gateway and starts at 2 |
| `Dhcp.IpAllocator.Allocate` | agentiso/src/network/dhcp.rs:54-86 | the loop ends, returns the circularly first free offset (offset 1 if the cursor is 1 and it is free), and fails only on a full pool; new state and number of iterations tied to `Iterations` |
| `Dhcp.IpAllocator.ReleaseIp` | agentiso/src/network/dhcp.rs:91-111 | reserved and unknown offsets change nothing; otherwise the offset is free and the cursor not above it |
| `Dhcp.IpAllocator.MarkAllocated` | agentiso/src/network/dhcp.rs:114-134 | refuses other subnets, else takes the offset and moves a lower cursor past it with wrap-around |
| `Dhcp.ScanStep` | agentiso/src/network/dhcp.rs:61-85 | one iteration finds the first free offset, proves the pool full, or widens the part known to be taken by one |
| `Dhcp.ScanStopsExactly` | agentiso/src/network/dhcp.rs:61-85 | the scan ends if and only if the cursor is at least 3, some offset in the range is free, or the cursor is 1 and offset 1 is free |
| `Dhcp.FullScanNeverStops` | agentiso/src/network/dhcp.rs:80-84 | with a full pool and a cursor below 3 the end-of-loop test never fires |
| `Dhcp.MarkingBroadcastBreaksAllocate` | agentiso/src/network/dhcp.rs:125-131 | restoring offset 0xFFFF into a full pool makes every later scan endless |
| `Dhcp.MarkingNetworkBreaksAllocate` | agentiso/src/network/dhcp.rs:125-131 | so does restoring offset 0xFFFF and then offset 0, with offset 1 taken |
| `Dhcp.StepKeepsReachable` | agentiso/src/network/dhcp.rs:54-134 | every call keeps the cursor at 2 or more, and at 2 only while the lowest usable offset is free |
| `Dhcp.RunInvariant` | agentiso/src/network/dhcp.rs:30-134 | after any run the pool holds exactly the reserved offsets and those callers hold, and the next scan ends |
| `Dhcp.AllocationsAreFresh` | agentiso/src/network/dhcp.rs:54-86 | over any run no reserved or held address is handed out, and failure means that every usable offset is held |
| `Dhcp.OutcomeIsUnique` | agentiso/src/network/dhcp.rs:54-86 | the contract of `Allocate` leaves one possible result and new state |
| `Dhcp.AllocatedMovesOn` | agentiso/src/network/dhcp.rs:54-86 | after an address is handed out the next one is the first free one after it |
| `Dhcp.ReleasedIsNext` | agentiso/src/network/dhcp.rs:91-111 | an address freed below the cursor is the next one handed out |
| `Dhcp.ReleasedWaits` | agentiso/src/network/dhcp.rs:91-111 | one freed at or above the cursor is next if and only if it comes before what was next |
| `Dhcp.UnreleasableStays` | agentiso/src/network/dhcp.rs:91-111 | releasing a reserved or free offset changes nothing |
| `Dhcp.MarkedMovesOn` | agentiso/src/network/dhcp.rs:114-134 | after restoring an address at or above the cursor the next one is the first free one after it |
| `Dhcp.MarkedKeepsPlace` | agentiso/src/network/dhcp.rs:114-134 | restoring one below the cursor leaves the search as it was, less that address |
| `Dhcp.FirstAddress` | agentiso/src/network/dhcp.rs:30-49 | a fresh subnet with gateway .0.1 hands out .0.2 first; the host part is 256 times the third octet plus the fourth |
| `Dhcp.OffsetRoundTrip` | agentiso/src/network/dhcp.rs:147-151 | address to offset and back gives the same address |
| `Dhcp.MarkKeepsDense` | agentiso/src/network/dhcp.rs:128-131 | restoring keeps everything below the cursor taken if and only if it skips no free offset |
| `Dhcp.RunIsDense` | agentiso/src/network/dhcp.rs:54-134 | in runs whose restores skip nothing, all of [2, cursor) is taken |
| `Dhcp.AllocatesLowestFree` | agentiso/src/network/dhcp.rs:54-111 | in such runs `allocate` returns the lowest free offset |
| `Daemon.Inbox.Push` | guest-agent/src/main.rs:1292-1296 | a full inbox of 1000 loses its first message, then the new one is last |
| `Daemon.Inbox.TakeAll` | guest-agent/src/main.rs:1271-1277 | a drain returns everything in order and leaves nothing |
| `Daemon.Inbox.Reinsert` | guest-agent/src/daemon.rs:302-312 | held messages go before newer ones, and only the last 200 stay; with nothing held nothing changes |
| `Daemon.Outbox.Push` | guest-agent/src/daemon.rs:43-46 | a result goes last |
| `Daemon.Outbox.Drain` | guest-agent/src/daemon.rs:49-53 | at most `limit` results leave, oldest first; drained and kept together are what was there |
| `Daemon.StepKeepsInv` | guest-agent/src/daemon.rs:235-314 | every step of every party keeps the five invariants: one place per message, order, permits, results, types |
| `DaemonRuns.RunKeepsInv` | guest-agent/src/daemon.rs:235-314 | they hold in every interleaving from the start |
| `DaemonRuns.EveryMessageIsInOnePlace` | guest-agent/src/daemon.rs:235-314 | each arrived message is in exactly one of inbox, batch, held, running, outbox, delivered, fetched, dropped, lost to a panic, lost with the daemon |
| `DaemonRuns.QueuesStayInOrder` | guest-agent/src/daemon.rs:248-314 | held, batch and inbox together are strictly in order of arrival, and the inbox never exceeds 1000 |
| `DaemonRuns.QueuedMessagesGo` | guest-agent/src/daemon.rs:248-314 | a queued message leaves the queues only by a fetch, by a cap, with the daemon, or as a task assignment at the head of the batch |
| `DaemonRuns.InboxHoldsAThousand` | guest-agent/src/main.rs:1292-1296 | 1000 pushes into an empty inbox drop nothing, and the next one drops the first message |
| `DaemonRuns.PutBackKeepsNewest` | guest-agent/src/daemon.rs:302-312 | a put-back keeps the newest 200 of what is held and what came in |
| `DaemonRuns.FourPermits` | guest-agent/src/daemon.rs:65-85 | permits held and available are always four, and the pending count is the number held |
| `DaemonRuns.DispatchWaitsExactly` | guest-agent/src/daemon.rs:261-271 | the next message of the batch waits if and only if it is a parsed assignment and four commands hold permits |
| `DaemonRuns.OthersNeverWait` | guest-agent/src/main.rs:1271-1296 | pushes, fetches and polls are always possible, also after the daemon died; a fetch hands over the whole inbox |
| `DaemonRuns.ResultsLeaveInOrder` | guest-agent/src/daemon.rs:43-53 | what the host drained followed by the outbox is what was pushed, in order |
| `DaemonRuns.OneResultPerAssignment` | guest-agent/src/daemon.rs:261-300 | each dequeued assignment has exactly one result, with its message id, once its command has ended; panicked ones and the one the daemon died of have none |
| `DaemonRuns.ResultsTellOutcomes` | guest-agent/src/daemon.rs:158-217 | over a run every result of a parsed assignment reports the end of its command by some step of the run: its exit code, -1 without one, and success if and only if it exited with 0 |
| `DaemonRuns.OutcomesAreTold` | guest-agent/src/daemon.rs:272-276 | each command that ends without a panic leaves such a result, with its task id and message id |
| `DaemonRuns.DropsOldestExactly` | guest-agent/src/main.rs:1367-1373 | what a cap drops is older than all that stays in the inbox, and older than all that stays queued if and only if the inbox did not overflow while the daemon held messages |
| `DaemonRuns.FreshDropExactly` | guest-agent/src/daemon.rs:302-312 | the 200 cap drops a message that came in meanwhile, of any kind, if and only if 200 newer ones followed and something is put back |
| `DaemonRuns.NewerDroppedWhileOlderWaits` | guest-agent/src/main.rs:1292-1296 | a run in which message 1 is dropped while message 0 waits |
| `DaemonRuns.InternalStepsUseUpWork` | guest-agent/src/daemon.rs:259-314 | each step of the daemon or of a running command uses up some of a finite amount of work |
| `DaemonRuns.NeverStuck` | guest-agent/src/daemon.rs:259-314 | while anything is outstanding some internal step can be taken, so the semaphore never deadlocks the loop |
| `DaemonRuns.Settles` | guest-agent/src/daemon.rs:259-314 | from every reachable state the guest can, by itself, end all commands, empty its batch and regain four permits |
| `DaemonRuns.CrashesExactly` | guest-agent/src/daemon.rs:289-292 | the daemon is dead after a run if and only if some step of the run dequeued an assignment that can be neither parsed nor reported |
| `DaemonRuns.FatalExactly` | guest-agent/src/daemon.rs:289-292 | an assignment is such if and only if it does not parse, is longer than 200 bytes, and its first 200 bytes are not whole characters |
| `DaemonRuns.FatalMessageKills` | guest-agent/src/daemon.rs:248-292 | every such message kills an idle daemon that takes it |
| `DaemonRuns.FatalMessageExists` | guest-agent/src/daemon.rs:289-292 | one that is valid text: 199 letters and a two-byte character |
| `DaemonRuns.DiesExactly` | guest-agent/src/daemon.rs:163-171 | a command panics if and only if it ran and left more than 2 MiB of output or errors whose first 2 MiB are not whole characters |
| `DaemonRuns.PanicsExactly` | guest-agent/src/daemon.rs:159-171 | over a run exactly the assignments whose command ended so are lost to a panic |
| `DaemonRuns.CrashIsFinal` | guest-agent/src/daemon.rs:235-314 | a dead daemon stays dead, holds nothing, and dequeues nothing more |
| `DaemonRuns.PendingZeroDeliversExactly` | guest-agent/src/main.rs:1174-1178 | when the pending count is read as 0 after a poll, with any steps between its drain and its count, every answerable assignment dequeued so far is delivered if and only if the limit covered the outbox and no result came in between |
| `DaemonRuns.PendingZeroIsNotAllDelivered` | guest-agent/src/main.rs:1174-1178 | a run in which nothing is pending after a poll that left a result behind |
| `Jobs.JobTable.constructor` | guest-agent/src/main.rs:657-671 | ids start at 1 and the table is empty |
| `Jobs.JobTable.Allocate` | guest-agent/src/main.rs:776-777 | the old counter is the id, and the counter wraps at 2^32 |
| `Jobs.JobTable.TryInsert` | guest-agent/src/main.rs:778-800 | refused at 1000 entries, else an unfinished entry is added |
| `Jobs.JobTable.Remove` | guest-agent/src/main.rs:815-861 | a start that fails before or at spawning leaves no entry |
| `Jobs.JobTable.StorePid` | guest-agent/src/main.rs:863-870 | only the process id of an existing entry changes |
| `Jobs.JobTable.Reap` | guest-agent/src/main.rs:894-910 | an existing entry gets the outcome and is done; a missing one stays missing |
| `Jobs.JobTable.Poll` | guest-agent/src/main.rs:915-945 | unknown, still running (kept) or done (removed and returned) |
| `Jobs.JobTable.Lookup` | guest-agent/src/main.rs:947-955 | what a kill request aims at, without changing the table |
| `Jobs.StepKeepsInv` | guest-agent/src/main.rs:776-945 | every step but an insertion over an existing entry keeps each job's entry and reports in line with how far its start and reaper are |
| `Jobs.RunKeepsInv` | guest-agent/src/main.rs:776-945 | this holds in every interleaving in which no insertion meets an entry of its id |
| `Jobs.TakeoverBreaks` | guest-agent/src/main.rs:790-799 | an insertion that does leaves two live jobs with one entry |
| `Jobs.OwnEntriesExactly` | guest-agent/src/main.rs:776-945 | throughout a run every live job has an entry of its own if and only if no insertion of the run met an entry of its id |
| `Jobs.FewStartsAreGuarded` | guest-agent/src/main.rs:776-800 | every run with at most 2^32 starts is such a run |
| `Jobs.TableListsLiveJobs` | guest-agent/src/main.rs:776-945 | in such runs the table lists exactly the ids of the live jobs |
| `Jobs.TableIsBounded` | guest-agent/src/main.rs:766-800 | in every run, ids reused included, the table has at most 1000 entries |
| `Jobs.TableHoldsAThousand` | guest-agent/src/main.rs:766-800 | 1000 starts are all listed, and the next start is rejected |
| `Jobs.TableShowsStage` | guest-agent/src/main.rs:776-913 | active jobs have an unfinished entry and done ones a finished one; otherwise an entry of that id belongs to another live job |
| `Jobs.StagesOnlyAdvance` | guest-agent/src/main.rs:776-945 | over any run, ids reused included, a job only moves forward: absent, running, done, gone |
| `Jobs.ReaperFindsItsEntry` | guest-agent/src/main.rs:896-910 | the reaper always finds its own entry, unfinished, and completes it |
| `Jobs.PollAnswersExactly` | guest-agent/src/main.rs:915-945 | "not found" if and only if no live job has the id; completion if and only if the live job's reaper is over, with what that reaper stored |
| `Jobs.OneCompletion` | guest-agent/src/main.rs:915-945 | at most one poll of a job ever reports completion, never before its reaper |
| `Jobs.LaterPollsFindNothing` | guest-agent/src/main.rs:915-945 | after that poll no later poll reports the job, and its id is answered "not found" unless another live job has it |
| `Jobs.KillFindsExactly` | guest-agent/src/main.rs:947-970 | a kill is aimed at a process id if and only if the job is running with that id; an id without a live job is unknown |
| `Jobs.IdsRepeatExactly` | guest-agent/src/main.rs:657-657 | two starts share an id if and only if they are a multiple of 2^32 apart |
| `Jobs.ReusedIdCompletesTooEarly` | guest-agent/src/main.rs:776-800 | a run with 2^32 + 1 starts whose last insertion takes over an entry: a job not yet spawned is reported complete |
| `Auth.AuthManager.constructor` | agentiso/src/mcp/auth.rs:117-123 | no sessions at first |
| `Auth.AuthManager.Open` | agentiso/src/mcp/auth.rs:127-133 | a new session is empty and fully within quota; an existing one is left alone |
| `Auth.AuthManager.TouchSession` | agentiso/src/mcp/auth.rs:137-141 | only the activity time of a known session changes |
| `Auth.AuthManager.RemoveSession` | agentiso/src/mcp/auth.rs:160-166 | the session goes and its workspaces are returned |
| `Auth.AuthManager.RegisterWorkspace` | agentiso/src/mcp/auth.rs:170-217 | the first exceeded quota is reported and nothing changes, else set and counters grow together |
| `Auth.AuthManager.UnregisterWorkspace` | agentiso/src/mcp/auth.rs:220-238 | usage is released only for a workspace that was owned |
| `Auth.AuthManager.CheckQuota` | agentiso/src/mcp/auth.rs:242-278 | succeeds and fails exactly as a registration of that size would, with the same error |
| `Auth.AuthManager.CheckOwnership` | agentiso/src/mcp/auth.rs:281-298 | succeeds if and only if the session owns the workspace, and tells an unknown session from a stranger |
| `Auth.AuthManager.PurgeStaleSessions` | agentiso/src/mcp/auth.rs:345-357 | every session but the kept one goes, and the count says how many |
| `Auth.AuthManager.ListOrphaned` | agentiso/src/mcp/auth.rs:360-371 | exactly the candidates nobody owns, in order |
| `Auth.OrphanedAreUnowned` | agentiso/src/mcp/auth.rs:360-371 | a workspace is listed if and only if it is a candidate that nobody owns, and all candidates are when nobody owns any |
| `Auth.OrphanedInOrder` | agentiso/src/mcp/auth.rs:360-371 | the list for two lists one after the other is the two lists of orphans one after the other |
| `Auth.AuthManager.AdoptWorkspace` | agentiso/src/mcp/auth.rs:379-482 | the whole call, in whatever order the sessions are scanned: each error and the transfer; of several other owners any may be found, with exclusive ownership there is no choice |
| `Auth.AuthManager.ExportSessions` | agentiso/src/mcp/auth.rs:530-541 | one record for each session that owns something, with exactly its workspaces and the id it holds |
| `Auth.AuthManager.RestoreSessions` | agentiso/src/mcp/auth.rs:552-626 | surviving workspaces come back with rebuilt usage, idle since the epoch; empty and existing sessions are skipped |
| `Ownership.QuotaCheckExactly` | agentiso/src/mcp/auth.rs:181-211 | an addition is within quota if and only if count + 1, memory + size and disk + size each are; otherwise the error names the first of the three exceeded, with its limit, use and request |
| `Ownership.RegisterSucceedsExactly` | agentiso/src/mcp/auth.rs:170-217 | registration succeeds if and only if the session exists and the workspace fits; the error otherwise; what else it leaves alone |
| `Ownership.UnregisterTakesOne` | agentiso/src/mcp/auth.rs:220-238 | it fails only for an unknown session, and takes that workspace from that session and nothing else |
| `Ownership.RegisterConsistentExactly` | agentiso/src/mcp/auth.rs:170-217 | a successful registration keeps ownership exclusive and counters exact if and only if nobody owned the workspace |
| `Ownership.UnregisterIsConsistent` | agentiso/src/mcp/auth.rs:220-238 | unregistering keeps both, so the saturating subtractions never clip |
| `Ownership.AdoptSucceedsExactly` | agentiso/src/mcp/auth.rs:379-482 | adoption succeeds if and only if the session exists, any other owner is idle for 60 seconds and force is given, and the workspace is owned already or count + 1, memory + size and disk + size are within quota |
| `Ownership.AdoptRefusesWith` | agentiso/src/mcp/auth.rs:379-482 | which error a refusal carries: unknown session, the protected owner, or the first quota exceeded |
| `Ownership.AdoptMovesOne` | agentiso/src/mcp/auth.rs:379-482 | adoption changes nothing or moves exactly one workspace, to the adopter alone |
| `Ownership.AdoptConservesUsage` | agentiso/src/mcp/auth.rs:462-480 | the usage of all sessions together is the same after a transfer, and grows by the size of an orphan |
| `Ownership.AdoptIsConsistent` | agentiso/src/mcp/auth.rs:379-482 | adoption keeps ownership exclusive, counters exact and quotas kept |
| `Ownership.RunIsConsistent` | agentiso/src/mcp/auth.rs:127-482 | so does every run of open, touch, remove, register, unregister, adopt and purge with fresh ids |
| `Ownership.RunFromEmpty` | agentiso/src/mcp/auth.rs:117-482 | from the empty manager: pairwise disjoint sets, counters equal to set size and resource sums, usage within the default quota |
| `Ownership.ActiveSessionStays` | agentiso/src/mcp/auth.rs:137-141 | a session that is not removed stays, with the activity time of its last touch |
| `Ownership.ActiveSessionKeepsItsWorkspaces` | agentiso/src/mcp/auth.rs:407-420 | a session last touched less than 60 seconds before each adoption loses a workspace if and only if it unregisters it itself |
| `Ownership.SessionsLive` | agentiso/src/mcp/auth.rs:127-141 | over a run from empty a session was created by the open that made it and was last active at the later of that open and its touches; both are read off the operations alone |
| `Ownership.SparedKeepsExactly` | agentiso/src/mcp/auth.rs:407-420 | in a run from empty, while its last activity, opening included, is under 60 seconds old at each adoption, a session loses a workspace if and only if it unregisters it itself |
| `Ownership.SessionInUseKeeps` | agentiso/src/mcp/auth.rs:407-420 | the same over any stretch of a run |
| `Ownership.RestoreGivesBack` | agentiso/src/mcp/auth.rs:530-626 | export then restore gives every session its surviving workspaces, their usage and its creation time, and nothing else |
| `Ownership.RestoreKeepsExisting` | agentiso/src/mcp/auth.rs:552-626 | restoring changes no session that is already there and opens only those of the records |
| `Ownership.RestoreConsistentExactly` | agentiso/src/mcp/auth.rs:552-626 | whatever quota is restored, ownership is disjoint and counters exact, and quotas are kept if and only if what survives fits |
| `Ownership.RestoreIsConsistent` | agentiso/src/mcp/auth.rs:552-626 | with the quota unchanged the restored manager is disjoint, exact and within quota |
| `Ownership.SecondExportIsFirstRestricted` | agentiso/src/mcp/auth.rs:530-626 | a second export is the first one cut to the surviving workspaces |
| `Ownership.RestartGivesBack` | agentiso/src/mcp/auth.rs:530-626 | run from empty, export and restore in one: every session back with its survivors, disjoint, exact and within quota |
| `AdoptAll.CandidateList` | agentiso/src/mcp/tools.rs:2112-2122 | with force everything not mine, without force everything orphaned, in listing order |
| `AdoptAll.CandidatesExactly` | agentiso/src/mcp/tools.rs:2112-2122 | a listed workspace is a candidate if and only if the caller does not own it (with force) or nobody does (without); candidates come in the order of listing |
| `AdoptAll.AdoptAllWorkspaces` | agentiso/src/mcp/tools.rs:2099-2157 | purge, candidates, adoptions and report together |
| `AdoptAll.ForceMakesNoDifference` | agentiso/src/mcp/tools.rs:2110-2122 | after the purge force changes neither the candidates nor anything else |
| `AdoptAll.AdoptAllAccounts` | agentiso/src/mcp/tools.rs:2124-2157 | adopted and errors partition the candidates, each listed workspace ends with the caller alone or is reported, and only quotas refuse a registered caller |
| `AdoptAll.AdoptAllIsConsistent` | agentiso/src/mcp/tools.rs:2099-2157 | ownership stays exclusive, counters exact and quotas kept |
| `ExecParallel.Collect` | agentiso/src/mcp/tools.rs:2978-3029 | results by position and the three counts, independent of the order of completion; the counts add up to the number of commands, panics included |
| `ExecParallel.OneEntryEach` | agentiso/src/mcp/tools.rs:2978-3029 | without panics there is one entry for each command, at its position |
| `ExecParallel.EntriesExactly` | agentiso/src/mcp/tools.rs:2978-3029 | the list holds exactly the entries of the commands that did not panic, by ascending position |
| `ExecParallel.CountsMatchEntries` | agentiso/src/mcp/tools.rs:2984-3025 | the counts of successes and timeouts agree with what the list says of each command |
| `ExecParallel.EntryReports` | agentiso/src/mcp/tools.rs:2984-3025 | an entry carries its own command's code, output and errors, or -1 and the message; it tells of a timeout if and only if "timed out" or "Timeout" occurs at some position of the message |
| `ExecParallel.VerdictExactly` | agentiso/src/mcp/tools.rs:2984-3025 | which commands count as successes (those that exited with 0) and which as timeouts |
| `Swarm.CollectWorkers` | agentiso/src/mcp/tools.rs:3130-3150 | workers by position and exactly the failed forks' messages, in any order of completion |
| `Swarm.FindFailure` | agentiso/src/mcp/tools.rs:3372-3375 | the fork's own message, or the general one after a panic |
| `Swarm.Prepopulate` | agentiso/src/mcp/tools.rs:3352-3387 | one entry for each task whose command is not run |
| `Swarm.CollectResults` | agentiso/src/mcp/tools.rs:3352-3420 | the entries of all tasks, each once, and their outcomes by position |
| `Swarm.SortOrders` | agentiso/src/mcp/tools.rs:3422-3427 | sorting by name gives strictly ascending names and the same entries |
| `Swarm.LessExactly` | agentiso/src/mcp/tools.rs:3422-3427 | the order of names: at the first position where they differ the smaller has ended or has the smaller character |
| `Swarm.EntryReports` | agentiso/src/mcp/tools.rs:3352-3420 | what the report says of each task: the fork's failure, the missing environment, or its command's code, output, errors and workspace |
| `Swarm.ReportIsUnique` | agentiso/src/mcp/tools.rs:3352-3427 | the sorted list is the same for every order of completion |
| `Swarm.OneEntryPerTask` | agentiso/src/mcp/tools.rs:3352-3427 | entries and panicked commands add up to the tasks, and successful entries are the successful tasks |
| `SwarmRun.CheckUnique` | agentiso/src/mcp/tools.rs:3068-3077 | fails if and only if a name repeats, with the first that does |
| `SwarmRun.AllFailed` | agentiso/src/mcp/tools.rs:3152-3157 | gives up if and only if some fork failed with an error and none succeeded |
| `SwarmRun.RegisterWorkers` | agentiso/src/mcp/tools.rs:3159-3164 | the session is charged for exactly the workers that fit, one after the other |
| `SwarmRun.RegisteredExactly` | agentiso/src/mcp/tools.rs:3159-3164 | a worker is registered if and only if the session exists and its usage, the registered workers before this one and this one together are within all three quotas |
| `SwarmRun.AllFitAllRegistered` | agentiso/src/mcp/tools.rs:3159-3164 | when all workers fit together, all are registered |
| `SwarmRun.RegisteredFitTheQuota` | agentiso/src/mcp/tools.rs:3159-3164 | registering workers never takes a session over its quota |
| `SwarmRun.UnregisterReturns` | agentiso/src/mcp/auth.rs:220-238 | unregistering takes back exactly one registered worker, and changes nothing for one that never was |
| `SwarmRun.Cleanup` | agentiso/src/mcp/tools.rs:3478-3513 | in any order of completion, all is given back but registered workers whose destroy task panicked; the count of destroyed workers |
| `SwarmRun.CountSuccesses` | agentiso/src/mcp/tools.rs:3515-3518 | the number of outcomes recorded as successful |
| `SwarmRun.Run` | agentiso/src/mcp/tools.rs:3062-3519 | when a swarm proceeds and which error a refusal carries, its sorted report and counts, and the session it leaves behind, all independent of the orders of completion |
| `SwarmRun.CleanupIsNeutralExactly` | agentiso/src/mcp/tools.rs:3478-3513 | after cleanup the session's set and usage are exactly as before if and only if no registered worker's destroy task panicked |
| `Streams.ReadExact` | scripts/vsock-test.c:67-86 | fills exactly n bytes for every split into short reads and interruptions, and fails if and only if fewer can be read |
| `Streams.WriteAll` | scripts/vsock-test.c:89-103 | writes all for every split into short writes and interruptions, and on an error has written a prefix |
| `Streams.ReadBounded` | guest-agent/src/main.rs:100-122 | keeps the longest prefix within the limit and drains the rest |
| `Framing.PutBe32` | scripts/vsock-test.c:106-112 | the four bytes of the value, the rest of the buffer unchanged |
| `Framing.Be32RoundTrip` | scripts/vsock-test.c:106-121 | both conversions undo each other, for all values and all bytes |
| `Framing.BigEndian` | scripts/vsock-test.c:106-121 | numbers are ordered as their bytes are in dictionary order: the most significant byte comes first |
| `Framing.BigEndianExample` | scripts/vsock-test.c:106-112 | 0x01020304 is written as 1, 2, 3, 4 |
| `Framing.EncodeMessage` | protocol/src/lib.rs:618-625 | the frame of the serialised message, or nothing when it does not serialise |
| `Framing.PayloadRoundTripExactly` | protocol/src/lib.rs:618-641 | the length prefix of a payload is its length if and only if that is below 2^32 |
| `Framing.ProperPrefixRejected` | protocol/src/lib.rs:632-638 | every proper prefix of a frame is rejected, with the right one of the two errors |
| `Framing.DecodeAllFrames` | protocol/src/lib.rs:618-641 | concatenated frames decode back one by one, each consuming its own bytes |
| `Framing.ReadMessage` | agentiso/src/guest/mod.rs:40-54 | the outcome and what is left depend on the bytes alone, not on how reads split them |
| `Framing.WriteMessage` | agentiso/src/guest/mod.rs:57-65 | success adds exactly one frame, for every split into short writes |
| `Framing.ReaderAcceptsExactly` | agentiso/src/guest/mod.rs:44-50 | the reader takes a written frame if and only if its payload is within 4 MiB |
| `Framing.ReaderAgreesWithDecoder` | agentiso/src/guest/mod.rs:40-54 | the streaming reader accepts what the decoder accepts within the limit, with the same message and bytes consumed |
| `Framing.ReadConnection` | guest-agent/src/main.rs:1202-1225 | a connection yields the messages of its bytes up to the first error |
| `Framing.ReadAllFrames` | guest-agent/src/main.rs:41-62 | a stream of frames within the limit is read back message by message, for every split |
| `Shell.ShellEscape` | agentiso/src/util.rs:6-18 | for every string the result is read by the shell as one word, that string |
| `Shell.ScanEscape` | agentiso/src/util.rs:6-18 | wherever it is put outside quotes, an escaped string adds exactly itself to the current word |
| `Shell.CommandWords` | agentiso/src/util.rs:6-18 | a command line of plain words and escaped strings is read as exactly those words |
| `Shell.BuildClone` | agentiso/src/mcp/git_tools.rs:321-331 | the clone command is read as exactly the intended arguments, for every url, path, branch and depth |
| `Shell.BuildCommit` | agentiso/src/mcp/git_tools.rs:486-501 | the commit command is read as exactly the intended arguments, the author only with both name and email |
| `Porcelain.Parse` | agentiso/src/mcp/git_tools.rs:219-304 | the loop over lines, and dirty if and only if one of the four lists is non-empty |
| `Porcelain.ParseAheadBehind` | agentiso/src/mcp/git_tools.rs:231-240 | the counts named by signed tokens, 0 for unreadable ones |
| `Porcelain.ParseHeader` | agentiso/src/mcp/git_tools.rs:228-240 | rendered header lines set branch, ahead and behind and nothing else |
| `Porcelain.ParseRecordLine` | agentiso/src/mcp/git_tools.rs:241-289 | each rendered record adds its path to exactly the lists its state calls for |
| `Porcelain.ParseRendered` | agentiso/src/mcp/git_tools.rs:219-304 | parsing a rendered status recovers branch, counts and all four lists in order |
| `Porcelain.RoundTripExactly` | agentiso/src/mcp/git_tools.rs:285-289 | the untracked list too is recovered if and only if no untracked path starts with `? ` |
| `Porcelain.StateByBytes` | agentiso/src/mcp/git_tools.rs:241-277 | a state of any length in any characters: staged if and only if its UTF-8 bytes start with other than a full stop, modified if and only if there is a second byte that is none |
| `Porcelain.ShortRecordsAreIgnored` | agentiso/src/mcp/git_tools.rs:241-289 | ordinary records of fewer than 9 columns, renames of fewer than 10, and lines of no known kind change nothing |
| `Porcelain.ShortUnmerged` | agentiso/src/mcp/git_tools.rs:278-284 | an unmerged record with fewer columns still adds what follows its last space |
| `Porcelain.RenamedWithoutTab` | agentiso/src/mcp/git_tools.rs:259-277 | a rename without a tab keeps its whole last column |
| `Porcelain.RepeatedPrefix` | agentiso/src/mcp/git_tools.rs:229-233 | a header prefix is removed as often as it leads |
| `Porcelain.LastCountsWin` | agentiso/src/mcp/git_tools.rs:231-240 | of several signed tokens the last of each sign counts, and an unreadable one as 0 |
| `Text.LinesOfUnlines` | agentiso/src/mcp/git_tools.rs:228-228 | splitting joined lines gives the lines back |
| `Text.LineEnds` | agentiso/src/mcp/git_tools.rs:228-228 | a carriage return goes with its line feed, and a last line needs none |
| `Text.SplitNOfJoined` | agentiso/src/mcp/git_tools.rs:241-284 | splitting joined columns into as many parts gives them back, spaces in the last one kept |
| `Text.SplitNLength` | agentiso/src/mcp/git_tools.rs:241-284 | there is one part more than there are separators, up to the limit |
| `Text.TrimStartExactly` | agentiso/src/mcp/git_tools.rs:229-289 | removing a prefix gives back what followed if and only if that does not start with the prefix |
| `Utf8.ValidExactly` | agentiso/src/mcp/tools.rs:4127-4143 | what the model calls text are exactly the encodings of sequences of Unicode scalar values, by section 3 of RFC 3629 |
| `Utf8.BoundaryExactly` | agentiso/src/mcp/tools.rs:4134-4136 | in valid text the byte test of a boundary holds if and only if whole characters lie before it |
| `Utf8.BoundaryNear` | agentiso/src/mcp/tools.rs:4134-4136 | a boundary is at most three bytes back |
| `Utf8.FindCut` | agentiso/src/mcp/tools.rs:4133-4136 | the walk finds the longest cut into whole characters within the limit, at most three bytes back |
| `Utf8.TruncateOutput` | agentiso/src/mcp/tools.rs:4127-4143 | short text unchanged; longer text cut there, with a notice of the right numbers, all valid UTF-8 |
| `Utf8.NoticeSays` | agentiso/src/mcp/tools.rs:4137-4142 | the notice gives the full length first and the length shown second, in decimal |
| `Utf8.TruncateDiff` | agentiso/src/mcp/git_tools.rs:784-795 | the same cut for diffs |
| `Decimal.DigitsInOrder` | agentiso/src/mcp/tools.rs:4137-4142 | numerals are written and read with the usual digits, most significant first |
| `Decimal.ParseSigned` | agentiso/src/mcp/git_tools.rs:235-238 | either sign is read, and a number beyond 64 bits is not |

## Left out

- Virtual machines, ZFS, nftables, vsock calls, process spawning, HTTP servers, metrics, the command line and the dashboard: input and output only. What they return is a parameter.
- The workspace manager, message relay, team manager and vault are not part of this model; where the modelled code calls them their results are parameters.
- Floating point: token counts are real numbers, so rounding of the source's 64-bit floats is not modelled.
- Overflow of the 64-bit usage sums and of the 32-bit count of workspaces: the counters are unbounded.
- Bridge tokens, `is_session_stale` and `is_workspace_orphaned`: each is settled by reading one branch.
- The order in which hash maps are walked is an arbitrary choice, so `export` lists records in any order.
- Interleaving of other calls with adopt-all, `exec_parallel` and `swarm_run`: each is modelled as running alone, after the touch of the caller's activity time.
- `swarm_run`'s early returns after forking, the network override, the merge step and the shared-context size check; which workers miss their environment is a parameter.
- Standard output, standard error and durations in daemon results, and the `from`, `to` and `timestamp` of messages: carried along unread. Of the output only whether it can be cut matters.
- The poll of daemon results is two steps in the source, a drain and a count; `Poll` is the drain and `Pending` the count.
- The signal itself and the wait loop of a kill request, which only reads the table.
- JSON, base64, redaction and lossy conversion to text: library behaviour. JSON is a pair of functions of which the second undoes the first.
- Output truncation inside `exec_parallel` and `swarm_run` entries: the strings there stand for the truncated ones, and `Utf8.TruncateOutput` is about the cut.
- The shell reader is partial: it gives up on unquoted operators, expansions, double quotes, patterns and comments, none of which the builders emit outside quotes.
- Nested quoting in the merge commands at agentiso/src/mcp/git_tools.rs:1015 and the meaning of git merges.
- Renderings of a status: quoted paths are taken as they are, as the parser does.

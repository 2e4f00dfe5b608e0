# LAN management server and agent: a verified model

The repository is a server that manages Windows machines in a local network, and the
agent that runs on them. Agents send heartbeats, open a socket for commands and report
results; operators import devices, create tasks, cancel them and log in. This project
models the state machines behind that, and the small pieces of text processing that
both sides must agree on, and proves what they keep over whole runs.

`dafny verify dfyconfig.toml` checks everything.

| file | models |
|---|---|
| `RateLimit.dfy` | the login limiter and the login that drives it |
| `Tasks.dfy` | a task and its result rows: creating, reporting, cancelling, timing out, each as one step |
| `TaskProtocol.dfy` | the same reports as concurrent handlers make them, with three commits each, racing the dispatcher |
| `CancelRace.dfy` | the same from the commit that makes the task running on, with any number of cancels at any moment, each checked in one step and written in another |
| `Connections.dfy` | the registered socket of every agent |
| `Dispatch.dfy` | any number of task creations sending commands under ten shared permits |
| `Devices.dfy`, `Registry.dfy` | the device table: heartbeat, take-over, recovery, editing, soft deletion, sockets, offline sweep |
| `RegistrationLock.dfy` | concurrent heartbeats in four steps under the registration lock |
| `Clock.dfy` | date-times, the calendar, and their order as stored text |
| `Import.dfy`, `Dedupe.dfy`, `Listing.dfy` | address range and CSV import, the clean-up at start-up, the sorted and paged list |
| `Ipv4.dfy`, `Text.dfy`, `Sorting.dfy`, `Wrappers.dfy` | addresses in dotted decimal, splitting and comparing text, sorting, options and results |
| `SafePath.dfy`, `XmlEscape.dfy`, `DeployConf.dfy` | the agent's path check, its XML escaping, and the file the server prints and the agent parses |
| `Retention.dfy` | the audit log purge and the upload clean-up |

Operations that update state are methods of a class over that state (`Limiter`,
`TaskStore`, `ConnectionManager`, `DeviceTable`, `AuditLog`) or methods with loops where
the source loops; each is proved equal to a function of the old state. The theorems are
about those functions, over every run or every input.

## What is assumed

- The clock does not go back where a statement says so (`RateLimit.Sequential`,
  `Registry.Timed`); other statements hold on any clock. The limiter's times are real
  seconds, stored date-times have microseconds and four-digit years.
- Random identifiers and tokens are inputs. Nothing needs them to be distinct, except
  that `RegistrationLock.OneRowForOneIp` asks that an id a machine already reports is none
  of the fresh ones.
- A table is a sequence of rows in the order in which they were added; a device id is
  looked up as the primary key it is. ORDER BY on equal values keeps some fixed order.
- Whether the enrolment secret in a header is right, whether a password is right, whether
  a socket accepts a message and whether a file can be removed are inputs.
- Cutoffs are given as date-times whose instants are the right distance before now;
  date-time subtraction itself is library code.
- A session sees the rows it has added before it commits them (the session setting is
  left at its default in `server/database.py:21`).

## Where the code does not do what it says, or what one would expect

- `server/api/ratelimit.py:35` cuts the wait down to whole seconds, so the last second of
  a lock lets an attempt through (`RateLimit.RefusedIffFullSecondLeft`). All bounds below
  count with it: 299 and 1199 rather than 300 and 1200.
- `server/api/task_routes.py:117` can commit "sent" over a report that arrived first.
  `TaskProtocol` models this race. The rows keep all reports exactly when none was early
  (`ReportsSurviveIff`). The task gets its status exactly when some handler reads the rows
  while no other report is missing or overwritten (`TaskStatusIff`); `EarlyReportIsLost` is
  a run in which none does, and the task stays running for ever although both of its
  devices succeeded. And a task can be final over a row that still reads "sent", exactly
  when such a handler has written and an early report was overwritten
  (`FinalOverOpenRowIff`; `EarlyReportCompletes` is a run).
- The same commit overwrites the rows of a cancel that came before it: the task is
  cancelled and its commands are under way (`CancelRace.EarlyCancelLeavesNoTrace`,
  `CancelRace.CancelIsOverwritten`). A cancel that comes before `server/api/task_routes.py:86`
  is undone altogether: that commit makes the task running again
  (`CancelRace.CancelIsUndone`).
- A cancelled task need not stay cancelled. When it does, and when it is completed or
  running again instead, is `CancelRace.StatusAfterCancelIff`, in every state of every
  interleaving; what decides is what the last handler to set the status had seen, and
  `CancelRace.SawAllIff` says that from the schedule. So a handler that had read the rows
  before the cancel completes the task without any report after it
  (`CancelRace.LateWriteCompletes`), and a task can be completed over a cancelled row
  (`CancelRace.CompletesOverCancelledRow`; exactly when: `CancelRace.CompletedOverCancelledIff`).
- A cancel checks the status before it writes, so it can turn a task cancelled that has
  completed in between (`CancelRace.CancelOverCompletion`).
- Also with every report, cancel and timeout taken as a whole no final status is final: a
  late report can complete or fail a cancelled task and complete one that timed out
  (`Tasks.CancelledIsNotFinal`, `Tasks.TimedOutIsNotFinal`; exactly when, for such whole
  steps: `Tasks.FinalStatusChangesIff`).
- The timeout decides on rows it read earlier and writes over what has been reported in
  between, so a completed upgrade can be turned failed (`Tasks.CompletionIsTimedOut`;
  exactly when: `Tasks.LateTimeoutLosesIff`).
- The timeout fails an upgrade as soon as one row is overdue and then never looks at it
  again, so a command sent a little later is left open for good
  (`Tasks.TimeoutLeavesRowIff`, `Tasks.YoungerRowIsStranded`).
- The limiter's key joins address and user name with a bar, and the address is whatever a
  forwarding header says (`server/api/auth_routes.py:15-20`), so different clients can
  share a key, and the success of one forgets the failures of the other
  (`RateLimit.KeyCollision`; exactly when: `RateLimit.SharedKeyIff`).
- The comment at `server/api/ws_routes.py:147` promises that a reconnecting device is not
  marked offline. The check there can never see a connection, because the line before has
  just removed it, whichever socket it belonged to (`Connections.ConnectionManager.EndHandler`,
  `Connections.ReconnectIsLost`).
- The answer "deleted" at `server/api/agent_routes.py:163` is never given: the branch
  before takes every such request (`Registry.RejectedHeartbeat`).
- A take-over, an edit by hand and an addition can give two rows the same IP; nothing
  else can (`Registry.OpKeepsUniqueIps` gives the exact condition). An addition here is
  also what an import commits: it holds no lock between its lookups and its commit, so an
  import that races a registration or another import duplicates every address that got a
  row in the meantime (`Import.RacingImportIff`). The other statements about imports take
  an import as one step.
- The range import speaks of 1024 addresses and admits 1025 (`Import.RangeImportEffect`).

## Model

| member | source | states |
|---|---|---|
| `RateLimit.Limiter.CheckAllowed` | server/api/ratelimit.py:27-36 | the wait of the key's entry in whole seconds, 0 when unknown or unlocked; changes nothing |
| `RateLimit.WaitIsWholeSeconds` | server/api/ratelimit.py:32-36 | the wait told is the lock's remaining time cut down to whole seconds, and 0 without a lock |
| `RateLimit.Limiter.RecordFailure` | server/api/ratelimit.py:39-59 | only this key's entry changes, to the entry after one more failure (fresh after 900 quiet seconds, locked and recounted at the fifth); returns the lock it set |
| `RateLimit.Limiter.RecordSuccess` | server/api/ratelimit.py:62-65 | forgets this key and no other |
| `RateLimit.Limiter.Login` | server/api/auth_routes.py:46-75 | a locked key is refused without touching the table; a wrong password records a failure after the check; a right one clears the key |
| `RateLimit.SharedKeyIff` | server/api/ratelimit.py:23-24 | two (address, user) pairs share a key iff they are equal, or the longer address continues the shorter one with a bar and the beginning of the other's user name |
| `RateLimit.KeyCollision` | server/api/auth_routes.py:15-20 | two different clients with one key: the success of the first forgets the failures of the second |
| `RateLimit.LockTable` | server/api/ratelimit.py:10-14 | doubling under the cap gives 300, 600, 1200, 2400, then 3600 seconds at every later level |
| `RateLimit.WindowOf900` | server/api/ratelimit.py:8-16 | after more than 900 quiet seconds a failure starts afresh with count 1; within them the fifth locks for 300 to 3600 seconds by the number of locks before it, and any other only adds one |
| `RateLimit.FifthFailureLocksIff` | server/api/ratelimit.py:45-59 | from an unknown key, failures lock it iff they are five and no two consecutive ones are more than 900 seconds apart, and then until 300 seconds after the fifth |
| `RateLimit.RefusedIffFullSecondLeft` | server/api/ratelimit.py:34-35 | refused if and only if a full second or more of the lock is left |
| `RateLimit.StoredEntries` | server/api/ratelimit.py:39-65 | after any calls in any order on any clock: every count is below five, and every lock ends the doubled, capped time after a failure of that very key |
| `RateLimit.KeysAreIndependent` | server/api/ratelimit.py:31-65 | what is stored for a key after any calls depends on that key's calls alone |
| `RateLimit.PlayIsLogin` | server/api/auth_routes.py:50-63 | the log of recorded failures, on which the bounds are stated, evolves as a failing login changes the stored entry |
| `RateLimit.PlayIsChain` | server/api/auth_routes.py:50-63 | in sequential logins every recorded failure came with less than a second left of the previous lock, and at a time not before it |
| `RateLimit.LevelAtMostThree` | server/api/ratelimit.py:45-55 | in sequential logins the level never exceeds 3 and every lock is 300, 600 or 1200 seconds: the third outlasts the window |
| `RateLimit.PotentialStep` | server/api/ratelimit.py:45-59 | each recorded failure pays for its lock out of elapsed time and a potential over the lock level, also across the window reset |
| `RateLimit.PotentialSum` | server/api/ratelimit.py:45-59 | the same summed over any stretch of the log |
| `RateLimit.LocksAreSpreadOut` | server/api/ratelimit.py:27-59 | however attempts are timed, L consecutive locks of a key span D with 2 D >= 1199 (L - 1) - 602 seconds |
| `RateLimit.SixFailuresSpan` | server/api/ratelimit.py:27-59 | six consecutive recorded failures take more than 299 seconds |
| `RateLimit.GuessesPerInterval` | server/api/ratelimit.py:27-59 | any closed interval of length T > 0 holds at most 5 ceil(T/299) recorded failures, so 299 seconds hold five |
| `Tasks.AggregateRule` | server/api/ws_routes.py:39-48 | the set comparisons mean, row by row: undecided while a row is unsettled; completed iff all succeeded; cancelled iff some cancelled and the rest succeeded; failed iff all settled and one failed or timed out |
| `Tasks.TaskStore.constructor` | server/api/task_routes.py:77-121 | pending rows become sent or failed as the dispatch went, each stamped with its own time, and the task is failed iff nothing was sent |
| `Tasks.CreatedRows` | server/api/task_routes.py:98-121 | row by row: sent and stamped as started, or failed and stamped as finished; running iff any went out |
| `Tasks.TaskStore.SyncParentTask` | server/api/ws_routes.py:30-53 | rows unchanged, status set to the aggregate of all rows where there is one |
| `Tasks.TaskStore.Report` | server/api/ws_routes.py:111-130 | one row takes the reported text, then the task follows |
| `Tasks.ReportRows` | server/api/ws_routes.py:111-130 | the row takes status and finish time and no other row changes; the task has the verdict of its rows once all are settled |
| `Tasks.TaskStore.ExpireUpgrade` | server/api/task_routes.py:198-220 | decides on the task as read: the rows of a running upgrade that were overdue then time out, whatever they hold by now, and the task fails; anything else is untouched |
| `Tasks.TimeoutRows` | server/api/task_routes.py:208-220 | exactly the open rows of a running upgrade that were started more than 300 seconds ago time out, and the task fails iff there are any |
| `Tasks.TaskStore.Cancel` | server/api/task_routes.py:256-281 | refused unless pending or running; otherwise open rows and the task are cancelled, settled rows kept |
| `Tasks.CancelRows` | server/api/task_routes.py:267-281 | refused iff the task is finished; else exactly the pending and sent rows are cancelled and stamped |
| `Tasks.StepConsistent` | server/api/task_routes.py:208-281 | every whole report (of any text), cancel and timeout keeps: an open task has an unsettled row, and a task with all rows settled has their aggregate status, or was cancelled along with one of them |
| `Tasks.RunConsistent` | server/api/task_routes.py:119-121 | so does every run from creation on |
| `Tasks.FinalStatusChangesIff` | server/api/ws_routes.py:117-130 | of reports, cancels and timeouts taken as whole steps, one changes the status of a finished task iff it is a report of a settled status on a row whose other rows are all settled and the rows then add up to something else, which the task becomes |
| `Tasks.FinalStatusKeptIff` | server/api/ws_routes.py:117-130 | over every run of such whole steps, a finished task keeps its status iff no such report occurs |
| `Tasks.AggregateIsVerdict` | server/api/ws_routes.py:39-48 | what settled rows add up to, row by row: completed if all succeeded, else failed if one failed or timed out, else cancelled |
| `Tasks.TimeoutLeavesRowIff` | server/api/task_routes.py:208-220 | the timeout fails a task over a still open row iff one open row is overdue and another is not |
| `Tasks.LeftBehind` | server/api/task_routes.py:208-281 | in every run, an unsettled row of a finished task changes only by a report on that very row, and until then the task keeps its status |
| `Tasks.YoungerRowIsStranded` | server/api/task_routes.py:107-220 | two commands sent ten seconds apart and a timeout between their deadlines: the second row stays sent in every run without its report |
| `Tasks.LateIsExpired` | server/api/task_routes.py:198-220 | when nothing happens between reading and writing, the timeout is the whole step of the runs |
| `Tasks.LateTimeoutLosesIff` | server/api/task_routes.py:203-220 | whatever happens between reading and writing, a row that succeeded in between reads timeout iff it was overdue when read, and a task that completed in between fails iff some row was |
| `Tasks.CompletionIsTimedOut` | server/api/task_routes.py:203-220 | an upgrade reports success while its timeout is being decided, and ends failed and timed out |
| `Tasks.CancelledIsNotFinal` | server/api/ws_routes.py:117-130 | a late report completes or fails a cancelled one-device task |
| `Tasks.TimedOutIsNotFinal` | server/api/ws_routes.py:117-130 | a late success completes an upgrade that had timed out |
| `TaskProtocol.ParentIsRunningOrFinal` | server/api/ws_routes.py:30-53 | in every interleaving, even with the dispatcher racing, the task status is running or that of the final rows |
| `TaskProtocol.NeverFinalTooEarly` | server/api/ws_routes.py:111-130 | with no report before the dispatch commit, in every reachable state a task that is not running has all rows settled and their aggregate status |
| `TaskProtocol.NoLostCompletion` | server/api/ws_routes.py:111-130 | and when all handlers and the dispatcher are done, the rows hold all reports and the task has their status, whatever the order of commits, reads and writes |
| `TaskProtocol.OutcomeOfReports` | server/api/ws_routes.py:43-48 | that status is completed iff every row was sent and answered with success, else failed |
| `TaskProtocol.ReportsSurviveIff` | server/api/task_routes.py:117-117 | at the end every report is still in its row iff no handler committed before the dispatcher; each early one reads "sent" for good |
| `TaskProtocol.SeesSettledIff` | server/api/ws_routes.py:32-41 | a handler sees only settled rows iff it reads with every row reported before the dispatch commit, or with every other sent row reported and none overwritten after it |
| `TaskProtocol.TaskStatusIff` | server/api/task_routes.py:105-121 | with all commands answered, in every state of every interleaving: the task has its final status iff a handler that read at such a time has written, or nothing was sent and the dispatcher is done; at the end, iff nothing was sent or some handler read at such a time |
| `TaskProtocol.FinalOverOpenRowIff` | server/api/task_routes.py:105-121 | in every such state: the task is final over an unsettled row iff an early report was overwritten and such a handler has written |
| `TaskProtocol.EarlyReportIsLost` | server/api/task_routes.py:105-117 | a complete run with two successes whose task stays running |
| `TaskProtocol.EarlyReportCompletes` | server/api/task_routes.py:105-117 | a complete run that ends completed over a row that reads sent |
| `TaskProtocol.EveryRunCompletes` | server/api/ws_routes.py:104-130 | no deadlock: every interleaving of n handlers has exactly 3 n + 2 steps, and before that some step is possible |
| `CancelRace.CancelIsTasksCancel` | server/api/task_routes.py:267-281 | checked and written at once, the cancel is that of the stored task, row by row, and refused exactly when that is |
| `CancelRace.WithoutCancel` | server/api/ws_routes.py:104-130 | once the task is running, runs without a cancel are the runs of TaskProtocol |
| `CancelRace.PlayKept` | server/api/task_routes.py:83-121 | in every interleaving each row holds what its last writer among dispatcher, report and cancels put there, each handler sees what the rows held when it read, and the task has the status its last writer gave it |
| `CancelRace.EarlyCancelLeavesNoTrace` | server/api/task_routes.py:83-117 | when all cancels came before the dispatch commit, every row is as without them once that commit is made |
| `CancelRace.RowIsCancelledIff` | server/api/task_routes.py:270-281 | after the dispatch commit a row reads cancelled iff a cancel came after that commit, the row had been sent, and its report has not come or was overwritten |
| `CancelRace.SawAllIff` | server/api/ws_routes.py:32-48 | from the schedule: a handler sets the status iff it reads with no other report missing or after a cancel that counts; it sees a cancelled row iff a report is missing and such a cancel has come; it sees only successes iff all reports stand and say so |
| `CancelRace.StatusAfterCancelIff` | server/api/task_routes.py:83-121 | in every state after a cancel: the task is cancelled iff of the handlers that have written since none had seen all rows settled (and neither the running commit nor a close with nothing sent undid the cancel), or the last that had saw a cancelled row and no failed one; completed iff that last one saw only successes; running again iff the cancel came before the running commit, no such handler wrote and the dispatcher has not closed with nothing sent |
| `CancelRace.CompletedOverCancelledIff` | server/api/ws_routes.py:32-53 | in every state: the task is completed over a cancelled row iff a cancel came after the dispatch commit, that commit had overwritten an early report, and the last handler to set the status since had seen only successes |
| `CancelRace.CancelIsUndone` | server/api/task_routes.py:83-86 | a cancel before the running commit: at the end the task is running and its row reads sent |
| `CancelRace.CancelIsOverwritten` | server/api/task_routes.py:84-121 | a complete run whose task is cancelled and whose row reads sent |
| `CancelRace.LateWriteCompletes` | server/api/ws_routes.py:130-130 | a handler that read before the cancel and writes after it completes the cancelled task |
| `CancelRace.CompletesOverCancelledRow` | server/api/ws_routes.py:111-130 | a complete run that ends completed over the one row, which reads cancelled |
| `CancelRace.CancelOverCompletion` | server/api/task_routes.py:262-281 | a cancel checked before a completion and written after it: the task ends cancelled, its only row succeeded |
| `Connections.ConnectionManager.ConnectAgent` | server/api/websocket_manager.py:17-27 | the new socket replaces the device's registered one, which is closed; other devices unaffected |
| `Connections.ConnectionManager.DisconnectAgent` | server/api/websocket_manager.py:29-31 | the device is dropped, whichever socket it had |
| `Connections.ConnectionManager.SendCommand` | server/api/websocket_manager.py:34-43 | true iff the device is registered and its socket accepts the message |
| `Connections.ConnectionManager.EndHandler` | server/api/ws_routes.py:145-155 | the end of a handler always marks the device offline: the check for another connection never holds |
| `Connections.RegisteredIffLastConnected` | server/api/websocket_manager.py:17-31 | after any connections and endings a device is registered with socket s iff the last event about it was the connection of s |
| `Connections.OpenIsReachableIff` | server/api/ws_routes.py:94-146 | a device's newest open socket can be reached iff no handler of an older one has ended since it connected |
| `Connections.ReconnectIsLost` | server/api/websocket_manager.py:31-31 | the three events after which a device with an open socket is unreachable |
| `Dispatch.Existing` | server/api/task_routes.py:67-71 | devices that exist get as many result rows as they were requested times, others none |
| `Dispatch.ExistingInOrder` | server/api/task_routes.py:67-78 | result rows come in the order in which the devices were requested |
| `Dispatch.AtMostTenInFlight` | server/api/task_routes.py:88-97 | for any number of concurrent task creations in any interleaving, with devices coming and going: at most ten commands in flight, none written twice |
| `Dispatch.StartsIff` | server/api/task_routes.py:96-97 | a waiting job can start iff fewer than ten commands are in flight |
| `Dispatch.OnlineIff` | server/api/websocket_manager.py:17-35 | over every run a device is connected iff the last thing that happened to it is a connection, or nothing did and it was |
| `Dispatch.FateOfJob` | server/api/task_routes.py:96-105 | over every run a job's command is written, once, iff its device was connected when it started; the job counts as sent iff the write was delivered, as failed iff it was not or there was no connection |
| `Dispatch.AllGoOut` | server/api/task_routes.py:98-121 | a returned call whose devices were connected at the starts of their jobs and whose writes were delivered sent every command and left the task running, unless there is no device |
| `Dispatch.NoneGoesOut` | server/api/task_routes.py:102-121 | a returned call none of whose devices was connected failed in every row and as a whole |
| `Dispatch.JobIsSendCommand` | server/api/task_routes.py:96-105 | one job from start to end has the result of the connection manager's SendCommand |
| `Dispatch.ConnectionsAgree` | server/api/websocket_manager.py:17-31 | the connected devices here are those registered in the connection manager, through every connection and ending |
| `Dispatch.ClosedCall` | server/api/task_routes.py:98-121 | when a call returns, every job was attempted exactly once and every job that counts as sent was written exactly once, the count is the number of these, and the status is that of a task created with those outcomes: failed iff none went out |
| `Dispatch.CountIsNumberSent` | server/api/task_routes.py:107-115 | counting the outcomes counts the jobs that were sent |
| `Dispatch.Progress` | server/api/task_routes.py:96-110 | while a call is open some dispatcher can go on, whoever holds the permits |
| `Dispatch.StepsCount` | server/api/task_routes.py:96-121 | each dispatcher step brings the end nearer, and connections coming and going never put it off |
| `Dispatch.EveryScheduleEnds` | server/api/task_routes.py:96-121 | without new tasks every schedule is bounded, and at the bound all calls have returned |
| `Devices.NewestOfIp` | server/api/agent_routes.py:139-143 | a row of the IP with the latest heartbeat, if there is any |
| `Registry.DeviceTable.ApplySysinfo` | server/api/agent_routes.py:50-64 | without a report nothing changes; otherwise all ten values and the time, of this row only |
| `Registry.DeviceTable.AdoptDevice` | server/api/agent_routes.py:98-110 | the row takes the reporter's identity, token and non-empty IP, and is restored |
| `Registry.DeviceTable.Heartbeat` | server/api/agent_routes.py:126-211 | table and answer of every branch: refresh, take-over, rejection, registration |
| `Registry.FoundRow` | server/api/agent_routes.py:131-143 | the row is one of the device id if there is any, else the one of the IP with the latest heartbeat, else none |
| `Registry.OnlyThatRow` | server/api/agent_routes.py:145-211 | no other row changes, and a row is added iff none was found and the secret is right |
| `Registry.OrdinaryHeartbeat` | server/api/agent_routes.py:146-184 | field by field: time and reported data are written, the status becomes online if reported, the name unless locked, and id, token, IP, group and deletion mark stay |
| `Registry.TakeOver` | server/api/agent_routes.py:98-160 | field by field: the reporter's token, name, data, status and non-empty IP are written and the row is restored; id, group and lock stay |
| `Registry.NewRegistration` | server/api/agent_routes.py:186-211 | field by field: the fresh id, the reported data and the agent's token, or a fresh one if it sent none |
| `Registry.DeviceTable.Recover` | server/api/agent_routes.py:214-238 | needs the row's token; goes online and renames unless the name is locked |
| `Registry.DeviceTable.Update` | server/api/device_routes.py:141-162 | changes exactly the given fields, and a given name locks it |
| `Registry.EditedRow` | server/api/device_routes.py:148-162 | only the device's given fields change, and a given name sets the lock |
| `Registry.DeviceTable.Delete` | server/api/device_routes.py:201-232 | marks exactly the rows with these ids deleted and offline, and counts them |
| `Registry.DeletedRows` | server/api/device_routes.py:223-228 | exactly the rows with these ids get the deletion time and go offline, with nothing else changed |
| `Registry.DeviceTable.Sweep` | server/main.py:55-64 | exactly the silent online rows go offline; reported iff any did |
| `Registry.SweptRows` | server/main.py:58-61 | nothing changes but the status of the silent rows |
| `Registry.OtherFields` | server/api/agent_routes.py:219-235 | recovery changes only name, status and time of its row, a socket only status and time, and its end makes that row offline now |
| `Registry.RejectedHeartbeat` | server/api/agent_routes.py:145-192 | rejected iff it has neither the secret nor the token of its row, and that row was not deleted; then nothing changes; "deleted" is never answered |
| `Registry.RefusedRequests` | server/api/agent_routes.py:219-235 | recoveries and sockets are refused exactly for an unknown device or a token that does not fit, and then change nothing; otherwise they put the device online with the present as its heartbeat |
| `Registry.HeartbeatKeepsUniqueIps` | server/api/agent_routes.py:126-211 | a heartbeat keeps one row per IP iff it does not take over one row with the IP of another |
| `Registry.OpKeepsUniqueIps` | server/api/device_routes.py:141-162 | so does any operation iff it gives no row an IP that another has, which only take-over, editing and adding can |
| `Registry.RunKeepsUniqueIps` | server/api/agent_routes.py:77-79 | one row per IP in every state of every run without such a step |
| `Registry.RowsStay` | server/api/device_routes.py:187-189 | rows keep place and id through every operation: deleting only marks |
| `Registry.TokenKept` | server/api/agent_routes.py:145-184 | over every run, a row never deleted keeps its token until a heartbeat with the secret re-enrols it |
| `Registry.TokenChangesOnlyByTakeover` | server/api/agent_routes.py:152-160 | a token only changes to that of a heartbeat about the very row that has the secret or finds the row deleted |
| `Registry.NameKept` | server/api/device_routes.py:153-156 | over every run, a name given by hand survives all heartbeats and recoveries until re-enrolment or renaming |
| `Registry.RenameLocks` | server/api/device_routes.py:153-156 | renaming by hand sets the name and locks it |
| `Registry.SilentIff` | server/main.py:55-60 | the text comparison marks offline exactly the online devices whose last heartbeat's whole second ended 15 seconds ago or earlier |
| `Registry.SweptByAge` | server/main.py:55-60 | a heartbeat under 15 seconds old is never swept, one of 16 seconds or more always |
| `Registry.OnlineStep` | server/api/agent_routes.py:173-182 | a row becomes online only by an operation that also stores the present as its last heartbeat |
| `Registry.OnlineIsFresh` | server/main.py:48-66 | in every run, when the last sweep is at most P ago every online device was heard of less than 16 seconds plus P ago |
| `Registry.OfflineStepIff` | server/main.py:55-61 | an online row goes offline by an operation iff that is a sweep that finds its whole second before the cutoff, its deletion, the end of its socket, or a take-over by an agent that is not online |
| `Registry.HeardIsOnline` | server/api/agent_routes.py:179-182 | the converse: in every run a row with an accepted online heartbeat less than 15 seconds ago is online, unless deleted, disconnected or taken over offline since |
| `RegistrationLock.Serializable` | server/api/agent_routes.py:121-123 | in every interleaving at most one handler is past the lock, and table and answers are those of handling the committed heartbeats one at a time in commit order |
| `RegistrationLock.NoDeadlock` | server/api/agent_routes.py:121-123 | as long as a handler has not left, some step is possible |
| `RegistrationLock.AlwaysUnique` | server/api/agent_routes.py:77-143 | from one row per IP, every reachable state has one row per IP if requests that name a device report its own IP |
| `RegistrationLock.OneRowForOneIp` | server/api/agent_routes.py:186-211 | any number of simultaneous first registrations of an unknown IP make one row, and all answers carry its id |
| `Clock.FieldOrder` | server/main.py:55-55 | comparing year, month, day and time fields in turn is comparing points in time, through leap years and month lengths |
| `Clock.StoredTextOrder` | server/main.py:59-60 | stored date-times compare as text as they do in time |
| `Clock.CutoffOrder` | server/main.py:55-60 | stored text is below a cutoff without microseconds iff it is earlier in whole seconds |
| `Clock.OneSecondLater` | server/main.py:55-55 | through minutes, hours, days, months and years the next second is a million microseconds later |
| `Clock.MonthLengths` | server/main.py:55-55 | the lengths of the months and the leap years |
| `Clock.TextExample` | server/main.py:55-55 | a stored date-time and a cutoff in full |
| `Ipv4.OctetsNumber` | server/api/import_routes.py:98-99 | taking a number apart into octets and together again gives the number |
| `Ipv4.NumberOctets` | server/api/import_routes.py:98-99 | and the other way round for all valid octets |
| `Ipv4.ParsePrinted` | server/api/import_routes.py:98-99 | the dotted text of every 32-bit number is read back as that number |
| `Ipv4.PrintParsed` | server/api/import_routes.py:86-87 | a text that is accepted is exactly the dotted text of its number: no leading zeros, no other spelling |
| `Ipv4.NumberOrder` | server/api/device_routes.py:22-23 | the order of numbers is the octet-by-octet order |
| `Ipv4.AddressExample` | server/api/import_routes.py:98-99 | 192.168.1.10 in both directions |
| `Import.ImportIpRange` | server/api/import_routes.py:77-119 | errors leave the table as it was; otherwise table and counts are those of adding the missing addresses in order |
| `Import.AddRange` | server/api/import_routes.py:98-115 | the loop's table and counters, address by address |
| `Import.ImportCsv` | server/api/import_routes.py:42-73 | the same for a file's rows, with the line numbers of the rows without an IP |
| `Import.CsvDevices` | server/api/import_routes.py:42-66 | the candidates are the devices of the rows with an IP: host name and group of their own row, none where empty, offline and new in all other fields |
| `Import.CsvErrorLines` | server/api/import_routes.py:42-49 | the reported lines are exactly those of the rows without an IP, in order, counted from 2 |
| `Import.RangeIps` | server/api/import_routes.py:98-113 | the k-th candidate of a range is a new device at the k-th address with the group, or none for an empty one |
| `Import.ImportEffect` | server/api/import_routes.py:54-69 | from one row per IP: old rows stay in front unchanged, new ones are candidates, one row per IP is kept, exactly the candidates' addresses become present, and added + skipped is their number |
| `Import.SecondImport` | server/api/import_routes.py:54-57 | importing addresses that are all present changes nothing |
| `Import.ImportFailsIff` | server/api/import_routes.py:54-55 | on any table, an import fails iff one of its addresses already has several rows, and never makes one ambiguous |
| `Import.RangeImportEffect` | server/api/import_routes.py:92-119 | accepted iff start <= end <= start + 1024, else refused as reversed or too large; then added + skipped = end - start + 1, every address of the range is present, old rows unchanged, one row per IP, and new rows are offline and have the group, or none for an empty one |
| `Import.RacingImportIff` | server/api/import_routes.py:98-117 | an import whose lookups saw an earlier table gives two rows one IP iff one of its addresses was missing then and has a row by the commit |
| `Import.RangeImportTwice` | server/api/import_routes.py:98-115 | the second import of a range adds 0 and changes nothing, whatever identifiers and group it uses |
| `Import.RangeAddsMissing` | server/api/import_routes.py:98-115 | what is added is exactly the number of addresses that were missing, as no two numbers share a text |
| `Import.CsvImportEffect` | server/api/import_routes.py:42-73 | every row of the file is added, skipped or reported; exactly its addresses become present; old rows unchanged; a second import adds nothing |
| `Dedupe.DedupeDevices` | server/database.py:76-90 | the nested loop, IP by IP and row by row |
| `Dedupe.DedupeIpEffect` | server/database.py:84-90 | one round leaves the IP's live row with the latest heartbeat and all rows of others |
| `Dedupe.DedupeEffect` | server/database.py:69-90 | every IP that had a live row has exactly one, with the greatest last heartbeat of its group; deleted and IP-less rows untouched; nothing added or reordered |
| `Dedupe.DedupeTwice` | server/database.py:69-90 | a second run changes nothing |
| `Listing.ListOrder` | server/api/device_routes.py:20-25 | valid addresses come first and ascend octet by octet; at one address, and among the rest, host names ascend |
| `Listing.ListedTimes` | server/api/device_routes.py:78-92 | the list holds exactly the wanted rows that are not deleted, each as often as the table |
| `Listing.PagesCoverOnce` | server/api/device_routes.py:78-95 | on a snapshot, pages 1, 2, 3, ... of any size join to a permutation of the wanted devices that are not deleted |
| `Listing.PageLengths` | server/api/device_routes.py:94-95 | pages within the list are full and pages beyond it empty |
| `SafePath.SafeJoinOutcome` | agent/netutil.go:33-50 | exactly which names are accepted below which base, exactly when each of the four errors arises, and that the result is the base's elements followed by the name's |
| `SafePath.ElementsOfPath` | agent/netutil.go:40-45 | what cleaning computes, part by part: an ordinary part adds itself, nothing and "." add nothing, ".." takes the last element away, stays at the root, and counts where there is nothing to take |
| `SafePath.DownAndUp` | agent/netutil.go:40-45 | after every path, an ordinary part and ".." are nothing |
| `SafePath.CleanText` | agent/netutil.go:40-45 | the cleaned text is the elements between single separators, the root or "." |
| `SafePath.Containment` | agent/netutil.go:33-50 | below a rooted base a returned path is rooted and clean, starts with the base's elements and has no ".." |
| `SafePath.LastCheck` | agent/netutil.go:44-48 | the final check never fires below a rooted base other than the root; below the root it refuses every real name |
| `SafePath.DirectoryCheck` | agent/handler.go:207-213 | the string prefix test means: the directory is rooted and its elements start with those of filesDir |
| `SafePath.PushedFilesStayInside` | agent/handler.go:202-221 | a push is accepted iff its directory lies under filesDir and its name is acceptable, and refused for its directory iff that does not; an accepted file has the directory's elements, then the name's, and lies under filesDir |
| `SafePath.ClimbingOut` | agent/handler.go:207-213 | a directory text that climbs out of filesDir is refused, and into a part of the parent directory iff that is not filesDir itself |
| `XmlEscape.ChainIsOnePass` | agent/handler.go:340-347 | the five chained passes equal one simultaneous replacement |
| `XmlEscape.FiveImages` | agent/handler.go:341-345 | the five replacements in full, and every other character as it is |
| `XmlEscape.LaterMarkupAbsent` | agent/handler.go:341-345 | no pass touches what an earlier one put in: why the ampersand goes first |
| `XmlEscape.DecodeEscape` | agent/handler.go:340-347 | decoding the predefined entities of section 4.6 of XML 1.0 gives back every string |
| `XmlEscape.EscapedIsWellEscaped` | agent/handler.go:340-347 | no markup character is left, and every ampersand starts an entity |
| `XmlEscape.EscapeImage` | agent/handler.go:340-347 | the texts of that form are exactly the results of escaping |
| `DeployConf.LoadDeployConf` | agent/main.go:553-578 | the line loop yields the last assignment of each key, or the missing-server error |
| `DeployConf.ParseIff` | agent/main.go:553-578 | for every text: each value is that of the last line that says key = value, with white space allowed around all three, or empty without one; it fails iff the address is empty |
| `DeployConf.AppendedLine` | agent/main.go:554-578 | a line for one key at the end of an accepted text sets that value and leaves the other two |
| `DeployConf.RoundTrip` | server/api/deploy_routes.py:123-127 | parsing the printed file gives back URL, no token and secret iff the URL is not empty and both are single lines without outer white space |
| `DeployConf.ValuesArePrintable` | agent/main.go:554-573 | every value that is read is of that form, so nothing outside it could survive |
| `Retention.AuditLog.Purge` | server/api/audit.py:16-33 | the log after both stages, and the returned number is before minus after |
| `Retention.HalfYear` | server/api/audit.py:11-19 | an entry survives the first stage iff it is at most 180 days old |
| `Retention.PurgeEffect` | server/api/audit.py:16-33 | no entry older than the cutoff, at most 200000 left, no removed entry newer than a survivor, and expired entries aside none removed below the limit |
| `Retention.ExcessIsOldest` | server/api/audit.py:23-30 | what goes for being too much is no newer than what stays |
| `Retention.CleanupUploads` | server/api/upgrade_routes.py:31-36 | what the loop over the older files leaves when some removals fail |
| `Retention.CleanupEffect` | server/api/upgrade_routes.py:21-36 | min(n, keep) newest files are never removed, and are all that is left besides the older ones whose removal fails |

## Left out

- The web front end, routing, styles and charts: user interface.
- JWT, bcrypt, HTTP, WebSocket framing, the ORM and the database engine: library code; tables and sockets are values here.
- Windows services, PowerShell collection, message boxes and process control: calls into the operating system.
- The generated upgrade script, PE header checks, password strength, task descriptions and audit listing: settled by reading one expression.
- Zip building, address detection, downloads and uploads: plumbing.
- `handleCommand` beyond the directory check of file_push: it fills in a result from system calls; TaskProtocol takes its report as success or failed where that matters and any text otherwise.
- A report's output text, its truncation, and the hardware data a successful sysinfo task stores in the device row.
- Task subscribers and the broadcast to them.
- Audit entries written by the operations, and the uninstall command that deleting a device sends.
- `validateServerURL` and the agent's configuration file.
- RateLimit.LocksAreSpreadOut: is about logins of one key one after the other; concurrent logins may all pass the check before any of them is recorded, and a successful login clears the key.
- RateLimit.GuessesPerInterval: the same restriction to failing logins one after the other.
- TaskProtocol.NoLostCompletion: each row is reported at most once; repeated reports are atomic steps in Tasks.RunConsistent.
- CancelRace.CompletedOverCancelledIff: agents report settled words, and not the word cancelled, which only the server writes.
- Listing.PagesCoverOnce: which devices the status, group and search filters want is an input.
- Import.RacingImportIff: all lookups of one import see the table of one moment.
- Tasks.LateTimeoutLosesIff: what happens in between are whole steps.
- The finish times that one cancel or one timeout gives to several rows: one clock reading here.
- Dispatch.ClosedCall: an exception inside a job cannot occur in the model, as sending catches every error; the order in which waiting jobs get permits is left open.
- Registry.OnlineIsFresh: a row without a last heartbeat (NULL, from before the column had a default) does not occur here.
- Dedupe.DedupeEffect: the same; rows without a last heartbeat, which sort last, are not modelled.
- Import.ImportCsv: decoding, the CSV syntax and stripping white space are done before.
- SafePath.PushedFilesStayInside: one separator and no volume names; Windows drive-relative paths and the second separator are not part of this model.
- DeployConf.RoundTrip: characters are code points; the file's byte encoding is not part of this model.
- Retention.CleanupUploads: the directory listing is the input; a missing directory is the empty listing.

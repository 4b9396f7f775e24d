# Verification of supervisorcpp

A Dafny model of the parts of supervisorcpp whose correctness depends on many pieces of code at once,
with proofs. `dafny verify dfyconfig.toml` checks all of it.

**The supervisor** (`Kernel`, `Process`, `Supervision`, `Ownership`, `Backoff`, `StopDeadline`, `Progress`,
`Lifecycle`, `Grace`, `Daemon`, `ProcessManager`). `Process` and `ProcessManager` are objects whose methods update their fields step by
step. The operating system is an object whose calls have arbitrary outcomes: a fork fails or yields any
pid that is not an unreaped child, any child may end at any time, the clock never goes back. Every
indivisible change is an event, and the manager keeps the events that have happened as a run: its
invariant says that the objects are in the state to which the run leads. `reap_until_` delivers any
number of events between two looks at its condition, among them further requests that wait in turn, shutdown
signals and reloads, so nested waits contribute their events to the same run. Theorems about all runs (in
`Ownership`, `Backoff`, `StopDeadline`, `Progress` and `Lifecycle`) therefore hold of the objects at all times
(`ManagerIsSafe`). `Grace` says of a run that nobody is killed without having been asked to stop and given
time; the contracts of the manager promise it of their part of the run. What happens to the daemon is kept as a log; `Daemon` has the theorems about all logs.

**The log writer** (`LogWriter`): line buffering, forced flush, rotation by renaming numbered files.

**Request framing** (`RpcConnection`): one HTTP request cut into reads in any way, and the client's printer.

**Configuration and strings** (`ConfigParser`, `ConfigTypes`, `CommandLine`, `Strings`, `Text`):
recursive inclusion, variable substitution, command splitting, escaping, and globs as regular expressions.
Characters are bytes throughout. `Wrappers` and `Sequences` hold what the other modules share.

## Where the code does less than one might expect

- `start()` accepts a STOPPING process. If the fork succeeds the old child has no process any more
  (`StartWhileStoppingLosesChild`); if it fails the process leaves STOPPING with its pid, and a later retry
  does the same. The unreaped children are exactly the managed pids all along a run if and only if no event of
  the run forks for a process that still has a pid (`OwnershipExactIff`), which a user is sure of by never
  starting a STOPPING process (`OwnershipConserved`). Signals are safe in any case.
- `set_state_` keeps the time when the state does not change, so a failed fork in BACKOFF does not restart
  the delay (`FailedForkKeepsOldDelay`). The delays add up in every run if and only if `startretries` is at
  most 2 (`DelaysAddUpIff`); from 3 on, failing forks reach FATAL after the longest delay alone. They add
  up in every run in which each retry that would leave further retries forks (`MinimumTimeToFatal`) if and only
  if `startretries` is at most 31 or there is no autorestart (`ForksMakeDelaysAddUpIff`).
- The guard against reloading during a reload looks for RESTARTING, but a shutdown signal stores SHUTDOWN over
  it. A reload is refused if and only if one is in progress and no shutdown signal has been handled since the
  innermost one began (`RefusedIff`); otherwise a second one runs inside the first, never more than two at once
  (`AtMostTwo`), and its end makes the state RUNNING (`SignalLetsReloadIn`). `remove_process` and the loop of
  `sync_processes` hold iterators across their waits. Those are lost only if a reload begins in the wait, which
  during a reload takes such a signal; `ReloadErasesHeldEntry` is a sequence of steps in which it happens.
- `stop()` is refused in BACKOFF without a child and does not cancel the retry (`StopBegins`,
  `RetriedInTime`).
- `1 << retry_count_` leaves the `int` at 31 failures. The delay is always within 1 to 60 seconds if and
  only if `startretries` is at most 31 (`DelayInRangeIff`). A shift by 32 or more is undefined and is
  modelled as an arbitrary value.
- The header of `LogWriter::write` says that rotation happens on line boundaries. That holds of a run if and
  only if at each of its rotations the last operation that put bytes into the file put no part of a line
  there, by a `flush()` or a forced flush of a long line (`RotationAtLineEnds`). `FlushMakesRotationCutLine` is
  a run in which it does not. With `backups` at 0 one backup is still written.
- A request stream with an LFLF before its CRLFCRLF is handled differently depending on how it is cut,
  except when the length declared before the LFLF reaches past the CRLFCRLF
  (`FragmentationIndependentIff`, for instance `CutChangesOutcome`). Headers that end in LFLF work under every
  cut if and only if no CRLFCRLF occurs in the stream (`LfFragmentationIff`); one in the body makes the server
  wait for ever (`CrLfInBodyNeverAnswered`, for instance `NeverAnswered`).
- `?` and `*` become `.` and `.*`, which match neither a line feed nor a carriage return, so that a file
  name with one of them is missed (`MeaningPreservedForIff`).
- The path that is validated is the program that is run if and only if no quote or backslash comes before
  the first space (`FirstArgumentIsValidatedPath`).
- A configuration file given without a directory has an empty base directory, and its includes are skipped;
  in the model such a file has an empty include list.

## Model

| member | source | states |
|---|---|---|
| Kernel.Kernel.ForkChild | supervisor-lib/src/process/process.cpp:313-328 | a fork yields a pid that is no unreaped child and records its parent, or fails and changes no child |
| Kernel.Kernel.WaitAny | supervisor-lib/src/process/process_manager.cpp:222-226 | returns an ended child with its status and removes it, or says that there is none |
| ProcessModel.Process.constructor | supervisor-lib/src/process/process.cpp:42-49 | a process begins STOPPED, without pid and without failures |
| ProcessModel.Process.Start | supervisor-lib/src/process/process.cpp:86-112 | exactly the effect of `StartStep` on fields and children, and returns true unless the fork fails |
| ProcessModel.Process.Stop | supervisor-lib/src/process/process.cpp:114-140 | exactly the effect of `StopStep`, of which `StopBegins` and `StopEndsInStopped` say where it leads; succeeds just when there is a child to signal |
| ProcessModel.Process.Kill | supervisor-lib/src/process/process.cpp:142-154 | exactly the effect of `KillStep`: signal, wait for the child, STOPPED |
| ProcessModel.Process.OnExit | supervisor-lib/src/process/process.cpp:156-197 | exactly the effect of `OnExitStep`, of which `CrashBacksOff`, `StopEndsInStopped`, `StaysDownWithoutAutorestart` and `RetryCountIsFailures` say where it leads |
| ProcessModel.Process.Update | supervisor-lib/src/process/process.cpp:199-235 | exactly the effect of `UpdateStep` for each state, with 32-bit shift |
| ProcessModel.Process.SetStateTo | supervisor-lib/src/process/process.cpp:569-579 | the time of the change is refreshed only by a real change |
| Supervision.StepKeepsInv | supervisor-lib/src/process/process.cpp:86-235 | every event keeps the invariant that ties state, pid, retry counter, children and sent signals together |
| Ownership.SignalsOnlyReachOwnedChildren | supervisor-lib/src/process/process.cpp:114-154 | in every run active processes hold distinct pids of unreaped children they forked, and every kill(2) went to an unreaped child of its sender |
| Ownership.StepConservesExact | supervisor-lib/src/process/process.cpp:86-112 | an event keeps the unreaped children equal to the managed pids if and only if it does not fork for a process that has a pid |
| Ownership.StepConservesOwnership | supervisor-lib/src/process/process_manager.cpp:83-125 | an event keeps both exact ownership and the agreement of pid and state if and only if it is not the start of a STOPPING process |
| Ownership.OwnershipExactIff | supervisor-lib/src/process/process_manager.cpp:218-239 | the unreaped children are exactly the managed pids all along a run if and only if no start and no retry of the run forks for a process that still has a pid |
| Ownership.OwnershipConserved | supervisor-lib/src/process/process_manager.cpp:83-125 | exact ownership together with the agreement of pid and state holds all along a run if and only if no STOPPING process is started, and then no child is ever orphaned |
| Ownership.StartWhileStoppingBreaks | supervisor-lib/src/process/process.cpp:87-107 | starting a STOPPING process orphans the old child if the fork succeeds, and otherwise leaves exact ownership but an inactive process with a pid |
| Ownership.StartWhileStoppingLosesChild | supervisor-lib/src/process/process.cpp:87-107 | a concrete run after which an unreaped child belongs to nobody |
| Ownership.ExitReachesItsOwner | supervisor-lib/src/process/process_manager.cpp:218-239 | in every run without orphans each reaped exit belongs to exactly one process, which takes it, and no other process changes |
| Backoff.RetryCountIsFailures | supervisor-lib/src/process/process.cpp:92-105 | the retry counter equals the failed starts read off the run since creation, coming up, or a clean stop |
| Backoff.FatalNeverSpurious | supervisor-lib/src/process/process.cpp:172-197 | FATAL needs max(1, startretries) failed starts without success or clean stop in between; RUNNING starts from none |
| Backoff.ExactlyLimitFailuresReachFatal | supervisor-lib/src/process/process.cpp:96-104 | without user commands FATAL comes with exactly the last allowed failure |
| Backoff.MinimumTimeToFatal | supervisor-lib/src/process/process.cpp:220-229 | with startretries up to 31, when no child comes up and each retry that would leave further retries forks, FATAL takes at least 2^n - 2 or 62 + 60(n - 6) seconds |
| Backoff.TotalDelayClosedForm | supervisor-lib/src/process/process.cpp:220-222 | the sum of the capped powers of two in closed form |
| Backoff.DelaysAddUpIff | supervisor-lib/src/process/process.cpp:92-105 | that bound holds of every run, without conditions on forks, if and only if startretries is at most 2 |
| Backoff.ForksMakeDelaysAddUpIff | supervisor-lib/src/process/process.cpp:220-229 | that bound holds of every run whose critical retries fork if and only if startretries is at most 31 or there is no autorestart |
| Backoff.BackoffBound | supervisor-lib/src/process/process.cpp:220-229 | in every run the delay is min(2^retry, 60) for startretries up to 31, and a tick retries exactly when it has passed |
| Backoff.RunningExactlyAfterStartsecs | supervisor-lib/src/process/process.cpp:204-210 | an event makes a process RUNNING if and only if it is a tick on a STARTING process that has stayed up for startsecs |
| Backoff.RestsUntilRequested | supervisor-lib/src/process/process.cpp:199-235 | a stopped, exited or given-up process without child stays exactly as it is over every run until a request |
| Backoff.StaysDownWithoutAutorestart | supervisor-lib/src/process/process.cpp:156-197 | without autorestart an exit leads to EXITED with the right status, and the program is not brought back without a request |
| Backoff.DelayInRangeIff | supervisor-lib/src/process/process.cpp:222-222 | the delay is always between 1 and 60 seconds if and only if startretries is at most 31 |
| StopDeadline.StoppingIsFrozen | supervisor-lib/src/process/process.cpp:114-140 | repeated stops and ticks leave a STOPPING process as it is, with the time of the first stop |
| StopDeadline.KilledNoEarlier | supervisor-lib/src/process/process.cpp:212-218 | no SIGKILL before stopwaitsecs have passed since the first stop, unless KILL is the stop signal |
| StopDeadline.KilledNoLater | supervisor-lib/src/process/process_manager.cpp:241-258 | with ticks at most u apart SIGKILL is sent no later than stopwaitsecs + u after the first stop |
| StopDeadline.StopSignalIsImmediate | supervisor-lib/src/process/process.cpp:121-135 | after any run a stop request sends one signal at once, which arrives at an unreaped child, and is the one configured |
| Progress.StartForks | supervisor-lib/src/process/process.cpp:86-112 | a request to start does nothing in RUNNING and STARTING, and in all other states forks once: STARTING with the new child, or one more failure |
| Progress.RetriedInTime | supervisor-lib/src/process/process.cpp:220-229 | with ticks at most u apart a process in BACKOFF is started again between the end of its delay and u later, whatever stop requests come; with a child it needs autorestart and no stop |
| Progress.UpInTime | supervisor-lib/src/process/process.cpp:203-210 | with ticks at most u apart a STARTING process whose child lives is RUNNING, since at most u after startsecs, with no failures counted |
| Lifecycle.StartedComesUp | supervisor-lib/src/process/process.cpp:86-112 | a start request that forks makes any process that is down or stopping RUNNING with that child within startsecs and u |
| Lifecycle.ForksAreAttempts | supervisor-lib/src/process/process.cpp:92-92 | in every run fork is called once for each request or due retry, by the process concerned, and never else |
| Lifecycle.CrashBacksOff | supervisor-lib/src/process/process.cpp:189-192 | the end of the child of a RUNNING process with autorestart gives BACKOFF at that moment, with the status recorded and no failure |
| Lifecycle.CrashIsRestarted | supervisor-lib/src/process/process.cpp:220-229 | and with ticks at most u apart it is started again between 1 second and 1 second + u later |
| Lifecycle.StatusIsRecorded | supervisor-lib/src/process/process.cpp:156-168 | in every run and state the status on record is how the last reaped child ended |
| Lifecycle.GivenUpStaysDown | supervisor-lib/src/process/process.cpp:172-197 | a FATAL process is never started by the supervisor, also if it still has a child that ends |
| Lifecycle.StopBegins | supervisor-lib/src/process/process.cpp:114-124 | a stop makes a process with a child STOPPING since the first stop, and does nothing to one without |
| Lifecycle.StopEndsInStopped | supervisor-lib/src/process/process.cpp:172-178 | from a stop on, over every run, the process is STOPPING as long as its child is not reaped and then STOPPED without failures, until a request |
| Lifecycle.KillIsFinal | supervisor-lib/src/process/process.cpp:142-154 | a kill sends SIGKILL to the own child, reaps it, and leaves the process STOPPED until a request |
| Lifecycle.ErasingKills | supervisor-lib/src/process/process.cpp:69-74 | removing or replacing a process kills the child it has |
| Grace.StopAllIsFair | supervisor-lib/src/process/process_manager.cpp:47-81 | asking everybody, waiting for the longest stopwaitsecs and a second, then killing is fair to every child that was there |
| Grace.RemovalIsFair | supervisor-lib/src/process/process_manager.cpp:112-125 | a removal is fair if the process has no child or was asked and given its time |
| Grace.FairInTurn | supervisor-lib/src/process/process_manager.cpp:197-207 | fairness of the parts of a run, waits nested in waits, is fairness of the whole |
| Daemon.RefusedIff | supervisor-app/src/daemon/supervisord.cpp:131-137 | for every log, a reload is refused if and only if one is in progress and no shutdown signal has been handled since the innermost one began |
| Daemon.AloneUntilSignal | supervisor-app/src/daemon/supervisord.cpp:125-149 | until a shutdown signal is handled a reload in progress is the only one that began |
| Daemon.AtMostTwo | supervisor-app/src/daemon/supervisord.cpp:30-38 | at most two reloads are ever in progress, and two only if the signal came in the first before the second |
| Daemon.SignalLetsReloadIn | supervisor-app/src/daemon/supervisord.cpp:30-38 | a concrete log with a reload in a reload, after which a daemon that is shutting down is RUNNING |
| ProcessManagerModel.GuardOfManager | supervisor-app/src/daemon/supervisord.cpp:125-149 | the theorems about the guard hold of the stored state after any calls with anything nested in them |
| ProcessManagerModel.ProcessManager.HandleShutdownSignal | supervisor-app/src/daemon/supervisord.cpp:31-38 | after the handler no managed process has a child and the event loop is stopped; no child was killed before its stopwaitsecs and a second; it is run once |
| ProcessManagerModel.ProcessManager.EraseHeld | supervisor-lib/src/process/process_manager.cpp:113-121 | the entry held across the wait is erased if it is still the same one, and otherwise the iterator is lost |
| ProcessManagerModel.ReloadErasesHeldEntry | supervisor-app/src/daemon/supervisord.cpp:31-37 | reload, stop of the held program, shutdown signal, second reload: all succeed, and the first reload has lost the entry that it erases |
| ProcessManagerModel.ProcessManager.AddProcess | supervisor-lib/src/process/process_manager.cpp:33-36 | a new object with the configuration takes the name; other entries stay |
| ProcessManagerModel.ProcessManager.StartAll | supervisor-lib/src/process/process_manager.cpp:38-45 | every process has a start attempted |
| ProcessManagerModel.ProcessManager.StopAll | supervisor-lib/src/process/process_manager.cpp:47-81 | every process with a child is sent a stop; whatever happens in the wait, a child that was there at the call is not killed before its stopwaitsecs and a second have passed since a stop; on return none has a child |
| ProcessManagerModel.ProcessManager.StartProcess | supervisor-lib/src/process/process_manager.cpp:83-92 | false for an unknown name, otherwise one start |
| ProcessManagerModel.ProcessManager.StopProcess | supervisor-lib/src/process/process_manager.cpp:94-110 | true just when there was a child; a stop was sent; returns with the child gone or after stopwaitsecs + 1 seconds |
| ProcessManagerModel.ProcessManager.RemoveProcess | supervisor-lib/src/process/process_manager.cpp:112-125 | a known name is stopped if it has a child, given stopwaitsecs and a second, and then erased and destroyed; unless a reload begins in the wait, no iterator is lost and no other entry changes |
| ProcessManagerModel.ProcessManager.SyncProcesses | supervisor-lib/src/process/process_manager.cpp:127-172 | unless a reload begins in its waits: exactly the new names, each with its last entry; an object survives if and only if all its entries equal its configuration; all others are new and were started; who is replaced or removed with a child was asked to stop and given its time; what is there already is left alone |
| ProcessManagerModel.ProcessManager.ReloadConfig | supervisor-app/src/daemon/supervisord.cpp:125-149 | refused without effect exactly when the state is RESTARTING; otherwise ends RUNNING; changes nothing else if the configuration cannot be parsed or is there already; and unless a shutdown signal is handled meanwhile no other reload begins in it, no iterator is lost and it reaches all that a synchronisation does, as fairly |
| ProcessManagerModel.ProcessManager.HasRunningProcesses | supervisor-lib/src/process/process_manager.cpp:190-195 | true if and only if some managed process has a pid |
| ProcessManagerModel.ProcessManager.ReapUntil | supervisor-lib/src/process/process_manager.cpp:197-207 | terminates; ends with the condition gone or the deadline passed |
| ProcessManagerModel.ProcessManager.HandleSigchld | supervisor-lib/src/process/process_manager.cpp:218-239 | reaps every ended child, and says whether there was one |
| ProcessManagerModel.ProcessManager.Deliver | supervisor-lib/src/process/process_manager.cpp:232-237 | the first-match loop gives the exit to the process with that pid and changes no other |
| ProcessManagerModel.ProcessManager.OnTimer | supervisor-lib/src/process/process_manager.cpp:250-258 | one tick updates every process exactly once |
| ProcessManagerModel.ManagerIsSafe | supervisor-lib/src/process/process_manager.cpp:33-239 | the theorems about runs hold of the objects after any calls with anything nested in them |
| LogWriterModel.LogWriter.constructor | supervisor-lib/src/logger/log_writer.cpp:12-22 | opens the file for appending and knows its size |
| LogWriterModel.LogWriter.Write | supervisor-lib/src/logger/log_writer.cpp:57-83 | writes what lies before the last newline of the whole buffer, or all of it from 64 KiB on; the size counter stays exact |
| LogWriterModel.LogWriter.Buffer | supervisor-lib/src/logger/log_writer.cpp:68-76 | searching the new data only decides as searching the whole buffer would |
| LogWriterModel.LogWriter.WriteNL | supervisor-lib/src/logger/log_writer.cpp:121-135 | rotates first if the limit would be passed, then appends |
| LogWriterModel.LogWriter.RotateNL | supervisor-lib/src/logger/log_writer.cpp:137-182 | the renaming loop is a plain shift of the kept backups that drops the oldest |
| LogWriterModel.RenameStep | supervisor-lib/src/logger/log_writer.cpp:160-167 | each rename of the loop has a free target, so no file is overwritten |
| LogWriterModel.LogWriter.Flush | supervisor-lib/src/logger/log_writer.cpp:93-106 | the buffer goes to the file without rotation |
| LogWriterModel.LogWriter.CloseNL | supervisor-lib/src/logger/log_writer.cpp:108-119 | nothing buffered is lost on closing |
| LogWriterModel.StreamConserved | supervisor-lib/src/logger/log_writer.cpp:57-182 | over all writes and flushes, dropped backups followed by what can be read equals what was there followed by what was written |
| LogWriterModel.WriteWithLimit | supervisor-lib/src/logger/log_writer.cpp:121-135 | a write moves the kept files up by one if and only if there is a limit that the file would pass; otherwise it appends and touches no other file |
| LogWriterModel.NothingMovesWhileItFits | supervisor-lib/src/logger/log_writer.cpp:121-132 | without a limit, or while everything fits, over every run nothing is dropped and no backup changes |
| LogWriterModel.FlushHoldsNothingBack | supervisor-lib/src/logger/log_writer.cpp:93-106 | after a flush everything written is in the files, and only the log file was touched |
| LogWriterModel.OnlyLongLinesAreCut | supervisor-lib/src/logger/log_writer.cpp:73-81 | part of a line is held back below 65536 bytes and written out from there on |
| LogWriterModel.PendingStaysShort | supervisor-lib/src/logger/log_writer.cpp:73-81 | with chunks up to 64 KiB less than 64 KiB stays pending |
| LogWriterModel.SizeWithReaders | supervisor-lib/src/process/process.cpp:625-629 | with 4096-byte reads the file is at most max(limit, 69631) bytes after a write |
| LogWriterModel.FileEndsAtLineEnd | supervisor-lib/src/logger/log_writer.cpp:73-81 | the file ends at a line end all the time if and only if no operation puts part of a line into it |
| LogWriterModel.RotationAtLineEnds | supervisor-lib/src/logger/log_writer.cpp:121-132 | every rotation of a run finds the file at a line end if and only if at each of them the last operation that put bytes there cut no line |
| LogWriterModel.FlushMakesRotationCutLine | supervisor-lib/src/logger/log_writer.cpp:93-101 | a concrete run, for any number of backups, in which a rotation cuts a line |
| RpcConnectionModel.RpcConnection.HandleRead | supervisor-lib/src/rpc/rpc_connection.cpp:34-51 | exactly the effect of `ReadStep`: errors, size limit, decision |
| RpcConnectionModel.RpcConnection.Examine | supervisor-lib/src/rpc/rpc_connection.cpp:53-90 | waits, throws, or hands over a trimmed request, as `Decide` says |
| RpcConnectionModel.BodyOfRequest | supervisor-lib/src/rpc/rpc_connection.cpp:94-107 | the second search, over the trimmed request, finds the same CRLFCRLF as the first one over all data, so that the body is exactly what lies behind it |
| RpcConnectionModel.AnyFragmentation | supervisor-lib/src/rpc/rpc_connection.cpp:34-107 | for every way of cutting, reading goes on until the declared body is complete, and then exactly that request and body are handed over |
| RpcConnectionModel.FragmentationIndependentIff | supervisor-lib/src/rpc/rpc_connection.cpp:53-60 | the outcome does not depend on the cuts if and only if no LFLF splits early |
| RpcConnectionModel.LfFragmentationIff | supervisor-lib/src/rpc/rpc_connection.cpp:57-60 | a stream whose headers end in LFLF is handed over under every cut if and only if it has no CRLFCRLF |
| RpcConnectionModel.CrLfInBodyNeverAnswered | supervisor-lib/src/rpc/rpc_connection.cpp:53-90 | a CRLFCRLF behind that LFLF makes the server wait for ever, however the stream is cut |
| RpcConnectionModel.CutChangesOutcome | supervisor-lib/src/rpc/rpc_connection.cpp:53-60 | a concrete complete stream whose outcome depends on the cuts |
| RpcConnectionModel.NeverAnswered | supervisor-lib/src/rpc/rpc_connection.cpp:53-90 | a concrete complete stream that is never answered, however it is cut |
| RpcConnectionModel.NeverMoreThanLimit | supervisor-lib/src/rpc/rpc_connection.cpp:38-51 | under every cut at most 1048576 bytes are kept, and all of them while reading goes on |
| RpcConnectionModel.EndlessHeadersAreRefused | supervisor-lib/src/rpc/rpc_connection.cpp:38-49 | a stream without end of headers is read up to 1 MiB and then refused, under every cut |
| RpcConnectionModel.EndOfStream | supervisor-lib/src/rpc/rpc_connection.cpp:34-36 | a stream that ends is answered exactly if the declared body is complete, under every cut |
| RpcConnectionModel.StoullReads | supervisor-lib/src/rpc/rpc_connection.cpp:79-79 | what stoull makes of blanks, a sign, any number and what follows it |
| RpcConnectionModel.DecimalRoundTrip | supervisor-app/src/ctl/supervisorctl.h:435-435 | a printed length denotes the length |
| RpcConnectionModel.StoullOfDecimal | supervisor-lib/src/rpc/rpc_connection.cpp:79-79 | stoull of a printed length gives the length |
| RpcConnectionModel.BuildHttpRequest | supervisor-app/src/ctl/supervisorctl.h:431-440 | prints the four header lines, an empty line and the body |
| RpcConnectionModel.HeadersEndWhereTheyShould | supervisor-app/src/ctl/supervisorctl.h:431-440 | the only empty line of a printed request is the one before the body |
| RpcConnectionModel.PrintedRequestArrives | supervisor-lib/src/rpc/rpc_connection.cpp:34-107 | every body printed by the client is extracted unchanged, in every fragmentation |
| ConfigParserModel.ConfigParser.ParseSingleFile | supervisor-lib/src/config/config_parser.cpp:39-63 | succeeds if and only if the include tree is sound and has no file twice; then adds exactly what the tree says |
| ConfigParserModel.ConfigParser.ParseStream | supervisor-lib/src/config/config_parser.cpp:82-195 | depth limit, errors of the first sections, settings, includes, errors of the programs, programs: together it succeeds and adds what the tree of this file says |
| ConfigParserModel.ConfigParser.ParseIncludes | supervisor-lib/src/config/config_parser.cpp:197-207 | reads the files of all patterns in order, stopping at the first error |
| ConfigParserModel.ParseFile | supervisor-lib/src/config/config_parser.cpp:26-37 | succeeds if and only if the whole tree can be read and the required settings are not empty |
| ConfigParserModel.InSequence | supervisor-lib/src/config/config_parser.cpp:200-206 | reading one list after another composes: no file twice, programs in post-order, settings in pre-order |
| ConfigParserModel.OneFile | supervisor-lib/src/config/config_parser.cpp:82-195 | a file comes before its includes in pre-order and after them in post-order |
| ConfigParserModel.SoundMeansChains | supervisor-lib/src/config/config_parser.cpp:82-84 | all files can be read if and only if every chain of includes has at most ten files and ends in one that is there, safe, well-formed and has valid programs |
| ConfigParserModel.AllNewMeansDistinct | supervisor-lib/src/config/config_parser.cpp:40-43 | the included set makes every file be read exactly once |
| ConfigParserModel.LastSettingWins | supervisor-lib/src/config/config_parser.cpp:94-110 | a setting has the value of the last file in pre-order that sets it |
| ConfigParserModel.NoFileIncludesItself | supervisor-lib/src/config/config_parser.cpp:40-43 | success excludes include cycles |
| ConfigTypes.SubstituteVariables | supervisor-lib/src/config/config_types.h:115-126 | equals splitting the input at the placeholder and joining with the name, and terminates for every name |
| ConfigTypes.SplitIsComplete | supervisor-lib/src/config/config_types.h:119-123 | the split gives the input back and leaves no placeholder in any piece |
| CommandLine.ParseCommand | supervisor-lib/src/process/process.cpp:538-567 | the loop computes `Arguments`, and no argument is empty |
| CommandLine.SplittingUndoesQuoting | supervisor-lib/src/process/process.cpp:538-567 | quoting a list and splitting gives the list back if and only if none is empty |
| CommandLine.SplittingGivesMeaning | supervisor-lib/src/process/process.cpp:538-567 | arguments written in any mixture of bare characters, backslashes and quotes, with any spaces around them, are split into what they mean |
| CommandLine.FirstArgumentIsValidatedPath | supervisor-lib/src/util/secure.cpp:124-131 | the validated path is the first argument if and only if it has no quote and no backslash |
| Strings.EscapeStr | supervisor-lib/src/util/string.cpp:9-25 | copying slices equals escaping character by character |
| Strings.EscapeXml | supervisor-lib/src/util/string.cpp:27-36 | decoding the result gives the text back, and no markup character is left |
| Strings.DecodeUndoesEscape | supervisor-lib/src/util/string.cpp:27-36 | the five entities of section 4.6 of XML 1.0 decode what was escaped, exactly once |
| Strings.GlobToRegex | supervisor-lib/src/util/string.cpp:38-56 | the emitted string parses to one term for each character, which match as the glob does |
| Strings.RegexOfGlobParses | supervisor-lib/src/util/string.cpp:38-56 | only literal, any and any-star terms arise, never a lazy or counted quantifier |
| Strings.GlobMeaningPreserved | supervisor-lib/src/config/config_parser.cpp:223-236 | the regular expression matches a whole name without line terminators exactly when the glob does |
| Strings.MeaningPreservedForIff | supervisor-lib/src/config/config_parser.cpp:223-236 | a name is matched alike for all patterns if and only if it has no line feed and no carriage return |

## Left out

- Backoff.BackoffBound: `retry_count_` is unbounded here; the program's `int` would overflow after 2^31 failures in a row.
- ProcessModel.Process.Kill: the waitpid it calls is taken to return the child; an interrupted wait is not modelled.
- ProcessModel.Process.Update: one reading of the clock per operation; time passes in forks, in waits and between events.
- ProcessManagerModel.ProcessManager.RemoveProcess: removal is destruction, so that another holder of the object is not modelled; what C++ does after the use of a lost iterator is undefined, and the model, which goes on without the erase or the rest of the loop, says nothing about it beyond what holds of all runs.
- ProcessManagerModel.ProcessManager.SyncProcesses: nothing is said about the map in the end when a reload begins in its waits.
- ProcessManagerModel.ProcessManager.ReloadConfig: the path of the configuration file is never empty here, as the daemon is made from a parsed file; exceptions out of a synchronisation are not modelled.
- ProcessManagerModel.ProcessManager.OnTimer: the order of the names is arbitrary in loops that do not wait, where the program's map is sorted.
- ProcessManagerModel.ProcessManager.ReapUntil: each turn of the event loop takes at least one nanosecond; how deeply requests nest inside waits is any number fixed beforehand; which events a turn delivers is arbitrary, so no contract can demand that any is, and that a wait ends early is promised only if its condition is gone at the start.
- Grace.KillsAreFair: a child that is only forked while `stop_all` waits may be killed without having been asked to stop, as in the program.
- LogWriterModel.LogWriter.Write: opening, writing and renaming succeed, one writer uses the files, and `write_line` and the mutex are not modelled.
- RpcConnectionModel.RpcConnection.HandleRead: sockets, responses, XML parsing and dispatch; an exception of stoull is an outcome of its own.
- ConfigParserModel.ConfigParser.ParseStream: INI syntax, comments, value conversion and path checks are abstracted to whether the sections before and after the includes are acceptable and what they yield.
- Strings.GlobMeaningPreserved: characters are compared one by one, as the program compares bytes; directory listing and sorting are not modelled.
- ProcessModel.StopSignal: the names accepted by the configuration but not listed in `stop` are sent as TERM, as in the program; signal numbers are not modelled.
- fork, exec, pipes, user switching, environment, umask, file descriptors and log output of children: only the pid, the failure and the time taken remain.
- supervisorctl commands, status formatting, RPC handlers, log levels, size parsing and the pid file: thin code without properties that span functions.

# vssh, modelled and proved in Dafny

vssh is a remote-execution daemon with its client. Most of it is plumbing, but a number of small
protocols and algorithms in it carry promises: a command is not run twice, a log cannot be edited
unnoticed, a file outside of a policy's paths is not opened, a half-written file never appears. This project
models those parts as they are coded and proves what they promise. Most of these promises hold only under a
condition (not all daemon deaths, not all logs, not all paths, not all line files); then the condition is
stated and proved exact, or the failing case is proved to exist. "What the proofs found" lists them.

`dafny verify dfyconfig.toml` checks everything.

## What is modelled

- **Pooled execution** (`NetErrors`, `MuxProtocol`, `MuxRuns`, `MuxProgress`, `MuxPool`). `MuxProtocol` is a
  transition system: any number of concurrent calls to one host, the session's mutex, the pooled connection,
  the connections left behind by failed calls, the daemon's loop on each of them, one retry, and the one-shot
  fallback. Connections are reliable FIFO streams; a peer's close is seen only after all it sent; the daemon
  closes only where `HandleMux` reads its next line, and it may die anywhere. `NetErrors` has the errors by
  cause with their texts, and `safeToRetry`, which sees only the texts; an error whose cause is a closed or
  broken connection needs a gone daemon, and every other one may strike any read or write. `MuxPool` is the
  code of `execViaMux`, `roundtrip`, `establish`, `closeLocked`, the exec entry point and `HandleMux`, run
  against that state with everybody else taking any number of steps in between.
- **The audit log** (`AuditChain`): writer, reseeding after a restart, verifier, tamper evidence.
- **Workflows** (`Workflow`, `Templates`, `SubstitutionOrder`): the interpreter with jumps and a hop budget,
  and the substitution that walks a Go map in an unspecified order.
- **Policy** (`RateLimit`, `PathScope`, `PathOpening`): the in-place sliding window, path and glob resolution
  over an arbitrary symlink oracle, and the judged path against the file that is then opened.
- **Probing** (`ProbeRace`): the race of `pickReachable`.
- **Transfers** (`Staging`): a disk that remembers every state it went through, so that a crash after any
  step is any remembered state; PUT, GET and RESUME as steps on it.
- **Line files** (`LineFiles`, `ConfigFiles`, `AuthorizedKeys`): writers and readers of the same files, in
  different source files, held to the laws of maps.
- **Reverse accepts** (`ReverseAccepts`), **UDP framing** (`UdpFraming`), **the signed fleet state**
  (`FleetState`), **audit sessions** (`Sessions`), **routing** (`Routing`).
- `Text` and `Sorting` hold the few operations of Go's `strings` and `sort` packages that these rely on;
  `Sorting` shows that what the `sort` package promises has one result (`StableSortIsTheOne`,
  `SortedPermutationIsUnique`), so no particular algorithm is assumed. `Optional` is the option type.

## What the proofs found

- At-most-once execution survives every daemon death but one: the daemon dies while it runs a command that
  came over a reused session. Then the client takes the end of file for an idle close and runs the command
  again. That this is the only harmful death is an if-and-only-if
  (`MuxRuns.OnlyTheHarmfulDeathRepeats`).
- A policy refusal is a reply too: "exactly once when a reply is returned" is exactly once for a result and
  never for a refusal (`MuxRuns.AnsweredExactlyOnce`).
- The audit log breaks its own chain when a daemon restarts while a log that has lines cannot be read: it
  seeds with an empty prev and the next record it manages to write is a chain break. That is the only way
  (`AuditChain.WrittenLogVerifies`, an if-and-only-if).
- The verifier's documentation says that anything but trimming the head is reported. Against the last line
  of a fully chained log that is true of any log the verifier accepts (`AuditChain.OnlyTheHeadCanGo`).
  Otherwise a line can be edited, left out or put in unnoticed exactly where the record behind it carries no
  prev, at the end of the log, and in the few cases that `AuditChain.EditVerifiesIff`,
  `AuditChain.DeletionVerifiesIff` and `AuditChain.InsertionVerifiesIff` name.
- `fillParams` depends on the map's order exactly when a value can open a hole of another key: it holds the
  hole, it completes one together with the text around it, or it is empty
  (`SubstitutionOrder.OrderDoesNotMatterIff`, for commands of any text). In templates of whole holes and text
  that cannot begin one, plain values, empty ones too, are safe (`Templates.OrderDoesNotMatter`).
- PUT cuts the path at its first white space, so a path with one is written elsewhere
  (`Staging.PathTokenIsPath`). `HandleResume` ignores a short delivery and the error of its rename: it can
  answer OK without having installed anything, and a connection that drops makes it delete the partial
  file it was to continue.
- A policy judges the path that `resolvePath` makes, which cleans `..` away before it looks at symlinks, while
  the transfer opens the raw path, which follows symlinks first. `internal/server/policy.go:151-153` says that
  a symlink or `..` that leaves the subtree fails. It does for every path without `..`, and with `..` at every
  component of the way if and only if no `..` leaves a place that a symlink led to from another directory
  (`PathOpening.AgreeIff`, `PathOpening.ScopeOfOpened`). Behind such a link the path that is let through and
  the file that is opened are two places (`PathOpening.DetourGoesElsewhere`, `PathOpening.DetourOutOfScope`).
  An upload moreover replaces the last name itself, even where that is a link
  (`PathOpening.EntryIsOpenedIff`).
- A wildcard in a component before a trailing double star is compared literally, so such a glob covers only a
  directory whose name contains the wildcard (`PathScope.WildcardSubtreeScope`).
- A policy glob that is only a double star under a slash has no static base and covers the working directory
  (`PathScope.BareSubtreeIsCwd`); a base that resolves to the root covers the root alone
  (`PathScope.SubtreeGlobScope`).
- `AuthorizeKey` on a file whose last line is not terminated glues the new line to it: it reports success and
  the key gets nothing, while the key of that line loses what it had, or has its list changed
  (`AuthorizedKeys.GluedKeyIsLost`, `AuthorizedKeys.GluedListIsRead`; `AuthorizedKeys.AuthorizeKeepsOthersIff`
  says exactly when another key is touched). A capability list with white space is granted only up to it, and without a list a
  caps= word in the comment counts (`AuthorizedKeys.AuthorizeGrantsIff`). A newline in the list or the
  comment starts a line of its own, and `cmd/vssh/commands_config.go:40` passes both on unchecked: a comment
  that ends in a line with another key authorizes that key (`AuthorizedKeys.NewlineAuthorizesAnother`).
- A node name with an equals sign, a newline or a leading # is written but never read back, and neither is an
  address with a newline; no other name or address fails (`ConfigFiles.SetNodeConfigIff`). What such a write
  says on its further lines, or before the equals sign in the name, can give another name an address
  (`ConfigFiles.SetNodeConfigOthersIff`, `ConfigFiles.NewlineInAddressSetsAnother`). Pins with white space
  inside are not read back either (`ConfigFiles.PinNodeIff`).
- Reverse accepts are always in exactly one place if and only if no accept is given an id that still waits
  and no failed write finds an entry that is not its own (`ReverseAccepts.AlwaysOnceIff`). Fresh, unguessed
  ids and failed writes that reach nobody suffice for that (`ReverseAccepts.AssumptionsSuffice`).
- One UDP packet of 5 to 9 bytes from the application passes the client's length check, fails the daemon's,
  and ends the relay for everything after it (`UdpFraming.ShortPacketEndsRelay`).
- The bytes that are signed for a fleet are determined exactly when no two different nodes share a name
  (`FleetState.DeterminedIff`); `sort.Slice` promises no order between the two. One implementation of it is
  deterministic, so an unchanged state in unchanged order fails to verify only across implementations.
- `Analyze` without an age limit sorts the slice of its caller (`Sessions.Analyze`).
- Beyond 100 points a capability, 10 a tag and 20 for health, the penalties of routing stop being decisive:
  with 100 R + 10 T + 20 >= 1000 an avoided host can win (`Routing.BoundIsExact`). Below that bound a fit
  host can still be refused, when it is stale or degraded and nothing pays for that (`Routing.ScoreIff`).

## Model

| member | source | states |
|---|---|---|
| MuxRuns.AtMostOnce | internal/server/mux_pool.go:142-193 | over every run without the one harmful daemon death, however calls, timeouts, idle closes, other deaths, the retry and the fallback interleave, the daemon starts each call's command at most once |
| MuxRuns.AnsweredExactlyOnce | internal/server/transfer.go:518-567 | a call that returns a reply returns its own; the command ran exactly once, or, for a policy refusal, never and no copy of it can still run |
| MuxRuns.PoolQuietBetweenCalls | internal/server/mux_pool.go:108-140 | whenever the mutex is free the pooled connection has nothing outstanding in either direction, so no round trip can read an earlier command's late reply |
| MuxRuns.RetryOnlyUnread | internal/server/mux_pool.go:179-192 | after a failed round trip the connection is unpooled before the mutex is released, and the second attempt starts only if the first copy was not run and can no longer be read |
| MuxRuns.RetriedIff | internal/server/mux_pool.go:179-190 | after any run, a call whose read fails goes on to dial again if and only if it reused a session, had not retried, and the error's cause is a closed or broken connection with no timeout in its text |
| MuxRuns.NoMuxIsRemembered | internal/server/mux_pool.go:93-101 | once a daemon has answered that it knows no MUX, every later call in every continuation goes to the one-shot path without a new connection; a failed handshake is not remembered |
| MuxProtocol.StepKeepsInv | internal/server/mux_pool.go:150-193 | every step of any client call or of the daemon but the harmful death keeps the invariant that locates each command copy, its reply and the mutex holder |
| MuxProtocol.RunKeepsInv | internal/server/mux.go:22-53 | the invariant holds after every run without a harmful death |
| MuxProtocol.DaemonGoneKeepsInv | internal/server/mux.go:25-30 | a close at the read point, and any death that is not the harmful one, keep the invariant |
| MuxRuns.OnlyTheHarmfulDeathRepeats | internal/server/mux_pool.go:43-62 | after any run so far, at-most-once survives the next event in every continuation without further deaths if and only if that event is not the daemon dying while it runs a command sent over a reused session before its retry |
| MuxProtocol.DaemonReadsKeepsInv | internal/server/mux.go:25-47 | taking a line off a connection, and executing or refusing it, keeps the invariant: a copy is consumed before anything else can read it |
| MuxProtocol.DropKeepsInv | internal/server/mux_pool.go:108-115 | closing a session with a best-effort QUIT leaves at most the unread command before the QUIT and keeps the invariant |
| MuxRuns.CrashWhileRunningRepeats | internal/server/mux_pool.go:174-190 | from any run in which a reused session's command is executing, a daemon death extends to a run that executes it twice |
| MuxRuns.ReusedSessionRunning | internal/server/mux_pool.go:162-174 | such a run exists |
| MuxProgress.NobodyIsStuck | internal/server/mux_pool.go:150-193 | after any orderly run every call that is not over can still end, whatever the daemon does or fails to do: the mutex is always given back, and nobody waits for it in vain |
| MuxProgress.HolderEnds | internal/server/mux_pool.go:155-193 | from wherever the holder of the mutex is, a run of its own steps ends its call and frees the mutex, the other calls staying where they are |
| MuxProgress.AnyReadFails | internal/server/mux_pool.go:124-132 | what may strike a read: any error whose cause leaves the connection open, anywhere; a closing one once the daemon is gone and all it sent is read |
| MuxProgress.AnyWriteFails | internal/server/mux_pool.go:119-123 | the same for the write of a command |
| MuxPool.Host.Exec | internal/server/transfer.go:518-567 | the exec entry point, pooled path, retry and fallback together: at most one execution, exactly one for a result, none for a refusal, whatever others do meanwhile |
| MuxPool.Host.ExecViaMux | internal/server/mux_pool.go:150-193 | reuses or dials, retries once after a safe failure on a reused session, and either finishes the call or sends it to the one-shot path, with the command then neither run nor left where the daemon can read it |
| MuxPool.Host.Establish | internal/server/mux_pool.go:84-105 | the four outcomes of opening a session and where each leads, on a first attempt and on the retry |
| MuxPool.Host.Roundtrip | internal/server/mux_pool.go:118-140 | returns the call's own reply, or leaves the call broken with the retry decision of its error |
| MuxPool.Host.SecondAttempt | internal/server/mux_pool.go:183-192 | the one retry: a fresh session, one round trip, then an answer or a failure |
| MuxPool.Host.CloseLocked | internal/server/mux_pool.go:108-115 | drops the session; only a first attempt on a reused session with a safe error goes on to dial again |
| MuxPool.Host.ExecOneShot | internal/server/transfer.go:532-567 | one connection, one command, one reply or an error |
| MuxPool.Host.ServeLine | internal/server/mux.go:28-50 | a line taken off the connection is answered before the next is read; only QUIT ends the loop |
| MuxPool.Host.HandleMux | internal/server/mux.go:22-53 | the daemon's loop is left only at its read point, never with a command running |
| MuxPool.DeadlinePasses | internal/server/mux_pool.go:49-56 | the error of a read deadline is one the fault model allows anywhere, and it is never retried |
| NetErrors.SafeToRetryIff | internal/server/mux_pool.go:46-62 | an error is retried if and only if its cause is a closed or broken connection and its text mentions no timeout: never after a deadline, after ETIMEDOUT or after a reply that is not JSON |
| NetErrors.TimeoutsArePlausible | internal/server/mux_pool.go:49-56 | both kinds of timeout are errors the fault model allows while the daemon lives, and neither is retried |
| AuditChain.AuditVerify | cmd/vssh/main.go:568-612 | verified if and only if no trimmed non-blank line fails to parse and every chained record but the first carries the hash of the one before it; the reported numbers are exactly those of the faulty lines, in order; counts are exact |
| AuditChain.VerifyLines | cmd/vssh/main.go:578-604 | the same of the loop over lines, blank lines skipped |
| AuditChain.VerifiesMeans | cmd/vssh/main.go:583-604 | records verify if and only if each parses and each chained one but the first carries its predecessor's hash; all results on verifying logs are about this |
| AuditChain.AuditLog.Append | internal/server/audit.go:145-189 | one record appended, or the failed open, with lazy reseeding: the new file and chain value are those of the abstract writer |
| AuditChain.AuditLog.Reboot | internal/server/transfer.go:504-508 | a restart forgets the chain value and keeps the file |
| AuditChain.LastHashOfLog | internal/server/audit.go:56-68 | reseeding gives the hash of the last line of a log, and an empty value for an empty or unreadable one |
| AuditChain.WrittenLogVerifies | internal/server/audit.go:145-189 | from any log that verifies, any sequence of appends, failed opens and restarts leaves a log that verifies if and only if no record was written after a seeding from an unreadable non-empty log |
| AuditChain.ReadableNeverBreaks | internal/server/audit.go:56-68 | in particular whenever the log can be read back |
| AuditChain.TrimmedHeadVerifies | cmd/vssh/main.go:563-567 | cutting lines off the head of a log that verifies leaves one that verifies |
| AuditChain.AgreeBack | cmd/vssh/main.go:583-604 | two logs that verify and share their last line agree on every line reached through prev fields |
| AuditChain.TamperEvident | internal/server/audit.go:127-129 | for any log the verifier accepts, chained or not: if it ends in the last line of a fully chained log, one of the two is the other with its head cut off |
| AuditChain.OnlyTheHeadCanGo | cmd/vssh/main.go:563-567 | against the last line of a complete, fully chained log, the verifier accepts only that log and its suffixes |
| AuditChain.EditVerifiesIff | cmd/vssh/main.go:590-603 | in any log that verifies, an edited line goes unnoticed if and only if it parses, carries no prev or the hash before it (or is the first), and the record behind it, if any, carries no prev |
| AuditChain.DeletionVerifiesIff | cmd/vssh/main.go:590-603 | a line left out goes unnoticed if and only if it was the first or the last, stood before a record without prev, or repeated the line before it |
| AuditChain.InsertionVerifiesIff | cmd/vssh/main.go:590-603 | a line put in goes unnoticed if and only if it parses, carries no prev or the hash before it (or is the first), and the record behind it, if any, carries no prev or the hash of the new line |
| AuditChain.RecordsOfLog | cmd/vssh/main.go:578-588 | what the verifier reads from the written file are the records written |
| Templates.FillParams | internal/workflow/engine.go:166-171 | the loop over the map is one of its walks; for brace-free keys and values without an opening hole the result is simultaneous substitution followed by trimming |
| Templates.OrderDoesNotMatter | internal/workflow/engine.go:166-171 | every walk of the map gives the simultaneous substitution |
| Templates.ReplaceIsSubstitute | internal/workflow/engine.go:167-169 | replacing one pattern in a rendered template is substituting that key in the template |
| SubstitutionOrder.OrderDoesNotMatterIff | internal/workflow/engine.go:166-171 | for brace-free keys: every command is filled in one way by all walks of the map if and only if no value can open a hole of another key that does not stand for its own hole |
| SubstitutionOrder.SettledIsSimultaneous | internal/workflow/engine.go:166-171 | for such maps every walk gives the simultaneous substitution in the command, whatever its text |
| SubstitutionOrder.OneThenRest | internal/workflow/engine.go:167-169 | replacing one key first and then all others at once is replacing all at once, when its value opens none of them |
| SubstitutionOrder.OpeningMatters | internal/workflow/engine.go:166-171 | for any map with a value that opens another key's hole, a command and two walks that fill it differently, trimming included |
| SubstitutionOrder.HoleInValueMatters | internal/workflow/engine.go:166-171 | in particular for any value that holds the hole of another key, and for any empty one |
| Workflow.Run | internal/workflow/engine.go:87-164 | a success lists each step once, in order; the run is a finished trail of at most 4n+8 hops, each the engine's step for its step and outcome; every recorded success, exit code, output and error is its runner's answer for that hop; the summary counts the hops that ran by that answer and names the failed ones in order |
| Workflow.RunRecords | internal/workflow/engine.go:105-187 | any trail of hops records what its runner answered, hop by hop, and its roll-up is that of the answers |
| Workflow.RunGoesAsTold | internal/workflow/engine.go:104-161 | every hop runs its step's command with the holes filled and then goes where the step's own on_fail word leads: on, to the end, or to the last step of that id, with the action that says so |
| Workflow.StatusOfTells | internal/workflow/engine.go:134-160 | success if and only if no failing step said anything but continue; aborted if and only if one of them said abort or named no step |
| Workflow.Take | internal/workflow/engine.go:105-131 | one hop: summary, dry run, success, or failure handling |
| Workflow.Fail | internal/workflow/engine.go:133-158 | a failing step continues, aborts, jumps to the last step of that id, or aborts for an unknown target, and records which |
| Workflow.BuildIndex | internal/workflow/engine.go:98-101 | ids map to the last step that has them |
| Workflow.Summarize | internal/workflow/engine.go:173-187 | counts and failed ids over the executed steps |
| Workflow.RunIsAPath | internal/workflow/engine.go:104-159 | consecutive hops follow edges of the step graph, from the first step |
| Workflow.SuccessMeansInOrder | internal/workflow/engine.go:103-159 | success if and only if all n steps were visited once, in order, with no jump and no abort |
| Workflow.AbortedMeansLastStopped | internal/workflow/engine.go:141-158 | aborted if and only if the last recorded step aborted |
| Workflow.OutOfHopsMeansFailed | internal/workflow/engine.go:103-105 | a run cut off by the hop budget has failed, and visited some step more than four times |
| RateLimit.RateWindow.RateExceeded | internal/server/policy.go:411-432 | refuses exactly when the recent list is full; the list kept is the recent one, with the new time if admitted |
| RateLimit.RateWindow.Compact | internal/server/policy.go:420-426 | the in-place filter over the slice's own memory keeps exactly the recent times, in order |
| RateLimit.RefusedExactlyWhenFull | internal/server/policy.go:419-431 | with a clock that is monotone over the calls of each key, refused if and only if perMin execs of that key, out of all it was ever admitted, fall at or after now - 60 |
| RateLimit.WindowIsBounded | internal/server/policy.go:409-432 | no interval [t - 60, t] ever holds more recorded admissions of a key than the highest limit it was given |
| RateLimit.AdmittedIsBounded | internal/server/policy.go:409-432 | when every exec of a key came with a limit of at most n, however small, no interval [t - 60, t] holds more than n execs let through |
| RateLimit.UnlimitedIsAdmitted | internal/server/policy.go:411-414 | an exec without a limit or without a key is let through and changes nothing |
| RateLimit.InWindowCounts | internal/server/policy.go:419-426 | a window counts each recorded time of its 60 seconds, both ends included, as often as it was recorded |
| RateLimit.KeysAreIndependent | internal/server/policy.go:407-416 | what is kept and what was admitted for a key is what its own requests alone would leave |
| RateLimit.RunAgrees | internal/server/policy.go:420-426 | at every later cutoff the compacted list and the full history select the same times |
| PathScope.ResolvePath | internal/server/policy.go:172-192 | the loop ends, keeps ancestor plus tail equal to the cleaned path, and returns the longest resolvable ancestor resolved with the tail after it; the result is clean |
| PathScope.PathAllowed | internal/server/policy.go:154-165 | allowed exactly when some glob accepts the resolved path; no globs, no access |
| PathScope.SubtreeGlobScope | internal/server/policy.go:196-217 | for every symlink oracle, a non-empty static base with a trailing subtree pattern accepts exactly the paths under the resolved base by components, not by characters |
| PathScope.SubtreePolicy | internal/server/policy.go:149-165 | a policy of subtree globs accepts exactly the union of the resolved subtrees |
| PathScope.BareSubtreeIsCwd | internal/server/policy.go:196-206 | a subtree pattern with no base in front covers the resolved working directory |
| PathScope.WildcardSubtreeScope | internal/server/policy.go:196-217 | a glob with a wildcard in a component before a trailing subtree pattern accepts exactly the paths under the resolved base and then those components taken literally, and none if the base resolves to the root |
| PathScope.LiteralGlobScope | internal/server/policy.go:196-217 | a glob without wildcards accepts exactly the path it resolves to, for any matcher that takes wildcard-free patterns literally |
| PathScope.LiteralPolicy | internal/server/policy.go:154-165 | a policy of one such glob lets a path through if and only if both resolve to the same path |
| PathScope.LastComponentScope | internal/server/policy.go:196-217 | a glob with its first wildcard in the last component accepts exactly what the matcher says of the resolved base followed by that component |
| PathOpening.AgreeIff | internal/server/policy.go:167-192 | for every coherent file system: at every component of a path the place opened is the place judged if and only if each `..` leaves the root, a missing place, or one whose resolved parent is its parent resolved |
| PathOpening.OpenedIsJudged | internal/server/policy.go:172-192 | a path of which that holds opens exactly what resolvePath makes of it |
| PathOpening.FollowName | internal/server/policy.go:178-190 | following one more name from the judged place is judging the longer path, existing or not |
| PathOpening.ScopeOfOpened | internal/server/policy.go:149-165 | a policy of subtree globs lets such a path through if and only if the file opened lies in one of the resolved subtrees |
| PathOpening.ScopeWithoutDots | internal/server/policy.go:149-165 | in particular every path without `..` |
| PathOpening.DetourGoesElsewhere | internal/server/policy.go:172-192 | a path through any existing directory, a name in it, `..` and another name: what is judged, what is opened, and that they agree if and only if `..` behind that name is safe |
| PathOpening.DetourIsLetThrough | internal/server/policy.go:305-323 | a policy of the subtree of that directory lets it through, and the file opened is in scope exactly when the directory of the link's target is |
| PathOpening.DetourOutOfScope | internal/server/policy.go:151-153 | there is a coherent file system and such a path that is let through and opened out of scope |
| PathOpening.EntryIsOpenedIff | internal/server/transfer.go:395 | the entry that a rename replaces is the file that opening the path would give if and only if its last name is no link to elsewhere |
| PathScope.ResolveIsClean | internal/server/policy.go:172-192 | resolved paths have no dot, dot-dot or empty component |
| PathScope.ShowIsInjective | internal/server/policy.go:210-217 | comparing clean paths as text is comparing their components |
| ProbeRace.PickReachable | cmd/vssh/main.go:425-460 | for every arrival order: the lowest-index reachable host, or none exactly when all are down, at the first answer after which no pending probe could change the result |
| ProbeRace.Scan | cmd/vssh/main.go:450-457 | the inner loop concludes a host exactly when it is up and all before it are down |
| ProbeRace.WinnerIsUnique | cmd/vssh/main.go:417-424 | the winner does not depend on the arrival order |
| ProbeRace.PendingMatters | cmd/vssh/main.go:450-453 | while a host that could still come first is pending, no answer is certain |
| Staging.Disk.HandlePut | internal/server/transfer.go:348-403 | in every crash state the target holds its old bytes or the complete new ones, and only the old ones if too few bytes arrive or the reply is an error; OK if and only if the file opens, every copy succeeds, enough bytes arrive and the rename succeeds, and then all bytes are there, with their digest; the temporary file is gone |
| Staging.Disk.RecvFile | internal/server/transfer.go:273-316 | the same for a download, which also fails exactly when the digest of the header, or else a 32-character trailer, is another than that of the bytes |
| Staging.Disk.HandleResume | internal/server/transfer_advanced.go:173-214 | SKIP exactly when the target has the digest; a complete delivery is answered OK if and only if the assembled bytes have it; the target is old or digest-verified in every crash state; the partial file is always a prefix of its completion; a mismatch removes it |
| Staging.Disk.DeliverDespiteCrashes | internal/server/transfer_advanced.go:184-214 | after any number of crashes after any steps, with the rest arriving in any chunks over connections that may drop, the target is old or the data; it is the data once the last attempt is skipped, or answered OK and renamed; an attempt that arrives whole is answered OK |
| Staging.Disk.CrashedAttempt | internal/server/transfer_advanced.go:184-203 | every crash state, partial files of any length among them, is one from which the next attempt can continue |
| Staging.Disk.Settle | internal/server/transfer_advanced.go:204-214 | the assembled file is renamed only if its digest matches, else removed |
| Staging.Upload | internal/server/transfer.go:184-242 | with a collision-free digest and a source of stable size, whatever arrives: successful if and only if all steps succeed and the bytes that arrived are the local ones; a daemon that sends no digest is believed |
| Staging.PathTokenIsPath | internal/server/transfer.go:348-352 | the daemon writes to the path it was given if and only if that has no white space |
| Staging.TempName | internal/server/transfer.go:372 | the temporary file is never the target |
| LineFiles.UpsertKeyed | internal/server/configwrite.go:74-95 | the file written is the upsert of its lines, for any idea of a line's key |
| LineFiles.UpsertLaws | internal/server/configwrite.go:74-95 | after an upsert the key has one line, all other lines are unchanged and in order, and repeating it changes nothing |
| LineFiles.FindUpserted | internal/server/configwrite.go:74-95 | whenever writer and reader agree on keys, a lookup gives the value written for its name and what it gave before for any other |
| LineFiles.UpsertRoundTrip | internal/server/configwrite.go:80-94 | reading the file back gives the lines written, when the new one has no newline |
| LineFiles.WrittenLines | internal/server/configwrite.go:80-94 | reading the file back after any write gives the lines before the key's place, the written text line by line, and the other lines behind |
| LineFiles.OtherNameIff | internal/server/configwrite.go:74-95 | after any write another name is found as before if and only if a line in front has it, or the written text says nothing of it, or says what the lines behind said |
| ConfigFiles.ConfigDir.SetNodeConfig | internal/server/configwrite.go:97-108 | an error for an empty name, else the upserted config file; node_keys untouched |
| ConfigFiles.ConfigDir.PinNode | internal/server/configwrite.go:111-122 | the same for node_keys |
| ConfigFiles.SetNodeConfigIsUpdate | internal/server/identity.go:231-255 | ConfigNodeIP after SetNodeConfig: the address written, others unchanged, one line, idempotent |
| ConfigFiles.PinNodeIsUpdate | internal/server/identity.go:262-281 | NodeKey after PinNode: the key written, others unchanged, one line, idempotent |
| ConfigFiles.ConfigKeysAgree | internal/server/identity.go:245-252 | the writer takes the key from the raw line and the reader from the trimmed one, and they are the same |
| ConfigFiles.SystemFileIsRead | internal/server/identity.go:231-281 | a name that the local file does not know is looked up in the system file, in the same way |
| ConfigFiles.SpellingDoesNotMatter | internal/server/identity.go:231-281 | two spellings of a name that differ in case and outer white space have the same address and the same key |
| ConfigFiles.SetNodeConfigIff | internal/server/identity.go:231-255 | on any files, ConfigNodeIP after SetNodeConfig gives the address written if and only if the name has no equals sign, newline or leading # and the address no newline, or there is no address |
| ConfigFiles.UnreadableName | internal/server/identity.go:244-252 | no file resolves any other name |
| ConfigFiles.SetNodeConfigOthersIff | internal/server/configwrite.go:97-108 | exactly when a write, newlines included, leaves another name's local address as it was |
| ConfigFiles.NewlineInAddressSetsAnother | internal/server/configwrite.go:97-108 | an address with a newline and a line for another name gives that name its address, unless a line in front has one |
| ConfigFiles.PinNodeIff | internal/server/identity.go:262-281 | on any files, NodeKey after PinNode gives the key written if and only if name and key have no white space inside, or, with no key, if the system file has none |
| ConfigFiles.PinNodeOthersIff | internal/server/configwrite.go:111-122 | exactly when a pin leaves another name's local pin as it was |
| AuthorizedKeys.KeyFile.AuthorizeKey | internal/server/configwrite.go:20-43 | an error for an empty key, nothing for a known one, else one line appended to the local file |
| AuthorizedKeys.KeyFile.RevokeKey | internal/server/configwrite.go:47-72 | the file without the lines whose first field is the key, rewritten only if there was one |
| AuthorizedKeys.AuthorizeGrantsIff | internal/server/identity.go:116-154 | for a key nobody had, on any file and with any list and comment: an unreadable key gets nothing; on a blank last line it gets what was asked for; else only what further lines of the new text grant |
| AuthorizedKeys.GrantedIsTheSet | internal/server/identity.go:137-150 | what was asked for is the lower-cased capability set when the list has no white space; no list is unrestricted unless the comment has a caps= field |
| AuthorizedKeys.AuthorizedForExactly | internal/server/identity.go:136-148 | a key nobody had, authorized on a blank last line with any list of entries: exactly the lower-cased non-empty entries, or everything if all is among them or none is left |
| AuthorizedKeys.SystemFileIsRead | internal/server/identity.go:116-154 | the system file is read like the local one where that says nothing |
| AuthorizedKeys.GrantAfterAppend | internal/server/configwrite.go:35-43 | what any key has after any append to any file, line by line |
| AuthorizedKeys.AuthorizeOthers | internal/server/configwrite.go:35-43 | on a blank last line, as in any terminated file, another key has what it had there, else what the further lines of the new text grant |
| AuthorizedKeys.AuthorizeKeepsOthersIff | internal/server/identity.go:116-154 | on any file, with any key, list and comment: another key keeps its capabilities if and only if a line before the last grants it, or the last line with the new text behind it gives, the system file behind both, what the last line gave; the file then ends in a newline |
| AuthorizedKeys.GluedKeyIsLost | internal/server/configwrite.go:35-43 | an unterminated last line that is just another key: that key had everything by it and is denied afterwards |
| AuthorizedKeys.GluedListIsRead | internal/server/identity.go:132-150 | an unterminated last line with more than another key: the key then has what the lengthened list reads |
| AuthorizedKeys.AuthorizeKeepsOthers | internal/server/configwrite.go:28-43 | without a newline in list and comment, on a blank last line, every other key keeps its capabilities |
| AuthorizedKeys.NewlineAuthorizesAnother | internal/server/configwrite.go:32-43 | a comment that ends in a line with another key gives that key everything |
| AuthorizedKeys.RevokeRemovesOneKey | internal/server/configwrite.go:57-71 | the key keeps only what the system file grants it, every other key what it had |
| AuthorizedKeys.TerminatedLastLine | internal/server/configwrite.go:35-43 | every empty or newline-terminated file has a blank last line |
| AuthorizedKeys.RevokeStaysTerminated | internal/server/configwrite.go:57-71 | a terminated or empty file stays so |
| AuthorizedKeys.UnreadableKey | internal/server/identity.go:128-135 | no file grants anything to a key with white space inside or a leading # |
| AuthorizedKeys.GrantOfOne | internal/server/identity.go:128-151 | what a line grants depends on its fields alone |
| ReverseAccepts.Accepts.Enter | internal/server/forward.go:227-230 | the new connection waits; the history stays careful, and everybody is where it says, if and only if the id was not waiting |
| ReverseAccepts.Accepts.Withdraw | internal/server/forward.go:231-236 | after a failed write the connection is closed; its fate is dropped and everybody else is untouched if and only if the entry was its own |
| ReverseAccepts.Accepts.Take | internal/server/forward.go:262-268 | over a careful history: found means that a connection waited under the id and is now claimed; not found means that none did, and nobody's fate changes |
| ReverseAccepts.Accepts.Expire | internal/server/forward.go:239-247 | the reaper turns waiting into reaped and changes no other fate |
| ReverseAccepts.TableIsRight | internal/server/forward.go:222-272 | over every careful history of concurrent handlers, claims of any id and reapers, the table places every connection where its own history says |
| ReverseAccepts.AlwaysOnceIff | internal/server/forward.go:222-272 | over every history the handlers allow: each connection is always in exactly one place if and only if no accept hits a waiting id and no failed write hits an entry that is not its own |
| ReverseAccepts.AssumptionsSuffice | internal/server/forward.go:173-184 | fresh, unguessed ids and failed writes that reached nobody make every history careful |
| ReverseAccepts.EveryFateIsOpen | internal/server/forward.go:222-272 | under the assumptions a new connection can still be claimed, reaped, or have its write fail, after any history |
| ReverseAccepts.ExactlyOnePlace | internal/server/forward.go:222-272 | every accepted connection is pending, claimed, reaped or dropped, exactly one of them |
| ReverseAccepts.ClaimedIsNeverReaped | internal/server/forward.go:238-247 | once claimed, in every continuation it is neither reaped nor dropped nor pending |
| ReverseAccepts.NothingLeaks | internal/server/forward.go:231-248 | when every write failed or its reaper ran, the table is empty |
| ReverseAccepts.LostWithoutFreshIds | internal/server/forward.go:227-230 | from any careful history, an accept under an id that waits leaves the connection that waited nowhere |
| ReverseAccepts.LostForGood | internal/server/forward.go:238-247 | and if its line was written, nowhere in every continuation |
| ReverseAccepts.MisplacedByFailedWrite | internal/server/forward.go:231-236 | from any careful history, a failed write whose entry is not its own closes a claimed connection, or loses the one that has the id now |
| UdpFraming.Reader.ReadUDPFrame | internal/server/fmux.go:191-240 | on any byte stream, without an index out of bounds: the next datagram and the rest, or an error, as the format says, domain names through the resolver |
| UdpFraming.DecodeIff | internal/server/fmux.go:201-240 | the contents of a frame read as a datagram if and only if they spell its address, port and data byte by byte, or a name that the resolver takes to that address |
| UdpFraming.FrameSpells | internal/server/fmux.go:174-187 | what is written is the length, high byte first, and contents that spell the datagram; an IPv4 address in sixteen bytes is written as its four |
| UdpFraming.NoAddressIsWritten | internal/server/fmux.go:176-182 | an address of any other length is left out of the frame, port and data follow at once |
| UdpFraming.Reader.RelayOut | internal/server/fmux.go:124-130 | the daemon sends the datagrams of the stream up to the first error |
| UdpFraming.Reader.RelayBack | internal/server/forward.go:557-577 | the client forwards every frame with three zero bytes in front |
| UdpFraming.WrapPackets | internal/server/forward.go:536-556 | one frame for each packet that is long enough and unfragmented |
| UdpFraming.FrameRoundTripIff | internal/server/fmux.go:174-187 | a frame reads back as its datagram, address in normal form, if and only if the address has 4 or 16 bytes, the port 16 bits, and the frame fits 65535 bytes |
| UdpFraming.FramesRoundTripIff | internal/server/fmux.go:174-240 | concatenated frames parse to the same list, and then to whatever follows, if and only if all datagrams fit |
| UdpFraming.RelayDelivers | internal/server/forward.go:544-555 | for any packets, the targets get exactly the readable ones before the first unreadable one |
| UdpFraming.RequestsArrive | internal/server/forward.go:544-555 | packets as in section 7 of RFC 1928 all arrive, in order |
| UdpFraming.RepliesArrive | internal/server/forward.go:557-577 | replies reach the application as packets of that form, in order |
| UdpFraming.ShortPacketEndsRelay | internal/server/forward.go:545-547 | a packet of 5 to 9 bytes ends the relay |
| UdpFraming.SkippedIsLost | internal/server/forward.go:545-547 | packets without a complete header and fragments are lost, and nothing else |
| FleetState.SortedNodesCopy | internal/server/fleetstate.go:42-55 | a canonical form of the input in fresh memory, nodes and slices, with nothing of the caller changed |
| FleetState.SortByName | internal/server/fleetstate.go:53 | sorts in place by name; all that an unstable sort promises |
| FleetState.NormalCopies | internal/server/fleetstate.go:43-52 | every node with its lists copied and sorted |
| FleetState.CanonicalFleetBytes | internal/server/fleetstate.go:59-65 | the bytes of a canonical form with the signature cleared |
| FleetState.BuildAndSignFleetState | internal/server/fleetstate.go:68-79 | a canonical state with a signature over its canonical bytes |
| FleetState.VerifyFleetState | internal/server/fleetstate.go:82-92 | the check of the carried signature against canonical bytes under the carried key |
| FleetState.DeterminedIff | internal/server/fleetstate.go:42-65 | the canonical form is unique if and only if no two different nodes share a name |
| FleetState.NormalForgetsOrder | internal/server/fleetstate.go:45-52 | two nodes have one normal form if and only if they differ in nothing but the order of their lists |
| FleetState.CanonicalAgain | internal/server/fleetstate.go:57-65 | a canonical form is a reordering of the input and its own canonical form |
| FleetState.VerifiesIffReordered | internal/server/fleetstate.go:82-92 | a state that carries another's signature verifies if and only if it is that state up to the order of nodes, capabilities and tags |
| FleetState.SignedStateVerifies | internal/server/fleetstate.go:68-92 | with distinct names, what is built and signed verifies, whatever sort the verifier uses |
| FleetState.TieCanFailToVerify | internal/server/fleetstate.go:53 | with a tie between different nodes, a sort that keeps its promise can make an unchanged state fail |
| FleetState.PermutedIsReordered | internal/server/fleetstate.go:42-55 | permuting nodes is such a reordering |
| Sessions.Analyze | internal/diff/engine.go:75-132 | the sessions are an analysis of the considered records, LastN a suffix of it; the caller's slice is sorted if there is no age limit and untouched otherwise |
| Sessions.AnalysisMeans | internal/diff/engine.go:75-132 | the considered records fall into sessions cut exactly at another key, another endpoint or a pause longer than the gap; each session tells its records' key, endpoint, times and outcomes; the last LastN of them are reported, all for 0 and less |
| Sessions.ConsideredAre | internal/diff/engine.go:76-90 | the records considered are those of the log that are younger than the age limit, all without one |
| Sessions.Cut | internal/diff/engine.go:96-127 | the loop yields the sessions of a segmentation: neighbours inside a group share key and endpoint within the gap, neighbouring groups do not join |
| Sessions.Filter | internal/diff/engine.go:81-88 | the records after the cutoff, in new memory |
| Sessions.SegmentationIsUnique | internal/diff/engine.go:98-115 | there is only one such segmentation |
| Sessions.AnalysisIsUnique | internal/diff/engine.go:75-132 | so the analysis is a function of the records and the options |
| Sessions.OrderOfLogDoesNotMatter | internal/diff/engine.go:90 | records out of place in the log change nothing, as long as those of one instant keep their order |
| Sessions.LimitTakesTheEnd | internal/diff/engine.go:76-90 | filtering and then sorting takes a suffix of the sorted log |
| Sessions.LimitCutsOneSession | internal/diff/engine.go:76-127 | with an age limit the first session shown is the end of a session of the whole log, and every later one is a session of the whole log |
| Routing.ScoreRouteCandidate | cmd/vssh/mcp_routing.go:129-190 | the score is the weighted count of what is had, missing, liked and avoided, and missing lists exactly what is missing |
| Routing.SelectRoute | cmd/vssh/mcp_routing.go:68-127 | the decision, its candidates in rank order and the mark on the winner; an error for a failed listing |
| Routing.ScoreCounts | cmd/vssh/mcp_routing.go:129-178 | the score as 100, 1000, 10, 20, -10, -50, -1000 and 10000 times what they stand for, counted over the places of the request's lists, case and outer white space aside; missing holds exactly the required capabilities the host lacks |
| Routing.FirstIsBest | cmd/vssh/mcp_routing.go:94-99 | the first of the ranking is a host, and no host scores more, nor as much under a smaller name |
| Routing.RankedInOrder | cmd/vssh/mcp_routing.go:94-99 | the ranking holds every candidate, higher scores first and, among equal ones, names in byte order |
| Routing.ScoreIff | cmd/vssh/mcp_routing.go:137-178 | within the bound, a score of 0 or more if and only if the host has every capability, is not offline or in a state to avoid, is the target if given, and, where nothing is required, has one preferred tag if it is stale and five if it is degraded |
| Routing.RouteIff | cmd/vssh/mcp_routing.go:109-126 | within the bound, a route is found if and only if some host scores 0 or more, and the host chosen is fit and the best |
| Routing.BoundIsExact | cmd/vssh/mcp_routing.go:137-178 | for given lists, every choice is fit for all hosts, avoid lists and targets if and only if 100 R + 10 T + 20 < 1000 |
| Routing.OrderOfHostsDoesNotMatter | cmd/vssh/mcp_routing.go:82-99 | with distinct names the ranking does not depend on the order of the hosts |
| Sorting.AtMostIff | cmd/vssh/mcp_routing.go:94-99 | names are compared character by character: one is at most the other if it is its beginning or smaller where they first differ |

## Left out

- Assumed throughout: SHA-256 and MD5 as uninterpreted functions, collision-free where a result says so; JSON and base64 as injective renderings; all-or-nothing appends to the audit log by one writer at a fixed path; a clock that does not go back; one transfer to a path at a time.
- Audit lines: the 800-byte cut of long commands is part of the record's other fields, which are opaque.
- NetErrors.SafeToRetryIff: the texts of Go's `net`, `io` and `json` errors are taken as listed there, and errors of any other cause (an unreadable reply, an address) are assumed not to contain the phrases of a closed connection.
- PathScope.LiteralGlobScope: is about globs whose resolved path has no wildcard or backslash in it; a symlink to a name with one would be matched as a pattern.
- Lower-casing is ASCII only; `strings.ToLower` and `strings.EqualFold` also fold other alphabets.
- MuxPool.Host.Establish: a connection on which the MUX handshake fails is closed before any command was written and is not modelled as a connection.
- MuxPool.Host.Exec: a caller that waits for the session's mutex is returned as still waiting; that it gets the mutex in the end is not stated.
- AuditChain.WrittenLogVerifies: is about writing and reading whole lines; a disk that fills up in the middle of a line is not modelled.
- Templates.FillParams: the contract names the case of whole-hole templates and plain values; the exact condition, for any command, is in `SubstitutionOrder`, whose results hold for every walk the method can take. Keys with braces in them are not covered.
- RateLimit.RateWindow.RateExceeded: one object per key is modelled; the concurrent map from keys to those objects appears only as a value in the history lemmas.
- PathOpening.AgreeIff: a name that does not exist stays as it is, where the operating system would fail to go through it; the working directory is where it is on disk; creating missing directories is not modelled.
- PathScope.PathAllowed: everything but a trailing subtree pattern goes to an arbitrary function that stands for `filepath.Match`; a failing `filepath.Abs` is not modelled.
- Staging.Disk.HandleResume: failing opens of the partial file are not modelled; a failing copy and a failing rename are.
- Staging.Upload: the local file keeps its size while it is sent; a READY line shorter than five bytes, on which the client would panic, is not modelled.
- AuthorizedKeys.KeyFile.AuthorizeKey and the other file writers: failing writes, the backup file, and the difference between a missing and an unreadable file are not modelled; an upsert treats an unreadable file as missing, as the code does.
- ReverseAccepts.TableIsRight: the handlers appear as their critical sections, and the order of statements that links those is the predicate `Possible`, which their preconditions take up; the listener, the control connection's reader and the byte copying after a claim are not modelled.
- UdpFraming.Reader.ReadUDPFrame: the resolver is an arbitrary function; partial reads of the stream are hidden behind `io.ReadFull`.
- UdpFraming.RepliesArrive: the code drops replies that come before the application's first packet; here the application is known.
- FleetState.VerifiesIffReordered: the signature scheme is ideal, and the JSON encoder is injective, which holds for valid UTF-8.
- Sessions.Analyze: session summaries, headlines and the parsing of log lines are not modelled; differences of times do not saturate.
- Routing.ScoreRouteCandidate: the list of reasons is not modelled; the lists of a host are taken as already normalised.
- `RunMux`, `HandleSync`, `HandlePutZ`, `HandleMPut`, `HandlePipeUp` and the GETM/GETC handlers (which internal/server/server.go:228 shadows) are not modelled: they make none of these promises.
- Regular-expression command rules, TLS, key exchange, the terminal, RPC probes, node discovery, peer loading, the MCP schema tables, the SDK and the installers are not modelled.

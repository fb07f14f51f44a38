# Verified models of VMLord

These Dafny files model the parts of VMLord whose behaviour spans many functions or unbounded runs, and prove what those
parts are for. `dafny verify dfyconfig.toml` checks the whole project.

| module | what it models |
|---|---|
| `Calendar`, `Timestamp`, `FileStamps` | the log writer's calendar, stamps and file names, and the update scheduler's reader of the same stamps |
| `Handshake`, `Frame`, `Session`, `SessionOrder`, `SessionTurns` | the agent protocol: negotiation, framing over an arbitrary transport, the agent's session, the order it keeps, and what it does turn by turn |
| `UpdateManager`, `UpdateRuns` | the application's updater: client calls, one worker thread, a channel, cancellation, the installer launch; and what its runs bring about |
| `GpuTargets`, `MountInfo`, `MountLog`, `GpuMounts` | where shares are mounted, the kernel's mount table, the log of what was asked of the kernel, and the reconciler between them |
| `DisplayLog`, `DisplayStages`, `DisplayMeaning`, `DisplayUpdate` | the display update with its rollback: the log of what it ran and saw, what each stage leaves in it, what that means, and the update itself |
| `StageReport` | the reports recipes and probes answer with |
| `Shutdown` | the reconnect loop and the signal handler that share two atomics |
| `Diagnostics`, `GuestFiles` | the bounded diagnostics history, and the idempotent tree copy |
| `Outcomes` | bytes, options and results |

Code that changes things step by step is modelled by classes and methods, each proved against a function or a statement of
its whole new state; the laws are then lemmas about those functions over every input, every script of the outside world and
every run. What the outside world does (transports, hosts, programs, file systems, kernels) is an arbitrary script, oracle
or nondeterministic choice. HMAC is an arbitrary function, and of the protobuf encoding only one law is used: decoding
undoes encoding.

## What the proofs found

- Stamps are read back exactly until the end of the year 9999. From the year 10000 on the reader refuses every stamp the
  writer makes (`ParseUndoesTimestamp` says both). Log file names sort among dates of equally many digits; between dates of
  different lengths the order is lost exactly when the shorter date is more than the longer one cut to its length
  (`FileStampsStopSorting`). Names stay distinct for ever (`FileStampsAreDistinct`).
- A session can start after the stop signal: when the signal is handled between the second look at the flag and the start of
  the session (`ASessionCanStartAfterTheSignal`). That window is the only one, and the connection is shut down by then
  (`SessionsStartedWhileStopping`), so no session starts on a live connection after the signal.
- A rollback can return to the very version it has just removed, exactly when that version was the loaded one when the update
  began (`RollbackToTheAttempted`). The update then says it rolled back only if that version was seen running afterwards,
  as it is in `RollsBackToItself`.
- `crates/agent-protocol/proto/vmlord/agent/v1/agent.proto:574` describes a failed update as one where neither version runs.
  It can leave one running, and when is exact, as far as the guest looked. The last look of a failed update found some
  version loaded, and nothing unloaded it since, if and only if the update ends on a services program that failed, on a
  version that does not verify, or on a version found loaded and then no device or a shutdown under way. That version is
  also on a device seen present if and only if its services failed after it had verified, or the update ends unverified
  and there was nothing to return to or the module would not be unloaded (`RunUpdate`). A world for each:
  `FailsWithoutServices`, `FailsUnverified`, `FailsStillLoaded`, and `FailsBeforeItStarts` for an update refused before
  anything is run.
- A request that comes in place of the hello's answer or of the challenge is refused once before the session ends; a
  challenge whose nonce has the wrong length is not answered at all (`UnansweredRequests`).
- Attaching GPU shares also unmounts whatever lies at the merged library view, `/usr/lib/wsl/lib`, before building it again,
  so a 9p mount of someone else's at exactly that path is not left alone (`Guest.AttachShares` names that path as the
  one exception).
- A backslash, a plus and two octal digits in the mount table are read as an escape, because the number parser lets a plus
  through; the kernel writes none (`EscapesAreBytes`).
- If the mount table cannot be read, nothing is swept: outside the manifest and the merged view the table stays as it was, so
  stale shares stay (`Guest.AttachShares`).
- The copy's answer that something changed can be wrong, the answer that nothing did cannot: a destination file that is equal
  but cannot be read is written again and counted as a change. `FileSystem.CopyTree` says exactly when, and
  `ChangedThoughEqual` shows it.

## Model

| member | source | states |
|---|---|---|
| Calendar.CivilFromDaysIsThatDay | crates/core/src/logging.rs:244-266 | every day number, negative ones included, becomes a valid Gregorian date, and that date's day count, by the 4/100/400 definition, is the number again |
| Calendar.DayNumberRoundTrip | crates/core/src/logging.rs:237-266 | the other direction: every valid date comes back from its own day count |
| Calendar.NextDayIsNextDate | crates/core/src/logging.rs:240-266 | the next day number is always the next calendar date, across months, leap days, years and eras |
| Calendar.DatesOrderedAsDays | crates/core/src/logging.rs:241-266 | dates are ordered, and equal, exactly as their day numbers are |
| Calendar.YearOfEraIsExact | crates/core/src/logging.rs:252-256 | the year-of-era formula finds the one year whose days hold the day, and the day's place in it, for all 146,097 days |
| Calendar.MarchDateIsThatDay | crates/core/src/logging.rs:257-265 | the two linear month formulas place a day of a March-based year on a valid date with the right day count |
| Timestamp.ParseUndoesTimestamp | crates/core/src/logging.rs:182-241 | reading back a printed instant gives it truncated to the millisecond (the epoch for earlier instants) exactly when the year has four digits; otherwise it is refused |
| Timestamp.TimestampUndoesParse | crates/app/src/lib.rs:1099-1163 | for every text the reader accepts, printing the instant it read gives back that very text |
| Timestamp.InstantOfFields | crates/app/src/lib.rs:1122-1154 | the reader accepts exactly the valid date and time fields from 1970 on, and its leap-count formula gives the calendar's own instant, with no overflow |
| Timestamp.AtIsTheInstant | crates/core/src/logging.rs:219-241 | the printed fields are valid and count, by the calendar's definition, to the instant's milliseconds |
| Timestamp.DecimalReadsValue | crates/app/src/lib.rs:1157-1163 | over digits of any number, the left-to-right checked fold reads exactly what they stand for, and gives up exactly on anything but digits and on what does not fit in 64 bits |
| FileStamps.FileStampsSortByTime | crates/core/src/logging.rs:198-214 | any two instants whose dates have equally many digits have stamps that compare bytewise exactly as their milliseconds do |
| FileStamps.FileStampsAreDistinct | crates/core/src/logging.rs:191-214 | over all instants, two milliseconds never share a stamp |
| FileStamps.FourDigitYears | crates/core/src/logging.rs:198-214 | dates have eight digits exactly through the year 9999, so that is how far the order holds from the epoch on |
| FileStamps.FileStampsStopSorting | crates/core/src/logging.rs:200-211 | of any two instants, the later one sorts first exactly when the earlier date has fewer digits and is, as a number, more than the later one cut to its length |
| FileStamps.FileStampIsTheStamps | crates/core/src/logging.rs:182-214 | through the year 9999 a file is named after the very digits of its stamp: the date, a dash, the time, a dash, the milliseconds |
| Handshake.NegotiatedRevision | crates/agent-protocol/src/handshake.rs:48-63 | negotiation succeeds exactly for equal majors, symmetrically, and settles on a revision no newer than either peer; a refusal names both |
| Handshake.ConfirmsWhatIsNegotiated | crates/agent-protocol/src/handshake.rs:91-111 | the agent confirms a revision if and only if some host could have negotiated it with this agent, and confirms it unchanged |
| Handshake.AgreedIsTheIntersection | crates/agent-protocol/src/handshake.rs:70-82 | the agreed list holds exactly the capabilities in both offers, never Unspecified |
| Handshake.AgreedInLocalOrder | crates/agent-protocol/src/handshake.rs:70-82 | each local capability is kept or left out where it stands, so the local order and multiplicity are kept |
| Handshake.ConfirmedCapabilities | crates/agent-protocol/src/handshake.rs:120-141 | confirmation succeeds exactly when every chosen value was offered, returns them name for name, and otherwise names the first that was not |
| Handshake.AgreementIsConfirmed | crates/agent-protocol/src/handshake.rs:66-141 | confirming what two peers agreed on always succeeds with the same list, which lies within both offers |
| Handshake.ConfirmsOnlyAgreements | crates/agent-protocol/src/handshake.rs:114-141 | whatever list the agent confirms, some host could have arrived at by agreeing |
| Handshake.WireRoundTrip | crates/agent-protocol/proto/vmlord/agent/v1/agent.proto:95-106 | capabilities travel by their numbers, and no other number names one |
| Frame.FramingRoundTrip | crates/agent-protocol/src/frame.rs:46-168 | however the transport splits, interrupts or idles between frames, reading gives exactly the framed envelopes in order, one idle answer per timeout, then the clean end |
| Frame.ReadsStopAtBoundaries | crates/agent-protocol/src/frame.rs:121-168 | over any transport, idle and closed have taken no byte off the stream, and an envelope has taken exactly its prefix and announced body |
| Frame.IdleIsBetweenFrames | crates/agent-protocol/src/frame.rs:139-168 | over any transport, after any run of good reads the bytes taken are whole frames, exactly one per envelope, so an idle moment is always between two frames |
| Frame.FillConserves | crates/agent-protocol/src/frame.rs:139-168 | filling a buffer takes bytes off the front of the stream, losing and inventing none, whatever the splits and interruptions; one that falls short has taken exactly as many as it says |
| Frame.ReadsSayWhatHappened | crates/agent-protocol/src/frame.rs:62-168 | over any transport and any stream a read is told by the bytes delivered before the transport ends, goes quiet or fails: closed, idle or failed exactly when that comes before any byte; the envelope, or that it cannot be decoded, exactly when a prefix within the cap and all it announces come; too large on the prefix alone; and otherwise the end of the connection |
| Frame.LowestByteFirst | crates/agent-protocol/src/frame.rs:46-60 | the length prefix is the positional value of its bytes, the lowest first |
| Frame.Reader.ReadPrefix | crates/agent-protocol/src/frame.rs:139-168 | the loop over short reads computes the specified fill, and reports closed or idle only before the first byte |
| Frame.Reader.ReadEnvelope | crates/agent-protocol/src/frame.rs:121-137 | one read leaves the transport and returns the answer exactly as the specified frame read does |
| Frame.Writer.EncodeInto | crates/agent-protocol/src/frame.rs:46-60 | the buffer ends up holding exactly the frame, or untouched when the body is over the cap |
| Frame.Writer.Write | crates/agent-protocol/src/frame.rs:101-109 | the wire stays exactly the frames of the envelopes sent; too large a body writes nothing; a failed write leaves at most the front of one frame |
| Session.SessionsAreGated | crates/agent/src/session.rs:89-336 | over every host: no tag, session or handler call without a confirmed hello; otherwise the session opens once, right after the tag that answers the challenge just read, and every later call and answer is under the agreed capabilities and revision |
| Session.TagsAnswerChallenges | crates/agent/src/session.rs:144-184 | over every host and at every place of the trace: a tag is the tag of the 32-byte nonce of the challenge received just before it, under that challenge's id |
| SessionTurns.OpensExactlyWhen | crates/agent/src/session.rs:89-184 | a session opens if and only if the hello gets out, its answer is one some host could have come to with this agent, and a fair challenge can be answered; and the trace then begins with exactly these five actions, under the version and capabilities of the answer |
| SessionTurns.HelloIsAccepted | crates/agent/src/session.rs:360-371 | a hello answer is accepted exactly when some host, of whatever revision and offer, could have negotiated it, and as it is |
| SessionTurns.FailsToOpen | crates/agent/src/session.rs:103-184 | for every host that opens no session: exactly what was exchanged and the one error it ends with |
| SessionTurns.ServesTurnByTurn | crates/agent/src/session.rs:186-336 | every turn of a session does what the trace so far and the message call for and adds it to the trace: a heartbeat of the next number when idle and none is open, the end when one is, exhausted ids, an accepted answer, the host's error, a refusal, each with its result; and what ends the session ends it for good |
| SessionTurns.RequestsAreServed | crates/agent/src/session.rs:217-336 | every request read in a session is followed by exactly the one call it is for and then by its answer, under its own id, with what that handler gave on that turn; or by its refusal alone, if and only if it is unknown, out of place or not among the agreed capabilities; or, where the answer cannot be written, by the call and nothing more |
| SessionOrder.SessionsStayInOrder | crates/agent/src/session.rs:89-336 | over every host and at every moment: the requests read are those answered, in order and each once under its own id, and at most one more; heartbeats are numbered 2, 3, 4 and on without wrap, and those sent are those accepted, in order, and at most one more |
| SessionOrder.UnansweredRequests | crates/agent/src/session.rs:103-336 | when a connection is over, a request is unanswered if and only if the turn it ended on read one and could not write, or read a challenge whose nonce has the wrong length; and it is that one |
| SessionOrder.EveryRequestIsAnswered | crates/agent/src/session.rs:103-336 | with no failing write and no such challenge, the requests read are exactly the ones answered |
| SessionOrder.AnswersFollowRequests | crates/agent/src/session.rs:217-336 | any trace the ledger allows answers its requests in order, but for the open one |
| SessionOrder.AcceptedFollowSent | crates/agent/src/session.rs:196-232 | any such trace accepts heartbeats in the order they were sent, but for the open one |
| SessionOrder.SentAreConsecutive | crates/agent/src/session.rs:196-213 | any such trace numbers its heartbeats without gaps, short of the end of the range |
| SessionOrder.ServingKeepsLedger | crates/agent/src/session.rs:186-336 | the serving loop keeps a ledger of one open request and one open heartbeat from any turn on, and leaves a request open exactly when the turn it ends on reads one and cannot write |
| Session.ServingIsGated | crates/agent/src/session.rs:217-336 | every handler the serving loop calls is under an agreed capability, and no answer below minor 8 carries what needs minor 8 |
| Session.CompatibleReport | crates/agent/src/session.rs:341-358 | below minor 8 no Initramfs stage and no RebootRequired outcome is left, every other stage and outcome is; from minor 8 on, or with neither, the report is as it was; the versions always are |
| Session.InitramfsIsGone | crates/agent/src/session.rs:341-351 | the filter takes every stage for itself: an Initramfs stage goes, any other stays where it was |
| Session.AgreementIsMutual | crates/agent/src/session.rs:360-371 | a confirmed session runs a revision no newer than this build and only capabilities both named |
| SessionOrder.HeartbeatsAreSentWhenIdle | crates/agent/src/session.rs:196-213 | every heartbeat in the trace is the first thing sent on a turn whose read found the connection idle; what precedes it is what the earlier turns alone bring about |
| SessionOrder.HeartbeatsAreBetweenFrames | crates/agent/src/session.rs:196-213 | joined with the framing: on any transport, when a heartbeat is sent the bytes taken off the stream are whole frames of the host, one per envelope read |
| Session.Connection.Greet | crates/agent/src/session.rs:103-142 | the hello exchange does exactly what its specification does, message for message and error for error |
| Session.Connection.Authenticate | crates/agent/src/session.rs:144-184 | the challenge exchange does exactly what its specification does, of which `TagsAnswerChallenges` and `FailsToOpen` say what that is |
| Session.Connection.TakeTurn | crates/agent/src/session.rs:195-335 | one pass of the loop is exactly one specified turn, and appends exactly its actions |
| Session.Connection.TakeMessage | crates/agent/src/session.rs:215-335 | what the loop does with a message is exactly what its specification does, of which `RequestsAreServed` and `ServesTurnByTurn` say what that is |
| Session.Connection.Serve | crates/agent/src/session.rs:186-336 | the whole loop is exactly the specified run over the rest of the script |
| Session.Connection.Run | crates/agent/src/session.rs:89-101 | a connection is exactly the specified session, and the caller learns of a session exactly when the trace opens one |
| UpdateManager.ChannelExactlyWhileWorking | crates/app/src/update.rs:97-363 | in every interleaving a channel exists exactly while checking or downloading, and the installer was launched at most once, exactly when installing |
| UpdateManager.ReadyIsForGood | crates/app/src/update.rs:131-306 | once ready, the update and the installer never change, whatever is called afterwards |
| UpdateManager.CancelledNeverReady | crates/app/src/update.rs:185-306 | a download whose cancel was accepted stays cancelled and ends in the same update on offer or a stopped worker, never in Ready |
| UpdateManager.ReadyComesFromADownload | crates/app/src/update.rs:231-306 | Ready is entered only by polling a download of that update that reported that installer and was not cancelled |
| UpdateManager.FailuresAreReportedOnce | crates/app/src/update.rs:231-306 | work fails only in a poll, which then reports exactly one failure with the state's message; a cancelled download fails only by its worker stopping |
| UpdateManager.FinishedWorkIsCollected | crates/app/src/update.rs:231-306 | a finished or dead worker is let go of by the next poll, with its channel and cancel flag |
| UpdateRuns.ChecksComeBack | crates/app/src/update.rs:124-143 | whatever is interleaved: the poll after a check's worker has answered leaves the update it found on offer, or the manager idle, or the failure shown and reported; and one whose worker died is reported as stopped |
| UpdateRuns.DownloadsComeBack | crates/app/src/update.rs:145-183 | whatever is interleaved: the poll after a download's worker has reported leaves the installer it fetched ready, or its failure shown and reported, unless a cancel came since the start; then exactly its update is on offer again and nothing is reported |
| UpdateRuns.DeadDownloadsAreReported | crates/app/src/update.rs:231-256 | a download whose worker dies, before or after it fetched, is shown and reported as stopped by the next poll |
| UpdateRuns.ProgressIsShown | crates/app/src/update.rs:308-326 | while its worker is at work, a poll shows the progress the download published last |
| UpdateRuns.UpdatesGoThrough | crates/app/src/update.rs:124-306 | any run that checks, finds an update, downloads it without a cancel or a failure and installs it, whatever else is interleaved, ends with that very update being installed from the file that was fetched, and one launch |
| UpdateRuns.ChecksStart | crates/app/src/update.rs:124-143 | in every reachable state: a check is accepted exactly when the manager is idle or failed, has a runtime and gets its thread; each refusal has its own exact condition and changes nothing |
| UpdateRuns.DownloadsStart | crates/app/src/update.rs:145-183 | a download is accepted exactly with an update on offer, a runtime and a thread, and is of that update; each refusal has its own exact condition and leaves what is shown |
| UpdateRuns.CancelsAreAccepted | crates/app/src/update.rs:185-195 | a cancel is accepted exactly while downloading |
| UpdateRuns.InstallsAreLaunched | crates/app/src/update.rs:197-229 | the installer is launched exactly when one is ready, none was launched, there is a runtime and the launch works; a failed launch leaves it ready |
| UpdateManager.Manager.StartCheck | crates/app/src/update.rs:131-150 | the new state and the answer are those of the specification, in every state |
| UpdateManager.Manager.Download | crates/app/src/update.rs:152-183 | the same for starting a download, its refusals and a worker that cannot be started |
| UpdateManager.Manager.Cancel | crates/app/src/update.rs:185-195 | the same for asking a download to stop |
| UpdateManager.Manager.Install | crates/app/src/update.rs:197-229 | the same for launching the installer, once |
| UpdateManager.Manager.Poll | crates/app/src/update.rs:231-306 | the loop over the channel's events reaches the specified state and reports the specified failures |
| UpdateManager.Manager.Apply | crates/app/src/update.rs:258-303 | an event leads to exactly the specified state and failure |
| GpuTargets.Plan | crates/agent/src/gpu_targets.rs:94-125 | length and order are kept; each share is planned at its target, refused as a duplicate exactly when an earlier planned share holds that target, and otherwise refused for its own reason |
| GpuTargets.PlanIsUnique | crates/agent/src/gpu_targets.rs:94-125 | a manifest has exactly one plan that meets that statement |
| GpuTargets.PlanTargets | crates/agent/src/gpu_targets.rs:94-179 | planned targets are managed, pairwise distinct and never inside one another |
| GpuTargets.TargetsByRole | crates/agent/src/gpu_targets.rs:127-146 | for each role exactly which target it has, and for each refusal exactly when it is given, in the order the checks are made |
| GpuTargets.ManagedPathsAreTargets | crates/agent/src/gpu_targets.rs:181-186 | the managed paths are exactly the targets there can be and the children of the driver root no package can name |
| GpuTargets.RolesTravel | crates/platform/src/agent_session.rs:644-657 | a role means to the guest what the host meant, and a number that is no role means none |
| GpuTargets.HostSharesHaveTargets | crates/platform/src/agent_session.rs:644-657 | where each kind of share the host sends is mounted in the guest |
| GpuTargets.HostPackagesHaveTargets | crates/core/src/gpu.rs:426-445 | the host builds a share for exactly the package names the guest accepts, and the share it sends has its package's directory as target |
| GpuTargets.DistinctPackages | crates/platform/src/agent_session.rs:644-657 | distinct packages get distinct share names and distinct targets in the guest |
| MountInfo.Unescape | crates/agent/src/gpu_mountinfo.rs:62-84 | the loop over backslashes computes the specified unescaping |
| MountInfo.UnescapeUndoesEscape | crates/agent/src/gpu_mountinfo.rs:53-84 | for every path and every set of escaped characters that includes the backslash, unescaping undoes the kernel's octal escaping |
| MountInfo.NothingToUnescape | crates/agent/src/gpu_mountinfo.rs:62-84 | a field in which no backslash starts an escape stands for itself |
| MountInfo.EscapesAreBytes | crates/agent/src/gpu_mountinfo.rs:67-72 | an escape is three octal digits that fit in a byte, or two after a plus, which the number parser lets through |
| MountInfo.LineIsRead | crates/agent/src/gpu_mountinfo.rs:32-51 | any well-formed line, whatever optional fields it carries, is read as exactly its 9p entry or as none |
| MountInfo.AnyLineIsRead | crates/agent/src/gpu_mountinfo.rs:32-51 | any line with a separator names a mount exactly when it has five fields before it and three after it of which the first is 9p; the fifth is the path and the third holds the share |
| MountInfo.SeparatorIsTheFirst | crates/agent/src/gpu_mountinfo.rs:36 | the separator is the first hyphen between spaces, and a line is cut there or has none |
| MountInfo.ReturnsAreDropped | crates/agent/src/gpu_mountinfo.rs:28-30 | a line that ends in a carriage return is read without it |
| MountInfo.LastLineIsRead | crates/agent/src/gpu_mountinfo.rs:28-30 | a last line that nothing ends is read as it is |
| MountInfo.NoNameWithoutAname | crates/agent/src/gpu_mountinfo.rs:45-50 | without an aname the share has no name |
| MountInfo.TableIsRead | crates/agent/src/gpu_mountinfo.rs:28-60 | any well-formed table is read as exactly its 9p entries, in order, with real paths and share names |
| MountInfo.UnreadableLineIsSkipped | crates/agent/src/gpu_mountinfo.rs:28-60 | a line that cannot be read, for whatever reason and wherever it stands in any text, costs the table that line and nothing else |
| MountInfo.ShareNamesTravel | crates/agent/src/gpu_mountinfo.rs:40-51 | the name of any share this agent can mount is read back from the table as it was |
| GpuMounts.Reconcile | crates/agent/src/gpu_mounts.rs:253-276 | each planned share becomes a step that knows what its path carries, in order, and exactly the managed, unplanned mounts are stale |
| GpuMounts.ParsedTableLists | crates/agent/src/gpu_mounts.rs:472-480 | what is parsed out of the kernel's text lists exactly the guest's 9p mounts |
| GpuMounts.ComponentsOfPath | crates/agent/src/gpu_mountinfo.rs:36 | the components a path is compared by are read back out of its text |
| GpuMounts.Guest.ReadMountTable | crates/agent/src/gpu_mounts.rs:472-480 | reading the text gives that list, and nothing when the text cannot be read |
| MountLog.WhyAShareFails | crates/agent/src/gpu_mounts.rs:292-330 | what is done about one share ends in a read-back that works exactly when it is reported mounted; it fails exactly when its directory could not be made or two mounts in a row failed or did not read back; what failed is in the log; one already there that reads back is left alone |
| GpuMounts.Guest.AttachOne | crates/agent/src/gpu_mounts.rs:285-330 | what one share's attach asks of the kernel is told in full: looked at when it is already there, its directory made, what is there cleared away, mounted, read back, taken away again when it does not read back, and tried once more; only its path is touched, and reported mounted means the path carries it |
| GpuMounts.Guest.MergeWslLib | crates/agent/src/gpu_mounts.rs:107-204 | the merged view is unmounted first and made again exactly when there are layers, its directory can be made and the overlay mounted; nothing else is touched, and what it then holds is exact |
| GpuMounts.Guest.AttachShares | crates/agent/src/gpu_mounts.rs:60-105 | over every oracle: the log holds the whole story of each share, stale unmounts, the merged view, and nothing else; reported mounted is what the path carries at the end; where nothing is refused everything planned is mounted and the view is there; with working unmounts, no managed share outside the manifest is left if and only if the mount table could be read or none was there before; a guest already as asked, whose mounts read back, sees no 9p mount or unmount |
| GpuMounts.LayersAndLibraries | crates/agent/src/gpu_mounts.rs:151-172 | the layers are exactly the mounted halves of the userspace, Microsoft's before the host's, and the linker searches exactly the other mounts and the view |
| GpuMounts.ViewIsOfTheRoles | crates/agent/src/gpu_mounts.rs:120-157 | the merged view has a half's layer exactly when a share of that half's role is reported mounted |
| GpuMounts.AttachTwice | crates/agent/src/gpu_mounts.rs:60-105 | a second attach of the same manifest, when what is there reads back, performs no 9p mount or unmount and reports the same |
| DisplayUpdate.RunUpdate | crates/agent/src/display_kernel.rs:394-464 | over every world: the log is exactly what was looked at and then every stage's programs and answers; the programs are run in the order `RunsInOrder` gives; each outcome says no more than what was seen (`Shown`); and what a failed update leaves loaded, and on its device, is given exactly (`LeftBehind`) |
| DisplayMeaning.UpdateShows | crates/agent/src/display_kernel.rs:394-464 | Updated and RolledBack only with that version seen loaded on a device; RebootRequired only with the module seen in use and nothing removed; only the target is ever removed; an update that verified fails exactly when its services did; after a failure some version was last found loaded, with nothing unloading it since, if and only if it ends on failed services, on a version that does not verify, or on one found loaded and then no device; and that on its device if and only if services failed after verification, or it ends unverified with nothing to return to or a module that would not be unloaded |
| DisplayMeaning.UpdateRunsInOrder | crates/agent/src/display_kernel.rs:394-520 | an update that verifies, or stops for a reboot, has staged the sources, built the target unless DKMS had it, made the boot image anew where it can, and unloaded and loaded the module, in that order; one that failed with a version to return to ends with exactly: unload, remove the target, load, make the boot image anew |
| DisplayMeaning.PreparingShows | crates/agent/src/display_kernel.rs:404-424 | before an update starts nothing is run, and what is found loaded is what is known to be |
| DisplayMeaning.InstallShows | crates/agent/src/display_kernel.rs:427-437 | installing works exactly when nothing it needs failed last, touches nothing that is loaded, and leaves the version installed |
| DisplayMeaning.TryShows | crates/agent/src/display_kernel.rs:425-440 | an attempt that succeeds has seen the target running and installed; one that needs a reboot has seen the module in use; one that fails leaves what its last look says; none removes a version |
| DisplayMeaning.RollbackShows | crates/agent/src/display_kernel.rs:466-520 | a rollback removes the attempted version alone; the version wanted back is seen running if and only if it is reported back; and when it is not, what was left loaded, and on its device, is exact |
| DisplayUpdate.StillLoaded | crates/agent/src/display_kernel.rs:466-520 | in every world where the target does not verify, will not be unloaded and goes on being found, the update fails and leaves it running |
| DisplayUpdate.BackAgain | crates/agent/src/display_kernel.rs:466-520 | in every world where the target does not verify and the old version is found again once the module was loaded after the removal, the update rolls back to it |
| DisplayUpdate.FailsWithoutServices | crates/agent/src/display_kernel.rs:440-449 | a world in which the target verifies and runs and the update still fails |
| DisplayUpdate.FailsUnverified | crates/agent/src/display_kernel.rs:455-478 | a world in which the first version a guest gets runs without its services and the update fails |
| DisplayUpdate.FailsStillLoaded | crates/agent/src/display_kernel.rs:466-520 | a world in which the target does not verify, cannot be unloaded for the rollback, and is still loaded on its device when the update fails |
| DisplayUpdate.FailsBeforeItStarts | crates/agent/src/display_kernel.rs:404-424 | a world in which the update fails before anything is run, with the old version seen loaded |
| DisplayUpdate.RollBack | crates/agent/src/display_kernel.rs:466-520 | the log of a rollback, event by event: unload, remove the attempted version, load, make the boot image anew where the guest can, and look for the version wanted back; with none to return to nothing is run; a world that goes on finding one version after the reload ends rolled back exactly when that is the one wanted |
| DisplayUpdate.TryTarget | crates/agent/src/display_kernel.rs:415-464 | the log of an attempt is exactly its stages', each stopping at the first thing it cannot do without; a world that has what an attempt needs is asked about its services |
| DisplayUpdate.ReloadModule | crates/agent/src/display_kernel.rs:1721-1744 | a reboot is asked for exactly when unloading failed and the module is still there, with nothing loaded over it; otherwise the module is loaded, and that decides |
| DisplayUpdate.Verify | crates/agent/src/display_kernel.rs:1809-1822 | the log of a verification, event by event: the device, what is loaded, and the services, each only if the one before was as it should be |
| DisplayUpdate.PreviousIsAnother | crates/agent/src/display_recipe.rs:188-201 | the previous version is the first listed other than the current, and there is none exactly when no other is listed |
| DisplayUpdate.RollbackToTheAttempted | crates/agent/src/display_kernel.rs:466-480 | a rollback returns to the version it removes exactly when that was loaded before the update |
| DisplayUpdate.RollsBackToItself | crates/agent/src/display_kernel.rs:466-520 | a world in which the update removes the target and rolls back to it |
| DisplayUpdate.RollsBack | crates/agent/src/display_kernel.rs:466-520 | a world in which the old version comes back only because the module is loaded again after the target's removal |
| DisplayLog.LoadedNowMeans | crates/agent/src/display_kernel.rs:1721-1822 | what counts as left loaded: a look found that version, and no later look, and no successful unloading, said otherwise |
| DisplayUpdate.ServicesStages | crates/agent/src/display_kernel.rs:1863-1960 | the log of putting the services in place, event by event: the account, what needs installing, the start; it works exactly when nothing of it fails |
| StageReport.FinishedReport | crates/agent/src/display_recipe.rs:75-95 | a finished report is each listed step once, in the fixed order, with its first answer or the reason, after only what is not listed |
| StageReport.SortingArranges | crates/agent/src/display_recipe.rs:92-94 | the stable sort by position gathers the stages position by position, keeping their order within each |
| StageReport.FirstAnswerStands | crates/agent/src/gpu_recipe.rs:62-82 | whatever is recorded later, and however the report is closed, a step is read with its first answer |
| StageReport.Report.Record | crates/agent/src/display_recipe.rs:75-85 | the report is exactly the first answers of everything recorded |
| StageReport.Report.Finish | crates/agent/src/display_recipe.rs:88-95 | the loop of skips and the sort give exactly the expected report |
| StageReport.RecordSigningKey | crates/agent/src/display_kernel.rs:742-748 | a failed re-signing is what the host reads for the signing key, although the stage then records that it went well |
| StageReport.RecordResigning | crates/agent/src/display_kernel.rs:906-931 | re-signing records a failure exactly when some rebuild failed, and stops there |
| DisplayUpdate.ReportSigningKey | crates/agent/src/display_kernel.rs:659-748 | the signing key stage of the update, writing into such a report: the host reads a failure exactly when some rebuild of this stage failed, as its log shows |
| DisplayUpdate.ResignInstalledVersions | crates/agent/src/display_kernel.rs:906-931 | the installed versions are built again, in the order listed, until a build fails |
| DisplayMeaning.RebuildsInOrder | crates/agent/src/display_kernel.rs:906-931 | each version rebuilt is built and then installed, and one that fails to build is the last thing done |
| DisplayMeaning.SigningShows | crates/agent/src/display_kernel.rs:659-770 | the signing key stage runs nothing but what makes a key and rebuilds, and its failed builds are those reported |
| Shutdown.AlwaysInv | crates/agent/src/main.rs:155-283 | in every run, with signals taken between any two steps, nested, and on helper threads: the published descriptor is the stream's own, and a stop in a session is either already delivered or pending in a handler |
| Shutdown.NeverWakesAnother | crates/agent/src/main.rs:155-163 | the handler never shuts down a descriptor the stream has given up |
| Shutdown.NeverBlockedOnALiveConnection | crates/agent/src/main.rs:213-283 | once the flag is set and the handlers are done, a session is only ever on a shut connection, where a read returns |
| Shutdown.SomeHandlerWillWake | crates/agent/src/main.rs:155-163 | until then some handler is still to wake it |
| Shutdown.SessionsStartedWhileStopping | crates/agent/src/main.rs:226-240 | a session starts with the flag set exactly when it was set after the second look at the flag, and then on a connection already shut |
| Shutdown.ASessionCanStartAfterTheSignal | crates/agent/src/main.rs:229-240 | that window is real: a run in which a session starts after the signal |
| Shutdown.AtMostOneThingMore | crates/agent/src/main.rs:179-206 | after the signal at most one connect completes, or one session starts, or one slice is slept out, and never two of them |
| Shutdown.StopsAreNeverStuck | crates/agent/src/main.rs:179-283 | with a stop under way and handled, the main thread can always take a step until its end |
| Shutdown.StopsInTheEnd | crates/agent/src/main.rs:155-283 | from the moment the flag is set, whatever handlers are still at work, every interleaving of signals, handlers, host and main thread in which the main thread keeps stepping comes to the end |
| Shutdown.PendingAdvances | crates/agent/src/main.rs:155-283 | while a stop is still pending in a handler, all the main thread can do is work that runs out |
| Shutdown.OthersDoNotHinder | crates/agent/src/main.rs:155-163 | no further signal, handler step or host step undoes a stop or takes the main thread farther from its end |
| Shutdown.StopsAdvance | crates/agent/src/main.rs:179-283 | every step of the main thread takes it nearer to its end |
| Shutdown.HandledIsStopped | crates/agent/src/main.rs:155-163 | once the handlers are done, a stop has reached the session there is |
| Shutdown.WaitsOutTheDelay | crates/agent/src/main.rs:194-207 | unless it is stopping, the agent connects again only after exactly as many slices as its delay takes |
| Shutdown.EndsOnlyForAStop | crates/agent/src/main.rs:165-193 | the agent ends only with the flag set |
| Shutdown.SessionsEndBecause | crates/agent/src/main.rs:209-260 | a session is left exactly when a read ends, on a connection shut or closed by the host, or something fails |
| Shutdown.MessagesAreReadOnce | crates/agent/src/main.rs:209-260 | on every connection the messages read and those unread are those that came |
| Shutdown.ShutsOnlyForAStop | crates/agent/src/main.rs:155-163 | a connection is shut, and a handler past its first step exists, only with the flag set |
| Shutdown.ReadsOnWhenDone | crates/agent/src/main.rs:209-260 | the next message is read only when every program the last one asked for was run and its helpers are gone |
| Diagnostics.ShowsTheLastHundred | crates/core/src/diagnostics.rs:119-138 | in every interleaving, pushes during a read included, the panel shows exactly the last hundred of all records pushed before its latest read, and the sink the last hundred since |
| Diagnostics.ReadShowsTheLastOfAll | crates/app/src/lib.rs:1069-1079 | after a read the panel is exactly the last hundred of everything ever pushed |
| Diagnostics.PushesKeepTheLast | crates/core/src/diagnostics.rs:119-128 | any number of pushes leaves the last hundred of what was there and what was pushed |
| Diagnostics.Sink.Push | crates/core/src/diagnostics.rs:119-128 | the sink stays the last hundred pushed since it was emptied |
| Diagnostics.Sink.Take | crates/core/src/diagnostics.rs:132-138 | taking empties it and gives those |
| Diagnostics.Panel.ReadRecords | crates/app/src/lib.rs:1069-1079 | the panel becomes the last hundred ever pushed, or stays empty without a sink |
| GuestFiles.FileSystem.CopyTree | crates/agent/src/guest_files.rs:17-38 | over every listing order and every fault: it succeeds if and only if no file meets a directory and none of the calls it made failed but reads for comparison; success is exactly the copied tree and nothing else changed; it says changed if and only if some file differed or was missing, or was equal and the call that read it for comparison failed; stopped anywhere, it touched only what it copies |
| GuestFiles.FileSystem.CopyTwice | crates/agent/src/guest_files.rs:12-38 | run again after a success, whatever faults that met, it changes nothing, and says so unless one of its own reads for comparison failed |
| GuestFiles.ChangedThoughEqual | crates/agent/src/guest_files.rs:29-35 | two equal trees, an unreadable copy, and the answer that something changed |
| GuestFiles.CopyingIsIdempotent | crates/agent/src/guest_files.rs:12-38 | a copied tree is its own copy, with no difference and nothing in the way |
| GuestFiles.CopyIsUnique | crates/agent/src/guest_files.rs:21-38 | a successful copy has one possible result, so the order of listings does not matter |
| GuestFiles.FileSystem.CopyEntry | crates/agent/src/guest_files.rs:21-35 | one entry, file or directory, is copied, compared and counted as the whole requires |

## Left out

- Shutdown.AlwaysInv: models the main loop and the handler as steps of a state machine rather than as methods, because the handler comes between any two of them; `Backoff` is any delay, and the work of a request's handler is any finite number of programs.
- Timestamp.ParseUndoesTimestamp: integers are unbounded, so the wrap-around of 64-bit days within 719,468 of the ends of the range, and the range of the platform's clock, are not modelled.
- MountInfo.LineIsRead: the share name is read from the mount options without unescaping, as the code does; the lemma is about that reading, and `ShareNamesTravel` covers every name that can be mounted.
- MountInfo.UnescapeUndoesEscape: a character stands for one byte, as the kernel escapes byte by byte; a kernel that escaped the bytes of a multi-byte character is not modelled, and the code would read each of them as a character of its own.
- GpuMounts.Guest.AttachShares: the mount table holds at most one mount per path, so stacked mounts at one path are not modelled; when the kernel's text can be read it is taken to describe that table; which directories the linker is to search is modelled, writing them down and refreshing its cache is not.
- Frame.FramingRoundTrip: a timeout in the middle of a frame ends the connection, so the transport is assumed to idle between frames only; `ReadsStopAtBoundaries` and `IdleIsBetweenFrames` need no such assumption.
- Session.Connection.Run: what a handler does is any function of the turn; only that it is called, and what becomes of its answer, is modelled.
- DisplayUpdate.RunUpdate: the checks of services and of whether they need installing are answers of the world, seeing to their account is one program; what is loaded is known by the looks the update takes, so a module nobody looked at again is not called loaded; programs that only read are not told from files that are read, and neither is in the order of programs; the texts put into the stage reports and the versions reported afterwards are not part of it.
- StageReport.RecordSigningKey: models what the end of the stage records, from the replaced key on; the messages of its earlier failures are not part of it.
- GuestFiles.FileSystem.CopyTree: symbolic links, special files and other processes changing the trees at the same time are not modelled, and the two trees are disjoint as their callers' are.
- HMAC, base64, SHA-256 and the protobuf encoding are library code: a function and one law stand for them.
- Sockets, mount and unmount calls, processes and the draining of their output appear only as answers of the outside world.
- `gpu_mounts::detach_all` unmounts every 9p mount, managed or not; nothing is claimed of it.
- A reboot request is served on every session, whatever its revision and capabilities; no gate is claimed for it.
- The agent's replacement of itself, the guest package and driver plumbing, status derivation, text scraping of tools' output, tracing layers and the user interface would add only easy members or have no exact specification in the code.

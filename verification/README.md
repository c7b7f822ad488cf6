# Verified model of an SSH and SFTP tool

The repository is a command line tool for SSH sessions, SFTP shells and file transfers. This project models its most
intricate cores in Dafny and proves what they promise. Each module stands for one component:

- `ClientLease`, `ClientLeaseInvariant`, `ClientLeaseRuns`, `ClientRefresh`, `ShellClient`: the reference-counted leases
  on the SFTP client of a shell, with its single refresh in flight, invalidation, graceful and forced close. Every
  critical section is one atomic step, every wait and network call a step of its own that may fail or be cancelled;
  `ClientRefresh` reads off the events of a run why a refresh ended as it did; `ShellClient` is the object whose methods
  are these critical sections.
- `ShellLifecycle`: starting, running and closing a shell, and the line editors it publishes.
- `PacketFrames`, `PacketObserver`, `PacketContents`: the streaming observer of SFTP packets, against a parser of whole
  packets and against the messages that were encoded.
- `CommandLine`, `CommandWords`, `Completion`, `CompletionSplice`, `CompletionPrefix`: the tokenizer and the notation it
  accepts, the completer, the escaping of candidates, and the prefix several candidates have in common.
- `FileStore`, `Replacement`, `ParallelTransfer`, `Download`, `Upload`, `RemotePath`, `RemoteLinks`, `RemoteTrees`,
  `RemoteMerge`, `RemoteFollow`, `RemoteCopy`, `RemoteRemoval`: a store of files, directories and links whose operations
  may fail at any time, and the transfer engine on top of it. The store records every state it passes through, every step
  that was tried, and how many failed, so that what happens when nothing fails is stated too.
- `CommandResult`, `CommandExecution`, `CommandErrors`: one remote execution with its sender, observer, readers and
  supervisor, and what its errors and its phase say.
- `EditorDecoder`, `EditorInput`, `EditorPastes`, `EditorStop`, `EditorTurns`: decoding keyboard input and delivering it
  to one prompt after another, with pastes kept whole across prompts and a pump that always stops.
- `AuthDriver`: the sequential authentication callback and its trace.
- `JumpChain`, `Handoff`: the masters a target is reached through, and reserving them for a handoff.
- `ShellQuoting`: quoting for POSIX, fish and C shells, and payloads read by two shells in turn.
- `CommandHistory`, `HistoryFile`: the history shared by sessions through one file.
- `ShardedMap`: the concurrent map.

Concurrent protocols are transition systems; their theorems are about every run of any length. What the environment
decides (failures, cancellation, timing, the peer's messages, the order of directory listings) is chosen freely. Objects
that the code updates in place are classes whose methods are proved against the specification the theorems are about.

Results where the code does less than one might expect:

- A serial upload resumed strictly inside the file moves the source but not the destination; the uploaded file is then
  never the source (`Upload.UploadedIsSourceIff`). The download moves both and is proved correct.
- The tokenizer has a rule for a backslash before a closing double quote that the completer lacks
  (`Completion.SameWordsIff`).
- Escaping a candidate leaves backslashes alone, so only faithful candidates are read back
  (`CompletionSplice.SpliceRoundTrip`); in an open quote nothing is escaped, so the candidate must not hold that quote,
  nor two adjacent backslashes in a double quote (`CompletionSplice.QuotedSpliceRoundTrip`,
  `CompletionSplice.DoubleSpliceRoundTrip`).
- The prefix that several candidates have in common is taken of their escaped forms and may cut an escape in two; the
  next completion then finds none of the candidates concerned (`CompletionPrefix.CommonPrefixKeepsAllIff`,
  `CompletionPrefix.CutPrefixFindsNothing`).
- A handoff that is refused leaves everything as at entry exactly if each owned foreground master among the target and
  the persistent masters of its chain, up to the first one not ready, is resilient (`Handoff.AsAtEntryIff`). A stopped
  master whose only session is the connector's is not, and loses the reference
  (`Handoff.StoppedMasterLosesItsReference`).
- A remote copy of a directory equals the source exactly if the server lists no file before the one whose name plus the
  temporary suffix it has; a file listed so has no copy (`RemoteCopy.RemoteCopy`, `RemoteCopy.ClashLosesFile`).
- A file copied onto a link lands where the link leads; if that is inside the tree being copied, the copy changes its
  own source (`RemoteCopy.LinkIntoSourceChangesIt`). Otherwise the source and all links stay as they are
  (`RemoteFollow.DirectoryIsFollowed`).
- A termination that the peer reports before the exec request is announced does not complete the execution: if nothing
  else follows the announcement the outcome is unknown (`CommandResult.UnknownExactly`), and if a refusal follows it is
  not started (`CommandResult.NotStartedExactly`). One reported after a refusal makes it completed with an error
  (`CommandResult.CompletedExactly`, `CommandExecution.SuccessIsSound`).

## Model

| member | source | states |
|---|---|---|
| ClientLeaseInvariant.StepKeeps | cmd/sftpshell/shell.go:96-374 | every critical section, wait and network call of the client lease protocol, successful or not, keeps the protocol invariant |
| ClientLeaseRuns.OneChangeInFlight | cmd/sftpshell/shell.go:143-261 | over every run at most one refresh or close is in flight, and it is the one waiters can see |
| ClientLeaseRuns.LeaseCountsExact | cmd/sftpshell/shell.go:345-374 | each lease count is exactly the number of outstanding leases on that client, and no record outlives its last lease |
| ClientLeaseRuns.OnlyForcedCloseInterrupts | cmd/sftpshell/shell.go:143-240 | a client closed by a refresh, a graceful close or a discarded reconnect has no outstanding lease then or ever after |
| ClientLeaseRuns.ClosedIsFinal | cmd/sftpshell/shell.go:455-524 | once the shell is closed no client is published and no lease is granted, whatever still runs |
| ClientLeaseRuns.ClientsConserved | cmd/sftpshell/shell.go:143-240 | every client ever created is published, in the hands of one goroutine, or has been closed |
| ClientLeaseRuns.NothingLeaksAtRest | cmd/sftpshell/shell.go:455-524 | when a closed shell has come to rest every client ever created has been closed |
| ClientLeaseRuns.BlockedForAReason | cmd/sftpshell/shell.go:242-335 | a goroutine that cannot go on waits for a change really in flight in other hands, or for leases really outstanding: no wake-up is lost |
| ClientLeaseRuns.ChangeProgresses | cmd/sftpshell/shell.go:143-261 | the change in flight can take its next step unless it drains leases that are still outstanding |
| ClientLeaseRuns.NoLeaseOnInvalidated | cmd/sftpshell/shell.go:263-343 | if only lease holders invalidate, no lease is ever granted on an invalidated client |
| ClientLeaseRuns.UnheldInvalidationIsGranted | cmd/sftpshell/shell.go:143-343 | without that rule there is a run in which a lease is granted on an invalidated client |
| ClientRefresh.RefreshEndsForAReason | cmd/sftpshell/shell.go:143-249 | over every run, read off the events: a refresh that ends without failure leaves published, on an open shell, a client whose probe in that refresh succeeded or that was created in it; one that ends with a failure met an expired wait, a failed close or connect, or a closed shell, and a failed probe is no failure |
| ClientRefresh.ClientIsRetiredForAReason | cmd/sftpshell/shell.go:172-206 | an open shell loses its published client only to a refresh that found it invalidated or whose probe of it failed |
| ClientRefresh.AcquireEndsWithALease | cmd/sftpshell/shell.go:263-335 | acquireClient, when the change it began ends, has a lease on the client published then, on an open shell, exactly if the change did not fail |
| ClientRefresh.CloseEndsForAReason | cmd/sftpshell/shell.go:455-504 | a graceful close fails exactly if its wait for leases expired or closing the client failed, and unless somebody closed by force later callers are told the same |
| ClientRefresh.ProbedClientsAreIdle | cmd/sftpshell/shell.go:154-175 | a client is probed only without outstanding leases, and while it is published on an open shell |
| ClientRefresh.SoundClientIsLeasedAtOnce | cmd/sftpshell/shell.go:263-300 | on an open shell with a sound client and no change in flight acquireClient leases that client at once and begins no refresh |
| ClientRefresh.WaitersShareTheResult | cmd/sftpshell/shell.go:110-121 | whoever waited for a refresh that failed gives up with it, whoever only wanted a sound client shares its success, and all others look again |
| ShellClient.Shell.RegisterClientLeaseLocked | cmd/sftpshell/shell.go:345-374 | the new state and the leased client are those of the protocol's registration step |
| ShellClient.Shell.ReleaseLease | cmd/sftpshell/shell.go:355-373 | the release closure is the protocol's release step, including the end of the record at zero |
| ShellClient.Shell.InvalidateClient | cmd/sftpshell/shell.go:337-343 | marks the generation invalid only while that client is published |
| ShellClient.Shell.BeginChangeLocked | cmd/sftpshell/shell.go:143-162 | opens the one change of the protocol |
| ShellClient.Shell.FinishClientChange | cmd/sftpshell/shell.go:251-261 | records the outcome, hides the change if it is the visible one, and completes it |
| ShellClient.Shell.EnterSection | cmd/sftpshell/shell.go:96-162 | the decision at the top of the retry loops is the protocol's step: closed, wait, lease, or begin a change |
| ShellClient.Shell.RecheckSection | cmd/sftpshell/shell.go:143-240 | the recheck after a drain is the protocol's step |
| ShellClient.Shell.RetireSection | cmd/sftpshell/shell.go:143-240 | retiring the old client is the protocol's step |
| ShellClient.Shell.PublishSection | cmd/sftpshell/shell.go:143-240 | publishing a reconnect, or discarding it on a closed shell, is the protocol's step |
| ShellClient.Shell.SettleSection | cmd/sftpshell/shell.go:263-335 | the end of a change, with or without a lease for the caller, is the protocol's step |
| ShellClient.Shell.CloseEnterSection | cmd/sftpshell/shell.go:455-504 | the first critical section of a graceful close is the protocol's step |
| ShellClient.Shell.CloseRetireSection | cmd/sftpshell/shell.go:455-504 | the last critical section of a graceful close is the protocol's step |
| ShellClient.Shell.ForceEnterSection | cmd/sftpshell/shell.go:506-524 | the critical section of a forced close is the protocol's step |
| ShellClient.StepsAreLocal | cmd/sftpshell/shell.go:96-524 | what a critical section does to the shared state and its goroutine does not depend on the other goroutines, so the contracts of the object are steps of every run |
| ShellLifecycle.LifecycleForward | cmd/sftpshell/shell.go:389-453 | the lifecycle state only moves forward, with one run, one effective close, and no channel closed twice |
| ShellLifecycle.NoEditorAfterClose | cmd/sftpshell/shell.go:2672-2723 | after Close has returned to its first caller no line editor is ever published |
| ShellLifecycle.NoEditorSurvivesClose | cmd/sftpshell/shell.go:2672-2723 | every line editor ever created has been closed when a closed shell comes to rest |
| ShellLifecycle.CloseWaitsForRun | cmd/sftpshell/shell.go:455-504 | unless its context expires the closer goes on only when no goroutine is running the shell any more |
| ShellLifecycle.CloseWaitsForClose | cmd/sftpshell/shell.go:435-453 | unless its context expires another caller of Close returns only when the first has finished, with the shell closed and no line editor published |
| ShellLifecycle.AWholeLife | cmd/sftpshell/shell.go:389-453 | there is a run in which a shell runs, publishes an editor, is closed, and comes to rest with the editor closed |
| ShellLifecycle.Shell.BeginRunSection | cmd/sftpshell/shell.go:782-801 | is the lifecycle's step; a second run or a run after close is refused |
| ShellLifecycle.Shell.EndRunSection | cmd/sftpshell/shell.go:803-811 | is the lifecycle's step that ends the run |
| ShellLifecycle.Shell.BeginCloseSection | cmd/sftpshell/shell.go:435-444 | is the lifecycle's step; only the first caller closes |
| ShellLifecycle.Shell.FinishCloseSection | cmd/sftpshell/shell.go:446-453 | is the lifecycle's step that completes the close |
| ShellLifecycle.Shell.PublishEditorSection | cmd/sftpshell/shell.go:2672-2723 | publishes a new editor only on a shell not closing, else hands it back to be closed |
| ShellLifecycle.Shell.CloseLineEditorSection | cmd/sftpshell/shell.go:2672-2723 | takes the published editor away, exactly once |
| ShellLifecycle.StepsAreLocal | cmd/sftpshell/shell.go:389-453 | what a critical section does to the shell and its goroutine does not depend on the other goroutines |
| PacketFrames.FramesOfEncode | core/sftp/diagnostics.go:87-127 | the whole-packet reference parser recovers exactly the packets of any encoded stream (section 3 of draft-ietf-secsh-filexfer-02) |
| PacketFrames.FramesOfPieces | core/sftp/diagnostics.go:87-127 | parsing a stream in two pieces finds the packets and the remainder of the whole stream |
| PacketFrames.CaptureLimit | core/sftp/diagnostics.go:148-161 | every kind of packet has a capture limit between one byte and the size of the prefix buffer |
| PacketFrames.MetadataDecidesCapture | core/sftp/diagnostics.go:129-146 | what is captured of a packet depends only on its length and its capture-limited metadata bytes |
| PacketFrames.EventsIgnorePayload | core/sftp/diagnostics.go:163-254 | streams of packets that agree on lengths and metadata give equal events |
| PacketFrames.ContentPacketsKeepHeaderOnly | core/sftp/diagnostics.go:129-161 | of packets that carry names or data nothing but the header is captured, and of paths no more than the path |
| PacketFrames.CapturedGrows | core/sftp/diagnostics.go:129-146 | capturing more of a packet only extends what was captured, up to the end and no further |
| PacketObserver.PacketDiagnostics.Feed | core/sftp/diagnostics.go:87-127 | feeding a chunk in place emits exactly the events of the whole packets completed by it and keeps exactly the remainder |
| PacketObserver.PacketDiagnostics.Capture | core/sftp/diagnostics.go:129-146 | the prefix buffer receives exactly the captured bytes and is never overrun |
| PacketObserver.PacketDiagnostics.Report | core/sftp/diagnostics.go:163-217 | emits the events of one captured packet and nothing else |
| PacketObserver.PacketDiagnostics.ReportVersion | core/sftp/diagnostics.go:231-254 | emits the version and extension events of a version packet |
| PacketObserver.ChunksDoNotMatter | core/sftp/diagnostics.go:87-127 | however a stream is cut into chunks the events are those of its packets, once and in order |
| PacketObserver.ObservationIgnoresChunksAndPayload | core/sftp/diagnostics.go:87-254 | two streams that agree on lengths and metadata are reported alike, however differently they are cut |
| PacketContents.MessagesAreTold | core/sftp/diagnostics.go:87-254 | for every list of messages, encoded and cut into chunks in any way, exactly what their fields say is reported, in order: status packets their ID and code, outgoing requests their path or extension up to the limit, VERSION its version and the extension pairs up to the prefix limit, unknown types nothing but length and type |
| PacketContents.MessageIsTold | core/sftp/diagnostics.go:163-254 | each single message, in terms of the fields that were put into it |
| PacketContents.EveryBodyIsAMessage | core/sftp/diagnostics.go:163-254 | every body that can arrive is one of these messages, so nothing is left unsaid |
| PacketContents.ExtensionsAreTold | core/sftp/diagnostics.go:231-254 | of extension pairs followed by anything else, cut anywhere, exactly the pairs that lie wholly before the cut are reported, in order |
| CommandLine.SplitCommandLine | cmd/sftpshell/split.go:40-135 | the loop with its index skips reads a line as the lexer automaton does, with the same errors |
| CommandLine.ParseCompletionCursor | cmd/sftpshell/completer.go:47-200 | the loop over flags and builders ends in the cursor the completion automaton defines |
| CommandWords.SplitIsTheNotation | cmd/sftpshell/split.go:40-135 | a line is split into given arguments if and only if it is written as words of these values: plain runes, escapes, quoted parts, and a closing backslash, between spaces; a notation defined without the lexer |
| CommandWords.LineIsSplit | cmd/sftpshell/split.go:40-135 | every line written in the notation is split into the values of its words |
| CommandWords.WordsAreThere | cmd/sftpshell/split.go:40-135 | every rest of a line that is accepted can be written in the notation |
| Completion.SameWordsIff | cmd/sftpshell/split.go:70-79 | splitting and completion read the same words from a line exactly when the rule for a backslash before a closing double quote never applies |
| Completion.CursorAgreesWithSplit | cmd/sftpshell/completer.go:47-200 | on a line that splits, the cursor has the same command, counts the finished arguments, and its partial word is the last argument exactly when it stands inside a word |
| Completion.CursorInsideQuote | cmd/sftpshell/completer.go:47-200 | in an open quote, where the line does not split yet, the cursor has the command, the argument index and the partial word that splitting finds once the quote is closed |
| Completion.InsideExtendsLastArgument | cmd/sftpshell/completer.go:47-200 | standing inside a word means that a further letter extends the last argument instead of starting a new one |
| Completion.ClosingBackslashSeparates | cmd/sftpshell/split.go:70-79 | a concrete line on which the two tokenizers disagree |
| CompletionSplice.EscapeShellArg | cmd/sftpshell/completer.go:203-220 | the loop escapes exactly spaces, tabs and quotes |
| CompletionSplice.SpliceRoundTrip | cmd/sftpshell/completer.go:203-240 | whatever stands before an unquoted cursor, as long as the two tokenizers read it alike, an accepted candidate is read back as exactly one further argument if and only if it is faithful: a condition on its backslashes and whitespace alone |
| CompletionSplice.PlainHead | cmd/sftpshell/split.go:70-79 | a head without double quotes is always read alike, so the round trips hold at every such head |
| CompletionSplice.QuotedSpliceRoundTrip | cmd/sftpshell/completer.go:225-240 | inside an open single quote exactly the candidates without a single quote are read back |
| CompletionSplice.DoubleSpliceRoundTrip | cmd/sftpshell/completer.go:225-240 | inside an open double quote exactly the candidates without a double quote and without two adjacent backslashes are read back |
| CompletionPrefix.CommonCompletionPrefix | cmd/sftpshell/editor_model.go:358-369 | the loops find the longest text that all candidates begin with |
| CompletionPrefix.CommonPrefixKeepsAllIff | cmd/sftpshell/editor_model.go:344-351 | after the common prefix has replaced the word at an unquoted cursor, the next completion looks for a beginning of every faithful candidate if and only if no escaped candidate goes on behind the prefix with a space, tab or quote |
| CompletionPrefix.CutPrefixFindsNothing | cmd/sftpshell/editor_model.go:344-369 | two names that differ in a character to be escaped: their prefix ends in a backslash with which neither name goes on |
| Replacement.ReplaceLocalEntry | core/sftp/replace_local.go:23-70 | for every pattern of failures each intermediate state is one of four stages, and success is exactly promotion; after a failure everything is as before, unless the last step was the rollback and failed, the destination was not seen to be free, or only the backup could not be removed; when nothing fails it succeeds |
| Replacement.ReplaceRemoteFallback | core/sftp/transfer.go:287-320 | the same for the remote fallback, where an old entry is left at the backup name only if the rename that puts it back was the last step and failed |
| Replacement.ReplaceRemoteFile | core/sftp/transfer.go:276-285 | the same for atomic replacement; anything else is tried exactly if the atomic rename is unsupported |
| Replacement.ReplaceRemoteLink | core/sftp/transfer.go:1135-1145 | the same for links, with the fallback exactly after a failure of the atomic rename |
| Replacement.ReplacementIsSafe | core/sftp/transfer.go:276-320 | old content at the destination or the backup, or new content at the destination, at every moment; success leaves the new content, frees the temporary name and leaves every other name, the backup included, as it was; failure with a change leaves the old content at the backup |
| Replacement.StoppedStagesAreRecoverable | core/sftp/transfer.go:300-306 | from the stages a failed replacement may stop at, one rename puts the old entry back |
| Replacement.RollbackRestores | core/sftp/transfer.go:303-310 | a rollback that works leaves everything as before the replacement |
| ParallelTransfer.Transfer | core/sftp/transfer.go:839-897 | a method whose scheduler picks any enabled worker step ends; if no worker failed and nothing was cancelled the destination is the source, and when no step goes wrong that is how it ends |
| ParallelTransfer.CompleteUnlessCancelled | core/sftp/transfer.go:839-897 | over every schedule, short read and failing write, a finished copy without error or cancellation is complete |
| ParallelTransfer.CancelledCopyMaySucceedIncomplete | core/sftp/transfer.go:852-891 | the parallel copy alone may report success with chunks missing after a cancellation |
| ParallelTransfer.StepProgresses | core/sftp/transfer.go:839-897 | every step but a cancellation brings the copy nearer to its end |
| ParallelTransfer.NeverStuck | core/sftp/transfer.go:839-897 | an unfinished copy always has a step to take |
| ParallelTransfer.NeverMoreThanThreads | core/sftp/transfer.go:842-856 | over every run no more workers run than there are threads |
| ParallelTransfer.NothingBeginsAfterFailure | core/sftp/transfer.go:852-868 | once a worker has failed or the copy was cancelled, no worker is started and none begins to read |
| Download.ValidatePrefix | core/sftp/transfer.go:1855-1889 | never accepts different prefixes, and accepts equal ones exactly when no read fails |
| Download.CopyExact | core/sftp/transfer.go:1342-1399 | success means that exactly the requested bytes were copied to the given position, whatever the reader and writer report; when neither fails it succeeds |
| Download.PrepareDownloadFile | core/sftp/transfer.go:730-781 | from any prior content of the temporary file, what is kept is a prefix of the source, and only if resuming is enabled and it is long enough; when nothing fails it is kept exactly then |
| Download.DoDownload | core/sftp/transfer.go:808-825 | success without cancellation makes the temporary file equal to the source, serially or in parallel |
| Download.DownloadFile | core/sftp/transfer.go:536-689 | from any prior temporary file, completion means that the destination is exactly the source and both scratch names are free; at every moment the old destination is safe or replaced by the complete file; skipped only if not forced and the destination has the size and age of the source; when nothing fails it completes or is skipped |
| Download.ShouldSkip | core/sftp/transfer.go:718-728 | skips a file exactly if it has the size and the age of the source |
| Upload.UploadedIsSourceIff | core/sftp/transfer.go:401-418 | a successful upload equals the source if and only if it is not a serial one resumed strictly inside the file |
| Upload.SerialResumeLosesPrefix | core/sftp/transfer.go:408-414 | two bytes, one of them resumed: the uploaded file is one byte long |
| Upload.PrepareUploadFile | core/sftp/transfer.go:337-374 | what is kept of the temporary file is a prefix of the source, and only when it may be resumed; when nothing fails it is kept exactly then |
| Upload.DoUpload | core/sftp/transfer.go:401-418 | what a successful upload leaves in the temporary file, the serial path writing from its beginning |
| Upload.UploadFile | core/sftp/transfer.go:110-232 | completion puts exactly what the resume position determines at the destination, and the source itself unless a serial resume was due at entry; the temporary name is free; at every moment the old destination is there or at its backup name, or the finished upload has replaced it; when nothing fails it completes with what could be resumed, or is skipped |
| Upload.ResumeIsRightIff | core/sftp/transfer.go:337-418 | resuming a proper part of the source yields the source exactly when no serial resume is due: a condition on configuration and temporary file before the upload |
| RemotePath.CanonicalRemotePath | core/sftp/transfer.go:1253-1294 | the loop ends, by the remaining link budget and the pending components, with the resolution of the path, and fails otherwise only because a lookup failed |
| RemotePath.ResolveIsLinkFree | core/sftp/transfer.go:1253-1294 | no existing prefix of a resolved path is a link |
| RemotePath.ResolveIsClean | core/sftp/transfer.go:1253-1294 | a resolved path has no empty, current-directory or parent-directory component |
| RemotePath.CanonicalIdempotent | core/sftp/transfer.go:1253-1294 | canonicalisation is idempotent and its fixed points are exactly the paths without links |
| RemotePath.SelfLinkIsRefused | core/sftp/transfer.go:1279-1284 | a link to itself is refused for every link budget |
| RemoteLinks.CanonicalIsTheEndOfLinks | core/sftp/transfer.go:1253-1294 | a path is canonicalised to r if and only if at most forty links, each replaced by where its target leads from the directory it is in, lead to r, where no link is left; stated without the resolution |
| RemoteLinks.ResolveReaches | core/sftp/transfer.go:1265-1292 | the same for every link budget |
| RemoteLinks.RelativeLinkLeadsBeside | core/sftp/transfer.go:1287-1289 | a relative target of names leads to these names in the directory of the link, for one link of the budget |
| RemoteLinks.AbsoluteLinkLeadsThere | core/sftp/transfer.go:1287-1291 | an absolute target of names leads to these names below the root, for one link of the budget |
| RemoteLinks.ParentLinkLeadsUp | core/sftp/transfer.go:1287-1289 | a relative target that begins with two dots leads on from the parent of the link's directory |
| RemoteFollow.ResolutionDependsOnLinks | core/sftp/transfer.go:1253-1294 | creating, replacing or removing files and directories leads no path elsewhere: only links decide where a path leads |
| RemotePath.CanonicalRemoteEntryPath | core/sftp/transfer.go:1318-1328 | the parent is resolved and the entry itself is not followed |
| RemotePath.EntryPathParentIsLinkFree | core/sftp/transfer.go:1318-1328 | an entry path leads through no link before its last component, and is canonical unless it is a link |
| RemoteCopy.RemoteCopy | core/sftp/transfer.go:913-943 | the same path, a missing source and a directory copied below itself are refused without a change; to an absent destination the source is unchanged whatever fails, only the destination tree, its scratch name and missing ancestors change, and a successful copy of a plain tree is the same tree, links as links, if and only if no directory listed a file before the one whose scratch name it has; onto an existing destination it merges, and links there are followed or left in peace; when nothing fails and nothing stands in the way, it succeeds |
| RemoteCopy.CopyEntry | core/sftp/transfer.go:1009-1027 | ends for every destination not inside a source directory; to a fresh destination it keeps the source, changes nothing beside the destination, and copies the tree with the same exact condition; onto an existing one it merges; a file copied onto a link lands where the link leads and the link stays, whatever fails |
| RemoteCopy.CopyDirectory | core/sftp/transfer.go:1060-1093 | the same for a directory, entry by entry in any order the server lists them; what it listed is exactly each directory of the tree, once; an existing directory is merged into |
| RemoteCopy.PrepareDirectory | core/sftp/transfer.go:1029-1058 | creates only directories on the way to the destination, and success means that it is a directory |
| RemoteCopy.ResolveFileDestination | core/sftp/transfer.go:1151-1183 | a destination link is followed; it fails exactly if the link leads nowhere or back to the source, what is there is no file, or a lookup failed |
| RemoteCopy.CopyFile | core/sftp/transfer.go:1185-1251 | success replaces a file or nothing by the content and frees the scratch name; nothing but destination, scratch and backup ever changes, and only files; when nothing fails it succeeds exactly if the destination and its scratch name can be used |
| RemoteCopy.CopyLink | core/sftp/transfer.go:1095-1133 | success puts a link with the same target at the destination; when nothing fails it succeeds exactly if the scratch name is free |
| RemoteCopy.LinkIsFollowed | core/sftp/transfer.go:1147-1168 | copying a file onto a link: whatever fails the link stays; a link that cannot be resolved, leads back to the source or to what is no file is refused without a change; success puts the content where the link leads, uses up the scratch name there and changes nothing else |
| RemoteCopy.LinkIntoSourceChangesIt | core/sftp/transfer.go:1156-1168 | a file copied onto a link that leads back into the tree being copied changes that tree |
| RemoteFollow.FileIsFollowed | core/sftp/transfer.go:1147-1251 | a file copied to a name that may be a link keeps the source and every link, and changes only what its landing place and the two names beside that hold |
| RemoteFollow.ChildIsFollowable | core/sftp/transfer.go:1070-1085 | while a directory is copied onto a tree with links, each entry finds the links, and so the landing places, as they were in the beginning |
| RemoteFollow.NextIsFollowed | core/sftp/transfer.go:1070-1085 | one more entry, copied or failed, keeps the source and all links and touches only landing places of the source's files; what has arrived stays where it is |
| RemoteFollow.DirectoryIsFollowed | core/sftp/transfer.go:1060-1093 | when every entry has been copied, every directory is there and every file of a plain source holds its content where its name leads, if no two land at the same names |
| RemoteCopy.GrownStaysShallow | core/sftp/transfer.go:1009-1093 | copying an entry never deepens the source tree unless a directory is copied into itself, which is why the recursion ends |
| RemoteCopy.SiblingStays | core/sftp/transfer.go:1185-1215 | copying one entry leaves the copies of its siblings alone, except a file that lies at its scratch name, which is gone |
| RemoteCopy.UnclashingIsClashFree | core/sftp/transfer.go:1209-1221 | a tree in which no file has the scratch name of a file beside it is copied exactly in every listing order |
| RemoteCopy.ClashLosesFile | core/sftp/transfer.go:1060-1221 | a successful copy of a directory that lists a file before the one whose scratch name it has leaves that file without a copy, whatever else is copied between and after |
| RemoteMerge.LeafIsMerged | core/sftp/transfer.go:1095-1251 | replacing a file or link, whatever fails, keeps the source and every other name, and an occupied backup name too |
| RemoteMerge.ChildIsMergeable | core/sftp/transfer.go:1070-1085 | an entry whose turn has not come finds its destination as it was, so the conditions of a merge hold for every entry in turn |
| RemoteMerge.NextIsMerged | core/sftp/transfer.go:1070-1085 | one more entry, copied or failed, keeps the source and what is not named by it, and leaves the copies made before as they are |
| RemoteMerge.DirectoryIsMerged | core/sftp/transfer.go:1060-1093 | when every entry has been copied, each entry of a plain source without scratch names among its own has its copy, and the names beside the destination are as before |
| RemoteRemoval.RemoveRemoteEntry | core/sftp/transfer.go:965-1001 | ends; success leaves nothing at or below the path; whatever fails, nothing beside it changes; when nothing fails it succeeds |
| CommandResult.FirstEndWins | core/ssh/command_execution.go:272-318 | the record holds the first termination reported, as a code or as a signal and never both |
| CommandResult.NotStartedExactly | core/ssh/command_execution.go:193-234 | the record says not started exactly when nothing was announced and nothing reported, or a refusal was the last word |
| CommandResult.CompletedExactly | core/ssh/command_execution.go:272-318 | the record says completed exactly when the first termination came after the announcement and any refusal |
| CommandResult.UnknownExactly | core/ssh/command_execution.go:193-318 | the record says unknown exactly when the request was announced, not refused, and no first termination followed the announcement |
| CommandResult.ErrorsExactly | core/ssh/command_execution.go:193-318 | which failures, refusals, terminations and duplicates leave an error in the record |
| CommandResult.SuccessExactly | core/ssh/command_execution.go:81-112 | an announced execution has no error exactly when nothing went wrong and one termination, status zero, followed the announcement |
| CommandErrors.BlameIsTheLast | core/ssh/command_execution.go:193-318 | the execution error is that of the last update that takes the blame: a failed send, a refusal, or a first termination with a signal or a status other than zero, with its status or name |
| CommandErrors.TroublesAreKept | core/ssh/command_execution.go:169-318 | every failure to transfer input or output is kept in order; a protocol failure or a repeated termination only if it was the first thing that went wrong |
| CommandErrors.PhaseTells | core/ssh/command_execution.go:193-318 | the phase is finished exactly for completed executions, and otherwise given by the last step of the sender |
| CommandResult.Observation.ObserveTermination | core/ssh/command_execution.go:272-318 | one update under the lock: which requests are recognised, which fail, and what is logged |
| CommandResult.Observation.ObserveRequests | core/ssh/command_execution.go:255-270 | the terminations logged are exactly those among the requests, in order, whatever replies fail |
| CommandResult.Observation.Conclude | core/ssh/command_execution.go:92-111 | the returned record is the joined one with the wait and cleanup errors, and a missing exit when unknown |
| CommandExecution.SentAtMostOnce | core/ssh/command_execution.go:193-234 | over every run the exec request is sent at most once |
| CommandExecution.NotStartedIsSound | core/ssh/command_execution.go:193-253 | not started is returned only if the exec request was never sent or was refused, and exactly when as stated (section 6.5 of RFC 4254) |
| CommandExecution.SuccessIsSound | core/ssh/command_execution.go:81-112 | no error is returned exactly when the request was accepted and the peer reported one termination, status zero, after the announcement, with nothing else wrong; then the outcome is completed, code zero, no signal |
| CommandExecution.SuccessIsPossible | core/ssh/command_execution.go:81-112 | there is a run that returns no error at all |
| CommandExecution.UnknownIsReported | core/ssh/command_execution.go:104-111 | over every run the returned outcome is unknown exactly when the announcement was the last word; it always carries an error and means that the request went out once |
| CommandExecution.FirstTerminationIsKept | core/ssh/command_execution.go:272-318 | the first termination the peer reports is the one returned; later ones change neither code nor signal (section 6.10 of RFC 4254) |
| CommandExecution.ReturnedIsFinal | core/ssh/command_execution.go:320-346 | the result is returned only when every worker has ended, and nothing is recorded afterwards |
| CommandExecution.NeverStuck | core/ssh/command_execution.go:236-253 | an execution that has not returned always has a step of its own or of its channel |
| CommandExecution.StepsAreBounded | core/ssh/command_execution.go:236-253 | apart from the peer's requests only so many steps are possible |
| CommandErrors.WaitErrorIsTheReason | core/ssh/command_execution.go:236-253 | over every run the supervisor stops waiting with one step, and what is returned of the waiting is the reason it had then: a failed start, an expired context, or none |
| CommandErrors.StartTellsWhy | core/ssh/command_execution.go:193-215 | a start is said to have failed because the context was done before anything was sent, or because sending failed |
| CommandErrors.ReturnedErrors | core/ssh/command_execution.go:92-111 | the errors returned are the blame, the troubles, the reason for no longer waiting and the outcome of cleaning up; only an unknown end without any of them gets a missing exit |
| CommandExecution.SendCommandInput | core/ssh/command_execution.go:193-234 | what the sender tells the supervisor and, among the updates of observer and readers, what it records itself in each case |
| EditorDecoder.NextConserves | cmd/sftpshell/editor_events.go:84-128 | bytes leave the buffer only as decoded pieces, whose events are given out or kept pending, in order |
| EditorDecoder.Decoder.NextEvent | cmd/sftpshell/editor_events.go:84-128 | the loop over the buffer in place gives the event and the state of the specification |
| EditorDecoder.PasteIsWhole | cmd/sftpshell/editor_events.go:90-100 | however a paste is cut into chunks, with any timeouts between, its event is exactly the bytes before the first closing marker and the rest is kept |
| EditorDecoder.PasteIgnoresChunks | cmd/sftpshell/editor_events.go:90-100 | two ways of cutting the same bytes give the same paste and leave the same bytes |
| EditorDecoder.EscapeAwaitsTimeout | cmd/sftpshell/editor_events.go:102-119 | whether an Escape alone is a key is decided by its timeout and nothing else |
| EditorDecoder.SplitKeyStaysOne | cmd/sftpshell/editor_events.go:102-147 | however a structured key is cut into chunks, and whatever timeouts come except right after the Escape alone, it is decoded to its one event |
| EditorInput.ExactlyOnce | cmd/sftpshell/editor_events.go:23-71 | at every moment of every run: decoded events are the consumed ones, then the one in hand, then the pending ones; bytes read are the decoded ones, the buffer and the chunk in hand; each event has one consumer, in prompt order |
| EditorInput.NothingLostBetweenPrompts | cmd/sftpshell/editor_events.go:149-232 | between prompts every event not consumed and every byte not decoded waits for the next prompt |
| EditorInput.ConsumedForGood | cmd/sftpshell/editor_model.go:86-99 | what a prompt has consumed stays consumed by it; histories only grow |
| EditorTurns.ExpiredExactly | cmd/sftpshell/editor_events.go:205-224 | over every run the Escape timeout counts exactly from the last time the timer fired or the input ended, as long as no bytes have come since |
| EditorTurns.EndIsReal | cmd/sftpshell/editor_events.go:200-222 | the pump says that the input has ended only if the reader really came to its end, and only when nothing more can be decoded |
| EditorTurns.EndIsKnown | cmd/sftpshell/editor_events.go:169-222 | once the end has been seen it stays known, and the pump does not wait for input again |
| EditorTurns.FinishingIsLast | cmd/sftpshell/editor_events.go:186-198 | the event that finishes a prompt is the last one it consumes |
| EditorTurns.ConsumedByModelOrProgram | cmd/sftpshell/editor_events.go:23-71 | an event is consumed by a model that is not done, or without the model if it is no key and no paste; the receipt says whether the model acted on it and is done |
| EditorInput.EarlyStopConsumesTwice | cmd/sftpshell/editor_events.go:23-42 | if the stop signal came before the program has returned, a key could be consumed twice |
| EditorPastes.PastesAreWhole | cmd/sftpshell/editor_events.go:73-100 | at every moment of every run, over any chunks, timeouts and prompts: an opening is followed by one paste that holds the raw bytes up to the first closing marker, with decoding going on behind it, or the paste is still open and a waiting pump has not received the marker |
| EditorPastes.PastesAreOpened | cmd/sftpshell/editor_events.go:88-120 | every paste directly follows its opening, whatever prompts lay between |
| EditorPastes.PromptsDoNotMatter | cmd/sftpshell/editor_events.go:73-100 | two runs that open a paste before the same bytes decode the same paste, however differently chunks, timeouts and prompts fell |
| EditorStop.StopIsBounded | cmd/sftpshell/editor_events.go:149-232 | over every run, from the stop signal to the exit of the pump there are at most seven steps and two for each chunk still read |
| EditorStop.StopNeverHangs | cmd/sftpshell/editor_events.go:226-231 | at whatever moment the stop signal comes, the pump can step towards its exit without any further input, so the join returns |
| AuthDriver.Driver.Callback | core/ssh/auth.go:501-575 | one call of the callback, in place, is a step of the driver: the first eligible candidate not looked at, or the right reason for giving up, and the rejection of the last one |
| AuthDriver.OffersIncrease | core/ssh/auth.go:535-566 | within one partial-success stage (section 5.1 of RFC 4252) offers strictly increase |
| AuthDriver.GivesUpOnlyWhenExhausted | core/ssh/auth.go:548-574 | on giving up every candidate has been looked at in the stage and was offered unless not eligible at that call |
| AuthDriver.GivingUpTellsWhy | core/ssh/auth.go:568-574 | which answer is given says exactly what happened in the stage |
| AuthDriver.PassedOverForAReason | core/ssh/auth.go:548-566 | a candidate whose turn it is at a call is not offered exactly if the server does not allow its protocol, it does not admit the call, or it is a password or keyboard-interactive one and the host key has changed |
| AuthDriver.NoSecretForChangedHost | core/ssh/auth.go:777-785 | no password or keyboard-interactive candidate is offered at a call that finds the host key changed |
| AuthDriver.RejectionsAnswerOffers | core/ssh/auth.go:535-546 | a rejection is reported only for the candidate offered last in the same stage, never on a partial success |
| AuthDriver.RejectionsAreReported | core/ssh/auth.go:535-546 | and the next call that has not failed and shows nothing more accepted always reports it, if the candidate wants to know |
| AuthDriver.OneRejectionPerOffer | core/ssh/auth.go:541-546 | no offer is reported rejected twice |
| AuthDriver.OffersAreBounded | core/ssh/auth.go:535-566 | the offers are at most the candidates times the stages |
| AuthDriver.StagesGrow | core/ssh/auth.go:535-541 | stages only go forward |
| AuthDriver.StageCountsAccepted | core/ssh/auth.go:535-541 | the stage is the largest number of methods any call has shown as accepted |
| AuthDriver.Trace.Callback | core/ssh/auth_diagnostics.go:46-62 | the trace keeps the methods accepted so far and the protocol offered at the last call |
| AuthDriver.Handshake | core/ssh/auth_diagnostics.go:36-77 | after success the methods reported are those accepted before the last call and the one offered last; without any call, none |
| JumpChain.ByHostIsLast | cmd/ssh.go:1035-1047 | a host leads to the owned master, other than the target, that serves it and was started last |
| JumpChain.JumpChainMasters | cmd/ssh.go:1031-1068 | the search ends on circular specifications and returns exactly the owned masters reachable from the target, each once, never the target |
| Handoff.UndoneExactly | cmd/ssh.go:1085-1119 | a master whose reference was given up or which was reserved is as before after the rollback exactly if it is resilient or no reference was given up |
| Handoff.Fleet.ReleaseMastersForHandoff | cmd/ssh.go:1073-1123 | a master the connector does not own is left alone; otherwise true is returned exactly if the target and every persistent master of its chain are ready, and the whole new state is determined: all of the chain taken down, or the target and the persistent masters up to the first one not ready undone |
| Handoff.AllReadyIff | cmd/ssh.go:1092-1112 | the masters asked are exactly the target and the persistent ones of the chain |
| Handoff.ReadyMeans | core/ssh/mux_server.go:325-344 | a master is ready exactly if it is up, forwards nothing, carries no stream and has no session but the one of the connector's own reference, whose end must not take it down |
| Handoff.HandedOverMeans | cmd/ssh.go:1113-1123 | after a handoff the target and its chain are closed, the references of those asked are given up, and every other master is as before |
| Handoff.AsAtEntryIff | cmd/ssh.go:1085-1112 | a handoff that is refused leaves every reference as at entry exactly if each master whose reference was given up, up to and including the first one not ready, is resilient |
| Handoff.StoppedMasterLosesItsReference | cmd/ssh.go:1073-1096 | a concrete master, stopped by a request, that is refused and yet loses its reference |
| Handoff.Fleet.RollBack | cmd/ssh.go:1085-1112 | undoing reservations and then taking references back, in this order |
| Handoff.Fleet.ReleaseMaster | core/ssh/connector.go:1188-1203 | gives up the connector's reference and ends a session unless a stop request has already ended it |
| Handoff.Fleet.AcquireMaster | core/ssh/connector.go:1207-1241 | takes the reference back unless connector or master is on its way down |
| Handoff.Fleet.PrepareHandoff | core/ssh/mux_server.go:325-344 | reserves a master exactly if nobody depends on it |
| Handoff.Fleet.CancelHandoff | core/ssh/mux_server.go:348-359 | releases a reservation of a master still listening |
| ShellQuoting.CshQuote | core/ssh/command_plan.go:250-268 | the loop writes the C shell quotation of every string |
| ShellQuoting.QuotedIsOneWord | core/ssh/command_plan.go:238-268 | in each dialect a quoted string is read as exactly one word equal to the string |
| ShellQuoting.QuotedIsInjective | core/ssh/command_plan.go:238-268 | different strings have different quotations |
| ShellQuoting.UnixCommandIsRead | core/ssh/command_plan.go:275-288 | any command reaches the inner interpreter as the one argument after -c, whatever shell reads the payload |
| ShellQuoting.ScriptIsRead | core/ssh/command_plan.go:351-415 | a script's arguments are read by the outer shell as exactly these arguments |
| ShellQuoting.FishScriptIsReadTwice | core/ssh/command_plan.go:396-402 | the outer shell hands fish one word, which fish reads as source, a dash and exactly the arguments |
| ShellQuoting.FormatScriptPayload | core/ssh/command_plan.go:326-415 | succeeds exactly for arguments without NUL, a supported interpreter and a payload within the limit, and returns that payload |
| ShellQuoting.FishPayloadIsBounded | core/ssh/command_plan.go:396-415 | how much quoting twice can lengthen the arguments |
| ShellQuoting.ScriptPayloadIsBounded | core/ssh/command_plan.go:376-415 | how much quoting once can lengthen the arguments |
| CommandHistory.AppendedIsWellFormed | cmd/sftpshell/editor_history.go:57-66 | at most 500 lines, none empty, no two adjacent equal, after any appends |
| CommandHistory.CappedKeepsNewest | cmd/sftpshell/editor_history.go:57-66 | what is over the limit of 500 lines goes from the front |
| CommandHistory.LimitAtTheEnd | cmd/sftpshell/editor_history.go:57-66 | applying the limit at every line or once at the end is the same |
| CommandHistory.GatheredFirst | cmd/sftpshell/editor_history.go:67-97 | lines gathered in the pending list and appended later leave the same history as lines appended one by one |
| HistoryFile.ReadsBack | cmd/sftpshell/editor_history.go:98-119 | a clean well-formed history that is written reads back as itself |
| HistoryFile.NormalizedOfTwo | cmd/sftpshell/editor_model.go:206-216 | a line is cleaned rune by rune, except that a return and a line feed are one line break |
| HistoryFile.NormalizedOfOne | cmd/sftpshell/editor_model.go:206-216 | a line break or a tab becomes a space, other control characters go, and everything else stays |
| HistoryFile.CleanOnlyTrims | cmd/sftpshell/editor_history.go:67-75 | beyond that, cleaning only takes spaces away at both ends |
| HistoryFile.FileLinesAreWellFormed | cmd/sftpshell/editor_history.go:98-119 | whatever is in the file, what is read from it is a clean well-formed history |
| HistoryFile.History.Append | cmd/sftpshell/editor_history.go:67-97 | either the file and the lines are the fold of the pending lines and nothing is pending, or the file is unchanged and the line stays pending; without a file the line is only kept in memory |
| HistoryFile.FileIsFoldOfCommits | cmd/sftpshell/editor_history.go:67-97 | for any sessions and any failing writes the file is the fold of all committed lines in lock order, and reads back to itself |
| HistoryFile.LinesAreCommittedOnce | cmd/sftpshell/editor_history.go:67-97 | every line a session entered was committed exactly once, in order, or is still pending |
| ShardedMap.WholeHolds | core/concurrent/concurrent_map.go:71-75 | looking a key up in its shard is looking it up in the union of the shards |
| ShardedMap.Map.Set | core/concurrent/concurrent_map.go:78-83 | acts as storing into the plain map |
| ShardedMap.Map.Get | core/concurrent/concurrent_map.go:86-92 | acts as looking up in the plain map |
| ShardedMap.Map.Remove | core/concurrent/concurrent_map.go:95-100 | acts as removing from the plain map |
| ShardedMap.Map.Pop | core/concurrent/concurrent_map.go:282-292 | removes and returns what was there |
| ShardedMap.Map.Upsert | core/concurrent/concurrent_map.go:313-328 | stores the value computed from the present one |
| ShardedMap.Map.SetIfAbsent | core/concurrent/concurrent_map.go:333-346 | stores only into an absent key and returns what is stored |
| ShardedMap.Map.RemoveIfMatch | core/concurrent/concurrent_map.go:297-309 | removes exactly a matching value |
| ShardedMap.Map.Clear | core/concurrent/concurrent_map.go:239-247 | leaves the empty map |
| ShardedMap.Map.MSet | core/concurrent/concurrent_map.go:251-278 | the batches by shard store exactly the given data over the plain map |
| ShardedMap.Map.Count | core/concurrent/concurrent_map.go:103-112 | the sizes of the shards add up to the size of the plain map |
| ShardedMap.Map.Keys | core/concurrent/concurrent_map.go:115-126 | among writers: no key twice, every key present all through the scan, and only keys present at some moment of it |

## Left out

- Upload.UploadFile: whether source and destination have the same modification time is an input, as in the download.
- Download.DownloadFile: modes, timestamps and ownership checks of the local files are free choices that may fail; the
  remote source does not change while it is read.
- Download.ShouldSkip: of a destination that is a link or no file, any size may be reported.
- RemoteCopy.RemoteCopy: where files of the source land on links, what a tree copy does is stated for sources without
  links of their own, whose copies could lead later files elsewhere, and for landing places outside the source; a source
  link that meets a directory is not covered. The loop that copies a file's bytes is the one proved in `Download`, here
  one step.
- RemoteCopy.CopyDirectory: that a merge has every copy is stated for sources without scratch or backup names of their own
  entries; what it loses otherwise is stated exactly only for an absent destination.
- RemoteCopy.CopyEntry: modes and timestamps are free choices that may fail; a name moved aside as a backup takes only
  its own entry with it, which matters when a link is copied onto an existing directory.
- FileStore: links among the ancestors of a path that is operated on, and other writers to the same names.
- RemotePath.CanonicalRemotePath: making a relative path absolute by asking the server for its working directory.
- CommandResult.Observation.Conclude: the collected output and its truncation, and the phase reported when validation
  fails before the channel is opened.
- CommandExecution.NeverStuck: that readers and observer end once the channel is closed is the transport's part.
- EditorInput.ExactlyOnce: messages that are no keyboard input are posted without a receipt and count as consumed.
- EditorDecoder.Decoder.NextEvent: decoding a single sequence and recognising a complete rune are parameters.
- AuthDriver.Driver.Callback: building candidates, prompting for secrets, and what a candidate's method does.
- JumpChain.JumpChainMasters: jump specifications are given as their trimmed pieces between commas.
- EditorStop.StopIsBounded: that the interrupted reader soon stops reading is the terminal's part; each chunk it still
  delivers is counted.
- Handoff.Fleet.ReleaseMastersForHandoff: nobody else uses the masters meanwhile; idle timers, and the mark that a
  stop request should drop the reference, which giving the reference up clears for good.
- ShellQuoting.FormatScriptPayload: payloads for PowerShell and cmd, and the plan's digest and limits; other outer
  shells get the POSIX quotation.
- HistoryFile.History.Append: the limit on the length of one line, and retrying a rename on Windows.
- ShardedMap.Map.Keys: other scans (`IterCb`, serialisation) and a count taken among writers.
- ClientLeaseRuns.ChangeProgresses: an operation that waits for a refresh while it holds a lease itself.
- Real time: timeouts are steps that may happen at any moment.
- Commands, flags, progress display, terminal handling, cryptography and key parsing.
- The order of authentication candidates by preference, local path completion and the argument of the relay copy: each
  is one expression over its input, without state or interplay with the rest. Common prefixes inside an open quote, where
  nothing is escaped, are plain common prefixes.

# A verified model of the Discord-to-Codex bridge

The bridge lets people on Discord talk to Codex conversations: it prints short
names for conversations and reads them back, follows session logs while they are
being written, serialises work per conversation, tracks whether the remote agent
is really connected, cuts and delivers replies, and keeps a durable journal of
turn outcomes. This project models the parts of it whose correctness is a
statement about every input, every run or every interleaving, and proves those
statements.

Modules follow the components:

| module | component |
|---|---|
| `ThreadRefs`, `ReferenceNamespaces`, `WorkspacePaths` | conversation aliases, the resolver and its namespaces, working-directory normal forms |
| `SessionTail` | the resumable tail reader and the one-shot reader of session logs |
| `TargetLocks` | the weak-reference registry of per-conversation locks, as atomic steps and as an object |
| `AgentStatus` | the remote agent status object as programs of atomic loads and stores, under every interleaving |
| `Readiness`, `SoloCalls` | the same object for calls in sequence, with the reader of its status record, and the agreement of the two models |
| `ConnectionEpochs` | the reader's tracker of process identities and generations |
| `CanonicalJson` | key-sorted JSON |
| `MessageText`, `Delivery` | cutting text into messages and sending them with retries |
| `DigestInputs` | the bytes fed to SHA-256 for file trees and message nonces |
| `TurnOutcomes`, `OutcomeKeys` | parsing turn outcomes, the journal payload, final answers, and their JSON keys and words |
| `TurnTracking`, `Diagnostics`, `ContextUsage`, `ContextText` | streaming summaries of unbounded histories |
| `Text`, `Json`, `Sequences`, `Octets`, `Options` | shared vocabulary |

Code that updates fields or runs loops is modelled by classes and loops whose
postconditions tie them to specification functions; what the system promises is
then proved about those functions. Concurrent code is modelled as a transition
function over atomic steps with an inductive invariant.

Some expectations do not hold as one would first state them. For each the model
keeps the code's behaviour and has the exact condition beside a witness:

- An alias reads back as its conversation unless another conversation's relative
  working directory normalizes to the alias taken as a path
  (`ThreadRefs.AliasRoundTrip`, `ThreadRefs.FooBreaksRoundTrip`). With absolute
  directories it always does.
- The tail reader stops at a line that does not parse and the one-shot reader
  skips it, so they agree exactly when no object line follows such a line
  (`SessionTail.TailAgreesWithIter`, `SessionTail.ReadersCanDisagree`).
- Delivering the empty text sends a placeholder, so what was sent is a prefix of
  the text exactly when the text is not empty (`Delivery.PrefixExactlyForText`,
  `Delivery.EmptyTextSendsPlaceholder`).
- A single message shortened to a limit below the 25 characters of the truncation
  notice overruns it (`MessageText.FitSingleFitsExactly`,
  `MessageText.ShortLimitOverrun`).
- The tree digest input does not always determine the files. Backslashes are
  hashed as slashes, so paths are determined exactly when they hold no backslash
  (`DigestInputs.PathsDeterminedExactly`, `DigestInputs.BackslashCollides`). Size
  and content come from separate system calls, and a list with a wrong size
  shares its input with an honest one exactly when that input decodes
  (`DigestInputs.ImitatedExactly`, `DigestInputs.MisreportedSizeCollides`).
- The bounded join of text fragments does not count the line breaks of leading
  empty fragments, so it differs from the plain join when these would push text
  over the limit (`ContextText.AgreesWithPlainJoin`,
  `ContextText.EmptyFragmentIsNotCounted`).

## Model

| member | source | states |
|---|---|---|
| `WorkspacePaths.NormalizeWorkspacePath` | crates/cdr-codex-state/src/session_index.rs:64-85 | the component loop computes the normal form specified by the walk over `.`, `..` and names |
| `WorkspacePaths.NormalFormDecides` | crates/cdr-codex-state/src/session_index.rs:64-85 | two non-empty paths have one normal form exactly when both or neither are absolute and the same names survive |
| `WorkspacePaths.DetoursVanish` | crates/cdr-codex-state/src/session_index.rs:70-78 | a step into a folder and back, a `.` or a doubled separator anywhere in a path leaves its normal form alone |
| `WorkspacePaths.NoParentOfTheStart` | crates/cdr-codex-state/src/session_index.rs:73-75 | there is no way up from the start of a path |
| `WorkspacePaths.OrdinaryPathIsNormal` | crates/cdr-codex-state/src/session_index.rs:64-85 | an absolute path of ordinary names is its own normal form |
| `WorkspacePaths.NameIsNotAbsolute` | crates/cdr-codex-state/src/session_index.rs:64-85 | a single name never shares a normal form with an absolute path |
| `ThreadRefs.LastNameIs` | crates/cdr-codex-state/src/thread_ref.rs:161-167 | the folder name is the last component of the working directory, whatever separators trail it |
| `ThreadRefs.Totals` | crates/cdr-codex-state/src/thread_ref.rs:115-120 | the counter map holds, for every key, its number of occurrences and no other keys |
| `ThreadRefs.FirstPass` | crates/cdr-codex-state/src/thread_ref.rs:121-142 | the numbering loop files under each id the draft whose number is the rank of the conversation among those of its folder name |
| `ThreadRefs.SecondPass` | crates/cdr-codex-state/src/thread_ref.rs:143-158 | every id keeps its draft, or gets itself when the draft is unprintable or spells another conversation's id or folder |
| `ThreadRefs.WorkspaceRefMap` | crates/cdr-codex-state/src/thread_ref.rs:114-159 | the two passes together compute the reference map about which the lemmas below speak |
| `ThreadRefs.SharedNamesAreNumberedApart` | crates/cdr-codex-state/src/thread_ref.rs:121-139 | conversations that share a folder name are both numbered, with increasing numbers |
| `ThreadRefs.DraftsDiffer` | crates/cdr-codex-state/src/thread_ref.rs:121-142 | drafts that are both numbered or both bare never agree up to case |
| `ThreadRefs.DraftIsFree` | crates/cdr-codex-state/src/thread_ref.rs:131-139 | no draft reads as a keyword, an index, a UUID or an id prefix |
| `ThreadRefs.AliasStandsApart` | crates/cdr-codex-state/src/thread_ref.rs:143-158 | an alias that is not an id differs up to case from every other conversation's id, folder name and alias |
| `ThreadRefs.AliasesAreDistinct` | crates/cdr-codex-state/src/thread_ref.rs:114-159 | printed aliases are pairwise distinct |
| `ThreadRefs.FreeSpellingSelectsTheOnlyMention` | crates/cdr-codex-state/src/thread_ref.rs:60-96 | a spelling outside the id, keyword and index namespaces selects a conversation exactly when it alone is mentioned in the four overlapping namespaces |
| `ThreadRefs.AliasRoundTrip` | crates/cdr-codex-state/src/thread_ref.rs:60-77 | for distinct, trimmed ids the printed alias resolves to its own conversation if and only if it is the id or no other working directory is a spelling of it |
| `ThreadRefs.AliasRoundTripAbsolute` | crates/cdr-codex-state/src/thread_ref.rs:60-77 | with absolute working directories every printed alias resolves to its own conversation |
| `ThreadRefs.PathReadingBreaksRoundTrip` | crates/cdr-codex-state/src/thread_ref.rs:61-73 | whenever another directory normalizes to the alias, the alias does not resolve to its conversation |
| `ThreadRefs.RelativeFolderBreaksRoundTrip` | crates/cdr-codex-state/src/thread_ref.rs:61-73 | the family of failures: folders `/name` and `name/.` |
| `ThreadRefs.FooBreaksRoundTrip` | crates/cdr-codex-state/src/thread_ref.rs:61-73 | the concrete failure for the folder `foo` |
| `ReferenceNamespaces.NothingToResolve` | crates/cdr-codex-state/src/thread_ref.rs:27-29 | without conversations nothing resolves |
| `ReferenceNamespaces.ExactIdResolves` | crates/cdr-codex-state/src/thread_ref.rs:30-34 | a spelling that trims to an id selects the first conversation with it, before any other reading |
| `ReferenceNamespaces.UuidResolves` | crates/cdr-codex-state/src/thread_ref.rs:35-40 | a spelling in the shape of a UUID selects the first conversation whose id agrees with it up to ASCII case, and otherwise nothing |
| `ReferenceNamespaces.KeywordResolves` | crates/cdr-codex-state/src/thread_ref.rs:41-46 | "other" and "next", in any case, select the first conversation that is not the selected one; there is no alternate exactly when every one is |
| `ReferenceNamespaces.DigitsSelect` | crates/cdr-codex-state/src/thread_ref.rs:47-59 | a string of digits that is no id selects the conversation at that position, counted from one, and any other number is out of range |
| `ReferenceNamespaces.IndexResolves` | crates/cdr-codex-state/src/thread_ref.rs:51-54 | the numeral of a position selects exactly that position, whatever zeros precede it |
| `ReferenceNamespaces.IndexPastTheEnd` | crates/cdr-codex-state/src/thread_ref.rs:51-58 | zero and every number past the end are out of range |
| `ReferenceNamespaces.LooseResolves` | crates/cdr-codex-state/src/thread_ref.rs:60-96 | any other spelling is decided by the positions it names as id prefix, alias, path or folder: one is selected, none is not found, several are ambiguous and the first ten ids are listed |
| `ReferenceNamespaces.LoneFolderGivesItsName` | crates/cdr-codex-state/src/thread_ref.rs:131-139 | a folder shared with no other conversation, with a name no id could have, is printed as the alias |
| `ReferenceNamespaces.SharedFolderIsNumbered` | crates/cdr-codex-state/src/thread_ref.rs:127-137 | conversations that share a folder name get it with their rank in the list |
| `ReferenceNamespaces.ClaimedDraftFallsBack` | crates/cdr-codex-state/src/thread_ref.rs:144-157 | an alias that cannot be printed, or that spells another id or folder, gives way to the id |
| `ReferenceNamespaces.FolderName` | crates/cdr-codex-state/src/thread_ref.rs:161-167 | the folder is the last component of the trimmed working directory, whatever separators follow |
| `ReferenceNamespaces.FolderOfNowhere` | crates/cdr-codex-state/src/thread_ref.rs:163-166 | a conversation without a working directory is in "-", one at the root in "/" |
| `ReferenceNamespaces.ExtendedPrefixIsDropped` | crates/cdr-codex-state/src/session_index.rs:52-61 | the extended-length prefixes are dropped, that of a share for two backslashes |
| `SessionTail.IterSessionEvents` | crates/cdr-codex-state/src/tail.rs:66-81 | the one-shot loop returns the objects of all lines, in order |
| `SessionTail.IterReadsLines` | crates/cdr-codex-state/src/tail.rs:66-81 | reading a file once is reading each of its lines on its own: trimmed, and skipped if blank, bad or no object |
| `SessionTail.ReadNewSessionEvents` | crates/cdr-codex-state/src/tail.rs:17-64 | for every file, offset and limit the reading loop returns the first events before the first bad line, as many as the limit allows; it stops behind the line of the last one allowed, or at the bad line, or at the end |
| `SessionTail.ReadHonoursLimit` | crates/cdr-codex-state/src/tail.rs:31-61 | the same for the recursive reading that specifies the loop |
| `SessionTail.ReadLosesNothing` | crates/cdr-codex-state/src/tail.rs:17-64 | one limited read of any prefix of a file returns exactly the events missing from what remains to be read of the whole file |
| `SessionTail.RunOnTrack` | crates/cdr-codex-state/src/tail.rs:17-64 | over any schedule of appends and reads, what was collected and what lies behind the offset together are the events of the final file |
| `SessionTail.OffsetsNeverDecrease` | crates/cdr-codex-state/src/tail.rs:17-64 | resume offsets never move backwards in any schedule |
| `SessionTail.SelfDelimitingResumable` | crates/cdr-codex-state/src/tail.rs:41-53 | a line no proper prefix of which parses may be read in pieces without loss or repetition |
| `SessionTail.ScheduleCompletes` | crates/cdr-codex-state/src/tail.rs:17-64 | for any way of interpreting lines that can be resumed, every schedule ended by one unlimited read collects the same events |
| `SessionTail.AnyScheduleReadsEverything` | crates/cdr-codex-state/src/tail.rs:17-64 | for self-delimiting lines, every schedule ended by one unlimited read collects the events before the first line that does not parse |
| `SessionTail.ReadersAgreeExactly` | crates/cdr-codex-state/src/tail.rs:45-53 | stopping at a bad line and skipping it differ exactly when an object line follows a bad one |
| `SessionTail.TailAgreesWithIter` | crates/cdr-codex-state/src/tail.rs:17-81 | after any schedule and a last unlimited read the collection equals the one-shot result if and only if no object line follows a bad one |
| `SessionTail.ReadersCanDisagree` | crates/cdr-codex-state/src/tail.rs:45-53 | a file of self-delimiting lines, a bad one and then an object, on which the tail reader ends with nothing and the one-shot reader with the object |
| `TargetLocks.NextKeeps` | crates/cdr-runtime/src/queue_runner.rs:149-166 | every atomic step of retain, upgrade, insert, clone, drop, acquire and release keeps the registry invariant |
| `TargetLocks.OneLockPerTarget` | crates/cdr-runtime/src/queue_runner.rs:149-166 | in every run two live handles have one target exactly when they have one lock, and at most one guard per target exists |
| `TargetLocks.RetainLeavesLiveTargets` | crates/cdr-runtime/src/queue_runner.rs:157-159 | after retain every registered lock is alive or lost its last handle while the call was running |
| `TargetLocks.Registry.Retain` | crates/cdr-runtime/src/queue_runner.rs:157-159 | pruning leaves exactly the entries whose lock is alive |
| `TargetLocks.Registry.TargetLock` | crates/cdr-runtime/src/queue_runner.rs:149-166 | a call shares the live lock of the target or files a new one in the pruned registry |
| `TargetLocks.UninterruptedCall` | crates/cdr-runtime/src/queue_runner.rs:149-166 | the atomic steps of a call that nothing interrupts, in whatever order retain visits the entries, do what the object's method does |
| `TargetLocks.AcquireExactly` | crates/cdr-runtime/src/queue_runner.rs:87-117 | in every run a handle acquires its lock exactly when no handle of its target holds it, and a release gives back just that one |
| `TargetLocks.CloneSharesTheLock` | crates/cdr-runtime/src/queue_runner.rs:160-162 | one more handle of a lock is one more handle of the same lock |
| `TargetLocks.DropLetsGo` | crates/cdr-runtime/src/queue_runner.rs:157-159 | a dropped handle is gone, and with the last one the lock is dead |
| `AgentStatus.NextKeeps` | crates/cdr-remote-agent/src/status.rs:186-317 | every atomic load, store, lock and write of every thread keeps the closing invariant |
| `AgentStatus.ClosingIsFinal` | crates/cdr-remote-agent/src/status.rs:227-241 | in every interleaving, no record written after a drain or shutdown call returned is ready |
| `AgentStatus.NoConnectedAnswerWhileClosing` | crates/cdr-remote-agent/src/status.rs:186-192 | no connection query begun after a closing flag was stored answers yes |
| `AgentStatus.ClosedRecordOnDisk` | crates/cdr-remote-agent/src/status.rs:287-317 | once a closing call whose write succeeded has returned, the record on disk is not ready, then and ever after |
| `AgentStatus.DrainedRecordOnDisk` | crates/cdr-remote-agent/src/status.rs:287-317 | once a drain whose write succeeded has returned, the record on disk is draining, then and ever after |
| `AgentStatus.RacingConnectLeavesConnected` | crates/cdr-remote-agent/src/status.rs:265-278 | the race is real: some interleaving ends with the drain flag and the connected flag both set |
| `AgentStatus.MakeRecord` | crates/cdr-remote-agent/src/status.rs:120-151 | a record is acknowledged exactly when asked and not draining, ready exactly when also asked and acknowledged, and carries generation and times through |
| `Readiness.RemoteAgentStatus.PublishSnapshot` | crates/cdr-remote-agent/src/status.rs:287-317 | with a publisher attached and a write that succeeds, the record on disk has the drain flag, the generation, the clock, the readiness and the evidence of the fields, and otherwise it stays |
| `Readiness.RemoteAgentStatus.IsConnected` | crates/cdr-remote-agent/src/status.rs:186-205 | the query answers yes exactly when the calls made so far carry evidence of a connection that is still fresh, that is, when a record published at that moment would be ready |
| `Readiness.RemoteAgentStatus.AttachPublisher` | crates/cdr-remote-agent/src/status.rs:178-183 | attaching publishes at once, and fields and file stay those of the history of calls |
| `Readiness.RemoteAgentStatus.Heartbeat` | crates/cdr-remote-agent/src/status.rs:243-245 | a heartbeat only publishes, and fields and file stay those of the history of calls |
| `Readiness.RemoteAgentStatus.Connect` | crates/cdr-remote-agent/src/status.rs:265-278 | the method is the connect program run alone, followed by a publish, after which fields and file are those of the longer history |
| `Readiness.RemoteAgentStatus.Disconnect` | crates/cdr-remote-agent/src/status.rs:280-285 | the method is the disconnect program run alone, followed by a publish, after which fields and file are those of the longer history |
| `Readiness.RemoteAgentStatus.MarkDrain` | crates/cdr-remote-agent/src/status.rs:227-233 | the method is the drain program run alone, followed by a publish, after which fields and file are those of the longer history |
| `Readiness.RemoteAgentStatus.MarkShutdown` | crates/cdr-remote-agent/src/status.rs:235-241 | the method is the shutdown program run alone, followed by a publish, after which fields and file are those of the longer history |
| `Readiness.RemoteAgentStatus.Inbound` | crates/cdr-remote-agent/src/status.rs:247-263 | the method is the inbound program run alone, and publishes only when no guard stopped it; fields and file are those of the longer history |
| `Readiness.AlwaysCoherent` | crates/cdr-remote-agent/src/status.rs:227-285 | between calls the generations agree while connected, are cleared otherwise, and the flags record whether a closing call was ever made |
| `Readiness.EvidenceStep` | crates/cdr-remote-agent/src/status.rs:243-285 | how each call carries over, renews or ends the evidence in the history |
| `Readiness.ConnectedIffEvident` | crates/cdr-remote-agent/src/status.rs:227-285 | the object is connected with generation g and last frame time t exactly when the history's standing connect and latest frame say so |
| `Readiness.ReadyIffEvident` | crates/cdr-remote-agent/src/status.rs:287-317 | a published record is ready exactly on evidence that was fresh at its writing |
| `Readiness.AcceptedIffEvident` | crates/cdr-runtime/src/pro_runtime.rs:275-310 | a record passes the reader's timestamp and readiness checks exactly when it is young and the history carries fresh evidence of the generation and time it reports |
| `Readiness.ReadyRecordAcceptedExactly` | crates/cdr-runtime/src/pro_runtime.rs:275-310 | in every run a ready record on disk passes the checks exactly while its writing and the connection it reports are recent for the reader |
| `Readiness.DiskShowsAPrefix` | crates/cdr-remote-agent/src/status.rs:287-317 | whatever writes fail, the record on disk is the snapshot of a prefix of the calls, and of all of them when none failed |
| `Readiness.DiskAcceptedExactly` | crates/cdr-runtime/src/pro_runtime.rs:275-310 | in every run, whatever writes fail, the record on disk passes the checks if and only if it shows a prefix of the calls that carries the evidence it reports, fresh at the write and at the read; with no failed write that prefix is the whole run |
| `Readiness.DiskReports` | crates/cdr-remote-agent/src/status.rs:287-317 | in every run each field of the record on disk is decided by the calls it shows: draining by a drain among them, the generation by the last connect, the evidence by the standing connection, the times by the publish |
| `Readiness.SnapshotReports` | crates/cdr-remote-agent/src/status.rs:287-317 | the same for any published record |
| `Readiness.AcceptsExactly` | crates/cdr-runtime/src/pro_runtime.rs:275-310 | any record at all is accepted exactly when none of the checks, in their order, refuses it; a draining or unready one always is |
| `SoloCalls.CallAlone` | crates/cdr-remote-agent/src/status.rs:227-317 | a call whose atomic steps nothing interrupts leaves the atomics, the record on disk and the return of the call in sequence, and touches no other thread |
| `SoloCalls.QueryAlone` | crates/cdr-remote-agent/src/status.rs:186-205 | a query whose loads nothing interrupts answers yes exactly when a record published at that moment would be ready |
| `ConnectionEpochs.EpochTracker.VerifyReady` | crates/cdr-runtime/src/pro_runtime.rs:324-346 | the tracker step with its three refusals: over the whole history of offers, accepted exactly when verified and going forward from all epochs accepted before |
| `ConnectionEpochs.EpochTracker.VerifyUnchanged` | crates/cdr-runtime/src/pro_runtime.rs:200-211 | succeeds exactly when the offered epoch is accepted and is the expected one, which is then the latest accepted |
| `ConnectionEpochs.RunTracks` | crates/cdr-runtime/src/pro_runtime.rs:324-346 | over every sequence of offers accepted identities form blocks that never recur, generations never decrease inside a block, and the retired set is exactly the identities of earlier blocks |
| `ConnectionEpochs.AcceptedExactly` | crates/cdr-runtime/src/pro_runtime.rs:324-346 | an offer is accepted if and only if it was verified, revives no superseded identity and does not turn back its own generation |
| `ConnectionEpochs.RefusalsExactly` | crates/cdr-runtime/src/pro_runtime.rs:324-340 | each refusal by the epochs accepted before: of an identity that was superseded, or of the latest identity with a smaller generation |
| `ConnectionEpochs.NoAba` | crates/cdr-runtime/src/pro_runtime.rs:324-346 | an epoch accepted twice was the only one accepted in between |
| `ConnectionEpochs.UnchangedMeansUnchangedThroughout` | crates/cdr-runtime/src/pro_runtime.rs:200-211 | if the epoch of a turn's start is accepted again at its end, every epoch accepted during the turn was that one |
| `CanonicalJson.ToCanonical` | crates/cdr-core/src/canonical_json.rs:13-24 | removing the excluded keys in place and sorting gives the sorted form of the value without them, with the keys of every object in order |
| `CanonicalJson.SortPutsKeysInOrder` | crates/cdr-core/src/canonical_json.rs:26-38 | in every object of the sorted form, at every depth, a key is a proper prefix of a later one or has the smaller character where they first differ |
| `CanonicalJson.SortDecidesEquivalence` | crates/cdr-core/src/canonical_json.rs:26-38 | two values have one sorted form if and only if they are equal up to the order of object keys at every depth |
| `CanonicalJson.SortIdempotent` | crates/cdr-core/src/canonical_json.rs:26-38 | sorting twice is sorting once |
| `CanonicalJson.SortKeepsMeaning` | crates/cdr-core/src/canonical_json.rs:26-38 | a value is equivalent to its sorted form, so array order and scalars are kept |
| `CanonicalJson.SortKeepsWellFormed` | crates/cdr-core/src/canonical_json.rs:26-38 | sorted objects have distinct keys at every depth |
| `CanonicalJson.LookupWithoutAll` | crates/cdr-core/src/canonical_json.rs:18-22 | excluding keys removes exactly those keys, at the top level only |
| `CanonicalJson.CanonicalDecides` | crates/cdr-core/src/canonical_json.rs:13-38 | two objects have one canonical form with exclusions exactly when they agree, up to key order, on every key that is not excluded |
| `MessageText.SplitMessage` | crates/cdr-discord/src/text.rs:6-27 | the shrinking-text loop terminates for every text and positive limit and computes the recursive splitting |
| `MessageText.CutsAtTheLastLineBreak` | crates/cdr-discord/src/text.rs:13-22 | a long text is cut at the last line break within the limit that is not its first character, and at the limit only if there is none |
| `MessageText.SplitIsFaithful` | crates/cdr-discord/src/text.rs:6-27 | for text that is not blank the chunks are non-empty, within the limit, tight, and woven through the text with white space only between them |
| `MessageText.WovenSolid` | crates/cdr-discord/src/text.rs:6-27 | the characters of the chunks that are not white space, in order, are exactly those of the text |
| `MessageText.LinesStayWhole` | crates/cdr-discord/src/text.rs:13-22 | a text whose lines all fit the limit is cut at line breaks only, so no line is torn apart |
| `MessageText.SplitDeliveryChunks` | crates/cdr-discord/src/text.rs:30-44 | the delivery splitter marks the chunks of the shorter limit when there are several |
| `MessageText.SplitExactDeliveryChunks` | crates/cdr-discord/src/text.rs:48-75 | the exact splitter's loop computes the pieces of the text, marked when asked for and several |
| `MessageText.PiecesAreExact` | crates/cdr-discord/src/text.rs:60-64 | the pieces concatenate to the text, are not empty, and all but the last are exactly as long as the limit |
| `MessageText.DeliveryChunksFit` | crates/cdr-discord/src/text.rs:30-44 | every delivery chunk, marked or not, has between 1 and 1900 characters while there are fewer than 10^14 |
| `MessageText.ExactDeliveryChunksFit` | crates/cdr-discord/src/text.rs:48-75 | the same for exact chunks |
| `MessageText.UnmarkMark` | crates/cdr-discord/src/text.rs:38-43 | dropping the marker line of a marked chunk gives the chunk back |
| `MessageText.MarkedChunkReads` | crates/cdr-discord/src/text.rs:38-43 | a marked chunk reads its number, counted from one, then the number of chunks, then the chunk |
| `MessageText.BlankGivesPlaceholder` | crates/cdr-discord/src/text.rs:9-11 | a blank text is delivered as "(no output)" alone, and so is an empty saved text |
| `MessageText.FitSingleFitsExactly` | crates/cdr-discord/src/text.rs:78-86 | a fitted message is within the limit if and only if the trimmed text was or the limit has room for the notice |
| `MessageText.FitSingleKeepsABeginning` | crates/cdr-discord/src/text.rs:83-85 | a text that does not fit keeps, before the notice, as much of its first characters that leave room for it as does not end in white space |
| `MessageText.ShortLimitOverrun` | crates/cdr-discord/src/text.rs:83-85 | a two-character text fitted to one character gives 25 |
| `Delivery.DeliverOne` | crates/cdr-discord/src/delivery.rs:65-79 | the retry loop of one chunk makes the attempts of the specification, up to one more than the number of delays |
| `Delivery.DeliverChunks` | crates/cdr-discord/src/delivery.rs:54-81 | the nested loops make exactly the specified attempts, and the result reports the total, or the part, count and last error of the chunk that gave up |
| `Delivery.TraceOrderly` | crates/cdr-discord/src/delivery.rs:64-79 | attempts go through the chunks in order and a success ends a chunk's attempts |
| `Delivery.TraceSent` | crates/cdr-discord/src/delivery.rs:64-81 | chunks succeed once each and without gaps, up to the last chunk or to the one that gave up |
| `Delivery.TraceFailures` | crates/cdr-discord/src/delivery.rs:65-79 | the chunk that gave up was attempted once more than the number of delays |
| `Delivery.DeliverySendsFirst` | crates/cdr-discord/src/delivery.rs:54-81 | for any chunks and any failures exactly the first n were sent, once each and in order, and if these are not all, chunk n failed on the first attempt and on every retry |
| `Delivery.DeliveryKeepsAPrefix` | crates/cdr-discord/src/delivery.rs:54-81 | for every text, number of retries and pattern of failures the chunks sent concatenate to a prefix of the text, success means all of it, and failure at part p means p - 1 chunks were sent |
| `Delivery.DeliverText` | crates/cdr-discord/src/delivery.rs:41-52 | a reply is split at lines, marked if asked for, and delivered with the specified attempts |
| `Delivery.ReplyDelivery` | crates/cdr-discord/src/delivery.rs:41-52 | without marker lines the messages sent are the first chunks of the split text; of a text that is not blank they hold a prefix of its characters other than white space, and all of them on success |
| `Delivery.SavedTextDelivery` | crates/cdr-discord/src/text.rs:48-75 | with or without markers, the messages sent without their marker lines concatenate to a prefix of the text, and to all of it on success |
| `Delivery.PrefixExactlyForText` | crates/cdr-discord/src/text.rs:48-51 | the prefix property holds for every pattern of failures if and only if the text is not empty |
| `DigestInputs.HashFile` | crates/cdr-pro/src/fingerprint.rs:162-177 | the bytes added for a file are its path with every backslash turned into a slash, behind its length, its reported size and its content, however the reads cut it |
| `DigestInputs.TreeDigestInput` | crates/cdr-pro/src/fingerprint.rs:97-122 | the digest input is the concatenation of the entries in walk order |
| `DigestInputs.TreeInputDecodable` | crates/cdr-pro/src/fingerprint.rs:97-122 | for lists whose reported sizes are the sizes read, inputs are equal if and only if the lists of hashed paths and contents are |
| `DigestInputs.EntryLayout` | crates/cdr-pro/src/fingerprint.rs:162-177 | the entry of a file, place by place: the length of its path, the path, the reported size, the content |
| `DigestInputs.DecodeInput` | crates/cdr-pro/src/fingerprint.rs:97-122 | decoding the input of an honest list of any length gives the list back, under the hashed paths |
| `DigestInputs.DecodeSound` | crates/cdr-pro/src/fingerprint.rs:162-177 | whatever decodes, decodes to an honest list without backslashes whose input it is |
| `DigestInputs.PathsDeterminedExactly` | crates/cdr-pro/src/fingerprint.rs:163-165 | reading the input without backslashes gives an honest list back, and no other, if and only if none of its paths holds a backslash |
| `DigestInputs.ImitatedExactly` | crates/cdr-pro/src/fingerprint.rs:162-177 | a list shares its input with another, honest list if and only if a size is wrong and the input decodes, or all sizes are right and some path holds a separator |
| `DigestInputs.BackslashCollides` | crates/cdr-pro/src/fingerprint.rs:163-165 | the one-file trees `a\b` and `a/b` with equal content feed the same bytes |
| `DigestInputs.MisreportedSizeCollides` | crates/cdr-pro/src/fingerprint.rs:166-175 | with a wrong reported size one file imitates two |
| `DigestInputs.MessageNonce` | crates/cdr-discord/src/idempotent_message.rs:45-67 | the updates feed the specified input, and the nonce is the first eight hash bytes below 2^63 |
| `DigestInputs.NonceInputDecodable` | crates/cdr-discord/src/idempotent_message.rs:45-67 | nonce inputs are equal if and only if domain, channel, key and chunk index are |
| `DigestInputs.NonceLayout` | crates/cdr-discord/src/idempotent_message.rs:51-60 | the nonce input, place by place: the context, the domain behind its length, the channel, the key behind its length, the chunk |
| `DigestInputs.WordReadsBytes` | crates/cdr-discord/src/idempotent_message.rs:163-169 | a length or number is written with the most significant byte first: eight bytes are the word of their weighted sum |
| `DigestInputs.PrefixedSplit` | crates/cdr-discord/src/idempotent_message.rs:163-170 | a length-prefixed string can be told from what follows in one way only |
| `TurnOutcomes.UsageLimitIffCodeInReach` | crates/cdr-app-server/src/error.rs:87-118 | a usage limit is reported if and only if a code is carried at most four levels down the typed chain |
| `OutcomeKeys.CarriesExactly` | crates/cdr-app-server/src/error.rs:88-111 | a value carries a code as one of five words, itself or, without typed information, under one of four keys |
| `OutcomeKeys.DescendExactly` | crates/cdr-app-server/src/error.rs:104-113 | the chain goes down typed error information where there is any, and otherwise `data` |
| `TurnOutcomes.AcceptedIsParsed` | crates/cdr-app-server/src/outcomes.rs:231-292 | accepted completions have tight ids, a terminal status and a bounded message that only failures carry |
| `OutcomeKeys.CompletionIsAnnounced` | crates/cdr-app-server/src/outcomes.rs:69-84 | a payload is parsed to a completion if and only if it announces it: ids, status word, duration, interrupt origin, the message cut at 1000 characters and a usage-limit code in reach, key by key |
| `OutcomeKeys.RejectionsInOrder` | crates/cdr-app-server/src/outcomes.rs:231-292 | what is missing decides the error, in the order of the checks |
| `TurnOutcomes.ReparseJournal` | crates/cdr-app-server/src/outcomes.rs:296-311 | parsing a journal payload gives the completion back with its message trimmed and the interrupt origin of this parse |
| `TurnOutcomes.JournalRoundTrip` | crates/cdr-app-server/src/outcomes.rs:69-84 | for every accepted payload the journal round trip keeps all but trailing white space of the message, is exact if and only if there is none, and is exact from the second time on |
| `TurnOutcomes.ScanItems` | crates/cdr-app-server/src/outcomes.rs:153-182 | the loop reports the last final answer if there is one, or else the last message |
| `TurnOutcomes.ExtractTurnText` | crates/cdr-app-server/src/outcomes.rs:129-183 | the text of the requested turn, or the error of a malformed history |
| `OutcomeKeys.RequestedItems` | crates/cdr-app-server/src/outcomes.rs:134-152 | the items are those of the first turn with the requested id in the requested thread |
| `OutcomeKeys.NoRequestedItems` | crates/cdr-app-server/src/outcomes.rs:134-148 | without the thread, its turns or the turn the error says which |
| `OutcomeKeys.HeardExactly` | crates/cdr-app-server/src/outcomes.rs:155-173 | an item is an answer, or just a message, by its type, its delivery, its phase and its text |
| `OutcomeKeys.MessageTextExactly` | crates/cdr-app-server/src/outcomes.rs:209-229 | the text of a message is its own if not blank, or else the texts of its content on lines of their own |
| `OutcomeKeys.BlockTextsExactly` | crates/cdr-app-server/src/outcomes.rs:217-224 | a text block, wherever it stands, contributes its text in its place, and any other block nothing |
| `OutcomeKeys.HistoryByPosition` | crates/cdr-app-server/src/outcomes.rs:153-182 | the text of a history by position: the last answer, or else the last message, or else nothing |
| `OutcomeKeys.EventAnswerExactly` | crates/cdr-app-server/src/outcomes.rs:186-207 | an event yields an answer if and only if its item is one and it names a thread and a turn, which the answer then names |
| `TurnOutcomes.EventAndHistoryAgree` | crates/cdr-app-server/src/outcomes.rs:129-207 | over a turn's items announced one by one, the last answer of the events is the explicit final text of the history, and there is none exactly when the history has none |
| `TurnOutcomes.AsyncItemsAreTransparent` | crates/cdr-app-server/src/async_questions.rs:29-34 | an asynchronous question inserted anywhere changes neither text nor flag and produces no answer |
| `TurnTracking.RuntimeState.RecordNotification` | crates/cdr-app-server/src/state.rs:75-101 | the whole new state after one notification, which stays the one that the full history gives |
| `TurnTracking.RuntimeState.ActiveTurnId` | crates/cdr-app-server/src/state.rs:168-170 | after any notifications the answer is u exactly when the last start for the thread was u and no later completion names u |
| `TurnTracking.RuntimeState.HasActiveTurns` | crates/cdr-app-server/src/state.rs:172-174 | after any notifications, yes exactly when some turn of some thread was started last and not completed |
| `TurnTracking.IdsAreTheFirstFound` | crates/cdr-app-server/src/state.rs:184-216 | thread and turn are the first ids found in five and three places, in their order |
| `TurnTracking.StartedTurnIsActive` | crates/cdr-app-server/src/state.rs:81-87 | a "turn/started" makes its turn the active one of its thread, whatever came before, and touches no other |
| `TurnTracking.CompletedTurnIsCleared` | crates/cdr-app-server/src/state.rs:88-96 | a "turn/completed" of the active turn leaves the thread without one, and of any other turn changes nothing |
| `TurnTracking.OtherNotificationsAreIgnored` | crates/cdr-app-server/src/state.rs:81-96 | every other notification, and one without both ids, leaves all active turns alone |
| `TurnTracking.PlainStart` | crates/cdr-app-server/src/state.rs:81-87 | a start with "threadId" and "turnId" makes the trimmed turn active on the trimmed thread |
| `TurnTracking.ActiveIffRunning` | crates/cdr-app-server/src/state.rs:75-101 | after any history a thread's active turn is u exactly when its last start was u and no later completion names u |
| `TurnTracking.ActiveTurnSurvives` | crates/cdr-app-server/src/state.rs:81-96 | an active turn stays active through any further notifications that neither start a turn of its thread nor complete it, late completions of older turns among them |
| `TurnTracking.RetainedAreTheLatest` | crates/cdr-app-server/src/state.rs:97-100 | the retained queue is exactly the last notifications, at most 1000 |
| `TurnTracking.RevisionCountsAll` | crates/cdr-app-server/src/state.rs:75-80 | the revision is the number of notifications until the counter is exhausted, and exhaustion is recorded exactly then |
| `Diagnostics.BoundedDiagnostics.Push` | crates/cdr-app-server/src/diagnostics.rs:21-36 | the ring holds the lines retained of the whole history, with their exact byte count, and dropped plus retained counts every push ever made |
| `Diagnostics.BoundedDiagnostics.Snapshot` | crates/cdr-app-server/src/diagnostics.rs:38-44 | after any pushes the snapshot is the longest suffix of all lines within both bounds, never empty, with its exact size, and dropped plus retained is the number of pushes |
| `Diagnostics.TrimmedIsLongest` | crates/cdr-app-server/src/diagnostics.rs:27-35 | dropping from the front leaves the longest suffix within both bounds |
| `Diagnostics.RetainedIsLongestSuffix` | crates/cdr-app-server/src/diagnostics.rs:21-36 | after any pushes the ring holds the longest suffix of all lines within both bounds |
| `Diagnostics.NewestIsRetained` | crates/cdr-app-server/src/diagnostics.rs:22-35 | the newest line, truncated, is always the last one kept |
| `ContextUsage.Accumulator.UpdateWindow` | crates/cdr-codex-state/src/context_usage.rs:62-71 | the window report of an object, or its error, applied to the state |
| `ContextUsage.Accumulator.Record` | crates/cdr-codex-state/src/context_usage.rs:73-114 | the token observation of an object, or its error, applied to the state |
| `ContextUsage.Accumulator.Push` | crates/cdr-codex-state/src/context_usage.rs:37-60 | an event applies its observations in order and reports its error |
| `ContextUsage.ContextUsageFromEvents` | crates/cdr-codex-state/src/context_usage.rs:19-27 | a list of events gives the fold of all its observations, or the first error |
| `ContextUsage.FoldLinked` | crates/cdr-codex-state/src/context_usage.rs:62-103 | the state's window and previous input are the window in force and the nearest positive observation with no window change since |
| `ContextUsage.InfersExactly` | crates/cdr-codex-state/src/context_usage.rs:91-100 | the next observation is inferred to be a compaction exactly when it is one by its definition over the whole history |
| `ContextUsage.CompactionExactly` | crates/cdr-codex-state/src/context_usage.rs:91-100 | a compaction is two positive inputs with nothing positive and no change of window between, from at least 50,000 by at least 25,000 to under four fifths |
| `ContextUsage.InputExactly` | crates/cdr-codex-state/src/context_usage.rs:73-114 | an observation takes its input, total and time from their keys, and what is malformed decides the error |
| `ContextUsage.WindowExactly` | crates/cdr-codex-state/src/context_usage.rs:62-71 | a window report stands under its key; zero and null report none |
| `ContextUsage.EventExactly` | crates/cdr-codex-state/src/context_usage.rs:37-60 | only task starts and token counts contribute, and a token count its window before its observation |
| `ContextUsage.WindowBeforeExactly` | crates/cdr-codex-state/src/context_usage.rs:62-71 | the window in force is that of the last report |
| `ContextUsage.CompactionsCounted` | crates/cdr-codex-state/src/context_usage.rs:91-100 | the counter is the number of compactions in the history, up to saturation |
| `ContextUsage.CompactionsAreTheSetOfPositions` | crates/cdr-codex-state/src/context_usage.rs:91-100 | what is counted are the positions at which a compaction is complete |
| `ContextUsage.LastCompactionIsLatest` | crates/cdr-codex-state/src/context_usage.rs:91-100 | the reported pair is the latest compaction, and there is none exactly when the history has none |
| `ContextUsage.PeakAndLast` | crates/cdr-codex-state/src/context_usage.rs:104-112 | peak is the maximum input, and input, total, window and time are those of the final token observation |
| `ContextText.BoundedJoin` | crates/cdr-codex-state/src/context_text.rs:102-119 | the early-exit loop gives the same text and truncation flag as joining everything first, without the line breaks of leading empty fragments |
| `ContextText.AgreesWithPlainJoin` | crates/cdr-codex-state/src/context_text.rs:102-119 | the loop agrees with the plain join if and only if the plain join is within the limit, or the text alone is beyond it and only white space is pushed out |
| `ContextText.EmptyFragmentIsNotCounted` | crates/cdr-codex-state/src/context_text.rs:104-106 | an empty fragment before a text of exactly 1500 characters: the loop truncates nothing, the plain join does |
| `ContextText.ExtractItem` | crates/cdr-codex-state/src/context_text.rs:56-129 | with the early-exit loop the item of an event is the one that the full join of its fragments gives: its caption, its text, never empty and within 1500 characters, and its truncation flag |
| `ContextText.MessageEventsExactly` | crates/cdr-codex-state/src/context_text.rs:64-66 | user and agent messages give their text under their caption, final or commentary by phase |
| `ContextText.ResponseMessagesExactly` | crates/cdr-codex-state/src/context_text.rs:67-75 | response messages give their content texts by role, and other roles nothing |
| `ContextText.ContentTextsExactly` | crates/cdr-codex-state/src/context_text.rs:69-74 | a text of the content contributes in its place, and any other part nothing |
| `ContextText.CallsExactly` | crates/cdr-codex-state/src/context_text.rs:76-93 | a call that waits for a choice or an approval gives that notice, and any other call nothing |
| `ContextText.OtherEventsGiveNothing` | crates/cdr-codex-state/src/context_text.rs:61-63 | analysis and every other kind of event give nothing |
| `ContextText.TimestampExactly` | crates/cdr-codex-state/src/context_text.rs:131-135 | the time is the first 64 characters of the timestamp, if that is a string |
| `ContextText.Clamp` | crates/cdr-codex-state/src/context_text.rs:25-31 | a limit from 1 to 50 is kept, and any other becomes the nearer of the two |
| `ContextText.ContributionExactly` | crates/cdr-codex-state/src/context_text.rs:33-43 | everything extracted counts when all is visible, and otherwise only the user and final answers |
| `ContextText.RecentText.Push` | crates/cdr-codex-state/src/context_text.rs:33-49 | a window over a stream becomes the window over the stream with this event's contribution |
| `ContextText.RecentItems` | crates/cdr-codex-state/src/context_text.rs:33-53 | after any events the window is exactly the end of the stream of eligible items, as long as the limit allows |

## Left out

- Gateway ingress, dispatch, checkpoints, server-request claims and the stores, whose code lies outside these components.
- Processes, sockets, HTTP, SQLite and the file system: files are their contents, clocks are parameters and failures of reads are not modelled; the missing-file error of the one-shot reader is one of these.
- The JSON grammar, its printing and UTF-8: the parser is a parameter about which the tail lemmas assume, as section 4 of RFC 8259 implies for objects, that no proper prefix of a line parses. Offsets count characters.
- SHA-256 itself and its collisions: only what is fed to it.
- The Unicode case and alphanumeric tables, which are a parameter constrained to agree with ASCII; lower-casing is character by character, without the final-sigma rule.
- Windows path components and the lower-casing of paths on Windows.
- The memory model below sequential consistency, a poisoned publisher mutex, and 64-bit overflow of clock arithmetic: atomics interleave as single steps and times are unbounded integers.
- In the record reader, the schema, ownership, lock-file and live-process checks, which are one arbitrary verdict before the tracker; and the epochs of an embedded connection.
- The filtering of ignored paths and links in the file tree, and the error paths of its walk.
- A diagnostic line cut inside a character (the original cuts at a byte index) and the overflow of its dropped-line counter.
- The users of a target lock beyond acquiring and releasing it.
- `parse_thread_turn_states`, option tables, report formatting and the like, which would add only members proved by one case split.
- DigestInputs.HashFile: does not model the replacement of bytes that are not valid Unicode in a path; paths are taken as valid.

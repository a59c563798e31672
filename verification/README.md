# Verified model of the sandbox platform's durable core

This project models, in Dafny, the parts of the KiroCrew AgentCore platform whose
guarantees span many calls, and proves those guarantees for all inputs and all
interleavings. `dafny verify dfyconfig.toml` checks everything.

**The sandbox record** (`SandboxRecord`, `SandboxSystem`, `SandboxInvariants`,
`SandboxSafety`, `SandboxEnrolment`, `SandboxLineage`, `SandboxLiveness`, `SandboxStart`,
`SandboxTightness`, `SandboxScenarios`, `SandboxProgress`). One DynamoDB item per sandbox is written by the
control plane (read, then a full put under a compare-and-swap on the version), by the
persistence broker (conditional updates) and through it by any number of microVMs, two
of which may share a runtime session. The model is a transition system in which
authorizing a broker call and applying it are separate steps, and so are the
control plane's read, decision and put; whatever is in flight may land late, repeatedly
or never. `Guard` and `Write` transcribe the broker's condition and update expressions
(acquireInit, heartbeatInit, heartbeatLease, healReady, markReady, markError,
checkpointReceipt), `DecideStart`, `StoppedView` and `DeletionView` the control plane's
decisions, `ViewOf` and `ItemOf` what a full put drops. Times are whole seconds.

**Checkpoint and restore** (`Paths`, `Manifest`, `Builder`, `IncrementalBuild`,
`StaleStamps`, `Journal`, `DurableStore`, `CheckpointEngine`, `Decoder`, `Materialize`, `RoundTrip`,
`Install`, `Retention`, `Writers`, `Recovery`, `Lifetime`, `DigestWitness`). The manifest builder with its
stamp cache, the dirty journal, the content-addressed store over a network that loses requests and replies, the engine with a
failure at any step, the decoder, the two passes that write the stage, the swap with its
rollback, the choice of generation, mark-and-sweep retention, several writers at once, and
the compositions: a restore of the workspace from the store over a network that fails, and a
whole life on one disk followed by such a restore. Objects that change are
classes; each method is tied to a function of the old state, and the laws are proved about
those functions.

**The event stream** (`Chunking`, `Wire`, `LiveStream`, `Sse`, `EventStream`,
`StreamRoundTrip`, `Codecs`, `Utf8`). The adapter's buffer, splitting, numbering, printing, encoding
and retries; the browser's decoding and parsing of arbitrary fragments of bytes, reassembly and renumbering per request.

**Grants and wakes** (`Grants`, `Waker`). The batched grant cache and the waker's decision.

SHA-256 is any function to 64 hex digits (`Manifest.HexDigests`). It cannot be injective, so
each result that needs it to tell contents apart says which: the recorded pieces of the frozen
workspaces and the chunks of the store (`Manifest.CollisionFree`). `DigestWitness` shows that
these conditions can be met. Encryption is transparent; JSON and base64 are a pair of
functions that undo each other (`Wire.Faithful`); that an event shaped like a chunk never arrives
also assumes that no payload is the content of its own single chunk
(`Wire.NotSelfContained`), and `Codecs.CodecsExist` shows that both can be had at once;
receipts are unforgeable tokens.

## Where the code does less than it says

- `_install` says every move is undone if a later one fails. The old state file is kept in
  the backup under the name `persistence.json`, so a user's own top-level file of that
  name is moved over it and a later failure leaves no state file. The exact condition is
  `Install.StateSurvivesEveryFailure`.
- A holder that never misses a beat can be displaced. Lease beats do not move the version, so a
  start that read the record, and looks at the clock only when the lease it read is over, still
  wins its compare-and-swap and rotates the session under a lease that has been renewed since;
  and service reported more than a minute ago lets another container claim. The exact pace at
  which neither happens is `SandboxLiveness.Prompt` (`SandboxTightness.PromptIsExact`), for a
  restoring container `SandboxStart.PromptStart` (`SandboxTightness.PromptStartIsExact`).
- The comment on `record_wake_subject` says a targeted SET avoids clobbering fields; its own
  field can be clobbered by a put whose read came before it, because the SET does not move
  the version (`SandboxEnrolment.EnrolmentCanBeOverwritten`; exactly when is `PutLosesEnrolment`
  for one put and `EnrolmentKeptUnlessStraddled` for a whole history).
- The comment on `RuntimeEventStream` promises one event per logical event whatever the
  payload. A payload shaped like a chunk and small enough to be sent whole is mistaken for
  one (`EventStream.ArrivesIffRecognisable`), and an event of more envelopes than the
  buffer holds leaves a gap in the numbers (`LiveStream.ContiguousIffFits`).
- A rewrite that leaves a file's stamp as it was is not seen by the next build. Exactly when this
  happens is `StaleStamps.StoreIsNoticedUnlessMasked`; with ctimes stamped within the racy window
  it never does (`IncrementalBuild.IncrementalBuildIsFullBuild`).
- The builder does not enforce the decoder's limits; the round trip holds exactly within
  them (`RoundTrip.PrintThenDecode`).

## Model

| member | source | states |
|---|---|---|
| `SandboxInvariants.InvNext` | infrastructure/functions/persistence/src/kirocrew_agentcore_persistence/lambda_handler.py:297-548 | Every step of the system (a broker call authorized or landing, a control-plane read, decision or put, a restore, a commit object, a tick) keeps the whole invariant: leases follow the session, an init owner is the holder, in-flight work is never ahead of the record, the catalog matches the commits, the log is fenced and chained |
| `SandboxInvariants.ReachableInv` | infrastructure/functions/control/src/kirocrew_agentcore_control/lambda_handler.py:286-382 | That invariant holds in every state any interleaving can reach from a newly created record |
| `SandboxSafety.HolderIsFenced` | infrastructure/functions/persistence/src/kirocrew_agentcore_persistence/lambda_handler.py:308-361 | In every reachable state the holder is the instance whose claim applied last, a present init owner is that same instance, and every beat, receipt, report of readiness and report of failure ever applied came from the instance that was the last claimant at that moment |
| `SandboxSafety.RewritesLoseNothingVersioned` | infrastructure/functions/control/src/kirocrew_agentcore_control/lambda_handler.py:371-495 | However read-then-put rewrites and broker updates interleave, generation pointer, holder, due time, due job and restore seconds hold the last value written |
| `SandboxSafety.PutChangesOnlyItsOwn` | infrastructure/functions/control/src/kirocrew_agentcore_control/lambda_handler.py:371-449 | A put that wins its compare-and-swap changes, of the versioned fields as they are at that moment, exactly those of its operation, under a session never used before if it rotates, and drops the init owner and the checkpoint digest; what moves without the version goes back to what its read saw |
| `SandboxEnrolment.PutLandsIffQuiet` | infrastructure/functions/control/src/kirocrew_agentcore_control/lambda_handler.py:371-382 | A prepared put wins its compare-and-swap if and only if nothing versioned was written since its read, in any reachable state |
| `SandboxEnrolment.EnrolmentCanBeOverwritten` | infrastructure/functions/control/src/kirocrew_agentcore_control/lambda_handler.py:206-222 | The sealed wake subject has no such protection: a concrete reachable state in which a prepared put erases an enrolment that landed after its read |
| `SandboxEnrolment.PutLosesEnrolment` | infrastructure/functions/control/src/kirocrew_agentcore_control/lambda_handler.py:406-449 | In any reachable state a put loses an enrolment if and only if nothing versioned was written since its read and the last enrolment since then brought another value than the read saw |
| `SandboxEnrolment.EnrolmentKeptUnlessStraddled` | infrastructure/functions/control/src/kirocrew_agentcore_control/lambda_handler.py:206-222 | Over every history the record holds the last subject enrolled if and only if no rewrite landed after it that goes back to a read made before it and of another value |
| `SandboxSafety.CatalogMatchesCommits` | infrastructure/functions/persistence/src/kirocrew_agentcore_persistence/lambda_handler.py:850-931 | In every reachable state the generation pointer is the largest catalogued generation, every catalogued digest is the digest of its write-once commit object, and every issued receipt is catalogued |
| `SandboxLineage.SentOnOwnNewest` | infrastructure/functions/persistence/src/kirocrew_agentcore_persistence/remote.py:127-149 | Every receipt sent in any reachable state names as its base the newest generation in its own container's history of restores, attempts and accepted receipts |
| `SandboxLineage.AcceptedReceiptsFormOneChain` | infrastructure/functions/persistence/src/kirocrew_agentcore_persistence/lambda_handler.py:829-895 | Apart from exact replays, a receipt is accepted only if every generation accepted before is at most the newest one its own container had restored, tried to restore or had accepted by then, and its base is exactly that one |
| `SandboxLineage.ReplaysRepeatTheNewest` | infrastructure/functions/persistence/src/kirocrew_agentcore_persistence/lambda_handler.py:863-868 | An accepted replay repeats the newest generation accepted so far |
| `SandboxSafety.PointerNeverDecreases` | infrastructure/functions/persistence/src/kirocrew_agentcore_persistence/lambda_handler.py:857-886 | Over every continuation of every state that satisfies the invariant the generation pointer never moves back |
| `SandboxSafety.CommitsNeverBehindPointer` | runtime/src/kirocrew_agentcore_runtime/aws_runtime.py:1198-1205 | However long a container waits between reading the generation pointer and listing the commits, the newest commit is not behind it, so the data-loss check never fires falsely |
| `SandboxSafety.RotatedSessionsAreDead` | infrastructure/functions/persistence/src/kirocrew_agentcore_persistence/lambda_handler.py:133-154 | Once a session is rotated away, no call under it but an init heartbeat is applied in any continuation, even if it was authorized before the rotation |
| `SandboxSafety.StopsAreSafe` | infrastructure/functions/control/src/kirocrew_agentcore_control/api.py:733-769 | Every stop in every reachable history presented a receipt for the current generation, which is catalogued and committed with the receipt's digest, and no receipt was accepted between the check and the stop |
| `SandboxSafety.OnlyACheckedPutStops` | infrastructure/functions/control/src/kirocrew_agentcore_control/lambda_handler.py:333-356 | The only step that takes a record into STOPPED is a put prepared by that check, from STOPPING, with the generation pointer at the receipt's generation |
| `SandboxLiveness.QuietRecordRotates` | infrastructure/functions/control/src/kirocrew_agentcore_control/sandbox.py:104-122 | Five minutes after the last write no lease, init lease or start grace stands in the way of a rotation, and there is no lease conflict |
| `SandboxLiveness.StartLands` | infrastructure/functions/control/src/kirocrew_agentcore_control/lambda_handler.py:294-331 | The four steps of an undisturbed start end in STARTING under the new session with no init owner and exactly one more log entry |
| `SandboxLiveness.NoSelfLock` | infrastructure/functions/persistence/src/kirocrew_agentcore_persistence/lambda_handler.py:337-346 | From every state that satisfies the invariant, after five minutes without writes a start rotates the session and the first claim under it is authorized and applies, whoever makes it and whenever it lands |
| `SandboxStart.ClaimIsStable` | infrastructure/functions/persistence/src/kirocrew_agentcore_persistence/lambda_handler.py:297-385 | Over every run in which the owner's init heartbeats keep pace, no other claim or report applies, no rewrite lands and the session stays, until the owner reports ready or failed |
| `SandboxStart.NursedStartIsUndisturbed` | infrastructure/functions/persistence/src/kirocrew_agentcore_persistence/lambda_handler.py:367-385 | The same from the moment an instance's claim applies in any reachable state |
| `SandboxLiveness.MarkReadyHolds` | infrastructure/functions/persistence/src/kirocrew_agentcore_persistence/lambda_handler.py:472-512 | The write that publishes READY makes its instance hold the sandbox, with every control-plane read in flight already harmless |
| `SandboxLiveness.LiveHolderIsStable` | infrastructure/functions/persistence/src/kirocrew_agentcore_persistence/lambda_handler.py:297-364 | Over every run in which the holder beats and serves at the stated pace, no claim applies and the session is not rotated until the record is STOPPED, whatever stale reads and late writes are in flight |
| `SandboxLiveness.ReadyHolderKeepsSandbox` | infrastructure/functions/persistence/src/kirocrew_agentcore_persistence/lambda_handler.py:429-512 | The same from the moment an instance's markReady applies in any reachable state |
| `SandboxTightness.IdleHolderIsDisplaced` | infrastructure/functions/persistence/src/kirocrew_agentcore_persistence/lambda_handler.py:337-346 | Beat interval, age of service and delay that add up to 61 seconds: from every beating state there is a run without a missed beat in which another container's claim applies |
| `SandboxTightness.StaleReadRotates` | infrastructure/functions/control/src/kirocrew_agentcore_control/lambda_handler.py:286-331 | Beat interval, delay and read-to-clock delay that add up to 90 seconds: from every state in which a ready or a restoring container beats there is a run without a missed beat in which a start that read the record earlier rotates the session under it |
| `SandboxTightness.PromptIsExact` | infrastructure/functions/persistence/src/kirocrew_agentcore_persistence/lambda_handler.py:429-453 | For every beat interval of a second or more, every attended run from every just-ready reachable state keeps the holder if and only if the pace is prompt |
| `SandboxTightness.PromptStartIsExact` | infrastructure/functions/persistence/src/kirocrew_agentcore_persistence/lambda_handler.py:367-385 | For every beat interval of a second or more, every nursed run from every just-claimed reachable state is undisturbed if and only if the pace is prompt |
| `SandboxProgress.StateMoves` | infrastructure/functions/persistence/src/kirocrew_agentcore_persistence/lambda_handler.py:297-548 | From every state that satisfies the invariant the lifecycle state moves only along the ways listed: who may move it, from where and by which call or put; BUSY and CHECKPOINTING are never entered |
| `SandboxProgress.StopLands` | infrastructure/functions/control/src/kirocrew_agentcore_control/api.py:733-769 | From every state, a final receipt that lands followed by an undisturbed stop with its token ends in STOPPED without a start lease, and the history shows that receipt and that stop and nothing else |
| `SandboxProgress.StopIsReached` | infrastructure/functions/persistence/src/kirocrew_agentcore_persistence/lambda_handler.py:850-895 | It does happen: a reachable state in which a first start, a restore, a checkpoint, its final receipt and a stop have ended in STOPPED |
| `SandboxProgress.ReceiptIsAccepted` | infrastructure/functions/persistence/src/kirocrew_agentcore_persistence/lambda_handler.py:829-895 | A ready holder whose base is not behind the generation pointer can always send a receipt for a newer commit, final or not, and it lands |
| `SandboxProgress.ReplayIsAccepted` | infrastructure/functions/persistence/src/kirocrew_agentcore_persistence/lambda_handler.py:863-868 | The same receipt sent again lands once more as a replay, and changes the version and nothing else |
| `SandboxProgress.DeadHolderIsReplaced` | infrastructure/functions/persistence/src/kirocrew_agentcore_persistence/lambda_handler.py:312-346 | A READY record is claimable as soon as its lease is over, so a holder that is gone never locks the sandbox |
| `SandboxProgress.DeadInitializerIsReplaced` | infrastructure/functions/persistence/src/kirocrew_agentcore_persistence/lambda_handler.py:337-346 | So is one whose initializer has stopped beating |
| `SandboxProgress.ClaimTakesOnlyWhatIsFree` | infrastructure/functions/persistence/src/kirocrew_agentcore_persistence/lambda_handler.py:337-346 | A claim lands only if no other initializer is alive, and under a live lease only against another container that has served nobody for a minute |
| `SandboxProgress.InitializerGivesUp` | infrastructure/functions/persistence/src/kirocrew_agentcore_persistence/lambda_handler.py:515-548 | The last claimant of a restoring sandbox can mark it failed, which leaves no initializer |
| `SandboxProgress.ReadyContainerHeals` | infrastructure/functions/persistence/src/kirocrew_agentcore_persistence/lambda_handler.py:456-469 | A container that is ready under the record's session takes STARTING back to READY |
| `SandboxProgress.DeletionLands` | infrastructure/functions/control/src/kirocrew_agentcore_control/lambda_handler.py:358-369 | A stopped sandbox can be marked for deletion, which changes nothing else of its state |
| `SandboxProgress.SentOnlyInUse` | infrastructure/functions/persistence/src/kirocrew_agentcore_persistence/lambda_handler.py:133-154 | A call is sent only under the record's session while it is in use or initializing, by a container in the right phase, and a receipt only on the container's own base for a commit that is there |
| `SandboxProgress.ReadyOnlyAfterRestore` | runtime/src/kirocrew_agentcore_runtime/aws_runtime.py:1198-1251 | In every reachable history a container reports ready only after it has restored |
| `SandboxProgress.RotatesIff` | infrastructure/functions/control/src/kirocrew_agentcore_control/lambda_handler.py:286-331 | A start rotates exactly if the leases it read are over and it either is confirmed or neither meets another owner nor a start of the last five minutes |
| `SandboxProgress.StaleStartNeverRotates` | infrastructure/functions/control/src/kirocrew_agentcore_control/lambda_handler.py:303-309 | A start opened under a session that was rotated away since does not rotate again unless the sandbox was stopped |
| `SandboxProgress.CallsAndLeases` | infrastructure/functions/persistence/src/kirocrew_agentcore_persistence/lambda_handler.py:297-548 | Field by field: which calls set, extend and end the start lease, the init lease and the holder |
| `SandboxProgress.CallsAndContents` | infrastructure/functions/persistence/src/kirocrew_agentcore_persistence/lambda_handler.py:297-548 | The same for state, version, clock, service, outcome and progress; no call touches session, wake subject or deletion |
| `SandboxProgress.CallsAndCheckpoints` | infrastructure/functions/persistence/src/kirocrew_agentcore_persistence/lambda_handler.py:829-895 | Only a receipt moves the generation pointer and its digest, and it publishes exactly the hints it carries |
| `Paths.SplitJoin` | infrastructure/functions/persistence/src/kirocrew_agentcore_persistence/manifest.py:54-80 | Printing a proper path and parsing it back gives the path |
| `Paths.JoinSplit` | infrastructure/functions/persistence/src/kirocrew_agentcore_persistence/restore.py:187-200 | Parsing any path text and printing it back gives the text |
| `Paths.SafeSymlinkTarget` | infrastructure/functions/persistence/src/kirocrew_agentcore_persistence/manifest.py:33-51 | The depth counter accepts a link exactly when following it segment by segment never climbs above the workspace root and the target is not absolute |
| `Paths.StaysInsideCounts` | infrastructure/functions/persistence/src/kirocrew_agentcore_persistence/manifest.py:33-51 | A link target stays inside exactly if it is relative and in no prefix of its segments ".." occurs more often than the link is deep plus the other real segments |
| `Paths.ExcludedAnywhere` | infrastructure/functions/persistence/src/kirocrew_agentcore_persistence/manifest.py:199-207 | A path with an excluded run of segments anywhere in it is never included |
| `Paths.IncludedIsDurable` | infrastructure/functions/persistence/src/kirocrew_agentcore_persistence/manifest.py:192-210 | An included path lies below a durable root, never goes up, and has neither an excluded name nor an excluded ending |
| `Paths.LessIsLexicographic` | infrastructure/functions/persistence/src/kirocrew_agentcore_persistence/manifest.py:362-368 | One path text comes before another exactly if it is cut short or has the smaller character where they first differ |
| `Manifest.SortByPathSorts` | infrastructure/functions/persistence/src/kirocrew_agentcore_persistence/manifest.py:362-368 | Sorting keeps exactly the given entries and puts distinct paths in strictly increasing order |
| `Builder.ManifestBuilder.ReadChunks` | infrastructure/functions/persistence/src/kirocrew_agentcore_persistence/manifest.py:374-379 | The reading loop yields the pieces of the file, one empty piece for an empty file |
| `Builder.ManifestBuilder.ReadFile` | infrastructure/functions/persistence/src/kirocrew_agentcore_persistence/manifest.py:341-361 | The file's entry carries the digest of the whole content and of each piece, and each new piece joins the upload set once |
| `Builder.ManifestBuilder.Build` | infrastructure/functions/persistence/src/kirocrew_agentcore_persistence/manifest.py:281-369 | One pass over the walk gives the entries, the upload set and the next baseline that the specification gives for this cache; generation 0 is refused |
| `Builder.BaselineIs` | infrastructure/functions/persistence/src/kirocrew_agentcore_persistence/manifest.py:334-361 | The next baseline holds, for each recorded file, its old entry if that was reused, a new one if neither time is within the racy window, and nothing otherwise; and nothing else |
| `Builder.UploadSetIs` | infrastructure/functions/persistence/src/kirocrew_agentcore_persistence/manifest.py:341-361 | The upload set holds the pieces of exactly the recorded files that were read |
| `IncrementalBuild.IncrementalBuildIsFullBuild` | infrastructure/functions/persistence/src/kirocrew_agentcore_persistence/manifest.py:264-369 | Over every history of writes, rearrangements, builds, lost commits and forgotten baselines in which each file change stamps its ctime within the racy window of a clock that does not run backwards, a build from the stamp cache records the entries a build that reads every file records |
| `IncrementalBuild.CoherentStep` | infrastructure/functions/persistence/src/kirocrew_agentcore_persistence/manifest.py:101-133 | Each act of such a history keeps every cached entry older than the window and true of its inode for as long as the inode carries the stamp |
| `StaleStamps.StoreIsNoticedUnlessMasked` | infrastructure/functions/persistence/src/kirocrew_agentcore_persistence/manifest.py:101-133 | Without the clock assumption, and for every digest function, coherent state and store: the build from the cache records what a full read records if and only if no walked and recorded name of the inode carries in the cache the stamp the store leaves, with other digests than those of the new content |
| `StaleStamps.MissedIsHiddenChange` | infrastructure/functions/persistence/src/kirocrew_agentcore_persistence/manifest.py:334-340 | Among contents that do not collide, the masked stores are exactly those that change the bytes a cached entry of the inode was read from and leave its stamp as it was |
| `StaleStamps.StaleStampIsReused` | infrastructure/functions/persistence/src/kirocrew_agentcore_persistence/manifest.py:334-340 | That condition does fail: after a store, a wait, a build and its commit from an empty cache, a rewrite with another digest that keeps size, times, inode and mode is missed |
| `Journal.LaterIsWhatCameAfter` | infrastructure/functions/persistence/src/kirocrew_agentcore_persistence/journal.py:63-65 | Clearing through a snapshot forgets exactly the marks the snapshot saw and keeps every later one |
| `Journal.DirtyJournal.Record` | infrastructure/functions/persistence/src/kirocrew_agentcore_persistence/journal.py:44-52 | A safe relative path is appended under the next number in normal form; any other path is refused and changes nothing |
| `Journal.SafeRelativeIs` | infrastructure/functions/persistence/src/kirocrew_agentcore_persistence/journal.py:44-52 | A path is recorded exactly if it does not start with a slash, has no ".." among its segments and names something |
| `Journal.RecordedInNormalForm` | infrastructure/functions/persistence/src/kirocrew_agentcore_persistence/journal.py:44-52 | What is recorded is in normal form, and is the path itself if that was |
| `Journal.DirtyJournal.Snapshot` | infrastructure/functions/persistence/src/kirocrew_agentcore_persistence/journal.py:54-61 | The snapshot names the last number, the marked paths and the time of the oldest mark |
| `Journal.DirtyJournal.ClearThrough` | infrastructure/functions/persistence/src/kirocrew_agentcore_persistence/journal.py:63-65 | Marks up to the number go, the others stay in order |
| `DurableStore.Store.HasChunk` | infrastructure/functions/persistence/src/kirocrew_agentcore_persistence/durability.py:332-349 | A positive answer is always true, with or without the cached index; a failed listing falls back to asking for the one chunk |
| `DurableStore.Store.UploadChunk` | infrastructure/functions/persistence/src/kirocrew_agentcore_persistence/durability.py:351-357 | Success means the chunk is durable and indexed; whatever is lost on the way, nothing else changes |
| `DurableStore.Store.UploadManifest` | infrastructure/functions/persistence/src/kirocrew_agentcore_persistence/durability.py:382-392 | Create-only: a taken number is refused and no manifest is ever replaced |
| `DurableStore.Store.CommitGeneration` | infrastructure/functions/persistence/src/kirocrew_agentcore_persistence/durability.py:394-412 | A commit appears only for a manifest with that digest and a number above every commit; without faults it succeeds exactly then |
| `DurableStore.Store.NextGeneration` | infrastructure/functions/persistence/src/kirocrew_agentcore_persistence/durability.py:418-433 | The number is above every commit and every manifest, orphans included, and the first such number |
| `CheckpointEngine.OutcomeCovered` | infrastructure/functions/persistence/src/kirocrew_agentcore_persistence/checkpoint.py:155-213 | If the baseline names only durable chunks and the build's upload set is durable, then so is every chunk the manifest names, reused entries included, and every chunk the next baseline names |
| `CheckpointEngine.ChunksArePieces` | infrastructure/functions/persistence/src/kirocrew_agentcore_persistence/manifest.py:341-361 | Each chunk a build would upload is a piece of a recorded file of the frozen workspace |
| `CheckpointEngine.Engine.UploadChunks` | infrastructure/functions/persistence/src/kirocrew_agentcore_persistence/checkpoint.py:215-251 | Success means every chunk of the build is durable; a failure anywhere loses none that was |
| `CheckpointEngine.Engine.Persist` | infrastructure/functions/persistence/src/kirocrew_agentcore_persistence/checkpoint.py:181-190 | The new manifest and commit are in place and the build is the baseline, or the baseline is unchanged; nothing committed before changes |
| `CheckpointEngine.Engine.EnforceRpo` | infrastructure/functions/persistence/src/kirocrew_agentcore_persistence/checkpoint.py:149-153 | Read-only exactly when the oldest uncommitted mark is older than the objective |
| `CheckpointEngine.Engine.Checkpoint` | infrastructure/functions/persistence/src/kirocrew_agentcore_persistence/checkpoint.py:155-213 | With a failure at any of the eight steps or any lost request or reply: commits stay complete and stay, the gateway is frozen afterwards only if a final checkpoint completed, marks are forgotten only once a commit holding them is durable, what is left after success is exactly one mark for each safe path that changed meanwhile, and after a failure without a commit those follow the marks there were, only recorded pieces of the frozen workspace are uploaded, and an undisturbed checkpoint completes |
| `CheckpointEngine.Engine.Resume` | infrastructure/functions/persistence/src/kirocrew_agentcore_persistence/checkpoint.py:172-180 | Once the gateway runs again each safe path that changes is marked once, in order, after the marks there were |
| `CheckpointEngine.Engine.CommitCheckpoint` | runtime/src/kirocrew_agentcore_runtime/aws_runtime.py:569-582 | The generation is one no manifest and no commit has used, and without faults it is committed |
| `CheckpointEngine.Engine.RunHistory` | infrastructure/functions/persistence/src/kirocrew_agentcore_persistence/checkpoint.py:155-251 | Over any sequence of checkpoints and container replacements, whatever fails, every committed generation has its manifest with the committed digest and every chunk that names |
| `Writers.WritersStayComplete` | infrastructure/functions/persistence/src/kirocrew_agentcore_persistence/durability.py:332-433 | However the builds and storage operations of any number of writers interleave, each with its own index and building from its own baseline, and whatever is lost, every committed generation is complete and no manifest or commit is ever replaced |
| `Writers.LoneWriterCommits` | infrastructure/functions/persistence/src/kirocrew_agentcore_persistence/checkpoint.py:155-213 | From every state a writer that nobody disturbs has a run of its own steps after which its build is committed under the number and is its baseline |
| `Writers.WritersFromScratch` | infrastructure/functions/persistence/src/kirocrew_agentcore_persistence/durability.py:394-412 | In particular every run of writers on an empty store leaves only complete generations |
| `Decoder.Collect` | infrastructure/functions/persistence/src/kirocrew_agentcore_persistence/restore.py:148-162 | The collecting loop succeeds exactly when every entry decodes, kept paths strictly increase and the sizes fit, and returns the kept entries |
| `Decoder.Decode` | infrastructure/functions/persistence/src/kirocrew_agentcore_persistence/restore.py:127-165 | Decoding succeeds exactly on acceptable manifests of this sandbox and generation and returns the entries the policy keeps |
| `Decoder.DecodesIffSound` | infrastructure/functions/persistence/src/kirocrew_agentcore_persistence/restore.py:187-247 | An entry decodes, to itself, exactly if its metadata is in range, it lies in the durable roots and the policy, and it carries what its kind must; one the policy excludes is skipped; all else is refused |
| `Decoder.AcceptsOnlyItsOwn` | infrastructure/functions/persistence/src/kirocrew_agentcore_persistence/restore.py:127-165 | An accepted manifest is of this sandbox and generation, of a known schema, with the known categories and within the count |
| `Decoder.OldManifestsMigrate` | infrastructure/functions/persistence/src/kirocrew_agentcore_persistence/restore.py:79-110 | A manifest of the old schema is accepted exactly if it is as one of the current schema, with default categories if it has none |
| `RoundTrip.EntryDescribesNode` | infrastructure/functions/persistence/src/kirocrew_agentcore_persistence/manifest.py:281-361 | A full read records path, mode and time of every node, size and digests of a file's content, and target and its length in bytes of a link |
| `RoundTrip.EntryRoundTrip` | infrastructure/functions/persistence/src/kirocrew_agentcore_persistence/restore.py:187-247 | With digests of 64 hex digits, a built entry decodes to itself if its time is not before 1970, and is refused otherwise |
| `RoundTrip.FullEntriesListTheNodes` | infrastructure/functions/persistence/src/kirocrew_agentcore_persistence/manifest.py:281-369 | A full build lists each recorded node exactly once, in strictly increasing order of path, and nothing else |
| `RoundTrip.PrintThenDecode` | infrastructure/functions/persistence/src/kirocrew_agentcore_persistence/manifest.py:89-99 | With digests of 64 hex digits, the decoder accepts what the builder printed if and only if it has at most 100,000 entries, at most 50 GiB and no time before 1970, and then returns it unchanged |
| `RoundTrip.FileComesBack` | infrastructure/functions/persistence/src/kirocrew_agentcore_persistence/restore.py:535-551 | Among contents that do not collide, a file's durable chunks concatenate to its content, size and digest |
| `Materialize.FetchFile` | infrastructure/functions/persistence/src/kirocrew_agentcore_persistence/restore.py:535-551 | The content is accepted exactly when all chunks are there and match the recorded size and digest |
| `Materialize.MakeParents` | infrastructure/functions/persistence/src/kirocrew_agentcore_persistence/restore.py:520-526 | Missing parents appear as bare directories; it fails exactly when something other than a directory is in the way |
| `Materialize.MaterializeAt` | infrastructure/functions/persistence/src/kirocrew_agentcore_persistence/restore.py:500-558 | On success the stage holds each entry's object, bare parents of theirs and nothing else; a manifest in which only directories have entries below them and whose content is intact always succeeds |
| `RoundTrip.MirroredTreeIsExact` | infrastructure/functions/persistence/src/kirocrew_agentcore_persistence/restore.py:518-558 | Such a stage is exactly the recorded part of the workspace the manifest was built from |
| `RoundTrip.DecodeAndMaterialize` | infrastructure/functions/persistence/src/kirocrew_agentcore_persistence/restore.py:463-484 | Decode followed by materialize yields the stage of the kept entries, in which every file has its recorded size and digest |
| `RoundTrip.RestoreBuilt` | infrastructure/functions/persistence/src/kirocrew_agentcore_persistence/restore.py:463-558 | For every well-formed workspace whose recorded pieces share no digest with each other or with a durable chunk of other bytes, restoring its printed manifest succeeds exactly within the limits and with every chunk it names at hand, and puts back content, mode and time of files and directories, target and time of safe links, plus only bare parents |
| `RoundTrip.RestoreCommitted` | infrastructure/functions/persistence/src/kirocrew_agentcore_persistence/restore.py:463-470 | Under the same condition, the same for a generation of the store: it succeeds exactly if it is committed, its manifest is there under the committed digest, it is within the limits, its chunks are there, and nothing it needs is lost on the way |
| `Lifetime.Live` | infrastructure/functions/persistence/src/kirocrew_agentcore_persistence/checkpoint.py:155-251 | Over every life of file changes, checkpoints through the stamp cache that fail anywhere, and container replacements, each generation committed is a full read of a workspace frozen during that life, and each chunk uploaded is a recorded piece of one |
| `Lifetime.LiveThenRestore` | infrastructure/functions/persistence/src/kirocrew_agentcore_persistence/restore.py:463-558 | After any such life in which no two of the pieces frozen and the chunks there were before share a digest, restoring any generation committed during it succeeds exactly within the decoder's limits and if nothing it needs is lost on the way, and puts back exactly the workspace that was frozen for it |
| `Lifetime.LiveThenRecover` | infrastructure/functions/persistence/src/kirocrew_agentcore_persistence/restore.py:369-498 | Under the same condition, a life of a new sandbox and then the whole restore, with failing fetches, fallback and swap: the outcome is the one of the whole restore over the workspaces frozen in that life |
| `DigestWitness.TwoFilesComeBack` | infrastructure/functions/persistence/src/kirocrew_agentcore_persistence/restore.py:463-558 | The conditions on digests can be met: with a concrete digest function two files of different content are checkpointed, restored and come back as they were |
| `DigestWitness.TwoFilesRecover` | infrastructure/functions/persistence/src/kirocrew_agentcore_persistence/restore.py:369-498 | So do they through the whole restore into an empty workspace, which reports the newest generation |
| `DigestWitness.ALifeIsPossible` | infrastructure/functions/persistence/src/kirocrew_agentcore_persistence/checkpoint.py:155-251 | The conditions on a life with a checkpoint of those files hold together |
| `DigestWitness.ARewriteIsMissed` | infrastructure/functions/persistence/src/kirocrew_agentcore_persistence/manifest.py:334-340 | A coherent state and a masked store among two contents that do not collide |
| `Install.Workspace.Install` | infrastructure/functions/persistence/src/kirocrew_agentcore_persistence/restore.py:565-608 | With a failure at any move: success is exactly the staged tree and state file, failure is the tree as before and the state file as before unless a user's file replaced its backup; at every moment the state file is present only beside the wholly old or the wholly new tree it belongs to |
| `Install.StateSurvivesEveryFailure` | infrastructure/functions/persistence/src/kirocrew_agentcore_persistence/restore.py:573-587 | The state file survives a failure at every possible move if and only if there is none or the workspace has no top-level file of the same name |
| `Install.Workspace.Undo` | infrastructure/functions/persistence/src/kirocrew_agentcore_persistence/restore.py:593-604 | The rollback restores every top-level entry, and the state file last |
| `Install.Workspace.Restore` | infrastructure/functions/persistence/src/kirocrew_agentcore_persistence/restore.py:394-428 | Whatever staging each of the last two generations gives: the newest of the last two generations that stages and swaps is the one in place, reported as a fallback exactly when it is not the newest; otherwise the tree is as before |
| `Install.CurrentIsKept` | infrastructure/functions/persistence/src/kirocrew_agentcore_persistence/restore.py:383-392 | A workspace whose state file is current is kept, and only such a one, unless a condition forces a restore |
| `Install.SecondChance` | infrastructure/functions/persistence/src/kirocrew_agentcore_persistence/restore.py:394-426 | If the newest generation cannot be staged, the one before it is restored, as a fallback, whenever its swap goes through |
| `Install.NewestComesFirst` | infrastructure/functions/persistence/src/kirocrew_agentcore_persistence/restore.py:394-426 | The newest generation is restored whenever the state file does not name it already and its swap goes through |
| `Recovery.RestoreWorkspace` | infrastructure/functions/persistence/src/kirocrew_agentcore_persistence/restore.py:369-498 | On a store of full reads whose pieces do not collide with its chunks, with any fetch and any move failing, the whole outcome: a workspace whose state file names the newest generation, its digest and this runtime is kept untouched unless a restore is forced; otherwise the newest generation if it arrives and its swap goes through, else the second newest, else nothing; what is restored is exactly what was recorded of the frozen workspace, below the right top-level entries; on failure the tree is as before, and the state file unless a user's file took its place |
| `Recovery.LevelHoldsTree` | infrastructure/functions/persistence/src/kirocrew_agentcore_persistence/restore.py:565-592 | Splitting the stage into its top-level entries, as the swap moves them, loses nothing |
| `Chunking.PieceAt` | frontend-shell/src/protocol.ts:81-97 | Cutting by index arithmetic gives the pieces the adapter cuts by stepping through the payload |
| `Chunking.PieceCount` | frontend-shell/src/protocol.ts:88-88 | The number of pieces is the ceiling of bytes over limit, and one for an empty payload |
| `Chunking.ReassembleChunks` | frontend-shell/src/protocol.ts:99-126 | Exactly the complete groups are accepted, and their data is copied end to end |
| `Chunking.ChunksReassemble` | adapter/src/kirocrew_agentcore_adapter/protocol.py:76-100 | Cutting and reassembling is the identity for every payload and limit |
| `Wire.NumbersAreContiguous` | adapter/src/kirocrew_agentcore_adapter/transport.py:227-257 | The envelopes of a request are numbered 0, 1, 2, … across all its events |
| `EventStream.ArrivesIffRecognisable` | frontend-shell/src/protocol.ts:147-176 | With a faithful codec, one event comes out of its envelopes whole if and only if it is not a chunk-shaped payload small enough to be sent whole |
| `EventStream.RequestArrives` | frontend-shell/src/agentcore-channel.ts:212-256 | A whole request comes out as its own list of events, numbered from 0, with nothing pending |
| `EventStream.ChunkedEnvelopeAssembler.Accept` | frontend-shell/src/protocol.ts:208-243 | Only the envelope's own request's pending chunks change, as the specification of one request says, on errors too |
| `EventStream.RuntimeEventStream.Accept` | frontend-shell/src/agentcore-channel.ts:217-256 | One envelope moves its own request by one step and leaves every other request as it was; a wire number other than the next is refused and moves nothing |
| `EventStream.RuntimeEventStream.AcceptAll` | frontend-shell/src/agentcore-channel.ts:212-256 | A stream of interleaved requests is accepted if and only if each request's own envelopes are; then each request's counted envelopes carry 0, 1, 2, … without gap or repeat, and it shows what its own envelopes give |
| `EventStream.AcceptedIsGrouped` | frontend-shell/src/protocol.ts:147-243 | An accepted request is made of payloads sent whole and complete runs of chunks, one after another, but for the start of one more run, and shows exactly one event for each, numbered from 0 |
| `EventStream.OthersPass` | frontend-shell/src/agentcore-channel.ts:217-256 | Envelopes without a request or of another operation pass through, unnumbered |
| `EventStream.RuntimeEventStream.AcceptInterleaved` | frontend-shell/src/agentcore-channel.ts:212-256 | Any interleaving of several requests' envelopes yields each request's own list |
| `Sse.CutAppend` | frontend-shell/src/agentcore-channel.ts:275-291 | Cutting blocks off as text arrives finds the blocks that cutting the whole text at once finds |
| `Sse.Drain` | frontend-shell/src/agentcore-channel.ts:276-291 | The inner loop parses exactly the complete blocks and keeps exactly the rest |
| `Utf8.DecodeStream` | frontend-shell/src/agentcore-channel.ts:270-270 | However the bytes are fragmented, malformed ones included, the decoder's texts add up to the text of the whole, without an opening byte order mark |
| `Utf8.StepIsSane` | frontend-shell/src/agentcore-channel.ts:270-270 | Every character the decoder puts together is a Unicode scalar value: no overlong form, no surrogate, nothing beyond the last code point |
| `Utf8.EncodeThenDecode` | adapter/src/kirocrew_agentcore_adapter/transport.py:742-747 | Encoded text comes back if and only if it does not open with a byte order mark |
| `Utf8.DecodesCleanlyIffEncoded` | frontend-shell/src/agentcore-channel.ts:270-270 | Bytes decode without a replacement exactly if they are the encoding of a text without one |
| `Utf8.BrokenOffStartsOver` | frontend-shell/src/agentcore-channel.ts:270-270 | A character that breaks off costs one replacement, and the byte that broke it off is read afresh |
| `Sse.ParseSse` | frontend-shell/src/agentcore-channel.ts:260-306 | However the bytes are fragmented, the result is what the text of all of them parses to |
| `Sse.PrintedBytes` | adapter/src/kirocrew_agentcore_adapter/transport.py:742-747 | The bytes written for any list of envelopes decode to the printed text |
| `Sse.BlockFields` | adapter/src/kirocrew_agentcore_adapter/transport.py:742-747 | A printed block names the event's number, its operation and its envelope, each on a line of its own |
| `Sse.DataLinesComeBack` | frontend-shell/src/agentcore-channel.ts:279-284 | Text written line by line into data fields comes out line by line |
| `Sse.OneBlock` | frontend-shell/src/agentcore-channel.ts:279-288 | A block without data is skipped, a valid one adds its envelope, an invalid one ends the stream |
| `Sse.PrintedParses` | adapter/src/kirocrew_agentcore_adapter/transport.py:742-747 | Parsing the printed text of any list of envelopes gives back the list |
| `LiveStream.EventBuffer.Append` | adapter/src/kirocrew_agentcore_adapter/transport.py:235-249 | The next number is taken and the newest events are kept up to the bound; other requests are untouched |
| `LiveStream.EventBuffer.After` | adapter/src/kirocrew_agentcore_adapter/transport.py:251-254 | Exactly the buffered events above the cursor, in order |
| `LiveStream.EventBuffer.Buffer` | adapter/src/kirocrew_agentcore_adapter/transport.py:700-725 | One logical event is buffered as its numbered envelopes |
| `LiveStream.ContiguousIffFits` | adapter/src/kirocrew_agentcore_adapter/transport.py:236-248 | The numbers written have no gap if and only if no event needs more envelopes than the buffer holds |
| `LiveStream.StreamLive` | adapter/src/kirocrew_agentcore_adapter/transport.py:749-809 | Without a Last-Event-ID, for every pattern of transient failures, the response shows the events of the one attempt that yielded anything or ended the retries, then at most one error, after at most the configured number of attempts |
| `StreamRoundTrip.Receive` | frontend-shell/src/agentcore-channel.ts:212-306 | Any fragmentation of the bytes printed for any interleaving of plain requests gives back each request's events numbered 0, 1, 2, … and nothing else |
| `StreamRoundTrip.LiveResponseInterleaves` | adapter/src/kirocrew_agentcore_adapter/transport.py:749-809 | What a live response writes, if every event fits the buffer, is such a stream |
| `Codecs.CodecsExist` | adapter/src/kirocrew_agentcore_adapter/transport.py:707-724 | The assumptions on JSON and base64 hold together: a codec is built that is faithful and in which no payload is the content of its own single chunk |
| `Retention.RetainedCount` | infrastructure/functions/persistence/src/kirocrew_agentcore_persistence/durability.py:532-535 | The retained generations are the newest `retain` ones, or all there are |
| `Retention.DeletingOldKeepsRetained` | infrastructure/functions/persistence/src/kirocrew_agentcore_persistence/durability.py:541-543 | Deleting generations that are not retained does not change which are |
| `Retention.SweepKeepsRetained` | infrastructure/functions/persistence/src/kirocrew_agentcore_persistence/durability.py:554-566 | Sweeping what no retained generation needs leaves the retained ones complete |
| `Retention.CommitOnTop` | infrastructure/functions/persistence/src/kirocrew_agentcore_persistence/durability.py:394-412 | A commit on top keeps the retained generations complete if and only if all its own chunks are there |
| `Retention.RetentionManager.CollectReferenced` | infrastructure/functions/persistence/src/kirocrew_agentcore_persistence/durability.py:536-539 | Exactly the chunks the retained manifests name |
| `Retention.RetentionManager.Mark` | infrastructure/functions/persistence/src/kirocrew_agentcore_persistence/durability.py:532-552 | Exactly what no retained generation needs is marked, and what was marked before keeps its date |
| `Retention.CommitSurvives` | infrastructure/functions/persistence/src/kirocrew_agentcore_persistence/durability.py:394-412 | A commit on top keeps the newest generations ever committed in place, under a number no generation ever had |
| `Retention.SweepSurvives` | infrastructure/functions/persistence/src/kirocrew_agentcore_persistence/durability.py:554-566 | Deleting generations that are not retained keeps the newest generations ever committed in place, manifest and digest unchanged |
| `Retention.RetentionManager.Sweep` | infrastructure/functions/persistence/src/kirocrew_agentcore_persistence/durability.py:554-566 | Deleted is exactly what no retained generation needs and what has carried its mark for the grace period; each deletion is on record; the retained generations stay the same and complete |
| `Retention.CheckpointWhole` | infrastructure/functions/persistence/src/kirocrew_agentcore_persistence/durability.py:332-433 | A whole checkpoint by a writer without the index replaces nothing, adds at most one generation, numbered above all there ever were and with the given manifest, and does add it if nothing fails |
| `Retention.RunRetention` | infrastructure/functions/persistence/src/kirocrew_agentcore_persistence/durability.py:511-566 | Over any sequence of whole checkpoints, markings and sweeps: of all generations ever committed the newest `retain` are still there, with the manifest and digest they were committed with and every chunk that names; whatever is gone was deleted after carrying its mark for the grace period; and every checkpoint that reported a number is among those ever committed |
| `Retention.MarkThenSweep` | infrastructure/functions/persistence/src/kirocrew_agentcore_persistence/durability.py:511-566 | A marking and a sweep a grace period later leave exactly the retained generations and the chunks they name |
| `Retention.SweepInsideCheckpoint` | infrastructure/functions/persistence/src/kirocrew_agentcore_persistence/durability.py:351-357 | Why a sweep must not fall inside a checkpoint: the upload answers that the chunk is there, the sweep deletes it, the commit succeeds and is incomplete |
| `Retention.LeftoverChunk` | infrastructure/functions/persistence/src/kirocrew_agentcore_persistence/durability.py:351-357 | The state that run starts from is reached by an upload whose checkpoint failed and a marking one grace period ago |
| `Grants.GrantBroker.Prefetch` | infrastructure/functions/persistence/src/kirocrew_agentcore_persistence/remote.py:174-182 | Announced chunks join the queue of their operation while batches are supported, and only for downloads and uploads |
| `Grants.GrantBroker.TakeGrant` | infrastructure/functions/persistence/src/kirocrew_agentcore_persistence/remote.py:217-221 | A cached grant is handed out once, and only with a minute left |
| `Grants.GrantBroker.PopNames` | infrastructure/functions/persistence/src/kirocrew_agentcore_persistence/remote.py:230-235 | A batch takes 127 announced chunks or all that are left, drops none that is not granted already, and asks for none that is |
| `Grants.GrantBroker.FetchBatch` | infrastructure/functions/persistence/src/kirocrew_agentcore_persistence/remote.py:223-259 | After an answered batch the chunk has its grant and every announced chunk is granted or still queued; a refusal is an error, and a broker without batches is asked for none again |
| `Grants.GrantBroker.PresignChunk` | infrastructure/functions/persistence/src/kirocrew_agentcore_persistence/remote.py:204-215 | The grant handed out is the broker's own for the digest and operation asked for, url, headers and expiry included: cached earlier, offered in a batch, or given for this call; a grant still good is used, without batches the chunk is presigned on its own, an announced chunk is served without a call of its own, at most one batch is spent, and no other announced chunk is lost |
| `Grants.GrantBroker.PresignAll` | infrastructure/functions/persistence/src/kirocrew_agentcore_persistence/remote.py:204-259 | N announced chunks asked for once each in any order before any grant runs out: each gets a grant of its own, there is no single presign, and there are at most ceil(N/127) batch calls |
| `Waker.LeadCoversRestore` | infrastructure/functions/waker/src/kirocrew_agentcore_waker/lambda_handler.py:500-511 | The lead is one and a half restores and half a minute between 90 and 600 seconds, grows with the restore, and covers it exactly up to ten minutes |
| `Waker.WakePlan` | infrastructure/functions/waker/src/kirocrew_agentcore_waker/lambda_handler.py:523-600 | The chain of branches wakes exactly when the record is not held and the occurrence is in its window unhandled, or the schedule is stranded, or none is published and the record is quiet |
| `Waker.LiveIsLeftAlone` | infrastructure/functions/waker/src/kirocrew_agentcore_waker/lambda_handler.py:523-560 | A sandbox that is not stopped is never woken while it starts, under a live lease, or within twenty minutes of a write without a lease |
| `Waker.FreeRecordWakesInItsWindow` | infrastructure/functions/waker/src/kirocrew_agentcore_waker/lambda_handler.py:560-620 | A free record written less than six hours ago is woken exactly from its lead before the occurrence to half an hour after it, unless written at or after it |
| `Waker.NeverStrands` | infrastructure/functions/waker/src/kirocrew_agentcore_waker/lambda_handler.py:603-628 | Once nobody writes the record, every tick more than six hours after the latest of due time, last update, lease expiry and init expiry wakes |
| `Waker.WindowWakes` | infrastructure/functions/waker/src/kirocrew_agentcore_waker/lambda_handler.py:587-600 | From due minus lead to due plus thirty minutes an unheld tick wakes if and only if the record was not updated at or after the due time |
| `Waker.HandledOnce` | infrastructure/functions/waker/src/kirocrew_agentcore_waker/lambda_handler.py:603-620 | After the record is touched at or past its due time no tick wakes for six hours |
| `Waker.WakesNeverCease` | infrastructure/functions/waker/src/kirocrew_agentcore_waker/lambda_handler.py:606-617 | Even if every wake dies before its receipt, however long each takes to die, every tick late enough has a wake at most six hours and one such life behind it |
| `Waker.FailedWakesAreSpaced` | infrastructure/functions/waker/src/kirocrew_agentcore_waker/lambda_handler.py:613-620 | Such wakes, once the due time has passed, are at least six hours apart |
| `Waker.NoOccurrenceIsSteppedOver` | infrastructure/functions/waker/src/kirocrew_agentcore_waker/lambda_handler.py:489-498 | Ticks at most 31 minutes 30 seconds apart cannot step over an unhandled occurrence |

## Left out

- SandboxSafety.RotatedSessionsAreDead: leaves `heartbeatInit` out, because its condition names only the init owner and not the session; a late one extends the init expiry and nothing else.
- SandboxLiveness.LiveHolderIsStable: holds for a prompt pace only, because the code displaces slower holders; for beat intervals under a second, in which no time can pass, the bound is not shown to be exact.
- SandboxStart.ClaimIsStable: holds for a prompt pace only, for the same reason and with the same exactness.
- SandboxLiveness.NoSelfLock: is stated from every state with the invariant, which includes every reachable one.
- IncrementalBuild.IncrementalBuildIsFullBuild: assumes that nothing writes while a build reads and that every change of a file stamps a ctime no more than two seconds behind the clock; what happens otherwise is `StaleStamps.StoreIsNoticedUnlessMasked`, for a store that does not run while a build reads.
- Materialize.MaterializeAt: an entry below a symbolic link counts as a failure; the source would follow the link inside the stage. No built manifest contains one.
- RoundTrip.RestoreBuilt: a link's mode is recorded but not restored, as in the source; link targets are valid Unicode.
- Install.Workspace.Install: renames are atomic and rollback moves succeed; the copy across file systems is not modelled, nor is the removal of one entry seen half-done.
- RoundTrip.RestoreCommitted: takes as given that the committed manifest is a full build; `Lifetime.Live` derives it.
- LiveStream.StreamLive: covers requests new to the buffer with no Last-Event-ID; a client that disconnects only truncates what is written. With a Last-Event-ID above the events of a failed attempt the code can mix two attempts.
- EventStream.RequestArrives: covers requests that emit only the four runtime operations, because the browser does not count wire numbers for others.
- SandboxSystem.Next: authorizing a broker call and reading the clock for it are one step, while the source reads the clock just after authorizing; a call may still land any time later.
- Retention.RetentionManager.Sweep: the manifest and the commit of a deleted generation go together, and no deletion fails.
- Retention.RunRetention: covers whole checkpoints by a writer that reads every file and has no chunk index, with no sweep inside a checkpoint; a chunk index or an old stamp baseline may count on a chunk the sweep removed.
- Writers.WritersStayComplete: leaves the collector out, and promises no order among commits: the check that a commit advances and its write are two operations.
- Lifetime.LiveThenRestore: one container at a time on one disk; several writers at once are the subject of `Writers`.
- That the URL in a grant leads to the object of its name: neither the broker client nor its caller compares the two.
- Grants.GrantBroker.PresignAll: covers one operation, a broker that grants every name of a batch, and calls one at a time, as the grant lock makes them.
- Waker.WakePlan: decides on whole seconds and leaves out the log line, the job name and the text of reasons.
- Calls of older runtimes without an instance id or a base generation, which weaken the fences on purpose, and `markError` before any claim.
- Token signatures and expiry, the idempotency maps of the control API, `activeRequestId` and record fields that never change after creation.
- The type checks of the JSON decoder: entries reach the model with fields of the right type.
- The non-streaming `_execute`, which can append the events of two attempts to one response, and the WebSocket path.
- The in-memory registry and checkpoint store, the integrity auditor, the workspace fingerprint, the sequence tracker, the idempotency window and the restore progress counters: each repeats, for a simulation, a report or a single counter, something proved here of the part that decides what is durable or who holds the sandbox.
- Thread pools: uploads and fetches happen in any order, and one failure fails them all.
- The wake dispatch loop, catch-up requests and relays beyond the decision of one tick.

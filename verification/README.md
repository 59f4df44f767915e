# HomePilot verification model

A Dafny model of five state machines of HomePilot, with proofs about whole runs of each.

| part | files |
|---|---|
| artifact approval graph | `ArtifactText`, `ArtifactStore`, `Lifecycle`, `ArtifactFiles`, `Cascade`, `Transitions`, `LifecycleRuns`, `LifecycleFields`, `Departures` |
| replay-protected hub channel | `CanonicalJson`, `ReplayChannel`, `AgentSender`, `NonceCache`, `Framing` |
| agent registry | `Registry`, `PendingRequests` |
| first-run claim | `Claim` |
| bounded buffers and windows | `MetricBuffer`, `SlidingWindow` |

Each part has the same shape. Classes hold the fields the program updates, and their methods follow the program's
branches and loops; every method is tied to a specification function over plain values (`AfterApprove`, `AfterRegister`,
`Stamped`, ...). Runs are sequences of events over those functions, with every interleaving the program allows, and the
main results are about every run. The table under "Model" begins with them. Next come the lemmas that say what each
operation does in plain fields, without the specification functions the runs are made of, and that the runs spoken of
happen; then the runs in which the program departs from its documentation, the lemmas all of this rests on, and the
operations.

`dafny verify dfyconfig.toml` checks everything.

## What the proofs rest on

- Each lifecycle operation is one atomic step. `approve` awaits between its writes, so this is an assumption about the
  program, not a fact of it. An operator's edit is the editor's save followed by `edit`, on an artifact of any status.
- SHA-256 and HMAC-SHA-256 are injective, and a frame whose code matches carries a code the sender wrote earlier on
  that connection and direction. UTF-8 encoding of the canonical text is injective, so texts stand for bytes.
- The YAML step list of a composite is an arbitrary function of the body. Nothing is assumed of it: what a run needs of
  the specs in it is part of the statement, as `EditSafe` (exactly) or as `PlainlyWritten` (enough). Errors of the YAML
  library and `ValueError` are one outcome, since both abort an approval before any write.
- A YAML dump of the frontmatter loads as what was dumped, ends in a line break, holds no carriage return, and has no
  line that begins with `---` (`ArtifactFiles.RoundTrips`).
- One process owns a data directory, a boot finishes before a request is served, and every SQL statement is atomic.
- Connection ids and request ids are fresh; clocks do not run backwards and are real-valued; a socket that began to
  close stays so.
- A float with a fraction is identified with its shortest representation, which is the text `repr` gives it; NaN is one
  value.

## Where the code departs from its documentation

The model follows the code in each case, and each has a run or an input that shows it.

- **An approved composite can be left over a proposed step.** Invalidation looks for the edited id in the characters of
  a composite's body (`src/homepilot/artifacts/transitions.py:298`), but the YAML parser also reads an escaped id such as
  `"2026-01-01-\x71"` (`EscapedStepIsMissed`). And a save under an unchanged hash is not looked at again, although a form feed at
  the end of a line is enough to make the spec unreadable (`FormFeedUnreadsSpec`). `EveryRunIsSoundIff` says exactly
  which edits keep the promise.
- **A mention that is no step demotes too** (`MentionAloneDemotes`), where the artifact documentation speaks of `steps`.
- **Untouched artifacts can fail their own hash check.** Text-mode reading turns a bare carriage return into a line
  feed and the reader strips leading line feeds, while the stored hash is that of the text before it was written
  (`LeadingBreakFailsItsHash`, `ReturnInLogFailsItsHash`). `HashSurvivesIff` and `UntouchedProposalIff` give the exact
  condition for every body, `LoggedHashMatchesIff` and `ReapprovalAfterFailureIff` for bodies with an execution log.
- **What was approved and what is applied may differ in whitespace.** `edit` returns early while the hash is unchanged,
  so an approval survives a whitespace-only edit (`UnapprovedSpaceIsApplied`). `AppliedIsWhatWasApproved` says exactly
  when the texts agree.
- **Saving over an artifact whose status `edit` refuses leaves the text in its file.** `TerminalIsForever` and
  `AppliedUnder` account for it.
- **Cycles among composites are not refused at propose**, although the comment at
  `src/homepilot/artifacts/transitions.py:184` and the artifact documentation say so (`CycleIsApproved`). Both cascades
  are proved for cyclic graphs.
- **A failed artifact may be approved again whatever its `idempotence`**, against the artifact documentation, which
  refuses it for `replay-only` (`ReplayOnlyIsApprovedAgain`).
- **The hub's `stamp` keeps the sequence number of a frame it cannot encode**, and no frame sent after that is accepted
  (`FrameAfterAFailureIsLost`, `FaithfulAcceptsAllIff`, `NothingAcceptedAfterAGap`); the agent gives the number back
  (`NumbersHaveNoGap`).
- **The agent decodes numbers as float64** and computes the code over what it decoded. It refuses a frame with a number
  that float64 alters, and follows the hub for at most 2^53 frames (`AgentStaysInStepIff`, `AgentNeverPasses`); what it
  does accept is still a prefix of what was sent.
- **A reply need not come in on the connection its request went out on.** It is matched against the record in the table
  under the reader's agent id, so a connection that has been replaced can still answer (`AnsweredIff`,
  `OldConnectionAnswers`).
- **A body that is not UTF-8 raises `UnicodeDecodeError`, not `ProtocolError`**, so it ends even an unprotected
  connection (`NotTextEndsAnyConnection`).
- **A failed claim can leave an admin token behind.** The comment on `release` says no admin token exists; when minting
  succeeded and recording did not, one does, and it alone keeps the claim closed (`FailedMintHappens`,
  `FailedClaimIff`).
- **An empty agent id** is entered in both maps but never found by hostname nor torn down (`OwnTeardownRemovesIff`,
  `IndexAndTableAgree`, `EmptyIdStaysBehind`).
- **Two flushers can overlap across a reconnect** and remove samples that were never sent, without any overflow to log
  (`OverlappingFlushersLoseSamples`).

## Model

| member | source | states |
|---|---|---|
| LifecycleRuns.EveryRunIsSoundIff | src/homepilot/artifacts/transitions.py:89-377 | for every step parser and every run: no approved composite ever names a proposed, rejected or missing step if and only if every edit in the run is safe |
| LifecycleRuns.EditKeepsIff | src/homepilot/artifacts/transitions.py:246-310 | the exact condition of one edit: an unchanged hash must leave an approved spec readable over steps that are up; a changed one must meet no composite that names the edited or a demoted artifact in other characters than its id and is not demoted anyway |
| LifecycleRuns.EveryRunIsSound | src/homepilot/artifacts/transitions.py:89-377 | runs whose approved specs write their step ids literally keep every approved composite over steps that are up |
| LifecycleRuns.RunIsInOrder | src/homepilot/artifacts/transitions.py:89-377 | in every run approved hashes match their bodies, bodies are as a reader sees them, and an approval is on record while an artifact is approved or failed and gone once it is proposed |
| LifecycleRuns.AppliedIsWhatWasApproved | src/homepilot/artifacts/transitions.py:312-327 | in every run an applied artifact other than a kb-note was written with the body that stood approved, less trailing line breaks, and the log; its text is the approved one if and only if the last edit in between, if any, put that text back |
| LifecycleRuns.TerminalIsForever | src/homepilot/artifacts/validator.py:77-80 | in every run rejected, superseded and revoked artifacts keep their frontmatter for good, and their body but for what the operator's editor puts there |
| Cascade.WalkIsComplete | src/homepilot/artifacts/transitions.py:127-187 | a finished walk lists once each exactly the proposed artifacts reached through proposed artifacts, without the root, and nothing reached refuses |
| Transitions.ArtifactTransitionManager.Approve | src/homepilot/artifacts/transitions.py:89-125 | all or nothing: approves the root and exactly the carried artifacts if and only if the status, the hash and everything reached allow it; otherwise no artifact changes |
| Transitions.ArtifactTransitionManager.CompositeCascade | src/homepilot/artifacts/transitions.py:127-187 | terminates on every graph; succeeds with a complete walk, or fails only when some reached artifact refuses or a spec is unreadable |
| Cascade.InvalidationIsComplete | src/homepilot/artifacts/transitions.py:281-310 | when the invalidation ends, exactly the approved composites that reach the edited id through mentions have been demoted |
| Transitions.ArtifactTransitionManager.CascadeInvalidate | src/homepilot/artifacts/transitions.py:281-310 | terminates on every graph; working from stale listings it demotes exactly what it visits and follows every mention of it |
| ArtifactText.HashesAlikeIff | src/homepilot/artifacts/models.py:157-164 | two bodies hash alike if and only if they agree line by line up to trailing whitespace on a line and trailing blank lines |
| ArtifactStore.ReadAfterWrite | src/homepilot/artifacts/store.py:343-386 | reading a written file returns the frontmatter text and the body as a reader sees it, whatever the body contains |
| ArtifactStore.HashSurvivesIff | src/homepilot/artifacts/store.py:343-386 | for every body, the exact condition under which it still matches its own hash after a write and a read |
| CanonicalJson.ReadPrint | src/homepilot/agent_hub/replay.py:71-102 | the reader recovers every value from its text, whatever follows that does not extend a number |
| CanonicalJson.CanonIffSame | src/homepilot/agent_hub/replay.py:71-102 | two values have the same text if and only if they are the same value, whatever order their dictionaries were filled in |
| CanonicalJson.FramesWithEqualText | src/homepilot/agent_hub/replay.py:105-108 | two frames have equal canonical text if and only if they are equal apart from `mac` |
| ReplayChannel.AcceptedIsPrefixOfSent | src/homepilot/agent_hub/replay.py:136-157 | over a channel that drops, repeats, reorders and alters frames but cannot forge a code, hub and agent accept, as each decodes it, a prefix of what was sent, in order and unaltered, in runs of any length |
| ReplayChannel.AgentNeverPasses | agent/go/main.go:143-154 | whatever the channel delivers, the agent accepts no frame numbered beyond 2^53 |
| ReplayChannel.FaithfulAcceptsAllIff | src/homepilot/agent_hub/server.py:604-607 | on a faithful channel everything sent is accepted if and only if nothing is sent after a frame that could not be encoded and the receiver's decoder leaves every frame and its number as they are |
| ReplayChannel.AgentStaysInStepIff | agent/go/main.go:143-154 | the agent accepts all that a faithful hub sends if and only if there are at most 2^53 frames and float64 alters no number in them |
| AgentSender.NumbersHaveNoGap | agent/go/main.go:89-116 | on every socket the protected frames are numbered 1, 2, 3 without a gap |
| AgentSender.FramesStayOnTheirConnection | agent/go/main.go:73-86 | in every interleaving a frame is handed only to the socket its sender was started on |
| AgentSender.OldSocketsAreFinal | agent/go/main.go:383-396 | the loops of a replaced connection neither write nor take a number any more |
| Framing.ReadingUndoesWriting | src/homepilot/agent_hub/server.py:152-192 | frames that survive come out in order, each answered once, oversize ones within the drain limit as one error, and the reader stands at the next boundary, on a protected connection with its expected number advanced |
| Framing.ConnectionOutlivesIff | src/homepilot/agent_hub/server.py:938-989 | a connection, protected or not, outlives its frames if and only if every one survives, each checked under the number expected by then |
| Framing.StampedFramesAreDispatched | src/homepilot/agent_hub/server.py:977-1003 | a protected connection dispatches every frame that was stamped in order |
| Framing.AgentReadsUpToFirstBad | agent/go/main.go:409-421 | the agent acts on exactly the frames before the first that is too large, is not decoded or is not let through |
| Framing.DispatchedIsPrefixOfSent | src/homepilot/agent_hub/server.py:938-1019 | whatever bytes arrive on a protected connection without a forged code, the hub answers nothing but frames that are, in order and unaltered, the first the agent stamped |
| Framing.ActedOnIsPrefixOfSent | agent/go/main.go:409-440 | whatever bytes reach the agent without a forged code, it acts on nothing but, in order and unaltered, the first of the frames the hub stamped |
| NonceCache.Cache.CheckRegisterFreshness | src/homepilot/agent_hub/server.py:609-627 | when a register frame is fresh, and that a second acceptance falls between 300 s after the first and 300 s after its timestamp |
| NonceCache.Cache.CheckAndRecord | src/homepilot/agent_hub/replay.py:170-179 | the pruned cache answers exactly as a log of all accepted pairs that never forgets |
| Registry.IndexAndTableAgree | src/homepilot/agent_hub/registry.py:126-259 | in every reachable state index entries point at their host's agent, a live entry is what its hostname finds if and only if its id is not empty, and no two live entries share a hostname |
| Registry.EntryLeavesOnlyBy | src/homepilot/agent_hub/registry.py:139-221 | an entry leaves only by its own teardown, an operator, or an accepted registration of its id, from the same host while it is live |
| Registry.NoEntryOutlivesItsHandler | src/homepilot/agent_hub/server.py:1024-1044 | every entry with a name belongs to a connection whose teardown is still to come |
| Registry.StaleTeardownChangesNothing | src/homepilot/agent_hub/registry.py:192-203 | the late teardown of a superseded connection changes neither map |
| PendingRequests.AnsweredIff | src/homepilot/agent_hub/registry.py:302-332 | a reply read on a connection answers a waiting caller if and only if it names its request, that was issued on the record now in the table under the reader's agent id, and it echoes the issued action (or none, from an agent that never declared to) or is the hub's own error |
| PendingRequests.AnsweredOnlyByItsReply | src/homepilot/agent_hub/registry.py:309-332 | nothing else answers a caller |
| PendingRequests.SettledForGood | src/homepilot/agent_hub/registry.py:331-332 | in every run a settled request keeps its outcome |
| PendingRequests.ForgottenWhenWaitEnds | src/homepilot/agent_hub/registry.py:350-355 | when a wait has ended no record holds the id, and actions are recorded only for pending ids |
| Claim.AtMostOneTokenIsGranted | src/homepilot/claim/router.py:174-271 | in every interleaving at most one claim returns a token, to a request that was local and brought no code or that brought the pending code, and the instance is claimed |
| Claim.ClosedForGood | src/homepilot/claim/repository.py:96-153 | after a grant, or a boot that saw an admin credential, the claim stays closed whatever tokens are deleted |
| Claim.FailedClaimIff | src/homepilot/claim/router.py:219-255 | for every run and every failure after the latch: the row stays claimed if and only if the minted token had been recorded, and the claim is open again if and only if no admin token is left either |
| MetricBuffer.NothingUnaccounted | agent/go/metrics.go:98-138 | in every run added = buffered + overflowed + removed, within the capacity |
| MetricBuffer.AckRemovesItsBatch | agent/go/metrics.go:201-215 | an acknowledgement takes only samples of its batch if and only if nothing left the buffer since the peek, or nothing newer is in it, or nothing is taken; in any case at most as many others as left in between |
| MetricBuffer.Buffer.Flush | agent/go/metrics.go:201-216 | delivers and leaves exactly what the batches of its rounds do, each dropped after its acknowledgement; without overflow the oldest samples, in order |
| SlidingWindow.SlidingWindowLimiter.Allow | src/homepilot/common.py:49-66 | answers as the log of all allowed calls would for a key never evicted; refused calls are not recorded |
| SlidingWindow.NoWindowIsOverfull | src/homepilot/common.py:49-66 | of a key never evicted no window holds more than the limit, and the tracked keys stay within their bound |
| LifecycleFields.DemotedKeepsTheRest | src/homepilot/artifacts/transitions.py:281-303 | an edit changes, in every other artifact, nothing but the status and the approval of the dependent approved composites |
| LifecycleFields.DemotedMatchesItsHash | src/homepilot/artifacts/transitions.py:299-303 | in every run a composite that an edit demotes keeps its hash, which still matches its body, and every other field |
| LifecycleFields.EditFields | src/homepilot/artifacts/transitions.py:246-279 | what the edit command leaves in the edited artifact, by status and hash |
| LifecycleFields.DemotedIff | src/homepilot/artifacts/transitions.py:281-310 | what an edit demotes is, but for the edited artifact, the least set closed under mentions by approved composites |
| LifecycleFields.ReachedIff | src/homepilot/artifacts/transitions.py:127-187 | what an approval reaches is the least set closed under the steps of the root and of proposed members |
| LifecycleFields.CanApproveIff | src/homepilot/artifacts/transitions.py:89-187 | when an approval succeeds, in the fields of the root and of what it reaches |
| LifecycleFields.ApproveFields | src/homepilot/artifacts/transitions.py:108-125 | an approval touches the root and the proposed artifacts it reaches, and of those the status and the record of who approved and why |
| LifecycleFields.ApplyFields | src/homepilot/artifacts/transitions.py:312-327 | the text, hash and status of an applied artifact |
| LifecycleFields.FailFields | src/homepilot/artifacts/transitions.py:329-346 | the text, hash, status and reason of a failed artifact |
| LifecycleFields.ProposeFields | src/homepilot/artifacts/validator.py:83-165 | which proposals are taken, and every field of a new artifact |
| LifecycleFields.RejectFields | src/homepilot/artifacts/transitions.py:224-244 | a rejection changes the status of a proposed artifact and records who rejected it, and nothing else |
| LifecycleFields.RevokeFields | src/homepilot/artifacts/transitions.py:362-377 | a revocation changes the status of an approved, failed or applied artifact and records who revoked it, and nothing else |
| LifecycleFields.SupersedeFields | src/homepilot/artifacts/transitions.py:348-360 | only an applied artifact is superseded; its status changes and its successor is named |
| LifecycleFields.TransitionTable | src/homepilot/artifacts/models.py:363-379 | the eleven transitions, and the statuses that can be edited |
| LifecycleFields.ValidIdIff | src/homepilot/artifacts/models.py:150-154 | an id is accepted if and only if it is a date, a name and possibly a suffix and a line break |
| LifecycleFields.ContainsIff | src/homepilot/artifacts/transitions.py:298-298 | a mention is an occurrence at some position |
| LifecycleFields.OperationsAre | src/homepilot/artifacts/transitions.py:89-377 | which specification each operation of a run has |
| ArtifactText.HashedLines | src/homepilot/artifacts/models.py:157-162 | the text that is hashed, line by line |
| ArtifactText.RStripMeans | src/homepilot/artifacts/models.py:158-158 | exactly the whitespace at the end of a line goes |
| ArtifactText.JoinOfSplit | src/homepilot/artifacts/models.py:158-162 | splitting at line feeds loses nothing |
| ArtifactText.SpaceTable | src/homepilot/artifacts/models.py:158-158 | the code points that count as whitespace |
| ArtifactStore.UniversalMeans | src/homepilot/artifacts/store.py:377-377 | every line end becomes a line feed, and nothing else changes |
| ArtifactStore.LStripMeans | src/homepilot/artifacts/store.py:368-371 | exactly the line feeds at the start of a body go |
| ArtifactStore.ReadBackMeans | src/homepilot/artifacts/store.py:377-386 | which files are refused and how, and where the others are cut |
| CanonicalJson.LessIff | src/homepilot/agent_hub/replay.py:95-95 | the order of keys, by the first position at which they differ |
| CanonicalJson.SortedKeysAscend | src/homepilot/agent_hub/replay.py:95-98 | a loop over the sorted keys meets each key once, in that order |
| CanonicalJson.ReadsAscending | src/homepilot/agent_hub/replay.py:93-99 | the canonical text of a dictionary lists its entries in that order |
| CanonicalJson.TwoKeys | src/homepilot/agent_hub/replay.py:93-99 | `a` comes before `b`, whichever was put in first |
| CanonicalJson.EscapeTable | src/homepilot/agent_hub/replay.py:46-68 | what each character is written as |
| CanonicalJson.DecimalMeans | src/homepilot/agent_hub/replay.py:84-91 | integers have a sign only when negative, and no leading zero |
| CanonicalJson.PrintTable | src/homepilot/agent_hub/replay.py:76-81 | the words for null, the booleans, and what is not finite |
| CanonicalJson.ItemsJoin | src/homepilot/agent_hub/replay.py:100-101 | lists are written with commas and no space |
| CanonicalJson.FieldsJoin | src/homepilot/agent_hub/replay.py:93-99 | dictionaries are written with colons, commas and no space |
| ReplayChannel.StampFields | src/homepilot/agent_hub/replay.py:136-146 | stamping sets `seq` and `mac`, the code being over all but itself, and leaves every other key |
| ReplayChannel.KeptNumberIff | agent/go/protocol.go:70-74 | decoding keeps an integer if and only if it has at most 53 bits followed by at most 971 zeros |
| ReplayChannel.FrameIsCarried | src/homepilot/agent_hub/replay.py:136-157 | after any run in step, a frame that fits is sent and accepted |
| AgentSender.SendWritesOne | agent/go/main.go:89-116 | a send writes exactly one frame on the current socket under the next number, or cannot encode it and changes nothing |
| AgentSender.SendAddsItsNumber | agent/go/main.go:89-116 | in every run an encodable frame adds the next number to its socket |
| AgentSender.ReconnectHappens | agent/go/main.go:73-86 | a run with a reconnect, in which the old loop changes nothing and numbering restarts |
| Framing.HeaderIsBigEndian | src/homepilot/agent_hub/server.py:154-154 | the most significant byte of the length comes first |
| Framing.ServeOneSpelled | src/homepilot/agent_hub/server.py:938-989 | what the hub does with each kind of frame, and which end an unwelcome one brings about |
| Framing.CutOffEnds | src/homepilot/agent_hub/server.py:157-192 | what a frame that is cut off ends in |
| Registry.AcceptedIff | src/homepilot/agent_hub/registry.py:126-151 | a fresh connection is accepted if and only if no other agent is live on its host and its own agent, if live, is on that host |
| Registry.RegisteredMeans | src/homepilot/agent_hub/registry.py:164-177 | an accepted registration puts the new entry under its id and host, and leaves every other; a refused one changes neither map |
| Registry.DisconnectedMeans | src/homepilot/agent_hub/registry.py:223-250 | an operator's disconnect takes one entry out of both maps, and closes its socket |
| PendingRequests.AskedMeans | src/homepilot/agent_hub/registry.py:334-350 | a request is recorded with its action on the record in the table, and its caller waits |
| PendingRequests.EvictedMeans | src/homepilot/agent_hub/registry.py:204-218 | an eviction fails exactly the callers that wait on the evicted record |
| PendingRequests.HandlerEndMeans | src/homepilot/agent_hub/server.py:1027-1042 | the end of a handler evicts its agent if and only if the connection is still the one in the table and the id is not empty |
| PendingRequests.WaitEndMeans | src/homepilot/agent_hub/registry.py:352-355 | the end of a wait gives up on the request unless it was settled |
| Claim.ClearsIff | src/homepilot/claim/router.py:182-192 | a request gets past the check of its credential if and only if it is local and brings no code, or brings the pending code |
| Claim.ClosedToIff | src/homepilot/claim/router.py:174-176 | a request is turned away at the door if and only if the row it read was claimed or there is an admin credential |
| Claim.WinsLatchIff | src/homepilot/claim/router.py:214-217 | a request wins the latch if and only if it finds an unclaimed row; the others change nothing |
| Claim.StatementsMean | src/homepilot/claim/repository.py:49-140 | the statements, in the fields of the row |
| Claim.GrantHappens | src/homepilot/claim/router.py:158-271 | the run from first boot in which a local request without a code, or any with the code, is granted a token |
| MetricBuffer.FlushGoesOn | agent/go/metrics.go:201-216 | a flush stops only when nothing is left, the rounds are used up, or the round it stops at was not sent or not acknowledged; every round before delivers up to 500 samples |
| MetricBuffer.FlushEmpties | agent/go/metrics.go:201-216 | with every round acknowledged and nothing sampled meanwhile, a flush delivers all there is, in order, and leaves nothing |
| SlidingWindow.RecentCount | src/homepilot/common.py:56-56 | how many calls are recent, counted by position |
| SlidingWindow.WithinCount | src/homepilot/common.py:49-66 | how many calls lie in a window, counted by position |
| Departures.EscapedStepIsMissed | src/homepilot/artifacts/transitions.py:297-298 | a run that ends with a composite approved over a proposed step whose id its spec escapes |
| Departures.FormFeedUnreadsSpec | src/homepilot/artifacts/transitions.py:262-265 | a run that ends with an approved composite whose spec can no longer be read, saved under an unchanged hash |
| Departures.UnapprovedSpaceIsApplied | src/homepilot/artifacts/transitions.py:262-265 | a run in which the applied text differs from the approved one by a space |
| Departures.LeadingBreakFailsItsHash | src/homepilot/artifacts/transitions.py:97-99 | a proposal nobody touched that cannot be approved, for the line break in front of its body |
| Departures.ReturnInLogFailsItsHash | src/homepilot/artifacts/transitions.py:335-341 | a failed artifact that cannot be approved again, for a carriage return in its partial log |
| Departures.ReplayOnlyIsApprovedAgain | src/homepilot/artifacts/models.py:374-374 | a `replay-only` artifact that can be approved again after it failed |
| Departures.CycleIsApproved | src/homepilot/artifacts/transitions.py:184-186 | any two composites that name each other are both proposed, and approved at once |
| Departures.MentionAloneDemotes | src/homepilot/artifacts/transitions.py:298-303 | a composite is demoted for mentioning an edited artifact that is no step of it |
| ReplayChannel.FrameAfterAFailureIsLost | src/homepilot/agent_hub/server.py:604-607 | a frame the hub sends after one it could not encode is refused |
| PendingRequests.OldConnectionAnswers | src/homepilot/agent_hub/registry.py:302-332 | a reply read on a replaced connection answers a request issued on the one that replaced it |
| Framing.NotTextEndsAnyConnection | src/homepilot/agent_hub/server.py:174-178 | a body that is not UTF-8 ends even an unprotected connection |
| Registry.EmptyIdStaysBehind | src/homepilot/agent_hub/server.py:1024-1044 | a run that leaves behind an entry with an empty id, which no lookup finds and no handler is left to remove |
| Claim.FailedMintIsHeldByItsTokenAlone | src/homepilot/claim/router.py:243-255 | a claim that failed between mint and record leaves a token that alone keeps it closed |
| Claim.FailedMintHappens | src/homepilot/claim/router.py:174-255 | the run from first boot in which that happens |
| MetricBuffer.OverlappingFlushersLoseSamples | agent/go/metrics.go:201-215 | a run in which two flushers of one batch remove a hundred samples that were never sent, without overflow |
| ArtifactText.ComputeBodyHash | src/homepilot/artifacts/models.py:157-164 | the loop that pops trailing empty lines computes the hash of the normal form |
| ArtifactText.TrimmedJoins | src/homepilot/artifacts/models.py:158-162 | the line-based normal form equals an independent one computed a character at a time |
| ArtifactText.HashIsTrimmed | src/homepilot/artifacts/models.py:157-164 | the hash identifies exactly the bodies the character-level form identifies |
| ArtifactText.TrailingSpaceKeepsHash | src/homepilot/artifacts/models.py:157-162 | whitespace at the end of any line does not change the hash |
| ArtifactStore.Find | src/homepilot/artifacts/store.py:379-379 | the closing delimiter found is the first at or after the start, and none is reported only when there is none |
| ArtifactStore.RereadUnchangedIff | src/homepilot/artifacts/store.py:368-386 | a body comes back exactly as written if and only if it holds no carriage return and does not begin with a line break |
| ArtifactStore.RereadIdempotent | src/homepilot/artifacts/store.py:346-386 | a second write and read changes nothing more |
| ArtifactStore.UniversalTrimmedIff | src/homepilot/artifacts/store.py:377-377 | text-mode reading keeps the normal form if and only if bare carriage returns stand only in the final whitespace |
| ArtifactFiles.ParsedAfterWrite | src/homepilot/artifacts/store.py:343-386 | a written file parses as its frontmatter and the body as a reader sees it |
| ArtifactFiles.WriteStaysOnDisk | src/homepilot/artifacts/store.py:346-355 | writing one file changes the artifact it holds and no other |
| ArtifactFiles.OnDiskIsSettled | src/homepilot/artifacts/store.py:373-386 | whatever is read from a file has the body a further write and read would return |
| Lifecycle.ReachedNext | src/homepilot/artifacts/transitions.py:158-186 | what a reached proposed artifact names is reached too |
| Lifecycle.ClosureCoversReached | src/homepilot/artifacts/transitions.py:127-187 | a set closed under the steps of its proposed members holds everything the approval reaches, on any graph with cycles |
| Lifecycle.DependsNext | src/homepilot/artifacts/transitions.py:291-310 | an approved composite that mentions a dependent artifact depends on the edit |
| Lifecycle.ClosureCoversDependents | src/homepilot/artifacts/transitions.py:281-310 | a set closed under mentions by approved composites holds everything that depends on the edit |
| Cascade.FoundCarried | src/homepilot/artifacts/transitions.py:178-186 | appending a proposed step and its own cascade keeps the list distinct, proposed, reached and fully expanded |
| Cascade.PartwayNext | src/homepilot/artifacts/transitions.py:298-310 | demoting one more mentioning composite leaves every other artifact as it was |
| LifecycleRuns.StepStaysInOrder | src/homepilot/artifacts/transitions.py:89-377 | every operation keeps hashes and approvals in order, whatever the specs say |
| LifecycleRuns.ApprovalReachesEveryStep | src/homepilot/artifacts/transitions.py:101-125 | after an approval every step named by the root or by a carried artifact is approved |
| LifecycleRuns.ApproveKeeps | src/homepilot/artifacts/transitions.py:89-222 | an approval leaves no approved composite naming a proposed, rejected or missing step |
| LifecycleRuns.InvalidationLeavesNoMention | src/homepilot/artifacts/transitions.py:281-310 | after an invalidation no approved composite mentions the edited artifact or a demoted one |
| LifecycleRuns.UnwrittenStepBreaks | src/homepilot/artifacts/transitions.py:297-298 | a composite that names what is demoted without being demoted is left approved over a proposed step |
| LifecycleRuns.InvalidationKeepsIff | src/homepilot/artifacts/transitions.py:262-310 | an invalidation leaves no such composite if and only if none names what is demoted only in characters the search misses |
| LifecycleRuns.StepKeepsIff | src/homepilot/artifacts/transitions.py:89-377 | of all operations only an unsafe edit breaks the invariant |
| LifecycleRuns.PlainlyWrittenIsSafe | src/homepilot/artifacts/transitions.py:246-310 | edits are safe where approved specs write their step ids literally and equal hashes parse alike |
| LifecycleRuns.StepMoves | src/homepilot/artifacts/models.py:363-379 | the only ways one operation can change one artifact, with the body each leaves |
| LifecycleRuns.ApprovalStandsSomewhere | src/homepilot/artifacts/transitions.py:89-118 | an approved artifact has a last approval since which its hash is unchanged, and its body is the text last saved since, or the approved one |
| LifecycleRuns.LastSavedIff | src/homepilot/artifacts/transitions.py:246-265 | that text is the approved one if and only if the last edit put it back |
| LifecycleRuns.AppliedUnderSome | src/homepilot/artifacts/transitions.py:312-327 | an applied artifact was applied under an approval that stood, and is as that left it but for later saves |
| LifecycleRuns.TerminalStays | src/homepilot/artifacts/models.py:376-378 | along a history the frontmatter of rejected, superseded and revoked artifacts does not change |
| LifecycleRuns.LoggedHashMatchesIff | src/homepilot/artifacts/transitions.py:318-325 | the exact condition on body and log under which the stored hash matches the body read back |
| LifecycleRuns.ReapprovalAfterFailureIff | src/homepilot/artifacts/transitions.py:329-346 | a failed artifact passes the hash check of a new approval under exactly that condition |
| LifecycleRuns.UntouchedProposalIff | src/homepilot/artifacts/validator.py:140-165 | an artifact nobody touched passes its own hash check if and only if the proposed body survives being written and read |
| LifecycleRuns.EditedMatchesItsHash | src/homepilot/artifacts/transitions.py:262-276 | after a recorded edit the hash is that of the body on disk, a changed body is no longer approved, and an artifact without steps can be approved again |
| CanonicalJson.ReadStringBack | src/homepilot/agent_hub/replay.py:46-68 | a string literal reads back as the string, every escape included |
| CanonicalJson.ReadDecimal | src/homepilot/agent_hub/replay.py:84-91 | an integer reads back from its decimal text followed by anything that does not extend a number |
| CanonicalJson.ReadFraction | src/homepilot/agent_hub/replay.py:86-92 | so does a float with a fraction from its shortest text |
| CanonicalJson.ReadSpecialBack | src/homepilot/agent_hub/replay.py:86-92 | and one that is not finite |
| CanonicalJson.CanonDecodes | src/homepilot/agent_hub/replay.py:71-102 | equal canonical texts if and only if equal values up to key order and the kind of a whole number |
| CanonicalJson.SortSorts | src/homepilot/agent_hub/replay.py:93-98 | sorting yields ascending keys and exactly the given entries |
| CanonicalJson.AscendingUnique | src/homepilot/agent_hub/replay.py:93-98 | there is one ascending order of a set of entries |
| CanonicalJson.NormalIffSame | src/homepilot/agent_hub/replay.py:71-102 | what the text forgets is exactly insertion order and whether a whole number was a float |
| CanonicalJson.LookupSorted | src/homepilot/agent_hub/replay.py:95-98 | walking the sorted keys and looking each up visits the entries in sorted order |
| CanonicalJson.QuoteString | src/homepilot/agent_hub/replay.py:46-68 | the append loop produces the quoted string |
| CanonicalJson.Canonicalize | src/homepilot/agent_hub/replay.py:71-102 | the recursive printer with its append loops produces the canonical text |
| CanonicalJson.CanonicalizeFields | src/homepilot/agent_hub/replay.py:93-99 | one part per key, in key order |
| ReplayChannel.Float64Exact | agent/go/main.go:144-145 | float64 keeps every number up to 2^53 |
| ReplayChannel.Float64Misses | agent/go/main.go:144-145 | and no number comes out as 2^53 + 1 |
| ReplayChannel.FloatedSameIff | agent/go/protocol.go:70-74 | decoding leaves a value the same if and only if float64 keeps every number in it |
| ReplayChannel.CheckedIsNext | src/homepilot/agent_hub/replay.py:148-157 | what passes a receiver's check without a forged code is the next frame that was sent |
| ReplayChannel.StampedIsAcceptedIff | agent/go/main.go:143-154 | a stamped frame is accepted under its number if and only if the receiver's decoder leaves frame and number as they are |
| ReplayChannel.StampedVerifies | src/homepilot/agent_hub/replay.py:136-157 | a stamped frame passes the check for its number |
| ReplayChannel.NotTakenForAnother | src/homepilot/agent_hub/replay.py:148-157 | and for no other |
| ReplayChannel.CodeIdentifies | src/homepilot/agent_hub/replay.py:111-118 | a matching code belongs to one frame only |
| ReplayChannel.SameIffLookups | src/homepilot/agent_hub/replay.py:93-99 | frames are the same if and only if they agree on every key |
| ReplayChannel.DeliverKeeps | src/homepilot/agent_hub/server.py:977-989 | whatever the channel delivers, what is accepted is the next frame that was sent |
| ReplayChannel.RunKeeps | src/homepilot/agent_hub/replay.py:136-157 | numbering and accepted prefix hold in every run |
| ReplayChannel.NothingAcceptedAfterAGap | src/homepilot/agent_hub/server.py:604-607 | whatever the channel does, nothing sent after a frame the hub could not encode is accepted |
| ReplayChannel.TurnInStep | src/homepilot/agent_hub/server.py:604-607 | one faithful turn keeps the receiver in step if and only if the frame fits its decoder |
| AgentSender.StepKeeps | agent/go/main.go:67-116 | every event keeps numbers consecutive per socket and frames on their own socket |
| NonceCache.PruningStaysFaithful | src/homepilot/agent_hub/replay.py:181-188 | pruning forgets nothing that could still be refused |
| NonceCache.KnownIffUsed | src/homepilot/agent_hub/replay.py:174-177 | a pair is in the pruned cache if and only if it was accepted less than a window ago |
| NonceCache.RecordingStaysFaithful | src/homepilot/agent_hub/replay.py:178-178 | recording keeps cache and log in agreement |
| NonceCache.NoReplayWhenStampedEarlier | src/homepilot/agent_hub/server.py:622-626 | a frame whose timestamp lies before its first acceptance is never accepted again |
| Framing.HeaderRoundTrip | src/homepilot/agent_hub/server.py:154-169 | the four header bytes read back as the length |
| Framing.NextOfFramed | src/homepilot/agent_hub/server.py:152-181 | reading one written frame |
| Framing.ServeOne | src/homepilot/agent_hub/server.py:629-674 | one written frame is answered once and passed, or ends the connection |
| Registry.RegisterKeeps | src/homepilot/agent_hub/registry.py:126-177 | registration keeps index and table in agreement |
| Registry.StepKeeps | src/homepilot/agent_hub/registry.py:107-250 | so does every event of every connection |
| Registry.OwnTeardownRemovesIff | src/homepilot/agent_hub/server.py:1024-1044 | the teardown of the connection that owns an entry removes it if and only if its id is not empty |
| PendingRequests.StepKeeps | src/homepilot/agent_hub/registry.py:283-355 | every event keeps the records to requests that are still waited for |
| Claim.LatchKeeps | src/homepilot/claim/router.py:214-217 | of concurrent requests one gets past the latch |
| Claim.HolderKeeps | src/homepilot/claim/router.py:219-255 | mint, record, failure, release and return keep the invariant |
| Claim.StepKeeps | src/homepilot/claim/router.py:158-271 | every step of every request, boot, restart and token change keeps it |
| MetricBuffer.StepKeeps | agent/go/metrics.go:98-138 | the bookkeeping holds under every interleaving of sampling and flushers |
| SlidingWindow.PrunedAnswersAlike | src/homepilot/common.py:56-56 | a pruned log has the same recent calls as the whole one, now and later |
| SlidingWindow.KeyOkPruned | src/homepilot/common.py:56-58 | pruning at a call keeps the key's log good for every later answer |
| SlidingWindow.AllowedStaysSpaced | src/homepilot/common.py:56-61 | an allowed call keeps any limit + 1 calls in a row a window apart |
| SlidingWindow.NoWindowHoldsMore | src/homepilot/common.py:49-66 | spaced calls put at most the limit in any window, wherever it begins |
| SlidingWindow.EvictionKeeps | src/homepilot/common.py:62-65 | evicting keys leaves the answers for the others right |
| Transitions.ArtifactTransitionManager.Edit | src/homepilot/artifacts/transitions.py:246-279 | a changed hash is recorded, an approval is withdrawn, and exactly the dependent approved composites are demoted; an unchanged hash changes nothing |
| Transitions.ArtifactTransitionManager.EditWith | src/homepilot/cli/main.py:777-801 | the editor's text stays in the file whatever the status, and is recorded where the status allows it |
| Transitions.ArtifactTransitionManager.Save | src/homepilot/cli/main.py:777-794 | the editor replaces the body of any artifact and leaves its frontmatter |
| Transitions.ArtifactTransitionManager.ApproveAll | src/homepilot/artifacts/transitions.py:124-125 | the carried artifacts are approved one after the other and nothing else changes |
| Transitions.ArtifactTransitionManager.ApproveCascaded | src/homepilot/artifacts/transitions.py:189-222 | approves a step that is still proposed, with the reason that names the composite; otherwise changes nothing |
| Transitions.ArtifactTransitionManager.Propose | src/homepilot/artifacts/validator.py:83-165 | a new artifact starts proposed (a kb-note applied) with the hash of the proposed body; anything refused leaves the store as it was |
| Transitions.ArtifactTransitionManager.Reject | src/homepilot/artifacts/transitions.py:224-244 | only what is proposed is rejected; who, in what role and why is recorded |
| Transitions.ArtifactTransitionManager.Revoke | src/homepilot/artifacts/transitions.py:362-377 | only approved, failed and applied artifacts are revoked; who and why is recorded |
| Transitions.ArtifactTransitionManager.MarkApplied | src/homepilot/artifacts/transitions.py:312-327 | an approved artifact becomes applied with its body, less trailing line breaks, followed by the log, and the hash of that text |
| Transitions.ArtifactTransitionManager.MarkFailed | src/homepilot/artifacts/transitions.py:329-346 | an approved artifact becomes failed with the reason, with the partial log only when there is one, and the hash of the resulting text |
| Transitions.ArtifactTransitionManager.Supersede | src/homepilot/artifacts/transitions.py:348-360 | only applied artifacts are superseded, naming the successor |
| Transitions.ArtifactTransitionManager.ListApprovedComposites | src/homepilot/artifacts/store.py:388-421 | the listing holds every approved composite, and only those, with the frontmatter it has then |
| Transitions.ArtifactTransitionManager.Write | src/homepilot/artifacts/store.py:346-355 | the file holds the composed text, and the artifact it parses as is the only one that changes |
| Transitions.ArtifactTransitionManager.Read | src/homepilot/artifacts/store.py:373-386 | the artifact parsed from the file, or none |
| ReplayChannel.ReplaySession.Stamp | src/homepilot/agent_hub/replay.py:136-146 | the next number and the code over the numbered frame are put in, any earlier code left out |
| ReplayChannel.ReplaySession.Verify | src/homepilot/agent_hub/replay.py:148-157 | accepts exactly the expected number with a matching code, and advances only then |
| ReplayChannel.AgentInbound.VerifyInbound | agent/go/main.go:143-154 | the agent's check of a decoded frame: the number, and a code that matches what was decoded |
| AgentSender.Agent.SendLocked | agent/go/main.go:89-116 | a frame that fails to encode takes no number; the others take the next one |
| AgentSender.Agent.SendOn | agent/go/main.go:79-86 | a sender of another generation writes nothing and takes no number |
| AgentSender.Agent.Connect | agent/go/main.go:156-182 | socket and generation are published together |
| AgentSender.Agent.FinishRegister | agent/go/main.go:263-270 | numbering restarts when protection was negotiated and advertised |
| NonceCache.Cache.PruneBucket | src/homepilot/agent_hub/replay.py:184-186 | exactly the unexpired nonces of a bucket are kept |
| NonceCache.Cache.Prune | src/homepilot/agent_hub/replay.py:181-188 | exactly the unexpired nonces are kept, and no bucket that pruning emptied |
| Framing.EncodeMessage | agent/go/protocol.go:42-54 | the buffer filled in place is the hub's framing, and exactly the payloads over the limit are refused |
| Framing.StreamReader.ReadExact | src/homepilot/agent_hub/server.py:157-164 | whatever the size of the pieces, exactly n bytes or a lost connection |
| Framing.StreamReader.ReadMessage | src/homepilot/agent_hub/server.py:167-181 | the next message, with an oversize body left unread |
| Framing.StreamReader.Serve | src/homepilot/agent_hub/server.py:938-990 | the connection loop, with the replay check on a protected connection, answers the frames of the stream as specified |
| Framing.StreamReader.ReadForAgent | agent/go/protocol.go:57-75 | the agent's reader: a body within the limit with its numbers as float64, or an error |
| Framing.StreamReader.ServeAgent | agent/go/main.go:409-421 | the agent's loop, with its inbound check, acts on bodies up to the first error |
| Registry.AgentRegistry.Register | src/homepilot/agent_hub/registry.py:107-177 | refused exactly when the hostname or the id is held live elsewhere, and then nothing changes; otherwise both maps point at the new entry |
| Registry.AgentRegistry.Unregister | src/homepilot/agent_hub/registry.py:179-208 | compare and delete: only the owner's entry, and only an index entry that points at it |
| Registry.AgentRegistry.Disconnect | src/homepilot/agent_hub/registry.py:223-250 | drops the entry and returns its socket if that is live |
| Registry.AgentRegistry.GetByHostname | src/homepilot/agent_hub/registry.py:255-259 | what a lookup by hostname finds |
| PendingRequests.ConnectedAgent.Wait | src/homepilot/agent_hub/registry.py:334-350 | a wait is recorded with the issued action |
| PendingRequests.ConnectedAgent.EndWait | src/homepilot/agent_hub/registry.py:352-355 | both maps forget the id, whatever ended the wait |
| PendingRequests.ConnectedAgent.StoreCommandResult | src/homepilot/agent_hub/registry.py:283-332 | only a reply that binds to the issued action settles the future it names, once; every other future is left alone |
| PendingRequests.ConnectedAgent.FailAll | src/homepilot/agent_hub/registry.py:216-218 | an eviction fails exactly the futures still waiting |
| Claim.ClaimRepository.EnsureClaimCode | src/homepilot/claim/startup.py:116-169 | a boot never reopens a claimed row, keeps a pending code the operator still has, and otherwise installs a new one; the file follows unless it cannot be written |
| Claim.ClaimRepository.TakeClaim | src/homepilot/claim/repository.py:65-78 | the latch is won exactly when the row is there and unclaimed |
| Claim.ClaimRepository.Release | src/homepilot/claim/repository.py:80-94 | the latch is given back unless a minted token is recorded |
| Claim.ClaimRepository.LatchClaimedExternally | src/homepilot/claim/repository.py:96-133 | afterwards the row is claimed, also when there was none; reports whether this call closed it |
| Claim.ClaimRepository.IsClaimed | src/homepilot/claim/repository.py:142-153 | closed by any admin credential or by the latch |
| MetricBuffer.WaitMetricAck | agent/go/metrics.go:221-240 | true exactly when the batch's own acknowledgement arrives before the end of the wait; acknowledgements of other batches are let pass |
| MetricBuffer.Buffer.FlushBatch | agent/go/metrics.go:203-214 | one batch is dropped only after its acknowledgement; as many samples leave as it held |
| MetricBuffer.Buffer.Add | agent/go/metrics.go:98-113 | the buffer is the newest part of everything added, and what overflowed is counted |
| MetricBuffer.Buffer.Peek | agent/go/metrics.go:116-128 | the oldest buffered samples, without removing them |
| MetricBuffer.Buffer.DropFront | agent/go/metrics.go:131-138 | at most n samples leave from the head |
| SlidingWindow.SlidingWindowLimiter.Oldest | src/homepilot/common.py:63-63 | no tracked key has an older last hit, and none inserted earlier one as old |
| SlidingWindow.SlidingWindowLimiter.Evict | src/homepilot/common.py:62-65 | drops exactly the entries beyond the bound, and no evicted key has a later last hit than a survivor |
| AgentSender.Agent.BeginRegister | agent/go/main.go:191-194 | the register frame is never numbered |
| AgentSender.Agent.StartLoops | agent/go/main.go:405-407 | the loops started on a connection carry its generation |
| Claim.ClaimRepository.InstallCode | src/homepilot/claim/repository.py:49-63 | the row is replaced by an unclaimed one with the new code |
| Claim.ClaimRepository.RecordMintedToken | src/homepilot/claim/repository.py:135-140 | the token prefix is recorded on the row |

## Left out

- Transitions.ArtifactTransitionManager.Propose: of the checks at propose it keeps the fresh id, the non-empty body, the declared idempotence, the id syntax and the steps of a composite; digits outside ASCII in the date of an id, target, intent, provenance, duplicate step names and the per-kind specs are not modelled.
- Transitions.ArtifactTransitionManager.Save: the editor changes the body only; an operator who rewrites the frontmatter by hand is not modelled.
- Transitions.ArtifactTransitionManager.Reject: the times at which anything was decided are not kept, here or elsewhere.
- ReplayChannel.AcceptedIsPrefixOfSent: one connection and one direction; counters and key are reused, so replays across connections or between directions are not covered.
- ReplayChannel.FaithfulAcceptsAllIff: the agent's code is the hub's code on the frame as the agent decoded it; that Go's encoder prints the same bytes for numbers that float64 keeps is not shown.
- CanonicalJson.ReadPrint: strings that cannot be encoded as UTF-8 are not values of the model.
- AgentSender.NumbersHaveNoGap: speaks of frames handed to the socket; after a write error the number is not given back, and the connection is lost. Wrap-around of the 64-bit counters is not modelled.
- Claim.AtMostOneTokenIsGranted: rate limiting and the Proxmox check are an arbitrary refusal; a crash between latch and mint leaves the claim closed without a token, and no recovery is modelled.
- PendingRequests.AnsweredOnlyByItsReply: safety only; a reply that overtakes the record of its request is lost, and the caller's time-out is what ends the wait.
- MetricBuffer.Buffer.Flush: what the hub does with the samples is not modelled.
- SlidingWindow.SlidingWindowLimiter.Allow: with a limit below 1 nothing is ever allowed and nothing evicted; the bound on tracked keys is claimed from 1 on.
- Framing.StreamReader.Serve: idle time-outs, the handshake and what a dispatched frame does are not part of it; a decoder that says object, other JSON, not JSON or not text stands for the JSON library.
- Interleaving inside one lifecycle operation, file locks, git, audit rows and the database copy of artifacts.
- Allowlists, file operations, command execution, enrolment, credentials, version skew, events, inventory and the HTTP routers other than the order of steps in a claim: no state machine of their own, or plumbing.

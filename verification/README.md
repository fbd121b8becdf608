# Transcripts, patches, streams and small protocols of the agent runtime

A Dafny model of the state-carrying parts of `src/agents` and of the patch step of
`scripts/postinstall.js`, with proofs of what they promise. Loops and objects of the source
are methods and classes; each is tied by its `ensures` to a specification function, and the
theorems are about those functions, so they hold of the loops. `dafny verify dfyconfig.toml`
checks everything.

The files named after fields, counts, laws, places or grammar tell what the specification functions
compute without using them: on the fields of a message, the characters of a buffer, the lines of a
patch or a file.

| files | subject |
|---|---|
| Transcript, TranscriptRepair, RepairProperties, RepairCompleteness, RepairInPlace, RepairFields, RepairCounts | re-pairing tool calls and tool results, and what is left alone |
| SessionGuard, GuardLaws, GuardProperties, GuardInPlace | the append guard that keeps calls answered, and when its log needs no repair |
| ToolCallIds, ToolCallIdSanitizer, IdLaws, SanitizerProperties, RepairRenaming, RepairSanitizing | provider-safe ids, repair under renaming, and the order of repairing and sanitizing |
| Compaction, ContextShare | chunks by token limit, token shares, pruning to a budget |
| ProcessOutput | capped output buffers of a process |
| Text, BlockChunker, BreakLaws, BlockChunkerDrain | the block chunker of streamed replies, for any fence parser |
| Fences, FenceLaws, FencedDrain, FencedChunks | the fence parser it uses, when a drain with it ends, and when its chunks have every fence closed |
| PatchUpdate, PatchPlaces, PatchApply | where the chunks of an update go, and what the file becomes |
| PatchParser, PatchGrammar, PatchErrors, PatchRoundTrip | which texts are patches in the `*** Begin Patch` format, what they say, and what is reported of the others |
| UnifiedDiff, DiffPasses | the unified-diff applier of the install step |
| SubagentRegistry, AnnounceOnce, RegistryLaws | the announce gate, with crash and restore |
| WorkerPool | the shared-counter worker pool |
| CompactionWait | the compaction waiters |

## Where the code does not do what one might expect

Each of these is proved, with the exact condition where there is one.

- **A silent repeat is handed back.** A second result with the same id inside one span is
  skipped without being counted (session-transcript-repair.ts:150-153), so when nothing else
  is wrong the input comes back with the repeat in it. A change is reported exactly when the
  input is not in order (`ChangeIsReportedIff`), and the returned list is paired exactly unless
  the input is in order and holds such a repeat (`ReturnedIsPairedIff`, `SilentRepeatExample`).
  The list built by the loop is always paired.
- **A change is reported where there is none.** A user message after the results of a turn already
  counts as not in order (`ReportedButKeptExample`). The list that is built equals its input exactly
  when each result is the one that is due next, in call order, and none is missing
  (`RepairKeepsIff`).
- **A reused call id gets no second result.** The repaired list answers every turn completely if
  and only if no call id occurs twice (`RepairedIsCompleteIffIdsDistinct`, `ReusedIdExample`). When
  one does, `added` also lists a notice that was never placed; the counters follow the code.
- **A long fence line never drains.** When a fence is split, its first line is put back in front of
  the buffer. With the parser of the source, `drain` ends if and only if none of its rounds puts
  back at least what it cut off, and then within one round for each character (`DrainEndsIff`).
  On the buffer alone: it ends when every line is shorter than a hard break (`ShortLinesDrain`),
  and never with a fence line of a hard break or more in front of an overfull buffer
  (`LongFenceLineNeverDrains`, `LongFenceLineExample`).
- **A chunk can leave a fence open.** A split closes its fence exactly when the piece of the line
  before the cut does not close it already, or, in the fence's first line, already holds the marker;
  a cut outside the fences leaves none open unless it makes a fence line out of a line that is none
  (`ChunkIsClosedIff`, `DrainChunksClosedIff`). A cut in the closing line and a cut before a
  carriage return fail (`SplitInClosingLineExample`, `CarriageReturnExample`), and so does a cut at
  the end of the buffer inside a fence, since no span reaches past the end (`OpenAtTheEndExample`).
- **Two replacements can overlap.** An end-of-file chunk is looked for at the end of the file,
  possibly before the cursor, and an insertion without old lines goes before a blank last line,
  which an earlier chunk may have taken (`BackwardEofIsLocated`, `BlankLastLineIsLocated`). The
  replacements are disjoint exactly when no end-of-file chunk starts before the end of what was
  taken and no such insertion meets a region that holds the last line (`ReplacementsDisjointIff`);
  then splicing from the back is a simultaneous replacement (`UpdateIsSimultaneous`).
- **Adding past the end repeats.** A diff hunk that only adds lines and starts past the end of the
  file adds them again on every pass. A second pass changes nothing if and only if the first met no
  such hunk (`PassIsIdempotentIff`, and `AddingAgainIsHarmlessIff` for one hunk;
  `AddedTwiceExample` is an empty file that grows twice).
- **Names of ids can run out.** In either mode the names are pairwise different if and only if each
  new id finds a candidate, or the clock's id, that is not taken (`NamesAreInjectiveIff`). That is
  so for any 998 ids in `strict` mode, whatever the digest, and in both modes when the forms tried
  first differ (`DifferentFormsNeverCollide`). In `strict9` mode it rests on the digest: a constant
  function in its place makes two ids collide (`Strict9NeedsTheDigest`). SHA-1 is not constant, and
  no colliding input is claimed.
- **Sanitizing and repairing do not commute.** A stray result that repair drops may take a name
  away from a later call when sanitizing comes first (`SanitizingFirstMayDiffer`). In either mode,
  when no two ids of the transcript get the same name, the order does not matter exactly when the
  repaired transcript gives the ids that are left the same names (`RepairThenSanitizeIff`); so it is
  when results only carry ids of earlier calls (`RepairThenSanitize`). It never matters when the
  forms tried first differ (`DifferentFormsCommute`). Two ids with one name do more harm: the second
  result is lost when sanitizing comes first (`CollidingNamesMayDiffer`, for a constant function in
  place of the digest).
- **An error can name the wrong line.** When an update starts without a `@@` line, and its first line
  is no edit either, the line after it is named (apply-patch.ts:470-473; `ChunkFailsIff`,
  `WrongLineExample`). Inside a here-document lines are counted from its second one (`PatchFailsIff`).
- **A failed announcement is tried again, a crashed one is not.** After a failure the run is unclaimed
  in memory and on disk, and the next process that starts from that disk announces it
  (`FailedAnnouncementIsRetried`).
- **A crash during an announcement silences the run.** The claim is on disk before the flow
  starts, so after a crash no later process announces that run (`CrashAbandons`,
  `AbandonedForever`, `CrashExample`). A restart takes up exactly the unclaimed runs (`RestartResumesExactly`).
- **Fences with carriage returns are not seen.** The dot of the fence pattern does not match a
  carriage return, so a fence line of a text with CR LF line ends is no fence to the parser
  (`CarriageReturnHidesFence`).

## Model

| member | source | states |
|---|---|---|
| Transcript.ExtractToolCalls | src/agents/session-transcript-repair.ts:8-28 | the loop over the blocks yields the calls with a usable id, in order |
| TranscriptRepair.CollectSpan | src/agents/session-transcript-repair.ts:127-164 | the span loop stops at the next assistant; its map holds the first result of each open id, the rest are the non-results in order, and the two counts are exact |
| TranscriptRepair.PushResults | src/agents/session-transcript-repair.ts:86-95 | pushing gives one result for each call id not answered before, and says which notices were added, which pushes refused, and which ids are now answered |
| TranscriptRepair.RepairTurn | src/agents/session-transcript-repair.ts:118-195 | one assistant turn with its span produces exactly the tally of that turn |
| TranscriptRepair.RepairRound | src/agents/session-transcript-repair.ts:97-196 | each round moves on and keeps the final outcome; a change once noted stays noted |
| TranscriptRepair.RepairToolUseResultPairing | src/agents/session-transcript-repair.ts:71-206 | the whole loop reports exactly the outcome of the scan that the theorems below are about |
| RepairProperties.RepairedIsPaired | src/agents/session-transcript-repair.ts:71-206 | for every input: no result id repeats, and each result stands in the block of results right after a turn with that call |
| RepairProperties.RepairedKeepsOthers | src/agents/session-transcript-repair.ts:97-196 | messages that are not results survive in order, and no call id is lost |
| RepairProperties.ScanAgain | src/agents/session-transcript-repair.ts:97-196 | scanning the output from the same answered ids gives the same output |
| RepairProperties.RepairIsIdempotent | src/agents/session-transcript-repair.ts:198-205 | repairing twice changes nothing, for the built list and for the returned one |
| RepairProperties.AnswersFoundAgain | src/agents/session-transcript-repair.ts:173-186 | the results placed after a turn are found again, in the same order, when the turn is read once more |
| RepairCompleteness.CompleteTurnIff | src/agents/session-transcript-repair.ts:166-194 | a list that starts with a turn, its results and other messages is completely paired exactly when the turn has all its results and what follows is completely paired |
| RepairCompleteness.RepairedIsCompleteIffIdsDistinct | src/agents/session-transcript-repair.ts:86-95 | every turn is followed by exactly its calls' results in call order if and only if no call id of the input is reused |
| RepairCompleteness.UntouchedTurn | src/agents/session-transcript-repair.ts:141-171 | when a turn counts as unchanged, everything in its span is a result for one of its open calls |
| RepairCompleteness.NoRepeatsInSpan | src/agents/session-transcript-repair.ts:150-153 | a span of matching results is free of repeated ids exactly when the skip never fires |
| RepairCompleteness.ChangeIsReportedIff | src/agents/session-transcript-repair.ts:198-205 | a change is reported if and only if the input is not in order: a result before its turn, a call id not new, or a span with anything but results for its calls, at least one each |
| RepairCompleteness.ReturnedIsPairedIff | src/agents/session-transcript-repair.ts:198-205 | the returned list is paired unless the only defect of the input is a result skipped silently, and only then not |
| RepairCompleteness.SilentRepeatExample | src/agents/session-transcript-repair.ts:150-153 | one call with two results comes back unchanged, although the built list drops the second |
| RepairCompleteness.ReusedIdExample | src/agents/session-transcript-repair.ts:86-95 | two turns with a call of the same id: the second result is dropped, and a notice that was never placed is reported as added |
| RepairInPlace.RepairKeepsIff | src/agents/session-transcript-repair.ts:166-205 | the built list is the input if and only if each result is the one due next, for a new id of its turn in call order, and none is missing; the returned list is the input if and only if that is so or no change is reported |
| RepairInPlace.ReportedButKeptExample | src/agents/session-transcript-repair.ts:166-171 | a user message after the result of a call: a change is reported and the list is the same |
| RepairFields.ResultIdIs | src/agents/session-transcript-repair.ts:30-36 | a result is for an id by its `toolCallId`, or by its `toolUseId` when it has no usable `toolCallId` |
| RepairFields.CallsAreBlocks | src/agents/session-transcript-repair.ts:8-28 | the calls of a turn are its call blocks of any kind with a usable id, in order, each with its name |
| RepairFields.CallIsAnswered | src/agents/session-transcript-repair.ts:118-195 | told from the message fields: for the first call with an id, the first result for that id before the next assistant, itself, stands in the block of results right after the turn, and a notice with the name of the call stands there only when there is no such result |
| RepairCounts.CountersAre | src/agents/session-transcript-repair.ts:97-196 | orphans are the results for no call of their turn; duplicates are those for calls whose id is of an earlier turn, and one for each call beyond the first of its id; the built list has one result for each id |
| RepairCounts.OthersKeepTheirOrder | src/agents/session-transcript-repair.ts:97-196 | the messages that are no results stand at increasing places of the input and of the built list, the same in the same order |
| SessionGuard.SessionToolResultGuard.constructor | src/agents/session-tool-result-guard.ts:57-68 | a new guard has an empty log and nothing pending |
| SessionGuard.SessionToolResultGuard.FlushPendingToolResults | src/agents/session-tool-result-guard.ts:70-85 | a flush logs one transformed notice for each pending call, in order, when allowed, and clears the map |
| SessionGuard.SessionToolResultGuard.GuardedAppend | src/agents/session-tool-result-guard.ts:87-135 | the new log and map after an append: a result closes its call, anything else first flushes what is pending, and the calls of a turn become pending |
| GuardProperties.PendingIdsAreUnanswered | src/agents/session-tool-result-guard.ts:142 | with notices allowed, a transform that keeps ids and turns that repeat no id: after any run from a fresh guard, the pending ids are those of the calls in the log that no result answers, each once |
| GuardProperties.StepKeepsInvariant | src/agents/session-tool-result-guard.ts:87-135 | each append or flush keeps: pending is exactly the unanswered calls of the log, all of its last turn, and nothing but results came while a call was open |
| GuardProperties.GuardedLogRepair | src/agents/session-tool-result-guard.ts:108-133 | over every run with distinct call ids, repair of the log adds notices for exactly the calls still pending, and no other message was logged while a call was unanswered |
| GuardProperties.FlushedLogNeedsNoNotice | src/agents/session-tool-result-guard.ts:70-85 | after any such run and a final flush, repair adds nothing |
| GuardInPlace.FlushedLogIsKeptIff | src/agents/session-tool-result-guard.ts:70-135 | after any such run and a final flush, repair builds the log as it is if and only if each appended result carried the id of the call that had waited longest |
| GuardProperties.GuardKeepsOthers | src/agents/session-tool-result-guard.ts:119 | over every run, the messages that are not results are logged unchanged and in order |
| GuardProperties.AddedIsUnanswered | src/agents/session-transcript-repair.ts:173-186 | with distinct ids, the notices that repair adds are those of the calls no result in their span answers |
| GuardLaws.ResultIsLogged | src/agents/session-tool-result-guard.ts:90-101 | a result is logged transformed, with the id its fields carry and the name of the pending call of that id, and takes exactly that call off, also when it only has a `toolUseId`; one without a usable id leaves the pending calls alone |
| GuardLaws.OtherIsLogged | src/agents/session-tool-result-guard.ts:103-135 | any other message is logged as it is, after a flush where notices are allowed; its calls become pending, the last name of an id counts, and without notices the calls already pending keep their places |
| GuardLaws.FlushIs | src/agents/session-tool-result-guard.ts:70-85 | nothing stays pending; each pending call is logged as a notice in order, or nothing is where notices are off |
| GuardLaws.SetAllIs | src/agents/session-tool-result-guard.ts:129-133 | setting calls in a map with distinct ids: each id once, old keys in their places, the last name wins |
| GuardLaws.PendingIsMap | src/agents/session-tool-result-guard.ts:58 | over every run, no id is pending twice |
| GuardLaws.EveryMessageIsLogged | src/agents/session-tool-result-guard.ts:70-135 | over every run from any state, with notices on or off: the log keeps what it had and gets each message once, in order, results transformed and told by their id, and nothing else but notices; none where these are off |
| GuardLaws.QuietRunLogsEach | src/agents/session-tool-result-guard.ts:87-135 | with notices off, the message given k-th is logged k-th |
| ToolCallIds.SanitizedIsValid | src/agents/tool-call-id.ts:15-31 | the cleaned id is valid in its mode, and a valid id is its own cleaned form |
| ToolCallIds.MakeUniqueToolId | src/agents/tool-call-id.ts:46-81 | the loops return the first candidate not in use, or the clock's id |
| ToolCallIds.UniqueToolIdIsAcceptable | src/agents/tool-call-id.ts:46-81 | for any digest and clock the chosen id is alphanumeric, of length 9 or at most 40 |
| ToolCallIds.UniqueToolIdIsNewIff | src/agents/tool-call-id.ts:52-57 | the chosen id is new if and only if one of the candidates, or the clock's id, is new |
| ToolCallIds.DecimalInjective | src/agents/tool-call-id.ts:73-76 | different counters print differently |
| ToolCallIds.SuffixedInjective | src/agents/tool-call-id.ts:73-76 | the suffixed candidates are pairwise different, whatever is clipped |
| ToolCallIds.SuffixesUsedUp | src/agents/tool-call-id.ts:73-77 | if all suffixed candidates are in use, at least as many ids are in use |
| ToolCallIds.StrictFindsNewId | src/agents/tool-call-id.ts:60-81 | with fewer than 998 ids in use, strict mode finds a new one for any digest |
| ToolCallIdSanitizer.IdResolver.Resolve | src/agents/tool-call-id.ts:152-162 | an id keeps its name once it has one; a new id gets a unique one; the set of used names stays the set of values |
| ToolCallIdSanitizer.IdResolver.RewriteTranscript | src/agents/tool-call-id.ts:165-185 | rewriting in one pass equals renaming everything by the final map |
| ToolCallIdSanitizer.SanitizeToolCallIds | src/agents/tool-call-id.ts:144-188 | the whole function renames the transcript by its final map |
| IdLaws.KeptAre | src/agents/tool-call-id.ts:22-30 | what is kept of an id is all its letters and digits, by their codes, in order |
| IdLaws.CleanedIs | src/agents/tool-call-id.ts:15-31 | the cleaned id is what was kept or a fixed text, and in `strict9` mode nine characters of it or of a digest |
| IdLaws.DecimalIs | src/agents/tool-call-id.ts:53-74 | a counter is printed in digits that stand for it, without a leading zero |
| IdLaws.UniqueToolIdIs | src/agents/tool-call-id.ts:46-81 | the ids that are tried, in order and to the character, all but the last in use, and the last of them is chosen |
| IdLaws.NamesInOrder | src/agents/tool-call-id.ts:155-162 | an id gets its name when it is first met, against the names of the ids before it |
| IdLaws.IdsOfMessage | src/agents/tool-call-id.ts:109-129 | a result has its `toolCallId`, then its `toolUseId`, a turn the ids of its call blocks, and no other message any |
| IdLaws.IdsOfBlock | src/agents/tool-call-id.ts:92-105 | a block has an id exactly when it is a call block whose id is not blank |
| IdLaws.SanitizedFields | src/agents/tool-call-id.ts:83-188 | message by message and block by block: each usable id is replaced by its name, and nothing else changes |
| SanitizerProperties.LearnAllInjective | src/agents/tool-call-id.ts:155-162 | in strict mode the map stays injective as long as it has at most 998 ids |
| SanitizerProperties.StrictNamesAreInjective | src/agents/tool-call-id.ts:144-188 | in strict mode, at most 998 distinct ids: no two get the same name, for any digest |
| SanitizerProperties.NamesAreInjectiveIff | src/agents/tool-call-id.ts:144-188 | for either mode, any digest and any clock: the names of a transcript are pairwise different if and only if each id, when first met, finds a candidate or a clock's id not in use |
| SanitizerProperties.DifferentFormsNeverCollide | src/agents/tool-call-id.ts:46-58 | when the ids tried first are pairwise different, each id gets the one tried first and no two names are equal, in either mode and for any number of ids |
| SanitizerProperties.Strict9NeedsTheDigest | src/agents/tool-call-id.ts:52-57 | with a constant function in place of the digest, two ids get the same nine characters |
| SanitizerProperties.SanitizedIdsAreAcceptable | src/agents/tool-call-id.ts:83-136 | every id of the sanitized transcript is acceptable to the provider |
| SanitizerProperties.AcceptableTranscriptIsKept | src/agents/tool-call-id.ts:109-129 | a transcript whose ids are all acceptable is left alone |
| SanitizerProperties.SanitizingIsIdempotent | src/agents/tool-call-id.ts:144-188 | sanitizing again changes nothing, even with another digest and clock |
| RepairRenaming.RepairCommutesWithRenaming | src/agents/session-transcript-repair.ts:71-206 | repairing a transcript under an injective renaming equals renaming the repaired one, notices and counters included |
| RepairRenaming.RepairCommutesWithSanitizing | src/agents/tool-call-id.ts:144-188 | in either mode, when each id finds a name not in use: repairing the sanitized transcript is renaming the repaired one by the names of the unrepaired one, notices and counters included |
| RepairSanitizing.RepairKeepsNames | src/agents/session-transcript-repair.ts:71-206 | when results only carry ids of earlier calls, the repaired transcript gives the same names, in either mode |
| RepairSanitizing.RepairThenSanitize | src/agents/tool-call-id.ts:144-188 | in either mode, when each id finds a name not in use and results only carry ids of earlier calls: repairing the sanitized transcript equals sanitizing the repaired one |
| RepairSanitizing.RepairThenSanitizeIff | src/agents/tool-call-id.ts:144-188 | in either mode, when each id finds a name not in use: the two orders agree if and only if the names of both transcripts agree on the ids that repair leaves |
| RepairSanitizing.DifferentFormsCommute | src/agents/tool-call-id.ts:144-188 | in either mode, for any number of ids: the two orders agree when the ids tried first are pairwise different |
| RepairSanitizing.FewStrictIdsCommute | src/agents/tool-call-id.ts:144-188 | in strict mode with at most 998 ids: repairing the sanitized transcript is renaming the repaired one, and sanitizing it when results only carry ids of earlier calls |
| RepairSanitizing.SanitizingFirstMayDiffer | src/agents/tool-call-id.ts:152-162 | a stray result takes the name of a later call when sanitizing comes first, and not when repairing does |
| RepairSanitizing.CollidingNamesMayDiffer | src/agents/tool-call-id.ts:52-57 | in strict9 mode with a constant function in place of the digest, two calls get one name, and sanitizing first loses the second result |
| Compaction.ChunkMessagesByMaxTokens | src/agents/compaction.ts:62-96 | the loop yields the greedy chunks |
| Compaction.ChunksPartition | src/agents/compaction.ts:62-96 | the chunks are non-empty, concatenate to the input, and each is within the limit or one message |
| Compaction.FirstChunkIsLongest | src/agents/compaction.ts:74-88 | no first piece that fits is longer than the greedy one |
| Compaction.SuffixNeedsNoMore | src/agents/compaction.ts:62-96 | dropping messages from the front never needs more chunks |
| Compaction.ChunksAreFewest | src/agents/compaction.ts:62-96 | no partition of the input into pieces that fit has fewer pieces |
| ContextShare.NormalizeParts | src/agents/compaction.ts:20-23 | the part count is at least one, at most the message count, and at least two exactly for a finite argument of two or more with two messages |
| ContextShare.SplitMessagesByTokenShare | src/agents/compaction.ts:25-60 | the loop yields the split that the bounds below are about, for any number as part count |
| ContextShare.SplitFromPartition | src/agents/compaction.ts:39-57 | the split is a partition into non-empty chunks, at most as many as parts |
| ContextShare.SplitIsBalanced | src/agents/compaction.ts:25-60 | at most p non-empty chunks concatenate to the input; all but the last are within the share or one message; every chunk is at most the share plus p - 1 largest messages |
| ContextShare.SplitIsProper | src/agents/compaction.ts:39-57 | two or more messages with positive tokens and two or more parts give at least two chunks |
| ContextShare.PruneHistoryForContextShare | src/agents/compaction.ts:297-341 | dropped followed by kept is the input, and every count and token sum of the report is that of the two lists |
| ContextShare.PruningReachesBudget | src/agents/compaction.ts:321-330 | with two or more parts something is kept, and it is within the budget or one message |
| ContextShare.PruningIsNeeded | src/agents/compaction.ts:321-330 | no chunk was dropped needlessly: before each drop the messages were over the budget |
| ContextShare.OnePartPrunesNothing | src/agents/compaction.ts:322-323 | with one part nothing is dropped |
| ContextShare.DroppedThenKept | src/agents/compaction.ts:324-329 | the dropped chunks followed by the kept messages are the input |
| ContextShare.NormalizeIs | src/agents/compaction.ts:20-23 | the part count is the argument rounded down, one when it is not finite or below two, and the message count when there are fewer |
| ContextShare.SplitIsGreedy | src/agents/compaction.ts:39-57 | no chunk is closed before the next message would take it over its share, and with fewer than two parts there is one chunk |
| ContextShare.DroppedIsFirstOfSplit | src/agents/compaction.ts:321-330 | each dropped chunk is the first one of a split of what was then left |
| ContextShare.PruningEnds | src/agents/compaction.ts:321-323 | pruning ends only within the budget, or when there is nothing to split |
| ContextShare.BudgetIs | src/agents/compaction.ts:311-319 | the budget is the share of the window rounded down, one half without a share, at least one; without a part count there are two |
| ProcessOutput.CapPendingBuffer | src/agents/bash-process-registry.ts:187-205 | the pieces left join to the last cap characters, and the returned count is exact |
| ProcessOutput.PushCapped | src/agents/bash-process-registry.ts:104-115 | pushing keeps the capped end of the text and reports whether it overflowed |
| ProcessOutput.PendingCapIs | src/agents/bash-process-registry.ts:106-109 | a pending buffer holds no more than asked for, thirty thousand characters when nothing is, and no more than the whole output may |
| ProcessOutput.ProcessSession.AppendOutput | src/agents/bash-process-registry.ts:99-127 | the new text of both buffers, the aggregate, the flag and the total; counters exact, tail the end of the aggregate |
| ProcessOutput.ProcessSession.DrainSession | src/agents/bash-process-registry.ts:129-137 | a drain hands out both pending texts and empties them, and changes nothing else |
| ProcessOutput.ChunkString | src/agents/bash-tools.shared.ts:159-165 | the pieces are non-empty, within the limit, and join to the input |
| ProcessOutput.LastOfLast | src/agents/bash-process-registry.ts:207-210 | capping as text arrives leaves the same end as capping once |
| ProcessOutput.PendingIsEndOfStream | src/agents/bash-process-registry.ts:99-137 | over every run, a pending buffer is the capped end of its stream since the last drain |
| ProcessOutput.AggregatedIsEndOfOutput | src/agents/bash-process-registry.ts:121-125 | over every run, the aggregate is the capped end of all output and the total its length |
| ProcessOutput.TruncatedIffOverflows | src/agents/bash-process-registry.ts:112-124 | the flag is set exactly when some buffer went over its cap at some point of the run |
| ProcessOutput.UntruncatedLosesNothing | src/agents/bash-process-registry.ts:99-137 | while the flag is clear, what was drained and what is pending are the whole stream |
| ProcessOutput.PiecesEqualWhole | src/agents/bash-tools.shared.ts:159-165 | appending in pieces leaves the session, flag included, as appending the whole |
| BlockChunker.LastParagraph | src/agents/pi-embedded-block-chunker.ts:167-180 | the search from the right finds the last paragraph end with a safe break |
| BlockChunker.LastSentence | src/agents/pi-embedded-block-chunker.ts:192-204 | the scan finds the last sentence end with a safe break |
| BlockChunker.HardBreak | src/agents/pi-embedded-block-chunker.ts:159-232 | a break lies between the limits and outside every fence, or splits the fence at the limit; there is none only for a buffer shorter than the limit |
| BlockChunker.PickBreakIndex | src/agents/pi-embedded-block-chunker.ts:159-232 | the index loops choose that break |
| BlockChunker.FenceSplitIsLastResort | src/agents/pi-embedded-block-chunker.ts:210-227 | a fence is split only when no white space outside the fences is left between the limits |
| BlockChunker.LastParagraphWins | src/agents/pi-embedded-block-chunker.ts:167-180 | with paragraphs preferred and one ending in the window, the break is at a paragraph end, and none ends later |
| BlockChunker.SoftBreak | src/agents/pi-embedded-block-chunker.ts:111-157 | a soft break is inside the buffer and outside every fence |
| BlockChunker.PickSoftBreakIndex | src/agents/pi-embedded-block-chunker.ts:111-157 | the index loops choose that break |
| BreakLaws.LimitsAre | src/agents/pi-embedded-block-chunker.ts:159-163 | the limits of a drain and of its hard breaks, with and without force |
| BreakLaws.CutAtParagraphEnd | src/agents/pi-embedded-block-chunker.ts:167-180 | paragraphs preferred, and one ends in the window outside the fences: the cut is at the last that does |
| BreakLaws.CutAtLineEnd | src/agents/pi-embedded-block-chunker.ts:182-190 | lines preferred, or paragraphs and none ends in the window: the cut is at the last line end outside the fences |
| BreakLaws.CutAtSentenceEnd | src/agents/pi-embedded-block-chunker.ts:192-204 | sentences not ruled out, and no paragraph or line end that is preferred: the cut is right after the last sentence |
| BreakLaws.CutAtSpaceOrLimit | src/agents/pi-embedded-block-chunker.ts:206-231 | nothing preferred in the window: the cut is at the last white space, except that lines are waited for while the buffer is short; without any it is at the limit |
| BreakLaws.ForcedBreakIs | src/agents/pi-embedded-block-chunker.ts:216-227 | the cut at the limit is plain outside the fences, and otherwise splits the first fence there, closed by its indent and marker and opened again by its first line |
| BreakLaws.SoftBreakIs | src/agents/pi-embedded-block-chunker.ts:111-157 | the soft break is at the first paragraph end the search meets, else at the first line end, else after the last sentence, each as preferred |
| BlockChunkerDrain.EmbeddedBlockChunker.Append | src/agents/pi-embedded-block-chunker.ts:27-30 | the text is added at the end of the buffer |
| BlockChunkerDrain.EmbeddedBlockChunker.Round | src/agents/pi-embedded-block-chunker.ts:60-108 | one pass of the loop emits and keeps what the round function says, and goes on exactly when it does |
| BlockChunkerDrain.EmbeddedBlockChunker.CutAt | src/agents/pi-embedded-block-chunker.ts:65-107 | what a cut emits, what it leaves and whether the loop goes on, for any cut inside the buffer |
| BlockChunkerDrain.EmbeddedBlockChunker.Drain | src/agents/pi-embedded-block-chunker.ts:44-109 | when no round puts back at least what it cut off, the loop ends and equals the rounds that the theorems below are about |
| BlockChunkerDrain.DrainConservesInk | src/agents/pi-embedded-block-chunker.ts:60-108 | for any fence parser, the chunks without their closing lines and the rest spell the old buffer, white space and reopening lines aside |
| BlockChunkerDrain.NoSplitsNothingInserted | src/agents/pi-embedded-block-chunker.ts:94-104 | chunks without reopening lines spell, put back together, exactly their own text followed by the rest, white space aside |
| BlockChunkerDrain.UnsplitDrainIsPlain | src/agents/pi-embedded-block-chunker.ts:94-104 | a drain that split no fence emitted, white space aside, exactly the old text that is no longer in the buffer |
| BlockChunkerDrain.DrainStaysWithinLimit | src/agents/pi-embedded-block-chunker.ts:60-108 | every chunk is within the limit plus its closing line, which comes only with a full cut; a finished drain leaves less than a chunk, and nothing when forced |
| BlockChunkerDrain.RoundShortens | src/agents/pi-embedded-block-chunker.ts:73-104 | under that condition each round that goes on leaves a shorter buffer, also after putting a fence line back |
| BlockChunkerDrain.DrainFinishes | src/agents/pi-embedded-block-chunker.ts:60-108 | for any fence parser: when no round puts back at least what it cut off, the drain ends within one round for each character |
| BlockChunkerDrain.ShortFenceLinesDrain | src/agents/pi-embedded-block-chunker.ts:60-108 | with a parser whose fences all have a reopening line shorter than a hard break, every drain ends |
| BlockChunkerDrain.FinishedStays | src/agents/pi-embedded-block-chunker.ts:60-108 | once a drain has ended, the bound on the rounds does not matter |
| BlockChunkerDrain.BreakChosen | src/agents/pi-embedded-block-chunker.ts:60-64 | only a forced drain with at most one chunk left cuts early; every other round cuts as late as it may |
| BlockChunkerDrain.UncutRoundIs | src/agents/pi-embedded-block-chunker.ts:65-71 | a round without a cut emits all there is when drain is forced, and waits otherwise |
| BlockChunkerDrain.BlankRoundIs | src/agents/pi-embedded-block-chunker.ts:75-78 | a blank piece is dropped, with the white space after it |
| BlockChunkerDrain.PlainRoundIs | src/agents/pi-embedded-block-chunker.ts:94-103 | a plain cut emits the text before it; of what is left, one white space character is dropped, and the line ends after it |
| BlockChunkerDrain.SplitRoundIs | src/agents/pi-embedded-block-chunker.ts:80-97 | a split emits the text before it with a closing line on a line of its own, and puts the opening line in front of the rest |
| BlockChunkerDrain.DrainGoesOnIff | src/agents/pi-embedded-block-chunker.ts:106-107 | after an emission a drain goes on exactly when it is forced or a full chunk is left |
| BlockChunkerDrain.FenceLines | src/agents/pi-embedded-block-chunker.ts:83-90 | the closing and the opening line that are put in stand on lines of their own |
| BlockChunkerDrain.ShortDrain | src/agents/pi-embedded-block-chunker.ts:50-58 | a buffer below the lower limit waits unless drain is forced; a forced drain of at most one chunk emits it as it is, unless it is blank |
| Fences.ParseFenceSpans | src/markdown/fences.ts:9-71 | the line loop yields the spans that the statements below are about |
| Fences.CarriageReturnHidesFence | src/markdown/fences.ts:28 | a line that ends in a carriage return is never a fence line |
| Fences.SpansAreFences | src/markdown/fences.ts:9-71 | each span starts with a line of the text that opens a fence, carries that line, its marker and its indent, and reaches to a line end; the spans come in order and apart |
| FenceLaws.MatchFenceIff | src/markdown/fences.ts:28 | the fence pattern matches exactly a line of at most three spaces, three or more of one mark, and anything on the same line that does not go on with it |
| FenceLaws.SpansAreBlocks | src/markdown/fences.ts:9-71 | told line by line: the first fence line opens a block, the first line after it with the same mark at least as often closes it, and so on after that line; a block without such a line goes to the end of the text |
| FencedDrain.ReopenIsLine | src/agents/pi-embedded-block-chunker.ts:218-226 | the line a fence is opened again with is a line of the buffer |
| FencedDrain.DrainEndsIff | src/agents/pi-embedded-block-chunker.ts:44-109 | with the parser of the source, for every buffer and all limits: the drain ends if and only if no round splits a fence and puts back at least what it cut off; it then ends within one round for each character |
| FencedDrain.LongRoundNeverFinishes | src/agents/pi-embedded-block-chunker.ts:81-108 | after one round that puts back that much, no number of rounds is enough |
| FencedDrain.RoundKeepsLinesShort | src/agents/pi-embedded-block-chunker.ts:60-108 | whatever bound the lines of the buffer keep, those of the next buffer keep it, also when a line is put back |
| FencedDrain.ShortLinesDrain | src/agents/pi-embedded-block-chunker.ts:44-109 | when every line of the buffer is shorter than a hard break, the drain ends, forced or not |
| FencedDrain.FencedIsSplit | src/agents/pi-embedded-block-chunker.ts:216-228 | with a fence line of a hard break or more in front, the fence is split at the limit and that line is put back |
| FencedDrain.LongFenceLineNeverDrains | src/agents/pi-embedded-block-chunker.ts:81-108 | such a buffer, overfull and not blank up to the limit, is never drained, whatever number of rounds is allowed |
| FencedDrain.LongFenceLineExample | src/agents/pi-embedded-block-chunker.ts:81-108 | a fence line of four characters with hard breaks at four is never drained |
| FencedChunks.AllClosedIff | src/markdown/fences.ts:24-68 | every span of a text ends with a line that closes it if and only if the parser is left with no fence open |
| FencedChunks.PlainCutClosedIff | src/agents/pi-embedded-block-chunker.ts:67-72 | a text cut before its end and outside every fence has every fence closed, unless the cut makes a fence line out of a line that is none, and only then not |
| FencedChunks.SplitClosedIff | src/agents/pi-embedded-block-chunker.ts:81-87 | a split fence is closed by its closing line if and only if the piece of the line before the cut does not close it already, or, in its first line, already opens it |
| FencedChunks.ChunkIsClosedIff | src/agents/pi-embedded-block-chunker.ts:60-94 | for every round: the emitted chunk has every fence closed exactly when its cut leaves none open |
| FencedChunks.DrainChunksClosedIff | src/agents/pi-embedded-block-chunker.ts:44-109 | for every drain: all chunks have every fence closed exactly when each cut on the way leaves none open |
| FencedChunks.SplitInClosingLineExample | src/agents/pi-embedded-block-chunker.ts:216-228 | a fence split inside its closing line, after its marker, is closed and opened again |
| FencedChunks.CarriageReturnExample | src/agents/pi-embedded-block-chunker.ts:210-214 | a chunk cut before a carriage return ends with a fence line that the text did not have |
| FencedChunks.OpenAtTheEndExample | src/agents/pi-embedded-block-chunker.ts:192-204 | a sentence that ends with the buffer inside an open fence is emitted with the fence open |
| PatchUpdate.LinesMatch | src/agents/apply-patch-update.ts:132-144 | the loop decides whether all lines match in the tier |
| PatchUpdate.SeekSequence | src/agents/apply-patch-update.ts:101-130 | the four loops find the first place in the strictest tier that has one |
| PatchUpdate.TiersAreNested | src/agents/apply-patch-update.ts:114-127 | a match in one tier is a match in every looser one |
| PatchUpdate.SeekTiersIsBest | src/agents/apply-patch-update.ts:114-127 | no place from the start on matches in a stricter tier, and none in the same tier comes earlier |
| PatchUpdate.SeekFailsIff | src/agents/apply-patch-update.ts:107-129 | the search fails if and only if nothing from the search start matches in the loosest tier |
| PatchUpdate.ComputeReplacements | src/agents/apply-patch-update.ts:31-81 | the loop yields the located, sorted replacements, or the first chunk's error |
| PatchPlaces.SeekIs | src/agents/apply-patch-update.ts:101-130 | the search gives the first place in the strictest tier that matches anywhere from its start, or from the end of the file for an end-of-file chunk |
| PatchPlaces.BestIsUnique | src/agents/apply-patch-update.ts:114-127 | there is at most one such place |
| PatchPlaces.PlaceIs | src/agents/apply-patch-update.ts:39-77 | told from the lines of the file: the context line is the best match from the cursor, the old lines are the best match after it, or without their blank last line when they are nowhere, and exactly those lines give way to the new ones; or the chunk is lost for the reason given |
| PatchPlaces.ReplacementsArePlaced | src/agents/apply-patch-update.ts:31-81 | each chunk is placed from where the one before it left off, and the replacements are those, sorted; or the first chunk without a place is reported |
| PatchPlaces.SortIsStable | src/agents/apply-patch-update.ts:79 | the replacements are sorted by where they start, and those that start together keep their order |
| PatchPlaces.SameTextIff | src/agents/apply-patch-update.ts:114-127 | when two lines are the same in a tier: as they are, up to white space at the end, at both ends, or up to that and the kind of dashes, quotes and spaces |
| PatchApply.ApplyReplacements | src/agents/apply-patch-update.ts:83-99 | splicing from the back, line by line, equals the nested replacement |
| PatchApply.SplicingIsInterleaving | src/agents/apply-patch-update.ts:83-99 | for disjoint replacements in order it equals untouched segments interleaved with the new lines |
| PatchApply.SortIsPermutation | src/agents/apply-patch-update.ts:79 | sorting keeps all replacements |
| PatchApply.SortedApartIsDisjoint | src/agents/apply-patch-update.ts:79 | replacements that are pairwise apart are disjoint in order after sorting |
| PatchApply.SortedDisjointIff | src/agents/apply-patch-update.ts:79 | replacements inside the file are disjoint in order after sorting if and only if they are pairwise apart |
| PatchApply.PlaceInRange | src/agents/apply-patch-update.ts:39-77 | a placed chunk is inside the file, and starts at or after the cursor exactly unless it is an end-of-file chunk without room after the cursor |
| PatchApply.ReplacementsDisjointIff | src/agents/apply-patch-update.ts:31-81 | the sorted replacements of any located chunks are in order, inside the file and disjoint if and only if no end-of-file chunk starts before the end of what was taken, and no insertion before a blank last line meets a region that holds it |
| PatchApply.UpdateIsSimultaneous | src/agents/apply-patch-update.ts:31-99 | under that condition the update is a simultaneous replacement: untouched segments interleaved with the new lines |
| PatchApply.BackwardEofExample | src/agents/apply-patch-update.ts:83-99 | the overlapping pair loses a line |
| PatchApply.BackwardEofIsLocated | src/agents/apply-patch-update.ts:110-111 | an end-of-file chunk is placed before the cursor, which gives that pair, and its chunks fail the condition |
| PatchApply.BlankLastLineIsLocated | src/agents/apply-patch-update.ts:48-55 | an insertion goes before the blank last line that an earlier chunk replaced, and its chunks fail the condition |
| PatchApply.BlankLastLineExample | src/agents/apply-patch-update.ts:83-99 | the insertion of that pair is lost |
| PatchApply.ApplyUpdateHunk | src/agents/apply-patch-update.ts:10-29 | the lines written: the last empty line taken off, the replacements applied, a final line end ensured |
| PatchApply.LastLineIs | src/agents/apply-patch-update.ts:17-28 | one blank last line is taken off, if there is one, and a blank last line is added unless there is one |
| PatchParser.ParseUpdateFileChunk | src/agents/apply-patch.ts:394-479 | the loop over the body yields the chunk and its size, or the error of the line that stops it |
| PatchParser.ParseChunk | src/agents/apply-patch.ts:394-479 | a parsed chunk takes at least one line and no more than there are |
| PatchParser.ReadChunks | src/agents/apply-patch.ts:352-370 | the loop skips blank lines, stops at a header, and collects the chunks |
| PatchParser.ParseOneHunk | src/agents/apply-patch.ts:308-392 | a parsed hunk takes at least one line, so the loop of the patch ends |
| PatchParser.ReadOneHunk | src/agents/apply-patch.ts:308-392 | the branches yield that hunk, or the error |
| PatchParser.ReadHunks | src/agents/apply-patch.ts:260-271 | the loop yields all hunks in order, or the first error |
| PatchParser.ParsePatch | src/agents/apply-patch.ts:252-306 | the whole parser, boundary checks and here-document wrapping included |
| PatchGrammar.ChunkReads | src/agents/apply-patch.ts:394-479 | a chunk written as kept, blank, removed and added lines in any order, with any header and ending, is read: its old lines are the kept and removed texts in order, its new lines the kept and added ones |
| PatchGrammar.ChunkIsRead | src/agents/apply-patch.ts:394-479 | a chunk that is read is one that can be so written |
| PatchGrammar.ItemsThen | src/agents/apply-patch.ts:352-370 | chunks with blank lines between them are read in order, and then what follows them |
| PatchGrammar.DraftReads | src/agents/apply-patch.ts:308-392 | a hunk of any kind, white space around its header and move lines, is read with its exact size |
| PatchGrammar.DraftIsRead | src/agents/apply-patch.ts:308-392 | a hunk that is read is one that can be so written |
| PatchGrammar.PatchIsReadIff | src/agents/apply-patch.ts:252-306 | for all lines: they are read as these hunks if and only if they are a patch written for them, bare or in a here-document |
| PatchGrammar.TextIsSplit | src/agents/apply-patch.ts:258 | a text is split into its lines, each ended by a line feed or by a carriage return and a line feed |
| PatchGrammar.TextIsReadIff | src/agents/apply-patch.ts:252-274 | for all texts: one is read as these hunks if and only if, without white space at its ends, it is not empty and its lines are such a patch |
| PatchErrors.ChunkFailsIff | src/agents/apply-patch.ts:399-476 | for all lines: a chunk is refused with this error and line if and only if it lacks its header or its first edit in this way |
| PatchErrors.PatchFailsIff | src/agents/apply-patch.ts:252-392 | for all lines: a patch is refused with this error if and only if that is the first thing wrong with it, after hunks and chunks that are fine, and the line is counted from the start of the patch |
| PatchErrors.TextFailsIff | src/agents/apply-patch.ts:252-274 | for all texts: one is refused as blank, or as its lines are |
| PatchErrors.WrongLineExample | src/agents/apply-patch.ts:470-473 | an update without a `@@` line whose first line is no edit: the line after it is named |
| PatchRoundTrip.ContentsRoundTrip | src/agents/apply-patch.ts:317-324 | the contents of an added file survive being cut into lines |
| PatchRoundTrip.PatchRoundTrips | src/agents/apply-patch.ts:252-306 | reading the printed lines of any well-formed hunks gives the same hunks |
| PatchRoundTrip.SplitJoined | src/agents/apply-patch.ts:258 | lines without line ends are split apart again after being joined |
| PatchRoundTrip.PatchTextRoundTrips | src/agents/apply-patch.ts:252-274 | reading the text of a printed patch gives the same hunks, when no printed line holds a line end |
| UnifiedDiff.Expected | scripts/postinstall.js:159-165 | the lines that are expected after the hunk are its new side |
| UnifiedDiff.PatchTarget.Compare | scripts/postinstall.js:167-173 | the comparison holds exactly when the new side already stands at the cursor |
| UnifiedDiff.PatchTarget.ApplyHunk | scripts/postinstall.js:157-207 | the lines and the offset after a hunk, and the half-changed lines when it throws |
| UnifiedDiff.PatchTarget.ApplyLines | scripts/postinstall.js:180-203 | the splicing loop over the body, and the lines it leaves when a line does not match |
| UnifiedDiff.PatchTarget.ApplyHunks | scripts/postinstall.js:218-221 | the offset loop over the hunks of a file |
| UnifiedDiff.BodyReplacesOldSide | scripts/postinstall.js:180-203 | the body goes through exactly when its markers are known and its old side stands at the cursor, and then the new side stands there instead |
| UnifiedDiff.HunkLeavesNewSide | scripts/postinstall.js:157-207 | after a successful hunk, skipped or not, its region is its new side and all before it is unchanged |
| UnifiedDiff.PassSettles | scripts/postinstall.js:218-221 | after a pass every region is its hunk's new side: later hunks disturb none |
| UnifiedDiff.SecondTimeGrows | scripts/postinstall.js:166-199 | hunks that only add lines and do not all fit into the file are not all skipped: the second time the file grows |
| UnifiedDiff.PassIsIdempotentIff | scripts/postinstall.js:166-221 | for accurate hunks in order, a second pass succeeds and changes nothing if and only if the first added no lines past the end of the file |
| UnifiedDiff.AddingAgainIsHarmlessIff | scripts/postinstall.js:166-199 | applying a hunk that only adds lines a second time is harmless if and only if it starts inside the file |
| UnifiedDiff.AddedTwiceExample | scripts/postinstall.js:166-199 | a line added at the second line of an empty file is added again by the second pass |
| DiffPasses.PassPatches | scripts/postinstall.js:157-221 | ordered, well-marked hunks whose old sides stand in the original file where their headers say, some already applied: the pass goes through, all are applied, the segments between them untouched, and the offset is what the file has grown by, unless a hunk still to be applied finds its new side at its place by accident |
| DiffPasses.GoodDiffPatches | scripts/postinstall.js:157-221 | in particular a diff that fits a file patches it |
| DiffPasses.SidesAre | scripts/postinstall.js:159-165 | the old side is the context and removed lines in order, the new side the context and added ones |
| DiffPasses.HunkStopsAt | scripts/postinstall.js:180-203 | a hunk with a line that does not fit throws, and leaves the lines before it replaced and the others as they are |
| DiffPasses.PassGoesOn | scripts/postinstall.js:218-221 | a pass takes the hunks in order and stops with the first that throws |
| DiffPasses.SpliceIs | scripts/postinstall.js:197-199 | an added line goes to its place, to the end when that is past it, and to a place counted from the end when it is negative |
| SubagentRegistry.SubagentRuns.BeginSubagentCleanup | src/agents/subagent-registry.ts:235-243 | the gate opens once for a run, and the claim is on disk before it does |
| SubagentRegistry.SubagentRuns.FinalizeSubagentCleanup | src/agents/subagent-registry.ts:217-233 | the new state in each of the three branches |
| SubagentRegistry.SubagentRuns.ResumeSubagentRun | src/agents/subagent-registry.ts:47-82 | the new state, and whether a flow, a wait or nothing was started |
| SubagentRegistry.SubagentRuns.RestoreSubagentRunsOnce | src/agents/subagent-registry.ts:84-109 | records on disk come back under newer ones, and each run is resumed once |
| SubagentRegistry.SubagentRuns.OnLifecycle | src/agents/subagent-registry.ts:165-214 | the new state and effect for each phase |
| SubagentRegistry.SubagentRuns.OnWaitDone | src/agents/subagent-registry.ts:284-337 | the new state and effect for each wait status |
| SubagentRegistry.SubagentRuns.SweepOne | src/agents/subagent-registry.ts:139-158 | an expired record leaves the memory, not yet the disk |
| SubagentRegistry.SubagentRuns.RegisterSubagentRun | src/agents/subagent-registry.ts:245-282 | a fresh record, saved, and a wait started |
| SubagentRegistry.SubagentRuns.ReleaseSubagentRun | src/agents/subagent-registry.ts:357-361 | the record is gone from memory and disk |
| AnnounceOnce.StepKeepsSound | src/agents/subagent-registry.ts:139-337 | every step, crash and restore included, keeps: one flow at most, every flow claimed in memory and on disk, one success at most |
| AnnounceOnce.AnnouncedAtMostOnce | src/agents/subagent-registry.ts:47-337 | over every interleaving each run has at most one flow in flight and at most one success |
| AnnounceOnce.CrashAbandons | src/agents/subagent-registry.ts:235-243 | a crash during a flow leaves the run claimed with nobody to finish it |
| AnnounceOnce.AbandonedForever | src/agents/subagent-registry.ts:84-109 | whatever happens later, such a run gets no flow and no further success |
| AnnounceOnce.CrashExample | src/agents/subagent-registry.ts:84-109 | a run that has ended, a flow for it in flight, a crash and a restart: nothing is in flight or waited for, and no success was ever reported |
| AnnounceOnce.ResumeEachIsResumedAll | src/agents/subagent-registry.ts:103-105 | the resumes of a restore, taken one by one with their effects, leave the registry that the loop leaves |
| AnnounceOnce.ResumesStartExactly | src/agents/subagent-registry.ts:47-82 | over the resumes of a restore, a run gets one flow if it has ended and is unclaimed, one wait if it is unfinished, and nothing otherwise, however often it is listed |
| AnnounceOnce.RestartResumesExactly | src/agents/subagent-registry.ts:84-109 | after a restart exactly the ended, unclaimed, uncompleted runs on disk are announced, once each, and the unfinished ones waited for |
| RegistryLaws.FinalizeIs | src/agents/subagent-registry.ts:217-233 | field by field: a run to be deleted is gone whether it was announced or not; a kept one is completed and stays claimed after a success, and loses only its claim after a failure; all saved, no other run touched |
| RegistryLaws.BeginIs | src/agents/subagent-registry.ts:235-243 | the gate opens exactly for a run neither completed nor claimed, and the claim is on disk |
| RegistryLaws.LifecycleIs | src/agents/subagent-registry.ts:165-214 | an end or an error closes the record at the time it tells, or else at that of the clock; a start saves when it tells a time; anything else does nothing |
| RegistryLaws.WaitIs | src/agents/subagent-registry.ts:284-337 | an answer closes the record at the time it tells, or else at the time known, or else at that of the clock, zero being no time; any other does nothing |
| RegistryLaws.RecordsComeAndGo | src/agents/subagent-registry.ts:139-282 | a registration, a release and a sweep, on memory and on disk |
| RegistryLaws.MergeIs | src/agents/subagent-registry.ts:84-101 | a process starts with its disk only; the first restore brings back each named record without a newer one, a second does nothing |
| RegistryLaws.ResumeIs | src/agents/subagent-registry.ts:47-82 | a run that is neither completed nor resumed before is announced if it has a positive time of its end and is unclaimed, left alone if it is claimed, and waited for otherwise |
| RegistryLaws.RestartTakesUp | src/agents/subagent-registry.ts:84-109 | a restart announces an unclaimed, uncompleted run on disk if it has ended, and waits for it otherwise |
| RegistryLaws.FailedAnnouncementIsRetried | src/agents/subagent-registry.ts:217-233 | over every run: when the announcement of a kept run has failed, the run is unclaimed in memory and on disk, no success was ever reported, and a process that starts from that disk announces it, or waits for it if it has no time of its end |
| WorkerPool.SharedPool.ClaimNext | src/agents/model-scan.ts:334-336 | a worker takes the next index, or leaves when there is none |
| WorkerPool.SharedPool.CallReturns | src/agents/model-scan.ts:337-339 | the result is stored at its index and progress is reported |
| WorkerPool.StartIs | src/agents/model-scan.ts:327-349 | as many workers as asked for, at least one, but not more than there are items; all start ready, with nothing claimed or done |
| WorkerPool.PoolIsOrderly | src/agents/model-scan.ts:321-350 | in every reachable state the indices claimed are 0, 1, 2 and so on, each once; no more calls than workers are in flight; completed and in flight add up to claimed; progress counts up |
| WorkerPool.PoolRunsAreShort | src/agents/model-scan.ts:332-341 | no run has more than three steps for each item and one for each worker |
| WorkerPool.StuckPoolIsDone | src/agents/model-scan.ts:332-349 | when no worker can move, all have left and every result is there |
| WorkerPool.PoolFinishes | src/agents/model-scan.ts:321-350 | a run that cannot go on has called fn on every item and stored each result at its index |
| CompactionWait.CompactionState.EnsureCompactionPromise | src/agents/pi-embedded-subscribe.ts:173-179 | a promise is made only when there is none |
| CompactionWait.CompactionState.NoteCompactionRetry | src/agents/pi-embedded-subscribe.ts:181-184 | one more retry, and a promise for it |
| CompactionWait.CompactionState.ResolveCompactionRetry | src/agents/pi-embedded-subscribe.ts:186-194 | one retry fewer, and the promise resolved when none is left and nothing is in flight |
| CompactionWait.CompactionState.MaybeResolveCompactionWait | src/agents/pi-embedded-subscribe.ts:196-202 | the promise resolved when nothing is in flight or pending |
| CompactionWait.CompactionState.HandleAutoCompactionStart | src/agents/pi-embedded-subscribe.handlers.lifecycle.ts:23-36 | in flight, with a promise |
| CompactionWait.CompactionState.HandleAutoCompactionEnd | src/agents/pi-embedded-subscribe.handlers.lifecycle.ts:38-60 | a retry noted, or the wait resolved |
| CompactionWait.CompactionState.HandleAgentEnd | src/agents/pi-embedded-subscribe.handlers.lifecycle.ts:62-96 | one retry closed, or the wait resolved |
| CompactionWait.CompactionState.WaitForCompactionRetry | src/agents/pi-embedded-subscribe.ts:482-497 | a waiter gets the promise of the moment, or asks again in a microtask |
| CompactionWait.EventKeepsStatus | src/agents/pi-embedded-subscribe.ts:173-202 | every event, a wait and a wake-up included, keeps the promise or resolves it once, in a quiet state, and never replaces it before |
| CompactionWait.WaitersStayUntilResolved | src/agents/pi-embedded-subscribe.ts:482-497 | over every run, a waiter stays on its promise until that promise is resolved, and then gets through |
| CompactionWait.WaitersAreNeverLost | src/agents/pi-embedded-subscribe.ts:482-497 | over every run a promise exists exactly while compaction is in flight or a retry is pending, promises resolve in order, each once, and in a quiet state every waiter can go on |
| CompactionWait.PromisesResolveWhenQuiet | src/agents/pi-embedded-subscribe.ts:186-202 | the promise a step resolves was the one of the moment, and the step ends in a quiet state |
| CompactionWait.StateCounts | src/agents/pi-embedded-subscribe.ts:181-194 | over every run: the retries pending are those noted minus the agent ends that closed one, and a compaction is in flight exactly since the last start without an end |
| CompactionWait.ResolvedIffQuiet | src/agents/pi-embedded-subscribe.ts:173-202 | over every run: the promise of the moment is resolved if and only if at some point as many agent ends had come as retries were noted, and no compaction was in flight |
| CompactionWait.ReleasedAfterAgentEnds | src/agents/pi-embedded-subscribe.handlers.lifecycle.ts:62-96 | with n retries due and no compaction in flight, exactly the n-th agent end releases the waiters |
| CompactionWait.ResolvedStays | src/agents/pi-embedded-subscribe.ts:186-202 | once resolved, a promise stays resolved |
| CompactionWait.QuietEndsResolve | src/agents/pi-embedded-subscribe.handlers.lifecycle.ts:38-96 | in any state with nothing due, an agent end, or the end of a compaction that is not retried, resolves the promise that is there |
| CompactionWait.WaitersJoin | src/agents/pi-embedded-subscribe.ts:482-497 | who asks while something is under way waits for the promise of the moment; who asks in a quiet state asks once more in a microtask |

## Left out

- BlockChunkerDrain.EmbeddedBlockChunker.Drain: requires that no round of this drain puts back at least what it cut off, because the loop of the source does not end otherwise; with the parser of the source that is exact (DrainEndsIff), for an arbitrary fence parser it is only known to be enough (ShortFenceLinesDrain has a condition on the parser alone).
- PatchRoundTrip.PatchTextRoundTrips: is about printed lines without line ends, since a carriage return at the end of a line is lost in the split; TextIsReadIff is about all texts.
- SanitizerProperties.StrictNamesAreInjective: stops at 998 distinct ids, where the code falls back on the clock; NamesAreInjectiveIff has the exact condition for any number.
- RepairRenaming.RepairCommutesWithSanitizing: is about names that are pairwise different; when two ids share a name the outcome may differ (CollidingNamesMayDiffer), and no exact condition is claimed there.
- GuardInPlace.FlushedLogIsKeptIff: is about a guard that may add notices, a transform that keeps ids, and call ids that are not reused.
- GuardProperties.GuardedLogRepair: is about a guard that may add notices; with allowSyntheticToolResults off EveryMessageIsLogged says what the log holds.
- AnnounceOnce.AnnouncedAtMostOnce: assumes fresh run ids and that saving to disk succeeds; the source swallows a failed save.
- WorkerPool.PoolFinishes: is about calls that return; a rejected call ends the source's pool early, and the progress report of an empty pool is not modelled.
- UnifiedDiff.PassIsIdempotentIff: is about accurate, ordered hunks; hunk headers are not parsed.
- RegistryLaws.FailedAnnouncementIsRetried: assumes that saving to disk succeeds, and an id that is not empty, since a restore skips that one.
- Timestamps, the clock and the digest function: the time stamp of a notice is dropped, the clock and the digest are parameters of any value.
- The transcript fields the code does not read: they are one opaque number for each message or block.
- Not-a-number limits of the chunker, the pool and the context window: they are reals, and only the part count of a split may be NaN or infinite.
- Optional pending arrays that are missing, and caps that are NaN or negative (src/agents/bash-process-registry.ts:100-109): buffers always exist and caps are natural numbers.
- Session maps of the process registry, and its sweeper: late exit events may put a removed session back, so nothing is claimed about them.
- trimMessagingToolSent (src/agents/pi-embedded-subscribe.ts:160-171): it would only add an easy member.
- The text of exceptions: an error is a value that names its kind and place.
- Surrogate pairs: strings are sequences of characters, and punctuation folding works on one at a time.
- File reading and writing around the patch engines, the gateway calls, timers and the announce flow itself: only their outcomes are steps of the model.
- Lines read at a cursor before the start of the file (scripts/postinstall.js:184-198): a mismatch, and an insertion there counts from the end as splice does; the pass theorems exclude it by their requirement on oldStart.
- The rest of compaction.ts (summaries, adaptive ratios) and of the exec, model scan and install code.

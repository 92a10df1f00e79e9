# Ascout verification model

Ascout checks changed code and keeps receipts of what it ran. This project models the parts of it
whose guarantees must hold over every interleaving, crash point or input, and proves them.

- **Run lock** (`RunLock`, `RunLockSafety`, `RunLockProgress`, `RunLockProgram`): `.ascout/run.lock` is changed
  only under a second file. A step machine has any number of sessions, stale reads, crashes and failing
  system calls; the program itself, with its loops and error paths, is proved to be that machine while
  others interfere: each of its system calls changes the files by the names it is given. Owner tokens are
  assumed distinct, a failing unlink has no effect, records are linked complete, a probe may say "alive"
  of a dead process but not "dead" of a live one, and the id of a dead process is not given to a new session.
- **Agent receipt** (`AgentFields`, `AgentReceipt`, `AgentGreedy`, `AgentFormat`, `AgentProjection`, `AgentRenderer`): a
  percent encoder over UTF-16, and a greedy projection by trial and rollback under a byte bound. Unique task and
  evidence ids come from the acceptance of a receipt (src/receipt/model.ts:830-833) and are a precondition.
- **JSON Schema and dates** (`Json`, `JsonSchema`, `JsonEvaluator`, `Rfc3339`): the issue-collecting walk against a
  declarative reading of the supported keywords (sections 8.2.3, 10.2 and 10.3 of JSON Schema Core 2020-12),
  and the calendar arithmetic of leap seconds (section 5.7 of RFC 3339).
- **Git state** (`TreeDigest`, `TreeFormat`, `GitRecords`, `GitDiff`, `GitFormat`): the framed byte stream behind the tree digest, and the raw
  diff, patch splitter and aligner.
- **Runs** (`RunManifest`, `RunLifecycle`, `RunRetention`): creation and completion with failures anywhere, and
  deletion under interference. A crash is the case in which every later operation fails. The identity of
  a directory (device and inode) is assumed not to be given to another one while retention runs.
- **Coverage** (`Lcov`, `LcovBranch`, `LcovBranchOrder`, `Exercise`, `BranchExercise`, `ExerciseCounts`): LCOV aggregation, when the
  order of the input matters, and the intersection with changed lines, end to end.
- **Histories** (`Stability`, `Reproduction`, `TraceRetention`, `Doubles`): verdicts, reruns and bounded eviction,
  with byte totals rounded as IEEE 754 doubles are.

`Wrappers`, `Text` and `Sorting` hold what these share. `dafny verify dfyconfig.toml` checks the project.

Results that differ from what a reader might expect of the code:

- Deep strict equality tells -0 from 0, which equality of JSON instances does not
  (`JsonSchema.NegativeZeroIsNotZero`); two values that are equal as JSON instances differ exactly if
  somewhere -0 stands against 0 (`JsonSchema.DeepEqualityExactly`), and a value is decided as the standard
  asks by all schemas free of -0 exactly if it is free of -0 (`JsonSchema.DecidedAlikeExactly`).
- Whether branch coverage resolves can depend on the order of its observations
  (`LcovBranchOrder.OrderCanDecide`): exactly if some branch's known observations add up to more than a safe
  integer, and each such branch also has an unknown one (`LcovBranchOrder.OrderNeverMattersExactly`).
- Above 2^53 bytes trace retention can keep more than its bound allows (`TraceRetention.BoundExceeded`), because
  it adds in doubles; up to 2^53 it cannot (`TraceRetention.AlwaysExactExactly`).
- Restoring a quarantined run can replace what others put at its name in between, if rename can replace it
  (`RunRetention.RunsRoot.RollbackQuarantine`).
- The date-time pattern requires upper-case `T` and `Z`; RFC 3339 also allows lower case. The model follows
  the code (`Rfc3339.LowerCaseIsRefused`).
- The second to fourth attempt at run.lock is never needed while every session follows the protocol
  (`RunLockSafety.NoAcquireRetries`).
- A changed file counts as unexercised among lines only if it has records, among branches also without any.
- The missing-header error of the patch splitter and the lost-ownership error of a release cannot occur
  where the program calls them.

## Model

| member | source | states |
|---|---|---|
| RunLockSafety.MutualExclusion | src/lock.ts:212-460 | in every state of every run, with any interleaving, crashes and failed calls, at most one live session is between a successful acquire and its release of run.lock |
| RunLockSafety.HolderStability | src/lock.ts:300-322 | while a live session holds, run.lock is exactly its record |
| RunLockSafety.HoldingEndsByItself | src/lock.ts:368-385 | a holding ends only by the crash of its own process or by its own unlink during release |
| RunLockSafety.GuardedActionsFindWhatTheyRead | src/lock.ts:274-322 | stale reads do no harm: a recovery unlink finds the very record that was read, its owner dead; a publish of run.lock finds it absent; a session under the guard finds its own guard record |
| RunLockSafety.OwnershipIsNeverLost | src/lock.ts:368-378 | a live session that reads run.lock in a release finds its own record, so no release and no acquire reports lost ownership |
| RunLockSafety.NoAcquireRetries | src/lock.ts:437-440 | while all sessions follow the protocol no acquire comes to a second attempt: under the guard nothing that was read changes before it is acted on |
| RunLockSafety.DeadOwnerOrphans | src/lock.ts:212-241 | nobody works under a guard whose owner is dead or unreadable: one left by a crash, by a failed removal before a later death, or from before the run |
| RunLockSafety.CrashInsideGuardOrphans | src/lock.ts:337-366 | a crash of the process that works under the guard leaves a guard nobody works under |
| RunLockSafety.OrphanFreeze | src/lock.ts:212-241 | behind such a guard neither lock file changes in any later state and no new holder arises |
| RunLockSafety.FailedReleaseFreezes | src/lock.ts:387-400 | a release that removed run.lock but not its guard leaves the repository frozen in the same way |
| RunLockSafety.RunKeepsInv | src/lock.ts:212-460 | every action of every session keeps what each program counter knows about the two files |
| RunLockProgress.RankDecreases | src/lock.ts:212-241 | every own step of a call lowers its rank, through both bounded retry loops and every clean-up path |
| RunLockProgress.CallBudget | src/lock.ts:402-460 | between two states of a run a call makes no more own steps than its rank dropped |
| RunLockProgress.EveryCallTerminates | src/lock.ts:402-460 | an acquire or release makes at most 92 system calls of its own, whatever the others do |
| RunLockProgress.SoloAcquire | src/lock.ts:300-366 | alone and without failures an acquire succeeds exactly when there is no guard and run.lock is absent or owned by a dead process |
| RunLockProgress.SoloRelease | src/lock.ts:368-400 | alone and without failures a release by the holder removes both files and closes the handle exactly when there is no guard; otherwise it throws and leaves both files and the handle alone |
| RunLockProgress.SoloCycle | src/lock.ts:402-460 | acquiring an available lock, releasing it and acquiring it again succeeds throughout when undisturbed |
| RunLockProgress.SoloRollback | src/lock.ts:350-362 | an acquire whose guard removal failed takes its own run.lock and guard away when nothing else fails, and throws run_lock_io |
| RunLockProgress.SoloCleanup | src/lock.ts:265-272 | a failure under the guard is thrown as it was when nothing else fails, and the own guard is gone |
| RunLockProgress.GuardsAreFresh | src/lock.ts:212-214 | every entry draws a guard record that differs from the one before and from the session's own record |
| RunLockProgress.FailedCallIsIo | src/lock.ts:289-295 | a failed system call changes neither file, and an error it leads to is run_lock_io |
| RunLockProgress.FourAttempts | src/lock.ts:212-241 | a guard that vanishes between publish and read is tried for four times, no more and no less, then busy |
| RunLockProgram.LockCall.Interfere | src/lock.ts:212-460 | between two system calls other sessions do any number of enabled actions; the call itself is untouched |
| RunLockProgram.ActHasEffect | src/lock.ts:212-400 | each step of the machine changes the two files exactly as the system call made there does, and a probe there asks about the owner that was read |
| RunLockProgram.LockCall.Perform | src/lock.ts:212-400 | a system call changes the files as it names file and record, not as the machine says; it is proved to be the machine's next step |
| RunLockProgram.LockCall.PublishOwner | src/lock.ts:150-175 | exactly when the named file is absent and the call does not fail, it holds the given record; nothing else changes |
| RunLockProgram.LockCall.Unlink | src/lock.ts:289-295 | exactly when the named file is there and the call does not fail, it is gone; nothing else changes |
| RunLockProgram.LockCall.OwnerIsDefinitelyDead | src/lock.ts:124-131 | "dead" is only said of a dead process, and only of the one that is asked about; no file changes |
| RunLockProgram.LockCall.AcquireMutationGuard | src/lock.ts:212-241 | the publish-and-inspect loop is the corresponding part of the machine: success under the guard, or an error that leaves the call |
| RunLockProgram.LockCall.RemoveMutationGuard | src/lock.ts:243-263 | reads the guard and unlinks at most the guard; each of its three callers ends where the machine says |
| RunLockProgram.LockCall.RecoverDeadOwnerUnderGuard | src/lock.ts:274-298 | success is a read of run.lock, a probe of the observed owner and an unlink of run.lock, in this order, and no other call is made; a changed or vanished record would mean retry, which cannot occur while all follow the protocol |
| RunLockProgram.LockCall.AcquireMainLockUnderGuard | src/lock.ts:300-322 | ends acquired or in its error, never in retry; acquired means that run.lock was read and published with the own record, and in between, if it was there, its owner probed twice and it was removed |
| RunLockProgram.LockCall.RemoveOwnedMainLockBestEffort | src/lock.ts:324-335 | the rollback reads run.lock and unlinks at most run.lock, and ends before the second guard removal whatever fails in it |
| RunLockProgram.LockCall.AcquireMainLockAttempt | src/lock.ts:337-366 | one attempt with every clean-up path ends where the machine says |
| RunLockProgram.LockCall.constructor | src/lock.ts:402-435 | a call joins the run as a new session |
| RunLockProgram.LockCall.AcquireRunLock | src/lock.ts:402-460 | a handle is returned only to the one holder, whose record is in run.lock; an error means a failed system call, a foreign guard, or a run.lock whose owner was not said to be dead |
| RunLockProgram.LockCall.ReleaseOwnedLockUnderGuard | src/lock.ts:368-385 | success is exactly a read and an unlink of run.lock, with the own record in it; an error means that a system call failed; the lost-ownership error is never returned |
| RunLockProgram.LockCall.Release | src/lock.ts:439-455 | succeeds once, and then the session no longer holds; an error means that a system call failed or a foreign guard was met, and leaves the handle open; a second release does nothing |
| AgentFields.EncodeAgentFieldValue | src/receipt/agent.ts:101-125 | the loop over code units computes the encoding that the next rows are about |
| AgentFields.EncodeDecodes | src/receipt/agent.ts:91-125 | every UTF-16 sequence, lone surrogates included, is recovered from its encoding by an independent decoder |
| AgentFields.EncodeInjective | src/receipt/agent.ts:101-125 | different values have different encodings |
| AgentFields.EncodeSafe | src/receipt/agent.ts:73-85 | an encoding never contains a space, line break, comma or equals sign |
| AgentFields.EncodeHasNoSeparator | src/receipt/agent.ts:87-99 | the four separators, named as characters, never occur in an encoding |
| AgentFields.KeptExactly | src/receipt/agent.ts:73-99 | a value is written as it is exactly when all of it is letters, digits and the six punctuation marks |
| AgentFields.AuthorityFieldDeterminesPaths | src/receipt/agent.ts:182-192 | the comma-joined authority field determines its non-empty list of paths |
| AgentReceipt.CostIsRenderedSize | src/receipt/agent.ts:220-233 | the byte formula equals the UTF-8 size of the rendered text, for every selection of records |
| AgentReceipt.OmissionShrinks | src/receipt/agent.ts:205-218 | lowering the omitted numbers shortens the footer by at most what they drop |
| AgentReceipt.CostGrows | src/receipt/agent.ts:224-233 | a larger selection takes at least one byte more for every record added, although its footer may be shorter |
| AgentReceipt.RetainedPlusOmitted | src/receipt/agent.ts:205-218 | in every class the printed records and the omitted number add up to the receipt, among gaps to the number of records that are not exercised |
| AgentReceipt.GapLinesExactly | src/receipt/agent.ts:194-199 | the candidate gap lines are those of the records that are not exercised or unresolved, each once, in receipt order |
| AgentReceipt.GapsAreTheUnexercised | src/receipt/agent.ts:324-326 | there are as many material gaps as records that are not exercised |
| AgentReceipt.SummaryCounts | src/receipt/agent.ts:328-340 | read back from the fields of the summary line, its numbers are those of the receipt, the exercise gaps being the records that are not exercised |
| AgentReceipt.StatusFieldsExactly | src/receipt/agent.ts:337-337 | the last seven fields of the summary: each status by name with its count |
| AgentGreedy.PhasesSettle | src/receipt/agent.ts:360-437 | after each class, every candidate considered so far is kept or would break the budget |
| AgentGreedy.GreedyIsMaximal | src/receipt/agent.ts:235-274 | the final selection fits, and adding any omitted candidate with its linked lines exceeds the budget |
| AgentGreedy.CandidatesExactly | src/receipt/agent.ts:151-199 | a record is a candidate exactly if some selection holds it in which errors are of failed tasks, with the evidence they own and their admission, findings have their evidence, and admissions are not normal |
| AgentGreedy.AddIsLeast | src/receipt/agent.ts:362-376 | keeping a candidate brings what belongs to it and nothing else |
| AgentGreedy.AmpleBudgetKeepsAll | src/receipt/agent.ts:360-437 | where everything would fit no candidate is omitted |
| AgentGreedy.OmittedForNothingLater | src/receipt/agent.ts:360-437 | no record is omitted for the sake of a class after its own: a part of what is kept, without the later classes, already leaves no room for it |
| AgentFormat.AmpleBudgetPrints | src/receipt/agent.ts:318-444 | where everything would fit, the errors kept are exactly those of failed tasks that list evidence of their own, the findings those that list evidence of their task, the admissions those that are not normal, and all gaps, test changes and evidence are kept |
| AgentFormat.FirstOwnedExactly | src/receipt/agent.ts:137-146 | the evidence of a record is the first it lists that names evidence of its task |
| AgentFormat.HeaderFields | src/receipt/agent.ts:327-327 | splitting the header at its spaces gives the version, repository, head and stability |
| AgentFormat.ErrorFields | src/receipt/agent.ts:151-165 | splitting an error line at its spaces gives the class, task, reason and evidence |
| AgentFormat.FindingFields | src/receipt/agent.ts:167-180 | the same for a finding: identifier, task, severity and evidence |
| AgentFormat.AdmissionFields | src/receipt/agent.ts:182-192 | the same for an admission: task, state and authority |
| AgentFormat.GapFields | src/receipt/agent.ts:194-199 | the same for a gap: kind, path and line, and the reason exactly where it is unresolved |
| AgentFormat.TestChangeFields | src/receipt/agent.ts:201-203 | the same for a test change: kind and path |
| AgentFormat.EvidenceFields | src/receipt/agent.ts:148-150 | the same for an evidence line: identifier, task and kind |
| AgentFormat.FooterFields | src/receipt/agent.ts:205-218 | the same for the footer: the five omitted numbers |
| AgentFormat.ClassesInOrder | src/receipt/agent.ts:293-311 | between header, summary and footer the lines are errors, findings, admissions, gaps, test changes and evidence, in this order |
| AgentFormat.EveryRecordIsOneLine | src/receipt/agent.ts:293-311 | splitting the text at its line breaks gives back the lines: no identifier, path or reason breaks a line in two |
| AgentProjection.ErrorCounted | src/receipt/agent.ts:365-376 | the counters of an error with its paired admission and evidence line describe the selection grown by that unit, and the byte count grows by exactly its lines |
| AgentProjection.FindingCounted | src/receipt/agent.ts:384-393 | the counters of a finding with its evidence line describe the selection grown by that unit, and the byte count grows by exactly its lines |
| AgentProjection.AdmissionCounted | src/receipt/agent.ts:400-404 | the counters of an admission describe the selection grown by that unit, and the byte count grows by exactly its lines |
| AgentProjection.GapCounted | src/receipt/agent.ts:410-414 | the counters of an exercise gap describe the selection grown by that unit, and the byte count grows by exactly its lines |
| AgentProjection.ChangeCounted | src/receipt/agent.ts:420-424 | the counters of a test change describe the selection grown by that unit, and the byte count grows by exactly its lines |
| AgentProjection.EvidenceCounted | src/receipt/agent.ts:430-436 | the counters of an evidence line describe the selection grown by that unit, and the byte count grows by exactly its lines |
| AgentProjection.ProjectionState.OmissionLineOf | src/receipt/agent.ts:205-218 | the line computed from the counters is the footer of the selection they describe |
| AgentProjection.ProjectionState.ApplyTrial | src/receipt/agent.ts:235-260 | a trial changes the counters as committing would, and remembers which ids were new |
| AgentProjection.ProjectionState.UndoTrial | src/receipt/agent.ts:261-274 | undoing restores the counters before the trial |
| AgentProjection.ProjectionState.CanAdd | src/receipt/agent.ts:235-274 | answers whether the rendering of the grown selection fits, and leaves every field as it was |
| AgentProjection.ProjectionState.CommitSelection | src/receipt/agent.ts:276-291 | the counters become those of the grown selection |
| AgentRenderer.SelectErrors | src/receipt/agent.ts:360-378 | the loop keeps the mutable state equal to the greedy selection so far; line bytes are exact at every loop head |
| AgentRenderer.SelectFindings | src/receipt/agent.ts:380-394 | the loop keeps the mutable state equal to the greedy selection so far; line bytes are exact at every loop head |
| AgentRenderer.SelectAdmissions | src/receipt/agent.ts:396-406 | the loop keeps the mutable state equal to the greedy selection so far; line bytes are exact at every loop head |
| AgentRenderer.SelectGaps | src/receipt/agent.ts:408-416 | the loop keeps the mutable state equal to the greedy selection so far; line bytes are exact at every loop head |
| AgentRenderer.SelectTestChanges | src/receipt/agent.ts:418-426 | the loop keeps the mutable state equal to the greedy selection so far; line bytes are exact at every loop head |
| AgentRenderer.SelectEvidence | src/receipt/agent.ts:428-437 | the loop keeps the mutable state equal to the greedy selection so far; line bytes are exact at every loop head |
| AgentRenderer.RenderSelectedProjection | src/receipt/agent.ts:293-311 | the printed text is the rendering of the selection |
| AgentRenderer.RenderReceiptAgent | src/receipt/agent.ts:318-444 | output within the budget, refusal exactly when header, summary and footer alone do not fit, maximality of what is kept, kept errors and findings with what belongs to them, printed and omitted gaps that add up to the records that are not exercised, and no divergence between accounting and text |
| Rfc3339.CalendarExactly | src/receipt/json.ts:60-66 | valid dates and their day numbers are those of the Gregorian calendar in closed form, without a table of months |
| Rfc3339.ShiftMovesOneDay | src/receipt/json.ts:76-94 | the shifted date is valid and its number in an unbroken day count differs by one, across every month and year end |
| Rfc3339.DayNumberInjective | src/receipt/json.ts:60-66 | a day number names one calendar date |
| Rfc3339.UtcInstantUnique | src/receipt/json.ts:96-117 | an instant in minutes names one UTC date and minute |
| Rfc3339.ShiftIsUtcInstant | src/receipt/json.ts:106-115 | the shifted date and wrapped minute are that instant for local minutes minus the offset |
| Rfc3339.LeapSecondExactly | src/receipt/json.ts:96-117 | second 60 is accepted exactly at 23:59 UTC of a listed date |
| Rfc3339.AnnouncedExactly | src/receipt/json.ts:70-74 | the announced dates: eleven ends of June and sixteen of December |
| Rfc3339.MatchIsExact | src/receipt/json.ts:57-57 | the pattern matches exactly the printed date-times, its groups the printed fields |
| Rfc3339.AcceptsExactlyValidInstants | src/receipt/json.ts:119-142 | a text is accepted exactly when it prints a valid instant; valid is said with the closed form of the calendar |
| Rfc3339.LowerCaseIsRefused | src/receipt/json.ts:57-57 | a printed valid instant is refused as soon as only its T, or its Z, is written in lower case |
| Json.UnescapeInvertsEscape | src/receipt/json.ts:405-406 | every property name can be referred to: decoding the pointer encoding of a name gives it back |
| Json.PathResolvesExactly | src/receipt/json.ts:402-413 | where names are unique, the reference that writes a path of keywords and names resolves to exactly the schema the path leads to, and to none if it leads nowhere |
| Json.NamedReferences | src/receipt/json.ts:402-413 | #/$defs/ with an encoded name resolves to exactly the definition of that name in the root, #/properties/ to the property |
| Json.FollowedIsLedTo | src/receipt/json.ts:402-413 | whatever resolves is a schema that some path leads to |
| Json.TypesExactly | src/receipt/json.ts:389-400 | the six types by the form of the value, and integers as the numbers without a fraction |
| Json.CodePointLengthExactly | src/receipt/json.ts:481-481 | the length of a string is the number of positions at which a code point starts |
| Json.NodesClosed | src/receipt/json.ts:402-413 | schemas written below a node of the root are nodes of the root |
| JsonSchema.NoInPlaceLoopExactly | src/receipt/json.ts:421-478 | the computed condition says exactly that no chain of references and in-place applicators returns to its start |
| JsonSchema.Graded | src/receipt/json.ts:428-478 | under that condition every in-place successor has a smaller rank, so evaluation terminates |
| JsonSchema.TextBoundsMeet | src/receipt/json.ts:480-487 | equal length bounds leave the strings of that many code points: both are inclusive |
| JsonSchema.BoundsMeet | src/receipt/json.ts:496-511 | equal bounds on numbers and on sizes leave that number and that size |
| JsonSchema.DistinctSnoc | src/receipt/json.ts:512-522 | one more item keeps a list distinct exactly if it is the same as none of the others |
| JsonSchema.IfChooses | src/receipt/json.ts:471-478 | with then and else, if chooses the one that has to accept |
| JsonSchema.DeepEqualityExactly | src/receipt/json.ts:440-449 | for all pairs of values, deep strict equality is equality of JSON instances with no negative zero against a zero |
| JsonSchema.EqualitiesAgree | src/receipt/json.ts:421-565 | on values and schemas free of negative zero, satisfaction under deep strict equality is satisfaction under instance equality |
| JsonSchema.InstanceEqualityIgnoresSigns | src/receipt/json.ts:421-565 | under instance equality no schema tells two values apart that are equal as JSON instances |
| JsonSchema.DecidedAlikeExactly | src/receipt/json.ts:421-565 | a value is decided alike under both equalities by all schemas free of negative zero, exactly if it is itself free of negative zero |
| JsonSchema.NegativeZeroIsNotZero | src/receipt/json.ts:440-442 | a constant 0 refuses the number -0; under instance equality -0 is accepted exactly when 0 is |
| JsonEvaluator.IsValidAgainst | src/receipt/json.ts:415-419 | the empty issue list of a fresh walk means exactly that the value satisfies the schema |
| JsonEvaluator.ValidateAgainstSchema | src/receipt/json.ts:421-565 | issues are only added, at or below the path, and at least one exactly when the value does not satisfy the schema |
| JsonEvaluator.ValidateAssertions | src/receipt/json.ts:428-449 | the target of the reference, type, const and enum; a type mismatch stops the walk and is an issue |
| JsonEvaluator.ValidateAllOf | src/receipt/json.ts:451-455 | reports exactly when some subschema refuses |
| JsonEvaluator.ValidateOneOf | src/receipt/json.ts:457-465 | reports exactly unless one and only one branch accepts |
| JsonEvaluator.ValidateNot | src/receipt/json.ts:467-469 | reports exactly when the forbidden schema accepts |
| JsonEvaluator.ValidateCondition | src/receipt/json.ts:471-478 | reports exactly when the branch chosen by the condition refuses |
| JsonEvaluator.ValidateString | src/receipt/json.ts:480-494 | lengths in code points, pattern and date-time |
| JsonEvaluator.CheckUnique | src/receipt/json.ts:512-522 | reports exactly when two items are deeply equal, once |
| JsonEvaluator.ValidateItems | src/receipt/json.ts:524-539 | prefix items by position, then the rest or the ban on a rest |
| JsonEvaluator.ValidateObject | src/receipt/json.ts:541-564 | required names, named properties and the ban on other names |
| JsonEvaluator.ValidateJsonSchema | src/receipt/json.ts:567-572 | valid exactly for values that satisfy the root schema, and exactly then without issues; without negative zeros, also under instance equality |
| TreeDigest.FrameAllInjective | src/git.ts:538-542 | a stream of framed fields can be split in only one way |
| TreeDigest.PreimageInjective | src/git.ts:544-613 | equal streams mean equal head, index multiset, unstaged entries (deleted ones by path) and included untracked entries |
| TreeDigest.PreimageIgnoresOrder | src/git.ts:549-560 | reordering the inputs leaves the stream unchanged when unstaged and untracked paths are unique |
| TreeFormat.FieldsExactly | src/git.ts:562-606 | the stream is the version, the head, and the three lists, each after its label and its number of entries |
| TreeFormat.IndexBlock | src/git.ts:568-574 | five fields for each index entry: label, mode, object, stage and path, at its position |
| TreeFormat.UntrackedBlock | src/git.ts:599-606 | five fields for each untracked entry: label, path, type, mode and digest, at its position |
| TreeFormat.UnstagedBlock | src/git.ts:577-597 | the fields of an unstaged entry: four if it was deleted, six otherwise |
| TreeFormat.CompleteExactly | src/git.ts:586-592 | an entry is incomplete if it was not deleted and lacks its type, mode or digest |
| TreeFormat.CanonicalOrder | src/git.ts:549-560 | the entries are those of the state in ascending order, of the index by path, stage, mode and object; of untracked ones those not ignored whose first path component is not .ascout |
| TreeFormat.FramesExactly | src/git.ts:538-542 | one more field appends its length in decimal, a colon and its bytes |
| TreeDigest.RunningHash.UpdateFramedTreeField | src/git.ts:538-542 | feeds the length in decimal, a colon and the bytes |
| TreeDigest.FeedUnstaged | src/git.ts:578-597 | feeds the unstaged entries, or stops at one that lacks type, mode or digest |
| TreeDigest.TreeDigestV1FromState | src/git.ts:544-613 | errors exactly for a non-canonical path, ignored entries included, then for an incomplete entry; otherwise hashes exactly the canonical stream and reports the three counts |
| GitRecords.TerminateInjective | src/git.ts:665-683 | terminated non-empty NUL-free records can be read back |
| GitRecords.SplitNullTerminated | src/git.ts:665-683 | the records of the buffer, exactly when it is a list of them; otherwise which of the two errors |
| GitRecords.MatchExactly | src/git.ts:1142-1143 | the metadata expression matches exactly printed metadata, its groups the printed fields |
| GitFormat.MetadataExactly | src/git.ts:1142-1143 | the expression matches exactly the records whose five space-separated fields are spelled as modes, objects, and a letter with its score |
| GitFormat.MalformedExactly | src/git.ts:1191-1195 | a record that is not of that form is malformed metadata |
| GitFormat.EntryExactly | src/git.ts:1197-1268 | what each status letter makes of the score and of the paths behind it: the entry, or which of the errors |
| GitRecords.PrintedEntriesParse | src/git.ts:1182-1273 | printed entries parse back to themselves whatever the padding of rename scores |
| GitRecords.ParsedEntriesPrint | src/git.ts:1182-1273 | nothing but printed entries is accepted |
| GitRecords.ParseRecords | src/git.ts:1186-1270 | the loop whose index advances by two or three parses the whole list |
| GitRecords.ParseWorkingTreeRawDiff | src/git.ts:1182-1273 | succeeds exactly on printed entries and returns what was printed |
| GitDiff.SplitIsUnique | src/git.ts:1275-1293 | a patch is a list of blocks in at most one way |
| GitDiff.SplitTrackedPatchBlocks | src/git.ts:1275-1293 | the blocks of any patch that is empty or starts with a header: they concatenate to it and contain no later header line |
| GitDiff.AlignedConcatenates | src/git.ts:1295-1340 | aligned blocks concatenate to what the raw blocks do |
| GitDiff.AlignTrackedPatchBlocks | src/git.ts:1295-1340 | one block per entry, a type change taking two raw ones that name its modes, none left over; an error exactly otherwise |
| GitFormat.TypeChangeExactly | src/git.ts:1317-1329 | the pair of a type change has a line deleted file mode with the old mode, then a line new file mode with the new one |
| GitFormat.HeadersExactly | src/git.ts:1144-1144 | the bytes that start a block, stand between blocks and end the raw records |
| GitDiff.BoundaryEndsRaw | src/git.ts:1342-1355 | the first boundary in printed output is the end of the raw records |
| GitDiff.ParseWorkingTreeTrackedDiff | src/git.ts:1342-1357 | succeeds exactly on the printed form of entries and patch and returns them |
| GitDiff.TrackedDiffFacts | src/git.ts:1342-1357 | one block per entry, blocks that concatenate to the patch, as many raw blocks as entries and type changes |
| RunManifest.ParseManifestExactly | src/run.ts:127-172 | a value is read as a manifest exactly when it carries that manifest and the timestamps are canonical and in order |
| RunManifest.ManifestRoundTrip | src/run.ts:174-176 | printed manifests are read back exactly when they are sound |
| RunManifest.WrittenManifestsAreSound | src/run.ts:413-424 | the manifests written at creation and completion are sound; completion is never before the start |
| RunManifest.RangeInDays | src/run.ts:82-87 | dates reach a hundred million days to either side of the epoch |
| RunLifecycle.EligibleOnlyAfterCompletion | src/run.ts:398-434 | after any log of the program's changes a run that retention may delete had its completed manifest published while the marker was there, and its marker removed later |
| RunLifecycle.CompletedWasPublished | src/run.ts:301-339 | a completed manifest in place was put there by a publication and has not changed since |
| RunLifecycle.DisciplinedIsSound | src/run.ts:301-339 | temporaries, backups and the manifest only ever hold what belongs under their names |
| RunLifecycle.ReadExactly | src/run.ts:341-366 | a file is read as a manifest exactly if it has at most 16 KiB and its text denotes a sound one |
| RunLifecycle.EligibleExactly | src/run.ts:531-562 | retention may delete exactly a run without a marker whose manifest says that it, and no other run, completed |
| RunLifecycle.RunDirectory.constructor | src/run.ts:607-616 | a run directory that does not exist yet |
| RunLifecycle.RunDirectory.WriteExclusiveFile | src/run.ts:282-299 | creates a file with its whole text; a failure leaves nothing, a part or all of it; an existing file is untouched |
| RunLifecycle.RunDirectory.CreateRunDirectory | src/run.ts:607-647 | marker, raw directory and active manifest, or a failure, partial clean-up included, that is not complete |
| RunLifecycle.RunDirectory.Publish | src/run.ts:310-322 | the new manifest is in place, or the old one is in place or in its backup |
| RunLifecycle.RunDirectory.ReplaceManifestPortably | src/run.ts:301-339 | success puts the manifest in place with the marker still there; after any failure the old manifest survives in place or as the backup |
| RunLifecycle.RunDirectory.MarkRunCompleted | src/run.ts:398-434 | success removes the marker after the completed manifest, whose start is kept and whose end is the later of now and start; a failure does not remove the marker; a retry completes or fails in the same way |
| RunRetention.NewestFirstDistinguishes | src/run.ts:564-577 | completion, start and identifier order completed runs strictly |
| RunRetention.CandidateExactly | src/run.ts:531-562 | candidates are completed manifests that are read back from their printing, under their own names |
| RunRetention.VerifiedExactly | src/run.ts:451-464 | verified is a directory with the identity of the snapshot, no marker, and the same completed manifest |
| RunRetention.ReplaceableExactly | src/run.ts:436-445 | rename replaces like by like, and of directories only an empty one |
| RunRetention.KeptAreNewest | src/run.ts:564-580 | kept and surplus runs are the snapshot; the kept are the newest and as many as allowed |
| RunRetention.KeptComeFirst | src/run.ts:564-580 | in milliseconds, a kept run completed later than a surplus one, or at the same time and started later, or both at the same time and its identifier is not greater |
| RunRetention.KeptIdsComeFirst | src/run.ts:564-580 | the same of the identifiers that are reported |
| RunRetention.KeptIgnoresListingOrder | src/run.ts:534-580 | which runs are kept does not depend on the order of the listing |
| RunRetention.RunsRoot.Interfere | src/run.ts:447-507 | others change anything but the quarantine names |
| RunRetention.RunsRoot.Observe | src/run.ts:451-453 | what three separate reads of one name say; on a quarantine name they describe one entry |
| RunRetention.RunsRoot.Rename | src/run.ts:436-474 | moves an entry; what stood at the target is recorded as replaced, exactly when the rename succeeds |
| RunRetention.RunsRoot.RollbackQuarantine | src/run.ts:436-445 | what failed the check is back under its name, or stays quarantined with an error; an entry met at the name is replaced exactly when the rollback succeeds, and rename could replace it |
| RunRetention.RunsRoot.DeleteCompletedCandidateSafely | src/run.ts:447-507 | under any interference what vanishes is an entry with the identity of the snapshot, without a marker and with the same completed manifest, or, when the candidate is preserved, at most one replaceable entry at its name; undisturbed, exactly the verified candidate |
| RunRetention.RunsRoot.Snapshot | src/run.ts:531-562 | every listed name is a sound candidate or preserved, once; undisturbed, the candidates are all completed runs |
| RunRetention.RunsRoot.DeleteSurplus | src/run.ts:581-590 | every surplus run ends removed or preserved; each removal deleted a verified entry, and each preserved run replaced at most one entry at its name |
| RunRetention.RunsRoot.PruneCompletedRunsFromRoot | src/run.ts:509-597 | removed, retained and preserved partition the listing, the retained are the newest of the snapshot, everything deleted was verified surplus, and what was replaced stood at the names of preserved runs, one for each at most; undisturbed, exactly the surplus is gone, no removed run completed later than a retained one, and nothing is replaced |
| Lcov.ReadsExactly | src/coverage/lcov.ts:180-202 | a line is read as a line number and count exactly when it is the prefix and the joined fields that denote them |
| Lcov.PrintedDataReads | src/coverage/lcov.ts:184-206 | a printed data line is read back as its line and count |
| Lcov.ClassesExactly | src/coverage/lcov.ts:161-184 | the lines that count are those that start with SF: or DA:, and end_of_record; all others are skipped |
| Lcov.UnreadExactly | src/coverage/lcov.ts:187-202 | a data line that is not read has an invalid count if it names a line, and is malformed otherwise |
| Lcov.SafeExactly | src/coverage/lcov.ts:125-135 | safe integers are decimal numerals, leading zeros allowed, below 2^53 |
| Lcov.SourceExactly | src/coverage/lcov.ts:161-184 | the open source is that of the last source line unless a record has ended since; it has data if a line since was read |
| Lcov.CompleteExactly | src/coverage/lcov.ts:174-181 | a record is complete once a line has ended one while its source was open |
| Lcov.FaultsExactly | src/coverage/lcov.ts:161-205 | what each reason says of the line it stops at |
| Lcov.EndExactly | src/coverage/lcov.ts:208-209 | what each reason says at the end of the input |
| Lcov.ResolvedExactly | src/coverage/lcov.ts:154-209 | no fault stops the stream exactly on well-formed input whose totals are safe integers |
| Lcov.PointsIgnoreOrder | src/coverage/lcov.ts:208-220 | the points do not depend on the order of the data records |
| Lcov.PartsPermute | src/coverage/lcov.ts:154-221 | any order of a list of complete parts of the input resolves or not alike, and to the same points |
| Lcov.AddCount | src/coverage/lcov.ts:140-152 | adds to the sum of a line exactly when the total stays a safe integer |
| Lcov.EmitPoints | src/coverage/lcov.ts:208-218 | all counted lines, strictly ordered by path and line |
| Lcov.NormalizeLcovLineCoverage | src/coverage/lcov.ts:154-221 | resolved exactly on well-formed input in bounds; points are the sums of all data records in strict order; otherwise the reason of the first fault |
| LcovBranch.ResolvedExactly | src/coverage/lcov.ts:292-349 | no fault stops the stream exactly on well-formed input whose sums before a branch's first unknown observation are safe integers |
| LcovBranch.ClassesExactly | src/coverage/lcov.ts:299-314 | the same of branch input, with BRDA: |
| LcovBranch.UnreadExactly | src/coverage/lcov.ts:317-341 | a branch line that is not read has an invalid count if it names a branch, and is malformed otherwise |
| LcovBranch.TakenExactly | src/coverage/lcov.ts:335-341 | unknown is a dash, alone or before digits; a count is a safe integer; anything else is invalid |
| LcovBranch.SourceExactly | src/coverage/lcov.ts:299-312 | the open source is that of the last source line unless a record has ended since |
| LcovBranch.FaultsExactly | src/coverage/lcov.ts:299-346 | what each reason says of the line it stops at |
| LcovBranch.EndExactly | src/coverage/lcov.ts:347-348 | what each reason says at the end of the input |
| LcovBranchOrder.PrintedBranchReads | src/coverage/lcov.ts:314-343 | a printed branch line is read back as its line, block, branch and count, an unknown count included |
| LcovBranchOrder.OrderFreeExactly | src/coverage/lcov.ts:241-277 | all orders of observations are within bounds or none is, exactly if every branch sums to a safe integer, or some branch without unknown observations does not |
| LcovBranchOrder.OrderNeverMattersExactly | src/coverage/lcov.ts:292-349 | the same of inputs: all well-formed inputs with these observations resolve or none does, exactly on that condition |
| LcovBranchOrder.OrderCanDecide | src/coverage/lcov.ts:241-277 | two inputs print 2^53 - 1, 1 and an unknown observation of one branch; the one with the unknown observation first resolves, the other does not |
| LcovBranch.PointsIgnoreOrder | src/coverage/lcov.ts:241-277 | of resolved inputs with the same observations the points agree |
| LcovBranch.KeyOrderExactly | src/coverage/lcov.ts:360-366 | branches are ordered by path, then line, then block, then branch |
| LcovBranch.AddBranchObservation | src/coverage/lcov.ts:241-277 | an unknown observation decides the branch; known ones add up within the bound unless it is unresolved |
| LcovBranch.NormalizeLcovBranchCoverage | src/coverage/lcov.ts:292-370 | resolved exactly as above; one point per branch in strict order, unresolved if any observation was unknown, else with the sum; otherwise the reason of the first fault |
| Exercise.AllRecordsExactly | src/exercise.ts:191-226 | which records there are: from the point of a changed line, or unresolved in production source without points |
| Exercise.CountsAddUp | src/exercise.ts:228-230 | the three state counts add up to the records |
| Exercise.CollectUnresolved | src/exercise.ts:43-58 | one unresolved record for each line of each range |
| Exercise.BuildChangedLineExercise | src/exercise.ts:185-260 | the records in stable order by path and line, exact counts by state, and the number of files none of whose records is exercised |
| Exercise.ExercisedExactly | src/exercise.ts:191-226 | from data records to exercise: exercised exactly on changed lines of present text files with a positive sum, not exercised exactly on those with a zero sum |
| Exercise.UnresolvedExactly | src/exercise.ts:208-212 | unresolved exactly on changed lines of production source without any data record |
| Exercise.RecordedCount | src/exercise.ts:215-224 | the count of a record is the sum of its line's data records |
| Exercise.ChangedExactly | src/exercise.ts:196-203 | a changed line is one in a range of a file of text lines that was not deleted |
| Exercise.OrderExactly | src/exercise.ts:226-226 | records are ordered by path, under one path by line |
| BranchExercise.RangesOfUnique | src/exercise.ts:89-105 | with distinct paths the range map gives each looked-at file its own ranges |
| BranchExercise.BranchCountsAddUp | src/exercise.ts:154-156 | the three branch counts add up to the records |
| BranchExercise.BranchExercisedExactly | src/exercise.ts:107-149 | a branch is recorded exactly when observed on a changed line; unresolved exactly if some observation was unknown; exercised exactly if none was and they sum to more than zero |
| BranchExercise.BuildBranchExercise | src/exercise.ts:107-176 | the records in order, exact counts, and the number of changed files without an exercised branch, those without branches included |
| ExerciseCounts.LineCounts | src/exercise.ts:228-230 | with distinct paths the exercised count is the number of changed lines whose data records sum to more than zero, the not exercised one of those that sum to zero, and, where the ranges of a file do not overlap, the unresolved one of the changed lines of production source without data |
| ExerciseCounts.BranchCounts | src/exercise.ts:154-156 | with distinct paths each branch count is the number of branches observed on changed lines whose observations come to that state |
| Stability.FlakyIsAbsorbing | src/quality/stability.ts:313-333 | once flaky, every longer history is flaky |
| Stability.OutcomesAreRemembered | src/quality/stability.ts:313-345 | no extension of a history with a failure is a deterministic pass, none of one with a pass a deterministic failure |
| Stability.AcceptedExactly | src/quality/stability.ts:74-122 | what is accepted, field by field |
| Stability.DeterministicPassExactly | src/quality/stability.ts:331-345 | a deterministic pass is no failure and at least the required passes |
| Stability.DeterministicFailExactly | src/quality/stability.ts:316-345 | a deterministic failure is no pass, at least the required failures, and one failure class |
| Stability.FlakyExactly | src/quality/stability.ts:316-333 | flaky is a pass and a failure in one environment, or failures of two classes, however few the runs |
| Stability.OpenVerdictsExactly | src/quality/stability.ts:299-340 | not run is no observation; no valid run is unavailable ones alone; of the histories that are not flaky, insufficient evidence are those with some but too few valid runs, environment-sensitive those with enough, passes and failures among them |
| Stability.VerdictIgnoresOrder | src/quality/stability.ts:198-345 | verdict, counts and environments do not depend on the order of the observations |
| Stability.ReportIgnoresOrder | src/quality/stability.ts:198-345 | reports of two histories that differ in order and numbering are equal |
| Stability.DistinctFailureClasses | src/quality/stability.ts:152-160 | the number of different classes in a list |
| Stability.FindsContradiction | src/quality/stability.ts:316-330 | the search by environment finds a contradiction exactly when two observations contradict each other |
| Stability.OutcomesDisagree | src/quality/stability.ts:334-340 | without a contradiction, environments disagree exactly when there are passes and failures |
| Stability.EvaluateStability | src/quality/stability.ts:198-345 | an error exactly for what is not accepted; otherwise the verdict, exact counts that add up to the runs, and the environments in order |
| Reproduction.PassIsConsistent | src/check.ts:892-993 | a pass has an exit code and failures that agree with its status, and evidence numbered within its block |
| Reproduction.PassExactly | src/check.ts:892-993 | a pass that ran to its end with usable results passes or fails with its process, any other is an error; its evidence is two captures, then what was recorded |
| Reproduction.CombinedExitCode | src/check.ts:1138-1160 | the exit code of two passes is that of an error, the later first, else the later non-zero one |
| Reproduction.CombinedKeepsAll | src/check.ts:1164-1176 | nothing that either pass recorded is lost, and machine results stay in order |
| Reproduction.CombinedIsConsistent | src/check.ts:1138-1178 | combining passes loses no failure and no error, and keeps exit code, counts and evidence in order |
| Reproduction.ExtrasAreBounded | src/check.ts:1344-1376 | at most two reruns are observed, only after failures alone, none after the first that passed |
| Reproduction.ObservedExactly | src/check.ts:1247-1287 | a rerun gives an outcome exactly if it was planned and ended, its machine result has one match, and that failed exactly when the process did |
| Reproduction.ExtrasAreReruns | src/check.ts:1344-1376 | the outcomes added are those of the reruns that are made, each after failures alone, and where they stop no further one was worth making or gave any |
| Reproduction.FailuresAreProcesses | src/check.ts:1344-1376 | the failures added are the reruns whose process failed |
| Reproduction.RerunEvidenceExactly | src/check.ts:1247-1270 | a planned rerun leaves two captures, and its machine result if that was recorded |
| Reproduction.ObservedIsEvidence | src/check.ts:1258-1270 | what a rerun observed is recorded under evidence of that rerun |
| Reproduction.ExtraEvidenceIncreases | src/check.ts:1232-1232 | rerun evidence is strictly increasing from 9 or 12 |
| Reproduction.EvidenceIdsAreDistinct | src/check.ts:508-517 | all evidence ids of a task are distinct, over both passes and all reruns |
| Reproduction.ReproductionExactly | src/test-reproduction.ts:86-125 | reproduced is at least two observations, all failed; contradicted is a failure and a pass |
| Reproduction.ContradictoryExactly | src/test-reproduction.ts:180-188 | every finding is contradictory exactly when some test failed and each that failed also passed |
| Reproduction.RerunTarget | src/check.ts:1344-1376 | the loop adds exactly the observations and evidence of the reruns that the protocol allows, and counts them |
| Reproduction.FailingTestIdentities | src/test-reproduction.ts:127-139 | each failing test once, in the given order |
| Reproduction.BaselineExactly | src/check.ts:1317-1319 | the observations of the passes are the assertions of their machine results, each with the evidence of its result |
| Reproduction.HasFailingExactly | src/check.ts:1313-1321 | a task is looked at again exactly if it failed and a machine result reports a failing test |
| Reproduction.NormalizeFailedTestExecution | src/check.ts:1303-1408 | only a failed task with failing tests changes; it is flaky exactly when each failing test was also seen to pass; runs and evidence grow by the reruns, failures by those whose process failed |
| Reproduction.PassingRerunIsFlaky | src/check.ts:1303-1408 | one failing test seen once whose first rerun passes: flaky, one run more, no failure more, and the finding says 1 failure of 2 |
| Reproduction.FailingRerunsReproduce | src/check.ts:1303-1408 | one failing test seen once that fails in both reruns: failed, two runs and failures more, and the finding is reproduced with 3 of 3 |
| Doubles.RoundIsNearest | src/browser/trace-artifacts.ts:284-294 | the sum of two doubles is the exact sum rounded: a multiple of the spacing at its magnitude, none nearer, an even one in a tie |
| Doubles.RoundIsExact | src/browser/trace-artifacts.ts:284-294 | up to 2^53 sums and differences are exact |
| TraceRetention.FittingSuffixes | src/browser/trace-artifacts.ts:276-295 | by their true sizes, the suffixes that fit are exactly those of the longest fitting one |
| TraceRetention.ExactDecisionExactly | src/browser/trace-artifacts.ts:276-295 | the decision is the longest fitting suffix with its true size exactly when every running total is exact, or over the bound together with the true one |
| TraceRetention.SmallTotalsAreExact | src/browser/trace-artifacts.ts:276-295 | that is so whenever the true bytes left by the count bound are at most 2^53 |
| TraceRetention.AlwaysExactExactly | src/browser/trace-artifacts.ts:276-295 | 2^53 is the limit: exactly the totals up to it are decided rightly for all artifacts and policies |
| TraceRetention.BoundExceeded | src/browser/trace-artifacts.ts:276-295 | sizes 1, 2^53 - 1 and 1 under the bound 2^53 - 1: one byte more than the bound is kept, and reported as the bound |
| TraceRetention.DecisionPartitions | src/browser/trace-artifacts.ts:263-302 | every artifact is in exactly one of expired, evicted by count, evicted by bytes and retained |
| TraceRetention.AcceptedExactly | src/browser/trace-artifacts.ts:236-262 | what is accepted: one bound for all numbers, and no identifier for two artifacts |
| TraceRetention.ExpiredExactly | src/browser/trace-artifacts.ts:263-270 | what expires was captured more than the maximum age before now |
| TraceRetention.RetainedAreNewest | src/browser/trace-artifacts.ts:271-295 | what is retained was captured no earlier than what is evicted; at the same time the identifier decides |
| TraceRetention.DecisionIgnoresOrder | src/browser/trace-artifacts.ts:263-302 | the decision does not depend on the order of the artifacts |
| TraceRetention.EvictByCount | src/browser/trace-artifacts.ts:276-282 | shifts out exactly as many of the oldest as exceed the count |
| TraceRetention.EvictByBytes | src/browser/trace-artifacts.ts:283-295 | stops at the first running total, rounded as doubles are, that is within the byte bound |
| TraceRetention.EvaluateRetention | src/browser/trace-artifacts.ts:231-303 | an error exactly for unusable input; otherwise the decision by rounded totals, which is the longest fitting suffix by age with its true bytes if the count bound leaves at most 2^53 |
| Sorting.SortIgnoresOrder | src/git.ts:549-560 | a sort by a total order that tells elements apart depends only on the elements |
| Sorting.LexExactly | src/git.ts:549-560 | in the order of byte strings the first difference decides, and a beginning comes first |
| Text.DecimalRoundTrip | src/git.ts:540-540 | a number is recovered from its decimal numeral |
| Text.NumeralsExactly | src/coverage/lcov.ts:125-135 | a text of digits has the value n exactly if it is the numeral of n, possibly after zeros |
| Text.DecimalIsDecimal | src/git.ts:540-540 | the ten digits, and base ten |

## Left out

- Process spawning, signals, timeouts, git itself, Playwright, real descriptors: foreign effects; their outcomes are arbitrary results of a step or parameters.
- SHA-256: the digest is modelled as the byte stream it is fed.
- Paths, regular-expression engines, JSON.parse, Date.parse and toISOString, String.localeCompare: parameters, with the round trip of printed instants as the only assumption about dates.
- TreeDigest.TreeDigestV1FromState: texts are their UTF-8 bytes, so two JavaScript strings that differ only in lone surrogates are one.
- JsonEvaluator.ValidateObject: the order of issues among unknown properties is open, because an object is a map.
- JsonEvaluator.ValidateAgainstSchema: message texts and keywords of issues are not specified, only where issues are and whether there are any.
- Schema loading (assertSupportedSchema) is taken as done; references end on schema nodes.
- RunLockProgram.LockCall.AcquireMutationGuard: the probe of a foreign guard's owner is left out, because both answers lead to the same error.
- RunLockProgram.LockCall.Release: concurrent calls of release on one handle share one promise in the source; here calls follow each other.
- RunLockProgram.LockCall.AcquireRunLock: resolving the repository root and creating the lock directory are not modelled.
- RunLifecycle.RunDirectory.MarkRunCompleted: concurrent calls of complete() share one promise in the source; here calls follow each other, and the pruning that follows is RunRetention.
- RunLifecycle.RunDirectory.CreateRunDirectory: a torn write is modelled as a text that denotes nothing or the whole value.
- RunRetention.RunsRoot.PruneCompletedRunsFromRoot: a missing or unverifiable runs directory is not modelled.
- Lcov.NormalizeLcovLineCoverage: starts from classified lines with mapped source paths; `Lcov.Classify` and `LcovBranch.Classify` read raw lines. The split of the text at line breaks is not modelled.
- BranchExercise.BuildBranchExercise: ranges keep their given order; the source sorts them, which membership does not see. Reason texts are left out.
- Exercise.BuildChangedLineExercise: which files are production source is a parameter.
- Reproduction.NormalizeFailedTestExecution: times, output truncation and artifact records are left out.
- TraceRetention.EvaluateRetention: the overflow of a total to infinity, from 2^1024 bytes on, is not modelled.
- Stability.EvaluateStability: run indexes and bounds that are not integers are rejected by the source and do not occur here.
- Receipt semantics, redaction, admissions, planner, benchmarks, CLI and the hand-written JSON readers.

# A verified model of mivia-agent's crash journal, diff arithmetic, turn driver and text transformers

The repository is a Go coding agent with Python gates around it. This project models the parts whose
correctness is an argument rather than a reading, in Dafny, and proves the arguments. Methods that change
state are classes or loops here too, each proved against a specification function; the results are lemmas
about those functions, over every input, every run or every interleaving.

| file | models |
|---|---|
| `Basics.dfy` | types and character classes the others share |
| `Journal.dfy` | the disk of a mutation sweep, its crash journal, and what a kill inside any step leaves |
| `Checkout.dfy` | one sweeping process: mutate, judge, restore, verify, recover, with file errors anywhere |
| `Workers.dfy` | several packages swept at once under any schedule, killed at any moment; the totals |
| `MovedLines.dfy` | the multiset of deleted lines that licenses skipped sites |
| `DiffLines.dfy` | base lines carried to tip lines through `git diff -U0` hunks, against real text replacement |
| `KnownUncovered.dfy` | which lines a coverage policy excuses when the change may edit the policy |
| `BlankNonCode.dfy` | the position-preserving Go lexer, against a grammar of regions |
| `CodeLines.dfy` | the line scanner for comments, against that lexer |
| `WorkBudget.dfy` | token reservations of overlapping provider calls on a shared meter |
| `Compaction.dfy` | a turn's compaction totals and announcements, host and SDK compactions mixed |
| `TurnDriver.dfy` | steered re-runs under one step budget; the bounded continuation hook |
| `History.dfy` | message conversions and the history write-back after a run |
| `Utf8Cut.dfy` | the byte cut that keeps whole characters (sections 3 and 4 of RFC 3629) |
| `TagFrames.dfy` | untrusted text framed between tags it cannot forge |
| `JsonPreview.dfy` | JSON previews shortened without changing shape; dispatch rows reduced |
| `HookGuard.dfy` | the git option scanner and the `sh -c` expansion, against a grammar |
| `Timeouts.dfy` | tool-call timeouts in 64-bit arithmetic |

## How the main arguments go

**Crash safety.** A disk change is one `Op`; `Interrupted` says what a kill inside it may leave. An op is
`Disciplined` when it writes original bytes or a journalled file, and writes or drops journal entries in the
safe order. Disciplined ops keep the disk `Recoverable`; recovery restores every file if and only if the disk
it finds is recoverable (`RecoveryRestoresIff`). `Process` proves that its own ops are disciplined whatever
file errors happen. In `Workers`, a schedule interleaves any number of such logs; seen through its own files
and tokens each worker is alone (`SeesOnlyItself`), so the guarantees hold for the whole sweep
(`KilledSweepHealsExactly`, `FinishedSweepRestores`).

**Diff lines.** A change is a list of edits on the base text. `TrueIndex` is where a base line really goes,
`Headers` what git prints for the edits (a side with no lines names the line before it, as the "Diff -u or -U
Output Format" section of the POSIX `diff` utility says). `map_line` is then compared with the truth.

**Scanners and transformers.** Each index loop is proved equal to a function on text, and that function to a
grammar: `Render` turns a sentence of the grammar into text, every text is a sentence, and the loop's output is
the sentence's meaning.

**Pinned definitions.** A method proved equal to a function says no more than the function does. Lemmas whose
names end in `Exactly` or `Iff` say what each of these functions computes without naming it or its helpers.

## Where the code does not do what its documentation says

Each is proved, with the exact condition under which the code does what it says.

- `restore_and_verify` promises that a sweep leaves no mutant. Its rewrites carry no journal entry, so a kill
  inside one leaves a torn file that recovery cannot heal (`Journal.TornRewriteStrandsFile`). A killed sweep is
  healed exactly when no such rewrite, torn by the kill or by a write error before it, left wrong bytes
  (`Workers.KilledSweepHealsExactly`).
- `recover_inflight` drops an entry whose journal files fail to read, even once: a good entry is then lost and
  its mutant stays (`Journal.FailedReadStrandsMutant`; exactly when: `Journal.RecoveryHealsExactly`).
- `map_line` sends the line a pure insertion follows to the last inserted line. In `--cached` mode a staged
  change gets one of its own added lines excused if and only if it inserts right after a surviving line
  approved at HEAD (`KnownUncovered.SelfApprovalIffAnchored`), and a policy can excuse nothing there otherwise.
- `non_executable_lines` says that a `/*` inside a string only over-reports. It hides the statements after it
  (`CodeLines.LiteralHidesCode`). No statement is hidden while no literal holds a comment opener
  (`CodeLines.NothingHidden`); after any text a next line can be hidden if and only if the scanner and the Go
  lexer have parted there, which takes such a literal (`CodeLines.NextLineLostIff`, `LostMeansParted`).
- The pattern of switch labels has no end anchor, so a statement after `default:` on its line goes with the
  label (`CodeLines.LabelSwallows`); a line of code is left out exactly when the pattern matches it
  (`SkippedExactly`).
- `blank_non_code` says it keeps every position and newline. An escaped newline in a literal is lost and a text
  that ends in a literal on a lone backslash grows by one (`BlankNonCode.LengthKept`, `NewlinesKept`, both exact).
- Each `refund` is said to pop its own reservation. It pops the last one. Over any history, every refund finds
  its own if and only if none is issued while a later call is still not refunded
  (`WorkBudget.OwnIffLastInFirstOut`); two calls that end in the order they began settle each other's amounts
  (`WorkBudget.OverlapSettlesWrongly`).
- A negative per-call output limit means "no limit" when capping but is charged when reserving, so the meter is
  credited (`WorkBudget.StackedIsCharged`, `NegativeLimitCredits`).
- `MaxSteps` is shrunk between steered re-runs, `MaxTurns` is not (`TurnDriver.MaxTurnsMultiplies`). One run's
  bound is the turn's bound exactly when the turn cannot be steered or the bound is `MaxSteps`
  (`TurnDriver.OneRunsBoundIsTheTurnsIff`).
- An empty run history is said to keep the carried messages, with what was appended after them. What was
  appended past the boundary is kept and then appended again: a partial reply recorded by a cancelled first call
  is written twice (`History.CancelledPartialTwice`; nothing changes exactly when nothing was appended:
  `EmptyHistoryKeepsIff`).
- The write-back boundary is computed once per turn, so every further run doubles what the turn has added. Each
  message is written once if and only if at most the last run adds any and that one reports a history
  (`History.TurnDoubles`, `TurnWritesOnceIff`).
- A model-requested timeout is said never to tighten the resolved budget. The returned duration does, exactly
  when the parent deadline is nearer than that budget (`Timeouts.CallIsBounded`); the deadline the call then
  runs under never does (`Timeouts.RequestOnlyExtends`).
- `NeutralizeHookTags` is said to remove any hook tag. Its own pattern can still match the result
  (`TagFrames.HookNotIdempotent`): exactly when the input has an opening the pass does not match and what it
  leaves between that and the next `>` fits the bound (`TagFrames.SecondPassIff`); never when every opening had
  its `>` within the bound already (`TagFrames.OnePassIsEnough`).
- `_git_commit_index` is said to give the `commit` of a segment that invokes it. It starts at the first `git`
  token, so `git` as another word's argument hides the real one (`HookGuard.EarlierGitHides`). A place that runs
  `git commit` is found exactly when its `git` is the first, or a value of the first one's global options
  (`HookGuard.CommitFoundIff`); `HookGuard.BuriedVerdict` carries this to the verdict on wrapped commands.
- After a failed recovery `main` sweeps on and takes the mutant for the original. Of the two entries a later kill
  then leaves, recovery applies both and the last one in the pass stays (`Journal.LastEntryWins`,
  `Checkout.SweepOverMutant`).

## Model

| member | source | states |
|---|---|---|
| Journal.KillInsideStep | scripts/check_mutation.py:530-562 | a kill inside any step of a disciplined run leaves a disk recovery can heal, if and only if the step was not a rewrite of an unjournalled file caught with wrong bytes |
| Journal.StepKeepsRecoverable | scripts/check_mutation.py:530-562 | every disciplined step keeps each file original or covered by a complete, truthful entry |
| Journal.RunStaysRecoverable | scripts/check_mutation.py:323-364 | in every reachable state of a sweep each file is at its pre-sweep bytes or has a complete journal entry with exactly those bytes |
| Journal.KillAnywhere | scripts/check_mutation.py:323-364 | the same for a kill at any point of any run |
| Journal.RecoveryHealsExactly | scripts/check_mutation.py:565-602 | recovery puts a file back exactly when it was right already or an entry naming it can be read; it leaves no marker |
| Journal.RecoveryRestoresIff | scripts/check_mutation.py:565-602 | when every read succeeds, recovery restores the whole checkout if and only if the disk it found was recoverable |
| Journal.RestartedRecoveryHeals | scripts/check_mutation.py:565-602 | recovery may be killed and restarted any number of times; the one that finishes restores everything |
| Journal.TornRewriteStrandsFile | scripts/check_mutation.py:605-614 | a kill inside an unjournalled rewrite leaves a file recovery does not restore |
| Journal.FailedReadStrandsMutant | scripts/check_mutation.py:585-587 | one failed journal read drops a good entry and leaves the mutant |
| Journal.LastEntryWins | scripts/check_mutation.py:565-602 | on any disk, entries that disagree included, a file ends with the backup of the last readable entry naming it, or as it was |
| Checkout.Process.WriteBytes | scripts/check_mutation.py:610-614 | a write that fails leaves only a prefix on its own file, and keeps the log's guarantees |
| Checkout.Process.InflightBegin | scripts/check_mutation.py:539-552 | a token is returned only with a complete entry for the file, backup before marker, and no other file's bytes change |
| Checkout.Process.InflightEnd | scripts/check_mutation.py:555-562 | drops one entry, either half possibly staying, and is harmless when the entry protects nothing |
| Checkout.Process.RunMutant | scripts/check_mutation.py:323-364 | a mutant gets a verdict only if the file is back at its original bytes, survived exactly when its tests ended with code 0 and discarded exactly when they failed with the build marker; undisturbed, the log is the journalled order and the disk is as before |
| Checkout.VerdictIff | scripts/check_mutation.py:267-274 | a mutant survives exactly when its tests end with code 0, is discarded exactly when they fail with the build marker, and is killed by every other end, a timeout included |
| Checkout.MutantBytes | scripts/check_mutation.py:277-296 | the mutant keeps the bytes before and after the span and has the replacement in it, also where the offsets pass the end |
| Checkout.MutantNet | scripts/check_mutation.py:335-364 | the ops of one mutant undo each other: only the file's own bytes are written, and they end original |
| Checkout.SweepOverMutant | scripts/check_mutation.py:1205-1211 | a sweep killed in a mutant, a recovery that fails on the file, a second sweep killed over it: the true bytes come back if the older entry is last in the pass, what the second sweep found if the newer one is |
| Checkout.Process.VerifyRestored | scripts/check_mutation.py:481-508 | every file whose bytes are wrong is named; without read errors, only those |
| Checkout.Process.RewriteAll | scripts/check_mutation.py:610-614 | without errors all snapshots are back; with errors only swept files are touched and the flags say what is still guaranteed |
| Checkout.Process.RestoreAndVerify | scripts/check_mutation.py:605-622 | nothing reported means every snapshotted file is at its pre-sweep bytes, whatever writes failed |
| Checkout.Process.SweepSite | scripts/check_mutation.py:1071-1092 | one site: its file is snapshotted before it is first touched, and it is counted only with its file back |
| Checkout.Process.SweepSites | scripts/check_mutation.py:1070-1093 | the loop keeps pre-sweep snapshots of everything it may have changed and counts every site it finishes |
| Checkout.Process.SweepOnePackage | scripts/check_mutation.py:1057-1097 | without a MutationError every file is back; a sweep that returns has counted every site; the log up to the final rewrites survives any kill |
| Checkout.TallyMeans | scripts/check_mutation.py:1075-1097 | the survivors are the sites no test reaches and those whose tests ended with code 0, counted and reported by site in queue order; killed and discarded are counted likewise |
| Checkout.Process.RecoverInflight | scripts/check_mutation.py:565-602 | recovery's loop does what the specification of recovery says, its report lists the files put back, and its own writes are journalled |
| Checkout.Process.RecoverOne | scripts/check_mutation.py:581-601 | one entry: unreadable or orphaned ones are dropped, a wrong file is put back before its entry goes, a failed rewrite keeps the entry |
| Checkout.ReportExactly | scripts/check_mutation.py:565-602 | recovery reports a file as restored exactly when it changes its bytes |
| Workers.SweepWorker | scripts/check_mutation.py:1057-1097 | a worker started on its package's part of a healed checkout keeps to its own files and tokens, is journalled up to its final rewrites whatever fails, and without a MutationError has its files back |
| Workers.SeesOnlyItself | scripts/check_mutation.py:1159-1176 | under every interleaving a worker sees exactly the disk its own steps made |
| Workers.InterleavingDisciplined | scripts/check_mutation.py:1159-1176 | every interleaving of workers none of whose final rewrites went wrong keeps the journal's discipline as a whole |
| Workers.KilledSweepHealsExactly | scripts/check_mutation.py:1159-1186 | kill all workers at once, each possibly inside a write, after any write errors: a later recovery restores every file exactly when no final rewrite left wrong bytes on an unjournalled file |
| Workers.KillBeforeRewritesHeals | scripts/check_mutation.py:1159-1186 | no kill strands a file while the workers it catches are short of their final rewrites and those past them wrote the right bytes |
| Workers.FinishedSweepRestores | scripts/check_mutation.py:1159-1186 | when all workers have finished and each has its files back, every file of the checkout is back, under every interleaving |
| Workers.TallyCountsEverySite | scripts/check_mutation.py:1075-1097 | killed + survived + discarded is the number of queued sites, and one line is reported per survivor |
| Workers.TotalCountsEverySite | scripts/check_mutation.py:1188-1197 | the same for the sum over all packages |
| Workers.TotalIsSum | scripts/check_mutation.py:1188-1197 | each total is the integer sum of that count over the packages; the reports follow one another whole |
| Workers.CollectResults | scripts/check_mutation.py:1170-1197 | totals, verdict and report order do not depend on the order the workers finish in |
| MovedLines.Deletions.TakeMoved | scripts/check_mutation.py:974-996 | a site is skipped only against a remaining deleted copy, which is consumed |
| MovedLines.Deletions.TakeAll | scripts/check_mutation.py:1138-1150 | the sweep asks for its candidate lines one after another on the same counter |
| MovedLines.SkipsMatchDeletions | scripts/check_mutation.py:974-996 | N deleted copies of a line license exactly N skips of it, whatever else is swept in between |
| MovedLines.TakenExactly | scripts/check_mutation.py:974-996 | which sites are skipped: of each text the first ones, as many as it has deleted copies |
| DiffLines.MapLine | scripts/diff_coverage.py:142-152 | the accumulating loop computes the resolution the lemmas below are about |
| DiffLines.ChangedLines | scripts/diff_coverage.py:302-311 | the collected lines are exactly those on the tip side of some hunk |
| DiffLines.TrueIndexKeepsText | scripts/diff_coverage.py:115-139 | the reference alignment is real: a surviving line has the same text at its tip position |
| DiffLines.LostIffDeleted | scripts/diff_coverage.py:115-139 | a base line has no place in the tip exactly when some edit deletes it |
| DiffLines.MapLineAligns | scripts/diff_coverage.py:142-152 | None exactly on deleted lines; same text off insertion anchors; at an anchor off by exactly the insertion |
| DiffLines.ResolveIsTruePlusInserted | scripts/diff_coverage.py:142-152 | for any line number at all, the answer is the true line plus the lines inserted right after it |
| DiffLines.MapLineIncreases | scripts/diff_coverage.py:142-152 | surviving lines keep their order, anchors included |
| DiffLines.TipPartition | scripts/diff_coverage.py:302-311 | the changed lines and the image of the true alignment are disjoint and together are lines 1..n of the tip |
| DiffLines.CarriedOntoAddedIffAnchor | scripts/diff_coverage.py:147-151 | a base line is carried onto an added line exactly when it is an insertion anchor |
| DiffLines.AnchorExample | scripts/diff_coverage.py:147-151 | a concrete change on which an approved line moves to the last inserted line |
| KnownUncovered.LoadKnownUncovered | scripts/diff_coverage.py:155-218 | without a diff the policy on disk; otherwise, per path, the carried lines, plus the tip policy's in range mode, and the newly added ones reported |
| KnownUncovered.HonouredLineOrigin | scripts/diff_coverage.py:155-218 | in cached mode every honoured line is the image of a line approved at HEAD |
| KnownUncovered.HonouredExactly | scripts/diff_coverage.py:181-200 | a line is honoured exactly when `map_line` takes a line approved at the base there or, in a range, the tip policy lists it |
| KnownUncovered.SelfApprovalIffAnchored | scripts/diff_coverage.py:155-218 | a staged change approves one of its own lines if and only if it inserts after a surviving approved line |
| KnownUncovered.Remaining | scripts/diff_coverage.py:617-624 | the findings left are exactly those no policy line accepts, in order |
| KnownUncovered.RemainingExactly | scripts/diff_coverage.py:614-624 | a finding is dropped exactly when its path's policy lists its line; the others keep their order and number |
| KnownUncovered.StagedGateExcusesOnlyAtAnchors | scripts/diff_coverage.py:612-624 | without insertion anchors on approved lines the staged gate excuses nothing |
| BlankNonCode.Blank | scripts/check_seams.py:42-116 | the position loop computes the scan the lemmas below are about |
| BlankNonCode.BlankStep | scripts/check_seams.py:50-115 | one pass of the loop body: what it emits, how far it moves, the state after it |
| BlankNonCode.BlanksEachPiece | scripts/check_seams.py:42-116 | code and literal delimiters stay, every other comment or literal character becomes a space, newlines stay unless escaped: for any decomposition of the text into code and regions |
| BlankNonCode.EveryTextHasPieces | scripts/check_seams.py:42-116 | every text has such a decomposition |
| BlankNonCode.LengthKept | scripts/check_seams.py:43-45 | the length is kept, and grows by one exactly on a dangling backslash |
| BlankNonCode.NewlinesKept | scripts/check_seams.py:43-45 | every position keeps its character or becomes a space; every newline stays exactly when no literal escapes one |
| BlankNonCode.BlankTwice | scripts/check_seams.py:42-116 | blanking is idempotent on every text |
| CodeLines.NonExecutableLines | scripts/diff_coverage.py:333-384 | the nested loops, with the pattern of switch labels, compute the per-line rule the lemmas below are about |
| CodeLines.ScanLine | scripts/diff_coverage.py:354-372 | the jumping scan of one line finds code and the comment state as reading it character by character does |
| CodeLines.SkippedExactly | scripts/diff_coverage.py:366-384 | a line with code is left out only as a switch label; one without stays only as a block comment opened and closed on it |
| CodeLines.SkippedIffNoCode | scripts/diff_coverage.py:333-384 | while no literal holds a comment opener, a line is skipped exactly when the Go lexer sees neither code nor literal on it, with those two exceptions |
| CodeLines.LabelSwallows | scripts/diff_coverage.py:373-380 | whatever follows a label on its line is skipped with it |
| CodeLines.DefaultSwallowsCall | scripts/diff_coverage.py:377-380 | a call after `default:` on one line is skipped |
| CodeLines.LabelNeeds | scripts/diff_coverage.py:373-380 | a line the pattern matches has a colon and starts with `case` and white space or with `default` |
| CodeLines.DefaultLabelIff | scripts/diff_coverage.py:373-380 | after `default` the pattern matches exactly when white space alone stands before a colon |
| CodeLines.WordsShape | scripts/diff_coverage.py:373-380 | what the pattern takes between `case` and the colon starts with a word and has a comma wherever white space parts two words |
| CodeLines.WordsMore | scripts/diff_coverage.py:373-380 | a word is such a list, and so is a word, a comma and a list, with white space around |
| CodeLines.LineInText | scripts/check_seams.py:42-116 | at a line's own positions the blanked text is what the lexer makes of that line |
| CodeLines.LeftIsSeen | scripts/diff_coverage.py:343-347 | on such a text a line of which the lexer leaves anything is seen as code |
| CodeLines.NothingHidden | scripts/diff_coverage.py:343-347 | the same for every Go text, as the grammar of regions reads it, none of whose literals holds a comment opener |
| CodeLines.NextLineLostIff | scripts/diff_coverage.py:343-347 | after any text some next line of code would be taken for a comment if and only if the scanner and the lexer have parted there |
| CodeLines.LostMeansParted | scripts/diff_coverage.py:343-347 | a line that is lost comes after such a parting, and after a literal with a comment opener |
| CodeLines.LiteralHidesCode | scripts/diff_coverage.py:343-347 | a comment opener inside a string makes the scanner drop the code line after it |
| WorkBudget.WorkLimitMeter.OutputCap | internal/agent/work_limits.go:20-49 | the grant is the tightest of request, per-call limit and what is left, refused only when nothing is left |
| WorkBudget.CapExactly | internal/agent/work_limits.go:20-49 | the grant passes no request, per-call limit or remainder that is set and equals one of them; unlimited only when none is set, refused only when nothing is left |
| WorkBudget.WorkLimitMeter.ReserveProvider | internal/agent/work_limits.go:51-84 | charges both amounts or refuses and changes nothing |
| WorkBudget.ReserveExactly | internal/agent/work_limits.go:51-77 | a reservation that names its output is granted exactly when no limit that is set is passed, and charges both amounts |
| WorkBudget.ReserveUnnamed | internal/agent/work_limits.go:51-77 | one that names none is charged the per-call limit, or else all that is left |
| WorkBudget.WorkLimitMeter.RefundProvider | internal/agent/work_limits.go:86-103 | subtracts both amounts, stopping at zero |
| WorkBudget.RefundExactly | internal/agent/work_limits.go:79-100 | both amounts are given back, down to zero at most |
| WorkBudget.SdkWorkBudget.ClampedMaxTokens | internal/agent/agentloop_budget.go:68-72 | the output a call may reserve, from the shared meter |
| WorkBudget.SdkWorkBudget.Commit | internal/agent/agentloop_budget.go:100-116 | pushes exactly what it asked the meter for, or changes nothing |
| WorkBudget.SdkWorkBudget.ReserveCall | internal/agent/agentloop_budget.go:85-116 | an undisturbed reservation: cap, then commit |
| WorkBudget.SdkWorkBudget.RefundCall | internal/agent/agentloop_budget.go:120-137 | pops the newest reservation and settles it by how the call ended; an empty stack changes nothing |
| WorkBudget.CallPays | internal/agent/agentloop_budget.go:120-137 | a cancelled call costs nothing, a failed one all it reserved, a successful one its prompt and the output it used up to its reserve |
| WorkBudget.StackedIsCharged | internal/agent/agentloop_budget.go:85-116 | the stacked amounts are what the meter was charged, unless a negative per-call limit credits it |
| WorkBudget.NegativeLimitCredits | internal/agent/work_limits.go:51-84 | a negative per-call limit leaves the meter below zero |
| WorkBudget.EventKeepsBalance | internal/agent/agentloop_budget.go:85-137 | one reservation or refund keeps the books balanced and the limits respected |
| WorkBudget.EveryInterleavingBalances | internal/agent/agentloop_budget.go:85-137 | for every interleaving the meter equals live stack amounts plus settled charges, is never negative and never passes a limit |
| WorkBudget.SequentialCallsPayTheirOwn | internal/agent/agentloop_budget.go:85-137 | calls one after the other cost estimate + min(reserve, used) on success, nothing when canceled, everything on failure or when no refund comes |
| WorkBudget.OverlapSettlesWrongly | internal/agent/agentloop_budget.go:118-137 | two overlapping calls that end in order, however each ends, are each charged on the other's reservation |
| WorkBudget.OwnIffLastInFirstOut | internal/agent/agentloop_budget.go:19-28 | over any history every refund pops its own reservation iff none is issued while a later call is not yet refunded; each call then pays for its own |
| WorkBudget.OneAtATimeIsFair | internal/agent/agentloop_budget.go:19-28 | so when calls are sequential, refunds possibly missing |
| WorkBudget.FairMeter | internal/agent/agentloop_budget.go:85-137 | the meter is then what live calls hold plus what each refunded call owes for its own reservation |
| WorkBudget.RerunsShareOneBudget | internal/agent/agentloop_budget.go:44-49 | a turn's re-runs that preserve the meter stay inside one set of limits together |
| WorkBudget.NextMeterExactly | internal/agent/agentloop_budget.go:40-49 | a run goes on with the kept meter exactly when it preserves it under the same limits |
| Compaction.Loop.RecordPreparation | internal/agent/context.go:59-87 | the record's new state, field by field |
| Compaction.Loop.ResetTurnCompaction | internal/agent/context.go:89-108 | the reset's new state |
| Compaction.Loop.DiscardPreparation | internal/agent/context.go:127-138 | the discard's new state |
| Compaction.DiscardDropsRecord | internal/agent/context.go:127-138 | a discard drops the record, if there is one, and no total |
| Compaction.RecordExactly | internal/agent/context.go:59-87 | a recorded preparation is the record under its own token, unchanged while the turn has not compacted; one that did not compact changes no total |
| Compaction.SameIdentityIff | internal/agent/context.go:114-120 | two compactions count as one exactly when their idempotency keys agree or, where neither has one, their ranges |
| Compaction.Loop.RecordAndAnnounce | internal/agent/sdk_prepare.go:61-80 | record, then announce once per compaction key |
| Compaction.Loop.PrepareOnce | internal/agent/sdk_prepare.go:18-82 | one pass with its failure, its second attempt after an interrupt and the error it keeps; a failed pass leaves the totals alone |
| Compaction.Loop.ConfirmSdkCompaction | internal/agent/agentloop_adoption.go:331-356 | drains the pending outcome and announces it unless its key is empty or the last announced |
| Compaction.Loop.ObserveRequest | internal/agent/agentloop_adoption.go:274-309 | bookkeeping first, then the confirmation |
| Compaction.TurnTotals | internal/agent/context.go:59-138 | over any steps of a turn the record is marked compacted iff some step compacted, with the first BeforeTokens, the last AfterTokens and the sums of what was elided; a discard loses none of it |
| Compaction.TurnSums | internal/agent/context.go:59-87 | each of the four elision counters of the turn and of the sealed record is the integer sum of that counter over the compacting preparations |
| Compaction.ResetForgets | internal/agent/loop_dispatch.go:131-137 | a new turn's start clears all of it |
| Compaction.AnnouncedOnChange | internal/agent/agentloop_adoption.go:331-356 | across any mix of host and SDK compactions the announcements are the effective keys with immediate repeats dropped |
| Compaction.HostAnnounces | internal/agent/sdk_prepare.go:61-80 | a host compaction is announced under its identity with its own sizes, unless that identity was the last announced |
| Compaction.ConfirmedExactly | internal/agent/agentloop_adoption.go:331-356 | a confirmed SDK compaction is recorded and announced with the turn's first size before, its own size after, and its elisions on top of the turn's |
| Compaction.NoRepeats | internal/agent/sdk_prepare.go:61-80 | no compaction is announced twice in a row |
| Compaction.OverwrittenLeavesNoTrace | internal/agent/agentloop_adoption.go:257-309 | an SDK outcome overwritten before it is drained leaves the same state as if it had never been, whatever the host did in between |
| TurnDriver.ShrinkStepBudgetForReRun | internal/agent/loop_dispatch.go:335-345 | a re-run gets what is left of the step budget, and is refused when nothing is |
| TurnDriver.RunOnceSDK | internal/agent/loop_dispatch.go:42-121 | the driver's loop makes exactly the runs of a turn: due options, continued while steered, and a reply, an error, an interruption or the exceeded cap exactly as the last run ended |
| TurnDriver.EndExactly | internal/agent/loop_dispatch.go:76-119 | a turn replies exactly after an ordinary stop without error, with the final text or else the last one; it names the cap exactly when stopped at it; an error that is no interrupt lets no text out |
| TurnDriver.TurnCourse | internal/agent/loop_dispatch.go:66-104 | every run but the last was steered without error; a last one that was too met the bound or the step budget; every re-run has the remaining steps and the kept meter |
| TurnDriver.EffectiveExactly | internal/agent/loop_dispatch.go:305-358 | the iteration bound of a run is the smaller of the positive ones; without one a turn is re-run at most 25 times |
| TurnDriver.RunsBounded | internal/agent/loop_dispatch.go:300-310 | at most steerContinueBound + 1 SDK runs |
| TurnDriver.StepBudgetHolds | internal/agent/loop_dispatch.go:312-345 | with MaxSteps set all runs' iterations sum to at most MaxSteps, and no re-run gets a budget of 0 |
| TurnDriver.MaxTurnsBound | internal/agent/loop_dispatch.go:69-120 | with only MaxTurns = T the sum is at most T * (T + 1) |
| TurnDriver.MaxTurnsMultiplies | internal/agent/loop_dispatch.go:69-120 | and that bound is reached |
| TurnDriver.OneRunsBoundIsTheTurnsIff | internal/agent/loop_dispatch.go:66-120 | one run's iteration bound holds for every turn iff the turn cannot be steered, MaxTurns is unset, or MaxSteps is set and no larger |
| TurnDriver.ContinueOnStop.Decide | internal/agent/continue_on_stop.go:67-124 | grants a continuation exactly when a policy applies and its counter is not spent; never after a steered stop |
| TurnDriver.GrantsIff | internal/agent/continue_on_stop.go:67-124 | a stop is continued exactly when replay is allowed, steps are left, and an empty response that needs text has a retry or announced work has a continuation |
| TurnDriver.GrantsExactly | internal/agent/continue_on_stop.go:67-124 | over a whole run each policy grants the smaller of its eligible stops and its allowance, so at most 2 + MaxUnactedContinuations |
| History.MessagesToCli | internal/agent/agentloop_convert.go:156-182 | converts every message in place order |
| History.MessageRoundTrip | internal/agent/agentloop_convert.go:156-266 | a message comes back from the SDK shape with every field but its timestamp and the kinds of its calls |
| History.ConversionsKeepFields | internal/agent/agentloop_convert.go:156-266 | each conversion keeps every field of the message and its calls one by one |
| History.ReasoningInOrder | internal/agent/agentloop_convert.go:188-199 | the reasoning text is the blocks in order, redacted ones left out |
| History.DropEmptyAssistantTurns | internal/provider/api_message.go:234-252 | keeps exactly the messages that are not empty assistant turns, in order |
| History.StripInjectedSummaryFrames | internal/agent/loop_dispatch.go:206-215 | keeps exactly the messages not named as a summary, in order |
| History.RestoreTimestamps | internal/agent/loop_dispatch.go:276-286 | carried positions get their old timestamps, new unset ones the current time, in place |
| History.StampExactly | internal/agent/loop_dispatch.go:276-286 | a carried message gets its old time, a new one keeps its own or gets the current one; nothing else changes |
| History.Loop.WriteBackSdkHistory | internal/agent/loop_dispatch.go:167-183 | the new history: the repaired run history, or all messages when there is none, then what was appended past the boundary |
| History.KeptExactly | internal/agent/loop_dispatch.go:206-215 | each message is kept unless it is a summary frame or an assistant's without call, content and reasoning; order stays |
| History.PrunedRun | internal/agent/loop_dispatch.go:160-183 | when the carried messages were pruned to the boundary or below, the run's repaired history is all that is left |
| History.CarriedUnchangedIff | internal/agent/loop_dispatch.go:167-215 | the carried messages come back unchanged iff none is an empty assistant turn, a summary frame, or has a call of another kind than function |
| History.OneRunWriteBack | internal/agent/loop_dispatch.go:167-215 | after one run: carried prefix, new messages without summary frames and empty turns, then what was appended meanwhile |
| History.EmptyHistoryKeepsIff | internal/agent/loop_dispatch.go:167-183 | a run without history loses nothing, and changes nothing exactly when nothing was appended past the boundary |
| History.CancelledPartialTwice | internal/agent/agentloop_run.go:153-166 | a first call cancelled while streaming: its partial reply ends up in the history twice |
| History.RerunRepeatsTail | internal/agent/loop_dispatch.go:56-120 | a re-run in the same turn appends the first run's messages again, unless it added none |
| History.TurnDoubles | internal/agent/loop_dispatch.go:56-120 | over any number of runs, with a history or without, the carried messages stay and what follows has exactly the doubling length |
| History.CopiesOfFirst | internal/agent/loop_dispatch.go:56-120 | what a run contributes, twice its own when it reports no history, is doubled by every run after it |
| History.TurnWritesOnceIff | internal/agent/loop_dispatch.go:56-120 | a turn writes each message once iff every run but the last adds nothing, and the last one adds nothing unless it reports a history |
| Utf8Cut.TruncatePreview | internal/agent/loop_tool_preview.go:447-467 | for any bytes, the longest prefix within the limit that ends on a whole character |
| Utf8Cut.EncodesIff | internal/agent/loop_tool_preview.go:459-466 | the byte sequences taken for one character are exactly the arithmetic encodings of the scalar values |
| Utf8Cut.WholeIffBoundary | internal/agent/loop_tool_preview.go:459-466 | in valid UTF-8 a prefix ends on a whole character exactly at a character boundary |
| Utf8Cut.CutKeepsWholeCharacters | internal/agent/loop_tool_preview.go:447-467 | on valid UTF-8 the cut is the most whole characters that fit, at most three bytes below the limit |
| TagFrames.FirstMatchReplaced | internal/agent/parent_message.go:32-34 | text before the first tag is kept, and the tag gives way to the replacement |
| TagFrames.MatchesAnyCase | internal/agent/parent_message.go:32-34 | letter case does not matter to a match |
| TagFrames.ParentTagReplaced | internal/agent/parent_message.go:32-34 | a tag in any letter case gives way to the replacement, whole and alone |
| TagFrames.ParentTagsGone | internal/agent/parent_message.go:32-34 | no opening or closing tag is left, in any letter case |
| TagFrames.ParentTagFree | internal/agent/parent_message.go:32-34 | tag-free text is left alone |
| TagFrames.ParentIdempotent | internal/agent/parent_message.go:32-34 | neutralising twice is neutralising once |
| TagFrames.ParentFrameUnforgeable | internal/agent/parent_message.go:22-29 | a framed body holds exactly one opening and one closing tag, at its two ends |
| TagFrames.FrameHolds | internal/agent/parent_message.go:22-29 | a frame is the opening tag, the notice, the body and the closing tag, each on lines of its own |
| TagFrames.FrameParentMessages | internal/agent/parent_message.go:38-52 | blank bodies are dropped, the rest joined in one frame |
| TagFrames.JoinHolds | internal/agent/parent_message.go:38-52 | in the joined text every body stands whole and in order, with a rule between two |
| TagFrames.PartsExactly | internal/agent/parent_message.go:38-52 | each body is trimmed and neutralised, and left out exactly when nothing is left of it |
| TagFrames.JoinedFrameUnforgeable | internal/agent/parent_message.go:38-52 | several bodies together cannot forge an edge either |
| TagFrames.HookTagsGone | internal/agent/hook_context.go:50-101 | no literal hook tag is left, in any letter case |
| TagFrames.HookFrameUnforgeable | internal/agent/hook_context.go:79-86 | framed hook output holds exactly one literal opening and closing tag, at its two ends |
| TagFrames.HookNeverLengthens | internal/agent/hook_context.go:99-101 | neutralising hook text never makes it longer |
| TagFrames.MatchHasForm | internal/agent/hook_context.go:41-50 | what is matched is `<`, white space, a slash or none, the name in any letter case at a word boundary, at most 512 characters without `>`, and `>` |
| TagFrames.FormIsMatched | internal/agent/hook_context.go:41-50 | whatever has that form is matched, exactly up to its `>` |
| TagFrames.OpeningMatchesIff | internal/agent/hook_context.go:41-50 | an opening with attributes is matched exactly when they are at most 512 characters |
| TagFrames.HookNotIdempotent | internal/agent/hook_context.go:88-101 | a text a second pass changes, because the first one shortened it to the bound |
| TagFrames.TagLeftIff | internal/agent/hook_context.go:88-101 | where the pattern still matches the result: at a copied opening of the input which no match took and for which what the pass leaves before the next `>` fits the bound |
| TagFrames.SecondPassIff | internal/agent/hook_context.go:88-101 | a second pass changes nothing iff the input has no such opening that the first one looks at |
| TagFrames.OnePassIsEnough | internal/agent/hook_context.go:41-50 | a text whose every opening has its next `>` within the bound is free of tags and stable after one pass |
| TagFrames.StableIff | internal/agent/hook_context.go:99-101 | a text is stable under the pass exactly when the pattern matches nowhere in it |
| JsonPreview.ShrinkRunes | internal/agent/loop_tool_preview.go:424-438 | a string within the budget is unchanged, a longer one is its prefix of that many runes plus an ellipsis |
| JsonPreview.ShapeKept | internal/agent/loop_tool_preview.go:398-418 | at every place both documents have the same kind, keys, length and non-string leaves; strings are cut down to depth 64 only |
| JsonPreview.ShrinkJSONPreview | internal/agent/loop_tool_preview.go:374-391 | the output fits and uses the largest listed budget that fits; none is given exactly when the input is no JSON or no budget fits |
| JsonPreview.BudgetsDescend | internal/agent/loop_tool_preview.go:381 | the listed budgets descend to nothing, so the first that fits is the largest |
| JsonPreview.PreviewParses | internal/agent/loop_tool_preview.go:360-391 | a consumer that parses the preview finds the document's own shape |
| JsonPreview.TaskArg | internal/agent/loop_tool_preview.go:113-128 | the exact key, or else the first in sorted order that differs in letter case only |
| JsonPreview.TaskArgExactly | internal/agent/loop_tool_preview.go:113-128 | the exact key wins, else the first in order among those that fold alike, else nothing |
| JsonPreview.EqualFoldIff | internal/agent/loop_tool_preview.go:113-128 | keys fold alike exactly when they do character by character |
| JsonPreview.UpToIff | internal/agent/loop_tool_preview.go:113-128 | keys are ordered by the first place they differ at, a prefix before what it starts |
| JsonPreview.ReduceRows | internal/agent/loop_tool_preview.go:334-358 | row by row, the filled slice is the reduction the lemma below is about |
| JsonPreview.ReductionKeepsRows | internal/agent/loop_tool_preview.go:334-358 | row count and order stay, task_id, id and status read the same, nothing else stays beside them, and reducing again changes nothing |
| HookGuard.ScanBundle | scripts/agent_hook_guard.py:199-221 | one flag per letter up to the first that takes a value, which consumes the rest or the next element |
| HookGuard.ScanElement | scripts/agent_hook_guard.py:183-226 | one turn of the loop: the tokens of the next item of the grammar, and the index just past it |
| HookGuard.ScanSegment | scripts/agent_hook_guard.py:169-226 | the index loop gives the meaning of the segment's only parse |
| HookGuard.MeaningExactly | scripts/agent_hook_guard.py:196-221 | a bundle is one option per letter, in order, up to the one that takes a value; every other item is its first token as written |
| HookGuard.MeaningInOrder | scripts/agent_hook_guard.py:169-226 | the scan is the items' tokens, item by item in order, and nothing else |
| HookGuard.LongInScanIff | scripts/agent_hook_guard.py:196-199 | a long option is in the scan exactly when an item of the parse is that option |
| HookGuard.WordInScanIff | scripts/agent_hook_guard.py:169-226 | a word is in the scan exactly when an item of the parse is that word |
| HookGuard.LetterInScanIff | scripts/agent_hook_guard.py:199-221 | a short option is in the scan exactly when a bundle has the letter, before or as the one that takes a value |
| HookGuard.ShortFormsAgree | scripts/agent_hook_guard.py:41-53 | the letters that take a value are those whose short option does |
| HookGuard.ParseRenders | scripts/agent_hook_guard.py:169-226 | every argument vector is a sentence of the option grammar |
| HookGuard.ParseUnique | scripts/agent_hook_guard.py:169-226 | in exactly one way |
| HookGuard.ValueIsData | scripts/agent_hook_guard.py:169-182 | the same option with any other value, and other data after `--`, gives the same scan |
| HookGuard.DashNIff | scripts/agent_hook_guard.py:199-221 | the scan holds -n iff a bundle holds an n before any letter that takes a value |
| HookGuard.SplitShellSegments | scripts/agent_hook_guard.py:113-131 | the loop computes the split the two lemmas below are about |
| HookGuard.SegmentsAreCommands | scripts/agent_hook_guard.py:113-131 | the segments are the commands of the line, none empty, whatever separators stand around them |
| HookGuard.LineOf | scripts/agent_hook_guard.py:113-131 | every argument vector is such a line |
| HookGuard.GitCommitIndex | scripts/agent_hook_guard.py:80-104 | the walk over global options stops where the specification says |
| HookGuard.CommitFoundIff | scripts/agent_hook_guard.py:80-104 | of all places a segment runs git commit at, the index is found at exactly those whose git is the first or a global option's value of the first |
| HookGuard.EarlierGitHides | scripts/agent_hook_guard.py:91-94 | a segment that runs git commit behind another git token: no index is found |
| HookGuard.CommitReal | scripts/agent_hook_guard.py:80-104 | a found index is real: a commit that is a value or another subcommand's argument does not count |
| HookGuard.SegmentHasGitCommitDashN | scripts/agent_hook_guard.py:334-352 | true iff the segment's first git runs commit and the grammar reads an n flag among its arguments |
| HookGuard.SeenIff | scripts/agent_hook_guard.py:334-352 | a git commit with an n flag anywhere in the segment is noticed iff its git leads, or the segment gives itself away earlier |
| HookGuard.ExpandShellC | scripts/agent_hook_guard.py:134-166 | terminates, and its loop computes the expansion the lemmas below are about |
| HookGuard.ExpandExactly | scripts/agent_hook_guard.py:134-166 | up to the first wrapper nothing changes; its -c goes, its payload stays with its own expansion right after it, then the rest; past the depth limit nothing changes |
| HookGuard.NameOfPath | scripts/agent_hook_guard.py:76-77 | only the last part of a path names the interpreter |
| HookGuard.ExpansionKeeps | scripts/agent_hook_guard.py:134-166 | every input token stays in order except the -c of a matched wrapper |
| HookGuard.BuriedCommandSurfaces | scripts/agent_hook_guard.py:134-166 | a command under at most 21 wrappers appears in the stream as one run of tokens |
| HookGuard.PayloadSurfaces | scripts/agent_hook_guard.py:146-166 | the expansion of every payload the walk meets is one run of tokens of the result |
| HookGuard.IsGitCommit | scripts/agent_hook_guard.py:260-262 | true iff the first git of some command of the line runs commit |
| HookGuard.BlocksDashN | scripts/agent_hook_guard.py:427-445 | a structured vector is refused for -n iff the first git of one of its commands, wrapped ones included, runs commit with an n flag |
| HookGuard.BuriedVerdict | scripts/agent_hook_guard.py:427-445 | a git commit with an n flag under at most 21 wrappers: which segment it lands in, and that the line is refused iff its git leads there or something else gives the line away |
| HookGuard.OptionVector | scripts/agent_hook_guard.py:245-257 | the flag tokens are the commands' meanings, one command after another |
| HookGuard.FlagTokenIff | scripts/agent_hook_guard.py:245-257 | a token is checked as a flag exactly when the scan of some command holds it |
| Timeouts.RequestExact | internal/agent/loop_limits.go:47-58 | a requested duration is exactly min(s, the largest second count) times 10^9 and positive |
| Timeouts.BoundExact | internal/agent/loop_limits.go:60-62 | that largest count is exact: one more second wraps |
| Timeouts.RequestsKeepOrder | internal/agent/loop_limits.go:47-58 | a longer request never gets a shorter duration |
| Timeouts.ResolvedExactly | internal/agent/loop_limits.go:28-36 | the budget without a request: the capability's, else the session's, else a minute |
| Timeouts.EndsExactly | internal/agent/sdk_dispatcher_shim.go:116-144 | a call must end exactly at its parent's deadline or when the larger of the requested and the resolved budget is spent, whichever is first |
| Timeouts.CallIsBounded | internal/agent/sdk_dispatcher_shim.go:136-144 | every call's timeout is positive; it falls below the resolved budget exactly when a longer request meets a nearer deadline |
| Timeouts.RequestOnlyExtends | internal/agent/sdk_dispatcher_shim.go:116-144 | the call never ends after its parent's deadline and never before it would have without the request |

## Left out

- Running `git`, `go build` and `go test`: a mutant's outcome is a parameter. That a package's tests do not
  read another package's files while those are mutated is not claimed.
- Power loss, the page cache and fsync order, two sweeping processes in one checkout, and edits by a user
  between runs: a kill stops the process, what it wrote stays.
- Journal tokens: a random UUID is a pair of process and serial number; only that no two are equal is used.
- A journal marker's text: any proper prefix of a JSON object is unreadable; JSON itself is not parsed.
- The single-package `sweep` with its sampling and `restore_all`, denylists, build-tag gates, coverage profiles
  and the dead-code test: a site's deadness is a parameter. `line_of_offset` and the collection of sites.
- `parse_policy`, renames, globs and coverage reading in `diff_coverage.py`; the hunks of a path are given.
- `executable_lines`; lines come already split.
- The SDK loop and the provider: an SDK run is a function from its options to a result that reports no more
  iterations than a positive maximum. Steer bridge, cool-downs, events, audit, heartbeats and clocks.
- `captureOmittedEvidence`, and the text of a missing summary's reason.
- A preflight that prunes the carried history during a turn: the write-back models it, the lemmas about whole
  turns speak of turns without one.
- `stampSDKToolMessageNames`, `sdkCurrentTurnStart` and the partial reply text of a steered stop.
- Go's integers in the meter and the compaction counters are unbounded here; only `Timeouts` models 64 bits.
- Letter folding and white space are ASCII; regular expressions are modelled for the two tag
  patterns and the switch label pattern only.
- `blank_strings=False` in `check_seams.py`: its keep states close on different characters.
- JSON text itself: decoding and encoding are parameters; encoding never fails on what decoding gave. Row
  reduction inside an object envelope, redaction, and content elision.
- `shlex.split` is a parameter; prompts, environment values, regular-expression policies and the exact-flag
  loop of the hook guard.
- A worker's exception in `sweep_diff`, which is raised again and leaves the report unprinted: results are
  collected from sweeps in which every worker returned.

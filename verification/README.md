# dagq, modelled and proved in Dafny

dagq is a queue of tasks that depend on each other. Supervisors claim ready
tasks, sessions work on them in Git worktrees, and `integrate` lands each
finished run as one commit on main. This project models the parts of it whose
correctness is hard to see from one function, and proves what they keep.

`dafny verify dfyconfig.toml` checks everything (Dafny 4.11).

## What is here

- **The dependency view** (`Reachability`, `ClaimGraph`, `ClaimOrder`,
  `ClaimCases`, `DependencyView`, `DependencyMeaning`): the relation `blocks`,
  the worklist that closes it, the inherited priority, the claim order and the
  critical chain; and what the view says in the terms of its input.
- **Time as text** (`Calendar`, `Clock`, `TimestampOrder`, `EventTimes`,
  `TimeReading`): the civil date of a day count, the text `timestamp` writes,
  when that text is in the order of time, the texts `event_time` reads, and the
  instant a text stands for.
- **Migrations** (`MigrationNumbers`, `MigrationOrder`, `Paths`, `Renumbering`,
  `RenumberingMeaning`, `RenumberingRestores`, `RenumberingCases`): the
  numbering of a directory, when a run's migration is moved and where to, and
  that the move restores the numbering.
- **Landing** (`Receipts`, `Landing`, `LandingMeaning`, `LandingStops`,
  `Integration`): the step machine from a receipt to a commit on main, when it
  lands and how it stops otherwise, what it records, and any sequence of such
  steps. `VerifyLogs` and `LogKeys` are about the logs of its commands,
  `FollowUps` and `FollowUpMeaning` about what a landed receipt proposes.
- **Supervisors** (`Supervisors`, `Handoff`, `UpdateWatch`, `UpdateEnds`,
  `SupervisorJoin`, `JoinMeaning`, `LaunchAgent`, `LaunchAgentMeaning`): handing
  them over to another binary, watching them after an update and how that ends,
  reporting them with their leases, and the launch agent they start from.
- **Events and calls** (`EventQueue`, `EventCursor`, `EventWatch`, `Retry`,
  `RetryMeaning`, `ShellQuoting`): paged reads and `watch`, calls made again
  after a timeout, and text handed to a shell.
- `Outcomes`, `Sequences`, `Sets`, `Sorting` and `Text` are what the others share.

The ports (Git, the queue, the files, cmux, processes, the clock) are abstract:
a landing is given everything they answer, as one `Replies` with a set of calls
that fail; a retried call is given how each of its attempts would go, as a
`Script`; the polling loops run against a class whose methods may do anything
their contract allows between two passes. A commit is its tree and its parents,
so equal contents are equal commits, as in Git. Sorting in place is modelled by
what its callers rely on, an ordered permutation.

## Where the code does not promise what one might expect

Each of these has its exact condition, proved for all inputs, and an input that
shows the failure.

- **Claim order.** A task that blocks another is claimed before it exactly when
  its own priority, or that of a ready task outside a draft goal that waits for
  it, is at least the other's own (`ClaimOrder.ClaimOrderAgainstWaiter`). An
  urgent draft ranks ahead of the ready task it waits for
  (`ClaimCases.UrgentDraftRanksFirst`).
- **Timestamps as text.** Two timestamps compare as text as they do in time
  exactly when their years have the same number of digits, or the shorter year
  is not past the leading digits of the longer one
  (`TimestampOrder.TextOrderHoldsExactly`; up to 9999 that is always so). The first time
  of the year 10000 is written before 1970-01-01 (`TimestampOrder.Year10000IsWrittenFirst`).
  `event_time` reads a timestamp back exactly up to the year 9999
  (`EventTimes.TimestampReadsBack`).
- **Renumbering.** A colliding migration is moved and the directory numbered 1
  to n+1 exactly when n < 9999 and the migration lies directly in the directory
  (`RenumberingRestores.RenumberingRestoresNumbers`). At n = 9999 the moved file
  is no migration any more (`RenumberingCases.TenThousandthIsNoMigration`). A
  file further down whose path reads as a migration's name, like
  `0001_b/c.sql`, counts as an added migration; `git mv` refuses it exactly when
  the directory it would go to is not there or the place in it is taken, so the
  landing stops with an error (`RenumberingRestores.NestedIsRefused`,
  `RenumberingCases.NestedMoveFails`). `paths_in` is documented to give the
  files directly in a directory; it lists its subdirectories too, and the model
  follows that.
- **Attempts.** A directory that cannot be read counts as empty. The next
  integration attempt is past every attempt on disk exactly when the directory
  can be read and none of them is the last `u32`, or it cannot and there is none
  but attempt 0 (`VerifyLogs.NextAttemptIsPastAll`, `VerifyLogs.LastAttemptWraps`;
  the sum wraps as a release build's does, a debug build stops there). A log is
  written over exactly when the directory cannot be read and the first attempt's
  log is there, or the last `u32` attempt is there and so is attempt 0's log
  (`VerifyLogs.LogIsWrittenOver`, `VerifyLogs.FirstLogIsWrittenOver`,
  `VerifyLogs.ZerothLogIsWrittenOver`). Below that bound no log is lost over any
  history of attempts exactly when no first attempt's log is in the way of one
  that cannot read the directory (`VerifyLogs.NoLogIsOverwritten`).
- **Cursors.** A read keeps its cursor from falling back exactly when it was
  asked from a place not past the end of its range (`EventCursor.CursorMovesOn`,
  `EventCursor.CursorFallsBack`).
- **Follow-ups.** An entry with a draft is drafted again exactly when its event
  could not be recorded and the next call can add it (`FollowUps.DraftedAgain`,
  `FollowUps.DraftedTwice`).
- **Retries.** No run of a retried call has two effects exactly when the call
  only reads, has one attempt, is never taken for unsent, or the backend both
  shows what got there and settles a timed out call during the backoff
  (`Retry.AtMostOneExactly`, with a run of two effects for every other case in
  `Retry.TwoEffectsHappen`). Of a single run it is enough that every call made
  again had left nothing (`Retry.RightJudgementOnce`).

## Model

| member | source | states |
|---|---|---|
| Reachability.Collect | src/application/mod.rs:358-364 | whichever pending task is taken, the worklist ends with exactly the tasks reachable by one or more steps, with or without cycles |
| Reachability.Waiters | src/application/mod.rs:240-243 | the reference for it: the tasks some path of dependents leads to |
| Reachability.ReachesThrough | src/application/mod.rs:358-364 | waiting is transitive |
| Reachability.WaitersFall | src/application/mod.rs:374-399 | without cycles, a task that waits for another has strictly fewer tasks waiting for it |
| ClaimGraph.GoalMembers | src/application/mod.rs:321-326 | the first loop collects exactly the unfinished members of each goal |
| ClaimGraph.PushUnderPredecessors | src/application/mod.rs:327-344 | one task is added under exactly the open predecessors and the members of unclosed goals it waits for, and nothing else changes |
| ClaimGraph.TidiedKeeps | src/application/mod.rs:345-348 | sorting and removing repeats keeps every dependent and leaves ascending lists |
| ClaimGraph.BlocksTableHolds | src/application/mod.rs:238-240 | the table is the relation: a dependent is listed exactly when it waits for the task |
| ClaimGraph.BuildBlocks | src/application/mod.rs:319-349 | the loops build exactly that table, list by list in the same order |
| ClaimOrder.EffectiveIsHighest | src/application/mod.rs:298-309 | the inherited priority is the highest of its own and those of the ready waiters outside draft goals |
| ClaimOrder.EffectiveOverWaiters | src/application/mod.rs:365-369 | for a task of the graph those are exactly the tasks that wait for it transitively |
| ClaimOrder.ClaimOrderAgainstWaiter | src/application/mod.rs:270-291 | a blocking task releases strictly more; it is claimed first exactly when its own priority, or that of a lifting task that waits for it, is at least the other's own |
| ClaimCases.UrgentDraftRanksFirst | src/application/mod.rs:270-309 | an urgent draft ranks ahead of the ready task it waits for |
| ClaimOrder.ClaimOrderIsTopological | src/application/mod.rs:270-309 | without cycles, whatever blocks a ready task outside a draft goal is at least as urgent, releases more and is claimed strictly first |
| ClaimOrder.Leader | src/application/mod.rs:374-375 | the least by rank: most unblocks, lowest ID on a tie |
| ClaimOrder.CriticalChainFalls | src/application/mod.rs:391-399 | a critical chain is empty or a real path of at least two tasks, along which the releases strictly fall and no task repeats |
| ClaimOrder.CriticalChainIsDetermined | src/application/mod.rs:259-263 | the graph and the goal determine the chain |
| DependencyView.Reach | src/application/mod.rs:352-371 | the table holds each task's number of transitive waiters and its inherited priority over those |
| DependencyView.SortedCandidates | src/application/mod.rs:384-390 | the sorted candidates are the same ones, in claim order |
| DependencyView.CriticalChain | src/application/mod.rs:391-399 | the loop ends on every acyclic graph, with the critical chain |
| DependencyView.DependencyGraphOf | src/application/mod.rs:317-442 | the whole view: every node's blocks, unblocks, priority and open waits; the candidates, all of them without a goal and exactly the goal's tasks with one, as often as they are there and in claim order; and the critical chain |
| DependencyView.CandidatesFollowTheGraph | src/application/mod.rs:252-258 | a candidate that blocks another ready one is printed before it |
| DependencyView.ReadyAfterIsEmpty | src/application/mod.rs:408-422 | a task waits for nothing exactly when every predecessor is finished and every goal it depends on is achieved |
| DependencyView.CandidatesCounted | src/application/mod.rs:384-389 | a candidate is kept as often as it is there without a goal or in it, and not at all outside it |
| DependencyMeaning.ViewTasks | src/application/mod.rs:400-442 | the rows are each task, or each of the goal, once in ID order |
| DependencyMeaning.ViewOrder | src/application/mod.rs:270-291 | the candidates stand by inherited priority, then by the most tasks released, then by ID |
| DependencyMeaning.ViewBlocks | src/application/mod.rs:319-349 | a row's blocks are exactly the direct dependents and those that depend on an unclosed goal it is in, ascending |
| DependencyMeaning.ViewPriority | src/application/mod.rs:352-371 | a row's priority is the highest of its own and the ready waiters' outside draft goals, its count that of all waiters |
| DependencyMeaning.ViewReadyAfter | src/application/mod.rs:408-422 | a row waits for exactly the predecessors still open and the goals not achieved |
| DependencyMeaning.ViewReadyAfterOrder | src/application/mod.rs:408-422 | tasks before goals, each in ascending order |
| DependencyMeaning.ViewChain | src/application/mod.rs:391-399 | the chain starts at the task of the goal that releases most, goes on to the directly blocked one that does and ends where nothing is blocked; it is empty exactly when nobody releases any |
| Calendar.CivilNext | src/application/mod.rs:765-774 | the formula gives a valid date, and the calendar's next day for the next day count, leap years and eras included |
| Calendar.CivilCountsDays | src/application/mod.rs:765-774 | the date is the one counted on from 1970-01-01, and its own day count is the input |
| Calendar.CivilIsInverse | src/application/mod.rs:765-774 | every date from 1970 on is the formula's answer for its day count |
| Calendar.DateAfterKeepsOrder | src/application/mod.rs:765-774 | later day counts are later dates |
| Clock.StampOrder | src/application/mod.rs:761-782 | the fields of two timestamps compare, and agree, exactly as their seconds do |
| Clock.RenderedOrder | src/application/mod.rs:775-781 | with years of one length the fixed-width text compares as the fields, then as the fraction |
| TimestampOrder.TextOrderIsTimeOrder | src/application/mod.rs:761-782 | up to the year 9999 text order is time order, to the millisecond |
| TimestampOrder.SameDigitsInOrder | src/application/mod.rs:761-782 | the same for any two years of one number of digits |
| TimestampOrder.ShorterYearFirst | src/application/mod.rs:775-781 | a shorter year is written before a longer one exactly when it is not past the longer one's leading digits |
| TimestampOrder.TextOrderHoldsExactly | src/application/mod.rs:761-782 | for all times, text order is time order exactly when the years have one length or the shorter is not past the leading digits of the longer |
| TimestampOrder.Year10000IsWrittenFirst | src/application/mod.rs:775-781 | the first time of the year 10000 is later than 1970-01-01 and written before it |
| EventTimes.WellFormedIsRendered | src/watch.rs:154-179 | a text is well formed exactly when it is some time of the years 0000 to 9999 written out with any fraction |
| EventTimes.EventTimeIsStable | src/watch.rs:136-149 | whatever `event_time` answers is well formed and answered unchanged again |
| EventTimes.TimestampReadsBack | src/watch.rs:136-179 | a timestamp is read back unchanged exactly up to the year 9999 and refused after |
| TimeReading.TimestampIsTheInstant | src/application/mod.rs:761-782 | up to the year 9999 the digits of a timestamp are a date and time of day whose milliseconds since 1970 are those of the time written |
| TimeReading.TimeZero | src/application/mod.rs:761-782 | the first time is `1970-01-01T00:00:00.000Z` |
| TimeReading.TrimIs | src/watch.rs:136-137 | trimming takes exactly the blanks off both ends |
| TimeReading.EventTimeExactly | src/watch.rs:136-149 | a time is answered exactly for itself, itself without the `Z` and, a midnight, its bare date, with any blanks around; everything else is refused |
| MigrationNumbers.RenumberedHasNumber | src/migration_numbers.rs:15-32 | a renumbered name is a migration of that number exactly when it fits four digits |
| MigrationNumbers.NumberFitsFourDigits | src/migration_numbers.rs:15-32 | renumbering a migration to its own number gives its own name |
| MigrationNumbers.MigrationIs | src/migration_numbers.rs:15-24 | a file is migration n exactly when it is four digits of n, an underscore, a name and `.sql` |
| MigrationNumbers.RenumberedIs | src/migration_numbers.rs:26-32 | renumbering replaces those digits and keeps the rest |
| MigrationOrder.OrderedFiles | src/migration_numbers.rs:39-100 | Ok exactly when the `.sql` names are one migration for each of 1 to k, then a permutation in number order; otherwise every problem they have and no other |
| MigrationOrder.JudgeAll | src/migration_numbers.rs:50-91 | the loop names exactly what is wrong: shared numbers with their files, gaps before a file, uses of 0000 |
| MigrationOrder.NumberedHasNoProblem | src/migration_numbers.rs:92-100 | a complete numbering has none of the problems |
| MigrationOrder.OtherFilesDoNotMatter | src/migration_numbers.rs:42-49 | a name that does not end in `.sql` leaves the migrations, the misnamed files and the `.sql` files as they are, wherever it stands |
| MigrationOrder.OtherFilesSameAnswer | src/migration_numbers.rs:39-100 | so the answers that are right are the same with it and without |
| Renumbering.InDirectoryOfPath | src/application/integrate.rs:1089-1122 | a file name under the migrations directory is read back from its path |
| Renumbering.AddedAreMigrations | src/application/integrate.rs:1089-1099 | what counts as added is exactly the numbered migrations in the run's tree and not in main's |
| Renumbering.Highest | src/application/integrate.rs:1103-1120 | the next number is judged from the highest one kept |
| Renumbering.RenumberMigration | src/application/integrate.rs:1081-1205 | unchanged exactly without a collision; moved where `git mv` puts it, or refused by Git, exactly for a run with one added migration whose number its other changes do not mention; blocked otherwise with the taken numbers and the next free one |
| RenumberingMeaning.UnchangedExactly | src/application/integrate.rs:1103-1119 | a run is left alone exactly when no migration it adds shares its number with another entry of the directory it did not add |
| RenumberingMeaning.BlockedExactly | src/application/integrate.rs:1120-1172 | a clash goes to a session exactly when the run adds more than one migration or another change of it mentions the number; it is told every clash and the next free number |
| RenumberingMeaning.MovesTo | src/application/integrate.rs:1120-1204 | otherwise that one migration goes, under the rest of its name, to one past the highest number kept |
| RenumberingRestores.ListingIsNumbered | src/migration_numbers.rs:39-100 | whatever order a directory is listed in, the numbering judged is that of its set of files |
| RenumberingRestores.MoveGoesToNext | src/application/integrate.rs:1120-1173 | what becomes of a collision with others numbered 1 to n is a move to n+1 |
| RenumberingRestores.RenumberingRestoresNumbers | src/application/integrate.rs:1120-1204 | a colliding migration is moved and the directory numbered 1 to n+1 exactly when n < 9999 and it lies directly in the directory |
| RenumberingRestores.MoveChangesOneName | src/application/integrate.rs:1173-1184 | a move changes that one file name, and no other path or text |
| RenumberingRestores.DirectIsMoved | src/application/integrate.rs:1120-1184 | Git never refuses a migration directly in the directory: the next number is free there |
| RenumberingRestores.NestedIsRefused | src/infrastructure/adapters.rs:1022-1036 | a migration further down is refused exactly when the directory it would go to is absent or the place in it is taken |
| RenumberingRestores.RenumberAndOrder | src/application/integrate.rs:1081-1205 | after a collision that is renumbered, the build's `ordered` answers Ok with n+1 names exactly where the numbering is restored |
| RenumberingCases.TenThousandthIsNoMigration | src/migration_numbers.rs:15-32 | a collision with 9999 others is moved and leaves the directory without the number 10000 |
| RenumberingCases.NestedMoveFails | src/application/integrate.rs:1089-1184 | a run that adds `0001_b/c.sql` beside `0001_a.sql` collides and is refused |
| Receipts.NothingMissing | src/domain/views.rs:363-372 | no evidence is missing exactly when every required check passed with evidence |
| Receipts.ChecksAcceptSound | src/domain/views.rs:304-372 | the two checks together accept exactly the sound receipts: this run's, successful, every check explained, none failed, the demanded ones passed |
| Receipts.RefusedExactly | src/domain/views.rs:304-352 | `check_requiring` accepts exactly a successful receipt of the run with a commit and a list of follow-ups, whose checks not demanded are explained and not failed |
| Receipts.RefusedTruly | src/domain/views.rs:304-352 | and names a reason that is true of the receipt |
| Landing.Landings.Prepare | src/application/integrate.rs:775-942 | the worktree, receipt and rebase stages stop as decided and have recorded exactly what those before the stop record |
| Landing.Landings.Renumber | src/application/integrate.rs:943-951 | the migration stage takes what `renumber_migration` answers and records a move |
| Landing.Landings.RunCommands | src/application/integrate.rs:983-1040 | the commands run in order up to the first that fails, each recorded with its exit code; none is skipped |
| Landing.Landings.CommitOnMain | src/application/integrate.rs:1041-1048 | main advances to one commit with the source's tree and the old main as parent, or not at all; the run's head is kept under its ref |
| Landing.Landings.LandRebased | src/application/integrate.rs:943-1061 | the half behind the rebase: what it decides, records and puts on main |
| Landing.Landings.Land | src/application/integrate.rs:759-1061 | main moves only with a landed verdict, to exactly the landed commit; the events are exactly those of the stages gone through, and the run's history is kept exactly when it gets as far as its ref |
| LandingMeaning.LandsExactly | src/application/integrate.rs:759-1061 | a run lands exactly when no call on the way fails and every gate holds: sound receipt for the head, clean worktree, rebase on main, migrations, scope, every command 0, main unmoved |
| LandingMeaning.LandedCommit | src/application/integrate.rs:1041-1061 | what lands has main as its only parent and the tree of a head that descends from main: the rebased one or the renaming on top of it |
| LandingMeaning.CommandsPass | src/application/integrate.rs:983-1040 | the commands let the landing go on exactly when each exits 0 |
| LandingMeaning.DeferredTruly | src/application/integrate.rs:769-1040 | every reason a run goes back with is true of it; a failed command is the first that fails |
| LandingStops.DeferredExactly | src/application/integrate.rs:759-1061 | a run goes to a session for a reason exactly when the stages before pass and that gate is the first that does not: for each reason, which answers of the ports that is |
| LandingStops.FailedExactly | src/application/integrate.rs:820-850 | a run fails exactly when its worktree is ready, its receipt is read and it does not report success |
| LandingStops.ErrorMeansTrouble | src/application/integrate.rs:759-1061 | an error needs a failing port, no worktree, a head that does not descend from main, a missing program, a move Git refuses or a moved main |
| LandingStops.RecordedSays | src/application/integrate.rs:775-942 | the undone rebase, the accepted receipt and the rebase are recorded exactly when each was done, however the landing ends |
| LandingStops.RecordedLateSays | src/application/integrate.rs:943-1040 | so are the move and each command that was run, with its number and code |
| LandingStops.HistoryKeptExactly | src/application/integrate.rs:1041-1048 | the run's head is under its ref exactly when every gate before was passed |
| Integration.Integrator.Pick | src/application/integrate.rs:267-303 | a task's run is picked only while none of its runs is integrating, and is the first that can land |
| Integration.PickedExactly | src/application/integrate.rs:267-303 | a task's runs are refused exactly when one is integrating or none can land; else the first that can is picked |
| Integration.Integrator.Begin | src/application/integrate.rs:252-335 | the slot goes to one run that can land exactly when nobody has it, from its bound repository and after its approval is recorded; every refusal is true, exactly a picked run is approved, and any other answer changes no run |
| Integration.Integrator.LandIntegrating | src/application/integrate.rs:341-459 | main and the run's status follow the verdict; an error returns the run to the status it had, a landing that cannot be recorded leaves it integrating |
| Integration.OutcomeIs | src/application/integrate.rs:341-459 | each verdict's outcome and status: landed is integrated, a deferral waits for a session with its reason, a failed receipt fails the run, an error puts it back |
| Integration.Integrator.Integrate | src/compose.rs:440-458 | a run is taken on exactly when the slot is handed out; its outcome and status are those of the landing's verdict on it; a call without a run, or whose error was recorded, leaves the runs and main; one that could not record its outcome leaves one run integrating and main moved by at most its commit; it reports integrated exactly when it recorded a moved main |
| Integration.StepKeepsSound | src/application/integrate.rs:252-459 | every call keeps: one run at most in the slot, each landed run once, integrated runs among the landed, main the line of exactly the landed commits with their sources' trees, each landed run's history under its ref |
| Integration.OthersKeepSound | src/application/integrate.rs:252-459 | so does whatever else happens to runs that are neither integrating nor integrated: added, claimed, validated, resumed, ended |
| Integration.MainStaysStraight | src/application/integrate.rs:341-459 | so over any history of calls and everybody else's moves |
| Integration.EmptyQueueLands | src/application/integrate.rs:252-459 | such a history takes a run from an empty queue to a landed commit |
| VerifyLogs.KeyOfLogName | src/application/integrate.rs:1241-1256 | reading a log's name gives back its attempt and index |
| VerifyLogs.HighestIsHighest | src/application/integrate.rs:1276-1283 | the attempt taken is the highest any log of the directory has |
| VerifyLogs.NextAttemptIsPastAll | src/application/integrate.rs:1258-1283 | the next attempt exceeds all present exactly when the directory can be read and the last `u32` is not among them, or it cannot and all present are 0 |
| VerifyLogs.LastAttemptWraps | src/application/integrate.rs:1276-1283 | with a log of the last `u32` attempt the next attempt is 0 |
| VerifyLogs.NextLogIsFresh | src/application/integrate.rs:1241-1283 | below the bound, none of its log names is in a directory that can be read |
| VerifyLogs.LogIsWrittenOver | src/application/integrate.rs:1241-1283 | a log is written over exactly when the directory cannot be read and the first attempt's log is there, or the last `u32` attempt is there and so is attempt 0's log |
| VerifyLogs.ZerothLogIsWrittenOver | src/application/integrate.rs:1241-1283 | beside a log of the last `u32` attempt, one of attempt 0 is written over |
| VerifyLogs.NoLogIsOverwritten | src/application/integrate.rs:1241-1283 | over any history of attempts below the bound all logs written are distinct and new exactly when no first attempt's log is in the way of one that cannot read the directory |
| VerifyLogs.UnreadableStartsOver | src/application/integrate.rs:1259-1283 | an unreadable directory with a log of attempt 1 has that log written next; read, it would not |
| VerifyLogs.FirstLogIsWrittenOver | src/application/integrate.rs:1259-1283 | a directory with one first log: unreadable, its log is the next one written |
| VerifyLogs.IntegrateLogs | src/application/integrate.rs:1287-1303 | the logs split into the latest attempt's and the earlier ones, each in order, none lost |
| VerifyLogs.KeyedAreLogs | src/application/integrate.rs:1287-1295 | the files considered are exactly the names that are logs |
| LogKeys.KeyIs | src/application/integrate.rs:1241-1256 | a name has a key exactly when it is the numbered log of it or, for attempt 0, the unnumbered one; every other name has none |
| LogKeys.NextAttemptIs | src/application/integrate.rs:1258-1283 | the next attempt is 1 where no log is found and one past the latest otherwise, 0 past the last `u32` |
| LogKeys.KeyedCount | src/application/integrate.rs:1287-1295 | each log is considered as often as it is there, and nothing else |
| LogKeys.OrderIs | src/application/integrate.rs:1296-1303 | logs stand by attempt, then command, then name |
| FollowUps.FollowUpQueue.Register | src/application/integrate.rs:560-743 | the queue after a call: a draft for each valid unregistered entry it could add, with its depth and origin where they could be written, and an event for each it could record, in order |
| FollowUps.WrittenTo | src/application/integrate.rs:619-741 | a call writes for exactly the entries it may, each once |
| FollowUpMeaning.CallWrites | src/application/integrate.rs:560-743 | a call that can read appends exactly those drafts and events, in the entries' order; any other changes nothing |
| FollowUpMeaning.DraftsAre | src/application/integrate.rs:619-716 | the drafts by their fields: trimmed title, description, goal unless closed, depth one more than the task's or 2, origin |
| FollowUpMeaning.EventsAre | src/application/integrate.rs:619-741 | the events by their fields: of a draft, or of an entry skipped for its title or description |
| FollowUps.CallKeepsOnce | src/application/integrate.rs:560-743 | a call whose records succeed keeps at most one draft and one event an entry, whatever `add` refuses |
| FollowUps.CallsRegisterOnce | src/application/integrate.rs:560-743 | so over any number of calls |
| FollowUps.CallChangesNothing | src/application/integrate.rs:560-743 | a call changes nothing exactly when it cannot read or every entry is recorded or cannot be written now |
| FollowUps.NothingLeftExactly | src/application/integrate.rs:560-743 | no further call changes anything exactly when every entry is recorded |
| FollowUps.AllAddedIsFinal | src/application/integrate.rs:560-743 | once every valid entry was added, over any calls and failures of `add`, a further call changes nothing |
| FollowUps.NothingLeftToRegister | src/application/integrate.rs:560-743 | after a full call no later call changes anything |
| FollowUps.DraftedAgain | src/application/integrate.rs:619-741 | an entry with a draft is drafted again exactly when its record failed and it can be added |
| FollowUps.DraftedTwice | src/application/integrate.rs:619-741 | two calls for one entry, the first of which could not record it, leave two drafts |
| Handoff.SeenBackMeans | src/application/lifecycle.rs:882-919 | handed over means the same process, under the new build, fresh, its request cleared, under its own token or one it made after that was gone |
| Handoff.LookAtMeans | src/application/lifecycle.rs:882-919 | each look's answer exactly: gone, waited for, not heartbeating, taken over, or back as something else |
| Handoff.Pass | src/application/lifecycle.rs:873-920 | one pass splits the waiting into done and still waiting, losing none, or fails with what the snapshot shows of one of them |
| Handoff.RequestAll | src/application/lifecycle.rs:862-869 | without an error every live supervisor was asked, once and in order; with one those up to the first that could not be; nobody else is, and a refusal names the one asked last, under whose token no registration takes a handoff then |
| Handoff.WaitForHandoff | src/application/lifecycle.rs:852-939 | on success exactly the live supervisors, each asked and seen back; a failure names a true reason, a timeout once its time has passed with those still waiting |
| Handoff.HandOff | src/application/lifecycle.rs:820-849 | every live supervisor is asked, or all up to the one that could not be; any failure once it could ask cancels every live supervisor's request; none whose cancel worked stays pending, and then no request is left that was not there before |
| UpdateWatch.Pass | src/application/update.rs:560-566 | a pass looks once at each supervisor not decided, and at no other |
| UpdateWatch.Watch | src/application/update.rs:540-572 | each supervisor ends exactly as it would watched alone over the same snapshots, done xor failed, none later than the first snapshot past the deadline, which is the one at or after the timeout |
| UpdateWatch.ExpiryDecides | src/application/update.rs:602-616 | a look past the deadline decides |
| UpdateWatch.NeverBoth | src/application/update.rs:562-616 | nobody is both done and failed |
| UpdateWatch.DecisionStands | src/application/update.rs:559-571 | what is seen after a decision does not change it |
| UpdateWatch.DoneMeansTwoSightings | src/application/update.rs:518-616 | done means two live sightings under one token and the new build, the second with a strictly later heartbeat |
| UpdateEnds.EndsExactly | src/application/update.rs:518-616 | a supervisor is done, or failed with an error, exactly when some snapshot shows it after none before did: a later heartbeat under one token, no registration, a dead process, another build, or the deadline without one |
| UpdateEnds.UndecidedKeeps | src/application/update.rs:574-616 | until then the watch keeps the token last served under and the first heartbeat shown under it |
| UpdateEnds.ObserveDecides | src/application/update.rs:574-616 | one look decides an undecided supervisor just as its snapshot says |
| UpdateWatch.PutBackOnlyWhenAllFailed | src/application/update.rs:366-383 | the old binary goes back exactly when somebody was watched, everybody failed and the replaced build is what is kept; the new one stays exactly when nobody was or somebody runs it |
| Supervisors.WithToken | src/application/update.rs:518-538 | the first registration under a token, or none there |
| Supervisors.WithPid | src/application/update.rs:518-538 | the first registration of a process under a build, or none there |
| Supervisors.ServingIs | src/application/update.rs:518-538 | a supervisor serves under the first registration of its token or, with none there, the first of its process under the build |
| EventCursor.ReadPage | src/watch.rs:79-89 | a page is read up to the limit, the cursor on the last event looked at |
| EventCursor.ReadEvents | src/watch.rs:49-91 | the first kept events of the range in order, and a cursor up to which exactly those were to deliver, though others append to the log before each page |
| EventCursor.GrowthKeepsMatching | src/watch.rs:72-75 | what matches up to the end of a log stays the same when it grows |
| EventCursor.CursorMovesOn | src/watch.rs:49-91 | the cursor stays within the range, and does not fall back exactly when asked from within it |
| EventCursor.CursorFallsBack | src/watch.rs:72-80 | asked from past the end of an empty log, a read falls back |
| EventCursor.MatchingSplits | src/watch.rs:72-80 | the next page starts exactly where the one before ended |
| EventWatch.GrowthKeepsDelivery | src/watch.rs:254-296 | what was to deliver up to the end of a log stays so when it grows |
| EventWatch.ReadDelivers | src/watch.rs:49-91 | a read to the end leaves nothing behind unless it filled its limit |
| EventWatch.Look | src/watch.rs:273-275 | one look delivers what it returns, while others append before it, before each page and after it |
| EventWatch.Watch | src/watch.rs:254-296 | `watch` delivers at most 100 events, all up to its cursor; it reports a change exactly when the role sees one and the first and the last read differ in health; with nothing new it waited its timeout and leaves the cursor |
| EventWatch.PulsesCompareHealth | src/application/health.rs:603-612 | pulses are equal exactly when the reads show the same tokens and pids, alive and stale alike |
| EventWatch.DeliveredAre | src/watch.rs:49-91 | what there is to deliver: the events of the range the filter takes, only attentions for nobody or the inbox where neither kinds nor `all` are asked for |
| EventWatch.WatchDelivers | src/watch.rs:254-296 | `watch` delivers exactly the attentions up to its cursor, in order |
| EventWatch.ReadAtMost | src/watch.rs:49-91 | a read stops at its limit, at least 1, with the cursor on its last event, or at the end |
| EventWatch.PollsDeliverOnce | src/watch.rs:49-296 | any number of polls of a growing log deliver every event between the first and the last cursor once, in order |
| Retry.BackoffDoubles | src/application/recording.rs:251-274 | each backoff is twice the one before, up to the longest duration |
| Retry.WaitedAtMost | src/application/recording.rs:251-275 | all of them together are at most b(2^k - 1) |
| Retry.Backend.Judge | src/application/recording.rs:258-263 | a timeout is judged after the backoff, so a call that got through during it is seen |
| Retry.Backend.Retried | src/application/recording.rs:243-277 | the result, the calls, the attempts on record (1 to k, doubling backoffs, none on the last), the waiting and the unread screens are those of the run: calls go on exactly while one times out, has an attempt left and is judged effect-free |
| Retry.CallsAre | src/application/recording.rs:243-277 | every call but the last was a timeout judged effect-free with an attempt left, and the last was not |
| RetryMeaning.RunExactly | src/application/recording.rs:243-277 | the run of a call is the only one there is: calls made again after a timeout that left nothing, and what the last one comes back as |
| RetryMeaning.RecordedAre | src/application/recording.rs:251-277 | the attempts on record, each with its number and doubled backoff, the last without |
| RetryMeaning.WaitedExactly | src/application/recording.rs:251-275 | k backoffs take b(2^k - 1) while none reaches the longest duration |
| Retry.EffectFreeExactly | src/application/recording.rs:263-273 | a failure is handed back as effect-free exactly when every attempt was made, timed out and was judged so |
| Retry.WaitsAtMost | src/application/recording.rs:250-276 | a run waits at most b(2^(n-1) - 1) |
| Retry.RightJudgementOnce | src/application/recording.rs:235-242 | a run has at most one effect if every call made again had left nothing |
| Retry.TwoEffectsHappen | src/application/recording.rs:243-277 | a typing taken for unsent that got there after all is made twice |
| Retry.AtMostOneExactly | src/application/recording.rs:235-277 | no run has two effects exactly for a read, a single attempt, a typing never taken for unsent, or a backend that shows what got there and settles calls during the backoff |
| Retry.SendText | src/application/recording.rs:337-353 | a text is typed at most once when a screen without a trace of it is right; the result is that of the run |
| Retry.SendExitWhen | src/application/recording.rs:391-407 | an exit comes back as not sent exactly when every attempt timed out on a screen that shows it was not |
| ShellQuoting.ScanShellQuote | src/application/naming.rs:19-21 | a quoted argument adds exactly itself to the word it stands in |
| ShellQuoting.WordsOfShellJoin | src/application/naming.rs:12-21 | a POSIX shell takes the joined text apart into exactly the arguments, for every list |
| ShellQuoting.ShellJoinIsInjective | src/application/naming.rs:12-17 | no two lists are joined to one text |
| LaunchAgent.EscapeStep | src/application/lifecycle.rs:1604-1608 | the three replacements together escape each character on its own |
| LaunchAgent.EscapedHasNoMarkup | src/application/lifecycle.rs:1604-1608 | escaped text holds no `<` and no `>` |
| LaunchAgent.UnescapedEscape | src/application/lifecycle.rs:1604-1608 | escaped text stands for the text (section 2.4 of XML 1.0), so escaping is injective |
| LaunchAgent.Xml | src/application/lifecycle.rs:1559-1601 | the buffer ends with the property list of the spec |
| LaunchAgentMeaning.ListSays | src/application/lifecycle.rs:1559-1601 | label, directory, the two switches, the day to end in and both outputs are in the list under their keys |
| LaunchAgentMeaning.ListArguments | src/application/lifecycle.rs:1569-1574 | the program arguments are the array under their key, in order |
| LaunchAgentMeaning.ListVariables | src/application/lifecycle.rs:1579-1588 | the environment holds the path, and the password exactly when there is one |
| LaunchAgentMeaning.ListKeys | src/application/lifecycle.rs:1559-1601 | the keys of the list, in order, each once |
| LaunchAgentMeaning.LinesAsWritten | src/application/lifecycle.rs:1559-1601 | a line is its tabs and its element or markup |
| LaunchAgent.KeyInLines | src/application/lifecycle.rs:1559-1601 | a key's start is found only where a line is that key, whatever the contents |
| LaunchAgent.PatternIsExact | src/application/lifecycle.rs:763-773 | the substring is in a written list exactly when the first program argument is the binary, for all labels, arguments, paths and passwords |
| LaunchAgent.TakesHandoffMeans | src/application/lifecycle.rs:750-773 | with such a list: everybody takes a handoff, and a launchd supervisor is among them only if its agent starts this binary; without a file, only if there is none |
| SupervisorJoin.JoinSupervisors | src/application/health.rs:547-601 | registrations in order, then one entry for each unregistered token by first lease, each with its runs in lease order; the runs of all entries are those of the leases |
| JoinMeaning.RegistrationRow | src/application/health.rs:553-575 | a registration's row field by field, its age and staleness, and the runs of the first of its token |
| JoinMeaning.LeasesRow | src/application/health.rs:576-599 | the row of an unregistered process field by field, under the latest of its leases |
| JoinMeaning.RunsOfAre | src/application/health.rs:587-588 | the runs of a token are each leased run once, in lease order |
| SupervisorJoin.AddLease | src/application/health.rs:576-599 | one lease changes only the first entry of its token, or opens one |
| SupervisorJoin.FirstLeasesCover | src/application/health.rs:577-586 | an unregistered token has exactly one entry |
| SupervisorJoin.FirstLeasesInOrder | src/application/health.rs:577-586 | those entries stand in the order of their first leases |
| SupervisorJoin.EveryLeaseHasItsEntry | src/application/health.rs:547-601 | with distinct registration tokens exactly one entry has a lease's token, and its runs are those leased under it, in order |
| SupervisorJoin.StaleWhenEveryLeaseIs | src/application/health.rs:541-598 | an unregistered process is stale exactly when every lease of it is |

## Left out

- The adapters for SQLite, Git, cmux, launchd, processes and files, the
  supervisor's own loop and every JSON report: only what the ports answer is
  modelled.
- A commit's message and time: a commit is its tree and parents.
- The text of reasons, events and prompts; the model keeps which reason it is
  and what it is about.
- Path globs: a task's paths are the set of paths they allow.
- Load sampling, the environment of commands, and why a command failed.
- `advance_main` is a compare-and-set of the ref; for a repository with main
  checked out the adapter gets there by a fast-forward merge.
- Directories Git does not track: a directory is there when a file of the tree
  is below it. That no file of a tree is a directory too is assumed of Git.
- Bytes: text is a sequence of characters, and an XML reader's own
  normalisation of line ends and control characters is not modelled.
- `text_on_screen`: which screens show a text is a parameter of the retry.
- A poll's registrations in `EventQueue.Queue.Registrations` are arbitrary; the
  proof does not use how they change.
- Recovery of a run that is integrating: in a history of `Integration` only
  calls of `integrate` change such a run.
- Recovery of other crashed runs, sessions, planners, the inbox, statistics and
  health attention: sequences of port calls with no state of their own here.
- Handoff.HandOff: says nothing of a request whose cancel failed; the code goes on
  past it.
- DependencyView.DependencyGraphOf: asks for tasks in ID order without a cycle,
  which the queue guarantees; on a cycle the critical chain's loop may not
  end.

# Protocols of the emergency operations server, modelled and proved

The server keeps boards of records for emergency operations: records move
through workflows, their writes set off actions and enter a sync log, people
sign in with a second factor, texts from the field become log entries, and
everything is exported, paged and forwarded. This project models the parts of
it that are protocols or algorithms and proves what they promise. PostgreSQL is
abstract state: a table is a map, a set or a sequence, and a transaction is one
step, or several where another transaction can come between.

Where the source changes state step by step there is a class with its fields
(`WorkflowTables.Tables`, `SyncWriters.Scope`, `ActionRunner.Runner`,
`CacheProcess.Cache`, `MfaTables.Tables`, `RateLimit.Throttle`,
`SyslogSend.Sink`, `SmsReader.Reader`) or a method with a loop, each proved
against a specification function; the theorems are lemmas about every run of
that specification.

| files | part of the server |
|---|---|
| `Workflow`, `WorkflowHistory`, `WorkflowSafety`, `WorkflowLaws`, `WorkflowTables` | a record's workflow: requests, approvals, endings, escalations, stored answers |
| `Actions`, `ActionRunner` | chains of board actions that set each other off |
| `RecordSync`, `SyncWriters` | the continuing writer of a scope's sync log |
| `Keyset`, `Pages`, `ViewWalk`, `Conditions` | paged views and chronology, the view's conditions in SQL and in the filter |
| `ForceAccount` | worked time merged into islands and cut into days |
| `PrincipalCache`, `CacheProcess`, `Mfa`, `MfaTables`, `Base32`, `RateLimit` | sign-in state |
| `Csv`, `CanonicalJson`, `JsonText`, `Syslog`, `SyslogSend` | printed and parsed formats, audit forwarding |
| `Sms`, `SmsLaws`, `SmsBudget`, `SmsReader`, `SmsTags` | inbound texts as activity entries |
| `Base` | options, results, blanks and trimming |

## What the environment decides

- Workflow: whether the actor may act, approve, escalate, whether the requester
  still may, whether the guard is met, what an assignment resolves to and when
  a transition is due are verdicts carried by each call. The digest of a
  command is the command.
- Actions: the actions of a board, the conditions and what a step does to the
  database are functions of a `World`. A step sees the database as it is by then
  and the record as its write left it, which is read once for all the actions
  the write sets off. A refused step may have written anything before it is
  rolled back.
- Second factor: recovery codes drawn at an enrolment are none drawn before, and
  a challenge's token is none issued before.
- Clocks and random draws are parameters. Local midnights and the date shown at
  an instant are two functions. The order of a column's values, case tables and
  reading a time from text are functions too.
- The prune of a full table keeps or drops whatever it likes; results say what
  must not have been dropped.

## Where a promise has an exact edge

- **Sync log** (`RecordSync.CallbackIsSafeExactlyWhenRowCommitted`,
  `RecordSync.SavepointRollbackLeavesGap`). A writer's clocks can get a gap: a
  transaction writes once, writes again inside a savepoint, rolls the savepoint
  back and commits; the first write's commit callback then confirms the writer,
  whose document is already past the clock that was rolled back. The callback
  looks at nothing but the writer object. The log stays gapless from a callback
  on if and only if the writer's last row is in the committed log when the
  callback runs. Where callbacks run before the next transaction takes the lock,
  that can be judged at the commit: the log can be kept gapless if and only if a
  transaction that holds a callback of the scope's writer still sees the
  writer's last row when it commits (`RecordSync.CommitIsSafeExactly`), whatever
  inserts were lost and whatever savepoints were rolled back before
  (`RecordSync.PromptRunsAreGapless`).
- **Force account** (`ForceAccount.HoursConserveTime`,
  `ForceAccount.RepeatedMidnightLosesTime`). Hours summed over the days equal
  the covered time if and only if, for every island, the day of the date shown
  at its start has begun by then and the day of the date shown at its end has
  not ended. A clock loses nobody's time if and only if every instant lies within
  the day shown at it or is that day's end
  (`ForceAccount.HoursConserveOnPlainClocks`). Where a clock change repeats midnight, the date is shown an hour
  before its day begins, and a span that begins in that hour loses the rest of it.
- **Uploads** (`Csv.UploadRestoresExactly`, `Csv.ParsedPrintedExactly`). An
  exported table comes back as it was if and only if no text cell under a header
  itself begins with a quote and a formula character, since undoing the guard
  strips that quote. Printed rows parse back as they are if and only if each has
  a cell and the text does not open with a bare byte order mark.
- **Conditions** (`Conditions.OpAdmitsExactly`, `Conditions.LeafLosesExactly`,
  `Conditions.SetsLoseNoneExactly`, `Conditions.MissingIsLost`,
  `Conditions.AddedIsLost`). The page query does not admit every row the filter
  keeps. An `in` list with the word "undefined" or "null" matches a missing value
  in the filter and not in SQL. A number's or an object's text and a time may read
  differently in JavaScript and PostgreSQL. And the filter reads records that
  hold more than the board's fields, the id, times and names the page adds and
  what every object inherits, while the SQL takes such a name for absent:
  `createdAt` is not empty, or `id` is this one, keeps rows in the filter and
  loses them in the query. One condition loses a row exactly in these ways, and
  the sets and groups that can be made of some conditions lose no row of a board
  if and only if each of them is safe from all three, for the values its field
  may store and the page's record may hold under its name.
- **Canonical JSON** (`CanonicalJson.CanonicalExactly`,
  `CanonicalJson.LoneHoleCollides`, `JsonText.CanonicalReadsBackExactly`).
  `[undefined]` prints as `[]`. That is the only collision. The text is JSON of
  the value if and only if no array has a missing item, since such an item
  prints as nothing.
- **Texts** (`Sms.FiledIsLoggedExactly`, `Sms.FilingCountsExactly`,
  `Sms.TwentyExactlyWithoutNotes`, `Sms.FiledButKeptAsFailed`). The note that a
  text failed is kept without the reader lock, so a reader that fails while
  another files the same text can leave the filed entry's text marked failed:
  one row and one record, but they disagree. It happens exactly when the note is
  there before the filing commits, and such a filing does not count against the
  hourly limit. An hour holds at most twenty texts filed or answered for a number
  beyond those filed although noted as failed; that is reached, and any number
  of noted filings, twenty-one say, can stand in one hour with none counted. The
  limit of twenty itself is kept if and only if there are none.
- **The gateway's budget** (`SmsBudget.BudgetExactlyOneAtATime`,
  `SmsBudget.BudgetIsReached`). Replies and confirmation codes share three hundred
  an hour, but a request for a code counts them without the reader lock, and
  neither sees what the other has counted and not committed. With at most `m`
  such transactions under way an hour sees at most `299 + m` sent, which is
  reached; the budget is kept if and only if `m` is at most 1. Replies alone stay
  within it (`Sms.HourlyLimits`).
- **Second factor** (`Mfa.StepsRiseExactlyWithoutLateChallenges`,
  `Mfa.LateChallengeRepeatsStep`). A sign-in reads the active secret in one
  statement and takes the factor's row in another that checks neither the secret
  nor that it is active. Between them a reset and a new enrolment may fall; the
  sign-in then fails because the reset has deleted its challenge. Accepted steps
  rise under each secret if and only if no challenge is issued between a reset's
  deletion of the challenges and its deletion of the factor.
- **Login backoff** (`RateLimit.FiveExactlyOneAtATime`,
  `RateLimit.BoundIsReached`). An attempt checked before another fails is not
  held back by it. With at most `m` attempts of a key pending at once, thirty
  seconds hold at most `m + 4` failures since the key's last success, and a run
  that reaches that many exists for every `m` above 0; the bound of five is kept if and only if `m` is at
  most 1.
- **Incident tags** (`SmsTags.SuggestionWorksExactly`). The suggested tag picks
  its incident if and only if the compacted name is not empty and begins no
  other incident's.

The comment above `writerFor` (server/src/boards/record-sync.ts:62-72) says that
a write that rolled back takes its writer with it; the code does so only when
the writer is still unconfirmed, and the model follows the code.

## Model

| member | source | states |
|---|---|---|
| `WorkflowTables.Tables.Perform` | server/src/boards/workflow-runtime.ts:153-373 | a command is one transaction: its rows and answer are the specification's step, and a refusal puts every row back |
| `WorkflowTables.Tables.Attempt` | server/src/boards/workflow-runtime.ts:838-872 | a key with a stored answer returns it for the same command and refuses any other; otherwise the command acts and its answer is stored |
| `WorkflowTables.Tables.LoadForWrite` | server/src/boards/workflow-runtime.ts:375-413 | a started record uses its pinned template, an unstarted one is started on the board's current one, and both ways of failing change nothing |
| `WorkflowTables.Tables.RequestTransition` | server/src/boards/workflow-runtime.ts:164-204 | every check in order, then a pending request or, without approval rules, the completion |
| `WorkflowTables.Tables.ApproveTransition` | server/src/boards/workflow-runtime.ts:217-260 | an approval is filed once per rule and person under the revision to come, and the last one needed completes |
| `WorkflowTables.Tables.WithdrawTransition` | server/src/boards/workflow-runtime.ts:279-313 | the requester cancels or a possible approver rejects; the revision is spent and the state stays |
| `WorkflowTables.Tables.ProcessEscalation` | server/src/boards/workflow-runtime.ts:326-373 | a due occurrence is recorded against the last completion unless it is recorded already |
| `WorkflowTables.Tables.CompleteTransition` | server/src/boards/workflow-runtime.ts:719-774 | the row moves to the target state at the next revision with every pending field cleared |
| `WorkflowHistory.LogReplays` | server/src/boards/workflow-runtime.ts:789-812 | one more event takes the replayed machine one step on, and a permitted one keeps the history lawful |
| `WorkflowHistory.CompleteKeeps` | server/src/boards/workflow-runtime.ts:741-769 | a completion recorded for a request whose rules have their approvers keeps the row equal to the replay of its history |
| `WorkflowHistory.RequestKeeps` | server/src/boards/workflow-runtime.ts:165-201 | a request, pending or completed at once, keeps the row equal to the replay of a lawful history |
| `WorkflowHistory.ApproveKeeps` | server/src/boards/workflow-runtime.ts:217-257 | an approval keeps it, and completes only once each rule has enough distinct people filed under this request's revision |
| `WorkflowHistory.WithdrawKeeps` | server/src/boards/workflow-runtime.ts:299-308 | a rejection or cancellation keeps it |
| `WorkflowHistory.BackMatches` | server/src/boards/workflow-runtime.ts:262-267 | after an ending no approval is filed under the revision the next request will use |
| `WorkflowHistory.EscalateKeeps` | server/src/boards/workflow-runtime.ts:343-370 | an escalation keeps it and is filed under the completion it follows |
| `WorkflowHistory.StepKeeps` | server/src/boards/workflow-runtime.ts:153-413 | every command keeps the rows consistent and the record on its template key and version |
| `WorkflowHistory.RunKeeps` | server/src/boards/workflow-runtime.ts:153-413 | so does every run of commands |
| `WorkflowSafety.LawfulPath` | server/src/boards/workflow-runtime.ts:741-769 | in a lawful history the completions form a path from the initial state to the current one, and the revision counts the endings |
| `WorkflowSafety.CompletionRests` | server/src/boards/workflow-runtime.ts:244-257 | each completion follows one request with nothing asked or ended between, each rule approved there by enough people, the requester only where the rule allows it |
| `WorkflowSafety.EscalatedOnce` | server/src/boards/workflow-runtime.ts:345-354 | no completion's rule and occurrence appears twice |
| `WorkflowSafety.RunFollowsPath` | server/src/boards/workflow-runtime.ts:153-373 | in every run the stored state ends the path of completions from the pinned initial state, and the stored revision is the number of endings |
| `WorkflowSafety.RunPending` | server/src/boards/workflow-runtime.ts:180-197 | in every run the pending fields are all set or all empty, and a pending transition starts at the stored state and leads to the stored target |
| `WorkflowSafety.RunCountsOwnApprovals` | server/src/boards/workflow-runtime.ts:217-257 | in every run each completion counts approvals recorded for its own request and no other |
| `WorkflowSafety.RunEscalatesOnce` | server/src/boards/workflow-runtime.ts:343-369 | in every run an escalation occurrence of a completion takes effect at most once, whatever keys asked |
| `WorkflowSafety.RepeatChangesNothing` | server/src/boards/workflow-runtime.ts:838-872 | a command answered once is answered the same after any other commands and changes nothing; another command under its key is refused |
| `WorkflowSafety.UpgradesChangeNothing` | server/src/boards/workflow-runtime.ts:388-410 | once started, a record's runs are the same whatever templates are published and whatever template its board moves to |
| `WorkflowLaws.RunPendingIsShort` | server/src/boards/workflow-runtime.ts:247-257 | in every run of published templates a pending request is short: among the events since it was asked some rule of its transition lacks people, so a request that has its quorum does not wait |
| `WorkflowLaws.ApprovalIsTakenExactly` | server/src/boards/workflow-runtime.ts:217-260 | an approval is taken if and only if the call and the events since the request allow it, and completes the request, with the row at the target and the history ending in the completion, if and only if with it every rule has its people; otherwise the row stays as it is |
| `WorkflowLaws.ApprovalRefusals` | server/src/boards/workflow-runtime.ts:217-241 | which refusal an approval meets: not awaited, no such rule, not this person, no longer or already so |
| `WorkflowLaws.RequestIsTakenExactly` | server/src/boards/workflow-runtime.ts:164-204 | a request is taken if and only if nothing waits, it leads from the stored state, and actor, guard, assignment and due date allow it; it then waits with its fields, or is completed where no one need approve |
| `WorkflowLaws.WithdrawalIsTakenExactly` | server/src/boards/workflow-runtime.ts:279-313 | a cancellation is taken from the requester alone, a rejection from whoever could approve one of the rules; the state stays, the revision is spent, nothing is pending |
| `WorkflowLaws.EscalationIsTakenExactly` | server/src/boards/workflow-runtime.ts:326-373 | an escalation is taken if and only if its occurrence is due by the schedule of the transition taken last; it is recorded under the last completion unless the events since have it already, which changes nothing |
| `WorkflowLaws.EscalationRefusals` | server/src/boards/workflow-runtime.ts:326-341 | which refusal an escalation meets: not this actor, nothing scheduled, no such rule, no such occurrence, not due |
| `WorkflowLaws.AnswerIsTheRow` | server/src/boards/workflow-runtime.ts:198-203 | the answer to a first command is what the row it leaves says |
| `SyncWriters.Scope.ServerClientId` | server/src/boards/record-sync.ts:38-41 | the id is above every one issued before |
| `SyncWriters.Scope.GetWriter` | server/src/boards/record-sync.ts:83-103 | a confirmed writer or one whose last row is in the log goes on; any other is replaced by one with a fresh id at clock 0 |
| `SyncWriters.Scope.AppendWrite` | server/src/boards/record-sync.ts:135-185 | the document moves first, the writer forgets its row and is unconfirmed, then the row and its commit callback follow |
| `SyncWriters.Scope.TakeLock` | server/src/boards/record-sync.ts:84 | one transaction at a time appends to a scope |
| `SyncWriters.Scope.OpenSavepoint` | server/src/db/context.ts:52-57 | a savepoint collects rows and callbacks of its own |
| `SyncWriters.Scope.ReleaseSavepoint` | server/src/db/context.ts:52-60 | releasing gives both to what is around it |
| `SyncWriters.Scope.RollbackSavepoint` | server/src/db/context.ts:46-57 | rolling back drops both, and leaves the in-memory writer as it was |
| `SyncWriters.Scope.CommitTransaction` | server/src/db/context.ts:23-43 | the rows enter the log and the callbacks become due |
| `SyncWriters.Scope.RollbackTransaction` | server/src/db/context.ts:29-35 | rows and callbacks are dropped |
| `SyncWriters.Scope.RunDueCallback` | server/src/boards/record-sync.ts:171-175 | a callback confirms its own writer and no other |
| `RecordSync.WriteKeeps` | server/src/boards/record-sync.ts:83-103 | a write, taken or lost, keeps the writer level with the rows where its last row is among them and ahead of them where it is not |
| `RecordSync.NextKeeps` | server/src/boards/record-sync.ts:83-185 | every step keeps that, a callback if it is safe |
| `RecordSync.SafeRunsAreGapless` | server/src/boards/record-sync.ts:62-72 | over appends, savepoints, rollbacks and commits in any order, each client's clocks in the committed log start at 0 and continue one another while callbacks are safe |
| `RecordSync.CallbackIsSafeExactlyWhenRowCommitted` | server/src/boards/record-sync.ts:170-175 | the log can be kept gapless after a callback if and only if it finds its writer's last row committed |
| `RecordSync.SavepointRollbackLeavesGap` | server/src/boards/record-sync.ts:154-175 | a concrete run that leaves a gap |
| `RecordSync.PromptRunsAreGapless` | server/src/boards/record-sync.ts:62-72 | whatever inserts were lost and whatever savepoints were rolled back, the committed log is gapless in every run whose callbacks come before the next transaction and whose commits that hold a callback of the writer still see the writer's last row |
| `RecordSync.CommitIsSafeExactly` | server/src/boards/record-sync.ts:154-175 | once a commit's callbacks have run, the log can be kept gapless if and only if the commit met that condition |
| `RecordSync.UnkeptWriterIsReplaced` | server/src/boards/record-sync.ts:86-101 | a writer neither confirmed nor in the log gives way to a strictly larger id at clock 0; any other goes on from its clock |
| `RecordSync.ReleaseHandsOn` | server/src/db/context.ts:52-60 | a released savepoint's rows and callbacks follow those of the frame around it |
| `RecordSync.RollbackToLosesTop` | server/src/db/context.ts:46-57 | a rolled back savepoint takes its own rows and callbacks with it and nothing else |
| `RecordSync.KeptWriteAdds` | server/src/boards/record-sync.ts:135-185 | a write that is kept adds one row, at the writer's clock, and its callback to the innermost frame |
| `ActionRunner.Runner.RunBoardActions` | server/src/boards/actions.ts:66-120 | the record is read once, the loop ends, and does to the chain what the recursive specification says, aborting when it does |
| `ActionRunner.Runner.RunAction` | server/src/boards/actions.ts:98-118 | one action: stopped, refused or done, each with its record, then what it set off |
| `ActionRunner.Runner.RunStep` | server/src/boards/actions.ts:108-116 | a step works on the database by now and the record as read before the loop; a refused one leaves the database as it was |
| `Actions.RecordKeeps` | server/src/boards/actions.ts:98-107 | a record that follows the trail keeps the chain orderly and its set of identities that ran exact |
| `Actions.RunAllKeeps` | server/src/boards/actions.ts:66-120 | at every depth a write's actions whose condition holds leave one record each in order, every done run is followed by the same for each of its own writes, the chain stays orderly, and the database is what the done runs made of it, each on the record as its write left it |
| `Actions.SetOffExactly` | server/src/boards/actions.ts:83-95 | an action of the board is set off, as often as the board has it, if and only if the write is a creation it waits for, a change to its field or an entry into its state, and its condition holds for the record |
| `Actions.SetOffInOrder` | server/src/boards/actions.ts:83-95 | and in the board's order |
| `Actions.RunAllEnds` | server/src/boards/actions.ts:111-116 | only a step that fails other than by a refusal aborts a chain |
| `Actions.ExecutesOnce` | server/src/boards/actions.ts:98-107 | no board and action pair executes twice in a chain, and none below the limit of depth |
| `Actions.SetOffByDoneRun` | server/src/boards/actions.ts:117-118 | every run below the top has a done parent one level up whose write is its cause |
| `Actions.ChainIsSound` | server/src/boards/actions.ts:66-120 | the whole chain of a person's write: orderly, for each action that the write, and each write of a done run at any depth, sets off by its own trigger and condition a record under that cause, each run ended as its step did, and only done runs change the database |
| `Keyset.KeysetClause` | server/src/boards/service.ts:905-915 | the clause built from the last key outwards admits exactly the rows the view lists strictly after the cursor, each key in its direction, then newest first, then by id |
| `Keyset.BeforeIsFrom` | server/src/boards/service.ts:906-913 | deciding by the first differing column is deciding column by column |
| `Keyset.BeforeMeans` | server/src/boards/service.ts:923-931 | at the first column in which two rows differ an ascending column puts the smaller value first and a descending one the larger; rows equal in every column are listed newest first, then by the larger id |
| `Keyset.BeforeIsTotal` | server/src/boards/service.ts:923-931 | the view's order is strict, transitive and leaves no two rows unordered |
| `Pages.PageCovers` | server/src/boards/service.ts:925-934 | a page is the rows from its cursor up to the next cursor, all of them and in order; without a next cursor, all that are left |
| `Pages.PageConsumes` | server/src/audit/service.ts:122-162 | what is left after the next cursor is what was left less the page |
| `Pages.WalkAscends` | server/src/boards/service.ts:900-934 | a walk over changing tables returns rows in strictly rising order, each of them from one of the tables read |
| `Pages.WalkReaches` | server/src/boards/service.ts:900-934 | a finished walk returns every row that was there throughout |
| `Pages.WalkReturnsOnce` | server/src/audit/service.ts:107-163 | a finished walk returns such a row exactly once and no row twice, whatever happens to others |
| `Pages.WalkEnds` | server/src/audit/service.ts:159-162 | once rows stop changing a walk ends within one page per `limit` rows left |
| `Pages.ExportAll` | server/src/audit/service.ts:92-105 | the page-by-page export ends and holds every row once, in order |
| `ViewWalk.ViewOrderIsLinear` | server/src/boards/service.ts:923-931 | the view's order meets what paging needs |
| `ViewWalk.ViewWalkReturnsOnce` | server/src/boards/service.ts:896-971 | walking a view returns each row, a record with the keys it has, exactly once if it keeps both keys and scope, and none twice |
| `Conditions.ConditionSetSql` | server/src/boards/service.ts:1020-1037 | the predicate joined in a loop is true for a row when one, or each, of the set's entries admits it; nested sets keep their own match and zone |
| `Conditions.TextsMean` | shared/src/boards/view.ts:219-224 | `contains`, `starts_with` and `eq_ignore_case` hold for a scalar whose folded text has the folded words somewhere, at its start, or is them |
| `Conditions.NumbersMean` | shared/src/boards/view.ts:225-231 | a number is compared with its bounds counted in, but for greater and less |
| `Conditions.TimesMean` | shared/src/boards/view.ts:244-254 | a time condition admits from its first instant up to, and not including, its last |
| `Conditions.OpIsExact` | server/src/boards/service.ts:1044-1095 | for a value whose text and time both sides read alike, the SQL of an operator is true just where the filter holds, if and only if no `in` or `not_in` list names the missing value by its word |
| `Conditions.OpAdmitsExactly` | server/src/boards/service.ts:1044-1095 | for each operator and stored value the SQL is true wherever the filter holds, exactly unless an `in` list names a missing value by its word or the two sides read the value's text or time so that only the filter's reading meets the condition |
| `Conditions.LeafLosesExactly` | server/src/boards/service.ts:935-960 | a condition holds for what the page's record shows and its SQL does not admit the row exactly in those ways or when it holds for what the record has beside its fields where the SQL judges an absent field |
| `Conditions.SetAdmits` | server/src/boards/service.ts:1014-1037 | a whole set of safe conditions admits every row it holds for, though SQL's truth may be unknown |
| `Conditions.SetsLoseNoneExactly` | server/src/boards/service.ts:1014-1060 | the sets and groups made of some conditions, in whatever zones, lose no row of the board if and only if each of the conditions is safe |
| `Conditions.QueryLosesNothing` | server/src/boards/service.ts:946-948 | with safe conditions, filtering what the query admits is filtering every row |
| `Conditions.MissingIsLost` | server/src/boards/service.ts:1068 | an `in` list with "undefined" loses the row without the field |
| `Conditions.AddedIsLost` | server/src/boards/service.ts:1059-1060 | a name the page adds loses the row, asked for as not empty or as its own text |
| `ForceAccount.MergedIsIslands` | server/src/damage/force-account.ts:237-249 | the running maximum and island numbers give islands apart by positive gaps that cover the same instants |
| `ForceAccount.MergedKeeps` | server/src/damage/force-account.ts:237-249 | so for spans in any order, and the islands' lengths add up to the time covered |
| `ForceAccount.SpanConserves` | server/src/damage/force-account.ts:250-256 | an island's pieces make it up exactly when the dates shown at its ends fit the days |
| `ForceAccount.HoursConserveTime` | server/src/damage/force-account.ts:214-264 | hours over the days equal the covered time if and only if those dates fit for every island, are never more, and no day exceeds its length |
| `ForceAccount.DayHoldsItsTime` | server/src/damage/force-account.ts:250-263 | where those dates fit, a day's hours are the instants covered of that very day, and never more anywhere |
| `ForceAccount.SummaryConservesTime` | server/src/damage/force-account.ts:222-264 | so for a person's check-ins and shifts: the instants covered are those a closed check-in holds, or a past shift that no closed check-in overlaps |
| `ForceAccount.HoursConserveOnPlainClocks` | server/src/damage/force-account.ts:250-264 | a clock loses no time of any spans if and only if every instant lies within the day shown at it or is that day's end |
| `ForceAccount.ShiftsNeverOverlapCheckIns` | server/src/damage/force-account.ts:228-236 | a shift counts only if it is past and no closed check-in overlaps it |
| `ForceAccount.UncoveredExactly` | server/src/damage/force-account.ts:229-236 | a shift counts, as often as it is there, if and only if it has ended by now and every closed check-in ends by its start or begins at or after its end |
| `ForceAccount.ClosedExactly` | server/src/damage/force-account.ts:223-227 | and a check-in if and only if it is closed |
| `ForceAccount.RepeatedMidnightLosesTime` | server/src/damage/force-account.ts:250-256 | every span that begins in the hour before a repeated midnight loses the rest of that hour |
| `CacheProcess.Cache.Lookup` | server/src/auth/principal-cache.ts:32-39 | a live entry is served; any other is dropped and the load starts at the current generation |
| `CacheProcess.Cache.Loaded` | server/src/auth/principal-cache.ts:40-51 | a load is kept only if nothing was forgotten since it began, until the earliest of its limits |
| `CacheProcess.Cache.Forget` | server/src/auth/principal-cache.ts:54-65 | no entry of the changed session, or person, is left, every other stays, and the generation rises |
| `PrincipalCache.EarliestBounds` | server/src/auth/principal-cache.ts:44-48 | the expiry is the least of the cache's limit, the access expiry and each guest grant's |
| `PrincipalCache.LoadIsKeptExactly` | server/src/auth/principal-cache.ts:40-51 | a loaded principal is served again if and only if the cache is on, nothing was forgotten since the load began and none of its limits has passed; other entries stay unless the table was full |
| `PrincipalCache.ForgetsExactly` | server/src/auth/principal-cache.ts:54-65 | what a session's change leaves is exactly the entries of other sessions, and a person's those of other persons |
| `PrincipalCache.RunKeeps` | server/src/auth/principal-cache.ts:28-65 | in every interleaving entries and loads are no older than what was forgotten allows |
| `PrincipalCache.EveryAnswerIsFresh` | server/src/app.ts:338-363 | a request that begins after a forget gets a principal read after the change that was forgotten, and no hit outlives any of its expiries |
| `PrincipalCache.HitIsFresh` | server/src/auth/principal-cache.ts:32-37 | an answer from the cache was read after every change of its session or person that was forgotten before, and stands within every limit |
| `PrincipalCache.LoadIsFresh` | server/src/auth/principal-cache.ts:38-52 | an answer to a load was read after every such change forgotten before the load began |
| `MfaTables.Tables.IssueChallenge` | server/src/auth/mfa.ts:159-166 | the person's expired challenges go, then there is a fresh unused one |
| `MfaTables.Tables.ResetFactor` | server/migrations/0113_administration.sql:48-67 | a reset alone is the machine's three steps: codes, challenges and factor go, and nothing changes where there is no factor |
| `MfaTables.Tables.BeginEnroll` | server/src/auth/mfa.ts:73-84 | a fresh inactive secret from step 0, unless the factor is active |
| `MfaTables.Tables.SpendChallenge` | server/src/auth/mfa.ts:178-184 | spends an unused challenge once |
| `MfaTables.Tables.VerifyMfa` | server/src/auth/mfa.ts:127-157 | the transaction alone is the machine's steps; it signs in exactly when factor and challenge were both spent, and undoes the factor when the challenge was lost |
| `MfaTables.Verified` | server/src/auth/mfa.ts:127-152 | alone, a sign-in succeeds if and only if the factor is active, the challenge unused, and the code matches a step above the last accepted one or is an unused recovery code; then exactly those are spent, and otherwise nothing changes |
| `MfaTables.Tables.ActivateEnrollment` | server/src/auth/mfa.ts:97-115 | activation is the machine's steps and replaces the recovery codes |
| `MfaTables.Activated` | server/src/auth/mfa.ts:97-115 | and an activation if and only if the factor is not active yet, the code matches a step and the challenge is unused; the new recovery codes replace the old |
| `Mfa.NextKeeps` | server/src/auth/mfa.ts:66-184 | every statement of every interleaving, the read of the secret and the update apart, keeps locks, spent codes and challenges matched to sign-ins, and, unless it issues a late challenge, keeps accepted steps rising and every live sign-in's secret the active one |
| `Mfa.TransactionKeeps` | server/src/auth/mfa.ts:97-152 | so does a transaction alone |
| `Mfa.AcceptedStepsRise` | server/src/auth/mfa.ts:130-141 | in every interleaving without a late challenge the steps accepted under one secret strictly rise (section 5.2 of RFC 6238) |
| `Mfa.LateChallengeRepeatsStep` | server/migrations/0113_administration.sql:48-67 | a run with a late challenge in which a step is accepted twice under one secret |
| `Mfa.StepsRiseExactlyWithoutLateChallenges` | server/src/auth/mfa.ts:127-152 | over all runs accepted steps rise if and only if no challenge may be late |
| `Mfa.EachIsSpentOnce` | server/src/auth/mfa.ts:142-152 | in every interleaving a challenge and a recovery code give at most one sign-in each |
| `Mfa.NothingSpentWithoutSignIn` | server/src/auth/mfa.ts:136-152 | in every interleaving every used challenge and recovery code was spent by its own sign-in, and without a late challenge the factor's last step is where its secret began or was accepted by a sign-in under that secret; a request that loses the race spends nothing |
| `Base32.ToBase32` | server/src/auth/totp.ts:13-27 | the loop over a 32-bit accumulator that is never masked regroups the bytes' bit string into fives, completed with zeros (section 6 of RFC 4648) |
| `Base32.FromBase32` | server/src/auth/totp.ts:29-44 | the loop regroups the symbols' bit string into eights and refuses any character outside the alphabet |
| `Base32.SymbolIs` | server/src/auth/totp.ts:11-11 | the alphabet is A to Z and then 2 to 7, in that order |
| `Base32.ShiftInHolds` | server/src/auth/totp.ts:18-18 | what a shift pushes off the word lay above the pending bits |
| `Base32.ShiftOutHolds` | server/src/auth/totp.ts:21-22 | the top pending bits come out and the rest stay |
| `Base32.EncodedLength` | server/src/auth/totp.ts:13-27 | the encoding of n bytes has 8n/5 symbols, rounded up |
| `Base32.DecodedUndoesEncoded` | server/src/auth/totp.ts:33-43 | any text that cleans to an encoding decodes to its bytes |
| `Base32.RoundTrip` | server/src/auth/totp.ts:13-44 | every byte sequence survives encoding and decoding |
| `RateLimit.Throttle.CheckAllowed` | server/src/auth/rate-limit.ts:27-39 | forgotten failures are dropped, and a standing lock refuses |
| `RateLimit.Throttle.RecordFailure` | server/src/auth/rate-limit.ts:41-56 | the fifth failure locks and starts the count again; a full table makes room first |
| `RateLimit.Throttle.RecordSuccess` | server/src/auth/rate-limit.ts:58-60 | the key is forgotten |
| `RateLimit.RunKeeps` | server/src/auth/rate-limit.ts:27-56 | in every run, successes among them, with at most m attempts of a key pending, the (m + 4)th failure after any failure, with no success of the key between, comes at least thirty seconds after it, and the table tells how the last failures stand |
| `RateLimit.AtMostPerWindow` | server/src/auth/rate-limit.ts:13-16 | so no half-open thirty seconds hold more than m + 4 failures since the key's last success |
| `RateLimit.BoundIsReached` | server/src/auth/rate-limit.ts:36-56 | four single failures and then m attempts checked together make m + 4 in one window |
| `RateLimit.FiveExactlyOneAtATime` | server/src/auth/rate-limit.ts:13-16 | every run with at most m attempts pending keeps the bound of five if and only if m is at most 1 |
| `RateLimit.FailureIsRemembered` | server/src/auth/rate-limit.ts:27-34 | a failure is remembered for fifteen minutes and no longer, unless another follows |
| `RateLimit.FifthLocks` | server/src/auth/rate-limit.ts:41-56 | the fifth remembered failure in a row refuses the key for exactly thirty seconds and starts the count again |
| `RateLimit.SuccessForgets` | server/src/auth/rate-limit.ts:58-60 | a success forgets its key, so its next attempt is allowed, and nothing else |
| `RateLimit.StaysBounded` | server/src/auth/rate-limit.ts:41-56 | the table never holds more than ten thousand keys where a prune of a full one gives something up |
| `Csv.ParseCsv` | server/src/boards/transfer.ts:131-161 | the character loop computes the state machine's rows or the unterminated-quote error |
| `Csv.DocumentsParse` | server/src/boards/transfer.ts:131-161 | every text made of cells, plain or in quotes, commas and line ends of any of the three kinds reads as those cells' texts, with or without a byte order mark and whether or not its last line ends |
| `Csv.ParsedPrintedExactly` | server/src/boards/transfer.ts:66-70 | printed rows parse back to the very cells if and only if each has a cell and no bare byte order mark opens the text (section 2 of RFC 4180) |
| `Csv.TextsAreGuarded` | server/src/audit/export.ts:65-68 | no text cell is printed so that it opens with one of the six formula characters, and only those that would are changed |
| `Csv.UnguardedExactly` | server/src/audit/export.ts:65-68 | the guard is undone to the cell's own text exactly when it did not look guarded before |
| `Csv.KeyedLast` | server/src/boards/transfer.ts:196-203 | whatever the headers, a name has the text of its last column that has any in the row |
| `Csv.KeyedExactly` | server/src/boards/transfer.ts:196-203 | a row under distinct headers comes back with its texts, empty cells absent, exactly when no cell was ambiguous |
| `Csv.UploadRestoresExactly` | server/src/boards/transfer.ts:178-205 | so for a whole exported table |
| `Csv.ParseContactsCsv` | server/src/contacts/csv.ts:16-47 | the second reader's loop computes its own state machine |
| `Csv.ReadersAgree` | server/src/contacts/csv.ts:16-47 | on every text the two readers answer the same rows, less the blank ones, or both refuse it |
| `CanonicalJson.StringInjective` | server/src/audit/export.ts:91-91 | an escaped string says where it ends |
| `CanonicalJson.KeysOf` | server/src/audit/export.ts:88-90 | the printed keys are those whose member is there, in rising order of code units |
| `CanonicalJson.BelowIsLexical` | server/src/audit/export.ts:88-90 | keys are ordered by the first code unit in which they differ, and a prefix comes first |
| `CanonicalJson.Delimited` | server/src/audit/export.ts:84-95 | wherever a value stands in a document its text says which value it is and where it stops |
| `CanonicalJson.SamePrints` | server/src/audit/export.ts:84-95 | the same value prints the same, whatever the order its keys were added in |
| `CanonicalJson.CanonicalExactly` | server/src/audit/export.ts:84-95 | two values print alike if and only if they are the same but for key order, undefined members and lone missing items |
| `CanonicalJson.CanonicalIsInjective` | server/src/audit/export.ts:83-95 | without lone missing items one text means one value (section 3.2.3 of RFC 8785) |
| `CanonicalJson.LoneHoleCollides` | server/src/audit/export.ts:85-85 | the collision |
| `JsonText.CanonicalReadsBackExactly` | server/src/audit/export.ts:84-95 | a reader written from the grammar of JSON (RFC 8259) gives the printed value back, the same but for key order and missing members, if and only if no item of any array is missing |
| `Syslog.StepKeeps` | server/migrations/0110_retention.sql:176-219 | every step of every pass keeps the mark behind what was handed over, though events commit late and out of order |
| `Syslog.NothingSkipped` | server/src/audit/syslog.ts:6-14 | in every run, with failures and deaths anywhere, every event the mark has passed was handed over, and every event before one that was handed over was too |
| `Syslog.LaterEventsCount` | server/migrations/0110_retention.sql:173-191 | every event that commits after forwarding began lies after the start and after the mark |
| `Syslog.CommittedIsHandedOver` | server/src/audit/syslog.ts:6-14 | in every run an event that commits once forwarding has begun is handed over by the time the mark has passed it or anything after it was handed over |
| `Syslog.SmoothDeliversOnce` | server/src/audit/syslog.ts:49-61 | without failures each event is handed over at most once, in order |
| `SyslogSend.Sink.ForwardAudit` | server/src/audit/syslog.ts:49-61 | a pass drains a finite backlog, each event once and in order; when the collector stops after some messages, those were handed over and the mark is after the last whole batch; either way the pass is a sequence of the machine's steps |
| `SyslogSend.PassSteps` | server/src/audit/syslog.ts:49-61 | a batch read, handed over and marked, or handed over in part and given up, is enabled steps of the machine that leave the rest pending |
| `SyslogSend.LeadsExtendRun` | server/src/audit/syslog.ts:49-61 | a pass extends any run, so what every run keeps holds after it |
| `SyslogSend.FramesDecode` | server/src/audit/syslog.ts:98-104 | octet-counted frames decode to the list of messages (section 3.4.1 of RFC 6587) |
| `SyslogSend.CutSendIsPrefix` | server/src/audit/syslog.ts:98-114 | however a send is cut, the collector has a prefix of the messages, each whole |
| `Sms.FormsAgree` | server/src/contacts/sms-activity.ts:108-112 | every sender form that files as a number is counted against it |
| `Sms.RunKeeps` | server/src/contacts/carriers.ts:177-201 | every interleaving of readers keeps one row and one record per message |
| `Sms.KeptAndFiledOnce` | server/src/contacts/carriers.ts:143-201 | in every run each message id has at most one kept row and one filed record, and a filed one is kept |
| `Sms.FiledIsLoggedExactly` | server/src/contacts/carriers.ts:192-249 | a filed text has its record, and is kept as logged exactly when nobody noted it failed before the commit |
| `Sms.FilingCountsExactly` | server/src/contacts/sms-activity.ts:166-174 | a filing counts against its number's limit exactly when its text was not noted as failed before the commit |
| `Sms.FiledButKeptAsFailed` | server/src/contacts/carriers.ts:195-197 | for every m a run that files m texts of one number in one hour, all kept as failed, with none of them counted |
| `Sms.RunBalances` | server/src/contacts/carriers.ts:151-164 | in every run and every hour, a number's filed records are as many as its logged texts and its filings noted as failed together |
| `Sms.HourlyLimits` | server/src/contacts/sms-activity.ts:166-174 | in every run no hour holds more than three hundred replies, nor more than twenty texts filed or answered for a registered number beyond its filings noted as failed, in whatever order read times come |
| `Sms.LimitIsReached` | server/src/contacts/carriers.ts:192-249 | for every m a run with m noted filings and twenty counted ones in one hour |
| `Sms.TwentyExactlyWithoutNotes` | server/src/contacts/sms-activity.ts:166-174 | hours with at most m noted filings hold at most twenty texts in every run if and only if m is 0 |
| `SmsLaws.CommitIs` | server/src/contacts/carriers.ts:192-249 | a committed entry is filed if and only if fewer than twenty texts filed or answered in the hour before count against its number, answered if and only if replies and codes in sight are below three hundred too, and its text is kept unless a row of it is there |
| `SmsLaws.CountedExactly` | server/src/contacts/sms-activity.ts:101-112 | the senders counted against a registered number are exactly those that may file as it |
| `SmsLaws.CodeIsAskedExactly` | server/migrations/0169_sms_activity_log.sql:154-166 | a request for a code goes on if and only if the replies and codes it sees of the hour before are below three hundred |
| `SmsBudget.RunKeeps` | server/src/contacts/sms-activity.ts:305-316 | in every run with at most m transactions that count under way, what an hour has seen sent and what those under way may still send in it stay below 300 + m |
| `SmsBudget.SentIsBounded` | server/migrations/0169_sms_activity_log.sql:154-166 | so no hour sees more than 299 + m replies and codes together |
| `SmsBudget.BudgetIsReached` | server/migrations/0169_sms_activity_log.sql:154-166 | for every m above 0 a run that sends 299 + m in one hour: 299 codes, then m requests that count before any of them commits |
| `SmsBudget.BudgetExactlyOneAtATime` | server/src/contacts/sms-activity.ts:305-316 | runs with at most m of them under way keep the budget of 300 replies and codes an hour if and only if m is at most 1 |
| `SmsReader.Reader.ReadOne` | server/src/contacts/carriers.ts:177-201 | up to three tries; what they do is a sequence of the machine's steps; the one row the decisive try makes is added, and nothing when another reader was first, every try is cut short, or the note of a failure fails itself |
| `SmsReader.Reader.ReadReplies` | server/src/contacts/carriers.ts:101-132 | whatever order the listing comes in, the loop with its set of seen ids does what reading each message once, oldest first, does; it counts each added row once and collects the replies those rows say, none for a text left for the next read |
| `SmsReader.OldestFirstSorts` | server/src/contacts/carriers.ts:107-108 | the listing is read by receipt time, every message of it, ties in the listing's order |
| `SmsReader.ListingSettles` | server/src/contacts/carriers.ts:106-115 | a message is kept after a listing exactly when it was before or, at its first place in it, the first try not cut short decided or failed with its note kept |
| `SmsReader.SeenIsLeft` | server/src/contacts/carriers.ts:108-110 | a message already seen, or not listed, is left as it is |
| `SmsReader.LeadsExtendRun` | server/src/contacts/carriers.ts:184-191 | a reader's call extends any run, so what every run keeps holds after it |
| `SmsTags.IncidentTag` | server/src/contacts/sms-activity.ts:91-99 | the tag is the shortest prefix, from the first word up, that picks one incident, or the whole name |
| `SmsTags.CompactJoins` | server/src/contacts/sms-activity.ts:87-88 | a name is compacted character by character, in order |
| `SmsTags.TagPicksExactly` | server/src/contacts/sms-activity.ts:207-211 | it picks its own incident alone if and only if the whole name does |
| `SmsTags.SuggestionReadsBack` | server/src/contacts/sms-activity.ts:78-85 | "#tag entry" is read as that tag and that entry |
| `SmsTags.ParsesExactly` | server/src/contacts/sms-activity.ts:78-85 | a text is marked if and only if, trimmed, it begins with LOG, however cased, or with # and a word of letters and digits; after LOG the same tag may follow; the word in small letters is the incident, and the rest, trimmed, the entry |
| `SmsTags.SuggestionWorksExactly` | server/src/contacts/sms-activity.ts:206-213 | following the suggestion selects exactly that incident if and only if its compacted name is not empty and begins no other |

## Left out

- Role tables, guards and assignment resolution of workflows: each is one verdict of a call.
- Notifications, audit entries and details of history rows: they carry no state back.
- WorkflowSafety.RepeatChangesNothing: a repeat whose record can no longer be loaded for the actor is refused before the stored answer is looked up, as in the code, so the lemma asks that the record loads.
- Yjs encoding and merging: an update is a client id and a run of clocks. Updates from a client id of their own (records of no incident) are one row at clock 0 and are part of `Elsewhere`.
- SyncWriters.Scope.CommitTransaction: callbacks run one by one afterwards, any time; the listeners told of a write are not modelled.
- What an action's step writes, announces and validates: a function of the world; audit payloads keep action, parent, depth, ending and causes.
- Cursor encoding, the timestamps' text form and group counts of views; a sort by a calculated field, which the code orders within a page only.
- How JavaScript and PostgreSQL each print a number or an object and read a time, which conditions depend on, are functions of the environment; case folding is taken to be the same in both, an assumption.
- Rates, equipment hours and cost totals of the force account; a check-in still open; how PostgreSQL turns a date into an instant.
- RateLimit.AtMostPerWindow: says nothing of a key the full table gives up while its failures still count, which the source accepts.
- PrincipalCache.EveryAnswerIsFresh: changes made outside the API are seen when the cache's limit lapses, and are not modelled.
- HMAC, the matching of a code to a time step, sealing of secrets, sessions and the route's backoff around second-factor codes.
- Mfa.AcceptedStepsRise: is per drawn secret; a restarted enrolment begins again at step 0, as in the code.
- Mfa.NextKeeps: one reset runs at a time, its last deletion and its commit are one step, and a person's other rows are not part of this model.
- Base32 case folding beyond the runtime's table, which is a parameter; surrogate pairs in texts.
- Excel export and import, column letters, Esri files, mapping of headers to fields and validation of imported rows.
- ViewWalk.ViewWalkReturnsOnce: a record whose keys change between two pages is two rows, and may come back under both.
- JSON values with `toJSON`, symbols or functions, numbers that are not finite, and minus zero; lone surrogates in strings.
- RFC 5424 headers, the 8 KiB cut of UDP messages, datagrams lost on the network, and what a collector does with bytes the socket took.
- Sms.KeptAndFiledOnce: answers to mass notifications change other rows, which are not part of this model; nor is sending the replies, confirming numbers and the limits a number or a person has on codes.
- Carrier keywords, echoes, entry length and the directory lookup: each is a decision of the environment short of the hourly limits.
- Retention, packet signing, HTTP routes, websockets, row-level security and the web client.

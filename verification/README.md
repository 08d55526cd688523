# Models and proofs for the JSONL persistence provider and its neighbours

This project models, in Dafny, the parts of the repository whose correctness rests on invariants over
long runs, and proves those invariants.

**The persistence provider** (`examples/persistence/src`) keeps sessions, budgets and delegated tasks in one
append-only file. Four layers rest on each other:

- *The journal.* A file is a list of lines; a valid line is a frame that names its predecessor's digest.
  A transaction, however deeply nested, becomes one frame. A crash may leave any prefix of the last
  record; reopening cuts a damaged tail off, records that it did, and fences the operations that were
  open. `JournalTail`, `Recovery` and `Journals` model the bytes, the reader, the repair and the class with its
  nested transactions and its poisoned state.
- *The ledger.* Sessions hold events under contiguous numbers, may fork from a prefix of a parent, keep
  register cells that events write, and are written under a lease. `LedgerSteps` gives each operation as a
  pure step on the table of rows, `Ledgers` the methods over the journal, `LedgerRuns`, `ForkView`,
  `ForkHistory`, `Scans`, `Writers` and `Leases` what holds over runs.
- *Child control.* Budget scopes form trees; a reservation holds an amount in every scope it lists, a cost
  settles it. Tasks move through a creation phase and a task state. `Budget` and `Children` give the
  pure steps, `ChildControls` the methods, `Conservation`, `BudgetRuns`, `Runs`, `History`, `FanOut` and
  `ChildScopes` the invariants.
- *Together.* `Runs` interleaves every operation of the provider; its theorems are about every run from an
  empty journal. `CrashSafety` puts a crash at any byte of any operation's record, `Lives` any number of such
  crashes one after the other. `Providers` performs runs through the methods and says what a reopening finds.

The class methods are proved to do what the pure steps say, as one transaction: all of the step's table or
nothing. The theorems are about the steps. `Answers` and `LedgerAnswers` say of every operation, row by row, what its
answer means and when it is given; `Repairs` what a repair keeps of an open operation.

**Smaller kernels**: the day-skipping cron search (`Cron`, `CronDays`), the guard on inference streams
(`StreamGuard`, `GuardLaws`) and the facade it wraps (`Inference`, `InferenceLaws`, `Facade`), the trigger
statistics with their greedy rate limits (`SessionStats`, `Admission`), canonical JSON and the model registry's
fingerprint (`Sorting`, `CanonicalJson`, `CanonicalLaws`, `Registry`), the length-prefixed frames of the hook runner
(`IsolationFrames`), and the reader of server-sent events against the standard (`SseReader`, `SseStandard`,
`SseReturns`).

`dafny verify dfyconfig.toml` checks everything.

## Where the code and a promise differ

The model follows the code. Each point has a concrete input or table and the exact condition under which the
promise does hold.

- A permit whose first cost overran its reservation can be charged again, and the second cost takes the
  reserved amount from some other permit's hold (`Findings.SecondCostTakesAnotherHold`, and as a run from the
  empty journal `Findings.OverrunLosesHold`). Held balances stay exact if and only if this does not happen
  (`BudgetRuns.SettleKeepsHeldExactly`); settled balances and the bound on spending need no such condition.
- `casState` ignores the admission argument that the interface documents, so taking an idle or interrupted task
  back to an active state can exceed the fan-out limit (`Findings.ReentryExceedsFanOut`, as a run
  `Findings.ReentryReachable`; exactly when: `FanOut.CasKeepsFanOutExactly`).
- Creating a delegated child does not check that the request names its parent's root. A child that names another
  lists scopes of two trees (`Findings.ForeignChildIsCreated`), and every new reservation over its list is then
  told to be invalid (`ChildScopes.ForeignScopeReservesNothing`). Lists stay within one tree if and only if each creation names
  its parent's root (`ChildScopes.CreateKeepsOneRootExactly`, `ChildScopes.RunKeepsOneRootExactly`).
- Discarding a session that others fork from leaves a fork without its parent, and one more fork request closes
  a cycle (`Findings.DiscardedParentClosesCycle`; for every fork `LedgerRuns.DiscardOrphans`). A discard keeps
  the ledger sound if and only if nothing forks from the session (`LedgerRuns.DiscardKeepsExactly`), and keeps all
  invariants if and only if no task or scope names it either (`Runs.DiscardKeepsWorldExactly`). Runs in the
  theorems discard only such sessions.
- A compare-and-swap sees only a cell's number or its absence. An expected absence passes after other writes if
  and only if the last of them erased the cell, or the session was discarded (`Findings.AbsentCellHidesWrites`,
  `Writers.AbsenceHidesExactly`). An expected number notices every commit to the cell as long as the session is not
  discarded (`Writers.RegisterSwapNoticesWrites`); after a discard numbers start again, and it passes if and only if
  the last write got the very same number (`Findings.DiscardHidesWrites`, `Writers.NumberHidesExactly`). A repair
  rewrites op.state cells under their old numbers, which no expectation notices (`Findings.RepairRewritesCell`): a
  cell whose number is met is as it was if and only if no repair ran since or the last one wrote what it already
  said (`Writers.OpCellUnchangedExactly`).
- A source that throws something whose name cannot be read as text, before a terminal event, makes the guard's own
  handler throw, and the stream ends without a terminal event: `null` and `undefined`, a `name` that is a symbol or
  has no primitive form, a `name` getter that throws (`StreamGuard.NamelessThrowEscapes`). For every other source, and
  only for those, the output is legal (`StreamGuard.GuardedIsLegal`).
- Guarding a guarded stream is the identity except after such a throw, or a throw with a name longer than the
  message bound (`StreamGuard.GuardIsIdempotent`).
- When an adapter throws before a terminal event, the prose that the decode chain still holds is not flushed
  before the closing error and is lost (`Inference.ThrowLosesHeldText`). All text leaves if and only if this does not
  happen (`Inference.NothingLostExactly`).
- The look-back that makes a repeated local time fire once reaches three hours, so the time fires again where one of
  its occurrences comes later than that after the one before, as when a clock is set back by four hours
  (`Cron.LongFallFiresTwice`). It fires only once if and only if no occurrence does (`Cron.FiresOnceExactly`).
- Canonical JSON writes an array that holds a lone `undefined` like an empty array
  (`CanonicalJson.LoneUndefinedReadsAsEmpty`, `CanonicalJson.TextDeterminesValue`).
- The reader of server-sent events differs from section 9.2.6 of the WHATWG HTML Standard in three ways: it
  delivers an event that the end of the stream leaves open (`SseStandard.OpenEventIsDelivered`), it ignores a `data`
  line without a colon (`SseStandard.BareDataIsIgnored`), and it does not end a line at a lone carriage return
  (`SseStandard.LoneReturnStaysInData`). For each the exact condition is proved where the others do not arise
  (`SseStandard.StandardUpToOpenEnd`, `SseStandard.StandardUpToBareData`, `SseReturns.StandardUpToReturns`); where
  they meet they can cancel out (`SseStandard.FaultsCancel`), except that a carriage return inside a data line always
  makes a difference (`SseStandard.ReturnInDataIsNotStandard`).

## Parameters and their laws

What the code takes from elsewhere is a parameter. A law that a theorem needs is a named premise:
`JournalTail.Lawful` (a frame's text parses back, holds no newline, and no proper prefix of it is a valid
frame), `JournalTail.InjectiveDigest`, `Cron.ValidZone` (every offset is less than a day), `Cron.Proper` (no two days have
one date), `Inference.Lawful` (the decode chain loses no text, numbers its calls in order and holds nothing after a
finish), `Registry.Injective`.
Register keys and tombstones (`LedgerSteps.Rules`), the calendar and zone offset, the clock and random
samples, the schema checks of the guard, message handlers and payload consumers carry no law.

## Model

| member | source | states |
|---|---|---|
| `JournalTail.ReadJournalTail` | examples/persistence/src/journal-tail.ts:33-69 | The offset loop computes the specified tail, and returns its last revision and digest. |
| `JournalTail.TailReaderAcceptsExactly` | examples/persistence/src/journal-tail.ts:48-68 | A file is accepted if and only if its lines are chained valid frames followed by invalid lines only, with no foreign header, and at least one frame unless the file is empty; and then exactly those frames and that offset are returned. |
| `JournalTail.NoValidFrameDiscarded` | examples/persistence/src/journal-tail.ts:52-57 | No line that carries a checksum-valid frame is cut off with a damaged tail. |
| `JournalTail.LastDigestDeterminesHistory` | examples/persistence/src/journal-tail.ts:14-31 | Under an injective digest two chains with the same last digest are the same chain. |
| `Recovery.AppendReadsBack` | examples/persistence/src/journal.ts:205-213 | A clean file followed by the next record is a clean file with one more frame. |
| `Recovery.CrashedAppend` | examples/persistence/src/journal-tail.ts:53-68 | What the reader makes of a clean file followed by any prefix of one more record: nothing new, a damaged tail at the old end, or the whole frame. |
| `Recovery.RepairReadsBack` | examples/persistence/src/journal-tail.ts:88-112 | Replacing the damaged tail by the recovery frame gives a clean file: the old frames and that one. |
| `Recovery.OpenedIsClean` | examples/persistence/src/journal.ts:70-137 | Every successful opening, with a repair, a missing final newline or neither, leaves a clean file whose frames replay to the map in memory. |
| `Recovery.ReopeningIsIdentity` | examples/persistence/src/journal.ts:70-137 | Repair is idempotent: opening what an opening left changes neither the file nor the map. |
| `Recovery.CrashAtomicity` | examples/persistence/src/journal.ts:70-137 | For every committed history and every prefix of one more record, reopening yields the map before, the map after, or the map before with the audit and the fenced cells; it refuses only where no frame was ever complete. |
| `CrashSafety.RepairKeepsWorld` | examples/persistence/src/journal.ts:81-114 | A repair keeps every invariant of sessions, budgets and tasks, and held balances and fan-out limits where they held. |
| `Repairs.RepairKeepsFields` | examples/persistence/src/journal.ts:84-114 | A repair sets control and phase in the object of every op.state cell and keeps its other fields, with their values, and adds none; an array becomes the object of its items under their decimal positions; cells with other data, and all other rows but the audit, are as before. |
| `Repairs.ReopeningKeepsFields` | examples/persistence/src/journal.ts:70-137 | The same of the map that opening a file with a damaged tail yields. |
| `Repairs.DecimalIsUnique` | examples/persistence/src/journal.ts:95-97 | A position has one decimal text. |
| `CrashSafety.CrashDuringOperation` | examples/persistence/src/journal.ts:70-137 | A crash at any byte of the record of any one operation leaves a file whose table satisfies every invariant and is the one before, after, or the repaired one before; held balances and fan-out limits included, where the operation itself keeps them. |
| `Lives.LivesAreOneRun` | examples/persistence/src/journal.ts:70-137 | Any number of lives, each ending in a crash inside some operation and a reopening, leaves the table of one permitted run that holds every acknowledged operation in order, and after those of each life at most the interrupted one or a repair. |
| `Lives.AcknowledgedSurvives` | examples/persistence/src/journal.ts:205-219 | An acknowledged operation that took effect, or found what it asked for already so, survives any number of later crashes: no record it left goes or moves back, and its redelivery changes nothing. |
| `Journals.Diff` | examples/persistence/src/journal.ts:200-203 | The changes of a commit lead from the old map to the new one, and are empty if and only if the maps agree. |
| `Journals.ReplayFrames` | examples/persistence/src/journal.ts:76-80 | The constructor loops rebuild the fold of all frames. |
| `Journals.RepairChanges` | examples/persistence/src/journal.ts:84-114 | The recovery changes record the audit, fence every open operation and touch nothing else. |
| `Journals.Restore` | examples/persistence/src/journal.ts:70-137 | Opening yields one of the outcomes the recovery theorems speak of, refusals included. |
| `Journals.Journal.constructor` | examples/persistence/src/journal.ts:24-34 | The journal starts in agreement with the file it was opened from. |
| `Journals.Journal.Begin` | examples/persistence/src/journal.ts:185-188 | A transaction starts from what its caller sees; a closed or poisoned journal refuses. |
| `Journals.Journal.WriteRecord` | examples/persistence/src/journal.ts:205-219 | Whatever part of the record arrives before the file system gives up, the journal is poisoned and the file is a clean one plus a prefix of the record. |
| `Journals.Journal.Append` | examples/persistence/src/journal.ts:205-220 | A durable record extends the frames by one and makes the new map current; a failed one keeps the old map, frames and revision. |
| `Journals.Journal.Commit` | examples/persistence/src/journal.ts:193-223 | An inner commit moves nothing durable; an outermost one makes the map current and the fold of the frames on disk equal to it, or poisons. |
| `Journals.Journal.Finish` | examples/persistence/src/journal.ts:185-226 | A body that threw leaves the enclosing snapshot exactly as at entry; a body that returned is committed. |
| `Journals.Journal.Set` | examples/persistence/src/journal.ts:166-175 | A write inside a transaction is seen by it alone; outside, it is a transaction of its own. |
| `Journals.Journal.Delete` | examples/persistence/src/journal.ts:176-184 | The same for a removal. |
| `Journals.Journal.Execute` | examples/persistence/src/journal.ts:153-226 | Inside a transaction of any nesting depth the callback sees and does what it means on a plain map. |
| `Journals.Journal.Transaction` | examples/persistence/src/journal.ts:185-226 | At every nesting depth a transaction does to the map what its callback means: all of it, or nothing when it throws; once poisoned nothing is ever appended. |
| `Journals.Journal.Close` | examples/persistence/src/journal.ts:227-235 | Closing keeps the file and the map as they are. |
| `Journals.Journal.Find` | examples/persistence/src/journal.ts:162-165 | A search over the entries finds a match if there is one. |
| `Journals.Journal.Count` | examples/persistence/src/journal.ts:162-165 | Filtering and counting the entries counts exactly the matching ones. |
| `Ledgers.WriteFork` | examples/persistence/src/jsonl.ts:64-78 | Inside a transaction: refuses an absent parent, a boundary outside 0..last or another fork of the same name; a repeated request changes nothing. |
| `Ledgers.Ledger.Open` | examples/persistence/src/jsonl.ts:93-127 | Runs as one transaction of the pure step: refused under another unexpired lease, else leased to the caller. |
| `Ledgers.Ledger.WriteEvents` | examples/persistence/src/jsonl.ts:147-164 | The loop writes the batch under consecutive numbers and its register cells. |
| `Ledgers.Ledger.Admit` | examples/persistence/src/jsonl.ts:129-146 | The checks of a commit refuse exactly when the pure step does, with the same code. |
| `Ledgers.Ledger.CommitBatch` | examples/persistence/src/jsonl.ts:128-174 | A commit is all or nothing; each event stands under its own number with its own metadata, and the receipt names the numbers. |
| `Ledgers.Ledger.Renew` | examples/persistence/src/jsonl.ts:175-180 | Renewing extends a held lease, or takes a lapsed one back on a matching claim, or refuses. |
| `Ledgers.Ledger.Release` | examples/persistence/src/jsonl.ts:181-185 | As one transaction: the releasing run's own lease goes, and any other lease stays as it was. |
| `Ledgers.Ledger.ClearWriterLease` | examples/persistence/src/jsonl.ts:250-255 | Clears the lease and nothing else. |
| `Ledgers.Ledger.CreateChild` | examples/persistence/src/jsonl.ts:217-219 | A fork as one transaction. |
| `Ledgers.Ledger.DiscardNewSession` | examples/persistence/src/jsonl.ts:220-229 | No row, lease, event or register of the session is left, and no other row moved, under the caller's lease. |
| `Ledgers.Ledger.ClaimForReclaim` | examples/persistence/src/jsonl.ts:268-276 | Answers null unless exactly this expired lease is still there; removes it only where no operation is open. |
| `LedgerRuns.AppendEventsKeep` | examples/persistence/src/jsonl.ts:140-164 | Appending a batch keeps own numbers contiguous up to the new end and every register the fold of the log. |
| `LedgerRuns.CommitKeeps` | examples/persistence/src/jsonl.ts:128-174 | A commit keeps contiguity, register agreement and fork ranks of every session. |
| `LedgerRuns.OpenKeeps` | examples/persistence/src/jsonl.ts:93-104 | Opening, also of a new session, keeps them. |
| `LedgerRuns.CreateForkKeeps` | examples/persistence/src/jsonl.ts:64-78 | Forking keeps them; in particular the parent relation stays acyclic. |
| `LedgerRuns.DiscardKeeps` | examples/persistence/src/jsonl.ts:220-229 | Discarding a session nothing forks from keeps them. |
| `LedgerRuns.DiscardKeepsExactly` | examples/persistence/src/jsonl.ts:220-229 | For every sound table a discard keeps contiguity, register agreement and acyclic forks if and only if nothing forks from the session. |
| `LedgerRuns.DiscardOrphans` | examples/persistence/src/jsonl.ts:64-78 | For every fork of a discarded session one more fork request is accepted that closes a cycle. |
| `ForkView.ForkViewIsComplete` | examples/persistence/src/jsonl.ts:79-90 | At any fork depth a range query shows each number of the range within 1..last exactly once in increasing order, even where a boundary lies below the parent's own base. |
| `ForkView.SeenIsStable` | examples/persistence/src/jsonl.ts:79-90 | What a session has seen under a number it goes on seeing, whatever its ancestors append. |
| `ForkHistory.SeenForever` | examples/persistence/src/jsonl.ts:79-90 | The same over every permitted run, discards of other sessions included, until the session itself is discarded. |
| `Scans.ReadGivesWhatIsAsked` | examples/persistence/src/jsonl.ts:189-208 | A read that succeeds gives only events of the fork view that are in range and pass the filters, each once and in the order asked for; and all of them, unless the caller asked for a page of just that size. |
| `Scans.ReadRefusedExactly` | examples/persistence/src/jsonl.ts:189-208 | A read is refused exactly for asking without an end or a positive page size, or for a full read of more than 500 events. |
| `Scans.LanesPartition` | examples/persistence/src/jsonl.ts:196-204 | Each event is asked for by the query of its own lane alone, where an event without one is of the main lane; all lanes together ask for what no lane filter asks for. |
| `Scans.PagesAreOneRead` | examples/persistence/src/jsonl.ts:189-208 | Reading page after page while the session and its ancestors grow gives exactly what one full read at the last page's moment gives: no event lost or repeated at a page border. |
| `Writers.LeaseWasAcquired` | examples/persistence/src/jsonl.ts:55-63 | A run that holds the lease now and did not earlier acquired it in between: by opening once no other run held an unexpired lease, or by a claim naming the log's end. |
| `Writers.SingleWriter` | examples/persistence/src/jsonl.ts:55-63 | Between a commit by one run and a later commit by another, the second acquired the lease in one of those ways. |
| `Leases.LeaseLostExactly` | examples/persistence/src/jsonl.ts:181-185 | For every operation in every state: a run that holds the lease loses it if and only if it releases it, the lease is cleared, the run discards the session under its lease or claim, another run opens the session after the lease expired, or a reclaim names exactly this expired lease and no op.state cell exists. |
| `Leases.LeaseWasLost` | examples/persistence/src/jsonl.ts:181-185 | So a run that held the lease and no longer does lost it at one such operation in between. |
| `Leases.ReleaseTakesOwnLease` | examples/persistence/src/jsonl.ts:181-185 | A release leaves no lease of its own run, and every other lease as it was. |
| `Leases.ChangedLeaseIsStamped` | examples/persistence/src/jsonl.ts:55-63 | A lease that is new or changed is the calling run's, who may write, and ends one time to live after the clock reading of the call. |
| `LedgerAnswers.CommitIsTrue` | examples/persistence/src/jsonl.ts:128-174 | A commit is refused exactly for the first reason that applies; otherwise every event stands under its own number with its own metadata, the receipt names those numbers, and no other row, number or cell has moved. |
| `Writers.RegisterSwapNoticesWrites` | examples/persistence/src/jsonl.ts:132-139 | While the session is not discarded, a commit that expects the number of a cell seen earlier passes that check if and only if no commit wrote the cell since; the cell is then the very same, except for what repairs made of the data of an op.state cell. |
| `Writers.OpCellUnchangedExactly` | examples/persistence/src/journal.ts:84-114 | When the expected number of an op.state cell passes, the cell is as it was if and only if no repair ran since, or the last one wrote what the data already said. |
| `Writers.NumberHidesExactly` | examples/persistence/src/jsonl.ts:132-139 | Over every run, once the cell was touched: the old number passes if and only if the last touch is a write that got this very number again, and then the session was discarded in between. |
| `Writers.AbsenceHidesExactly` | examples/persistence/src/jsonl.ts:132-139 | Over every run and for every register, once the cell was touched: an expected absence passes if and only if the last touch erased the cell or discarded the session. |
| `BudgetRuns.ReserveKeeps` | examples/persistence/src/children.ts:345-388 | A reservation keeps all balances exact and bounded, and leaves each of its scopes at or under its cap. |
| `BudgetRuns.SettleKeeps` | examples/persistence/src/children.ts:389-427 | A settlement keeps settled balances equal to the recorded costs, each origin once, and balances within cap plus overruns. |
| `BudgetRuns.SettleKeepsHeldExactly` | examples/persistence/src/children.ts:411-423 | A settlement keeps held balances exact if and only if it does not charge a positive reserved amount of an already paid permit again. |
| `BudgetRuns.ReleaseKeeps` | examples/persistence/src/children.ts:428-441 | A release keeps all balances exact. |
| `BudgetRuns.TakeoverKeeps` | examples/persistence/src/children.ts:474-487 | A takeover moves no balance. |
| `BudgetRuns.BumpKeeps` | examples/persistence/src/children.ts:455-461 | Raising a writer generation moves no balance. |
| `BudgetRuns.EnsureRootKeeps` | examples/persistence/src/children.ts:323-340 | A new root scope starts with nothing held or settled and keeps all sums. |
| `ChildControls.ChildControl.Discharge` | examples/persistence/src/children.ts:412-421 | The scope loop moves the reserved amount out and the cost in, in each scope once, or fails with the transaction undone. |
| `ChildControls.ChildControl.Reserve` | examples/persistence/src/children.ts:345-388 | As one transaction; the permit that is told is in the table with the status that is told, bound to just what was asked for, and told to exist already exactly where it did. |
| `ChildControls.ChildControl.SettleOrigin` | examples/persistence/src/children.ts:389-427 | As one transaction; a failure part way through the scopes changes nothing; the cost is on record with the permit's binding, the permit is settled or its outcome unknown as the cost demands, and an overrun is recorded and then reported. |
| `ChildControls.ChildControl.ReleaseReservation` | examples/persistence/src/children.ts:428-441 | As one transaction; a failure part way through the scopes changes nothing. |
| `ChildControls.ChildControl.TakeoverReservation` | examples/persistence/src/children.ts:474-487 | As one transaction: the root and all its held permits move to the next generation together, or nothing does. |
| `ChildControls.ChildControl.BumpWriterGeneration` | examples/persistence/src/children.ts:455-461 | As one transaction: the root's generation goes up by one. |
| `ChildControls.ChildControl.EnsureRootScope` | examples/persistence/src/children.ts:323-340 | Creates the root scope once; refuses a negative cap. |
| `ChildControls.ChildControl.Screen` | examples/persistence/src/children.ts:116-164 | The checks before a creation answer exactly as the pure step: existing, conflict, or the reason of refusal in the code's order. |
| `ChildControls.ChildControl.CreateDelegatedChild` | examples/persistence/src/children.ts:114-217 | Task, scope, workspace, session fork and format appear together or not at all; the record takes its fields from the request and its parent, lists the scopes above it and its own, and the scope has the cap asked for. |
| `ChildControls.ChildControl.BeginChildAttempt` | examples/persistence/src/children.ts:218-245 | A deferred creation starts its next attempt once; a repeated call returns the same row. |
| `ChildControls.ChildControl.DeferCreatingChild` | examples/persistence/src/children.ts:246-262 | Defers the matching attempt once, recording the fact a repeated call returns. |
| `ChildControls.ChildControl.CommitCreatingChild` | examples/persistence/src/children.ts:263-271 | Commits the matching attempt once. |
| `ChildControls.ChildControl.CancelCreatingChild` | examples/persistence/src/children.ts:272-300 | Cancels the matching attempt once; a task still being created ends as failed if its session could not be opened, as cancelled otherwise. |
| `ChildControls.ChildControl.CasTaskState` | examples/persistence/src/children.ts:301-314 | Moves a task only at the expected revision, and tells so only where the row has the new state and the next revision. |
| `ChildControls.ReachableIsIndexed` | examples/persistence/src/children.ts:102-103 | In every reachable table the lookups the code does by scanning find the only row there is. |
| `Answers.ReserveIsTrue` | examples/persistence/src/children.ts:345-388 | For every table: a granted reservation is a permit of that root and effect with the status, amount, scopes, hash and generation as told and asked for, and existed before exactly if so told; one over the cap has a scope without room; an invalid one is badly bound, conflicts with its effect's permit, or lists a scope that is not the root's. |
| `Answers.ReserveGrantsExactly` | examples/persistence/src/children.ts:345-388 | A request for an effect without a permit is granted if and only if it is well bound and every scope is the root's and has room. |
| `Answers.SettleIsTrue` | examples/persistence/src/children.ts:389-427 | For every table: after an accepted settlement the cost is on record under its origin; a new one consumed a held or unknown permit, which is settled exactly by a known cost within the reserved amount, and moved that amount out and the cost in, in each listed scope and nowhere else. |
| `Answers.SettleAcceptsExactly` | examples/persistence/src/children.ts:389-427 | A settlement is accepted if and only if the permit exists under the carried generation, the amount is not negative, and the origin has this very cost or the permit is open with covered holds. |
| `Answers.BeginIsTrue` | examples/persistence/src/children.ts:218-245 | A begun attempt is told exactly if it is under way already or the deferred one named stands at the expected revision; the row told is the row there is. |
| `Answers.CancelIsTrue` | examples/persistence/src/children.ts:272-300 | A cancellation is accepted exactly of the matching attempt, once more after it took effect included, and leaves the state as the reason demands. |
| `Answers.CasIsTrue` | examples/persistence/src/children.ts:301-314 | A state change goes through if and only if the revision is the expected one and the state is the same or one of an explicit table of moves; running is reached only from creating, ready or waiting for approval. |
| `Answers.CreateIsTrue` | examples/persistence/src/children.ts:114-217 | For every table: a created record has every field from the request or its parent, lists exactly the scopes above it and its own, and its scope the cap; each refusal has its cause in the table. |
| `Runs.CreateKeepsScopes` | examples/persistence/src/children.ts:146-178 | A task lists distinct scopes that exist, among them its root's and the one it spends from: kept by creation, and by every run. |
| `ChildScopes.CappedAtCreation` | examples/persistence/src/children.ts:165-179 | A child created with a cap lists a scope of its own with exactly that cap, and spends from it. |
| `ChildScopes.ChildCapHolds` | examples/persistence/src/children.ts:345-388 | After any run, a reservation granted over the scopes such a child lists leaves its own scope at or under the cap it was created with. |
| `ChildScopes.CreateKeepsOneRootExactly` | examples/persistence/src/children.ts:146-180 | A creation keeps every task's list within one root's scopes if and only if it names the root of its parent. |
| `ChildScopes.RunKeepsOneRootExactly` | examples/persistence/src/children.ts:146-180 | After a run every task lists scopes of its own root only if and only if each creation of the run that went through named the root of its parent. |
| `ChildScopes.ForeignScopeReservesNothing` | examples/persistence/src/children.ts:374-378 | A task that lists a scope of another root is told that its reservation is invalid, ever after. |
| `Findings.TwoTreesReachable` | examples/persistence/src/children.ts:114-217 | Four calls make a task of one root, and another root. |
| `Findings.ForeignChildIsCreated` | examples/persistence/src/children.ts:146-180 | A child of that task that names the other root is created. |
| `Runs.EmptyIsSound` | examples/persistence/src/children.ts:35-39 | An empty journal satisfies every invariant. |
| `Runs.StepKeeps` | examples/persistence/src/children.ts:114-487 | Every operation of the provider, in any state, keeps the ledger, budget and task invariants together. |
| `Runs.RunKeeps` | examples/persistence/src/children.ts:114-487 | So does every run, for every interleaving. |
| `Runs.DiscardKeepsWorldExactly` | examples/persistence/src/jsonl.ts:220-229 | A discard keeps the invariants if and only if no fork, task or scope refers to the session. |
| `Runs.RunKeepsHeld` | examples/persistence/src/children.ts:345-487 | Held balances equal the sum over permits that still hold, over every run in which no overrun permit is settled a second time. |
| `History.RunAdvances` | examples/persistence/src/children.ts:218-314 | Over whole runs committed and cancelled creations, settled and released permits and final task states are absorbing, cancelling leads only to cancelled or failed, no revision or generation decreases, and no recorded cost changes. |
| `History.EffectAtMostOnce` | examples/persistence/src/children.ts:114-441 | A create, begin, defer, commit, cancel, state change, reserve, settle or release that took effect changes nothing when delivered again, whatever ran in between; nor does one that was accepted because what it asked for was so already, if it did not release a permit, or repeat a deferral at a revision, that was yet to come. |
| `Findings.EarlyReleaseRepeats` | examples/persistence/src/children.ts:428-441 | The first proviso is needed: a release of a permit yet to come is accepted and takes effect on redelivery. |
| `Findings.EarlyDeferralRepeats` | examples/persistence/src/children.ts:246-262 | The second is needed: from every deferred task a run after which an accepted repeat of its deferral takes effect on redelivery. |
| `Findings.DeferredReachable` | examples/persistence/src/children.ts:246-262 | Four calls make a deferred task. |
| `History.StaleForever` | examples/persistence/src/children.ts:83-89 | A reservation, settlement, release or takeover that carries an old generation changes nothing at all, now or after any further run. |
| `History.TakeoverFences` | examples/persistence/src/children.ts:474-487 | After a takeover no reservation, settlement, release or takeover for that root that carries the generation it ended, or an older one, ever changes anything again, whatever runs in between. |
| `History.RootDominates` | examples/persistence/src/children.ts:352-359 | In every reachable table a scope's root exists and has settled at least as much. |
| `FanOut.CasKeepsFanOutExactly` | examples/persistence/src/children.ts:301-314 | A state change keeps the fan-out limit if and only if it does not bring an idle or interrupted task back while its parent or root is full. |
| `FanOut.RunKeepsFanOut` | examples/persistence/src/children.ts:128-135 | With one limit, no parent and no root ever has more active tasks, over every run without such a re-entry. |
| `Providers.Provider.Perform` | examples/persistence/src/jsonl.ts:92-281 | Any one operation, performed through the methods, moves the committed table exactly as its pure step says, or not at all when its write fails; and every invariant still holds of it. |
| `Providers.Provider.PerformAll` | examples/persistence/src/jsonl.ts:92-281 | So does any run of operations up to the first failed write: the file always means the table the run has led to. |
| `Providers.ReopenAfterFailure` | examples/persistence/src/journal.ts:70-137 | Reopening after a failed write, whatever part of it arrived, gives a table that satisfies every invariant: the one before the operation, after it, or the repaired one before it. |
| `Providers.ReopenAfterClose` | examples/persistence/src/journal.ts:70-137 | Reopening when no write failed gives the file, the frames and the table as they were. |
| `Findings.AbsentCellHidesWrites` | examples/persistence/src/jsonl.ts:132-139 | Expecting an absent cell does not notice a write that was erased again. |
| `Findings.DiscardHidesWrites` | examples/persistence/src/jsonl.ts:220-229 | Expecting a number does not notice a write after a discard, because numbers start again. |
| `Findings.RepairRewritesCell` | examples/persistence/src/journal.ts:84-114 | A repair rewrites an op.state cell and leaves its number, so expecting the number still passes. |
| `Findings.OpCellReachable` | examples/persistence/src/jsonl.ts:165-169 | Two calls make such a cell. |
| `Findings.DiscardedParentClosesCycle` | examples/persistence/src/jsonl.ts:220-229 | Discarding a session that others fork from lets a later fork close a cycle. |
| `Findings.TwoPermitsReachable` | examples/persistence/src/children.ts:345-388 | The table of the next row is reached by three ordinary calls. |
| `Findings.SecondCostTakesAnotherHold` | examples/persistence/src/children.ts:411-423 | A second cost on an overrun permit takes the reserved amount from another permit's hold. |
| `Findings.OverrunLosesHold` | examples/persistence/src/children.ts:411-423 | A run of five calls from the empty journal after which a permit is still held and its scope holds nothing. |
| `Findings.ReentryExceedsFanOut` | examples/persistence/src/children.ts:301-314 | Bringing an idle task back with the limit reached exceeds it. |
| `Findings.ReentryReachable` | examples/persistence/src/children.ts:301-314 | A run from the empty journal that creates under a limit of one and ends with two active tasks. |
| `Cron.ParseField` | packages/base/src/schedule-cron.ts:41-54 | A field is accepted if and only if every part has the form and range, and selects exactly the values of its parts; otherwise the error is that of the first part at fault. |
| `Cron.Expand` | packages/base/src/schedule-cron.ts:51-51 | The stepping loop collects exactly start, start + step, ... up to the end. |
| `Cron.ParseCron` | packages/base/src/schedule-cron.ts:56-74 | Five fields in their ranges, weekday 7 as Sunday, the star marks; or the error of the first field at fault, which is that of its first part at fault. |
| `Cron.MatchesAt` | packages/base/src/schedule-cron.ts:134-144 | The look-back loop answers the specified match: the fields agree and no earlier minute of three hours reads the same. |
| `CronDays.DayFieldsCombine` | packages/base/src/schedule-cron.ts:127-132 | With both day fields restricted a minute matches if and only if it does with one of them written as a star; with a star in either, if and only if it does both ways. |
| `CronDays.AnySchedule` | packages/base/src/schedule-cron.ts:127-144 | In calendar terms: minute, hour and month are selected, no minute of the three hours before reads alike, and the day is selected by either of two restricted day fields, or by both fields otherwise. |
| `CronDays.MoreDaysAreNeverLater` | packages/base/src/schedule-cron.ts:127-132 | With both day fields restricted, allowing more days or weekdays never makes the next run later. |
| `CronDays.SearchedMinutes` | packages/base/src/schedule-cron.ts:169-174 | The search tries whole minutes after now only, and every one of the 366 days after it. |
| `Cron.RepeatedTimeFiresOnce` | packages/base/src/schedule-cron.ts:138-143 | Of two minutes within three hours that read alike on the local clock at most one matches. |
| `Cron.FiresOnceExactly` | packages/base/src/schedule-cron.ts:134-144 | In every zone a local time that occurs and matches the fields fires only once if and only if each of its occurrences after the first comes within three hours of the one before. |
| `Cron.FiresExactlyOnce` | packages/base/src/schedule-cron.ts:5-7 | And then it fires exactly once, at its earliest instant. |
| `Cron.SmallFallsArePacked` | packages/base/src/schedule-cron.ts:140-143 | Zones set back by no more than three hours in all over any two days meet the condition. |
| `Cron.LongFallFiresTwice` | packages/base/src/schedule-cron.ts:140-143 | Where the clock is set back by four hours a local time fires twice. |
| `Cron.SkippedDayHasNoMatch` | packages/base/src/schedule-cron.ts:178-187 | A day whose three UTC dates all fail holds no matching instant, for any zone offset under a day. |
| `Cron.NextCronRun` | packages/base/src/schedule-cron.ts:165-195 | The jumping search returns the least matching minute after now within 366 days plus a stagger below the bound, 0 when there is none, and nothing if and only if no such minute exists. |
| `Cron.NextEveryIsNext` | packages/base/src/schedule-cron.ts:158-164 | The fixed-interval run lies on the anchor's grid, after now, with no grid point between. |
| `StreamGuard.HintsAgreeWithEvents` | packages/ai/src/guard.ts:19-70 | A permanent failure is never offered for a retry, by the hint or the event, and normalising twice is normalising once. |
| `GuardLaws.NormalizedSaysNoMore` | packages/ai/src/guard.ts:54-81 | A normalised error may be retried only if its adapter and its kind both allow it, names a wait only then, and has a beginning of the adapter's message; nothing else is added. |
| `GuardLaws.KeepsLongestOpening` | packages/ai/src/guard.ts:101-168 | For every source the output is the longest beginning of it that may begin a legal sequence, as it came, and one outcome: the source's own first error, its own done where that is legal, or a complaint. |
| `StreamGuard.GuardSequence` | packages/ai/src/guard.ts:101-168 | The loop computes the specified output and whether an exception leaves the guard; the output is one legal sequence if and only if none does. |
| `StreamGuard.GuardedIsLegal` | packages/ai/src/guard.ts:88-168 | For every source, finite or throwing: the output is exactly one of error; sent X* error; sent X* usage error; sent X* usage done, and no exception leaves the guard, if and only if the source did not throw, before a terminal event, something whose name cannot be read as text. |
| `StreamGuard.NamelessThrowEscapes` | packages/ai/src/guard.ts:163-166 | After sent, a source that throws null leaves the consumer with a TypeError and no terminal event. |
| `StreamGuard.LegalPasses` | packages/ai/src/guard.ts:88-168 | A legal sequence passes unchanged up to normalisation, whatever the source says afterwards. |
| `StreamGuard.PassesExactlyLegal` | packages/ai/src/guard.ts:88-168 | The legal sequences are exactly those the guard leaves alone up to normalisation. |
| `StreamGuard.GuardIsIdempotent` | packages/ai/src/guard.ts:101-168 | Guarding twice is guarding once, if and only if the source did not throw, before a terminal event, something whose name cannot be read as text or is too long for the message bound. |
| `Inference.RunInference` | packages/ai/src/provider.ts:210-364 | The loop with its two endings emits the specified stream. |
| `Inference.SentFirstTerminalLast` | packages/ai/src/provider.ts:222-364 | For every adapter stream: sent first, exactly one terminal event, and nothing after it. |
| `Inference.OrdinalsAreConsecutive` | packages/ai/src/provider.ts:202-262 | Native calls and calls read out of prose carry 0, 1, 2, ... in emission order. |
| `InferenceLaws.ReportsPassOn` | packages/ai/src/provider.ts:222-364 | Every report that is not prose, up to the first terminal one, is passed on once and in order; without a terminal one a failure follows, as aborted exactly if the adapter threw when aborted. |
| `Inference.ProseConserved` | packages/ai/src/provider.ts:229-248 | The text the emitted prose spells, followed by the text still held, is exactly what the adapter said up to its first terminal event. |
| `Inference.WholeStreamAccounted` | packages/ai/src/provider.ts:222-364 | Over the whole stream, closing events included, the same, with what the end leaves behind. |
| `Inference.NothingLostExactly` | packages/ai/src/provider.ts:336-355 | Everything the adapter said leaves, if and only if it did not throw before a terminal event while text was held. |
| `Inference.ThrowLosesHeldText` | packages/ai/src/provider.ts:336-355 | A partial tag followed by a throw is lost. |
| `Inference.TailHolderIsLawful` | packages/ai/src/provider.ts:202-240 | The laws asked of the decode chain are met by a chain that holds text back. |
| `Inference.HeldTextLeavesFirst` | packages/ai/src/provider.ts:242-248 | Before any event the adapter reports that is not prose, all prose reported so far has left, and nothing stays held. |
| `Facade.InferIsLegal` | packages/ai/src/provider.ts:418-422 | Whatever the adapter does, what the public facade hands out is one legal sequence, and nothing is thrown. |
| `Facade.OrderlyTurnsPass` | packages/ai/src/provider.ts:242-248 | The guard corrects nothing of what the facade makes of an orderly adapter, with any text held back: talk, at most one usage, then an error, a done after the usage, an early end or a throw, and anything after a terminal event. |
| `Admission.AdmitAgh` | tools/rsi-eval/trigger-stats.ts:190-201 | The loop with its early stop admits as many as the greedy choice under the four limits. |
| `Admission.AdmitPrime` | tools/rsi-eval/trigger-stats.ts:203-212 | The single-cooldown loop admits as many as the greedy choice under that limit. |
| `Admission.GreedyStaysAhead` | tools/rsi-eval/trigger-stats.ts:190-212 | The k-th greedy pick comes no later than the k-th pick of any other admissible choice. |
| `Admission.GreedyIsOptimal` | tools/rsi-eval/trigger-stats.ts:190-212 | On candidates in order the greedy choice keeps every limit and no admissible choice is longer. |
| `Admission.AghLetsThrough` | tools/rsi-eval/trigger-stats.ts:190-201 | Two minutes and five turns between neighbours, at most four within an hour, at most ten in all. |
| `Admission.PrimeLetsThrough` | tools/rsi-eval/trigger-stats.ts:203-212 | Twenty minutes between neighbours, and no choice with such gaps is longer. |
| `Admission.OptimalityNeedsOrder` | tools/rsi-eval/trigger-stats.ts:190-201 | Out of time order it can be beaten: three candidates on which it admits one where two are admissible. |
| `SessionStats.AnalyseSession` | tools/rsi-eval/trigger-stats.ts:79-180 | The one-pass counters are right: turns, repeated turns and goals, failures, and for each compaction its remaining turns and steps; and there is one candidate for each compaction and each repeated turn. |
| `SessionStats.CountStep` | tools/rsi-eval/trigger-stats.ts:136-138 | A step is counted for every compaction of the open turn and no other. |
| `SessionStats.StepsGrow` | tools/rsi-eval/trigger-stats.ts:99-111 | A compaction's steps grow exactly with a step of its own turn, until that turn closes. |
| `SessionStats.HitsAreRepetitions` | tools/rsi-eval/trigger-stats.ts:157-166 | The counter reaches the threshold exactly at the error that makes the turn a repeated one. |
| `SessionStats.CandidatesAreOrdered` | tools/rsi-eval/trigger-stats.ts:143-166 | A session read in time order yields candidates ordered by time and completed turns. |
| `SessionStats.SessionAdmissionIsOptimal` | tools/rsi-eval/trigger-stats.ts:190-212 | So for every session read in time order no admissible choice of its triggers beats the greedy one. |
| `CanonicalJson.SameHasOneText` | packages/ai/src/hash.ts:9-18 | Values that differ only in key order and undefined properties have one text. |
| `CanonicalJson.Decode` | packages/ai/src/hash.ts:9-18 | A value can be read back from the front of any text: whatever follows, two values written there are the same. |
| `CanonicalJson.TextDeterminesValue` | packages/ai/src/hash.ts:3-18 | For all values: equal texts if and only if equal up to key order, undefined properties and arrays that hold a lone undefined. |
| `CanonicalJson.LoneUndefinedReadsAsEmpty` | packages/ai/src/hash.ts:11-11 | The last exception is real: such an array reads as an empty one, an array of two does not. |
| `CanonicalLaws.LeqIsLexicographic` | packages/ai/src/hash.ts:14-14 | Keys are ordered by their first different character, a beginning before what it begins. |
| `CanonicalLaws.TwoPropertiesText` | packages/ai/src/hash.ts:13-17 | Two properties stand in the order of their keys, whichever was set first. |
| `CanonicalLaws.ArrayText` | packages/ai/src/hash.ts:11-11 | Elements stand in their order between brackets, separated by commas. |
| `Sorting.SortedIsUnique` | packages/ai/src/hash.ts:13-14 | Sorting leaves no choice: the same strings, counted, give the same sequence. |
| `Registry.BuildTable` | packages/ai/src/registry.ts:46-58 | A table is built if and only if no route is claimed twice, and then holds exactly the claims; otherwise the first conflict and both adapters are named. |
| `Registry.LookupFindsTheOneClaim` | packages/ai/src/registry.ts:62-62 | A route is found if and only if some adapter claims it, and then with the one claim there is. |
| `Registry.ModelRegistry.Seal` | packages/ai/src/registry.ts:68-89 | Reads the catalogues once; a later seal keeps the first reading. |
| `Registry.ModelRegistry.PerformAll` | packages/ai/src/registry.ts:59-97 | Any calls in any order, whatever the catalogues hold at each: before the first seal routes and models are live and the fingerprint is refused; after it all three are those of the one reading that seal took. |
| `Registry.ModelsInOrder` | packages/ai/src/registry.ts:67-67 | The models stand route by route, each route's in its adapter's order. |
| `Registry.SealedOrNot` | packages/ai/src/registry.ts:68-69 | Every call has at most one first seal before it, and one exactly when it is not answered live. |
| `Registry.FingerprintIdentifiesOffers` | packages/ai/src/registry.ts:74-87 | Under an injective hash two fingerprints agree if and only if routes, api, baseUrl and the multisets of model ids agree. |
| `Registry.AdapterOrderDoesNotMatter` | packages/ai/src/registry.ts:74-87 | Under any hash the fingerprint does not depend on the order in which adapters were supplied. |
| `IsolationFrames.Send` | packages/base/src/hooks-isolation-runner.ts:40-48 | Fills the buffer with the big-endian length and the body; refuses exactly beyond the frame and queue limits. |
| `IsolationFrames.LengthRoundTrip` | packages/base/src/hooks-isolation-runner.ts:45-45 | The four bytes read back as the length. |
| `IsolationFrames.LengthIsInjective` | packages/base/src/hooks-isolation-runner.ts:262-262 | No other four bytes read as that length. |
| `IsolationFrames.FrameReader.Data` | packages/base/src/hooks-isolation-runner.ts:258-274 | The loop dispatches every complete frame of what has arrived and keeps the rest, or exits with 70. |
| `IsolationFrames.FrameReader.Serve` | packages/base/src/hooks-isolation-runner.ts:258-275 | Over a whole input in any chunks: the runner exits with 0 if and only if the input is a sequence of whole frames whose messages are all handled, and then it has handled exactly those. |
| `IsolationFrames.ChunksDoNotMatter` | packages/base/src/hooks-isolation-runner.ts:258-274 | However the input is split, the reader ends where one read of the whole would leave it. |
| `IsolationFrames.SentIsDispatched` | packages/base/src/hooks-isolation-runner.ts:40-48 | What was sent is dispatched, each message once and in order up to the first refused, and only an unfinished frame is left. |
| `IsolationFrames.PrefixIsIncomplete` | packages/base/src/hooks-isolation-runner.ts:261-264 | Every proper prefix of a frame is kept waiting. |
| `IsolationFrames.DispatchedWasSent` | packages/base/src/hooks-isolation-runner.ts:258-274 | Conversely a reader that still waits has dispatched exactly the frames its input begins with. |
| `SseReader.Reader.Write` | tools/rsi-eval/usage-proxy.ts:154-162 | The loop uses up every complete line of what has arrived and keeps the rest. |
| `SseReader.ChunksDoNotMatter` | tools/rsi-eval/usage-proxy.ts:154-162 | However the text is split, the reader ends where one write of the whole would leave it. |
| `SseReader.PayloadsOfBlocks` | tools/rsi-eval/usage-proxy.ts:134-169 | For every text and split, the payloads delivered are those of its blocks between empty lines, in order. |
| `SseReader.Reader.ReadAll` | tools/rsi-eval/usage-proxy.ts:134-169 | A whole stream through the methods applies exactly those payloads. |
| `SseStandard.DataFieldIsStandard` | tools/rsi-eval/usage-proxy.ts:149-152 | A line is data for the comparison below exactly if the standard's field name, up to the first colon, is data, and with the standard's value. |
| `SseStandard.JoinIsBuffer` | tools/rsi-eval/usage-proxy.ts:140-142 | Joining the values is the standard's data buffer without its last newline. |
| `SseStandard.StandardUpToOpenEnd` | tools/rsi-eval/usage-proxy.ts:163-167 | Without lone carriage returns and bare data lines the payloads are those of the standard if and only if the text does not end inside an event with data. |
| `SseStandard.StandardUpToBareData` | tools/rsi-eval/usage-proxy.ts:149-152 | Without lone carriage returns and such an end they are if and only if no event holds a data line without a colon. |
| `SseReturns.SameEventsExactly` | tools/rsi-eval/usage-proxy.ts:154-159 | For all lines that end with an empty one: splitting them at their lone carriage returns as well leaves the events the same if and only if no data line holds one, no other line hides a data line behind one, and none hides an empty line between two data lines of an event. |
| `SseReturns.StandardUpToReturns` | tools/rsi-eval/usage-proxy.ts:154-159 | So for every text that ends with an empty line and has no bare data line the payloads are the standard's where carriage returns are harmless in this sense, and only there, unless a line that is not data hides the closing mark behind one. |
| `SseReturns.HiddenMarkIsDropped` | tools/rsi-eval/usage-proxy.ts:138-148 | The exception is real: a hidden closing mark is an event of the standard alone, and dropped. |
| `SseStandard.ReturnInDataIsNotStandard` | tools/rsi-eval/usage-proxy.ts:154-159 | With a carriage return inside a data line they never are. |
| `SseStandard.OpenEventIsDelivered` | tools/rsi-eval/usage-proxy.ts:163-167 | One data line and the end of the text: delivered here, dropped by the standard. |
| `SseStandard.LoneReturnStaysInData` | tools/rsi-eval/usage-proxy.ts:157-159 | A carriage return alone: the end of the line in the standard, part of the value here. |
| `SseStandard.BareDataIsIgnored` | tools/rsi-eval/usage-proxy.ts:149-152 | The line data without a colon: an event with an empty value in the standard, nothing here. |
| `SseStandard.FaultsCancel` | tools/rsi-eval/usage-proxy.ts:149-167 | A text with both a bare data line and an open event whose payloads are the standard's by coincidence. |

## Left out

- File descriptors, fsync, the lock file, liveness of other processes and random ids: the disk is a sequence of bytes, a rename is atomic, and any prefix of an append may survive.
- SHA-256, JSON parsing and UTF-8 of journal lines: a codec and a digest with the laws named above.
- Revision numbers beyond 2^53 - 1: the reader would refuse such a frame, so the agreement of file and map is claimed up to there only.
- The order of entries in a map: searches may pick any match, and theorems show it is the only one.
- The recovery notice in the answer of `open`, and the fields of answers that only repeat rows.
- Metadata namespaces, workspace path updates, `projectTree`, `nextOrdinal`, `scanIntegrity`, `listExpired` and single-row lookups: thin reads or counters.
- Texts of permit and scope ids: permits are integers and scopes a datatype, so that ids are equal exactly when their texts are.
- Fields of a task that no operation looks at (input text, directory, actor, kind, isolation) are one field.
- Integers in answers and revisions are unbounded; the code's safe-integer checks on caller input are part of it only where they refuse a negative or absent value.
- Expiry of leases depends on the clock readings passed to each call; nothing is claimed about real time.
- SseReturns.StandardUpToReturns: the only-if half leaves out texts in which a line that is not data hides a closing mark behind a lone carriage return, because both sides drop the mark (`SseReturns.HiddenMarkIsDropped`).
- A thrown thing whose `name` getter throws that very thing again: each thrown thing raises a smaller one or has a name.
- Runs.RunKeeps: runs discard only sessions that nothing refers to, because of the cycle shown in `Findings.DiscardedParentClosesCycle`.
- Cron text below the level of a field's parts, and `Intl` and the civil calendar themselves; the `once` and `at` schedules and `nextAfterCompletion`, which are one expression each.
- Timing, billing, credits, traces and the setup of an inference before its stream begins.
- The decode chain's own rules, wire adapters, the contract store and credentials.
- Cutting a message inside a surrogate pair: characters are whole.
- Order of strings outside the Basic Multilingual Plane: characters are compared as scalar values; no theorem depends on which total order it is.
- Values that are not JSON (functions, dates, big integers) in canonical JSON, and in-place changes to records that adapters share before a seal.
- Normalising tool errors, quantiles and rates in the trigger statistics: a tool error arrives with its key.
- Decoding bytes to characters and compressed bodies before the reader of server-sent events; what a payload adds to the counts.
- The messages of the hook runner and its capability requests: a handler says what a message does or that it throws.

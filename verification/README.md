# The durable state machines of Dunking Sheep

Dunking Sheep is a daemon that feeds work to coding agents sitting in terminal panes. Its promises are
about whole runs: a prompt is never typed twice, an Enter budget is never refunded, nobody is handed the
review of their own work, mail is read once and in order, a pull request is merged only by a quorum. This
project models the parts of the daemon that carry these promises and proves them for every run.

| module | models |
|---|---|
| `Handoff` | the next-job handoff as a step relation: a durable journal row, a durable inbox receipt, a submit that cannot be undone, and a crash between any two of them |
| `NextJobs` | `deliver`, restart recovery, `observe_turn` and `bind_turn` as methods that make one durable write at a time; a ghost log shows that their writes are a run of `Handoff`, so its promises hold of the class |
| `PaneRuns` | whole runs of these calls on one daemon, and what a lost message does to the handoffs of its pane |
| `Deliveries` | every answer of `deliver`, `bind_turn` and `observe_turn` by the columns of the row and its receipt |
| `Stuck` | the stuck-message tracker and its spent ledger, and the save-before-press discipline of the daemon |
| `StuckHistory` | when the tracker recovers, by the history of the calls alone, and never again once a record has ended |
| `Mail`, `MailStore`, `MailOrder`, `Inbox` | the inbox: life of a message, attachment store, order of reading; then the class whose methods do exactly that |
| `MailTerms` | the same from the message's side: which calls change which of its columns, and to what; what each state's mail is purged by; spellings of a mailbox |
| `Matching`, `Order`, `Allocation`, `AllocationRuns`, `Allocator` | greedy matching and its uniqueness, the allocation pass, author exclusion over runs; then the class |
| `AllocationTerms` | who may take what, who gets it, what is written and what is refused, by the columns of the tables |
| `Quorum`, `ReviewSync` | when a reviewed head is final; the review timer and the verdict handler for one head as functions, and the class that does what they say |
| `ReviewTerms`, `ReviewRuns` | what one pass leaves in progress, posts and files, by its readings and GitHub's answers; runs of passes and verdicts, and the fixes they file |
| `RowLedger` | the accounting ledger: choosing the row an accepted document earns, and inserting it |
| `RowTerms` | the same character by character: ids in a text, a document's own row, the rows of a ledger, every refusal, what is written |
| `FrontMatter`, `Context`, `ContextDisk` | printing and parsing an entry; supersession chains; the store on disk, where every write prints and every read parses, with the ledger of what was written |
| `ContextTerms` | the same read off the files: which entry is retired, which one a name means, what the walk along successors comes to, and what is refused |
| `TextEditor` | the line buffer against a flat string with a cursor offset |
| `Chunker`, `ProcessTree`, `Names` | overlapping chunks, process-tree closure, unique pane names |
| `Wrappers`, `Collections`, `Text`, `Decimal` | options and results, numbers, finite sets and sequences, string operations, decimal numerals |

Time is a number handed in, the terminal and GitHub are answers handed in, a file's bytes stand for their
own SHA-256. Methods that change state are proved equal to a function of the old state, and the promises
are proved about that function over whole histories. Where a promise of the documentation is false of the
code, the code is modelled, a lemma gives a run that breaks the promise, and another says exactly when it
holds.

## What was found on the way

Promises of the documentation or of a comment that the code does not keep on every input, each with an input
that shows it and the exact condition:

- Deleting the inbox message of a handoff that is `sending` lets a restart type the same prompt again
  (`Handoff.DeletedReceiptIsReplayed`): recovery takes a missing receipt as proof that nothing was typed.
  `Handoff.DeletionExact` says exactly when a deletion is safe, and every at-most-once theorem assumes no
  other deletion.
- A submit that was typed and confirmed can end as `undeliverable`: the binding of the pane runs inside the
  guarded part of the attempt and raises when a handoff's message is gone (`NextJobs.ConfirmedButUndeliverable`).
  `NextJobs.ConfirmedEnds` says exactly when, for a call that nothing interferes with: some other handoff of the
  pane waits for its turn to be bound and has no message. Turns observed and messages deleted between the submit and
  the binding count as well, since `observe_turn` runs meanwhile: `NextJobs.BindingEnds` is the same for whatever
  the binding finds, the handoff itself counted in. As long as such a handoff is left, no later handoff of its pane is
  ever started, whatever is called (`PaneRuns.BlockedPaneStartsNothing`).
- A slug used again in another class can close a supersession cycle, in two writes
  (`ContextDisk.CycleInTwoWrites`, `Context.SharedSlugMakesCycle`). `Context.ChangeBreaksExactly` says exactly
  which entries a write makes unresolvable: those of the chain it extends, when an older entry of that chain has
  the new slug and is found in place of the new entry, or is itself what is resolved. `Context.UniqueExactly` is
  about the slugs alone, a condition that is sufficient and easier to check.
- A value with three dashes ends the front matter where it stands. In a source it loses the links below it
  (`ContextDisk.LostLink`), in a subject it makes the file unreadable and `resolve` raise
  (`ContextDisk.UnreadableSubject`). `ContextDisk.PutReadsBackExactly` says exactly when the store reads back what
  it wrote: when every value is safe. For values that stay on their lines, `FrontMatter.KeptExactly` says what of
  each is read, `ContextDisk.UnreadableExactly` exactly when the file cannot be read, and
  `ContextDisk.LinksLostExactly` exactly when it loses its links and its retirement.
- A veto that lands after the deciding read and before the call does not stop a merge
  (`ReviewSync.VetoCanComeTooLate`, and `ReviewSync.MergeOverVeto` through the handler);
  `ReviewSync.LateVetoInTick` and `ReviewSync.LateVetoInAccept` say exactly when that happens. No decision made
  after a veto merges (`ReviewSync.NoMergeDecidedAfterVeto`).
- The documentation speaks of any needs-fix, but one without a lane stops nothing
  (`Quorum.LanelessNeedsFixIsIgnored`): a needs-fix stops a head exactly when its reviewer is bound to a lane
  (`Quorum.NeedsFixStopsExactly`). `task_complete` refuses a completer without a pane (dunk_core.py:2964-2970), so such
  a row is an older one, or one whose verdict was recorded (dunk_core.py:2825) before its completion was refused and
  which `task_update` then set to done without a pane (dunk_core.py:2738, dunk_tasks.py:778).
- docs/ALLOCATION.md excludes the completer of the source from its review. Somebody who completes the source
  after the submission is handed it (`AllocationRuns.LaterCompleterReviews`); excluded are exactly those who were
  an owner, the creator or the completer at one of the submissions (`AllocationRuns.ExcludedExactly`).
- `with_row` says that line ends are kept as they are. A ledger with two kinds is rewritten throughout
  (`RowLedger.MixedEndsAreRewritten`, `RowLedger.WrittenEnds`); the change is one inserted line exactly when every
  line end of the text is the one it writes (`RowLedger.OneLineDiffExactly`).
- `purge` says that it drops read, acknowledged and cancelled mail. It drops archived and undeliverable mail as
  well (`MailStore.ArchivedIsPurged`); `MailStore.PurgeIsAsDocumented` says exactly when it does what it says.
- The inbox says that a mailbox is ordered. It is read in the order of the stamps, so a clock set back between two
  posts turns them round (`MailOrder.ClockSetBackBreaks`). `MailOrder.OrderBreaksExactly` says exactly which post can
  do that: one stamped no later than a message waiting in its mailbox. (With equal stamps the order is the database's.)
- `mailbox_where` says that it matches either spelling of one mailbox. It also matches `ops (old)` for `ops`
  (`Mail.BracketedNameIsMatched`); `Mail.MatchedIsSameExactly` says exactly which matches `normalise_mailbox`
  takes for the same mailbox.

And what the tracker and the timer do beyond their promises:

- A ledger-writing look at a record of another pane generation can refund the Enter budget
  (`Stuck.FlickeringGenerationRefunds`). `Stuck.BudgetExactly` is the exact condition: a look puts the budget at
  risk if and only if it lowers its own ledger entry. The daemon passes no such look: it forgets the pane when the
  generation is unknown (dunk_core.py:6434-6439), and a mismatch there makes the status unknown
  (dunk_core.py:6891-6894). `Stuck.BudgetByGeneration` covers every run in which writing looks carry their record's
  own generation, an unknown one included.
- A record of a stuck text may be dated back to when the text was first seen, and recover too soon after the last
  recovery of its pane (`Stuck.BackdatedStartIsNotSpaced`). `Stuck.SpacingExactly` is the exact condition on the look
  that starts it, and nothing else about the clock matters.
- A head that waits for more lanes and whose last finished review is a needs-fix of nobody's lane has its second
  review cancelled and filed again by every pass (`ReviewSync.RepeatedTickRefiles`, exactly then); nothing is
  posted again (`ReviewSync.RepeatedTickPostsNothing`).
- A needs-fix that meets a standing accept leaves the commit status as it was, as its comment says; the next pass
  of the timer sets it (`ReviewSync.NeedsFixIsPutRight`).

## Model

| member | source | states |
|---|---|---|
| `Handoff.StepKeepsInv` | dunk_next_job.py:125-285 | every step of the protocol, an abort at any point and interference included, and the failure of a confirmed sender while it binds its pane, keeps the invariant that ties submits, journal state, receipt and sender position together |
| `Handoff.RunKeepsInv` | dunk_next_job.py:102-123 | so does every run of any number of handoffs, with crashes and restarts anywhere |
| `Handoff.AtMostOnce` | dunk_next_job.py:142-167 | each handoff id is submitted at most once in every run; `pending`, or `sending` with a missing or older receipt attempt, means nothing was typed; `sent`, `started` and a `sent` receipt mean exactly one submit |
| `Handoff.SubmitsOnlyWhenReserved` | dunk_next_job.py:190-214 | typing happens only in an attempt reserved before it, with nothing typed for that id so far |
| `Handoff.TerminalNeverSubmits` | dunk_next_job.py:133-134 | a handoff at rest in started, undeliverable or cancelled never submits again and never leaves these states, receipt deletions included |
| `Handoff.StartedIsProduced` | dunk_next_job.py:263-285 | `started` means one submit, and a producer turn that names this handoff and began no earlier than the submitted attempt |
| `Handoff.OneSenderPerPane` | dunk_next_job.py:27-29 | two handoffs of one pane are never in flight together |
| `Handoff.BackoffTelescopes` | dunk_dispatch.py:592-604 | doubling gaps between consecutive reservations add up to gap * (2^k - 1) |
| `Handoff.RetrySchedule` | dunk_dispatch.py:592-604 | at most `max_attempts` reservations, crashes included, and the one after k retries comes no earlier than gap * (2^k - 1) after the first |
| `Handoff.DeletionExact` | dunk_next_job.py:146-156 | deleting a receipt can lead to a second submit if and only if the row says `sending` with a retry left |
| `Handoff.DeletedReceiptIsReplayed` | dunk_next_job.py:148-153 | from nothing: one submit, a crash, the message deleted, and the restart types it again |
| `NextJobs.AttemptSpendsOnce` | dunk_next_job.py:190-239 | one attempt up to the binding of the pane, wherever the process dies in it: a surviving reservation is spent, at most one submit and exactly when gates and transport let it, the journal ends in the verdict or in `sending` |
| `NextJobs.RaisesExactly` | dunk_next_job.py:263-285 | binding a pane raises exactly when some handoff of the pane waits for its turn to be bound and its message is gone |
| `NextJobs.BindsUpToMissing` | dunk_next_job.py:263-285 | in the order of the journal, exactly the bindable handoffs of the pane before the first such one become started, and no other row changes |
| `NextJobs.BindingEnds` | dunk_next_job.py:217-239 | where the binding leaves the sender of a confirmed submit in any fleet it finds, interference since the submit included: `undeliverable` if and only if a handoff of the pane, this one counted in, waits for its turn to be bound without its message; otherwise as it was, or `started` |
| `NextJobs.ConfirmedEnds` | dunk_next_job.py:217-239 | a confirmed submit in a call nothing interferes with ends as `undeliverable` if and only if another handoff of the pane waits for its turn to be bound and has lost its message; otherwise as `sent` or `started`; one submit either way |
| `NextJobs.ConfirmedButUndeliverable` | dunk_next_job.py:229-239 | a run of the class, every step of it allowed, that ends with a typed and confirmed handoff journalled `undeliverable` |
| `PaneRuns.BlockedPaneStartsNothing` | dunk_next_job.py:263-285 | over any run of looks, turns, new intents, cancellations and deletions during which a handoff waits to be bound without its message, no later handoff of its pane becomes started |
| `NextJobs.RecoveryNeverTypes` | dunk_next_job.py:138-167 | recovery types nothing and starts no attempt; where it ends depends only on the receipt |
| `NextJobs.DeclineNeverTypes` | dunk_next_job.py:168-189 | a closed gate, a running turn or a backoff leave the row as it was; exhausted retries and a lost claim are final (`Deliveries.DeclinedExactly` says it by the columns) |
| `NextJobs.DeliveredFacts` | dunk_next_job.py:125-239 | for one whole `deliver`: attempts and submits go up by at most one, and exactly when an attempt was due (`Deliveries.TriedExactly` says when that is) |
| `Deliveries.RetryPlanExactly` | dunk_dispatch.py:592-604 | a retry is refused for good at the limit, waits until the doubled gap since the last attempt has passed, and is taken from that moment on |
| `Deliveries.EndedIsLeft` | dunk_next_job.py:133-134 | a started, undeliverable or cancelled handoff is left alone by every call |
| `Deliveries.FinishedIsCancelled` | dunk_next_job.py:135-137 | the handoff of a finished task is cancelled, whatever else is found, and nothing else is written |
| `Deliveries.SendingIsLeft` | dunk_next_job.py:138-164 | an attempt in flight is left to its sender unless this is a restart and the sender is dead |
| `Deliveries.RecoveredExactly` | dunk_next_job.py:143-163 | the attempt of a dead sender, after a restart that lives through it: pending again without a receipt of that attempt, sent with a receipt of success and its time, undeliverable otherwise; nothing typed, no attempt counted, no other handoff touched but by the binding |
| `Deliveries.RecoveryDies` | dunk_next_job.py:143-163 | a death in recovery leaves all as it was, or the note that the delivery was interrupted |
| `Deliveries.SentIsBound` | dunk_next_job.py:165-167 | a confirmed handoff is only bound |
| `Deliveries.TriedExactly` | dunk_next_job.py:168-196 | a pending handoff of an unfinished task, in a call that lives through its first act, is reserved if and only if the gate is open, no turn is running, the claim stands, a retry is left and its time has come; in every other case the attempt number, the reservations and the submits stay |
| `Deliveries.DeclinedExactly` | dunk_next_job.py:168-192 | what becomes of a pending handoff in each of the other cases: held, left alone, given up at the limit or without a claim, and what is noted on its receipt |
| `Deliveries.DeclineDies` | dunk_next_job.py:168-192 | a death in these leaves all as it was, or the note |
| `Deliveries.HeldRowStays` | dunk_next_job.py:168-178 | with the gate closed or a turn running the row and the submits stay as they are, wherever the process dies |
| `Deliveries.TriedEnds` | dunk_next_job.py:193-239 | the row, the receipt, the reservation and the submit after an attempt, for each answer of the terminal and each pause; a confirmed one goes on to bind its pane |
| `Deliveries.DiedExactly` | dunk_next_job.py:193-239 | a process that dies in an attempt leaves exactly its first writes, for every place to die, and no sender of any handoff |
| `Deliveries.StartedExactly` | dunk_next_job.py:270-283 | binding makes a handoff started if and only if it is of the pane, confirmed and delivered, its turn names it and began no earlier than its attempt, and its receipt says sent |
| `Deliveries.MissingExactly` | dunk_next_job.py:271-277 | the rows at which binding raises, column by column |
| `Deliveries.BoundSender` | dunk_next_job.py:229-239 | the sender of a confirmed submit lets go of its handoff, or makes it undeliverable when the binding raised, in two writes between which it may die |
| `Deliveries.BindingDies` | dunk_next_job.py:229-239 | a death in the binding leaves what was bound before it, and no sender |
| `Deliveries.TurnKeptExactly` | dunk_next_job.py:241-256 | a turn is kept for the handoff it names if and only if that one is of the pane, in flight or confirmed, was tried no later than the turn began, and has none yet |
| `Deliveries.TurnBinds` | dunk_next_job.py:247-261 | and its pane is bound then, unless somebody is sending or the turn names no handoff |
| `NextJobs.NextJobs.Deliver` | dunk_next_job.py:125-239 | the journal, the receipts and the sender after the call are those of `AfterDeliver`, the binding of the pane, what its exception does and a death anywhere in it included, and the writes made are a legal and harmless continuation of the protocol run |
| `NextJobs.NextJobs.KeepsInv` | dunk_next_job.py:102-285 | whatever methods were called, each handoff was submitted at most once, was reserved at most `max_attempts` times, and satisfies the invariant of the protocol |
| `NextJobs.NextJobs.AttemptDelivery` | dunk_next_job.py:190-239 | the writes of one attempt, up to the act after which the process dies |
| `NextJobs.NextJobs.RecoverDelivery` | dunk_next_job.py:138-167 | the writes of restart recovery, up to the act after which the process dies |
| `NextJobs.NextJobs.UpdateNextJob` | dunk_tasks.py:1192-1213 | one journal row is replaced and nothing else |
| `NextJobs.NextJobs.UpdateExpected` | dunk_tasks.py:1192-1213 | with expected values, nothing is written when the row has moved on since it was read |
| `NextJobs.NextJobs.RecordNotify` | dunk_inbox.py:363-370 | an update of the receipt columns of one row, and of none when the row is gone |
| `NextJobs.NextJobs.EnsureNextJob` | dunk_inbox.py:255-273 | an existing receipt is never replaced |
| `NextJobs.NextJobs.BindTurn` | dunk_next_job.py:263-285 | the loop ends, by its end, by the exception of a missing message or by a death before any row, in the fleet of `Bindings` |
| `NextJobs.NextJobs.ReadTurn` | dunk_next_job.py:241-252 | the reading half of `observe_turn`: which attempt the turn answers, if any |
| `NextJobs.NextJobs.StoreTurn` | dunk_next_job.py:252-256 | the writing half, however late: the turn is stored if and only if the attempt read is still the current one and no turn is stored |
| `NextJobs.NextJobs.ObserveTurn` | dunk_next_job.py:241-261 | a producer turn is recorded once, only for the handoff it names and only if it began after the attempt; the pane is bound then if nobody is sending, up to a death if there is one |
| `NextJobs.NextJobs.DeleteMessage` | dunk_inbox.py:926-942 | deleting a handoff's message at any time: which row goes, and that a deletion the protocol can bear keeps the invariant |
| `NextJobs.NextJobs.CancelNextJob` | dunk_tasks.py:1192-1213 | the intent is cancelled in the journal, whatever its state was |
| `Stuck.FingerprintIsWords` | dunk_stuck.py:50-62 | two texts have one fingerprint exactly when they have the same words, whatever the white space |
| `Stuck.BudgetOverRuns` | dunk_stuck.py:192-318 | over any mix of sightings, resets, forgets, terminal marks and reloads, a message in one pane generation gets at most `max_attempts` recoveries, the ledger counts them exactly, and the live record agrees with it |
| `Stuck.BudgetByGeneration` | dunk_stuck.py:192-318 | the same budget for every run whose ledger-writing looks carry the generation of their record, known or not |
| `Stuck.BudgetWhileNotLowered` | dunk_stuck.py:192-318 | and for every run in which no look lowers its ledger entry, whatever the generations |
| `Stuck.BudgetExactly` | dunk_stuck.py:192-318 | after any run whose writing looks carry their record's generation, the next look makes more than `max_attempts` recoveries possible, by a continuation that itself lowers nothing, if and only if it lowers its ledger entry |
| `Stuck.RecoveryAgreesExactly` | dunk_stuck.py:235-318 | one recovery: record and ledger entry stay equal if and only if the observation carried the record's generation |
| `Stuck.FlickeringGenerationRefunds` | dunk_stuck.py:192-198 | the tracker alone: two recoveries where one is allowed, when the generation is unknown in between |
| `Stuck.RecordIsFold` | dunk_stuck.py:235-318 | the live record of a pane is determined by the sightings since the one that started it |
| `Stuck.RecoveryMeansStuck` | dunk_stuck.py:248-318 | a recovery is taken only if for at least the threshold every sighting of the pane was owned, idle, free of dialogs and unchanged |
| `Stuck.RecoveriesAreSpaced` | dunk_stuck.py:300-318 | two recoveries of one pane are at least the smaller of threshold and cooldown apart, resets, reloads, changing limits and any clock included, when no look starts a record so far back that it is old enough too soon after the last recovery |
| `Stuck.SpacingExactly` | dunk_stuck.py:300-318 | after any such history, the next look makes two recoveries too close together possible, by a continuation that itself starts no record too far back, if and only if it starts one |
| `Stuck.RecoveriesPerWindow` | dunk_stuck.py:300-318 | so a window of length W holds at most 1 + W / that gap of them |
| `Stuck.BackdatedStartIsNotSpaced` | dunk_core.py:6461-6465 | a record dated before the last recovery of its pane may recover at once |
| `Stuck.PressesWithinBudget` | dunk_stuck.py:204-219 | because the reservation is saved before the key is pressed, no sequence of crashes, saves and reloads presses Enter more often than the budget allows |
| `StuckHistory.ResetsExactly` | dunk_stuck.py:244-270 | a look resets if and only if ownership, status, dialogs, the message, the text or the pane's generation forbid a recovery, and what it removes |
| `StuckHistory.StartsExactly` | dunk_stuck.py:272-279 | a look starts a record if and only if there is none and nothing forbids it; the record counts what the ledger has spent |
| `StuckHistory.JudgesExactly` | dunk_stuck.py:281-318 | a look at an unchanged record answers by its terminal mark first, then its age, its attempts and its last recovery, and what it writes to record and ledger in each case |
| `StuckHistory.NoRecoveryOnceTerminal` | dunk_stuck.py:281-300 | over any run, once the live record of a pane was marked terminal or found exhausted, no look at the pane is a recovery while that record lives, whatever limits later looks bring; each clean look at it says terminal and changes neither record nor ledger |
| `StuckHistory.RecordIsTold` | dunk_stuck.py:235-326 | the live record is told from the history: by the look that began it, the recoveries since, and whether something ended it |
| `StuckHistory.RecoversExactly` | dunk_stuck.py:235-318 | a look recovers if and only if the look that began the record is of the same message, text and pane, nothing has ended it since, it began at least the threshold ago, attempts are left counting those of the ledger then, and the last recovery is at least the cooldown ago |
| `StuckHistory.PressedExactly` | dunk_core.py:6471-6518 | Enter is pressed exactly by a look that recovers and was saved, and what was saved holds the reservation; a crash brings back what was saved |
| `Stuck.Tracker.DecideNow` | dunk_stuck.py:235-318 | the state left and the decision returned are exactly those of the specification the run theorems are about |
| `Stuck.Tracker.Reserved` | dunk_stuck.py:196-198 | what the ledger has spent on a message, nothing if it does not know it |
| `Stuck.Tracker.Judge` | dunk_stuck.py:281-318 | the same for the part that weighs an unchanged record |
| `Stuck.Tracker.Reset` | dunk_stuck.py:231-233 | only the pane's record goes, the ledger stays |
| `Stuck.Tracker.MarkTerminalNow` | dunk_stuck.py:320-323 | only the record's terminal reason changes |
| `Stuck.Tracker.ForgetNow` | dunk_stuck.py:325-326 | the record goes and the spent ledger keeps the count |
| `Stuck.Tracker.Save` | dunk_stuck.py:204-206 | both halves of the state are saved |
| `Mail.MatchedIsSameExactly` | dunk_inbox.py:143-165 | a mailbox that `mailbox_where` matches is the same mailbox for `normalise_mailbox` if and only if the name is spelled the same and one pane id in brackets is all that follows |
| `Mail.BracketedNameIsMatched` | dunk_inbox.py:160-165 | `ops (old)` is matched for `ops` and is another mailbox |
| `Mail.EffectAges` | dunk_inbox.py:471-513 | every bulk update leaves a row alone or moves it strictly up its life cycle with the matching stamps, except that re-publishing makes it unread again |
| `Mail.TransitionMoves` | dunk_inbox.py:890-924 | `ack` and `cancel` move each changed row once from an allowed state and touch no other; without a refusal the changed rows are exactly the named ones in an allowed state; a refusal is for a missing or foreign row, and the rows before it stay moved |
| `Mail.TransitionStops` | dunk_inbox.py:896-910 | after a refusal the remaining ids are not looked at |
| `MailStore.StepAges` | dunk_inbox.py:746-924 | every call but a re-published digest leaves a message as it is, moves it strictly up queued < read, cancelled, undeliverable < acked < archived keeping every stamp, or removes it |
| `MailStore.StepAdds` | dunk_inbox.py:242-314 | a new message is the next number of the counter or a handoff's own id, is queued, and carries no stamp |
| `MailStore.LifeOverRuns` | dunk_inbox.py:746-924 | over any stretch of a run in which it is neither removed nor re-published, a message stays or moves up its life cycle and keeps every stamp |
| `MailStore.PurgeIsAsDocumented` | dunk_inbox.py:944-962 | a purge drops only read, acknowledged and cancelled mail if and only if no archived or undeliverable message is past its retention |
| `MailStore.ArchivedIsPurged` | dunk_inbox.py:944-962 | runs in which a handoff's message is put in, becomes undeliverable, is archived with that reason, and is gone after the next purge |
| `MailTerms.PurgedExactly` | dunk_inbox.py:944-962 | what a purge drops, by state and stamp: acknowledged, cancelled and read mail by the stamp of that, undeliverable mail by its posting, archived mail by the first it has of acknowledged, read and archived; waiting mail never |
| `MailTerms.PurgeReadsTheStamps` | dunk_inbox.py:949-952 | nothing all of whose stamps are at or after the cutoff goes, and everything but waiting mail goes that is older by all it has |
| `MailTerms.GoneExactly` | dunk_inbox.py:926-962 | a message leaves the database by a purge or by its name in a deletion all of whose names are there, the messages left keep their columns, and a refused deletion changes nothing |
| `MailTerms.AddedExactly` | dunk_inbox.py:255-351 | when a call adds a message, and every column of it |
| `MailTerms.CountedExactly` | dunk_inbox.py:242-313 | the counter goes on exactly when it gave a number; the files of a sent message become its attachments, numbered from one, and no other call adds any |
| `MailTerms.StaysExactly` | dunk_inbox.py:316-351 | a digest published again is unread under its old number and date; only a bulk update, an `ack` or a `cancel` changes any other message that stays |
| `MailTerms.ReadExactly` | dunk_inbox.py:471-513 | a message becomes read if and only if it waits and a marking read hands it out or it is named; it gets the stamp and nothing else |
| `MailTerms.SettledExactly` | dunk_inbox.py:746-757 | it becomes acknowledged, or cancelled, if and only if such a call reaches its id without a refusal before and its state allows it; the stamps it gets |
| `MailTerms.UndeliverableExactly` | dunk_inbox.py:792-829 | it becomes undeliverable if and only if it waits and a report of live panes that is not empty lacks its pane, or the pane that its mailbox is |
| `MailTerms.ArchivedExactly` | dunk_inbox.py:759-888 | it becomes archived if and only if its mailbox is archived, in a chosen state and before the caller's date; or it is undeliverable, or its mailbox retired, for longer than an age; stamps and reasons it has stay |
| `MailTerms.SameStateExactly` | dunk_inbox.py:353-361 | a message whose state stays moves with its renamed mailbox and changes in nothing else |
| `MailTerms.MovedExactly` | dunk_inbox.py:890-924 | what `ack` and `cancel` make of each row |
| `MailTerms.ChangedExactly` | dunk_inbox.py:890-924 | which ids they report as changed |
| `MailTerms.ReportedInOrder` | dunk_inbox.py:890-924 | in the order in which they were named |
| `MailTerms.RefusedExactly` | dunk_inbox.py:900-910 | the first id that is missing or in another mailbox says how they end, and what was changed before it stays changed |
| `MailTerms.StoredExactly` | dunk_inbox.py:966-986 | the files of a message are stored if and only if each is there, not too big, and stored already or within what the files before it leave |
| `MailTerms.FirstRefused` | dunk_inbox.py:966-986 | the first file that is not says which refusal it is, and what was stored before it stays |
| `MailTerms.OfExactly` | dunk_inbox.py:1029-1033 | the attachments of a message are those that name it, in their order |
| `MailTerms.TotalIsSize` | dunk_inbox.py:1006-1013 | what counts against the ceiling of the store is the size of all its files together |
| `MailTerms.BytesAreUtf8` | dunk_inbox.py:289-290 | the length a text is measured by is that of its UTF-8 encoding |
| `MailTerms.PaneMailboxExactly` | dunk_inbox.py:809-816 | which mailboxes are a pane's own |
| `MailTerms.MatchesExactly` | dunk_inbox.py:160-169 | which mailboxes bulk archiving takes for one |
| `MailTerms.BracketsAreDropped` | dunk_inbox.py:140-157 | a pane in brackets behind a name is left out of it, unless nothing else is there |
| `MailTerms.OtherNamesStay` | dunk_inbox.py:140-157 | every other name is only trimmed |
| `Inbox.RetiredExactly` | dunk_inbox.py:851-888 | which mail of retired mailboxes is archived, whatever the caller's own check says, and with which reason |
| `MailStore.RunIsSound` | dunk_inbox.py:275-351 | in every run the stamps match the states, numbers stay below the counter, digests are unique, and the attachment store is sound |
| `MailStore.BlobsStaySound` | dunk_inbox.py:966-1025 | after any call every attachment's file is in the store, the store holds each file once and stays within its ceiling |
| `MailStore.AttachmentsStay` | dunk_inbox.py:926-962 | no call changes the attachments of a message that is there before and after it, whoever shares their files |
| `MailStore.StoreExactly` | dunk_inbox.py:1015-1025 | from a store that holds exactly the files in use, the next call leaves such a store if and only if it is not a `send` refused after storing a new file; a deletion or a purge that drops something restores it |
| `MailStore.KeepFilesHolds` | dunk_inbox.py:966-986 | files stored without a refusal are all held |
| `MailStore.KeepFilesOnly` | dunk_inbox.py:966-986 | and nothing else was added |
| `MailStore.CollectedSound` | dunk_inbox.py:1015-1025 | collection keeps exactly the files some attachment names |
| `MailStore.ReadAtMostOnce` | dunk_inbox.py:471-495 | in every run a message is handed out by marking reads at most once for each time it appeared or was re-published, with one still open while it is unread |
| `MailStore.NumbersAreNotReused` | dunk_inbox.py:242-251 | a number of the counter is given to one message in the whole run, deletions included |
| `MailStore.SentIsReadOnce` | dunk_inbox.py:275-314 | a sent message that is never re-published is handed out at most once |
| `MailOrder.ReadTakesTheFront` | dunk_inbox.py:471-495 | a marking read takes the front of the queue of posts and leaves the rest of it in place |
| `MailOrder.ReadsFollowTheOrder` | dunk_inbox.py:471-495 | the marking reads of a mailbox, one after the other, are a subsequence of what was posted, when no post is stamped at or before a message waiting there and nothing old is brought in |
| `MailOrder.OrderBreaksExactly` | dunk_inbox.py:471-495 | after any such history, a new message makes reads in another order possible, by a continuation that keeps the condition, if and only if it is stamped no later than one waiting in its mailbox |
| `MailOrder.ClockSetBackBreaks` | dunk_inbox.py:275-314 | two sends with the clock set back between them |
| `Inbox.Inbox.StoreBlobs` | dunk_inbox.py:293-293 | the files are stored in order up to the first refusal |
| `Inbox.Inbox.CollectBlobs` | dunk_inbox.py:1015-1025 | the directory afterwards is the collected one |
| `Inbox.Inbox.SendMessage` | dunk_inbox.py:275-314 | the database after `send`, accepted or refused, and which refusal it is |
| `Inbox.Inbox.UpsertDigest` | dunk_inbox.py:316-351 | one row per digest id, updated in place and unread again |
| `Inbox.Inbox.EnsureNextJobMessage` | dunk_inbox.py:255-273 | an existing row is never replaced; a changed recipient is refused |
| `Inbox.Inbox.Oldest` | dunk_inbox.py:481-484 | the batch is the oldest waiting messages of the mailbox, oldest first, as many as the limit allows |
| `Inbox.Inbox.Read` | dunk_inbox.py:471-495 | what is returned, attachments included, and what is marked |
| `Inbox.Inbox.MarkReadIds` | dunk_inbox.py:497-513 | only rows still queued move, and the count is theirs |
| `Inbox.Inbox.Transition` | dunk_inbox.py:890-924 | the rows after `ack` or `cancel`, the changed ids, and which refusal ended it |
| `Inbox.Inbox.ArchiveBox` | dunk_inbox.py:759-790 | which rows are archived, and both refusals |
| `Inbox.Inbox.MarkGone` | dunk_inbox.py:792-829 | the two updates together make undeliverable exactly the queued messages for a pane that is gone, by pane or by mailbox, and the count is theirs; nothing without a live pane |
| `Inbox.Inbox.AutoArchiveOld` | dunk_inbox.py:831-849 | which undeliverable rows are archived, and how many |
| `Inbox.Inbox.ArchiveRetiredBoxes` | dunk_inbox.py:851-888 | which rows of retired mailboxes are archived, and how many: only of the mailboxes that the caller's own check lets through, and none inside somebody else's transaction |
| `Inbox.Inbox.RenameMailbox` | dunk_inbox.py:353-361 | every message of the old key moves, and how many |
| `Inbox.Inbox.DeleteIds` | dunk_inbox.py:926-942 | all named messages go, or none |
| `Inbox.Inbox.PurgeOld` | dunk_inbox.py:944-962 | exactly the rows not queued and last touched before the cutoff go, with the files only they used |
| `Matching.GreedyIsMatched` | dunk_allocator.py:197-236 | the nested loops give a one-to-one matching of fitting pairs in which no fitting worker is passed over |
| `Matching.OnlyGreedyIsMatched` | dunk_allocator.py:197-236 | and there is no other such matching |
| `Matching.LeftoversHaveNoTaker` | dunk_allocator.py:197-236 | for a thing left over every fitting taker is used by an earlier thing |
| `Order.Sort` | dunk_tasks.py:620-625 | candidates and workers are gone through in the order of their keys, each once |
| `Allocation.PassIsGreedy` | dunk_allocator.py:178-240 | one pass chooses exactly the greedy matching of what fitted before it, writes lease, owner, intent, offer and turn of the chosen pairs, and nothing else |
| `Allocation.StaysFree` | dunk_allocator.py:213-219 | what the pass has written so far does not change whether another worker is busy, owns work or expects a prompt |
| `AllocationRuns.PassIsFair` | dunk_allocator.py:178-240 | pairs fit: they meet pool, role, skill, exclusion, idleness and freedom; no task and no worker twice; a fitting worker is never left over or given to a later task while a task it fits stays unassigned |
| `AllocationTerms.FitsExactly` | dunk_allocator.py:199-219 | who may take what, column by column: task open, shared, unblocked and unclaimed, its offer ready and its owners unchanged; worker enabled, idle, not excluded, in pool and role, with every needed skill, and not occupied |
| `AllocationTerms.OccupiedExactly` | dunk_allocator.py:213-219 | occupied is a worker with a claim on a task in progress, with a task of its own in progress or ready that it has not put up for allocation, or with an intent still to be delivered |
| `AllocationTerms.AllocatedFairly` | dunk_allocator.py:178-240 | on these columns: each pair handed out may be, no task and no worker twice, and of a task and a worker that may take it either the task goes to a worker whose turn is no later or the worker gets a task that comes sooner |
| `AllocationTerms.AllocatedWrites` | dunk_allocator.py:221-235 | everything a pass writes, and that nothing else changes |
| `AllocationTerms.RegisteredExactly` | dunk_allocator.py:49-70 | a registration writes what it was given; a known worker keeps its turn |
| `AllocationTerms.OfferRefusedExactly` | dunk_allocator.py:77-89 | exactly which tasks can be offered, and the reason for every other |
| `AllocationTerms.OfferedExactly` | dunk_allocator.py:99-111 | the row an offer writes; none for a canonical review |
| `AllocationTerms.SubmissionRefusedExactly` | dunk_allocator.py:113-138 | every submission that is refused before anything is written, and the one that is answered from the book |
| `AllocationTerms.SubmittedExactly` | dunk_allocator.py:139-176 | the review task, new or opened again, its text, its owner, whom its offer excludes, and what is recorded |
| `Order.LessExactly` | dunk_tasks.py:620-625 | names are ordered as their first different characters, a beginning before the whole |
| `AllocationRuns.SecondPassIsIdle` | dunk_allocator.py:220-235 | the next pass with the same idle workers allocates nothing, so no offer is claimed twice |
| `AllocationRuns.ReviewsExclude` | dunk_allocator.py:113-176 | in every run each source has one review task of its own, and its exclusion set is exactly the parties recorded at its submissions |
| `AllocationRuns.BarredForEver` | dunk_allocator.py:161-168 | whoever was barred stays barred; a review keeps its task and its author |
| `AllocationRuns.ExcludedExactly` | dunk_allocator.py:159-166 | in every run the review of a source excludes somebody if and only if they were its owner, creator or completer at one of its submissions |
| `AllocationRuns.LaterCompleterReviews` | dunk_allocator.py:159-166 | a run in which somebody completes the source after its submission and is handed its review |
| `AllocationRuns.NeverReviewsOwnWork` | dunk_allocator.py:205-208 | no pass of any run hands a review to its author or to anybody else barred from it |
| `AllocationRuns.ResubmittingIsIdempotent` | dunk_allocator.py:130-138 | repeating a submission returns the same review task and changes nothing |
| `Allocator.TakesIsFits` | dunk_allocator.py:205-219 | the test made in the loop, on tables already written to, agrees with fitness before the pass |
| `Allocator.AllocationStore.RegisterWorker` | dunk_allocator.py:49-70 | what a registration accepts; a known worker keeps its place in the queue |
| `Allocator.AllocationStore.OfferRow` | dunk_allocator.py:77-97 | the offer row, or the refusal and no change |
| `Allocator.AllocationStore.OfferTask` | dunk_allocator.py:99-111 | a canonical review cannot be offered as work |
| `Allocator.AllocationStore.SubmitReview` | dunk_allocator.py:113-176 | the book after a submission, every refusal rolled back |
| `Allocator.AllocationStore.Allocate` | dunk_allocator.py:178-240 | the nested loops end in the book and the pairs of the specified pass |
| `Quorum.FinalExactly` | dunk_review.py:251-268 | a head is final exactly when some set of `required` distinct lanes accepted it, the deciding one counted in, and no lane asked for a fix |
| `Quorum.DesiredIsOfTheLanes` | dunk_review.py:358-359 | the desired status depends only on which lanes accepted and which asked for a fix, not on order or repetition |
| `Quorum.DecidingLaneTips` | dunk_review.py:262-268 | counting the deciding lane in matters exactly when it is the one still missing |
| `Quorum.VetoStands` | dunk_review.py:262-268 | once a lane has asked for a fix no later reading finds the head final |
| `Quorum.NeedsFixStopsExactly` | dunk_review.py:251-260 | one more needs-fix makes the wanted status failure if and only if its reviewer is bound to a lane, and otherwise changes no judgement |
| `Quorum.LanelessNeedsFixIsIgnored` | dunk_review.py:251-268 | a head that one lane accepted is final although another reviewer wants a fix |
| `ReviewSync.NoMergeDecidedAfterVeto` | dunk_review.py:556-586 | every merge ever asked for had been decided before the first veto landed |
| `ReviewSync.TickKeepsDecided` | dunk_review.py:368-527 | no pass asks for a merge but on its own reading of a final head, whatever it reads and GitHub answers |
| `ReviewSync.AcceptKeepsDecided` | dunk_review.py:598-707 | nor does the handler of an accept |
| `ReviewSync.TickMergesExactly` | dunk_review.py:426-465 | exactly when a pass asks for a merge, and for which: the head was judged, no needed review is left alone, the status is or can be set, and the settling reading is final |
| `ReviewSync.LateVetoInTick` | dunk_review.py:447-465 | a pass asks for a merge although a veto has landed if and only if its deciding reading is final and a veto lands between that reading and the call |
| `ReviewSync.LateVetoInAccept` | dunk_review.py:601-689 | the same for the handler of an accept |
| `ReviewSync.VetoCanComeTooLate` | dunk_review.py:667-689 | two verdicts of which the first makes the head final and the second is a veto |
| `ReviewSync.MergeOverVeto` | dunk_review.py:601-689 | a run of the handler that asks for the merge when that veto has landed |
| `ReviewSync.SameIdsSameRows` | dunk_tasks.py:687-698 | the filing guard passes only if no verdict has landed since it was read |
| `ReviewSync.ReconcileFacts` | dunk_review.py:339-366 | the status becomes what the verdicts read last want exactly when GitHub can be asked and takes it, and nothing is posted when it already is |
| `ReviewSync.TickFilesExactly` | dunk_review.py:404-504 | exactly when a pass files a review, and which: for an unjudged head nobody reviews, or for a judged one that has no veto and too few lanes at that moment and no review in progress that was neither cancelled nor finished meanwhile; the first lane that accepted is its author |
| `ReviewTerms.FilesExactly` | dunk_review.py:404-504 | the same on the readings and answers alone, with the author first by name among the lanes that accepted |
| `ReviewTerms.KeptExactly` | dunk_review.py:411-446 | a pass that files nothing leaves the review in progress where it was, unless the pass has cancelled it or it has finished by the last reading; what a pass cancels |
| `ReviewTerms.PostsExactly` | dunk_review.py:426-465 | what a pass posts over a judged head, in order, and the status it leaves |
| `ReviewTerms.UnjudgedPostsExactly` | dunk_review.py:403-504 | over an unjudged head only the status of a review filed now is posted, and nothing at all is done to a head that conflicts |
| `ReviewSync.SettleFacts` | dunk_review.py:447-465 | settling merges exactly on a final reading, once the status is right, and leaves it right |
| `ReviewSync.TickSetsStatus` | dunk_review.py:368-465 | a pass over a judged head, with GitHub answering, leaves the status its last reading wants, whether a review is in progress or not |
| `ReviewSync.TickPostsNothing` | dunk_review.py:368-465 | a pass posts nothing when the status is already what its readings want, whatever review is in progress and whatever GitHub answers |
| `ReviewSync.RepeatedTickPostsNothing` | dunk_review.py:368-527 | after a pass with GitHub answering, a second one with no new verdict posts nothing and changes no status, for a judged and an unjudged head, with and without a review in progress |
| `ReviewSync.RepeatedTickRefiles` | dunk_review.py:411-465 | but it cancels the second review and files it again if and only if the head waits for more lanes, one has accepted, and the review that sorts last is a needs-fix; which then has no lane |
| `ReviewSync.NeedsFixIsPutRight` | dunk_review.py:708-756 | a needs-fix never merges and sets failure exactly when it can be posted and no other review listed stands accepted; the next pass leaves the status the verdicts want |
| `ReviewRuns.FixingExactly` | dunk_review.py:708-756 | a needs-fix files exactly one fix task, for its own review, asks for changes if GitHub takes that, approves nothing, asks for no merge, and leaves the review in progress as the landing left it |
| `ReviewRuns.FixesExactly` | dunk_review.py:708-756 | over any run of passes, accepts and needs-fixes the fix tasks filed are exactly those of the needs-fixes handled, one each, in order, each under a number of its own |
| `ReviewRuns.PassSpeaksNothing` | dunk_review.py:368-527 | no pass files a fix, asks for changes or approves |
| `ReviewSync.AcceptFacts` | dunk_review.py:598-707 | an accept approves and merges exactly on a final reading, and otherwise fails the head or holds it with another review in progress |
| `ReviewSync.Sync.Reconcile` | dunk_review.py:339-366 | the calls, in the order of the source, do what `Reconciled` says |
| `ReviewSync.Sync.CancelIfLive` | dunk_review.py:327-337 | a review finished meanwhile, by its own verdict, is left alone |
| `ReviewSync.Sync.StillNeeded` | dunk_review.py:426-431 | the verdicts are read first, and only if they ask for another lane is the review in progress looked at |
| `ReviewSync.Sync.SecondReview` | dunk_review.py:270-299 | the calls do what `SecondOf` says: the guard on ids is the guard on what has landed |
| `ReviewSync.Sync.Settle` | dunk_review.py:447-465 | the calls do what `SettleOf` says |
| `ReviewSync.Sync.Contested` | dunk_review.py:411-465 | the calls do what `ContestedOf` says |
| `ReviewSync.Sync.FirstReview` | dunk_review.py:466-504 | the calls do what `FirstOf` says |
| `ReviewSync.Sync.Tick` | dunk_review.py:368-527 | one pass over the head does what `TickOf` says, about which the theorems above speak |
| `ReviewSync.Sync.OnAccept` | dunk_review.py:598-707 | the handler does what `AcceptOf` says, and reports a merge exactly if it was asked for and went through |
| `ReviewSync.Sync.OnNeedsFix` | dunk_review.py:708-756 | the handler does what `NeedsFixOf` says |
| `RowLedger.IdsBeforeAreNamed` | dunk_review.py:105-107 | the ids found in a text are exactly those standing whole in it, each once |
| `RowLedger.BisectSplits` | dunk_review.py:137-152 | on sorted keys the place found has all smaller keys before it and no smaller key behind |
| `RowLedger.LedgerGainsOneRow` | dunk_review.py:137-152 | the header and all old lines are kept in order, and the rows read back are the old ones with exactly the new one inserted |
| `RowLedger.LedgerStaysSorted` | dunk_review.py:137-152 | sorted keys stay sorted |
| `RowLedger.OneLineDiffExactly` | dunk_review.py:137-152 | the new text is the old one with one line inserted if and only if every line end of the text is the one written |
| `RowLedger.WrittenEnds` | dunk_review.py:137-152 | the new text has one line end throughout, whatever the old one had |
| `RowLedger.MixedEndsAreRewritten` | dunk_review.py:140-142 | a text with two kinds of line ends that does not keep them, whatever row it gains |
| `RowLedger.ChosenExactly` | dunk_review.py:155-185 | a row is chosen exactly when the first source naming any row names it alone, the ledger does not have it, and one added document and no other is its own |
| `RowTerms.RowIdExactly` | dunk_review.py:55-57 | a row id is its kind, its unit and its offset, four capital hexadecimal digits each |
| `RowTerms.NamedAlone` | dunk_review.py:56-57 | it is named where no letter, digit or underscore stands directly before or behind it |
| `RowTerms.StemIs` | dunk_review.py:110-111 | the name a document goes by, without its directory and its last suffix |
| `RowTerms.OwnExactly` | dunk_review.py:114-123 | a document is a row's own if and only if its name has the offset as a word, and the unit either as it is or with a `u` in place of its leading zeros, upper and lower case alike |
| `RowTerms.LedgerHasExactly` | dunk_review.py:126-134 | a ledger has a row if and only if a line under its first one carries it |
| `RowTerms.NotNamedExactly` | dunk_review.py:164-174 | when no row is named, and which source is refused for naming two |
| `RowTerms.RefusedExactly` | dunk_review.py:175-184 | with a row named: credited already, without a document, or with several, each exactly when it is |
| `RowTerms.WrittenExactly` | dunk_review.py:137-152 | the written text: where the new row stands, which line ends it has and whether it is closed by one |
| `RowTerms.KeyIs` | dunk_review.py:149-149 | the key of a line is what stands before its first comma |
| `Text.SpacesAre` | dunk_review.py:128-130 | the white space that is trimmed and the line ends at which lines are split, by code point |
| `RowTerms.HeaderExactly` | dunk_review.py:145-147 | only an empty ledger is refused |
| `RowLedger.CreditedOnce` | dunk_review.py:155-185 | no run of accepts credits an id twice or one the ledger began with, and the ledger ends with exactly the old ids and the credited ones |
| `Context.RunKeepsSound` | dunk_context.py:387-453 | over any run of add, supersede and retire with slugs unique across classes, links answer each other, chains are ordered, only heads are retired and every ground truth is the owner's |
| `Context.ResolveNeverFails` | dunk_context.py:367-384 | resolving ends without a cycle, a missing target or an unreadable file |
| `Context.OneHeadPerChain` | dunk_context.py:367-384 | all members of a chain resolve to one head |
| `Context.LiveIsOnePerChain` | dunk_context.py:354-365 | an unretired chain has exactly one live entry and a retired one none, the older marker in the body counting as retired |
| `Context.UniqueExactly` | dunk_context.py:387-430 | slugs stay unique to one class if and only if the added file takes a slug no class uses |
| `Context.ResolveFailsExactly` | dunk_context.py:367-384 | after a supersession in a sound store, resolving an entry fails, with a cycle, if and only if its chain ended at the superseded entry, an entry with the new slug stood on that chain, and this one is found before the new entry or is itself what is resolved |
| `Context.ChangeBreaksExactly` | dunk_context.py:367-453 | the same for every change: only a supersession of that kind makes anything unresolvable |
| `Context.SharedSlugMakesCycle` | dunk_context.py:367-384 | reusing slugs in other classes closes a supersession cycle |
| `ContextDisk.ReadBackExactly` | dunk_context.py:131-168 | an entry that is printed and parsed comes back, trimmed and with empty values as none, if and only if every value fits on its line and has no three dashes |
| `ContextDisk.PutReadsBackExactly` | dunk_context.py:415-453 | the files read after a change are the changed files if and only if the values it writes are of that kind |
| `ContextDisk.RunKeepsVerified` | dunk_context.py:92-110 | over every run of changes with new slugs and safe values, through printer and parser, the store stays sound and every file verifies as recorded |
| `ContextDisk.StorePromises` | dunk_context.py:288-453 | all of this together, for every such run from an empty store |
| `ContextDisk.AnswerFailsExactly` | dunk_context.py:345-384 | exactly when resolving a name fails after a change with safe values |
| `ContextDisk.UnreadableExactly` | dunk_context.py:131-168 | a printed file cannot be read if and only if a required value is missing once the front matter ends at the first three dashes |
| `ContextDisk.LinksLostExactly` | dunk_context.py:131-168 | a file that can be read keeps the links and the retirement printed in it if and only if nothing between them and the required values has three dashes in it |
| `ContextDisk.DashesLoseLinks` | dunk_context.py:131-157 | three dashes in a source: the entry is read without links and without a retirement |
| `ContextDisk.DashesBreakEntry` | dunk_context.py:131-157 | three dashes in a subject: the entry cannot be read |
| `ContextDisk.CycleInTwoWrites` | dunk_context.py:387-430 | two calls of `add` after which resolving the slug meets a cycle |
| `ContextDisk.LostLink` | dunk_context.py:387-430 | two calls of `add` after which the superseded entry names a successor that does not name it |
| `ContextDisk.UnreadableSubject` | dunk_context.py:387-430 | one call of `add` after which resolving the new slug raises |
| `ContextDisk.Store.Find` | dunk_context.py:345-353 | the first file with that slug, else the first about that subject, class by class and by file name |
| `ContextDisk.Store.ResolveFrom` | dunk_context.py:367-384 | the loop follows successors to the end of the chain, or reports the cycle, the missing target or the unreadable file |
| `ContextDisk.Store.Resolve` | dunk_context.py:367-384 | the answer is the unretired head of the entry found for the query |
| `ContextDisk.Store.FreshSlug` | dunk_context.py:402-414 | the slug itself when free, else the first numbered variant the class does not hold |
| `ContextDisk.Store.Add` | dunk_context.py:387-430 | which requests are refused; otherwise exactly one change is printed to disk and recorded |
| `ContextDisk.Store.SupersedeEntry` | dunk_context.py:432-441 | the end of the named chain gets a successor of its own class and subject |
| `ContextDisk.Store.RetireEntry` | dunk_context.py:443-453 | the end of the chain is retired, whatever member was named |
| `ContextTerms.RetiredExactly` | dunk_context.py:355-360 | an entry is retired by its front matter, or by a dated mark of retirement at the start of a line of its body |
| `ContextTerms.LocatedExactly` | dunk_context.py:345-353 | a name means the file with that slug in the folder listed first; else, of the files about that subject, the first by folder and file name; else nothing |
| `ContextTerms.ResolvedExactly` | dunk_context.py:367-384 | what resolving comes to, for any walk along successors: its last entry or nothing if that is retired, and an error exactly as that one cannot be read, names a slug met before, or one that is nowhere |
| `ContextTerms.CompletedExactly` | dunk_context.py:423-428 | the entry that is added, field by field; a provisional one is to be rechecked in seven days unless the caller says when |
| `ContextTerms.StatusExactly` | dunk_context.py:100-110 | when a file is as recorded, modified, unrecorded, or written before anything was recorded |
| `ContextTerms.CheckedExactly` | dunk_context.py:150-157 | which front matter is refused, and why |
| `FrontMatter.ParseFront` | dunk_context.py:131-157 | the accumulating loop reads exactly what the specification says, with the same refusal |
| `FrontMatter.ParsedValuesArePlain` | dunk_context.py:131-157 | whatever is parsed, every value is trimmed, on one line, free of the closing mark and not a spelling of null |
| `FrontMatter.ParseRender` | dunk_context.py:131-168 | parsing what was printed gives back every known key and the trimmed body, which may contain the closing mark |
| `FrontMatter.RoundTripExactly` | dunk_context.py:131-168 | complete metadata survives printing and parsing if and only if every known value is plain |
| `FrontMatter.CutAtDashes` | dunk_context.py:131-157 | three dashes inside a value end the front matter there: the value is cut and trimmed, later keys are lost and the rest is read as body |
| `FrontMatter.KeptExactly` | dunk_context.py:131-168 | what parsing makes of any printed metadata whose values stay on their lines: of each key its trimmed value up to the first three dashes, or nothing when an earlier value has three |
| `TextEditor.SplitJoined` | text_editor.py:24-25 | splitting the joined text gives the lines back |
| `TextEditor.OneLineFeedEach` | text_editor.py:15-35 | a carriage return and a line feed together become one line feed, and so does each carriage return no line feed follows, wherever they stand |
| `TextEditor.OnlyLineFeeds` | text_editor.py:15-35 | no carriage return is left, and a text without any is left alone |
| `TextEditor.BackspaceUndoesInsert` | text_editor.py:32-63 | erasing as many characters as were inserted restores text and cursor |
| `TextEditor.FlatDetermines` | text_editor.py:11-30 | equal text and offset mean equal lines, row and column |
| `TextEditor.DownUndoesUp` | text_editor.py:90-96 | moving up and down by the same amount comes back to the same place, when no edge cut the way short and the cursor stood in its preferred column |
| `TextEditor.UpUndoesDown` | text_editor.py:90-96 | and the other way round |
| `TextEditor.TextEditorBuffer.constructor` | text_editor.py:14-21 | the buffer holds the normalised text with the cursor behind it |
| `TextEditor.TextEditorBuffer.Text` | text_editor.py:24-25 | what is read out is the flat text |
| `TextEditor.TextEditorBuffer.SetCursor` | text_editor.py:27-30 | the cursor goes to the nearest valid place and the text stays |
| `TextEditor.TextEditorBuffer.Insert` | text_editor.py:32-42 | the buffer becomes the flat text with the normalised value spliced in at the cursor |
| `TextEditor.TextEditorBuffer.Newline` | text_editor.py:44-50 | a line feed is spliced in |
| `TextEditor.TextEditorBuffer.Backspace` | text_editor.py:52-63 | one character before the cursor goes, line ends included |
| `TextEditor.TextEditorBuffer.Delete` | text_editor.py:65-72 | one character behind the cursor goes, line ends included |
| `TextEditor.TextEditorBuffer.MoveLeft` | text_editor.py:74-80 | the offset goes down by one, or stays at the start |
| `TextEditor.TextEditorBuffer.MoveRight` | text_editor.py:82-88 | the offset goes up by one, or stays at the end |
| `TextEditor.TextEditorBuffer.MoveUp` | text_editor.py:90-92 | rows and columns after moving up, as far as the first line allows |
| `TextEditor.TextEditorBuffer.MoveDown` | text_editor.py:94-96 | rows and columns after moving down, as far as the last line allows |
| `TextEditor.TextEditorBuffer.MoveHome` | text_editor.py:98-100 | the cursor goes to the start of its line, which becomes its preferred column |
| `TextEditor.TextEditorBuffer.MoveEnd` | text_editor.py:102-104 | the cursor goes to the end of its line, which becomes its preferred column |
| `Chunker.StripCovers` | dunk_memory.py:183-185 | trimming a window loses no visible character |
| `Chunker.WindowEnd` | dunk_memory.py:176-182 | a window ends at the text's end if that is within the limit, else at the last blank of its second half, and at its full width only when there is none |
| `Chunker.ChunkAdded` | dunk_memory.py:183-185 | adding a window's piece covers every visible character up to the window's end |
| `Chunker.Windows` | dunk_memory.py:173-188 | the chunks are the trimmed windows, each reaching back over the one before it by the overlap; coverage and count |
| `Chunker.ChunkText` | dunk_memory.py:165-189 | it ends for every input; chunks are trimmed pieces of the text within the limit, cover every visible character, and are at most 1 + (length - 1) / (max/2 + 1 - overlap) |
| `ProcessTree.TreeOf` | dunk_load.py:71-83 | exactly the reflexive-transitive closure of the child relation, ascending, without duplicates, on any table, cyclic ones included |
| `ProcessTree.DescendsIsTransitive` | dunk_load.py:71-83 | the relation computed is transitive |
| `Names.NamesAreUnique` | dunk_http.py:76-99 | one name per pane, all distinct; a pane keeps its own label unless an earlier pane has it, and then gets the first variant numbered from 2 that no earlier pane has |
| `Names.BaseExactly` | dunk_http.py:90-92 | a label is the first of tag, title and id that is not empty, trimmed, or `terminal` when that is blank |
| `Decimal.NumeralReads` | dunk_http.py:95-96 | a numeral reads back as its number and has no leading zero |
| `Names.NamesAreStable` | dunk_http.py:76-99 | the names of the first panes do not depend on later ones |
| `Names.LaterShrinks` | dunk_http.py:93-96 | every taken variant uses up one of finitely many names, so counting up ends |
| `Names.UniqueNames` | dunk_http.py:76-99 | the loops name the panes in order as specified |

## Left out

- Handoff.AtMostOnce: assumes that nobody deletes the message of a handoff that is `sending` with a retry left, because the code does not survive it (`Handoff.DeletionExact`).
- NextJobs.NextJobs.ObserveTurn: calls its two halves one after the other; what may happen between them is stated for each half.
- `tick` and `recover` of the handoffs, which look at one after the other; in the protocol a death may come between any two steps.
- NextJobs.NextJobs.EnsureNextJob: does not check the recipient; `Inbox.Inbox.EnsureNextJobMessage` does.
- Other writers of the receipt columns than the sender, in particular the recovery of stuck terminals in dunk_core.py.
- Cancelling an intent from outside is an event that may overwrite any state, as the original allows; a cancelled handoff is final only once its sender is gone.
- Reason strings, transport ids, process owners, metrics and wake-ups of the handoff code, and `advance`.
- Stuck.BudgetOverRuns: assumes known pane generations; `Stuck.BudgetExactly` has the exact condition. Ledger keys are tuples, not joined strings. The daemon's raising of one entry to another's count (dunk_core.py:6450-6456) is not modelled.
- Stuck.RecoveriesAreSpaced: thresholds do not change during a run. The daemon starts a record at `min(since, now)` (dunk_core.py:6461-6465), and a text first seen long before the last recovery of its pane is outside it, exactly as `Stuck.SpacingExactly` says.
- `Config.from_mapping`, records with missing fields from older files, a tracker file that cannot be read, and `verify` of dunk_stuck.py.
- MailOrder.ReadsFollowTheOrder: assumes that each post is stamped later than what is waiting in the mailbox, because without it it is false (`MailOrder.OrderBreaksExactly`), and that no digest is re-published into it and no mailbox renamed to it, which bring older messages in by design.
- Inbox.Inbox.Read: messages are returned as rows with their attachments; summaries and the recovery buffer of delivered batches are not modelled.
- Inbox.Inbox.ArchiveRetiredBoxes: the caller's own check is an answer handed in; an exception in it changes nothing. Every call of the inbox reads the clock once.
- Inbox.Inbox.Transition: shows the rows as the connection sees them; a death before the next commit would lose the rows moved before a refusal.
- Subjects, senders, labels, transports, reply links, external ids and full-text fields of messages; digits other than ASCII in pane ids.
- Concurrent `send` and `delete` racing on the attachment directory: calls run one after the other.
- Allocation.PassIsGreedy: one clock reading per pass, so a lease that runs out during the pass is not modelled; whether a dependency is outstanding is given with each task.
- AllocationRuns.ReviewsExclude: other work on tasks may change anything but the allocator's own tables and never gives out a name twice.
- The daemon's evidence that a worker is idle is a set handed in; titles, times, journal events and metadata of offers and reviews are left out.
- ReviewSync.Sync.Tick: one head of one pull request; other heads and pull requests are independent of it but for the review left behind by a moved head. A review in progress ends by its own verdict or by the pass; nobody else files or cancels one between two readings.
- ReviewSync.Sync.Settle: nobody else posts the status between reading and posting it; the required number of lanes does not change; a finished review is not reopened.
- ReviewSync.Sync.OnNeedsFix: which reviews its capped listing shows is handed in as a set of ids; filing the fix task is taken not to fail.
- Attribution of authors, titles and bodies of review tasks, dry runs, the clean-up of closed pull requests, and the accounting pull request beyond its ledger row.
- RowLedger.LedgerGainsOneRow: assumes a header, a last line that is visible or ended, an id without comma or white space around it, and a one-line document name.
- Context.RunKeepsSound: assumes slugs unique across classes, because without it it is false (`Context.ChangeBreaksExactly`); a crash between the two writes of a supersession is not modelled.
- ContextDisk.StorePromises: assumes new slugs and safe values, because without them it is false; files that others edit, keys the printer does not know, and digits other than ASCII in the older retirement marker are not modelled.
- ContextDisk.UnreadableExactly: values that break their line before the first three dashes, which can set any other key, are outside it; `ContextDisk.PutReadsBackExactly` covers them.
- ContextDisk.Store.Add: an empty `supersedes` is taken for none; slugs are given, not derived from date and subject.
- Index, search, access log, statistics and digest of the context store.
- Chunker.ChunkText: non-negative limits only.
- SQLite, the file system, sockets, threads, GitHub and the terminal themselves: maps, sequences, explicit steps and answers stand for them.
- Command registry, HTTP and MCP surfaces, guards, reports, memory search, redaction and one-decision planners: they hold finite tables, I/O or single branches and no promise over runs.

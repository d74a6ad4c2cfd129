# Scheduling, credit and access control of a social-media publisher

A Dafny model of the parts of the system that keep state over time, and proofs of what they
guarantee.

* **Posting queues** (`PostingSlots`, `Zones`, `Ladder`, `QueueState`, `Channel`, `QueueSafety`,
  `QueueEntries`, `ClockChanges`, `Reorder`, `ReorderAgain`, `QueueRuns`). A channel has
  weekly posting slots; several queues share it. `Channel.SocialAccount` holds its rows as
  mutable maps and performs the queue operations step by step, loops included. Each method is proved equal to a function in
  `QueueState`; what those functions guarantee is proved in the modules after it. The main
  results: over any run of adds, prioritizations, reorderings, removals, calendar drags, reviews
  and publishing attempts, with plain conditions on what goes in and none on how attempts end, no
  future instant is double-booked, aggregates stay in step and published posts stay as they are
  (`QueueRuns.PlainRunIsSafe`; with exact conditions for each step, `QueueRuns.RunIsSafe`); which
  slot tables cannot lead to a double booking at all (`ClockChanges.SafeTablesIff`); what
  laddering does to every post (`QueueSafety.PrioritizeLadders`), and exactly when it fails
  (`QueueSafety.PrioritizeFailsIff`).
* **Repair** (`Repair`). The one-off repair of published posts that were dragged into the
  future: what it cures, that a second pass changes nothing, and when no pending post moves.
* **Recurring posts** (`Recurrence`, `RecurrenceAgain`, `RecurrenceReach`). Exactly which clones
  a rule makes, one clone per workspace, caption and local date over any sequence of runs, and
  when a second run adds nothing.
* **Delta attribution** (`DeltaAttribution`) and the **engagement numerator** (`Engagement`).
  Conservation laws for turning cumulative counters into daily credits and for summing them.
* **Idempotency keys** (`Idempotency`, `IdempotencyProtocol`, `IdempotencyCreations`). Any number
  of workers over one table, statement by statement, and what is created under a key.
* **API keys** (`Tokens`, `ApiKeys`, `KeyCacheRaces`). The printed token, the row cache in front
  of the database, and its races.
* **Counting machines** (`Cadence`, `Throttles`, `Reminders`). How often each can fire, over
  whole runs.

Time is an integer and is read once per operation. Operations that take the channel lock are one
atomic step. A raised error is a `None` or `false` result that leaves the state as it was.

Where the code falls short of a property, or of what its comments say, the model follows the
code, and a lemma says exactly when the property holds:

* `prioritize` has no guard on the prioritized post itself and moves a published one:
  `QueueSafety.PublishedPostIsMoved`, `QueueSafety.PrioritizeKeepsHistoryIff`.
* A reordering may name an entry more than once, and can then book one instant twice
  (`Reorder.RepeatedIdsDoubleBook`, `Reorder.ReorderSafeIff`) or lose one
  (`Reorder.ReorderLosesNothingIff`); repeating it moves the entry's position back and forth
  (`ReorderAgain.ReorderTwiceIff`). Even without that it can hand a post that is due in the
  future an instant that has passed: `Reorder.ReorderKeepsFutureIff`.
* A slot whose wall-clock time a change of the clock skips or repeats equals no stored time, so
  it is never found occupied, and whoever is added or prioritized next is booked on top of its
  holder: `ClockChanges.FallBackBooksTwice`, `ClockChanges.SpringForwardBooksTwice`,
  `ClockChanges.UnclearSlotIsBookedTwice`. An addition is safe exactly when the slot found has no
  such time or nobody holds its instant (`QueueSafety.AddSafeIff`; for prioritizing,
  `QueueSafety.PrioritizeSafeIff`), and a slot table is safe for all posts exactly when no coming
  slot has such a time (`ClockChanges.SafeTablesIff`).
* A retry starts whatever time its post is set for, and the instant counts as free while it
  lasts, so a retry that fails can leave two posts on one instant: `QueueRuns.EarlyRetryDoubleBooks`.
  It also writes back the time that was loaded before it started, which may be an old one:
  `QueueRuns.StaleRetryDoubleBooks`. Exact conditions are `QueueRuns.FailureSafeIff` and
  `QueueRuns.FinishSyncIff`. Attempts that start when due are safe: `QueueRuns.DueAttemptMayFail`.
* A recurrence interval of 0, which the model field admits, lists the base date 180 times
  (`Recurrence.DatesDistinctIff`) and, for a source ahead of today, makes as many clones on it
  (`Recurrence.RuleKeepsDatesApartIff`). The safety limit of 180 dates counts from the base date,
  so an old daily rule stops producing: `Recurrence.LimitCoversIff`. A source whose children rely
  on its own time gets clones without a time, and as many again in every run:
  `RecurrenceAgain.FallbackSourceRepeats`. For any source, a second run adds nothing exactly when
  each date cloned for is hit by a clone: `RecurrenceAgain.SecondRunAddsNothingIff`.
* The repair keeps a pending post's time only if there is a parent time to pin it to:
  `Repair.PendingTimesKeptIff`.
* An idempotency claim that outlives the sweep's lifetime loses its slot to the next claim:
  `IdempotencyProtocol.TimelyIff`; and when it finishes all the same, its answer is replayed to
  the second request: `IdempotencyProtocol.OverdueAnswerIsReplayed`. An upload into a folder that does not exist leaves its claim
  behind until the sweep: `IdempotencyProtocol.OrphansAreFreed`. The creation of a post is
  committed before the audit entry and the answer are; when one of these fails, the claim is
  released, and the retry creates a second post:
  `IdempotencyCreations.RetryCreatesTwiceIff`. Without that a key creates one thing within a
  lifetime: `IdempotencyCreations.OneCreationPerKey`.
* A request that reads a key before a change and goes on after the signal is let through on the
  superseded row, and can leave it in the cache for 30 seconds: `KeyCacheRaces.SettledIff`,
  `KeyCacheRaces.BustSettlesIff`, `KeyCacheRaces.LateFillStays`. An edit fires its signal before
  its transaction commits, so a request in between does the same without having read anything
  before the signal: `KeyCacheRaces.BustBeforeCommitIsTooEarly`.
* A part of the engagement rate that covers fewer days than another is padded after its last
  day, which shifts its window: `Engagement.NumeratorAddsUpIff`.
* The second reminder and the escalation keep no distance: `Reminders.EscalationIsPrompt`.

The bounds of `Cadence` and `Throttles` are the exact ones: 79 captures a post, 19 recorded
failures and 10 admitted attempts a minute.

## Model

| member | source | states |
|---|---|---|
| PostingSlots.NextSlotDatetimes | apps/calendar/services.py:42-84 | However many instants are asked for, the early-returning walk yields a prefix of one fixed list, so asking again for more only extends the answer; a request for none still yields one |
| PostingSlots.WalkDay | apps/calendar/services.py:65-83 | One day's turn extends what was found by that day's instants, cut off at the request, and reports whether the request is met |
| PostingSlots.UpcomingIsExact | apps/calendar/services.py:42-84 | The list has no gaps: it holds exactly the later slots of the 60 dates walked; and of all earlier dates too, unless the zone repeats those |
| PostingSlots.UpcomingAscends | apps/calendar/services.py:42-84 | In every zone the instants of its clear slots ascend strictly; only slots whose wall-clock time a change of the clock skips or repeats may stand out of order |
| PostingSlots.DayAscending | apps/calendar/services.py:65-83 | Within a walked day the clear slots ascend, given slots ordered by day and time |
| Zones.ZonesAreOrdered | apps/calendar/services.py:54-84 | In every zone given by a first offset and dated changes of it, clear wall-clock times name ascending instants |
| Zones.ClearIff | apps/calendar/services.py:74-76 | In such a zone a wall-clock time is clear if and only if the clock shows it at exactly one instant, neither never nor twice, and then it names that instant |
| PostingSlots.SearchFree | apps/calendar/services.py:127-141 | The scan looks at one candidate more than there are occupied instants and stops at the first that is not found occupied, where a wall-clock time that is skipped or repeated never is |
| PostingSlots.BoundedSearchIsExact | apps/calendar/services.py:127-141 | That bounded search agrees with a search of the whole horizon, whatever is occupied, by the pigeonhole principle on the slots that can be found occupied |
| PostingSlots.FirstFreeMeaning | apps/calendar/services.py:127-141 | The search answers with the first slot in the list that is not found occupied, and with none if and only if all are found occupied |
| Ladder.FirstLandingIsFirst | apps/calendar/services.py:286-297 | A landing is neither claimed nor blocked, and everything between the start and it is; without a landing that holds up to the horizon |
| Ladder.LadderInterleaves | apps/calendar/services.py:284-297 | Old and new slots interleave: every mover lands strictly later, never past the old slot of a mover above it, never on a blocked slot or slot 0, and all on different ones |
| Ladder.LowerMoversLand | apps/calendar/services.py:286-297 | Once the topmost mover has landed all others land, below it: only the topmost one can run off the lookahead |
| Ladder.LadderFailsIff | apps/calendar/services.py:288-294 | The ladder gets stuck if and only if every horizon slot after the topmost mover's old one is blocked |
| QueueState.NextPosition | apps/calendar/services.py:169-177 | A new entry's position lies past all positions of its queue |
| QueueState.HoldersAreListed | apps/calendar/services.py:241-247 | The movable entries are exactly the queue's other entries whose post is live and holds a future instant |
| QueueState.MoversAreHeld | apps/calendar/services.py:275-276 | The movers are exactly the movable entries whose instant equals a clear candidate, each at the index of the first such |
| Channel.SocialAccount.WriteSlot | apps/calendar/services.py:180-189 | Writing a slot updates entry, child and aggregate together |
| Channel.SocialAccount.EnsureEntry | apps/calendar/services.py:169-177 | Creates the entry if it is missing and touches nothing else |
| Channel.SocialAccount.NextAvailableSlot | apps/calendar/services.py:106-141 | The bounded search over the channel's own occupied instants, where a live post that is not excluded occupies its future instant, and a skipped or repeated wall-clock time matches none |
| Channel.SocialAccount.AddPostNextAvailable | apps/calendar/services.py:192-217 | Ends in the state that AddIsExact and AddSafeIff speak about; the queue-full error leaves everything as it was |
| Channel.SocialAccount.FindLanding | apps/calendar/services.py:287-295 | The open-ended loop over a growing lookahead ends, and finds what a search of the full horizon finds |
| Channel.SocialAccount.MoveUp | apps/calendar/services.py:286-297 | One mover's turn writes its landing into entry and row, claims it, and keeps the candidates a prefix of the horizon; PrioritizeLaddersEntries says what all turns together leave in the entries |
| Channel.SocialAccount.Climb | apps/calendar/services.py:284-297 | The loop over the movers lands all of them in turn, or reports failure |
| Channel.SocialAccount.LadderUp | apps/calendar/services.py:270-299 | The branch in which the queue itself holds slot 0: climb, then the prioritized post's own write |
| Channel.SocialAccount.TakeFirst | apps/calendar/services.py:256-268 | Slot 0 unless it is found among the instants of others, then the next gap, or failure if there is none |
| Channel.SocialAccount.Place | apps/calendar/services.py:253-299 | The three ways to place the post, chosen by whose instants slot 0 is found among: this queue's, somebody else's, nobody's |
| Channel.SocialAccount.CollectHolders | apps/calendar/services.py:236-247 | The loop collects the holders in the order in which the database lists the entries |
| Channel.SocialAccount.Prioritize | apps/calendar/services.py:220-299 | Ends in the state that PrioritizeLadders, PrioritizeLaddersEntries, PrioritizeSafeIff and PrioritizeIsAdd speak about; an error rolls everything back |
| Channel.SocialAccount.RemoveFromQueue | apps/calendar/services.py:302-326 | Ends in the state that RemovedIsDrafted and RemoveLeavesAGap speak about, for drafted and kept children alike |
| Channel.SocialAccount.ReorderQueue | apps/calendar/services.py:347-383 | Ends in the state that ReorderPermutes and ReorderSettles speak about |
| Channel.SocialAccount.Deal | apps/calendar/services.py:370-375 | Deals the sorted instants out along the requested order |
| Channel.SocialAccount.Reposition | apps/calendar/services.py:377-383 | Writes a position only where it differs from the one loaded, which comes to the requested order |
| QueueSafety.WrittenFacts | apps/calendar/services.py:180-189 | Writing a slot moves that one post and its entry to the instant, nothing else, and keeps aggregates in step |
| QueueSafety.EntryIsAppended | apps/calendar/services.py:169-177 | A missing entry is appended behind all others of its queue, without an instant, and no other entry changes |
| QueueSafety.ZonesAreOrderly | apps/calendar/services.py:42-84 | In every zone the coming clear slots ascend, which is what the results on adding and prioritizing ask for |
| QueueSafety.WriteSafeIff | apps/calendar/services.py:180-189 | Writing a future instant keeps future instants distinct if and only if the post is not live or no other live post holds that instant |
| QueueSafety.AddIsExact | apps/calendar/services.py:192-217 | An unprotected post lands on the first slot of the whole horizon that is not found occupied; the queue is full if and only if there is none; nobody else moves |
| QueueSafety.AddIsEarliest | apps/calendar/services.py:192-217 | Where all coming slots are clear, a live post lands on the earliest slot instant that nobody else on the channel holds, and the queue is full if and only if all are held |
| QueueSafety.AddSafeIff | apps/calendar/services.py:192-217 | Adding keeps future instants distinct if and only if, where the post is live, the slot found is clear or nobody else holds its instant |
| QueueSafety.AddKeepsRest | apps/calendar/services.py:192-217 | Adding keeps history unchanged and aggregates in step, in every case |
| QueueSafety.LadderStarts | apps/calendar/services.py:275-286 | The ladder starts from distinct live posts at strictly descending indices, none of whose own slots is blocked |
| QueueSafety.WhoMoves | apps/calendar/services.py:236-276 | A post is moved if and only if it is another live entry of this queue whose instant lies among the first candidates, two more than there are such entries |
| QueueSafety.LadderOutcome | apps/calendar/services.py:270-299 | The stateful climb succeeds if and only if the index arithmetic of Ladder does, and then puts every post where that says |
| QueueSafety.OthersAreOutOfTheWay | apps/calendar/services.py:277-282 | Every live post on the channel that does not move is blocked for landings and not at slot 0 |
| QueueSafety.LadderIsSafe | apps/calendar/services.py:270-299 | From landings on different instants and blocked bystanders it follows that no two live posts share a future instant |
| QueueSafety.PrioritizeLadders | apps/calendar/services.py:270-299 | Where all coming slots are clear, the whole effect in instants: the post at slot 0, each mover strictly later but not past the old slot of any mover above it, so their order is kept, and every other row as before |
| QueueSafety.PrioritizeSafeIff | apps/calendar/services.py:220-299 | A successful prioritize keeps future instants distinct if and only if the one slot found can be taken, or, with a ladder, those of its landings whose wall-clock time is skipped or repeated are on instants that nobody else has |
| QueueSafety.PrioritizeMoves | apps/calendar/services.py:220-299 | The prioritized post ends on an upcoming instant with its status, no other history changes, and aggregates stay in step |
| QueueSafety.PrioritizeFailsIff | apps/calendar/services.py:249-297 | The queue-full error, in all three branches, if and only if every slot is found occupied, or, with a ladder, every slot listed after its topmost mover's |
| QueueSafety.LadderFullIff | apps/calendar/services.py:288-294 | In the ladder branch the error is raised if and only if every horizon slot listed after the topmost mover's is found occupied, movers' own instants included |
| QueueSafety.FillsSlotFound | apps/calendar/services.py:253-268 | Unless the queue itself holds slot 0, prioritizing writes the slot that the next-available search finds, or fails as it does |
| QueueSafety.PrioritizeIsAdd | apps/calendar/services.py:192-268 | Unless the queue itself holds slot 0, prioritizing an unprotected post and adding it give the same state, errors included |
| QueueSafety.PublishedPostIsMoved | apps/calendar/services.py:253-268 | A published post that is prioritized is moved to a free slot 0 |
| QueueSafety.PrioritizeKeepsHistoryIff | apps/calendar/services.py:220-299 | For a post without a future time, prioritizing keeps history if and only if the post is not itself history |
| QueueEntries.AddWritesEntry | apps/calendar/services.py:192-217 | Adding a published or publishing post changes nothing at all; otherwise its entry, where it was or one past the last of its queue, shows the upcoming instant that its row gets, and no other entry changes |
| QueueEntries.MoversIff | apps/calendar/services.py:236-276 | A post moves if and only if it is another entry of the queue, neither published nor publishing, and its future instant is that of one of the first slots, two more than there are such posts |
| QueueEntries.PrioritizeLaddersEntries | apps/calendar/services.py:270-299 | After a ladder each mover's entry shows the instant its row has now, the prioritized post's shows slot 0 and keeps its position or is appended, and every other entry of any queue is as before |
| QueueEntries.PrioritizeFillsEntry | apps/calendar/services.py:253-268 | Without a ladder only the post's own entry changes, to the upcoming instant that its row gets |
| QueueEntries.RemovedIsDrafted | apps/calendar/services.py:302-326 | A removed post that is approved, rejected, to be changed, scheduled, failed or on hold becomes a draft without a time, any other stays as it is, and the aggregate is the earliest of what is left |
| QueueEntries.ReorderKeepsEntries | apps/calendar/services.py:347-383 | Entries that are not named, are in other queues, or belong to published or publishing posts stay as they are; one whose post has no time keeps its slot |
| ClockChanges.UnclearSlotIsBookedTwice | apps/calendar/services.py:127-141 | If the first coming slot's wall-clock time is skipped or repeated and a live post holds its instant, adding and prioritizing another live post both book it again, without any ladder |
| ClockChanges.FallBackBooksTwice | apps/calendar/services.py:192-217 | Adding to a channel whose only slot is 01:30 on the Sunday on which clocks go back from 02:00, with that instant held, leaves two posts on it |
| ClockChanges.SpringForwardBooksTwice | apps/calendar/services.py:220-268 | So does prioritizing with the slot 02:10 on the Sunday on which they go forward |
| ClockChanges.SafeTablesIff | apps/calendar/services.py:192-299 | Over all posts a channel may have, adding keeps future instants distinct if and only if all coming slots are clear, and likewise prioritizing |
| Reorder.ReorderPermutes | apps/calendar/services.py:347-383 | If no slotted post is named twice, the named posts hold the same instants as before, each as often, now ascending along the requested order; everybody else keeps theirs |
| Reorder.WhoIsReordered | apps/calendar/services.py:361-369 | A post takes part if and only if its entry is named, in this queue, not history and slotted |
| Reorder.ReorderDeals | apps/calendar/services.py:361-375 | For any list, each named slotted post ends at the instant dealt to its last position, nobody else moves, and aggregates stay in step |
| Reorder.ReorderSafeIff | apps/calendar/services.py:347-383 | For any list, future instants stay distinct if and only if those dealt to the named posts' last positions are |
| Reorder.NamedOnceIsSafe | apps/calendar/services.py:347-383 | They are when no slotted post is named twice |
| Reorder.ReorderKeepsHistory | apps/calendar/services.py:361-367 | For any list, published and publishing rows are untouched |
| Reorder.ReorderLosesNothingIff | apps/calendar/services.py:361-375 | If the named posts hold different instants, none of these is lost if and only if they are left with different ones again; no instant is ever invented |
| Reorder.ReorderKeepsFutureIff | apps/calendar/services.py:361-375 | For any list, every named post with a future instant keeps one if and only if none stands, at its last position, among the first places, as many as there are past instants |
| Reorder.NamedOnceKeepsFutureIff | apps/calendar/services.py:361-375 | For posts named once: if and only if none of them precedes one whose time has passed |
| ReorderAgain.ReorderSettles | apps/calendar/services.py:370-383 | Afterwards every post's instant, that of its last position, is in place in entry, child and aggregate; every named entry's position is its index if and only if none is named twice |
| ReorderAgain.ReorderTwiceIff | apps/calendar/services.py:347-383 | Reordering again with the same list changes nothing, in any of the tables, if and only if no unprotected entry of the queue is named twice |
| Reorder.RepeatedIdsDoubleBook | apps/calendar/services.py:361-375 | Naming the later of two posts twice, then the earlier, leaves both on one instant |
| QueueRuns.RemoveLeavesAGap | apps/calendar/services.py:302-326 | The entry is gone and other posts are untouched; the instant is freed, and the post's entries in other queues dropped, if and only if the child's status has an edge to draft |
| QueueRuns.RemoveIsSafe | apps/calendar/services.py:302-326 | Removing keeps future instants distinct, history unchanged and aggregates in step |
| QueueRuns.AttemptEnds | apps/publisher/engine.py:241-262 | A successful attempt drops the post's entries from all queues of the channel and frees its instant, a failed one keeps the entries and occupies the loaded instant if that is still to come; nothing else changes |
| QueueRuns.FailureSafeIff | apps/publisher/engine.py:527-552 | A failed publishing attempt leaves future instants distinct if and only if nobody took the future instant that it had loaded and writes back |
| QueueRuns.FinishSyncIff | apps/publisher/engine.py:527-552 | The end of an attempt leaves aggregates in step if and only if writing the loaded time back changes no earliest time |
| QueueRuns.EarlyRetryDoubleBooks | apps/publisher/engine.py:561-588 | A retry of the post in the first slot ahead, an addition of another, and a failure leave both in that slot |
| QueueRuns.StaleRetryDoubleBooks | apps/publisher/engine.py:561-588 | A post moved from a to b after the retries were loaded, another moved to a, and a failed retry leave both on a, although nobody took b |
| QueueRuns.StepIsSafe | apps/calendar/services.py:192-383 | Every step that meets its exact condition keeps the channel sound, published rows final, and a row that is being published as it is until its attempt ends |
| QueueRuns.RunIsSafe | apps/calendar/services.py:155-383 | Over any run in which each step meets its exact condition, on any queues of one channel and with time moving on: no two live posts come to hold one future instant, aggregates stay in step, and a post published at any point of the run keeps its row to the end |
| QueueRuns.PlainIsAllowed | apps/calendar/services.py:192-383 | While every attempt under way has loaded a time that has passed, clear coming slots, ids named once, and attempts begun when due and not moved since they were loaded imply those exact conditions; ends of attempts need nothing |
| QueueRuns.PlainRunIsSafe | apps/calendar/services.py:155-383 | Over any run that keeps to those conditions on what goes in, however its attempts end, the same three guarantees hold; that loaded times have passed carries itself along |
| QueueRuns.DueAttemptMayFail | apps/publisher/engine.py:128-181 | An attempt that starts when its post is due may end in any way at any later time of a run, without a condition on what happened meanwhile |
| Repair.CalendarTables.RepairFuturePublished | apps/calendar/services.py:386-503 | Reports the exact numbers of corrupt children, their posts and stale entries, writes only when asked and needed, and then ends in a repaired state |
| Repair.CalendarTables.ApplyRepair | apps/calendar/services.py:466-492 | Pinning, snapping, entry updates and syncing, in that order, come to the repaired state, and the updates hit as many entries as were stale |
| Repair.CalendarTables.PinSiblings | apps/calendar/services.py:479-484 | Exactly the scheduled children without a time of their own get their parent's, where it has one |
| Repair.CalendarTables.SnapEntries | apps/calendar/services.py:489-490 | One update per corrupt child resets every stale entry once and counts each once |
| Repair.CalendarTables.CountStale | apps/calendar/services.py:493-496 | The dry run counts the same entries that the repair would reset |
| Repair.CalendarTables.SyncParents | apps/calendar/services.py:491-492 | Affected parents get the earliest time among their children |
| Repair.RepairIsExact | apps/calendar/services.py:419-492 | Each child's time afterwards: that of its publication if it was published and set for later, its parent's if it is scheduled, has none and stands beside such a child, and its own otherwise; no other field changes |
| Repair.RepairedEntriesAreExact | apps/calendar/services.py:419-492 | An entry shows the publication of the late child of its post and channel if it was later than that, and is unchanged if there is none |
| Repair.RepairCures | apps/calendar/services.py:419-492 | Afterwards no published child in scope is set for later than its publication, no entry on the post and channel of one that was shows a later time either, and posts without such a child keep all their rows |
| Repair.RepairKeepsConstraints | apps/calendar/services.py:466-492 | The database's constraints survive the repair |
| Repair.RepairTwice | apps/calendar/services.py:386-503 | Repairing again changes nothing |
| Repair.RepairSyncs | apps/calendar/services.py:485-492 | Every affected parent is the earliest of its children, and a database in step stays in step |
| Repair.PendingTimesKeptIff | apps/calendar/services.py:470-484 | No scheduled child's effective time moves if and only if each one that relies on an affected parent has a parent time to be pinned to |
| Repair.PendingTimesKept | apps/calendar/services.py:470-484 | In particular none moves when parents were the earliest of their children beforehand |
| Recurrence.ComputeRecurrenceDates | apps/calendar/tasks.py:147-168 | The loop with its safety limit lists the dates that DatesAscend, StridedDates and LimitCoversIff speak about |
| Recurrence.DatesAscend | apps/calendar/tasks.py:147-168 | With a positive interval the dates ascend strictly, after the base date and up to the end |
| Recurrence.ZeroIntervalRepeats | apps/calendar/tasks.py:153-166 | With interval 0 the base date comes as often as the limit allows |
| Recurrence.DatesDistinctIff | apps/calendar/tasks.py:147-168 | The dates are free of repeats if and only if the interval is positive or at most one date can come out |
| Recurrence.StridedDates | apps/calendar/tasks.py:153-166 | A daily or weekly rule lists its k-th date if and only if that is within the limit and not past the end |
| Recurrence.LimitCoversIff | apps/calendar/tasks.py:152-168 | Every date up to the end is listed if and only if the first one past the limit lies beyond the end |
| RecurrenceReach.ListedIff | apps/calendar/tasks.py:147-168 | A rule of any frequency with a positive interval lists a date if and only if it is one of the first dates of its schedule, as many as the limit, and not past the end |
| Recurrence.CloneFallsOnItsDate | apps/calendar/tasks.py:73-120 | A clone of a source in step falls on its local date, and is in step itself |
| Recurrence.ShiftedEarliest | apps/calendar/tasks.py:91-113 | The clone's children keep their offsets to the series, so the earliest of them keeps its own |
| Recurrence.ClonesOfFallbackChildrenVanish | apps/calendar/tasks.py:94-120 | When all children rely on the source's own time, syncing clears the clone's time |
| Recurrence.PostTable.GenerateRecurringPosts | apps/calendar/tasks.py:20-144 | The daily job over all rules, with its limit of 180 dates, ends in the state that RunsKeepDatesApart and SecondRunCreatesNothing speak about, rule by rule as RuleMakesOwedIff says, and counts the posts it created |
| Recurrence.PostTable.ApplyRule | apps/calendar/tasks.py:31-138 | One rule only appends posts, and counts them; RuleMakesOwedIff says which |
| Recurrence.ClonesAreAhead | apps/calendar/tasks.py:69-138 | Whatever is added is a clone for one of the rule's dates, after today, that was not taken |
| RecurrenceReach.RuleMakesOwedIff | apps/calendar/tasks.py:31-138 | For a source in step, a rule makes a clone for a date if and only if that is on its schedule within the limit, after today, at most 90 days ahead, not past the rule's own end, and has no other post of the same workspace and caption; a clone keeps the source's local time of day and its children's distances, and nothing else is added |
| RecurrenceReach.EveryDateHasAPost | apps/calendar/tasks.py:31-138 | Afterwards every date of the schedule within the limit and those bounds has a post besides the source |
| RecurrenceReach.ZeroIntervalKeepsBounds | apps/calendar/tasks.py:31-138 | With interval 0 all clones are for the source's own date, and there are some only if that lies within the same bounds and has no other post |
| RecurrenceAgain.RuleCovers | apps/calendar/tasks.py:58-138 | After a rule has run, each of its dates after today has a post of the series |
| Recurrence.RuleKeepsDatesApart | apps/calendar/tasks.py:58-138 | A rule whose clones cannot pile up keeps at most one clone per workspace, caption and local date |
| Recurrence.RuleKeepsDatesApartIff | apps/calendar/tasks.py:31-138 | For a source in step, one rule keeps one clone a date if and only if it is not the case that its interval is 0, its source lies ahead of today within reach, and no other post of the series is on that date |
| Recurrence.RunsKeepDatesApart | apps/calendar/tasks.py:31-138 | So does any sequence of runs at any times, for sources in step and rules that do not pile up clones at those times |
| RecurrenceAgain.SecondRunCreatesNothing | apps/calendar/tasks.py:31-138 | For sources in step, whatever the intervals, a second run of the whole job at the same time creates nothing |
| RecurrenceAgain.SecondRunAddsNothingIff | apps/calendar/tasks.py:31-138 | For any source, in step or not, a second run of its rule adds nothing if and only if each date cloned for is hit by one of the clones |
| RecurrenceAgain.SecondRunByCountIff | apps/calendar/tasks.py:31-138 | For sources in step and those whose children rely on their time: if and only if the source is in step or no date is free |
| RecurrenceAgain.FallbackSourceRepeats | apps/calendar/tasks.py:58-120 | A source whose children rely on its own time yields the same number of timeless clones again in a second run |
| DeltaAttribution.Distribute | apps/analytics/services.py:207-216 | Spreading over days touches exactly the days inside both the span and the window |
| DeltaAttribution.CreditFirst | apps/analytics/services.py:194-218 | The three cases of a first observation, as additions to each day's credit |
| DeltaAttribution.PostSummedSeries | apps/analytics/services.py:122-224 | The loop's running value is the post's high-water mark; every day of the result is the sum of what the rows credit to it, no day outside the window appears, and the capture time is the latest one |
| DeltaAttribution.FirstRowSum | apps/analytics/services.py:196-216 | Once its day has passed, a first observation is credited in full, or not at all if the post predates the window |
| DeltaAttribution.FirstRowIsSpread | apps/analytics/services.py:194-218 | A first observation of a post published in the window gives every day from publication to observation the same share, which times their number is the value, and no other day anything; without a usable date all of it falls on its own day |
| DeltaAttribution.PostConserves | apps/analytics/services.py:181-224 | For each post and each day from its first observation on, the credits through that day add up to the high-water mark reached, less the anchor; resets and recoveries never over-credit |
| DeltaAttribution.MarkIsGreatest | apps/analytics/services.py:181-224 | The mark that conservation speaks about is the greatest value among the post's rows before that day, and there is none if there is no such row |
| DeltaAttribution.PostIsCredited | apps/analytics/services.py:181-224 | Over the whole window a post is credited with its greatest value, less the first one if and only if it was published before the window |
| DeltaAttribution.DayCreditByPost | apps/analytics/services.py:186-224 | A day's credit is the sum of the posts' shares, each row counted for its own post only |
| DeltaAttribution.GrandTotal | apps/analytics/services.py:181-224 | The returned days add up to the sum over the posts of maximum less anchor |
| DeltaAttribution.SeriesFor | apps/analytics/services.py:77-102 | The chart series has two windows' length and gives each day its own value: the account's, missing days 0, or, where the posts stand in, their credits of that day, whose sum is then the posts' growth |
| Engagement.WindowsTile | apps/analytics/derive.py:38-46 | The current window is the latest days, the previous one what precedes it, and together they are the latest two windows |
| Engagement.Exchange | apps/analytics/derive.py:87-102 | Summing days of part totals equals summing parts over those days |
| Engagement.NumeratorByRows | apps/analytics/derive.py:87-102 | The numerator of either window is the sum of the padded parts' own sums over it |
| Engagement.NumeratorAddsUpIff | apps/analytics/derive.py:49-102 | For given lengths of the parts' series, the numerator is the sum of the parts' cards in both windows whatever the values, if and only if no two different lengths but 0 occur of which the longer exceeds the current window (lengths beyond two windows count as equal) |
| Engagement.FullSeriesAddUp | apps/analytics/derive.py:49-102 | For series that cover both windows it always is |
| Idempotency.RecordTable.ClaimSlot | apps/api/middleware.py:136-188 | Without a key nothing happens; with a free one the caller owns a pending row; otherwise the table is untouched and the verdict is the one that LoserIsTold and RetryIsAnswered spell out |
| Idempotency.RecordTable.TryInsert | apps/api/middleware.py:167-177 | Succeeds if and only if the slot is free |
| Idempotency.RecordTable.LookUp | apps/api/middleware.py:180-188 | Reads the row without changing it; mismatch comes before in-flight and that before replay, as LoserIsTold and RetryIsAnswered state for every claim that is lost |
| Idempotency.RecordTable.FinalizeResponse | apps/api/middleware.py:191-209 | Sets status and body and keeps the fingerprint and the date of the claim |
| Idempotency.RecordTable.ReleaseClaim | apps/api/middleware.py:212-230 | Deletes a pending row only; finalized rows stay |
| Idempotency.RecordTable.SweepStale | apps/api/tasks.py:34-55 | Drops exactly the rows older than a day, whatever their status, as SweptIff spells out |
| IdempotencyProtocol.SweptIff | apps/api/tasks.py:34-55 | A row, pending or finalized, goes if and only if more than 86400 seconds have passed since its claim; what stays is unchanged |
| IdempotencyProtocol.ClaimKeeps | apps/api/middleware.py:167-188 | A claim by any worker, won or lost, keeps the protocol's invariant |
| IdempotencyProtocol.FinishKeeps | apps/api/middleware.py:191-209 | So does finishing |
| IdempotencyProtocol.FailKeeps | apps/api/middleware.py:212-230 | So does releasing after an error |
| IdempotencyProtocol.AbandonKeeps | apps/api/routers/media.py:133-143 | So does going away with the claim |
| IdempotencyProtocol.SweepKeeps | apps/api/tasks.py:34-55 | So does a sweep while no work is overdue |
| IdempotencyProtocol.ProtocolIsSafe | apps/api/middleware.py:136-230 | For every interleaving in which work finishes within the lifetime: one holder per slot; a pending row if and only if it is held or abandoned; every replay is the answer to the same key and fingerprint; two answers under one key were claimed more than a lifetime apart |
| IdempotencyProtocol.RetryIsAnswered | apps/api/middleware.py:167-188 | For a lifetime after the claim a retry gets the stored answer, and another request under that key is refused |
| IdempotencyProtocol.LoserIsTold | apps/api/middleware.py:167-188 | A claim on a pending row, held or abandoned, is lost without changing the table; the same fingerprint is told that it is in flight, another one is refused, and if the holder fails before the read the row is found gone |
| IdempotencyProtocol.ReleaseKeepsAnswers | apps/api/middleware.py:212-230 | Releasing a claim takes no stored answer away, whoever's it is |
| IdempotencyProtocol.OrphansAreFreed | apps/api/routers/media.py:133-143 | An abandoned slot can be claimed after a sweep if and only if its lifetime is over; until then the same request is told that it is in flight, and another one is refused |
| IdempotencyProtocol.OverdueWorkLosesItsSlot | apps/api/tasks.py:34-55 | Overdue work, a sweep and a claim make two holders of one slot |
| IdempotencyProtocol.OverdueAnswerIsReplayed | apps/api/middleware.py:191-209 | If overdue work that has lost its slot finishes, its answer is stored under the second holder's fingerprint and replayed to whoever repeats the second request |
| IdempotencyProtocol.OverdueAnswerOverwrites | apps/api/middleware.py:191-209 | If the second holder has finished by then, the overdue answer overwrites the stored one and keeps fingerprint and date |
| IdempotencyProtocol.TimelyIff | apps/api/tasks.py:34-55 | A sweep and a claim cannot make a second holder if and only if no work is overdue |
| IdempotencyCreations.OneCreationPerKey | apps/api/routers/posts.py:242-277 | For every interleaving in which work finishes within the lifetime and nobody releases a claim after creating: two creations under one key were claimed more than a lifetime apart |
| IdempotencyCreations.RetryCreatesTwiceIff | apps/api/routers/posts.py:230-286 | When a worker fails and another retries under its key, the retry creates a second thing within the lifetime if and only if the first had created already |
| Tokens.PrintedTokensParse | apps/api_keys/services.py:93-120 | Every printed token parses back to its parts, underscores in the secret included |
| Tokens.ParseIffPrinted | apps/api_keys/services.py:197-200 | A string parses to given parts if and only if it is the printed form of a secret of admissible length |
| ApiKeys.KeyStore.VerifyToken | apps/api_keys/services.py:331-383 | Whatever the cache holds, the decision and the row are those of a fresh database lookup, which VerifiedIff describes; the cache changes only by filling in the key's active row for 30 seconds after a miss, keeps an accepted row, and keeps no row refused for a reason other than the secret |
| ApiKeys.VerifiedIff | apps/api_keys/services.py:331-403 | A token is accepted with a row if and only if it is the printed form of a secret of 32 to 64 characters whose lookup names the row and whose keyed hash the row stores, the row is not revoked and not expired, and its issuer is a member of its workspace |
| ApiKeys.RevokedIsRefused | apps/api_keys/models.py:104-110 | No token of a key is accepted at any time while its row says that it was revoked |
| ApiKeys.CachedRowDecidesAlike | apps/api_keys/services.py:363-403 | A cached row may lag only in naming a deleted issuer, and then both it and the database refuse |
| ApiKeys.KeyStore.SaveRow | apps/api_keys/signals.py:89-101 | A save and its signal leave no cached copy of the row and keep the cache coherent |
| ApiKeys.KeyStore.SetAccounts | apps/api_keys/signals.py:54-57 | So does a change of the allowlist from the key's side |
| ApiKeys.KeyStore.ReverseAdd | apps/api_keys/signals.py:59-68 | An addition from the account's side changes just the named keys and keeps the cache coherent |
| ApiKeys.KeyStore.ReverseRemove | apps/api_keys/signals.py:59-68 | So does a removal, for which only the named keys are known |
| ApiKeys.KeyStore.ReverseClear | apps/api_keys/signals.py:70-86 | Clearing busts the keys remembered beforehand, which suffices for coherence |
| ApiKeys.KeyStore.SetMember | apps/api_keys/services.py:386-403 | A membership change needs no invalidation |
| ApiKeys.KeyStore.DeleteUser | apps/api_keys/services.py:386-403 | Nor does deleting a user, although it rewrites rows without a signal |
| ApiKeys.KeyStore.RevokeKey | apps/api_keys/services.py:289-300 | The key is revoked, once, and out of the cache |
| ApiKeys.KeyStore.UpdateKey | apps/api_keys/services.py:215-286 | An edit decides each permission the editor can grant as asked and keeps every other; identity stays; a refused edit changes nothing; refused if and only if the editor may not manage, is no member, or the accounts are none or foreign |
| KeyCacheRaces.StepKeeps | apps/api_keys/services.py:345-383 | Every step of a request, a writer or a signal keeps each read explained, as current or superseded after it was read, and each acceptance justified |
| KeyCacheRaces.StaleAcceptanceIsBounded | apps/api_keys/services.py:331-403 | Over every interleaving, of every request let through, on a hit or on a miss: its row was active and its issuer a member at that moment, the row is current or was superseded only after it was read, and a hit was got less than 30 seconds after its fill |
| KeyCacheRaces.CachedRowsAreExplained | apps/api_keys/services.py:345-361 | Over every interleaving, a cached row was not revoked when it was read, and is current or was superseded only after that |
| KeyCacheRaces.RefusalEvicts | apps/api_keys/services.py:363-383 | After a refusal for revocation, expiry or membership the next request for the key misses the cache |
| KeyCacheRaces.SettledIff | apps/api_keys/services.py:345-383 | However the system goes on without a change of the key, only its current row is accepted, if and only if no superseded row of it that is active and names an issuer can be read from the cache or is in a request's hand |
| KeyCacheRaces.BustSettlesIff | apps/api_keys/services.py:303-319 | So from an invalidation on only the current row is accepted, in every continuation, if and only if no request has such a row in hand at that moment |
| KeyCacheRaces.HitIsAccepted | apps/api_keys/services.py:345-383 | A request that gets a live entry whose row passes the checks is let through on exactly that row |
| KeyCacheRaces.LateFillStays | apps/api_keys/services.py:348-361 | A fill that overtakes the signal leaves a superseded row that can be got and passes the checks |
| KeyCacheRaces.BustBeforeCommitIsTooEarly | apps/api_keys/services.py:280-285 | With the signal before the commit, a request that reads and fills in between leaves a superseded row that can be got and passes the checks, though it had nothing in hand at the signal |
| Cadence.PostSyncInterval | apps/analytics/tasks.py:41-61 | The table lookup ends in the right band for every age, and in none from 90 days on |
| Cadence.SnapshotLog.SyncAll | apps/analytics/tasks.py:709-721 | A pass of the job gives each post its own step of the decay schedule, independently of the others |
| Cadence.CapturesAreSpaced | apps/analytics/tasks.py:599-629 | Over any run, consecutive captures of a post lie at least the later one's interval apart, and none happens from age 90 days on |
| Cadence.CapturesAreWritten | apps/analytics/tasks.py:709-721 | Captures happen only at passes that write a row, and never of a post older than the platform's number of days; with 0 days there are none |
| Cadence.FirstPassCaptures | apps/analytics/tasks.py:709-721 | A first pass that writes does capture a post younger than 90 days and than the platform's number of days |
| Cadence.CapturesAreBounded | apps/analytics/tasks.py:41-61 | However often the job ticks, a post is captured at most 79 times |
| Cadence.GreedyReachesBound | apps/analytics/tasks.py:41-61 | Some run captures it 79 times |
| Throttles.FailedAuthThrottle.RecordFailedAuth | apps/api/limits.py:320-336 | A failure counts within the open window and never extends it, or opens a new one |
| Throttles.FailedAuthThrottle.Authenticate | apps/api/auth.py:97-154 | A blocked request is refused unrecorded; otherwise one over plain HTTP or with a bad credential is refused and recorded once |
| Throttles.FailuresPerMinute | apps/api/limits.py:305-336 | For every trace the counter stays within ten, and no half-open minute sees more than 19 recorded failures |
| Throttles.NineteenFailures | apps/api/limits.py:305-336 | Some requests, in the order of time, leave 19 recorded failures within a minute |
| Throttles.AuthRateLimit.Call | apps/accounts/middleware.py:61-72 | A limited request is admitted while fewer than ten are counted, and only then counted, with a refreshed window |
| Throttles.AdmissionsPerMinute | apps/accounts/middleware.py:61-72 | For every trace no half-open minute sees more than ten admissions |
| Throttles.TenAdmissions | apps/accounts/middleware.py:61-72 | Some attempts, in the order of time, are admitted ten times within a minute |
| Reminders.ReminderTable.Visit | apps/approvals/tasks.py:61-91 | One stalled post's row and notice, created if missing |
| Reminders.ReminderTable.ProcessStage | apps/approvals/tasks.py:48-91 | A cycle gives each stalled post its own step, once, sends exactly the due notices, and touches no other row |
| Reminders.ReminderTable.Reset | apps/approvals/services.py:115-119 | A submission starts the stage afresh |
| Reminders.PlanGrows | apps/approvals/tasks.py:68-87 | The code's decision from the stored counters adds exactly what the plan calls for next |
| Reminders.RunFollowsPlan | apps/approvals/tasks.py:48-91 | Over any run of cycles and resets, what was sent since the last reset is: a reminder at the first cycle, one at the first cycle a threshold later, an escalation at the very next cycle, then nothing |
| Reminders.StageFollowsPlan | apps/approvals/tasks.py:19-91 | With the job's own thresholds the plan waits 24 hours between reminders in review and 48 at the client |
| Reminders.RemindersAreBounded | apps/approvals/tasks.py:68-87 | Hence at most two reminders, a threshold apart, and at most one escalation, after both |
| Reminders.EscalationIsPrompt | apps/approvals/tasks.py:69-75 | The escalation comes with the cycle right after the second reminder, however soon that is |

## Left out

- Recurrence.CloneFallsOnItsDate: month arithmetic is a parameter that moves dates forward, and wall-clock times are taken to fall on the date they are set for.
- PostingSlots.NextSlotDatetimes: the reading of the slot table and of the workspace's zone name are parameters, and so is the zone: results ask that clear wall-clock times name ascending instants, which `Zones.ZonesAreOrdered` proves for all zones whose changes lie further apart than what they skip or repeat.
- Channel.SocialAccount.Prioritize: the order in which the database lists entries is a parameter; the returned entry object is not modelled.
- QueueSafety.PrioritizeLadders: like `AddIsEarliest` it is stated for coming slots that are all clear, since others may stand out of order and be taken while held; `AddIsExact`, `PrioritizeFailsIff`, `AddSafeIff` and `PrioritizeSafeIff` cover them.
- QueueRuns.PlainRunIsSafe: the clock is read once per operation; a calendar drag is assumed to go to an instant that no other live post holds, and a removal to name an entry; a retry is assumed not to start on a row that is published or being published by then, which its status write does not check; what publishing does beyond the status, the time and the queue entries is not modelled, nor is a composer save that re-times a post.
- QueueRuns.RunIsSafe: the same assumptions; its conditions on additions, prioritizations, reorderings and ends of attempts are exact, and `PlainIsAllowed` derives them from conditions on what goes in.
- The approval times, update stamps and parts of `sync_post_scheduled_at` other than the earliest child.
- Creating the default queue and slots, and the older wrapper that picks between adding and prioritizing.
- Repair.CalendarTables.RepairFuturePublished: the report's line per child is reduced to the three counts.
- Recurrence.RunsKeepDatesApart: sources whose children are timed off their parent's own time are covered rule by rule in `RecurrenceAgain.SecondRunAddsNothingIff`; whether their clones share dates is left open, since such clones may fall on a neighbouring date.
- Recurrence.PostTable.ApplyRule: media, tags and per-platform settings that clones copy, and the rule's own time stamp.
- DeltaAttribution.PostSummedSeries: floating-point rounding; values are exact reals.
- The account bundle's mixing of account and post series with their freshness, hero cards and charts: regrouping of the same sums.
- Engagement.NumeratorAddsUpIff: rounding, the choice of the denominator and the percentage itself.
- IdempotencyCreations.OneCreationPerKey: a creation commits in one step; an attempt that commits nothing simply does not create.
- IdempotencyProtocol.ProtocolIsSafe: fingerprints are taken to be free of collisions; answers' JSON form and the audit log are left out.
- KeyCacheRaces.StaleAcceptanceIsBounded: requests present the key's own token, so the comparison of hashes always succeeds there; it is modelled in `ApiKeys`.
- ApiKeys.KeyStore.VerifyToken: the digests are functions; issuing checks, deletion of key rows and cascading deletes of accounts, and the last-used stamp are left out.
- Tokens.PrintedTokensParse: a lookup is taken to be eight characters without an underscore, as a hexadecimal digest is.
- Cadence.SnapshotLog.SyncAll: a fetch that writes a counted row is a given answer; account-level metrics and backfill are left out.
- Throttles.FailuresPerMinute: requests of one address are handled one after the other, so the re-seeding branch for a counter that expires between two cache calls is not reached.
- Reminders.ReminderTable.ProcessStage: the query for stalled posts and the choice of recipients are left out.
- Per-key and per-workspace rate limits, which a library enforces, and platform quotas.
- The approval workflow's transition graph beyond the edges to draft and to publishing; any review step between unprotected statuses is allowed.
- Provider clients, views, forms, mail and notifications.

# A verified model of the recorder's core

A Dafny model of the parts of stream-dvr whose correctness is hardest to see by reading one function:
the recovery scheduler and its handshake with captures, the naming printer and the parser that undoes
it, the backfill planner, hole detector, patcher and fetcher, the migration race, the log record, and
the size printer and parser. Every theorem is for all inputs, all runs or all interleavings.

Time is whole nanoseconds from a fixed origin. Calls out of the modelled code (the store, the
downloader, the probe, the clock, other processes) are parameters, or steps that may happen at any
point with any outcome. Code that changes state in place is modelled by methods over fields, with the
same branches in the same order, and each of them is proved against the functions and machines the
theorems are about.

| modules | what they model |
|---|---|
| `RecoveryQueue`, `RecoveryRuns`, `RecoveryWarnings`, `RecoveryPacing` | the recovery loop as a machine whose steps requests interleave with; no window lost, trims reported, rounds paced |
| `RoundHandshake` | the check, install and recheck race between a round and any number of captures |
| `Scheduler`, `Ordering` | the daemon's own fields and methods, shown to play runs of that machine and to follow the probe history |
| `Migrate` | processes racing one database through transactions that fail or crash |
| `Text`, `Sanitize`, `Template`, `Rendering` | a name printed: parsing a template, resolving, fitting, sanitizing, candidates |
| `Matching`, `ReadBack`, `Duplicates`, `Dates`, `Match`, `DefaultName`, `RoundTrip`, `AnyTemplate` | a name read back: the regular expression as a backtracking matcher, ambiguity, repeated placeholders, marks, dates, and the round trip, of the default template and of any that reads one way |
| `Civil`, `Calendar`, `Plan` | the civil calendar, the month grid, and which broadcasts a pass fetches |
| `Library`, `Holes`, `Patch`, `PatchPass`, `Patcher` | the rows, the holes between recordings, and filling them over any number of passes |
| `Claims`, `Fetcher` | one broadcast's claim through any sequence of fetches |
| `Escape`, `LogRecord`, `Logger` | rendering untrusted text, and a log record a reader can take apart |
| `Units`, `Numerals` | sizes and decimal numerals, printed and parsed |

Where a promise turned out narrower than its documentation, the model keeps the code and the theorem
states exactly when the promise holds:

- The greedy-versus-lazy test (`internal/naming/match.go:96-107`) is exact wherever `{ext}` is absent, the
  last placeholder of variable width, or cut off from the next one by anything but letters and digits
  (`Matching.AgreementIsUniqueness`). Elsewhere it can let an ambiguous name through
  (`Matching.GreedyExtHidesAReading`); `Matching.AgreementHidesExactly` says, for every template, which.
- A title that is `(2)`, and not only one that ends in ` (2)`, loses its number when the name is read
  back. `RoundTrip.FirstNameReadsBack` is an if-and-only-if, and `RoundTrip.MarkAloneIsLost` the example.
- The trim warning is complete as long as the library's first session is never dated earlier than it was
  before. `RecoveryWarnings.EarlierSessionHidesATrim` is a run in which it is, and
  `RecoveryWarnings.TrimUnsaidExactly` says which windows go unwarned.
- A filed hole can lie over a recording when captures nest. `Holes.ClearExactlyWhenLastToEnd` says
  exactly when none does; completeness, order and disjointness of the holes themselves need nothing.
- Detection files every other hole when the store refuses one (`internal/backfill/gaps.go:119-136`), but
  `Patch` then returns before patching any of them (`internal/backfill/patch.go:186-188`), on every
  pass. `Patcher.RefusedExactly` says for which broadcasts, and `Patcher.EarlyEndStopsEveryPass` is one.
- Values read out of a name spell it again exactly where no repeated placeholder was captured two ways
  (`ReadBack.LiteralExactlyWhereCapturesAgree`), so always where a template names nothing twice
  (`ReadBack.ValuesAreTheName`). Elsewhere an occurrence can be the form its value takes standing alone:
  `ReadBack.DeviceNameReadsBare`.
- A filled hole does not always have a file behind it. `PatchPass.FilledHolesLoseOnlyWhatIsReleased` says
  that it is without one exactly when the recording behind it was released from the trash, and
  `PatchPass.PurgeLeavesTheHoleFilled` that the hole then stays marked filled and is patched no more.

## Model

| member | source | states |
|---|---|---|
| `RecoveryRuns.NoWindowIsLost` | internal/daemon/recover.go:280-403 | over every run, however the clock moves, whatever coalesces and whichever of the unclean endings a round has, each requested window is still covered by the pending request, by the window in flight, by a round that ended clean, or by a verdict that nothing is left, back to its own start or to where a round had to clamp it |
| `RecoveryRuns.AsksAreForever` | internal/daemon/recover.go:197-220 | a request once made stays in the history with the window it asked for, and once settled stays settled as it was |
| `RecoveryRuns.SettledOnlyByItsRound` | internal/daemon/recover.go:344-403 | a request is settled by nothing but a round carrying it that was not shut down, returned no error, failed nothing and put nothing off, by a bound that left nothing before now, or by a library no recorder ever held |
| `RecoveryRuns.OutagesReachBack` | internal/daemon/recover.go:255-266 | from the answer that ends an outage on, over any run, the window behind it carries the outage's own start as its gap and is owed back to twelve hours before it, or to a clamp, until it is settled |
| `RecoveryRuns.DowntimeReachesBack` | internal/daemon/recover.go:731-744 | so with downtime: owed back to twelve hours before it began, or before fourteen days of it |
| `RecoveryRuns.RoutineReachesBack` | internal/daemon/recover.go:171-176 | so with the routine tick: owed back to fourteen days before it |
| `RecoveryRuns.ClampsAreRounds` | internal/daemon/recover.go:419-479 | every clamp is one some round met: the first session as that round read it, or fourteen days before it |
| `RecoveryRuns.BoundIsTheClamp` | internal/daemon/recover.go:419-479 | a round starts exactly at the latest of what was asked, the library's first session and now less fourteen days, or nothing is left to cover |
| `RecoveryWarnings.TrimIsAlwaysReported` | internal/daemon/recover.go:419-479 | on a clock that never runs backwards, every round that starts at least five minutes after a measured gap it carries (or the first session, when later) warns, through any coalescing and any number of requeues, and names a loss at least that old, as long as the first session is never dated earlier than it was before |
| `RecoveryWarnings.TrimUnsaidExactly` | internal/daemon/recover.go:419-479 | a round that starts five minutes or more past the gap it carries says nothing exactly when its window was asked to start that far past it and is not over the horizon again |
| `RecoveryWarnings.EarlierSessionHidesATrim` | internal/daemon/recover.go:419-479 | a run on a steady clock in which the first session is dated earlier between two rounds, and the second starts fifty minutes past its gap unwarned |
| `RecoveryWarnings.NothingTrimmedNothingSaid` | internal/daemon/recover.go:419-479 | a warning is raised only for a start at least five minutes past the loss it names, and quotes exactly that stretch |
| `RecoveryWarnings.WarningQuotesItsOwnOutage` | internal/daemon/recover.go:190-225 | over every run the reason a warning quotes is the reason the earliest measured outage of the requests it covers was queued with, although the start and the gap are separate minima |
| `RecoveryPacing.RunsArePaced` | internal/daemon/recover.go:663-683 | over every run, after n unclean rounds in a row the wait is min(2^n times half an hour, six hours), after a clean one half an hour, and starts keep apart |
| `RecoveryPacing.EveryRoundWaitsItsTurn` | internal/daemon/recover.go:649-683 | a round that starts has waited that whole pacing from the end of the last |
| `RecoveryPacing.RoundsAreFew` | internal/daemon/recover.go:542-553 | any stretch of length T holds at most 1 + T / 30min round starts, counting windows that could not be bounded |
| `RecoveryPacing.DoublingReachesBackoff` | internal/daemon/recover.go:663-676 | the doubling the code does step by step is the closed form, capped at six hours |
| `RoundHandshake.NoUncancelledRoundBesideACapture` | internal/daemon/recover.go:332-348 | for any number of watchers and every interleaving, once a round is past its second check, a capture that has returned from noteCapturing and is not forgotten means that round's context is cancelled, even where the watcher held a cancel of an earlier round |
| `RoundHandshake.TwoStepsFromCancelled` | internal/daemon/daemon.go:1191-1230 | a capture still inside noteCapturing beside an uncancelled running round is at most two of its own steps, both enabled, from cancelling that round |
| `RoundHandshake.RoundsYieldOnlyToNewCaptures` | internal/daemon/recover.go:606-630 | a round in flight that was made to stand aside was stopped by a capture that registered after its hold check, never through a stale cancel |
| `RoundHandshake.RunsKeepTheHandshake` | internal/daemon/watch.go:474-507 | register, record, forget in the capture thread's order keep the capturing set exact and every context but the current one cancelled, over every run |
| `Scheduler.ReportMovesOutage` | internal/daemon/recover.go:245-272 | how one more probe report moves the start of a channel's trailing unanswered run in the probe history |
| `Scheduler.OutagesStayDated` | internal/daemon/recover.go:245-272 | the outages map, updated in place, dates every channel's trailing unanswered run by its first report |
| `Scheduler.ProbesStayLatest` | internal/daemon/recover.go:245-272 | the probed map holds exactly each channel's last report |
| `Scheduler.Scheduler.NoteProbe` | internal/daemon/recover.go:245-272 | where the unanswered run an answer ends opened at s, five minutes or more before, the start becomes s less twelve hours or what was asked before if earlier, and the gap becomes s or the earlier one measured; any other report queues nothing |
| `Scheduler.Scheduler.ReachablePlatforms` | internal/daemon/recover.go:632-645 | exactly the platforms with some channel whose last probe was answered, sorted and without repeats |
| `Scheduler.Scheduler.QueueRecovery` | internal/daemon/recover.go:197-220 | the start and the gap are two separate minima, each with the reason of the request it came from, and the loop is poked when the request moves |
| `Scheduler.Scheduler.RequestRoutine` | internal/daemon/recover.go:171-176 | the routine tick asks for fourteen days back and measures nothing |
| `Scheduler.Scheduler.TakeRecovery` | internal/daemon/recover.go:693-716 | taking the pending window empties it, and quotes the reason of the earliest gap |
| `Scheduler.Scheduler.NoteRoundRan` | internal/daemon/recover.go:663-676 | the backoff in place follows the paced doubling |
| `Scheduler.Scheduler.RequestDowntime` | internal/daemon/recover.go:731-744 | downtime under five minutes asks for nothing; more asks for a window reaching twelve hours before it began, counting fourteen days of it at most, and measures all of it |
| `Scheduler.Scheduler.RunRecovery` | internal/daemon/recover.go:280-409 | the whole call, with its outcome given, is one stretch of a run of the recovery machine; a window that could not be bounded is queued again as it was asked for |
| `Scheduler.Scheduler.SettleRound` | internal/daemon/recover.go:357-403 | branch by branch of the switch: a shutdown, a deadline, a cancel, an error, a failed or a deferred item each queue the window again from its bounded start with the gap it was asked with, a clean end queues nothing, and a shutdown, a cancel and a clean end alone are paced as clean |
| `Scheduler.RoundPlays` | internal/daemon/recover.go:280-409 | a round admitted, bounded, judged, paced and requeued is a run of the machine, so what holds over runs holds of the fields |
| `Migrate.AppliedOnceInOrder` | internal/migrate/sql.go:107-146 | for any number of processes racing on one database, with failures and crashes anywhere: the initial schema and each migration are applied at most once, in ascending order, and the log is Init plus exactly the migrations at or below user_version |
| `Migrate.LogOnlyGrows` | internal/migrate/sql.go:193-253 | nothing applied is undone, repeated or reordered as the race goes on |
| `Migrate.SuccessMeansUpToDate` | internal/migrate/sql.go:107-146 | a process whose Run succeeded leaves a database with Init and every migration applied, and it stays so |
| `Migrate.ForeignDatabasesAreLeftAlone` | internal/migrate/migrate.go:130-142 | a database at a negative or unknown version is never written to, and every process that finds one fails |
| `Migrate.SqlRegistry.Register` | internal/migrate/migrate.go:97-108 | registering keeps the versions sorted and distinct, panics exactly on a version under 2 or one already there, and otherwise adds exactly that version |
| `Migrate.Connection.Run` | internal/migrate/sql.go:107-146 | the loop over migrations, with others committing between its transactions, keeps the log in step with the version; it succeeds where no step of its own fails and the version it finds is known, and returns success only with all of it applied |
| `Migrate.Connection.RunInit` | internal/migrate/sql.go:193-218 | it fails exactly when its own transaction does, leaving what others had committed as it found it; otherwise it builds the initial schema over an empty database and nothing over any other |
| `Migrate.Connection.ApplyMigration` | internal/migrate/sql.go:227-253 | the version is read again inside the transaction, so a migration somebody else applied is skipped; it fails exactly when its own transaction does, and then changes nothing of its own |
| `Template.Parse` | internal/naming/naming.go:282-334 | the loop yields the parts, or the first thing wrong: empty, unclosed, unknown, none, or more than 32 |
| `Template.ErrorsAreThere` | internal/naming/naming.go:282-334 | a refused template holds what it is refused for: a brace nothing closes, or a name in braces nobody knows |
| `Template.PartsSpellTheSource` | internal/naming/naming.go:282-334 | parsing loses nothing: the parts spell the template's own text back, in normal form |
| `Template.SourceParsesBack` | internal/naming/naming.go:282-334 | parts in normal form are what their own spelling parses to |
| `Template.PlaceholdersPrintTheirFields` | internal/naming/naming.go:214-226 | each name an operator writes between braces prints the field or the date part of that name, and no other name is known |
| `Template.SegmentUnits` | internal/naming/naming.go:497-509 | the rune loop counts one more than the UTF-8 length of a component that is not empty |
| `Template.FitsWhenShort` | internal/naming/naming.go:481-489 | nothing overflows exactly where every component is under 200 UTF-8 bytes |
| `Template.ShrinkIsAPrefix` | internal/naming/naming.go:513-531 | a shrunk title is a prefix, or nothing, shorter by at least the overflow in runes and in bytes |
| `Template.ShrinkKeeps` | internal/naming/naming.go:513-531 | of what is left once the overflow and then the spaces, tabs, dashes and underscores at its end are off, a shrunk title gives up what follows the last space exactly when that is a quarter of the bytes or less, and nothing else but the breaks then at its end |
| `Template.OneShrinkFits` | internal/naming/naming.go:441-458 | where any title fits, one shrink by the measured overflow is enough |
| `Template.RenderFitting` | internal/naming/naming.go:441-458 | the loop fails exactly when the template with an empty title overflows, and otherwise succeeds after at most one shrink with a prefix of the title |
| `Rendering.RenderedPathsAreContained` | internal/naming/naming.go:359-390 | containment: for every template and all field values, at least one component and no more than the template's literals delimit, each nonempty, free of separators, illegal and control characters, not a dot name, not ending in a dot or space, not a device or library name |
| `Rendering.RendersExactly` | internal/naming/naming.go:359-458 | a path is refused exactly where something named is missing, and then all of it is named, where a component would be 200 bytes or more with no title at all, or where no component is left or nothing of one is; otherwise it is rendered |
| `Rendering.EveryNameFitsTheFilesystem` | internal/naming/naming.go:639-656 | every component of every candidate name is at most 255 UTF-8 bytes and 255 UTF-16 units |
| `Rendering.RenderPath` | internal/naming/naming.go:359-390 | Render as the program runs it, through the fitting and the sanitizing loop |
| `Rendering.SanitizeSegments` | internal/naming/naming.go:535-556 | empty pieces are dropped, and one piece that sanitizes away refuses the path |
| `Rendering.Deduplicate` | internal/naming/naming.go:663-670 | the first candidate nobody has taken, or none of the 999 |
| `Sanitize.SanitizeOne` | internal/naming/naming.go:581-631 | the trim loop terminates, at the fixed point, and what it returns is safe |
| `Sanitize.PassKeepsFixedPoint` | internal/naming/naming.go:581-600 | one pass of the trim loop takes nothing the fixed point keeps, and either shortens the text or leaves it at the fixed point |
| `Sanitize.SanitizeRunes` | internal/naming/naming.go:562-575 | each illegal or control character becomes the replacement, and nothing else changes |
| `Sanitize.ReplacedMeans` | internal/naming/naming.go:151-168 | the nine illegal characters, those under 0x20 and those from 0x7F to 0x9F become an underscore, and every other one stays |
| `Sanitize.SanitizeIsIdempotent` | internal/naming/naming.go:581-631 | sanitizing twice is sanitizing once |
| `Sanitize.FixedExactlyWhenSafe` | internal/naming/naming.go:581-631 | exactly the safe components are left as they are |
| `Sanitize.SafeMeans` | internal/naming/naming.go:151-251 | a safe component is one with none of the nine illegal characters, no control character, no space at either end and no dot at the last, no device name before its first dot, neither of the library's own directories, and local to the host |
| `Sanitize.SanitizeMeans` | internal/naming/naming.go:581-631 | a component becomes itself with each forbidden character replaced, less the spaces at its start and the dots and spaces at its end, behind an underscore exactly where it would not be safe without; and is refused exactly where nothing is left |
| `Matching.ReadSpells` | internal/naming/match.go:299-320 | whatever the backtracking match reads, put back into the template, spells the name |
| `Matching.ReadIsFirst` | internal/naming/match.go:299-320 | whatever spells the name, the pass finds something, and nothing it prefers less |
| `Matching.AgreementDecides` | internal/naming/match.go:96-107 | for every template, the greedy and lazy passes agree on a reading if and only if it spells the name and anything else that does first parts from it by giving the extension less |
| `Matching.AgreementIsUniqueness` | internal/naming/match.go:96-107 | where the extension is absent, last of variable width, or cut off from the next part of variable width by anything but letters and digits, they agree if and only if exactly one assignment of values spells the name |
| `Matching.LastIsCutOff` | internal/naming/match.go:299-320 | an extension that is last of variable width counts as cut off, by what follows it or by the end of the name |
| `Matching.AgreementHidesExactly` | internal/naming/match.go:96-107 | name by name, for every template: they agree on a reading that is not the only one exactly when it spells the name, something else first parts from it by giving the extension less, and so does everything else that spells it |
| `Matching.GreedyExtHidesAReading` | internal/naming/naming.go:186-198 | a template whose extension free text follows directly can agree on a name that reads two ways |
| `ReadBack.MatchCountsReadings` | internal/naming/match.go:89-112 | for a template naming nothing twice, with the extension absent, last or cut off: no reading is no match, exactly one comes back, and two or more are ambiguous |
| `ReadBack.MatchesRespell` | internal/naming/match.go:144-203 | for every template, values that come back respell the name: each is text one of its own placeholder's holes captured, and every other hole of that placeholder captured it too, or the form it takes standing alone |
| `ReadBack.LiteralExactlyWhereCapturesAgree` | internal/naming/match.go:190-229 | a placeholder named once is captured as it is returned, and all of them are exactly where no repeated placeholder was captured two ways |
| `ReadBack.ValuesAreTheName` | internal/naming/match.go:89-112 | whatever template names nothing twice, the values returned spell the name |
| `ReadBack.DeviceNameReadsBare` | internal/naming/match.go:219-229 | _CON/CON, read as an author twice, comes back as CON, which put into both holes is another name |
| `ReadBack.Collapse` | internal/naming/match.go:190-205 | the loop folds the captures left to right, and fails at the first that cannot be reconciled |
| `ReadBack.ReconciledWrites` | internal/naming/match.go:219-229 | two captures that agree, agree on one of them, and both are ways of writing it |
| `ReadBack.PinRepeated` | internal/naming/match.go:249-266 | the loops keep exactly the placeholders named twice, each at its earliest capture |
| `ReadBack.WrittenIsSpelled` | internal/naming/match.go:299-320 | values of the right shapes are always one reading of what they write |
| `Duplicates.MarkComesOff` | internal/naming/match.go:123-137 | the mark of the k-th candidate comes off and leaves the name it was added to, with k |
| `Duplicates.MarksAreRead` | internal/naming/match.go:58-70 | a stem carries a mark exactly when one is read off it, with the number it was written with |
| `Duplicates.UnmarkedIsWhole` | internal/naming/match.go:123-137 | a name is left whole exactly when its stem carries no mark |
| `Dates.DatePartsFrom` | internal/naming/match.go:403-429 | the loop over year, month and day checks each against the date before it |
| `Dates.PrintedStampReads` | internal/naming/match.go:360-393 | a date and a clock printed into a name read back as the time they were printed from |
| `Dates.StartedIsReal` | internal/naming/match.go:360-393 | a time that comes back is a real one, and prints back every date part the name carried |
| `Dates.StartedIsDated` | internal/naming/match.go:360-393 | a time is read exactly where year, month and day are all told and none is zero, at midnight where no clock is |
| `Match.MatchedFieldsRespell` | internal/naming/match.go:89-114 | for every template and every path, fields that come back are those of values that respell the path without its mark: each text field is what its own placeholder holds, a time is there exactly where a whole date is told and prints every date part back, and the lossy fields are those holding the replacement |
| `AnyTemplate.PrintedFieldsReadBack` | internal/naming/match.go:89-176 | print, then read: for any template naming nothing twice, on a name that reads one way, every field the template names comes back as it was printed, the others empty, the start as far as the name tells it, with the number of the copy and the fields something may have been replaced in |
| `AnyTemplate.CopiesReadBack` | internal/naming/match.go:123-137 | so does every later candidate of such a name, with its own number |
| `AnyTemplate.FirstNameReadsBack` | internal/naming/naming.go:359-390 | and the first name exactly where its stem ends in no mark of its own |
| `AnyTemplate.ByChannelIsUndone` | internal/naming/match.go:342-343 | for platform, channel, title and extension, in that order with slashes and a dot between, those four come back each as itself and nothing else does |
| `RoundTrip.DuplicatesReadBack` | internal/naming/match.go:89-176 | for the default template, an author SanitizeSegment leaves alone and a clean unshortened title, every candidate from the second on reads back author, title, start and extension, with its own number, even where author or title holds the separators |
| `RoundTrip.FirstNameReadsBack` | internal/naming/naming.go:359-390 | the rendered name itself reads back so if and only if the title neither is nor ends in a mark |
| `RoundTrip.MarkAloneIsLost` | internal/naming/match.go:123-137 | a title that is (2) and nothing else does not come back |
| `RoundTrip.DefaultParses` | internal/naming/naming.go:131-133 | the default template's text parses to the parts the round trip is about |
| `DefaultName.PrintedNameReads` | internal/naming/match.go:144-176 | both passes read a printed name as what it was printed from, by the pinned second reading where the first swallowed a separator |
| `DefaultName.EveryReading` | internal/naming/match.go:150-176 | any reading of a printed name finds the author again and then everything else, or finds someone no author reconciles with |
| `Calendar.AlignsBack` | internal/calendar/calendar.go:172-184 | for any integer week start, alignment walks back less than a week to the day asked for |
| `Calendar.Build` | internal/calendar/calendar.go:108-151 | the nested loops lay out whole consecutive weeks from the aligned start until the month is exhausted, the last entry for a day winning |
| `Calendar.Gaps` | internal/calendar/calendar.go:289-300 | the in-month missed and partial cells, in grid order |
| `Calendar.MonthGapsAreItsDays` | internal/calendar/calendar.go:108-151 | a grid's gaps are exactly the month's missed and partial days, each once and in order, whatever the week start |
| `Plan.GapDays` | internal/backfill/plan.go:122-148 | the walk over months skips no day of the lookback and repeats none |
| `Plan.NeedsRecovery` | internal/store/coverage.go:203-210 | the loop answers whether nothing recorded is evidence of the broadcast |
| `Plan.CandidatesOn` | internal/backfill/plan.go:151-179 | one day's listed broadcasts that are settled, need recovery and are due, in order, or the first read that fails |
| `Plan.Candidates` | internal/backfill/plan.go:85-116 | the defaults, thirty days and two hours, filled into whatever window leaves them out; the loop over gap days returns what the walk chooses |
| `Plan.PlannedIsExactlyWanted` | internal/backfill/plan.go:85-148 | a pass that returns, returns exactly the broadcasts that start inside the lookback on a day up to today the calendar calls missed or partial, settled, needing recovery and due: each once, in order, each on its own day |
| `Plan.PlannedHolds` | internal/backfill/plan.go:85-212 | broadcast by broadcast: planned if and only if it started inside the lookback on a day the calendar calls missed or partial, has been over for the settling time, has nothing recorded that is or may become a file, and has no fetch row or one that may be tried again by now |
| `Plan.DueIsClaimable` | internal/backfill/plan.go:206-215 | the plan asks what the claim enforces: a broadcast is due exactly when ClaimFetch would give it to a fetcher that finds no live lease on it |
| `Plan.UnreadIsNeverPlanned` | internal/backfill/plan.go:206-215 | a broadcast whose fetch row cannot be read is never planned |
| `Plan.NeverTriedIsPlanned` | internal/backfill/plan.go:206-215 | one never tried, settled and on a missed day of the lookback always is |
| `Plan.PlannedFailsWhenBlocked` | internal/backfill/plan.go:85-183 | a pass fails exactly when some gap day of the range cannot be listed or holds a settled broadcast whose recordings cannot be read |
| `Holes.FindSpans` | internal/backfill/gaps.go:138-184 | the loops find the late start, the reconnects, the shortfalls and the early stop, in that order |
| `Holes.FindShortfalls` | internal/backfill/gaps.go:197-234 | the loop reports each hole as often as some held recording that ends inside the broadcast falls short over it |
| `Holes.ShortfallsAreExactly` | internal/backfill/gaps.go:197-234 | a shortfall is filed if and only if a recording with measured media falls a minute and a fiftieth of its wall span or more behind it, over the part of the broadcast it spans, once for each |
| `Holes.EveryInstantIsAccountedFor` | internal/backfill/gaps.go:138-184 | with the bounds known, every instant of a broadcast lies in a held recording, in a filed late-start, reconnect or early-stop hole, or in one under 30 seconds, however recordings overlap |
| `Holes.HolesStandApart` | internal/backfill/gaps.go:138-184 | filed holes are ordered and pairwise disjoint, however the recordings overlap |
| `Holes.ClearExactlyWhenLastToEnd` | internal/backfill/gaps.go:138-184 | no filed hole lies over a recording if and only if each recording a hole opens behind is the last to end of those before it |
| `Holes.SeparateCapturesAreClear` | internal/backfill/gaps.go:138-184 | captures that do not overlap are clear of every hole |
| `Holes.NestedCaptureFilesACoveredHole` | internal/backfill/gaps.go:175-184 | a recording nested in a longer one files an early stop the longer one covers |
| `PatchPass.FilledHolesStayBacked` | internal/backfill/patch.go:180-311 | over any number of passes, with any outcomes, and however recordings are created, changed, moved, purged and swept between them: a hole reads as filled only behind a recording of its own second, there or released since, whose file measured its length less the larger of a tenth and five seconds, and was downloaded, where a mute overlaps it, from the address that kept the audio and never from the stored copy, with every measurable silenced stretch heard; and it stays filled as long as it is there |
| `PatchPass.FilledHolesLoseOnlyWhatIsReleased` | internal/organize/organize.go:553-601 | over any such run each filled hole is behind one recording, which the library is without exactly when that recording was released; and the hole is gone exactly when the recording it was filed against was |
| `PatchPass.GoneExactlyWhenReleased` | internal/organize/organize.go:553-601 | over any run a row is gone exactly when it was released on the way, and does not come back |
| `PatchPass.PurgeLeavesTheHoleFilled` | internal/store/schema.go:219-231 | a purge of what fills a hole leaves the hole marked filled with nothing behind it, and no later pass lists it |
| `PatchPass.ChargesStayWithinTheLimit` | internal/backfill/patch.go:276-311 | over any number of passes no hole is charged past the limit |
| `PatchPass.PatchableIsOpen` | internal/backfill/patch.go:276-311 | a pass lists exactly the holes of the broadcast's recordings that are unfilled, not short media and have attempts left: every one of them, once, as its row stands |
| `PatchPass.FindPatchable` | internal/backfill/patch.go:276-311 | the nested loops build that list, recording by recording |
| `PatchPass.DetectionRepeats` | internal/backfill/gaps.go:91-135 | detecting twice files the same rows, not duplicates |
| `PatchPass.EveryHoleIsFiled` | internal/store/recording.go:851-889 | every hole the store takes gets a row, and rows there already are kept as they were |
| `PatchPass.DetectionFilesExactly` | internal/store/recording.go:851-889 | after detection there is a row of a hole exactly where there was one or a stretch found is that hole to the millisecond, never two, and each row added is open and untried |
| `PatchPass.HeldMeans` | internal/backfill/gaps.go:91-135 | holes are looked for between exactly the recordings of the broadcast that are not failed, trashed, missing or in a state this build does not know, by when they start |
| `Patch.AttemptsAreForAnswers` | internal/backfill/patch.go:204-265 | a pass changes a hole's attempts only for an attempt that was answered: not cancelled before or during it, with room on the volume, and with the lookup of its audio answered where a mute overlaps it |
| `PatchPass.RunsSpendForAnswers` | internal/backfill/patch.go:204-265 | over any run a hole's attempts change only if some pass of it made an answered attempt at it |
| `Patch.PatchedKeeps` | internal/backfill/patch.go:426-523 | one patch, whatever it is told, marks a hole filled last and only behind what vouches for it, said in wall-clock time: a file from the address that kept the sound wherever an instant of the hole is one of a mute, and long enough |
| `Patch.FillsExactly` | internal/backfill/patch.go:426-609 | an attempt fills its hole if and only if the stored copy reaches it, the address that kept the sound is known where it is muted, the tool brings back a file of whole length, each silenced stretch of three seconds or more is heard, and the row is made, finalized where it is new, and marked; and the refusal it gives otherwise is final exactly where the hole is muted with no such address or the tool refused for good |
| `Patch.TurnCostsExactly` | internal/backfill/patch.go:204-311 | a turn costs nothing where it fills the hole or was not answered, every attempt left where the refusal is final, and one otherwise |
| `Patch.TurnEndsExactly` | internal/backfill/patch.go:204-265 | a turn counts exactly the hole it fills, and ends the pass exactly on a cancel, a full volume or an attempt that could not be charged |
| `Patcher.AudioDecides` | internal/backfill/patch.go:320-355 | for a muted hole: where the platform could not say, a turn leaves everything as it was; where no address kept the sound, an answered turn spends every attempt it has left; and otherwise nothing but a download from that address fills it |
| `Patcher.UnmutedAsksNothing` | internal/backfill/patch.go:320-355 | where no hole lies over a mute nothing is looked up and no hole is passed over |
| `Patch.RangeIsTheHole` | internal/backfill/gaps.go:266-280 | an offset of the stored copy is asked for if and only if the instant it holds is one of the hole's |
| `Patch.OverMutesIsSharing` | internal/backfill/gaps.go:266-296 | a hole counts as muted exactly where it and a mute have an instant of the stored copy in common |
| `Patch.NotFromTheSilencedCopy` | internal/backfill/patch.go:204-265 | a filled hole that shares an instant with a mute was filled from the address that kept the sound |
| `Patch.VerdictsDiscard` | internal/backfill/patch.go:368-384 | a verdict against a download removes it; a probe that could not run keeps the bytes |
| `Patch.MutedWithin` | internal/backfill/gaps.go:289-296 | the loop answers whether some mute overlaps the half-open range |
| `Patch.RequireAudible` | internal/backfill/patch.go:563-598 | the loop's verdict is audible if and only if every measurable silenced stretch is heard |
| `Patch.ListenHears` | internal/backfill/patch.go:563-598 | otherwise it is that of the first measurable stretch that is not; slivers are not measured |
| `Patcher.Patcher.Detect` | internal/backfill/gaps.go:91-135 | one refused hole does not hide the rest, and a refusal is reported |
| `Patcher.Patcher.PatchHole` | internal/backfill/patch.go:426-523 | the steps in order leave the rows, the files and the hole as one patch does |
| `Patcher.Patcher.Patch` | internal/backfill/patch.go:180-268 | a broadcast is refused, before anything is charged, exactly where the store refuses one of its holes, it has no address or no anchor, or its holes cannot be listed; otherwise each open hole is taken in turn, as the world answers, and every filled hole stays backed; each call is one pass of a run |
| `Patcher.RefusedExactly` | internal/store/recording.go:851-868 | detection fails if and only if a recording that holds bytes ended before the broadcast's own start with a hole filed behind it, or falls short with less than a millisecond of it inside the broadcast |
| `PatchPass.RefusedIsNeverPatched` | internal/backfill/patch.go:186-188 | any number of passes over such a broadcast leave what one detection does |
| `Patcher.EarlyEndStopsEveryPass` | internal/backfill/patch.go:186-188 | such a broadcast: its reconnect is refused, and after any number of passes over it the other hole is still open and never attempted |
| `Claims.EveryClaimEnds` | internal/backfill/fetch.go:282-417 | every claim is let go: terminal exactly on the tool's last word or the operator's, done exactly where the broadcast is held, handed back as it was found when interrupted, and otherwise failed with the time it may be tried again |
| `Claims.TerminalByLastWordOnly` | internal/store/backfill.go:93-264 | over any sequence of fetches, deaths and refusals, nothing leaves terminal and only a last word enters it |
| `Claims.AttemptsCountTries` | internal/store/backfill.go:93-222 | attempts count every failure and every death, and no interruption |
| `Claims.NthFailureWaits` | internal/backfill/fetch.go:579-645 | the failure that makes n of them waits exactly min(base times 2^(n-1), 24h), after any history of failures, deaths and interruptions |
| `Claims.FailuresAreWaitedOut` | internal/store/backfill.go:93-130 | after any history, a failure's wait is waited out: no fetch or death before it ends changes the row, and it can be claimed at exactly the instants from then on |
| `Claims.FinishedIsNeverClaimed` | internal/store/backfill.go:93-130 | a broadcast done or terminal is never claimed at any time, whatever happens to it, and only the operator changes its row |
| `Claims.RetryDelay` | internal/backfill/fetch.go:579-592 | the doubling loop is that closed form, never past 64 bits on the way |
| `Claims.LeaseExcludes` | internal/store/backfill.go:93-130 | two fetchers never hold one broadcast inside a lease, and once it has run out the next may |
| `Fetcher.Fetcher.Fetch` | internal/backfill/fetch.go:282-322 | a claim is taken only with an address and room, never outlives the call, and the caller is told exactly how it went |
| `Fetcher.Fetcher.ChargeFailure` | internal/backfill/fetch.go:598-645 | a failure is recorded with its doubled wait, or as the last word, and a terminal row is left as it is and reported so |
| `Fetcher.ClaimStore.ClaimFetch` | internal/store/backfill.go:93-130 | it claims if and only if there is no row, or one neither done nor terminal, unclaimed or with its lease run out, and past its retry time |
| `Fetcher.ClaimStore.AbandonFetch` | internal/store/backfill.go:202-226 | only the holder of a claim gives it back, with its attempt and its retry time as they were |
| `Escape.HeadLen` | internal/escape/escape.go:127-133 | the loop stops at the nearest byte at or under the bound that starts a rune |
| `Escape.HeadIsBytes` | internal/escape/escape.go:89-133 | the head of text that is too long is exactly its first headLen bytes, and cuts no rune in two |
| `Escape.QuotedBodyReads` | internal/escape/escape.go:95-97 | a quoted literal gives back the text rune for rune and bad byte for bad byte |
| `LogRecord.RenderingsAreUnambiguous` | internal/escape/escape.go:70-97 | each of the three shapes is told apart and read back: the whole text, or its head and the length that arrived |
| `LogRecord.RecordsAreUnambiguous` | internal/logger/logger.go:185-232 | from the text after the level a reader recovers the message and every key and value as rendered, in order, whatever they contain |
| `LogRecord.RecordsReadBack` | internal/logger/logger.go:185-232 | a reader gets the text back: the message, and of every field in order its key before the equals sign and its value after it |
| `LogRecord.RecordsDetermineTheirText` | internal/logger/logger.go:185-232 | records that read the same were written from the same message, keys and values, to the last byte of what was not cut |
| `LogRecord.MustQuote` | internal/escape/escape.go:109-122 | the tests ask for quotes exactly where text opens with one, is not valid UTF-8 or holds something unprintable |
| `LogRecord.PlainExactly` | internal/escape/escape.go:70-133 | text is left as it came exactly where it has at most 4096 bytes, opens with no quote, is valid and printable throughout and holds no comma, equals sign or bar |
| `Logger.RenderingsAreBounded` | internal/escape/escape.go:36-46 | every rendering is at most four bytes for each of 4096, and 64 more |
| `Logger.RecordsAreOneLine` | internal/logger/logger.go:185-195 | a record is one line, free of control characters, whatever it carries |
| `Logger.Handle` | internal/logger/logger.go:196-223 | the loops gather the handler's attributes and then the record's own, keyed by the groups open now |
| `Logger.WithAttrs` | internal/logger/logger.go:236-247 | a copy with more fields, each keyed when it joins |
| `Logger.GroupsScopeWhatFollows` | internal/logger/logger.go:43-52 | a group prefixes exactly the attributes added after it, over any chain of groups and attributes |
| `Units.SavingASizeLosesNothing` | internal/config/units.go:110-184 | every size from 0 to the largest int64 parses back from what it is saved as |
| `Units.WholeNumbersScale` | internal/config/units.go:147-184 | the overflow test refuses a whole number of units exactly where the product does not fit, so it neither wraps nor turns away an exact multiple |
| `Units.SuffixesAreWorth` | internal/config/units.go:44-90 | every suffix in either case is worth its literal size, 1000s for K, KB, M, MB, G, GB, T and TB, 1024s for KiB, MiB, GiB and TiB, 1 for B and none; a whole number of it is read exactly, or refused exactly where it does not fit |
| `Units.NegativesAreRefused` | internal/config/units.go:147-184 | no negative number an int64 holds is read as a size, whatever its suffix |
| `Units.WrittenSuffixIsRead` | internal/config/units.go:74-90 | in the table's order no suffix tried earlier is taken for one that is written |
| `Units.FindSuffix` | internal/config/units.go:115-134 | the loop takes the first suffix of the table the text ends in |
| `Units.Print` | internal/config/units.go:219-233 | the loop writes the largest unit that divides the size, and otherwise bytes |
| `Units.SizesAreWrittenWhole` | internal/config/units.go:219-233 | a size is written as a whole number of the first of TB, TiB, GB, GiB, MB, MiB, KB, KiB and bytes that divides it |

## Left out

- SQLite itself, and every store query but the few modelled: a statement is one step that succeeds or fails, rows are listed as the queries order them, and the rows a pass reads do not change while it reads them.
- How the store works out a day's coverage: a pass is given the days, and a coverage query that fails ends the pass before anything modelled here.
- The session beat, reopening a session, and how the downtime since the last beat is measured (`internal/daemon/daemon.go`): `RequestDowntime` is given the measured stretch.
- The state a process restart loses: pending windows live in memory, and the next session's downtime request is what covers them.
- Which probe outcomes count as answered (`internal/daemon/watch.go`): a report says whether it was.
- Time zones and daylight saving: days are civil days at a fixed offset, and a wall time a zone skips does not arise.
- The saturation of a duration at the ends of 64 bits, except in `RetryDelay`.
- Text that is not valid UTF-8 in the naming modules: a string there is the runes it decodes to. `Escape` has the bad bytes too.
- The host's own test of a local path: a predicate, true behind an underscore of any text without separators, colons or other illegal characters; the round trip of the default template asks it of the year and the file name.
- The regular-expression engine and strconv: a backtracking matcher over template parts in the engine's preference order, and a quoting pair over runes and bytes.
- Which runes beyond ASCII and the C1 controls count as printable: a parameter.
- Sizes written with a fraction, and durations: the floating-point reading is a parameter that the round trip never reaches.
- How a listing of holes is shown, month summaries and counts by state (`internal/calendar/calendar.go:199-262`): they would add only easy members.
- Section's rounding of a range to whole seconds (`internal/backfill/gaps.go:252-258`).
- Two fetches of one broadcast overlapping after a lease ran out: a claim's own writes are taken to be its holder's. `LeaseExcludes` says this needs the lease to expire.
- Which stretches of a whole downloaded broadcast are recorded as silent (`internal/backfill/fetch.go:425-507`), and removing partial downloads.
- Builds with different registries racing on one database: every process in the race knows the same migrations.
- Row ids given out again: a released recording keeps its place, and nothing new takes it. Deleting a channel or a broadcast, which the program does not do.
- Another write to the library while one pass is under way: a run goes from pass to pass, with anything else between.
- What is logged, beyond when a trim is warned of and what a record looks like.
- The command line, the terminal interface, notifications, service installation and configuration documents.

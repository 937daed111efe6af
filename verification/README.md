# Singularity audit governance: a verified model

This project models the event, log and cost service `audit-governance-service`
together with the host scripts that feed it, configure it and check its prices.
It states what each of them is for, and proves it for all inputs, all runs or
all reachable states. `dafny verify dfyconfig.toml` checks everything.

What is modelled, piece by piece:

- **Log forwarder** (`LogTail`, `TailProtocol`, `TailRuns`, on top of `Lines`).
  The bounded reader with its file cursor, its offsets, oversized lines and
  reset files refines "split into lines and parse each one". Whole runs, with
  rejected posts, lost replies, failed saves and crashes between any two
  steps, are at-least-once, and exactly-once when none of the last three occur;
  over an unchanging directory every complete line is sent and saved.
- **Raw log store and retention** (`Calendar`, `LogStore`, `Retention`).
  Pointers returned by `writeBatch` read back their own line for ever, are
  disjoint and tile what was appended. Retention deletes rows, then days, and
  leaves no dangling pointer but in one exactly described case; this rests on
  the UTC calendar of ECMA-262 section 21.4.1.
- **Cost accounting** (`Periods`, `Pricing`, `CostLedger`, `CostWorker`).
  One SQL statement is one step, statements of different events interleave,
  and any event may stop for ever after any statement. Budgets conserve the
  spend, replays change nothing, and windows of one period partition time.
- **Governance** (`Approvals`, `RateWindows`). Single-use approvals over every
  interleaving, and both window limiters over whole runs.
- **Export queue and alerts** (`ExportQueue`, `Alerts`).
- **Log search** (`Cursor`, `Pagination`). Base64 cursors of section 4 of
  RFC 4648, and keyset walks over growing tables.
- **Env files** (`JsonText`, `PyText`, `EnvLine`, `EnvFile`). `write_env` and
  `parse_env` as a read-after-write pair on arbitrary text, including the JSON
  string quoting of section 7 of RFC 8259.
- **Price drift** (`RateCardDrift`). What a passing check says about the cost
  that the worker would compute.
- **Nested settings** (`NestedPath`). `get_path` and `set_path` on dictionaries
  that are updated in place.

Code that changes things step by step is written as methods and classes and
proved against a specification function; the properties are lemmas about that
function. Conventions: time is an integer number of milliseconds (microseconds
for the timestamp column of log rows, and a real number of milliseconds for the
time written in a log record), money is `real`, a file is a
sequence of bytes that grows, a table is a map of rows, and a statement is
atomic. Columns not written by an INSERT start at their defaults: status
`pending` or `open`, counters 0, and `attempts` 0.

## Where a promise does not hold, and exactly when it does

- `TailProtocol.StopsBetweenLinesIff`: an unterminated tail longer than the
  line limit is consumed although its line is not finished, and the rest of
  the line becomes a record of its own (`TailProtocol.OversizedTailIsSplit`).
- `TailProtocol.ResetReadsAllIff`: a new or rotated file is read from its start
  exactly when it is not longer than the bootstrap limit.
- `CostLedger.BudgetConservation`: the INSERT of a call and its budget bumps
  read the clock separately, so a call at midnight can be counted on a day on
  which it was not made (`CostLedger.MidnightStraddle`); the balance says by
  how much, and when a row stays within what is due. A row made in the middle
  of its window starts at 0 and misses what was charged before.
- `Retention.StrandedIff`: the timestamp column rounds to microseconds and the
  day directory truncates to milliseconds, so a row of the last half
  microsecond of a day loses its file when the cutoff is that midnight
  (`Retention.LastInstantIsStranded`); no other row does.
- `Pricing.CompressionSavingIff`: in compression mode the cost saving is the
  rate on the saved tokens exactly when the call was billed for the compressed
  text, or the rate is 0.
- `RateWindows.WindowTotalIff`: the in-memory limiter admits the first request
  of a window whatever its weight (`RateWindows.OversizedOpeningIsAdmitted`).
- `Alerts.SilenceAsConfiguredIff`: newest is taken inside the rate window, so
  the silence that raises an incident is the smaller of the two settings.
- `Alerts.MoreThanOneExportIff`: two ready targets of one id both get a row.
- `Pagination.LosslessIff`: cursors keep milliseconds, so rows of the same
  millisecond can be skipped; the walk is lossless for every accepted page size
  exactly on tables without such a pair, which `Pagination.HiddenIff` spells out.
- `Cursor.CursorRoundTripIff`: a timestamp with a bar in it, or an empty part,
  does not survive a cursor.
- `EnvFile.ReadAfterWrite`: a quoted value that holds a high surrogate before a
  low one comes back with one character in their place
  (`EnvLine.SurrogatesAreJoined`); every other value comes back unchanged.
- `RateCardDrift.ComparedIsLatestIff`: the card compared is the one that prices
  calls unless a differently spelled row of the same key is listed before it
  (`RateCardDrift.MixedCaseIsHidden`).

Where the code and its own text differ, the model follows the code:

- `routes-governance.ts:45-51` promises 409 for a consumed approval; once the
  expiry has passed the answer is 410 (`Approvals.ConsumedReplyIff`). A decide
  does not look at the expiry at all (`Approvals.DecideIgnoresExpiry`).
- `types.ts:66-72` says a payload's own price is used only without a rate
  card; the worker prefers the payload's price (`Pricing.PricedIff`).

## Model
| member | source | states |
|---|---|---|
| Lines.PiecesUnique | bin/log-forwarder.py:181-202 | The lines of a text are the only way to cut it into nonempty pieces whose newlines stand at their ends, so "line" has one meaning. |
| Lines.PiecesConcat | bin/log-forwarder.py:181-202 | Cutting a text after a newline cuts its list of lines at the same place. |
| LogTail.ValidIff | bin/log-forwarder.py:27-29 | The limits assumed of a configuration are exactly those that clamping the three environment variables can give. |
| LogTail.ClipMeans | bin/log-forwarder.py:193-198 | A line is delivered whole if its text fits the limit, newline or not, and else as its first maxLine bytes and the marker. |
| LogTail.Handle.ReadLine | bin/log-forwarder.py:183-183 | `readline(limit)` moves the cursor past the first newline, by the limit, or to the end of the file, and returns the bytes in between. |
| LogTail.ReadLogicalLine | bin/log-forwarder.py:182-198 | One turn of the inner loop yields the next whole line, clipped if oversized, or nothing (cursor unmoved) when the rest is an unfinished line. |
| LogTail.SkipRemainder | bin/log-forwarder.py:193-196 | The remainder loop stops just after the newline that ends the oversized line. |
| LogTail.ReadFile | bin/log-forwarder.py:168-202 | One file contributes the records and the committed offset of the functional reader, from the seek (and the skipped first readline of a reset file) on. |
| LogTail.ReadBatch | bin/log-forwarder.py:158-203 | One pass over the directory returns the bounded batch and the proposed state of the functional reader. |
| TailProtocol.ScanIsSplitAndParse | bin/log-forwarder.py:181-201 | What a reading returns is: split the consumed bytes into lines, clip the oversized ones, parse each, drop blanks, in order. |
| TailProtocol.ScanStopsBetweenLines | bin/log-forwarder.py:181-201 | If the unterminated tail fits a line, a reading stops between two lines, and a reading that was not cut short stops exactly before the tail. |
| TailProtocol.StopsBetweenLinesIff | bin/log-forwarder.py:186-197 | A reading not cut short by the batch limit stops between two lines if and only if the tail fits the line limit. |
| TailProtocol.OversizedTailIsSplit | bin/log-forwarder.py:186-197 | A tail one byte over the limit is delivered as two records of one line. |
| TailProtocol.ReadingsCompose | bin/log-forwarder.py:158-203 | Two readings in a row, the second of a file that has grown, are one reading of the whole stretch. |
| TailProtocol.ReadingInsideBatch | bin/log-forwarder.py:163-202 | The reading of every file is a contiguous part of the batch. |
| TailProtocol.ReadingProposed | bin/log-forwarder.py:163-202 | The proposed entry of a file is its inode and the end of its reading; a file the pass did not reach keeps its entry. |
| TailProtocol.StartsAt | bin/log-forwarder.py:168-180 | A file without an entry, with one of another inode, or shorter than the saved offset is read from byte 0 if within the bootstrap limit, and else from that many bytes before its end, one readline of at most maxLine bytes further on; any other file from its saved offset. |
| TailProtocol.RotatedFileStartsAtZero | bin/log-forwarder.py:163-202 | In a batch, the part of a rotated or new file within the limit is the parsed lines of its content from byte 0, and its new inode is proposed; the part of a file that was only appended to starts at its saved offset. |
| TailRuns.StepKeepsInv | bin/log-forwarder.py:209-230 | Whatever the outcome of a turn, memory and disk hold line-boundary offsets, everything below them was acknowledged, and the saved offset never moves back. |
| TailRuns.AtLeastOnce | bin/log-forwarder.py:206-230 | Over every run, with crashes and failures anywhere, each line below the saved offset has no record or has it in an acknowledged batch. |
| TailRuns.SavedIsNeverSentAgain | bin/log-forwarder.py:206-230 | Every later batch starts at or above the saved offset, so duplicates only replay a batch whose offsets were not saved. |
| TailRuns.ExactlyOnce | bin/log-forwarder.py:206-230 | Without lost replies, failed saves and crashes after a post, the records sent are the parsed lines from the first offset to the saved one, none skipped, repeated or split, for every batch limit. |
| TailRuns.NotFullMeansDrained | bin/log-forwarder.py:181-202 | A batch that is not full leaves no complete line unread in any listed file. |
| TailRuns.BatchShrinks | bin/log-forwarder.py:158-203 | A pass over a directory that does not change, and that reads any record, leaves strictly fewer bytes to read. |
| TailRuns.EveryLineIsSaved | bin/log-forwarder.py:206-230 | Progress: over an unchanging directory, after more posted and saved turns than there are bytes left to read in all files, every complete line of a file has been sent exactly once, in order, and its offset is saved, for every batch limit. |
| TailRuns.RotatedFileIsRead | bin/log-forwarder.py:206-230 | Whatever is saved of its predecessor, a rotated file begins a new run at byte 0, and over an unchanging directory all its complete lines are sent exactly once and saved under the new inode. |
| TailProtocol.ResetReadsAllIff | bin/log-forwarder.py:171-179 | A reset file is read from its first byte if and only if it is not longer than the bootstrap limit. |
| TailRuns.FirstLineIsSaved | bin/log-forwarder.py:206-230 | A new file of one line is read, posted, acknowledged and saved, so runs of the kind above exist. |
| TailRuns.PostIsDelivery | bin/log-forwarder.py:209-230 | A batch that reaches the server is a delivery, with all its records, and acknowledged unless the reply was lost. |
| TailRuns.LostReplySendsTwice | bin/log-forwarder.py:209-230 | After a lost reply, or a crash between post and save, a line is sent twice, so at-least-once is all there is in such runs. |
| TailRuns.Forwarder.Turn | bin/log-forwarder.py:209-230 | One turn of the loop changes memory and state file as the run model says, doubles the waiting time after a failed post or save up to 30 seconds, and resets it after a success. |
| Calendar.YearOf | audit-governance-service/src/log-storage.ts:43-58 | The year of a day is the one whose first day is at or before it and whose successor's first day is after it. |
| Calendar.NextDate | audit-governance-service/src/log-storage.ts:43-58 | Day 0 is 1 January 1970, every day has a valid date by the lengths of the months and the leap rule, and the next day has the next date. |
| Calendar.OnlyCalendar | audit-governance-service/src/log-storage.ts:43-58 | Only one assignment of dates to days does that, before 1970 and after. |
| Calendar.MakeDayInvertsParts | audit-governance-service/src/log-storage.ts:43-58 | Splitting a day into year, month and date and putting them together again gives the day. |
| Calendar.MonthIsInterval | audit-governance-service/src/routes-governance.ts:141-147 | The days from the first of a month up to the first of the next are exactly the days of that month, across year ends. |
| Calendar.WeekDays | audit-governance-service/src/routes-governance.ts:134-149 | Day 0 is a Thursday, and the days of the week follow each other. |
| LogStore.KeyOfIff | audit-governance-service/src/log-storage.ts:43-63 | The file of a record is that of its service and of the UTC date of its time, or of the clock if its time cannot be read. |
| LogStore.Group | audit-governance-service/src/log-storage.ts:82-88 | Each group holds the lines of its key in input order, each with its index and its place in the text of the group. |
| LogStore.Place | audit-governance-service/src/log-storage.ts:104-112 | The cursor loop sets the pointer of every record of its key, by input index, and no other. |
| LogStore.FilesystemLogStorage.WriteBatch | audit-governance-service/src/log-storage.ts:78-116 | Each file grows by the lines of its records in input order, and pointer i names file, offset and length of line i. |
| LogStore.S3LogStorage.WriteBatch | audit-governance-service/src/log-storage.ts:182-211 | The same contract for new objects, with offsets counted from 0. |
| LogStore.EveryPointerReadsBack | audit-governance-service/src/log-storage.ts:65-116 | After any sequence of batches, every pointer ever returned reads back exactly the JSON of its own record and a newline. |
| LogStore.FilesHoldLines | audit-governance-service/src/log-storage.ts:65-116 | Files that start empty hold exactly the JSON of the records filed under them, one line each, in the order in which they came, within and across batches. |
| LogStore.PointersInOrder | audit-governance-service/src/log-storage.ts:104-112 | Two pointers into one file never overlap and lie in the order of their records, within and across batches. |
| LogStore.PointersTile | audit-governance-service/src/log-storage.ts:101-112 | Every appended byte belongs to the pointer of some record of the batch. |
| LogStore.FilesystemLogStorage.PruneBefore | audit-governance-service/src/log-storage.ts:118-138 | Exactly the expired day directories are removed, and they are counted. |
| Retention.PartitionEnd | audit-governance-service/src/log-storage.ts:129-129 | `Date.UTC(y, m-1, d+1)` of the parts of a time is the start of the next day, across month and year ends. |
| Retention.ExpiredIffDayOver | audit-governance-service/src/log-storage.ts:43-58 | A day directory expires if and only if its year has four digits and every instant of the day is before the cutoff. |
| Retention.RowSurvivesIff | audit-governance-service/src/log-operations.ts:223-248 | An intact row is intact after a prune if and only if its own day was not removed, also when it was ingested during the sweep. |
| Retention.StrandedIff | audit-governance-service/src/log-operations.ts:229-243 | Of the rows the DELETEs leave, exactly the stranded ones lose their day: those whose column was rounded up to the midnight that ends their day and is the cutoff. |
| Retention.StrandedMeans | audit-governance-service/src/log-storage.ts:43-58 | A row is stranded if and only if the cutoff is a midnight, the column equals it, and the record's own time is before it. |
| Retention.LastInstantIsStranded | audit-governance-service/src/log-operations.ts:226-243 | A record of the last ten-thousandth of a millisecond of a day is stranded when the cutoff is the end of that day. |
| Retention.MicrosecondsAreSafe | audit-governance-service/src/log-operations.ts:229-243 | A time of whole microseconds is never stranded. |
| Retention.EveryStepKeepsRow | audit-governance-service/src/log-storage.ts:122-136 | With any part of the expired days removed, a row the DELETEs left still reads its line, unless it is stranded. |
| Retention.LogLake.Ingest | audit-governance-service/src/routes-logs.ts:253-299 | One row per record, with the rounded time and its pointer by index; the new rows read their lines, and no row begins to dangle. |
| Retention.LogLake.DeleteOldest | audit-governance-service/src/log-operations.ts:230-239 | One DELETE removes the oldest rows before the cutoff, at most a batch of them. |
| Retention.LogLake.DeleteRows | audit-governance-service/src/log-operations.ts:229-242 | The loop ends, having deleted exactly the rows before the cutoff, and none of its statements makes a row dangle. |
| Retention.LogLake.Sweep | audit-governance-service/src/log-operations.ts:223-248 | A sweep removes exactly the old rows and the expired days and reports both counts; the surviving rows that dangle are exactly those that did before and the stranded ones. |
| Periods.WindowIsPeriod | audit-governance-service/src/routes-governance.ts:134-149 | The window of an instant holds exactly the instants of the same day, week or month. |
| Periods.WindowsPartitionTime | audit-governance-service/src/routes-governance.ts:134-149 | Every instant is in its own window, and two windows of one period are equal or disjoint. |
| Periods.WindowDates | audit-governance-service/src/routes-governance.ts:134-149 | A window goes from midnight to midnight: one day, seven days from a Sunday, or from the first of a month to the first of the next. |
| Periods.February2025 | audit-governance-service/src/routes-governance.ts:134-149 | The month of 2025-02-01T00:00:00Z is that instant up to 2025-03-01T00:00:00Z. |
| Periods.SetToSame | audit-governance-service/src/routes-governance.ts:134-149 | Setting date or month of an instant to what it is changes nothing, the time of day included. |
| Periods.PeriodWindow | audit-governance-service/src/routes-governance.ts:134-149 | The setUTCHours, setUTCDate and setUTCMonth steps compute that window. |
| Pricing.Lookup | audit-governance-service/src/cost-worker.ts:83-91 | The card found is active for provider and model, and no active one starts later; none is found only if there is none. |
| Pricing.PricedIff | audit-governance-service/src/cost-worker.ts:74-99 | A call is priced if and only if it carries a price or some card is active for it, and a price it carries wins over every card. |
| Pricing.CostOfCall | audit-governance-service/src/cost-worker.ts:76-99 | A call without a price of its own costs a thousandth of the two rates for each token, of a card that is active for its provider and model and than which no active one starts later. |
| Pricing.SavingsIff | audit-governance-service/src/cost-worker.ts:204-229 | A savings row is made if and only if the compressed length is positive and below the original one, or one of three cache counts is positive, each taken from `optimization` or else from the call; and mode, raw, optimized and output tokens are those of that case. |
| Pricing.SavingsCosts | audit-governance-service/src/cost-worker.ts:231-235 | The row claims the rates on raw input and output against what was charged, and their difference if it is positive. |
| Pricing.SavingsConserveTokens | audit-governance-service/src/cost-worker.ts:223-229 | Raw tokens are optimized plus saved tokens, and the saved share lies between 0 and 1. |
| Pricing.CostSavingNeedsRateCard | audit-governance-service/src/cost-worker.ts:157-167 | A positive cost saving is claimed only for a call that carried no price and was priced by a rate card. |
| Pricing.CostSavedIs | audit-governance-service/src/cost-worker.ts:231-235 | The claim is the input rate on the tokens by which the raw input exceeds the billed input, and never negative. |
| Pricing.CacheSavingIsExact | audit-governance-service/src/cost-worker.ts:226-235 | In cache mode with a rate card the claim is exactly the input rate on the tokens read from the cache. |
| Pricing.CompressionSavingIff | audit-governance-service/src/cost-worker.ts:226-235 | In compression mode the claim is the rate on the saved tokens if and only if the compressed text is what was billed, or the rate is 0. |
| CostLedger.ApplyKeepsInv | audit-governance-service/src/cost-worker.ts:101-174 | Every statement of any event, and every budget upsert, keeps: counters equal the charged calls, one savings row per call at most, gateway ids unique. |
| CostLedger.AlwaysInv | audit-governance-service/src/cost-worker.ts:101-174 | That holds after every interleaving of statements, whatever events stopped half way. |
| CostLedger.BudgetConservation | audit-governance-service/src/cost-worker.ts:273-301 | After every interleaving, for every row: counters plus missing calls equal due calls plus strays (charged inside the window, inserted outside). With no stray worth anything it never exceeds what is due, and equals it if and only if nothing is missing; with nothing missing it stays within what is due if and only if nothing strayed in. |
| CostLedger.FinishedRunIsExact | audit-governance-service/src/cost-worker.ts:101-174 | In a run that ends with every event finished, a row that was there before any call of its window equals the sums over the priced calls of its scope in its window, provided no INSERT and its charge lie on different sides of a border of the window. |
| CostLedger.FinishedRunCountsTokens | audit-governance-service/src/cost-worker.ts:101-174 | If in such a run no call declares a total, the counter is the sum of the tokens read plus the sum of the tokens written. |
| CostLedger.MidnightStraddle | audit-governance-service/src/cost-worker.ts:280-288 | With a row for either day and a clock that never goes back, a call inserted at the end of one day and charged after midnight leaves its own day at 0 and is counted on the next. |
| CostLedger.OneActiveRowPerPeriod | audit-governance-service/src/routes-governance.ts:154-164 | At any time at most one budget row of a scope and period is active, so a bump changes at most one per period. |
| CostLedger.EventCharges | audit-governance-service/src/cost-worker.ts:112-174 | One event adds its price and its declared total, or else input plus output, to every row of its capability or tenant that covers the moment, if its call is new and priced; and changes nothing else in the budgets. |
| CostLedger.ProcessIsNoopIff | audit-governance-service/src/cost-worker.ts:139-149 | Processing an event leaves no trace if and only if its gateway call is already known. |
| CostLedger.ReplayInvariance | audit-governance-service/src/cost-worker.ts:112-149 | Dropping every later event with a known gateway call id from a sequence changes nothing in calls, savings and budgets. |
| CostLedger.NoDuplicatesLeft | audit-governance-service/src/cost-worker.ts:112-149 | What is left of a sequence without its replays holds no gateway call id twice. |
| CostLedger.ReplayIsNothing | audit-governance-service/src/cost-worker.ts:112-149 | A replay can be left out of a sequence anywhere after the call it repeats. |
| CostLedger.ResendIsRest | audit-governance-service/src/routes-events.ts:254-263 | Sending a batch again after a stop between two events is as good as sending the rest of it. |
| CostLedger.HalfProcessedStays | audit-governance-service/src/cost-worker.ts:145-149 | No later event touches the row of an earlier call, so a replay does not finish a half-processed one. |
| CostWorker.EventService.Denormalise | audit-governance-service/src/cost-worker.ts:26-174 | The handler's steps change the three tables exactly as the ledger's statements do, keep the ledger's invariant, and change nothing for a known gateway call. |
| CostWorker.EventService.BumpBudgets | audit-governance-service/src/cost-worker.ts:273-301 | Every row of the scope id that covers the moment gains the price and the declared total, or else input plus output, once; every other row, and all rows if the call is unpriced or the scope id empty, stay as they are. |
| CostWorker.EventService.IngestOne | audit-governance-service/src/routes-events.ts:161-247 | An accepted event adds one audit row and is denormalised if it is a call; a rejected one changes nothing; the invariant of the spend is kept. |
| CostWorker.EventService.IngestBatch | audit-governance-service/src/routes-events.ts:254-263 | Events are ingested in order up to the first one that throws, nothing is undone, empty or oversized batches change nothing, and the invariant of the spend is kept. |
| Approvals.ApprovalStore.CreateApproval | audit-governance-service/src/routes-governance.ts:27-43 | Creating an id that exists changes nothing. |
| Approvals.ApprovalStore.DecideApproval | audit-governance-service/src/routes-governance.ts:119-130 | Only a pending row is decided; otherwise nothing changes and the answer is 409. |
| Approvals.ApprovalStore.ConsumeApproval | audit-governance-service/src/routes-governance.ts:56-96 | Only a decided, unexpired row is claimed; otherwise nothing changes and the answer is 404, 410 or 409. |
| Approvals.RowsGoForward | audit-governance-service/src/routes-governance.ts:45-55 | Over every run a row only moves pending, decided, consumed, and keeps payload, expiry and, once made, its decision. |
| Approvals.ConsumedAtMostOnce | audit-governance-service/src/routes-governance.ts:53-55 | No id is granted twice, whatever happens in between, re-creation included. |
| Approvals.DecidedAtMostOnce | audit-governance-service/src/routes-governance.ts:121-127 | No id is decided twice. |
| Approvals.GrantIsAuthentic | audit-governance-service/src/routes-governance.ts:63-73 | A grant returns the one decision made for the id, after it was made, with the payload of its first creation, and never at or after that creation's expiry. |
| Approvals.ConsumeSucceedsIff | audit-governance-service/src/routes-governance.ts:56-96 | A consume succeeds if and only if the id was decided, was not granted before, and is not expired. |
| Approvals.DecideIgnoresExpiry | audit-governance-service/src/routes-governance.ts:119-128 | A decide succeeds if and only if the row is pending, at any time; after the expiry its decision can only be answered by 410. |
| Approvals.ConsumedReplyIff | audit-governance-service/src/routes-governance.ts:77-88 | A consumed approval answers 409 if and only if it has not expired. |
| RateWindows.EventLimiter.RateLimit | audit-governance-service/src/routes-events.ts:135-157 | A request is admitted if it opens a window or fits the count; a rejected one changes nothing, and no request touches another key. |
| RateWindows.AdmittedIff | audit-governance-service/src/routes-events.ts:135-157 | A request is admitted if and only if it fits with what its window has admitted so far, or the last opening is a window ago. |
| RateWindows.RunFollows | audit-governance-service/src/routes-events.ts:135-157 | The runs the bounds are about follow the limiter, request by request: same bucket, and a log of what is admitted. |
| RateWindows.BetweenOneMore | audit-governance-service/src/routes-events.ts:135-157 | The amount admitted between two times, both included, counts each admitted request from the first to the last of them once. |
| RateWindows.WindowTotalIff | audit-governance-service/src/routes-events.ts:141-155 | In every run, a window admits at most the limit if and only if the request that opened it is within the limit. |
| RateWindows.TwiceTheLimit | audit-governance-service/src/routes-events.ts:135-157 | If every window admits at most the limit, every interval no longer than a window admits at most twice that. |
| RateWindows.EventLimiterBounds | audit-governance-service/src/routes-events.ts:135-157 | With weights within the limit, each key is admitted at most the limit per window and twice the limit per window-long interval. |
| RateWindows.OversizedOpeningIsAdmitted | audit-governance-service/src/routes-events.ts:141-145 | A request heavier than the limit is admitted when it opens a window. |
| RateWindows.CheckRateLimits | audit-governance-service/src/routes-governance.ts:254-277 | Every row of the scope is rolled or bumped once, and the call is allowed if and only if all rows fit. |
| RateWindows.FirstCallsFit | audit-governance-service/src/routes-governance.ts:260-274 | The first max_calls checks of a window are allowed, and no others. |
| RateWindows.RowRunFollows | audit-governance-service/src/routes-governance.ts:254-277 | The runs the bounds are about follow the row, check by check and upsert by upsert. |
| RateWindows.RateRowBounds | audit-governance-service/src/routes-governance.ts:260-274 | From any counter on, with upserts of max_calls in between: although rejected calls count too, a row lets at most the largest max_calls through per window and twice that per period-long interval. |
| ExportQueue.BackoffBounds | audit-governance-service/src/log-operations.ts:206-206 | The wait never shrinks with the attempts, lies between 10 and 3600 seconds, and reaches the maximum exactly from the tenth attempt on. |
| ExportQueue.BackoffDoubles | audit-governance-service/src/log-operations.ts:206-206 | The first wait is 10 seconds and each attempt in vain doubles it, up to 3600. |
| ExportQueue.ExportWorker.Select | audit-governance-service/src/log-operations.ts:183-189 | The rows picked are due, distinct, the oldest first, and 50 or all of them. |
| ExportQueue.ExportWorker.Process | audit-governance-service/src/log-operations.ts:176-221 | Each picked row is delivered or rescheduled once, no other row changes, and the two counters add up. |
| ExportQueue.ExportWorker.Retry | audit-governance-service/src/routes-logs.ts:660-670 | Only a failed row is reset to pending with all its attempts. |
| ExportQueue.AttemptsFitStatus | audit-governance-service/src/log-operations.ts:203-213 | In every reachable queue pending rows have attempts left and failed rows have none. |
| ExportQueue.DeliveredIsFinal | audit-governance-service/src/log-operations.ts:196-201 | A delivered row never changes again, by sweeps or retries. |
| ExportQueue.DeliveredWasPosted | audit-governance-service/src/log-operations.ts:193-202 | A delivered row was posted successfully by some earlier sweep. |
| ExportQueue.PostsUseAttempts | audit-governance-service/src/log-operations.ts:203-213 | Between manual retries every post uses one attempt, so a row is posted at most the maximum number of times. |
| ExportQueue.HourlyFails | audit-governance-service/src/log-operations.ts:203-213 | A row posted in vain every hour is due each time, uses one attempt each time, and fails with the last one. |
| ExportQueue.NoEarlyRetry | audit-governance-service/src/log-operations.ts:186-211 | A row posted in vain is not posted again before its delay has passed, unless retried by hand. |
| Alerts.StatsCount | audit-governance-service/src/log-operations.ts:275-284 | The query counts the logs of the rule's service in its window, and those of them of level error or fatal. |
| Alerts.SilenceMeans | audit-governance-service/src/log-operations.ts:288-296 | The silence rule fires if and only if a silence other than 0 is configured and no log of the rule is as young as the smaller of window and silence. |
| Alerts.SilenceAsConfiguredIff | audit-governance-service/src/log-operations.ts:275-296 | That is the configured silence, for all logs, if and only if it is not 0 and not longer than the window. |
| Alerts.ViolatedMeans | audit-governance-service/src/log-operations.ts:275-296 | A rule is violated if and only if there are enough logs in its window and too large a share of them are errors, or none within the smaller of window and silence: said of the logs, not of the query. |
| Alerts.NextKeepsInv | audit-governance-service/src/log-operations.ts:275-336 | Every statement of an evaluation, and any log change, acknowledgement or rule deletion, keeps at most one active incident per rule, wherever it interleaves. |
| Alerts.AlwaysOneActive | audit-governance-service/src/db.ts:311-313 | In every run a rule has at most one open or acknowledged incident, so the unique index is never violated. |
| Alerts.IncidentsGoForward | audit-governance-service/src/routes-logs.ts:628-639 | Resolved is terminal, an acknowledgement survives further violations, and ids are not reused. |
| Alerts.ExportedAtMostOnce | audit-governance-service/src/log-operations.ts:312-325 | Export rows are queued at most once per incident. |
| Alerts.ExportedOnceForAll | audit-governance-service/src/log-operations.ts:312-325 | The export rows inserted for an incident when it opens are all there ever are. |
| Alerts.MoreThanOneExportIff | audit-governance-service/src/log-operations.ts:120-132 | That once inserts more than one row if and only if two ready targets share the rule's target id. |
| Alerts.IncidentLifecycle | audit-governance-service/src/log-operations.ts:274-339 | A run as the lemmas ask for: a silent rule opens an incident, exports it, the incident is acknowledged, and the rule recovers and resolves it. |
| Alerts.ActMeans | audit-governance-service/src/log-operations.ts:303-336 | The write on a rule leaves it with an active incident if and only if it was found violated and the rule still exists. |
| Alerts.VerdictIsMeasured | audit-governance-service/src/log-operations.ts:274-296 | In every run, the verdict a pass holds is that of its last measurement, on the logs as they were at that step, whatever happened since. |
| Alerts.PassMeans | audit-governance-service/src/log-operations.ts:274-339 | In every run, with acknowledgements, deletions, new logs and other rules in between: from the write of a pass on a rule up to the next one, the rule has an active incident if and only if the logs at the measurement before that write violated it and it still exists. |
| Alerts.CompletePass | audit-governance-service/src/log-operations.ts:263-344 | After a complete pass every rule it covered has an active incident if and only if the logs violated it when that pass measured it and it still exists, whatever other statements came in between. |
| Alerts.EvaluationMeans | audit-governance-service/src/log-operations.ts:298-338 | The uninterrupted statements on one rule resolve nothing but its own incident, touch no other rule, and leave it active if and only if its logs are as unhealthy as Alerts.ViolatedMeans says. |
| Alerts.AlertService.EvaluateRule | audit-governance-service/src/log-operations.ts:275-338 | The loop body runs those statements on the logs it is given, and inserts one export row per ready target exactly for a new incident of an unhealthy rule that names a target. |
| Alerts.AlertService.QueueLogExports | audit-governance-service/src/log-operations.ts:120-132 | One row per ready target of the id, all for this incident. |
| Alerts.AlertService.AcknowledgeIncident | audit-governance-service/src/routes-logs.ts:628-639 | An open incident is acknowledged; any other id is answered 409 and nothing changes. |
| Alerts.AlertService.Evaluate | audit-governance-service/src/log-operations.ts:263-344 | A pass that no other request interrupts leaves every enabled rule with an active incident if and only if its logs violate it, and resolved incidents as they are; with interruptions see Alerts.CompletePass. |
| Cursor.Alphabet | audit-governance-service/src/routes-logs.ts:156-173 | The symbols are those of RFC 4648, and the two of its URL-safe alphabet are read as well. |
| Cursor.Base64Length | audit-governance-service/src/routes-logs.ts:171-173 | The text is padded to groups of four symbols, one group for each three bytes begun. |
| Cursor.Base64RoundTrip | audit-governance-service/src/routes-logs.ts:156-173 | Decoding the Base64 text of any bytes gives the bytes. |
| Cursor.CursorRoundTripIff | audit-governance-service/src/routes-logs.ts:156-173 | decodeCursor inverts encodeCursor if and only if both parts are nonempty, the timestamp is a date and holds no bar. |
| Pagination.Search | audit-governance-service/src/routes-logs.ts:376-433 | One request returns the first rows below the cursor in (ts, id) descending order, and a cursor exactly if there are more. |
| Pagination.ItemsInOrder | audit-governance-service/src/routes-logs.ts:376-433 | Whatever is inserted between pages, the items of a walk are in strictly descending order, so none is returned twice. |
| Pagination.WalkReturnsAll | audit-governance-service/src/routes-logs.ts:376-433 | A complete walk returns every row that was there at the start, although rows are inserted between pages, on safe tables. |
| Pagination.WalkIsFinite | audit-governance-service/src/routes-logs.ts:422-432 | Every page with a successor uses up candidates, so a walk over a fixed table ends. |
| Pagination.WalkIsListing | audit-governance-service/src/routes-logs.ts:376-433 | A complete walk over a fixed safe table is its full sorted list: all rows, each once, in order, in finitely many pages. |
| Pagination.MillisecondsAreSafe | audit-governance-service/src/routes-logs.ts:430-432 | Tables whose timestamps are whole milliseconds are safe. |
| Pagination.HiddenIff | audit-governance-service/src/routes-logs.ts:430-432 | A later row is hidden by the cursor of an earlier one if and only if the earlier one is not on a millisecond and both lie in it, ids deciding at its start. |
| Pagination.PageEndLoses | audit-governance-service/src/routes-logs.ts:422-432 | Whenever a page, of any size, ends at the first row of such a pair, the second is never returned by the whole walk. |
| Pagination.UnsafePairIsLost | audit-governance-service/src/routes-logs.ts:422-432 | With as many rows on a page as there are up to the first row of such a pair, that happens for certain. |
| Pagination.LosslessIff | audit-governance-service/src/routes-logs.ts:422-432 | A fixed table is walked without loss for every page size that the schema accepts, 1 to 1000, if and only if it holds no such pair. |
| Pagination.CursorTextReadsBack | audit-governance-service/src/routes-logs.ts:156-173 | The cursor text of a row, sent back, is decoded to the row's own mark. |
| Pagination.DecimalIsValid | audit-governance-service/src/routes-logs.ts:156-173 | Decimal numbers are texts of timestamps and ids as the lemmas on clients ask for, so these are not about nothing. |
| Pagination.SearchText | audit-governance-service/src/routes-logs.ts:320-433 | From cursor text to next cursor text: the page at the decoded mark, the first page for a missing or refused cursor, and an error if the database cannot read a part. |
| Pagination.TextWalkIsWalk | audit-governance-service/src/routes-logs.ts:422-432 | A client that sends back each nextCursor walks by the marks, so what holds of walks holds for it. |
| Pagination.ClientReadsListing | audit-governance-service/src/routes-logs.ts:422-432 | On a fixed safe table such a client reads the full sorted list, each row once, in finitely many pages. |
| JsonText.DecodeIsJoined | bin/configure-platform.py:506-511 | json.loads of json.dumps of any text is that text with adjacent surrogate halves joined. |
| JsonText.QuotingRoundTripIff | bin/configure-platform.py:506-511 | The round trip returns the text if and only if no high surrogate stands before a low one. |
| JsonText.EscapesRead | bin/configure-platform.py:497-501 | Exactly the escapes of RFC 8259 are read, and hexadecimal digits of either case. |
| JsonText.EscapesWritten | bin/configure-platform.py:506-511 | A character is written as its short escape if it has one, as itself if it is printable ASCII, and else in hexadecimal. |
| JsonText.DigitsWritten | bin/configure-platform.py:506-511 | Hexadecimal digits are written in lower case. |
| JsonText.NotJson | bin/configure-platform.py:497-501 | A text without closing quote, with anything after it, with a bare control character or with an unknown escape is refused. |
| JsonText.DumpsIsPrintable | bin/configure-platform.py:506-511 | A quoted text is printable ASCII, so it stays on one line. |
| PyText.SpacesAndBreaks | bin/configure-platform.py:490-491 | Blanks and line breaks are the characters that Python takes for them. |
| PyText.SplitOne | bin/configure-platform.py:490-490 | A line ends at any one break, CR NL being one, and the last line needs none. |
| PyText.SplitOfJoin | bin/configure-platform.py:490-490 | Lines written one by one, each with a newline, are the lines that splitlines reads. |
| PyText.RStripJoin | bin/configure-platform.py:549-549 | Right-stripping the joined text is dropping blank last lines and stripping the last one that remains. |
| EnvLine.IdentifierCharacters | bin/configure-platform.py:524-524 | The classes of the expression are ASCII letters, digits and the underscore. |
| EnvLine.Spelled | bin/configure-platform.py:33-33 | The comment above appended keys, the word export and the quotes are spelled as in the script. |
| EnvLine.MatchPlain | bin/configure-platform.py:524-524 | The expression matches `KEY =` with any blanks, and group 2 is the key, also for a key named export. |
| EnvLine.MatchExport | bin/configure-platform.py:524-524 | It matches `export KEY =` with any blanks, and group 2 is the key. |
| EnvLine.MatchedOnlyIf | bin/configure-platform.py:524-524 | It matches no other line than those two forms. |
| EnvLine.DefinedIsMatched | bin/configure-platform.py:490-503 | Every line from which parse_env reads an identifier is a line that write_env matches, with the same key. |
| EnvLine.EntryIsRead | bin/configure-platform.py:531-532 | A written line is read as its key and the value that survives the quoting. |
| EnvLine.EntryIsMatched | bin/configure-platform.py:524-535 | A written line is matched with its own key and the same export prefix. |
| EnvLine.QuoteEnvMeans | bin/configure-platform.py:506-511 | A value is quoted if and only if it holds a blank, a hash or a quote. |
| EnvLine.ReadValueIff | bin/configure-platform.py:497-511 | A value comes back from its quoted form if and only if it needs no quotes or has no split surrogate pair. |
| EnvLine.QuotesComeOff | bin/configure-platform.py:497-501 | Single quotes around a value are taken off, and double quotes around one that is not JSON or has no escapes. |
| EnvLine.BareStays | bin/configure-platform.py:497-501 | A value without a pair of quotes around it is itself. |
| EnvLine.HandWrittenIsRead | bin/configure-platform.py:485-503 | A line KEY='value', with or without export, is read as that value. |
| EnvLine.SurrogatesAreJoined | bin/configure-platform.py:506-511 | The two halves of U+1F600 and a space come back as one character and a space. |
| EnvFile.ReadAfterWrite | bin/configure-platform.py:485-550 | For identifier keys and any existing text: an updated key reads back as its value if and only if the value survives the quoting, every other identifier key as before. |
| EnvFile.OtherLinesStay | bin/configure-platform.py:522-530 | Every nonblank line of another key, and every comment, stays at its place, but for blanks at its end. |
| EnvFile.SecondWriteIsNoop | bin/configure-platform.py:513-550 | Writing the same updates again changes nothing. |
| EnvFile.RewriteLines | bin/configure-platform.py:522-535 | The loop rewrites exactly the lines of updated keys, and knows which keys it saw and whether anything changed. |
| EnvFile.Dotenv.ParseEnv | bin/configure-platform.py:485-503 | The dictionary is that of the lines, later lines winning; a missing file is empty. |
| EnvFile.Dotenv.WriteEnv | bin/configure-platform.py:513-550 | The file becomes the rewritten lines and the appended missing keys, is left alone if nothing changed, and on a dry run. |
| RateCardDrift.PricePer1k | bin/check-rate-card-drift.py:125-140 | A price is used if and only if it is a finite number from 0 to 10000 per million tokens, and then lies between 0 and 10 per thousand. |
| RateCardDrift.ParseRows | bin/check-rate-card-drift.py:192-214 | The cards are those of the first usable row of each key, and keys are distinct. |
| RateCardDrift.GroupByModel | bin/check-rate-card-drift.py:299-301 | Each model maps to its aliases, in catalog order. |
| RateCardDrift.CompareModel | bin/check-rate-card-drift.py:304-346 | The findings on one model are exactly the warranted ones. |
| RateCardDrift.Compare | bin/check-rate-card-drift.py:296-354 | A finding is reported if and only if the two sources warrant it: SPLIT, DRIFT per alias and rate, UNPRICED, NO_RATE_CARD and ORPHAN_RATE_CARD. |
| RateCardDrift.AgreeIff | bin/check-rate-card-drift.py:81-83 | Rates within the tolerance are exactly the rates whose costs differ by at most the tolerance per thousand tokens on every call. |
| RateCardDrift.NoDriftIff | bin/check-rate-card-drift.py:331-346 | No DRIFT is reported if and only if every priced alias whose model has a card agrees with it on all calls. |
| RateCardDrift.NoSplitIff | bin/check-rate-card-drift.py:307-318 | No SPLIT is reported if and only if aliases of one model have one price. |
| RateCardDrift.StrictVerdictIff | bin/check-rate-card-drift.py:436-456 | The strict check passes if and only if aliases of one model have one price and every priced alias agrees with its card on all calls; without --strict the exit code is always 0. |
| RateCardDrift.ComparedIsLatestIff | bin/check-rate-card-drift.py:183-214 | The card compared is the one the worker's query picks if and only if no differently spelled row of the same key is listed before the model's own rows. |
| RateCardDrift.PlainSpellingHidesNothing | bin/check-rate-card-drift.py:203-205 | With lower-case providers and trimmed models no row hides another. |
| RateCardDrift.MixedCaseIsHidden | bin/check-rate-card-drift.py:183-214 | With both OpenAI and openai in the table, the card compared is not the one that prices openai. |
| RateCardDrift.NoDriftBoundsWorkerCost | audit-governance-service/src/cost-worker.ts:83-97 | If no DRIFT names a priced alias, then whatever else is reported, its catalog price of any call and the price the worker computes differ by at most 5e-7 per thousand tokens, unless its card is hidden by another spelling. |
| RateCardDrift.PassBoundsWorkerCost | audit-governance-service/src/cost-worker.ts:83-97 | In particular a passing strict check gives that bound for every priced alias. |
| NestedPath.GetPath | bin/configure-platform.py:187-193 | The loop returns what the path leads to, and nothing below a value that is no dictionary. |
| NestedPath.Enter | bin/configure-platform.py:199-204 | One step enters the dictionary under the part, or puts a new empty one in the place of whatever is there. |
| NestedPath.SetPath | bin/configure-platform.py:196-205 | The dictionaries, updated in place, change by those steps and one assignment, and nothing else does. |
| NestedPath.OnePath | bin/configure-platform.py:187-205 | Without aliasing only one path leads to a dictionary. |
| NestedPath.GetAfterSet | bin/configure-platform.py:187-205 | Without aliasing, get after set returns the value. |
| NestedPath.OtherPathsKept | bin/configure-platform.py:187-205 | Every path that is neither a prefix nor an extension of the one set reads as before, also where a value was replaced by a dictionary. |
| NestedPath.SetKeepsTree | bin/configure-platform.py:196-205 | Setting a value that is not a dictionary brings in no aliasing. |

## Left out
- HTTP, Express, sockets, subprocesses, psql and authentication: only the state change of each request is modelled; SQL isolation, full-text search and JSONB are not.
- parse_line, redaction and level detection: a parameter that maps a file name and a raw line to a record or to nothing; a record is opaque.
- Concurrent writers: one forwarder, one writer of a log file, and no ingest during a sweep, except that `Retention.RowSurvivesIff` states when a row ingested meanwhile survives.
- Forwarder runs follow one append-only file while all others change freely; a rotated file starts a new run (`TailRuns.RotatedFileIsRead`), and reading from the middle of an oversized first line is not followed further. The exit codes of `--once` and the contents of the state file as JSON are not modelled.
- Log segments are given: sanitizeLogSegment, the S3 prefix, URIs, signing and failures in the middle of writing several objects are not modelled, and a day directory exists as long as it holds a file.
- Which way the timestamp column rounds a tie, and the two-digit year rule of Date.UTC, which four-digit directories never meet.
- NUMERIC and floating-point rounding: prices, costs, rates and shares are real numbers.
- Columns that are stored and never read by these handlers (trace ids, provenance, reasons, timestamps of updates) are not modelled; gateway call ids are compared as text.
- The GET side of budgets (check, list), savings summaries, facets, health and authz decisions: aggregate or single-branch reads.
- CostLedger.ReplayInvariance: is about whole events; a replay does not finish an event that stopped half way, which `CostLedger.HalfProcessedStays` states.
- RateWindows.EventLimiterBounds: takes one limit per key; two sources whose names spell the same bucket key with different limits are not considered.
- ExportQueue.PostsUseAttempts: a process that dies between a POST and its UPDATE posts the row once more than it counts; one sweep reads one clock.
- Cursor.CursorRoundTripIff: is on bytes, with Date.parse as a parameter; replacement of invalid UTF-8 is not modelled.
- Search filters only narrow the table and are not modelled.
- Pagination.TextWalkIsWalk: takes the texts of timestamps and ids as parameters that read back what they show; the 240-character limit on a cursor is not modelled.
- Alerts.AlertService.Evaluate: is one uninterrupted pass over rules that exist, with one clock reading for the query and the silence; the state machine takes any interleaving, and a rule as it was when the pass listed it.
- EnvFile.ReadAfterWrite: texts are code points; a text that UTF-8 cannot encode makes the file system call fail, which is not modelled, and neither are directories and permissions.
- RateCardDrift.ParseRows: takes lines already split at the bars, with strip, lower and float as parameters; the wording and the order of findings are not modelled.
- RateCardDrift.NoDriftBoundsWorkerCost: assumes that no two active cards of one model start at the same moment, since the database then picks either.
- NestedPath.GetAfterSet: takes a path as its list of parts; values other than dictionaries are integers, and a stored null is not told apart from other values.
- Env-file keys that are not identifiers, the risk classifier, integer bounds of settings, the rest of configure-platform.py and the other check, seed and trace scripts.

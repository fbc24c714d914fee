# GFOLB, a load balancer and fail-over proxy: what its core guarantees

GFOLB accepts client requests, reads each one from its socket, chooses a server for it, rewrites its
headers and sends it on. Around the sockets stand four pieces of logic, and these are modelled here.

**Task scheduler** (`TaskPool.dfy`, `PoolThread.dfy`, `Scheduler.dfy`, `StepFrames.dfy`, `TimerSweep.dfy`,
`SweepLoop.dfy`, `SchedulerSafety.dfy`, `SweepAccount.dfy`, `Promotion.dfy`, `JoinGuarantee.dfy`,
`PriorityRun.dfy`, `Progress.dfy`, `Submission.dfy`). Clients submit or schedule tasks; a sweep moves scheduled tasks whose wait is over to a ready queue;
one poller pops ready tasks and puts each into the slot of an idle worker; workers run them; `joinAll` waits for the end.
The classes `TaskPool` and `PoolThread` have one method for each lock region of the source, proved against a function on the
value of the object. `Scheduler` composes those functions into a step system: a step is one lock region, or one
stretch of code between two regions, and every thread may step at any time. The condition wait may return at any
time, whether or not it was signalled. A run is any sequence of steps from a new pool with any number of workers. All theorems hold in every
reachable state. `SweepLoop` has the two loops of the sweep in place as well, on a `TaskPool` object that other threads
change before every lock region. The join guarantee is exact: `joinAll` can return while the one task that the poller had popped is still unfinished,
and that is the only exception. In a pool with priorities a task without a positive one is never handed out, and `joinAll` waits for it.
What a sweep did is read off the run itself: from the timers' answers and the changes of the pool. `Progress` has the other side of
safety: the runs that carry a task from the queue to its end. `Submission` says where a task goes and when its wait is over. A wait
in minutes takes as many hours, and one in seconds or more counts clock ticks, so it can be cut short by less than a second.

**Calendar, printer and parser** (`Calendar.dfy`, `Date.dfy`, `DateFormat.dfy`, `DateLayout.dfy`, `DateRoundTrip.dfy`,
`DateText.dfy`, `ParseLimits.dfy`, `DateAddition.dfy`, `CastUtil.dfy`). `Calendar` is the day-number arithmetic on plain integers, with the truncating division of C++. Beside it stands the
Gregorian calendar written down independently (month lengths of section 5.7 and leap rule of appendix C of RFC 3339).
`Date` is the class with its string fields and setters; `DateFormat` has the ten replacements of `format` and the positional
reads of `parse`. The clock read by `Date()` and the printing and reading of a `float` offset are parameters.
The year estimate, both directions of the day-number conversion, the weekday and the additions are proved with their exact
domains, which are not what the names promise:

- The conversion starts from year 1900, so its leap years are those of 1900 plus a multiple of 400. It turns 29 February of every year divisible
  by 400 into 1 March, and makes every day number that is 146096 modulo 146097 a 29 February that does not exist, first in 2300.
- The plain weekday formula from the day number holds only in March-based years 300 to 399 modulo 400.
- The weekday does not advance from 31 December of year 0.
- `addDays`, and all additions of time, move a December start one year ahead. From other months they are a day off when the sum
  crosses a leap day that the day numbers miscount, first 29 February 2000. `addMonths` is a year late when it arrives in December,
  and a day that the month lacks runs over into the next.
- `parse` misses the day in a format that has no day name and starts with the day before offset 2, because `npos + 3` wraps round to 2.
- `parse` takes any sign in the format for a time zone. `ParseLimits.dfy` has a format and a date for both failures.
- An offset printed behind a format without signs is never read back: a negative one makes `parse` throw, and with a plus the
  whole text is read as the offset. A short year is read as a year of the first century.
- No addition carries over the offset, the nanoseconds or the smaller clock fields: the result has those of the clock.

**Endpoint selection** (`ConnectionPool.dfy`, `AdminWords.dfy`, `RouteTable.dfy`, `RoundRobin.dfy`, `SelectionRun.dfy`). `ConnectionPool` is the class with its counter,
its route in use and its three parallel vectors. Whether an attempt reaches its endpoint is an oracle that may answer differently at every
attempt, and so is the resolution of host names. `GetConnection` is proved for every oracle, `Validate` for
every command; `AdminWords` says what the words of a command and the configured addresses mean. `RouteTable` proves what holds over every sequence of admin commands and picks, `RoundRobin` how often each endpoint is used
in one call and over whole runs, `SelectionRun` when such calls still find an endpoint while commands change the table.

**String rewriting and request framing** (`StringUtil.dfy`, `BufferedReader.dfy`, `RequestFraming.dfy`, `PlainRequest.dfy`,
`IConnectionHandler.dfy`).
The loops of `StringUtil` are proved against recursive functions, and those against each other. `SingleRequest` reads
a request from any input, with body reads cut at any points; on a well-formed request only lines with `Host:` change, and the service
step later puts the chosen server's name into the first of them. The reader drops the last character of every length value
without a look: a value followed by exactly one character, be it a carriage return or a blank, is read in full, a bare one loses its last
digit. Header lines come out unchanged exactly when each fits in one read. `PlainRequest` states this on the text alone: which
characters come out, which are taken, and which are left on the socket.

Integers are unbounded throughout. Strings are sequences of characters; `find` returning `npos` is `None`. An exception of the
source is `Thrown`, with the message where the source throws a text.

## Model

| member | source | states |
|---|---|---|
| SchedulerSafety.InvReachable | gfolb/src/ThreadPool.cpp:126-194 | The inductive invariant (sweep bookkeeping, conservation, slots, histories) holds in every state of every run. |
| SchedulerSafety.TaskConservation | gfolb/src/ThreadPool.cpp:126-168 | In every reachable state a submitted task is in exactly one place: scheduled and not promoted, a ready queue, the poller's hand, one worker's slot, or finished; nothing else is anywhere. |
| Promotion.ScheduledMeansNotPushed | gfolb/src/TaskPool.cpp:34-65 | In every reachable state of a pool without priorities "scheduled and not promoted" is: in the schedule vectors and never pushed to the ready queue. |
| SchedulerSafety.AtMostOnce | gfolb/src/PoolThread.cpp:25-100 | No task runs twice, also with spurious wake-ups; only submitted tasks run; finished tasks have run. |
| SchedulerSafety.NoOverwrite | gfolb/src/ThreadPool.cpp:156-168 | Although `isIdle` and `checkout` are separate lock regions, every checkout finds its slot free. |
| SchedulerSafety.DispatchIsFifo | gfolb/src/ThreadPool.cpp:126-168 | Without priorities the checkouts, then the poller's hand, then the ready queue are together the history of pushes. |
| PriorityRuns.NeverDispatched | gfolb/src/TaskPool.cpp:148-163 | In a pool with priorities a submitted task whose priority is not positive, as `submit` without a priority and `schedule` set it, stays in the list in every run: it is never handed out, never runs, and something is pending for ever. |
| PriorityRuns.JoinNeverPasses | gfolb/src/ThreadPool.cpp:170-194 | So `joinAll` never gets past its wait once such a task was submitted before. |
| PriorityRuns.TakesBestFirst | gfolb/src/TaskPool.cpp:148-163 | In every run the poller of a pool with priorities takes the task that was submitted first among those of the highest positive priority still in the list. |
| Progress.HandIsPlaced | gfolb/src/ThreadPool.cpp:156-168 | While some worker is idle, the poller's offers alone lead to the checkout of its task into an idle slot, wherever the scan stands. |
| Progress.HeadIsDelivered | gfolb/src/ThreadPool.cpp:126-168 | With an idle worker, check, take, offers and checkout put the head of the ready queue into the first idle slot and change nothing else. |
| Progress.WorkerFinishes | gfolb/src/PoolThread.cpp:32-95 | A woken worker with a task in its slot runs it once, and its slot is free again; one without goes back to waiting. |
| Progress.JoinRound | gfolb/src/ThreadPool.cpp:170-194 | One undisturbed round of `joinAll` ends it exactly when nothing is pending and every worker is idle. |
| Submissions.SubmittedGoes | gfolb/src/ThreadPool.cpp:196-231 | A submitted task goes to the end of the ready queue, or of the priority list with the priority given (-1 without one). |
| Submissions.ScheduledGoes | gfolb/src/ThreadPool.cpp:232-250 | A scheduled task waits in the schedule exactly in a pool without priorities, with one of the seven units and a time that is positive as an int; otherwise it is ready at once, or in the priority list. |
| Submissions.ScheduledIsStranded | gfolb/src/ThreadPool.cpp:214-250 | In a pool with priorities every scheduled task, and every one submitted without a priority, stays in the list in every run. |
| Submissions.WaitIsExact | gfolb/src/Task.cpp:60-123 | The verdict on a timed task is right below a second; from a second on it is right unless exactly the whole seconds asked for lie between the readings and the later stands earlier in its second; a wait in minutes is over exactly when one in hours is, so it is wrong from its end until then. |
| Submissions.OverStaysOver | gfolb/src/Task.cpp:60-123 | A wait that is over stays over. |
| Submissions.WaitExamples | gfolb/src/Task.cpp:86-102 | A minute is not over after half an hour, and a second is over after a nanosecond. |
| SweepAccounts.SweepRefinesFilter | gfolb/src/TaskPool.cpp:34-65 | In every run, with the answers, pushes and arrivals since the last snapshot read off its steps: when the sweep has removed what it had to, it has asked every entry of the snapshot, pushed the tasks of exactly those whose wait was over, once each and in order, and left the others with their timers followed by later arrivals; no index is out of range. |
| SweepAccounts.FilterByAnswer | gfolb/src/TaskPool.cpp:45-51 | An entry whose wait is over is pushed, and one whose wait is not over is kept. |
| SchedulerSafety.SweepFiltersLog | gfolb/src/TaskPool.cpp:34-65 | The same over the bookkeeping of the sweep, in every reachable state. |
| SweepLoop.Sweep | gfolb/src/TaskPool.cpp:34-65 | One round of the in-place loops, for every verdict and every action of other threads before each lock region: the pushes, the ready queue as the replay of all changes, and the schedule as the unexpired snapshot followed by later arrivals; the priority list is untouched. |
| SweepLoop.Scan | gfolb/src/TaskPool.cpp:38-53 | The first loop pushes exactly the due entries of the snapshot in order, remembers exactly their indices and removes nothing. |
| SweepLoop.Remove | gfolb/src/TaskPool.cpp:54-65 | Erasing at `index - counter` leaves exactly the entries that were not remembered and the arrivals. |
| TimerSweep.SweepInvStep | gfolb/src/TaskPool.cpp:34-65 | Every step of any thread keeps the sweep's bookkeeping: marked indices, verdicts, remaining list and pushed tasks belong together. |
| JoinGuarantee.JoinGuarantee | gfolb/src/ThreadPool.cpp:170-194 | When `joinAll` has returned, every task submitted before its last "nothing pending" has finished, except at most the one the poller then held. |
| JoinGuarantee.JoinIsComplete | gfolb/src/ThreadPool.cpp:170-194 | All those tasks have finished if and only if the poller's hand was empty then or its task has finished since. |
| JoinGuarantee.JoinMayReturnEarly | gfolb/src/ThreadPool.cpp:132-137 | For any untimed task there is a run in which `joinAll` has returned and the only submitted task has not run. |
| TaskPools.TaskPool.Add | gfolb/src/TaskPool.cpp:95-109 | A timed task goes to the end of both schedule vectors, any other to the end of the ready queue. |
| TaskPools.TaskPool.AddP | gfolb/src/TaskPool.cpp:127-131 | The task goes to the end of the priority list. |
| TaskPools.TaskPool.Get | gfolb/src/TaskPool.cpp:137-147 | Takes the head of the ready queue, or nothing from an empty one. |
| TaskPools.TaskPool.GetP | gfolb/src/TaskPool.cpp:148-163 | The one-pass scan returns the first task of the highest positive priority and removes it; without a positive priority it returns nothing and changes nothing. |
| TaskPools.TaskPool.Pending | gfolb/src/TaskPool.cpp:164-170 | True exactly when the ready queue or the schedule holds something. |
| TaskPools.TaskPool.PPending | gfolb/src/TaskPool.cpp:171-177 | True exactly when the priority list or the schedule holds something. |
| TaskPools.TaskPool.At | gfolb/src/TaskPool.cpp:39-42 | The task and timer of one index, or the exception of `at` past the end. |
| TaskPools.TaskPool.Push | gfolb/src/TaskPool.cpp:48-50 | The task goes to the end of the ready queue. |
| TaskPools.TaskPool.EraseAt | gfolb/src/TaskPool.cpp:59-64 | Removes one index from both vectors, or throws and changes nothing. |
| TaskPools.PickIndex | gfolb/src/TaskPool.cpp:153-159 | An index is picked only where all earlier priorities are smaller and no later one is greater; none exactly when no priority is positive. |
| TaskPools.GetPTask | gfolb/src/TaskPool.cpp:148-163 | Takes nothing exactly when no priority is positive, and otherwise the first task of the highest one; the others keep their places. |
| TaskPools.TakesOne | gfolb/src/TaskPool.cpp:160-160 | Of distinct tasks exactly the one picked leaves the list, and the others keep their order. |
| TaskPools.DrainKeepsOrder | gfolb/src/TaskPool.cpp:148-163 | Repeating `getPTask` on distinct tasks returns every positive priority's tasks in insertion order, nothing else, and leaves the others in their order. |
| TaskPools.DrainDescends | gfolb/src/TaskPool.cpp:148-163 | Repeating `getPTask` returns priorities in descending order. |
| TaskPools.StableSortUnique | gfolb/src/TaskPool.cpp:148-163 | Descending order with a fixed order inside each priority determines the list, so draining is the stable sort. |
| PoolThreads.PoolThread.Checkout | gfolb/src/PoolThread.cpp:153-161 | The slot becomes busy with the task. |
| PoolThreads.PoolThread.Release | gfolb/src/PoolThread.cpp:163-169 | The slot becomes idle and empty. |
| PoolThreads.PoolThread.IsIdle | gfolb/src/PoolThread.cpp:171-177 | Reports the idle flag. |
| PoolThreads.PoolThread.GetTask | gfolb/src/PoolThread.cpp:179-185 | Reports the task in the slot. |
| Calendar.EstimateIsYearOrNext | gfolb/src/Date.cpp:363-372 | For every day number the estimate is the March-based year of the day or the year after it. |
| Calendar.BiasRange | gfolb/src/Date.cpp:363-372 | One correction step suffices for every day exactly when the constant is in 14775..3655224; 14780 is close to the lower end. |
| Calendar.DaysRoundTrip | gfolb/src/Date.cpp:331-383 | `getDays` undoes `getDateFromDays` on every day number from 0 on. |
| Calendar.DateRoundTrip | gfolb/src/Date.cpp:331-383 | Every valid date from 1 March 1900 on comes back from its day number, except that 29 February of years divisible by 400 comes back as 1 March. |
| Calendar.FromDaysValid | gfolb/src/Date.cpp:363-383 | For every day number g the date is accepted by `validateDate` if and only if g is not 146096 modulo 146097; then it is 29 February of year 400 (g / 146097) + 2300. |
| Calendar.InventedDate | gfolb/src/Date.cpp:363-383 | Day number 146097 q + 146096 gives 29 February of year 400 q + 2300, which does not exist (146096 gives 29 February 2300). |
| Calendar.FromDaysSmall | gfolb/src/Date.cpp:363-383 | Every day number gives a month from 1 to 12, a day from 1 to 31 and a year from 1900 on. |
| Calendar.DaysCountDays | gfolb/src/Date.cpp:331-337 | The next Gregorian day has the next day number, except at the leap days the conversion miscounts (0 or 2 instead of 1). |
| Calendar.ValidateIsGregorian | gfolb/src/Date.cpp:445-477 | `validateDate` accepts exactly the dates of the independently defined calendar. |
| Calendar.WeekdayAdvances | gfolb/src/Date.cpp:480-514 | The next day has the next weekday on every valid date except exactly 31 December of year 0. |
| Calendar.WeekdayOfDayNumber | gfolb/src/Date.cpp:480-514 | The weekday is the day number plus 4, plus 1 in March-based years 0 to 299 modulo 400, modulo 7. |
| Calendar.WeekdayPlainFormula | gfolb/src/Date.cpp:480-514 | `(getDays + 4) mod 7` is the weekday exactly in March-based years 300 to 399 modulo 400 (1900 to 1999 first). |
| DateAdditions.AddDaysExact | gfolb/src/Date.cpp:297-304 | From every valid date from 1 March 1900 on, `addDays(n)` gives the Gregorian date n days later if and only if the start is not in December, both dates lie on the same side of the leap days the day numbers miscount, and the later date is not such a leap day. |
| DateAdditions.AddDaysRunsLate | gfolb/src/Date.cpp:297-304 | 1 February 2000 plus 40 days gives 13 March and 28 February 2000 plus a day gives 1 March, each one day late. |
| DateAdditions.AddSecondsExact | gfolb/src/Date.cpp:270-304 | `addSeconds(n)` gives the moment n seconds later under exactly the same condition on the date carried to; the time of day is always right. |
| DateAdditions.PlusSecondsExact | gfolb/src/Date.cpp:270-304 | The same on the string fields of a Date, whatever the clock shows. |
| DateAdditions.PlusDaysExact | gfolb/src/Date.cpp:297-304 | `addDays` on the string fields shows the day n days later under exactly the same condition; its time of day, offset and nanoseconds are the clock's. |
| DateAdditions.PlusHoursExact | gfolb/src/Date.cpp:288-295 | `addHours`: the hour is right, the date under the same condition on the date carried to; minute and second are the clock's. |
| DateAdditions.PlusMinutesExact | gfolb/src/Date.cpp:279-286 | `addMinutes`: hour and minute are right, the date under the same condition; the second is the clock's. |
| DateAdditions.PlusMonthsExact | gfolb/src/Date.cpp:306-313 | `addMonths` on the string fields shows the same day n months later exactly when that month is not December and has the day by the leap years of the day numbers. |
| DateAdditions.DaysOfLater | gfolb/src/Date.cpp:331-337 | The day number of the date n days later is n more, less what the miscounted leap days between take away. |
| Calendar.AddDaysLinear | gfolb/src/Date.cpp:297-304 | In the class's own day numbers `addDays(n)` adds n to the start, or to the same day a year later for a start in December. |
| Calendar.AddSecondsLinear | gfolb/src/Date.cpp:270-361 | What `getSeconds` computes after `addSeconds(n)` is what it computes of the start plus n exactly for months other than December, and for December that of the next year plus n; time fields are normalised. |
| Calendar.AddMonthsLands | gfolb/src/Date.cpp:306-313 | For every valid date from 1 March 1900 on: `addMonths` lands on the same day of the right month if and only if that month is not December and has the day by the leap years of the day numbers; a December comes a year late and a missing day runs over into the next month. |
| Calendar.AddMonthsRunsOver | gfolb/src/Date.cpp:306-313 | 31 January 2001 plus one month is 3 March 2001. |
| CastUtil.ReadShow | gfolb/include/CastUtil.h:236-265 | Reading a printed integer gives it back. |
| CastUtil.NumbersAreRead | gfolb/include/CastUtil.h:236-265 | Blanks, an optional sign and digits are read as the number they show. |
| CastUtil.OnlyNumbersAreRead | gfolb/include/CastUtil.h:236-265 | Nothing else is read, but a text that is empty up to its first NUL counts as zero. |
| CastUtil.ReadPadded | gfolb/src/Date.cpp:166-170 | A number printed with the setters' zero pad is read back exactly when it is not negative; otherwise reading throws. |
| CastUtil.PaddedWidth | gfolb/src/Date.cpp:155-170 | Two digits below 100, four digits from 1000 to 9999, digits only. |
| Dates.Date.SetDay | gfolb/src/Date.cpp:166-170 | Sets the padded day and nothing else. |
| Dates.Date.SetMonth | gfolb/src/Date.cpp:128-133 | Sets the padded month and its name and nothing else. |
| Dates.Date.SetYear | gfolb/src/Date.cpp:155-159 | Sets the padded year and nothing else. |
| Dates.Date.SetHh | gfolb/src/Date.cpp:177-181 | Sets the padded hour and nothing else. |
| Dates.Date.SetMm | gfolb/src/Date.cpp:188-192 | Sets the padded minute and nothing else. |
| Dates.Date.SetSs | gfolb/src/Date.cpp:204-208 | Sets the padded second and nothing else. |
| Dates.Date.SetTime | gfolb/src/Date.cpp:562-570 | Throws outside 0..24, 0..60, 0..60 and changes nothing; otherwise sets the three fields and clears the nanoseconds. |
| Dates.Date.GetDateFromDays | gfolb/src/Date.cpp:363-383 | A new object that shows the date of the day number with month and day names; its time is the clock's. |
| Dates.Date.Make | gfolb/src/Date.cpp:527-534 | Throws on an invalid date; otherwise a new object for the day number of the date with cleared nanoseconds and offset. |
| Dates.Date.AddDays | gfolb/src/Date.cpp:297-304 | A new object for the sum; the original is unchanged; throws when a field cannot be read. |
| Dates.Date.AddMonths | gfolb/src/Date.cpp:306-313 | A new object for the sum of months; the original is unchanged; throws when a field cannot be read. |
| Dates.Date.AddHours | gfolb/src/Date.cpp:288-295 | As AddDays with the carry from hours. |
| Dates.Date.AddMinutes | gfolb/src/Date.cpp:279-286 | As AddHours with the carry from minutes. |
| Dates.Date.AddSeconds | gfolb/src/Date.cpp:270-277 | As AddMinutes with the carry from seconds. |
| Dates.OfDaysShows | gfolb/src/Date.cpp:363-383 | The string fields of a date made from a day number read back as the computed numbers. |
| Dates.PlusMonthsShows | gfolb/src/Date.cpp:306-313 | The string fields after `addMonths` read back as the date that the calculation on numbers gives. |
| Calendar.SecondsOfSum | gfolb/src/Date.cpp:339-361 | `getSeconds` is the day number in seconds plus the time of day in seconds, also for fields out of their ranges. |
| DateTexts.KnownWeek | gfolb/src/Date.cpp:480-514 | 2 to 8 January 2000 are Sunday to Saturday by name. |
| DateTexts.NameOfDay | gfolb/src/Date.cpp:480-514 | Every accepted date has the name of the day of that week with the same code. |
| DateTexts.NamesOfMonths | gfolb/src/Date.cpp:42-58 | "01" to "12" are JAN to DEC. |
| DateTexts.NamesOfDate | gfolb/src/Date.cpp:363-383 | A date made from a day number carries the first three letters of its day's name, and the name and digits of its month, which determine each other. |
| DateTexts.TimeIsTaken | gfolb/src/Date.cpp:562-570 | A time from 0:0:0 to 24:60:60 is taken and reads back from two-digit fields; any other throws; nothing else changes but the nanoseconds. |
| Dates.PlusSecondsLinear | gfolb/src/Date.cpp:270-304 | The same linearity in `getSeconds` on the string fields, whatever the clock shows. |
| DateFormats.DateFormat.Format | gfolb/src/DateFormat.cpp:40-62 | The ten in-place replacements leave the sequentially substituted text, with an offset suffix for a non-zero offset; throws for a year of fewer than two characters. |
| DateFormats.DateFormat.Parse | gfolb/src/DateFormat.cpp:64-169 | The new date, or the exception, of the texts cut out by position. |
| DateFormats.DateFormat.Construct | gfolb/src/DateFormat.cpp:113-152 | Which constructor is called with which numbers, and every exception of that choice. |
| DateLayouts.FormatIsPositional | gfolb/src/DateFormat.cpp:40-62 | On a format of separated fields the ten sequential replacements equal substituting every field at its own place. |
| DateTexts.PrintedApart | gfolb/src/DateFormat.cpp:40-62 | Any two formats with symbols between them are printed independently, for every date, whatever tokens they hold and in any order. |
| DateTexts.ShortYear | gfolb/src/DateFormat.cpp:52-52 | "yy" is printed as the year without its first two characters. |
| DateTexts.ShortYearOfBuilt | gfolb/src/DateFormat.cpp:52-52 | For a built date these are two digits that read as the year within its century. |
| DateTexts.PrintedNanoseconds | gfolb/src/DateFormat.cpp:46-46 | "ns" is printed as the nanoseconds without padding. |
| DateTexts.OffsetIsAppended | gfolb/src/DateFormat.cpp:53-60 | An offset is printed behind the text with a plus or a minus by its sign, and zero is not printed. |
| DateTexts.OffsetIsNotReadBack | gfolb/src/DateFormat.cpp:105-160 | After a format without signs, `parse` of a date printed with a non-zero offset throws for a negative one without a plus in its number, and otherwise reads the whole text as the offset. |
| DateRoundTrips.FindInSpec | gfolb/src/DateFormat.cpp:64-104 | In such a format a token is first found exactly where its field stands. |
| DateRoundTrips.PickDay | gfolb/src/DateFormat.cpp:64-104 | The day is cut out exactly when it stands behind the day name, or without one at offset 2 or later. |
| DateRoundTrips.PicksOfPrinted | gfolb/src/DateFormat.cpp:64-112 | Every text that `parse` cuts out of a printed date is the printed field. |
| DateRoundTrips.MonthNames | gfolb/src/Date.cpp:24-58 | Month name and month digits determine each other for all twelve months. |
| DateRoundTrips.ParseOfFormat | gfolb/src/DateFormat.cpp:40-169 | What `parse(format(d))` returns for every such format and every date built for 1 March 1900 to year 9999 with a time. |
| DateRoundTrips.ParseUndoesFormat | gfolb/src/DateFormat.cpp:40-169 | It restores every field but the clock's weekday number if and only if the day is found and the text behind a sign is empty or reads as zero. |
| DateRoundTrips.NoSignNoTimezone | gfolb/src/DateFormat.cpp:105-112 | A format without signs gives no text behind a sign, so the condition reduces to the day. |
| ParseLimits.DayFirstFails | gfolb/src/DateFormat.cpp:64-169 | With "dd/mm/yyyy hh:mi:ss" every date is printed in full and `parse` refuses every such text as an invalid date. |
| ParseLimits.DashesAreTimezones | gfolb/src/DateFormat.cpp:105-160 | With "yyyy-mm-dd hh:mi:ss" the text from the first dash on is read as the offset: `parse` throws if it is no number, else the date comes back with that offset. |
| ParseLimits.ExampleFailures | gfolb/src/DateFormat.cpp:40-169 | Both on 15 March 2024, 10:20:30. |
| ParseLimits.ShortYearIsLost | gfolb/src/DateFormat.cpp:73-76 | With "yy/mm/dd" every date from 1 March 1900 on is printed, and what `parse` makes of it is refused exactly when the year of the century has no such day, or else has another year. |
| Calendar.DayOfMonthLands | gfolb/src/Date.cpp:331-383 | A day up to 31 in any month lands on itself or, beyond the length that the day numbers give the month, in the next month. |
| ConnectionPools.ConnectionPool.CreatePool | gfolb/src/ConnectionPool.cpp:198-242 | From the configured addresses: those without three parts are skipped, an unreadable port ends the process, load balancing without endpoints divides by zero, and otherwise the pool lists the others in order with both counters at 0. |
| ConnectionPools.ConnectionPool.Register | gfolb/src/ConnectionPool.cpp:209-234 | One address is skipped, ends the process or is appended to the three vectors alike. |
| ConnectionPools.ConnectionPool.GetConnection | gfolb/src/ConnectionPool.cpp:278-361 | For every outcome of the attempts: what is returned, which endpoints were tried in which order, the new counter and route, in all four modes, and when it throws or gives up; a connection returned has the ssl flag and the host and port of the endpoint last tried, and says whether that attempt succeeded. |
| ConnectionPools.ConnectionNames | gfolb/src/ConnectionPool.cpp:295-297 | The host of a connection is the address of its endpoint for port 80, and otherwise splits at the colon into its address and its port. |
| ConnectionPools.SearchReaches | gfolb/src/ConnectionPool.cpp:326-361 | A search that returns a connection names the endpoint of its last attempt, which was reached. |
| ConnectionPools.ConnectionPool.TryAround | gfolb/src/ConnectionPool.cpp:286-361 | The retry loop ends, tries the endpoints cyclically from its start, stops at the first reachable one and gives up after exactly siz·numretries − f attempts. |
| ConnectionPools.ConnectionPool.Validate | gfolb/src/ConnectionPool.cpp:390-513 | For every list of words the answer and the whole new table, or undefined behaviour exactly for a delete with a negative index. |
| ConnectionPools.ConnectionPool.Describe | gfolb/src/ConnectionPool.cpp:424-457 | Reads an endpoint, or refuses it for its parts, its port or its host, in that order. |
| AdminWords.DeleteWords | gfolb/src/ConnectionPool.cpp:467-508 | "DR" and a printed index removes that endpoint and no other; an index past the end is refused, a negative one is undefined. |
| AdminWords.ChangeWords | gfolb/src/ConnectionPool.cpp:392-420 | "CR" and a printed number sets the route to it, even to a negative one, with two routes or more; with one, with none or past the end it is refused with the message for that case. |
| AdminWords.AddWords | gfolb/src/ConnectionPool.cpp:424-466 | "AR" and a typed address appends the endpoint with the resolved host, the port and the flag of its protocol; a host that is not resolved is refused. |
| AdminWords.UpdateWords | gfolb/src/ConnectionPool.cpp:467-501 | "UR", a typed address and a printed index replaces that endpoint; another number of words or an index past the end is refused, a negative index throws. |
| AdminWords.OtherWords | gfolb/src/ConnectionPool.cpp:424-512 | Any other word with a good address is answered like an accepted command and changes nothing. |
| AdminWords.BadWords | gfolb/src/ConnectionPool.cpp:390-490 | Missing words throw or are refused, words that are no numbers are refused, and the table stays as it was. |
| AdminWords.BadAddress | gfolb/src/ConnectionPool.cpp:430-448 | An address without three parts, or whose port is no number, is refused before its host is looked up. |
| AdminWords.ConfiguredPrinted | gfolb/src/ConnectionPool.cpp:207-234 | Typed addresses of a list of endpoints are configured as that list, with hosts as typed. |
| AdminWords.MalformedIsSkipped | gfolb/src/ConnectionPool.cpp:212-216 | An address without three parts makes no difference, wherever it stands. |
| AdminWords.BadPortExits | gfolb/src/ConnectionPool.cpp:222-233 | A port that is no number ends the process, wherever it stands. |
| RouteTables.EffectIsExact | gfolb/src/ConnectionPool.cpp:390-513 | The stated effect leaves exactly one possible new table. |
| RouteTables.ChangesNothingIff | gfolb/src/ConnectionPool.cpp:390-513 | A command leaves the whole table as it was exactly when it is refused or unknown, sets the route already in use, or writes the endpoint already there. |
| RouteTables.RunStaysAligned | gfolb/src/ConnectionPool.cpp:458-510 | From one aligned table on, every command and pick of every run keeps the three vectors as long as siz; the later theorems rest on it. |
| RouteTables.RouteHistory | gfolb/src/ConnectionPool.cpp:312-325 | Over every run the route in use is the one last set, until a pick finds it gone; from then on it is 0, even if the table grows again. |
| RouteTables.PickAfterHistory | gfolb/src/ConnectionPool.cpp:312-325 | A pick from a non-empty table is in range exactly when the route last set is not negative, and is that route unless it was found gone since. |
| RouteTables.RouteNeverNegative | gfolb/src/ConnectionPool.cpp:312-325 | If no negative route is ever sent, every pick from a non-empty table is in range. |
| RouteTables.DeleteMovesRoute | gfolb/src/ConnectionPool.cpp:497-508 | A delete behind the route in use keeps the endpoint; at or before it the following endpoint is used, or the first one left. |
| RoundRobin.AroundIsMod | gfolb/src/ConnectionPool.cpp:326-348 | Attempt k of a call that starts at f is made at endpoint (f + k) mod siz. |
| RoundRobin.AttemptsWhenGivingUp | gfolb/src/ConnectionPool.cpp:326-361 | A call that gives up has tried every endpoint from its start on numretries times and the others once less. |
| RoundRobin.GivesUpIff | gfolb/src/ConnectionPool.cpp:326-361 | With fixed reachability a call gives up if and only if no endpoint is reachable (with one retry: none from its start on). |
| RoundRobin.FirstReachable | gfolb/src/ConnectionPool.cpp:326-361 | The endpoint returned is the reachable one that comes first going round from the start, and the number of attempts is its distance plus one. |
| RoundRobin.StartsInRange | gfolb/src/ConnectionPool.cpp:286-361 | On a fixed table every call of a run has an endpoint to begin with if the first has, in both modes. |
| RoundRobin.FailOverSettles | gfolb/src/ConnectionPool.cpp:305-311 | With fixed reachability, after one successful call every later fail-over call uses the same endpoint at its first attempt. |
| RoundRobin.FailOverBegins | gfolb/src/ConnectionPool.cpp:305-361 | The first fail-over call settles on the first reachable endpoint from its start, and gives up exactly when it meets none. |
| RoundRobin.AllReachable | gfolb/src/ConnectionPool.cpp:286-304 | With all endpoints reachable call k of a new pool uses endpoint k mod siz. |
| RoundRobin.Balanced | gfolb/src/ConnectionPool.cpp:286-304 | Then no endpoint is ever more than one call ahead of another. |
| RoundRobin.Passing | gfolb/src/ConnectionPool.cpp:286-359 | With some endpoints down, a run between two places behind reachable endpoints uses exactly the reachable endpoints on the way, one behind a dead endpoint twice. |
| RoundRobin.LapUsesEachEndpoint | gfolb/src/ConnectionPool.cpp:326-359 | One lap uses every reachable endpoint once, or exactly twice if the endpoint before it is down. |
| RoundRobin.EveryLap | gfolb/src/ConnectionPool.cpp:326-359 | A run repeats the same lap any number of times and returns to the same place. |
| RoundRobin.ManyLapsUseEachEndpoint | gfolb/src/ConnectionPool.cpp:326-359 | Over m laps the uses are m times those of one lap. |
| RoundRobin.LapsBegin | gfolb/src/ConnectionPool.cpp:326-359 | From any counter at most two calls lead to a place where laps begin. |
| SelectionRuns.NoDeleteNoThrow | gfolb/src/ConnectionPool.cpp:286-311 | While nothing is deleted, every call of a new pool has an endpoint as soon as there is one. |
| SelectionRuns.DeleteStops | gfolb/src/ConnectionPool.cpp:497-508 | One delete makes all calls throw exactly when the counter stood at the end of the table or the table had one endpoint. |
| SelectionRuns.CallAfterHistory | gfolb/src/ConnectionPool.cpp:286-311 | After a call that had an endpoint the counter stays within the table of that call, and the next call throws exactly while deletes keep the table below the counter; it has an endpoint again at the latest when the table is as large as before. |
| SelectionRuns.Select | gfolb/src/ConnectionPool.cpp:278-361 | A call of the class is an event of the runs of calls and commands. |
| StringUtil.Find | gfolb/src/StringUtil.cpp:58-65 | The least occurrence at or after a position, or none when there is none. |
| StringUtil.ReplaceFirst | gfolb/src/StringUtil.cpp:58-65 | Replaces the first occurrence, if any. |
| StringUtil.ReplaceAll | gfolb/src/StringUtil.cpp:74-83 | The in-place loop ends and leaves the text in which occurrences met from left to right are replaced and the inserted text is not searched. |
| StringUtil.EraseAll | gfolb/src/StringUtil.cpp:92-100 | The in-place loop ends and leaves the text with first occurrences removed until there is none. |
| StringUtil.ErasedIsClean | gfolb/src/StringUtil.cpp:92-100 | The pattern does not occur in what is left. |
| StringUtil.ErasedKeeps | gfolb/src/StringUtil.cpp:92-100 | Whole patterns are removed and no other character; exactly a text without the pattern stays as it is. |
| StringUtil.EraseIsNotReplace | gfolb/src/StringUtil.cpp:74-100 | An input on which `eraseAll` and `replaceAll` with an empty text differ. |
| StringUtil.SplitInternal | gfolb/src/StringUtil.cpp:138-167 | The loop appends the pieces between successive occurrences of a non-empty delimiter, and two empty texts when delimiter and input are both empty. |
| StringUtil.Split | gfolb/src/StringUtil.cpp:169-173 | Returns exactly those pieces. |
| StringUtil.SplitMany | gfolb/src/StringUtil.cpp:182-193 | Splits every piece by each delimiter in turn, whenever the loops of the source end: an empty delimiter must meet only empty pieces. |
| StringUtil.ReplaceIsSplitJoin | gfolb/src/StringUtil.cpp:74-83 | `replaceAll(s, p, w)` is the pieces of `split(s, p)` joined with w, for every text and non-empty pattern. |
| StringUtil.JoinOfSplit | gfolb/src/StringUtil.cpp:138-167 | Joining the pieces with the delimiter gives the text back. |
| StringUtil.PiecesAreClean | gfolb/src/StringUtil.cpp:138-167 | No piece contains the delimiter. |
| StringUtil.ReplacedConcat | gfolb/src/StringUtil.cpp:74-83 | Replacing in a concatenation is replacing in its parts when no occurrence straddles the seam. |
| StringUtil.SplitManyIsOnePass | gfolb/src/StringUtil.cpp:182-193 | Splitting by one-character delimiters in turn is one pass that cuts at any of them. |
| StringUtil.SplitOrderIrrelevant | gfolb/src/StringUtil.cpp:182-193 | The result depends only on the set of those delimiters. |
| StringUtil.SplitManyIsClean | gfolb/src/StringUtil.cpp:182-193 | With non-empty delimiters of any length no piece contains any of them, and every character outside them is kept in order. |
| StringUtil.SplitOfJoin | gfolb/src/StringUtil.cpp:138-167 | Splitting a joined non-empty list gives the list back if and only if no piece contains the delimiter character. |
| BufferedReaders.LineLength | gfolb/src/BufferedReader.cpp:213-220 | One line read takes a non-empty prefix within the limit that contains a newline only as its last character; nothing only at the end of input. |
| BufferedReaders.BufferedReader.ReadHead | gfolb/src/BufferedReader.cpp:211-251 | The header loop's text, content length, consumed characters and ending for every input, and whether a line read fails before it ends. |
| BufferedReaders.BufferedReader.ReadBody | gfolb/src/BufferedReader.cpp:252-269 | However the reads are cut and whichever report errors, the body is exactly the announced characters, or all that are left and then the socket counts as closed; a read beyond the buffer needs a body longer than it. |
| BufferedReaders.BufferedReader.SingleRequest | gfolb/src/BufferedReader.cpp:205-272 | Result, consumed characters and closed flag are the same however the body reads are cut and whichever of them report errors; a failed line read throws; a body read overruns the buffer only for a body of more than 32768 characters. |
| RequestFraming.HeadOfLines | gfolb/src/BufferedReader.cpp:211-251 | The header loop turns each header line into its hosted form in order and stops right after the delimiter. |
| RequestFraming.RequestIsFramed | gfolb/src/BufferedReader.cpp:205-272 | A well-formed request keeps every byte except that lines with "Host:" become the placeholder line; exactly the announced number of body bytes is taken; the socket is marked closed exactly when fewer are left. |
| RequestFraming.NeverThrows | gfolb/src/BufferedReader.cpp:236-248 | With a non-empty length header name no input makes the header loop throw. |
| RequestFraming.AnnouncedNumber | gfolb/src/BufferedReader.cpp:236-248 | For a line that contains the header name, with a printed n and any text t behind its first ": ": with t empty n / 10 is announced, with one character of any kind n, with more the number without the last character, or nothing new when that is no number; so n is announced exactly in the listed cases. |
| PlainRequests.BodyIsTaken | gfolb/src/BufferedReader.cpp:205-272 | Of a request whose last line with the length header, at any place, announces n, the hosted lines, the delimiter and the next n characters come out, or all that are left and the socket is marked closed; earlier headers and other lines make no difference. |
| PlainRequests.HeaderIsTaken | gfolb/src/BufferedReader.cpp:205-272 | In particular for the header itself with the number and a carriage return. |
| PlainRequests.NoHeaderNoBody | gfolb/src/BufferedReader.cpp:236-272 | Without a length header what follows the delimiter is left on the socket. |
| PlainRequests.DelimiterIsEqual | gfolb/src/BufferedReader.cpp:221-226 | Texts without NUL are the delimiter exactly when they are equal to it. |
| PlainRequests.LinesKeptIffPlain | gfolb/src/BufferedReader.cpp:211-251 | Lines come out one for one exactly when none has more than 1021 characters. |
| PlainRequests.UnfinishedRequest | gfolb/src/BufferedReader.cpp:211-235 | A request that ends before its delimiter comes out as far as it goes, without the last character of an unfinished line, and the socket is marked closed. |
| PlainRequests.EmptyNameThrows | gfolb/src/BufferedReader.cpp:236-248 | With an empty header name an empty first line throws. |
| RequestFraming.LongLineIsBroken | gfolb/src/BufferedReader.cpp:213-235 | A full read without a newline, wherever it stands and with or without "Host:", comes out as a line of its own whose last character is lost to the newline. |
| RequestFraming.LinesKeptIffShort | gfolb/src/BufferedReader.cpp:211-251 | The header lines come out one for one, hosted and otherwise unchanged, with exactly their characters taken, if and only if every line with its newline fits in one read (and none makes the reader throw). |
| ConnectionHandlers.IConnectionHandler.Service | gfolb/src/IConnectionHandler.cpp:94-120 | What is sent for a text or binary request for every outcome of `getConnection`; when client or server is not connected nothing is sent and the socket is marked closed; mode CH leads to a null pointer. |
| ConnectionHandlers.ClosedAround | gfolb/src/IConnectionHandler.cpp:113-116 | The keep-alive replacements never touch the placeholder line, bring no placeholder in front of it and take none away there. |
| ConnectionHandlers.ServiceNamesHost | gfolb/src/IConnectionHandler.cpp:111-118 | For a host without a placeholder in it: the placeholder line becomes the line naming the host, and elsewhere only the first keep-alive of each spelling changes, if and only if no placeholder comes before it; otherwise the one the client sent takes the name. |
| ConnectionHandlers.NestedHost | gfolb/src/IConnectionHandler.cpp:117-117 | A host with placeholders in it for which the text comes out as if named although a placeholder comes before the line. |
| ConnectionHandlers.RequestNamesHost | gfolb/src/IConnectionHandler.cpp:111-118 | From the socket to the server: the first Host line of every well-formed request names the chosen host. |
| ConnectionHandlers.RequestNamesEndpoint | gfolb/src/IConnectionHandler.cpp:94-118 | From the route table to the server: the first Host line sent is the address, and the port unless it is 80, of the endpoint that `getConnection` chose. |
| ConnectionHandlers.KeepAliveCloses | gfolb/src/IConnectionHandler.cpp:113-116 | A keep-alive line in any of the four spellings becomes "Connection: close". |
| ConnectionHandlers.NoKeepAliveStays | gfolb/src/IConnectionHandler.cpp:113-116 | A text without any of the four keeps every character. |
| ConnectionHandlers.NoHostNoPlaceholder | gfolb/src/IConnectionHandler.cpp:111-118 | Without a placeholder in the request the host is not inserted anywhere. |

## Left out

- SchedulerSafety.TaskConservation: assumes that the same task pointer is not submitted twice; `std::list::remove` would then take out both. The same holds for the other scheduler theorems.
- SchedulerSafety.AtMostOnce: says nothing about progress, because a signal sent before the worker waits is lost; that every task eventually runs is not a property of this code. Progress shows which steps lead there when nothing comes between.
- JoinGuarantee.JoinGuarantee: stated for the first call of `joinAll`; later calls return at once, because the flag stays set.
- ConnectionPools.ConnectionPool.GetConnection: with numretries below 1 the loop ends only at a reachable endpoint, so the method requires that one comes; concurrent calls, which read the counter outside the lock, are not modelled.
- ConnectionPools.ConnectionPool.Validate: says nothing about the pool after a delete with a negative index, which erases before the first element; that the mutex stays locked after an update with a negative index is not modelled.
- BufferedReaders.BufferedReader.SingleRequest: requires that body reads do not report errors for ever, on which the loop of the source does not end, and says nothing more once a read has overrun the buffer. The characters taken are those that leave the buffering BIO; what it has read ahead from the socket is thrown away with it after the request, so a following request on the same connection can lose its beginning.
- DateRoundTrips.ParseUndoesFormat: covers formats with each field at most once and non-empty symbols between fields, and dates without an offset; adjacent fields are not covered, and short years, nanoseconds and offsets only where DateTexts and ParseLimits say so.
- Submissions.WaitIsExact: computes elapsed time exactly, while the source goes through `double`, which rounds beyond 2^53 nanoseconds.
- Calendar.AddSecondsLinear: negative additions and dates before 1 March 1900 are outside the range the formulas support.
- StringUtil.SplitInternal: excludes an empty delimiter with a non-empty text, on which the loop of the source does not end; Split and SplitMany exclude exactly the inputs that lead to it.
- The loops `poll`, `submitInternal`, `PoolThread::run`, `joinAll` and the outer loop of `TaskPool::run` are steps of the step system, not methods with loops: they end, if at all, through what other threads do between their lock regions.
- SweepLoop.Sweep: covers a pool without priorities; the other threads' actions on the priority list are only in the step system.
- Shutdown: `runFlag`, `complete` and the destructors.
- Future tasks: their flag is set after they are queued, and how their result is delivered is not modelled.
- Sockets, `select` and its variants, fork, descriptor passing, SSL and certificates: outcomes of calls are parameters.
- Clocks and sleeping: in the step system whether a wait is over is an arbitrary verdict at every look, so its theorems hold for every clock; `Date()` takes the fields the clock gives.
- Integer widths: `int` and `long` are unbounded integers, except the time of a scheduled task, which is cut to 32 bits.
- Printing and reading of `float` offsets are parameters; so is the resolution of host names.
- The persistent half of the connection pool and the thread that respawns its connections: busy flags are read outside the lock and slot arithmetic assumes that every first connection succeeded.
- Mode "CH" returns no connection, as in the source, which does not implement it; what the null pointer does then is undefined.
- `trim`, `replaceLast`, case conversion and the hex helpers of `StringUtil`, and `CastUtil` for other types.
- The binary branch of the reader and its length helpers; the SSL branch of the text reader.
- Two-digit-year constructors, `addYears` and the conversions from hours, minutes and seconds of `Date`.
- Logger, property files, module loading and build scripts.

# Verified model of the datalogger daemon

A Dafny model of the parts of the daemon that decide what happens and when:
the heap of scheduled events, the scheduler and the pump that fires events, the
worker state machine of the main loop, the text formats of configuration and
events, the checksum of an echo request, and the statistics of the write test.
`dafny verify dfyconfig.toml` checks everything.

Code that changes things in place is modelled in place: the heap and the
event records as classes, buffers as arrays, a pointer into a buffer as a
position in it and a null pointer as -1, loops as loops. Each method is tied to
a function or predicate on values, and the lemmas are about those.

| file | part of the daemon |
|---|---|
| `Events.dfy`, `EventHeap.dfy` | event records and the binary min-heap of them (`eventheap.c`) |
| `LocalTime.dfy`, `Schedule.dfy` | trigger times, rescheduling, replacing the schedule (`event.c`) |
| `Pump.dfy`, `PumpRun.dfy`, `Reload.dfy` | one wake-up of the schedule timer, runs of them, and SIGHUP in between (`daemon.c`) |
| `MainLoop.dfy`, `Suspension.dfy` | signals, ticks, workers and timeouts; suspension by the schedule (`daemon.c`) |
| `CText.dfy`, `PointerLists.dfy` | C strings, trimming, null-terminated lists of strings |
| `KeyValText.dfy`, `KeyVal.dfy` | the "key = value, value" format and its buffers (`keyval.c`) |
| `ListText.dfy` | comma separated lists (`util.c`) |
| `EventText.dfy`, `TestSchedule.dfy`, `ScheduleText.dfy` | event texts, the test schedule, whole schedules (`event.c`) |
| `Checksum.dfy`, `Statistics.dfy`, `Timer.dfy` | `icmpecho.c`, the loop of `database.c`, the lap timer of `util.c` |

## What is assumed

- The clock is one non-decreasing stream of readings. `exit()` is an outcome.
- A time zone is a fixed offset with a fixed daylight saving shift, in effect
  or not. `Zone.Aligned` says that the calendar date and `mktime()` then use
  the same offset; `LocalTime.AlignedConfigurations` says for which settings it
  holds, and `LocalTime.DailyIsNextExactly` what happens for the others.
- `int`, `long` and `time_t` have 32 bits in the event parser; 16-bit loads are
  little-endian in the checksum. Elsewhere integers do not overflow.
- The pump is stated for every zone and every offset. While the clock moves on
  it always ends. With the clock standing still at one second for ever, an
  event that rescheduling leaves due again and again (`Pump.Stuck`: a zero
  interval, or a DAILY event under the condition of `Pump.StuckExactly`) is
  never done with (`Pump.Daemon.NeverDone`), and only another event that was
  too late ends the loop, by `exit()`. If that other event is due in the same
  second, which of the two comes first is a matter of the heap's order among
  equal triggers, which is left open.
- Allocation succeeds, and so do setting a timer and reading the descriptors.
  Setting a timer clears its expirations, and reading one waits for an
  expiration (timerfd without `TFD_NONBLOCK`, `daemon.c:600`, with all signals
  blocked, `daemon.c:945-956`); for the worker's timer, which is set within a
  wake-up, this is part of the model.
- Every event has the source INTERNAL or PARSED, as every one that is made
  (`event.c:646`, `event.c:716`, `event.c:992`).
- `strtol()`, `strcasecmp()` and `isspace()` are those of the C locale, and
  `strtol()` leaves `errno` alone unless the number is out of range. So do
  `mktime()`, `localtime_r()` and the error text buffer (`bsprintf()`), which
  the event parser calls in between.
- Signed arithmetic of the event parser that does not fit 32 bits wraps around;
  C leaves it undefined.

## Results that differ from the documentation

- A DAILY event may be scheduled for an instant that is not its next time of
  day, or not even in the future, when DST is applied (`apply_dst > 0`) while it
  is not in effect: `event.c:245-264` corrects the date for the opposite case
  only (`LocalTime.DailyIsNextExactly`). A DAILY event set for less than the
  shift after midnight is then put back on the trigger it has just had until
  midnight by standard time (`LocalTime.DailyRepeatsInWinter`): it fires again
  and again until the second has passed, and then `event.c:418-421` ends the
  daemon (`Pump.StuckInWinter`, `Pump.Daemon.NeverDoneInWinter`).
- A backslash at the very end of a configuration line drops the last value
  (`KeyValText.ParseIsIntendedExactly`).
- The schedule timer is set before the schedule is replaced
  (`daemon.c:531-547`, `daemon.c:621-623`, `Pump.Daemon.Initialize`): at start-up
  for the internal events alone, or not at all if there are none, and after a
  SIGHUP for the schedule as it was. Events that trigger before that wait for it.
- SIGHUP checks the list of events that the configuration in force names, not
  that of the configuration just read (`config.c:1360`, `daemon.c:734-737`).
  Here the list that is checked is an input.
- A RESUME may come at intervals (`EventText.IntervalResumeIsAccepted`), but it
  gets one POWERON a day as a daily one does (`event.c:985-1001`);
  `TestSchedule.WovenSwitchesOn` is about the daily ones.
- A number out of range in one event text makes every later text of the list
  fail, because `errno` is tested but not reset (`EventText.AcceptedExactly`, `EventText.GoodTextDiscarded`).
- An INTERVAL event of zero seconds is accepted (`EventText.ZeroIntervalIsAccepted`);
  it is stuck in the second of its trigger, and too late as soon as that has
  passed (`Pump.StuckExactly`).
- 1193047 hours are accepted as 1904 seconds (`EventText.WrapIsAccepted`).
- The comment at `event.c:530` and the one at `event.h:269` swap the two source
  values defined at `event.h:187-188`.
- If a worker is reaped in the wake-up in which its timeout is handled, its
  timer has just been disarmed, and unless a tick starts the next worker first
  the loop waits for ever (`MainLoop.HangsExactly`, `MainLoop.TimeoutCanHang`).

## Model

| member | source | states |
|---|---|---|
| EventHeap.Heap.Insert | eventheap.c:68-94 | keeps the heap order over the trigger fields of the event objects and adds exactly the given object, which was not in the heap; every slot holds a different object; the buffer is the same one or a larger new one |
| EventHeap.Heap.BubbleUp | eventheap.c:82-93 | restores the heap order when only the last slot may be out of order, moving objects but losing none |
| EventHeap.Heap.Heapify | eventheap.c:161-180 | restores the heap order below a slot whose children may be earlier than it, moving objects but losing none |
| EventHeap.Heap.Swap | eventheap.c:154-159 | exchanges two slots and nothing else |
| EventHeap.Heap.Peek | eventheap.c:96-101 | an event no later than any in the heap; null exactly for the empty heap |
| EventHeap.Heap.Fetch | eventheap.c:103-112 | removes exactly one event, no later than any that stays; order, objects and buffer are kept; null exactly for the empty heap |
| EventHeap.Heap.FetchTriggered | eventheap.c:114-121 | removes the earliest event if it is due; null exactly when none is due, and then nothing changes |
| EventHeap.Heap.Drain | eventheap.c:143-144 | repeated fetching yields every event exactly once, in the order of trigger times, and leaves the heap empty |
| EventHeap.Heap.Print | eventheap.c:126-148 | shows every event exactly once in the order of trigger times, and leaves size, buffer and every slot as before |
| EventHeap.Heap.Destroy | eventheap.c:50-59 | leaves a valid empty heap without a buffer |
| EventHeap.RootIsLeast | eventheap.c:96-101 | in any sequence of keys in heap order the root is least: the reason why peek and fetch are right |
| EventHeap.ExchangeUp | eventheap.c:86-90 | one bubble-up step keeps every order relation but the one of the moved key to its new parent |
| EventHeap.ExchangeDown | eventheap.c:165-178 | one sift-down step keeps every order relation but those of the moved key to its new children |
| LocalTime.DailyIsNextOccurrence | event.c:285-365 | in an aligned configuration the scheduled instant is the least one strictly after now whose local time of day is the offset modulo a day, so at most one day ahead |
| LocalTime.DailyOnTheWall | event.c:285-365 | with DST applied in its season, or left to the system: a DAILY event triggers within one day, when standard time plus the hour in force shows its offset |
| LocalTime.DailyOnTheStandardWall | event.c:259-263 | without DST applied: when standard time shows its offset, in the DST season too |
| LocalTime.DailyIsNextExactly | event.c:322-348 | for any two zone offsets less than a day apart: when exactly the scheduled instant is the next occurrence, and when exactly it is not even in the future |
| LocalTime.AlignedConfigurations | event.c:259-263 | for which DST settings date and `mktime()` use the same offset |
| LocalTime.WinterWithDstApplied | event.c:322-348 | a concrete winter instant with DST applied at which a DAILY event is scheduled for now, or for the past |
| LocalTime.DailyNotAheadExactly | event.c:322-348 | for any two zone offsets less than a day apart: the scheduled instant is this very second, or past, if and only if the date is a day behind and the time of day is the present one, or earlier |
| LocalTime.DailyRepeatsInWinter | event.c:322-348 | with DST applied outside its season, a DAILY event set for less than the shift after midnight is rescheduled for the trigger it had, at every reading from that trigger to midnight by standard time |
| LocalTime.IntervalTriggers | event.c:350-364 | no drift: the k-th trigger of an INTERVAL event is the first plus k intervals, whatever the latencies |
| LocalTime.IntervalSurvives | event.c:416-421 | rescheduling never ends the daemon exactly when no firing is checked later than its next trigger |
| LocalTime.DailyNoDriftExactly | event.c:322-348 | for any two zone offsets less than a day apart: the k-th trigger of a DAILY event is the first plus k days over a whole run if and only if each firing is late by just so much that it moves by one day |
| LocalTime.DailyNoDrift | event.c:322-348 | in an aligned configuration that is if and only if every firing is less than a day late |
| LocalTime.DailyStepExactly | event.c:322-348 | for any two zone offsets less than a day apart: one firing moves a DAILY trigger by exactly one day if and only if it is less than a day late; but one to two days late when the date is a day behind and its time has passed, and never when the date is a day ahead and its time has not |
| LocalTime.DailyStep | event.c:334-348 | in an aligned configuration one firing moves a DAILY trigger by exactly one day if and only if it is less than a day late, and never by less |
| LocalTime.NotDailyTrigger | event.c:350-364 | an event that is not DAILY first triggers its offset after the clock reading, and from then on its offset after its last trigger |
| Schedule.Scheduler.UpdateToday | event.c:245-264 | one clock reading, and the calendar date at the offset that the DST setting asks for |
| Schedule.Scheduler.ScheduleNextTrigger | event.c:285-365 | at one clock reading: an event that is not DAILY gets the reading plus its offset if it had no trigger, and its trigger plus its offset otherwise; a DAILY one gets the specified time of day, a negative offset becoming zero |
| Schedule.Scheduler.Reschedule | event.c:402-425 | an event outside the heap is put back with its new trigger, unless it is a ONCE event (refused, nothing changes) or already late (the daemon ends) |
| Schedule.Scheduler.Create | event.c:628-656 | a new internal event is added, DAILY for the codes 1 to 4, ONCE for 6 and INTERVAL for 5 and 7, the last two kinds triggering the given seconds after the clock reading; or the arguments are refused exactly when out of range; or the daemon ends because the trigger passed |
| Schedule.Scheduler.Clear | event.c:528-552 | for every mask of sources exactly the events whose source shares no bit with it stay, as objects in a valid heap; their triggers are outside the frame |
| Schedule.Scheduler.SaveKept | event.c:535-547 | draining copies exactly the events to keep to a list that never overruns its slots |
| Schedule.ClearKeepsByMask | event.c:530-552 | removing everything for the mask of both sources is keeping by mask; each single mask, 1 for internal and 2 for parsed events, keeps exactly the events of the other source |
| Schedule.Scheduler.CommitTestSchedule | event.c:497-523 | exactly the parsed events are added, none of them is freed, and the test schedule is empty |
| Schedule.Scheduler.TestClear | event.c:554-567 | frees exactly the events still in the test schedule |
| Schedule.Scheduler.ReplaceParsed | daemon.c:621-623 | afterwards the heap holds the old internal events and exactly the parsed ones |
| Pump.Daemon.PumpSchedule | daemon.c:1216-1258 | for any heap, any zone and any non-decreasing clock, unless that stands still for ever with a stuck event due and none due before it that is too late, the pump ends; each firing was that of an event with the least trigger at the time, and took exactly the next clock readings; the daemon exited if and only if the last firing failed its check against these readings, and no firing before it did; otherwise every event fired exactly as often as `Firings` says (a stuck one at least once), and was left with the trigger that its firings and their clock readings give; the suspension flag is that of the firings in this order; the heap holds the not-ONCE and not-due events plus one timeout per import, all in the future, and the timer is armed for the least of them; if all these readings show the same second, the daemon exited if and only if some event was too late at the start |
| Pump.Daemon.PumpDue | daemon.c:1224-1237 | the loop ends, although events are inserted meanwhile: the clock moves on, or the sets of events fired less than once, fired less than twice, due now, and due before now shrink in this order |
| Pump.Daemon.NeverDone | daemon.c:1224-1237 | the converse: with the clock standing still, a stuck event is in the heap and due after any number of firings |
| Pump.Daemon.NeverDoneInWinter | daemon.c:1224-1237 | with DST applied outside its season, a pump in which a DAILY event of the time after midnight is due is not done before midnight by standard time, however the clock moves: the event is due again after any number of firings |
| Pump.Daemon.FireBooked | daemon.c:1225-1236 | one firing keeps the books: who fired how often, which timeouts were created, which clock readings were taken, and what the heap holds; it ends the daemon if and only if it fails its check, which, if the clock has not moved since the pump began, is if and only if its event was too late at the start |
| Pump.Daemon.Fire | daemon.c:1227-1236 | one event is executed and put back unless ONCE, by the next clock readings; the daemon ends if and only if between two of them the clock moved by more than the import timeout, or past the new trigger |
| Pump.Daemon.Execute | event.c:431-468 | suspend and resume set the flag, an import adds one timeout event 60 seconds ahead, everything else leaves the schedule alone |
| Pump.Daemon.Arm | daemon.c:1240-1257 | the timer is set to a trigger that is in the heap and least, and to none exactly for an empty heap |
| Pump.Daemon.Initialize | daemon.c:531-623 | exactly the parsed events are replaced by the test schedule, but the timer is armed for the least trigger of the heap as it was, and for none if that was empty |
| Pump.AccountStep | event.c:402-425 | unless it is stuck, an INTERVAL event fires at most twice in one pump and a DAILY event at most once |
| Pump.AccountExit | event.c:416-421 | with the clock standing still rescheduling ends the daemon, at whichever firing, if and only if it would have done so at the first |
| Pump.AccountClosed | daemon.c:1224-1237 | once an event is not due any more the number of its firings is determined by its first trigger, its interval and the clock, unless it was stuck; and an INTERVAL event was not too late |
| Pump.StuckExactly | event.c:322-364 | for any two zone offsets less than a day apart: when exactly a due event is stuck, and when exactly it is too late, by its offset, the clock and the zone |
| Pump.StuckInWinter | event.c:416-421 | with DST applied outside its season, a DAILY event of the time after midnight is stuck in the second of its trigger, and ends the daemon in any later second before midnight by standard time |
| Pump.FiringsShrink | daemon.c:1224-1237 | each of an event's first two firings takes it out of one of two sets that bound the loop |
| Pump.FiringsEnd | daemon.c:1224-1237 | so does every firing that leaves a due event due later than before, with the sets of events due now and due before now |
| Pump.FiredCounts | daemon.c:1224-1229 | the number of events processed and the number of firings of each are those of the sequence of events fired |
| Pump.Daemon.AllClosed | daemon.c:1224-1237 | when nothing is due, balanced books give the outcome of the pump, and no INTERVAL event was too late |
| Pump.Daemon.SoundAfterPump | daemon.c:1224-1237 | a pump that starts without empty intervals leaves none |
| Pump.TimedNext | daemon.c:1224-1237 | a firing is recorded at the trigger its event had, which was the least, and with the next clock readings |
| Pump.TriggeredNext | event.c:402-425 | a firing moves the trigger of its event as specified, and no other |
| PumpRun.TriggerIsLast | daemon.c:1224-1237 | the trigger a pump leaves is the last of the triggers that `LocalTime` gives for the clock readings of that event's firings |
| PumpRun.SurvivesExactly | event.c:416-421 | no rescheduling of an event failed its check in a pump if and only if the run of its clock readings survives in the sense of `LocalTime` |
| PumpRun.RunTriggers | daemon.c:1216-1258 | over any run of pumps and SIGHUPs, an event that stays in the schedule is left with the last trigger of the run of all its clock readings, and that run survives and fires only when due |
| PumpRun.InternalLives | daemon.c:611-623 | an internal event that triggers more than once stays in the schedule over any run, and every such event does without a SIGHUP |
| PumpRun.TailLinked | daemon.c:1216-1258 | a run seen from any point on is a run with the same end |
| PumpRun.IntervalOverRun | daemon.c:1216-1258 | no drift over any run of pumps and SIGHUPs: the trigger of an INTERVAL event that stays is the first one plus its interval for each firing in the run, whatever the latencies; the k-th firing is not rescheduled before its trigger, and is checked no later than the next one |
| PumpRun.IntervalSinceEntry | event.c:350-364 | an INTERVAL event that was first scheduled by a clock reading and has fired n times in a run since triggers n + 1 intervals after that reading |
| PumpRun.DailyOverRun | daemon.c:1216-1258 | in an aligned configuration, no drift over any run of pumps and SIGHUPs: the trigger of a DAILY event that stays is at least the first one plus a day for each firing, and exactly that if and only if no firing was a day late |
| PumpRun.DailyOverRunExactly | daemon.c:1216-1258 | for any two zone offsets less than a day apart: a DAILY event keeps to its day over such a run if and only if each firing is late by just so much that it moves by one day |
| PumpRun.DailyIsNext | event.c:322-348 | a DAILY event that fired is left with its next time of day after a clock reading of that pump |
| Reload.Wakened | daemon.c:1216-1258 | a wake-up of the schedule timer carries a run on by one pump, or ends the daemon with a firing that fails its check |
| Reload.Configure | config.c:1357-1388 | from the configured list string to the heap: with a discarded text schedule and timer stay as they were; otherwise the heap holds the old internal events and exactly the accepted ones with their POWERON events, the test schedule is empty, and the timer is armed for the schedule as it was |
| Reload.HangUp | daemon.c:695-742 | SIGHUP carries a run on: the schedule stays as it is exactly if a text of the list is discarded; otherwise its internal events stay, and it holds every event of the list as its text asks for it, scheduled by a clock reading of its own, and besides only POWERON events, one for every DAILY RESUME |
| Reload.RunMany | daemon.c:1088-1258 | any sequence of wake-ups of the schedule timer and SIGHUPs is a run of just these steps, each SIGHUP installing its list or refusing it, from the heap as it was to the heap as it is, with the timer armed for the least trigger after a wake-up; or the daemon exited, and then the run is that of the steps before a wake-up whose pump ends with a firing that fails its check |
| Reload.EnteredInterval | event.c:350-364 | an INTERVAL event that a SIGHUP has entered from its text triggers, after n firings, n + 1 of the intervals written in the text after the clock reading by which it was entered |
| MainLoop.AlwaysConsistent | daemon.c:1129-1192 | after every run of ticks, signals, child exits, timeouts and failed forks: successes plus a recorded worker do not exceed starts, starts do not exceed ticks, the recorded worker is the only child, and its timer runs only for it |
| MainLoop.WorkersAccountedFor | daemon.c:777-853 | every worker ever started was reaped once or is the one recorded, every exit with code zero is counted as a success, and every tick is counted |
| MainLoop.RunsExactly | daemon.c:1101-1102 | SIGTERM, and no other signal or event, ends the loop |
| MainLoop.RunsUntilTerm | daemon.c:1088-1262 | in every run only the last wake-up may bring SIGTERM, and the loop goes on exactly if it does not |
| MainLoop.ExitsExactly | daemon.c:1179-1192 | the daemon exits if and only if `kill()` fails, or a pump that is reached ends it; the suspension flag is what a pump that is reached leaves; the worker's timer runs exactly for a worker neither reaped nor killed |
| MainLoop.ForksExactly | daemon.c:1135-1174 | a wake-up starts a worker if and only if a tick finds neither suspension, no worker is left after the signal, and fork() succeeds |
| MainLoop.CommandSuspends | daemon.c:747-772 | from SIGUSR1 until the next SIGUSR2 no worker is started, whatever else happens |
| MainLoop.ScheduleSuspends | daemon.c:275-290 | while no scheduled resume fires no worker is started |
| Suspension.SuspendedExactly | daemon.c:275-290 | the flag after a pump is set if and only if a SUSPEND fired without a RESUME after it, or it was set and no RESUME fired |
| Suspension.JournalSetsFlag | daemon.c:1224-1237 | so it is for the flag the pump leaves, by the events it fired |
| Suspension.SuspendedUntilResume | daemon.c:1136-1147 | while the flag is set no worker is started until a pump fires a RESUME, whatever else it fires |
| Suspension.SuspendSuspends | daemon.c:1136-1147 | from the pump that fires a SUSPEND, without a RESUME after it, until a pump fires a RESUME no worker is started |
| MainLoop.KillsLiveWorker | daemon.c:1179-1192 | kill() is only ever given the recorded worker, a child that has not been reaped |
| MainLoop.TimeoutKills | daemon.c:1179-1192 | the timeout kills the worker it was armed for if that is not reaped in the same wake-up; otherwise the worker that a tick has just started, when its own time is up, or none exactly if there is no such worker |
| MainLoop.HangsExactly | daemon.c:1179-1192 | the loop waits for ever if and only if a timeout is handled in the wake-up that reaps its worker, and no tick comes with it, or the daemon is suspended by then, or `fork()` fails |
| MainLoop.TimeoutCanHang | daemon.c:1179-1192 | a reachable run that ends so |
| MainLoop.Loop.Acknowledge | util.c:156-196 | reading the timer uses up its expiration, or waits for ever exactly if it is neither expired nor armed |
| MainLoop.Loop.HandleSigchld | daemon.c:777-852 | the state changes as the step machine says: which process was reaped and how it ended decide success, worker and timer |
| MainLoop.Loop.HandleSignal | daemon.c:1099-1123 | each signal changes the state as the step machine says |
| MainLoop.Loop.HandleTick | daemon.c:1129-1174 | a tick changes the state as the step machine says |
| MainLoop.Loop.HandleTimeout | daemon.c:1179-1192 | a timeout disarms the timer and aims at the recorded worker, if reading the timer returns |
| MainLoop.Loop.Round | daemon.c:1088-1258 | one round of branches, in their order, is one step of the machine |
| CText.TrimCopy | keyval.c:106-135 | copies exactly the trimmed text with its terminator and writes nowhere else; reads no further than the delimiter |
| CText.TrimIs | keyval.c:112-130 | the trimmed text is the only middle part without white space at its ends and with nothing but white space around it |
| CText.TrimTakesBlanks | keyval.c:112-130 | trimming takes blanks, tabs, line feeds, vertical tabs, form feeds and carriage returns off both ends, and no other characters |
| KeyVal.RemoveComments | keyval.c:45-92 | the text before the first unescaped number sign, escapes kept, in a buffer that always suffices |
| KeyVal.FindEquals | keyval.c:232-260 | the number of unescaped equals signs, and the place of the only one |
| KeyVal.CountDelimiters | keyval.c:278-297 | the number of unescaped list delimiters of the whole line |
| KeyVal.FewerDelimitersBehind | keyval.c:278-313 | the scan for values, started afresh behind the equals sign, meets no more delimiters than were counted over the whole line |
| KeyVal.Buffer.StoreValues | keyval.c:344-380 | stores exactly the trimmed values of the text behind the equals sign and the null pointer, within the counted slots and the bytes of the line |
| KeyVal.GetKeyVal | keyval.c:210-386 | refuses exactly the lines without exactly one unescaped equals sign; otherwise key and values, escapes kept, in a buffer of three slots more than delimiters and one byte more than characters |
| KeyVal.SanitizeString | keyval.c:154-182 | removes the escapes of one string in place and touches no other byte of the payload |
| KeyVal.Buffer.SanitizeValues | keyval.c:140-184 | removes the escapes of every string in place |
| KeyVal.RawIsParse | keyval.c:397-411 | splitting first and removing escapes last gives what the line means, for every line |
| KeyVal.Create | keyval.c:397-411 | for every line, or none: null exactly when the line is refused, otherwise exactly the key and values that the recursive definition gives |
| KeyValText.ParseIsIntendedExactly | keyval.c:344-377 | a line is read as its rules intend if and only if it does not end, outside a comment, in a dangling escape |
| KeyValText.DanglingLosesValue | keyval.c:350-377 | for every key and value, a backslash at the end of the line leaves the key alone |
| KeyValText.RoundTrip | keyval.c:4-23 | any key and any values, at least one, white space at the ends included, can be written with escapes so that parsing gives exactly them |
| KeyValText.CommentIgnored | keyval.c:45-92 | a number sign and any text behind a line change nothing in what is read |
| KeyValText.RoundTripCommented | keyval.c:4-23 | so what was written with escapes is read back with any comment behind |
| KeyValText.WrittenTrimmed | keyval.c:4-23 | for text without white space at its ends that is a backslash before each special character and nothing else |
| KeyValText.SplitJoin | keyval.c:350-377 | splitting undoes joining for pieces without unescaped delimiters or dangling escapes |
| KeyValText.PrintedRoundTripExactly | keyval.c:524-532 | printing a key and values and parsing the result gives them back if and only if there is a value, none has special characters or white space at its ends, and the key has no backslash, number sign, equals sign or such white space |
| KeyVal.ToKeyValString | keyval.c:524-532 | key, equals sign and joined values, also for a key alone, terminated within the allocated bytes |
| KeyVal.ToValueString | keyval.c:519-522 | the joined values; null exactly for null |
| KeyVal.Buffer.RemoveEmptyValues | keyval.c:538-560 | the key and, in order, exactly the values that are not empty |
| PointerLists.ToString | keyval.c:492-517 | the strings joined by commas in a zeroed buffer of their lengths plus one each and one |
| PointerLists.RemoveEmpty | util.c:402-415 | compacts the pointers in place to those of non-empty strings, in order, and ends the list behind them |
| PointerLists.OneRewritten | util.c:303-311 | rewriting one string within its bounds leaves all others, although neighbours may share a terminator |
| ListText.Str2Arr | util.c:251-316 | null exactly for null, otherwise the trimmed text between delimiters, in order |
| ListText.SplitInPlace | util.c:276-300 | the pass over the payload cuts at every delimiter and drops leading white space, within the counted slots |
| ListText.TrimTails | util.c:302-311 | drops trailing white space of every item in place |
| ListText.Arr2Str | util.c:318-344 | null exactly for null, otherwise the joined strings |
| ListText.ArrCollapse | util.c:395-417 | exactly the non-empty strings, in order |
| CText.NonEmptyKeeps | util.c:395-417 | strings that are not empty are kept wherever they stand, and empty ones are not |
| ListText.ItemsAt | util.c:249 | a comma and a semicolon end an item, and no other character does |
| ListText.ItemsArePlain | util.c:251-316 | whatever the text, every item is trimmed and free of delimiters |
| ListText.JoinRoundTripExactly | util.c:251-344 | joining and splitting is the identity on exactly the non-empty lists of trimmed items without delimiters |
| ListText.SplitNormalizes | util.c:251-344 | splitting, joining and splitting again changes nothing |
| EventText.ActionNamedExactly | event.c:117-126 | a name is found if and only if it differs from the action's name in letter case only, so the order of the table does not matter |
| EventText.ActionNamedInAnyCase | event.c:117-126 | a name is found if and only if it has the length of the action's name and each character is the capital letter of that name or the character 32 above it |
| EventText.NamesAre | event.c:78-89 | the names of the seven codes |
| EventText.StrtolOf | event.c:762-827 | a number read in front of other text is the number read alone, if no digit follows |
| EventText.StrtolMeans | event.c:762-827 | white space, a sign or none, and decimal digits are read, up to what is no digit; the value is kept in the range of 32 bits, and errno set exactly if it was not in it |
| EventText.StrtolNothing | event.c:762-827 | without a digit there, nothing is read |
| EventText.AcceptsExactly | event.c:732-907 | a text is accepted for an event if and only if it is prefix, hours, colon, minutes, white space and action name, each in range, with that meaning |
| EventText.TextIsRead | event.c:732-907 | nothing, an at sign or an exclamation mark, then decimal hours and minutes of one day with a colon between, white space or none, and a name in any case: read as that kind, that time and that action |
| EventText.OnlyTimesAccepted | event.c:762-869 | of texts with decimal numbers, signed or not, only those with hours from 0, up to 23 if DAILY, and minutes from 0 to 59 are accepted |
| EventText.OffsetWraps | event.c:813-869 | the offset is the time written up to a multiple of 4294967296, within 32 bits |
| EventText.PrintedParses | event.c:1067-1080 | the printed form of any event with an offset of at least zero is read back with kind and action and the offset cut to whole minutes of one day |
| EventText.NegativePrinted | event.c:1067-1080 | a negative offset is printed with the sign in front of hours and minutes |
| EventText.PrintRoundTripExactly | event.c:1067-1080 | it is read back exactly if and only if the offset is a whole minute of one day |
| EventText.OffsetIsExact | event.c:813-869 | the offset is the time written if and only if that fits 32 bits |
| EventText.WrapIsAccepted | event.c:813-907 | a text with too many hours that is accepted with another offset |
| EventText.ZeroIntervalIsAccepted | event.c:801-907 | a text with an interval of zero that is accepted |
| EventText.IntervalResumeIsAccepted | event.c:801-907 | a text for a RESUME at intervals that is accepted |
| EventText.NothingUncounted | event.c:713-932 | accepted plus discarded is the number of texts |
| EventText.ErrnoIsSticky | event.c:762-843 | errno stands after a list of texts if and only if one of them held a number out of range |
| EventText.HoursOutOfRange | event.c:762-772 | hours that do not fit 32 bits set errno, whatever follows them |
| EventText.MinutesOutOfRangeExactly | event.c:818-843 | behind hours in range errno is set if and only if the minutes do not fit 32 bits, whatever follows them |
| EventText.AcceptedExactly | event.c:713-932 | a text of a list is accepted if and only if it is well formed and no text before it held a number out of range |
| EventText.GoodTextDiscarded | event.c:762-772 | a text with a number out of range, and a well-formed text that is discarded for coming after it |
| EventText.DailyIsTimeOfDay | event.c:786-813 | the offset of an accepted DAILY event is a time of day |
| EventText.AcceptedInDay | event.c:713-932 | so it is for every event accepted from a list |
| EventText.NoneDiscarded | event.c:939-944 | if nothing is discarded, the i-th accepted event is that of the i-th text |
| TestSchedule.ParseEvents | event.c:703-932 | the list holds exactly the accepted events in the order of their texts, distinct new objects, each scheduled at its own clock reading, and never overruns its slots |
| TestSchedule.PowerOnLeadsToResumeExactly | event.c:993-995 | for a delay of 1 to 300 seconds the POWERON offset is a time of day from which the delay leads to the RESUME if and only if the RESUME's offset is a time of day |
| TestSchedule.CountResumes | event.c:968-975 | the number of RESUME events |
| TestSchedule.AddPowerOns | event.c:977-1008 | the new list is the old one with exactly one new POWERON directly ahead of each RESUME, distinct objects, within slots for events, RESUMEs and the null |
| TestSchedule.WovenLength | event.c:979-1005 | there is exactly one POWERON more for every RESUME |
| TestSchedule.PrecedingSwitchesOnExactly | event.c:985-1001 | the POWERON made for a RESUME is at a time of day from which the delay of 1 to 300 seconds leads to the RESUME every day, if and only if the RESUME is DAILY and at a time of day |
| TestSchedule.WovenSwitchesOn | event.c:985-1004 | directly ahead of every DAILY RESUME at a time of day, which every one accepted is, stands a POWERON that so switches on for it |
| TestSchedule.WovenOrigin | event.c:985-1004 | the list holds no other events than the parsed ones and the POWERON events made for a RESUME among them |
| TestSchedule.SortEvents | event.c:1023 | the same events, each once, in ascending order of their offsets |
| TestSchedule.TestParse | event.c:669-1027 | for any array: -1 exactly without a text that is not empty, otherwise the number of discarded texts; the accepted events become the test schedule, and only if none was discarded it is completed with one POWERON per RESUME, which switches on for every DAILY one, and sorted; it can then be committed |
| TestSchedule.Check | config.c:1357-1381 | from the configured list string to the test schedule: untouched exactly without a text that is not empty, otherwise made of new objects that can be committed, and without a discarded text of exactly the accepted events with their POWERON events |
| ScheduleText.ScheduleRoundTripExactly | event.c:1067-1080 | a non-empty schedule, printed, joined into one configuration string, split, collapsed and parsed, comes back unchanged if and only if every offset is a whole minute of one day |
| ScheduleText.EventStringIsItem | event.c:1067-1080 | every printed event is a trimmed list item, so it survives the list functions |
| Checksum.OnesSumIsReduce | icmpecho.c:30-42 | the one's complement sum of 16-bit words (RFC 1071 section 1) is determined by the ordinary sum modulo 65535 |
| Checksum.FoldIsReduce | icmpecho.c:39-41 | two foldings of any 32-bit sum reach the one's complement sum |
| Checksum.ComputedAsSpecified | icmpecho.c:30-42 | for at most 65537 words the 32-bit sum does not overflow and the checksum is that of RFC 1071 |
| Checksum.ComputedAsSpecifiedExactly | icmpecho.c:30-42 | for a buffer of any length: when exactly the overflowing sum still gives the checksum of RFC 1071 |
| Checksum.ExampleOfRfc1071 | icmpecho.c:30-42 | the numerical example of RFC 1071 section 3 |
| Checksum.OddIsPadded | icmpecho.c:37-38 | an odd last byte counts as if a zero byte were behind it |
| Checksum.StampedVerifies | icmpecho.c:23-42 | storing the checksum in a word that was zero makes the checksum of the whole buffer zero, wherever the word is |
| Checksum.Checksum | icmpecho.c:30-42 | the loop, with an odd last byte and 32-bit wrap-around, computes that checksum |
| Checksum.Prepare | icmpecho.c:120-130 | the packet is, byte by byte, the echo request of RFC 792 with sequence number 1 and its checksum, and verifies |
| Statistics.NextMeanIsMean | database.c:77-79 | the running update of the mean gives the mean of the longer sequence |
| Statistics.NextDeviations | database.c:78-80 | the running update gives the squared deviations of the longer sequence from its own mean |
| Statistics.DeviationsMove | database.c:78-80 | how squared deviations change with the point they are taken from |
| Statistics.VarianceOfPairs | database.c:81 | the sample variance, times n (n - 1), is the sum of the squared differences of all pairs of samples |
| Statistics.VarianceOfTwo | database.c:81 | for two samples it is half the square of their difference |
| Statistics.WelfordStep | database.c:73-81 | one round keeps mean, squared deviations, variance, minimum and maximum equal to their two-pass definitions |
| Statistics.TestWritePerf | database.c:44-89 | if at least one sample is asked for: gives up exactly if one of that many insertions fails, otherwise as many samples are taken as were asked for; count, mean, sample variance, minimum and maximum are those of the samples taken, with minimum, mean and maximum in order |
| Statistics.LeastAndGreatest | database.c:74-75 | minimum and maximum bound every sample, and are samples or the starting values |
| Timer.LapTimer.Lap | util.c:87-133 | both differences are normalized and exact to the nanosecond |
| Timer.LapsAddUp | util.c:103-124 | the laps add up to the total time, except after a lap that ended at the epoch |

## Left out

- System calls (`fork`, `waitpid`, `pselect`, timers, signals, sockets, `kill`): inputs of the step machine.
- `config.c` but for the list of events: re-reading the configuration and the flat option tests. In the step machine SIGHUP leaves the state as it is; `Reload.dfy` has what it does to the schedule. The interval timer in `daemon_initialize` is left out.
- Time zones with changing offsets, and changes between standard and daylight saving time.
- SQLite, the square root in the standard deviation, and floating-point rounding.
- Failure of `malloc`, `calloc`, `realloc` and of starting a timer, and freeing memory other than of the test schedule.
- `datalogger.c`, `capability.c`, `user.c`, `pidfile.c`, `tmpfs.c`, `ttyinput.c`, `logwrite.c`, `power.c`, `main.c`, `prostat.c`: processes, privileges, user interface and logging.
- Log texts, the error text buffer of the event parser, `errno` as a result, and hex dumps.
- The branches for the import process (`daemon.c:1197-1210`): nothing in the repository starts it or its timer.
- `keyval2array` (`keyval.c:478-486`): it has no caller and does not move the terminator.
- MainLoop.Loop.Acknowledge: one read that succeeds; the retries after an interruption and the other errors of `read()` (`util.c:177-193`) are not modelled.
- EventHeap.Heap.FetchTriggered: which of several events with the least trigger comes first is left open.
- Pump.Daemon.PumpSchedule: `Ends` excludes the clocks that stand still for ever with a stuck event due, because the loop need not end then; `Pump.Daemon.NeverDone` is what holds instead.
- Reload.HangUp: for a list without texts, which events are added is left open; `Reload.Configure` says that it is the test schedule of an earlier list that was refused, if any.
- Reload.RunMany: asks for a clock that moves on, so that this is excluded at every wake-up; or, without SIGHUPs, for an aligned zone without empty intervals.
- EventText.ParseEvent: one round of the parsing loop is a function on the text; its two pointers appear as the text that begins there.
- EventHeap.Heap.Grow: grows by a number of slots where the source adds bytes; only that the buffer gets larger is used.
- TestSchedule.SortEvents: the order of events with equal offsets is left open, as `qsort()` leaves it open; its body is an insertion sort in place of the library function.
- Statistics.TestWritePerf: the variance is stated instead of its square root; the count is unbounded, where the source's would overflow after 2147483647 samples, which only a requested number below one reaches.
- MainLoop.Loop.Round: what a schedule wake-up does is an input here; the pump itself is the subject of `Pump.dfy`.

# gcalcron2 in Dafny

A model of the core of gcalcron2, the tool that turns the events of a
dedicated Google calendar into `at` jobs and keeps those jobs in step
with the calendar. The model covers the path from an event to its jobs:

- the command grammar of an event description: macro lines, the
  `^(end)? ?([\+,-]\d+)?: (.*)` prefix, stripping and the past filter
  (`parse_commands`);
- the classification of calendar entries into cancellations and
  scheduled events, and the query windows of a sync cycle (`get_events`);
- the settings object `GCalCron2`, whose job records are updated in place
  by `unschedule_old_jobs`, `schedule_new_jobs`, `clean_settings`,
  `reset_settings` and `sync_gcal_to_cron`;
- the `at` time format of `datetime_to_at`.

Conventions:

- Times are integer minutes since 1 January 1970 on the local wall clock.
  A record's date is the day number `t / 1440`, and a real calendar
  (leap years included) is proved to be a bijection on day numbers, so
  the `at` time text is derived from a genuine date.
- The `at` facility is the class `At.AtDaemon`. Its reports to the coming
  submissions are a script fixed in advance, and every submission and
  cancellation it receives is logged in a ghost `calls` sequence.
- The calendar feed is a function from a query to a fetch result. The
  directory of macro files is a map from macro name to file contents; a
  name missing from the map is a file that cannot be opened.
- Every read of the clock is a parameter: `now` is the time taken before
  the fetch (it also serves the filter of `parse_commands`), and `later`
  is the time used by the scheduling filter and by the cleanup.

Modules: `Results` (Option and Result), `Text` (`strip`, `split`, digit
runs), `Clock` (day numbers, calendar dates, `datetime_to_at`), `Macros`,
`Grammar`, `Events`, `At`, `Jobs` (the specification functions of the
reconciliation) and `Reconciler` (the class `GCalCron2`, whose methods are
proved against the functions in `Jobs`).

Details of the code that are easy to misread, which the model follows as
written:

- Commands are kept by `parse_commands` when their time is `>=` now
  (gcalcron2.py:198), not strictly after it. The scheduling loop submits
  only times strictly after now (gcalcron2.py:293).
- `clean_settings` removes every record whose date is at most now minus
  one day (gcalcron2.py:263). With whole days that means yesterday's
  records are removed too, not kept for a day (`Jobs.Expired`).
- A report of `at` without `job N at` does not stop the loop. The record
  is filed under the previous job id, and if no id was read yet in the
  cycle the loop raises, ending the cycle before the settings are saved
  (gcalcron2.py:303-314). The outcome `SubmitCrashed` models this.
- An offset that moves a command's time outside the years 1 to 9999 makes
  the `timedelta` addition raise OverflowError (gcalcron2.py:193). The
  parser fails with `OutOfRange`, and the cycle stops like it does for a
  comma offset.
- After a sync more than one look-ahead old, the window of updates is
  empty and the second window starts at the end of the old look-ahead,
  before now (gcalcron2.py:108-110); the model keeps these windows as
  they are (`Events.WindowsStale`).

## Model

| member | source | states |
|---|---|---|
| Grammar.ParseCommands | gcalcron2.py:154-206 | the loop over the lines of the expanded description yields exactly the commands of the line-by-line specification `ParseCommandsSpec`, or its first error |
| Grammar.ParseLines | gcalcron2.py:183-206 | every command kept is stripped, non-empty and timed at or after now |
| Grammar.ParseLinesAppend | gcalcron2.py:183-206 | the commands of two consecutive groups of lines are those of the first group followed by those of the second: source line order is kept, and the first error wins |
| Grammar.OneLine | gcalcron2.py:183-206 | one line yields its command when its time is at or after now, nothing when it is blank or past, and an error when its offset is a comma or takes the time out of the years 1 to 9999 |
| Grammar.FailurePersists | gcalcron2.py:183-206 | once a line fails, the whole description fails with that line's error |
| Grammar.MatchPrefix | gcalcron2.py:188 | a prefix match is well formed (a sign among `+`, `,`, `-` followed by digits), and rendering it gives back the matched line |
| Grammar.OffsetMinutes | gcalcron2.py:193 | `int` of the offset group has no value exactly for a comma sign; otherwise it is the digits' value, negative only for `-` |
| Grammar.MatchRendered | gcalcron2.py:188 | every well-formed prefix is recognised by the matcher with exactly its parts: the matcher and the rendering are inverse |
| Grammar.SplitOffsetSound | gcalcron2.py:188 | the offset group takes a sign and the longest run of digits after it, and is absent exactly when the text does not open with a sign and a digit |
| Grammar.Timed | gcalcron2.py:196-204 | a line's text gives a command exactly when its strip is not empty, and the command is that strip, at the given time |
| Grammar.ParseLine | gcalcron2.py:184-196 | a command read from one line is stripped and non-empty |
| Grammar.Interpret | gcalcron2.py:188-196 | a command read from a matched or unmatched line is stripped and non-empty |
| Grammar.PrefixedLine | gcalcron2.py:188-196 | a line carrying a prefix is timed at the end time when it opens with `end` and at the start time otherwise, plus the offset, with the text after `": "` as its command; a comma sign is an error, and so is an offset that takes the time out of the years 1 to 9999 |
| Grammar.MatchedLine | gcalcron2.py:188-196 | whatever line the prefix matches is interpreted through its prefix |
| Grammar.InterpretPrefix | gcalcron2.py:189-196 | a matched prefix decides the anchor, the offset and the command text |
| Grammar.PlainLine | gcalcron2.py:184-196 | a line that no prefix renders to is timed at the start time, with the whole stripped line as its command |
| Grammar.UnprefixedLine | gcalcron2.py:184-196 | a line opening with anything but `end`, a space, a sign or a colon (so `echo ...` included) is a plain command at the start time |
| Grammar.PrefixedCommand | gcalcron2.py:188-196 | a well-formed prefix with a clean command text, no comma sign and a time within the years 1 to 9999 yields that text at anchor plus offset |
| Grammar.PlainCommand | gcalcron2.py:184-196 | a clean command text that does not open with `end`, a sign or a colon is scheduled at the start time |
| Grammar.PlusTenLine | gcalcron2.py:188-193 | `+10: c` runs `c` ten minutes after the start, when that time is within the years 1 to 9999 |
| Grammar.EndMinusTenLine | gcalcron2.py:188-193 | `end -10: c` runs `c` ten minutes before the end, when that time is within the years 1 to 9999 |
| Grammar.EndLine | gcalcron2.py:188-191 | `end: c` runs `c` at the end time |
| Grammar.OffsetOutOfRange | gcalcron2.py:193 | an offset that takes the time out of the years 1 to 9999 fails the line with `OutOfRange` |
| Grammar.HugeOffsetLine | gcalcron2.py:193 | `+99999999999: c` fails with `OutOfRange` from any start time a `datetime` can hold |
| Grammar.TwoCommands | gcalcron2.py:183-206 | two lines that each give a command at or after now give both, in order |
| Grammar.ThreeCommands | gcalcron2.py:183-206 | three lines that each give a command at or after now give all three, in order |
| Grammar.WakeUpExample | gcalcron2.py:159-160 | the first documented example: a plain line (not opening with `end`, a sign or a colon, as `echo ...` does not) and a `+10:` line give commands at the start time and ten minutes later |
| Grammar.WakeUpDoctest | gcalcron2.py:159-160 | the first example with its own text, `echo 'Wake up!'` then `+10: echo 'Wake up, you are 10 minutes late!'`, from 08:30 to 09:00 on 19 June 3011, gives both commands at 08:30 and 08:40 |
| Grammar.LightsExample | gcalcron2.py:162-163 | the second documented example: a plain line, an `end -10:` line and an `end:` line give commands at the start, ten minutes before the end and at the end |
| Grammar.LightsDoctest | gcalcron2.py:162-163 | the second example with its own text, from 18:30 to 23:00 on 19 June 3011, gives its three commands at 18:30, 22:50 and 23:00 |
| Grammar.LinesBody | gcalcron2.py:171-184 | a body of lines without newlines and without macro lines splits back into those same lines after macro expansion |
| Grammar.TwoLineBody | gcalcron2.py:171-184 | a two-line body without macros splits back into its two lines |
| Grammar.ThreeLineBody | gcalcron2.py:171-184 | a three-line body without macros splits back into its three lines |
| Grammar.LightsBody | gcalcron2.py:162 | the body of the second documented example splits into its three lines |
| Grammar.LineStep | gcalcron2.py:184-204 | one more line extends the result by its command when it is timed at or after now, leaves it when blank or past, and turns it into that line's error |
| Macros.ExpandMacros | gcalcron2.py:170-180 | the substitution loop over the original lines computes `Expanded`, the substitutions applied in line order |
| Macros.Substitute | gcalcron2.py:178 | the anchored `re.sub` replaces `macro: NAME` by the contents only at the very start of the body, keeping the rest, and otherwise leaves the body unchanged |
| Macros.Expanded | gcalcron2.py:171-180 | a body that does not open with `macro: ` reaches the grammar unchanged |
| Macros.MacroName | gcalcron2.py:172-174 | a line names a macro exactly when it opens with `macro: `, and the name is the rest of the line |
| Macros.ExpandedUnchanged | gcalcron2.py:171-180 | when no line names a macro whose file exists, the description reaches the grammar unchanged |
| Macros.NoMacrosUnchanged | gcalcron2.py:171-180 | substitutions asked for by lines that name no available macro change nothing |
| Macros.OnlyAtStart | gcalcron2.py:178 | a description that does not open with `macro: ` is never changed, whatever its later lines say: the substitution is anchored at the start of the whole description |
| Macros.FirstLineMacro | gcalcron2.py:171-180 | when only the first line names an available macro, the description becomes that macro's contents followed by the rest of the description after the macro line's text |
| Macros.ExpandAfterFirst | gcalcron2.py:171-180 | lines after the first that name no available macro leave the first line's substitution as it is |
| Text.Strip | gcalcron2.py:196 | neither end of a stripped string is white space |
| Text.StripInfix | gcalcron2.py:196 | `strip` keeps exactly the part of the string between leading and trailing white space |
| Text.StripFixed | gcalcron2.py:196 | a string is its own strip exactly when it is empty or has no white space at either end |
| Text.StripIdempotent | gcalcron2.py:196 | stripping twice is stripping once |
| Text.TrimLeftSound | gcalcron2.py:196 | the left trim removes exactly the leading white space |
| Text.TrimRightSound | gcalcron2.py:196 | the right trim removes exactly the trailing white space |
| Text.Split | gcalcron2.py:171 | `split("\n")` gives at least one part, no part holds a newline, and joining the parts with newlines gives the string back |
| Text.SplitJoin | gcalcron2.py:171 | splitting joined newline-free parts gives the parts back: split and join are inverse |
| Text.DigitRun | gcalcron2.py:188 | the run of digits counted from a position stays inside the string |
| Text.DigitRunSound | gcalcron2.py:188 | `\d+` takes the longest run of digits: all of it is digits and it stops at a non-digit or the end |
| Text.DigitRunStops | gcalcron2.py:188 | a run of n digits followed by a non-digit is counted as n |
| Events.Classify | gcalcron2.py:137-148 | an entry that is reported keeps its event id, and a scheduled report carries at least one command, each stripped, non-empty and not in the past |
| Events.ClassifyOutcomes | gcalcron2.py:137-148 | a cancelled entry gives exactly its id, whatever its body; an entry gives nothing exactly when it is not cancelled and its body is absent, empty or yields no command; a scheduled entry carries the parser's commands for its body, and a failure is the parser's error |
| Events.ClassifyAll | gcalcron2.py:131-148 | every reported event is well classified |
| Events.CancelledReported | gcalcron2.py:137-141 | a cancelled entry is always reported as a cancellation of its id, whatever its body |
| Events.ClassifyAllFails | gcalcron2.py:131-148 | the classification fails only with the error of one of its entries |
| Events.ClassifyAllSucceeds | gcalcron2.py:131-148 | when every entry classifies, the whole feed classifies |
| Events.UpdatesFromEntries | gcalcron2.py:131-148 | every reported event comes from an entry of the feed with the same id |
| Events.ClassifyAllAppend | gcalcron2.py:131-148 | the reports of two consecutive groups of entries are those of the first followed by those of the second, in feed order |
| Events.ClassifyFailurePersists | gcalcron2.py:131-148 | once an entry fails, the whole feed fails with that error |
| Events.ClassifyStep | gcalcron2.py:131-148 | one more entry appends its report, adds nothing when it is not reported, or fails |
| Events.ClassifyEntry | gcalcron2.py:133-148 | the branch on one entry computes `Classify` |
| Events.ClassifyEntries | gcalcron2.py:131-148 | the loop over the entries computes `ClassifyAll` |
| Events.FetchEntries | gcalcron2.py:117-127 | the loop over the queries gathers their entries in query order, or stops at the first failed query |
| Events.FetchFailurePersists | gcalcron2.py:117-127 | once a query fails, the whole fetch fails with that reason |
| Events.GetEvents | gcalcron2.py:105-152 | fetching the windows of the cycle and classifying their entries computes `GetEventsSpec`, aborting on a failed query or a malformed command |
| Events.QueryWindows | gcalcron2.py:105-113 | the windows follow each other without gap from now to the end of the look-ahead; on a first run there is one window, after a previous sync there are two, split at the end of the previous look-ahead, and only the first is limited to updates since that sync |
| Events.WindowsCover | gcalcron2.py:105-113 | every start time in the look-ahead falls in some window |
| Events.WindowsDisjoint | gcalcron2.py:105-113 | when the previous look-ahead ends inside the current one, the windows do not overlap and lie inside the look-ahead |
| Events.WindowsStale | gcalcron2.py:108-110 | when the previous sync is more than a look-ahead old, the window of updates is empty and the second window reaches back before now |
| At.JobIdAtSound | gcalcron2.py:303 | a match of `job (\d+) at` is the text `job `, a non-empty run of digits and ` at` |
| At.ParseJobId | gcalcron2.py:303-306 | a job id read from a report is a non-empty run of digits that the report shows as `job N at` |
| At.SearchNone | gcalcron2.py:303 | the search finds nothing exactly when no position from the start on matches |
| At.SearchFirst | gcalcron2.py:303 | the search returns the match at the first matching position |
| At.ParseJobIdLeftmost | gcalcron2.py:303-306 | the job id read from a report is the leftmost `job N at`, and there is none exactly when the report has no match |
| At.JobLineAt | gcalcron2.py:303 | `job `, a run of digits and ` at` at a position match with those digits as the id |
| At.JobLineRead | gcalcron2.py:303-306 | a report whose first `job` opens a job line yields that line's number, whatever follows |
| At.SkipHead | gcalcron2.py:303 | text without a `j` cannot hold a match |
| At.AtReportExample | gcalcron2.py:298-306 | the report of a real `at`, its shell warning followed by `job 7 at ...`, yields id `7` |
| At.AtDaemon.constructor | gcalcron2.py:298-299 | a fresh `at` facility has made no calls and will give the scripted reports |
| At.AtDaemon.Submit | gcalcron2.py:298-299 | a submission logs the time and the command, and returns the next scripted report |
| At.AtDaemon.Cancel | gcalcron2.py:268-270 | `at -d` logs the ids it removes and changes nothing else |
| Clock.Day | gcalcron2.py:312 | a time lies within its day |
| Clock.DateOfDay | gcalcron2.py:312 | every day number has a valid calendar date that maps back to it |
| Clock.DateOfDayOfDate | gcalcron2.py:312 | the date of a valid date's day number is that date: the calendar is a bijection |
| Clock.DayOfDateInjective | gcalcron2.py:312 | different valid dates have different day numbers |
| Clock.YearStartMonotone | gcalcron2.py:312 | later years start after earlier years end |
| Clock.MonthStartMonotone | gcalcron2.py:312 | within a year, later months start after earlier ones |
| Clock.LocateYear | gcalcron2.py:312 | every day is placed in the one year that contains it |
| Clock.LocateMonth | gcalcron2.py:312 | every day of a year is placed in the one month that contains it |
| Clock.ToDateTime | gcalcron2.py:354 | every time has a valid date and time of day that maps back to it |
| Clock.ToDateTimeOfMinutes | gcalcron2.py:354 | converting a valid date and time to minutes and back gives it back |
| Clock.FormatAt | gcalcron2.py:354 | the `%H:%M %h %d` text is always twelve characters long |
| Clock.ParseAt | gcalcron2.py:354 | whatever the reader accepts has hour, minute, month and day in range |
| Clock.ParseFormatAt | gcalcron2.py:354 | reading back the `at` text of valid fields gives the fields back |
| Clock.FormatParseAt | gcalcron2.py:354 | any text the reader accepts is the `at` text of what it reads: the format is a bijection |
| Clock.MonthNames | gcalcron2.py:354 | the three-letter month names and the month numbers are inverse |
| Clock.DatetimeToAt | gcalcron2.py:349-354 | the `at` time of a date and time reads back as its hour, minute, month and day |
| Clock.DatetimeToAtExample | gcalcron2.py:351-352 | noon on 18 June 2011 is `12:00 Jun 18` |
| Clock.AtTime | gcalcron2.py:298 | the `at` time text of a time reads back as its time of day and as a month and day that are its day in its year |
| Clock.YearStartClosed | gcalcron2.py:312 | the first day of a year is 365 days a year from 1970 plus one per leap year in between |
| Clock.DatetimeYears | gcalcron2.py:193 | 1 January of year 1 and of year 10000 are days -719162 and 2932897 |
| Clock.InRangeYears | gcalcron2.py:193 | a time is within the range a `datetime` holds exactly when its year is between 1 and 9999 |
| Jobs.Unscheduled | gcalcron2.py:276-281 | after unscheduling, no event's record survives and every other record is unchanged |
| Jobs.UnscheduledIds | gcalcron2.py:277-280 | the ids removed are the records' ids concatenated in event order |
| Jobs.RemovedIds | gcalcron2.py:277-284 | every id handed to `at -d` is an id of the record of one of the reported events |
| Jobs.DueCommandsMember | gcalcron2.py:292-294 | a command of an event is submitted exactly when its time is strictly after now |
| Jobs.DueJobsMember | gcalcron2.py:288-294 | the jobs submitted are exactly the commands timed after now of the events that carry commands; cancellations submit nothing |
| Jobs.DueCommandsAppend | gcalcron2.py:292-294 | the due commands of consecutive groups keep command order |
| Jobs.DueJobsAppend | gcalcron2.py:288-294 | the due jobs of consecutive groups of events keep event order |
| Jobs.DueCommandsStep | gcalcron2.py:292-294 | one more command adds it when it is due and nothing otherwise |
| Jobs.DueJobsStep | gcalcron2.py:288-292 | one more event adds its due commands when it carries commands and nothing otherwise |
| Jobs.DueCommands | gcalcron2.py:292-294 | every job due from an event carries that event's id and a time strictly after now |
| Jobs.DueJobs | gcalcron2.py:288-294 | every job due in a cycle is timed strictly after now |
| Jobs.SubmitStep | gcalcron2.py:298-314 | one submission sends the job and consumes one report; it raises exactly when the report has no job id and none was read before; otherwise the id in hand is the one just read, or else the previous one, and it is filed under the job's event as `Filed` does; a raise leaves the records as they were, and after a raise nothing more happens |
| Jobs.Filed | gcalcron2.py:308-314 | filing appends the id to the event's record, keeping its date, or creates a record dated with the command's day holding just that id; every other record is left as it was |
| Jobs.SubmitAllAppend | gcalcron2.py:288-314 | submitting two groups of jobs is submitting the first and then the second |
| Jobs.CrashStays | gcalcron2.py:303-314 | after the loop raises, nothing further happens |
| Jobs.CrashRest | gcalcron2.py:303-314 | the jobs after a crash change nothing |
| Jobs.CommandsCrash | gcalcron2.py:292-314 | a crash among an event's commands ends its loop |
| Jobs.EventsCrash | gcalcron2.py:288-314 | a crash in one event ends the loop over the events |
| Jobs.CommandStep | gcalcron2.py:292-314 | one more command is one more submission when it is due and nothing otherwise |
| Jobs.NeverCrashes | gcalcron2.py:303-314 | once a job id is in hand the loop never raises |
| Jobs.CrashIff | gcalcron2.py:303-314 | a cycle's submissions raise exactly when there is something to submit and the first report has no job id |
| Jobs.SubmittedJobs | gcalcron2.py:288-314 | without a crash every due job is submitted, in order |
| Jobs.SubmissionsLast | gcalcron2.py:298-299 | one more job is one more `at` call at its `at` time with its command |
| Jobs.SubmissionsAppend | gcalcron2.py:298-299 | the `at` calls of consecutive groups of jobs keep their order |
| Jobs.FiledStep | gcalcron2.py:305-314 | one submission files one id under its event, keeping the record's date and earlier ids and ending with the id in hand, or creates a record dated with the command's day; other records are untouched |
| Jobs.ScheduledRecord | gcalcron2.py:287-314 | after scheduling, an event's record has its earlier ids followed by one id per submitted command and keeps its date; a new record is dated with the day of the event's first submitted command |
| Jobs.Untouched | gcalcron2.py:287-314 | an event with no due command keeps its record as it was |
| Jobs.ReusedId | gcalcron2.py:303-314 | a report without a job id files the previous id again, under the new job's event |
| Jobs.DueFromEvents | gcalcron2.py:288-294 | every job due belongs to one of the cycle's events |
| Jobs.Expired | gcalcron2.py:263 | a record expires exactly when its date is before today's date, so yesterday's records expire |
| Jobs.Cleaned | gcalcron2.py:259-264 | cleaning keeps exactly the records dated today or later, unchanged |
| Jobs.ReportedRebuilt | gcalcron2.py:334-340 | after a cycle, an event it reports has a record exactly when it had a due command, holding one id per due command and dated with the first one's day |
| Jobs.UnreportedKept | gcalcron2.py:334-340 | after a cycle, an event it does not report keeps its record as it was |
| Jobs.CompletedCalls | gcalcron2.py:336-340 | the `at` calls of a cycle are one cancellation of the removed ids, if any, followed by one submission per due job in order |
| Jobs.SyncCycle | gcalcron2.py:328-346 | only a completed cycle sets the last sync to the time before the fetch and writes the settings file, which then holds no record dated before today; an aborted cycle leaves the records and `at` alone; a cycle only adds `at` calls |
| Reconciler.GCalCron2.constructor | gcalcron2.py:229-236 | the settings in memory are those of the settings file |
| Reconciler.GCalCron2.SaveSettings | gcalcron2.py:239-243 | the settings file now holds the settings in memory, which do not change |
| Reconciler.GCalCron2.CleanSettings | gcalcron2.py:259-264 | the loop over the records deletes the expired ones and leaves the rest |
| Reconciler.GCalCron2.ResetSettings | gcalcron2.py:266-273 | every record gets one `at -d` call with its ids, in some order of the records; then the records and the last sync are cleared and saved |
| Reconciler.GCalCron2.UnscheduleOldJobs | gcalcron2.py:276-284 | the records of the events are deleted, and their ids go to one `at -d` call, made only when there are some |
| Reconciler.GCalCron2.SubmitJob | gcalcron2.py:296-314 | one command is submitted to `at` at its `at` time and its id is filed, or the loop raises |
| Reconciler.GCalCron2.SubmitCommands | gcalcron2.py:292-314 | the loop over one event's commands submits its due commands, in order |
| Reconciler.GCalCron2.ScheduleNewJobs | gcalcron2.py:287-314 | the loop over the events submits exactly the due jobs, in order, and files their ids |
| Reconciler.GCalCron2.SyncGcalToCron | gcalcron2.py:328-346 | a cycle fetches the events, unschedules, schedules, cleans, sets the last sync to the time taken before the fetch and saves; a failed fetch or a raising submission leaves the settings file as it was |

## Left out

- The Google Calendar client, authentication and query building
  (`GCalAdapter.get_client`, `get_query`, `fetch_login_token`) are
  network and library calls. The fetch is a function from a query to its
  entries or a failure reason.
- The `exit()` after a failed query ends the program; the model returns
  the outcome `Aborted` and changes no state.
- `subprocess.Popen` runs `at` and `at -d`; the model replaces the process
  with `At.AtDaemon`, whose reports follow a fixed script. An exhausted
  script stands for an `at` that reports nothing.
- The settings are JSON on disk, loaded, dumped and `chmod`ed. The model
  keeps them as the field `saved`; the login token and calendar id are
  not modelled.
- `init_settings`, `init()`, the command-line dispatch and the directory
  creation are interactive plumbing and are not modelled.
- Time zones and `dateutil` parsing are not modelled: times are integer
  minutes of the local wall clock.
- `DEBUG` printing is not modelled.
- Reconciler.GCalCron2.SyncGcalToCron: `datetime.now()` is read once
  before the fetch and again for every command and in the cleanup; the
  model uses one `now` for the fetch and the parse filter, and one
  `later` for the scheduling filter and the cleanup.
- Macros.ExpandMacros: a macro name is matched literally. Regular
  expression characters in a macro name, and backslash escapes in a
  macro file's contents, are not interpreted as `re.sub` would.
- Events.GetEvents: what the feed returns for a query is given by the
  fetch function; that the calendar service only returns events whose
  start lies in the query window is not modelled.
- Reconciler.GCalCron2.ResetSettings: Python's dictionary order is not
  fixed, so the order of the `at -d` calls is a ghost output that the
  contract quantifies over.
- Reconciler.GCalCron2.SyncGcalToCron: the `UnboundLocalError` raised when
  the first report of a cycle has no job id is the outcome
  `SubmitCrashed`; the records updated before it stay in memory and the
  settings file is not written.
- Jobs.ScheduledRecord: states that a record keeps its earlier ids and
  gains one id per submitted command, not which ids those are; the ids
  themselves are fixed by the contract of the submission step
  `Jobs.SubmitStep`, and `Jobs.ReusedId` shows the reuse of a previous id.

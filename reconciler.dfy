/** `GCalCron2`: the settings it keeps in memory and on disk, and the
    steps of a sync cycle that bring the `at` queue in line with the
    calendar. Each step changes the settings in place; its contract ties
    the new state to the functions of module Jobs. */
module Reconciler {
  import opened Results
  import opened Clock
  import opened Grammar
  import opened Events
  import opened At
  import opened Jobs

  class GCalCron2 {
    /** `settings['jobs']`: the records by event id. */
    var jobs: map<string, JobRecord>
    /** `settings['last_sync']`. */
    var lastSync: Option<int>
    /** The contents of the settings file. */
    var saved: Settings

    /** `load_settings`: the settings in memory are those of the file. */
    constructor (file: Settings)
      ensures jobs == file.jobs && lastSync == file.lastSync && saved == file
    {
      jobs := file.jobs;
      lastSync := file.lastSync;
      saved := file;
    }

    /** `save_settings`: the file holds the settings in memory. */
    method SaveSettings()
      modifies this
      ensures saved == Settings(jobs, lastSync)
      ensures jobs == old(jobs) && lastSync == old(lastSync)
    {
      saved := Settings(jobs, lastSync);
    }

    /** `clean_settings`: drops every record whose day is at least one day
        before `now`. */
    method CleanSettings(now: int)
      modifies this
      ensures jobs == Cleaned(old(jobs), now)
      ensures lastSync == old(lastSync) && saved == old(saved)
    {
      var todo := jobs.Keys;
      while todo != {}
        invariant todo <= old(jobs).Keys
        invariant jobs == map u | u in old(jobs) && (u in todo || !Expired(old(jobs)[u], now)) :: old(jobs)[u]
        invariant lastSync == old(lastSync) && saved == old(saved)
        decreases |todo|
      {
        var uid :| uid in todo;
        if Expired(jobs[uid], now) {
          jobs := jobs - {uid};
        }
        todo := todo - {uid};
      }
    }

    /** `reset_settings`: one `at -d` per record with its ids, in the
        order the table is walked (which Python does not fix); then no
        records, no last sync, and the file says so. */
    method ResetSettings(at: AtDaemon) returns (ghost order: seq<string>)
      modifies this, at
      ensures |order| == |old(jobs).Keys| && forall u :: u in order <==> u in old(jobs)
      ensures at.calls == old(at.calls) + CancelEach(order, old(jobs)) && at.replies == old(at.replies)
      ensures jobs == map[] && lastSync == None && saved == Settings(map[], None)
    {
      order := [];
      var todo := jobs.Keys;
      while todo != {}
        invariant jobs == old(jobs) && todo <= jobs.Keys
        invariant forall u :: u in order ==> u in jobs && u !in todo
        invariant forall u :: u in jobs && u !in todo ==> u in order
        invariant |order| + |todo| == |jobs.Keys|
        invariant at.calls == old(at.calls) + CancelEach(order, jobs) && at.replies == old(at.replies)
        decreases |todo|
      {
        var uid :| uid in todo;
        at.Cancel(jobs[uid].ids);
        CancelEachLast(order, uid, jobs);
        order := order + [uid];
        todo := todo - {uid};
      }
      lastSync := None;
      jobs := map[];
      SaveSettings();
    }

    /** `unschedule_old_jobs`: drops the record of every event the calendar
        reported, then cancels all their ids with a single `at -d`, or makes
        no call when there were none. */
    method UnscheduleOldJobs(events: seq<EventUpdate>, at: AtDaemon)
      modifies this, at
      ensures jobs == Unscheduled(events, old(jobs)).0
      ensures at.calls == old(at.calls) + CancelCalls(Unscheduled(events, old(jobs)).1)
      ensures at.replies == old(at.replies)
      ensures lastSync == old(lastSync) && saved == old(saved)
    {
      var removed: seq<string> := [];
      for i := 0 to |events|
        invariant (jobs, removed) == Unscheduled(events[..i], old(jobs))
        invariant at.calls == old(at.calls) && at.replies == old(at.replies)
        invariant lastSync == old(lastSync) && saved == old(saved)
      {
        assert events[..i + 1][..i] == events[..i];
        var uid := events[i].uid;
        if uid in jobs {
          removed := removed + jobs[uid].ids;
          jobs := jobs - {uid};
        }
      }
      assert events[..|events|] == events;
      if |removed| > 0 {
        at.Cancel(removed);
      }
    }

    /** One command of `schedule_new_jobs`: `at` is asked to run it at its
        time, the job id is read from the reply (the previous id stands
        when there is none) and filed under its event. With no id at all,
        nothing is filed: the source crashes here. */
    method SubmitJob(job: Job, jobId: Option<string>, at: AtDaemon, ghost submitted: seq<Job>, ghost base: seq<AtCall>)
      returns (id: Option<string>)
      requires at.calls == base + Submissions(submitted)
      modifies this, at
      ensures Scheduling(jobs, id, at.replies, submitted + [job], id.None?)
              == SubmitStep(Scheduling(old(jobs), jobId, old(at.replies), submitted, false), job)
      ensures at.calls == base + Submissions(submitted + [job])
      ensures lastSync == old(lastSync) && saved == old(saved)
    {
      SubmissionsLast(base, submitted, job);
      var output := at.Submit(AtTime(job.command.time), job.command.text);
      var found := ParseJobId(output);
      id := if found.Some? then found else jobId;
      if id.None? {
        return;
      }
      var uid := job.uid;
      if uid in jobs {
        jobs := jobs[uid := JobRecord(jobs[uid].date, jobs[uid].ids + [id.value])];
      } else {
        jobs := jobs[uid := JobRecord(Day(job.command.time), [id.value])];
      }
    }

    /** The commands of one event in `schedule_new_jobs`, from the state
        `SubmitAll(start, done)`: those timed after `now` are submitted in
        turn, stopping at a crash. */
    method SubmitCommands(uid: string, commands: seq<Command>, now: int, jobId: Option<string>, at: AtDaemon,
                          ghost start: Scheduling, ghost done: seq<Job>, ghost submitted: seq<Job>, ghost base: seq<AtCall>)
      returns (id: Option<string>, crashed: bool, ghost sent: seq<Job>)
      requires Scheduling(jobs, jobId, at.replies, submitted, false) == SubmitAll(start, done)
      requires at.calls == base + Submissions(submitted)
      modifies this, at
      ensures Scheduling(jobs, id, at.replies, sent, crashed) == SubmitAll(start, done + DueCommands(uid, commands, now))
      ensures at.calls == base + Submissions(sent)
      ensures lastSync == old(lastSync) && saved == old(saved)
    {
      id, crashed, sent := jobId, false, submitted;
      assert done + DueCommands(uid, commands[..0], now) == done by {
        assert commands[..0] == [];
      }
      for k := 0 to |commands|
        invariant Scheduling(jobs, id, at.replies, sent, false) == SubmitAll(start, done + DueCommands(uid, commands[..k], now))
        invariant at.calls == base + Submissions(sent)
        invariant lastSync == old(lastSync) && saved == old(saved)
      {
        CommandStep(start, done, uid, commands, k, now);
        var command := commands[k];
        if command.time <= now {
          continue;
        }
        var job := Job(uid, command);
        id := SubmitJob(job, id, at, sent, base);
        sent := sent + [job];
        if id.None? {
          crashed := true;
          CommandsCrash(start, done, uid, commands, k + 1, now);
          return;
        }
      }
      assert commands[..|commands|] == commands;
    }

    /** `schedule_new_jobs`: every command of every event with commands
        that is timed after `now` goes to `at`, and the id read from the
        reply (or, failing that, the previous one) is filed under its
        event. The result says whether it crashed because no id had been
        read yet. */
    method ScheduleNewJobs(events: seq<EventUpdate>, at: AtDaemon, now: int) returns (crashed: bool)
      modifies this, at
      ensures var s := SubmitAll(Scheduling(old(jobs), None, old(at.replies), [], false), DueJobs(events, now));
              jobs == s.jobs && at.replies == s.replies && crashed == s.crashed
              && at.calls == old(at.calls) + Submissions(s.submitted)
      ensures lastSync == old(lastSync) && saved == old(saved)
    {
      ghost var start := Scheduling(jobs, None, at.replies, [], false);
      ghost var submitted: seq<Job> := [];
      var jobId: Option<string> := None;
      crashed := false;
      for i := 0 to |events|
        invariant !crashed
        invariant Scheduling(jobs, jobId, at.replies, submitted, false) == SubmitAll(start, DueJobs(events[..i], now))
        invariant at.calls == old(at.calls) + Submissions(submitted)
        invariant lastSync == old(lastSync) && saved == old(saved)
      {
        DueJobsStep(events, i, now);
        if events[i].Cancelled? {
          assert DueJobs(events[..i], now) + [] == DueJobs(events[..i], now);
          continue;
        }
        jobId, crashed, submitted :=
          SubmitCommands(events[i].uid, events[i].commands, now, jobId, at,
                         start, DueJobs(events[..i], now), submitted, old(at.calls));
        if crashed {
          EventsCrash(start, events, i, now);
          return;
        }
      }
      assert events[..|events|] == events;
    }

    /** `sync_gcal_to_cron`: fetch and classify the calendar's events at
        `now`; drop and cancel the reported events' jobs; submit their
        commands still to come; drop the records of past days; remember
        `now` as the last sync and save. A refused query or a bad offset
        stops the cycle before any job is touched; a crash while submitting
        leaves the file as it was. Submissions and cleaning read the clock
        at `later`. */
    method SyncGcalToCron(fetch: Query -> FetchResult, macros: map<string, string>, span: int,
                          now: int, later: int, at: AtDaemon) returns (outcome: SyncOutcome)
      modifies this, at
      ensures var c := SyncCycle(Settings(old(jobs), old(lastSync)), old(saved), old(at.replies), old(at.calls),
                                 fetch, macros, span, now, later);
              outcome == c.outcome && jobs == c.jobs && lastSync == c.lastSync && saved == c.saved
              && at.replies == c.replies && at.calls == c.calls
    {
      ghost var c := SyncCycle(Settings(jobs, lastSync), saved, at.replies, at.calls, fetch, macros, span, now, later);
      var events := GetEvents(fetch, macros, now, lastSync, span);
      if events.Err? {
        assert c == Cycle(Aborted(events.error), jobs, lastSync, saved, at.replies, at.calls);
        return Aborted(events.error);
      }
      UnscheduleOldJobs(events.value, at);
      var crashed := ScheduleNewJobs(events.value, at, later);
      ghost var s := Rescheduled(old(jobs), events.value, old(at.replies), later);
      CycleCallsSplit(old(at.calls), old(jobs), events.value, s);
      if crashed {
        assert c == Cycle(SubmitCrashed, jobs, lastSync, saved, at.replies, at.calls);
        return SubmitCrashed;
      }
      CleanSettings(later);
      lastSync := Some(now);
      SaveSettings();
      assert c == Cycle(Synced, jobs, lastSync, saved, at.replies, at.calls);
      return Synced;
    }
  }
}

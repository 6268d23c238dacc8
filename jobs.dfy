/** The job table of `GCalCron2` and what each step of a sync cycle makes
    of it, stated as functions of the table, the events and the `at`
    facility's replies. The class that performs these steps in place is in
    module Reconciler. */
module Jobs {
  import opened Results
  import opened Clock
  import opened Grammar
  import opened Events
  import opened At

  /** What the settings remember of one event: the day of the first
      command submitted for it and the ids of the `at` jobs queued for it. */
  datatype JobRecord = JobRecord(date: int, ids: seq<string>)

  /** The settings file: the records by event id and the time of the last
      sync, if any. */
  datatype Settings = Settings(jobs: map<string, JobRecord>, lastSync: Option<int>)

  /** The ids of a list of events. */
  function Uids(events: seq<EventUpdate>): set<string> {
    set k | 0 <= k < |events| :: events[k].uid
  }

  lemma UidsStep(events: seq<EventUpdate>)
    requires events != []
    ensures Uids(events) == Uids(events[..|events| - 1]) + {events[|events| - 1].uid}
  {
    var n := |events| - 1;
    forall u | u in Uids(events) ensures u in Uids(events[..n]) + {events[n].uid} {
      var k :| 0 <= k < |events| && events[k].uid == u;
      if k < n {
        assert events[..n][k] == events[k];
      }
    }
    forall u | u in Uids(events[..n]) ensures u in Uids(events) {
      var k :| 0 <= k < n && events[..n][k].uid == u;
      assert events[k] == events[..n][k];
    }
  }

  // ---------------------------------------------------------------------
  // unschedule_old_jobs

  /** The records left once every event's record is dropped, and the ids
      of the dropped records in the order they were dropped (see
      `UnscheduledIds`). No event's record survives, and every other record
      is left as it was. */
  function Unscheduled(events: seq<EventUpdate>, jobs: map<string, JobRecord>): (r: (map<string, JobRecord>, seq<string>))
    ensures forall u :: u in r.0 <==> u in jobs && u !in Uids(events)
    ensures forall u :: u in r.0 ==> r.0[u] == jobs[u]
    decreases |events|
  {
    if events == [] then (jobs, [])
    else
      var (left, removed) := Unscheduled(events[..|events| - 1], jobs);
      var uid := events[|events| - 1].uid;
      UidsStep(events);
      if uid in left then (left - {uid}, removed + left[uid].ids) else (left, removed)
  }

  /** The `at -d` calls for a list of removed ids: one, unless there are
      none. */
  function CancelCalls(ids: seq<string>): seq<AtCall> {
    if ids == [] then [] else [Removed(ids)]
  }

  /** The ids of the records of the events' ids, each record once, in the
      order of the first event naming it. */
  function RemovedIds(events: seq<EventUpdate>, jobs: map<string, JobRecord>): (r: seq<string>)
    ensures forall x :: x in r ==> exists u :: u in jobs && u in Uids(events) && x in jobs[u].ids
    decreases |events|
  {
    if events == [] then []
    else
      var init := events[..|events| - 1];
      var uid := events[|events| - 1].uid;
      UidsStep(events);
      if uid in jobs && uid !in Uids(init) then RemovedIds(init, jobs) + jobs[uid].ids
      else RemovedIds(init, jobs)
  }

  /** The ids handed to `at -d` are exactly those of the original records of
      the events, each record once, in event order. */
  lemma {:induction false} UnscheduledIds(events: seq<EventUpdate>, jobs: map<string, JobRecord>)
    ensures Unscheduled(events, jobs).1 == RemovedIds(events, jobs)
    decreases |events|
  {
    if events != [] {
      var init := events[..|events| - 1];
      UnscheduledIds(init, jobs);
    }
  }

  /** The `at -d` calls of `reset_settings`: one per record, with its ids,
      in the given order of event ids. */
  function CancelEach(order: seq<string>, jobs: map<string, JobRecord>): seq<AtCall>
    requires forall k :: 0 <= k < |order| ==> order[k] in jobs
    decreases |order|
  {
    if order == [] then []
    else CancelEach(order[..|order| - 1], jobs) + [Removed(jobs[order[|order| - 1]].ids)]
  }

  lemma CancelEachLast(order: seq<string>, uid: string, jobs: map<string, JobRecord>)
    requires forall k :: 0 <= k < |order| ==> order[k] in jobs
    requires uid in jobs
    ensures CancelEach(order + [uid], jobs) == CancelEach(order, jobs) + [Removed(jobs[uid].ids)]
  {
    assert (order + [uid])[..|order|] == order;
  }

  // ---------------------------------------------------------------------
  // schedule_new_jobs

  /** A command to hand to `at`, with the id of its event. */
  datatype Job = Job(uid: string, command: Command)

  /** The commands of one event that are still to come, in order. */
  function DueCommands(uid: string, commands: seq<Command>, now: int): (r: seq<Job>)
    ensures forall k :: 0 <= k < |r| ==> r[k].uid == uid && r[k].command.time > now
    decreases |commands|
  {
    if commands == [] then []
    else
      var c := commands[|commands| - 1];
      DueCommands(uid, commands[..|commands| - 1], now) + (if c.time > now then [Job(uid, c)] else [])
  }

  /** The commands still to come of the events that have commands, in
      event order and, within an event, in command order. */
  function DueJobs(events: seq<EventUpdate>, now: int): (r: seq<Job>)
    ensures forall k :: 0 <= k < |r| ==> r[k].command.time > now
    decreases |events|
  {
    if events == [] then []
    else
      var e := events[|events| - 1];
      DueJobs(events[..|events| - 1], now) + (if e.Scheduled? then DueCommands(e.uid, e.commands, now) else [])
  }

  /** A job is due exactly when it is a command of its event timed strictly
      after `now`. */
  lemma {:induction false} DueCommandsMember(uid: string, commands: seq<Command>, now: int, j: Job)
    ensures j in DueCommands(uid, commands, now) <==> j.uid == uid && j.command in commands && j.command.time > now
    decreases |commands|
  {
    if commands != [] {
      var n := |commands| - 1;
      DueCommandsMember(uid, commands[..n], now, j);
      assert commands == commands[..n] + [commands[n]];
    }
  }

  /** Event `e` has commands, and `j` is one of them. */
  predicate Carries(e: EventUpdate, j: Job) {
    e.Scheduled? && e.uid == j.uid && j.command in e.commands
  }

  /** The jobs due are the commands, timed strictly after `now`, of the
      events that carry commands; cancellations contribute nothing. */
  lemma {:induction false} DueJobsMember(events: seq<EventUpdate>, now: int, j: Job)
    ensures j in DueJobs(events, now) <==>
              j.command.time > now && exists k :: 0 <= k < |events| && Carries(events[k], j)
    decreases |events|
  {
    if events != [] {
      var n := |events| - 1;
      var e := events[n];
      var init := events[..n];
      DueJobsMember(init, now, j);
      assert DueJobs(events, now) == DueJobs(init, now) + (if e.Scheduled? then DueCommands(e.uid, e.commands, now) else []);
      if e.Scheduled? {
        DueCommandsMember(e.uid, e.commands, now, j);
      }
      assert forall k :: 0 <= k < n ==> init[k] == events[k];
      assert (exists k :: 0 <= k < |events| && Carries(events[k], j))
             <==> (exists k :: 0 <= k < n && Carries(init[k], j)) || Carries(e, j);
    }
  }

  lemma DueCommandsStep(uid: string, commands: seq<Command>, k: nat, now: int)
    requires k < |commands|
    ensures DueCommands(uid, commands[..k + 1], now)
            == DueCommands(uid, commands[..k], now) + (if commands[k].time > now then [Job(uid, commands[k])] else [])
  {
    assert commands[..k + 1][..k] == commands[..k];
  }

  lemma DueJobsStep(events: seq<EventUpdate>, i: nat, now: int)
    requires i < |events|
    ensures DueJobs(events[..i + 1], now)
            == DueJobs(events[..i], now) + (if events[i].Scheduled? then DueCommands(events[i].uid, events[i].commands, now) else [])
  {
    assert events[..i + 1][..i] == events[..i];
  }

  lemma {:induction false} DueCommandsAppend(uid: string, a: seq<Command>, b: seq<Command>, now: int)
    ensures DueCommands(uid, a + b, now) == DueCommands(uid, a, now) + DueCommands(uid, b, now)
    decreases |b|
  {
    if b == [] {
      assert a + b == a;
    } else {
      var n := |b| - 1;
      assert (a + b)[..|a + b| - 1] == a + b[..n] && (a + b)[|a + b| - 1] == b[n];
      DueCommandsAppend(uid, a, b[..n], now);
      var tail := if b[n].time > now then [Job(uid, b[n])] else [];
      assert DueCommands(uid, a + b, now) == DueCommands(uid, a + b[..n], now) + tail;
      assert DueCommands(uid, b, now) == DueCommands(uid, b[..n], now) + tail;
    }
  }

  /** The jobs of two runs of events are those of the first run followed
      by those of the second: submission follows event order. */
  lemma {:induction false} DueJobsAppend(a: seq<EventUpdate>, b: seq<EventUpdate>, now: int)
    ensures DueJobs(a + b, now) == DueJobs(a, now) + DueJobs(b, now)
    decreases |b|
  {
    if b == [] {
      assert a + b == a;
    } else {
      var n := |b| - 1;
      var e := b[n];
      assert (a + b)[..|a + b| - 1] == a + b[..n] && (a + b)[|a + b| - 1] == e;
      DueJobsAppend(a, b[..n], now);
      var tail := if e.Scheduled? then DueCommands(e.uid, e.commands, now) else [];
      assert DueJobs(a + b, now) == DueJobs(a + b[..n], now) + tail;
      assert DueJobs(b, now) == DueJobs(b[..n], now) + tail;
    }
  }

  /** Where the bookkeeping stands during `schedule_new_jobs`: the table,
      the last job id read (`job_id`), what `at` will still reply, the
      jobs submitted so far, and whether the cycle crashed. */
  datatype Scheduling = Scheduling(jobs: map<string, JobRecord>, jobId: Option<string>, replies: seq<string>, submitted: seq<Job>, crashed: bool)

  /** Files job `id` under event `uid`: appended to its record, or a new
      record dated with the day of the command; every other record is left
      as it was. */
  function Filed(jobs: map<string, JobRecord>, uid: string, time: int, id: string): (r: map<string, JobRecord>)
    ensures uid in r && r[uid].ids == (if uid in jobs then jobs[uid].ids else []) + [id]
    ensures r[uid].date == if uid in jobs then jobs[uid].date else Day(time)
    ensures forall u :: u != uid ==> (u in r <==> u in jobs) && (u in r ==> r[u] == jobs[u])
  {
    if uid in jobs then jobs[uid := JobRecord(jobs[uid].date, jobs[uid].ids + [id])]
    else jobs[uid := JobRecord(Day(time), [id])]
  }

  /** One submission. The command goes to `at` at its time; the id read
      from the reply replaces `job_id` when there is one, and otherwise the
      previous id is filed again; with no id read yet, the cycle crashes.
      A crashed cycle submits nothing more. */
  function SubmitStep(s: Scheduling, j: Job): (r: Scheduling)
    ensures s.crashed ==> r == s
    ensures !s.crashed ==> (r.crashed <==> ParseJobId(NextReply(s.replies)).None? && s.jobId.None?)
    ensures !r.crashed ==> r.jobId.Some?
    ensures !s.crashed && !r.crashed ==>
              r.jobId == (if ParseJobId(NextReply(s.replies)).Some? then ParseJobId(NextReply(s.replies)) else s.jobId)
    ensures !s.crashed && !r.crashed ==>
              r.jobs == Filed(s.jobs, j.uid, j.command.time, r.jobId.value)
    ensures !s.crashed && r.crashed ==> r.jobs == s.jobs
    ensures !s.crashed ==> r.submitted == s.submitted + [j] && r.replies == LaterReplies(s.replies)
  {
    if s.crashed then s
    else
      var found := ParseJobId(NextReply(s.replies));
      var id := if found.Some? then found else s.jobId;
      var after := s.(replies := LaterReplies(s.replies), submitted := s.submitted + [j]);
      if id.None? then after.(crashed := true)
      else after.(jobs := Filed(s.jobs, j.uid, j.command.time, id.value), jobId := id)
  }

  /** The submissions of a list of jobs, in order. */
  function SubmitAll(s: Scheduling, jobs: seq<Job>): Scheduling
    decreases |jobs|
  {
    if jobs == [] then s else SubmitStep(SubmitAll(s, jobs[..|jobs| - 1]), jobs[|jobs| - 1])
  }

  /** The `at` calls that submit a list of jobs: each command at its time
      in `at`'s format. */
  function Submissions(jobs: seq<Job>): seq<AtCall>
    decreases |jobs|
  {
    if jobs == [] then []
    else
      var j := jobs[|jobs| - 1];
      Submissions(jobs[..|jobs| - 1]) + [Queued(AtTime(j.command.time), j.command.text)]
  }

  /** Submitting two lists one after the other is submitting their
      concatenation. */
  lemma {:induction false} SubmitAllAppend(s: Scheduling, a: seq<Job>, b: seq<Job>)
    ensures SubmitAll(s, a + b) == SubmitAll(SubmitAll(s, a), b)
    decreases |b|
  {
    if b == [] {
      assert a + b == a;
    } else {
      var n := |b| - 1;
      assert (a + b)[..|a + b| - 1] == a + b[..n];
      assert (a + b)[|a + b| - 1] == b[n];
      SubmitAllAppend(s, a, b[..n]);
    }
  }

  /** After a crash nothing more happens. */
  lemma {:induction false} CrashStays(s: Scheduling, jobs: seq<Job>)
    requires s.crashed
    ensures SubmitAll(s, jobs) == s
    decreases |jobs|
  {
    if jobs != [] {
      CrashStays(s, jobs[..|jobs| - 1]);
    }
  }

  /** Once an id has been read, no later submission can crash. */
  lemma {:induction false} NeverCrashes(s: Scheduling, jobs: seq<Job>)
    requires !s.crashed && s.jobId.Some?
    ensures !SubmitAll(s, jobs).crashed && SubmitAll(s, jobs).jobId.Some?
    decreases |jobs|
  {
    if jobs != [] {
      NeverCrashes(s, jobs[..|jobs| - 1]);
    }
  }

  lemma SingleSubmit(s: Scheduling, j: Job)
    ensures SubmitAll(s, [j]) == SubmitStep(s, j)
  {
    assert [j][..0] == [];
  }

  /** Submitting one more job is one more step. */
  lemma SubmitLast(s: Scheduling, jobs: seq<Job>, j: Job)
    ensures SubmitAll(s, jobs + [j]) == SubmitStep(SubmitAll(s, jobs), j)
  {
    assert (jobs + [j])[..|jobs|] == jobs;
  }

  /** After a crash, the jobs still due change nothing. */
  lemma CrashRest(s: Scheduling, done: seq<Job>, rest: seq<Job>)
    requires SubmitAll(s, done).crashed
    ensures SubmitAll(s, done + rest) == SubmitAll(s, done)
  {
    SubmitAllAppend(s, done, rest);
    CrashStays(SubmitAll(s, done), rest);
  }

  /** Command `k` of an event, reached from the state `SubmitAll(s, done)`
      plus the event's earlier commands, is submitted when it is due and
      skipped otherwise. */
  lemma CommandStep(s: Scheduling, done: seq<Job>, uid: string, commands: seq<Command>, k: nat, now: int)
    requires k < |commands|
    ensures var before := SubmitAll(s, done + DueCommands(uid, commands[..k], now));
            SubmitAll(s, done + DueCommands(uid, commands[..k + 1], now))
            == if commands[k].time > now then SubmitStep(before, Job(uid, commands[k])) else before
  {
    var sofar := done + DueCommands(uid, commands[..k], now);
    DueCommandsStep(uid, commands, k, now);
    if commands[k].time > now {
      SubmitLast(s, sofar, Job(uid, commands[k]));
      assert done + DueCommands(uid, commands[..k + 1], now) == sofar + [Job(uid, commands[k])];
    } else {
      assert DueCommands(uid, commands[..k + 1], now) == DueCommands(uid, commands[..k], now);
    }
  }

  /** A crash at command `k` of an event leaves the event's later commands
      unsubmitted. */
  lemma CommandsCrash(s: Scheduling, done: seq<Job>, uid: string, commands: seq<Command>, k: nat, now: int)
    requires k <= |commands| && SubmitAll(s, done + DueCommands(uid, commands[..k], now)).crashed
    ensures SubmitAll(s, done + DueCommands(uid, commands, now)) == SubmitAll(s, done + DueCommands(uid, commands[..k], now))
  {
    var first := DueCommands(uid, commands[..k], now);
    var later := DueCommands(uid, commands[k..], now);
    assert commands[..k] + commands[k..] == commands;
    DueCommandsAppend(uid, commands[..k], commands[k..], now);
    assert DueCommands(uid, commands, now) == first + later;
    assert done + (first + later) == (done + first) + later;
    CrashRest(s, done + first, later);
  }

  /** A crash while submitting the commands of event `i` leaves the later
      events unsubmitted. */
  lemma EventsCrash(s: Scheduling, events: seq<EventUpdate>, i: nat, now: int)
    requires i < |events| && SubmitAll(s, DueJobs(events[..i + 1], now)).crashed
    ensures SubmitAll(s, DueJobs(events, now)) == SubmitAll(s, DueJobs(events[..i + 1], now))
  {
    assert events[..i + 1] + events[i + 1..] == events;
    DueJobsAppend(events[..i + 1], events[i + 1..], now);
    CrashRest(s, DueJobs(events[..i + 1], now), DueJobs(events[i + 1..], now));
  }

  /** A cycle of submissions crashes exactly when it submits something and
      `at`'s first reply names no job: the id is only ever missing before
      the first one is read. */
  lemma CrashIff(s: Scheduling, jobs: seq<Job>)
    requires !s.crashed && s.jobId.None?
    ensures SubmitAll(s, jobs).crashed <==> jobs != [] && ParseJobId(NextReply(s.replies)).None?
  {
    if jobs != [] {
      var first := SubmitAll(s, jobs[..1]);
      assert jobs[..1] == [jobs[0]];
      SingleSubmit(s, jobs[0]);
      assert jobs[..1] + jobs[1..] == jobs;
      SubmitAllAppend(s, jobs[..1], jobs[1..]);
      if first.crashed {
        CrashStays(first, jobs[1..]);
      } else {
        NeverCrashes(first, jobs[1..]);
      }
    }
  }

  /** Without a crash, every job was submitted, in order. */
  lemma {:induction false} SubmittedJobs(s: Scheduling, jobs: seq<Job>)
    requires !SubmitAll(s, jobs).crashed
    ensures SubmitAll(s, jobs).submitted == s.submitted + jobs
    decreases |jobs|
  {
    if jobs != [] {
      var init := jobs[..|jobs| - 1];
      SubmittedJobs(s, init);
      assert init + [jobs[|jobs| - 1]] == jobs;
    }
  }

  /** Submitting one more job makes one more call to `at`. */
  lemma SubmissionsLast(calls: seq<AtCall>, jobs: seq<Job>, j: Job)
    ensures calls + Submissions(jobs + [j]) == (calls + Submissions(jobs)) + [Queued(AtTime(j.command.time), j.command.text)]
  {
    assert (jobs + [j])[..|jobs|] == jobs;
  }

  /** The calls of consecutive submissions are those of each in turn. */
  lemma {:induction false} SubmissionsAppend(a: seq<Job>, b: seq<Job>)
    ensures Submissions(a + b) == Submissions(a) + Submissions(b)
    decreases |b|
  {
    if b == [] {
      assert a + b == a;
    } else {
      var n := |b| - 1;
      var init := b[..n];
      assert a + b == (a + init) + [b[n]] && b == init + [b[n]];
      SubmissionsAppend(a, init);
      SubmissionsLast([], a + init, b[n]);
      SubmissionsLast(Submissions(a), init, b[n]);
    }
  }

  /** How many of the jobs belong to event `uid`. */
  function Count(jobs: seq<Job>, uid: string): nat
    decreases |jobs|
  {
    if jobs == [] then 0
    else Count(jobs[..|jobs| - 1], uid) + (if jobs[|jobs| - 1].uid == uid then 1 else 0)
  }

  /** The time of the first of the jobs that belongs to event `uid`. */
  function FirstTime(jobs: seq<Job>, uid: string): int
    requires Count(jobs, uid) > 0
    decreases |jobs|
  {
    var init := jobs[..|jobs| - 1];
    if Count(init, uid) > 0 then FirstTime(init, uid) else jobs[|jobs| - 1].command.time
  }

  predicate IsPrefix(a: seq<string>, b: seq<string>) {
    |a| <= |b| && b[..|a|] == a
  }

  /** One submission without a crash files one id under its job's event --
      the id in hand after the step, read from this reply or else kept from
      before -- and touches no other record. */
  lemma FiledStep(s: Scheduling, j: Job, uid: string)
    requires !SubmitStep(s, j).crashed
    ensures !s.crashed
    ensures var r := SubmitStep(s, j).jobs;
            var n := if j.uid == uid then 1 else 0;
            (uid in r <==> uid in s.jobs || n == 1)
            && (uid in s.jobs ==> r[uid].date == s.jobs[uid].date && IsPrefix(s.jobs[uid].ids, r[uid].ids)
                                  && |r[uid].ids| == |s.jobs[uid].ids| + n)
            && (uid !in s.jobs && n == 1 ==> r[uid].date == Day(j.command.time) && |r[uid].ids| == 1)
    ensures var t := SubmitStep(s, j);
            j.uid == uid ==> t.jobs[uid].ids != [] && t.jobs[uid].ids[|t.jobs[uid].ids| - 1] == t.jobId.value
  {
    if uid in s.jobs && j.uid == uid {
      var ids := s.jobs[uid].ids;
      assert forall x :: (ids + [x])[..|ids|] == ids;
    }
  }

  /** Without a crash, the record of every event is where its ids went: an
      event with due jobs has a record; a record that existed keeps its date
      and its ids and gains one id per due job of its event; a new record
      is dated with the day of its event's first due job and holds one id
      per due job. */
  lemma {:induction false} ScheduledRecord(s: Scheduling, jobs: seq<Job>, uid: string)
    requires !SubmitAll(s, jobs).crashed
    ensures var r := SubmitAll(s, jobs).jobs;
            (uid in r <==> uid in s.jobs || Count(jobs, uid) > 0)
            && (uid in s.jobs ==> r[uid].date == s.jobs[uid].date && IsPrefix(s.jobs[uid].ids, r[uid].ids)
                                  && |r[uid].ids| == |s.jobs[uid].ids| + Count(jobs, uid))
            && (uid !in s.jobs && Count(jobs, uid) > 0 ==>
                  r[uid].date == Day(FirstTime(jobs, uid)) && |r[uid].ids| == Count(jobs, uid))
    decreases |jobs|
  {
    if jobs != [] {
      var init := jobs[..|jobs| - 1];
      var j := jobs[|jobs| - 1];
      var mid := SubmitAll(s, init);
      assert SubmitAll(s, jobs) == SubmitStep(mid, j);
      FiledStep(mid, j, uid);
      ScheduledRecord(s, init, uid);
      if uid in s.jobs {
        var r := SubmitAll(s, jobs).jobs;
        var k := |s.jobs[uid].ids|;
        assert r[uid].ids[..k] == r[uid].ids[..|mid.jobs[uid].ids|][..k];
      }
    }
  }

  /** An event none of whose jobs is due keeps its record, or its absence,
      exactly as it was. */
  lemma Untouched(s: Scheduling, jobs: seq<Job>, uid: string)
    requires !SubmitAll(s, jobs).crashed && Count(jobs, uid) == 0
    ensures uid in SubmitAll(s, jobs).jobs <==> uid in s.jobs
    ensures uid in s.jobs ==> SubmitAll(s, jobs).jobs[uid] == s.jobs[uid]
  {
    ScheduledRecord(s, jobs, uid);
    if uid in s.jobs {
      var r := SubmitAll(s, jobs).jobs[uid];
      assert r.ids == r.ids[..|s.jobs[uid].ids|];
    }
  }

  /** When `at` names no job for a submission, the id read for the
      previous submission is filed for it too, even under another event. */
  lemma ReusedId(s: Scheduling, j1: Job, j2: Job, id: string)
    requires !s.crashed && ParseJobId(NextReply(s.replies)) == Some(id)
    requires ParseJobId(NextReply(LaterReplies(s.replies))).None?
    requires j1.uid != j2.uid && j2.uid !in s.jobs
    ensures var r := SubmitAll(s, [j1, j2]);
            !r.crashed && j1.uid in r.jobs && j2.uid in r.jobs && r.jobs[j2.uid].ids == [id]
            && r.jobs[j1.uid].ids != [] && r.jobs[j1.uid].ids[|r.jobs[j1.uid].ids| - 1] == id
  {
    var s1 := SubmitStep(s, j1);
    assert [j1, j2][..1] == [j1];
    SingleSubmit(s, j1);
    assert SubmitAll(s, [j1, j2]) == SubmitStep(s1, j2);
    assert !s1.crashed && s1.jobId == Some(id) && s1.replies == LaterReplies(s.replies);
    assert s1.jobs == Filed(s.jobs, j1.uid, j1.command.time, id);
    assert SubmitStep(s1, j2).jobs == Filed(s1.jobs, j2.uid, j2.command.time, id);
  }

  // ---------------------------------------------------------------------
  // clean_settings

  /** The test of `clean_settings`: midnight of the record's day is at
      least one day before `now`. A record expires exactly when its day is
      before the day of `now`: yesterday's records go, today's stay. */
  predicate Expired(r: JobRecord, now: int)
    ensures Expired(r, now) <==> r.date < Day(now)
  {
    var gone := r.date * MinutesPerDay <= now - MinutesPerDay;
    assert gone <==> r.date < Day(now) by {
      var d := Day(now);
      if r.date < d {
        assert (r.date + 1) * MinutesPerDay <= d * MinutesPerDay;
      } else {
        assert (d + 1) * MinutesPerDay <= (r.date + 1) * MinutesPerDay;
      }
    }
    gone
  }

  /** The records that `clean_settings` keeps: exactly those dated today
      or later, as they were. */
  function Cleaned(jobs: map<string, JobRecord>, now: int): (r: map<string, JobRecord>)
    ensures forall u :: u in r <==> u in jobs && jobs[u].date >= Day(now)
    ensures forall u :: u in r ==> r[u] == jobs[u]
  {
    map u | u in jobs && !Expired(jobs[u], now) :: jobs[u]
  }

  // ---------------------------------------------------------------------
  // sync_gcal_to_cron

  /** How a sync cycle ended: in full, stopped before any job was touched,
      or crashed while submitting (with no id ever read). */
  datatype SyncOutcome = Synced | Aborted(reason: Abort) | SubmitCrashed

  /** Everything a sync cycle leaves behind: its outcome, the settings in
      memory, the settings file, and the `at` facility's state. */
  datatype Cycle = Cycle(outcome: SyncOutcome, jobs: map<string, JobRecord>, lastSync: Option<int>,
                         saved: Settings, replies: seq<string>, calls: seq<AtCall>)

  /** The submissions of a cycle, after the events' records are dropped. */
  function Rescheduled(jobs: map<string, JobRecord>, events: seq<EventUpdate>, replies: seq<string>, later: int): Scheduling {
    SubmitAll(Scheduling(Unscheduled(events, jobs).0, None, replies, [], false), DueJobs(events, later))
  }

  /** The `at` calls of a cycle: the cancellation of the dropped records'
      ids, then the submissions. */
  function CycleCalls(jobs: map<string, JobRecord>, events: seq<EventUpdate>, s: Scheduling): seq<AtCall> {
    CancelCalls(Unscheduled(events, jobs).1) + Submissions(s.submitted)
  }

  /** The calls of a cycle are the cancellations followed by the
      submissions. */
  lemma CycleCallsSplit(calls: seq<AtCall>, jobs: map<string, JobRecord>, events: seq<EventUpdate>, s: Scheduling)
    ensures calls + CycleCalls(jobs, events, s)
            == (calls + CancelCalls(Unscheduled(events, jobs).1)) + Submissions(s.submitted)
  {
  }

  /** One sync cycle. The fetch happens at `now`, which becomes the new
      `last_sync`; submissions and cleaning read the clock again, at
      `later`. Only a completed cycle moves `last_sync` and writes the
      settings file, which then holds the table in memory with no record
      dated before `later`'s day; an aborted cycle touches neither the
      table nor `at`; every cycle only adds `at` calls. */
  function SyncCycle(memory: Settings, saved: Settings, replies: seq<string>, calls: seq<AtCall>,
                     fetch: Query -> FetchResult, macros: map<string, string>, span: int, now: int, later: int): (c: Cycle)
    ensures c.outcome.Synced? ==>
              c.lastSync == Some(now) && c.saved == Settings(c.jobs, Some(now))
              && forall u :: u in c.jobs ==> c.jobs[u].date >= Day(later)
    ensures !c.outcome.Synced? ==> c.saved == saved && c.lastSync == memory.lastSync
    ensures c.outcome.Aborted? ==> c.jobs == memory.jobs && c.replies == replies && c.calls == calls
    ensures |calls| <= |c.calls| && c.calls[..|calls|] == calls
  {
    match GetEventsSpec(fetch, macros, now, memory.lastSync, span)
    case Err(reason) => Cycle(Aborted(reason), memory.jobs, memory.lastSync, saved, replies, calls)
    case Ok(events) =>
      var s := Rescheduled(memory.jobs, events, replies, later);
      var made := calls + CycleCalls(memory.jobs, events, s);
      if s.crashed then Cycle(SubmitCrashed, s.jobs, memory.lastSync, saved, s.replies, made)
      else
        var jobs := Cleaned(s.jobs, later);
        Cycle(Synced, jobs, Some(now), Settings(jobs, Some(now)), s.replies, made)
  }

  /** The jobs due in a cycle all belong to its events. */
  lemma DueFromEvents(events: seq<EventUpdate>, later: int, uid: string)
    requires Count(DueJobs(events, later), uid) > 0
    ensures uid in Uids(events)
  {
    var js := DueJobs(events, later);
    var k := CountedAt(js, uid);
    DueJobsMember(events, later, js[k]);
    var e :| 0 <= e < |events| && Carries(events[e], js[k]);
  }

  /** An event counted among the jobs has a job at some position. */
  lemma {:induction false} CountedAt(jobs: seq<Job>, uid: string) returns (k: nat)
    requires Count(jobs, uid) > 0
    ensures k < |jobs| && jobs[k].uid == uid
    decreases |jobs|
  {
    var n := |jobs| - 1;
    if jobs[n].uid == uid {
      k := n;
    } else {
      k := CountedAt(jobs[..n], uid);
    }
  }

  /** After a cycle, the record of an event the calendar reported (changed
      or cancelled) is rebuilt from scratch: it exists only if the event
      has jobs still to come, dated with the first of them, with one id per
      job; a cancelled event is left with no record. */
  lemma ReportedRebuilt(jobs: map<string, JobRecord>, events: seq<EventUpdate>, replies: seq<string>, later: int, uid: string)
    requires !Rescheduled(jobs, events, replies, later).crashed && uid in Uids(events)
    ensures var r := Rescheduled(jobs, events, replies, later).jobs;
            var due := DueJobs(events, later);
            (uid in r <==> Count(due, uid) > 0)
            && (uid in r ==> r[uid].date == Day(FirstTime(due, uid)) && |r[uid].ids| == Count(due, uid))
  {
    ScheduledRecord(Scheduling(Unscheduled(events, jobs).0, None, replies, [], false), DueJobs(events, later), uid);
  }

  /** After a cycle, the record of an event the calendar did not report is
      what it was. */
  lemma UnreportedKept(jobs: map<string, JobRecord>, events: seq<EventUpdate>, replies: seq<string>, later: int, uid: string)
    requires !Rescheduled(jobs, events, replies, later).crashed && uid !in Uids(events)
    ensures var r := Rescheduled(jobs, events, replies, later).jobs;
            (uid in r <==> uid in jobs) && (uid in jobs ==> r[uid] == jobs[uid])
  {
    var due := DueJobs(events, later);
    if Count(due, uid) > 0 {
      DueFromEvents(events, later, uid);
    }
    Untouched(Scheduling(Unscheduled(events, jobs).0, None, replies, [], false), due, uid);
  }

  /** The calls of a completed cycle: one `at -d` for the reported events'
      old ids, if they had any, then one `at` per due job, in order. */
  lemma CompletedCalls(jobs: map<string, JobRecord>, events: seq<EventUpdate>, replies: seq<string>, later: int)
    requires !Rescheduled(jobs, events, replies, later).crashed
    ensures CycleCalls(jobs, events, Rescheduled(jobs, events, replies, later))
            == CancelCalls(RemovedIds(events, jobs)) + Submissions(DueJobs(events, later))
  {
    UnscheduledIds(events, jobs);
    SubmittedJobs(Scheduling(Unscheduled(events, jobs).0, None, replies, [], false), DueJobs(events, later));
    assert [] + DueJobs(events, later) == DueJobs(events, later);
  }
}

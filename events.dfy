/** What `GCalAdapter.get_events` does around the network: the time windows
    it asks the calendar for, and how each returned entry becomes an update
    for the scheduler -- a cancellation, a list of commands, or nothing. */
module Events {
  import opened Results
  import opened Text
  import opened Clock
  import opened Grammar

  /** An entry of the calendar feed, reduced to what the scheduler reads:
      its id, its status, the start and end of its first occurrence
      (minutes) and its description, which may be absent. */
  datatype CalendarEvent = CalendarEvent(uid: string, status: string, start: int, end: int, content: Option<string>)

  /** What the scheduler is told about one event: it was cancelled, or it
      has these commands to run. */
  datatype EventUpdate = Cancelled(uid: string) | Scheduled(uid: string, commands: seq<Command>)

  const CanceledStatus: string := "CANCELED"

  /** One calendar query: the events starting in `[startMin, startMax)`,
      and with `updatedMin` only those updated since then. */
  datatype Query = Query(startMin: int, startMax: int, updatedMin: Option<int>)

  /** What the calendar answered to one query. */
  datatype FetchResult = Feed(entries: seq<CalendarEvent>) | RequestError(reason: string)

  /** Why a sync cycle stops before touching any job: the calendar refused a
      query (the program exits), or an event body fails to parse: a comma
      offset (`int` raises ValueError) or an offset that moves a command out
      of years 1 to 9999 (`datetime` raises OverflowError). */
  datatype Abort = FetchFailed(reason: string) | ParseFailed(error: ParseError)

  predicate InWindow(q: Query, t: int) {
    q.startMin <= t < q.startMax
  }

  /** The queries of one cycle. After a previous sync, the period up to the
      end of the previous look-ahead is asked only for updates since then,
      and the period after it for everything; on a first run, the whole
      look-ahead is asked for everything. The windows follow each other
      without gap, from `now` to the end of the look-ahead. */
  function QueryWindows(now: int, lastSync: Option<int>, span: int): (qs: seq<Query>)
    ensures |qs| >= 1 && qs[0].startMin == now && qs[|qs| - 1].startMax == now + span
    ensures forall k :: 0 <= k < |qs| - 1 ==> qs[k].startMax == qs[k + 1].startMin
    ensures qs[0].updatedMin == lastSync
    ensures forall k :: 1 <= k < |qs| ==> qs[k].updatedMin.None?
    ensures lastSync.None? ==> |qs| == 1
    ensures lastSync.Some? ==> |qs| == 2 && qs[0].startMax == lastSync.value + span
  {
    match lastSync
    case Some(last) => [Query(now, last + span, Some(last)), Query(last + span, now + span, None)]
    case None => [Query(now, now + span, None)]
  }

  /** When the previous sync is more than one look-ahead old, the window
      of updates is empty and the second window reaches back before `now`:
      events that started in between are asked for again. */
  lemma WindowsStale(now: int, lastSync: Option<int>, span: int)
    requires lastSync.Some? && lastSync.value + span < now
    ensures var qs := QueryWindows(now, lastSync, span);
            qs[0].startMax < qs[0].startMin && qs[1].startMin < now && qs[1].updatedMin.None?
  {
  }

  /** Every start time of the look-ahead falls in one of the windows,
      however long ago the previous sync was. */
  lemma WindowsCover(now: int, lastSync: Option<int>, span: int, t: int)
    requires now <= t < now + span
    ensures exists k :: 0 <= k < |QueryWindows(now, lastSync, span)| && InWindow(QueryWindows(now, lastSync, span)[k], t)
  {
    var qs := QueryWindows(now, lastSync, span);
    if lastSync.Some? && t >= lastSync.value + span {
      assert InWindow(qs[1], t);
    } else {
      assert InWindow(qs[0], t);
    }
  }

  /** When the previous look-ahead ended inside the current one, the
      windows do not overlap and lie within the look-ahead, so each start
      time is asked for once. */
  lemma WindowsDisjoint(now: int, lastSync: Option<int>, span: int, t: int)
    requires lastSync.Some? ==> now <= lastSync.value + span <= now + span
    ensures var qs := QueryWindows(now, lastSync, span);
            (forall k :: 0 <= k < |qs| && InWindow(qs[k], t) ==> now <= t < now + span)
            && (forall i, j :: 0 <= i < j < |qs| && InWindow(qs[i], t) ==> !InWindow(qs[j], t))
  {
  }

  /** Every event reported as scheduled has at least one command, and each
      is a clean command not timed before `now`. */
  predicate WellClassified(u: EventUpdate, now: int) {
    u.Scheduled? ==> u.commands != [] && forall k :: 0 <= k < |u.commands| ==> Kept(u.commands[k], now)
  }

  /** One entry of the feed: a cancelled event is reported by its id alone,
      whatever its body; an event without a body, or whose body yields no
      command, is not reported; otherwise it is reported with its commands. */
  function Classify(e: CalendarEvent, macros: map<string, string>, now: int): (r: Result<Option<EventUpdate>, ParseError>)
    ensures r.Ok? && r.value.Some? ==> r.value.value.uid == e.uid && WellClassified(r.value.value, now)
  {
    if e.status == CanceledStatus then Ok(Some(Cancelled(e.uid)))
    else if e.content.None? || e.content.value == [] then Ok(None)
    else
      match ParseCommandsSpec(e.content.value, macros, e.start, e.end, now)
      case Err(err) => Err(err)
      case Ok(commands) => if commands == [] then Ok(None) else Ok(Some(Scheduled(e.uid, commands)))
  }

  /** The outcomes of one entry: a cancellation is reported as exactly its
      id; nothing is reported exactly when the entry is not cancelled and
      its body is absent, empty or yields no command; a scheduled report
      carries the parser's commands for the body, and a failure is the
      parser's error. */
  lemma ClassifyOutcomes(e: CalendarEvent, macros: map<string, string>, now: int)
    ensures e.status == CanceledStatus ==> Classify(e, macros, now) == Ok(Some(Cancelled(e.uid)))
    ensures Classify(e, macros, now) == Ok(None) <==>
              e.status != CanceledStatus
              && (e.content.None? || e.content.value == []
                  || ParseCommandsSpec(e.content.value, macros, e.start, e.end, now) == Ok([]))
    ensures var r := Classify(e, macros, now);
            r.Ok? && r.value.Some? && r.value.value.Scheduled? ==>
              e.content.Some? && ParseCommandsSpec(e.content.value, macros, e.start, e.end, now) == Ok(r.value.value.commands)
    ensures var r := Classify(e, macros, now);
            r.Err? ==> e.status != CanceledStatus && e.content.Some?
                       && ParseCommandsSpec(e.content.value, macros, e.start, e.end, now) == Err(r.error)
  {
  }

  /** The updates of a list of entries, in feed order; the first entry
      whose body fails to parse fails them all. */
  function ClassifyAll(entries: seq<CalendarEvent>, macros: map<string, string>, now: int): (r: Result<seq<EventUpdate>, ParseError>)
    ensures r.Ok? ==> forall k :: 0 <= k < |r.value| ==> WellClassified(r.value[k], now)
    decreases |entries|
  {
    if entries == [] then Ok([])
    else
      var before := ClassifyAll(entries[..|entries| - 1], macros, now);
      if before.Err? then before
      else
        match Classify(entries[|entries| - 1], macros, now)
        case Err(err) => Err(err)
        case Ok(None) => before
        case Ok(Some(u)) => Ok(before.value + [u])
  }

  /** The entries of all queries, in query order; the first refused query
      stops the cycle. */
  function FetchAll(fetch: Query -> FetchResult, queries: seq<Query>): (r: Result<seq<CalendarEvent>, string>)
    decreases |queries|
  {
    if queries == [] then Ok([])
    else
      var before := FetchAll(fetch, queries[..|queries| - 1]);
      if before.Err? then before
      else
        match fetch(queries[|queries| - 1])
        case RequestError(reason) => Err(reason)
        case Feed(entries) => Ok(before.value + entries)
  }

  /** The whole of `get_events`, given the calendar's answers. */
  function GetEventsSpec(fetch: Query -> FetchResult, macros: map<string, string>, now: int, lastSync: Option<int>, span: int): Result<seq<EventUpdate>, Abort> {
    match FetchAll(fetch, QueryWindows(now, lastSync, span))
    case Err(reason) => Err(FetchFailed(reason))
    case Ok(entries) =>
      match ClassifyAll(entries, macros, now)
      case Err(err) => Err(ParseFailed(err))
      case Ok(updates) => Ok(updates)
  }

  lemma {:induction false} FetchFailurePersists(fetch: Query -> FetchResult, queries: seq<Query>, i: nat)
    requires i <= |queries| && FetchAll(fetch, queries[..i]).Err?
    ensures FetchAll(fetch, queries) == FetchAll(fetch, queries[..i])
    decreases |queries| - i
  {
    if i < |queries| {
      assert queries[..i + 1][..i] == queries[..i];
      FetchFailurePersists(fetch, queries, i + 1);
    } else {
      assert queries[..i] == queries;
    }
  }

  lemma {:induction false} ClassifyFailurePersists(entries: seq<CalendarEvent>, macros: map<string, string>, now: int, i: nat)
    requires i <= |entries| && ClassifyAll(entries[..i], macros, now).Err?
    ensures ClassifyAll(entries, macros, now) == ClassifyAll(entries[..i], macros, now)
    decreases |entries| - i
  {
    if i < |entries| {
      assert entries[..i + 1][..i] == entries[..i];
      ClassifyFailurePersists(entries, macros, now, i + 1);
    } else {
      assert entries[..i] == entries;
    }
  }

  /** One more entry extends the classification of the entries before it. */
  lemma ClassifyStep(entries: seq<CalendarEvent>, i: nat, macros: map<string, string>, now: int)
    requires i < |entries|
    ensures var before := ClassifyAll(entries[..i], macros, now);
            ClassifyAll(entries[..i + 1], macros, now) ==
              if before.Err? then before
              else match Classify(entries[i], macros, now)
                   case Err(err) => Err(err)
                   case Ok(None) => before
                   case Ok(Some(u)) => Ok(before.value + [u])
  {
    assert entries[..i + 1][..i] == entries[..i];
  }

  /** The body of the entry loop of `get_events`: a cancelled event by its
      id, otherwise the commands of a non-empty description, if any. */
  method ClassifyEntry(e: CalendarEvent, macros: map<string, string>, now: int)
    returns (r: Result<Option<EventUpdate>, ParseError>)
    ensures r == Classify(e, macros, now)
  {
    if e.status == CanceledStatus {
      return Ok(Some(Cancelled(e.uid)));
    }
    if e.content.None? || e.content.value == [] {
      return Ok(None);
    }
    var parsed := ParseCommands(e.content.value, macros, e.start, e.end, now);
    if parsed.Err? {
      return Err(parsed.error);
    }
    if parsed.value == [] {
      return Ok(None);
    }
    return Ok(Some(Scheduled(e.uid, parsed.value)));
  }

  /** The query loop of `get_events`: the entries of each window in
      turn, stopping at the first refused query. */
  method FetchEntries(fetch: Query -> FetchResult, queries: seq<Query>) returns (r: Result<seq<CalendarEvent>, string>)
    ensures r == FetchAll(fetch, queries)
  {
    var entries: seq<CalendarEvent> := [];
    for i := 0 to |queries|
      invariant FetchAll(fetch, queries[..i]) == Ok(entries)
    {
      assert queries[..i + 1][..i] == queries[..i];
      var feed := fetch(queries[i]);
      if feed.RequestError? {
        FetchFailurePersists(fetch, queries, i + 1);
        return Err(feed.reason);
      }
      entries := entries + feed.entries;
    }
    assert queries[..|queries|] == queries;
    return Ok(entries);
  }

  /** The entry loop of `get_events`: the updates of the entries in feed
      order, stopping at the first description that does not parse. */
  method ClassifyEntries(entries: seq<CalendarEvent>, macros: map<string, string>, now: int)
    returns (r: Result<seq<EventUpdate>, ParseError>)
    ensures r == ClassifyAll(entries, macros, now)
  {
    var events: seq<EventUpdate> := [];
    for i := 0 to |entries|
      invariant ClassifyAll(entries[..i], macros, now) == Ok(events)
    {
      ClassifyStep(entries, i, macros, now);
      var update := ClassifyEntry(entries[i], macros, now);
      if update.Err? {
        ClassifyFailurePersists(entries, macros, now, i + 1);
        return Err(update.error);
      }
      if update.value.Some? {
        events := events + [update.value.value];
      }
    }
    assert entries[..|entries|] == entries;
    return Ok(events);
  }

  /** `get_events` after the clock read: the entries of the query windows,
      then their updates. */
  method GetEvents(fetch: Query -> FetchResult, macros: map<string, string>, now: int, lastSync: Option<int>, span: int)
    returns (r: Result<seq<EventUpdate>, Abort>)
    ensures r == GetEventsSpec(fetch, macros, now, lastSync, span)
  {
    var fetched := FetchEntries(fetch, QueryWindows(now, lastSync, span));
    if fetched.Err? {
      return Err(FetchFailed(fetched.error));
    }
    var classified := ClassifyEntries(fetched.value, macros, now);
    if classified.Err? {
      return Err(ParseFailed(classified.error));
    }
    return Ok(classified.value);
  }

  /** Classification keeps feed order and is compositional: the updates of
      two runs of entries are those of the first followed by those of the
      second, and the first failure in feed order is the one reported. */
  lemma {:induction false} ClassifyAllAppend(a: seq<CalendarEvent>, b: seq<CalendarEvent>, macros: map<string, string>, now: int)
    ensures var ra := ClassifyAll(a, macros, now);
            var rb := ClassifyAll(b, macros, now);
            ClassifyAll(a + b, macros, now) ==
              if ra.Err? then ra
              else if rb.Err? then rb
              else Ok(ra.value + rb.value)
    decreases |b|
  {
    if b == [] {
      assert a + b == a;
      var ra := ClassifyAll(a, macros, now);
      assert ra.Ok? ==> ra.value + [] == ra.value;
    } else {
      var n := |b| - 1;
      assert (a + b)[..|a + b| - 1] == a + b[..n];
      assert (a + b)[|a + b| - 1] == b[n];
      ClassifyAllAppend(a, b[..n], macros, now);
      var ra := ClassifyAll(a, macros, now);
      var rb := ClassifyAll(b[..n], macros, now);
      if ra.Ok? && rb.Ok? {
        assert forall u :: ra.value + rb.value + [u] == ra.value + (rb.value + [u]);
      }
    }
  }

  /** An update reported for the entries before the last is still reported
      with the last. */
  lemma ClassifyKeeps(entries: seq<CalendarEvent>, macros: map<string, string>, now: int, u: EventUpdate)
    requires entries != [] && ClassifyAll(entries, macros, now).Ok?
    ensures ClassifyAll(entries[..|entries| - 1], macros, now).Ok?
    ensures u in ClassifyAll(entries[..|entries| - 1], macros, now).value ==> u in ClassifyAll(entries, macros, now).value
  {
  }

  /** A cancelled last entry is reported. */
  lemma CancelledLast(entries: seq<CalendarEvent>, macros: map<string, string>, now: int)
    requires entries != [] && entries[|entries| - 1].status == CanceledStatus
    requires ClassifyAll(entries, macros, now).Ok?
    ensures Cancelled(entries[|entries| - 1].uid) in ClassifyAll(entries, macros, now).value
  {
    var e := entries[|entries| - 1];
    assert Classify(e, macros, now) == Ok(Some(Cancelled(e.uid)));
  }

  /** A cancelled event is always reported, whatever its body says. */
  lemma {:induction false} CancelledReported(entries: seq<CalendarEvent>, macros: map<string, string>, now: int, k: nat)
    requires k < |entries| && entries[k].status == CanceledStatus
    requires ClassifyAll(entries, macros, now).Ok?
    ensures Cancelled(entries[k].uid) in ClassifyAll(entries, macros, now).value
    decreases |entries|
  {
    var n := |entries| - 1;
    if k < n {
      ClassifyKeeps(entries, macros, now, Cancelled(entries[k].uid));
      assert entries[..n][k] == entries[k];
      CancelledReported(entries[..n], macros, now, k);
    } else {
      CancelledLast(entries, macros, now);
    }
  }

  /** A feed fails to classify only with the error of one of its entries. */
  lemma {:induction false} ClassifyAllFails(entries: seq<CalendarEvent>, macros: map<string, string>, now: int)
    requires ClassifyAll(entries, macros, now).Err?
    ensures exists k :: 0 <= k < |entries| && Classify(entries[k], macros, now) == Err(ClassifyAll(entries, macros, now).error)
    decreases |entries|
  {
    var n := |entries| - 1;
    var before := ClassifyAll(entries[..n], macros, now);
    if before.Err? {
      ClassifyAllFails(entries[..n], macros, now);
      var k :| 0 <= k < n && Classify(entries[..n][k], macros, now) == Err(before.error);
      assert entries[k] == entries[..n][k];
    } else {
      assert Classify(entries[n], macros, now) == Err(ClassifyAll(entries, macros, now).error);
    }
  }

  /** A feed whose every entry classifies, classifies. */
  lemma {:induction false} ClassifyAllSucceeds(entries: seq<CalendarEvent>, macros: map<string, string>, now: int)
    requires forall k :: 0 <= k < |entries| ==> Classify(entries[k], macros, now).Ok?
    ensures ClassifyAll(entries, macros, now).Ok?
    decreases |entries|
  {
    if entries != [] {
      var n := |entries| - 1;
      forall k | 0 <= k < n ensures Classify(entries[..n][k], macros, now).Ok? {
        assert entries[..n][k] == entries[k];
      }
      ClassifyAllSucceeds(entries[..n], macros, now);
      assert Classify(entries[n], macros, now).Ok?;
    }
  }

  /** Every reported update stands for an entry of the feed with its id. */
  lemma {:induction false} UpdatesFromEntries(entries: seq<CalendarEvent>, macros: map<string, string>, now: int, j: nat)
    requires ClassifyAll(entries, macros, now).Ok? && j < |ClassifyAll(entries, macros, now).value|
    ensures exists k :: 0 <= k < |entries| && entries[k].uid == ClassifyAll(entries, macros, now).value[j].uid
    decreases |entries|
  {
    var n := |entries| - 1;
    var before := ClassifyAll(entries[..n], macros, now);
    if j < |before.value| {
      UpdatesFromEntries(entries[..n], macros, now, j);
      var k :| 0 <= k < n && entries[..n][k].uid == before.value[j].uid;
      assert entries[k] == entries[..n][k];
    } else {
      assert entries[n].uid == ClassifyAll(entries, macros, now).value[j].uid;
    }
  }
}

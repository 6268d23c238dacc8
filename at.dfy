/** The `at` job queue as the scheduler drives it. `at TIME`, given a
    command on its standard input, queues the command and reports on its
    standard error a line `job N at ...` naming the new job; `at -d ID...`
    removes queued jobs. The scheduler reads the job number back out of
    that report with the pattern `job (\d+) at`. */
module At {
  import opened Results
  import opened Text

  /** One invocation of `at`: a submission of a command at a time written
      in `at`'s own format, or the removal of some jobs. */
  datatype AtCall = Queued(time: string, command: string) | Removed(ids: seq<string>)

  /** The job number the pattern `job (\d+) at` matches at position `i`:
      the digits run as far as they go, and ` at` must follow them. */
  function JobIdAt(s: string, i: nat): Option<string>
    requires i <= |s|
  {
    if StartsWith(s[i..], "job ") then
      var n := DigitRun(s, i + 4);
      if n > 0 && StartsWith(s[i + 4 + n..], " at") then Some(s[i + 4..i + 4 + n]) else None
    else None
  }

  /** `search` from position `i` on: the leftmost match. */
  function SearchJobId(s: string, i: nat): Option<string>
    requires i <= |s|
    decreases |s| - i
  {
    if JobIdAt(s, i).Some? then JobIdAt(s, i)
    else if i == |s| then None
    else SearchJobId(s, i + 1)
  }

  /** The job number in `at`'s report, if the report names one: a
      non-empty run of digits that the report shows as `job N at`. */
  function ParseJobId(output: string): (r: Option<string>)
    ensures r.Some? ==> r.value != [] && AllDigits(r.value)
                        && exists j :: 0 <= j <= |output| && StartsWith(output[j..], "job " + r.value + " at")
  {
    var r := SearchJobId(output, 0);
    assert r.Some? ==> r.value != [] && AllDigits(r.value)
                       && exists j :: 0 <= j <= |output| && StartsWith(output[j..], "job " + r.value + " at") by {
      if r.Some? {
        var j := SearchFirst(output, 0);
        JobIdAtSound(output, j);
      }
    }
    r
  }

  /** A match at a position is the text `job `, a non-empty run of digits
      (the number) and ` at`. */
  lemma JobIdAtSound(s: string, i: nat)
    requires i <= |s| && JobIdAt(s, i).Some?
    ensures var id := JobIdAt(s, i).value;
            id != [] && AllDigits(id) && StartsWith(s[i..], "job " + id + " at")
  {
    var n := DigitRun(s, i + 4);
    DigitRunSound(s, i + 4);
    var id := s[i + 4..i + 4 + n];
    assert s[i..][..4] == "job ";
    assert s[i + 4 + n..][..3] == " at";
    assert s[i..][..4 + n + 3] == "job " + id + " at";
  }

  /** The search finds nothing exactly when there is no match at any
      position from `i` on. */
  lemma {:induction false} SearchNone(s: string, i: nat)
    requires i <= |s|
    ensures SearchJobId(s, i).None? <==> forall j :: i <= j <= |s| ==> JobIdAt(s, j).None?
    decreases |s| - i
  {
    if JobIdAt(s, i).None? && i < |s| {
      SearchNone(s, i + 1);
      assert SearchJobId(s, i) == SearchJobId(s, i + 1);
    }
  }

  /** What the search finds is the match at the first position from `i`
      on that has one. */
  lemma {:induction false} SearchFirst(s: string, i: nat) returns (j: nat)
    requires i <= |s| && SearchJobId(s, i).Some?
    ensures i <= j <= |s| && JobIdAt(s, j) == SearchJobId(s, i)
    ensures forall k :: i <= k < j ==> JobIdAt(s, k).None?
    decreases |s| - i
  {
    if JobIdAt(s, i).Some? {
      j := i;
    } else {
      assert SearchJobId(s, i) == SearchJobId(s, i + 1);
      j := SearchFirst(s, i + 1);
    }
  }

  /** What `ParseJobId` reports is the leftmost `job N at` of the output,
      and it reports nothing exactly when the output has none. */
  lemma ParseJobIdLeftmost(output: string)
    ensures ParseJobId(output).None? <==> forall j :: 0 <= j <= |output| ==> JobIdAt(output, j).None?
    ensures ParseJobId(output).Some? ==>
              exists j :: 0 <= j <= |output| && JobIdAt(output, j) == ParseJobId(output)
                          && forall k :: 0 <= k < j ==> JobIdAt(output, k).None?
  {
    SearchNone(output, 0);
    if ParseJobId(output).Some? {
      var j := SearchFirst(output, 0);
    }
  }

  /** Positions before `|head|` cannot start a match when `head` has no
      `j`, so the search goes on past `head`. */
  lemma {:induction false} SkipHead(head: string, s: string, i: nat)
    requires i <= |head| && 'j' !in head
    ensures SearchJobId(head + s, i) == SearchJobId(head + s, |head|)
    decreases |head| - i
  {
    if i < |head| {
      var t := head + s;
      assert t[i] == head[i];
      assert t[i..][0] == t[i];
      SkipHead(head, s, i + 1);
    }
  }

  /** The text `job `, a run of digits and ` at` at position `i` is a
      match whose number is those digits. */
  lemma JobLineAt(s: string, i: nat, id: string)
    requires id != [] && AllDigits(id) && i + 4 + |id| + 3 <= |s|
    requires s[i..i + 4] == "job " && s[i + 4..i + 4 + |id|] == id
    requires s[i + 4 + |id|..i + 4 + |id| + 3] == " at"
    ensures JobIdAt(s, i) == Some(id)
  {
    var n := |id|;
    assert s[i..][..4] == s[i..i + 4];
    assert !IsDigit(s[i + 4 + n]) by {
      assert s[i + 4 + n] == s[i + 4 + n..i + 4 + n + 3][0];
    }
    DigitRunStops(s, i + 4, n);
    assert s[i + 4 + n..][..3] == s[i + 4 + n..i + 4 + n + 3];
  }

  /** A report whose first `job` is followed by a number and ` at` yields
      that number, whatever precedes it (as long as it has no `j`) and
      whatever follows. */
  lemma JobLineRead(head: string, id: string, tail: string)
    requires 'j' !in head && id != [] && AllDigits(id)
    ensures ParseJobId(head + "job " + id + " at" + tail) == Some(id)
  {
    var body := "job " + id + " at" + tail;
    var s := head + body;
    var i := |head|;
    var n := |id|;
    assert head + "job " + id + " at" + tail == s;
    assert body[..4] == "job " && body[4..4 + n] == id && body[4 + n..4 + n + 3] == " at";
    assert s[i..] == body;
    assert s[i..i + 4] == body[..4];
    assert s[i + 4..i + 4 + n] == body[4..4 + n];
    assert s[i + 4 + n..i + 4 + n + 3] == body[4 + n..4 + n + 3];
    JobLineAt(s, i, id);
    SkipHead(head, body, 0);
    assert SearchJobId(s, i) == Some(id);
    assert ParseJobId(s) == SearchJobId(s, 0);
  }

  /** What `at` prints before the job line when it runs commands with
      `/bin/sh`. */
  const ShellWarning: string := "warning: " + "commands " + "will be " + "executed " + "using " + "/bin/sh\n"

  /** The report of a real `at`: the warning line, then the job line with
      the job's time. */
  lemma AtReportExample(when: string)
    ensures ParseJobId(ShellWarning + "job 7 at" + when) == Some("7")
  {
    assert 'j' !in "warning: " && 'j' !in "commands " && 'j' !in "will be ";
    assert 'j' !in "executed " && 'j' !in "using " && 'j' !in "/bin/sh\n";
    assert AllDigits("7");
    JobLineRead(ShellWarning, "7", when);
    assert ShellWarning + "job " + "7" + " at" + when == ShellWarning + "job 7 at" + when;
  }

  /** The report `at` gives to the next submission; a script that has run
      out stands for an `at` that reports nothing. */
  function NextReply(replies: seq<string>): string {
    if replies == [] then "" else replies[0]
  }

  function LaterReplies(replies: seq<string>): seq<string> {
    if replies == [] then [] else replies[1..]
  }

  /** The `at` facility. What it will report to the coming submissions is
      fixed in advance (`replies`); every call made is logged in `calls`. */
  class AtDaemon {
    var replies: seq<string>
    ghost var calls: seq<AtCall>

    constructor (replies: seq<string>)
      ensures this.replies == replies && calls == []
    {
      this.replies := replies;
      calls := [];
    }

    /** `at TIME` with `command` on standard input; the result is what it
        reports on standard error. */
    method Submit(time: string, command: string) returns (output: string)
      modifies this
      ensures output == NextReply(old(replies)) && replies == LaterReplies(old(replies))
      ensures calls == old(calls) + [Queued(time, command)]
    {
      output := NextReply(replies);
      replies := LaterReplies(replies);
      calls := calls + [Queued(time, command)];
    }

    /** `at -d` with the given job ids. */
    method Cancel(ids: seq<string>)
      modifies this
      ensures replies == old(replies) && calls == old(calls) + [Removed(ids)]
    {
      calls := calls + [Removed(ids)];
    }
  }
}

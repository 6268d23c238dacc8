/** The command grammar of an event body (`GCalAdapter.parse_commands`).
    Each line may open with the prefix `(end)? ?([+,-]\d+)?: ` -- `end`
    anchors the line at the event's end instead of its start, a signed
    number of minutes is added to the anchor -- and the rest of the line,
    stripped, is the command. Blank commands and commands timed before `now`
    are dropped, and the others keep the order of their lines. */
module Grammar {
  import opened Results
  import opened Text
  import opened Macros
  import opened Clock

  /** One command to run: when (minutes) and what. */
  datatype Command = Command(time: int, text: string)

  /** The offset group `[+,-]\d+` as matched: its sign character and digits. */
  datatype Offset = Offset(sign: char, digits: string)

  /** A matched prefix: whether `end` was present, whether the optional
      space was, the offset group if present, and the text after `": "`. */
  datatype Prefix = Prefix(atEnd: bool, spaced: bool, offset: Option<Offset>, rest: string)

  /** Why the parser raised, with the line that made it fail: `int(",10")`
      raises ValueError, and an offset that takes the time out of the years
      1 to 9999 raises OverflowError. */
  datatype ParseError = BadOffset(line: string) | OutOfRange(line: string)

  /** The character class `[\+,-]`, which also admits a comma. */
  predicate IsSign(c: char) {
    c == '+' || c == ',' || c == '-'
  }

  predicate WellFormed(p: Prefix) {
    p.offset.Some? ==> IsSign(p.offset.value.sign) && p.offset.value.digits != []
                       && AllDigits(p.offset.value.digits)
  }

  function EndText(atEnd: bool): string {
    if atEnd then "end" else ""
  }

  function SpaceText(spaced: bool): string {
    if spaced then " " else ""
  }

  function OffsetText(offset: Option<Offset>): string {
    match offset
    case None => ""
    case Some(o) => [o.sign] + o.digits
  }

  /** The line a prefix match was read from. */
  function RenderPrefix(p: Prefix): string {
    EndText(p.atEnd) + SpaceText(p.spaced) + OffsetText(p.offset) + ": " + p.rest
  }

  /** The group `(end)?` at the head of a line, and what follows it. */
  function SplitEnd(line: string): (bool, string) {
    if StartsWith(line, "end") then (true, line[3..]) else (false, line)
  }

  /** The optional space ` ?` at the head of `s`, and what follows it. */
  function SplitSpace(s: string): (bool, string) {
    if s != [] && s[0] == ' ' then (true, s[1..]) else (false, s)
  }

  /** The group `([\+,-]\d+)?` at the head of `s`: a sign followed by as
      many digits as there are, and what follows them; absent when `s` does
      not open with a sign and at least one digit. */
  function SplitOffset(s: string): (Option<Offset>, string) {
    if s != [] && IsSign(s[0]) && DigitRun(s, 1) > 0 then
      var n := DigitRun(s, 1);
      (Some(Offset(s[0], s[1..1 + n])), s[1 + n..])
    else (None, s)
  }

  /** The regular expression `^(end)? ?([\+,-]\d+)?: (.*)` applied to one
      line (lines never hold a newline, so `.` matches all of the rest).
      Every optional group is taken greedily and no backtracking can produce
      a different match, so one left-to-right scan decides it. */
  function MatchPrefix(line: string): (m: Option<Prefix>)
    ensures m.Some? ==> WellFormed(m.value) && RenderPrefix(m.value) == line
  {
    var e := SplitEnd(line);
    var sp := SplitSpace(e.1);
    var o := SplitOffset(sp.1);
    if StartsWith(o.1, ": ") then
      PrefixFound(line);
      Some(Prefix(e.0, sp.0, o.0, o.1[2..]))
    else None
  }

  /** The groups read off a line, when `": "` follows them, form a
      well-formed prefix that renders back to the line. */
  lemma PrefixFound(line: string)
    ensures var e := SplitEnd(line);
            var sp := SplitSpace(e.1);
            var o := SplitOffset(sp.1);
            StartsWith(o.1, ": ") ==>
              var p := Prefix(e.0, sp.0, o.0, o.1[2..]);
              WellFormed(p) && RenderPrefix(p) == line
  {
    var e := SplitEnd(line);
    var sp := SplitSpace(e.1);
    var o := SplitOffset(sp.1);
    SplitEndSound(line);
    SplitSpaceSound(e.1);
    SplitOffsetSound(sp.1);
    if StartsWith(o.1, ": ") {
      var rest := o.1[2..];
      assert o.1 == ": " + rest;
      Glue(line, EndText(e.0), e.1, SpaceText(sp.0), sp.1, OffsetText(o.0), o.1, rest);
    }
  }

  lemma SplitEndSound(line: string)
    ensures var r := SplitEnd(line);
            r.0 == StartsWith(line, "end") && line == EndText(r.0) + r.1
  {
    if StartsWith(line, "end") {
      assert line == line[..3] + line[3..];
    }
  }

  lemma SplitSpaceSound(s: string)
    ensures var r := SplitSpace(s);
            r.0 == (s != [] && s[0] == ' ') && s == SpaceText(r.0) + r.1
  {
    if s != [] && s[0] == ' ' {
      assert s == [s[0]] + s[1..];
    }
  }

  lemma SplitOffsetSound(s: string)
    ensures var r := SplitOffset(s);
            && s == OffsetText(r.0) + r.1
            && (r.0.Some? ==> IsSign(r.0.value.sign) && r.0.value.digits != []
                              && AllDigits(r.0.value.digits)
                              && (r.1 == [] || !IsDigit(r.1[0])))
            && (r.0.None? <==> !(|s| >= 2 && IsSign(s[0]) && IsDigit(s[1])))
  {
    if s != [] {
      DigitRunSound(s, 1);
      if IsSign(s[0]) && DigitRun(s, 1) > 0 {
        var n := DigitRun(s, 1);
        assert s == [s[0]] + s[1..1 + n] + s[1 + n..];
      }
    }
  }

  lemma Glue(line: string, et: string, s0: string, st: string, s1: string, ot: string, s2: string, rest: string)
    requires line == et + s0 && s0 == st + s1 && s1 == ot + s2 && s2 == ": " + rest
    ensures line == et + st + ot + ": " + rest
  {
    assert s1 == ot + ": " + rest;
    assert s0 == st + ot + ": " + rest;
  }

  lemma SplitEndOf(atEnd: bool, s0: string)
    requires s0 != [] && s0[0] != 'e'
    ensures SplitEnd(EndText(atEnd) + s0) == (atEnd, s0)
  {
    var line := EndText(atEnd) + s0;
    if atEnd {
      assert line[..3] == "end";
      assert line[3..] == s0;
    } else {
      assert line == s0;
      assert |line| >= 3 ==> line[..3][0] == s0[0];
    }
  }

  lemma SplitSpaceOf(spaced: bool, s1: string)
    requires s1 != [] && s1[0] != ' '
    ensures SplitSpace(SpaceText(spaced) + s1) == (spaced, s1)
  {
    if spaced {
      assert (" " + s1)[0] == ' ' && (" " + s1)[1..] == s1;
    } else {
      assert SpaceText(spaced) + s1 == s1;
    }
  }

  lemma SplitOffsetOf(offset: Option<Offset>, s2: string)
    requires offset.Some? ==> IsSign(offset.value.sign) && offset.value.digits != []
                              && AllDigits(offset.value.digits)
    requires s2 != [] && !IsDigit(s2[0]) && !IsSign(s2[0])
    ensures SplitOffset(OffsetText(offset) + s2) == (offset, s2)
  {
    var s := OffsetText(offset) + s2;
    if offset.Some? {
      var x := offset.value;
      var n := |x.digits|;
      assert s == [x.sign] + x.digits + s2;
      assert s[0] == x.sign;
      assert s[1..1 + n] == x.digits;
      assert s[1 + n..] == s2;
      DigitRunStops(s, 1, n);
    } else {
      assert s == s2;
    }
  }

  /** Conversely, every well-formed prefix is matched in its rendered form:
      together with the contract of `MatchPrefix`, a line matches exactly when it is the
      rendering of a well-formed prefix. */
  lemma MatchRendered(p: Prefix)
    requires WellFormed(p)
    ensures MatchPrefix(RenderPrefix(p)) == Some(p)
  {
    var s2 := ": " + p.rest;
    var s1 := OffsetText(p.offset) + s2;
    var s0 := SpaceText(p.spaced) + s1;
    Unglue(RenderPrefix(p), EndText(p.atEnd), SpaceText(p.spaced), OffsetText(p.offset), p.rest);
    SplitOffsetOf(p.offset, s2);
    assert s1[0] == ':' || IsSign(s1[0]);
    SplitSpaceOf(p.spaced, s1);
    assert s0[0] == ' ' || s0[0] == ':' || IsSign(s0[0]);
    SplitEndOf(p.atEnd, s0);
    assert s2[..2] == ": " && s2[2..] == p.rest;
  }

  lemma Unglue(line: string, et: string, st: string, ot: string, rest: string)
    requires line == et + st + ot + ": " + rest
    ensures line == et + (st + (ot + (": " + rest)))
  {
  }

  /** `int(sign + digits)`: the digits' value, negated by `-`; a comma
      sign is a ValueError. */
  function OffsetMinutes(o: Offset): (r: Option<int>)
    ensures r.None? <==> o.sign != '+' && o.sign != '-'
    ensures r.Some? ==> (r.value < 0 ==> o.sign == '-') && (o.sign == '-' ==> r.value <= 0)
                        && (r.value == DigitsValue(o.digits) || r.value == -(DigitsValue(o.digits) as int))
  {
    if o.sign == '+' then Some(DigitsValue(o.digits) as int)
    else if o.sign == '-' then Some(-(DigitsValue(o.digits) as int))
    else None
  }

  /** A command that is non-empty, has no white space at either end (it is
      its own strip, by `StripFixed`) and is not timed before `now`. */
  predicate Kept(c: Command, now: int) {
    c.text != [] && !IsSpace(c.text[0]) && !IsSpace(c.text[|c.text| - 1]) && now <= c.time
  }

  /** The command a line yields once its time is known: its text stripped,
      or none when that is blank. */
  function Timed(text: string, time: int): (r: Option<Command>)
    ensures r.Some? ==> Kept(r.value, time) && r.value.time == time && r.value.text == Strip(text)
    ensures r.None? <==> Strip(text) == []
  {
    var command := Strip(text);
    if command == [] then None else Some(Command(time, command))
  }

  /** One line of the body: an error for a comma offset, otherwise the
      command timed from its anchor, if not blank. */
  function ParseLine(line: string, start: int, end: int): (r: Result<Option<Command>, ParseError>)
    ensures r.Ok? && r.value.Some? ==> Kept(r.value.value, r.value.value.time)
  {
    Interpret(line, MatchPrefix(line), start, end)
  }

  /** The outcome of a line given what the prefix pattern made of it. */
  function Interpret(line: string, m: Option<Prefix>, start: int, end: int): (r: Result<Option<Command>, ParseError>)
    ensures r.Ok? && r.value.Some? ==> Kept(r.value.value, r.value.value.time)
  {
    match m
    case None => Ok(Timed(line, start))
    case Some(p) =>
      var anchor := if p.atEnd then end else start;
      if p.offset.None? then Ok(Timed(p.rest, anchor))
      else
        match OffsetMinutes(p.offset.value)
        case None => Err(BadOffset(line))
        case Some(minutes) =>
          if InRange(anchor + minutes) then Ok(Timed(p.rest, anchor + minutes)) else Err(OutOfRange(line))
  }

  /** The signed number of minutes a well-formed prefix adds to its anchor
      (none without an offset group); a comma sign has no value. */
  function PrefixMinutes(p: Prefix): int
  {
    match p.offset
    case None => 0
    case Some(o) => if o.sign == '+' then DigitsValue(o.digits) as int else -(DigitsValue(o.digits) as int)
  }

  /** What the grammar makes of a line that carries a prefix: a comma sign
      fails, and so does an offset that takes the time out of range;
      otherwise the command is timed at the anchor (end time with `end`,
      start time without) plus the signed offset, and its text is the rest
      after `": "`, stripped, or there is none when that is blank. */
  lemma PrefixedLine(p: Prefix, start: int, end: int)
    requires WellFormed(p)
    ensures ParseLine(RenderPrefix(p), start, end) == PrefixedOutcome(RenderPrefix(p), p, start, end)
  {
    MatchRendered(p);
    MatchedLine(RenderPrefix(p), p, start, end);
  }

  /** The outcome `PrefixedLine` states, for a line matched as `p`. */
  function PrefixedOutcome(line: string, p: Prefix, start: int, end: int): Result<Option<Command>, ParseError>
  {
    if p.offset.Some? && p.offset.value.sign == ',' then Err(BadOffset(line))
    else
      var time := (if p.atEnd then end else start) + PrefixMinutes(p);
      if p.offset.Some? && !InRange(time) then Err(OutOfRange(line))
      else Ok(Timed(p.rest, time))
  }

  lemma MatchedLine(line: string, p: Prefix, start: int, end: int)
    requires MatchPrefix(line) == Some(p)
    ensures ParseLine(line, start, end) == PrefixedOutcome(line, p, start, end)
  {
    assert ParseLine(line, start, end) == Interpret(line, Some(p), start, end);
    InterpretPrefix(line, p, start, end);
  }

  lemma InterpretPrefix(line: string, p: Prefix, start: int, end: int)
    requires WellFormed(p)
    ensures Interpret(line, Some(p), start, end) == PrefixedOutcome(line, p, start, end)
  {
    if p.offset.Some? {
      var o := p.offset.value;
      assert o.sign != ',' ==> OffsetMinutes(o) == Some(PrefixMinutes(p));
    }
  }

  /** A line without a prefix is a command at the start time, the whole
      line stripped. */
  lemma PlainLine(line: string, start: int, end: int)
    requires forall p :: WellFormed(p) ==> RenderPrefix(p) != line
    ensures ParseLine(line, start, end) == Ok(Timed(line, start))
  {
  }

  /** The commands of a list of lines: the first failing line fails the
      whole list; otherwise the kept commands, in line order. */
  function ParseLines(lines: seq<string>, start: int, end: int, now: int): (r: Result<seq<Command>, ParseError>)
    ensures r.Ok? ==> forall k :: 0 <= k < |r.value| ==> Kept(r.value[k], now)
    decreases |lines|
  {
    if lines == [] then Ok([])
    else
      var before := ParseLines(lines[..|lines| - 1], start, end, now);
      if before.Err? then before
      else
        match ParseLine(lines[|lines| - 1], start, end)
        case Err(e) => Err(e)
        case Ok(None) => before
        case Ok(Some(c)) => if c.time >= now then Ok(before.value + [c]) else before
  }

  /** The whole of `parse_commands`: macros, then the grammar line by line. */
  function ParseCommandsSpec(description: string, macros: map<string, string>, start: int, end: int, now: int): Result<seq<Command>, ParseError> {
    ParseLines(Split(Expanded(description, macros), '\n'), start, end, now)
  }

  /** Once a prefix of the lines fails, the whole list fails the same way. */
  lemma {:induction false} FailurePersists(lines: seq<string>, i: nat, start: int, end: int, now: int)
    requires i <= |lines|
    requires ParseLines(lines[..i], start, end, now).Err?
    ensures ParseLines(lines, start, end, now) == ParseLines(lines[..i], start, end, now)
    decreases |lines| - i
  {
    if i < |lines| {
      assert lines[..i + 1][..i] == lines[..i];
      FailurePersists(lines, i + 1, start, end, now);
    } else {
      assert lines[..i] == lines;
    }
  }

  /** One more line extends the parse of the lines before it. */
  lemma LineStep(lines: seq<string>, i: nat, start: int, end: int, now: int)
    requires i < |lines|
    ensures var before := ParseLines(lines[..i], start, end, now);
            ParseLines(lines[..i + 1], start, end, now) ==
              if before.Err? then before
              else match ParseLine(lines[i], start, end)
                   case Err(e) => Err(e)
                   case Ok(None) => before
                   case Ok(Some(c)) => if c.time >= now then Ok(before.value + [c]) else before
  {
    assert lines[..i + 1][..i] == lines[..i];
  }

  /** `parse_commands`: the macro loop, then one pass over the lines of the
      substituted body appending each kept command. */
  method ParseCommands(description: string, macros: map<string, string>, start: int, end: int, now: int)
    returns (r: Result<seq<Command>, ParseError>)
    ensures r == ParseCommandsSpec(description, macros, start, end, now)
  {
    var expanded := ExpandMacros(description, macros);
    var lines := Split(expanded, '\n');
    var commands: seq<Command> := [];
    for i := 0 to |lines|
      invariant ParseLines(lines[..i], start, end, now) == Ok(commands)
    {
      LineStep(lines, i, start, end, now);
      var outcome := ParseLine(lines[i], start, end);
      if outcome.Err? {
        r := Err(outcome.error);
        FailurePersists(lines, i + 1, start, end, now);
        return;
      }
      var c := outcome.value;
      if c.Some? && c.value.time >= now {
        commands := commands + [c.value];
      }
    }
    assert lines[..|lines|] == lines;
    r := Ok(commands);
  }

  /** Parsing is compositional and keeps line order: the commands of two
      blocks of lines are those of the first block followed by those of the
      second, and the first failure, in line order, is the one reported. */
  lemma {:induction false} ParseLinesAppend(a: seq<string>, b: seq<string>, start: int, end: int, now: int)
    ensures var pa := ParseLines(a, start, end, now);
            var pb := ParseLines(b, start, end, now);
            ParseLines(a + b, start, end, now) ==
              if pa.Err? then pa
              else if pb.Err? then pb
              else Ok(pa.value + pb.value)
    decreases |b|
  {
    if b == [] {
      assert a + b == a;
      var pa := ParseLines(a, start, end, now);
      assert pa.Ok? ==> pa.value + [] == pa.value;
    } else {
      var n := |b| - 1;
      assert (a + b)[..|a + b| - 1] == a + b[..n];
      assert (a + b)[|a + b| - 1] == b[n];
      ParseLinesAppend(a, b[..n], start, end, now);
      var pa := ParseLines(a, start, end, now);
      var pb := ParseLines(b[..n], start, end, now);
      var last := ParseLine(b[n], start, end);
      if pa.Ok? && pb.Ok? && last.Ok? && last.value.Some? {
        var c := last.value.value;
        assert pa.value + pb.value + [c] == pa.value + (pb.value + [c]);
      }
    }
  }

  /** A single line contributes its command, if kept, or its error. */
  lemma OneLine(line: string, start: int, end: int, now: int)
    ensures ParseLines([line], start, end, now) ==
              match ParseLine(line, start, end)
              case Err(e) => Err(e)
              case Ok(None) => Ok([])
              case Ok(Some(c)) => if c.time >= now then Ok([c]) else Ok([])
  {
    assert [line][..0] == [];
    assert forall c: Command :: [] + [c] == [c];
  }

  /** Lines joined by newlines reach the grammar as those lines when none
      of them names a macro. */
  lemma LinesBody(lines: seq<string>, macros: map<string, string>)
    requires |lines| >= 1
    requires forall k :: 0 <= k < |lines| ==> '\n' !in lines[k] && !Expands(lines[k], macros)
    ensures Split(Expanded(Join(lines, '\n'), macros), '\n') == lines
  {
    SplitJoin(lines, '\n');
    ExpandedUnchanged(Join(lines, '\n'), macros);
  }

  lemma TwoLineBody(l1: string, l2: string)
    requires '\n' !in l1 && '\n' !in l2
    ensures Split(Expanded(l1 + "\n" + l2, map[]), '\n') == [l1, l2]
  {
    assert [l1, l2][..1] == [l1];
    LinesBody([l1, l2], map[]);
  }

  lemma ThreeLineBody(l1: string, l2: string, l3: string)
    requires '\n' !in l1 && '\n' !in l2 && '\n' !in l3
    ensures Split(Expanded(l1 + "\n" + l2 + "\n" + l3, map[]), '\n') == [l1, l2, l3]
  {
    assert [l1, l2, l3][..2] == [l1, l2] && [l1, l2][..1] == [l1];
    assert Join([l1, l2], '\n') == l1 + "\n" + l2;
    LinesBody([l1, l2, l3], map[]);
  }

  lemma Regroup(a: string, nl: string, x: string, b: string, y: string, c: string)
    ensures a + nl + x + b + nl + y + c == a + nl + (x + b) + nl + (y + c)
  {
  }

  /** The parse of two lines that both yield commands kept at `now`. */
  lemma TwoCommands(l1: string, l2: string, c1: Command, c2: Command, start: int, end: int, now: int)
    requires ParseLine(l1, start, end) == Ok(Some(c1)) && ParseLine(l2, start, end) == Ok(Some(c2))
    requires now <= c1.time && now <= c2.time
    ensures ParseLines([l1, l2], start, end, now) == Ok([c1, c2])
  {
    OneLine(l1, start, end, now);
    OneLine(l2, start, end, now);
    ParseLinesAppend([l1], [l2], start, end, now);
    assert [l1] + [l2] == [l1, l2];
    assert [c1] + [c2] == [c1, c2];
  }

  /** A command text as written in the examples: one line, non-empty, no
      white space at either end. */
  predicate CleanText(t: string) {
    t != [] && '\n' !in t && !IsSpace(t[0]) && !IsSpace(t[|t| - 1])
  }

  /** A line that does not open with `end`, a space, a sign or a colon is
      a plain command at the start time. */
  lemma UnprefixedLine(line: string, start: int, end: int)
    requires line != [] && !StartsWith(line, "end") && line[0] != ' ' && line[0] != ':' && !IsSign(line[0])
    ensures ParseLine(line, start, end) == Ok(Timed(line, start))
  {
    assert SplitEnd(line) == (false, line);
    assert SplitSpace(line) == (false, line);
    assert SplitOffset(line) == (None, line);
    assert !StartsWith(line, ": ") by {
      if |line| >= 2 { assert line[..2][0] == line[0]; }
    }
    assert MatchPrefix(line) == None;
  }

  lemma TenValue()
    ensures DigitsValue("10") == 10
  {
    assert "10"[..1] == "1";
    assert "1"[..0] == "";
  }

  /** A prefixed line whose rest is a clean command and whose sign, if
      any, is not a comma, yields that command at its anchor plus offset. */
  lemma PrefixedCommand(p: Prefix, start: int, end: int)
    requires WellFormed(p) && p.rest != [] && Strip(p.rest) == p.rest
    requires p.offset.Some? ==> p.offset.value.sign != ','
                                && InRange((if p.atEnd then end else start) + PrefixMinutes(p))
    ensures ParseLine(RenderPrefix(p), start, end)
            == Ok(Some(Command((if p.atEnd then end else start) + PrefixMinutes(p), p.rest)))
  {
    PrefixedLine(p, start, end);
    CleanOutcome(RenderPrefix(p), p, start, end);
  }

  lemma CleanOutcome(line: string, p: Prefix, start: int, end: int)
    requires p.rest != [] && Strip(p.rest) == p.rest
    requires p.offset.Some? ==> p.offset.value.sign != ','
                                && InRange((if p.atEnd then end else start) + PrefixMinutes(p))
    ensures PrefixedOutcome(line, p, start, end)
            == Ok(Some(Command((if p.atEnd then end else start) + PrefixMinutes(p), p.rest)))
  {
  }

  /** A clean command on a line of its own runs at the start time. */
  lemma PlainCommand(c: string, start: int, end: int)
    requires c != [] && Strip(c) == c && !StartsWith(c, "end") && c[0] != ':' && !IsSign(c[0])
    ensures ParseLine(c, start, end) == Ok(Some(Command(start, c)))
  {
    UnprefixedLine(c, start, end);
  }

  lemma PlusTenLine(c: string, start: int, end: int)
    requires c != [] && Strip(c) == c && InRange(start + 10)
    ensures ParseLine("+10: " + c, start, end) == Ok(Some(Command(start + 10, c)))
  {
    var p := Prefix(false, false, Some(Offset('+', "10")), c);
    assert RenderPrefix(p) == "+10: " + c;
    TenValue();
    assert PrefixMinutes(p) == 10;
    assert (if p.atEnd then end else start) + PrefixMinutes(p) == start + 10;
    PrefixedCommand(p, start, end);
  }

  lemma EndMinusTenLine(c: string, start: int, end: int)
    requires c != [] && Strip(c) == c && InRange(end - 10)
    ensures ParseLine("end -10: " + c, start, end) == Ok(Some(Command(end - 10, c)))
  {
    var p := Prefix(true, true, Some(Offset('-', "10")), c);
    assert RenderPrefix(p) == "end -10: " + c;
    TenValue();
    assert PrefixMinutes(p) == -10;
    assert (if p.atEnd then end else start) + PrefixMinutes(p) == end - 10;
    PrefixedCommand(p, start, end);
  }

  lemma EndLine(c: string, start: int, end: int)
    requires c != [] && Strip(c) == c
    ensures ParseLine("end: " + c, start, end) == Ok(Some(Command(end, c)))
  {
    var p := Prefix(true, false, None, c);
    assert RenderPrefix(p) == "end: " + c;
    PrefixedCommand(p, start, end);
  }

  /** An offset that takes the time out of the years 1 to 9999 fails the
      line: `datetime` arithmetic raises OverflowError. */
  lemma OffsetOutOfRange(p: Prefix, start: int, end: int)
    requires WellFormed(p) && p.offset.Some? && p.offset.value.sign != ','
    requires !InRange((if p.atEnd then end else start) + PrefixMinutes(p))
    ensures ParseLine(RenderPrefix(p), start, end) == Err(OutOfRange(RenderPrefix(p)))
  {
    PrefixedLine(p, start, end);
  }

  /** `+99999999999: c`, some 190000 years on, fails from every start time
      a `datetime` can hold. */
  lemma HugeOffsetLine(c: string, start: int, end: int)
    requires InRange(start)
    ensures ParseLine("+99999999999: " + c, start, end) == Err(OutOfRange("+99999999999: " + c))
  {
    var p := Prefix(false, false, Some(Offset('+', "99999999999")), c);
    assert RenderPrefix(p) == "+99999999999: " + c;
    NinesValue();
    OffsetOutOfRange(p, start, end);
  }

  lemma NinesValue()
    ensures DigitsValue("99999999999") == 99999999999
  {
    assert "9"[..0] == "";
    assert DigitsValue("9") == 9;
    assert "99"[..1] == "9";
    assert DigitsValue("99") == 99;
    assert "999"[..2] == "99";
    assert DigitsValue("999") == 999;
    assert "9999"[..3] == "999";
    assert DigitsValue("9999") == 9999;
    assert "99999"[..4] == "9999";
    assert DigitsValue("99999") == 99999;
    assert "999999"[..5] == "99999";
    assert DigitsValue("999999") == 999999;
    assert "9999999"[..6] == "999999";
    assert DigitsValue("9999999") == 9999999;
    assert "99999999"[..7] == "9999999";
    assert DigitsValue("99999999") == 99999999;
    assert "999999999"[..8] == "99999999";
    assert DigitsValue("999999999") == 999999999;
    assert "9999999999"[..9] == "999999999";
    assert DigitsValue("9999999999") == 9999999999;
    assert "99999999999"[..10] == "9999999999";
    assert DigitsValue("99999999999") == 99999999999;
  }

  /** The first example of the source's documentation, for any two
      commands (`echo 'Wake up!'` and `echo 'Wake up, you are 10 minutes
      late!'` there): a plain line runs at the start, a `+10:` line ten
      minutes later. */
  lemma WakeUpExample(c1: string, c2: string, start: int, end: int, now: int)
    requires CleanText(c1) && CleanText(c2) && !StartsWith(c1, "end") && c1[0] != ':' && !IsSign(c1[0])
    requires now <= start && InRange(start + 10)
    ensures ParseCommandsSpec(c1 + "\n" + "+10: " + c2, map[], start, end, now)
            == Ok([Command(start, c1), Command(start + 10, c2)])
  {
    var l2 := "+10: " + c2;
    StripFixed(c1);
    StripFixed(c2);
    PlainCommand(c1, start, end);
    PlusTenLine(c2, start, end);
    TwoCommands(c1, l2, Command(start, c1), Command(start + 10, c2), start, end, now);
    assert c1 + "\n" + "+10: " + c2 == c1 + "\n" + l2;
    assert '\n' !in l2;
    TwoLineBody(c1, l2);
  }

  /** The first example with its own commands and times: 19 June 3011,
      08:30 to 09:00, any `now` up to the start. */
  lemma WakeUpDoctest(now: int)
    requires now <= MinutesOf(DateTime(3011, 6, 19, 8, 30))
    ensures ParseCommandsSpec("echo 'Wake up!'" + "\n" + "+10: " + "echo 'Wake up, you are 10 minutes late!'", map[],
                              MinutesOf(DateTime(3011, 6, 19, 8, 30)), MinutesOf(DateTime(3011, 6, 19, 9, 0)), now)
            == Ok([Command(MinutesOf(DateTime(3011, 6, 19, 8, 30)), "echo 'Wake up!'"),
                   Command(MinutesOf(DateTime(3011, 6, 19, 8, 40)), "echo 'Wake up, you are 10 minutes late!'")])
  {
    ExampleDay(8, 30);
    ExampleDay(8, 40);
    ExampleDay(9, 0);
    WakeUpTexts();
    WakeUpExample("echo 'Wake up!'", "echo 'Wake up, you are 10 minutes late!'",
                  MinutesOf(DateTime(3011, 6, 19, 8, 30)), MinutesOf(DateTime(3011, 6, 19, 9, 0)), now);
  }

  /** 19 June 3011, the day of both examples, is day 380386. */
  lemma ExampleDate()
    ensures ValidDate(Date(3011, 6, 19)) && DayOfDate(Date(3011, 6, 19)) == 380386
  {
    YearStartClosed(3011);
    assert LeapsBefore(3011) == 729 && LeapsBefore(1970) == 477;
    assert YearStart(3011) == 380217;
  }

  lemma ExampleDay(h: int, m: int)
    requires 0 <= h < 24 && 0 <= m < 60
    ensures ValidDateTime(DateTime(3011, 6, 19, h, m))
    ensures MinutesOf(DateTime(3011, 6, 19, h, m)) == 380386 * MinutesPerDay + h * 60 + m
    ensures InRange(MinutesOf(DateTime(3011, 6, 19, h, m)))
  {
    ExampleDate();
  }

  lemma WakeUpTexts()
    ensures CleanText("echo 'Wake up!'") && CleanText("echo 'Wake up, you are 10 minutes late!'")
    ensures var c1 := "echo 'Wake up!'"; !StartsWith(c1, "end") && c1[0] != ':' && !IsSign(c1[0])
  {
    var c1 := "echo 'Wake up!'";
    assert c1[..3][1] != "end"[1];
  }

  /** The second example of the source's documentation, for any three
      commands (`Turn on lights`, `Dim lights`, `Turn off lights` there):
      `end -10:` and `end:` are timed from the end of the event. */
  lemma LightsExample(c1: string, c2: string, c3: string, start: int, end: int, now: int)
    requires CleanText(c1) && CleanText(c2) && CleanText(c3)
    requires !StartsWith(c1, "end") && c1[0] != ':' && !IsSign(c1[0])
    requires now <= start && now <= end - 10 && InRange(end - 10)
    ensures ParseCommandsSpec(c1 + "\n" + "end -10: " + c2 + "\n" + "end: " + c3, map[], start, end, now)
            == Ok([Command(start, c1), Command(end - 10, c2), Command(end, c3)])
  {
    var l2, l3 := "end -10: " + c2, "end: " + c3;
    StripFixed(c1);
    StripFixed(c2);
    StripFixed(c3);
    PlainCommand(c1, start, end);
    EndMinusTenLine(c2, start, end);
    EndLine(c3, start, end);
    ThreeCommands(c1, l2, l3, Command(start, c1), Command(end - 10, c2), Command(end, c3), start, end, now);
    LightsBody(c1, c2, c3);
  }

  /** The second example with its own commands and times: 19 June 3011,
      18:30 to 23:00, any `now` up to the start. */
  lemma LightsDoctest(now: int)
    requires now <= MinutesOf(DateTime(3011, 6, 19, 18, 30))
    ensures ParseCommandsSpec("Turn on lights" + "\n" + "end -10: " + "Dim lights" + "\n" + "end: " + "Turn off lights", map[],
                              MinutesOf(DateTime(3011, 6, 19, 18, 30)), MinutesOf(DateTime(3011, 6, 19, 23, 0)), now)
            == Ok([Command(MinutesOf(DateTime(3011, 6, 19, 18, 30)), "Turn on lights"),
                   Command(MinutesOf(DateTime(3011, 6, 19, 22, 50)), "Dim lights"),
                   Command(MinutesOf(DateTime(3011, 6, 19, 23, 0)), "Turn off lights")])
  {
    ExampleDay(18, 30);
    ExampleDay(22, 50);
    ExampleDay(23, 0);
    LightsTexts();
    LightsExample("Turn on lights", "Dim lights", "Turn off lights",
                  MinutesOf(DateTime(3011, 6, 19, 18, 30)), MinutesOf(DateTime(3011, 6, 19, 23, 0)), now);
  }

  lemma LightsTexts()
    ensures CleanText("Turn on lights") && CleanText("Dim lights") && CleanText("Turn off lights")
    ensures var c1 := "Turn on lights"; !StartsWith(c1, "end") && c1[0] != ':' && !IsSign(c1[0])
  {
    var c1 := "Turn on lights";
    assert c1[..3][0] != "end"[0];
  }

  /** The parse of three lines that all yield commands kept at `now`. */
  lemma ThreeCommands(l1: string, l2: string, l3: string, k1: Command, k2: Command, k3: Command, start: int, end: int, now: int)
    requires ParseLine(l1, start, end) == Ok(Some(k1)) && ParseLine(l2, start, end) == Ok(Some(k2))
    requires ParseLine(l3, start, end) == Ok(Some(k3))
    requires now <= k1.time && now <= k2.time && now <= k3.time
    ensures ParseLines([l1, l2, l3], start, end, now) == Ok([k1, k2, k3])
  {
    TwoCommands(l1, l2, k1, k2, start, end, now);
    OneLine(l3, start, end, now);
    ParseLinesAppend([l1, l2], [l3], start, end, now);
    assert [l1, l2] + [l3] == [l1, l2, l3];
    assert [k1, k2] + [k3] == [k1, k2, k3];
  }

  lemma LightsBody(c1: string, c2: string, c3: string)
    requires '\n' !in c1 && '\n' !in c2 && '\n' !in c3
    ensures Split(Expanded(c1 + "\n" + "end -10: " + c2 + "\n" + "end: " + c3, map[]), '\n')
            == [c1, "end -10: " + c2, "end: " + c3]
  {
    Regroup(c1, "\n", "end -10: ", c2, "end: ", c3);
    assert '\n' !in "end -10: " + c2 && '\n' !in "end: " + c3;
    ThreeLineBody(c1, "end -10: " + c2, "end: " + c3);
  }
}

/** The string operations the scheduler relies on: Python's `str.strip()`,
    `str.split("\n")`, prefix tests and runs of decimal digits. */
module Text {

  /** The characters Python 2's `str.strip()` removes: space, tab, newline,
      carriage return, vertical tab and form feed. */
  predicate IsSpace(c: char) {
    c == ' ' || c == '\t' || c == '\n' || c == '\r' || c == '\U{B}' || c == '\U{C}'
  }

  /** The characters `\d` matches in a byte-string pattern. */
  predicate IsDigit(c: char) {
    '0' <= c <= '9'
  }

  predicate AllDigits(s: string) {
    forall k :: 0 <= k < |s| ==> IsDigit(s[k])
  }

  predicate StartsWith(s: string, prefix: string) {
    |prefix| <= |s| && s[..|prefix|] == prefix
  }

  /** Drops leading white space (see `TrimLeftSound`). */
  function TrimLeft(s: string): string {
    if s != [] && IsSpace(s[0]) then TrimLeft(s[1..]) else s
  }

  /** Drops trailing white space (see `TrimRightSound`). */
  function TrimRight(s: string): string {
    if s != [] && IsSpace(s[|s| - 1]) then TrimRight(s[..|s| - 1]) else s
  }

  /** `TrimLeft` removes exactly the white space at the head. */
  lemma {:induction false} TrimLeftSound(s: string)
    ensures var r := TrimLeft(s);
            |r| <= |s| && r == s[|s| - |r|..]
            && (forall k :: 0 <= k < |s| - |r| ==> IsSpace(s[k]))
            && (r != [] ==> !IsSpace(r[0]))
  {
    if s != [] && IsSpace(s[0]) {
      var t := s[1..];
      TrimLeftSound(t);
      var r := TrimLeft(t);
      assert TrimLeft(s) == r;
      assert t[|t| - |r|..] == s[|s| - |r|..];
      forall k | 0 <= k < |s| - |r| ensures IsSpace(s[k]) {
        if k > 0 {
          assert s[k] == t[k - 1];
        }
      }
    }
  }

  /** `TrimRight` removes exactly the white space at the tail. */
  lemma {:induction false} TrimRightSound(s: string)
    ensures var r := TrimRight(s);
            |r| <= |s| && r == s[..|r|]
            && (forall k :: |r| <= k < |s| ==> IsSpace(s[k]))
            && (r != [] ==> !IsSpace(r[|r| - 1]))
  {
    if s != [] && IsSpace(s[|s| - 1]) {
      var t := s[..|s| - 1];
      TrimRightSound(t);
      var r := TrimRight(t);
      assert TrimRight(s) == r;
      assert t[..|r|] == s[..|r|];
      forall k | |r| <= k < |s| ensures IsSpace(s[k]) {
        if k < |t| {
          assert s[k] == t[k];
        }
      }
    }
  }

  /** Python's `str.strip()`: neither end of the result is white space
      (see `StripInfix` for what was removed). */
  function Strip(s: string): (r: string)
    ensures r == [] || (!IsSpace(r[0]) && !IsSpace(r[|r| - 1]))
  {
    TrimLeftSound(s);
    TrimRightSound(TrimLeft(s));
    StripEnds(TrimLeft(s), TrimRight(TrimLeft(s)));
    TrimRight(TrimLeft(s))
  }

  lemma StripEnds(l: string, r: string)
    requires |r| <= |l| && r == l[..|r|]
    requires l != [] ==> !IsSpace(l[0])
    requires r != [] ==> !IsSpace(r[|r| - 1])
    ensures r == [] || (!IsSpace(r[0]) && !IsSpace(r[|r| - 1]))
  {
    if r != [] {
      assert r[0] == l[0];
    }
  }

  /** The result of `Strip` is the infix of `s` left once the white space
      at both ends is removed: everything before and after it is white
      space. */
  lemma StripInfix(s: string)
    ensures var r := Strip(s);
            var i := |s| - |TrimLeft(s)|;
              0 <= i <= |s| - |r| && r == s[i..i + |r|]
              && (forall k :: 0 <= k < i ==> IsSpace(s[k]))
              && (forall k :: i + |r| <= k < |s| ==> IsSpace(s[k]))
  {
    var l := TrimLeft(s);
    var r := TrimRight(l);
    TrimLeftSound(s);
    TrimRightSound(l);
    assert Strip(s) == r;
    StripShape(s, |s| - |l|, l, r);
  }

  lemma StripShape(s: string, i: int, l: string, r: string)
    requires 0 <= i <= |s| && l == s[i..]
    requires |r| <= |l| && r == l[..|r|]
    requires forall k :: |r| <= k < |l| ==> IsSpace(l[k])
    ensures i + |r| <= |s| && r == s[i..i + |r|]
    ensures forall k :: i + |r| <= k < |s| ==> IsSpace(s[k])
  {
    forall k | i + |r| <= k < |s| ensures IsSpace(s[k]) {
      assert s[k] == l[k - i];
    }
  }

  /** A string is its own strip exactly when it is empty or has no white
      space at either end. */
  lemma StripFixed(s: string)
    ensures Strip(s) == s <==> (s == [] || (!IsSpace(s[0]) && !IsSpace(s[|s| - 1])))
  {
    if s != [] && !IsSpace(s[0]) && !IsSpace(s[|s| - 1]) {
      assert TrimLeft(s) == s;
      assert TrimRight(s) == s;
    }
  }

  /** Stripping twice is stripping once. */
  lemma StripIdempotent(s: string)
    ensures Strip(Strip(s)) == Strip(s)
  {
    StripFixed(Strip(s));
  }

  /** Inverse of `Split`: the parts glued back with `sep` between them. */
  function Join(parts: seq<string>, sep: char): (s: string)
    requires |parts| >= 1
    decreases |parts|
  {
    if |parts| == 1 then parts[0]
    else Join(parts[..|parts| - 1], sep) + [sep] + parts[|parts| - 1]
  }

  /** Python's `s.split(sep)` for a one-character separator: always at least
      one part, none containing `sep`, and joining them gives `s` back. */
  function Split(s: string, sep: char): (parts: seq<string>)
    ensures |parts| >= 1
    ensures forall k :: 0 <= k < |parts| ==> sep !in parts[k]
    ensures Join(parts, sep) == s
    decreases |s|
  {
    if s == [] then [""]
    else
      var p := Split(s[..|s| - 1], sep);
      var c := s[|s| - 1];
      assert s == s[..|s| - 1] + [c];
      if c == sep then
        assert (p + [""])[..|p|] == p;
        p + [""]
      else
        var q := p[..|p| - 1] + [p[|p| - 1] + [c]];
        assert q[..|q| - 1] == p[..|p| - 1];
        assert |p| > 1 ==> Join(p, sep) == Join(p[..|p| - 1], sep) + [sep] + p[|p| - 1];
        q
  }

  /** Splitting a joined list of separator-free parts gives the parts back. */
  lemma {:induction false} SplitJoin(parts: seq<string>, sep: char)
    requires |parts| >= 1
    requires forall k :: 0 <= k < |parts| ==> sep !in parts[k]
    ensures Split(Join(parts, sep), sep) == parts
    decreases |Join(parts, sep)|
  {
    var n := |parts|;
    var last := parts[n - 1];
    if last == [] {
      if n > 1 {
        var init := parts[..n - 1];
        assert Join(parts, sep) == Join(init, sep) + [sep];
        SplitJoin(init, sep);
        SplitAfterSep(Join(init, sep), sep);
        assert parts == init + [""];
      }
    } else {
      var c := last[|last| - 1];
      var shorter := parts[..n - 1] + [last[..|last| - 1]];
      assert parts == shorter[..n - 1] + [shorter[n - 1] + [c]] by {
        assert shorter[..n - 1] == parts[..n - 1];
        assert last == last[..|last| - 1] + [c];
      }
      assert c != sep by { assert c in last; }
      JoinExtend(shorter, c, sep);
      NoSepShorter(parts, sep);
      SplitJoin(shorter, sep);
      SplitAfterChar(Join(shorter, sep), c, sep);
    }
  }

  lemma NoSepShorter(parts: seq<string>, sep: char)
    requires |parts| >= 1 && parts[|parts| - 1] != []
    requires forall k :: 0 <= k < |parts| ==> sep !in parts[k]
    ensures var last := parts[|parts| - 1];
            var shorter := parts[..|parts| - 1] + [last[..|last| - 1]];
            forall k :: 0 <= k < |shorter| ==> sep !in shorter[k]
  {
    var n := |parts|;
    var last := parts[n - 1];
    var shorter := parts[..n - 1] + [last[..|last| - 1]];
    forall k | 0 <= k < |shorter| ensures sep !in shorter[k] {
      if k < n - 1 {
        assert shorter[k] == parts[k];
      } else {
        assert forall x :: x in last[..|last| - 1] ==> x in last;
      }
    }
  }

  /** A trailing separator starts a new, empty part. */
  lemma SplitAfterSep(s: string, sep: char)
    ensures Split(s + [sep], sep) == Split(s, sep) + [""]
  {
    assert (s + [sep])[..|s|] == s;
  }

  /** A trailing character other than the separator extends the last part. */
  lemma SplitAfterChar(s: string, c: char, sep: char)
    requires c != sep
    ensures var p := Split(s, sep);
            Split(s + [c], sep) == p[..|p| - 1] + [p[|p| - 1] + [c]]
  {
    assert (s + [c])[..|s|] == s;
  }

  /** Extending the last part extends the joined string. */
  lemma JoinExtend(parts: seq<string>, c: char, sep: char)
    requires |parts| >= 1
    ensures Join(parts[..|parts| - 1] + [parts[|parts| - 1] + [c]], sep) == Join(parts, sep) + [c]
  {
    var n := |parts|;
    var q := parts[..n - 1] + [parts[n - 1] + [c]];
    assert q[..n - 1] == parts[..n - 1];
  }

  /** The number of consecutive decimal digits in `s` from position `i`
      (see `DigitRunSound`). */
  function DigitRun(s: string, i: nat): (n: nat)
    requires i <= |s|
    ensures i + n <= |s|
    decreases |s| - i
  {
    if i < |s| && IsDigit(s[i]) then 1 + DigitRun(s, i + 1) else 0
  }

  /** `DigitRun` counts the longest run of digits: what it covers is all
      digits, and it stops at a non-digit or at the end. */
  lemma {:induction false} DigitRunSound(s: string, i: nat)
    requires i <= |s|
    ensures var n := DigitRun(s, i);
            AllDigits(s[i..i + n]) && (i + n == |s| || !IsDigit(s[i + n]))
    decreases |s| - i
  {
    if i < |s| && IsDigit(s[i]) {
      DigitRunSound(s, i + 1);
      var n := DigitRun(s, i);
      assert s[i..i + n] == [s[i]] + s[i + 1..i + n];
    }
  }

  /** A run of `n` digits followed by a non-digit is counted as `n`. */
  lemma {:induction false} DigitRunStops(s: string, i: nat, n: nat)
    requires i + n < |s| && AllDigits(s[i..i + n]) && !IsDigit(s[i + n])
    ensures DigitRun(s, i) == n
    decreases n
  {
    if n > 0 {
      assert IsDigit(s[i]) by { assert s[i] == s[i..i + n][0]; }
      assert s[i + 1..i + n] == s[i..i + n][1..];
      DigitRunStops(s, i + 1, n - 1);
    }
  }

  /** The value of a decimal digit (only ever applied to digits). */
  function DigitValue(c: char): nat {
    if IsDigit(c) then c as int - '0' as int else 0
  }

  /** The value of a string of decimal digits, as Python's `int` reads it. */
  function DigitsValue(ds: string): nat
    decreases |ds|
  {
    if ds == [] then 0 else DigitsValue(ds[..|ds| - 1]) * 10 + DigitValue(ds[|ds| - 1])
  }
}

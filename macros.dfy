/** Macro substitution in an event body (the first loop of
    `GCalAdapter.parse_commands`). For every line of the ORIGINAL body that
    reads `macro: NAME`, the contents of the macro file NAME replace the text
    `macro: NAME` -- but only where it stands at the very start of the whole
    body as it is at that moment, since `^` without MULTILINE anchors at the
    start of the string. The macro directory is a map from file name to file
    contents; a name missing from it is a file that cannot be opened, and is
    skipped. Names are matched literally. */
module Macros {
  import opened Results
  import opened Text

  const MacroTag: string := "macro: "

  /** The name a line refers to when it reads `macro: NAME` (`^macro: (.*)`):
      there is one exactly when the line opens with `macro: `, and it is the
      rest of the line. */
  function MacroName(line: string): (r: Option<string>)
    ensures r.Some? <==> StartsWith(line, MacroTag)
    ensures r.Some? ==> MacroTag + r.value == line
  {
    if StartsWith(line, MacroTag) then
      assert line == line[..|MacroTag|] + line[|MacroTag|..];
      Some(line[|MacroTag|..])
    else None
  }

  /** A line that names a macro present in the directory. */
  predicate Expands(line: string, macros: map<string, string>) {
    MacroName(line).Some? && MacroName(line).value in macros
  }

  /** `re.sub("^macro: " + name, contents, d)`, the pattern read literally:
      the text `macro: NAME` at the very start of `d` becomes `contents`, and a
      body that does not start with it is returned as it is. */
  function Substitute(d: string, name: string, contents: string): (r: string)
    ensures !StartsWith(d, MacroTag + name) ==> r == d
    ensures StartsWith(d, MacroTag + name) ==>
              StartsWith(r, contents) && r[|contents|..] == d[|MacroTag| + |name|..]
  {
    var pattern := MacroTag + name;
    if StartsWith(d, pattern) then contents + d[|pattern|..] else d
  }

  /** The body after the substitutions asked for by `lines`, in order. */
  function ExpandLines(d: string, lines: seq<string>, macros: map<string, string>): string
    decreases |lines|
  {
    if lines == [] then d
    else
      var before := ExpandLines(d, lines[..|lines| - 1], macros);
      var line := lines[|lines| - 1];
      if Expands(line, macros) then
        Substitute(before, MacroName(line).value, macros[MacroName(line).value])
      else before
  }

  /** The body handed on to the prefix grammar; one that does not start
      with `macro: ` is handed on unchanged. */
  function Expanded(description: string, macros: map<string, string>): (r: string)
    ensures !StartsWith(description, MacroTag) ==> r == description
  {
    var r := ExpandLines(description, Split(description, '\n'), macros);
    assert !StartsWith(description, MacroTag) ==> r == description by {
      if !StartsWith(description, MacroTag) {
        OnlyAtStart(description, Split(description, '\n'), macros);
      }
    }
    r
  }

  /** One more line of the original body: its substitution, if any, applies
      to the body as the earlier lines left it. */
  lemma ExpandLinesStep(d: string, lines: seq<string>, i: int, macros: map<string, string>)
    requires 0 <= i < |lines|
    ensures ExpandLines(d, lines[..i + 1], macros) ==
              if Expands(lines[i], macros)
              then Substitute(ExpandLines(d, lines[..i], macros), MacroName(lines[i]).value, macros[MacroName(lines[i]).value])
              else ExpandLines(d, lines[..i], macros)
  {
    assert lines[..i + 1][..i] == lines[..i];
    assert lines[..i + 1][i] == lines[i];
  }

  /** The substitution loop over the original lines. */
  method ExpandMacros(description: string, macros: map<string, string>) returns (r: string)
    ensures r == Expanded(description, macros)
  {
    var lines := Split(description, '\n');
    r := description;
    for i := 0 to |lines|
      invariant r == ExpandLines(description, lines[..i], macros)
    {
      ExpandLinesStep(description, lines, i, macros);
      var name := MacroName(lines[i]);
      if name.Some? && name.value in macros {
        r := Substitute(r, name.value, macros[name.value]);
      }
    }
    assert lines[..|lines|] == lines;
  }

  /** With no line naming an available macro, the body is left as it is. */
  lemma {:induction false} NoMacrosUnchanged(d: string, lines: seq<string>, macros: map<string, string>)
    requires forall k :: 0 <= k < |lines| ==> !Expands(lines[k], macros)
    ensures ExpandLines(d, lines, macros) == d
    decreases |lines|
  {
    if lines != [] {
      NoMacrosUnchanged(d, lines[..|lines| - 1], macros);
    }
  }

  /** A body that does not start with `macro: ` is never changed, whatever
      its later lines say: substitution happens only at the very start. */
  lemma {:induction false} OnlyAtStart(d: string, lines: seq<string>, macros: map<string, string>)
    requires !StartsWith(d, MacroTag)
    ensures ExpandLines(d, lines, macros) == d
    decreases |lines|
  {
    if lines != [] {
      OnlyAtStart(d, lines[..|lines| - 1], macros);
      var line := lines[|lines| - 1];
      if Expands(line, macros) {
        var pattern := MacroTag + MacroName(line).value;
        assert pattern[..|MacroTag|] == MacroTag;
      }
    }
  }

  /** A description without macros, as a whole body: when no line
      of the body names an available macro, the body reaches the grammar
      unchanged. */
  lemma ExpandedUnchanged(description: string, macros: map<string, string>)
    requires forall line :: line in Split(description, '\n') ==> !Expands(line, macros)
    ensures Expanded(description, macros) == description
  {
    NoMacrosUnchanged(description, Split(description, '\n'), macros);
  }

  lemma {:induction false} JoinStartsWithFirst(parts: seq<string>, sep: char)
    requires |parts| >= 1
    ensures StartsWith(Join(parts, sep), parts[0])
    decreases |parts|
  {
    if |parts| > 1 {
      var init := parts[..|parts| - 1];
      JoinStartsWithFirst(init, sep);
      assert init[0] == parts[0];
      var j := Join(parts, sep);
      assert j == Join(init, sep) + [sep] + parts[|parts| - 1];
      assert j[..|parts[0]|] == Join(init, sep)[..|parts[0]|];
    }
  }

  /** Substitution is single-pass: when the body's first line is
      `macro: NAME` for an available macro and no other line names one, the
      result is the macro's contents verbatim followed by the rest of the
      body, even if those contents themselves contain `macro:` lines. */
  lemma FirstLineMacro(description: string, macros: map<string, string>)
    requires var lines := Split(description, '\n');
             Expands(lines[0], macros)
             && forall k :: 1 <= k < |lines| ==> !Expands(lines[k], macros)
    ensures var name := MacroName(Split(description, '\n')[0]).value;
            |MacroTag| + |name| <= |description|
            && Expanded(description, macros) == macros[name] + description[|MacroTag| + |name|..]
  {
    var lines := Split(description, '\n');
    var name := MacroName(lines[0]).value;
    JoinStartsWithFirst(lines, '\n');
    var result := macros[name] + description[|MacroTag| + |name|..];
    assert lines[0] == MacroTag + name by {
      assert lines[0] == lines[0][..|MacroTag|] + lines[0][|MacroTag|..];
    }
    assert lines[..1] == [lines[0]];
    assert lines[..1][..0] == [];
    assert ExpandLines(description, lines[..1], macros) == result by {
      assert StartsWith(description, MacroTag + name) by {
        assert description[..|lines[0]|] == lines[0];
      }
    }
    ExpandAfterFirst(description, lines, macros, result, |lines|);
    assert lines[..|lines|] == lines;
  }

  lemma {:induction false} ExpandAfterFirst(d: string, lines: seq<string>, macros: map<string, string>, result: string, n: nat)
    requires 1 <= n <= |lines|
    requires ExpandLines(d, lines[..1], macros) == result
    requires forall k :: 1 <= k < |lines| ==> !Expands(lines[k], macros)
    ensures ExpandLines(d, lines[..n], macros) == result
    decreases n
  {
    if n > 1 {
      ExpandAfterFirst(d, lines, macros, result, n - 1);
      assert lines[..n][..n - 1] == lines[..n - 1];
    }
  }
}

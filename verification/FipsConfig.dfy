/** Reading one scalar of a YAML file by indentation. */
module FipsConfig {
  import opened FipsText
  import opened Wrappers

  /** A level of the path being read: how far its key is indented, and the key. */
  datatype Level = Level(indent: nat, key: string)

  datatype Entry = Entry(indent: nat, key: string, value: string)

  /** How many blanks the line starts with. */
  function Indent(line: string): nat {
    if line != "" && line[0] == ' ' then 1 + Indent(line[1..]) else 0
  }

  function FirstIndex(s: string, c: char): (i: nat)
    ensures i <= |s| && (forall j | 0 <= j < i :: s[j] != c) && (i < |s| ==> s[i] == c)
  {
    if s == "" || s[0] == c then 0 else 1 + FirstIndex(s[1..], c)
  }

  predicate IsComment(line: string) {
    StripStart(line) != "" && StripStart(line)[0] == '#'
  }

  /** The key and value of a line; nothing for blanks, comments and lines without a colon. */
  function ParseLine(line: string): Option<Entry> {
    var content := Strip(line);
    var colon := FirstIndex(content, ':');
    if content == "" || IsComment(line) || colon == |content| then None
    else Some(Entry(Indent(line), Strip(content[..colon]), content[colon + 1..]))
  }

  predicate IsQuote(c: char) { c == '"' || c == '\'' }

  /** `s.strip("\"'")` */
  function StripQuotes(s: string): string
    decreases |s|
  {
    if s == "" then s
    else if IsQuote(s[0]) then StripQuotes(s[1..])
    else if IsQuote(s[|s| - 1]) then StripQuotes(s[..|s| - 1])
    else s
  }

  function Scalar(value: string): string {
    StripQuotes(Strip(value[..FirstIndex(value, '#')]))
  }

  function Pop(stack: seq<Level>, indent: nat): seq<Level> {
    if stack != [] && stack[|stack| - 1].indent >= indent then Pop(stack[..|stack| - 1], indent) else stack
  }

  function Push(stack: seq<Level>, entry: Entry): seq<Level> {
    Pop(stack, entry.indent) + [Level(entry.indent, entry.key)]
  }

  predicate IsPath(stack: seq<Level>, wanted: seq<string>) {
    |stack| == |wanted| && forall i | 0 <= i < |stack| :: stack[i].key == wanted[i]
  }

  /** The first value whose path of keys is the wanted one. */
  function Scan(lines: seq<string>, stack: seq<Level>, wanted: seq<string>): Option<string> {
    if lines == [] then None
    else if ParseLine(lines[0]).None? then Scan(lines[1..], stack, wanted)
    else
      var entry := ParseLine(lines[0]).value;
      var pushed := Push(stack, entry);
      if IsPath(pushed, wanted) then Some(Scalar(entry.value)) else Scan(lines[1..], pushed, wanted)
  }

  /** `scalar_at_path`; the lines keep their breaks, which stripping removes before anything looks at them. */
  function ScalarAt(text: string, wanted: seq<string>): Option<string> {
    Scan(SplitLines(text), [], wanted)
  }

  method PopTo(stack: seq<Level>, indent: nat) returns (popped: seq<Level>)
    ensures popped == Pop(stack, indent)
  {
    popped := stack;
    while popped != [] && popped[|popped| - 1].indent >= indent
      invariant Pop(popped, indent) == Pop(stack, indent)
      decreases |popped|
    {
      popped := popped[..|popped| - 1];
    }
  }

  method ScalarAtPath(text: string, wanted: seq<string>) returns (value: Option<string>)
    ensures value == ScalarAt(text, wanted)
  {
    var lines := SplitLines(text);
    var stack: seq<Level> := [];
    for i := 0 to |lines|
      invariant Scan(lines, [], wanted) == Scan(lines[i..], stack, wanted)
    {
      var entry := ParseLine(lines[i]);
      if entry.Some? {
        stack := PopTo(stack, entry.value.indent);
        stack := stack + [Level(entry.value.indent, entry.value.key)];
        if IsPath(stack, wanted) { return Some(Scalar(entry.value.value)); }
      }
    }
    return None;
  }

  // ----- adding lines below a top-level key -----

  ghost predicate Under(stack: seq<Level>, top: string) {
    stack != [] && stack[0] == Level(0, top)
  }

  ghost predicate Elsewhere(wanted: seq<string>, top: string) {
    wanted != [] ==> wanted[0] != top
  }

  lemma {:induction false} PopAll(stack: seq<Level>)
    ensures Pop(stack, 0) == []
  {
    if stack != [] {
      PopAll(stack[..|stack| - 1]);
    }
  }

  lemma {:induction false} PopKeepsTop(stack: seq<Level>, top: string, indent: nat)
    requires Under(stack, top) && indent > 0
    ensures Under(Pop(stack, indent), top)
  {
    if stack[|stack| - 1].indent >= indent {
      PopKeepsTop(stack[..|stack| - 1], top, indent);
    }
  }

  /** Lines below a top-level key are invisible to a path that starts elsewhere. */
  lemma {:induction false} BelowIsInvisible(lines: seq<string>, rest: seq<string>, stack: seq<Level>, top: string,
        wanted: seq<string>)
    returns (after: seq<Level>)
    requires Under(stack, top) && Elsewhere(wanted, top)
    requires forall line <- lines :: ParseLine(line).Some? ==> ParseLine(line).value.indent > 0
    ensures Under(after, top) && Scan(lines + rest, stack, wanted) == Scan(rest, after, wanted)
  {
    hide ParseLine, Pop, Scalar;
    if lines == [] {
      assert lines + rest == rest;
      after := stack;
    } else {
      assert (lines + rest)[1..] == lines[1..] + rest;
      var entry := ParseLine(lines[0]);
      if entry.None? {
        after := BelowIsInvisible(lines[1..], rest, stack, top, wanted);
      } else {
        PopKeepsTop(stack, top, entry.value.indent);
        after := BelowIsInvisible(lines[1..], rest, Push(stack, entry.value), top, wanted);
      }
    }
  }

  /** Two stacks under the same top-level key read the rest alike, for a path that starts elsewhere. */
  lemma {:induction false} SameReading(lines: seq<string>, a: seq<Level>, b: seq<Level>, top: string,
        wanted: seq<string>)
    requires Under(a, top) && Under(b, top) && Elsewhere(wanted, top)
    ensures Scan(lines, a, wanted) == Scan(lines, b, wanted)
  {
    hide ParseLine, Pop, Scalar;
    if lines != [] {
      var entry := ParseLine(lines[0]);
      if entry.None? {
        SameReading(lines[1..], a, b, top, wanted);
      } else if entry.value.indent == 0 {
        PopAll(a);
        PopAll(b);
      } else {
        PopKeepsTop(a, top, entry.value.indent);
        PopKeepsTop(b, top, entry.value.indent);
        SameReading(lines[1..], Push(a, entry.value), Push(b, entry.value), top, wanted);
      }
    }
  }

  ghost predicate IsTop(line: string, top: string) {
    ParseLine(line).Some? && ParseLine(line).value.indent == 0 && ParseLine(line).value.key == top
  }

  /** Rewriting the value of a top-level key and adding lines below it changes no path that starts elsewhere. */
  lemma {:induction false} InsertedBelow(before: seq<string>, line: string, line': string, added: seq<string>,
        after: seq<string>, stack: seq<Level>, top: string, wanted: seq<string>)
    requires IsTop(line, top) && IsTop(line', top) && Elsewhere(wanted, top)
    requires forall l <- added :: ParseLine(l).Some? ==> ParseLine(l).value.indent > 0
    ensures Scan(before + ([line] + after), stack, wanted) ==
            Scan(before + ([line'] + (added + after)), stack, wanted)
  {
    hide ParseLine, Pop, Scalar;
    if before == [] {
      var a, b := Push(stack, ParseLine(line).value), Push(stack, ParseLine(line').value);
      PopAll(stack);
      assert before + ([line] + after) == [line] + after;
      assert before + ([line'] + (added + after)) == [line'] + (added + after);
      assert ([line] + after)[1..] == after && ([line'] + (added + after))[1..] == added + after;
      var below := BelowIsInvisible(added, after, b, top, wanted);
      SameReading(after, a, below, top, wanted);
    } else {
      var original, grown := before + ([line] + after), before + ([line'] + (added + after));
      assert original[1..] == before[1..] + ([line] + after) && grown[1..] == before[1..] + ([line'] + (added + after));
      var entry := ParseLine(before[0]);
      var stack' := if entry.None? then stack else Push(stack, entry.value);
      InsertedBelow(before[1..], line, line', added, after, stack', top, wanted);
    }
  }
}

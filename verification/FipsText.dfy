/** Python's view of text: white space, stripping and line breaks. */
module FipsText {

  /** `str.isspace` of one character, and `\s` in a regular expression */
  predicate IsSpace(c: char) {
    '\t' <= c <= '\r' || '\U{1C}' <= c <= '\U{1F}' || c == ' ' || c == '\U{85}' || c == '\U{A0}' || c == '\U{1680}' ||
    '\U{2000}' <= c <= '\U{200A}' || c == '\U{2028}' || c == '\U{2029}' || c == '\U{202F}' || c == '\U{205F}' ||
    c == '\U{3000}'
  }

  /** The characters at which `splitlines` ends a line. */
  predicate IsBreak(c: char) {
    '\n' <= c <= '\r' || '\U{1C}' <= c <= '\U{1E}' || c == '\U{85}' || c == '\U{2028}' || c == '\U{2029}'
  }

  /** By code point: the twenty-nine characters that Python takes for white space, and the ten that end a line. */
  lemma CharactersExactly(c: char)
    ensures IsSpace(c) <==>
            c as int in {
              9, 10, 11, 12, 13, 28, 29, 30, 31, 32, 133, 160, 5760, 8192, 8193, 8194, 8195, 8196, 8197, 8198, 8199,
              8200, 8201, 8202, 8232, 8233, 8239, 8287, 12288
            }
    ensures IsBreak(c) <==> c as int in {10, 11, 12, 13, 28, 29, 30, 133, 8232, 8233}
  {
  }

  predicate Unbroken(line: string) {
    forall j | 0 <= j < |line| :: !IsBreak(line[j])
  }

  predicate AllSpace(s: string) {
    forall c <- s :: IsSpace(c)
  }

  function StripStart(s: string): (r: string)
    ensures |r| <= |s| && r == s[|s| - |r|..] && AllSpace(s[..|s| - |r|])
    ensures r != "" ==> !IsSpace(r[0])
  {
    if s != "" && IsSpace(s[0]) then StripStart(s[1..]) else s
  }

  function StripEnd(s: string): (r: string)
    ensures |r| <= |s| && r == s[..|r|] && AllSpace(s[|r|..])
    ensures r != "" ==> !IsSpace(r[|r| - 1])
  {
    if s != "" && IsSpace(s[|s| - 1]) then StripEnd(s[..|s| - 1]) else s
  }

  /** `s.strip()` */
  function Strip(s: string): string {
    StripEnd(StripStart(s))
  }

  /** Stripping changes nothing when both ends are visible. */
  lemma StripPlain(s: string)
    requires s != "" && !IsSpace(s[0]) && !IsSpace(s[|s| - 1])
    ensures Strip(s) == s
  {
    hide IsSpace;
  }

  lemma Cut(s: string, n: nat)
    requires n <= |s|
    ensures s == s[..n] + s[n..]
  {
  }

  lemma StripParts(s: string) returns (before: string, after: string)
    ensures s == before + Strip(s) + after && AllSpace(before) && AllSpace(after)
  {
    hide StripStart, StripEnd;
    var start, stripped := StripStart(s), Strip(s);
    before, after := s[..|s| - |start|], start[|stripped|..];
    Cut(start, |stripped|);
    Cut(s, |s| - |start|);
    assert before + (stripped + after) == before + stripped + after;
  }

  // ----- lines -----

  /** Just past the first line break at or after `at`, or the end of the text. */
  function LineEnd(text: string, at: nat): (end: nat)
    requires at <= |text|
    ensures at <= end <= |text| && (at < |text| ==> at < end)
    decreases |text| - at
  {
    if at == |text| then at
    else if !IsBreak(text[at]) then LineEnd(text, at + 1)
    else if text[at] == '\r' && at + 1 < |text| && text[at + 1] == '\n' then at + 2
    else at + 1
  }

  /** `text.splitlines(keepends=True)` */
  function SplitLines(text: string): seq<string> {
    if text == "" then [] else
    var end := LineEnd(text, 0);
    [text[..end]] + SplitLines(text[end..])
  }

  /** `"".join(lines)` */
  function Join(lines: seq<string>): string {
    if lines == [] then "" else lines[0] + Join(lines[1..])
  }

  lemma {:induction false} JoinSplit(text: string)
    ensures Join(SplitLines(text)) == text
  {
    if text != "" {
      var end := LineEnd(text, 0);
      JoinSplit(text[end..]);
      assert text == text[..end] + text[end..];
    }
  }

  lemma {:induction false} JoinAppend(a: seq<string>, b: seq<string>)
    ensures Join(a + b) == Join(a) + Join(b)
  {
    if a == [] {
      assert a + b == b;
    } else {
      JoinAppend(a[1..], b);
      assert (a + b)[1..] == a[1..] + b;
    }
  }

  /** The line ends with its own break. */
  predicate Closed(line: string) {
    line != "" && IsBreak(line[|line| - 1])
  }

  /** No break inside the line, save the one that ends it. */
  ghost predicate OneLine(line: string) {
    && line != ""
    && (forall i | 0 <= i < |line| - 1 ::
          IsBreak(line[i]) ==> i == |line| - 2 && line[i] == '\r' && line[|line| - 1] == '\n')
  }

  lemma {:induction false} LineEndIsFirst(text: string, at: nat)
    requires at < |text|
    ensures var end := LineEnd(text, at);
            (forall i | at <= i < end - 1 ::
               IsBreak(text[i]) ==> i == end - 2 && text[i] == '\r' && text[end - 1] == '\n') &&
            (IsBreak(text[end - 1]) || end == |text|) &&
            (text[end - 1] == '\r' && end < |text| ==> text[end] != '\n')
    decreases |text| - at
  {
    if !IsBreak(text[at]) && at + 1 < |text| {
      LineEndIsFirst(text, at + 1);
    }
  }

  /** A closed line in front stays the first line, unless its lone carriage return meets a newline. */
  lemma {:induction false} LineEndOf(line: string, rest: string, at: nat)
    requires OneLine(line) && (Closed(line) || rest == "") && at < |line|
    requires at == |line| - 1 && at > 0 ==> line[at - 1] != '\r' || line[at] != '\n'
    requires line[|line| - 1] == '\r' && rest != "" ==> rest[0] != '\n'
    ensures LineEnd(line + rest, at) == |line|
    decreases |line| - at
  {
    var text := line + rest;
    assert text[at] == line[at];
    if at + 1 < |line| {
      assert text[at + 1] == line[at + 1];
      if !IsBreak(line[at]) {
        LineEndOf(line, rest, at + 1);
      }
    }
  }

  /** Nothing that follows completes a line break of the line. */
  predicate StaysApart(line: string, rest: string) {
    line != "" && line[|line| - 1] == '\r' && rest != "" ==> rest[0] != '\n'
  }

  lemma SplitFirst(line: string, rest: string)
    requires OneLine(line) && (Closed(line) || rest == "") && StaysApart(line, rest)
    ensures SplitLines(line + rest) == [line] + SplitLines(rest)
  {
    LineEndOf(line, rest, 0);
    assert (line + rest)[..|line|] == line && (line + rest)[|line|..] == rest;
  }

  /** What every split line is: one line, closed unless it is the last. */
  lemma {:induction false} SplitLine(text: string, i: nat)
    requires i < |SplitLines(text)|
    ensures var lines := SplitLines(text);
            OneLine(lines[i]) && (Closed(lines[i]) || i == |lines| - 1) &&
            (i + 1 < |lines| ==> lines[i + 1] != "" && StaysApart(lines[i], lines[i + 1]))
  {
    var end := LineEnd(text, 0);
    LineEndIsFirst(text, 0);
    if i > 0 {
      SplitLine(text[end..], i - 1);
    } else if end < |text| {
      assert SplitLines(text)[1] == text[end..][..LineEnd(text[end..], 0)];
    }
  }

  lemma {:induction false} SplitTail(text: string, i: nat)
    requires i <= |SplitLines(text)|
    ensures SplitLines(Join(SplitLines(text)[i..])) == SplitLines(text)[i..]
  {
    var lines := SplitLines(text);
    if i == 0 {
      JoinSplit(text);
    } else {
      var rest := text[LineEnd(text, 0)..];
      SplitTail(rest, i - 1);
      assert lines[i..] == SplitLines(rest)[i - 1..];
    }
  }

  /** What comes right after a line. */
  function Follower(lines: seq<string>, j: nat, x: string): string {
    if j + 1 < |lines| then lines[j + 1] else x
  }

  /** Closed lines that stay apart, of each other and of what follows. */
  ghost predicate AreLinesBefore(lines: seq<string>, x: string) {
    && (forall line <- lines :: OneLine(line) && Closed(line))
    && (forall j: nat | j < |lines| :: StaysApart(lines[j], Follower(lines, j, x)))
  }

  lemma FirstOfRest(lines: seq<string>, x: string)
    requires AreLinesBefore(lines, x) && lines != []
    ensures OneLine(lines[0]) && Closed(lines[0]) && AreLinesBefore(lines[1..], x)
    ensures StaysApart(lines[0], Join(lines[1..]) + x)
  {
    hide OneLine, Closed;
    var rest := lines[1..];
    assert lines[0] in lines && forall line <- rest :: line in lines;
    assert StaysApart(lines[0], Follower(lines, 0, x));
    forall j: nat | j < |rest| ensures StaysApart(rest[j], Follower(rest, j, x)) {
      assert StaysApart(lines[j + 1], Follower(lines, j + 1, x));
    }
    if rest == [] {
      assert Join(rest) + x == x;
    } else {
      assert OneLine(rest[0]) && Follower(lines, 0, x) == rest[0];
      NonEmptyLine(rest[0]);
      assert (Join(rest) + x)[0] == rest[0][0];
    }
  }

  lemma NonEmptyLine(line: string)
    requires OneLine(line)
    ensures line != ""
  {
  }

  lemma {:induction false} LinesSplit(lines: seq<string>, x: string)
    requires AreLinesBefore(lines, x)
    ensures SplitLines(Join(lines) + x) == lines + SplitLines(x)
  {
    hide SplitLines, AreLinesBefore, StaysApart, OneLine, Closed;
    if lines == [] {
      assert Join(lines) + x == x;
    } else {
      FirstOfRest(lines, x);
      LinesSplit(lines[1..], x);
      SplitFirst(lines[0], Join(lines[1..]) + x);
      assert Join(lines) + x == lines[0] + (Join(lines[1..]) + x);
    }
  }

  /** Lines of a text stay lines in front of any text that does not complete a line break. */
  lemma SplitAfter(text: string, i: nat, x: string)
    requires i < |SplitLines(text)|
    requires i > 0 ==> StaysApart(SplitLines(text)[i - 1], x)
    ensures SplitLines(Join(SplitLines(text)[..i]) + x) == SplitLines(text)[..i] + SplitLines(x)
  {
    hide SplitLines, StaysApart, OneLine, Closed;
    var lines := SplitLines(text);
    forall j: nat | j < i
      ensures OneLine(lines[j]) && Closed(lines[j]) && StaysApart(lines[j], Follower(lines[..i], j, x))
    {
      SplitLine(text, j);
    }
    LinesSplit(lines[..i], x);
  }
}

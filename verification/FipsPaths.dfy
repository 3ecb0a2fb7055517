/**
 Which line of a YAML file a path of keys names: the first whose key, preceded by the keys of the lines it is nested
 under, is that path. The one-pass reading with a stack is held against this.
 */
module FipsPaths {
  import opened FipsConfig
  import opened FipsText
  import opened Wrappers

  // ----- nesting -----

  /** The entries of the lines that have one. */
  function Entries(lines: seq<string>): seq<Entry> {
    if lines == [] then []
    else (if ParseLine(lines[0]).Some? then [ParseLine(lines[0]).value] else []) + Entries(lines[1..])
  }

  /** The last of the first `n` entries that is indented less. */
  function Enclosing(entries: seq<Entry>, n: nat, indent: nat): (parent: Option<nat>)
    requires n <= |entries|
    ensures parent.Some? ==> parent.value < n && entries[parent.value].indent < indent
  {
    if n == 0 then None
    else if entries[n - 1].indent < indent then Some(n - 1)
    else Enclosing(entries, n - 1, indent)
  }

  /** The entry is the last before the `n`th that is indented less; there is no such entry if it is none. */
  ghost predicate IsEnclosing(entries: seq<Entry>, n: nat, indent: nat, parent: Option<nat>)
    requires n <= |entries|
  {
    match parent
    case None => forall j | 0 <= j < n :: entries[j].indent >= indent
    case Some(p) => p < n && entries[p].indent < indent && forall j | p < j < n :: entries[j].indent >= indent
  }

  lemma {:induction false} EnclosingExactly(entries: seq<Entry>, n: nat, indent: nat)
    requires n <= |entries|
    ensures IsEnclosing(entries, n, indent, Enclosing(entries, n, indent))
  {
    if n > 0 && entries[n - 1].indent >= indent { EnclosingExactly(entries, n - 1, indent); }
  }

  /** The keys of the lines that an entry is nested under, outermost first, and its own. */
  function PathOf(entries: seq<Entry>, i: nat): (path: seq<string>)
    requires i < |entries|
  {
    var parent := Enclosing(entries, i, entries[i].indent);
    (if parent.Some? then PathOf(entries, parent.value) else []) + [entries[i].key]
  }

  /** The first entry with this path. */
  ghost predicate IsNamed(entries: seq<Entry>, wanted: seq<string>, i: nat) {
    i < |entries| && PathOf(entries, i) == wanted && forall j: nat | j < i :: PathOf(entries, j) != wanted
  }

  /** The path names an entry, and this is that entry's scalar. */
  ghost predicate Gives(entries: seq<Entry>, wanted: seq<string>, value: string) {
    exists i: nat :: IsNamed(entries, wanted, i) && value == Scalar(entries[i].value)
  }

  // ----- the stack is the nesting -----

  /** The levels from the outermost down to an entry. */
  function Around(entries: seq<Entry>, parent: Option<nat>): seq<Level>
    requires parent.Some? ==> parent.value < |entries|
    decreases if parent.Some? then parent.value + 1 else 0, 0
  {
    if parent.None? then []
    else Around(entries, Enclosing(entries, parent.value, entries[parent.value].indent)) +
         [Level(entries[parent.value].indent, entries[parent.value].key)]
  }

  /** Between an entry and the one it is nested under nothing is indented less than it. */
  lemma {:induction false} EnclosingSkips(entries: seq<Entry>, n: nat, i: nat, indent: nat)
    requires i <= n <= |entries| && forall j | i <= j < n :: entries[j].indent >= indent
    ensures Enclosing(entries, n, indent) == Enclosing(entries, i, indent)
  {
    if i < n { EnclosingSkips(entries, n - 1, i, indent); }
  }

  lemma PopOne(above: seq<Level>, level: Level, indent: nat)
    ensures Pop(above + [level], indent) == if level.indent >= indent then Pop(above, indent) else above + [level]
  {
    assert (above + [level])[..|above|] == above;
  }

  lemma AroundOne(entries: seq<Entry>, p: nat)
    requires p < |entries|
    ensures Around(entries, Some(p)) ==
            Around(entries, Enclosing(entries, p, entries[p].indent)) + [Level(entries[p].indent, entries[p].key)]
  {
  }

  /** Popping the levels around an entry down to an indent leaves the levels around the next entry so indented. */
  lemma {:induction false} PopIsEnclosing(entries: seq<Entry>, n: nat, parent: Option<nat>, deeper: nat, indent: nat)
    requires n <= |entries| && parent == Enclosing(entries, n, deeper) && indent <= deeper
    ensures Pop(Around(entries, parent), indent) == Around(entries, Enclosing(entries, n, indent))
    decreases if parent.Some? then parent.value + 1 else 0
  {
    EnclosingExactly(entries, n, deeper);
    if parent.None? {
      EnclosingSkips(entries, n, 0, indent);
      assert Enclosing(entries, 0, indent) == None;
    } else {
      var p := parent.value;
      var outer := Enclosing(entries, p, entries[p].indent);
      AroundOne(entries, p);
      PopOne(Around(entries, outer), Level(entries[p].indent, entries[p].key), indent);
      EnclosingSkips(entries, n, p + 1, indent);
      hide Around, Pop;
      if entries[p].indent >= indent {
        PopIsEnclosing(entries, p, outer, entries[p].indent, indent);
      }
    }
  }

  /** The levels around the last of the first `n` entries. */
  function Levels(entries: seq<Entry>, n: nat): seq<Level>
    requires n <= |entries|
  {
    if n == 0 then [] else Around(entries, Some(n - 1))
  }

  /** Reading one more entry pushes it onto the levels that it is nested under. */
  lemma PushIsNesting(entries: seq<Entry>, n: nat)
    requires n < |entries|
    ensures Push(Levels(entries, n), entries[n]) == Levels(entries, n + 1)
  {
    hide Around, Pop;
    AroundOne(entries, n);
    NothingAround(entries);
    if n > 0 {
      AroundOne(entries, n - 1);
      var last, indent := entries[n - 1], entries[n].indent;
      var outer := Enclosing(entries, n - 1, last.indent);
      PopOne(Around(entries, outer), Level(last.indent, last.key), indent);
      if last.indent >= indent { PopIsEnclosing(entries, n - 1, outer, last.indent, indent); }
    }
    assert Pop([], entries[n].indent) == [] by { PopNothing(entries[n].indent); }
  }

  lemma PopNothing(indent: nat)
    ensures Pop([], indent) == []
  {
  }

  lemma NothingAround(entries: seq<Entry>)
    ensures Around(entries, None) == []
  {
  }

  lemma {:induction false} PathIsKeys(entries: seq<Entry>, i: nat, wanted: seq<string>)
    requires i < |entries|
    ensures |Levels(entries, i + 1)| == |PathOf(entries, i)|
    ensures forall k | 0 <= k < |PathOf(entries, i)| :: Levels(entries, i + 1)[k].key == PathOf(entries, i)[k]
    ensures IsPath(Levels(entries, i + 1), wanted) <==> PathOf(entries, i) == wanted
  {
    AroundOne(entries, i);
    NothingAround(entries);
    var parent := Enclosing(entries, i, entries[i].indent);
    if parent.Some? { PathIsKeys(entries, parent.value, wanted); }
  }

  // ----- the scan -----

  /** What the scan does once the lines are read: it goes through the entries with the levels around the last one. */
  function ScanEntries(entries: seq<Entry>, n: nat, wanted: seq<string>): Option<string>
    requires n <= |entries|
    decreases |entries| - n
  {
    if n == |entries| then None
    else if PathOf(entries, n) == wanted then Some(Scalar(entries[n].value))
    else ScanEntries(entries, n + 1, wanted)
  }

  lemma {:induction false} ScanIsEntries(lines: seq<string>, entries: seq<Entry>, n: nat, wanted: seq<string>)
    requires n <= |entries| && entries[n..] == Entries(lines)
    ensures Scan(lines, Levels(entries, n), wanted) == ScanEntries(entries, n, wanted)
    decreases |lines|
  {
    hide Levels, PathOf, ParseLine, IsPath, Scalar, Push;
    if lines != [] {
      var entry := ParseLine(lines[0]);
      if entry.None? {
        ScanIsEntries(lines[1..], entries, n, wanted);
      } else {
        assert entries[n..][0] == entry.value && entries[n..][1..] == entries[n + 1..];
        PushIsNesting(entries, n);
        PathIsKeys(entries, n, wanted);
        ScanIsEntries(lines[1..], entries, n + 1, wanted);
      }
    }
  }

  lemma {:induction false} FirstNamed(entries: seq<Entry>, n: nat, wanted: seq<string>, value: string)
    requires n <= |entries| && forall j: nat | j < n :: PathOf(entries, j) != wanted
    ensures ScanEntries(entries, n, wanted) == Some(value) <==> Gives(entries, wanted, value)
    decreases |entries| - n
  {
    hide PathOf, Scalar;
    if n < |entries| {
      if PathOf(entries, n) == wanted {
        assert IsNamed(entries, wanted, n);
        forall i: nat | IsNamed(entries, wanted, i) ensures i == n { assert !(n < i); }
      } else {
        FirstNamed(entries, n + 1, wanted, value);
      }
    }
  }

  /** The scalar that is read at a path is that of the first line the path names, if it names one. */
  lemma ScalarExactly(text: string, wanted: seq<string>, value: string)
    ensures ScalarAt(text, wanted) == Some(value) <==> Gives(Entries(SplitLines(text)), wanted, value)
  {
    hide Scan, ScanEntries, Gives, Entries, SplitLines;
    var entries := Entries(SplitLines(text));
    ScanIsEntries(SplitLines(text), entries, 0, wanted);
    FirstNamed(entries, 0, wanted, value);
  }

  // ----- one line -----

  /** The line starts with exactly so many blanks. */
  predicate HasBlanks(line: string, n: nat) {
    n <= |line| && (forall j | 0 <= j < n :: line[j] == ' ') && (n < |line| ==> line[n] != ' ')
  }

  lemma {:induction false} IndentExactly(line: string)
    ensures HasBlanks(line, Indent(line))
  {
    if line != "" && line[0] == ' ' {
      IndentExactly(line[1..]);
      forall j | 0 <= j < Indent(line) ensures line[j] == ' ' {
        if j > 0 { assert line[1..][j - 1] == ' '; }
      }
      if Indent(line) < |line| { assert line[1..][Indent(line) - 1] != ' '; }
    }
  }

  /** The line's text is split at its first colon into this key and value. */
  predicate SplitsAtColon(text: string, before: string, value: string) {
    text == before + ":" + value && ':' !in before
  }

  lemma CommentStarts(line: string)
    requires Strip(line) != ""
    ensures IsComment(line) <==> Strip(line)[0] == '#'
  {
  }

  /**
   * A line has an entry unless it is blank, a comment, or without a colon: the key before the first colon, the rest
   * after it, and how far the line is indented.
   */
  lemma EntryExactly(line: string) returns (before: string)
    ensures var text := Strip(line);
            match ParseLine(line)
            case None => text == "" || text[0] == '#' || ':' !in text
            case Some(Entry(indent, key, value)) =>
              && text != "" && text[0] != '#' && SplitsAtColon(text, before, value) && key == Strip(before)
              && HasBlanks(line, indent)
  {
    hide Strip, StripStart, IsComment, FirstIndex, Indent, HasBlanks;
    IndentExactly(line);
    var text := Strip(line);
    if text != "" { CommentStarts(line); }
    var colon := FirstIndex(text, ':');
    before := text[..colon];
    if colon < |text| { assert text == text[..colon] + ":" + text[colon + 1..]; }
  }

  /** The quotes at both ends are taken off, and all of them. */
  ghost predicate IsUnquoted(s: string, n: nat, m: nat) {
    && n <= m <= |s| && (forall i | 0 <= i < n :: IsQuote(s[i])) && (forall i | m <= i < |s| :: IsQuote(s[i]))
    && (n < m ==> !IsQuote(s[n]) && !IsQuote(s[m - 1]))
  }

  lemma StripStep(s: string)
    ensures StripQuotes(s) ==
            if s != "" && IsQuote(s[0]) then StripQuotes(s[1..])
            else if s != "" && IsQuote(s[|s| - 1]) then StripQuotes(s[..|s| - 1])
            else s
  {
  }

  lemma {:induction false} QuotesAround(s: string) returns (n: nat, m: nat)
    ensures IsUnquoted(s, n, m) && StripQuotes(s) == s[n..m]
    decreases |s|
  {
    StripStep(s);
    hide IsQuote, StripQuotes;
    n, m := 0, |s|;
    if s != "" && IsQuote(s[0]) {
      var rest := s[1..];
      var i: nat, j: nat := QuotesAround(rest);
      n, m := i + 1, j + 1;
      assert rest[i..j] == s[n..m];
      assert forall k | 0 < k < |s| :: s[k] == rest[k - 1];
    } else if s != "" && IsQuote(s[|s| - 1]) {
      var rest := s[..|s| - 1];
      n, m := QuotesAround(rest);
      assert rest[n..m] == s[n..m];
      assert forall k | 0 <= k < |rest| :: s[k] == rest[k];
    }
  }

  /** The scalar is what precedes a comment, without white space and then without quotes at its ends. */
  lemma ScalarReads(value: string) returns (plain: string, n: nat, m: nat)
    ensures '#' !in plain && plain <= value && (|plain| < |value| ==> value[|plain|] == '#')
    ensures IsUnquoted(Strip(plain), n, m) && Scalar(value) == Strip(plain)[n..m]
    ensures forall c :: IsQuote(c) <==> c == '"' || c == '\''
  {
    plain := value[..FirstIndex(value, '#')];
    n, m := QuotesAround(Strip(plain));
  }
}

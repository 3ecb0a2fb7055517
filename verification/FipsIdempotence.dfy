/** Inserting the bootstrap twice inserts it once, and the validator accepts what was inserted. */
module FipsIdempotence {
  import opened FipsBootstrap
  import opened FipsText
  import opened Wrappers

  // ----- where an entry can match -----

  lemma SpaceHasNoColon(s: string)
    requires AllSpace(s)
    ensures ':' !in s
  {
  }

  /** The one colon of a field ends its name. */
  lemma FieldColon(field: string, npub: string, j: nat)
    requires IsNpub(npub) && IsField(field, "npub:", npub) && j < |field| && field[j] == ':'
    ensures j == 4
  {
    var space: string, open: string, close: string, rest: string :|
      field == "npub:" + (space + (open + (npub + (close + rest)))) &&
      AllSpace(space) && OptionalQuote(open) && OptionalQuote(close) && AllSpace(rest);
    SpaceHasNoColon(space);
    SpaceHasNoColon(rest);
    var tail := space + (open + (npub + (close + rest)));
    assert ':' !in tail;
    assert forall i | 5 <= i < |field| :: field[i] == tail[i - 5];
  }

  lemma EntryParts(text: string, npub: string, p: nat, q: nat) returns (space: string, gap: string, field: string)
    requires ActiveAt(text, npub, p, q)
    ensures text[p..q] == space + ("-" + (gap + field))
    ensures AllSpace(space) && AllSpace(gap) && gap != "" && IsField(field, "npub:", npub)
  {
    space, gap, field :| text[p..q] == space + ("-" + (gap + field)) &&
      AllSpace(space) && AllSpace(gap) && gap != "" && IsField(field, "npub:", npub);
  }

  lemma FieldStarts(field: string, npub: string)
    requires IsField(field, "npub:", npub)
    ensures |field| >= 5 && field[3] == 'b' && field[4] == ':'
  {
    var space: string, open: string, close: string, rest: string :|
      field == "npub:" + (space + (open + (npub + (close + rest))));
    assert field[..5] == "npub:";
  }

  /** Every colon an active entry covers follows a `b`. */
  lemma EntryColon(text: string, npub: string, p: nat, q: nat, i: nat)
    requires IsNpub(npub) && ActiveAt(text, npub, p, q) && p <= i < q && text[i] == ':'
    ensures i > p && text[i - 1] == 'b'
  {
    hide IsField, ActiveAt;
    assert q <= |text| by { hide *; EntryInRange(text, npub, p, q); }
    var space, gap, field := EntryParts(text, npub, p, q);
    var s := text[p..q];
    SpaceHasNoColon(space);
    SpaceHasNoColon(gap);
    FieldStarts(field, npub);
    var n := |space| + 1 + |gap|;
    assert s[i - p] == ':';
    assert s[..n] == space + ("-" + gap) && ':' !in s[..n];
    assert forall x | 0 <= x < n :: s[x] == s[..n][x];
    assert s[i - p] == field[i - p - n];
    FieldColon(field, npub, i - p - n);
    assert s[i - p - 1] == field[3];
  }

  lemma EntryInRange(text: string, npub: string, p: nat, q: nat)
    requires ActiveAt(text, npub, p, q)
    ensures p <= q <= |text| && AtLineStart(text, p) && AtLineEnd(text, q)
  {
  }

  /** An active entry covers a colon that follows a `b`. */
  lemma EntryHasColon(text: string, npub: string, p: nat, q: nat) returns (i: nat)
    requires ActiveAt(text, npub, p, q)
    ensures p < i < q <= |text| && text[i] == ':' && text[i - 1] == 'b'
  {
    hide IsField, ActiveAt;
    EntryInRange(text, npub, p, q);
    var space, gap, field := EntryParts(text, npub, p, q);
    FieldStarts(field, npub);
    var n := |space| + 1 + |gap|;
    i := p + n + 4;
    var s := text[p..q];
    assert s[n + 4] == field[4] && s[n + 3] == field[3];
  }

  // ----- nothing new matches before the block -----

  /** `r` starts like `text`, goes on with `peers:` at `m`, and has no further line start before `k`. */
  ghost predicate EditedAt(text: string, r: string, m: nat, k: nat) {
    && m <= |text| && m + 6 <= k <= |r| && r[..m] == text[..m] && r[m..m + 6] == "peers:"
    && forall j | m + 6 <= j < k - 1 :: r[j] != '\n'
  }

  lemma PeersChars(text: string, r: string, m: nat, k: nat, j: nat)
    requires EditedAt(text, r, m, k) && m <= j < k - 1
    ensures r[j] != '\n' && r[m + 5] == ':' && r[m + 4] == 's'
  {
    assert r[m..m + 6][5] == ':' && r[m..m + 6][4] == 's';
    if j < m + 6 {
      assert r[j] == r[m..m + 6][j - m];
    }
  }

  lemma SameChars(text: string, r: string, m: nat, p: nat, q: nat)
    requires m <= |text| && m <= |r| && r[..m] == text[..m] && p <= q < m
    ensures r[p..q] == text[p..q] && r[q] == text[q] && (p > 0 ==> r[p - 1] == text[p - 1])
  {
    forall j | 0 <= j < m ensures r[j] == text[j] {
      assert r[..m][j] == text[..m][j];
    }
  }

  lemma SameEntry(text: string, r: string, npub: string, m: nat, p: nat, q: nat)
    requires m <= |text| && m <= |r| && r[..m] == text[..m] && ActiveAt(r, npub, p, q) && q < m
    ensures HasActive(text, npub)
  {
    hide IsField;
    EntryInRange(r, npub, p, q);
    SameChars(text, r, m, p, q);
    var space, gap, field := EntryParts(r, npub, p, q);
    assert ActiveAt(text, npub, p, q) by {
      assert text[p..q] == space + ("-" + (gap + field));
    }
  }

  /** No active entry of the result begins before the block. */
  lemma NoneBeforeBlock(text: string, r: string, npub: string, m: nat, k: nat, p: nat, q: nat)
    requires IsNpub(npub) && EditedAt(text, r, m, k) && !HasActive(text, npub) && ActiveAt(r, npub, p, q)
    ensures p >= k
  {
    hide ActiveAt, HasActive, IsField;
    EntryInRange(r, npub, p, q);
    if p < k {
      if p > m {
        PeersChars(text, r, m, k, p - 1);
      } else if q < m {
        SameEntry(text, r, npub, m, p, q);
      } else {
        PeersChars(text, r, m, k, m);
        if q < m + 6 {
          PeersChars(text, r, m, k, q);
        } else {
          EntryColon(r, npub, p, q, m + 5);
        }
      }
    }
  }

  // ----- the block itself -----

  predicate IsDetail(line: string) {
    |line| >= 4 && line[..4] == "    " && Unbroken(line) &&
    (forall j | 0 < j < |line| :: line[j] == ':' ==> line[j - 1] != 'b') && line[|line| - 1] != 'b'
  }

  lemma DetailsAreDetails()
    ensures forall line <- Details() :: IsDetail(line)
  {
    AliasIsDetail();
    AddressesIsDetail();
    TransportIsDetail();
    AddrIsDetail();
    PolicyIsDetail();
    hide IsDetail, Alias, Addresses, Transport, Addr, Policy;
  }

  lemma AliasIsDetail() ensures IsDetail(Alias()) {}

  lemma AddressesIsDetail() ensures IsDetail(Addresses()) {}

  lemma TransportIsDetail() ensures IsDetail(Transport()) {}

  lemma AddrIsDetail() ensures IsDetail(Addr()) {}

  lemma PolicyIsDetail() ensures IsDetail(Policy()) {}

  predicate IsNewline(newline: string) {
    newline == "\n" || newline == "\r\n"
  }

  /** No colon of the text follows a `b`. */
  ghost predicate NoEntryColon(s: string) {
    forall j | 0 < j < |s| && s[j] == ':' :: s[j - 1] != 'b'
  }

  /** Every line after the first starts with blanks where a peer entry has its dash. */
  ghost predicate StaysIndented(s: string) {
    && (forall j | 0 <= j < |s| - 1 && s[j] == '\n' :: j + 3 < |s| && s[j + 3] == ' ')
    && (s != "" ==> |s| >= 4 && s[0] == ' ' && s[2] == ' ')
  }

  lemma DetailFirst(line: string, newline: string, rest: string)
    requires IsDetail(line) && IsNewline(newline) && NoEntryColon(rest) && StaysIndented(rest)
    ensures NoEntryColon(line + newline + rest) && StaysIndented(line + newline + rest)
  {
    var s, n := line + newline + rest, |line| + |newline|;
    assert line[0] == line[..4][0] && line[2] == line[..4][2];
    assert forall j | 0 <= j < |line| :: s[j] == line[j];
    assert forall j | n <= j < |s| :: s[j] == rest[j - n];
    assert forall j | |line| <= j < n :: s[j] == newline[j - |line|];
  }

  lemma {:induction false} EndedDetails(lines: seq<string>, newline: string)
    requires (forall line <- lines :: IsDetail(line)) && IsNewline(newline)
    ensures NoEntryColon(Ended(lines, newline)) && StaysIndented(Ended(lines, newline))
  {
    hide IsDetail, NoEntryColon, StaysIndented;
    if lines == [] {
      NothingFollows();
    } else {
      EndedDetails(lines[1..], newline);
      DetailFirst(lines[0], newline, Ended(lines[1..], newline));
    }
  }

  lemma NothingFollows()
    ensures NoEntryColon("") && StaysIndented("")
  {
  }

  /** Lines with their breaks. */
  function WithBreaks(lines: seq<string>, newline: string): seq<string> {
    if lines == [] then [] else [lines[0] + newline] + WithBreaks(lines[1..], newline)
  }

  lemma BrokenLine(line: string, newline: string)
    requires IsNewline(newline) && Unbroken(line)
    ensures OneLine(line + newline) && Closed(line + newline)
    ensures line + newline != "" && (line + newline)[|line + newline| - 1] == '\n'
  {
    var s := line + newline;
    assert forall j | 0 <= j < |line| :: s[j] == line[j];
    assert s[|s| - 1] == newline[|newline| - 1];
  }

  lemma NewlineStaysApart(line: string, rest: string)
    requires line != "" && line[|line| - 1] == '\n'
    ensures StaysApart(line, rest)
  {
  }

  lemma Associate(a: string, b: string, c: string, d: string)
    ensures a + b + c + d == (a + b) + (c + d)
  {
  }

  lemma {:induction false} SplitEnded(lines: seq<string>, newline: string, rest: string)
    requires IsNewline(newline) && forall line <- lines :: Unbroken(line)
    ensures SplitLines(Ended(lines, newline) + rest) == WithBreaks(lines, newline) + SplitLines(rest)
  {
    hide SplitLines, OneLine, Closed, Unbroken, StaysApart, IsNewline;
    if lines == [] {
      assert Ended(lines, newline) + rest == rest;
    } else {
      var line, below := lines[0] + newline, Ended(lines[1..], newline) + rest;
      BrokenLine(lines[0], newline);
      NewlineStaysApart(line, below);
      SplitFirst(line, below);
      SplitEnded(lines[1..], newline, rest);
      Associate(lines[0], newline, Ended(lines[1..], newline), rest);
    }
  }

  // ----- the block on a line of its own -----

  /** Where the header of the block ends: before its newline, which a carriage return may precede. */
  function HeaderEnd(k: nat, npub: string, newline: string): int {
    k + |Header(npub)| + |newline| - 1
  }

  lemma HeaderText(npub: string, newline: string)
    requires IsNewline(newline)
    ensures IsField(Header(npub) + newline[..|newline| - 1], PEER, npub)
  {
    var rest := newline[..|newline| - 1];
    assert Header(npub) + rest == PEER + (" " + ("\"" + (npub + ("\"" + rest))));
    assert AllSpace(" ") && AllSpace(rest) && OptionalQuote("\"");
  }

  lemma InsertedHeader(before: string, npub: string, newline: string, rest: string)
    requires IsNewline(newline) && before != "" && before[|before| - 1] == '\n'
    ensures var r := before + (Block(npub, newline) + rest);
            HeaderAt(r, npub, |before|, HeaderEnd(|before|, npub, newline))
  {
    hide IsField, Ended, Header;
    var r, k, q := before + (Block(npub, newline) + rest), |before|, HeaderEnd(|before|, npub, newline);
    HeaderText(npub, newline);
    var tail := Ended(Details(), newline) + rest;
    assert r == before + (Header(npub) + newline[..|newline| - 1]) + ("\n" + tail);
    assert r[k..q] == Header(npub) + newline[..|newline| - 1];
    assert r[q] == '\n';
  }

  lemma PeerSplits(tail: string)
    ensures PEER + tail == "  " + ("-" + (" " + ("npub:" + tail)))
  {
  }

  lemma FieldTail(s: string, name: string, value: string) returns (tail: string)
    requires IsField(s, name, value)
    ensures s == name + tail && forall other: string :: IsField(other + tail, other, value)
  {
    var space: string, open: string, close: string, rest: string :|
      s == name + (space + (open + (value + (close + rest)))) &&
      AllSpace(space) && OptionalQuote(open) && OptionalQuote(close) && AllSpace(rest);
    tail := space + (open + (value + (close + rest)));
  }

  /** A validator header is an active entry. */
  lemma HeaderIsActive(text: string, npub: string, p: nat, q: nat)
    requires HeaderAt(text, npub, p, q)
    ensures ActiveAt(text, npub, p, q)
  {
    hide IsField;
    var tail := FieldTail(text[p..q], PEER, npub);
    PeerSplits(tail);
    assert IsField("npub:" + tail, "npub:", npub);
    assert AllSpace("  ") && AllSpace(" ");
  }

  lemma InsertionIsEdited(text: string, npub: string, r: string, kept: string, space: string, newline: string,
        rest: string)
    requires IsInsertion(text, npub, r, kept, space, newline, rest)
    ensures EditedAt(text, r, |kept|, |kept| + 6 + |space|) && IsNewline(newline)
    ensures r == (kept + ("peers:" + space)) + (Block(npub, newline) + rest)
  {
    hide Block;
    var m := |kept|;
    assert r[m..m + 6] == "peers:";
    forall j | m + 6 <= j < m + 5 + |space| ensures r[j] != '\n' {
      assert r[j] == space[j - m - 6];
    }
  }

  /** On a fresh line, the inserted block is an active bootstrap. */
  lemma FreshBlockIsActive(text: string, npub: string)
    requires Insert(text, npub).Some? && StartsFreshLine(EditedLine(text))
    ensures HasActive(Insert(text, npub).value, npub)
  {
    hide Block, Insert, EditedLine, StartsFreshLine, IsInsertion, SplitLines, FirstPeers, ActiveAt, HeaderAt, Closed;
    var kept, space, newline, rest := InsertShape(text, npub);
    var before := kept + ("peers:" + space);
    InsertionIsEdited(text, npub, Insert(text, npub).value, kept, space, newline, rest);
    InsertedHeader(before, npub, newline, rest);
    HeaderIsActive(Insert(text, npub).value, npub, |before|, HeaderEnd(|before|, npub, newline));
  }

  lemma InsertShape(text: string, npub: string) returns (kept: string, space: string, newline: string, rest: string)
    requires Insert(text, npub).Some?
    ensures IsInsertion(text, npub, Insert(text, npub).value, kept, space, newline, rest)
    ensures (space != "" && space[|space| - 1] == '\n') <==> StartsFreshLine(EditedLine(text))
    ensures !IsEmptyPeers(EditedLine(text)) ==> text == kept + ("peers:" + (space + rest)) && rest == Below(text)
    ensures !IsEmptyPeers(EditedLine(text)) && !Closed(EditedLine(text)) ==> rest == ""
  {
    hide FirstPeers, IsInsertion;
    if IsEmptyPeers(EditedLine(text)) {
      kept, space, newline, rest := EmptyPeersShape(text, npub);
    } else {
      kept, space, newline, rest := PeersShape(text, npub);
    }
  }

  // ----- idempotence -----

  lemma {:induction false} UnclosedLine(text: string)
    requires OnlyNewlines(text) && FirstPeers(SplitLines(text)) < |SplitLines(text)|
    requires !StartsFreshLine(EditedLine(text))
    ensures !Closed(EditedLine(text))
  {
    hide FirstPeers, SplitLines, Strip;
    var lines, i := SplitLines(text), FirstPeers(SplitLines(text));
    JoinAround(text, i);
    SplitLine(text, i);
    var before, line, after := Join(lines[..i]), lines[i], Join(lines[i + 1..]);
    if Closed(line) {
      var at := |before| + |line| - 1;
      assert text[at] == line[|line| - 1];
      assert text[at] == '\r' && text[at + 1] == '\n';
      assert after != "" && after[0] == text[at + 1];
      FirstOfJoin(lines[i + 1..]);
    }
  }

  lemma FirstOfJoin(lines: seq<string>)
    requires Join(lines) != "" && (lines != [] ==> lines[0] != "")
    ensures lines != [] && Join(lines)[0] == lines[0][0]
  {
  }

  lemma HeaderHasNoNewline(npub: string)
    requires IsNpub(npub)
    ensures Unbroken(Header(npub))
  {
    var start := "  - npub: \"";
    forall j | 0 <= j < |Header(npub)| ensures !IsBreak(Header(npub)[j]) {
      if j < |start| {
        assert Header(npub)[j] == start[j];
      } else if j < |start| + |npub| {
        assert Header(npub)[j] == npub[j - |start|];
        assert npub[j - |start|] in npub;
      }
    }
  }

  lemma FreshWhenEmpty(line: string)
    requires !StartsFreshLine(line)
    ensures !IsEmptyPeers(line)
  {
    hide IsEmptyPeers;
  }

  lemma InTail(before: string, npub: string, newline: string, rest: string, p: nat)
    requires IsNewline(newline) && IsNpub(npub) && |before| < p
    requires var r := before + (Block(npub, newline) + rest); p <= |r| && AtLineStart(r, p)
    ensures p > HeaderEnd(|before|, npub, newline)
  {
    hide Header, Ended, Details;
    var h, x := Header(npub), p - 1 - |before|;
    HeaderHasNoNewline(npub);
    if x < |h| + |newline| { CharInBlock(before, h, newline, Ended(Details(), newline), rest, x); }
  }

  lemma NoColonInTail(before: string, npub: string, newline: string, rest: string, i: nat)
    requires IsNewline(newline)
    requires HeaderEnd(|before|, npub, newline) + 1 < i < |before| + |Block(npub, newline)|
    requires (before + (Block(npub, newline) + rest))[i] == ':'
    ensures (before + (Block(npub, newline) + rest))[i - 1] != 'b'
  {
    hide Header, Details, IsDetail, Ended;
    DetailsAreDetails();
    EndedDetails(Details(), newline);
    TailChars(before, npub, newline, rest);
  }

  lemma {:induction false} EndedLast(lines: seq<string>, newline: string) returns (start: string)
    requires lines != []
    ensures Ended(lines, newline) == start + (lines[|lines| - 1] + newline)
  {
    if |lines| == 1 {
      assert Ended(lines[1..], newline) == "";
      start := "";
    } else {
      var below := EndedLast(lines[1..], newline);
      var last := lines[|lines| - 1] + newline;
      start := lines[0] + newline + below;
      assert Ended(lines, newline) == lines[0] + newline + (below + last);
    }
  }

  lemma PolicyColon()
    ensures var policy := Policy(); |policy| == 32 && policy[18] == ':' && policy[17] == 'y' && Unbroken(policy)
  {
  }

  /** The last line of the block: where it starts, and its colon, which no entry can cover. */
  lemma LastLine(before: string, npub: string, newline: string, rest: string) returns (m: nat)
    requires IsNewline(newline)
    ensures var r := before + (Block(npub, newline) + rest);
            && m + 18 < m + 32 + |newline| == |before| + |Block(npub, newline)| <= |r|
            && r[m + 18] == ':' && r[m + 17] == 'y' && forall j | m <= j < m + 31 + |newline| :: r[j] != '\n'
  {
    PolicyColon();
    hide Header, Alias, Addresses, Transport, Addr, Policy, Ended;
    var start := EndedLast(Details(), newline);
    TailChars(before, npub, newline, rest);
    var tail := start + (Policy() + newline);
    assert Ended(Details(), newline) == tail;
    m := HeaderEnd(|before|, npub, newline) + 1 + |start|;
    assert forall j | 0 <= j < 32 :: tail[|start| + j] == Policy()[j];
    assert forall j | 0 <= j < |newline| :: tail[|start| + 32 + j] == newline[j];
  }

  /** No active entry begins inside a block that is not on a line of its own. */
  lemma NoneInBlock(before: string, npub: string, newline: string, rest: string, p: nat, q: nat)
    requires IsNewline(newline) && IsNpub(npub) && before != "" && before[|before| - 1] != '\n'
    requires |before| <= p < |before| + |Block(npub, newline)|
    ensures !ActiveAt(before + (Block(npub, newline) + rest), npub, p, q)
  {
    hide ActiveAt, Block, Header, IsNpub, IsNewline;
    var r := before + (Block(npub, newline) + rest);
    assert r[|before| - 1] == before[|before| - 1];
    var m := LastLine(before, npub, newline, rest);
    if ActiveAt(r, npub, p, q) {
      EntryInRange(r, npub, p, q);
      InTail(before, npub, newline, rest, p);
      var i := EntryHasColon(r, npub, p, q);
      if q > m + 18 {
        EntryColon(r, npub, p, q, m + 18);
      } else {
        NoColonInTail(before, npub, newline, rest, i);
      }
    }
  }

  lemma LineAtEnd(text: string, start: string, x: string, p: nat)
    requires text == start + x && (p > 0 || start == "" || start[|start| - 1] == '\n')
    ensures AtLineStart(text, |start| + p) <==> AtLineStart(x, p)
    ensures AtLineEnd(text, |start| + p) <==> AtLineEnd(x, p)
  {
  }

  /** Text that starts on a new line matches as it does on its own. */
  lemma ActiveBelow(text: string, start: string, x: string, npub: string, p: nat, q: nat)
    requires text == start + x && (p > 0 || start == "" || start[|start| - 1] == '\n')
    ensures ActiveAt(text, npub, |start| + p, |start| + q) <==> ActiveAt(x, npub, p, q)
  {
    hide IsField, AtLineStart, AtLineEnd;
    if p <= q {
      LineAtEnd(text, start, x, p);
      AtEndBelow(text, start, x, q);
      if q <= |x| { assert text[|start| + p..|start| + q] == x[p..q]; }
    }
  }

  lemma AtEndBelow(text: string, start: string, x: string, q: nat)
    requires text == start + x
    ensures AtLineEnd(text, |start| + q) <==> AtLineEnd(x, q)
    ensures AtLineEnd(x, q) ==> q <= |x|
  {
  }

  /** Where the block is glued to its line, the result matches exactly where the text below does. */
  lemma GluedMatches(text: string, npub: string, r: string, kept: string, space: string, newline: string, rest: string,
        p: nat, q: nat)
    requires IsNpub(npub) && !HasActive(text, npub) && IsInsertion(text, npub, r, kept, space, newline, rest)
    requires space != "" ==> space[|space| - 1] != '\n'
    ensures var n := |r| - |rest|;
            && n >= 0
            && (ActiveAt(r, npub, p, q) <==> n <= p && n <= q && ActiveAt(rest, npub, p - n, q - n))
  {
    hide Block, ActiveAt, IsField, HasActive;
    InsertionIsEdited(text, npub, r, kept, space, newline, rest);
    var before := kept + ("peers:" + space);
    var start, n := before + Block(npub, newline), |r| - |rest|;
    assert before[|before| - 1] == if space == "" then ':' else space[|space| - 1];
    assert r == start + rest;
    BlockEnds(npub, newline);
    if p < |before| {
      if ActiveAt(r, npub, p, q) { NoneBeforeBlock(text, r, npub, |kept|, |before|, p, q); }
    } else if p < n {
      NoneInBlock(before, npub, newline, rest, p, q);
    } else if p <= q {
      ActiveBelow(r, start, rest, npub, p - n, q - n);
    } else if ActiveAt(r, npub, p, q) {
      EntryInRange(r, npub, p, q);
    }
    if n <= p && n <= q && ActiveAt(rest, npub, p - n, q - n) { EntryInRange(rest, npub, p - n, q - n); }
  }

  lemma BlockEnds(npub: string, newline: string)
    requires IsNewline(newline)
    ensures Block(npub, newline) != "" && Block(npub, newline)[|Block(npub, newline)| - 1] == '\n'
  {
    hide Header, Alias, Addresses, Transport, Addr, Policy, Ended;
    var start := EndedLast(Details(), newline);
  }

  /** A block that is not on a line of its own only lets the text below it match. */
  lemma GluedExactly(text: string, npub: string)
    requires IsNpub(npub) && !HasActive(text, npub)
    requires Insert(text, npub).Some? && !StartsFreshLine(EditedLine(text))
    ensures HasActive(Insert(text, npub).value, npub) <==> HasActive(Below(text), npub)
  {
    hide Insert, EditedLine, ActiveAt, IsInsertion, StartsFreshLine, IsEmptyPeers, Closed, SplitLines, FirstPeers,
        Below;
    var r := Insert(text, npub).value;
    var kept, space, newline, rest := InsertShape(text, npub);
    FreshWhenEmpty(EditedLine(text));
    forall p: nat, q: nat
      ensures ActiveAt(r, npub, p, q) ==> HasActive(rest, npub)
      ensures ActiveAt(rest, npub, p, q) ==> HasActive(r, npub)
    {
      GluedMatches(text, npub, r, kept, space, newline, rest, p, q);
      var n: nat := |r| - |rest|;
      GluedMatches(text, npub, r, kept, space, newline, rest, p + n, q + n);
    }
  }

  /**
   * Running the insertion on its own result changes nothing, exactly when the edited line is `peers: []` or ends with
   * a newline, or the text below it is active once it starts on a new line.
   */
  lemma IdempotentExactly(text: string, npub: string)
    requires IsNpub(npub) && !HasActive(text, npub) && Insert(text, npub).Some?
    ensures var r := Insert(text, npub).value;
            WithBootstrap(r, npub) == Some((r, false)) <==>
              StartsFreshLine(EditedLine(text)) || HasActive(Below(text), npub)
  {
    hide HasActive, Insert, StartsFreshLine, EditedLine, SplitLines, FirstPeers, Below;
    if StartsFreshLine(EditedLine(text)) {
      FreshBlockIsActive(text, npub);
    } else {
      GluedExactly(text, npub);
    }
  }

  /** Of the text below, only an entry right at its start can be new. */
  lemma ActiveBelowAtStart(text: string, npub: string)
    requires !HasActive(text, npub) && Insert(text, npub).Some? && !StartsFreshLine(EditedLine(text))
    ensures HasActive(Below(text), npub) <==> exists q: nat :: ActiveAt(Below(text), npub, 0, q)
  {
    hide Insert, EditedLine, ActiveAt, IsInsertion, StartsFreshLine, IsEmptyPeers, Closed, SplitLines, FirstPeers,
        Below;
    var kept, space, newline, rest := InsertShape(text, npub);
    FreshWhenEmpty(EditedLine(text));
    var start := kept + ("peers:" + space);
    assert text == start + rest;
    if HasActive(rest, npub) {
      var p: nat, q: nat :| ActiveAt(rest, npub, p, q);
      if p > 0 { ActiveBelow(text, start, rest, npub, p, q); }
    }
  }

  /** Where newlines are the only line breaks, nothing follows an unterminated line. */
  lemma NothingBelow(text: string)
    requires OnlyNewlines(text) && FirstPeers(SplitLines(text)) < |SplitLines(text)|
    requires !StartsFreshLine(EditedLine(text))
    ensures Below(text) == ""
  {
    hide FirstPeers, StartsFreshLine, Strip, SplitLines;
    UnclosedLine(text);
    SplitLine(text, FirstPeers(SplitLines(text)));
  }

  lemma NothingIsActive(npub: string)
    ensures !HasActive("", npub)
  {
    hide IsField;
    forall p: nat, q: nat ensures !ActiveAt("", npub, p, q) {
      if ActiveAt("", npub, p, q) {
        var i := EntryHasColon("", npub, p, q);
      }
    }
  }

  /** For text with no other line breaks than newlines it comes down to the edited line alone. */
  lemma NewlinesIdempotentExactly(text: string, npub: string)
    requires IsNpub(npub) && OnlyNewlines(text) && !HasActive(text, npub) && Insert(text, npub).Some?
    ensures var r := Insert(text, npub).value;
            WithBootstrap(r, npub) == Some((r, false)) <==> StartsFreshLine(EditedLine(text))
  {
    hide HasActive, Insert, StartsFreshLine, EditedLine, OnlyNewlines, SplitLines, FirstPeers, Below, WithBootstrap;
    IdempotentExactly(text, npub);
    NothingIsActive(npub);
    if !StartsFreshLine(EditedLine(text)) { NothingBelow(text); }
  }

  // ----- the validator on the result -----

  /** The first place at or after `q` where the body of a peer ends. */
  lemma {:induction false} FirstPeerEnd(text: string, q: nat) returns (e: nat)
    requires q <= |text|
    ensures q <= e <= |text| && PeerEnds(text, e) && forall e': nat :: q <= e' < e ==> !PeerEnds(text, e')
    decreases |text| - q
  {
    hide AtLineStart;
    if PeerEnds(text, q) {
      e := q;
    } else {
      e := FirstPeerEnd(text, q + 1);
    }
  }

  /** Where the white space before and after a field's value may lie. */
  lemma FieldSpaces(s: string, name: string, value: string) returns (m: nat, n: nat)
    requires IsField(s, name, value)
    ensures |name| <= m && m <= |s| && n <= |s| && n <= m + 2 + |value| && s[..|name|] == name
    ensures AllSpace(s[|name|..m]) && AllSpace(s[n..])
  {
    var space: string, open: string, close: string, rest: string :|
      s == name + (space + (open + (value + (close + rest)))) &&
      AllSpace(space) && OptionalQuote(open) && OptionalQuote(close) && AllSpace(rest);
    hide AllSpace;
    m, n := |name| + |space|, |s| - |rest|;
    assert s[|name|..m] == space && s[n..] == rest;
  }

  lemma SpaceAt(s: string, j: nat)
    requires AllSpace(s) && j < |s|
    ensures IsSpace(s[j])
  {
    assert s[j] in s;
  }

  /** Everything a header covers past its npub and quotes is white space. */
  lemma HeaderLength(s: string, npub: string)
    requires IsField(s, PEER, npub) && |s| > |Header(npub)| && s[..|Header(npub)|] == Header(npub)
    ensures AllSpace(s[|Header(npub)|..])
  {
    hide IsField;
    var m, n := FieldSpaces(s, PEER, npub);
    assert s[10] == Header(npub)[10] == '"';
    assert m <= 10 by {
      if m > 10 { SpaceAt(s[|PEER|..m], 1); }
    }
    assert s[|Header(npub)|..] == s[n..][|Header(npub)| - n..];
  }

  /** The header at `k` is followed by an indented line. */
  ghost predicate HeaderFollowed(r: string, npub: string, k: nat, end: nat) {
    && k + |Header(npub)| <= end && end + 5 < |r| && r[k..k + |Header(npub)|] == Header(npub)
    && (forall j | end < j < end + 5 :: r[j] == ' ') && r[end + 5] == 'a'
  }

  lemma HeaderCannotExtend(r: string, npub: string, k: nat, end: nat, q: nat)
    requires HeaderFollowed(r, npub, k, end) && q > end
    ensures !HeaderAt(r, npub, k, q)
  {
    hide IsField, Header;
    if HeaderAt(r, npub, k, q) {
      if q > end + 5 {
        var s := r[k..q];
        assert s[..|Header(npub)|] == Header(npub) && s[|Header(npub)|..][end + 5 - k - |Header(npub)|] == 'a';
        HeaderLength(s, npub);
        SpaceAt(s[|Header(npub)|..], end + 5 - k - |Header(npub)|);
      }
    }
  }

  lemma CharInBlock(a: string, h: string, n: string, t: string, rest: string, x: nat)
    requires x < |h| + |n| + |t|
    ensures (a + ((h + n + t) + rest))[|a| + x] ==
            if x < |h| then h[x] else if x < |h| + |n| then n[x - |h|] else t[x - |h| - |n|]
  {
    var block := h + n + t;
    assert (a + (block + rest))[|a| + x] == (block + rest)[x] == block[x];
    assert x < |h| + |n| ==> block[x] == (h + n)[x];
  }

  lemma FirstDetail(newline: string)
    ensures var tail := Ended(Details(), newline);
            |tail| > 5 && tail[4] == 'a' && forall j | 0 <= j < 4 :: tail[j] == ' '
  {
    AliasStarts();
    hide Alias, Addresses, Transport, Addr, Policy;
    var below := newline + Ended(Details()[1..], newline);
    assert Ended(Details(), newline) == Alias() + below;
    assert forall j | 0 <= j < |Alias()| :: (Alias() + below)[j] == Alias()[j];
  }

  /** The characters of the result from the newline of the header on. */
  lemma TailChars(before: string, npub: string, newline: string, rest: string)
    requires IsNewline(newline)
    ensures var r, end := before + (Block(npub, newline) + rest), HeaderEnd(|before|, npub, newline);
            var tail := Ended(Details(), newline);
            |r| == end + 1 + |tail| + |rest| && r[end] == '\n' &&
            (forall j | end < j <= end + |tail| :: r[j] == tail[j - end - 1]) &&
            |Block(npub, newline)| == |Header(npub)| + |newline| + |tail|
  {
    hide Header, Ended, Details;
    var h, tail, r := Header(npub), Ended(Details(), newline), before + (Block(npub, newline) + rest);
    CharInBlock(before, h, newline, tail, rest, |h| + |newline| - 1);
    var end := HeaderEnd(|before|, npub, newline);
    forall j | end < j <= end + |tail| ensures r[j] == tail[j - end - 1] {
      CharInBlock(before, h, newline, tail, rest, j - |before|);
    }
  }

  lemma HeaderChars(before: string, npub: string, newline: string, rest: string)
    ensures var r, k := before + (Block(npub, newline) + rest), |before|;
            k + |Header(npub)| <= |r| && r[k..k + |Header(npub)|] == Header(npub)
  {
    hide Header, Ended, Details;
    var h, r := Header(npub), before + (Block(npub, newline) + rest);
    forall x | 0 <= x < |h| ensures r[|before| + x] == h[x] {
      CharInBlock(before, h, newline, Ended(Details(), newline), rest, x);
    }
  }

  lemma BlockIsFollowed(before: string, npub: string, newline: string, rest: string)
    requires IsNewline(newline)
    ensures HeaderFollowed(before + (Block(npub, newline) + rest), npub, |before|, HeaderEnd(|before|, npub, newline))
  {
    hide Header, Ended, Details, Block;
    assert |newline| >= 1;
    FirstDetail(newline);
    TailChars(before, npub, newline, rest);
    HeaderChars(before, npub, newline, rest);
  }

  lemma AliasStarts()
    ensures |Alias()| > 5 && Alias()[4] == 'a' && forall j | 0 <= j < 4 :: Alias()[j] == ' '
  {
  }

  lemma PeerEndChars(text: string, e: nat)
    requires PeerEnds(text, e) && e < |text|
    ensures AtLineStart(text, e) && text[e] == ' ' && e + 2 < |text| && text[e + 2] == '-'
  {
    var found := text[e..e + |PEER|];
    assert found[0] == ' ' && found[2] == '-';
  }

  /** The body of the peer reaches past the block. */
  lemma BodyCoversBlock(before: string, npub: string, newline: string, rest: string, e: nat)
    requires IsNewline(newline)
    requires HeaderEnd(|before|, npub, newline) <= e < |before| + |Block(npub, newline)|
    ensures !PeerEnds(before + (Block(npub, newline) + rest), e)
  {
    hide Header, Details, Ended, Block, IsDetail, PeerEnds;
    var r, tail := before + (Block(npub, newline) + rest), Ended(Details(), newline);
    var end := HeaderEnd(|before|, npub, newline);
    DetailsAreDetails();
    EndedDetails(Details(), newline);
    TailChars(before, npub, newline, rest);
    if PeerEnds(r, e) {
      PeerEndChars(r, e);
    }
  }

  /** Each line of a block stands on its own line of the text. */
  lemma {:induction false} EndedLine(lines: seq<string>, newline: string, i: nat, before: string, after: string)
    returns (p: nat, q: nat)
    requires IsNewline(newline) && i < |lines| && before != "" && before[|before| - 1] == '\n'
    ensures var text := before + (Ended(lines, newline) + after);
            p <= q <= |text| && AtLineStart(text, p) && AtLineEnd(text, q) &&
            text[p..q] == lines[i] + newline[..|newline| - 1]
  {
    var text, line, below := before + (Ended(lines, newline) + after), lines[0], Ended(lines[1..], newline) + after;
    assert text == before + (line + newline + below);
    if i == 0 {
      p, q := |before|, |before| + |line| + |newline| - 1;
      assert text == before + (line + newline[..|newline| - 1]) + ("\n" + below);
      assert text[p..q] == line + newline[..|newline| - 1];
      assert text[q] == '\n';
    } else {
      var start := before + line + newline;
      assert text == start + below;
      p, q := EndedLine(lines[1..], newline, i - 1, start, after);
    }
  }

  lemma AddrText(rest: string)
    requires AllSpace(rest)
    ensures Addr() + rest == "        " + ("addr:" + (" " + ("\"" + (ADDRESS + ("\"" + rest)))))
    ensures IsField("addr:" + (" " + ("\"" + (ADDRESS + ("\"" + rest)))), "addr:", ADDRESS) && AllSpace("        ")
  {
    assert AllSpace(" ") && OptionalQuote("\"");
  }

  lemma PolicyText(rest: string)
    requires AllSpace(rest)
    ensures Policy() + rest == "    " + ("connect_policy:" + (" " + ("" + ("auto_connect" + ("" + rest)))))
    ensures var field := "connect_policy:" + (" " + ("" + ("auto_connect" + ("" + rest))));
            IsField(field, "connect_policy:", "auto_connect") && AllSpace("    ")
  {
    assert AllSpace(" ") && OptionalQuote("");
  }

  lemma BodyHasLine(body: string, newline: string, after: string, i: nat, space: string, field: string, name: string,
        value: string)
    requires IsNewline(newline) && body == "\n" + (Ended(Details(), newline) + after)
    requires i < |Details()| && Details()[i] + newline[..|newline| - 1] == space + field
    requires AllSpace(space) && space != "" && IsField(field, name, value)
    ensures HasLine(body, name, value)
  {
    hide Ended, Details, IsField, AllSpace;
    var p, q := EndedLine(Details(), newline, i, "\n", after);
  }

  /** A body that starts with the block has both lines the validator looks for. */
  lemma BodyHasLines(body: string, newline: string, after: string)
    requires IsNewline(newline) && body == "\n" + (Ended(Details(), newline) + after)
    ensures HasLine(body, "addr:", ADDRESS) && HasLine(body, "connect_policy:", "auto_connect")
  {
    hide Ended, Addr, Policy, Alias, Addresses, Transport, IsField, HasLine;
    var rest := newline[..|newline| - 1];
    assert AllSpace(rest);
    AddrText(rest);
    PolicyText(rest);
    var addr := "addr:" + (" " + ("\"" + (ADDRESS + ("\"" + rest))));
    var policy := "connect_policy:" + (" " + ("" + ("auto_connect" + ("" + rest))));
    BodyHasLine(body, newline, after, 3, "        ", addr, "addr:", ADDRESS);
    BodyHasLine(body, newline, after, 4, "    ", policy, "connect_policy:", "auto_connect");
  }

  /** The validator's peer is the inserted one. */
  lemma PeerIsBlock(text: string, npub: string) returns (p: nat, q: nat, e: nat, newline: string, after: string)
    requires IsNpub(npub) && !HasActive(text, npub) && Insert(text, npub).Some? && StartsFreshLine(EditedLine(text))
    ensures PeerAt(Insert(text, npub).value, npub, p, q, e) && IsNewline(newline)
    ensures Insert(text, npub).value[q..e] == "\n" + (Ended(Details(), newline) + after)
  {
    hide Block, Insert, EditedLine, StartsFreshLine, IsInsertion, SplitLines, FirstPeers, ActiveAt, HeaderAt,
        PeerEnds, Closed, HasActive, EditedAt, Ended, Details, Header, IsEmptyPeers;
    var r := Insert(text, npub).value;
    var kept: string, space: string, rest: string;
    kept, space, newline, rest := InsertShape(text, npub);
    var before := kept + ("peers:" + space);
    InsertionIsEdited(text, npub, r, kept, space, newline, rest);
    InsertedHeader(before, npub, newline, rest);
    TailChars(before, npub, newline, rest);
    p, q := |before|, HeaderEnd(|before|, npub, newline);
    e := FirstPeerEnd(r, q);
    forall p': nat, q': nat | p' < p ensures !HeaderAt(r, npub, p', q') {
      if HeaderAt(r, npub, p', q') {
        HeaderIsActive(r, npub, p', q');
        NoneBeforeBlock(text, r, npub, |kept|, |before|, p', q');
      }
    }
    BlockIsFollowed(before, npub, newline, rest);
    forall q': nat | q < q' ensures !HeaderAt(r, npub, p, q') {
      HeaderCannotExtend(r, npub, p, q, q');
    }
    assert e >= |before| + |Block(npub, newline)| by {
      if e < |before| + |Block(npub, newline)| { BodyCoversBlock(before, npub, newline, rest, e); }
    }
    var tail := Ended(Details(), newline);
    after := r[q + 1 + |tail|..e];
    BodyText(r, q, e, tail);
  }

  lemma BodyText(r: string, q: nat, e: nat, tail: string)
    requires q + 1 + |tail| <= e <= |r| && r[q] == '\n' && forall j | q < j <= q + |tail| :: r[j] == tail[j - q - 1]
    ensures r[q..e] == "\n" + (tail + r[q + 1 + |tail|..e])
  {
    assert r[q + 1..q + 1 + |tail|] == tail;
    assert r[q..e] == [r[q]] + (r[q + 1..q + 1 + |tail|] + r[q + 1 + |tail|..e]);
  }

  /** On a fresh line, the inserted block passes the validator, whatever line breaks the text uses. */
  lemma FreshBlockIsAuthenticated(text: string, npub: string)
    requires IsNpub(npub) && !HasActive(text, npub) && Insert(text, npub).Some? && StartsFreshLine(EditedLine(text))
    ensures HasAuthenticatedBootstrap(Insert(text, npub).value, npub)
  {
    hide Insert, StartsFreshLine, EditedLine, SplitLines, FirstPeers, ActiveAt, HeaderAt, HasLine, Details, Ended;
    var p, q, e, newline, after := PeerIsBlock(text, npub);
    BodyHasLines(Insert(text, npub).value[q..e], newline, after);
  }

  lemma HeaderBelow(text: string, start: string, x: string, npub: string, p: nat, q: nat)
    requires text == start + x && start != "" && start[|start| - 1] == '\n'
    ensures HeaderAt(text, npub, |start| + p, |start| + q) <==> HeaderAt(x, npub, p, q)
  {
    hide IsField, AtLineStart, AtLineEnd;
    if p <= q {
      LineAtEnd(text, start, x, p);
      AtEndBelow(text, start, x, q);
      if q <= |x| { assert text[|start| + p..|start| + q] == x[p..q]; }
    }
  }

  lemma HeaderInOrder(text: string, npub: string, p: nat, q: nat)
    requires HeaderAt(text, npub, p, q)
    ensures p <= q <= |text|
  {
  }

  lemma PeerEndBelow(text: string, start: string, x: string, e: nat)
    requires text == start + x && start != "" && start[|start| - 1] == '\n'
    ensures PeerEnds(text, |start| + e) <==> PeerEnds(x, e)
  {
    hide AtLineStart;
    LineAtEnd(text, start, x, e);
    if e + |PEER| <= |x| { assert text[|start| + e..|start| + e + |PEER|] == x[e..e + |PEER|]; }
  }

  /** If no header begins before `x` does, the validator's peer of the text is that of `x`. */
  lemma PeerBelow(text: string, start: string, x: string, npub: string, p: nat, q: nat, e: nat)
    requires text == start + x && start != "" && start[|start| - 1] == '\n'
    requires forall p': nat, q': nat | p' < |start| :: !HeaderAt(text, npub, p', q')
    ensures PeerAt(text, npub, |start| + p, |start| + q, |start| + e) <==> PeerAt(x, npub, p, q, e)
  {
    hide HeaderAt, PeerEnds;
    var n := |start|;
    forall p': nat, q': nat ensures HeaderAt(text, npub, n + p', n + q') <==> HeaderAt(x, npub, p', q') {
      HeaderBelow(text, start, x, npub, p', q');
    }
    forall p': nat, q': nat | HeaderAt(text, npub, p', q')
      ensures n <= p' <= q' && HeaderAt(x, npub, p' - n, q' - n)
    {
      HeaderInOrder(text, npub, p', q');
      HeaderBelow(text, start, x, npub, p' - n, q' - n);
    }
    forall e': nat ensures PeerEnds(text, n + e') <==> PeerEnds(x, e') {
      PeerEndBelow(text, start, x, e');
    }
    forall e': nat | n <= e' ensures PeerEnds(text, e') <==> PeerEnds(x, e' - n) {
      PeerEndBelow(text, start, x, e' - n);
    }
    if PeerAt(x, npub, p, q, e) { HeaderInOrder(x, npub, p, q); }
    if PeerAt(text, npub, n + p, n + q, n + e) { HeaderInOrder(text, npub, n + p, n + q); }
  }

  lemma SliceBelow(start: string, x: string, q: nat, e: nat)
    requires q <= e <= |x|
    ensures (start + x)[|start| + q..|start| + e] == x[q..e]
  {
  }

  lemma AuthenticatedBelow(text: string, start: string, x: string, npub: string)
    requires text == start + x && start != "" && start[|start| - 1] == '\n'
    requires forall p: nat, q: nat | HeaderAt(text, npub, p, q) :: |start| <= p
    ensures HasAuthenticatedBootstrap(text, npub) <==> HasAuthenticatedBootstrap(x, npub)
  {
    hide HeaderAt, PeerEnds, HasLine;
    if HasAuthenticatedBootstrap(text, npub) {
      var p: nat, q: nat, e: nat :|
        PeerAt(text, npub, p, q, e) && HasLine(text[q..e], "addr:", ADDRESS) &&
        HasLine(text[q..e], "connect_policy:", "auto_connect");
      HeaderInOrder(text, npub, p, q);
      var n := |start|;
      PeerBelow(text, start, x, npub, p - n, q - n, e - n);
      SliceBelow(start, x, q - n, e - n);
    }
    if HasAuthenticatedBootstrap(x, npub) {
      var p: nat, q: nat, e: nat :|
        PeerAt(x, npub, p, q, e) && HasLine(x[q..e], "addr:", ADDRESS) &&
        HasLine(x[q..e], "connect_policy:", "auto_connect");
      PeerBelow(text, start, x, npub, p, q, e);
      SliceBelow(start, x, q, e);
    }
  }

  /** Where the block is glued to its line, the validator sees the text below it and nothing else. */
  lemma GluedAuthenticatedExactly(text: string, npub: string)
    requires IsNpub(npub) && !HasActive(text, npub)
    requires Insert(text, npub).Some? && !StartsFreshLine(EditedLine(text))
    ensures HasAuthenticatedBootstrap(Insert(text, npub).value, npub) <==> HasAuthenticatedBootstrap(Below(text), npub)
  {
    hide Insert, EditedLine, ActiveAt, HeaderAt, IsInsertion, StartsFreshLine, IsEmptyPeers, Closed, SplitLines,
        FirstPeers, Below, Block, HasActive, HasAuthenticatedBootstrap;
    var r := Insert(text, npub).value;
    var kept, space, newline, rest := InsertShape(text, npub);
    FreshWhenEmpty(EditedLine(text));
    InsertionIsEdited(text, npub, r, kept, space, newline, rest);
    BlockEnds(npub, newline);
    var start := kept + ("peers:" + space) + Block(npub, newline);
    assert r == start + rest;
    forall p: nat, q: nat | HeaderAt(r, npub, p, q) ensures |start| <= p {
      HeaderIsActive(r, npub, p, q);
      GluedMatches(text, npub, r, kept, space, newline, rest, p, q);
    }
    AuthenticatedBelow(r, start, rest, npub);
  }

  /**
   * The validator accepts the result exactly when the edit leaves the block on a line of its own, or it accepts the
   * text below on its own.
   */
  lemma AuthenticatedExactly(text: string, npub: string)
    requires IsNpub(npub) && !HasActive(text, npub) && Insert(text, npub).Some?
    ensures HasAuthenticatedBootstrap(Insert(text, npub).value, npub) <==>
              StartsFreshLine(EditedLine(text)) || HasAuthenticatedBootstrap(Below(text), npub)
  {
    hide Insert, StartsFreshLine, EditedLine, SplitLines, FirstPeers, HasAuthenticatedBootstrap, Below, HasActive;
    if StartsFreshLine(EditedLine(text)) {
      FreshBlockIsAuthenticated(text, npub);
    } else {
      GluedAuthenticatedExactly(text, npub);
    }
  }

  lemma NothingIsAuthenticated(npub: string)
    ensures !HasAuthenticatedBootstrap("", npub)
  {
    hide HasLine, HeaderAt, ActiveAt;
    forall p: nat, q: nat ensures !HeaderAt("", npub, p, q) {
      if HeaderAt("", npub, p, q) {
        HeaderIsActive("", npub, p, q);
        var i := EntryHasColon("", npub, p, q);
      }
    }
  }

  /** For text with no other line breaks than newlines it comes down to the edited line alone. */
  lemma NewlinesAuthenticatedExactly(text: string, npub: string)
    requires IsNpub(npub) && OnlyNewlines(text) && !HasActive(text, npub) && Insert(text, npub).Some?
    ensures HasAuthenticatedBootstrap(Insert(text, npub).value, npub) <==> StartsFreshLine(EditedLine(text))
  {
    hide Insert, StartsFreshLine, EditedLine, OnlyNewlines, SplitLines, FirstPeers, HasAuthenticatedBootstrap, Below,
        HasActive;
    AuthenticatedExactly(text, npub);
    NothingIsAuthenticated(npub);
    if !StartsFreshLine(EditedLine(text)) { NothingBelow(text); }
  }

  // ----- the pinned npub, and a text on which the insertion fails -----

  function BootstrapNpub(): string {
    "npub1qmc3cvfz0" + "yu2hx96nq3gp55z" + ("dan2qclealn7xsh" + "gr448d3nh6lks7zel98")
  }

  lemma NpubsJoin(a: string, b: string)
    requires IsNpub(a) && IsNpub(b)
    ensures IsNpub(a + b)
  {
  }

  lemma FirstPiece() ensures IsNpub("npub1qmc3cvfz0") {}

  lemma SecondPiece() ensures IsNpub("yu2hx96nq3gp55z") {}

  lemma ThirdPiece() ensures IsNpub("dan2qclealn7xsh") {}

  lemma LastPiece() ensures IsNpub("gr448d3nh6lks7zel98") {}

  /** The pinned npub is one the results above apply to. */
  lemma PinnedNpubIsNpub()
    ensures IsNpub(BootstrapNpub())
  {
    FirstPiece();
    SecondPiece();
    ThirdPiece();
    LastPiece();
    hide IsNpub;
    NpubsJoin("npub1qmc3cvfz0", "yu2hx96nq3gp55z");
    NpubsJoin("dan2qclealn7xsh", "gr448d3nh6lks7zel98");
    NpubsJoin("npub1qmc3cvfz0" + "yu2hx96nq3gp55z", "dan2qclealn7xsh" + "gr448d3nh6lks7zel98");
  }

  lemma OneLineSplits(text: string)
    requires text != "" && Unbroken(text)
    ensures SplitLines(text) == [text]
  {
    hide LineEnd;
    assert text + "" == text;
    SplitFirst(text, "");
    assert SplitLines("") == [];
  }

  /** A peers line has no `b`, so it holds no part of an entry. */
  lemma PeersLineHasNoB(line: string)
    requires IsPeers(line)
    ensures 'b' !in line && !IsEmptyPeers(line)
  {
    hide Strip;
    var before, after := StripParts(line);
    assert 'b' !in before && 'b' !in "peers:" && 'b' !in after;
  }

  lemma NoEntryWithoutB(text: string, npub: string)
    requires 'b' !in text
    ensures !HasActive(text, npub)
  {
    hide ActiveAt;
    forall p: nat, q: nat ensures !ActiveAt(text, npub, p, q) {
      if ActiveAt(text, npub, p, q) {
        var i := EntryHasColon(text, npub, p, q);
      }
    }
  }

  /** A file of one unterminated peers line: the result is neither stable nor accepted. */
  lemma UnterminatedPeersIsBroken(text: string, npub: string)
    requires IsNpub(npub) && text != "" && Unbroken(text) && IsPeers(text)
    ensures Insert(text, npub).Some? && WithBootstrap(text, npub) == Some((Insert(text, npub).value, true))
    ensures WithBootstrap(Insert(text, npub).value, npub) != Some((Insert(text, npub).value, false))
    ensures !HasAuthenticatedBootstrap(Insert(text, npub).value, npub)
  {
    OneLineSplits(text);
    PeersLineHasNoB(text);
    NoEntryWithoutB(text, npub);
    hide SplitLines, HasActive, HasAuthenticatedBootstrap, Edited, IsPeers, IsEmptyPeers, OneLine, IsNpub;
    assert EditedLine(text) == text;
    NewlinesIdempotentExactly(text, npub);
    NewlinesAuthenticatedExactly(text, npub);
  }
}

/** Where the bootstrap peer goes in a FIPS configuration, and the text that is put there. */
module FipsInsertion {
  import opened FipsBootstrap
  import opened FipsText
  import opened Wrappers

  predicate IsPeersLine(line: string) {
    Strip(line) == "peers:" || Strip(line) == "peers: []"
  }

  /** The first of the lines that holds a list of peers. */
  ghost predicate IsFirstPeers(lines: seq<string>, i: nat) {
    i < |lines| && IsPeersLine(lines[i]) && forall j | 0 <= j < i :: !IsPeersLine(lines[j])
  }

  predicate EndsInCrLf(line: string) {
    |line| > 1 && line[|line| - 2] == '\r' && line[|line| - 1] == '\n'
  }

  /** The peer, each of its lines ended like this. */
  function PeerText(npub: string, newline: string): string {
    "  - npub: \"" + npub + "\"" + newline +
    ("    alias: \"wingman-bootstrap\"" + newline +
    ("    addresses:" + newline +
    ("      - transport: udp" + newline +
    ("        addr: \"217.77.8.91:2121\"" + newline +
    ("    connect_policy: auto_connect" + newline)))))
  }

  /** The line with the peer below it; an empty list loses its brackets. */
  function Grown(line: string, npub: string): string {
    var newline := if EndsInCrLf(line) then "\r\n" else "\n";
    (if Strip(line) == "peers: []" then "peers:" + newline else line) + PeerText(npub, newline)
  }

  lemma {:induction false} EndedHead(line: string, rest: seq<string>, newline: string)
    ensures Ended([line] + rest, newline) == line + newline + Ended(rest, newline)
    ensures Ended([], newline) == ""
  {
    assert ([line] + rest)[1..] == rest;
  }

  lemma BlockReads(npub: string, newline: string)
    ensures Block(npub, newline) == PeerText(npub, newline)
  {
    var d := Details();
    hide Alias, Addresses, Transport, Addr, Policy, Ended;
    assert d == [Alias()] + ([Addresses()] + ([Transport()] + ([Addr()] + ([Policy()] + []))));
    EndedHead(Policy(), [], newline);
    EndedHead(Addr(), [Policy()] + [], newline);
    EndedHead(Transport(), [Addr()] + ([Policy()] + []), newline);
    EndedHead(Addresses(), [Transport()] + ([Addr()] + ([Policy()] + [])), newline);
    EndedHead(Alias(), [Addresses()] + ([Transport()] + ([Addr()] + ([Policy()] + []))), newline);
    hide Details;
    LinesRead(npub);
  }

  lemma LinesRead(npub: string)
    ensures Alias() == "    alias: \"wingman-bootstrap\"" && Addresses() == "    addresses:"
    ensures Transport() == "      - transport: udp" && Addr() == "        addr: \"217.77.8.91:2121\""
    ensures Policy() == "    connect_policy: auto_connect" && Header(npub) == "  - npub: \"" + npub + "\""
  {
  }

  lemma {:induction false} FirstExactly(lines: seq<string>, test: string -> bool)
    ensures var i := FirstWhere(lines, test);
            i <= |lines| && (i < |lines| ==> test(lines[i])) && forall j | 0 <= j < i :: !test(lines[j])
  {
    if lines != [] && !test(lines[0]) {
      FirstExactly(lines[1..], test);
      forall j | 0 <= j < FirstWhere(lines, test) ensures !test(lines[j]) {
        if j > 0 { assert lines[j] == lines[1..][j - 1]; }
      }
    }
  }

  lemma FirstPeersExactly(lines: seq<string>)
    ensures FirstPeers(lines) < |lines| ==> IsFirstPeers(lines, FirstPeers(lines))
    ensures FirstPeers(lines) == |lines| ==> forall j | 0 <= j < |lines| :: !IsPeersLine(lines[j])
  {
    hide Strip;
    FirstExactly(lines, line => IsEmptyPeers(line) || IsPeers(line));
  }

  lemma EditedReads(line: string, npub: string)
    ensures Join(Edited(line, npub)) == Grown(line, npub)
  {
    var newline := NewlineOf(line);
    NewlineReads(line);
    BlockReads(npub, newline);
    hide Strip, Block, PeerText, NewlineOf, EndsInCrLf;
    if IsEmptyPeers(line) {
      JoinOne("peers:" + newline + Block(npub, newline));
    } else {
      JoinPair(line, Block(npub, newline));
    }
  }

  lemma NewlineReads(line: string)
    ensures NewlineOf(line) == if EndsInCrLf(line) then "\r\n" else "\n"
  {
    if |line| >= 2 { assert line[|line| - 2..] == [line[|line| - 2], line[|line| - 1]]; }
  }

  lemma InsertSucceeds(text: string, npub: string)
    ensures Insert(text, npub).Some? <==> FirstPeers(SplitLines(text)) < |SplitLines(text)|
  {
    hide SplitLines, FirstPeers, Edited, Join;
  }

  lemma FirstIsUnique(lines: seq<string>, i: nat, j: nat)
    requires IsFirstPeers(lines, i) && IsFirstPeers(lines, j)
    ensures i == j
  {
    assert !(i < j) && !(j < i);
  }

  lemma FirstIsFound(lines: seq<string>, i: nat)
    requires IsFirstPeers(lines, i)
    ensures FirstPeers(lines) == i
  {
    FirstPeersExactly(lines);
    hide FirstPeers, IsPeersLine;
    if FirstPeers(lines) < |lines| { FirstIsUnique(lines, i, FirstPeers(lines)); }
  }

  /** The insertion succeeds exactly if some line holds a list of peers. */
  lemma InsertsExactly(text: string, npub: string)
    ensures Insert(text, npub).Some? <==> exists line <- SplitLines(text) :: IsPeersLine(line)
  {
    var lines := SplitLines(text);
    FirstPeersExactly(lines);
    hide SplitLines, IsPeersLine, FirstPeers, Edited, Join;
    if FirstPeers(lines) < |lines| {
      assert IsPeersLine(lines[FirstPeers(lines)]);
    } else {
      assert Insert(text, npub).None?;
    }
  }

  lemma InsertAt(text: string, npub: string, i: nat)
    requires IsFirstPeers(SplitLines(text), i)
    ensures var lines := SplitLines(text);
            Insert(text, npub) == Some(Join(lines[..i]) + (Join(Edited(lines[i], npub)) + Join(lines[i + 1..])))
  {
    FirstIsFound(SplitLines(text), i);
    InsertSucceeds(text, npub);
    hide SplitLines, Join, Edited, IsPeersLine, FirstPeers, Insert, IsFirstPeers;
    InsertJoins(text, npub);
  }

  /** Otherwise it grows the first line that does, and keeps the text around it. */
  lemma InsertGrows(text: string, npub: string, i: nat)
    requires IsFirstPeers(SplitLines(text), i)
    ensures var lines := SplitLines(text);
            && text == Join(lines[..i]) + (lines[i] + Join(lines[i + 1..]))
            && Insert(text, npub) == Some(Join(lines[..i]) + (Grown(lines[i], npub) + Join(lines[i + 1..])))
  {
    InsertAt(text, npub, i);
    hide SplitLines, Join, Grown, Edited, IsPeersLine, Insert;
    EditedReads(SplitLines(text)[i], npub);
    JoinAround(text, i);
  }
}

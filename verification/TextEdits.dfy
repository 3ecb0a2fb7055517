/** Replacing template literals in a bundle: collect the edits, then splice from right to left. */
module TextEdits {

  datatype Edit = Edit(start: nat, end: nat, text: string)

  ghost predicate InRange(source: string, edits: seq<Edit>) {
    forall e <- edits :: e.start < e.end <= |source|
  }

  /** No two edits touch the same character. */
  ghost predicate Disjoint(edits: seq<Edit>) {
    forall i, j | 0 <= i < j < |edits| :: edits[i].end <= edits[j].start || edits[j].end <= edits[i].start
  }

  ghost predicate Descending(edits: seq<Edit>) {
    forall i, j | 0 <= i < j < |edits| :: edits[i].start >= edits[j].start
  }

  // ----- what the edits mean -----

  /** The edit that starts at `at`, if any. */
  ghost predicate StartsAt(edits: seq<Edit>, at: nat) {
    exists e <- edits :: e.start == at
  }

  ghost function EditAt(edits: seq<Edit>, at: nat): (e: Edit)
    requires StartsAt(edits, at)
    ensures e in edits && e.start == at
  {
    var e :| e in edits && e.start == at;
    e
  }

  /** All intervals replaced at once, reading the original text from position `at`. */
  ghost function Replaced(source: string, edits: seq<Edit>, at: nat): string
    requires InRange(source, edits) && at <= |source|
    decreases |source| - at
  {
    if at == |source| then ""
    else if StartsAt(edits, at) then EditAt(edits, at).text + Replaced(source, edits, EditAt(edits, at).end)
    else [source[at]] + Replaced(source, edits, at + 1)
  }

  // ----- what the code does -----

  function Splice(source: string, e: Edit): string
    requires e.start <= e.end <= |source|
  {
    source[..e.start] + e.text + source[e.end..]
  }

  /** Every edit of the list lies at or after `floor`. */
  ghost predicate AllFrom(edits: seq<Edit>, floor: nat) {
    forall e <- edits :: floor <= e.start
  }

  lemma {:induction false} ReplacedWithout(source: string, edits: seq<Edit>, at: nat)
    requires InRange(source, edits) && at <= |source|
    requires forall e <- edits :: e.start < at
    ensures Replaced(source, edits, at) == source[at..]
    decreases |source| - at
  {
    if at < |source| {
      ReplacedWithout(source, edits, at + 1);
      assert source[at..] == [source[at]] + source[at + 1..];
    }
  }

  /** Two lists that agree from `at` on replace the same there. */
  lemma {:induction false} ReplacedDependsOnTail(source: string, a: seq<Edit>, b: seq<Edit>, at: nat)
    requires InRange(source, a) && InRange(source, b) && at <= |source|
    requires Disjoint(a) && Disjoint(b)
    requires forall e: Edit :: e.start >= at ==> (e in a <==> e in b)
    ensures Replaced(source, a, at) == Replaced(source, b, at)
    decreases |source| - at
  {
    if at < |source| {
      if StartsAt(a, at) {
        var e := EditAt(a, at);
        StartIsUnique(b, e, EditAt(b, at));
        ReplacedDependsOnTail(source, a, b, e.end);
      } else {
        assert !StartsAt(b, at);
        ReplacedDependsOnTail(source, a, b, at + 1);
      }
    }
  }

  lemma StartIsUnique(edits: seq<Edit>, a: Edit, b: Edit)
    requires Disjoint(edits) && a in edits && b in edits && a.start == b.start
    requires a.start < a.end && b.start < b.end
    ensures a == b
  {
  }

  lemma ReplacedAt(source: string, edits: seq<Edit>, e: Edit)
    requires InRange(source, edits) && Disjoint(edits) && e in edits
    ensures Replaced(source, edits, e.start) == e.text + Replaced(source, edits, e.end)
  {
    StartIsUnique(edits, e, EditAt(edits, e.start));
  }

  lemma KeptAt(source: string, edits: seq<Edit>, at: nat, end: nat)
    requires InRange(source, edits) && AllFrom(edits, end) && at < end <= |source|
    ensures Replaced(source, edits, at) == [source[at]] + Replaced(source, edits, at + 1)
  {
  }

  lemma Prepended(c: char, a: string, b: string)
    ensures [c] + (a + b) == ([c] + a) + b
  {
  }

  /** Text before every edit is kept. */
  lemma {:induction false} ReplacedPrefix(source: string, edits: seq<Edit>, at: nat, end: nat)
    requires InRange(source, edits) && AllFrom(edits, end) && at <= end <= |source|
    ensures Replaced(source, edits, at) == source[at..end] + Replaced(source, edits, end)
    decreases end - at
  {
    if at < end {
      KeptAt(source, edits, at, end);
      hide Replaced;
      ReplacedPrefix(source, edits, at + 1, end);
      Prepended(source[at], source[at + 1..end], Replaced(source, edits, end));
      assert source[at..end] == [source[at]] + source[at + 1..end];
    } else {
      assert source[at..end] == "";
    }
  }

  lemma SpliceKept(source: string, tail: string, e: Edit)
    requires e.start <= e.end <= |source|
    ensures Splice(source[0..e.end] + tail, e) == source[0..e.start] + (e.text + tail)
  {
    var text := source[0..e.end] + tail;
    assert text[..e.start] == source[0..e.start];
    assert text[e.end..] == tail;
  }

  lemma FewerAreDisjoint(edits: seq<Edit>, n: nat)
    requires Disjoint(edits) && n <= |edits|
    ensures Disjoint(edits[..n])
  {
  }

  /** Splicing in a new leftmost edit replaces it along with the others. */
  lemma SpliceOne(source: string, before: seq<Edit>, after: seq<Edit>, e: Edit)
    requires after == before + [e] && InRange(source, after) && Disjoint(before) && Disjoint(after) &&
        AllFrom(before, e.end)
    ensures var text := Replaced(source, before, 0);
            e.end <= |text| && Splice(text, e) == Replaced(source, after, 0)
  {
    assert e in after;
    ReplacedPrefix(source, before, 0, e.end);
    ReplacedPrefix(source, after, 0, e.start);
    ReplacedAt(source, after, e);
    ReplacedDependsOnTail(source, before, after, e.end);
    SpliceKept(source, Replaced(source, before, e.end), e);
  }

  lemma SpliceNext(source: string, sorted: seq<Edit>, n: nat)
    requires InRange(source, sorted) && Disjoint(sorted) && Descending(sorted) && n < |sorted|
    ensures var text := Replaced(source, sorted[..n], 0);
            sorted[n].end <= |text| && Splice(text, sorted[n]) == Replaced(source, sorted[..n + 1], 0)
  {
    var e := sorted[n];
    FewerAreDisjoint(sorted, n);
    FewerAreDisjoint(sorted, n + 1);
    forall f <- sorted[..n] ensures e.end <= f.start {
      var i :| 0 <= i < n && sorted[i] == f;
    }
    SpliceOne(source, sorted[..n], sorted[..n + 1], e);
  }

  /** The order of the list does not matter to what it means. */
  lemma SameEditsReplace(source: string, a: seq<Edit>, b: seq<Edit>)
    requires InRange(source, a) && InRange(source, b) && Disjoint(a) && Disjoint(b) && multiset(a) == multiset(b)
    ensures Replaced(source, a, 0) == Replaced(source, b, 0)
  {
    forall e: Edit ensures e in a <==> e in b {
      assert e in multiset(a) <==> e in multiset(b);
    }
    ReplacedDependsOnTail(source, a, b, 0);
  }

  // ----- sorting -----

  function Insert(e: Edit, sorted: seq<Edit>): (r: seq<Edit>)
    ensures multiset(r) == multiset(sorted) + multiset{e}
  {
    if sorted == [] || e.start > sorted[0].start then [e] + sorted
    else
      assert sorted == [sorted[0]] + sorted[1..];
      [sorted[0]] + Insert(e, sorted[1..])
  }

  /** `edits.sort((a, b) => b.start - a.start)` */
  function Sorted(edits: seq<Edit>): (r: seq<Edit>)
    ensures multiset(r) == multiset(edits)
  {
    if edits == [] then [] else
      assert edits == edits[..|edits| - 1] + [edits[|edits| - 1]];
      Insert(edits[|edits| - 1], Sorted(edits[..|edits| - 1]))
  }

  lemma InsertedAreKnown(e: Edit, sorted: seq<Edit>, x: Edit)
    requires x in Insert(e, sorted)
    ensures x == e || x in sorted
  {
    assert x in multiset(Insert(e, sorted));
  }

  lemma {:induction false} InsertKeepsDescending(e: Edit, sorted: seq<Edit>)
    requires Descending(sorted)
    ensures Descending(Insert(e, sorted))
  {
    if sorted != [] && e.start <= sorted[0].start {
      var tail := sorted[1..];
      InsertKeepsDescending(e, tail);
      forall x <- Insert(e, tail) ensures x.start <= sorted[0].start {
        InsertedAreKnown(e, tail, x);
      }
    }
  }

  lemma {:induction false} SortedDescends(edits: seq<Edit>)
    ensures Descending(Sorted(edits))
  {
    if edits != [] {
      SortedDescends(edits[..|edits| - 1]);
      InsertKeepsDescending(edits[|edits| - 1], Sorted(edits[..|edits| - 1]));
    }
  }

  /** Being disjoint does not depend on the order of the list. */
  lemma {:induction false} SameEditsDisjoint(a: seq<Edit>, b: seq<Edit>, source: string)
    requires multiset(a) == multiset(b) && Disjoint(a) && InRange(source, a)
    ensures Disjoint(b) && InRange(source, b)
  {
    forall e <- b ensures e in a {
      assert e in multiset(b);
    }
    forall i, j | 0 <= i < j < |b| ensures b[i].end <= b[j].start || b[j].end <= b[i].start {
      if b[i] == b[j] {
        TwiceInMultiset(b, i, j);
        TwiceInSequence(a, b[i]);
      }
    }
  }

  lemma TwiceInMultiset(b: seq<Edit>, i: nat, j: nat)
    requires i < j < |b| && b[i] == b[j]
    ensures multiset(b)[b[i]] >= 2
  {
    assert b == b[..j] + [b[j]] + b[j + 1..];
    assert b[i] in multiset(b[..j]) by { assert b[..j][i] == b[i]; }
  }

  lemma {:induction false} TwiceInSequence(a: seq<Edit>, e: Edit)
    requires multiset(a)[e] >= 2
    ensures exists i, j | 0 <= i < j < |a| :: a[i] == e && a[j] == e
  {
    var n := |a| - 1;
    assert a == a[..n] + [a[n]];
    if a[n] == e {
      assert e in multiset(a[..n]);
      var i :| 0 <= i < n && a[..n][i] == e;
      assert a[i] == e && a[n] == e;
    } else {
      TwiceInSequence(a[..n], e);
      var i, j :| 0 <= i < j < n && a[..n][i] == e && a[..n][j] == e;
      assert a[i] == e && a[j] == e;
    }
  }

  /** Sorting keeps the edits usable and changes nothing they mean. */
  lemma SortedIsEquivalent(original: string, edits: seq<Edit>)
    requires InRange(original, edits) && Disjoint(edits)
    ensures var sorted := Sorted(edits);
            InRange(original, sorted) && Disjoint(sorted) && Descending(sorted) &&
            Replaced(original, sorted, 0) == Replaced(original, edits, 0)
  {
    SortedDescends(edits);
    SameEditsDisjoint(edits, Sorted(edits), original);
    SameEditsReplace(original, edits, Sorted(edits));
  }

  /** The loop over the sorted list. */
  method SpliceAll(original: string, sorted: seq<Edit>) returns (source: string)
    requires InRange(original, sorted) && Disjoint(sorted) && Descending(sorted)
    ensures source == Replaced(original, sorted, 0)
  {
    source := original;
    ReplacedWithout(original, [], 0);
    assert sorted[..0] == [];
    var n := 0;
    while n < |sorted|
      invariant n <= |sorted| && source == Replaced(original, sorted[..n], 0)
    {
      SpliceNext(original, sorted, n);
      source := Splice(source, sorted[n]);
      n := n + 1;
    }
    assert sorted[..n] == sorted;
  }

  /** Splicing from right to left equals replacing every interval of the original at once. */
  method ApplyEdits(original: string, edits: seq<Edit>) returns (source: string)
    requires InRange(original, edits) && Disjoint(edits)
    ensures source == Replaced(original, edits, 0)
  {
    SortedIsEquivalent(original, edits);
    source := SpliceAll(original, Sorted(edits));
  }
}

/** What saving and finishing do to a commentary source, what publishing one entry does, and one whole scan. */
module CommentaryScan {
  import opened Commentary
  import opened OutboxRows
  import opened OutboxTable
  import opened Paths
  import opened Wrappers

  // ----- the sources -----

  ghost predicate OtherSourcesStay(before: Sources, after: Sources, activity: string) {
    && (forall a <- before :: a != activity ==> a in after && after[a] == before[a])
    && (forall a <- after :: a != activity ==> a in before)
  }

  /** A save makes the source pending in its next generation and keeps when it was attempted last. */
  lemma SaveExactly(sources: Sources, activity: string, context: Context)
    ensures var after := AfterSave(sources, activity, context);
            && activity in after && OtherSourcesStay(sources, after, activity)
            && after[activity] ==
               if activity in sources then
                 Source(context, true, sources[activity].generation + 1, sources[activity].lastAttemptAt)
               else Source(context, true, 1, 0)
  {
  }

  /** A finish ends the waiting of the generation it read, unless another one was saved since. */
  lemma FinishExactly(sources: Sources, activity: string, generation: nat)
    ensures var after := AfterFinish(sources, activity, generation);
            && after.Keys == sources.Keys && OtherSourcesStay(sources, after, activity)
            && (activity in sources ==>
                  var was := sources[activity];
                  after[activity] == Source(was.context, was.pending && was.generation != generation, was.generation,
                                            was.lastAttemptAt))
  {
  }

  // ----- one entry -----

  /** The entry is dated before the turn began. */
  predicate IsOld(context: Context, entry: Entry) {
    match (context.startedAt, entry.time)
    case (Some(start), Some(time)) => time < start
    case _ => false
  }

  function NewKey(scan: Scan, entry: Entry): Key {
    var id := if entry.sourceId.Some? then entry.sourceId.value else entry.createdAt;
    Key(scan.activity, "commentary:" + scan.context.session + ":" + id + ":" + entry.hash)
  }

  function OldKey(scan: Scan, entry: Entry): Key {
    Key(scan.activity, "commentary:" + entry.createdAt + ":" + entry.hash)
  }

  /** The table after one entry, as the steps of a scan have it. */
  ghost function AfterEntry(t: Table, scan: Scan, entry: Entry, base: int, payload: Payload): Table {
    if Skipped(scan.context, entry) then t
    else AfterClaim(AfterPublish(t, scan, entry), KeyOf(scan, entry), base, Some(payload))
  }

  lemma KeysAsWritten(scan: Scan, entry: Entry)
    ensures KeyOf(scan, entry) == NewKey(scan, entry)
    ensures forall t :: AfterPublish(t, scan, entry) == AfterMigrate(t, NewKey(scan, entry), OldKey(scan, entry))
  {
  }

  /**
   * An entry of the turn gets its row under the new key: the one that is there, else the one under its old key, which
   * moves, else a new one. An older entry does nothing.
   */
  lemma EntryExactly(t: Table, scan: Scan, entry: Entry, base: int, payload: Payload)
    ensures var u, key, legacy := AfterEntry(t, scan, entry, base, payload), NewKey(scan, entry), OldKey(scan, entry);
            if IsOld(scan.context, entry) then u == t
            else
              && key in u
              && (forall k <- t :: k != key && (k != legacy || key in t) ==> k in u && u[k] == t[k])
              && (forall k <- u :: k != key ==> k in t && (k == legacy ==> key in t))
              && if key in t then u[key].sequence == t[key].sequence
                 else if legacy in t then u[key].sequence == t[legacy].sequence
                 else IsNext(t, scan.activity, base, u[key].sequence)
  {
    KeysAsWritten(scan, entry);
    var key, legacy := NewKey(scan, entry), OldKey(scan, entry);
    assert key.activity == scan.activity;
    MigrateExactly(t, key, legacy);
    ClaimExactly(AfterMigrate(t, key, legacy), key, base, Some(payload));
    hide NewKey, OldKey, KeyOf, AfterPublish, AfterClaim, AfterMigrate, IsNext, Latest;
  }

  // ----- one scan -----

  /** The table after the first `n` entries. */
  ghost function AfterEntries(t: Table, scan: Scan, entries: seq<Entry>, base: int, payloads: nat -> Payload,
        n: nat): Table
    requires n <= |entries|
  {
    if n == 0 then t
    else AfterEntry(AfterEntries(t, scan, entries, base, payloads, n - 1), scan, entries[n - 1], base, payloads(n - 1))
  }

  /** The steps of scans and everyone else, with these names. */
  ghost function Steps(names: Names): (State, State, Event) -> bool {
    (s, s', e) => Step(s, s', e, names)
  }

  /** The first `n` entries of a scan that has read them. */
  lemma {:induction false} EntriesLead(s: State, at: State, names: Names, w: nat, entries: seq<Entry>, base: int,
        payloads: nat -> Payload, n: nat)
    returns (next: State)
    requires Leads(s, at, Steps(names)) && n <= |entries|
    requires w in at.scans && at.scans[w].entries == Some(entries) && at.scans[w].next == 0
    ensures Leads(s, next, Steps(names))
    ensures next == at.(scans := at.scans[w := at.scans[w].(next := n)],
                        table := AfterEntries(at.table, at.scans[w], entries, base, payloads, n))
  {
    hide Leads, AfterClaim, AfterPublish, Skipped, KeyOf;
    next := at;
    if n == 0 {
      assert at.scans[w := at.scans[w].(next := 0)] == at.scans;
    } else {
      var sofar := EntriesLead(s, at, names, w, entries, base, payloads, n - 1);
      var scan, entry := sofar.scans[w], entries[n - 1];
      SameKeys(at.scans[w], scan, entry);
      next := sofar.(scans := sofar.scans[w := scan.(next := n)],
                     table := AfterEntry(sofar.table, scan, entry, base, payloads(n - 1)));
      GoesOn(s, sofar, Publishes(w, base, payloads(n - 1)), next, Steps(names));
    }
  }

  /** Keys and age of an entry depend on the activity and context of the scan alone. */
  lemma SameKeys(a: Scan, b: Scan, entry: Entry)
    requires a.activity == b.activity && a.context == b.context
    ensures forall t, base, payload :: AfterEntry(t, a, entry, base, payload) == AfterEntry(t, b, entry, base, payload)
  {
    KeysAsWritten(a, entry);
    KeysAsWritten(b, entry);
    hide AfterClaim, AfterMigrate;
  }

  /**
   * A scan that nothing interleaves with: the source is saved in its next generation, every entry gets its row, and the
   * source is no longer pending. It is a path of the interleaved steps, so what holds of them covers it.
   */
  lemma ScanIsAPath(s: State, names: Names, w: nat, activity: string, context: Context, entries: seq<Entry>, base: int,
        payloads: nat -> Payload)
    returns (last: State)
    requires w !in s.scans && names.isSession(context.session)
    requires forall entry <- entries :: names.isInstant(entry.createdAt)
    ensures Leads(s, last, Steps(names)) && last.scans == s.scans
    ensures OtherSourcesStay(s.sources, last.sources, activity) && activity in last.sources
    ensures !last.sources[activity].pending
    ensures last.sources[activity].generation ==
            if activity in s.sources then s.sources[activity].generation + 1 else 1
    ensures var scan := Scan(activity, last.sources[activity].generation, context, Some(entries), 0);
            last.table == AfterEntries(s.table, scan, entries, base, payloads, |entries|)
  {
    SaveExactly(s.sources, activity, context);
    Begins(s, Steps(names));
    hide Leads, AfterEntries, AfterFinish, AfterSave;
    var sources := AfterSave(s.sources, activity, context);
    var generation := sources[activity].generation;
    var begun := Scan(activity, generation, context, None, 0);
    var saved := s.(sources := sources, scans := s.scans[w := begun]);
    GoesOn(s, s, Saves(w, activity, context), saved, Steps(names));
    var read := saved.(scans := saved.scans[w := begun.(entries := Some(entries))],
                       scanned := saved.scanned[(activity, generation) := (context, entries)]);
    GoesOn(s, saved, Reads(w, entries), read, Steps(names));
    var published := EntriesLead(s, read, names, w, entries, base, payloads, |entries|);
    FinishExactly(sources, activity, generation);
    last := published.(sources := AfterFinish(sources, activity, generation), scans := published.scans - {w});
    GoesOn(s, published, Finishes(w), last, Steps(names));
    assert published.scans - {w} == s.scans;
  }
}

/**
 The table `agent_activity_commentary_sources` and the scans that publish from it.

 A scan saves its source under a new generation, reads the transcript, claims an outbox
 row per entry, and only then clears `pending`, and only if nobody saved in between.
 */
module Commentary {
  import opened Wrappers
  import opened OutboxTable
  import opened OutboxProtocol

  /** What one scan works on: `startedAt` is absent when it does not parse. */
  datatype Context = Context(session: string, startedAt: Option<int>)

  datatype Entry = Entry(createdAt: string, time: Option<int>, sourceId: Option<string>, hash: string)

  datatype Source = Source(context: Context, pending: bool, generation: nat, lastAttemptAt: int)

  type Sources = map<string, Source>

  function AfterSave(sources: Sources, activity: string, context: Context): Sources {
    if activity in sources then
      sources[activity := sources[activity].(context := context, pending := true,
                                             generation := sources[activity].generation + 1)]
    else
      sources[activity := Source(context, true, 1, 0)]
  }

  function AfterFinish(sources: Sources, activity: string, generation: nat): Sources {
    if activity in sources && sources[activity].generation == generation then
      sources[activity := sources[activity].(pending := false)]
    else sources
  }

  function AfterTouch(sources: Sources, activity: string, now: int): Sources {
    if activity in sources then sources[activity := sources[activity].(lastAttemptAt := now)] else sources
  }

  /** Entries older than the turn are not part of it. */
  predicate Skipped(context: Context, entry: Entry) {
    context.startedAt.Some? && entry.time.Some? && entry.time.value < context.startedAt.value
  }

  function IdentityOf(context: Context, entry: Entry): string {
    CommentaryKey(context.session, if entry.sourceId.Some? then entry.sourceId.value else entry.createdAt, entry.hash)
  }

  // ----- interleaved scans -----

  /** `entries` is absent until the transcript has been read; `next` counts the entries dealt with. */
  datatype Scan = Scan(activity: string, generation: nat, context: Context, entries: Option<seq<Entry>>, next: nat)

  /** `scanned` records what each scan read, by activity and generation. */
  datatype State = State(sources: Sources, table: Table, scans: map<nat, Scan>,
      scanned: map<(string, nat), (Context, seq<Entry>)>)

  datatype Event =
    | Saves(worker: nat, activity: string, context: Context)
    | Reads(worker: nat, entries: seq<Entry>)
    | Publishes(worker: nat, base: int, payload: Payload)
    | Finishes(worker: nat)
    | Stops(worker: nat)                       // a failed read, a thrown claim, a crash
    | Touches(activity: string, now: int)
    | Others(op: Op)                           // any statement of any other publisher or recovery pass

  /** Which session ids and creation times occur. */
  datatype Names = Names(isSession: string -> bool, isInstant: string -> bool)

  function KeyOf(scan: Scan, entry: Entry): Key {
    Key(scan.activity, IdentityOf(scan.context, entry))
  }

  function AfterPublish(t: Table, scan: Scan, entry: Entry): Table {
    AfterMigrate(t, KeyOf(scan, entry), Key(scan.activity, LegacyKey(entry.createdAt, entry.hash)))
  }

  ghost predicate Step(s: State, s': State, e: Event, names: Names) {
    match e
    case Saves(w, activity, context) =>
      && w !in s.scans && names.isSession(context.session)
      && var sources := AfterSave(s.sources, activity, context);
      s' == s.(sources := sources,
               scans := s.scans[w := Scan(activity, sources[activity].generation, context, None, 0)])
    case Reads(w, entries) =>
      && w in s.scans && s.scans[w].entries.None?
      && (forall entry <- entries :: names.isInstant(entry.createdAt))
      && var scan := s.scans[w];
      s' == s.(scans := s.scans[w := scan.(entries := Some(entries))],
               scanned := s.scanned[(scan.activity, scan.generation) := (scan.context, entries)])
    case Publishes(w, base, payload) =>
      && w in s.scans && s.scans[w].entries.Some? && s.scans[w].next < |s.scans[w].entries.value|
      && var scan := s.scans[w];
      && var entry := scan.entries.value[scan.next];
      s' == s.(scans := s.scans[w := scan.(next := scan.next + 1)],
               table := if Skipped(scan.context, entry) then s.table else
                 AfterClaim(AfterPublish(s.table, scan, entry), KeyOf(scan, entry), base, Some(payload)))
    case Finishes(w) =>
      && w in s.scans && s.scans[w].entries.Some? && s.scans[w].next == |s.scans[w].entries.value|
      && s' == s.(sources := AfterFinish(s.sources, s.scans[w].activity, s.scans[w].generation), scans := s.scans - {w})
    case Stops(w) =>
      s' == s.(scans := s.scans - {w})
    case Touches(activity, now) =>
      s' == s.(sources := AfterTouch(s.sources, activity, now))
    case Others(op) =>
      && (op.MigrateOp? ==> BuiltLegacy(names.isInstant, op.legacy.event))
      && s' == s.(table := Apply(s.table, op))
  }

  ghost predicate IsRun(states: seq<State>, events: seq<Event>, names: Names) {
    && |states| == |events| + 1
    && states[0].sources == map[] && states[0].scans == map[] && states[0].scanned == map[]
    && forall i | 0 <= i < |events| :: Step(states[i], states[i + 1], events[i], names)
  }

  /** No key a scan claims is one that a scan renames away. */
  ghost predicate KeysApart(names: Names) {
    forall context: Context, entry: Entry, createdAt: string, hash: string ::
      names.isSession(context.session) && names.isInstant(entry.createdAt) && names.isInstant(createdAt) ==>
        IdentityOf(context, entry) != LegacyKey(createdAt, hash)
  }

  /** Session ids never begin like a timestamp does. */
  ghost predicate NamesApart(names: Names) {
    forall s, c :: names.isSession(s) && names.isInstant(c) ==> Head(s) != Head(c)
  }

  lemma NamesApartSuffices(names: Names)
    requires NamesApart(names)
    ensures KeysApart(names)
  {
    forall context: Context, entry: Entry, createdAt: string, hash: string |
      names.isSession(context.session) && names.isInstant(createdAt)
      ensures IdentityOf(context, entry) != LegacyKey(createdAt, hash)
    {
      var id := if entry.sourceId.Some? then entry.sourceId.value else entry.createdAt;
      CommentaryIsNotLegacy(context.session, id, entry.hash, createdAt, hash);
    }
  }

  /** The first `n` entries that belong to the turn have their outbox row. */
  ghost predicate Stored(t: Table, activity: string, context: Context, entries: seq<Entry>, n: nat)
    requires n <= |entries|
  {
    forall j | 0 <= j < n && !Skipped(context, entries[j]) :: Key(activity, IdentityOf(context, entries[j])) in t
  }

  /** The latest saved source was read to its end and all of it is in the outbox. */
  ghost predicate FullyPublished(s: State, activity: string)
    requires activity in s.sources
  {
    var source := s.sources[activity];
    && (activity, source.generation) in s.scanned
    && var (context, entries) := s.scanned[(activity, source.generation)];
    context == source.context && Stored(s.table, activity, context, entries, |entries|)
  }

  ghost predicate ScanOk(s: State, scan: Scan, names: Names) {
    && names.isSession(scan.context.session)
    && scan.activity in s.sources && scan.generation <= s.sources[scan.activity].generation
    && (scan.generation == s.sources[scan.activity].generation ==> s.sources[scan.activity].context == scan.context)
    && match scan.entries {
      case None => scan.next == 0 && (scan.activity, scan.generation) !in s.scanned
      case Some(entries) =>
        && (scan.activity, scan.generation) in s.scanned
        && s.scanned[(scan.activity, scan.generation)] == (scan.context, entries)
        && (forall entry <- entries :: names.isInstant(entry.createdAt))
        && scan.next <= |entries| && Stored(s.table, scan.activity, scan.context, entries, scan.next)
    }
  }

  ghost predicate Inv(s: State, names: Names) {
    && (forall w <- s.scans :: ScanOk(s, s.scans[w], names))
    && (forall v, w | v in s.scans && w in s.scans && v != w ::
          s.scans[v].activity != s.scans[w].activity || s.scans[v].generation != s.scans[w].generation)
    && (forall r <- s.scanned ::
          && r.0 in s.sources && r.1 <= s.sources[r.0].generation && names.isSession(s.scanned[r].0.session)
          && forall entry <- s.scanned[r].1 :: names.isInstant(entry.createdAt))
    && (forall a <- s.sources :: !s.sources[a].pending ==> FullyPublished(s, a))
  }

  /** No statement removes a commentary row under its new key. */
  lemma CommentaryRowsStay(t: Table, op: Op, names: Names, k: Key, context: Context, entry: Entry)
    requires KeysApart(names) && names.isSession(context.session) && names.isInstant(entry.createdAt)
    requires k in t && k.event == IdentityOf(context, entry)
    requires op.MigrateOp? ==> BuiltLegacy(names.isInstant, op.legacy.event)
    ensures k in Apply(t, op)
  {
  }

  lemma StoredStays(t: Table, op: Op, names: Names, activity: string, context: Context, entries: seq<Entry>, n: nat)
    requires KeysApart(names) && names.isSession(context.session)
    requires forall entry <- entries :: names.isInstant(entry.createdAt)
    requires op.MigrateOp? ==> BuiltLegacy(names.isInstant, op.legacy.event)
    requires n <= |entries| && Stored(t, activity, context, entries, n)
    ensures Stored(Apply(t, op), activity, context, entries, n)
  {
    forall j | 0 <= j < n && !Skipped(context, entries[j])
      ensures Key(activity, IdentityOf(context, entries[j])) in Apply(t, op)
    {
      CommentaryRowsStay(t, op, names, Key(activity, IdentityOf(context, entries[j])), context, entries[j]);
    }
  }

  /** A statement that only changes the outbox keeps the invariant. */
  lemma TableStepKeepsInv(s: State, op: Op, names: Names)
    requires Inv(s, names) && KeysApart(names)
    requires op.MigrateOp? ==> BuiltLegacy(names.isInstant, op.legacy.event)
    ensures Inv(s.(table := Apply(s.table, op)), names)
  {
    var s' := s.(table := Apply(s.table, op));
    forall w <- s'.scans ensures ScanOk(s', s'.scans[w], names) {
      var scan := s.scans[w];
      assert ScanOk(s, scan, names);
      if scan.entries.Some? {
        StoredStays(s.table, op, names, scan.activity, scan.context, scan.entries.value, scan.next);
      }
    }
    forall a <- s'.sources | !s'.sources[a].pending ensures FullyPublished(s', a) {
      var (context, entries) := s.scanned[(a, s.sources[a].generation)];
      StoredStays(s.table, op, names, a, context, entries, |entries|);
    }
  }

  /** Worker `w` moves on past an entry that is skipped or stored. */
  ghost predicate Advances(s: State, s': State, w: nat) {
    && w in s.scans && s.scans[w].entries.Some? && s.scans[w].next < |s.scans[w].entries.value|
    && var scan := s.scans[w];
    && var entry := scan.entries.value[scan.next];
    && (Skipped(scan.context, entry) || KeyOf(scan, entry) in s.table)
    && s' == s.(scans := s.scans[w := scan.(next := scan.next + 1)])
  }

  lemma AdvanceKeepsScan(s: State, s': State, w: nat, names: Names, v: nat)
    requires Inv(s, names) && Advances(s, s', w) && v in s'.scans
    ensures ScanOk(s', s'.scans[v], names)
  {
    assert ScanOk(s, s.scans[v], names);
  }

  lemma AdvanceKeepsInv(s: State, s': State, w: nat, names: Names)
    requires Inv(s, names) && Advances(s, s', w)
    ensures Inv(s', names)
  {
    forall v <- s'.scans ensures ScanOk(s', s'.scans[v], names) {
      AdvanceKeepsScan(s, s', w, names, v);
    }
    hide ScanOk, Skipped, Stored;
    forall a <- s'.sources | !s'.sources[a].pending ensures FullyPublished(s', a) {
      assert FullyPublished(s, a);
    }
  }

  lemma StoringKeepsInv(s: State, scan: Scan, entry: Entry, base: int, payload: Payload, names: Names)
    requires Inv(s, names) && KeysApart(names) && names.isInstant(entry.createdAt)
    ensures var t := AfterClaim(AfterPublish(s.table, scan, entry), KeyOf(scan, entry), base, Some(payload));
            Inv(s.(table := t), names) && KeyOf(scan, entry) in t
  {
    var rename := MigrateOp(KeyOf(scan, entry), Key(scan.activity, LegacyKey(entry.createdAt, entry.hash)));
    assert BuiltLegacy(names.isInstant, rename.legacy.event);
    hide Inv, KeysApart, BuiltLegacy, AfterMigrate, LegacyKey, CommentaryKey;
    TableStepKeepsInv(s, rename, names);
    TableStepKeepsInv(s.(table := Apply(s.table, rename)), ClaimOp(KeyOf(scan, entry), base, Some(payload)), names);
  }

  lemma PublishKeepsInv(s: State, s': State, e: Event, names: Names)
    requires Inv(s, names) && Step(s, s', e, names) && e.Publishes? && KeysApart(names)
    ensures Inv(s', names)
  {
    var scan := s.scans[e.worker];
    assert ScanOk(s, scan, names);
    var entry := scan.entries.value[scan.next];
    assert names.isInstant(entry.createdAt);
    hide Inv, ScanOk, KeysApart, AfterPublish, AfterClaim;
    if !Skipped(scan.context, entry) {
      StoringKeepsInv(s, scan, entry, e.base, e.payload, names);
    }
    AdvanceKeepsInv(s.(table := s'.table), s', e.worker, names);
  }

  lemma SaveKeepsScans(s: State, s': State, e: Event, names: Names)
    requires Inv(s, names) && Step(s, s', e, names) && e.Saves?
    ensures forall w <- s'.scans :: ScanOk(s', s'.scans[w], names)
  {
    forall w <- s'.scans ensures ScanOk(s', s'.scans[w], names) {
      if w in s.scans { assert ScanOk(s, s.scans[w], names); }
    }
  }

  lemma SaveKeepsInv(s: State, s': State, e: Event, names: Names)
    requires Inv(s, names) && Step(s, s', e, names) && e.Saves?
    ensures Inv(s', names)
  {
    SaveKeepsScans(s, s', e, names);
    forall w <- s.scans
      ensures s.scans[w].activity == e.activity ==> s.scans[w].generation < s'.scans[e.worker].generation
    {
      assert ScanOk(s, s.scans[w], names);
    }
    hide ScanOk, Stored;
    forall a <- s'.sources | !s'.sources[a].pending ensures FullyPublished(s', a) {
      assert a != e.activity && FullyPublished(s, a);
    }
  }

  lemma ReadKeepsInv(s: State, s': State, e: Event, names: Names)
    requires Inv(s, names) && Step(s, s', e, names) && e.Reads?
    ensures Inv(s', names)
  {
    assert ScanOk(s, s.scans[e.worker], names);
    forall w <- s'.scans ensures ScanOk(s', s'.scans[w], names) {
      assert ScanOk(s, s.scans[w], names);
    }
    forall a <- s'.sources | !s'.sources[a].pending ensures FullyPublished(s', a) {
      assert FullyPublished(s, a);
    }
  }

  /** Statements that only change the sources, and what they leave alone. */
  ghost predicate SourceStep(s: State, s': State, e: Event, names: Names) {
    Step(s, s', e, names) && (e.Finishes? || e.Stops? || e.Touches?)
  }

  lemma SourceStepKeepsScan(s: State, s': State, e: Event, names: Names, w: nat)
    requires Inv(s, names) && SourceStep(s, s', e, names) && w in s'.scans
    ensures ScanOk(s', s'.scans[w], names)
  {
    assert ScanOk(s, s.scans[w], names);
    hide Stored;
  }

  lemma SourceStepKeepsPublished(s: State, s': State, e: Event, names: Names, a: string)
    requires Inv(s, names) && SourceStep(s, s', e, names) && a in s'.sources && !s'.sources[a].pending
    ensures FullyPublished(s', a)
  {
    if e.Finishes? { assert ScanOk(s, s.scans[e.worker], names); }
    if !s.sources[a].pending { assert FullyPublished(s, a); }
  }

  lemma SourceStepKeepsInv(s: State, s': State, e: Event, names: Names)
    requires Inv(s, names) && SourceStep(s, s', e, names)
    ensures Inv(s', names)
  {
    forall w <- s'.scans ensures ScanOk(s', s'.scans[w], names) {
      SourceStepKeepsScan(s, s', e, names, w);
    }
    forall a <- s'.sources | !s'.sources[a].pending ensures FullyPublished(s', a) {
      SourceStepKeepsPublished(s, s', e, names, a);
    }
    hide ScanOk, FullyPublished;
  }

  lemma {:induction false} RunKeepsInv(states: seq<State>, events: seq<Event>, names: Names)
    requires IsRun(states, events, names) && KeysApart(names)
    ensures Inv(states[|events|], names)
    decreases |events|
  {
    if events != [] {
      var n := |events| - 1;
      assert IsRun(states[..n + 1], events[..n], names);
      RunKeepsInv(states[..n + 1], events[..n], names);
      var s, s', e := states[n], states[n + 1], events[n];
      assert Step(s, s', e, names);
      match e
      case Publishes(_, _, _) => PublishKeepsInv(s, s', e, names);
      case Others(op) => TableStepKeepsInv(s, op, names);
      case Saves(_, _, _) => SaveKeepsInv(s, s', e, names);
      case Reads(_, _) => ReadKeepsInv(s, s', e, names);
      case _ => SourceStepKeepsInv(s, s', e, names);
    }
  }

  /** In every interleaving: a source no longer pending was read to its end, and nothing it held is missing. */
  lemma NoCommentaryLost(states: seq<State>, events: seq<Event>, names: Names, activity: string)
    requires IsRun(states, events, names) && KeysApart(names)
    requires activity in states[|events|].sources && !states[|events|].sources[activity].pending
    ensures FullyPublished(states[|events|], activity)
  {
    RunKeepsInv(states, events, names);
  }

  // ----- a key that is renamed away -----

  /** Every source that is no longer pending is fully published, in every run. */
  ghost predicate NothingLost(names: Names) {
    forall states: seq<State>, events: seq<Event>, a: string |
      IsRun(states, events, names) && a in states[|events|].sources && !states[|events|].sources[a].pending ::
      FullyPublished(states[|events|], a)
  }

  const PAYLOAD: Payload := Payload(false, 0)

  /** The table after a publish of each entry. */
  ghost function Published(t: Table, scan: Scan, entry: Entry): Table {
    AfterClaim(AfterPublish(t, scan, entry), KeyOf(scan, entry), 0, Some(PAYLOAD))
  }

  /** Publishing the second entry renames the row of the first. */
  lemma SecondRenamesFirst(scan: Scan, first: Entry, second: Entry)
    requires KeyOf(scan, first) == Key(scan.activity, LegacyKey(second.createdAt, second.hash))
    requires KeyOf(scan, second) != KeyOf(scan, first)
    ensures KeyOf(scan, first) !in Published(Published(map[], scan, first), scan, second)
  {
  }

  /** A scan of two such entries, from its save to its end. */
  ghost function LosingState(i: nat, context: Context, first: Entry, second: Entry): State {
    var entries, none, scan := Some([first, second]), map[], Scan("", 1, context, None, 0);
    var open := State.State(map["" := Source(context, true, 1, 0)], none, map[0 := scan], map[]);
    var looked := open.(scanned := map[("", 1) := (context, [first, second])]);
    match i
    case 0 => State.State(map[], none, map[], map[])
    case 1 => open
    case 2 => looked.(scans := map[0 := scan.(entries := entries)])
    case 3 => looked.(scans := map[0 := scan.(entries := entries, next := 1)], table := Published(none, scan, first))
    case 4 => looked.(scans := map[0 := scan.(entries := entries, next := 2)],
                      table := Published(Published(none, scan, first), scan, second))
    case _ => looked.(scans := map[], sources := map["" := Source(context, false, 1, 0)],
                      table := Published(Published(none, scan, first), scan, second))
  }

  ghost function LosingEvent(i: nat, context: Context, first: Entry, second: Entry): Event {
    match i
    case 0 => Saves(0, "", context)
    case 1 => Reads(0, [first, second])
    case 2 => Publishes(0, 0, PAYLOAD)
    case 3 => Publishes(0, 0, PAYLOAD)
    case _ => Finishes(0)
  }

  lemma LosingStep(i: nat, context: Context, first: Entry, second: Entry, names: Names)
    requires i < 5 && names.isSession(context.session) && context.startedAt.None?
    requires names.isInstant(first.createdAt) && names.isInstant(second.createdAt)
    ensures Step(LosingState(i, context, first, second), LosingState(i + 1, context, first, second),
                 LosingEvent(i, context, first, second), names)
  {
    hide AfterClaim, AfterMigrate, CommentaryKey, LegacyKey;
    var s, s' := LosingState(i, context, first, second), LosingState(i + 1, context, first, second);
    match i
    case 0 => assert s'.scans == s.scans[0 := Scan("", 1, context, None, 0)];
    case 1 => assert s'.scans == s.scans[0 := s.scans[0].(entries := Some([first, second]))];
    case 2 => assert s'.scans == s.scans[0 := s.scans[0].(next := 1)];
    case 3 => assert s'.scans == s.scans[0 := s.scans[0].(next := 2)];
    case _ => assert s'.scans == s.scans - {0};
  }

  lemma RenamedRowIsLost(names: Names, context: Context, first: Entry, second: Entry)
    requires names.isSession(context.session) && context.startedAt.None?
    requires names.isInstant(first.createdAt) && names.isInstant(second.createdAt)
    requires IdentityOf(context, first) == LegacyKey(second.createdAt, second.hash)
    requires IdentityOf(context, second) != IdentityOf(context, first)
    ensures !NothingLost(names)
  {
    var states := seq(6, i requires 0 <= i < 6 => LosingState(i, context, first, second));
    var events := seq(5, i requires 0 <= i < 5 => LosingEvent(i, context, first, second));
    forall i | 0 <= i < 5 ensures Step(states[i], states[i + 1], events[i], names) {
      LosingStep(i, context, first, second, names);
    }
    var scan := Scan("", 1, context, None, 0);
    SecondRenamesFirst(scan, first, second);
    hide Step, Published, IdentityOf, LegacyKey;
    assert IsRun(states, events, names);
    assert states[5].scanned[("", 1)] == (context, [first, second]) && [first, second][0] == first;
    assert KeyOf(scan, first) !in states[5].table && !Skipped(context, first);
    assert !FullyPublished(states[5], "");
  }

  /** No interleaving loses commentary, exactly if no key that is claimed for it is also renamed away. */
  lemma NothingLostExactly(names: Names)
    ensures NothingLost(names) <==> KeysApart(names)
  {
    if KeysApart(names) {
      forall states: seq<State>, events: seq<Event>, a: string |
        IsRun(states, events, names) && a in states[|events|].sources && !states[|events|].sources[a].pending
        ensures FullyPublished(states[|events|], a)
      {
        NoCommentaryLost(states, events, names, a);
      }
    } else {
      var context: Context, first: Entry, createdAt: string, hash: string :|
        names.isSession(context.session) && names.isInstant(first.createdAt) && names.isInstant(createdAt) &&
        IdentityOf(context, first) == LegacyKey(createdAt, hash);
      var second := Entry(createdAt, None, Some(IdentityOf(context, first)), hash);
      assert |IdentityOf(context, second)| > |IdentityOf(context, first)|;
      RenamedRowIsLost(names, Context(context.session, None), first, second);
    }
  }

  // ----- the store -----

  /**
   * A possible answer of `pendingCommentarySources(limit)`: the least recently attempted come first, ties in any
   * order.
   */
  ghost predicate IsSelection(sources: Sources, limit: nat, chosen: seq<string>) {
    && |chosen| <= limit
    && (forall i | 0 <= i < |chosen| :: chosen[i] in sources && sources[chosen[i]].pending)
    && (forall i, j | 0 <= i < j < |chosen| ::
          chosen[i] != chosen[j] && sources[chosen[i]].lastAttemptAt <= sources[chosen[j]].lastAttemptAt)
    && (forall a <- sources :: sources[a].pending && a !in chosen ==>
          |chosen| == limit &&
          forall c <- chosen :: c in sources && sources[c].lastAttemptAt <= sources[a].lastAttemptAt)
  }

  class CommentarySources {
    var rows: Sources

    constructor ()
      ensures rows == map[]
    {
      rows := map[];
    }

    method Save(activity: string, context: Context) returns (generation: nat)
      modifies this
      ensures rows == AfterSave(old(rows), activity, context)
      ensures activity in rows && generation == rows[activity].generation
      ensures activity in old(rows) ==> generation > old(rows)[activity].generation
    {
      if activity in rows {
        rows := rows[activity := rows[activity].(context := context, pending := true,
                                                 generation := rows[activity].generation + 1)];
      } else {
        rows := rows[activity := Source(context, true, 1, 0)];
      }
      generation := rows[activity].generation;
    }

    method Finish(activity: string, generation: nat)
      modifies this
      ensures rows == AfterFinish(old(rows), activity, generation)
    {
      if activity in rows && rows[activity].generation == generation {
        rows := rows[activity := rows[activity].(pending := false)];
      }
    }

    method Touch(activity: string, now: int)
      modifies this
      ensures rows == AfterTouch(old(rows), activity, now)
    {
      if activity in rows { rows := rows[activity := rows[activity].(lastAttemptAt := now)]; }
    }
  }
}

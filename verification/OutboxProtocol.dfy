/**
 Publishers, recovery passes and Tower as interleaved atomic steps over one outbox table.

 A step is one SQL statement, one message handed to the network, one message handled
 by Tower, or one answer seen by a worker. Messages may be lost, delayed past their
 sender's timeout or crash, handled twice, and answered without the answer arriving.
 */
module OutboxProtocol {
  import opened Wrappers
  import opened OutboxTable

  /** What Tower keeps for an activity: its greatest accepted sequence, and whether it has ended. */
  datatype Tower = Tower(greatest: map<string, int>, ended: set<string>)

  datatype Message = Message(activity: string, sequence: int, terminal: bool)

  datatype Worker =
    | Publisher(key: Key, sequence: int, message: Message, attemptsLeft: nat)  // inside publishNow, after its claim
    | Recovery(items: seq<Item>, asked: bool)                                   // inside recover, at items[0]

  /** `answers` holds the messages Tower took or rejected as stale or terminal; either answer converges. */
  datatype State = State(
    table: Table,
    tower: Tower,
    sent: set<Message>,
    answers: set<Message>,
    workers: map<nat, Worker>)

  /** The event keys a publisher may claim, and those a migration may rename away. */
  datatype Keys = Keys(claimable: string -> bool, legacy: string -> bool)

  const PUBLISH_ATTEMPTS: nat := 2
  const RECOVERY_LIMIT: nat := 100

  /** Tower already has an equal or newer snapshot, or the activity has ended there. */
  predicate Covers(tower: Tower, activity: string, sequence: int) {
    activity in tower.ended || (activity in tower.greatest && sequence <= tower.greatest[activity])
  }

  function Raise(tower: Tower, m: Message): Tower {
    Tower(
      tower.greatest[m.activity := if AtMostGreatest(tower, m) then tower.greatest[m.activity] else m.sequence],
      if m.terminal then tower.ended + {m.activity} else tower.ended)
  }

  predicate AtMostGreatest(tower: Tower, m: Message) {
    m.activity in tower.greatest && m.sequence <= tower.greatest[m.activity]
  }

  /** A covered message is rejected as stale or terminal (or, for a late comment, still taken); any other is taken. */
  predicate TowerHandles(tower: Tower, tower': Tower, m: Message) {
    tower' == Raise(tower, m) || (Covers(tower, m.activity, m.sequence) && tower' == tower)
  }

  datatype Event =
    | Claims(worker: nat, key: Key, base: int, payload: Option<Payload>, terminal: bool)
    | StartsRecovery(worker: nat, now: int, items: seq<Item>)
    | Sends(worker: nat)
    | Handles(message: Message)
    | Converges(worker: nat)
    | GivesUp(worker: nat, now: int)
    | SkipsItem(worker: nat)
    | Stops(worker: nat)
    | Migrates(target: Key, from: Key)

  function MessageOf(item: Item): Message {
    Message(item.key.activity, item.payload.sequence, item.payload.terminal)
  }

  /** The message a worker waits for, once it has handed it to the network. */
  function Awaited(w: Worker): Option<(Key, Message)> {
    match w
    case Publisher(key, _, m, left) => if left < PUBLISH_ATTEMPTS then Some((key, m)) else None
    case Recovery(items, asked) => if asked && items != [] then Some((items[0].key, MessageOf(items[0]))) else None
  }

  /** The worker after its current row is settled: a recovery pass goes on to its next item. */
  function Settle(s: State, w: nat): map<nat, Worker>
    requires w in s.workers
  {
    match s.workers[w]
    case Publisher(_, _, _, _) => s.workers - {w}
    case Recovery(items, _) =>
      if |items| <= 1 then s.workers - {w} else s.workers[w := Recovery(items[1..], false)]
  }

  ghost predicate Step(s: State, s': State, e: Event, keys: Keys) {
    match e
    case Claims(w, key, base, payload, terminal) =>
      && w !in s.workers && keys.claimable(key.event)
      && (payload.Some? ==> payload.value.terminal == terminal)
      && var answer := ClaimAnswer(s.table, key, base);
      s' == s.(
        table := AfterClaim(s.table, key, base, payload),
        workers :=
          if answer.duplicate then s.workers else
          var m := Message(key.activity, answer.sequence, terminal);
          s.workers[w := Publisher(key, answer.sequence, m, PUBLISH_ATTEMPTS)])
    case StartsRecovery(w, now, items) =>
      && w !in s.workers && IsPendingAnswer(s.table, now, RECOVERY_LIMIT, items)
      && s' == s.(workers := s.workers[w := Recovery(items, false)])
    case Sends(w) =>
      && w in s.workers
      && match s.workers[w] {
        case Publisher(_, _, m, left) =>
          left > 0 && s' == s.(sent := s.sent + {m}, workers := s.workers[w := s.workers[w].(attemptsLeft := left - 1)])
        case Recovery(items, asked) =>
          !asked && items != [] &&
          s' == s.(sent := s.sent + {MessageOf(items[0])}, workers := s.workers[w := Recovery(items, true)])
      }
    case Handles(m) =>
      m in s.sent && TowerHandles(s.tower, s'.tower, m) && s' == s.(tower := s'.tower, answers := s.answers + {m})
    case Converges(w) =>
      && w in s.workers && Awaited(s.workers[w]).Some?
      && var (key, m) := Awaited(s.workers[w]).value;
      m in s.answers && s' == s.(table := AfterAccept(s.table, key), workers := Settle(s, w))
    case GivesUp(w, now) =>
      && w in s.workers
      && match s.workers[w] {
        case Publisher(key, _, _, _) =>
          s' == s.(table := AfterFail(s.table, key), workers := Settle(s, w))
        case Recovery(items, _) =>
          items != [] && s' == s.(
            table := AfterDefer(AfterFail(s.table, items[0].key), items[0].key, now, BASE_DELAY_MS, MAX_DELAY_MS),
            workers := Settle(s, w))
      }
    case SkipsItem(w) =>
      w in s.workers && s.workers[w].Recovery? && s' == s.(workers := Settle(s, w))
    case Stops(w) =>
      s' == s.(workers := s.workers - {w})
    case Migrates(target, from) =>
      && target.activity == from.activity && keys.legacy(from.event) && keys.claimable(target.event)
      && s' == s.(table := AfterMigrate(s.table, target, from))
  }

  /** The steps of the protocol with these keys. */
  ghost function Steps(keys: Keys): (State, State, Event) -> bool {
    (s, s', e) => Step(s, s', e, keys)
  }

  /** Any earlier table and Tower that agree; nobody is working, though old messages may still be on their way. */
  ghost predicate Initial(s: State) {
    && PayloadsCarrySequence(s.table) && Converged(s)
    && s.answers == {} && s.workers == map[]
  }

  ghost predicate Converged(s: State) {
    forall k <- s.table :: s.table[k].status == Accepted ==> Covers(s.tower, k.activity, s.table[k].sequence)
  }

  ghost predicate IsRun(states: seq<State>, events: seq<Event>, keys: Keys) {
    && |states| == |events| + 1
    && Initial(states[0])
    && forall i | 0 <= i < |events| :: Step(states[i], states[i + 1], events[i], keys)
  }

  /** No key is both renamed away and claimed again, unless it is the only key ever claimed. */
  ghost predicate Disciplined(keys: Keys) {
    forall k, l :: keys.claimable(k) && keys.legacy(k) && keys.claimable(l) ==> k == l
  }

  // ----- the inductive invariant -----

  /** The row a worker will mark still has the sequence the worker sent, or its key is gone for good. */
  ghost predicate Tracks(t: Table, keys: Keys, key: Key, m: Message) {
    && m.activity == key.activity
    && (if key in t then t[key].sequence == m.sequence else !keys.claimable(key.event))
  }

  ghost predicate WorkerOk(t: Table, keys: Keys, w: Worker) {
    match w
    case Publisher(key, _, m, _) => Tracks(t, keys, key, m)
    case Recovery(items, _) => forall i | 0 <= i < |items| :: Tracks(t, keys, items[i].key, MessageOf(items[i]))
  }

  ghost predicate Inv(s: State, keys: Keys) {
    && PayloadsCarrySequence(s.table)
    && Converged(s)
    && (forall m <- s.answers :: Covers(s.tower, m.activity, m.sequence))
    && (forall w <- s.workers :: WorkerOk(s.table, keys, s.workers[w]))
  }

  lemma TowerOnlyGrows(tower: Tower, tower': Tower, m: Message, activity: string, sequence: int)
    requires TowerHandles(tower, tower', m)
    ensures Covers(tower', m.activity, m.sequence)
    ensures Covers(tower, activity, sequence) ==> Covers(tower', activity, sequence)
  {
  }

  /** Statements other than a rename keep what every worker tracks. */
  lemma TracksKept(t: Table, u: Table, keys: Keys, w: Worker)
    requires WorkerOk(t, keys, w)
    requires forall k <- t :: k in u && u[k].sequence == t[k].sequence
    requires forall k <- u :: k in t || keys.claimable(k.event)
    ensures WorkerOk(u, keys, w)
  {
  }

  lemma TracksKeptByRename(t: Table, target: Key, from: Key, keys: Keys, w: Worker)
    requires WorkerOk(t, keys, w) && Disciplined(keys)
    requires keys.legacy(from.event) && keys.claimable(target.event) && target.activity == from.activity
    ensures WorkerOk(AfterMigrate(t, target, from), keys, w)
  {
    var u := AfterMigrate(t, target, from);
    forall k, m | Tracks(t, keys, k, m) ensures Tracks(u, keys, k, m) {
      if k == from && from in t && target !in t {
        assert from.event != target.event;
      }
    }
    match w
    case Publisher(key, _, m, _) => assert Tracks(u, keys, key, m);
    case Recovery(items, _) =>
      forall i | 0 <= i < |items| ensures Tracks(u, keys, items[i].key, MessageOf(items[i])) {}
  }

  lemma TableStepKeepsTracks(s: State, s': State, e: Event, keys: Keys)
    requires Inv(s, keys) && Step(s, s', e, keys) && Disciplined(keys)
    ensures PayloadsCarrySequence(s'.table)
    ensures forall w <- s.workers :: WorkerOk(s'.table, keys, s.workers[w])
  {
    forall w <- s.workers ensures WorkerOk(s'.table, keys, s.workers[w]) {
      if e.Migrates? {
        TracksKeptByRename(s.table, e.target, e.from, keys, s.workers[w]);
      } else {
        TracksKept(s.table, s'.table, keys, s.workers[w]);
      }
    }
  }

  lemma WorkersKept(s: State, s': State, e: Event, keys: Keys)
    requires Inv(s, keys) && Step(s, s', e, keys) && Disciplined(keys)
    ensures forall w <- s'.workers :: WorkerOk(s'.table, keys, s'.workers[w])
  {
    TableStepKeepsTracks(s, s', e, keys);
    forall w <- s'.workers ensures WorkerOk(s'.table, keys, s'.workers[w]) {
      if w in s.workers && s.workers[w].Recovery? && s'.workers[w].Recovery? {
        var items := s.workers[w].items;
        assert s'.workers[w].items == items || (items != [] && s'.workers[w].items == items[1..]);
      }
    }
  }

  lemma ConvergedKept(s: State, s': State, e: Event, keys: Keys)
    requires Inv(s, keys) && Step(s, s', e, keys)
    ensures Converged(s') && forall m <- s'.answers :: Covers(s'.tower, m.activity, m.sequence)
  {
    if e.Handles? {
      forall a, n | Covers(s.tower, a, n) ensures Covers(s'.tower, a, n) {
        TowerOnlyGrows(s.tower, s'.tower, e.message, a, n);
      }
      TowerOnlyGrows(s.tower, s'.tower, e.message, e.message.activity, e.message.sequence);
    }
  }

  lemma InvKept(s: State, s': State, e: Event, keys: Keys)
    requires Inv(s, keys) && Step(s, s', e, keys) && Disciplined(keys)
    ensures Inv(s', keys)
  {
    TableStepKeepsTracks(s, s', e, keys);
    WorkersKept(s, s', e, keys);
    ConvergedKept(s, s', e, keys);
  }

  // ----- the theorem -----

  lemma {:induction false} RunsConverge(states: seq<State>, events: seq<Event>, keys: Keys)
    requires IsRun(states, events, keys) && Disciplined(keys)
    ensures Inv(states[|events|], keys)
    decreases |events|
  {
    if events != [] {
      var n := |events| - 1;
      assert IsRun(states[..n + 1], events[..n], keys);
      RunsConverge(states[..n + 1], events[..n], keys);
      InvKept(states[n], states[n + 1], events[n], keys);
    }
  }

  /** A run in which a publisher waits while its key is renamed away and claimed again. */
  ghost function ReclaimingState(i: nat, from: Key, target: Key): State {
    var m := Message(from.activity, 1, false);
    var row := (n: int) => Row(n, Emitted, 1, 0, None);
    var waiting := Publisher(from, 1, m, 1);
    var second := Publisher(from, 2, Message(from.activity, 2, false), PUBLISH_ATTEMPTS);
    var one := Tower(map[from.activity := 1], {});
    match i
    case 0 => State(map[], Tower(map[], {}), {}, {}, map[])
    case 1 => State(map[from := row(1)], Tower(map[], {}), {}, {}, map[0 := Publisher(from, 1, m, PUBLISH_ATTEMPTS)])
    case 2 => State(map[from := row(1)], Tower(map[], {}), {m}, {}, map[0 := waiting])
    case 3 => State(map[from := row(1)], one, {m}, {m}, map[0 := waiting])
    case 4 => State(map[target := row(1)], one, {m}, {m}, map[0 := waiting])
    case 5 => State(map[target := row(1), from := row(2)], one, {m}, {m}, map[0 := waiting, 1 := second])
    case _ => State(map[target := row(1), from := Row(2, Accepted, 1, 0, None)], one, {m}, {m}, map[1 := second])
  }

  ghost function ReclaimingEvent(i: nat, from: Key, target: Key): Event {
    match i
    case 0 => Claims(0, from, 0, None, false)
    case 1 => Sends(0)
    case 2 => Handles(Message(from.activity, 1, false))
    case 3 => Migrates(target, from)
    case 4 => Claims(1, from, 0, None, false)
    case _ => Converges(0)
  }

  lemma LatestIs(t: Table, activity: string, base: int, m: int)
    requires IsLatest(t, activity, base, m)
    ensures Latest(t, activity, base) == m
  {
  }

  lemma ReclaimingClaim(i: nat, from: Key, target: Key, keys: Keys)
    requires (i == 0 || i == 4) && from.activity == target.activity && from.event != target.event
    requires keys.claimable(from.event)
    ensures Step(ReclaimingState(i, from, target), ReclaimingState(i + 1, from, target),
                 ReclaimingEvent(i, from, target), keys)
  {
    var s := ReclaimingState(i, from, target);
    if i == 4 { assert s.table[target].sequence == 1; }
    LatestIs(s.table, from.activity, 0, if i == 0 then 0 else 1);
  }

  lemma ReclaimingStep(i: nat, from: Key, target: Key, keys: Keys)
    requires i < 6 && from.activity == target.activity && from.event != target.event
    requires keys.claimable(from.event) && keys.legacy(from.event) && keys.claimable(target.event)
    ensures Step(ReclaimingState(i, from, target), ReclaimingState(i + 1, from, target),
                 ReclaimingEvent(i, from, target), keys)
  {
    var s, s' := ReclaimingState(i, from, target), ReclaimingState(i + 1, from, target);
    match i
    case 0 | 4 => ReclaimingClaim(i, from, target, keys);
    case 3 => assert AfterMigrate(s.table, target, from) == s'.table;
    case 5 => assert s.workers - {0} == s'.workers;
    case _ =>
  }

  lemma ReclaimingDiverges(keys: Keys, from: Key, target: Key)
    requires from.activity == target.activity && from.event != target.event
    requires keys.claimable(from.event) && keys.legacy(from.event) && keys.claimable(target.event)
    ensures !AllRunsConverge(keys)
  {
    var states := seq(7, i requires 0 <= i < 7 => ReclaimingState(i, from, target));
    var events := seq(6, i requires 0 <= i < 6 => ReclaimingEvent(i, from, target));
    forall i | 0 <= i < 6 ensures Step(states[i], states[i + 1], events[i], keys) {
      ReclaimingStep(i, from, target, keys);
    }
    assert Initial(states[0]);
    assert IsRun(states, events, keys);
    var end := states[|events|];
    assert end == ReclaimingState(6, from, target);
    assert from in end.table && end.table[from].status == Accepted;
    assert !Covers(end.tower, from.activity, end.table[from].sequence);
    assert !Converged(end);
  }

  ghost predicate AllRunsConverge(keys: Keys) {
    forall states, events | IsRun(states, events, keys) :: Converged(states[|events|])
  }

  /** In every interleaving a row marked accepted is covered by Tower, exactly when the keys are disciplined. */
  lemma ConvergenceExactlyUnderDiscipline(keys: Keys)
    ensures AllRunsConverge(keys) <==> Disciplined(keys)
  {
    if Disciplined(keys) {
      forall states, events | IsRun(states, events, keys) ensures Converged(states[|events|]) {
        RunsConverge(states, events, keys);
      }
    } else {
      var k, l :| keys.claimable(k) && keys.legacy(k) && keys.claimable(l) && k != l;
      ReclaimingDiverges(keys, Key("", k), Key("", l));
    }
  }

  // ----- the keys the publisher really builds -----

  const STATE_NAMES: set<string> := {"accepted", "queued", "working", "waiting", "completed", "failed", "cancelled"}

  function StateKey(state: string, body: string): string { state + ":" + body }

  function HeartbeatKey(rest: string): string { "heartbeat:" + rest }

  function CommentaryKey(session: string, source: string, hash: string): string {
    "commentary:" + session + ":" + source + ":" + hash
  }

  function LegacyKey(createdAt: string, hash: string): string { "commentary:" + createdAt + ":" + hash }

  /** The part before the first colon. */
  function Head(s: string): string {
    if s == "" || s[0] == ':' then "" else [s[0]] + Head(s[1..])
  }

  lemma {:induction false} HeadOfJoin(a: string, b: string)
    ensures Head(a + ":" + b) == Head(a)
  {
    var j := a + ":" + b;
    if a != "" && a[0] != ':' {
      assert j[1..] == a[1..] + ":" + b;
      HeadOfJoin(a[1..], b);
    }
  }

  /** `isSession` and `isInstant` say which session ids and creation times occur. */
  ghost predicate BuiltClaimable(isSession: string -> bool, key: string) {
    || (exists state, body :: state in STATE_NAMES && key == StateKey(state, body))
    || (exists rest :: key == HeartbeatKey(rest))
    || (exists session, source, hash :: isSession(session) && key == CommentaryKey(session, source, hash))
  }

  ghost predicate BuiltLegacy(isInstant: string -> bool, key: string) {
    exists createdAt, hash :: isInstant(createdAt) && key == LegacyKey(createdAt, hash)
  }

  lemma CommentaryIsNotLegacy(session: string, source: string, hash: string, createdAt: string, legacyHash: string)
    requires Head(session) != Head(createdAt)
    ensures CommentaryKey(session, source, hash) != LegacyKey(createdAt, legacyHash)
  {
    var k, l := CommentaryKey(session, source, hash), LegacyKey(createdAt, legacyHash);
    assert k[11..] == session + ":" + (source + ":" + hash);
    assert l[11..] == createdAt + ":" + legacyHash;
    HeadOfJoin(session, source + ":" + hash);
    HeadOfJoin(createdAt, legacyHash);
  }

  lemma HeartbeatIsNotLegacy(rest: string, createdAt: string, legacyHash: string)
    ensures HeartbeatKey(rest) != LegacyKey(createdAt, legacyHash)
  {
    assert HeartbeatKey(rest)[0] == 'h' && LegacyKey(createdAt, legacyHash)[0] == 'c';
  }

  lemma StateIsNotLegacy(state: string, body: string, createdAt: string, legacyHash: string)
    requires state in STATE_NAMES
    ensures StateKey(state, body) != LegacyKey(createdAt, legacyHash)
  {
    var k, l := StateKey(state, body), LegacyKey(createdAt, legacyHash);
    assert k[..4] == state[..4];
    assert l[..4] == "comm";
    assert state[..4] != "comm" by { assert "comm"[3] == 'm' && "comp"[3] == 'p' && "comm"[1] == 'o' &&
        "canc"[1] == 'a'; }
  }

  /** Session ids never begin like a timestamp does, so no migrated key is ever claimed again. */
  lemma PublisherKeysDisciplined(isSession: string -> bool, isInstant: string -> bool, keys: Keys)
    requires forall s, c :: isSession(s) && isInstant(c) ==> Head(s) != Head(c)
    requires forall k :: keys.claimable(k) ==> BuiltClaimable(isSession, k)
    requires forall k :: keys.legacy(k) ==> BuiltLegacy(isInstant, k)
    ensures Disciplined(keys) && AllRunsConverge(keys)
  {
    forall k | keys.claimable(k) && keys.legacy(k) ensures false {
      assert BuiltClaimable(isSession, k) && BuiltLegacy(isInstant, k);
      var createdAt, legacyHash :| isInstant(createdAt) && k == LegacyKey(createdAt, legacyHash);
      if session, source, hash :| isSession(session) && k == CommentaryKey(session, source, hash) {
        CommentaryIsNotLegacy(session, source, hash, createdAt, legacyHash);
      } else if rest :| k == HeartbeatKey(rest) {
        HeartbeatIsNotLegacy(rest, createdAt, legacyHash);
      } else {
        var state, body :| state in STATE_NAMES && k == StateKey(state, body);
        StateIsNotLegacy(state, body, createdAt, legacyHash);
      }
    }
    ConvergenceExactlyUnderDiscipline(keys);
  }
}

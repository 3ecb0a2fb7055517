/**
 The table `agent_activity_publications`: one row per (activity, event key).

 Every SQL statement is a function from table to table; the class at the end keeps
 the table in a field and runs the same statements in place.
 */
module OutboxTable {
  import opened Wrappers

  datatype Key = Key(activity: string, event: string)

  datatype Status = Emitted | Failed | Accepted

  /** The stored request: of its content only what Tower reacts to is kept. */
  datatype Payload = Payload(terminal: bool, sequence: int)

  datatype Row = Row(sequence: int, status: Status, attempts: nat, nextAttemptAt: int, payload: Option<Payload>)

  type Table = map<Key, Row>

  /** What `claim` answers. */
  datatype Answer = Answer(sequence: int, duplicate: bool, accepted: bool)

  const MAX_SHIFT: nat := 16
  const BASE_DELAY_MS: nat := 10_000
  const MAX_DELAY_MS: nat := 900_000

  // ----- the statements -----

  /** `m` is MAX(base, the greatest sequence stored for the activity). */
  ghost predicate IsLatest(t: Table, activity: string, base: int, m: int) {
    && base <= m
    && (forall k <- t :: k.activity == activity ==> t[k].sequence <= m)
    && (m == base || exists k <- t :: k.activity == activity && t[k].sequence == m)
  }

  ghost function Latest(t: Table, activity: string, base: int): (m: int)
    ensures IsLatest(t, activity, base, m)
    decreases |t|
  {
    if t == map[] then base else
      var k :| k in t;
      var rest := Latest(t - {k}, activity, base);
      assert forall j <- t :: j == k || (j in t - {k} && (t - {k})[j] == t[j]);
      if k.activity == activity && rest < t[k].sequence then t[k].sequence
      else
        assert rest == base || exists j <- t :: j.activity == activity && t[j].sequence == rest by {
          if rest != base {
            var j :| j in t - {k} && j.activity == activity && (t - {k})[j].sequence == rest;
            assert j in t && t[j].sequence == rest;
          }
        }
        rest
  }

  ghost function ClaimAnswer(t: Table, key: Key, base: int): Answer {
    if key in t && t[key].status == Accepted then Answer(t[key].sequence, true, true)
    else if key in t then Answer(t[key].sequence, false, false)
    else Answer(Latest(t, key.activity, base) + 1, false, false)
  }

  function WithSequence(payload: Option<Payload>, sequence: int, stored: Option<Payload>): Option<Payload> {
    match payload
    case None => stored
    case Some(p) => Some(p.(sequence := sequence))
  }

  ghost function AfterClaim(t: Table, key: Key, base: int, payload: Option<Payload>): Table {
    var answer := ClaimAnswer(t, key, base);
    if answer.duplicate then t
    else if key in t then
      t[key := t[key].(status := Emitted, attempts := t[key].attempts + 1,
                       payload := WithSequence(payload, answer.sequence, t[key].payload))]
    else
      t[key := Row(answer.sequence, Emitted, 1, 0, WithSequence(payload, answer.sequence, None))]
  }

  function AfterAccept(t: Table, key: Key): Table {
    if key in t then t[key := t[key].(status := Accepted)] else t
  }

  function AfterFail(t: Table, key: Key): Table {
    if key in t && t[key].status != Accepted then t[key := t[key].(status := Failed)] else t
  }

  function Min(a: int, b: int): int { if a <= b then a else b }

  function Pow2(n: nat): (p: nat)
    ensures p >= 1
  {
    if n == 0 then 1 else 2 * Pow2(n - 1)
  }

  function Backoff(attempts: nat, base: nat, cap: nat): int {
    Min(base * Pow2(Min(attempts, MAX_SHIFT)), cap)
  }

  function AfterDefer(t: Table, key: Key, now: int, base: nat, cap: nat): Table {
    if key in t then
      t[key := t[key].(attempts := t[key].attempts + 1,
                       nextAttemptAt := now + Backoff(t[key].attempts, base, cap))]
    else t
  }

  /** The legacy row takes the new key, unless a row already has it. */
  function AfterMigrate(t: Table, target: Key, legacy: Key): Table {
    if legacy in t && target !in t then (t - {legacy})[target := t[legacy]] else t
  }

  // ----- which rows are offered for replay -----

  function Lower(c: char): char {
    if 'A' <= c <= 'Z' then c - 'A' + 'a' else c
  }

  function LowerAll(s: string): (r: string)
    ensures |r| == |s|
  {
    seq(|s|, i requires 0 <= i < |s| => Lower(s[i]))
  }

  /** LIKE 'heartbeat:%', which ignores the case of ASCII letters. */
  predicate IsHeartbeat(event: string) {
    |event| >= 10 && LowerAll(event[..10]) == "heartbeat:"
  }

  predicate IsDue(t: Table, key: Key, now: int) {
    && key in t && t[key].status != Accepted && t[key].payload.Some?
    && !IsHeartbeat(key.event) && t[key].nextAttemptAt <= now
  }

  /** A row that is neither accepted nor a heartbeat, with or without a payload. */
  predicate IsPendingRow(t: Table, key: Key) {
    key in t && t[key].status != Accepted && !IsHeartbeat(key.event)
  }

  ghost predicate HasPendingRow(t: Table, activity: string) {
    exists k :: IsPendingRow(t, k) && k.activity == activity
  }

  datatype Item = Item(key: Key, sequence: int, payload: Payload)

  /** A possible answer of `pending(limit)`; rows of equal sequence may come in any order. */
  ghost predicate IsPendingAnswer(t: Table, now: int, limit: nat, items: seq<Item>) {
    && |items| <= limit
    && (forall i | 0 <= i < |items| :: IsDue(t, items[i].key, now))
    && (forall i | 0 <= i < |items| ::
          items[i] == Item(items[i].key, t[items[i].key].sequence, t[items[i].key].payload.value))
    && (forall i, j | 0 <= i < j < |items| :: items[i].key != items[j].key && items[i].sequence <= items[j].sequence)
    && (forall k | IsDue(t, k, now) && (forall i | 0 <= i < |items| :: items[i].key != k) ::
          |items| == limit && forall i | 0 <= i < |items| :: items[i].sequence <= t[k].sequence)
  }

  // ----- invariants over every run of statements -----

  datatype Op =
    | ClaimOp(key: Key, base: int, payload: Option<Payload>)
    | AcceptOp(key: Key)
    | FailOp(key: Key)
    | DeferOp(key: Key, now: int, firstDelay: nat, cap: nat)
    | MigrateOp(target: Key, legacy: Key)
  {
    /** `migrateLegacyCommentary` renames within one activity. */
    predicate WellFormed() {
      MigrateOp? ==> target.activity == legacy.activity
    }
  }

  ghost function Apply(t: Table, op: Op): Table {
    match op
    case ClaimOp(key, base, payload) => AfterClaim(t, key, base, payload)
    case AcceptOp(key) => AfterAccept(t, key)
    case FailOp(key) => AfterFail(t, key)
    case DeferOp(key, now, firstDelay, cap) => AfterDefer(t, key, now, firstDelay, cap)
    case MigrateOp(target, legacy) => AfterMigrate(t, target, legacy)
  }

  ghost function ApplyAll(t: Table, ops: seq<Op>): Table {
    if ops == [] then t else Apply(ApplyAll(t, ops[..|ops| - 1]), ops[|ops| - 1])
  }

  ghost predicate SequencesDistinct(t: Table) {
    forall k, l | k in t && l in t && k.activity == l.activity && t[k].sequence == t[l].sequence :: k == l
  }

  ghost predicate PayloadsCarrySequence(t: Table) {
    forall k <- t :: t[k].payload.Some? ==> t[k].payload.value.sequence == t[k].sequence
  }

  ghost predicate TableOk(t: Table) {
    SequencesDistinct(t) && PayloadsCarrySequence(t)
  }

  /** The row stored under `l` in `u` is the row stored under `k` in `t`, with nothing lost. */
  ghost predicate Continues(t: Table, k: Key, u: Table, l: Key) {
    && k in t && l in u && l.activity == k.activity
    && u[l].sequence == t[k].sequence
    && (t[k].status == Accepted ==> u[l].status == Accepted)
    && (t[k].payload.Some? ==> u[l].payload.Some?)
  }

  ghost predicate Survives(t: Table, k: Key, u: Table) {
    exists l :: Continues(t, k, u, l)
  }

  ghost predicate IsNewer(t: Table, u: Table, l: Key)
    requires l in u
  {
    forall k <- t :: k.activity == l.activity ==> t[k].sequence < u[l].sequence
  }

  ghost predicate IsOldOrNewer(t: Table, u: Table, l: Key)
    requires l in u
  {
    (exists k :: Continues(t, k, u, l)) || IsNewer(t, u, l)
  }

  /** Every old row lives on, and every other row of an activity got a greater sequence than all its old rows. */
  ghost predicate Evolves(t: Table, u: Table) {
    (forall k <- t :: Survives(t, k, u)) && (forall l <- u :: IsOldOrNewer(t, u, l))
  }

  lemma StepKeepsTableOk(t: Table, op: Op)
    requires TableOk(t) && op.WellFormed()
    ensures TableOk(Apply(t, op))
  {
    var u := Apply(t, op);
    var renamed := op.MigrateOp? && op.legacy in t && op.target !in t;
    var claimed := op.ClaimOp? && op.key !in t;
    forall k <- u | !(claimed && k == op.key) ensures
      && var l := if renamed && k == op.target then op.legacy else k;
      l in t && l.activity == k.activity && u[k].sequence == t[l].sequence
    {
    }
  }

  lemma StepEvolves(t: Table, op: Op)
    requires op.WellFormed()
    ensures Evolves(t, Apply(t, op))
  {
    var u := Apply(t, op);
    var renamed := op.MigrateOp? && op.legacy in t && op.target !in t;
    forall k <- t ensures Survives(t, k, u) {
      assert Continues(t, k, u, if renamed && k == op.legacy then op.target else k);
    }
    forall l <- u ensures IsOldOrNewer(t, u, l) {
      var k := if renamed && l == op.target then op.legacy else l;
      if k in t { assert Continues(t, k, u, l); }
    }
  }

  lemma NewerStays(t: Table, u: Table, v: Table, m: Key)
    requires Evolves(t, u) && m in v && IsNewer(u, v, m)
    ensures IsNewer(t, v, m)
  {
    forall k <- t | k.activity == m.activity ensures t[k].sequence < v[m].sequence {
      assert Survives(t, k, u);
      var l :| Continues(t, k, u, l);
    }
  }

  lemma EvolvesTransitive(t: Table, u: Table, v: Table)
    requires Evolves(t, u) && Evolves(u, v)
    ensures Evolves(t, v)
  {
    forall k <- t ensures Survives(t, k, v) {
      assert Survives(t, k, u);
      var l :| Continues(t, k, u, l);
      assert Survives(u, l, v);
      var m :| Continues(u, l, v, m);
      assert Continues(t, k, v, m);
    }
    forall m <- v ensures IsOldOrNewer(t, v, m) {
      assert IsOldOrNewer(u, v, m);
      if IsNewer(u, v, m) {
        NewerStays(t, u, v, m);
      } else {
        var l :| Continues(u, l, v, m);
        assert IsOldOrNewer(t, u, l);
        if k :| Continues(t, k, u, l) { assert Continues(t, k, v, m); }
      }
    }
  }

  /** Whatever statements run, in whatever order and with whatever sequence bases. */
  lemma {:induction false} OutboxRunInvariant(t: Table, ops: seq<Op>)
    requires TableOk(t) && forall op <- ops :: op.WellFormed()
    ensures TableOk(ApplyAll(t, ops)) && Evolves(t, ApplyAll(t, ops))
  {
    if ops == [] {
      forall k <- t ensures Survives(t, k, t) && IsOldOrNewer(t, t, k) { assert Continues(t, k, t, k); }
    } else {
      var init := ops[..|ops| - 1];
      OutboxRunInvariant(t, init);
      StepKeepsTableOk(ApplyAll(t, init), ops[|ops| - 1]);
      StepEvolves(ApplyAll(t, init), ops[|ops| - 1]);
      EvolvesTransitive(t, ApplyAll(t, init), ApplyAll(t, ops));
    }
  }

  /** A replayed request carries the sequence its row was claimed with, and never comes from a heartbeat. */
  lemma ReplayedRowsAreDurable(t: Table, ops: seq<Op>, now: int, limit: nat, items: seq<Item>, i: nat)
    requires TableOk(t) && forall op <- ops :: op.WellFormed()
    requires IsPendingAnswer(ApplyAll(t, ops), now, limit, items) && i < |items|
    ensures items[i].payload.sequence == items[i].sequence && !IsHeartbeat(items[i].key.event)
    ensures forall k <- t :: k.activity == items[i].key.activity && t[k].sequence == items[i].sequence ==>
        t[k].status != Accepted
  {
    var u := ApplyAll(t, ops);
    OutboxRunInvariant(t, ops);
    var l := items[i].key;
    forall k <- t | k.activity == l.activity && t[k].sequence == items[i].sequence ensures t[k].status != Accepted {
      assert Survives(t, k, u);
      var m :| Continues(t, k, u, m);
      assert m == l;
    }
  }

  /** What is waiting now keeps waiting, whatever runs, until a row of its activity is accepted. */
  lemma {:induction false} PendingStays(t: Table, ops: seq<Op>, activity: string)
    requires HasPendingRow(t, activity)
    requires forall op <- ops :: op.WellFormed() && (op.AcceptOp? ==> op.key.activity != activity)
    requires forall op <- ops :: op.MigrateOp? ==> !IsHeartbeat(op.target.event)
    ensures HasPendingRow(ApplyAll(t, ops), activity)
  {
    if ops != [] {
      var init, op := ops[..|ops| - 1], ops[|ops| - 1];
      PendingStays(t, init, activity);
      var k :| IsPendingRow(ApplyAll(t, init), k) && k.activity == activity;
      var u := ApplyAll(t, ops);
      var l := if op.MigrateOp? && k == op.legacy && k !in u then op.target else k;
      assert op in ops && IsPendingRow(u, l);
    }
  }

  /** And it can only start to wait when an event of the activity that is no heartbeat is claimed. */
  lemma {:induction false} PendingIsClaimed(t: Table, ops: seq<Op>, activity: string)
    requires !HasPendingRow(t, activity) && HasPendingRow(ApplyAll(t, ops), activity)
    requires forall op <- ops :: op.WellFormed()
    requires forall op <- ops :: op.MigrateOp? ==> !IsHeartbeat(op.legacy.event)
    ensures exists op <- ops :: op.ClaimOp? && op.key.activity == activity && !IsHeartbeat(op.key.event)
  {
    var init, op := ops[..|ops| - 1], ops[|ops| - 1];
    assert op in ops;
    if HasPendingRow(ApplyAll(t, init), activity) {
      PendingIsClaimed(t, init, activity);
    } else {
      var touched := if op.MigrateOp? then op.legacy else op.key;
      assert !IsPendingRow(ApplyAll(t, init), touched) || touched.activity != activity;
      var k :| IsPendingRow(ApplyAll(t, ops), k) && k.activity == activity;
      assert !IsPendingRow(ApplyAll(t, init), k);
    }
  }

  /** What is offered for replay is waiting; and what waits is offered once it is due, if it has a payload. */
  lemma OfferedWhileWaiting(t: Table, activity: string)
    requires forall k | IsPendingRow(t, k) && k.activity == activity :: t[k].payload.Some?
    ensures HasPendingRow(t, activity) <==> exists k, now :: IsDue(t, k, now) && k.activity == activity
  {
    if HasPendingRow(t, activity) {
      var k :| IsPendingRow(t, k) && k.activity == activity;
      assert IsDue(t, k, t[k].nextAttemptAt);
    }
    if k, now :| IsDue(t, k, now) && k.activity == activity { assert IsPendingRow(t, k); }
  }

  /** Retry delays start at the base and double until they stay at the cap. */
  lemma {:induction false} BackoffDoubles(attempts: nat, base: nat, cap: nat)
    requires base <= cap
    ensures Backoff(0, base, cap) == base
    ensures Backoff(attempts + 1, base, cap) ==
            if attempts < MAX_SHIFT then Min(2 * Backoff(attempts, base, cap), cap) else Backoff(attempts, base, cap)
  {
    if attempts < MAX_SHIFT {
      var p := Pow2(attempts);
      assert Pow2(attempts + 1) == 2 * p;
      MulSwap(base, p);
    }
  }

  lemma MulSwap(base: nat, factor: nat)
    ensures base * (2 * factor) == 2 * (base * factor)
  {
  }

  // ----- the store itself -----

  lemma {:induction false} Smallest(t: Table, keys: set<Key>) returns (k: Key)
    requires keys != {} && keys <= t.Keys
    ensures k in keys && forall l <- keys :: t[k].sequence <= t[l].sequence
    decreases |keys|
  {
    var some :| some in keys;
    var others := keys - {some};
    k := some;
    if others != {} {
      var m := Smallest(t, others);
      if t[m].sequence < t[some].sequence { k := m; }
    }
    forall l <- keys ensures t[k].sequence <= t[l].sequence {
      assert l == some || l in others;
    }
  }

  /** `items` are the due rows outside `due`, in order, and none of them exceeds a row still in `due`. */
  ghost predicate Listed(t: Table, now: int, items: seq<Item>, due: set<Key>) {
    && (forall k <- due :: IsDue(t, k, now))
    && (forall i | 0 <= i < |items| :: IsDue(t, items[i].key, now) && items[i].key !in due)
    && (forall i | 0 <= i < |items| ::
          items[i] == Item(items[i].key, t[items[i].key].sequence, t[items[i].key].payload.value))
    && (forall i, j | 0 <= i < j < |items| :: items[i].key != items[j].key && items[i].sequence <= items[j].sequence)
    && (forall i, k | 0 <= i < |items| && k in due :: items[i].sequence <= t[k].sequence)
    && (forall k | IsDue(t, k, now) && k !in due :: exists i | 0 <= i < |items| :: items[i].key == k)
  }

  lemma ListNext(t: Table, now: int, items: seq<Item>, due: set<Key>, k: Key)
    requires Listed(t, now, items, due)
    requires k in due && forall l <- due :: t[k].sequence <= t[l].sequence
    ensures Listed(t, now, items + [Item(k, t[k].sequence, t[k].payload.value)], due - {k})
  {
    var more := items + [Item(k, t[k].sequence, t[k].payload.value)];
    forall l | IsDue(t, l, now) && l !in due - {k} ensures exists i | 0 <= i < |more| :: more[i].key == l {
      if l == k {
        assert more[|items|].key == l;
      } else {
        var i :| 0 <= i < |items| && items[i].key == l;
        assert more[i].key == l;
      }
    }
  }

  class PublicationStore {
    var rows: Table

    constructor ()
      ensures rows == map[]
    {
      rows := map[];
    }

    /** SELECT MAX(sequence), with the caller's base as the floor. */
    method MaxSequence(activity: string, base: int) returns (m: int)
      ensures m == Latest(rows, activity, base)
    {
      m := base;
      var todo := rows.Keys;
      ghost var seen: set<Key> := {};
      while todo != {}
        invariant todo !! seen && todo + seen == rows.Keys
        invariant base <= m
        invariant forall k <- seen :: k.activity == activity ==> rows[k].sequence <= m
        invariant m == base || exists k <- seen :: k.activity == activity && rows[k].sequence == m
        decreases |todo|
      {
        var k :| k in todo;
        if k.activity == activity && m < rows[k].sequence { m := rows[k].sequence; }
        todo, seen := todo - {k}, seen + {k};
      }
      assert seen == rows.Keys;
    }

    method Claim(key: Key, base: int, payload: Option<Payload>) returns (answer: Answer)
      modifies this
      ensures answer == old(ClaimAnswer(rows, key, base))
      ensures rows == old(AfterClaim(rows, key, base, payload))
      ensures !answer.duplicate ==> key in rows && rows[key].sequence == answer.sequence && rows[key].status == Emitted
    {
      if key in rows && rows[key].status == Accepted { return Answer(rows[key].sequence, true, true); }
      if key in rows {
        var row := rows[key];
        answer := Answer(row.sequence, false, false);
        rows := rows[key := row.(status := Emitted, attempts := row.attempts + 1,
                                 payload := WithSequence(payload, row.sequence, row.payload))];
      } else {
        var latest := MaxSequence(key.activity, base);
        answer := Answer(latest + 1, false, false);
        rows := rows[key := Row(latest + 1, Emitted, 1, 0, WithSequence(payload, latest + 1, None))];
      }
    }

    method MarkAccepted(key: Key)
      modifies this
      ensures rows == AfterAccept(old(rows), key)
    {
      if key in rows { rows := rows[key := rows[key].(status := Accepted)]; }
    }

    method MarkFailed(key: Key)
      modifies this
      ensures rows == AfterFail(old(rows), key)
    {
      if key in rows && rows[key].status != Accepted { rows := rows[key := rows[key].(status := Failed)]; }
    }

    method DeferAfterFailure(key: Key, now: int, base: nat, cap: nat) returns (nextAttemptAt: int)
      modifies this
      ensures rows == AfterDefer(old(rows), key, now, base, cap)
      ensures nextAttemptAt == if key in rows then rows[key].nextAttemptAt else 0
    {
      nextAttemptAt := 0;
      if key in rows {
        var row := rows[key];
        nextAttemptAt := now + Backoff(row.attempts, base, cap);
        rows := rows[key := row.(attempts := row.attempts + 1, nextAttemptAt := nextAttemptAt)];
      }
    }

    method MigrateLegacyCommentary(target: Key, legacy: Key)
      modifies this
      ensures rows == AfterMigrate(old(rows), target, legacy)
    {
      if legacy in rows && target !in rows { rows := (rows - {legacy})[target := rows[legacy]]; }
    }

    /** SELECT 1 … LIMIT 1: stops at the first row that waits, whether or not it has a payload. */
    method HasPending(activity: string) returns (pending: bool)
      ensures pending <==>
                exists k <- rows :: k.activity == activity && rows[k].status != Accepted && !IsHeartbeat(k.event)
    {
      var todo := rows.Keys;
      ghost var seen: set<Key> := {};
      while todo != {}
        invariant todo + seen == rows.Keys
        invariant forall k <- seen :: !(k.activity == activity && rows[k].status != Accepted && !IsHeartbeat(k.event))
        decreases |todo|
      {
        var k :| k in todo;
        if k.activity == activity && rows[k].status != Accepted && !IsHeartbeat(k.event) { return true; }
        todo, seen := todo - {k}, seen + {k};
      }
      pending := false;
    }

    /** Due rows by ascending sequence, at most `limit` of them. */
    method Pending(now: int, limit: nat) returns (items: seq<Item>)
      ensures IsPendingAnswer(rows, now, limit, items)
    {
      items := [];
      var due := set k <- rows | IsDue(rows, k, now);
      while due != {} && |items| < limit
        invariant |items| <= limit && Listed(rows, now, items, due)
        decreases |due|
      {
        ghost var least := Smallest(rows, due);
        var k :| k in due && forall l <- due :: rows[k].sequence <= rows[l].sequence;
        ListNext(rows, now, items, due, k);
        items := items + [Item(k, rows[k].sequence, rows[k].payload.value)];
        due := due - {k};
      }
    }
  }
}

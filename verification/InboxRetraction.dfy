/**
 Recording a turn and later retracting it, against never having recorded it at all.

 Both runs perform the same operations. Their row ids drift apart as soon as one of them
 appends a row the other does not, so a retraction names, in the other run, the row that
 the same operation recorded there.
 */
module InboxRetraction {
  import opened InboxOrigins
  import opened Wrappers

  /** The two runs side by side; `ids` takes a turn's row id in one to its row id in the other. */
  datatype Twin = Twin(recorded: Log, never: Log, ids: map<nat, nat>)

  function Advance(tw: Twin, op: Op): Twin {
    match op
    case RecordTurn(_, _) =>
      Twin(Apply(tw.recorded, op), Apply(tw.never, op), tw.ids[tw.recorded.nextId := tw.never.nextId])
    case RetractTurn(n) =>
      Twin(Apply(tw.recorded, op), if n in tw.ids then Apply(tw.never, RetractTurn(tw.ids[n])) else tw.never, tw.ids)
    case _ =>
      Twin(Apply(tw.recorded, op), Apply(tw.never, op), tw.ids)
  }

  function AdvanceAll(tw: Twin, ops: seq<Op>): Twin {
    if ops == [] then tw else Advance(AdvanceAll(tw, ops[..|ops| - 1]), ops[|ops| - 1])
  }

  function Identity(n: nat): (ids: map<nat, nat>)
    ensures forall k: nat :: k in ids <==> k < n
    ensures forall k <- ids :: ids[k] == k
  {
    if n == 0 then map[] else Identity(n - 1)[n - 1 := n - 1]
  }

  /** One run has just recorded the turn, under the id the log hands out next. */
  function Diverged(log: Log, session: string, turn: Turn): Twin {
    Twin(Apply(log, RecordTurn(session, turn)), log, Identity(log.nextId))
  }

  /** The operations of the other run. */
  function Renamed(tw: Twin, ops: seq<Op>): seq<Op> {
    if ops == [] then [] else
    var init := ops[..|ops| - 1];
    var ids := AdvanceAll(tw, init).ids;
    match ops[|ops| - 1]
    case RetractTurn(n) => if n in ids then Renamed(tw, init) + [RetractTurn(ids[n])] else Renamed(tw, init)
    case op => Renamed(tw, init) + [op]
  }

  /** The pair really is the two runs. */
  lemma {:induction false} TwinsAreRuns(tw: Twin, ops: seq<Op>)
    ensures AdvanceAll(tw, ops).recorded == ApplyAll(tw.recorded, ops)
    ensures AdvanceAll(tw, ops).never == ApplyAll(tw.never, Renamed(tw, ops))
    decreases |ops|
  {
    if ops != [] {
      var init := ops[..|ops| - 1];
      TwinsAreRuns(tw, init);
      var renamed := Renamed(tw, ops);
      assert renamed == Renamed(tw, init) || (|renamed| > 0 && renamed[..|renamed| - 1] == Renamed(tw, init));
    }
  }

  // ----- the session rows of the two runs -----

  function Sessions(rows: seq<Row>): seq<Row> {
    if rows == [] then []
    else if rows[0].kind == Session then [rows[0]] + Sessions(rows[1..])
    else Sessions(rows[1..])
  }

  /** The session rows with a counterpart, under its id. */
  function Counterparts(rows: seq<Row>, ids: map<nat, nat>): seq<Row> {
    if rows == [] then []
    else if rows[0].kind == Session && rows[0].id in ids then
      [rows[0].(id := ids[rows[0].id])] + Counterparts(rows[1..], ids)
    else Counterparts(rows[1..], ids)
  }

  lemma {:induction false} SessionsOfJoin(a: seq<Row>, b: seq<Row>)
    ensures Sessions(a + b) == Sessions(a) + Sessions(b)
  {
    if a == [] {
      assert a + b == b;
    } else {
      assert (a + b)[1..] == a[1..] + b;
      SessionsOfJoin(a[1..], b);
    }
  }

  lemma {:induction false} CounterpartsOfJoin(a: seq<Row>, b: seq<Row>, ids: map<nat, nat>)
    ensures Counterparts(a + b, ids) == Counterparts(a, ids) + Counterparts(b, ids)
  {
    if a == [] {
      assert a + b == b;
    } else {
      assert (a + b)[1..] == a[1..] + b;
      CounterpartsOfJoin(a[1..], b, ids);
    }
  }

  /** An id no row carries does not matter. */
  lemma {:induction false} CounterpartsGrow(rows: seq<Row>, ids: map<nat, nat>, n: nat, m: nat)
    requires forall r <- rows :: r.id != n
    ensures Counterparts(rows, ids[n := m]) == Counterparts(rows, ids)
  {
    if rows != [] {
      CounterpartsGrow(rows[1..], ids, n, m);
    }
  }

  ghost predicate Injective(ids: map<nat, nat>) {
    forall a, b | a in ids && b in ids && ids[a] == ids[b] :: a == b
  }

  lemma WithoutHead(r: Row, rest: seq<Row>, id: nat)
    ensures Without([r] + rest, id) ==
            if r.id == id && r.kind == Session then Without(rest, id) else [r] + Without(rest, id)
  {
    assert ([r] + rest)[1..] == rest;
  }

  lemma SessionsHead(r: Row, rest: seq<Row>)
    ensures Sessions([r] + rest) == if r.kind == Session then [r] + Sessions(rest) else Sessions(rest)
  {
    assert ([r] + rest)[1..] == rest;
  }

  lemma CounterpartsHead(r: Row, rest: seq<Row>, ids: map<nat, nat>)
    ensures Counterparts([r] + rest, ids) ==
            if r.kind == Session && r.id in ids then [r.(id := ids[r.id])] + Counterparts(rest, ids)
            else Counterparts(rest, ids)
  {
    assert ([r] + rest)[1..] == rest;
  }

  lemma {:induction false} CounterpartsWithout(rows: seq<Row>, ids: map<nat, nat>, n: nat)
    requires Injective(ids)
    ensures Counterparts(Without(rows, n), ids) ==
            if n in ids then Without(Counterparts(rows, ids), ids[n]) else Counterparts(rows, ids)
  {
    if rows != [] {
      var r, rest := rows[0], rows[1..];
      assert rows == [r] + rest;
      CounterpartsWithout(rest, ids, n);
      WithoutHead(r, rest, n);
      CounterpartsHead(r, rest, ids);
      CounterpartsHead(r, Without(rest, n), ids);
      if n in ids && r.kind == Session && r.id in ids {
        WithoutHead(r.(id := ids[r.id]), Counterparts(rest, ids), ids[n]);
      }
    }
  }

  lemma {:induction false} SessionsWithout(rows: seq<Row>, n: nat)
    ensures Sessions(Without(rows, n)) == Without(Sessions(rows), n)
  {
    if rows != [] {
      var r, rest := rows[0], rows[1..];
      assert rows == [r] + rest;
      SessionsWithout(rest, n);
      WithoutHead(r, rest, n);
      WithoutHead(r, Sessions(rest), n);
      SessionsHead(r, Without(rest, n));
    }
  }

  lemma TurnsHead(r: Row, rest: seq<Row>, kind: Kind, owner: string)
    ensures Turns([r] + rest, kind, owner) ==
            if r.kind == kind && r.owner == owner then [r.turn] + Turns(rest, kind, owner)
            else Turns(rest, kind, owner)
  {
    assert ([r] + rest)[1..] == rest;
    assert [] + Turns(rest, kind, owner) == Turns(rest, kind, owner);
  }

  lemma {:induction false} TurnsOfSessions(rows: seq<Row>, owner: string)
    ensures Turns(Sessions(rows), Session, owner) == Turns(rows, Session, owner)
  {
    if rows != [] {
      var r, rest := rows[0], rows[1..];
      assert rows == [r] + rest;
      TurnsOfSessions(rest, owner);
      TurnsHead(r, rest, Session, owner);
      if r.kind == Session { TurnsHead(r, Sessions(rest), Session, owner); }
    }
  }

  /** What the counterparts say is what the session rows other than `id`'s say. */
  lemma {:induction false} TurnsOfCounterparts(rows: seq<Row>, ids: map<nat, nat>, id: nat, owner: string)
    requires id !in ids && forall r <- rows :: r.kind == Session ==> r.id == id || r.id in ids
    ensures Turns(Counterparts(rows, ids), Session, owner) == Turns(Without(rows, id), Session, owner)
  {
    if rows != [] {
      var r, rest := rows[0], rows[1..];
      assert rows == [r] + rest;
      TurnsOfCounterparts(rest, ids, id, owner);
      WithoutHead(r, rest, id);
      TurnsHead(r, Without(rest, id), Session, owner);
      CounterpartsHead(r, rest, ids);
      if r.kind == Session && r.id in ids {
        TurnsHead(r.(id := ids[r.id]), Counterparts(rest, ids), Session, owner);
      }
    }
  }

  // ----- what every operation keeps -----

  ghost predicate IdsOk(tw: Twin, id: nat) {
    && id !in tw.ids && id < tw.recorded.nextId && Injective(tw.ids)
    && (forall n <- tw.ids :: n < tw.recorded.nextId && tw.ids[n] < tw.never.nextId)
    && (forall r <- tw.recorded.rows :: r.id < tw.recorded.nextId)
    && (forall r <- tw.recorded.rows :: r.kind == Session ==> r.id == id || r.id in tw.ids)
  }

  ghost predicate SameRuns(tw: Twin) {
    forall owner :: Turns(tw.recorded.rows, Run, owner) == Turns(tw.never.rows, Run, owner)
  }

  /** But for the row `id`, the two runs hold the same session and run rows. */
  ghost predicate SameTurns(tw: Twin, id: nat) {
    && IdsOk(tw, id) && SameRuns(tw)
    && Counterparts(tw.recorded.rows, tw.ids) == Sessions(tw.never.rows)
  }

  lemma RecordKeepsTurns(tw: Twin, id: nat, op: Op)
    requires SameTurns(tw, id) && op.RecordTurn?
    ensures SameTurns(Advance(tw, op), id)
  {
    var n, m := tw.recorded.nextId, tw.never.nextId;
    var row, twin := Row(n, Session, op.session, op.turn), Row(m, Session, op.session, op.turn);
    var ids := tw.ids[n := m];
    CounterpartsOfJoin(tw.recorded.rows, [row], ids);
    CounterpartsGrow(tw.recorded.rows, tw.ids, n, m);
    SessionsOfJoin(tw.never.rows, [twin]);
    assert Counterparts([row], ids) == [twin] == Sessions([twin]);
    forall owner
      ensures Turns(Advance(tw, op).recorded.rows, Run, owner) == Turns(Advance(tw, op).never.rows, Run, owner)
    {
      AppendKeepsOthers(tw.recorded, Run, owner);
      AppendKeepsOthers(tw.never, Run, owner);
    }
  }

  lemma RetractKeepsTurns(tw: Twin, id: nat, op: Op)
    requires SameTurns(tw, id) && op.RetractTurn?
    ensures SameTurns(Advance(tw, op), id)
  {
    var n := op.id;
    WithoutIsSubset(tw.recorded.rows, n);
    CounterpartsWithout(tw.recorded.rows, tw.ids, n);
    if n in tw.ids { SessionsWithout(tw.never.rows, tw.ids[n]); }
    forall owner
      ensures Turns(Advance(tw, op).recorded.rows, Run, owner) == Turns(Advance(tw, op).never.rows, Run, owner)
    {
      RetractKeepsOthers(tw.recorded.rows, n, Run, owner);
      if n in tw.ids { RetractKeepsOthers(tw.never.rows, tw.ids[n], Run, owner); }
    }
  }

  /** A row that is no session row, appended in one run, in both, or in neither. */
  lemma OtherRowsKeepTurns(tw: Twin, id: nat, recorded: Log, never: Log, kind: Kind, owner: string, a: Turn, b: Turn)
    requires SameTurns(tw, id) && kind != Session
    requires recorded == tw.recorded || recorded == Append(tw.recorded, kind, owner, a)
    requires never == tw.never || never == Append(tw.never, kind, owner, b)
    requires kind == Run ==> a == b && (recorded == tw.recorded <==> never == tw.never)
    ensures SameTurns(Twin(recorded, never, tw.ids), id)
  {
    var row, twin := Row(tw.recorded.nextId, kind, owner, a), Row(tw.never.nextId, kind, owner, b);
    CounterpartsOfJoin(tw.recorded.rows, [row], tw.ids);
    SessionsOfJoin(tw.never.rows, [twin]);
    assert Counterparts([row], tw.ids) == [] == Sessions([twin]);
    forall o ensures Turns(recorded.rows, Run, o) == Turns(never.rows, Run, o) {
      AppendKeepsOthers(tw.recorded, Run, o);
      AppendKeepsOthers(tw.never, Run, o);
    }
  }

  lemma AdvanceKeepsTurns(tw: Twin, id: nat, op: Op)
    requires SameTurns(tw, id)
    ensures SameTurns(Advance(tw, op), id)
  {
    hide SameTurns;
    match op
    case RecordTurn(_, _) => RecordKeepsTurns(tw, id, op);
    case RetractTurn(_) => RetractKeepsTurns(tw, id, op);
    case RecordRun(run, origin) =>
      var turn := Turn(origin.subscription, Some(origin.notification));
      RunRowsAgree(tw, id, run);
      OtherRowsKeepTurns(tw, id, Apply(tw.recorded, op), Apply(tw.never, op), Run, run, turn, turn);
    case Dispatch(parent, worker) =>
      var a, b := ParentOrigin(tw.recorded, parent), ParentOrigin(tw.never, parent);
      OtherRowsKeepTurns(tw, id, Apply(tw.recorded, op), Apply(tw.never, op), Worker, worker, TurnOf(a), TurnOf(b));
  }

  function TurnOf(origin: Option<Origin>): Turn {
    if origin.None? then Turn("", None) else Turn(origin.value.subscription, Some(origin.value.notification))
  }

  lemma RunRowsAgree(tw: Twin, id: nat, run: string)
    requires SameTurns(tw, id)
    ensures Turns(tw.recorded.rows, Run, run) == Turns(tw.never.rows, Run, run)
  {
  }

  lemma {:induction false} RunKeepsTurns(tw: Twin, id: nat, ops: seq<Op>)
    requires SameTurns(tw, id)
    ensures SameTurns(AdvanceAll(tw, ops), id)
    decreases |ops|
  {
    hide SameTurns, Advance;
    if ops != [] {
      RunKeepsTurns(tw, id, ops[..|ops| - 1]);
      AdvanceKeepsTurns(AdvanceAll(tw, ops[..|ops| - 1]), id, ops[|ops| - 1]);
    }
  }

  lemma {:induction false} IdentityCounterparts(rows: seq<Row>, ids: map<nat, nat>)
    requires forall r <- rows :: r.id in ids && ids[r.id] == r.id
    ensures Counterparts(rows, ids) == Sessions(rows)
  {
    if rows != [] {
      IdentityCounterparts(rows[1..], ids);
    }
  }

  lemma DivergedSameTurns(log: Log, session: string, turn: Turn)
    requires IdsBelowNext(log)
    ensures SameTurns(Diverged(log, session, turn), log.nextId)
  {
    var tw := Diverged(log, session, turn);
    var row := Row(log.nextId, Session, session, turn);
    CounterpartsOfJoin(log.rows, [row], tw.ids);
    IdentityCounterparts(log.rows, tw.ids);
    assert Counterparts([row], tw.ids) == [];
    forall owner ensures Turns(tw.recorded.rows, Run, owner) == Turns(tw.never.rows, Run, owner) {
      AppendKeepsOthers(log, Run, owner);
    }
  }

  /** Once the turn is retracted, sessions and runs have the same history in both runs. */
  lemma SameTurnsSameHistory(tw: Twin, id: nat, kind: Kind, owner: string)
    requires SameTurns(tw, id) && kind != Worker
    ensures History(Retract(tw.recorded, id), kind, owner) == History(tw.never, kind, owner)
  {
    if kind == Session {
      TurnsOfCounterparts(tw.recorded.rows, tw.ids, id, owner);
      TurnsOfSessions(tw.never.rows, owner);
    } else {
      RetractKeepsOthers(tw.recorded.rows, id, kind, owner);
    }
  }

  /**
   * Record a turn, do anything at all, retract it: every session's and run's history is as if the turn had never been
   * recorded.
   */
  lemma RetractionUndoesTurn(log: Log, session: string, turn: Turn, ops: seq<Op>, kind: Kind, owner: string)
    requires IdsBelowNext(log) && kind != Worker
    ensures var recorded := ApplyAll(Apply(log, RecordTurn(session, turn)), ops);
            History(Apply(recorded, RetractTurn(log.nextId)), kind, owner) ==
            History(ApplyAll(log, Renamed(Diverged(log, session, turn), ops)), kind, owner)
  {
    hide SameTurns;
    var tw := Diverged(log, session, turn);
    DivergedSameTurns(log, session, turn);
    RunKeepsTurns(tw, log.nextId, ops);
    SameTurnsSameHistory(AdvanceAll(tw, ops), log.nextId, kind, owner);
    TwinsAreRuns(tw, ops);
  }

  // ----- the dispatches that tell the two runs apart -----

  /** The session's latest standing turn of the subscription. */
  function Newest(rows: seq<Row>, session: string, subscription: string): Option<Row> {
    if rows == [] then None
    else if Newest(rows[1..], session, subscription).Some? then Newest(rows[1..], session, subscription)
    else if rows[0].kind == Session && rows[0].owner == session && rows[0].turn.subscription == subscription
    then Some(rows[0])
    else None
  }

  function Notification(row: Option<Row>): Option<string> {
    if row.None? then None else row.value.turn.notification
  }

  /**
   * What a dispatch sees of the turn `id`: the parent is the turn's own session, no worker and itself never
   * dispatched; no newer turn of the subscription stands in it; and the older one names another notification.
   */
  predicate SeesTurn(log: Log, id: nat, session: string, turn: Turn, parent: Parent) {
    && parent.session == session && parent.subscription == Some(turn.subscription) && !parent.worker
    && History(log, Worker, session) == []
    && var newest := Newest(log.rows, session, turn.subscription);
    && newest.Some? && newest.value.id == id
    && Notification(Newest(Without(log.rows, id), session, turn.subscription)) != turn.notification
  }

  /** Such a dispatch, for a worker that has no row yet. */
  predicate Affected(log: Log, id: nat, session: string, turn: Turn, op: Op) {
    op.Dispatch? && History(log, Worker, op.worker) == [] && SeesTurn(log, id, session, turn, op.parent)
  }

  /** The row `id` is the turn's, as long as it stands. */
  ghost predicate IsTurnOf(log: Log, id: nat, session: string, turn: Turn) {
    forall r <- log.rows :: r.id == id ==> r == Row(id, Session, session, turn)
  }

  lemma OfSubscriptionJoin(a: seq<Turn>, b: Turn, subscription: string)
    ensures OfSubscription(a + [b], subscription) ==
            OfSubscription(a, subscription) + (if b.subscription == subscription then [b] else [])
    decreases |a|
  {
    if a == [] {
      assert a + [b] == [b];
    } else {
      assert (a + [b])[1..] == a[1..] + [b];
      OfSubscriptionJoin(a[1..], b, subscription);
    }
  }

  /** A session's current turn of a subscription is its latest standing one. */
  lemma {:induction false} NewestIsCurrent(rows: seq<Row>, session: string, subscription: string)
    ensures var turns := OfSubscription(Reversed(Turns(rows, Session, session)), subscription);
            var newest := Newest(rows, session, subscription);
            if newest.None? then turns == [] else turns != [] && turns[0] == newest.value.turn
  {
    if rows != [] {
      var r, rest := rows[0], rows[1..];
      assert rows == [r] + rest;
      NewestIsCurrent(rest, session, subscription);
      TurnsHead(r, rest, Session, session);
      if r.kind == Session && r.owner == session {
        var turns := Turns(rest, Session, session);
        assert ([r.turn] + turns)[1..] == turns;
        OfSubscriptionJoin(Reversed(turns), r.turn, subscription);
      }
    }
  }

  /** What a parent that is neither a worker nor dispatched passes on. */
  lemma SessionOrigin(log: Log, parent: Parent)
    requires !parent.worker && History(log, Worker, parent.session) == [] && parent.subscription.Some?
    ensures var notification := Notification(Newest(log.rows, parent.session, parent.subscription.value));
            ParentOrigin(log, parent) ==
              if notification.None? then None else Some(Origin(parent.subscription.value, notification.value))
  {
    NewestIsCurrent(log.rows, parent.session, parent.subscription.value);
    NewestMatches(log.rows, parent.session, parent.subscription.value);
  }

  lemma {:induction false} NewestMatches(rows: seq<Row>, session: string, subscription: string)
    ensures var newest := Newest(rows, session, subscription);
            newest.Some? ==> newest.value in rows && newest.value.kind == Session && newest.value.owner == session &&
                             newest.value.turn.subscription == subscription
  {
    if rows != [] {
      NewestMatches(rows[1..], session, subscription);
    }
  }

  /** Taking away another row than the newest leaves the newest. */
  lemma {:induction false} NewestWithout(rows: seq<Row>, id: nat, session: string, subscription: string)
    ensures var newest := Newest(rows, session, subscription);
            newest.None? || newest.value.id != id ==> Newest(Without(rows, id), session, subscription) == newest
  {
    if rows != [] {
      var r, rest := rows[0], rows[1..];
      assert rows == [r] + rest;
      NewestWithout(rest, id, session, subscription);
      WithoutHead(r, rest, id);
      assert ([r] + Without(rest, id))[1..] == Without(rest, id);
    }
  }

  /** The guard is exact: the parent passes on something else without the turn if and only if the dispatch sees it. */
  lemma SeesTurnExactly(log: Log, id: nat, session: string, turn: Turn, parent: Parent)
    requires IsTurnOf(log, id, session, turn)
    ensures ParentOrigin(log, parent) != ParentOrigin(Retract(log, id), parent) <==>
            SeesTurn(log, id, session, turn, parent)
  {
    RetractKeepsOthers(log.rows, id, Worker, parent.session);
    if parent.subscription.Some? && !parent.worker && History(log, Worker, parent.session) == [] {
      SessionOrigin(log, parent);
      SessionOrigin(Retract(log, id), parent);
      NewestWithout(log.rows, id, parent.session, parent.subscription.value);
      NewestMatches(log.rows, parent.session, parent.subscription.value);
    }
  }

  // ----- worker histories -----

  ghost predicate SameWorkers(tw: Twin) {
    forall worker :: History(tw.recorded, Worker, worker) == History(tw.never, Worker, worker)
  }

  lemma SameParentOrigin(tw: Twin, id: nat, parent: Parent)
    requires SameTurns(tw, id) && SameWorkers(tw)
    ensures ParentOrigin(tw.never, parent) == ParentOrigin(Retract(tw.recorded, id), parent)
  {
    SameTurnsSameHistory(tw, id, Session, parent.session);
    RetractKeepsOthers(tw.recorded.rows, id, Worker, parent.session);
  }

  lemma DispatchWorkers(log: Log, parent: Parent, worker: string, other: string)
    ensures var after := Apply(log, Dispatch(parent, worker));
            History(after, Worker, other) ==
              if other == worker && History(log, Worker, worker) == [] && ParentOrigin(log, parent).Some?
              then [TurnOf(ParentOrigin(log, parent))] else History(log, Worker, other)
  {
    DispatchSnapshots(log, parent, worker);
    AppendKeepsOthers(log, Worker, other);
  }

  lemma PlainStepKeepsWorkers(log: Log, op: Op, worker: string)
    requires !op.Dispatch?
    ensures History(Apply(log, op), Worker, worker) == History(log, Worker, worker)
  {
    match op
    case RetractTurn(n) => RetractKeepsOthers(log.rows, n, Worker, worker);
    case _ => AppendKeepsOthers(log, Worker, worker);
  }

  lemma PlainAdvanceKeepsWorkers(tw: Twin, op: Op)
    requires SameWorkers(tw) && !op.Dispatch?
    ensures SameWorkers(Advance(tw, op))
  {
    var after := Advance(tw, op);
    forall worker ensures History(after.recorded, Worker, worker) == History(after.never, Worker, worker) {
      PlainStepKeepsWorkers(tw.recorded, op, worker);
      if !op.RetractTurn? {
        PlainStepKeepsWorkers(tw.never, op, worker);
      } else if op.id in tw.ids {
        PlainStepKeepsWorkers(tw.never, RetractTurn(tw.ids[op.id]), worker);
      }
    }
  }

  /** One operation keeps the workers of the two runs the same exactly when it is not an affected dispatch. */
  lemma StepWorkers(tw: Twin, id: nat, session: string, turn: Turn, op: Op)
    requires SameTurns(tw, id) && SameWorkers(tw) && IsTurnOf(tw.recorded, id, session, turn)
    ensures SameWorkers(Advance(tw, op)) <==> !Affected(tw.recorded, id, session, turn, op)
  {
    hide SameTurns;
    var after := Advance(tw, op);
    match op
    case Dispatch(parent, worker) =>
      SameParentOrigin(tw, id, parent);
      SeesTurnExactly(tw.recorded, id, session, turn, parent);
      var a, b := ParentOrigin(tw.recorded, parent), ParentOrigin(tw.never, parent);
      forall other ensures History(after.recorded, Worker, other) == History(after.never, Worker, other) <==>
          !(other == worker && History(tw.recorded, Worker, worker) == [] && a != b) {
        DispatchWorkers(tw.recorded, parent, worker, other);
        DispatchWorkers(tw.never, parent, worker, other);
      }
      assert History(after.recorded, Worker, worker) == History(after.never, Worker, worker) <==>
             !(History(tw.recorded, Worker, worker) == [] && a != b);
    case RecordTurn(_, _) => PlainAdvanceKeepsWorkers(tw, op);
    case RecordRun(_, _) => PlainAdvanceKeepsWorkers(tw, op);
    case RetractTurn(_) => PlainAdvanceKeepsWorkers(tw, op);
  }

  lemma IsTurnStays(log: Log, id: nat, session: string, turn: Turn, op: Op)
    requires IsTurnOf(log, id, session, turn) && id < log.nextId
    ensures IsTurnOf(Apply(log, op), id, session, turn) && id < Apply(log, op).nextId
  {
    if op.RetractTurn? { WithoutIsSubset(log.rows, op.id); }
  }

  lemma {:induction false} IsTurnStaysAlong(log: Log, id: nat, session: string, turn: Turn, ops: seq<Op>)
    requires IsTurnOf(log, id, session, turn) && id < log.nextId
    ensures IsTurnOf(ApplyAll(log, ops), id, session, turn) && id < ApplyAll(log, ops).nextId
    decreases |ops|
  {
    if ops != [] {
      IsTurnStaysAlong(log, id, session, turn, ops[..|ops| - 1]);
      IsTurnStays(ApplyAll(log, ops[..|ops| - 1]), id, session, turn, ops[|ops| - 1]);
    }
  }

  /** No operation of the run is an affected dispatch. */
  ghost predicate NoneAffected(recorded: Log, id: nat, session: string, turn: Turn, ops: seq<Op>) {
    ops != [] ==>
      && NoneAffected(recorded, id, session, turn, ops[..|ops| - 1])
      && !Affected(ApplyAll(recorded, ops[..|ops| - 1]), id, session, turn, ops[|ops| - 1])
  }

  /** At every moment of the runs their workers have the same histories. */
  ghost predicate SameWorkersAlong(tw: Twin, ops: seq<Op>) {
    SameWorkers(AdvanceAll(tw, ops)) && (ops != [] ==> SameWorkersAlong(tw, ops[..|ops| - 1]))
  }

  lemma {:induction false} WorkersAlong(tw: Twin, id: nat, session: string, turn: Turn, ops: seq<Op>)
    requires SameTurns(tw, id) && SameWorkers(tw) && IsTurnOf(tw.recorded, id, session, turn)
    ensures SameWorkersAlong(tw, ops) <==> NoneAffected(tw.recorded, id, session, turn, ops)
    decreases |ops|
  {
    hide SameTurns, SameWorkers, IsTurnOf, Affected, Advance;
    if ops != [] {
      var init := ops[..|ops| - 1];
      var before := AdvanceAll(tw, init);
      WorkersAlong(tw, id, session, turn, init);
      RunKeepsTurns(tw, id, init);
      TwinsAreRuns(tw, init);
      TurnIdIsOld(tw, id);
      IsTurnStaysAlong(tw.recorded, id, session, turn, init);
      if SameWorkersAlong(tw, init) {
        SameNow(tw, init);
        StepWorkers(before, id, session, turn, ops[|ops| - 1]);
      }
    }
  }

  lemma SameNow(tw: Twin, ops: seq<Op>)
    requires SameWorkersAlong(tw, ops)
    ensures SameWorkers(AdvanceAll(tw, ops))
  {
  }

  lemma TurnIdIsOld(tw: Twin, id: nat)
    requires SameTurns(tw, id)
    ensures id < tw.recorded.nextId
  {
  }

  lemma DivergedWorkers(log: Log, session: string, turn: Turn)
    requires IdsBelowNext(log)
    ensures SameWorkers(Diverged(log, session, turn))
    ensures IsTurnOf(Apply(log, RecordTurn(session, turn)), log.nextId, session, turn)
  {
    forall worker
      ensures History(Diverged(log, session, turn).recorded, Worker, worker) == History(log, Worker, worker)
    {
      AppendKeepsOthers(log, Worker, worker);
    }
  }

  /**
   * Worker histories are as if the turn had never been recorded, at every moment of the run, if and only if no dispatch
   * of the run is affected. A retraction never changes a worker's history, so this holds before and after it alike.
   */
  lemma WorkersUndoneExactly(log: Log, session: string, turn: Turn, ops: seq<Op>)
    requires IdsBelowNext(log)
    ensures SameWorkersAlong(Diverged(log, session, turn), ops) <==>
            NoneAffected(Apply(log, RecordTurn(session, turn)), log.nextId, session, turn, ops)
  {
    hide SameTurns, SameWorkers, IsTurnOf, Affected;
    DivergedSameTurns(log, session, turn);
    DivergedWorkers(log, session, turn);
    WorkersAlong(Diverged(log, session, turn), log.nextId, session, turn, ops);
  }

  /** Without an affected dispatch, every history whatsoever ends up as if the turn had never been recorded. */
  lemma UnaffectedRetractionUndoesAll(log: Log, session: string, turn: Turn, ops: seq<Op>, kind: Kind, owner: string)
    requires IdsBelowNext(log)
    requires NoneAffected(Apply(log, RecordTurn(session, turn)), log.nextId, session, turn, ops)
    ensures var recorded := ApplyAll(Apply(log, RecordTurn(session, turn)), ops);
            History(Apply(recorded, RetractTurn(log.nextId)), kind, owner) ==
            History(ApplyAll(log, Renamed(Diverged(log, session, turn), ops)), kind, owner)
  {
    hide NoneAffected, SameWorkersAlong;
    var tw := Diverged(log, session, turn);
    if kind != Worker {
      RetractionUndoesTurn(log, session, turn, ops, kind, owner);
    } else {
      WorkersUndoneExactly(log, session, turn, ops);
      SameNow(tw, ops);
      TwinsAreRuns(tw, ops);
      RetractKeepsOthers(AdvanceAll(tw, ops).recorded.rows, log.nextId, Worker, owner);
    }
  }

  /** An affected dispatch: it snapshots the turn, and the snapshot outlives the retraction. */
  lemma SnapshotOutlivesRetraction(turn: Turn, session: string, worker: string)
    requires turn.notification.Some?
    ensures var parent := Parent(session, Some(turn.subscription), false);
            var recorded := Apply(EMPTY, RecordTurn(session, turn));
            Affected(recorded, 1, session, turn, Dispatch(parent, worker)) &&
            History(Apply(Apply(recorded, Dispatch(parent, worker)), RetractTurn(1)), Worker, worker) == [turn] &&
            History(Apply(EMPTY, Dispatch(parent, worker)), Worker, worker) == []
  {
    var parent := Parent(session, Some(turn.subscription), false);
    var recorded := Apply(EMPTY, RecordTurn(session, turn));
    var row := Row(1, Session, session, turn);
    assert recorded.rows == [row] && [row][1..] == [];
    AppendKeepsOthers(EMPTY, Worker, session);
    AppendKeepsOthers(EMPTY, Worker, worker);
    WithoutHead(row, [], 1);
    SessionOrigin(recorded, parent);
    SessionOrigin(EMPTY, parent);
    DispatchWorkers(recorded, parent, worker, worker);
    DispatchWorkers(EMPTY, parent, worker, worker);
    RetractKeepsOthers(Apply(recorded, Dispatch(parent, worker)).rows, 1, Worker, worker);
  }
}

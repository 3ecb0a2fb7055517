/**
 The log `agent_inbox_origins`: which notification a session, a pipeline run or a
 dispatched worker acts for.

 Session rows are appended per delivered turn and may be retracted; run and worker rows
 are written once. A worker's row is its parent's current origin at dispatch.
 */
module InboxOrigins {
  import opened Wrappers

  datatype Kind = Session | Run | Worker

  datatype Origin = Origin(subscription: string, notification: string)

  /** A row without a notification records an unbound turn. */
  datatype Turn = Turn(subscription: string, notification: Option<string>)

  datatype Row = Row(id: nat, kind: Kind, owner: string, turn: Turn)

  /** Rows in the order of their ids; an id is never used again. */
  datatype Log = Log(rows: seq<Row>, nextId: nat)

  const EMPTY: Log := Log([], 1)

  // ----- the statements -----

  function Append(log: Log, kind: Kind, owner: string, turn: Turn): Log {
    Log(log.rows + [Row(log.nextId, kind, owner, turn)], log.nextId + 1)
  }

  function Without(rows: seq<Row>, id: nat): seq<Row> {
    if rows == [] then []
    else if rows[0].id == id && rows[0].kind == Session then Without(rows[1..], id)
    else [rows[0]] + Without(rows[1..], id)
  }

  function Retract(log: Log, id: nat): Log {
    log.(rows := Without(log.rows, id))
  }

  function Turns(rows: seq<Row>, kind: Kind, owner: string): (turns: seq<Turn>) {
    if rows == [] then []
    else (if rows[0].kind == kind && rows[0].owner == owner then [rows[0].turn] else []) + Turns(rows[1..], kind, owner)
  }

  function Reversed(turns: seq<Turn>): (r: seq<Turn>) {
    if turns == [] then [] else Reversed(turns[1..]) + [turns[0]]
  }

  /** Session turns newest first; a run or worker has one row. */
  function History(log: Log, kind: Kind, owner: string): seq<Turn> {
    var turns := Turns(log.rows, kind, owner);
    if kind == Session then Reversed(turns) else if turns == [] then [] else [turns[0]]
  }

  function RecordOnce(log: Log, kind: Kind, owner: string, origin: Origin): Log {
    if Turns(log.rows, kind, owner) == [] then
      Append(log, kind, owner, Turn(origin.subscription, Some(origin.notification)))
    else log
  }

  // ----- who an owner acts for -----

  datatype Owner = Owner(session: string, subscription: string, run: Option<string>, worker: bool)

  function OfSubscription(turns: seq<Turn>, subscription: string): (r: seq<Turn>)
    ensures forall t <- r :: t.subscription == subscription && t in turns
  {
    if turns == [] then []
    else (if turns[0].subscription == subscription then [turns[0]] else []) + OfSubscription(turns[1..], subscription)
  }

  /** A worker snapshot is authoritative; without one, a worker has no rows at all. */
  function OwnerRows(log: Log, owner: Owner): seq<Turn> {
    var worker := History(log, Worker, owner.session);
    OfSubscription(
      if worker != [] || owner.worker then worker
      else if owner.run.Some? then History(log, Run, owner.run.value)
      else History(log, Session, owner.session),
      owner.subscription)
  }

  function CurrentOrigin(log: Log, owner: Owner): (origin: Option<Origin>)
    ensures origin.Some? ==> origin.value.subscription == owner.subscription
  {
    var rows := OwnerRows(log, owner);
    if rows == [] || rows[0].notification.None? then None
    else Some(Origin(rows[0].subscription, rows[0].notification.value))
  }

  /** A supervising session; without a subscription nothing is snapshotted. */
  datatype Parent = Parent(session: string, subscription: Option<string>, worker: bool)

  function ParentOrigin(log: Log, parent: Parent): Option<Origin> {
    if parent.subscription.None? then None
    else CurrentOrigin(log, Owner(parent.session, parent.subscription.value, None, parent.worker))
  }

  function Snapshot(log: Log, parent: Parent, worker: string): Log {
    var origin := ParentOrigin(log, parent);
    if origin.Some? then RecordOnce(log, Worker, worker, origin.value) else log
  }

  // ----- runs -----

  datatype Op =
    | RecordTurn(session: string, turn: Turn)
    | RetractTurn(id: nat)
    | RecordRun(run: string, origin: Origin)
    | Dispatch(parent: Parent, worker: string)

  function Apply(log: Log, op: Op): Log {
    match op
    case RecordTurn(session, turn) => Append(log, Session, session, turn)
    case RetractTurn(id) => Retract(log, id)
    case RecordRun(run, origin) => RecordOnce(log, Run, run, origin)
    case Dispatch(parent, worker) => Snapshot(log, parent, worker)
  }

  function ApplyAll(log: Log, ops: seq<Op>): Log {
    if ops == [] then log else Apply(ApplyAll(log, ops[..|ops| - 1]), ops[|ops| - 1])
  }

  // ----- worker lineage -----

  lemma {:induction false} TurnsOfJoin(a: seq<Row>, b: seq<Row>, kind: Kind, owner: string)
    ensures Turns(a + b, kind, owner) == Turns(a, kind, owner) + Turns(b, kind, owner)
  {
    if a == [] {
      assert a + b == b;
    } else {
      assert (a + b)[1..] == a[1..] + b;
      TurnsOfJoin(a[1..], b, kind, owner);
    }
  }

  lemma {:induction false} RetractKeepsOthers(rows: seq<Row>, id: nat, kind: Kind, owner: string)
    requires kind != Session
    ensures Turns(Without(rows, id), kind, owner) == Turns(rows, kind, owner)
  {
    if rows != [] {
      RetractKeepsOthers(rows[1..], id, kind, owner);
      if !(rows[0].id == id && rows[0].kind == Session) {
        assert ([rows[0]] + Without(rows[1..], id))[1..] == Without(rows[1..], id);
      }
    }
  }

  lemma OriginStays(log: Log, op: Op, kind: Kind, owner: string)
    requires kind != Session && History(log, kind, owner) != []
    ensures History(Apply(log, op), kind, owner) == History(log, kind, owner)
  {
    hide Turns;
    match op
    case RetractTurn(id) => RetractKeepsOthers(log.rows, id, kind, owner);
    case _ => AppendKeepsOthers(log, kind, owner);
  }

  /** Once a worker or run has its row, no operation changes what it reads. */
  lemma RecordedOriginNeverChanges(log: Log, ops: seq<Op>, kind: Kind, owner: string)
    requires kind != Session && History(log, kind, owner) != []
    ensures History(ApplyAll(log, ops), kind, owner) == History(log, kind, owner)
  {
    if ops != [] {
      var init := ops[..|ops| - 1];
      RecordedOriginNeverChanges(log, init, kind, owner);
      hide Apply, History;
      OriginStays(ApplyAll(log, init), ops[|ops| - 1], kind, owner);
    }
  }

  lemma AppendKeepsOthers(log: Log, kind: Kind, owner: string)
    ensures forall k, o, t :: (k != kind || o != owner) ==>
              Turns(Append(log, k, o, t).rows, kind, owner) == Turns(log.rows, kind, owner)
    ensures forall t :: Turns(Append(log, kind, owner, t).rows, kind, owner) == Turns(log.rows, kind, owner) + [t]
  {
    forall k, o, t
      ensures Turns(Append(log, k, o, t).rows, kind, owner) ==
              Turns(log.rows, kind, owner) + if k == kind && o == owner then [t] else []
    {
      TurnsOfJoin(log.rows, [Row(log.nextId, k, o, t)], kind, owner);
    }
  }

  /** Whatever runs, a run or worker never gets a second row. */
  lemma {:induction false} RowsAreWrittenOnce(ops: seq<Op>, kind: Kind, owner: string)
    requires kind != Session
    ensures |Turns(ApplyAll(EMPTY, ops).rows, kind, owner)| <= 1
  {
    if ops != [] {
      var init, op := ops[..|ops| - 1], ops[|ops| - 1];
      var log := ApplyAll(EMPTY, init);
      RowsAreWrittenOnce(init, kind, owner);
      AppendKeepsOthers(log, kind, owner);
      match op
      case RetractTurn(id) => RetractKeepsOthers(log.rows, id, kind, owner);
      case _ =>
        hide Turns, ParentOrigin;
    }
  }

  /** A first dispatch records exactly the parent's current origin, or nothing; a later one changes nothing. */
  lemma DispatchSnapshots(log: Log, parent: Parent, worker: string)
    ensures var after := Apply(log, Dispatch(parent, worker));
            var origin := ParentOrigin(log, parent);
            History(after, Worker, worker) ==
              if History(log, Worker, worker) != [] then History(log, Worker, worker)
              else if origin.Some? then [Turn(origin.value.subscription, Some(origin.value.notification))]
              else []
  {
    AppendKeepsOthers(log, Worker, worker);
  }

  /** A worker without a snapshot acts for nothing, whatever turns its session has. */
  lemma NoSnapshotNoOrigin(log: Log, owner: Owner)
    requires owner.worker && History(log, Worker, owner.session) == []
    ensures CurrentOrigin(log, owner) == None
  {
  }

  /** The turns ever recorded for sessions by `ops`, on top of a log. */
  ghost predicate WasDelivered(ops: seq<Op>, turn: Turn) {
    exists i | 0 <= i < |ops| :: ops[i].RecordTurn? && ops[i].turn == turn
  }

  /** Every session or worker row goes back to a delivered turn, and a worker's to a bound one. */
  ghost predicate Rooted(log: Log, ops: seq<Op>) {
    && (forall r <- log.rows :: r.kind != Run ==> WasDelivered(ops, r.turn))
    && (forall r <- log.rows :: r.kind == Worker ==> r.turn.notification.Some?)
  }

  lemma {:induction false} TurnsAreRows(rows: seq<Row>, kind: Kind, owner: string, t: Turn)
    requires t in Turns(rows, kind, owner)
    ensures exists r <- rows :: r.kind == kind && r.owner == owner && r.turn == t
  {
    if rows[0].kind == kind && rows[0].owner == owner && rows[0].turn == t {
      assert rows[0] in rows;
    } else {
      TurnsAreRows(rows[1..], kind, owner, t);
      var r :| r in rows[1..] && r.kind == kind && r.owner == owner && r.turn == t;
      assert r in rows;
    }
  }

  lemma {:induction false} ReversedHasSame(turns: seq<Turn>)
    ensures forall t :: t in Reversed(turns) <==> t in turns
  {
    if turns != [] {
      ReversedHasSame(turns[1..]);
      assert turns == [turns[0]] + turns[1..];
    }
  }

  lemma {:induction false} WithoutIsSubset(rows: seq<Row>, id: nat)
    ensures forall r <- Without(rows, id) :: r in rows
  {
    if rows != [] { WithoutIsSubset(rows[1..], id); }
  }

  /** What a parent passes on is the turn of one of its own session or worker rows. */
  lemma ParentOriginIsRow(log: Log, parent: Parent)
    requires ParentOrigin(log, parent).Some?
    ensures var origin := ParentOrigin(log, parent).value;
            exists r <- log.rows :: r.kind != Run && r.owner == parent.session
              && r.turn == Turn(origin.subscription, Some(origin.notification))
  {
    var owner := Owner(parent.session, parent.subscription.value, None, parent.worker);
    var t := OwnerRows(log, owner)[0];
    if t in History(log, Worker, owner.session) {
      TurnsAreRows(log.rows, Worker, owner.session, t);
    } else {
      ReversedHasSame(Turns(log.rows, Session, owner.session));
      TurnsAreRows(log.rows, Session, owner.session, t);
    }
  }

  lemma DeliveredStays(ops: seq<Op>, op: Op, turn: Turn)
    requires WasDelivered(ops, turn)
    ensures WasDelivered(ops + [op], turn)
  {
    var i :| 0 <= i < |ops| && ops[i].RecordTurn? && ops[i].turn == turn;
    assert (ops + [op])[i] == ops[i];
  }

  lemma StepKeepsRooted(log: Log, ops: seq<Op>, op: Op)
    requires Rooted(log, ops)
    ensures Rooted(Apply(log, op), ops + [op])
  {
    var after := Apply(log, op);
    forall r <- log.rows | r.kind != Run ensures WasDelivered(ops + [op], r.turn) {
      DeliveredStays(ops, op, r.turn);
    }
    match op
    case RetractTurn(id) => WithoutIsSubset(log.rows, id);
    case RecordTurn(_, turn) => assert (ops + [op])[|ops|] == op;
    case RecordRun(_, _) =>
    case Dispatch(parent, worker) =>
      if ParentOrigin(log, parent).Some? {
        ParentOriginIsRow(log, parent);
      }
  }

  /** Along any chain of dispatches, a worker acts for a bound turn that some session was given. */
  lemma {:induction false} WorkersActForDeliveredTurns(ops: seq<Op>)
    ensures Rooted(ApplyAll(EMPTY, ops), ops)
  {
    if ops != [] {
      var init := ops[..|ops| - 1];
      WorkersActForDeliveredTurns(init);
      assert ops == init + [ops[|ops| - 1]];
      StepKeepsRooted(ApplyAll(EMPTY, init), init, ops[|ops| - 1]);
    }
  }

  /** So a worker's current origin is such a turn, and it is of the subscription asked for. */
  lemma WorkerLineage(ops: seq<Op>, owner: Owner)
    requires owner.worker && CurrentOrigin(ApplyAll(EMPTY, ops), owner).Some?
    ensures var origin := CurrentOrigin(ApplyAll(EMPTY, ops), owner).value;
            WasDelivered(ops, Turn(origin.subscription, Some(origin.notification))) &&
            origin.subscription == owner.subscription
  {
    var log := ApplyAll(EMPTY, ops);
    WorkersActForDeliveredTurns(ops);
    TurnsAreRows(log.rows, Worker, owner.session, OwnerRows(log, owner)[0]);
  }

  // ----- row ids -----

  /** Ids of a log are below the next one: what every run from the empty log keeps. */
  ghost predicate IdsBelowNext(log: Log) {
    forall r <- log.rows :: r.id < log.nextId
  }

  lemma {:induction false} IdsStayBelowNext(ops: seq<Op>)
    ensures IdsBelowNext(ApplyAll(EMPTY, ops))
  {
    if ops != [] {
      var init := ops[..|ops| - 1];
      IdsStayBelowNext(init);
      if ops[|ops| - 1].RetractTurn? {
        WithoutIsSubset(ApplyAll(EMPTY, init).rows, ops[|ops| - 1].id);
      }
    }
  }

  // ----- the store -----

  class OriginStore {
    var log: Log

    constructor ()
      ensures log == EMPTY
    {
      log := EMPTY;
    }

    method RecordTurn(session: string, turn: Turn) returns (id: nat)
      modifies this
      ensures id == old(log.nextId) && log == Append(old(log), Session, session, turn)
    {
      id := log.nextId;
      log := Log(log.rows + [Row(id, Session, session, turn)], id + 1);
    }

    method RetractTurn(id: nat)
      modifies this
      ensures log == Retract(old(log), id)
    {
      log := log.(rows := Without(log.rows, id));
    }

    method RecordRun(run: string, origin: Origin)
      modifies this
      ensures log == RecordOnce(old(log), Run, run, origin)
    {
      if Turns(log.rows, Run, run) == [] {
        log := Append(log, Run, run, Turn(origin.subscription, Some(origin.notification)));
      }
    }

    method SnapshotWorker(parent: Parent, worker: string)
      modifies this
      ensures log == Snapshot(old(log), parent, worker)
    {
      var origin := ParentOrigin(log, parent);
      if origin.Some? && Turns(log.rows, Worker, worker) == [] {
        log := Append(log, Worker, worker, Turn(origin.value.subscription, Some(origin.value.notification)));
      }
    }

    /** Retracts only when the failure proves that the prompt was never accepted. */
    method RetractRejectedTurn(id: Option<nat>, certainty: Option<string>)
      modifies this
      ensures log == if id.Some? && (certainty == Some("rejected") || certainty == Some("unsent"))
                     then Retract(old(log), id.value) else old(log)
    {
      if id.Some? && (certainty == Some("rejected") || certainty == Some("unsent")) { RetractTurn(id.value); }
    }
  }
}

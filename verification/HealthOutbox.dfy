/**
 The table `agent_session_health_publications` and the drains that deliver from it.

 A row is named by its session, runtime generation and sequence. Every publish saves a
 row and then delivers what is pending, in order, until a delivery fails; several such
 drains may be in flight at once.
 */
module HealthOutbox {

  datatype Id = Id(session: string, generation: int, sequence: int)

  /** Whether a saved row has been accepted. */
  type Rows = map<Id, bool>

  predicate Before(a: Id, b: Id) {
    a.generation < b.generation || (a.generation == b.generation && a.sequence < b.sequence)
  }

  // ----- the statements -----

  /** `n` is MAX(sequence) of the session's generation, or zero, plus one. */
  ghost predicate IsNextSequence(rows: Rows, session: string, generation: int, n: int) {
    && (forall id <- rows :: id.session == session && id.generation == generation ==> id.sequence < n)
    && (if exists id <- rows :: id.session == session && id.generation == generation
        then Id(session, generation, n - 1) in rows else n == 1)
  }

  function AfterSave(rows: Rows, id: Id): Rows {
    if id in rows then rows else rows[id := false]
  }

  function AfterAccept(rows: Rows, id: Id): Rows {
    if id in rows then rows[id := true] else rows
  }

  /** The session's rows not yet accepted, by generation and sequence. */
  ghost predicate IsPending(rows: Rows, session: string, ids: seq<Id>) {
    && (forall i | 0 <= i < |ids| :: ids[i].session == session && ids[i] in rows && !rows[ids[i]])
    && (forall id <- rows :: id.session == session && !rows[id] ==> id in ids)
    && (forall i, j | 0 <= i < j < |ids| :: Before(ids[i], ids[j]))
  }

  // ----- interleaved drains -----

  /** `drains` are the rows each in-flight drain has still to deliver; `generation` is the running process's. */
  datatype State = State(rows: Rows, generation: int, drains: map<nat, seq<Id>>)

  datatype Event =
    | Publishes(drain: nat, session: string, sequence: int, pending: seq<Id>)
    | Delivers(drain: nat)
    | Fails(drain: nat)
    | Restarts(generation: int)

  function Rest(drains: map<nat, seq<Id>>, d: nat): map<nat, seq<Id>>
    requires d in drains && drains[d] != []
  {
    if |drains[d]| == 1 then drains - {d} else drains[d := drains[d][1..]]
  }

  ghost predicate Step(s: State, s': State, e: Event) {
    match e
    case Publishes(d, session, n, pending) =>
      var rows := AfterSave(s.rows, Id(session, s.generation, n));
      && d !in s.drains && IsNextSequence(s.rows, session, s.generation, n) && IsPending(rows, session, pending)
      && pending != []
      && s' == s.(rows := rows, drains := s.drains[d := pending])
    case Delivers(d) =>
      && d in s.drains && s.drains[d] != []
      && s' == s.(rows := AfterAccept(s.rows, s.drains[d][0]), drains := Rest(s.drains, d))
    case Fails(d) =>
      s' == s.(drains := s.drains - {d})
    case Restarts(generation) =>
      s' == s.(generation := generation, drains := map[])
  }

  ghost predicate IsRun(states: seq<State>, events: seq<Event>) {
    && |states| == |events| + 1
    && states[0].rows == map[] && states[0].drains == map[]
    && forall i | 0 <= i < |events| :: Step(states[i], states[i + 1], events[i])
  }

  /** A restart never takes an earlier generation. */
  ghost predicate GenerationsNeverFall(states: seq<State>) {
    forall i, j | 0 <= i < j < |states| :: states[i].generation <= states[j].generation
  }

  /** Per session, the accepted rows are a prefix of the saved ones. */
  ghost predicate AcceptedArePrefix(rows: Rows) {
    forall a, b | a in rows && b in rows && a.session == b.session && Before(a, b) && rows[b] :: rows[a]
  }

  /** Whatever of its session precedes a drain's last row is accepted or still in that drain. */
  ghost predicate DrainOk(rows: Rows, ids: seq<Id>) {
    && ids != []
    && (forall i | 0 <= i < |ids| :: ids[i] in rows && ids[i].session == ids[0].session)
    && (forall i, j | 0 <= i < j < |ids| :: Before(ids[i], ids[j]))
    && (forall id <- rows :: id.session == ids[0].session && Before(id, ids[|ids| - 1]) ==> rows[id] || id in ids)
  }

  ghost predicate Inv(s: State) {
    && AcceptedArePrefix(s.rows)
    && (forall d <- s.drains :: DrainOk(s.rows, s.drains[d]))
    && (forall id <- s.rows :: id.generation <= s.generation)
  }

  lemma SaveIsLast(rows: Rows, generation: int, session: string, n: int, id: Id)
    requires IsNextSequence(rows, session, generation, n)
    requires id in rows && id.session == session && id.generation <= generation
    ensures Before(id, Id(session, generation, n))
  {
  }

  lemma PublishKeepsInv(s: State, s': State, e: Event)
    requires Inv(s) && Step(s, s', e) && e.Publishes?
    ensures Inv(s')
  {
    var id := Id(e.session, s.generation, e.sequence);
    forall a <- s.rows | a.session == e.session ensures Before(a, id) {
      SaveIsLast(s.rows, s.generation, e.session, e.sequence, a);
    }
    forall d <- s'.drains ensures DrainOk(s'.rows, s'.drains[d]) {
      if d in s.drains { assert DrainOk(s.rows, s.drains[d]); }
    }
  }

  lemma AcceptedHeadIsPrefix(rows: Rows, ids: seq<Id>)
    requires AcceptedArePrefix(rows) && DrainOk(rows, ids)
    ensures AcceptedArePrefix(AfterAccept(rows, ids[0]))
  {
    forall a <- rows | a.session == ids[0].session && Before(a, ids[0]) ensures rows[a] {
      assert Before(a, ids[|ids| - 1]);
    }
  }

  lemma DrainStaysOk(rows: Rows, id: Id, ids: seq<Id>)
    requires DrainOk(rows, ids)
    ensures DrainOk(AfterAccept(rows, id), ids)
    ensures id == ids[0] && |ids| > 1 ==> DrainOk(AfterAccept(rows, id), ids[1..])
  {
    if id == ids[0] && |ids| > 1 {
      var rest := ids[1..];
      assert rest[|rest| - 1] == ids[|ids| - 1];
      forall a | a in ids ensures a == ids[0] || a in rest {}
    }
  }

  lemma StepKeepsInv(s: State, s': State, e: Event)
    requires Inv(s) && Step(s, s', e) && (e.Restarts? ==> s.generation <= e.generation)
    ensures Inv(s')
  {
    match e
    case Publishes(_, _, _, _) => PublishKeepsInv(s, s', e);
    case Delivers(d) =>
      AcceptedHeadIsPrefix(s.rows, s.drains[d]);
      forall f <- s'.drains ensures DrainOk(s'.rows, s'.drains[f]) {
        DrainStaysOk(s.rows, s.drains[d][0], s.drains[f]);
      }
    case _ =>
  }

  lemma {:induction false} RunKeepsInv(states: seq<State>, events: seq<Event>)
    requires IsRun(states, events) && GenerationsNeverFall(states)
    ensures Inv(states[|events|])
    decreases |events|
  {
    if events != [] {
      var n := |events| - 1;
      assert IsRun(states[..n + 1], events[..n]);
      RunKeepsInv(states[..n + 1], events[..n]);
      assert states[n].generation <= states[n + 1].generation;
      StepKeepsInv(states[n], states[n + 1], events[n]);
    }
  }

  /** In every interleaving of drains, failures and restarts, delivery follows the order of saving. */
  lemma AcceptedInSavedOrder(states: seq<State>, events: seq<Event>)
    requires IsRun(states, events) && GenerationsNeverFall(states)
    ensures AcceptedArePrefix(states[|events|].rows)
  {
    RunKeepsInv(states, events);
  }

  // ----- exactly when the order is kept, step by step -----

  /** A save finds no accepted row of a later generation; a delivery finds all that precedes its row accepted. */
  ghost predicate InOrder(s: State, e: Event) {
    match e
    case Publishes(_, session, _, _) =>
      forall id <- s.rows :: id.session == session && s.rows[id] ==> id.generation <= s.generation
    case Delivers(d) =>
      d in s.drains && s.drains[d] != [] ==>
        var head := s.drains[d][0];
        head in s.rows ==> forall id <- s.rows :: id.session == head.session && Before(id, head) ==> s.rows[id]
    case _ => true
  }

  lemma SaveKeepsOrderExactly(rows: Rows, session: string, generation: int, n: int)
    requires AcceptedArePrefix(rows) && IsNextSequence(rows, session, generation, n)
    ensures AcceptedArePrefix(AfterSave(rows, Id(session, generation, n)))
       <==> forall id <- rows :: id.session == session && rows[id] ==> id.generation <= generation
  {
    var saved := Id(session, generation, n);
    assert saved !in rows;
    var after := AfterSave(rows, saved);
    if id :| id in rows && id.session == session && rows[id] && id.generation > generation {
      assert Before(saved, id) && after[id] && !after[saved];
    }
  }

  lemma AcceptKeepsOrderExactly(rows: Rows, head: Id)
    requires AcceptedArePrefix(rows) && head in rows
    ensures AcceptedArePrefix(AfterAccept(rows, head))
       <==> forall id <- rows :: id.session == head.session && Before(id, head) ==> rows[id]
  {
    var after := AfterAccept(rows, head);
    assert after[head];
    if id :| id in rows && id.session == head.session && Before(id, head) && !rows[id] {
      assert id in after && !after[id];
    }
  }

  /** A step keeps the order exactly when it is in order itself. */
  lemma StepKeepsOrderExactly(s: State, s': State, e: Event)
    requires AcceptedArePrefix(s.rows) && Step(s, s', e)
    ensures AcceptedArePrefix(s'.rows) <==> InOrder(s, e)
  {
    hide AcceptedArePrefix;
    match e
    case Publishes(_, session, n, _) => SaveKeepsOrderExactly(s.rows, session, s.generation, n);
    case Delivers(d) => if s.drains[d][0] in s.rows { AcceptKeepsOrderExactly(s.rows, s.drains[d][0]); }
    case _ =>
  }

  lemma {:induction false} InOrderUpTo(states: seq<State>, events: seq<Event>, n: nat)
    requires IsRun(states, events) && n <= |events|
    ensures (forall i | 0 <= i <= n :: AcceptedArePrefix(states[i].rows)) <==>
            (forall i | 0 <= i < n :: InOrder(states[i], events[i]))
  {
    if n == 0 {
      assert AcceptedArePrefix(states[0].rows);
    } else {
      assert Step(states[n - 1], states[n], events[n - 1]);
      hide AcceptedArePrefix, InOrder, Step;
      InOrderUpTo(states, events, n - 1);
      if AcceptedArePrefix(states[n - 1].rows) { StepKeepsOrderExactly(states[n - 1], states[n], events[n - 1]); }
    }
  }

  /** A run is in order at every moment exactly when each of its saves and deliveries is. */
  lemma RunInOrderExactly(states: seq<State>, events: seq<Event>)
    requires IsRun(states, events)
    ensures (forall i | 0 <= i <= |events| :: AcceptedArePrefix(states[i].rows)) <==>
            (forall i | 0 <= i < |events| :: InOrder(states[i], events[i]))
  {
    InOrderUpTo(states, events, |events|);
  }

  // ----- exactly when every run keeps it -----

  /** The generations that restarts took, in order. */
  function Taken(events: seq<Event>): seq<int> {
    if events == [] then []
    else if events[|events| - 1].Restarts? then
      Taken(events[..|events| - 1]) + [events[|events| - 1].generation]
    else Taken(events[..|events| - 1])
  }

  ghost predicate NeverFall(generations: seq<int>) {
    forall i, j | 0 <= i < j < |generations| :: generations[i] <= generations[j]
  }

  /** A run of processes with these generations, one after the other. */
  ghost predicate IsRunOf(states: seq<State>, events: seq<Event>, generations: seq<int>) {
    IsRun(states, events) && generations == [states[0].generation] + Taken(events)
  }

  lemma TakenGrows(events: seq<Event>, k: nat)
    requires k < |events|
    ensures Taken(events[..k + 1]) ==
            Taken(events[..k]) + if events[k].Restarts? then [events[k].generation] else []
  {
    assert events[..k + 1][..k] == events[..k];
  }

  lemma {:induction false} TakenIsPrefix(events: seq<Event>, k: nat)
    requires k <= |events|
    ensures Taken(events[..k]) <= Taken(events)
    decreases |events| - k
  {
    if k < |events| {
      TakenGrows(events, k);
      TakenIsPrefix(events, k + 1);
    } else {
      assert events[..k] == events;
    }
  }

  lemma {:induction false} GenerationIsLast(states: seq<State>, events: seq<Event>, k: nat)
    requires IsRun(states, events) && k <= |events|
    ensures states[k].generation == ([states[0].generation] + Taken(events[..k]))[|Taken(events[..k])|]
  {
    if k > 0 {
      GenerationIsLast(states, events, k - 1);
      TakenGrows(events, k - 1);
      assert Step(states[k - 1], states[k], events[k - 1]);
    }
  }

  /** The process at work in a state of the run. */
  lemma GenerationAt(states: seq<State>, events: seq<Event>, generations: seq<int>, k: nat)
    requires IsRunOf(states, events, generations) && k <= |events|
    ensures |Taken(events[..k])| < |generations| && states[k].generation == generations[|Taken(events[..k])|]
  {
    hide IsRun, Taken;
    GenerationIsLast(states, events, k);
    TakenIsPrefix(events, k);
  }

  lemma RunOfRising(states: seq<State>, events: seq<Event>, generations: seq<int>)
    requires IsRunOf(states, events, generations) && NeverFall(generations)
    ensures GenerationsNeverFall(states)
  {
    assert |states| == |events| + 1;
    hide IsRunOf, Taken;
    forall i, j | 0 <= i < j < |states| ensures states[i].generation <= states[j].generation {
      GenerationAt(states, events, generations, i);
      GenerationAt(states, events, generations, j);
      TakenIsPrefix(events[..j], i);
      assert events[..j][..i] == events[..i];
    }
  }

  /** One late row delivered, a restart to the earlier generation, and one early row saved. */
  ghost function FallingState(i: nat, late: Id, early: Id): State {
    match i
    case 0 => State(map[], late.generation, map[])
    case 1 => State(map[late := false], late.generation, map[0 := [late]])
    case 2 => State(map[late := true], late.generation, map[])
    case 3 => State(map[late := true], early.generation, map[])
    case _ => State(map[late := true, early := false], early.generation, map[0 := [early]])
  }

  ghost function FallingEvent(i: nat, late: Id, early: Id): Event {
    match i
    case 0 => Publishes(0, late.session, 1, [late])
    case 1 => Delivers(0)
    case 2 => Restarts(early.generation)
    case _ => Publishes(0, early.session, 1, [early])
  }

  ghost predicate IsFallingPair(late: Id, early: Id) {
    late.session == early.session && late.sequence == early.sequence == 1 && early.generation < late.generation
  }

  lemma FallingStep(i: nat, late: Id, early: Id)
    requires i < 4 && IsFallingPair(late, early)
    ensures Step(FallingState(i, late, early), FallingState(i + 1, late, early), FallingEvent(i, late, early))
  {
    var s := FallingState(i, late, early);
    if i == 1 { assert s.drains - {0} == map[]; }
  }

  /** Restarts up to the process before the fall, the fall, and restarts through the processes after it. */
  ghost function FallState(k: nat, session: string, generations: seq<int>, at: nat): State
    requires at + 1 < |generations| && k <= |generations| + 2
  {
    var late, early := Id(session, generations[at], 1), Id(session, generations[at + 1], 1);
    if k <= at then State(map[], generations[k], map[])
    else if k <= at + 4 then FallingState(k - at, late, early)
    else FallingState(4, late, early).(generation := generations[k - 3], drains := map[])
  }

  ghost function FallEvent(k: nat, session: string, generations: seq<int>, at: nat): Event
    requires at + 1 < |generations| && k < |generations| + 2
  {
    if k < at then Restarts(generations[k + 1])
    else if k < at + 4 then
      FallingEvent(k - at, Id(session, generations[at], 1), Id(session, generations[at + 1], 1))
    else Restarts(generations[k - 2])
  }

  lemma FallStep(k: nat, session: string, generations: seq<int>, at: nat)
    requires at + 1 < |generations| && k < |generations| + 2 && generations[at + 1] < generations[at]
    ensures Step(FallState(k, session, generations, at), FallState(k + 1, session, generations, at),
                 FallEvent(k, session, generations, at))
  {
    var late, early := Id(session, generations[at], 1), Id(session, generations[at + 1], 1);
    if at <= k < at + 4 { FallingStep(k - at, late, early); }
    hide FallingEvent;
    if k >= at + 4 { assert FallState(k, session, generations, at).rows == FallingState(4, late, early).rows; }
  }

  /** How many of the processes have started after `k` events. */
  function Started(k: nat, at: nat): nat {
    if k <= at then k + 1 else if k <= at + 2 then at + 1 else if k <= at + 4 then at + 2 else k - 2
  }

  lemma {:induction false} FallTakes(events: seq<Event>, session: string, generations: seq<int>, at: nat, k: nat)
    requires at + 1 < |generations| && |events| == |generations| + 2 && k <= |events|
    requires forall i | 0 <= i < |events| :: events[i] == FallEvent(i, session, generations, at)
    ensures Taken(events[..k]) == generations[1..Started(k, at)]
  {
    if k > 0 {
      FallTakes(events, session, generations, at, k - 1);
      TakenGrows(events, k - 1);
      assert events[k - 1] == FallEvent(k - 1, session, generations, at);
    }
  }

  lemma FallEnds(session: string, generations: seq<int>, at: nat)
    requires at + 1 < |generations| && generations[at + 1] < generations[at]
    ensures var start, end := FallState(0, session, generations, at),
                FallState(|generations| + 2, session, generations, at);
            && start == State(map[], generations[0], map[]) && !AcceptedArePrefix(end.rows)
  {
    var end := FallState(|generations| + 2, session, generations, at);
    var late, early := Id(session, generations[at], 1), Id(session, generations[at + 1], 1);
    assert Before(early, late) && end.rows == map[late := true, early := false];
  }

  /** Wherever the generations fall, a run of these processes delivers a row before an earlier one that it saves. */
  lemma FallingGenerationBreaksOrder(session: string, generations: seq<int>, at: nat)
    returns (states: seq<State>, events: seq<Event>)
    requires at + 1 < |generations| && generations[at + 1] < generations[at]
    ensures IsRunOf(states, events, generations) && !AcceptedArePrefix(states[|events|].rows)
  {
    var n := |generations| + 2;
    states := seq(n + 1, i requires 0 <= i <= n => FallState(i, session, generations, at));
    events := seq(n, i requires 0 <= i < n => FallEvent(i, session, generations, at));
    FallEnds(session, generations, at);
    FallTakes(events, session, generations, at, n);
    hide Step, FallState, FallEvent, Taken, AcceptedArePrefix;
    assert events[..n] == events;
    forall i | 0 <= i < n ensures Step(states[i], states[i + 1], events[i]) {
      FallStep(i, session, generations, at);
    }
  }

  lemma {:induction false} SomeFall(generations: seq<int>, i: nat, j: nat) returns (at: nat)
    requires i < j < |generations| && generations[j] < generations[i]
    ensures at + 1 < |generations| && generations[at + 1] < generations[at]
    decreases j
  {
    at := j - 1;
    if generations[j - 1] <= generations[j] { at := SomeFall(generations, i, j - 1); }
  }

  ghost predicate AllRunsInOrder(generations: seq<int>) {
    forall states: seq<State>, events: seq<Event> | IsRunOf(states, events, generations) ::
      AcceptedArePrefix(states[|events|].rows)
  }

  /** Processes of given generations deliver in the order of saving in all their runs exactly if none is earlier. */
  lemma OrderKeptExactly(generations: seq<int>)
    requires generations != []
    ensures AllRunsInOrder(generations) <==> NeverFall(generations)
  {
    hide AcceptedArePrefix;
    if NeverFall(generations) {
      forall states: seq<State>, events: seq<Event> | IsRunOf(states, events, generations)
        ensures AcceptedArePrefix(states[|events|].rows)
      {
        RunOfRising(states, events, generations);
        AcceptedInSavedOrder(states, events);
      }
    } else {
      var i: nat, j: nat :| i < j < |generations| && generations[j] < generations[i];
      var at := SomeFall(generations, i, j);
      var states, events := FallingGenerationBreaksOrder("", generations, at);
    }
  }

  // ----- the store and one drain of the controller -----

  lemma {:induction false} First(ids: set<Id>) returns (a: Id)
    requires ids != {} && forall a, b | a in ids && b in ids :: a.session == b.session
    ensures a in ids && forall b <- ids :: a == b || Before(a, b)
    decreases |ids|
  {
    var some :| some in ids;
    var others := ids - {some};
    a := some;
    if others != {} {
      var c := First(others);
      if Before(c, some) { a := c; }
    }
    forall b <- ids ensures a == b || Before(a, b) {
      assert b == some || b in others;
    }
  }

  class HealthStore {
    var rows: Rows

    constructor ()
      ensures rows == map[]
    {
      rows := map[];
    }

    method Save(id: Id)
      modifies this
      ensures rows == AfterSave(old(rows), id)
    {
      if id !in rows { rows := rows[id := false]; }
    }

    method Accept(id: Id)
      modifies this
      ensures rows == AfterAccept(old(rows), id)
    {
      if id in rows { rows := rows[id := true]; }
    }

    method NextSequence(session: string, generation: int) returns (n: int)
      ensures IsNextSequence(rows, session, generation, n)
    {
      var todo := set id <- rows | id.session == session && id.generation == generation;
      ghost var all := todo;
      if todo == {} {
        assert forall id <- rows :: id.session == session && id.generation == generation ==> id in todo;
        return 1;
      }
      var best :| best in todo;
      todo := todo - {best};
      while todo != {}
        invariant todo <= all && best in all
        invariant forall id <- all - todo :: id.sequence <= best.sequence
        decreases |todo|
      {
        var id :| id in todo;
        if best.sequence < id.sequence { best := id; }
        todo := todo - {id};
      }
      assert forall id <- rows :: id.session == session && id.generation == generation ==> id in all - todo;
      assert best == Id(session, generation, best.sequence);
      n := best.sequence + 1;
    }

    method Pending(session: string) returns (ids: seq<Id>)
      ensures IsPending(rows, session, ids)
    {
      ids := [];
      var left := set id <- rows | id.session == session && !rows[id];
      while left != {}
        invariant forall id <- left :: id in rows && id.session == session && !rows[id]
        invariant forall i | 0 <= i < |ids| :: ids[i].session == session && ids[i] in rows && !rows[ids[i]]
        invariant forall id <- rows :: id.session == session && !rows[id] ==> id in left || id in ids
        invariant forall i, j | 0 <= i < j < |ids| :: Before(ids[i], ids[j])
        invariant forall i, id | 0 <= i < |ids| && id in left :: Before(ids[i], id)
        decreases |left|
      {
        ghost var first := First(left);
        var a :| a in left && forall b <- left :: a == b || Before(a, b);
        ids, left := ids + [a], left - {a};
      }
    }
  }

  /** The first `n` rows are accepted, nothing else changes. */
  function AfterAccepting(rows: Rows, ids: seq<Id>, n: nat): Rows
    requires n <= |ids|
  {
    if n == 0 then rows else AfterAccept(AfterAccepting(rows, ids, n - 1), ids[n - 1])
  }

  class LifecycleController {
    const store: HealthStore
    const generation: int
    var sessionId: string

    constructor (store: HealthStore, generation: int, sessionId: string)
      ensures this.store == store && this.generation == generation && this.sessionId == sessionId
    {
      this.store, this.generation, this.sessionId := store, generation, sessionId;
    }

    /** Saves a new last row, then delivers the pending ones in order up to the first failure. */
    method PublishHealth(arrives: nat -> bool) returns (ghost n: int, ghost pending: seq<Id>, delivered: nat)
      modifies store
      ensures IsNextSequence(old(store.rows), sessionId, generation, n)
      ensures IsPending(AfterSave(old(store.rows), Id(sessionId, generation, n)), sessionId, pending)
      ensures delivered <= |pending|
      ensures forall i | 0 <= i < delivered :: arrives(i)
      ensures delivered < |pending| ==> !arrives(delivered)
      ensures store.rows == AfterAccepting(AfterSave(old(store.rows), Id(sessionId, generation, n)), pending, delivered)
    {
      var next := store.NextSequence(sessionId, generation);
      n := next;
      store.Save(Id(sessionId, generation, next));
      ghost var saved := store.rows;
      var ids := store.Pending(sessionId);
      pending := ids;
      delivered := 0;
      while delivered < |ids|
        invariant delivered <= |ids|
        invariant forall i | 0 <= i < delivered :: arrives(i)
        invariant store.rows == AfterAccepting(saved, ids, delivered)
      {
        if !arrives(delivered) { break; }
        store.Accept(ids[delivered]);
        delivered := delivered + 1;
      }
    }
  }
}

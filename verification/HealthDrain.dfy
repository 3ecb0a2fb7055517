/**
 One drain of the health outbox told row by row, and what the sequences of a runtime generation look like in any run.
 */
module HealthDrain {
  import opened HealthOutbox
  import opened Paths

  // ----- sequences -----

  /** The sequences of every session and generation are 1, 2, 3 and so on. */
  ghost predicate Counted(rows: Rows) {
    forall id <- rows :: id.sequence >= 1 &&
      forall n | 1 <= n < id.sequence :: Id(id.session, id.generation, n) in rows
  }

  lemma SaveCounts(rows: Rows, session: string, generation: int, n: int)
    requires Counted(rows) && IsNextSequence(rows, session, generation, n)
    ensures Id(session, generation, n) !in rows
    ensures Counted(AfterSave(rows, Id(session, generation, n)))
  {
    var after := AfterSave(rows, Id(session, generation, n));
    if id :| id in rows && id.session == session && id.generation == generation {
      assert Id(session, generation, n - 1) in rows;
    }
    forall id <- after, m | 1 <= m < id.sequence ensures Id(id.session, id.generation, m) in after {
      if id == Id(session, generation, n) && m < n - 1 {
        var last := Id(session, generation, n - 1);
        assert Id(last.session, last.generation, m) in rows;
      }
    }
  }

  /** Whatever interleaves, no sequence of a generation is used twice or left out. */
  lemma {:induction false} RunCounts(states: seq<State>, events: seq<Event>, n: nat)
    requires IsRun(states, events) && n <= |events|
    ensures Counted(states[n].rows)
  {
    if n > 0 {
      RunCounts(states, events, n - 1);
      assert Step(states[n - 1], states[n], events[n - 1]);
      hide IsNextSequence, IsPending;
      match events[n - 1]
      case Publishes(_, session, sequence, _) =>
        SaveCounts(states[n - 1].rows, session, states[n - 1].generation, sequence);
      case _ =>
    }
  }

  // ----- one drain -----

  /** A saved row is new and waits, or was there before and stays; every other row stays as it is. */
  lemma SaveExactly(rows: Rows, saved: Id, id: Id)
    ensures id in AfterSave(rows, saved) <==> id in rows || id == saved
    ensures id in rows ==> AfterSave(rows, saved)[id] == rows[id]
    ensures saved !in rows ==> !AfterSave(rows, saved)[saved]
  {
  }

  /** After a drain delivered its first `n` rows, these are accepted besides those that were before. */
  lemma {:induction false} AcceptingExactly(rows: Rows, ids: seq<Id>, n: nat, id: Id)
    requires n <= |ids|
    ensures id in AfterAccepting(rows, ids, n) <==> id in rows
    ensures id in rows ==> (AfterAccepting(rows, ids, n)[id] <==> rows[id] || id in ids[..n])
  {
    if n > 0 {
      AcceptingExactly(rows, ids, n - 1, id);
      assert ids[..n] == ids[..n - 1] + [ids[n - 1]];
    }
  }

  /**
   * What a drain that saved a row and delivered `n` of the pending ones leaves: of its session the rows that it did not
   * get to, later than all it delivered, and nothing if it delivered all; other sessions' rows as they were.
   */
  lemma DrainLeaves(rows: Rows, saved: Id, ids: seq<Id>, n: nat, id: Id)
    requires IsPending(AfterSave(rows, saved), saved.session, ids) && n <= |ids|
    ensures var after := AfterAccepting(AfterSave(rows, saved), ids, n);
            && (id in after <==> id in rows || id == saved)
            && (id in after && id.session == saved.session ==>
                  (!after[id] <==> exists i | n <= i < |ids| :: id == ids[i]) &&
                  (!after[id] ==> forall i | 0 <= i < n :: Before(ids[i], id)) && (n == |ids| ==> after[id]))
            && (id in after && id.session != saved.session ==> after[id] == rows[id])
  {
    AcceptingExactly(AfterSave(rows, saved), ids, n, id);
    hide AfterAccepting;
    if id in ids[..n] {
      var i :| 0 <= i < n && ids[i] == id;
      forall j | n <= j < |ids| ensures id != ids[j] { assert Before(ids[i], ids[j]); }
    }
  }

  // ----- as a run -----

  /** The states of one drain that delivers `n` rows: before it, after its save, and after each delivery. */
  ghost function DrainState(s: State, d: nat, saved: Id, ids: seq<Id>, k: nat): State
    requires k <= |ids| + 1
  {
    if k == 0 then s
    else s.(rows := AfterAccepting(AfterSave(s.rows, saved), ids, k - 1),
            drains := if k == |ids| + 1 then s.drains else s.drains[d := ids[k - 1..]])
  }

  ghost function DrainEvent(d: nat, saved: Id, ids: seq<Id>, k: nat): Event {
    if k == 0 then Publishes(d, saved.session, saved.sequence, ids) else Delivers(d)
  }

  ghost predicate MayDrain(s: State, d: nat, saved: Id, ids: seq<Id>) {
    && d !in s.drains && IsNextSequence(s.rows, saved.session, s.generation, saved.sequence)
    && saved.generation == s.generation && IsPending(AfterSave(s.rows, saved), saved.session, ids) && ids != []
  }

  lemma SaveStep(s: State, d: nat, saved: Id, ids: seq<Id>)
    requires MayDrain(s, d, saved, ids)
    ensures Step(s, DrainState(s, d, saved, ids, 1), Publishes(d, saved.session, saved.sequence, ids))
  {
    assert ids[0..] == ids;
    assert AfterAccepting(AfterSave(s.rows, saved), ids, 0) == AfterSave(s.rows, saved);
    hide IsNextSequence, IsPending, AfterSave, AfterAccepting;
  }

  lemma DeliveryStep(s: State, d: nat, saved: Id, ids: seq<Id>, k: nat)
    requires d !in s.drains && 0 < k <= |ids|
    ensures Step(DrainState(s, d, saved, ids, k), DrainState(s, d, saved, ids, k + 1), Delivers(d))
  {
    var rows := AfterSave(s.rows, saved);
    assert AfterAccepting(rows, ids, k) == AfterAccept(AfterAccepting(rows, ids, k - 1), ids[k - 1]);
    hide AfterSave, AfterAccepting, AfterAccept;
    var before, after := DrainState(s, d, saved, ids, k), DrainState(s, d, saved, ids, k + 1);
    assert before.drains[d] == ids[k - 1..];
    RestOf(s.drains, d, ids, k);
  }

  lemma RestOf(drains: map<nat, seq<Id>>, d: nat, ids: seq<Id>, k: nat)
    requires d !in drains && 0 < k <= |ids|
    ensures Rest(drains[d := ids[k - 1..]], d) == if k == |ids| then drains else drains[d := ids[k..]]
  {
    assert ids[k - 1..][1..] == ids[k..];
    assert drains[d := ids[k - 1..]] - {d} == drains;
    assert drains[d := ids[k - 1..]][d := ids[k..]] == drains[d := ids[k..]];
  }

  lemma DrainStep(s: State, d: nat, saved: Id, ids: seq<Id>, k: nat)
    requires MayDrain(s, d, saved, ids) && k <= |ids|
    ensures Step(DrainState(s, d, saved, ids, k), DrainState(s, d, saved, ids, k + 1), DrainEvent(d, saved, ids, k))
  {
    if k == 0 { SaveStep(s, d, saved, ids); } else { DeliveryStep(s, d, saved, ids, k); }
    hide Step, IsNextSequence, IsPending, AfterSave, AfterAccepting;
  }

  lemma {:induction false} DrainPath(s: State, d: nat, saved: Id, ids: seq<Id>, n: nat)
    requires MayDrain(s, d, saved, ids) && n <= |ids|
    ensures Leads(s, DrainState(s, d, saved, ids, n + 1), Step)
  {
    hide Leads, Step, MayDrain;
    if n == 0 {
      assert DrainState(s, d, saved, ids, 0) == s;
      Begins(s, Step);
    } else {
      DrainPath(s, d, saved, ids, n - 1);
    }
    hide DrainState;
    DrainStep(s, d, saved, ids, n);
    GoesOn(s, DrainState(s, d, saved, ids, n), DrainEvent(d, saved, ids, n), DrainState(s, d, saved, ids, n + 1), Step);
  }

  /** A publication that nothing interleaves with does what some steps of the interleaved drains do. */
  lemma DrainIsAPath(s: State, d: nat, saved: Id, ids: seq<Id>, n: nat)
    requires MayDrain(s, d, saved, ids) && n <= |ids|
    ensures Leads(s, s.(rows := AfterAccepting(AfterSave(s.rows, saved), ids, n)), Step)
  {
    DrainPath(s, d, saved, ids, n);
    hide Leads, Step, AfterAccepting, AfterSave;
    var last := s.(rows := AfterAccepting(AfterSave(s.rows, saved), ids, n));
    if n < |ids| {
      GivesUp(s, d, ids[n..], last.rows);
      GoesOn(s, DrainState(s, d, saved, ids, n + 1), Fails(d), last, Step);
    }
  }

  lemma GivesUp(s: State, d: nat, left: seq<Id>, rows: Rows)
    requires d !in s.drains
    ensures Step(s.(rows := rows, drains := s.drains[d := left]), s.(rows := rows), Fails(d))
  {
    assert s.drains[d := left] - {d} == s.drains;
  }
}

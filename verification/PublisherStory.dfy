/**
 The life of one publisher: publications and heartbeats in any order, with everyone else free to change the table in
 between. What each publication does is told by what happened before it, not by the publisher's flags.
 */
module PublisherStory {
  import opened ActivityPublisher
  import opened BeatAnswers
  import opened Lease
  import opened OutboxRows
  import opened OutboxTable
  import opened Wrappers

  datatype Deed =
    | Publish(p: Publication, heartbeatTag: string, deliveries: nat -> Delivery, attempts: nat)
    /** the lease requests of a heartbeat */
    | Renews(replies: nat -> Reply, clock: nat -> int)

  /** What the publisher does at one time, with its book and its lease before and after. */
  datatype Moment = Moment(before: Book, local: Local, deed: Deed, after: Book, localAfter: Local) {
    function Log(): seq<Exchange>
      requires deed.Renews?
    {
      BeatOnce(local, deed.replies, deed.clock).log
    }
  }

  /** Whose life it is. */
  datatype Owner = Owner(activity: string, base: int)

  ghost predicate IsMoment(m: Moment, owner: Owner) {
    && m.local.terminal == m.before.flags.terminal && m.localAfter.terminal == m.after.flags.terminal
    && match m.deed
    case Publish(p, tag, deliveries, attempts) =>
      && Booked(m.before, m.after, owner.activity, owner.base, p, tag, deliveries, attempts)
      && LearnsFrom(m.local, Learnt(deliveries, attempts), m.localAfter)
    case Renews(replies, clock) =>
      && m.localAfter == BeatOnce(m.local, replies, clock).local
      && m.after == m.before.(flags := m.before.flags.(terminal := m.localAfter.terminal))
  }

  /** It starts with a new publisher; between two moments the table may change, the publisher does not. */
  ghost predicate IsStory(ms: seq<Moment>, owner: Owner) {
    && (forall i | 0 <= i < |ms| :: IsMoment(ms[i], owner))
    && (ms != [] ==>
          ms[0].before.flags == Flags("", None, false, false) && ms[0].local == Local(Lease(1, 0), None, false))
    && (forall i | 0 < i < |ms| ::
          ms[i].before.flags == ms[i - 1].after.flags && ms[i].local == ms[i - 1].localAfter)
  }

  // ----- what has happened before -----

  predicate Ends(state: ActivityState) {
    state == Completed || state == FailedState || state == Cancelled
  }

  /** One of the attempts made reached Tower. */
  ghost predicate Delivers(m: Moment) {
    m.deed.Publish? && exists i: nat :: i < m.deed.attempts && !m.deed.deliveries(i).Refused?
  }

  function StateText(state: ActivityState): string {
    match state
    case AcceptedState => "accepted"
    case Queued => "queued"
    case Working => "working"
    case Waiting => "waiting"
    case Completed => "completed"
    case FailedState => "failed"
    case Cancelled => "cancelled"
  }

  function BodyText(p: Publication): string {
    if p.body.Some? then p.body.value else ""
  }

  /** The key of a publication's row. */
  function RowKey(owner: Owner, p: Publication, heartbeatTag: string): Key {
    Key(owner.activity, if p.source.Some? then p.source.value
                        else if p.heartbeat then "heartbeat:" + heartbeatTag
                        else StateText(p.state) + ":" + BodyText(p))
  }

  /** The publication's row was accepted before. */
  ghost predicate WasAccepted(m: Moment, owner: Owner) {
    && m.deed.Publish?
    && var key := RowKey(owner, m.deed.p, m.deed.heartbeatTag);
    && key in m.before.rows && m.before.rows[key].status == Accepted
  }

  /** A row of the activity, no heartbeat's, waits to be accepted. */
  ghost predicate RowWaits(rows: Table, activity: string) {
    exists key <- rows :: key.activity == activity && rows[key].status != Accepted && !IsHeartbeat(key.event)
  }

  /** The `i`th moment makes the publisher the owner of its activity. */
  ghost predicate Establishes(ms: seq<Moment>, owner: Owner, i: nat)
    requires i < |ms|
    decreases i, 3
  {
    Delivers(ms[i]) ||
    (WasAccepted(ms[i], owner) && ms[i].deed.p.state == Working && !IsSilent(ms, owner, i))
  }

  /** The `i`th moment ends the activity for the publisher. */
  ghost predicate EndsIt(ms: seq<Moment>, owner: Owner, i: nat)
    requires i < |ms|
    decreases i, 3
  {
    match ms[i].deed
    case Publish(p, _, _, _) =>
      Ends(p.state) && (Delivers(ms[i]) || (WasAccepted(ms[i], owner) && !IsSilent(ms, owner, i)))
    case Renews(_, _) => LastEnds(ms[i].Log())
  }

  /** One of the first `n` moments made it so. */
  ghost predicate IsEstablished(ms: seq<Moment>, owner: Owner, n: nat)
    requires n <= |ms|
    decreases n, 1
  {
    n > 0 && (IsEstablished(ms, owner, n - 1) || Establishes(ms, owner, n - 1))
  }

  /** One of the first `n` moments ended it. */
  ghost predicate IsEnded(ms: seq<Moment>, owner: Owner, n: nat)
    requires n <= |ms|
    decreases n, 1
  {
    n > 0 && (IsEnded(ms, owner, n - 1) || EndsIt(ms, owner, n - 1))
  }

  /** The last body that reached Tower. */
  ghost function LastSaid(ms: seq<Moment>, n: nat): string
    requires n <= |ms|
  {
    if n == 0 then ""
    else if Delivers(ms[n - 1]) && ms[n - 1].deed.p.body.Some? then ms[n - 1].deed.p.body.value
    else LastSaid(ms, n - 1)
  }

  /** The state of the last publication that reached Tower. */
  ghost function LastState(ms: seq<Moment>, n: nat): Option<ActivityState>
    requires n <= |ms|
  {
    if n == 0 then None
    else if Delivers(ms[n - 1]) then Some(ms[n - 1].deed.p.state)
    else LastState(ms, n - 1)
  }

  /**
   * A publication that is left out: after the end unless it has a source, as a repetition of what was said last, or as
   * the end of an activity that the publisher neither owns nor has rows waiting for.
   */
  ghost predicate IsSilent(ms: seq<Moment>, owner: Owner, n: nat)
    requires n < |ms|
    decreases n, 2
  {
    && ms[n].deed.Publish?
    && var p := ms[n].deed.p;
    || (p.source.None? && IsEnded(ms, owner, n))
    || (p.source.None? && !p.heartbeat && p.state == Working && p.body == Some(LastSaid(ms, n)))
    || (Ends(p.state) && !IsEstablished(ms, owner, n) && !RowWaits(ms[n].before.rows, owner.activity))
  }

  // ----- what one publication does -----

  /** The publication's row after it was tried: new or the same as before, and accepted if Tower was reached. */
  ghost predicate IsTried(m: Moment, owner: Owner, key: Key)
    requires m.deed.Publish? && key in m.after.rows
  {
    var t, row, p := m.before.rows, m.after.rows[key], m.deed.p;
    && row.status == (if Delivers(m) then Accepted else Failed)
    && m.deed.attempts == (if m.deed.deliveries(0).Refused? then 2 else 1)
    && row.payload == (if !p.heartbeat then Some(Payload(Ends(p.state), row.sequence))
                       else if key in t then t[key].payload else None)
    && if key in t then
         row.sequence == t[key].sequence && row.attempts == t[key].attempts + 1 &&
         row.nextAttemptAt == t[key].nextAttemptAt
       else row.attempts == 1 && row.nextAttemptAt == 0 && IsNext(t, owner.activity, owner.base, row.sequence)
  }

  /** The publication's row stands afterwards; every other row stays as it was. */
  ghost predicate LeavesRow(m: Moment, owner: Owner)
    requires m.deed.Publish?
  {
    var key := RowKey(owner, m.deed.p, m.deed.heartbeatTag);
    && key in m.after.rows && OthersStay(m.before.rows, m.after.rows, key)
    && m.after.sequence == (if m.before.sequence < m.after.rows[key].sequence then m.after.rows[key].sequence
                            else m.before.sequence)
    && if WasAccepted(m, owner) then m.after.rows[key] == m.before.rows[key] && m.deed.attempts == 0
       else IsTried(m, owner, key)
  }

  lemma WaitsIsPending(rows: Table, activity: string)
    ensures RowWaits(rows, activity) <==> HasPendingRow(rows, activity)
  {
    if key :| key in rows && key.activity == activity && rows[key].status != Accepted && !IsHeartbeat(key.event) {
      assert IsPendingRow(rows, key);
    }
  }

  lemma KeyAsWritten(owner: Owner, p: Publication, heartbeatTag: string)
    ensures RowKey(owner, p, heartbeatTag) == Key(owner.activity, EventKey(p, heartbeatTag))
  {
  }

  lemma DeliversExactly(m: Moment)
    requires m.deed.Publish? && m.deed.attempts == AttemptsMade(m.deed.deliveries)
    ensures Delivers(m) <==> GetsThrough(m.deed.deliveries)
  {
    if Delivers(m) {
      var i: nat :| i < m.deed.attempts && !m.deed.deliveries(i).Refused?;
      assert i == 0 || i == 1;
    }
    if Arrives(m.deed.deliveries(0)) { assert !m.deed.deliveries(0).Refused?; }
  }

  lemma NothingDelivered(m: Moment)
    requires m.deed.Publish? && m.deed.attempts == 0
    ensures !Delivers(m)
  {
  }

  lemma NewRowIsNext(rows: Table, owner: Owner, key: Key)
    requires key.activity == owner.activity && key !in rows
    ensures IsNext(rows, owner.activity, owner.base, ClaimAnswer(rows, key, owner.base).sequence)
  {
    ClaimExactly(rows, key, owner.base, None);
    hide Latest, IsNext;
  }

  lemma PublishDoes(m: Moment, owner: Owner)
    requires m.deed.Publish? && IsMoment(m, owner)
    ensures if Withheld(m.before.flags, m.deed.p, RowWaits(m.before.rows, owner.activity)) then
              m.after == m.before && m.deed.attempts == 0
            else LeavesRow(m, owner)
  {
    var p := m.deed.p;
    WaitsIsPending(m.before.rows, owner.activity);
    KeyAsWritten(owner, p, m.deed.heartbeatTag);
    if !Withheld(m.before.flags, p, HasPendingRow(m.before.rows, owner.activity)) {
      var key := RowKey(owner, p, m.deed.heartbeatTag);
      if key !in m.before.rows { NewRowIsNext(m.before.rows, owner, key); }
      if !WasAccepted(m, owner) { DeliversExactly(m); }
      hide Withheld, EventKey, RowKey, Delivers, GetsThrough, Latest, IsNext, FlagsAfter, HasPendingRow;
    }
  }

  lemma FlagsDo(m: Moment, owner: Owner)
    requires m.deed.Publish? && IsMoment(m, owner)
    ensures var p, before := m.deed.p, m.before.flags;
            var silent := Withheld(before, p, RowWaits(m.before.rows, owner.activity));
            var found := WasAccepted(m, owner) && !silent;
            m.after.flags ==
            Flags(if Delivers(m) && p.body.Some? then p.body.value else before.lastBody,
                  if Delivers(m) then Some(p.state) else before.lastState,
                  before.terminal || (Ends(p.state) && (Delivers(m) || found)),
                  before.established || Delivers(m) || (found && p.state == Working))
  {
    var p := m.deed.p;
    WaitsIsPending(m.before.rows, owner.activity);
    KeyAsWritten(owner, p, m.deed.heartbeatTag);
    if m.deed.attempts == 0 { NothingDelivered(m); } else { DeliversExactly(m); }
    hide Withheld, EventKey, RowKey, Delivers, GetsThrough, Latest, HasPendingRow, AfterPublishing, AttemptsMade;
    AttemptsAreMade(m.deed.deliveries);
  }

  lemma AttemptsAreMade(deliveries: nat -> Delivery)
    ensures AttemptsMade(deliveries) > 0
  {
  }

  lemma BeatDoes(m: Moment, owner: Owner)
    requires m.deed.Renews? && IsMoment(m, owner)
    ensures m.after == m.before.(flags := m.before.flags.(terminal := m.before.flags.terminal || LastEnds(m.Log())))
  {
    TerminalExactly(m.local, m.deed.replies, m.deed.clock);
    hide BeatOnce, LastEnds;
  }

  /** At every moment the publisher's flags tell what has happened so far. */
  ghost predicate TellsAt(ms: seq<Moment>, owner: Owner, n: nat, flags: Flags)
    requires n <= |ms|
  {
    && (flags.terminal <==> IsEnded(ms, owner, n)) && (flags.established <==> IsEstablished(ms, owner, n))
    && flags.lastBody == LastSaid(ms, n) && flags.lastState == LastState(ms, n)
  }

  lemma SilentIsWithheld(ms: seq<Moment>, owner: Owner, n: nat)
    requires n < |ms| && TellsAt(ms, owner, n, ms[n].before.flags) && ms[n].deed.Publish?
    ensures IsSilent(ms, owner, n) <==>
            Withheld(ms[n].before.flags, ms[n].deed.p, RowWaits(ms[n].before.rows, owner.activity))
  {
    hide IsEnded, IsEstablished, LastSaid, LastState, RowWaits;
  }

  lemma {:induction false} EndStays(ms: seq<Moment>, owner: Owner, i: nat, n: nat)
    requires i < n <= |ms| && EndsIt(ms, owner, i)
    ensures IsEnded(ms, owner, n)
  {
    hide Delivers, WasAccepted, IsSilent, BeatOnce, LastEnds;
    if i < n - 1 { EndStays(ms, owner, i, n - 1); }
  }

  lemma MomentTells(ms: seq<Moment>, owner: Owner, n: nat)
    requires n < |ms| && IsMoment(ms[n], owner) && TellsAt(ms, owner, n, ms[n].before.flags)
    ensures TellsAt(ms, owner, n + 1, ms[n].after.flags)
  {
    if ms[n].deed.Publish? {
      SilentIsWithheld(ms, owner, n);
      FlagsDo(ms[n], owner);
    } else {
      BeatDoes(ms[n], owner);
    }
    hide Delivers, WasAccepted, IsSilent, Withheld, RowWaits, LastEnds, BeatOnce, IsMoment;
    assert IsEstablished(ms, owner, n + 1) <==> (IsEstablished(ms, owner, n) || Establishes(ms, owner, n));
    assert IsEnded(ms, owner, n + 1) <==> (IsEnded(ms, owner, n) || EndsIt(ms, owner, n));
  }

  lemma {:induction false} FlagsTell(ms: seq<Moment>, owner: Owner, n: nat)
    requires IsStory(ms, owner) && n <= |ms|
    ensures n < |ms| ==> TellsAt(ms, owner, n, ms[n].before.flags)
    ensures n > 0 ==> TellsAt(ms, owner, n, ms[n - 1].after.flags)
  {
    hide IsMoment;
    if n == 0 {
      assert !IsEnded(ms, owner, 0) && !IsEstablished(ms, owner, 0);
    } else {
      FlagsTell(ms, owner, n - 1);
      hide TellsAt;
      MomentTells(ms, owner, n - 1);
    }
  }

  /**
   * What a publication does in the life of a publisher, whatever happened before it: one that is left out changes
   * nothing and tries nothing; every other one leaves its row, accepted exactly if it was before or Tower was reached.
   */
  lemma PublishExactly(ms: seq<Moment>, owner: Owner, n: nat)
    requires IsStory(ms, owner) && n < |ms| && ms[n].deed.Publish?
    ensures if IsSilent(ms, owner, n) then ms[n].after == ms[n].before && ms[n].deed.attempts == 0
            else LeavesRow(ms[n], owner)
  {
    FlagsTell(ms, owner, n);
    SilentIsWithheld(ms, owner, n);
    PublishDoes(ms[n], owner);
    hide IsSilent, LeavesRow, TellsAt, Withheld, IsMoment;
  }

  /** The owner of an activity that has not ended publishes the end of its turn. */
  lemma OwnedEndIsPublished(ms: seq<Moment>, owner: Owner, n: nat)
    requires IsStory(ms, owner) && n < |ms| && ms[n].deed.Publish? && Ends(ms[n].deed.p.state)
    requires IsEstablished(ms, owner, n) && !IsEnded(ms, owner, n)
    ensures LeavesRow(ms[n], owner)
    ensures var p := ms[n].deed.p;
            p.source.None? && !p.heartbeat ==>
              Key(owner.activity, StateText(p.state) + ":" + BodyText(p)) in ms[n].after.rows
  {
    PublishExactly(ms, owner, n);
    hide IsEstablished, IsEnded, RowWaits;
  }

  /** One who does not own the activity and has nothing waiting does not end it. */
  lemma StrangerDoesNotEnd(ms: seq<Moment>, owner: Owner, n: nat)
    requires IsStory(ms, owner) && n < |ms| && ms[n].deed.Publish? && Ends(ms[n].deed.p.state)
    requires !IsEstablished(ms, owner, n) && !RowWaits(ms[n].before.rows, owner.activity)
    ensures ms[n].after == ms[n].before && ms[n].deed.attempts == 0
  {
    PublishExactly(ms, owner, n);
    hide LeavesRow;
  }

  /** After the end of the turn has reached Tower, only publications with a source change anything. */
  lemma EndIsFinal(ms: seq<Moment>, owner: Owner, i: nat, n: nat)
    requires IsStory(ms, owner) && i < n < |ms|
    requires match ms[i].deed
             case Publish(p, _, _, _) => Ends(p.state) && Delivers(ms[i])
             case Renews(_, _) => LastEnds(ms[i].Log())
    ensures match ms[n].deed
            case Publish(p, _, _, attempts) => p.source.None? ==> ms[n].after == ms[n].before && attempts == 0
            case Renews(replies, clock) =>
              ms[n].after == ms[n].before && BeatOnce(ms[n].local, replies, clock) == Beat(ms[n].local, Ended, [])
  {
    hide Delivers, LastEnds, Rounds, LeavesRow, WasAccepted;
    EndStays(ms, owner, i, n);
    if ms[n].deed.Publish? {
      PublishExactly(ms, owner, n);
    } else {
      FlagsTell(ms, owner, n);
      assert IsMoment(ms[n], owner);
    }
  }

  /** What was said last is not said again. */
  lemma RepetitionIsSilent(ms: seq<Moment>, owner: Owner, n: nat)
    requires IsStory(ms, owner) && n < |ms| && ms[n].deed.Publish?
    requires var p := ms[n].deed.p;
             p.source.None? && !p.heartbeat && p.state == Working && p.body == Some(LastSaid(ms, n))
    ensures ms[n].after == ms[n].before && ms[n].deed.attempts == 0
  {
    PublishExactly(ms, owner, n);
    hide LeavesRow;
  }

  /** Every publication of a turn's progress that has something to say leaves its row. */
  lemma ProgressIsPublished(ms: seq<Moment>, owner: Owner, n: nat)
    requires IsStory(ms, owner) && n < |ms| && ms[n].deed.Publish? && !Ends(ms[n].deed.p.state)
    requires ms[n].deed.p.source.Some? || !IsEnded(ms, owner, n)
    requires ms[n].deed.p.body != Some(LastSaid(ms, n)) || ms[n].deed.p.source.Some?
    ensures LeavesRow(ms[n], owner)
  {
    PublishExactly(ms, owner, n);
    hide LeavesRow, IsEnded, LastSaid;
  }

  // ----- what is learnt of leases -----

  /** The activity that Tower reported in the first answer to reach the publisher, if it named one. */
  function Report(m: Moment): Option<TowerActivity>
    requires m.deed.Publish?
  {
    var first, second := m.deed.deliveries(0), m.deed.deliveries(1);
    if m.deed.attempts == 0 then None
    else if first.Taken? then first.activity
    else if first.Refused? && m.deed.attempts > 1 && second.Taken? then second.activity
    else None
  }

  /** A publication teaches what its report says of leases; without one it teaches nothing. */
  lemma PublishTeaches(m: Moment, owner: Owner)
    requires m.deed.Publish? && IsMoment(m, owner)
    ensures match Report(m)
            case None => m.localAfter.lease == m.local.lease && m.localAfter.capable == m.local.capable
            case Some(activity) =>
              && m.localAfter.lease == Adopt(m.local.lease, activity.lease)
              && m.localAfter.capable ==
                 if activity.contractVersion == Some(2) then Some(true)
                 else if activity.contractVersion.None? && m.local.capable.None? then Some(false)
                 else m.local.capable
  {
    hide Withheld, FlagsAfter, AfterPublishing, EventKey, HasPendingRow, Adopt;
    AdoptExactly(m.local.lease, None);
    if m.deed.attempts != 0 { assert m.deed.attempts == AttemptsMade(m.deed.deliveries); }
  }

  /** Whether Tower has lease routes, as far as it has told. */
  ghost function Known(ms: seq<Moment>, n: nat): Option<bool>
    requires n <= |ms|
  {
    if n == 0 then None else
      var m, before := ms[n - 1], Known(ms, n - 1);
      match m.deed
      case Publish(_, _, _, _) =>
        if Report(m).None? then before
        else if Report(m).value.contractVersion == Some(2) then Some(true)
        else if Report(m).value.contractVersion.None? && before.None? then Some(false)
        else before
      case Renews(_, _) =>
        if m.Log() == [] then before
        else if SaysNoRoute(m.Log()[|m.Log()| - 1]) then Some(false)
        else if HearsLeases(m.Log()) then Some(true)
        else before
  }

  lemma BeatTeaches(m: Moment, owner: Owner)
    requires m.deed.Renews? && IsMoment(m, owner)
    ensures m.localAfter.capable ==
            if m.Log() == [] then m.local.capable
            else if SaysNoRoute(m.Log()[|m.Log()| - 1]) then Some(false)
            else if HearsLeases(m.Log()) then Some(true)
            else m.local.capable
    ensures m.Log() == [] <==> m.local.terminal || m.local.capable == Some(false)
  {
    OutcomeExactly(m.local, m.deed.replies, m.deed.clock);
    if !m.local.terminal && m.local.capable != Some(false) {
      CapableExactly(m.local, m.deed.replies, m.deed.clock);
    }
    hide BeatOnce, HearsLeases, SaysNoRoute;
  }

  lemma {:induction false} KnownTells(ms: seq<Moment>, owner: Owner, n: nat)
    requires IsStory(ms, owner) && n < |ms|
    ensures ms[n].local.capable == Known(ms, n)
  {
    if n > 0 {
      KnownTells(ms, owner, n - 1);
      if ms[n - 1].deed.Publish? { PublishTeaches(ms[n - 1], owner); } else { BeatTeaches(ms[n - 1], owner); }
      hide IsMoment, Report, HearsLeases, SaysNoRoute, BeatOnce;
    }
  }

  /**
   * A heartbeat of an activity that has not ended renews the lease unless Tower is known to have no lease routes, and
   * falls back to an ordinary row exactly if it is, or answers so now.
   */
  lemma HeartbeatExactly(ms: seq<Moment>, owner: Owner, n: nat)
    requires IsStory(ms, owner) && n < |ms| && ms[n].deed.Renews?
    ensures ms[n].Log() == [] <==> IsEnded(ms, owner, n) || Known(ms, n) == Some(false)
    ensures BeatOnce(ms[n].local, ms[n].deed.replies, ms[n].deed.clock).outcome == Legacy <==>
            !IsEnded(ms, owner, n) &&
            (Known(ms, n) == Some(false) ||
             (ms[n].Log() != [] && SaysNoRoute(ms[n].Log()[|ms[n].Log()| - 1])))
  {
    FlagsTell(ms, owner, n);
    KnownTells(ms, owner, n);
    assert IsMoment(ms[n], owner);
    BeatTeaches(ms[n], owner);
    OutcomeExactly(ms[n].local, ms[n].deed.replies, ms[n].deed.clock);
    hide BeatOnce, IsEnded, Known, IsMoment, HearsLeases, IsStory;
  }
}

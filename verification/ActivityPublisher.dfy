/**
 One publisher: the owner of a turn's visible activity, its outbox rows and its lease.

 What the network and the clock answer is given by index; every operation runs to its
 end before the next, as the publisher's own queue makes it do.
 */
module ActivityPublisher {
  import opened Wrappers
  import opened OutboxTable
  import opened OutboxProtocol
  import opened Paths
  import opened Lease
  import opened LeaseTrace

  datatype ActivityState = AcceptedState | Queued | Working | Waiting | Completed | FailedState | Cancelled {
    predicate EndsTurn() { Completed? || FailedState? || Cancelled? }

    function Name(): (name: string)
      ensures name in STATE_NAMES
    {
      match this
      case AcceptedState => "accepted"
      case Queued => "queued"
      case Working => "working"
      case Waiting => "waiting"
      case Completed => "completed"
      case FailedState => "failed"
      case Cancelled => "cancelled"
    }
  }

  /** Tower's answer to one delivery; a stale or terminal rejection counts as converged. */
  datatype Delivery =
    | Taken(activity: Option<TowerActivity>)
    | Converged
    | Refused
  {
    /** The lease an answer reports. */
    function Row(): Option<Lease> {
      if Taken? && activity.Some? then activity.value.lease else None
    }
  }

  datatype TowerActivity = TowerActivity(contractVersion: Option<int>, lease: Option<Lease>)

  /** What a publish asks for; `body` is the normalised text, never empty. */
  datatype Publication = Publication(state: ActivityState, body: Option<string>, source: Option<string>,
      heartbeat: bool)

  datatype Flags = Flags(lastBody: string, lastState: Option<ActivityState>, terminal: bool, established: bool)

  /** The cases in which a publish does nothing at all. */
  predicate Withheld(flags: Flags, p: Publication, hasPending: bool) {
    || (flags.terminal && p.source.None?)
    || (!p.heartbeat && p.source.None? && p.state == Working && p.body == Some(flags.lastBody))
    || (p.state.EndsTurn() && !flags.established && !hasPending)
  }

  function EventKey(p: Publication, heartbeatTag: string): string {
    match p.source
    case Some(identity) => identity
    case None =>
      if p.heartbeat then HeartbeatKey(heartbeatTag)
      else StateKey(p.state.Name(), if p.body.Some? then p.body.value else "")
  }

  predicate Arrives(d: Delivery) { !d.Refused? }

  /** The retry follows only a refused first attempt. */
  function AttemptsMade(deliveries: nat -> Delivery): nat {
    if Arrives(deliveries(0)) then 1 else PUBLISH_ATTEMPTS
  }

  predicate GetsThrough(deliveries: nat -> Delivery) {
    Arrives(deliveries(0)) || Arrives(deliveries(1))
  }

  /** The attempt whose answer counts: the first that arrives, else the last. */
  function Answered(deliveries: nat -> Delivery): Delivery {
    if Arrives(deliveries(0)) then deliveries(0) else deliveries(1)
  }

  /** What an answer teaches: its lease is adopted, and the contract version it names settles capability. */
  predicate LearnsFrom(before: Local, d: Delivery, after: Local) {
    && after.lease == Adopt(before.lease, d.Row())
    && after.capable ==
       if !d.Taken? || d.activity.None? then before.capable
       else if d.activity.value.contractVersion == Some(2) then Some(true)
       else if d.activity.value.contractVersion.None? && before.capable.None? then Some(false)
       else before.capable
  }

  function FlagsAfter(flags: Flags, p: Publication, answer: Answer, through: bool): Flags {
    if answer.duplicate then
      flags.(established := flags.established || (answer.accepted && p.state == Working),
             terminal := flags.terminal || (answer.accepted && p.state.EndsTurn()))
    else if through then
      var lastBody := if p.body.Some? then p.body.value else flags.lastBody;
      Flags(lastBody, Some(p.state), flags.terminal || p.state.EndsTurn(), true)
    else flags
  }

  /** The table a publish that is not withheld leaves behind. */
  ghost function AfterPublishing(t: Table, key: Key, base: int, payload: Option<Payload>, through: bool): Table {
    var claimed := AfterClaim(t, key, base, payload);
    if ClaimAnswer(t, key, base).duplicate then t
    else if through then AfterAccept(claimed, key) else AfterFail(claimed, key)
  }

  /** What a publish writes. */
  datatype Book = Book(rows: Table, flags: Flags, sequence: int)

  ghost predicate Booked(before: Book, after: Book, activity: string, base: int, p: Publication,
        heartbeatTag: string, deliveries: nat -> Delivery, attempts: nat) {
    if Withheld(before.flags, p, HasPendingRow(before.rows, activity)) then after == before && attempts == 0 else
      var key := Key(activity, EventKey(p, heartbeatTag));
      var answer := ClaimAnswer(before.rows, key, base);
      var payload := if p.heartbeat then None else Some(Payload(p.state.EndsTurn(), 0));
      && after.sequence == Max(before.sequence, answer.sequence)
      && after.flags == FlagsAfter(before.flags, p, answer, GetsThrough(deliveries))
      && attempts == (if answer.duplicate then 0 else AttemptsMade(deliveries))
      && after.rows == AfterPublishing(before.rows, key, base, payload, GetsThrough(deliveries))
      && key in after.rows && after.rows[key].sequence == answer.sequence
      && (after.rows[key].status == Accepted <==> answer.duplicate || GetsThrough(deliveries))
  }

  /** Nothing is learnt from an attempt that was not made. */
  function Learnt(deliveries: nat -> Delivery, attempts: nat): Delivery {
    if attempts == 0 then Refused else Answered(deliveries)
  }

  class Publisher {
    const store: PublicationStore
    const activityId: string
    const sequenceBase: int
    var sequence: int
    var flags: Flags
    var leaseCapable: Option<bool>
    var lease: Lease
    ghost var done: seq<LeaseEvent>  // every renewal sent and every reported lease adopted, in order

    ghost predicate Valid()
      reads this
    {
      sequenceBase <= sequence && Sound(lease, done)
    }

    constructor (store: PublicationStore, activityId: string, sequenceBase: int)
      ensures Valid() && this.store == store && this.activityId == activityId && this.sequenceBase == sequenceBase
      ensures LocalState() == NEWCOMER && flags == Flags("", None, false, false) && done == []
    {
      this.store, this.activityId, this.sequenceBase := store, activityId, sequenceBase;
      sequence := sequenceBase;
      flags := Flags("", None, false, false);
      leaseCapable, lease, done := None, FRESH, [];
      new;
      NothingIsSound();
    }

    function LocalState(): Local
      reads this
    {
      Local(lease, leaseCapable, flags.terminal)
    }

    ghost function CurrentBook(): Book
      reads this, store
    {
      Book(store.rows, flags, sequence)
    }

    /** However its calls went, the publisher never renews at or below a lease adopted before in that epoch. */
    lemma RenewsAboveAdopted()
      requires Valid() && NoReturn(EpochsOf(AdoptsOf(done)))
      ensures Rises(done)
    {
      SoundRises(lease, done);
    }

    method AdoptLease(row: Option<Lease>)
      requires Valid()
      modifies this`lease, this`done
      ensures Valid() && lease == Adopt(old(lease), row) && done == old(done) + Learns(row)
    {
      hide Sound;
      LearningIsSound(lease, done, row);
      done := done + Learns(row);
      if row.None? || !IsSafe(row.value) { return; }
      if row.value.epoch != lease.epoch {
        lease := row.value;
      } else {
        lease := Lease(lease.epoch, Max(lease.sequence, row.value.sequence));
      }
    }

    /** Tries Tower until an attempt arrives, twice at most, and learns what its answer says about the lease. */
    method Deliver(deliveries: nat -> Delivery) returns (delivered: bool, attempts: nat)
      requires Valid()
      modifies this`leaseCapable, this`lease, this`done
      ensures Valid()
      ensures delivered == GetsThrough(deliveries) && attempts == AttemptsMade(deliveries)
      ensures LearnsFrom(old(LocalState()), Answered(deliveries), LocalState())
      ensures done == old(done) + Learns(Answered(deliveries).Row())
    {
      hide Sound;
      delivered, attempts := false, 0;
      while attempts < PUBLISH_ATTEMPTS && !delivered
        invariant attempts <= PUBLISH_ATTEMPTS && Valid()
        invariant attempts >= 1 ==> delivered == Arrives(deliveries(attempts - 1))
        invariant attempts == 0 ==> !delivered
        invariant attempts == 2 ==> !Arrives(deliveries(0))
        invariant if delivered then LearnsFrom(old(LocalState()), deliveries(attempts - 1), LocalState())
                  else LocalState() == old(LocalState())
        invariant done == if delivered then old(done) + Learns(deliveries(attempts - 1).Row()) else old(done)
      {
        var answered := deliveries(attempts);
        attempts := attempts + 1;
        if answered.Taken? {
          delivered := true;
          if answered.activity.Some? {
            var activity := answered.activity.value;
            if activity.contractVersion == Some(2) { leaseCapable := Some(true); }
            else if activity.contractVersion.None? && leaseCapable.None? { leaseCapable := Some(false); }
            AdoptLease(activity.lease);
          }
        } else if answered.Converged? {
          delivered := true;
        }
      }
    }

    /** Claims the event's outbox row, then tries Tower twice at most. */
    method PublishNow(p: Publication, heartbeatTag: string, deliveries: nat -> Delivery) returns (attempts: nat)
      requires Valid()
      modifies this`sequence, this`flags, this`leaseCapable, this`lease, this`done, store
      ensures Valid()
      ensures Booked(old(CurrentBook()), CurrentBook(), activityId, sequenceBase,
                     p, heartbeatTag, deliveries, attempts)
      ensures LearnsFrom(old(LocalState()), Learnt(deliveries, attempts), LocalState())
      ensures done == old(done) + Learns(Learnt(deliveries, attempts).Row())
    {
      hide Sound;
      attempts := 0;
      var hasPending := store.HasPending(activityId);
      if Withheld(flags, p, hasPending) { return; }
      var key := Key(activityId, EventKey(p, heartbeatTag));
      var answer := store.Claim(key, sequenceBase, if p.heartbeat then None else Some(Payload(p.state.EndsTurn(), 0)));
      sequence := Max(sequence, answer.sequence);
      if answer.duplicate {
        flags := FlagsAfter(flags, p, answer, false);
        return;
      }
      var delivered;
      delivered, attempts := Deliver(deliveries);
      if !delivered {
        store.MarkFailed(key);
        return;
      }
      store.MarkAccepted(key);
      flags := FlagsAfter(flags, p, answer, true);
    }

    method LeaseCall(request: Request, replies: nat -> Reply, i: nat) returns (reply: Option<Reply>, log: seq<Exchange>)
      ensures (reply, log) == Call(request, replies, i)
      ensures reply.Some? ==> reply.value.Reply?
      ensures 1 <= |log| <= CALL_ATTEMPTS && forall e <- log :: e.request == request
    {
      log := [];
      var attempt := 0;
      while attempt < CALL_ATTEMPTS
        invariant attempt == |log| <= CALL_ATTEMPTS
        invariant attempt >= 1 ==>
                    log[0] == Exchange(request, replies(i)) && !(replies(i).Reply? && replies(i).status < 500)
        invariant attempt == 2 ==> log[1] == Exchange(request, replies(i + 1)) && replies(i + 1).Lost?
      {
        var r := replies(i + attempt);
        log := log + [Exchange(request, r)];
        assert log == if attempt == 0 then [Exchange(request, r)]
                      else [Exchange(request, replies(i)), Exchange(request, r)];
        if r.Reply? && !(r.status >= 500 && attempt == 0) { return Some(r), log; }
        attempt := attempt + 1;
      }
      assert log == [Exchange(request, replies(i)), Exchange(request, replies(i + 1))];
      reply := None;
    }

    /** Asks for a challenge and resumes with it. */
    method ResumeLease(replies: nat -> Reply, clock: nat -> int, i: nat) returns (outcome: Outcome, log: seq<Exchange>)
      requires Valid()
      modifies this`lease, this`done
      ensures Valid() && done == old(done) + ResumeTrace(replies, clock, i)
      ensures Beat(LocalState(), outcome, log) == old(AfterExpiry(LocalState(), replies, clock, i))
      ensures forall e <- log :: !e.request.Renew?
    {
      hide Sound, Learns, Call;
      var issued, asked := LeaseCall(Challenge, replies, i);
      if issued.None? || issued.value.status != 200 || issued.value.nextEpoch.None? {
        return if issued.Some? && issued.value.code == Terminal then Ended else NotRenewed, asked;
      }
      var j := i + |asked|;
      var resumed, more := LeaseCall(Resume(Lease(issued.value.nextEpoch.value, clock(j))), replies, j);
      log := asked + more;
      if resumed.None? || resumed.value.status != 200 { return NotRenewed, log; }
      AdoptLease(resumed.value.row);
      outcome := Resumed;
    }

    /** Takes in the answer to a renewal. */
    method JudgeReply(reply: Option<Reply>) returns (verdict: Verdict)
      requires Valid()
      modifies this`flags, this`leaseCapable, this`lease, this`done
      ensures Valid() && done == old(done) + Learns(RowOf(reply))
      ensures (LocalState(), verdict) == old(Judge(LocalState(), reply))
      ensures flags == old(flags).(terminal := flags.terminal)
    {
      hide Sound;
      if reply.None? || reply.value.Lost? { return Stop(NotRenewed); }
      var r := reply.value;
      if r.status == 200 {
        leaseCapable := Some(true);
        AdoptLease(r.row);
        return Stop(Renewed);
      }
      if r.status == 404 && r.code == NoCode {
        leaseCapable := Some(false);
        return Stop(Legacy);
      }
      if r.status == 404 { return Stop(Missing); }
      if r.status == 401 || r.status == 403 { return Stop(Revoked); }
      leaseCapable := Some(true);
      match r.code {
        case Terminal =>
          flags := flags.(terminal := true);
          verdict := Stop(Ended);
        case StaleEpoch | StaleSequence =>
          AdoptLease(r.row);
          verdict := Again;
        case TooOld => verdict := Again;
        case Expired => verdict := AskResume;
        case _ => verdict := Stop(NotRenewed);
      }
    }

    /** One renewal and what its answer asks for. */
    method RunRound(replies: nat -> Reply, clock: nat -> int, i: nat)
      returns (outcome: Option<Outcome>, log: seq<Exchange>)
      requires Valid()
      modifies this`flags, this`leaseCapable, this`lease, this`done
      ensures Valid() && done == old(done) + old(RoundTrace(LocalState(), replies, clock, i))
      ensures Round(LocalState(), outcome, log) == old(OneRound(LocalState(), replies, clock, i))
      ensures flags == old(flags).(terminal := flags.terminal)
    {
      hide Judge, Call, AfterExpiry, RenewalOf, Sound, Sent, Renewals, Learns, RowOf, ResumeTrace;
      var reply;
      reply, log := LeaseCall(RenewalOf(lease, clock(i)), replies, i);
      RenewingIsSound(lease, done, clock(i), log);
      done := done + Sent(Renewals(log));
      var verdict := JudgeReply(reply);
      match verdict {
        case Stop(end) => outcome := Some(end);
        case Again => outcome := None;
        case AskResume =>
          var end, more := ResumeLease(replies, clock, i + |log|);
          outcome, log := Some(end), log + more;
      }
    }

    /** Renews until a round ends the beat, or the rounds are used up. */
    method RunRounds(replies: nat -> Reply, clock: nat -> int, rounds: nat)
      returns (outcome: Outcome, log: seq<Exchange>)
      requires Valid()
      modifies this`flags, this`leaseCapable, this`lease, this`done
      ensures Valid() && done == old(done) + old(RoundsTrace(LocalState(), replies, clock, 0, rounds))
      ensures Beat(LocalState(), outcome, log) == old(Rounds(LocalState(), replies, clock, 0, rounds))
      ensures flags == old(flags).(terminal := flags.terminal)
    {
      hide Sound, OneRound, RoundTrace, Remaining, Rounds;
      log := [];
      ghost var whole := Rounds(LocalState(), replies, clock, 0, rounds);
      ghost var trace := done + RoundsTrace(LocalState(), replies, clock, 0, rounds);
      var round := 0;
      StartRounds(LocalState(), replies, clock, rounds);
      while round < rounds
        invariant round <= rounds && Valid()
        invariant flags == old(flags).(terminal := flags.terminal)
        invariant Remaining(whole, log, LocalState(), replies, clock, rounds - round)
        invariant trace == done + RoundsTrace(LocalState(), replies, clock, |log|, rounds - round)
      {
        ghost var here := LocalState();
        AdvanceTrace(done, here, replies, clock, |log|, rounds - round);
        var stop, exchange := RunRound(replies, clock, |log|);
        AdvanceRounds(whole, log, here, replies, clock, rounds - round, Round(LocalState(), stop, exchange));
        log := log + exchange;
        if stop.Some? { return stop.value, log; }
        round := round + 1;
      }
      outcome := NotRenewed;
      EndRounds(whole, log, LocalState(), replies, clock);
    }

    /** The lease requests of one heartbeat. */
    method RunBeat(replies: nat -> Reply, clock: nat -> int) returns (outcome: Outcome, log: seq<Exchange>)
      requires Valid()
      modifies this`flags, this`leaseCapable, this`lease, this`done
      ensures Valid() && done == old(done) + old(BeatTrace(LocalState(), replies, clock))
      ensures Beat(LocalState(), outcome, log) == old(BeatOnce(LocalState(), replies, clock))
      ensures |log| <= MAX_REQUESTS
      ensures flags == old(flags).(terminal := flags.terminal)
    {
      hide Sound, Rounds, RoundsTrace;
      BeatIsShort(LocalState(), replies, clock);
      if flags.terminal { return Ended, []; }
      if leaseCapable == Some(false) { return Legacy, []; }
      outcome, log := RunRounds(replies, clock, RENEW_ROUNDS);
    }

    /** One heartbeat; where Tower has no lease route an ordinary heartbeat row is published instead. */
    method Heartbeat(state: ActivityState, heartbeatTag: string, replies: nat -> Reply, clock: nat -> int,
          deliveries: nat -> Delivery)
      returns (outcome: Outcome, log: seq<Exchange>, attempts: nat)
      requires Valid()
      modifies this`sequence, this`flags, this`leaseCapable, this`lease, this`done, store
      ensures Valid()
      ensures var beat := old(BeatOnce(LocalState(), replies, clock));
              && outcome == beat.outcome && log == beat.log
              && LearnsFrom(beat.local, Learnt(deliveries, attempts), LocalState())
              && done == old(done) + old(BeatTrace(LocalState(), replies, clock)) +
                         Learns(Learnt(deliveries, attempts).Row())
      ensures outcome == Legacy ==>
                Booked(old(CurrentBook()), CurrentBook(), activityId, sequenceBase,
                       Publication(state, None, None, true), heartbeatTag, deliveries, attempts)
      ensures outcome != Legacy ==>
                attempts == 0 && store.rows == old(store.rows) && sequence == old(sequence)
                && LocalState() == old(BeatOnce(LocalState(), replies, clock)).local
    {
      hide Sound, BeatOnce, BeatTrace, Booked;
      attempts := 0;
      LegacyKeepsTerminal(LocalState(), replies, clock);
      outcome, log := RunBeat(replies, clock);
      if outcome == Legacy {
        attempts := PublishNow(Publication(state, None, None, true), heartbeatTag, deliveries);
      }
    }
  }

  // ----- one publish is a path through the protocol's steps -----

  /** PublishNow, taken as a whole, does what some interleaving of one worker with Tower does. */
  lemma PublishNowIsAPath(s: State, keys: Keys, w: nat, key: Key, base: int, payload: Option<Payload>,
        terminal: bool, through: bool)
    returns (last: State)
    requires keys.claimable(key.event) && w !in s.workers
    requires payload.Some? ==> payload.value.terminal == terminal
    ensures Leads(s, last, Steps(keys)) && last.workers == s.workers
    ensures last.table == AfterPublishing(s.table, key, base, payload, through)
  {
    hide Leads, Latest, AfterClaim, AfterAccept, AfterFail, Raise;
    var answer := ClaimAnswer(s.table, key, base);
    var m := Message(key.activity, answer.sequence, terminal);
    var table := AfterClaim(s.table, key, base, payload);
    Begins(s, Steps(keys));
    if answer.duplicate {
      last := s;
      return;
    }
    var worker := Publisher(key, answer.sequence, m, PUBLISH_ATTEMPTS);
    var s1 := s.(table := table, workers := s.workers[w := worker]);
    GoesOn(s, s, Claims(w, key, base, payload, terminal), s1, Steps(keys));
    assert s1.workers - {w} == s.workers;
    if !through {
      last := s1.(table := AfterFail(table, key), workers := s.workers);
      GoesOn(s, s1, GivesUp(w, 0), last, Steps(keys));
      return;
    }
    var s2 := s1.(sent := s1.sent + {m}, workers := s1.workers[w := worker.(attemptsLeft := 1)]);
    GoesOn(s, s1, Sends(w), s2, Steps(keys));
    var s3 := s2.(tower := Raise(s2.tower, m), answers := s2.answers + {m});
    GoesOn(s, s2, Handles(m), s3, Steps(keys));
    assert s3.workers - {w} == s.workers;
    last := s3.(table := AfterAccept(table, key), workers := s.workers);
    GoesOn(s, s3, Converges(w), last, Steps(keys));
  }
}

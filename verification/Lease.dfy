/**
 The heartbeat's lease protocol: renew, adopt what Tower reports when stale, and after
 expiry ask for a challenge and resume.

 The functions say what one beat does against any sequence of replies; the publisher
 class runs the same rounds as a loop.
 */
module Lease {
  import opened Wrappers

  const MAX_SAFE: int := 0x1F_FFFF_FFFF_FFFF

  const RENEW_ROUNDS: nat := 3
  const CALL_ATTEMPTS: nat := 2
  const MAX_REQUESTS: nat := 10

  datatype Lease = Lease(epoch: int, sequence: int)

  datatype Code = NoCode | Terminal | StaleEpoch | StaleSequence | TooOld | Expired | OtherCode

  /** `row` is the lease Tower reports, when it is a pair of numbers; `nextEpoch` a usable resume challenge. */
  datatype Reply =
    | Lost
    | Reply(status: int, code: Code, row: Option<Lease>, nextEpoch: Option<int>)

  datatype Request =
    | Renew(lease: Lease)
    | Challenge
    | Resume(lease: Lease)

  datatype Exchange = Exchange(request: Request, reply: Reply)

  datatype Outcome = Renewed | Resumed | Legacy | Ended | Revoked | Missing | NotRenewed

  /** The lease fields of a publisher; `capable` is unknown until Tower has answered. */
  datatype Local = Local(lease: Lease, capable: Option<bool>, terminal: bool)

  datatype Beat = Beat(local: Local, outcome: Outcome, log: seq<Exchange>)

  function Max(a: int, b: int): int { if a < b then b else a }

  predicate IsSafe(row: Lease) {
    1 <= row.epoch <= MAX_SAFE && 0 <= row.sequence <= MAX_SAFE
  }

  function Adopt(lease: Lease, row: Option<Lease>): Lease {
    if row.None? || !IsSafe(row.value) then lease
    else if row.value.epoch != lease.epoch then row.value
    else Lease(lease.epoch, Max(lease.sequence, row.value.sequence))
  }

  /** A reported lease counts when both its numbers are safe; within an epoch the greater sequence stays. */
  lemma AdoptExactly(lease: Lease, row: Option<Lease>)
    ensures Adopt(lease, row) ==
            match row
            case None => lease
            case Some(Lease(epoch, sequence)) =>
              if !(1 <= epoch <= 9_007_199_254_740_991 && 0 <= sequence <= 9_007_199_254_740_991) then lease
              else if epoch == lease.epoch && sequence <= lease.sequence then lease
              else Lease(epoch, sequence)
  {
    assert MAX_SAFE == 9_007_199_254_740_991;
  }

  /** One attempt plus one retry after no reply or a server error; None when the call is dropped. */
  function Call(request: Request, replies: nat -> Reply, i: nat): (r: (Option<Reply>, seq<Exchange>)) {
    var first, second := replies(i), replies(i + 1);
    if first.Reply? && first.status < 500 then (Some(first), [Exchange(request, first)])
    else (if second.Lost? then None else Some(second), [Exchange(request, first), Exchange(request, second)])
  }

  function RenewalOf(lease: Lease, now: int): Request {
    Renew(Lease(lease.epoch, Max(lease.sequence + 1, now)))
  }

  /** What the answer to a renewal leads to. */
  datatype Verdict = Stop(outcome: Outcome) | Again | AskResume

  function Judge(local: Local, reply: Option<Reply>): (r: (Local, Verdict)) {
    if reply.None? || reply.value.Lost? then (local, Stop(NotRenewed)) else
      var Reply(status, code, row, _) := reply.value;
      var able := local.(capable := Some(true));
      if status == 200 then (able.(lease := Adopt(local.lease, row)), Stop(Renewed))
      else if status == 404 then
        if code == NoCode then (local.(capable := Some(false)), Stop(Legacy)) else (local, Stop(Missing))
      else if status == 401 || status == 403 then (local, Stop(Revoked))
      else match code {
        case Terminal => (able.(terminal := true), Stop(Ended))
        case StaleEpoch | StaleSequence => (able.(lease := Adopt(local.lease, row)), Again)
        case TooOld => (able, Again)
        case Expired => (able, AskResume)
        case _ => (able, Stop(NotRenewed))
      }
  }

  /** One round of a beat; without an outcome the beat goes on to its next round. */
  datatype Round = Round(local: Local, outcome: Option<Outcome>, log: seq<Exchange>)

  /** Replies are read from index `i`, the clock at each request. */
  function OneRound(local: Local, replies: nat -> Reply, clock: nat -> int, i: nat): (round: Round)
    ensures round.log != []
  {
    var (reply, log) := Call(RenewalOf(local.lease, clock(i)), replies, i);
    var (judged, verdict) := Judge(local, reply);
    match verdict
    case Stop(outcome) => Round(judged, Some(outcome), log)
    case Again => Round(judged, None, log)
    case AskResume =>
      var rest := AfterExpiry(judged, replies, clock, i + |log|);
      Round(rest.local, Some(rest.outcome), log + rest.log)
  }

  /** The remaining rounds of a beat. */
  function Rounds(local: Local, replies: nat -> Reply, clock: nat -> int, i: nat, left: nat): (beat: Beat)
    decreases left
  {
    if left == 0 then Beat(local, NotRenewed, []) else
      var round := OneRound(local, replies, clock, i);
      if round.outcome.Some? then Beat(round.local, round.outcome.value, round.log) else
        var rest := Rounds(round.local, replies, clock, i + |round.log|, left - 1);
        rest.(log := round.log + rest.log)
  }

  function AfterExpiry(local: Local, replies: nat -> Reply, clock: nat -> int, i: nat): (beat: Beat) {
    var (issued, log) := Call(Challenge, replies, i);
    if issued.None? || issued.value.status != 200 || issued.value.nextEpoch.None? then
      Beat(local, if issued.Some? && issued.value.code == Terminal then Ended else NotRenewed, log)
    else
      var j := i + |log|;
      var (resumed, more) := Call(Resume(Lease(issued.value.nextEpoch.value, clock(j))), replies, j);
      if resumed.None? || resumed.value.status != 200 then Beat(local, NotRenewed, log + more)
      else Beat(local.(lease := Adopt(local.lease, resumed.value.row)), Resumed, log + more)
  }

  /** `whole` is what was logged so far, followed by what `left` more rounds do. */
  ghost predicate Remaining(whole: Beat, sofar: seq<Exchange>, local: Local, replies: nat -> Reply,
        clock: nat -> int, left: nat) {
    var rest := Rounds(local, replies, clock, |sofar|, left);
    whole == rest.(log := sofar + rest.log)
  }

  lemma StartRounds(local: Local, replies: nat -> Reply, clock: nat -> int, rounds: nat)
    ensures Remaining(Rounds(local, replies, clock, 0, rounds), [], local, replies, clock, rounds)
  {
  }

  lemma NextRound(whole: Beat, sofar: seq<Exchange>, local: Local, replies: nat -> Reply, clock: nat -> int, left: nat)
    requires left > 0 && Remaining(whole, sofar, local, replies, clock, left)
    requires OneRound(local, replies, clock, |sofar|).outcome.None?
    ensures var round := OneRound(local, replies, clock, |sofar|);
            Remaining(whole, sofar + round.log, round.local, replies, clock, left - 1)
  {
    var round := OneRound(local, replies, clock, |sofar|);
    var rest := Rounds(round.local, replies, clock, |sofar| + |round.log|, left - 1);
    hide OneRound;
    assert sofar + (round.log + rest.log) == (sofar + round.log) + rest.log;
  }

  lemma LastRound(whole: Beat, sofar: seq<Exchange>, local: Local, replies: nat -> Reply, clock: nat -> int, left: nat)
    requires left > 0 && Remaining(whole, sofar, local, replies, clock, left)
    requires OneRound(local, replies, clock, |sofar|).outcome.Some?
    ensures var round := OneRound(local, replies, clock, |sofar|);
            whole == Beat(round.local, round.outcome.value, sofar + round.log)
  {
  }

  lemma AdvanceRounds(whole: Beat, sofar: seq<Exchange>, local: Local, replies: nat -> Reply, clock: nat -> int,
        left: nat, round: Round)
    requires left > 0 && Remaining(whole, sofar, local, replies, clock, left)
    requires round == OneRound(local, replies, clock, |sofar|)
    ensures if round.outcome.Some? then whole == Beat(round.local, round.outcome.value, sofar + round.log)
            else Remaining(whole, sofar + round.log, round.local, replies, clock, left - 1)
  {
    if round.outcome.Some? {
      LastRound(whole, sofar, local, replies, clock, left);
    } else {
      NextRound(whole, sofar, local, replies, clock, left);
    }
  }

  lemma EndRounds(whole: Beat, sofar: seq<Exchange>, local: Local, replies: nat -> Reply, clock: nat -> int)
    requires Remaining(whole, sofar, local, replies, clock, 0)
    ensures whole == Beat(local, NotRenewed, sofar)
  {
  }

  function BeatOnce(local: Local, replies: nat -> Reply, clock: nat -> int): Beat {
    if local.terminal then Beat(local, Ended, [])
    else if local.capable == Some(false) then Beat(local, Legacy, [])
    else Rounds(local, replies, clock, 0, RENEW_ROUNDS)
  }

  lemma RoundKeepsTerminal(local: Local, replies: nat -> Reply, clock: nat -> int, i: nat)
    ensures var round := OneRound(local, replies, clock, i);
            round.outcome != Some(Ended) ==> round.local.terminal == local.terminal
  {
    hide Call, RenewalOf, Adopt;
  }

  lemma {:induction false} RoundsKeepTerminal(local: Local, replies: nat -> Reply, clock: nat -> int, i: nat, left: nat)
    ensures var beat := Rounds(local, replies, clock, i, left);
            beat.outcome != Ended ==> beat.local.terminal == local.terminal
    decreases left
  {
    if left > 0 {
      var round := OneRound(local, replies, clock, i);
      RoundKeepsTerminal(local, replies, clock, i);
      hide OneRound;
      RoundsKeepTerminal(round.local, replies, clock, i + |round.log|, left - 1);
    }
  }

  /** Only a beat that ends the turn makes a publisher terminal. */
  lemma LegacyKeepsTerminal(local: Local, replies: nat -> Reply, clock: nat -> int)
    ensures BeatOnce(local, replies, clock).outcome == Legacy ==>
              BeatOnce(local, replies, clock).local.terminal == local.terminal
  {
    RoundsKeepTerminal(local, replies, clock, 0, RENEW_ROUNDS);
  }

  // ----- every beat is short -----

  lemma RoundIsShort(local: Local, replies: nat -> Reply, clock: nat -> int, i: nat)
    ensures var round := OneRound(local, replies, clock, i);
            |round.log| <= if round.outcome.Some? then CALL_ATTEMPTS + 4 else CALL_ATTEMPTS
  {
    hide Judge, RenewalOf, Adopt;
  }

  lemma {:induction false} RoundsAreShort(local: Local, replies: nat -> Reply, clock: nat -> int, i: nat, left: nat)
    ensures |Rounds(local, replies, clock, i, left).log| <= if left == 0 then 0 else CALL_ATTEMPTS * left + 4
    decreases left
  {
    if left > 0 {
      var round := OneRound(local, replies, clock, i);
      RoundIsShort(local, replies, clock, i);
      hide OneRound;
      RoundsAreShort(round.local, replies, clock, i + |round.log|, left - 1);
    }
  }

  /** Whatever Tower answers or loses, a beat sends at most ten lease requests. */
  lemma BeatIsShort(local: Local, replies: nat -> Reply, clock: nat -> int)
    ensures |BeatOnce(local, replies, clock).log| <= MAX_REQUESTS
  {
    RoundsAreShort(local, replies, clock, 0, RENEW_ROUNDS);
  }

  /** Every first attempt is lost; the second ones find two renewals too old and the third expired. */
  function LateReply(i: nat): Reply {
    if i % 2 == 0 then Lost
    else if i < 5 then Reply(409, TooOld, None, None)
    else if i == 5 then Reply(409, Expired, None, None)
    else Reply(200, NoCode, None, Some(2))
  }

  function StillClock(i: nat): int { 0 }

  const HOLDER := Local(Lease(1, 0), Some(true), false)

  lemma LateRound(i: nat)
    requires i % 2 == 0 && i < 4
    ensures var round := OneRound(HOLDER, LateReply, StillClock, i);
            round.local == HOLDER && round.outcome == None && |round.log| == 2
  {
  }

  lemma LateResume(i: nat)
    requires i % 2 == 0 && i > 5
    ensures |AfterExpiry(HOLDER, LateReply, StillClock, i).log| == 4
  {
  }

  lemma ExpiredRound(i: nat)
    requires i % 2 == 0 && 4 <= i < 6
    ensures var round := OneRound(HOLDER, LateReply, StillClock, i);
            round.outcome.Some? && |round.log| == 6
  {
    LateResume(i + 2);
    hide AfterExpiry;
  }

  lemma {:induction false} LateRounds(i: nat, left: nat)
    requires left > 0 && i + 2 * left == 6
    ensures |Rounds(HOLDER, LateReply, StillClock, i, left).log| == 2 * left + 4
    decreases left
  {
    hide OneRound;
    if left == 1 {
      ExpiredRound(i);
    } else {
      LateRound(i);
      LateRounds(i + 2, left - 1);
    }
  }

  /** Ten requests do happen: three dropped-then-stale renewals ending in expiry, then a slow resume. */
  lemma TenRequestsReached()
    ensures exists local, replies: nat -> Reply, clock: nat -> int ::
              |BeatOnce(local, replies, clock).log| == MAX_REQUESTS
  {
    hide OneRound, Rounds;
    LateRounds(0, RENEW_ROUNDS);
    assert |BeatOnce(HOLDER, LateReply, StillClock).log| == MAX_REQUESTS;
  }

  // ----- adoptions -----

  /** The lease after adopting, in order, everything Tower reported. */
  function AdoptAll(start: Lease, rows: seq<Lease>): Lease {
    if rows == [] then start else Adopt(AdoptAll(start, rows[..|rows| - 1]), Some(rows[|rows| - 1]))
  }

  // ----- against Tower's own rules -----

  predicate Above(sent: Lease, tower: Lease) {
    sent.epoch == tower.epoch && sent.sequence > tower.sequence
  }

  /** Tower's lease row under one renewal, when the lease is live. */
  function TowerRenews(tower: Lease, sent: Lease): (Lease, Reply) {
    if sent.epoch != tower.epoch then (tower, Reply(409, StaleEpoch, Some(tower), None))
    else if sent.sequence <= tower.sequence then (tower, Reply(409, StaleSequence, Some(tower), None))
    else (sent, Reply(200, NoCode, Some(sent), None))
  }

  const TOO_OLD: Reply := Reply(409, TooOld, None, None)

  /** Every request reached Tower, nobody else renews, and each reply arrived; Tower may find a beat too old. */
  ghost predicate Served(tower: Lease, log: seq<Exchange>)
    decreases |log|
  {
    log == [] ||
    (log[0].request.Renew? &&
     var (tower', reply) := TowerRenews(tower, log[0].request.lease);
     if log[0].reply == TOO_OLD then Served(tower, log[1..])
     else log[0].reply == reply && Served(tower', log[1..]))
  }

  predicate IsStale(e: Exchange) {
    e.reply.Reply? && (e.reply.code == StaleEpoch || e.reply.code == StaleSequence)
  }

  function StaleCount(log: seq<Exchange>): nat {
    if log == [] then 0 else (if IsStale(log[0]) then 1 else 0) + StaleCount(log[1..])
  }

  predicate Synced(lease: Lease, tower: Lease) {
    lease.epoch == tower.epoch && tower.sequence <= lease.sequence
  }

  lemma ServedHead(tower: Lease, local: Local, replies: nat -> Reply, clock: nat -> int, i: nat, left: nat)
    requires left > 0 && Served(tower, Rounds(local, replies, clock, i, left).log)
    ensures var request := RenewalOf(local.lease, clock(i));
            && Call(request, replies, i) == (Some(replies(i)), [Exchange(request, replies(i))])
            && (replies(i) == TOO_OLD || replies(i) == TowerRenews(tower, request.lease).1)
  {
    var request := RenewalOf(local.lease, clock(i));
    var log := Rounds(local, replies, clock, i, left).log;
    assert log[0] == Exchange(request, replies(i));
  }

  /** A round Tower serves: it renews, or leaves Tower alone and, if stale, the publisher in step with it. */
  ghost predicate ServedOnce(tower: Lease, local: Local, now: int, round: Round) {
    && |round.log| == 1
    && round.log[0].request == RenewalOf(local.lease, now)
    && match round.outcome {
      case Some(outcome) =>
        outcome == Renewed && Above(RenewalOf(local.lease, now).lease, tower) && !IsStale(round.log[0])
      case None =>
        if IsStale(round.log[0]) then Synced(round.local.lease, tower) && !Synced(local.lease, tower)
        else round.log[0].reply == TOO_OLD && round.local.lease == local.lease
    }
  }

  lemma RoundIsServed(tower: Lease, local: Local, replies: nat -> Reply, clock: nat -> int, i: nat)
    requires IsSafe(tower)
    requires var request := RenewalOf(local.lease, clock(i));
             && Call(request, replies, i) == (Some(replies(i)), [Exchange(request, replies(i))])
             && (replies(i) == TOO_OLD || replies(i) == TowerRenews(tower, request.lease).1)
    ensures ServedOnce(tower, local, clock(i), OneRound(local, replies, clock, i))
  {
    hide Call, AfterExpiry;
  }

  lemma ServedRound(tower: Lease, local: Local, replies: nat -> Reply, clock: nat -> int, i: nat, left: nat,
        log: seq<Exchange>)
    requires left > 0 && log == Rounds(local, replies, clock, i, left).log
    requires IsSafe(tower) && Served(tower, log)
    ensures var round := OneRound(local, replies, clock, i);
            && ServedOnce(tower, local, clock(i), round)
            && log != [] && log[0] == round.log[0]
            && (round.outcome.Some? ==> log == round.log)
            && (round.outcome.None? ==>
                  log[1..] == Rounds(round.local, replies, clock, i + 1, left - 1).log && Served(tower, log[1..]))
  {
    ServedHead(tower, local, replies, clock, i, left);
    var round := OneRound(local, replies, clock, i);
    RoundIsServed(tower, local, replies, clock, i);
    assert round.log[0].reply == replies(i);
    hide OneRound, Call, RenewalOf, Adopt, Judge;
    if round.outcome.None? {
      assert log[1..] == Rounds(round.local, replies, clock, i + 1, left - 1).log;
    }
  }

  /** Once a stale answer has been adopted, no later answer of the beat is stale. */
  lemma {:induction false} AtMostOneStale(tower: Lease, local: Local, replies: nat -> Reply, clock: nat -> int,
        i: nat, left: nat, log: seq<Exchange>)
    requires log == Rounds(local, replies, clock, i, left).log
    requires IsSafe(tower) && Served(tower, log)
    ensures StaleCount(log) <= if Synced(local.lease, tower) then 0 else 1
    decreases left
  {
    if left > 0 {
      ServedRound(tower, local, replies, clock, i, left, log);
      var round := OneRound(local, replies, clock, i);
      hide OneRound, Rounds, RenewalOf, Served;
      if round.outcome.None? {
        AtMostOneStale(tower, round.local, replies, clock, i + 1, left - 1, log[1..]);
      }
    }
  }

  /** A beat meets at most one stale answer, so the round after it is never stale. */
  lemma NoStaleAfterStale(tower: Lease, local: Local, replies: nat -> Reply, clock: nat -> int)
    requires IsSafe(tower) && Served(tower, BeatOnce(local, replies, clock).log)
    ensures StaleCount(BeatOnce(local, replies, clock).log) <= 1
  {
    if !local.terminal && local.capable != Some(false) {
      AtMostOneStale(tower, local, replies, clock, 0, RENEW_ROUNDS, BeatOnce(local, replies, clock).log);
    }
  }

  ghost predicate RenewsInTwo(tower: Lease, beat: Beat) {
    && beat.outcome == Renewed && 1 <= |beat.log| <= 2
    && var last := beat.log[|beat.log| - 1].request;
    last.Renew? && Above(last.lease, tower)
  }

  lemma RoundsRenewInTwo(tower: Lease, local: Local, replies: nat -> Reply, clock: nat -> int, left: nat, beat: Beat)
    requires left >= 2 && beat == Rounds(local, replies, clock, 0, left)
    requires IsSafe(tower) && Served(tower, beat.log) && forall e <- beat.log :: e.reply != TOO_OLD
    ensures RenewsInTwo(tower, beat)
  {
    ServedRound(tower, local, replies, clock, 0, left, beat.log);
    var round := OneRound(local, replies, clock, 0);
    hide OneRound, RenewalOf, Served, TowerRenews;
    if round.outcome.None? {
      assert beat.log[0] in beat.log;
      ServedRound(tower, round.local, replies, clock, 1, left - 1, beat.log[1..]);
      var second := OneRound(round.local, replies, clock, 1);
      assert beat.log[1] in beat.log;
      assert second.outcome.Some?;
      assert beat.log == [beat.log[0]] + second.log;
    }
  }

  /** Against a reachable Tower with a live lease and no rival, two requests renew it from any local state. */
  lemma RenewedInTwo(tower: Lease, local: Local, replies: nat -> Reply, clock: nat -> int, beat: Beat)
    requires IsSafe(tower) && !local.terminal && local.capable != Some(false)
    requires beat == BeatOnce(local, replies, clock)
    requires Served(tower, beat.log) && forall e <- beat.log :: e.reply != TOO_OLD
    ensures RenewsInTwo(tower, beat)
  {
    RoundsRenewInTwo(tower, local, replies, clock, RENEW_ROUNDS, beat);
  }
}

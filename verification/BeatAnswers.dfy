/**
 A heartbeat told by its exchanges alone: what its last answer makes of it, and what the answers heard in it leave
 behind in the publisher.
 */
module BeatAnswers {
  import opened Lease
  import opened Wrappers

  // ----- what the last exchange says -----

  predicate IsAnswered(e: Exchange, status: int) {
    e.reply.Reply? && e.reply.status == status
  }

  /** The renewal is turned down for a reason that its code names. */
  predicate IsTurnedDown(e: Exchange, code: Code) {
    && e.request.Renew? && e.reply.Reply? && e.reply.status !in {200, 401, 403, 404}
    && e.reply.code == code
  }

  /** Tower says that the activity has ended. */
  predicate SaysEnded(e: Exchange) {
    IsTurnedDown(e, Terminal)
  }

  predicate SaysNoRoute(e: Exchange) {
    e.request.Renew? && IsAnswered(e, 404) && e.reply.code == NoCode
  }

  /** A beat whose last exchange is this one comes out like that. */
  predicate ComesTo(e: Exchange, outcome: Outcome) {
    match outcome
    case Renewed => e.request.Renew? && IsAnswered(e, 200)
    case Resumed => e.request.Resume? && IsAnswered(e, 200)
    case Legacy => SaysNoRoute(e)
    case Missing => e.request.Renew? && IsAnswered(e, 404) && !SaysNoRoute(e)
    case Revoked => e.request.Renew? && (IsAnswered(e, 401) || IsAnswered(e, 403))
    case Ended => SaysEnded(e) || (e.request.Challenge? && e.reply.Reply? && e.reply.code == Terminal)
    case NotRenewed =>
      && (e.request.Resume? ==> !IsAnswered(e, 200))
      && (e.request.Challenge? && e.reply.Reply? ==> e.reply.code != Terminal)
      && (e.request.Renew? && e.reply.Reply? ==>
            e.reply.status !in {200, 401, 403, 404} && e.reply.code != Terminal)
  }

  predicate LastIs(log: seq<Exchange>, outcome: Outcome) {
    log != [] && ComesTo(log[|log| - 1], outcome)
  }

  predicate LastEnds(log: seq<Exchange>) {
    log != [] && SaysEnded(log[|log| - 1])
  }

  lemma CallsLast(request: Request, replies: nat -> Reply, i: nat)
    ensures var (reply, log) := Call(request, replies, i);
            && log != [] && log[|log| - 1].request == request
            && (reply.Some? ==> reply.value.Reply? && log[|log| - 1].reply == reply.value)
            && (reply.None? ==> log[|log| - 1].reply.Lost?)
  {
  }

  lemma JudgedLast(local: Local, reply: Option<Reply>, e: Exchange)
    requires e.request.Renew? && (if reply.Some? then reply.value.Reply? && e.reply == reply.value else e.reply.Lost?)
    ensures var (judged, verdict) := Judge(local, reply);
            && (verdict.Stop? ==> ComesTo(e, verdict.outcome))
            && (!verdict.Stop? ==> ComesTo(e, NotRenewed))
            && (judged.terminal <==> local.terminal || SaysEnded(e))
  {
    hide Adopt;
  }

  lemma ResumeLast(local: Local, replies: nat -> Reply, clock: nat -> int, i: nat)
    ensures var rest := AfterExpiry(local, replies, clock, i);
            && rest.log != [] && !rest.log[|rest.log| - 1].request.Renew?
            && ComesTo(rest.log[|rest.log| - 1], rest.outcome) && rest.local.terminal == local.terminal
  {
    hide Call, Adopt;
    CallsLast(Challenge, replies, i);
    var (issued, log) := Call(Challenge, replies, i);
    if issued.Some? && issued.value.status == 200 && issued.value.nextEpoch.Some? {
      var request := Resume(Lease(issued.value.nextEpoch.value, clock(i + |log|)));
      CallsLast(request, replies, i + |log|);
      var more := Call(request, replies, i + |log|).1;
      assert AfterExpiry(local, replies, clock, i).log == log + more;
      assert (log + more)[|log + more| - 1] == more[|more| - 1];
    } else {
      assert AfterExpiry(local, replies, clock, i).log == log;
    }
  }

  lemma RoundLast(local: Local, replies: nat -> Reply, clock: nat -> int, i: nat)
    ensures var round := OneRound(local, replies, clock, i);
            && LastIs(round.log, if round.outcome.Some? then round.outcome.value else NotRenewed)
            && (round.local.terminal <==> local.terminal || LastEnds(round.log))
  {
    hide Call, Judge, AfterExpiry, ComesTo, SaysEnded, RenewalOf;
    CallsLast(RenewalOf(local.lease, clock(i)), replies, i);
    var (reply, log) := Call(RenewalOf(local.lease, clock(i)), replies, i);
    RenewalRenews(local.lease, clock(i));
    JudgedLast(local, reply, log[|log| - 1]);
    var (judged, verdict) := Judge(local, reply);
    if verdict.AskResume? {
      ResumeLast(judged, replies, clock, i + |log|);
      AskedIsNoEnd(local, reply, log[|log| - 1]);
      NoRenewalNoEnd(AfterExpiry(judged, replies, clock, i + |log|).log);
    }
  }

  lemma RenewalRenews(lease: Lease, now: int)
    ensures RenewalOf(lease, now).Renew?
  {
  }

  lemma AskedIsNoEnd(local: Local, reply: Option<Reply>, e: Exchange)
    requires Judge(local, reply).1.AskResume? && (reply.Some? ==> e.reply == reply.value)
    ensures !SaysEnded(e)
  {
  }

  lemma NoRenewalNoEnd(log: seq<Exchange>)
    requires log != [] && !log[|log| - 1].request.Renew?
    ensures !LastEnds(log)
  {
  }

  lemma NotRenewedNoEnd(log: seq<Exchange>)
    requires LastIs(log, NotRenewed)
    ensures !LastEnds(log)
  {
  }

  lemma {:induction false} RoundsLast(local: Local, replies: nat -> Reply, clock: nat -> int, i: nat, left: nat)
    requires left > 0
    ensures var beat := Rounds(local, replies, clock, i, left);
            LastIs(beat.log, beat.outcome) && (beat.local.terminal <==> local.terminal || LastEnds(beat.log))
    decreases left
  {
    hide OneRound, ComesTo, SaysEnded;
    RoundLast(local, replies, clock, i);
    var round := OneRound(local, replies, clock, i);
    if round.outcome.None? {
      NotRenewedNoEnd(round.log);
      if left == 1 {
        assert Rounds(round.local, replies, clock, i + |round.log|, 0) == Beat(round.local, NotRenewed, []);
        assert round.log + [] == round.log;
      } else {
        RoundsLast(round.local, replies, clock, i + |round.log|, left - 1);
      }
    }
  }

  /**
   * A heartbeat comes out as its last exchange says; one that sends nothing found the activity ended, or had learnt
   * that Tower has no lease route.
   */
  lemma OutcomeExactly(local: Local, replies: nat -> Reply, clock: nat -> int)
    ensures var beat := BeatOnce(local, replies, clock);
            if local.terminal then beat == Beat(local, Ended, [])
            else if local.capable == Some(false) then beat == Beat(local, Legacy, [])
            else LastIs(beat.log, beat.outcome)
  {
    RoundsLast(local, replies, clock, 0, RENEW_ROUNDS);
  }

  /** A publisher learns in a heartbeat that its activity has ended exactly by a renewal answered so. */
  lemma TerminalExactly(local: Local, replies: nat -> Reply, clock: nat -> int)
    ensures BeatOnce(local, replies, clock).local.terminal <==>
            local.terminal || LastEnds(BeatOnce(local, replies, clock).log)
  {
    RoundsLast(local, replies, clock, 0, RENEW_ROUNDS);
  }

  /** After a heartbeat that learnt it, every further one sends nothing and says so again. */
  lemma NothingAfterEnd(local: Local, replies: nat -> Reply, clock: nat -> int, others: nat -> Reply,
        otherClock: nat -> int)
    requires LastEnds(BeatOnce(local, replies, clock).log)
    ensures var ended := BeatOnce(local, replies, clock).local;
            BeatOnce(ended, others, otherClock) == Beat(ended, Ended, [])
  {
    TerminalExactly(local, replies, clock);
    hide Rounds;
  }

  // ----- which exchange follows which -----

  predicate IsUnheard(e: Exchange) {
    e.reply.Lost? || e.reply.status >= 500
  }

  /** The second attempt of a call whose first was not heard. */
  predicate IsRetry(log: seq<Exchange>, k: nat)
    requires k < |log|
  {
    k > 0 && !IsRetry(log, k - 1) && IsUnheard(log[k - 1])
  }

  /** The publisher takes this reply in: it is one, and not a server error on a first attempt. */
  predicate IsHeard(log: seq<Exchange>, k: nat)
    requires k < |log|
  {
    log[k].reply.Reply? && (log[k].reply.status < 500 || IsRetry(log, k))
  }

  predicate IsClosed(log: seq<Exchange>) {
    log != [] && (IsRetry(log, |log| - 1) || !IsUnheard(log[|log| - 1]))
  }

  predicate AsksAgain(e: Exchange) {
    IsTurnedDown(e, StaleEpoch) || IsTurnedDown(e, StaleSequence) || IsTurnedDown(e, TooOld)
  }

  predicate IsIssued(e: Exchange) {
    e.request.Challenge? && IsAnswered(e, 200) && e.reply.nextEpoch.Some?
  }

  /** What the `k`th request is, after the exchange before it. */
  predicate Follows(log: seq<Exchange>, k: nat, i: nat, clock: nat -> int)
    requires 0 < k < |log|
  {
    var last, next := log[k - 1], log[k].request;
    if !IsHeard(log, k - 1) then IsRetry(log, k) && next == last.request
    else if last.request.Renew? then
      (IsTurnedDown(last, Expired) && next == Challenge) || (AsksAgain(last) && next.Renew?)
    else IsIssued(last) && next == Resume(Lease(last.reply.nextEpoch.value, clock(i + k)))
  }

  predicate Flows(log: seq<Exchange>, i: nat, clock: nat -> int) {
    forall k | 0 < k < |log| :: Follows(log, k, i, clock)
  }

  /** How many of the first `n` exchanges begin a renewal. */
  function Begun(log: seq<Exchange>, n: nat): nat
    requires n <= |log|
  {
    if n == 0 then 0
    else Begun(log, n - 1) + if log[n - 1].request.Renew? && !IsRetry(log, n - 1) then 1 else 0
  }

  lemma {:induction false} RetryBefore(a: seq<Exchange>, b: seq<Exchange>, k: nat)
    requires k < |a|
    ensures IsRetry(a + b, k) == IsRetry(a, k)
  {
    if k > 0 { RetryBefore(a, b, k - 1); }
  }

  lemma {:induction false} RetryAfter(a: seq<Exchange>, b: seq<Exchange>, k: nat)
    requires IsClosed(a) && k < |b|
    ensures IsRetry(a + b, |a| + k) == IsRetry(b, k)
  {
    if k == 0 {
      RetryBefore(a, b, |a| - 1);
      assert (a + b)[|a| - 1] == a[|a| - 1];
    } else {
      RetryAfter(a, b, k - 1);
      assert (a + b)[|a| + k - 1] == b[k - 1];
    }
  }

  lemma JoinClosed(a: seq<Exchange>, b: seq<Exchange>)
    requires IsClosed(a) && IsClosed(b)
    ensures IsClosed(a + b)
  {
    RetryAfter(a, b, |b| - 1);
    hide IsRetry;
  }

  lemma JoinFlows(a: seq<Exchange>, b: seq<Exchange>, i: nat, clock: nat -> int)
    requires IsClosed(a) && b != [] && Flows(a, i, clock) && Flows(b, i + |a|, clock)
    requires Follows(a + [b[0]], |a|, i, clock)
    ensures Flows(a + b, i, clock)
  {
    hide IsRetry, IsTurnedDown, AsksAgain, IsIssued;
    var log := a + b;
    forall k | 0 < k < |log| ensures Follows(log, k, i, clock) {
      if k < |a| {
        RetryBefore(a, b, k);
        RetryBefore(a, b, k - 1);
        assert Follows(a, k, i, clock);
      } else if k == |a| {
        var short := a + [b[0]];
        RetryBefore(a, b, k - 1);
        RetryBefore(a, [b[0]], k - 1);
        RetryAfter(a, b, 0);
        RetryAfter(a, [b[0]], 0);
        FirstIsNoRetry(b);
        FirstIsNoRetry([b[0]]);
        assert short[k] == log[k] && short[k - 1] == log[k - 1];
      } else {
        RetryAfter(a, b, k - |a|);
        RetryAfter(a, b, k - 1 - |a|);
        assert log[k] == b[k - |a|] && log[k - 1] == b[k - 1 - |a|];
        assert Follows(b, k - |a|, i + |a|, clock);
      }
    }
  }

  lemma FirstIsNoRetry(b: seq<Exchange>)
    requires b != []
    ensures !IsRetry(b, 0)
  {
  }

  lemma {:induction false} BegunBefore(a: seq<Exchange>, b: seq<Exchange>, n: nat)
    requires n <= |a|
    ensures Begun(a + b, n) == Begun(a, n)
  {
    if n > 0 {
      BegunBefore(a, b, n - 1);
      RetryBefore(a, b, n - 1);
    }
  }

  lemma {:induction false} BegunAfter(a: seq<Exchange>, b: seq<Exchange>, n: nat)
    requires IsClosed(a) && n <= |b|
    ensures Begun(a + b, |a| + n) == Begun(a, |a|) + Begun(b, n)
  {
    if n == 0 {
      BegunBefore(a, b, |a|);
    } else {
      BegunAfter(a, b, n - 1);
      RetryAfter(a, b, n - 1);
      assert (a + b)[|a| + n - 1] == b[n - 1];
    }
  }

  /** The end of a beat: nothing more was to be asked, or `rounds` renewals were used up. */
  predicate IsOver(log: seq<Exchange>, rounds: nat) {
    && IsClosed(log)
    && var last := log[|log| - 1];
    && !IsTurnedDown(last, Expired) && !IsIssued(last) && (AsksAgain(last) ==> Begun(log, |log|) == rounds)
  }

  // ----- what is heard about lease routes -----

  /** An answer that only a Tower with lease routes gives. */
  predicate Settles(e: Exchange) {
    e.request.Renew? && e.reply.Reply? && e.reply.status !in {401, 403, 404}
  }

  ghost predicate HearsLeases(log: seq<Exchange>) {
    exists k: nat :: k < |log| && IsHeard(log, k) && Settles(log[k])
  }

  lemma JoinHears(a: seq<Exchange>, b: seq<Exchange>)
    requires IsClosed(a)
    ensures HearsLeases(a + b) <==> HearsLeases(a) || HearsLeases(b)
  {
    hide IsRetry, Settles;
    var log := a + b;
    forall k: nat | k < |a| ensures IsHeard(log, k) == IsHeard(a, k) && log[k] == a[k] { RetryBefore(a, b, k); }
    forall k: nat | k < |b| ensures IsHeard(log, |a| + k) == IsHeard(b, k) && log[|a| + k] == b[k] {
      RetryAfter(a, b, k);
    }
    if k: nat :| k < |a| && IsHeard(a, k) && Settles(a[k]) { assert IsHeard(log, k) && Settles(log[k]); }
    if k: nat :| k < |b| && IsHeard(b, k) && Settles(b[k]) { assert IsHeard(log, |a| + k) && Settles(log[|a| + k]); }
    if k: nat :| k < |log| && IsHeard(log, k) && Settles(log[k]) {
      if k < |a| {
        assert IsHeard(a, k) && Settles(a[k]);
      } else {
        var m: nat := k - |a|;
        assert IsHeard(b, m) && Settles(b[m]);
      }
    }
  }

  // ----- the calls, rounds and beats of a publisher flow so -----

  lemma OneFlows(e: Exchange, i: nat, clock: nat -> int)
    requires !IsUnheard(e)
    ensures Flows([e], i, clock) && IsClosed([e]) && IsHeard([e], 0)
    ensures Begun([e], 1) == if e.request.Renew? then 1 else 0
    ensures HearsLeases([e]) <==> Settles(e)
  {
    assert Begun([e], 0) == 0;
    if Settles(e) { assert IsHeard([e], 0) && Settles([e][0]); }
  }

  lemma TwoFlow(first: Exchange, second: Exchange, i: nat, clock: nat -> int)
    requires IsUnheard(first) && first.request == second.request
    ensures var log := [first, second];
            && Flows(log, i, clock) && IsClosed(log) && (IsHeard(log, 1) <==> second.reply.Reply?)
            && Begun(log, 2) == (if first.request.Renew? then 1 else 0)
            && (HearsLeases(log) <==> Settles(second))
  {
    var log := [first, second];
    assert IsRetry(log, 1) && !IsRetry(log, 0);
    assert Begun(log, 1) == Begun(log, 0) + if first.request.Renew? then 1 else 0;
    if Settles(second) { assert IsHeard(log, 1) && Settles(log[1]); }
  }

  lemma CallFlows(request: Request, replies: nat -> Reply, i: nat, clock: nat -> int)
    ensures var (reply, log) := Call(request, replies, i);
            && Flows(log, i, clock) && IsClosed(log) && log[0].request == request
            && (reply.Some? <==> IsHeard(log, |log| - 1))
            && Begun(log, |log|) == (if request.Renew? then 1 else 0)
            && (HearsLeases(log) <==> Settles(log[|log| - 1]))
  {
    var first, second := Exchange(request, replies(i)), Exchange(request, replies(i + 1));
    if IsUnheard(first) { TwoFlow(first, second, i, clock); } else { OneFlows(first, i, clock); }
    hide Flows, IsClosed, IsHeard, Begun, HearsLeases, Settles;
  }

  lemma JoinAll(a: seq<Exchange>, b: seq<Exchange>, i: nat, clock: nat -> int)
    requires IsClosed(a) && IsClosed(b) && Flows(a, i, clock) && Flows(b, i + |a|, clock)
    requires IsHeard(a, |a| - 1) && var last := a[|a| - 1];
             if last.request.Renew? then
               (IsTurnedDown(last, Expired) && b[0].request == Challenge) || (AsksAgain(last) && b[0].request.Renew?)
             else IsIssued(last) && b[0].request == Resume(Lease(last.reply.nextEpoch.value, clock(i + |a|)))
    ensures IsClosed(a + b) && Flows(a + b, i, clock)
    ensures Begun(a + b, |a + b|) == Begun(a, |a|) + Begun(b, |b|)
    ensures HearsLeases(a + b) <==> HearsLeases(a) || HearsLeases(b)
    ensures (a + b)[0] == a[0] && (a + b)[|a + b| - 1] == b[|b| - 1]
  {
    JoinClosed(a, b);
    BegunAfter(a, b, |b|);
    JoinHears(a, b);
    RetryBefore(a, [b[0]], |a| - 1);
    hide IsRetry, HearsLeases, IsClosed, Begun, IsTurnedDown, AsksAgain, IsIssued, Flows;
    var short := a + [b[0]];
    assert short[|a| - 1] == a[|a| - 1] && short[|a|] == b[0];
    assert Follows(short, |a|, i, clock);
    JoinFlows(a, b, i, clock);
  }

  /** What asking for a challenge and resuming with it adds to a beat. */
  lemma ResumeFlows(local: Local, replies: nat -> Reply, clock: nat -> int, i: nat)
    ensures var rest := AfterExpiry(local, replies, clock, i);
            && Flows(rest.log, i, clock) && IsOver(rest.log, 0) && rest.log[0].request == Challenge
            && Begun(rest.log, |rest.log|) == 0 && !HearsLeases(rest.log) && rest.local.capable == local.capable
            && rest.outcome != Legacy
  {
    hide Call, Adopt, Flows, IsClosed, IsHeard, Begun, HearsLeases;
    CallFlows(Challenge, replies, i, clock);
    CallsLast(Challenge, replies, i);
    var (issued, log) := Call(Challenge, replies, i);
    if issued.Some? && issued.value.status == 200 && issued.value.nextEpoch.Some? {
      var request := Resume(Lease(issued.value.nextEpoch.value, clock(i + |log|)));
      CallFlows(request, replies, i + |log|, clock);
      CallsLast(request, replies, i + |log|);
      JoinAll(log, Call(request, replies, i + |log|).1, i, clock);
    }
  }

  /** What a reply that was taken in does to a publisher's knowledge of lease routes, and what it asks for. */
  lemma JudgedAsks(local: Local, reply: Option<Reply>, e: Exchange)
    requires e.request.Renew? && (if reply.Some? then reply.value.Reply? && e.reply == reply.value else e.reply.Lost?)
    ensures var (judged, verdict) := Judge(local, reply);
            && (verdict.AskResume? <==> IsTurnedDown(e, Expired)) && (verdict.Again? <==> AsksAgain(e))
            && (verdict.Stop? && verdict.outcome == Legacy <==> SaysNoRoute(e))
            && judged.capable ==
               if SaysNoRoute(e) then Some(false) else if Settles(e) then Some(true) else local.capable
  {
    hide Adopt;
  }

  ghost predicate KnowsRoutes(before: Local, after: Local, legacy: bool, log: seq<Exchange>) {
    after.capable == if legacy then Some(false) else if HearsLeases(log) then Some(true) else before.capable
  }

  /** One round: a renewal, and a resumption if its lease had expired. */
  ghost predicate RoundGoes(local: Local, round: Round, clock: nat -> int, i: nat) {
    && IsClosed(round.log) && Flows(round.log, i, clock) && Begun(round.log, |round.log|) == 1
    && round.log[0].request == RenewalOf(local.lease, clock(i))
    && KnowsRoutes(local, round.local, round.outcome == Some(Legacy), round.log)
    && var last := round.log[|round.log| - 1];
    && (round.outcome.None? ==> IsHeard(round.log, |round.log| - 1) && AsksAgain(last))
    && (round.outcome.Some? ==> !IsTurnedDown(last, Expired) && !IsIssued(last) && !AsksAgain(last))
  }

  lemma NoRouteSettlesNothing(e: Exchange)
    requires SaysNoRoute(e)
    ensures !Settles(e) && !AsksAgain(e) && !IsTurnedDown(e, Expired)
  {
  }

  lemma RoundFlows(local: Local, replies: nat -> Reply, clock: nat -> int, i: nat)
    ensures RoundGoes(local, OneRound(local, replies, clock, i), clock, i)
  {
    hide Call, Judge, AfterExpiry, RenewalOf, Flows, IsClosed, IsHeard, Begun, HearsLeases, Settles, IsIssued;
    hide IsTurnedDown, AsksAgain, SaysNoRoute;
    var request := RenewalOf(local.lease, clock(i));
    RenewalRenews(local.lease, clock(i));
    CallFlows(request, replies, i, clock);
    CallsLast(request, replies, i);
    var (reply, log) := Call(request, replies, i);
    var e := log[|log| - 1];
    JudgedAsks(local, reply, e);
    RenewalIssuesNothing(e);
    var (judged, verdict) := Judge(local, reply);
    if SaysNoRoute(e) { NoRouteSettlesNothing(e); }
    LostAsksNothing(e);
    if verdict.AskResume? {
      ResumeFlows(judged, replies, clock, i + |log|);
      var rest := AfterExpiry(judged, replies, clock, i + |log|);
      JoinAll(log, rest.log, i, clock);
      ResumeLast(judged, replies, clock, i + |log|);
      OthersAskNothing(rest.log[|rest.log| - 1]);
      NoneIssuedAtEnd(rest.log);
    }
  }

  lemma RenewalIssuesNothing(e: Exchange)
    requires e.request.Renew?
    ensures !IsIssued(e)
  {
  }

  lemma LostAsksNothing(e: Exchange)
    ensures e.reply.Lost? ==> !AsksAgain(e) && !IsTurnedDown(e, Expired)
  {
  }

  lemma NoneIssuedAtEnd(log: seq<Exchange>)
    requires IsOver(log, 0)
    ensures !IsIssued(log[|log| - 1])
  {
  }

  lemma OthersAskNothing(e: Exchange)
    requires !e.request.Renew?
    ensures !AsksAgain(e) && !IsTurnedDown(e, Expired)
  {
  }

  lemma {:induction false} RoundsFlow(local: Local, replies: nat -> Reply, clock: nat -> int, i: nat, left: nat)
    requires left > 0
    ensures var beat := Rounds(local, replies, clock, i, left);
            && Flows(beat.log, i, clock) && IsOver(beat.log, left)
            && beat.log[0].request == RenewalOf(local.lease, clock(i))
            && KnowsRoutes(local, beat.local, beat.outcome == Legacy, beat.log)
    decreases left
  {
    hide OneRound, Flows, IsClosed, IsHeard, Begun, HearsLeases, IsIssued, IsTurnedDown, AsksAgain, RenewalOf;
    RoundFlows(local, replies, clock, i);
    var round := OneRound(local, replies, clock, i);
    var last := round.log[|round.log| - 1];
    if round.outcome.None? {
      AskedAgainOnly(last);
      if left == 1 {
        assert Rounds(round.local, replies, clock, i + |round.log|, 0) == Beat(round.local, NotRenewed, []);
        assert round.log + [] == round.log;
      } else {
        RoundsFlow(round.local, replies, clock, i + |round.log|, left - 1);
        var rest := Rounds(round.local, replies, clock, i + |round.log|, left - 1);
        RenewalRenews(round.local.lease, clock(i + |round.log|));
        JoinAll(round.log, rest.log, i, clock);
      }
    }
  }

  lemma AskedAgainOnly(e: Exchange)
    requires AsksAgain(e)
    ensures e.request.Renew? && !IsTurnedDown(e, Expired) && !IsIssued(e)
  {
  }

  /**
   * Which requests a heartbeat sends: a renewal first; after a call that was not heard, the same once more; after a
   * renewal turned down as stale or too old another one, three at most; after one turned down as expired a challenge,
   * and with a challenge issued a resumption at the clock's time. It goes on as long as that asks for more.
   */
  lemma RequestsExactly(local: Local, replies: nat -> Reply, clock: nat -> int)
    requires !local.terminal && local.capable != Some(false)
    ensures var log := BeatOnce(local, replies, clock).log;
            && IsOver(log, 3) && Flows(log, 0, clock)
            && log[0].request == Renew(Lease(local.lease.epoch, Max(local.lease.sequence + 1, clock(0))))
  {
    RoundsFlow(local, replies, clock, 0, RENEW_ROUNDS);
  }

  lemma LegacyIsNoRoute(e: Exchange, outcome: Outcome)
    requires ComesTo(e, outcome)
    ensures outcome == Legacy <==> SaysNoRoute(e)
  {
  }

  /** A heartbeat leaves the publisher knowing of lease routes what its answers tell. */
  lemma CapableExactly(local: Local, replies: nat -> Reply, clock: nat -> int)
    requires !local.terminal && local.capable != Some(false)
    ensures var beat := BeatOnce(local, replies, clock);
            beat.local.capable ==
            if SaysNoRoute(beat.log[|beat.log| - 1]) then Some(false)
            else if HearsLeases(beat.log) then Some(true)
            else local.capable
  {
    hide Rounds, Flows, HearsLeases, IsOver, SaysNoRoute, ComesTo;
    RoundsFlow(local, replies, clock, 0, RENEW_ROUNDS);
    OutcomeExactly(local, replies, clock);
    var beat := BeatOnce(local, replies, clock);
    assert beat == Rounds(local, replies, clock, 0, RENEW_ROUNDS);
    LegacyIsNoRoute(beat.log[|beat.log| - 1], beat.outcome);
  }
}

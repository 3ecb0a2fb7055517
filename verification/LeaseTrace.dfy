/**
 What a publisher's heartbeats send, against what it has adopted by then: over every run
 of beats and publishes of one publisher, in the order in which things happen.
 */
module LeaseTrace {
  import opened Lease
  import opened Wrappers

  datatype LeaseEvent =
    | Renews(lease: Lease)
    | Adopts(row: Lease)

  /** The lease a publisher starts with. */
  const FRESH: Lease := Lease(1, 0)

  function Learns(row: Option<Lease>): seq<LeaseEvent> {
    if row.Some? && IsSafe(row.value) then [Adopts(row.value)] else []
  }

  /** The row a renewal's answer makes the publisher adopt, if it is usable. */
  function RowOf(reply: Option<Reply>): Option<Lease> {
    if reply.None? || reply.value.Lost? then None
    else if reply.value.status == 200 then reply.value.row
    else if reply.value.status == 404 || reply.value.status == 401 || reply.value.status == 403 then None
    else if reply.value.code == StaleEpoch || reply.value.code == StaleSequence then reply.value.row
    else None
  }

  /** One renewal per request of the log. */
  function Renewals(log: seq<Exchange>): seq<Lease> {
    if log == [] then []
    else if log[0].request.Renew? then [log[0].request.lease] + Renewals(log[1..])
    else Renewals(log[1..])
  }

  function Sent(leases: seq<Lease>): seq<LeaseEvent> {
    if leases == [] then [] else [Renews(leases[0])] + Sent(leases[1..])
  }

  function ResumeTrace(replies: nat -> Reply, clock: nat -> int, i: nat): seq<LeaseEvent> {
    var (issued, log) := Call(Challenge, replies, i);
    if issued.None? || issued.value.status != 200 || issued.value.nextEpoch.None? then [] else
    var j := i + |log|;
    var (resumed, _) := Call(Resume(Lease(issued.value.nextEpoch.value, clock(j))), replies, j);
    if resumed.None? || resumed.value.status != 200 then [] else Learns(resumed.value.row)
  }

  function RoundTrace(local: Local, replies: nat -> Reply, clock: nat -> int, i: nat): seq<LeaseEvent> {
    var (reply, log) := Call(RenewalOf(local.lease, clock(i)), replies, i);
    var (judged, verdict) := Judge(local, reply);
    Sent(Renewals(log)) + Learns(RowOf(reply)) +
    (if verdict.AskResume? then ResumeTrace(replies, clock, i + |log|) else [])
  }

  function RoundsTrace(local: Local, replies: nat -> Reply, clock: nat -> int, i: nat, left: nat): seq<LeaseEvent>
    decreases left
  {
    if left == 0 then [] else
    var round := OneRound(local, replies, clock, i);
    RoundTrace(local, replies, clock, i) +
    (if round.outcome.Some? then [] else RoundsTrace(round.local, replies, clock, i + |round.log|, left - 1))
  }

  function BeatTrace(local: Local, replies: nat -> Reply, clock: nat -> int): seq<LeaseEvent> {
    if local.terminal || local.capable == Some(false) then [] else RoundsTrace(local, replies, clock, 0, RENEW_ROUNDS)
  }

  // ----- runs -----

  /** One thing a publisher does: a heartbeat, or a publish whose answer may report a lease. */
  datatype Act =
    | Beats(replies: nat -> Reply, clock: nat -> int)
    | Publishes(row: Option<Lease>, capable: Option<bool>, terminal: bool)

  function After(local: Local, act: Act): Local {
    match act
    case Beats(replies, clock) => BeatOnce(local, replies, clock).local
    case Publishes(row, capable, terminal) => Local(Adopt(local.lease, row), capable, terminal)
  }

  function TraceOf(local: Local, act: Act): seq<LeaseEvent> {
    match act
    case Beats(replies, clock) => BeatTrace(local, replies, clock)
    case Publishes(row, _, _) => Learns(row)
  }

  function RunTrace(local: Local, acts: seq<Act>): seq<LeaseEvent>
    decreases |acts|
  {
    if acts == [] then [] else TraceOf(local, acts[0]) + RunTrace(After(local, acts[0]), acts[1..])
  }

  // ----- the trace is the beat's own -----

  function RenewsOf(trace: seq<LeaseEvent>): seq<Lease> {
    if trace == [] then []
    else if trace[0].Renews? then [trace[0].lease] + RenewsOf(trace[1..])
    else RenewsOf(trace[1..])
  }

  function AdoptsOf(trace: seq<LeaseEvent>): seq<Lease> {
    if trace == [] then []
    else if trace[0].Adopts? then [trace[0].row] + AdoptsOf(trace[1..])
    else AdoptsOf(trace[1..])
  }

  lemma {:induction false} RenewsOfJoin(a: seq<LeaseEvent>, b: seq<LeaseEvent>)
    ensures RenewsOf(a + b) == RenewsOf(a) + RenewsOf(b)
  {
    if a == [] {
      assert a + b == b;
    } else {
      assert (a + b)[1..] == a[1..] + b;
      RenewsOfJoin(a[1..], b);
    }
  }

  lemma {:induction false} AdoptsOfJoin(a: seq<LeaseEvent>, b: seq<LeaseEvent>)
    ensures AdoptsOf(a + b) == AdoptsOf(a) + AdoptsOf(b)
  {
    if a == [] {
      assert a + b == b;
    } else {
      assert (a + b)[1..] == a[1..] + b;
      AdoptsOfJoin(a[1..], b);
    }
  }

  lemma {:induction false} RenewalsOfJoin(a: seq<Exchange>, b: seq<Exchange>)
    ensures Renewals(a + b) == Renewals(a) + Renewals(b)
  {
    if a == [] {
      assert a + b == b;
    } else {
      assert (a + b)[1..] == a[1..] + b;
      RenewalsOfJoin(a[1..], b);
    }
  }

  lemma {:induction false} AdoptAllJoin(start: Lease, a: seq<Lease>, b: seq<Lease>)
    ensures AdoptAll(start, a + b) == AdoptAll(AdoptAll(start, a), b)
    decreases |b|
  {
    if b == [] {
      assert a + b == a;
    } else {
      var n := |b| - 1;
      assert (a + b)[..|a + b| - 1] == a + b[..n];
      AdoptAllJoin(start, a, b[..n]);
    }
  }

  lemma {:induction false} SentParts(leases: seq<Lease>)
    ensures RenewsOf(Sent(leases)) == leases && AdoptsOf(Sent(leases)) == []
  {
    if leases != [] {
      SentParts(leases[1..]);
      assert Sent(leases)[1..] == Sent(leases[1..]);
    }
  }

  lemma LearnsParts(start: Lease, row: Option<Lease>)
    ensures RenewsOf(Learns(row)) == [] && AdoptAll(start, AdoptsOf(Learns(row))) == Adopt(start, row)
  {
    if row.Some? && IsSafe(row.value) {
      assert Learns(row)[1..] == [] && [row.value][..0] == [];
    }
  }

  /** What a trace and a stretch of the protocol share: the renewals in order, and the lease they end with. */
  ghost predicate Tells(start: Lease, trace: seq<LeaseEvent>, log: seq<Exchange>, end: Lease) {
    RenewsOf(trace) == Renewals(log) && AdoptAll(start, AdoptsOf(trace)) == end
  }

  lemma TellsJoin(start: Lease, a: seq<LeaseEvent>, la: seq<Exchange>, mid: Lease, b: seq<LeaseEvent>,
        lb: seq<Exchange>, end: Lease)
    requires Tells(start, a, la, mid) && Tells(mid, b, lb, end)
    ensures Tells(start, a + b, la + lb, end)
  {
    RenewsOfJoin(a, b);
    AdoptsOfJoin(a, b);
    RenewalsOfJoin(la, lb);
    AdoptAllJoin(start, AdoptsOf(a), AdoptsOf(b));
  }

  lemma CallTells(lease: Lease, request: Request, replies: nat -> Reply, i: nat)
    ensures Tells(lease, Sent(Renewals(Call(request, replies, i).1)), Call(request, replies, i).1, lease)
  {
    SentParts(Renewals(Call(request, replies, i).1));
  }

  lemma {:induction false} OneRequest(request: Request, log: seq<Exchange>)
    requires forall e <- log :: e.request == request
    ensures forall l <- Renewals(log) :: request == Renew(l)
    ensures !request.Renew? ==> Renewals(log) == []
  {
    if log != [] {
      assert log[0] in log;
      OneRequest(request, log[1..]);
    }
  }

  /** What a judged answer teaches the publisher is what its trace adopts. */
  lemma LearnedTells(local: Local, reply: Option<Reply>)
    ensures Tells(local.lease, Learns(RowOf(reply)), [], Judge(local, reply).0.lease)
  {
    LearnsParts(local.lease, RowOf(reply));
    assert Judge(local, reply).0.lease == Adopt(local.lease, RowOf(reply));
  }

  lemma ResumeTells(local: Local, replies: nat -> Reply, clock: nat -> int, i: nat)
    ensures var beat := AfterExpiry(local, replies, clock, i);
            Tells(local.lease, ResumeTrace(replies, clock, i), beat.log, beat.local.lease)
  {
    var (issued, log) := Call(Challenge, replies, i);
    OneRequest(Challenge, log);
    if !(issued.None? || issued.value.status != 200 || issued.value.nextEpoch.None?) {
      var j := i + |log|;
      var request := Resume(Lease(issued.value.nextEpoch.value, clock(j)));
      var (resumed, more) := Call(request, replies, j);
      OneRequest(request, more);
      RenewalsOfJoin(log, more);
      if resumed.Some? { LearnsParts(local.lease, resumed.value.row); }
    }
  }

  lemma RoundTells(local: Local, replies: nat -> Reply, clock: nat -> int, i: nat)
    ensures var round := OneRound(local, replies, clock, i);
            Tells(local.lease, RoundTrace(local, replies, clock, i), round.log, round.local.lease)
  {
    var (reply, log) := Call(RenewalOf(local.lease, clock(i)), replies, i);
    var (judged, verdict) := Judge(local, reply);
    CallTells(local.lease, RenewalOf(local.lease, clock(i)), replies, i);
    LearnedTells(local, reply);
    hide Call, Judge, RenewalOf, RowOf, Learns, Renewals, Sent, AfterExpiry, ResumeTrace, Tells;
    var sent, learned := Sent(Renewals(log)), Learns(RowOf(reply));
    TellsJoin(local.lease, sent, log, local.lease, learned, [], judged.lease);
    assert log + [] == log;
    if verdict.AskResume? {
      ResumeTells(judged, replies, clock, i + |log|);
      var rest := AfterExpiry(judged, replies, clock, i + |log|);
      var resumed := ResumeTrace(replies, clock, i + |log|);
      TellsJoin(local.lease, sent + learned, log, judged.lease, resumed, rest.log, rest.local.lease);
    } else {
      assert sent + learned + [] == sent + learned;
    }
  }

  lemma {:induction false} RoundsTell(local: Local, replies: nat -> Reply, clock: nat -> int, i: nat, left: nat)
    ensures var beat := Rounds(local, replies, clock, i, left);
            Tells(local.lease, RoundsTrace(local, replies, clock, i, left), beat.log, beat.local.lease)
    decreases left
  {
    hide OneRound, RoundTrace, Tells;
    if left == 0 {
      NothingTells(local.lease);
    } else {
      var round := OneRound(local, replies, clock, i);
      var trace := RoundTrace(local, replies, clock, i);
      RoundTells(local, replies, clock, i);
      if round.outcome.Some? {
        assert trace + [] == trace;
      } else {
        RoundsTell(round.local, replies, clock, i + |round.log|, left - 1);
        var rest := Rounds(round.local, replies, clock, i + |round.log|, left - 1);
        TellsJoin(local.lease, trace, round.log, round.local.lease,
                  RoundsTrace(round.local, replies, clock, i + |round.log|, left - 1), rest.log, rest.local.lease);
      }
    }
  }

  lemma NothingTells(lease: Lease)
    ensures Tells(lease, [], [], lease)
  {
  }

  /** The trace of a beat holds exactly its renewals, in order, and what it adopts on the way. */
  lemma BeatTells(local: Local, replies: nat -> Reply, clock: nat -> int)
    ensures var beat := BeatOnce(local, replies, clock);
            Tells(local.lease, BeatTrace(local, replies, clock), beat.log, beat.local.lease)
  {
    hide Rounds, RoundsTrace, Tells;
    NothingTells(local.lease);
    RoundsTell(local, replies, clock, 0, RENEW_ROUNDS);
  }

  // ----- every renewal follows the lease of its moment -----

  ghost predicate SafeAdopts(trace: seq<LeaseEvent>) {
    forall e <- trace :: e.Adopts? ==> IsSafe(e.row)
  }

  /** Each renewal has the epoch of what was adopted last before it, and a sequence above that lease's. */
  ghost predicate Follows(start: Lease, trace: seq<LeaseEvent>) {
    forall n | 0 <= n < |trace| && trace[n].Renews? ::
      var lease := AdoptAll(start, AdoptsOf(trace[..n]));
      trace[n].lease.epoch == lease.epoch && trace[n].lease.sequence > lease.sequence
  }

  lemma FollowsJoin(start: Lease, a: seq<LeaseEvent>, b: seq<LeaseEvent>)
    requires Follows(start, a) && Follows(AdoptAll(start, AdoptsOf(a)), b)
    ensures Follows(start, a + b)
  {
    var trace := a + b;
    hide AdoptsOf, AdoptAll;
    forall n | 0 <= n < |trace| && trace[n].Renews?
      ensures var lease := AdoptAll(start, AdoptsOf(trace[..n]));
              trace[n].lease.epoch == lease.epoch && trace[n].lease.sequence > lease.sequence
    {
      if n < |a| {
        assert trace[..n] == a[..n] && trace[n] == a[n];
      } else {
        assert trace[..n] == a + b[..n - |a|] && trace[n] == b[n - |a|];
        AdoptsOfJoin(a, b[..n - |a|]);
        AdoptAllJoin(start, AdoptsOf(a), AdoptsOf(b[..n - |a|]));
      }
    }
  }

  lemma SentFollows(start: Lease, leases: seq<Lease>)
    requires forall l <- leases :: l.epoch == start.epoch && l.sequence > start.sequence
    ensures Follows(start, Sent(leases)) && SafeAdopts(Sent(leases))
  {
    SentAt(leases);
    var trace := Sent(leases);
    forall n | 0 <= n < |trace| ensures AdoptsOf(trace[..n]) == [] {
      assert trace[..n] == Sent(leases[..n]);
      SentParts(leases[..n]);
    }
  }

  lemma {:induction false} SentAt(leases: seq<Lease>)
    ensures |Sent(leases)| == |leases| && forall n | 0 <= n < |leases| :: Sent(leases)[n] == Renews(leases[n])
    ensures forall n | 0 <= n <= |leases| :: Sent(leases)[..n] == Sent(leases[..n])
  {
    if leases != [] {
      SentAt(leases[1..]);
      forall n | 0 < n <= |leases| ensures Sent(leases)[..n] == Sent(leases[..n]) {
        assert leases[..n][1..] == leases[1..][..n - 1];
        assert Sent(leases)[..n] == [Renews(leases[0])] + Sent(leases[1..])[..n - 1];
      }
    }
  }

  predicate IsQuiet(trace: seq<LeaseEvent>) {
    forall e <- trace :: e.Adopts? && IsSafe(e.row)
  }

  lemma QuietFollows(start: Lease, trace: seq<LeaseEvent>)
    requires IsQuiet(trace)
    ensures Follows(start, trace) && SafeAdopts(trace)
  {
    forall n | 0 <= n < |trace| ensures trace[n].Adopts? {
      assert trace[n] in trace;
    }
  }

  lemma LearnsAreSafe(row: Option<Lease>)
    ensures IsQuiet(Learns(row))
  {
  }

  lemma NothingIsQuiet()
    ensures IsQuiet([])
  {
  }

  lemma ResumeIsQuiet(replies: nat -> Reply, clock: nat -> int, i: nat)
    ensures IsQuiet(ResumeTrace(replies, clock, i))
  {
    hide Call;
  }

  lemma ThenQuiet(start: Lease, trace: seq<LeaseEvent>, quiet: seq<LeaseEvent>)
    requires Follows(start, trace) && SafeAdopts(trace) && IsQuiet(quiet)
    ensures Follows(start, trace + quiet) && SafeAdopts(trace + quiet)
  {
    QuietFollows(AdoptAll(start, AdoptsOf(trace)), quiet);
    hide Follows;
    FollowsJoin(start, trace, quiet);
  }

  lemma RenewalsFollow(lease: Lease, now: int, log: seq<Exchange>)
    requires forall e <- log :: e.request == RenewalOf(lease, now)
    ensures Follows(lease, Sent(Renewals(log))) && SafeAdopts(Sent(Renewals(log)))
  {
    OneRequest(RenewalOf(lease, now), log);
    hide Sent, Follows;
    SentFollows(lease, Renewals(log));
  }

  lemma RoundFollows(local: Local, replies: nat -> Reply, clock: nat -> int, i: nat)
    ensures Follows(local.lease, RoundTrace(local, replies, clock, i))
    ensures SafeAdopts(RoundTrace(local, replies, clock, i))
  {
    var (reply, log) := Call(RenewalOf(local.lease, clock(i)), replies, i);
    var (judged, verdict) := Judge(local, reply);
    RenewalsFollow(local.lease, clock(i), log);
    LearnsAreSafe(RowOf(reply));
    ResumeIsQuiet(replies, clock, i + |log|);
    NothingIsQuiet();
    var sent, learned := Sent(Renewals(log)), Learns(RowOf(reply));
    var rest := if verdict.AskResume? then ResumeTrace(replies, clock, i + |log|) else [];
    hide Judge, Call, RowOf, RenewalOf, Learns, Renewals, Sent, ResumeTrace, Follows, AdoptsOf;
    hide SafeAdopts, IsQuiet, AdoptAll;
    ThenQuiet(local.lease, sent, learned);
    ThenQuiet(local.lease, sent + learned, rest);
  }

  lemma {:induction false} RoundsFollow(local: Local, replies: nat -> Reply, clock: nat -> int, i: nat, left: nat)
    ensures Follows(local.lease, RoundsTrace(local, replies, clock, i, left))
    ensures SafeAdopts(RoundsTrace(local, replies, clock, i, left))
    decreases left
  {
    hide OneRound, RoundTrace, Follows;
    if left == 0 {
      QuietFollows(local.lease, []);
    } else {
      var round := OneRound(local, replies, clock, i);
      var trace := RoundTrace(local, replies, clock, i);
      RoundFollows(local, replies, clock, i);
      RoundTells(local, replies, clock, i);
      if round.outcome.Some? {
        assert trace + [] == trace;
      } else {
        RoundsFollow(round.local, replies, clock, i + |round.log|, left - 1);
        FollowsJoin(local.lease, trace, RoundsTrace(round.local, replies, clock, i + |round.log|, left - 1));
      }
    }
  }

  lemma ActFollows(local: Local, act: Act)
    ensures Follows(local.lease, TraceOf(local, act)) && SafeAdopts(TraceOf(local, act))
    ensures AdoptAll(local.lease, AdoptsOf(TraceOf(local, act))) == After(local, act).lease
  {
    hide Rounds, RoundsTrace;
    match act
    case Beats(replies, clock) =>
      BeatTells(local, replies, clock);
      QuietFollows(local.lease, []);
      RoundsFollow(local, replies, clock, 0, RENEW_ROUNDS);
    case Publishes(row, _, _) =>
      LearnsParts(local.lease, row);
      QuietFollows(local.lease, Learns(row));
  }

  lemma {:induction false} RunFollows(local: Local, acts: seq<Act>)
    ensures Follows(local.lease, RunTrace(local, acts)) && SafeAdopts(RunTrace(local, acts))
    decreases |acts|
  {
    hide Follows, TraceOf, After;
    if acts == [] {
      QuietFollows(local.lease, []);
    } else {
      ActFollows(local, acts[0]);
      RunFollows(After(local, acts[0]), acts[1..]);
      FollowsJoin(local.lease, TraceOf(local, acts[0]), RunTrace(After(local, acts[0]), acts[1..]));
    }
  }

  // ----- renewals against everything adopted before them -----

  /** A publisher that has not done anything yet. */
  const NEWCOMER: Local := Local(FRESH, None, false)

  function EpochsOf(rows: seq<Lease>): seq<int> {
    seq(|rows|, i requires 0 <= i < |rows| => rows[i].epoch)
  }

  /** No epoch comes back once another one has taken its place. */
  ghost predicate NoReturn(epochs: seq<int>) {
    forall i, j, k | 0 <= i < j < k < |epochs| && epochs[i] == epochs[k] :: epochs[j] == epochs[i]
  }

  /** Each renewal's sequence is above every one adopted in its epoch before it. */
  ghost predicate Rises(trace: seq<LeaseEvent>) {
    forall m, n | 0 <= m < n < |trace| && trace[m].Adopts? && trace[n].Renews? ::
      trace[m].row.epoch == trace[n].lease.epoch ==> trace[m].row.sequence < trace[n].lease.sequence
  }

  lemma AdoptAllEpoch(start: Lease, rows: seq<Lease>)
    requires rows != [] && forall r <- rows :: IsSafe(r)
    ensures AdoptAll(start, rows).epoch == rows[|rows| - 1].epoch
  {
    assert rows[|rows| - 1] in rows;
  }

  /** While no epoch returns, the lease has the greatest sequence adopted in its epoch. */
  lemma {:induction false} NoneAbove(start: Lease, rows: seq<Lease>, i: nat)
    requires NoReturn(EpochsOf(rows)) && i < |rows| && forall r <- rows :: IsSafe(r)
    requires rows[i].epoch == AdoptAll(start, rows).epoch
    ensures rows[i].sequence <= AdoptAll(start, rows).sequence
    decreases |rows|
  {
    var n := |rows| - 1;
    var before := AdoptAll(start, rows[..n]);
    AdoptAllEpoch(start, rows);
    assert IsSafe(rows[n]);
    if i < n {
      AdoptAllEpoch(start, rows[..n]);
      assert EpochsOf(rows)[i] == EpochsOf(rows)[n] && EpochsOf(rows)[n - 1] == EpochsOf(rows)[i];
      assert rows[..n][n - 1] == rows[n - 1] && EpochsOf(rows[..n]) == EpochsOf(rows)[..n];
      NoneAbove(start, rows[..n], i);
    }
  }

  lemma {:induction false} AdoptedAt(trace: seq<LeaseEvent>, m: nat) returns (i: nat)
    requires m < |trace| && trace[m].Adopts?
    ensures i < |AdoptsOf(trace)| && AdoptsOf(trace)[i] == trace[m].row
  {
    if m == 0 {
      i := 0;
    } else {
      i := AdoptedAt(trace[1..], m - 1);
      if trace[0].Adopts? { i := i + 1; }
    }
  }

  lemma AdoptsAreSafe(trace: seq<LeaseEvent>)
    requires SafeAdopts(trace)
    ensures forall r <- AdoptsOf(trace) :: IsSafe(r)
  {
    if trace != [] {
      assert trace[0] in trace;
      AdoptsAreSafe(trace[1..]);
    }
  }

  lemma PrefixAdopts(trace: seq<LeaseEvent>, n: nat)
    requires n <= |trace| && SafeAdopts(trace) && NoReturn(EpochsOf(AdoptsOf(trace)))
    ensures NoReturn(EpochsOf(AdoptsOf(trace[..n]))) && forall r <- AdoptsOf(trace[..n]) :: IsSafe(r)
  {
    AdoptsAreSafe(trace[..n]);
    assert trace == trace[..n] + trace[n..];
    AdoptsOfJoin(trace[..n], trace[n..]);
    var rows := AdoptsOf(trace[..n]);
    assert EpochsOf(rows) == EpochsOf(AdoptsOf(trace))[..|rows|];
  }

  lemma RenewalAboveEarlier(start: Lease, trace: seq<LeaseEvent>, m: nat, n: nat)
    requires Follows(start, trace) && SafeAdopts(trace) && NoReturn(EpochsOf(AdoptsOf(trace)))
    requires m < n < |trace| && trace[m].Adopts? && trace[n].Renews?
    requires trace[m].row.epoch == trace[n].lease.epoch
    ensures trace[m].row.sequence < trace[n].lease.sequence
  {
    PrefixAdopts(trace, n);
    var i := AdoptedAt(trace[..n], m);
    hide SafeAdopts, NoReturn, EpochsOf, AdoptsOf, AdoptAll;
    NoneAbove(start, AdoptsOf(trace[..n]), i);
  }

  /** The record of all that was renewed and adopted so far, against the lease it led to. */
  ghost predicate Sound(lease: Lease, done: seq<LeaseEvent>) {
    lease == AdoptAll(FRESH, AdoptsOf(done)) && SafeAdopts(done) && Follows(FRESH, done)
  }

  /** Whatever a sound record holds, its renewals rise as long as no adopted epoch returned. */
  lemma SoundRises(lease: Lease, done: seq<LeaseEvent>)
    requires Sound(lease, done) && NoReturn(EpochsOf(AdoptsOf(done)))
    ensures Rises(done)
  {
    hide Follows, SafeAdopts, NoReturn, EpochsOf, AdoptsOf;
    forall m, n | 0 <= m < n < |done| && done[m].Adopts? && done[n].Renews?
      ensures done[m].row.epoch == done[n].lease.epoch ==> done[m].row.sequence < done[n].lease.sequence
    {
      if done[m].row.epoch == done[n].lease.epoch { RenewalAboveEarlier(FRESH, done, m, n); }
    }
  }

  /** Over a whole run: as long as no adopted epoch returns, each renewal is above all that was adopted before it. */
  lemma RunRenewsAboveAdopted(acts: seq<Act>)
    requires NoReturn(EpochsOf(AdoptsOf(RunTrace(NEWCOMER, acts))))
    ensures Rises(RunTrace(NEWCOMER, acts))
  {
    var trace := RunTrace(NEWCOMER, acts);
    RunFollows(NEWCOMER, acts);
    SoundRises(AdoptAll(FRESH, AdoptsOf(trace)), trace);
  }

  // ----- an epoch that returns -----

  function RunEnd(local: Local, acts: seq<Act>): Local
    decreases |acts|
  {
    if acts == [] then local else RunEnd(After(local, acts[0]), acts[1..])
  }

  lemma {:induction false} RunTraceJoin(local: Local, a: seq<Act>, b: seq<Act>)
    ensures RunTrace(local, a + b) == RunTrace(local, a) + RunTrace(RunEnd(local, a), b)
    decreases |a|
  {
    hide TraceOf, After;
    if a == [] {
      assert a + b == b;
    } else {
      assert (a + b)[0] == a[0] && (a + b)[1..] == a[1..] + b;
      RunTraceJoin(After(local, a[0]), a[1..], b);
    }
  }

  /** Publishes that report these leases, one each. */
  function Publishing(rows: seq<Lease>): seq<Act> {
    if rows == [] then [] else [Publishes(Some(rows[0]), None, false)] + Publishing(rows[1..])
  }

  function Adopting(rows: seq<Lease>): seq<LeaseEvent> {
    seq(|rows|, n requires 0 <= n < |rows| => Adopts(rows[n]))
  }

  lemma {:induction false} AdoptingParts(rows: seq<Lease>)
    ensures AdoptsOf(Adopting(rows)) == rows
  {
    if rows != [] {
      assert Adopting(rows)[1..] == Adopting(rows[1..]);
      AdoptingParts(rows[1..]);
    }
  }

  lemma {:induction false} PublishingHead(local: Local, rows: seq<Lease>)
    requires rows != [] && IsSafe(rows[0])
    ensures Publishing(rows) != [] && Publishing(rows)[1..] == Publishing(rows[1..])
    ensures TraceOf(local, Publishing(rows)[0]) == [Adopts(rows[0])]
    ensures After(local, Publishing(rows)[0]) == Local(AdoptAll(local.lease, [rows[0]]), None, false)
    ensures Adopting(rows) == [Adopts(rows[0])] + Adopting(rows[1..])
  {
    assert [rows[0]][..0] == [];
  }

  lemma {:induction false} PublishingAdopts(lease: Lease, rows: seq<Lease>)
    requires forall r <- rows :: IsSafe(r)
    ensures RunTrace(Local(lease, None, false), Publishing(rows)) == Adopting(rows)
    ensures RunEnd(Local(lease, None, false), Publishing(rows)) == Local(AdoptAll(lease, rows), None, false)
    decreases |rows|
  {
    if rows != [] {
      assert IsSafe(rows[0]);
      PublishingHead(Local(lease, None, false), rows);
      hide Publishing, TraceOf, After, AdoptAll, Adopting, IsSafe;
      PublishingAdopts(AdoptAll(lease, [rows[0]]), rows[1..]);
      assert [rows[0]] + rows[1..] == rows;
      AdoptAllJoin(lease, [rows[0]], rows[1..]);
    }
  }

  function LostReply(i: nat): Reply { Lost }

  function EarlyClock(i: nat): int { 0 }

  function LostRenewal(lease: Lease): Lease {
    Lease(lease.epoch, Max(lease.sequence + 1, 0))
  }

  lemma LostRound(lease: Lease)
    ensures var local := Local(lease, None, false);
            && RoundTrace(local, LostReply, EarlyClock, 0) == Sent([LostRenewal(lease), LostRenewal(lease)])
            && OneRound(local, LostReply, EarlyClock, 0).outcome == Some(NotRenewed)
            && OneRound(local, LostReply, EarlyClock, 0).local == local
  {
    var request := RenewalOf(lease, 0);
    var log := [Exchange(request, Lost), Exchange(request, Lost)];
    assert Call(request, LostReply, 0) == (None, log);
    assert Renewals(log[1..]) == [request.lease] by { assert log[1..][1..] == []; }
    assert Renewals(log) == [LostRenewal(lease), LostRenewal(lease)];
    hide Call, Renewals, Sent, ResumeTrace, AfterExpiry;
  }

  /** A beat that loses every reply sends the same renewal twice. */
  lemma LostBeat(lease: Lease)
    ensures var local, act := Local(lease, None, false), Beats(LostReply, EarlyClock);
            TraceOf(local, act) == Sent([LostRenewal(lease), LostRenewal(lease)]) && After(local, act) == local
  {
    LostRound(lease);
    hide RoundTrace, OneRound, Sent;
  }

  lemma {:induction false} FirstReturn(epochs: seq<int>, epoch: int, j: nat, k: nat) returns (first: nat)
    requires j < k < |epochs| && epochs[j] != epoch == epochs[k]
    ensures j < first <= k && epochs[first] == epoch && epochs[first - 1] != epoch
  {
    first := k;
    if epochs[k - 1] == epoch { first := FirstReturn(epochs, epoch, j, k - 1); }
  }

  /** The run that shows it: the epoch's second row is lower than its first one, and a beat follows it. */
  function ReturningRun(rows: seq<Lease>, k: nat): seq<Act>
    requires k < |rows|
  {
    Publishing(rows[..k + 1]) + [Beats(LostReply, EarlyClock)] + Publishing(rows[k + 1..])
  }

  lemma LeaseAfterChange(rows: seq<Lease>, k: nat)
    requires 0 < k < |rows| && (forall r <- rows :: IsSafe(r)) && rows[k - 1].epoch != rows[k].epoch
    ensures AdoptAll(FRESH, rows[..k + 1]) == rows[k]
  {
    assert rows[..k + 1][..k] == rows[..k] && IsSafe(rows[k]);
    AdoptAllEpoch(FRESH, rows[..k]);
  }

  /** Three stretches of a run, one after the other. */
  lemma RunOfThree(local: Local, head: seq<Act>, middle: seq<Act>, tail: seq<Act>)
    ensures var mid := RunEnd(local, head);
            RunTrace(local, head + middle + tail) ==
              RunTrace(local, head) + RunTrace(mid, middle) + RunTrace(RunEnd(mid, middle), tail)
  {
    hide RunTrace, RunEnd;
    RunTraceJoin(local, head, middle + tail);
    RunTraceJoin(RunEnd(local, head), middle, tail);
    assert head + middle + tail == head + (middle + tail);
  }

  lemma OneAct(local: Local, act: Act)
    ensures RunTrace(local, [act]) == TraceOf(local, act) && RunEnd(local, [act]) == After(local, act)
  {
    hide TraceOf, After;
    assert [act][1..] == [] && TraceOf(local, act) + [] == TraceOf(local, act);
  }

  lemma ReturningTrace(rows: seq<Lease>, k: nat)
    requires 0 < k < |rows| && (forall r <- rows :: IsSafe(r)) && rows[k - 1].epoch != rows[k].epoch
    ensures var sent := LostRenewal(rows[k]);
            RunTrace(NEWCOMER, ReturningRun(rows, k)) ==
              Adopting(rows[..k + 1]) + Sent([sent, sent]) + Adopting(rows[k + 1..])
  {
    hide After, TraceOf, AdoptAll, Publishing, Adopting, Sent, IsSafe, RunTrace, RunEnd, LostRenewal;
    LeaseAfterChange(rows, k);
    PublishingAdopts(FRESH, rows[..k + 1]);
    PublishingAdopts(rows[k], rows[k + 1..]);
    LostBeat(rows[k]);
    OneAct(Local(rows[k], None, false), Beats(LostReply, EarlyClock));
    RunOfThree(NEWCOMER, Publishing(rows[..k + 1]), [Beats(LostReply, EarlyClock)], Publishing(rows[k + 1..]));
  }

  lemma ReturningAdopts(rows: seq<Lease>, k: nat)
    requires 0 < k < |rows| && (forall r <- rows :: IsSafe(r)) && rows[k - 1].epoch != rows[k].epoch
    ensures AdoptsOf(RunTrace(NEWCOMER, ReturningRun(rows, k))) == rows
  {
    var sent := Sent([LostRenewal(rows[k]), LostRenewal(rows[k])]);
    ReturningTrace(rows, k);
    SentParts([LostRenewal(rows[k]), LostRenewal(rows[k])]);
    hide RunTrace, ReturningRun, Adopting, Sent, AdoptsOf, LostRenewal;
    AdoptingParts(rows[..k + 1]);
    AdoptingParts(rows[k + 1..]);
    AdoptsOfJoin(Adopting(rows[..k + 1]), sent);
    AdoptsOfJoin(Adopting(rows[..k + 1]) + sent, Adopting(rows[k + 1..]));
    assert rows[..k + 1] + [] + rows[k + 1..] == rows;
  }

  lemma ReturningFalls(rows: seq<Lease>, i: nat, k: nat)
    requires i < k < |rows| && (forall r <- rows :: IsSafe(r)) && rows[k - 1].epoch != rows[k].epoch
    requires rows[i] == Lease(rows[k].epoch, 1) && rows[k].sequence == 0
    ensures !Rises(RunTrace(NEWCOMER, ReturningRun(rows, k)))
  {
    var trace := RunTrace(NEWCOMER, ReturningRun(rows, k));
    ReturningTrace(rows, k);
    hide RunTrace, ReturningRun;
    assert trace[i] == Adopts(rows[i]) && trace[k + 1] == Renews(LostRenewal(rows[k]));
  }

  /** Once an epoch returns, a renewal can repeat a sequence that was adopted there. */
  lemma ReturnRepeats(epochs: seq<int>, i: nat, j: nat, k: nat) returns (acts: seq<Act>)
    requires i < j < k < |epochs| && epochs[i] == epochs[k] != epochs[j]
    requires forall e <- epochs :: 1 <= e <= MAX_SAFE
    ensures EpochsOf(AdoptsOf(RunTrace(NEWCOMER, acts))) == epochs && !Rises(RunTrace(NEWCOMER, acts))
  {
    var first := FirstReturn(epochs, epochs[i], j, k);
    var rows := seq(|epochs|, n requires 0 <= n < |epochs| => Lease(epochs[n], if n == i then 1 else 0));
    acts := ReturningRun(rows, first);
    forall r <- rows ensures IsSafe(r) {
      assert r.epoch in epochs;
    }
    hide RunTrace, ReturningRun, Rises, AdoptsOf, NoReturn;
    ReturningAdopts(rows, first);
    ReturningFalls(rows, i, first);
    assert EpochsOf(rows) == epochs;
  }

  /** All runs that adopt leases of these epochs renew above what they adopted exactly if no epoch returns. */
  lemma RunsRiseExactly(epochs: seq<int>)
    requires forall e <- epochs :: 1 <= e <= MAX_SAFE
    ensures (forall acts | EpochsOf(AdoptsOf(RunTrace(NEWCOMER, acts))) == epochs :: Rises(RunTrace(NEWCOMER, acts)))
            <==> NoReturn(epochs)
  {
    hide RunTrace, Rises, AdoptsOf, EpochsOf;
    if NoReturn(epochs) {
      forall acts | EpochsOf(AdoptsOf(RunTrace(NEWCOMER, acts))) == epochs ensures Rises(RunTrace(NEWCOMER, acts)) {
        RunRenewsAboveAdopted(acts);
      }
    } else {
      var i, j, k :| 0 <= i < j < k < |epochs| && epochs[i] == epochs[k] && epochs[j] != epochs[i];
      var acts := ReturnRepeats(epochs, i, j, k);
    }
  }

  // ----- the record a publisher keeps -----

  lemma NothingIsSound()
    ensures Sound(FRESH, [])
  {
  }

  lemma LearningIsSound(lease: Lease, done: seq<LeaseEvent>, row: Option<Lease>)
    requires Sound(lease, done)
    ensures Sound(Adopt(lease, row), done + Learns(row))
  {
    LearnsAreSafe(row);
    ThenQuiet(FRESH, done, Learns(row));
    LearnsParts(lease, row);
    AdoptsOfJoin(done, Learns(row));
    AdoptAllJoin(FRESH, AdoptsOf(done), AdoptsOf(Learns(row)));
  }

  lemma RenewingIsSound(lease: Lease, done: seq<LeaseEvent>, now: int, log: seq<Exchange>)
    requires Sound(lease, done) && forall e <- log :: e.request == RenewalOf(lease, now)
    ensures Sound(lease, done + Sent(Renewals(log)))
  {
    RenewalsFollow(lease, now, log);
    FollowsJoin(FRESH, done, Sent(Renewals(log)));
    SentParts(Renewals(log));
    AdoptsOfJoin(done, Sent(Renewals(log)));
    assert AdoptsOf(done) + [] == AdoptsOf(done);
  }

  /** What remains of a beat's trace after some of its rounds. */
  lemma AdvanceTrace(sofar: seq<LeaseEvent>, local: Local, replies: nat -> Reply, clock: nat -> int, i: nat, left: nat)
    requires left > 0
    ensures var round := OneRound(local, replies, clock, i);
            var rest := if round.outcome.Some? then []
                        else RoundsTrace(round.local, replies, clock, i + |round.log|, left - 1);
            sofar + RoundsTrace(local, replies, clock, i, left) == sofar + RoundTrace(local, replies, clock, i) + rest
  {
    var round := OneRound(local, replies, clock, i);
    var trace := RoundTrace(local, replies, clock, i);
    hide OneRound, RoundTrace;
    if round.outcome.Some? {
      JoinIsAssociative(sofar, trace, []);
    } else {
      JoinIsAssociative(sofar, trace, RoundsTrace(round.local, replies, clock, i + |round.log|, left - 1));
    }
  }

  lemma JoinIsAssociative(a: seq<LeaseEvent>, b: seq<LeaseEvent>, c: seq<LeaseEvent>)
    ensures a + (b + c) == (a + b) + c
  {
  }
}

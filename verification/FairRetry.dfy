/**
 The commentary half of a recovery pass: take the least recently attempted pending
 sources, at most 100 of them, and stamp each one as it is attempted.
 */
module FairRetry {
  import opened Commentary

  const PASS_LIMIT: nat := 100

  /** One pass: whom it attempted, and when. */
  datatype Pass = Pass(chosen: seq<string>, stamps: seq<int>)

  /** The first `n` touches of a pass. */
  function AfterTouches(sources: Sources, pass: Pass, n: nat): Sources
    requires n <= |pass.chosen| == |pass.stamps|
  {
    if n == 0 then sources
    else AfterTouch(AfterTouches(sources, pass, n - 1), pass.chosen[n - 1], pass.stamps[n - 1])
  }

  function AfterPass(sources: Sources, pass: Pass): Sources
    requires |pass.chosen| == |pass.stamps|
  {
    AfterTouches(sources, pass, |pass.chosen|)
  }

  /**
   * The sources before each pass of the window; between passes anything but the pending set and its stamps may change.
   */
  ghost predicate IsWindow(states: seq<Sources>, passes: seq<Pass>, pending: set<string>, limit: nat) {
    && |states| == |passes| + 1
    && (forall i | 0 <= i < |states| :: PendingIs(states[i], pending))
    && (forall i | 0 <= i < |passes| :: IsPass(states[i], states[i + 1], passes[i], pending, limit))
  }

  ghost predicate IsPass(before: Sources, next: Sources, pass: Pass, pending: set<string>, limit: nat) {
    && |pass.chosen| == |pass.stamps|
    && IsSelection(before, limit, pass.chosen)
    && var after := AfterPass(before, pass);
    forall a <- pending :: a in after && a in next && next[a].lastAttemptAt == after[a].lastAttemptAt
  }

  /** The fixed set of sources that keep being pending. */
  ghost predicate PendingIs(sources: Sources, pending: set<string>) {
    pending == set a <- sources | sources[a].pending
  }

  /** The clock has moved on: every stamp of the window is later than every stamp before it. */
  ghost predicate ClockAdvanced(before: Sources, passes: seq<Pass>) {
    forall i, j, a | 0 <= i < |passes| && 0 <= j < |passes[i].stamps| && a in before ::
      before[a].lastAttemptAt < passes[i].stamps[j]
  }

  ghost predicate Attempted(passes: seq<Pass>, a: string) {
    exists i | 0 <= i < |passes| :: a in passes[i].chosen
  }

  lemma {:induction false} TouchStamps(sources: Sources, pass: Pass, n: nat)
    requires n <= |pass.chosen| == |pass.stamps|
    ensures var after := AfterTouches(sources, pass, n);
            && after.Keys == sources.Keys
            && forall a <- sources ::
                 if a in pass.chosen[..n] then after[a].lastAttemptAt in pass.stamps else after[a] == sources[a]
  {
    if n != 0 {
      TouchStamps(sources, pass, n - 1);
      assert pass.chosen[..n] == pass.chosen[..n - 1] + [pass.chosen[n - 1]];
    }
  }

  lemma TouchOne(sources: Sources, activity: string, now: int)
    ensures var after := AfterTouch(sources, activity, now);
            && after.Keys == sources.Keys
            && (forall a <- sources | a != activity :: after[a] == sources[a])
            && (activity in sources ==>
                  var was := sources[activity];
                  after[activity] == Source(was.context, was.pending, was.generation, now))
  {
  }

  /** A pass stamps each source it chose with its own time, and changes nothing else. */
  lemma {:induction false} PassExactly(sources: Sources, pass: Pass, n: nat)
    requires n <= |pass.chosen| == |pass.stamps|
    requires forall i, j | 0 <= i < j < |pass.chosen| :: pass.chosen[i] != pass.chosen[j]
    ensures var after := AfterTouches(sources, pass, n);
            && after.Keys == sources.Keys
            && (forall a <- sources | a !in pass.chosen[..n] :: after[a] == sources[a])
            && (forall i | 0 <= i < n && pass.chosen[i] in sources ::
                  var was := sources[pass.chosen[i]];
                  after[pass.chosen[i]] == Source(was.context, was.pending, was.generation, pass.stamps[i]))
  {
    if n != 0 {
      PassExactly(sources, pass, n - 1);
      TouchOne(AfterTouches(sources, pass, n - 1), pass.chosen[n - 1], pass.stamps[n - 1]);
      hide AfterTouch;
      assert pass.chosen[n - 1] !in pass.chosen[..n - 1];
      assert pass.chosen[..n] == pass.chosen[..n - 1] + [pass.chosen[n - 1]];
    }
  }

  /** Sources not yet attempted in the window keep their old stamp; the others carry a later one. */
  ghost predicate Split(before: Sources, now: Sources, pending: set<string>, left: set<string>) {
    && left <= pending && pending <= before.Keys && pending <= now.Keys
    && (forall a <- left :: now[a].lastAttemptAt == before[a].lastAttemptAt)
    && (forall a, b | a in pending - left && b in pending :: before[b].lastAttemptAt < now[a].lastAttemptAt)
  }

  function Elements(chosen: seq<string>): set<string> { set a <- chosen }

  lemma {:induction false} DistinctCount(chosen: seq<string>)
    requires forall i, j | 0 <= i < j < |chosen| :: chosen[i] != chosen[j]
    ensures |Elements(chosen)| == |chosen|
  {
    if chosen != [] {
      var n := |chosen| - 1;
      DistinctCount(chosen[..n]);
      assert Elements(chosen) == Elements(chosen[..n]) + {chosen[n]};
    }
  }

  lemma PassKeepsSplit(before: Sources, now: Sources, next: Sources, pending: set<string>, left: set<string>,
        pass: Pass, limit: nat)
    requires PendingIs(now, pending) && Split(before, now, pending, left)
    requires IsPass(now, next, pass, pending, limit)
    requires forall j, a | 0 <= j < |pass.stamps| && a in before :: before[a].lastAttemptAt < pass.stamps[j]
    ensures Split(before, next, pending, left - Elements(pass.chosen))
  {
    TouchStamps(now, pass, |pass.chosen|);
    assert pass.chosen[..|pass.chosen|] == pass.chosen;
  }

  /** A pass attempts either all that are left, or `limit` of them. */
  lemma PassProgress(before: Sources, now: Sources, pending: set<string>, left: set<string>, chosen: seq<string>,
        limit: nat)
    requires PendingIs(now, pending) && Split(before, now, pending, left) && IsSelection(now, limit, chosen)
    ensures left <= Elements(chosen) || |left - Elements(chosen)| == |left| - limit
  {
    if y :| y in left - Elements(chosen) {
      forall c <- chosen ensures c in left {
        assert now[c].lastAttemptAt <= now[y].lastAttemptAt;
      }
      DistinctCount(chosen);
      assert Elements(chosen) <= left;
    }
  }

  lemma AttemptedMore(passes: seq<Pass>, a: string)
    requires passes != []
    ensures Attempted(passes[..|passes| - 1], a) || a in passes[|passes| - 1].chosen ==> Attempted(passes, a)
  {
    var n := |passes| - 1;
    if Attempted(passes[..n], a) {
      var i :| 0 <= i < n && a in passes[..n][i].chosen;
      assert a in passes[i].chosen;
    }
  }

  lemma WindowPrefix(states: seq<Sources>, passes: seq<Pass>, pending: set<string>, limit: nat)
    requires IsWindow(states, passes, pending, limit) && passes != [] && ClockAdvanced(states[0], passes)
    ensures var n := |passes| - 1;
            IsWindow(states[..n + 1], passes[..n], pending, limit) && ClockAdvanced(states[0], passes[..n])
  {
  }

  /** After `k` passes exactly `|pending| - k * limit` sources, or none, are still waiting for theirs. */
  lemma {:induction false} WindowProgress(states: seq<Sources>, passes: seq<Pass>, pending: set<string>,
        limit: nat) returns (left: set<string>)
    requires IsWindow(states, passes, pending, limit) && ClockAdvanced(states[0], passes)
    ensures Split(states[0], states[|passes|], pending, left)
    ensures forall a <- pending - left :: Attempted(passes, a)
    ensures left == {} || |left| + |passes| * limit == |pending|
    decreases |passes|
  {
    if passes == [] {
      left := pending;
    } else {
      var n := |passes| - 1;
      WindowPrefix(states, passes, pending, limit);
      var earlier := WindowProgress(states[..n + 1], passes[..n], pending, limit);
      PassKeepsSplit(states[0], states[n], states[n + 1], pending, earlier, passes[n], limit);
      PassProgress(states[0], states[n], pending, earlier, passes[n].chosen, limit);
      left := earlier - Elements(passes[n].chosen);
      forall a <- pending - left ensures Attempted(passes, a) {
        AttemptedMore(passes, a);
      }
      TimesNext(n, limit);
    }
  }

  lemma TimesNext(n: nat, limit: nat)
    ensures (n + 1) * limit == n * limit + limit
  {
  }

  /** n sources are all attempted within any window of ceil(n / limit) consecutive passes, however ties are ordered. */
  lemma EverySourceAttempted(states: seq<Sources>, passes: seq<Pass>, pending: set<string>, limit: nat, a: string)
    requires IsWindow(states, passes, pending, limit) && ClockAdvanced(states[0], passes)
    requires limit > 0 && |passes| >= (|pending| + limit - 1) / limit
    requires a in pending
    ensures Attempted(passes, a)
  {
    var left := WindowProgress(states, passes, pending, limit);
    CeilingCovers(|pending|, limit, |passes|);
    assert left == {};
  }

  lemma CeilingCovers(n: nat, limit: nat, k: nat)
    requires limit > 0 && k >= (n + limit - 1) / limit
    ensures k * limit >= n
  {
    var q := (n + limit - 1) / limit;
    assert q * limit + limit > n + limit - 1;
    assert k * limit >= q * limit;
  }

  lemma {:induction false} LeastRecent(sources: Sources, names: set<string>) returns (a: string)
    requires names != {} && names <= sources.Keys
    ensures a in names && forall b <- names :: sources[a].lastAttemptAt <= sources[b].lastAttemptAt
    decreases |names|
  {
    var some :| some in names;
    var others := names - {some};
    a := some;
    if others != {} {
      var c := LeastRecent(sources, others);
      if sources[c].lastAttemptAt < sources[some].lastAttemptAt { a := c; }
    }
    forall b <- names ensures sources[a].lastAttemptAt <= sources[b].lastAttemptAt {
      assert b == some || b in others;
    }
  }

  class Recovery {
    const store: CommentarySources
    var running: bool

    constructor (store: CommentarySources)
      ensures this.store == store && !running
    {
      this.store := store;
      running := false;
    }

    /** SELECT ... WHERE pending=1 ORDER BY last_attempt_at LIMIT limit */
    method PendingSources(limit: nat) returns (chosen: seq<string>)
      ensures IsSelection(store.rows, limit, chosen)
    {
      var rows := store.rows;
      chosen := [];
      var left := set a <- rows | rows[a].pending;
      while left != {} && |chosen| < limit
        invariant |chosen| <= limit && left <= rows.Keys
        invariant forall a <- left :: rows[a].pending
        invariant forall a <- rows :: rows[a].pending ==> a in left || a in chosen
        invariant forall i | 0 <= i < |chosen| :: chosen[i] in rows && rows[chosen[i]].pending && chosen[i] !in left
        invariant forall i, j | 0 <= i < j < |chosen| ::
            chosen[i] != chosen[j] && rows[chosen[i]].lastAttemptAt <= rows[chosen[j]].lastAttemptAt
        invariant forall c, a | c in chosen && a in left :: c in rows && rows[c].lastAttemptAt <= rows[a].lastAttemptAt
        decreases |left|
      {
        ghost var least := LeastRecent(rows, left);
        var a :| a in left && forall b <- left :: rows[a].lastAttemptAt <= rows[b].lastAttemptAt;
        chosen, left := chosen + [a], left - {a};
      }
    }

    /** `clock` is what Date.now() answers to each touch of the pass. */
    method RecoverSources(clock: nat -> int) returns (pass: Pass)
      modifies this, store
      ensures running == old(running)
      ensures |pass.chosen| == |pass.stamps|
      ensures old(running) ==> pass.chosen == [] && store.rows == old(store.rows)
      ensures !old(running) ==> IsSelection(old(store.rows), PASS_LIMIT, pass.chosen)
      ensures store.rows == AfterPass(old(store.rows), pass)
      ensures forall j | 0 <= j < |pass.stamps| :: pass.stamps[j] == clock(j)
    {
      if running { return Pass([], []); }
      running := true;
      var chosen := PendingSources(PASS_LIMIT);
      pass := Pass(chosen, seq(|chosen|, j requires 0 <= j < |chosen| => clock(j)));
      var n := 0;
      while n < |chosen|
        invariant n <= |chosen| && running
        invariant store.rows == AfterTouches(old(store.rows), pass, n)
      {
        store.Touch(chosen[n], pass.stamps[n]);
        n := n + 1;
      }
      running := false;
    }
  }
}

/** One recovery pass over the publication table: the loop, what it does to each row, and the steps it takes. */
module OutboxRecovery {
  import opened OutboxProtocol
  import opened OutboxRows
  import opened OutboxTable
  import opened Paths
  import opened Wrappers

  /** No identity is at hand; Tower takes the request, or rejects it as stale or ended; or the delivery fails. */
  datatype Fate = NoIdentity | Converged | NotDelivered

  ghost function AfterItem(t: Table, key: Key, fate: Fate, now: int): Table {
    match fate
    case NoIdentity => t
    case Converged => AfterAccept(t, key)
    case NotDelivered => AfterDefer(AfterFail(t, key), key, now, BASE_DELAY_MS, MAX_DELAY_MS)
  }

  /** The table after the first `n` items. */
  ghost function AfterItems(t: Table, items: seq<Item>, fates: nat -> Fate, clock: nat -> int, n: nat): Table
    requires n <= |items|
  {
    if n == 0 then t
    else AfterItem(AfterItems(t, items, fates, clock, n - 1), items[n - 1].key, fates(n - 1), clock(n - 1))
  }

  /** Replays what is due, in order of sequence, a hundred rows at most. */
  method RecoverRows(store: PublicationStore, now: int, fates: nat -> Fate, clock: nat -> int)
    returns (ghost items: seq<Item>)
    modifies store
    ensures IsPendingAnswer(old(store.rows), now, 100, items)
    ensures store.rows == AfterItems(old(store.rows), items, fates, clock, |items|)
  {
    var pending := store.Pending(now, RECOVERY_LIMIT);
    items := pending;
    var i := 0;
    while i < |pending|
      invariant i <= |pending| && store.rows == AfterItems(old(store.rows), items, fates, clock, i)
    {
      var key := pending[i].key;
      match fates(i) {
        case NoIdentity =>
        case Converged => store.MarkAccepted(key);
        case NotDelivered =>
          store.MarkFailed(key);
          var next := store.DeferAfterFailure(key, clock(i), BASE_DELAY_MS, MAX_DELAY_MS);
      }
      i := i + 1;
    }
  }

  // ----- row by row -----

  /** What a pass makes of one of its rows. */
  ghost predicate IsSettled(before: Row, after: Row, fate: Fate, now: int) {
    match fate
    case NoIdentity => after == before
    case Converged => after == before.(status := Accepted)
    case NotDelivered =>
      after == Row(before.sequence, Failed, before.attempts + 1,
                   now + Backoff(before.attempts, 10_000, 900_000), before.payload)
  }

  lemma ItemExactly(t: Table, key: Key, fate: Fate, now: int)
    requires key in t && t[key].status != Accepted
    ensures var u := AfterItem(t, key, fate, now);
            u.Keys == t.Keys && OthersStay(t, u, key) && IsSettled(t[key], u[key], fate, now)
  {
    hide Backoff;
  }

  lemma {:induction false} ItemsExactly(t: Table, items: seq<Item>, fates: nat -> Fate, clock: nat -> int, n: nat)
    requires n <= |items| && forall i | 0 <= i < |items| :: items[i].key in t && t[items[i].key].status != Accepted
    requires forall i, j | 0 <= i < j < |items| :: items[i].key != items[j].key
    ensures var u := AfterItems(t, items, fates, clock, n);
            && u.Keys == t.Keys
            && (forall i | 0 <= i < n :: IsSettled(t[items[i].key], u[items[i].key], fates(i), clock(i)))
            && (forall k <- t :: (forall i | 0 <= i < n :: items[i].key != k) ==> u[k] == t[k])
  {
    hide AfterItem, IsSettled;
    if n > 0 {
      ItemsExactly(t, items, fates, clock, n - 1);
      ItemExactly(AfterItems(t, items, fates, clock, n - 1), items[n - 1].key, fates(n - 1), clock(n - 1));
    }
  }

  /**
   * A pass accepts what converged, gives every failure its next due time, and touches nothing else; what it tried was
   * due, and no due row that it left out precedes one that it tried.
   */
  lemma PassExactly(t: Table, now: int, items: seq<Item>, fates: nat -> Fate, clock: nat -> int)
    requires IsPendingAnswer(t, now, 100, items)
    ensures var u := AfterItems(t, items, fates, clock, |items|);
            && u.Keys == t.Keys
            && (forall i | 0 <= i < |items| ::
                  IsDue(t, items[i].key, now) && IsSettled(t[items[i].key], u[items[i].key], fates(i), clock(i)))
            && (forall k <- t :: (forall i | 0 <= i < |items| :: items[i].key != k) ==>
                  u[k] == t[k] && (IsDue(t, k, now) ==>
                    |items| == 100 && forall i | 0 <= i < 100 :: t[items[i].key].sequence <= t[k].sequence))
  {
    ItemsExactly(t, items, fates, clock, |items|);
    hide AfterItems, IsSettled;
  }

  // ----- as protocol steps -----

  /** What remains of a pass after its first `n` items, in a state with this table. */
  ghost predicate IsAt(s: State, at: State, w: nat, items: seq<Item>, t: Table, n: nat)
    requires n <= |items|
  {
    && at.table == t
    && at.workers == if n == |items| && n > 0 then s.workers else s.workers[w := Recovery(items[n..], false)]
  }

  lemma SettledWorkers(workers: map<nat, Worker>, w: nat, items: seq<Item>, asked: bool, n: nat, at: State)
    requires w !in workers && n < |items| && at.workers == workers[w := Recovery(items[n..], asked)]
    ensures Settle(at, w) == if n + 1 == |items| then workers else workers[w := Recovery(items[n + 1..], false)]
  {
    assert items[n..][1..] == items[n + 1..];
    assert workers[w := Recovery(items[n..], asked)] - {w} == workers;
  }

  /** One item of a pass takes one to three steps. */
  lemma ItemLeads(s: State, at: State, keys: Keys, w: nat, items: seq<Item>, n: nat, fate: Fate, now: int)
    returns (next: State)
    requires w !in s.workers && n < |items| && Leads(s, at, Steps(keys)) && IsAt(s, at, w, items, at.table, n)
    ensures Leads(s, next, Steps(keys))
    ensures IsAt(s, next, w, items, AfterItem(at.table, items[n].key, fate, now), n + 1)
  {
    hide Leads, AfterAccept, AfterFail, AfterDefer, Raise;
    var rest, key, m := items[n..], items[n].key, MessageOf(items[n]);
    assert rest[0] == items[n] && at.workers[w] == Recovery(rest, false);
    SettledWorkers(s.workers, w, items, false, n, at);
    match fate
    case NoIdentity =>
      next := at.(workers := Settle(at, w));
      GoesOn(s, at, SkipsItem(w), next, Steps(keys));
    case NotDelivered =>
      next := at.(table := AfterDefer(AfterFail(at.table, key), key, now, BASE_DELAY_MS, MAX_DELAY_MS),
                  workers := Settle(at, w));
      GoesOn(s, at, GivesUp(w, now), next, Steps(keys));
    case Converged =>
      var sent := at.(sent := at.sent + {m}, workers := at.workers[w := Recovery(rest, true)]);
      GoesOn(s, at, Sends(w), sent, Steps(keys));
      var handled := sent.(tower := Raise(sent.tower, m), answers := sent.answers + {m});
      GoesOn(s, sent, Handles(m), handled, Steps(keys));
      assert handled.workers == s.workers[w := Recovery(rest, true)];
      SettledWorkers(s.workers, w, items, true, n, handled);
      next := handled.(table := AfterAccept(handled.table, key), workers := Settle(handled, w));
      GoesOn(s, handled, Converges(w), next, Steps(keys));
  }

  lemma {:induction false} ItemsLead(s: State, at: State, keys: Keys, w: nat, items: seq<Item>, n: nat,
        fates: nat -> Fate, clock: nat -> int)
    returns (last: State)
    requires w !in s.workers && n <= |items| && Leads(s, at, Steps(keys))
    requires IsAt(s, at, w, items, AfterItems(s.table, items, fates, clock, n), n)
    ensures Leads(s, last, Steps(keys))
    ensures IsAt(s, last, w, items, AfterItems(s.table, items, fates, clock, |items|), |items|)
    decreases |items| - n
  {
    hide Leads, AfterItem;
    last := at;
    if n < |items| {
      var next := ItemLeads(s, at, keys, w, items, n, fates(n), clock(n));
      last := ItemsLead(s, next, keys, w, items, n + 1, fates, clock);
    }
  }

  /** A pass that nothing interleaves with is a path of protocol steps, so convergence covers it. */
  lemma PassIsAPath(s: State, keys: Keys, w: nat, now: int, items: seq<Item>, fates: nat -> Fate, clock: nat -> int)
    returns (last: State)
    requires w !in s.workers && IsPendingAnswer(s.table, now, 100, items)
    ensures Leads(s, last, Steps(keys)) && last.workers == s.workers
    ensures last.table == AfterItems(s.table, items, fates, clock, |items|)
  {
    var started := s.(workers := s.workers[w := Recovery(items, false)]);
    Begins(s, Steps(keys));
    GoesOn(s, s, StartsRecovery(w, now, items), started, Steps(keys));
    assert items[0..] == items;
    hide Leads, AfterItem, IsPendingAnswer;
    last := ItemsLead(s, started, keys, w, items, 0, fates, clock);
    if items == [] {
      var stopped := last.(workers := s.workers);
      assert last.workers - {w} == s.workers;
      GoesOn(s, last, Stops(w), stopped, Steps(keys));
      last := stopped;
    }
  }
}

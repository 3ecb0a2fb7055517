/** The pacing of broker calls: at least 650 ms apart, so below the broker's 120 a minute. */
module BrokerPacer {

  const INTERVAL_MS: int := 650
  const WINDOW_MS: int := 60_000
  const BROKER_LIMIT: int := 120

  function Max(a: int, b: int): int { if a < b then b else a }

  /** A call reads the clock twice; it is released once its wait is over. */
  datatype Call = Call(first: int, second: int)

  function ReleaseAt(next: int, call: Call): int {
    call.first + Max(0, next - call.first)
  }

  function NextAfter(next: int, call: Call): int {
    Max(call.second, next) + INTERVAL_MS
  }

  /** The earliest time of the next release after `n` calls. */
  function NextCallAt(calls: seq<Call>, n: nat): int
    requires n <= |calls|
  {
    if n == 0 then 0 else NextAfter(NextCallAt(calls, n - 1), calls[n - 1])
  }

  function Released(calls: seq<Call>, i: nat): int
    requires i < |calls|
  {
    ReleaseAt(NextCallAt(calls, i), calls[i])
  }

  /** The clock never runs backwards. */
  ghost predicate ClockRuns(calls: seq<Call>) {
    forall i | 0 <= i < |calls| :: calls[i].first <= calls[i].second
  }

  lemma {:induction false} ReleasesAreSpaced(calls: seq<Call>, i: nat, j: nat)
    requires ClockRuns(calls) && i < j < |calls|
    ensures Released(calls, j) - Released(calls, i) >= INTERVAL_MS * (j - i)
    ensures NextCallAt(calls, j) >= Released(calls, i) + INTERVAL_MS * (j - i)
    decreases j
  {
    if j != i + 1 { ReleasesAreSpaced(calls, i, j - 1); }
  }

  /** Any sixty seconds see at most 93 releases, well below the broker's limit. */
  lemma AtMost93PerMinute(calls: seq<Call>, i: nat, j: nat)
    requires ClockRuns(calls) && i <= j < |calls|
    requires Released(calls, j) - Released(calls, i) <= WINDOW_MS
    ensures j - i + 1 <= 93 < BROKER_LIMIT
  {
    if i < j { ReleasesAreSpaced(calls, i, j); }
  }

  /** The `n`th release may not come before `t`: the pacer starts free, and each call pushes the later ones back. */
  ghost predicate IsBound(calls: seq<Call>, n: nat, t: int)
    requires n <= |calls|
  {
    t == INTERVAL_MS * n || exists j | 0 <= j < n :: t == calls[j].second + INTERVAL_MS * (n - j)
  }

  lemma {:induction false} NextIsGreatestBound(calls: seq<Call>, n: nat)
    requires n <= |calls|
    ensures IsBound(calls, n, NextCallAt(calls, n))
    ensures forall t | IsBound(calls, n, t) :: t <= NextCallAt(calls, n)
  {
    if n > 0 {
      NextIsGreatestBound(calls, n - 1);
      var last := NextCallAt(calls, n - 1);
      forall t | IsBound(calls, n, t) ensures t <= NextCallAt(calls, n) {
        if t == INTERVAL_MS * n {
          assert IsBound(calls, n - 1, INTERVAL_MS * (n - 1));
        } else {
          var j :| 0 <= j < n && t == calls[j].second + INTERVAL_MS * (n - j);
          if j < n - 1 { assert IsBound(calls, n - 1, calls[j].second + INTERVAL_MS * (n - 1 - j)); }
        }
      }
      if calls[n - 1].second < last && last != INTERVAL_MS * (n - 1) {
        var j :| 0 <= j < n - 1 && last == calls[j].second + INTERVAL_MS * (n - 1 - j);
        assert NextCallAt(calls, n) == calls[j].second + INTERVAL_MS * (n - j);
      }
    }
  }

  /** A call is released at once if every earlier one is far enough behind it, and otherwise as soon as that is so. */
  lemma ReleasedExactly(calls: seq<Call>, i: nat, t: int)
    requires i < |calls|
    ensures Released(calls, i) <= t <==> calls[i].first <= t && forall b | IsBound(calls, i, b) :: b <= t
  {
    NextIsGreatestBound(calls, i);
  }

  class Pacer {
    var nextBrokerCallAt: int
    ghost var calls: seq<Call>

    ghost predicate Valid()
      reads this
    {
      nextBrokerCallAt == NextCallAt(calls, |calls|)
    }

    constructor ()
      ensures Valid() && calls == []
    {
      nextBrokerCallAt, calls := 0, [];
    }

    method Pace(first: int, second: int) returns (waitMs: int)
      requires Valid()
      modifies this
      ensures Valid() && calls == old(calls) + [Call(first, second)]
      ensures waitMs >= 0 && first + waitMs == Released(calls, |calls| - 1)
    {
      PrefixSame(calls, [Call(first, second)], |calls|);
      waitMs := Max(0, nextBrokerCallAt - first);
      nextBrokerCallAt := Max(second, nextBrokerCallAt) + INTERVAL_MS;
      calls := calls + [Call(first, second)];
    }
  }

  lemma {:induction false} PrefixSame(calls: seq<Call>, more: seq<Call>, n: nat)
    requires n <= |calls|
    ensures NextCallAt(calls + more, n) == NextCallAt(calls, n)
  {
    if n != 0 { PrefixSame(calls, more, n - 1); }
  }
}

/** What each statement on the publication table does to each row, and which rows are offered for replay when. */
module OutboxRows {
  import opened OutboxTable
  import opened Wrappers

  /** Every row but this one is as it was. */
  ghost predicate OthersStay(t: Table, u: Table, key: Key) {
    && (forall k <- t :: k != key ==> k in u && u[k] == t[k])
    && (forall k <- u :: k != key ==> k in t)
  }

  /** The next free sequence of the activity, above a base. */
  ghost predicate IsNext(t: Table, activity: string, base: int, sequence: int) {
    && base < sequence && (forall k <- t :: k.activity == activity ==> t[k].sequence < sequence)
    && (sequence == base + 1 || exists k <- t :: k.activity == activity && t[k].sequence == sequence - 1)
  }

  /** A claim of an accepted event is a duplicate and changes nothing; any other leaves its row emitted once more. */
  lemma ClaimExactly(t: Table, key: Key, base: int, payload: Option<Payload>)
    ensures var u, answer := Apply(t, ClaimOp(key, base, payload)), ClaimAnswer(t, key, base);
            if key in t && t[key].status == Accepted then u == t && answer == Answer(t[key].sequence, true, true)
            else
              && key in u && OthersStay(t, u, key) && answer == Answer(u[key].sequence, false, false)
              && u[key].status == Emitted
              && u[key].payload == (if payload.Some? then Some(Payload(payload.value.terminal, u[key].sequence))
                                    else if key in t then t[key].payload else None)
              && if key in t then u[key].sequence == t[key].sequence && u[key].attempts == t[key].attempts + 1 &&
                                  u[key].nextAttemptAt == t[key].nextAttemptAt
                 else u[key].attempts == 1 && u[key].nextAttemptAt == 0 &&
                      IsNext(t, key.activity, base, u[key].sequence)
  {
    if key !in t { assert IsLatest(t, key.activity, base, Latest(t, key.activity, base)); }
  }

  /** Acceptance is for good; failure leaves it alone; neither makes a row. */
  lemma MarkExactly(t: Table, key: Key)
    ensures var accepted, failed := Apply(t, AcceptOp(key)), Apply(t, FailOp(key));
            && accepted.Keys == t.Keys == failed.Keys && OthersStay(t, accepted, key) && OthersStay(t, failed, key)
            && (key in t ==> accepted[key] == t[key].(status := Accepted))
            && (key in t ==> failed[key] == if t[key].status == Accepted then t[key] else t[key].(status := Failed))
  {
  }

  /** A failed replay waits twice as long for every attempt before it, up to the cap and sixteen doublings. */
  lemma DeferExactly(t: Table, key: Key, now: int, firstDelay: nat, cap: nat)
    ensures var u := Apply(t, DeferOp(key, now, firstDelay, cap));
            && u.Keys == t.Keys && OthersStay(t, u, key)
            && (key in t ==>
                  var shift := if t[key].attempts < 16 then t[key].attempts else 16;
                  var delay := firstDelay * Pow2(shift);
                  u[key] == t[key].(attempts := t[key].attempts + 1,
                                    nextAttemptAt := now + if delay < cap then delay else cap))
  {
    hide Pow2;
  }

  /** With the delays of the store: 10, 20, 40, 80, 160, 320 and 640 seconds, and a quarter of an hour from then on. */
  lemma DelaysExactly(attempts: nat)
    ensures Backoff(attempts, BASE_DELAY_MS, MAX_DELAY_MS) ==
            if attempts < 7 then [10_000, 20_000, 40_000, 80_000, 160_000, 320_000, 640_000][attempts] else 900_000
    decreases attempts
  {
    BackoffDoubles(attempts, BASE_DELAY_MS, MAX_DELAY_MS);
    if attempts > 0 {
      BackoffDoubles(attempts - 1, BASE_DELAY_MS, MAX_DELAY_MS);
      DelaysExactly(attempts - 1);
    }
    hide Backoff;
  }

  /** A rename moves a row as it is, and only to a free key. */
  lemma MigrateExactly(t: Table, target: Key, legacy: Key)
    ensures var u := Apply(t, MigrateOp(target, legacy));
            if legacy in t && target !in t then
              && u.Keys == t.Keys - {legacy} + {target} && u[target] == t[legacy]
              && forall k <- t :: k != legacy ==> u[k] == t[k]
            else u == t
  {
  }

  // ----- heartbeats and replay -----

  predicate IsLetterOf(c: char, lower: char, upper: char) {
    c == lower || c == upper
  }

  /** The event's name starts with `heartbeat:` in letters of any case. */
  predicate IsBeat(event: string) {
    && |event| > 9
    && IsLetterOf(event[0], 'h', 'H') && IsLetterOf(event[1], 'e', 'E') && IsLetterOf(event[2], 'a', 'A')
    && IsLetterOf(event[3], 'r', 'R') && IsLetterOf(event[4], 't', 'T') && IsLetterOf(event[5], 'b', 'B')
    && IsLetterOf(event[6], 'e', 'E') && IsLetterOf(event[7], 'a', 'A') && IsLetterOf(event[8], 't', 'T')
    && event[9] == ':'
  }

  lemma LetterExactly(c: char, lower: char)
    ensures 'a' <= lower <= 'z' ==> (Lower(c) == lower <==> c == lower || c == lower - 'a' + 'A')
    ensures Lower(c) == ':' <==> c == ':'
  {
  }

  lemma HeartbeatExactly(event: string)
    ensures IsHeartbeat(event) <==> IsBeat(event)
  {
    if |event| > 9 {
      var name := LowerAll(event[..10]);
      assert name == "heartbeat:" <==> forall i | 0 <= i < 10 :: name[i] == "heartbeat:"[i];
      assert forall i | 0 <= i < 10 :: name[i] == Lower(event[i]);
      LetterExactly(event[0], 'h'); LetterExactly(event[1], 'e'); LetterExactly(event[2], 'a');
      LetterExactly(event[3], 'r'); LetterExactly(event[4], 't'); LetterExactly(event[5], 'b');
      LetterExactly(event[6], 'e'); LetterExactly(event[7], 'a'); LetterExactly(event[8], 't');
      LetterExactly(event[9], ':');
      hide Lower, LowerAll;
    }
  }

  /** A row is offered for replay exactly while it is not accepted, has a payload, is no heartbeat's and is due. */
  lemma OfferedExactly(t: Table, key: Key, now: int)
    ensures IsDue(t, key, now) <==>
            key in t && t[key].status != Accepted && t[key].payload != None && !IsBeat(key.event) &&
            t[key].nextAttemptAt <= now
  {
    HeartbeatExactly(key.event);
    hide IsHeartbeat, IsBeat;
  }
}

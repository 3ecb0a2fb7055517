/**
 When the calls for one importable event import it twice: exactly if the schedule of their
 beginnings and ends lets two of them overlap, and Tower and the manager answer accordingly.
 */
module GrantSchedule {
  import opened AccessGrant
  import opened AgentConnect
  import opened GrantProcess
  import opened Json
  import opened TowerVerify
  import opened Wrappers

  /** A call begins, or it gets its last answer. */
  datatype Moment = Starts(id: nat) | Stops(id: nat)

  // ----- schedules -----

  /** The calls that have started and not stopped. */
  function Unfinished(moments: seq<Moment>): set<nat> {
    if moments == [] then {} else
    var before := Unfinished(moments[..|moments| - 1]);
    match moments[|moments| - 1]
    case Starts(id) => before + {id}
    case Stops(id) => before - {id}
  }

  /** Each call starts once, and all that start stop. */
  ghost predicate IsSchedule(moments: seq<Moment>) {
    && (forall p, q | 0 <= p < q < |moments| && moments[p].Starts? && moments[q].Starts? ::
          moments[p].id != moments[q].id)
    && Unfinished(moments) == {}
  }

  /** Some call starts while another one has not stopped. */
  ghost predicate Overlaps(moments: seq<Moment>) {
    exists q :: 0 <= q < |moments| && moments[q].Starts? && Unfinished(moments[..q]) != {}
  }

  lemma UnfinishedGrows(moments: seq<Moment>, n: nat)
    requires n < |moments|
    ensures Unfinished(moments[..n + 1]) ==
            if moments[n].Starts? then Unfinished(moments[..n]) + {moments[n].id}
            else Unfinished(moments[..n]) - {moments[n].id}
  {
    assert moments[..n + 1][..n] == moments[..n];
  }

  /** A call that becomes unfinished has started in between. */
  lemma {:induction false} StartedBetween(moments: seq<Moment>, id: nat, a: nat, b: nat) returns (p: nat)
    requires a <= b <= |moments| && id !in Unfinished(moments[..a]) && id in Unfinished(moments[..b])
    ensures a <= p < b && moments[p] == Starts(id)
  {
    UnfinishedGrows(moments, b - 1);
    if id in Unfinished(moments[..b - 1]) {
      p := StartedBetween(moments, id, a, b - 1);
    } else {
      p := b - 1;
    }
  }

  // ----- what a schedule makes of willing and unwilling answers -----

  /** Whether the import is recorded, the calls under way, and how many imports were made. */
  datatype Desk = Desk(recorded: bool, open: set<nat>, imported: nat)

  function Next(desk: Desk, moment: Moment, willing: nat -> bool): Desk {
    match moment
    case Starts(id) => if desk.recorded then desk else desk.(open := desk.open + {id})
    case Stops(id) =>
      if id !in desk.open then desk
      else if willing(id) then Desk(true, desk.open - {id}, desk.imported + 1)
      else desk.(open := desk.open - {id})
  }

  function After(moments: seq<Moment>, willing: nat -> bool): Desk {
    if moments == [] then Desk(false, {}, 0)
    else Next(After(moments[..|moments| - 1], willing), moments[|moments| - 1], willing)
  }

  lemma AfterGrows(moments: seq<Moment>, willing: nat -> bool, n: nat)
    requires n < |moments|
    ensures After(moments[..n + 1], willing) == Next(After(moments[..n], willing), moments[n], willing)
  {
    assert moments[..n + 1][..n] == moments[..n];
  }

  lemma OnlyOne(all: set<nat>, some: set<nat>, id: nat)
    requires some <= all && |all| <= 1
    ensures |all - {id}| <= 1 && (id in some ==> some == {id})
  {
    if id in all {
      assert all == {id} + (all - {id});
      assert all - {id} == {};
    } else {
      assert all - {id} == all;
    }
  }

  /** Of at most one unfinished call, at most one is under way, and none once the import is recorded. */
  ghost predicate IsSingle(desk: Desk, unfinished: set<nat>) {
    && desk.open <= unfinished && |unfinished| <= 1
    && desk.imported == (if desk.recorded then 1 else 0) && (desk.recorded ==> desk.open == {})
  }

  lemma StaysSingle(desk: Desk, unfinished: set<nat>, moment: Moment, willing: nat -> bool)
    requires IsSingle(desk, unfinished) && (moment.Starts? ==> unfinished == {})
    ensures IsSingle(Next(desk, moment, willing),
                     if moment.Starts? then unfinished + {moment.id} else unfinished - {moment.id})
  {
    OnlyOne(unfinished, desk.open, moment.id);
  }

  lemma {:induction false} OneAtATime(moments: seq<Moment>, willing: nat -> bool, n: nat)
    requires n <= |moments| && !Overlaps(moments)
    ensures IsSingle(After(moments[..n], willing), Unfinished(moments[..n]))
  {
    if n > 0 {
      OneAtATime(moments, willing, n - 1);
      UnfinishedGrows(moments, n - 1);
      AfterGrows(moments, willing, n - 1);
      assert moments[n - 1].Starts? ==> Unfinished(moments[..n - 1]) == {};
      hide IsSingle, Next, After, Unfinished, Overlaps;
      StaysSingle(After(moments[..n - 1], willing), Unfinished(moments[..n - 1]), moments[n - 1], willing);
    }
  }

  /** The two calls that overlap: `i` has not stopped when `j` starts at `q`. */
  ghost predicate IsOverlap(moments: seq<Moment>, i: nat, j: nat, q: nat) {
    q < |moments| && moments[q] == Starts(j) && i in Unfinished(moments[..q]) && IsSchedule(moments)
  }

  /** Neither of them stops before the second one starts. */
  lemma NotStoppedYet(moments: seq<Moment>, i: nat, j: nat, q: nat, n: nat)
    requires IsOverlap(moments, i, j, q) && n < q
    ensures j !in Unfinished(moments[..n])
    ensures moments[n] == Stops(i) ==> i !in Unfinished(moments[..n])
  {
    hide Unfinished;
    assert Unfinished(moments[..0]) == {} by { NothingUnfinished(moments); }
    if j in Unfinished(moments[..n]) {
      var p := StartedBetween(moments, j, 0, n);
    }
    UnfinishedGrows(moments, n);
    if moments[n] == Stops(i) && i in Unfinished(moments[..n]) {
      var p := StartedBetween(moments, i, 0, n);
      var r := StartedBetween(moments, i, n + 1, q);
    }
  }

  lemma NothingUnfinished(moments: seq<Moment>)
    ensures Unfinished(moments[..0]) == {}
  {
  }

  lemma TheyDiffer(moments: seq<Moment>, i: nat, j: nat, q: nat)
    requires IsOverlap(moments, i, j, q)
    ensures i != j
  {
    NothingUnfinished(moments);
    var p := StartedBetween(moments, i, 0, q);
  }

  /** Only these two are answered willingly. */
  function TheTwo(i: nat, j: nat): nat -> bool {
    (id: nat) => id == i || id == j
  }

  lemma {:induction false} NothingImportedYet(moments: seq<Moment>, i: nat, j: nat, q: nat, n: nat)
    requires IsOverlap(moments, i, j, q) && n <= q
    ensures After(moments[..n], TheTwo(i, j)) == Desk(false, Unfinished(moments[..n]), 0)
  {
    assert q < |moments|;
    hide IsOverlap;
    if n > 0 {
      NothingImportedYet(moments, i, j, q, n - 1);
      AfterGrows(moments, TheTwo(i, j), n - 1);
      UnfinishedGrows(moments, n - 1);
      NotStoppedYet(moments, i, j, q, n - 1);
    }
  }

  /** From then on each of the two is under way or imported. */
  lemma {:induction false} BothImport(moments: seq<Moment>, i: nat, j: nat, q: nat, n: nat)
    requires IsOverlap(moments, i, j, q) && q < n <= |moments|
    ensures var desk := After(moments[..n], TheTwo(i, j));
            && desk.open <= Unfinished(moments[..n])
            && desk.imported == 2 - (if i in desk.open then 1 else 0) - (if j in desk.open then 1 else 0)
  {
    AfterGrows(moments, TheTwo(i, j), n - 1);
    UnfinishedGrows(moments, n - 1);
    TheyDiffer(moments, i, j, q);
    if n - 1 == q {
      NothingImportedYet(moments, i, j, q, q);
    } else {
      BothImport(moments, i, j, q, n - 1);
      NoneStartsAgain(moments, i, j, q, n - 1);
    }
  }

  lemma NoneStartsAgain(moments: seq<Moment>, i: nat, j: nat, q: nat, n: nat)
    requires IsOverlap(moments, i, j, q) && q < n < |moments|
    ensures moments[n] != Starts(i) && moments[n] != Starts(j)
  {
    hide Unfinished;
    assert Unfinished(moments[..0]) == {} by { NothingUnfinished(moments); }
    var p := StartedBetween(moments, i, 0, q);
  }

  /** Some choice of willing answers makes two imports exactly if two calls overlap. */
  lemma TwoImportsExactly(moments: seq<Moment>)
    requires IsSchedule(moments)
    ensures (exists willing: nat -> bool :: After(moments, willing).imported >= 2) <==> Overlaps(moments)
  {
    hide Unfinished, After;
    assert moments[..|moments|] == moments;
    if Overlaps(moments) {
      var q: nat :| q < |moments| && moments[q].Starts? && Unfinished(moments[..q]) != {};
      var i :| i in Unfinished(moments[..q]);
      BothImport(moments, i, moments[q].id, q, |moments|);
      assert After(moments, TheTwo(i, moments[q].id)).imported == 2;
    } else {
      forall willing: nat -> bool ensures After(moments, willing).imported <= 1 {
        OneAtATime(moments, willing, |moments|);
      }
    }
  }

  // ----- the calls of one event on such a schedule -----

  /** What Tower and the manager answer to one call. */
  datatype Answers = Answers(tower: Tower, manager: Manager)

  function CallOf(calls: nat -> Call, answers: nat -> Answers, id: nat): Call {
    calls(id).(tower := answers(id).tower, manager := answers(id).manager)
  }

  function StepOf(calls: nat -> Call, answers: nat -> Answers, moment: Moment): GrantProcess.Step {
    match moment
    case Starts(id) => Begin(id, CallOf(calls, answers, id))
    case Stops(id) => End(id)
  }

  /** A call that was answered at once has nothing left to do when it stops. */
  function Do(lib: Library, s: Runtime, step: GrantProcess.Step): Runtime {
    if Enabled(s, step) then GrantProcess.Apply(lib, s, step) else s
  }

  function Played(lib: Library, calls: nat -> Call, answers: nat -> Answers, moments: seq<Moment>): Runtime {
    if moments == [] then GrantProcess.EMPTY
    else
      var before := Played(lib, calls, answers, moments[..|moments| - 1]);
      Do(lib, before, StepOf(calls, answers, moments[|moments| - 1]))
  }

  function StepsOf(lib: Library, calls: nat -> Call, answers: nat -> Answers, moments: seq<Moment>):
    seq<GrantProcess.Step>
  {
    if moments == [] then [] else
    var init, step := moments[..|moments| - 1], StepOf(calls, answers, moments[|moments| - 1]);
    if Enabled(Played(lib, calls, answers, init), step) then StepsOf(lib, calls, answers, init) + [step]
    else StepsOf(lib, calls, answers, init)
  }

  /** What is played is a run of the processor. */
  lemma {:induction false} PlayedIsRun(lib: Library, calls: nat -> Call, answers: nat -> Answers, moments: seq<Moment>)
    ensures var steps := StepsOf(lib, calls, answers, moments);
            IsRun(lib, GrantProcess.EMPTY, steps) &&
            Run(lib, GrantProcess.EMPTY, steps) == Played(lib, calls, answers, moments)
    decreases |moments|
  {
    hide GrantProcess.Apply, Enabled, StepOf;
    if moments != [] {
      var init, step := moments[..|moments| - 1], StepOf(calls, answers, moments[|moments| - 1]);
      PlayedIsRun(lib, calls, answers, init);
      if Enabled(Played(lib, calls, answers, init), step) {
        AppendStep(lib, GrantProcess.EMPTY, StepsOf(lib, calls, answers, init), step);
      }
    }
  }

  /** An active grant whose package matches and validates. */
  predicate IsImportable(lib: Library, grant: Grant) {
    && Get(grant.payload, Key.Action) == Str("grant") && Get(grant.payload, Key.Status) == Str("active")
    && Matches(lib, grant) && Validate(lib, Scoped(lib, grant)).Some?
  }

  /** Every call that starts is for the event the grant was decoded from, by an authorized issuer. */
  ghost predicate AreCallsFor(lib: Library, calls: nat -> Call, moments: seq<Moment>, grant: Grant) {
    forall moment <- moments :: moment.Starts? ==>
      DecodeCall(lib, calls(moment.id)) == Ok(grant) && IssuerAuthorized(grant, calls(moment.id))
  }

  /** Tower vouches for the grant and the manager imports it. */
  predicate AreWilling(answers: Answers, grant: Grant) {
    Access(grant, answers.tower).Some? && answers.manager.importError.None?
  }

  function Willingness(answers: nat -> Answers, grant: Grant): nat -> bool {
    (id: nat) => AreWilling(answers(id), grant)
  }

  lemma StartsToImport(lib: Library, call: Call, grant: Grant, processed: set<string>)
    requires DecodeCall(lib, call) == Ok(grant) && IssuerAuthorized(grant, call) && IsImportable(lib, grant)
    ensures Start(lib, call, processed) ==
            if ImportKey(grant) in processed then Replied(Reply(true, "duplicate_skipped"))
            else Importing(grant, ImportKey(grant))
  {
    hide Decode, Matches, Validate, Scoped, ImportKey;
  }

  lemma CallOfDecodes(lib: Library, calls: nat -> Call, answers: nat -> Answers, id: nat, grant: Grant)
    requires DecodeCall(lib, calls(id)) == Ok(grant) && IssuerAuthorized(grant, calls(id))
    ensures DecodeCall(lib, CallOf(calls, answers, id)) == Ok(grant)
    ensures IssuerAuthorized(grant, CallOf(calls, answers, id))
  {
    hide Decode;
  }

  lemma ImportsIfWilling(lib: Library, calls: nat -> Call, answers: nat -> Answers, id: nat, grant: Grant, key: string)
    requires IsImportable(lib, grant)
    ensures Finish(lib, CallOf(calls, answers, id), Importing(grant, key)).1 ==
            if AreWilling(answers(id), grant) then Some(key) else None
  {
    hide Matches, Validate, Scoped, Access, ImportReply;
  }

  /** The runtime does with the grant's key what the desk does. */
  ghost predicate Mirrors(s: Runtime, desk: Desk, calls: nat -> Call, answers: nat -> Answers, grant: Grant) {
    && s.inFlight.Keys == desk.open
    && (forall id <- s.inFlight ::
          s.inFlight[id] == Flight(CallOf(calls, answers, id), Importing(grant, ImportKey(grant))))
    && (ImportKey(grant) in s.processed <==> desk.recorded)
    && ImportCount(s.imports, ImportKey(grant)) == desk.imported
  }

  lemma DoStart(lib: Library, s: Runtime, calls: nat -> Call, answers: nat -> Answers, grant: Grant, id: nat)
    requires IsImportable(lib, grant) && id !in s.inFlight
    requires DecodeCall(lib, calls(id)) == Ok(grant) && IssuerAuthorized(grant, calls(id))
    ensures Do(lib, s, StepOf(calls, answers, Starts(id))) ==
            if ImportKey(grant) in s.processed then s
            else
              var flight := Flight(CallOf(calls, answers, id), Importing(grant, ImportKey(grant)));
              s.(inFlight := s.inFlight[id := flight])
  {
    CallOfDecodes(lib, calls, answers, id, grant);
    StartsToImport(lib, CallOf(calls, answers, id), grant, s.processed);
    hide Start, DecodeCall, IsImportable, IssuerAuthorized, CallOf, ImportKey;
  }

  lemma StartMirrors(lib: Library, s: Runtime, desk: Desk, calls: nat -> Call, answers: nat -> Answers, grant: Grant,
        id: nat)
    requires Mirrors(s, desk, calls, answers, grant) && IsImportable(lib, grant) && id !in desk.open
    requires DecodeCall(lib, calls(id)) == Ok(grant) && IssuerAuthorized(grant, calls(id))
    ensures Mirrors(Do(lib, s, StepOf(calls, answers, Starts(id))), Next(desk, Starts(id), Willingness(answers, grant)),
                    calls, answers, grant)
  {
    DoStart(lib, s, calls, answers, grant, id);
    FlightMirrors(s, desk, calls, answers, grant, id);
    assert ImportKey(grant) in s.processed <==> desk.recorded;
    hide Mirrors, Do, StepOf, DecodeCall, IsImportable, IssuerAuthorized, CallOf, ImportKey, ImportCount, Willingness;
  }

  lemma FlightMirrors(s: Runtime, desk: Desk, calls: nat -> Call, answers: nat -> Answers, grant: Grant, id: nat)
    requires Mirrors(s, desk, calls, answers, grant)
    ensures var flight := Flight(CallOf(calls, answers, id), Importing(grant, ImportKey(grant)));
            Mirrors(s.(inFlight := s.inFlight[id := flight]), desk.(open := desk.open + {id}), calls, answers, grant)
  {
    hide CallOf, ImportKey, ImportCount;
  }

  /** The runtime once the flight under the key has landed. */
  function Landed(s: Runtime, id: nat, key: string, imported: bool): Runtime
    requires id in s.inFlight
  {
    if imported then Runtime(s.processed + {key}, s.inFlight - {id}, s.imports + [s.inFlight[id]])
    else s.(inFlight := s.inFlight - {id})
  }

  lemma DoStop(lib: Library, s: Runtime, calls: nat -> Call, answers: nat -> Answers, grant: Grant, id: nat)
    requires IsImportable(lib, grant) && id in s.inFlight
    requires s.inFlight[id] == Flight(CallOf(calls, answers, id), Importing(grant, ImportKey(grant)))
    ensures Do(lib, s, StepOf(calls, answers, Stops(id))) ==
            Landed(s, id, ImportKey(grant), AreWilling(answers(id), grant))
  {
    ImportsIfWilling(lib, calls, answers, id, grant, ImportKey(grant));
    hide Finish, IsImportable, CallOf, ImportKey, AreWilling;
    assert s.processed + {} == s.processed;
  }

  lemma LandedMirrors(s: Runtime, desk: Desk, calls: nat -> Call, answers: nat -> Answers, grant: Grant, id: nat,
        imported: bool)
    requires Mirrors(s, desk, calls, answers, grant) && id in s.inFlight
    ensures Mirrors(Landed(s, id, ImportKey(grant), imported),
                    Desk(desk.recorded || imported, desk.open - {id}, desk.imported + if imported then 1 else 0),
                    calls, answers, grant)
  {
    CountOne(s.imports, s.inFlight[id], ImportKey(grant));
    hide CallOf, ImportKey, ImportCount;
  }

  lemma OpenMirrors(s: Runtime, desk: Desk, calls: nat -> Call, answers: nat -> Answers, grant: Grant, id: nat)
    requires Mirrors(s, desk, calls, answers, grant)
    ensures id in s.inFlight <==> id in desk.open
    ensures id in s.inFlight ==>
              s.inFlight[id] == Flight(CallOf(calls, answers, id), Importing(grant, ImportKey(grant)))
  {
    hide CallOf, ImportKey, ImportCount;
  }

  lemma NothingToStop(lib: Library, s: Runtime, calls: nat -> Call, answers: nat -> Answers, id: nat)
    requires id !in s.inFlight
    ensures Do(lib, s, StepOf(calls, answers, Stops(id))) == s
  {
    hide GrantProcess.Apply;
  }

  lemma StopMirrors(lib: Library, s: Runtime, desk: Desk, calls: nat -> Call, answers: nat -> Answers, grant: Grant,
        id: nat)
    requires Mirrors(s, desk, calls, answers, grant) && IsImportable(lib, grant)
    ensures Mirrors(Do(lib, s, StepOf(calls, answers, Stops(id))), Next(desk, Stops(id), Willingness(answers, grant)),
                    calls, answers, grant)
  {
    hide Mirrors, Do, StepOf, Landed, IsImportable, CallOf, ImportKey, AreWilling, Enabled, GrantProcess.Apply;
    OpenMirrors(s, desk, calls, answers, grant, id);
    if id in s.inFlight {
      DoStop(lib, s, calls, answers, grant, id);
      LandedMirrors(s, desk, calls, answers, grant, id, AreWilling(answers(id), grant));
    } else {
      NothingToStop(lib, s, calls, answers, id);
    }
  }

  /** A call that starts is for the grant, and is not under way. */
  ghost predicate MayDo(lib: Library, calls: nat -> Call, grant: Grant, desk: Desk, moment: Moment) {
    moment.Starts? ==>
      && moment.id !in desk.open
      && DecodeCall(lib, calls(moment.id)) == Ok(grant) && IssuerAuthorized(grant, calls(moment.id))
  }

  lemma DoMirrors(lib: Library, s: Runtime, desk: Desk, calls: nat -> Call, answers: nat -> Answers, grant: Grant,
        moment: Moment)
    requires Mirrors(s, desk, calls, answers, grant) && IsImportable(lib, grant)
    requires MayDo(lib, calls, grant, desk, moment)
    ensures Mirrors(Do(lib, s, StepOf(calls, answers, moment)), Next(desk, moment, Willingness(answers, grant)),
                    calls, answers, grant)
  {
    hide Do, StepOf, Next, Mirrors, IsImportable, DecodeCall, IssuerAuthorized;
    match moment
    case Starts(id) => StartMirrors(lib, s, desk, calls, answers, grant, id);
    case Stops(id) => StopMirrors(lib, s, desk, calls, answers, grant, id);
  }

  lemma {:induction false} OpenIsUnfinished(moments: seq<Moment>, willing: nat -> bool, n: nat)
    requires n <= |moments|
    ensures After(moments[..n], willing).open <= Unfinished(moments[..n])
  {
    if n > 0 {
      OpenIsUnfinished(moments, willing, n - 1);
      AfterGrows(moments, willing, n - 1);
      UnfinishedGrows(moments, n - 1);
    }
  }

  lemma StartsOnce(moments: seq<Moment>, n: nat)
    requires IsSchedule(moments) && n < |moments| && moments[n].Starts?
    ensures moments[n].id !in Unfinished(moments[..n])
  {
    NothingUnfinished(moments);
    hide Unfinished;
    if moments[n].id in Unfinished(moments[..n]) {
      var p := StartedBetween(moments, moments[n].id, 0, n);
    }
  }

  lemma PlayedGrows(lib: Library, calls: nat -> Call, answers: nat -> Answers, moments: seq<Moment>, n: nat)
    requires n < |moments|
    ensures Played(lib, calls, answers, moments[..n + 1]) ==
            Do(lib, Played(lib, calls, answers, moments[..n]), StepOf(calls, answers, moments[n]))
  {
    hide Do, StepOf;
    assert moments[..n + 1][..n] == moments[..n];
  }

  lemma NothingMirrors(calls: nat -> Call, answers: nat -> Answers, grant: Grant)
    ensures Mirrors(GrantProcess.EMPTY, Desk(false, {}, 0), calls, answers, grant)
  {
    hide ImportKey;
  }

  lemma MayDoNext(lib: Library, calls: nat -> Call, answers: nat -> Answers, moments: seq<Moment>, grant: Grant, n: nat)
    requires IsSchedule(moments) && AreCallsFor(lib, calls, moments, grant) && n < |moments|
    ensures MayDo(lib, calls, grant, After(moments[..n], Willingness(answers, grant)), moments[n])
  {
    hide DecodeCall, IssuerAuthorized, IsSchedule, Unfinished, After;
    OpenIsUnfinished(moments, Willingness(answers, grant), n);
    assert moments[n] in moments;
    if moments[n].Starts? { StartsOnce(moments, n); }
  }

  ghost predicate MirrorsAfter(lib: Library, calls: nat -> Call, answers: nat -> Answers, moments: seq<Moment>,
        grant: Grant) {
    Mirrors(Played(lib, calls, answers, moments), After(moments, Willingness(answers, grant)), calls, answers, grant)
  }

  lemma NextMirrors(lib: Library, calls: nat -> Call, answers: nat -> Answers, moments: seq<Moment>, grant: Grant,
        n: nat)
    requires IsSchedule(moments) && IsImportable(lib, grant) && AreCallsFor(lib, calls, moments, grant)
    requires n < |moments| && MirrorsAfter(lib, calls, answers, moments[..n], grant)
    ensures MirrorsAfter(lib, calls, answers, moments[..n + 1], grant)
  {
    hide Played, After, Next, Do, StepOf, Mirrors, IsImportable, IsSchedule, AreCallsFor, MayDo, Willingness;
    PlayedGrows(lib, calls, answers, moments, n);
    AfterGrows(moments, Willingness(answers, grant), n);
    MayDoNext(lib, calls, answers, moments, grant, n);
    DoMirrors(lib, Played(lib, calls, answers, moments[..n]), After(moments[..n], Willingness(answers, grant)),
              calls, answers, grant, moments[n]);
  }

  lemma {:induction false} PlayedMirrors(lib: Library, calls: nat -> Call, answers: nat -> Answers,
        moments: seq<Moment>, grant: Grant, n: nat)
    requires IsSchedule(moments) && IsImportable(lib, grant) && AreCallsFor(lib, calls, moments, grant)
    requires n <= |moments|
    ensures MirrorsAfter(lib, calls, answers, moments[..n], grant)
  {
    hide Mirrors, IsImportable, IsSchedule, AreCallsFor;
    if n == 0 {
      NothingMirrors(calls, answers, grant);
    } else {
      hide MirrorsAfter;
      PlayedMirrors(lib, calls, answers, moments, grant, n - 1);
      NextMirrors(lib, calls, answers, moments, grant, n - 1);
    }
  }

  // ----- answers of either kind -----

  /** Tower's verify endpoint allows it and says no more; the manager imports. */
  function Yes(): Answers {
    Answers(Tower(Answer(200, Obj(map[Key.Allowed := Bool(true)])), None, Unreachable, []),
            Manager(None, false, false, None, None, false))
  }

  /** Tower does not answer. */
  function No(): Answers {
    Yes().(tower := Tower(Unreachable, None, Unreachable, []))
  }

  lemma BareAnswerExposes(path: seq<Key>)
    ensures GetString(At(Obj(map[Key.Allowed := Bool(true)]), path)).None?
  {
    var body := Obj(map[Key.Allowed := Bool(true)]);
    if |path| > 1 {
      NothingBelow(Get(body, path[0]), path[1..]);
    } else if |path| == 1 {
      assert At(body, path) == At(Get(body, path[0]), []);
    }
  }

  lemma YesIsWilling(grant: Grant)
    ensures AreWilling(Yes(), grant) && !AreWilling(No(), grant)
  {
    var body := Obj(map[Key.Allowed := Bool(true)]);
    forall paths: seq<seq<Key>>, expected: seq<Json> ensures ExposedValuesMatch(body, paths, expected) {
      forall path <- paths ensures GetString(At(body, path)).None? {
        BareAnswerExposes(path);
      }
    }
    hide ExposedValuesMatch;
    assert AllowsAccess(body, grant);
  }

  lemma {:induction false} AfterSame(moments: seq<Moment>, f: nat -> bool, g: nat -> bool)
    requires forall id :: f(id) == g(id)
    ensures After(moments, f) == After(moments, g)
  {
    if moments != [] {
      AfterSame(moments[..|moments| - 1], f, g);
    }
  }

  ghost predicate ImportsTwice(lib: Library, calls: nat -> Call, answers: nat -> Answers, moments: seq<Moment>,
        grant: Grant) {
    ImportCount(Played(lib, calls, answers, moments).imports, ImportKey(grant)) >= 2
  }

  /**
   * Whatever the schedule of the calls for an importable event: there are answers of Tower and the manager that import
   * it twice if and only if one of its calls starts while another one has not stopped.
   */
  lemma ImportableTwiceExactly(lib: Library, calls: nat -> Call, moments: seq<Moment>, grant: Grant)
    requires IsSchedule(moments) && IsImportable(lib, grant) && AreCallsFor(lib, calls, moments, grant)
    ensures (exists answers: nat -> Answers :: ImportsTwice(lib, calls, answers, moments, grant)) <==> Overlaps(moments)
  {
    hide Played, After, IsImportable, IsSchedule, AreCallsFor, Overlaps, AreWilling;
    TwoImportsExactly(moments);
    assert moments[..|moments|] == moments;
    if Overlaps(moments) {
      var willing: nat -> bool :| After(moments, willing).imported >= 2;
      var answers := (id: nat) => if willing(id) then Yes() else No();
      YesIsWilling(grant);
      AfterSame(moments, willing, Willingness(answers, grant));
      PlayedMirrors(lib, calls, answers, moments, grant, |moments|);
      assert ImportsTwice(lib, calls, answers, moments, grant);
    } else {
      forall answers: nat -> Answers ensures !ImportsTwice(lib, calls, answers, moments, grant) {
        PlayedMirrors(lib, calls, answers, moments, grant, |moments|);
        assert After(moments, Willingness(answers, grant)).imported < 2;
      }
    }
  }
}

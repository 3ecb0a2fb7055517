/**
 The repair of a publisher key told request by request: which requests a run plans for the keys it finds, where it
 stops, what it answers, and what it leaves behind.
 */
module RepairSteps {
  import opened PublisherRepair
  import opened Wrappers

  /** The key that is pending once the run has staged one. */
  function PendingKey(w: World, newKey: string): string {
    if w.pending.Some? then w.pending.value else newKey
  }

  /** The requests of a run that nothing stops, for the keys that instance and Tower hold. */
  function Plan(w: World, newKey: string, bound: bool): seq<Request> {
    [ReadLocal] +
    (if w.pending == None then [Stage] else []) +
    (if !bound then []
     else if w.tower == w.current then [ReadTower, Rotate, Activate]
     else if w.tower == PendingKey(w, newKey) then [ReadTower, Activate]
     else [ReadTower])
  }

  function Kinds(made: seq<(Request, World)>): seq<Request> {
    seq(|made|, i requires 0 <= i < |made| => made[i].0)
  }

  /** The requests of the plan up to the first that does not work. */
  ghost predicate StopsAtFailure(plan: seq<Request>, fates: Request -> Fate, kinds: seq<Request>) {
    && kinds != [] && kinds <= plan
    && (forall i | 0 <= i < |kinds| - 1 :: fates(kinds[i]) == Works)
    && (kinds == plan || fates(kinds[|kinds| - 1]) != Works)
  }

  /** A run follows its plan until a request does not work, and no further. */
  lemma PlanFollowed(w: World, a: Attempt)
    ensures StopsAtFailure(Plan(w, a.newKey, a.bound), a.fates, Kinds(Repair(w, a.newKey, a.bound, a.fates).made))
  {
  }

  function ErrorOf(request: Request): string {
    match request
    case ReadLocal => "local_read"
    case Stage => "stage"
    case ReadTower => "tower_read"
    case Rotate => "rotate"
    case Activate => "activate"
  }

  /**
   * A run answers with the request that stopped it. One that nothing stopped fails without a binding, or if Tower holds
   * neither key, and succeeds otherwise.
   */
  lemma ResultExactly(w: World, a: Attempt)
    ensures var run := Repair(w, a.newKey, a.bound, a.fates);
            var last := run.made[|run.made| - 1].0;
            && run.made != []
            && run.result ==
               if a.fates(last) != Works then Err(ErrorOf(last))
               else if !a.bound then Err("no_binding")
               else if w.tower != w.current && w.tower != PendingKey(w, a.newKey) then Err("identity_drift")
               else Ok(())
  {
  }

  /** The request was made, and took effect whether or not its answer arrived. */
  ghost predicate TookEffect(run: Run, a: Attempt, request: Request) {
    request in Kinds(run.made) && a.fates(request) != NotSent
  }

  ghost predicate IsMade(made: seq<(Request, World)>, request: Request) {
    exists m <- made :: m.0 == request
  }

  lemma InKinds(made: seq<(Request, World)>, request: Request)
    ensures request in Kinds(made) <==> IsMade(made, request)
  {
    if IsMade(made, request) {
      var m :| m in made && m.0 == request;
      var i :| 0 <= i < |made| && made[i] == m;
      assert Kinds(made)[i] == request;
    }
  }

  lemma AppendMade(made: seq<(Request, World)>, m: (Request, World), request: Request)
    ensures IsMade(made + [m], request) <==> IsMade(made, request) || m.0 == request
  {
    if IsMade(made, request) {
      var n :| n in made && n.0 == request;
      assert n in made + [m];
    }
    if m.0 == request { assert m in made + [m]; }
  }

  /** The requests that are made once a run has asked Tower. */
  lemma MadeFromTower(made: seq<(Request, World)>, w: World, current: string, pending: string, fates: Request -> Fate,
        request: Request)
    ensures var run := FromTower(made, w, current, pending, fates);
            var goesOn := fates(ReadTower) == Works;
            IsMade(run.made, request) <==>
              || IsMade(made, request) || request == ReadTower
              || (request == Rotate && goesOn && w.tower == current)
              || (request == Activate && goesOn &&
                  if w.tower == current then fates(Rotate) == Works else w.tower == pending)
  {
    hide IsMade;
    AppendMade(made, (ReadTower, w), request);
    var m2 := made + [(ReadTower, w)];
    AppendMade(m2, (Activate, w), request);
    AppendMade(m2, (Rotate, w), request);
    AppendMade(m2 + [(Rotate, w)], (Activate, AfterRotate(w, current, pending)), request);
  }

  lemma MadeFirst(w: World, request: Request)
    ensures IsMade([(ReadLocal, w)], request) <==> request == ReadLocal
  {
    if request == ReadLocal { assert (ReadLocal, w) in [(ReadLocal, w)]; }
  }

  /** The requests that a run makes. */
  lemma MadeExactly(w: World, a: Attempt, request: Request)
    ensures var run := Repair(w, a.newKey, a.bound, a.fates);
            var read := a.fates(ReadLocal) == Works;
            var asked := read && (w.pending.Some? || a.fates(Stage) == Works) && a.bound;
            var goesOn := asked && a.fates(ReadTower) == Works;
            IsMade(run.made, request) <==>
              || request == ReadLocal || (request == Stage && read && w.pending.None?)
              || (request == ReadTower && asked)
              || (request == Rotate && goesOn && w.tower == w.current)
              || (request == Activate && goesOn &&
                  if w.tower == w.current then a.fates(Rotate) == Works else w.tower == PendingKey(w, a.newKey))
  {
    hide IsMade, FromTower;
    MadeFirst(w, request);
    var m0 := [(ReadLocal, w)];
    AppendMade(m0, (Stage, w), request);
    var staged := if w.pending.None? then AfterStage(w, a.newKey) else w;
    var m1 := if w.pending.None? then m0 + [(Stage, w)] else m0;
    MadeFromTower(m1, staged, w.current, staged.pending.value, a.fates, request);
  }

  /** What is left behind is what the requests made did, each as far as it took effect. */
  lemma WorldExactly(w: World, a: Attempt)
    ensures var run := Repair(w, a.newKey, a.bound, a.fates);
            var key := PendingKey(w, a.newKey);
            && run.world.tower == (if TookEffect(run, a, Rotate) then key else w.tower)
            && run.world.current == (if TookEffect(run, a, Activate) then key else w.current)
            && run.world.pending == (if TookEffect(run, a, Activate) then None
                                     else if w.pending.Some? || TookEffect(run, a, Stage) then Some(key) else None)
  {
    var made := Repair(w, a.newKey, a.bound, a.fates).made;
    InKinds(made, Stage);
    InKinds(made, Rotate);
    InKinds(made, Activate);
    MadeExactly(w, a, Stage);
    MadeExactly(w, a, Rotate);
    MadeExactly(w, a, Activate);
    hide IsMade, Kinds;
  }
}

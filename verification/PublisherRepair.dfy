/**
 The command that repairs a WApp's publisher key: stage a pending key here, rotate Tower
 to it, activate it here. Any request may fail before or after it took effect, and then
 the command stops.

 How the two servers treat their requests is an assumption, stated by the After functions.
 */
module PublisherRepair {
  import opened Wrappers

  /** The keys this instance holds for the WApp, and the one Tower accepts. */
  datatype World = World(current: string, pending: Option<string>, tower: string)

  datatype Request = ReadLocal | Stage | ReadTower | Rotate | Activate

  /** A request works, never takes effect, or takes effect without its answer arriving. */
  datatype Fate = Works | NotSent | AnswerLost

  // ----- the servers -----

  function AfterStage(w: World, newKey: string): World {
    w.(pending := Some(newKey))
  }

  /** Tower rotates only away from the key it holds. */
  function AfterRotate(w: World, from: string, to: string): World {
    if w.tower == from then w.(tower := to) else w
  }

  function AfterActivate(w: World): World {
    if w.pending.Some? then World(w.pending.value, None, w.tower) else w
  }

  // ----- one run of the command -----

  /** What a run did: each request it made with the world it found, the world it left, and how it ended. */
  datatype Run = Run(made: seq<(Request, World)>, world: World, result: Result<()>)

  function Cut(fate: Fate, before: World, after: World): World {
    if fate == NotSent then before else after
  }

  /** `fates` answers for each request by its place in the run; `newKey` is what staging would generate. */
  function Repair(w: World, newKey: string, bound: bool, fates: Request -> Fate): Run {
    var m0 := [(ReadLocal, w)];
    if fates(ReadLocal) != Works then Run(m0, w, Err("local_read")) else
      var staging := w.pending.None?;
      var staged := if staging then AfterStage(w, newKey) else w;
      var m1 := if staging then m0 + [(Stage, w)] else m0;
      if staging && fates(Stage) != Works then Run(m1, Cut(fates(Stage), w, staged), Err("stage"))
      else if !bound then Run(m1, staged, Err("no_binding"))
      else FromTower(m1, staged, w.current, staged.pending.value, fates)
  }

  function FromTower(made: seq<(Request, World)>, w: World, current: string, pending: string,
        fates: Request -> Fate): Run {
    var m2 := made + [(ReadTower, w)];
    if fates(ReadTower) != Works then Run(m2, w, Err("tower_read"))
    else if w.tower == current then
      var rotated := AfterRotate(w, current, pending);
      var m3 := m2 + [(Rotate, w)];
      if fates(Rotate) != Works then Run(m3, Cut(fates(Rotate), w, rotated), Err("rotate"))
      else Activating(m3, rotated, fates)
    else if w.tower != pending then Run(m2, w, Err("identity_drift"))
    else Activating(m2, w, fates)
  }

  function Activating(made: seq<(Request, World)>, w: World, fates: Request -> Fate): Run {
    var m := made + [(Activate, w)];
    if fates(Activate) != Works then Run(m, Cut(fates(Activate), w, AfterActivate(w)), Err("activate"))
    else Run(m, AfterActivate(w), Ok(()))
  }

  // ----- what every run keeps -----

  /** Tower's key is one this instance can sign with. */
  predicate Agrees(w: World) {
    w.tower == w.current || w.pending == Some(w.tower)
  }

  datatype Attempt = Attempt(newKey: string, bound: bool, fates: Request -> Fate)

  /** The world after a history of runs, each cut off or not. */
  function AfterRuns(w: World, attempts: seq<Attempt>): World {
    if attempts == [] then w else
      var a := attempts[|attempts| - 1];
      Repair(AfterRuns(w, attempts[..|attempts| - 1]), a.newKey, a.bound, a.fates).world
  }

  lemma RunKeepsAgreement(w: World, a: Attempt)
    requires Agrees(w)
    ensures var run := Repair(w, a.newKey, a.bound, a.fates);
            Agrees(run.world) && (forall m <- run.made :: Agrees(m.1)) && run.result != Err("identity_drift")
  {
  }

  /** After any number of runs, cut off anywhere, Tower's key is the current or the pending one. */
  lemma {:induction false} CrashesKeepAgreement(w: World, attempts: seq<Attempt>)
    requires Agrees(w)
    ensures Agrees(AfterRuns(w, attempts))
  {
    if attempts != [] {
      var init := attempts[..|attempts| - 1];
      CrashesKeepAgreement(w, init);
      RunKeepsAgreement(AfterRuns(w, init), attempts[|attempts| - 1]);
    }
  }

  /** From any world at all, the pending key is activated only once Tower holds it. */
  lemma ActivatesOnlyWhatTowerHolds(w: World, a: Attempt, m: (Request, World))
    requires m in Repair(w, a.newKey, a.bound, a.fates).made && m.0 == Activate
    ensures m.1.pending == Some(m.1.tower)
  {
  }

  /** An uninterrupted run after any history of crashes ends with both sides on the one key left. */
  lemma RerunFinishes(w: World, attempts: seq<Attempt>, a: Attempt)
    requires Agrees(w) && a.bound && forall r :: a.fates(r) == Works
    ensures var before := AfterRuns(w, attempts);
            var run := Repair(before, a.newKey, a.bound, a.fates);
            && run.result.Ok?
            && run.world.current == run.world.tower && run.world.pending.None?
            && run.world.current == if before.pending.Some? then before.pending.value else a.newKey
  {
    CrashesKeepAgreement(w, attempts);
  }

  /** Without agreement the command refuses, exactly when Tower holds neither key, and then activates nothing. */
  lemma DriftIsRefused(w: World, a: Attempt)
    requires a.bound && forall r :: a.fates(r) == Works
    ensures var run := Repair(w, a.newKey, a.bound, a.fates);
            var pending := if w.pending.Some? then w.pending.value else a.newKey;
            && (run.result == Err("identity_drift") <==> w.tower != w.current && w.tower != pending)
            && (run.result.Err? ==> run.world == w.(pending := Some(pending)))
  {
  }

  // ----- the command -----

  class Installation {
    var current: string
    var pending: Option<string>
    var tower: string

    constructor (key: string)
      ensures Now() == World(key, None, key)
    {
      current, pending, tower := key, None, key;
    }

    function Now(): World
      reads this
    {
      World(current, pending, tower)
    }

    method Become(w: World)
      modifies this
      ensures Now() == w
    {
      current, pending, tower := w.current, w.pending, w.tower;
    }

    /** Sends one state-changing request; `after` is the world in which it has taken effect. */
    method Send(fate: Fate, after: World) returns (ok: bool)
      modifies this
      ensures ok <==> fate == Works
      ensures Now() == if fate == NotSent then old(Now()) else after
    {
      if fate != NotSent { Become(after); }
      ok := fate == Works;
    }

    method RepairPublisher(newKey: string, bound: bool, fates: Request -> Fate) returns (result: Result<()>)
      modifies this
      ensures Now() == old(Repair(Now(), newKey, bound, fates)).world
      ensures result == old(Repair(Now(), newKey, bound, fates)).result
      ensures old(Agrees(Now())) ==> Agrees(Now())
    {
      if fates(ReadLocal) != Works { return Err("local_read"); }
      var wapp := Now();
      var currentKey := wapp.current;
      if wapp.pending.None? {
        var ok := Send(fates(Stage), AfterStage(Now(), newKey));
        if !ok { return Err("stage"); }
        wapp := Now();
      }
      var pendingKey := wapp.pending.value;
      if !bound { return Err("no_binding"); }
      if fates(ReadTower) != Works { return Err("tower_read"); }
      var towerKey := tower;
      if towerKey == currentKey {
        var ok := Send(fates(Rotate), AfterRotate(Now(), currentKey, pendingKey));
        if !ok { return Err("rotate"); }
      } else if towerKey != pendingKey {
        return Err("identity_drift");
      }
      var ok := Send(fates(Activate), AfterActivate(Now()));
      if !ok { return Err("activate"); }
      result := Ok(());
    }
  }
}

/**
 What saving, deleting and choosing do to profiles and to each manager's default, told row by row, and how long a
 chosen default lasts over a run.
 */
module ProfileDefaults {
  import opened ProfileStore
  import opened Wrappers

  /** The profile can be this manager's default. */
  predicate IsFit(p: Profile, manager: string) {
    p.manager == Some(manager) && p.enabled && !p.archived
  }

  predicate HasFit(s: Store, manager: string, id: string) {
    id in s.profiles && IsFit(s.profiles[id], manager)
  }

  /** Another profile holds the bot identity. */
  predicate IsRefused(s: Store, id: string, p: Profile) {
    exists other <- s.profiles :: other != id && s.profiles[other].bot == p.bot
  }

  ghost predicate OtherDefaultsStay(s: Store, after: Store, manager: string) {
    forall m | m != manager ::
      (m in after.defaults <==> m in s.defaults) && (m in s.defaults ==> after.defaults[m] == s.defaults[m])
  }

  /** A manager's default is the profile bound to it, as long as that is fit. */
  lemma DefaultForExactly(s: Store, manager: string, id: string)
    ensures DefaultFor(s, manager) == Some(id) <==>
            manager in s.defaults && s.defaults[manager] == id && HasFit(s, manager, id)
  {
  }

  /** Choosing a fit profile makes it the default, and nothing else changes; choosing any other changes nothing. */
  lemma SetDefaultBinds(upTo: Collation, s: Store, manager: string, id: string)
    ensures var after := Apply(upTo, s, SetDefault(manager, id));
            if HasFit(s, manager, id) then
              && DefaultFor(after, manager) == Some(id) && after.profiles == s.profiles
              && OtherDefaultsStay(s, after, manager)
            else after == s
  {
  }

  /** A refused save changes nothing; any other stores the profile, and binds it if its manager has no default. */
  lemma SaveStores(upTo: Collation, s: Store, id: string, p: Profile)
    ensures var after := Apply(upTo, s, Save(id, p));
            if IsRefused(s, id, p) then after == s
            else
              && after.profiles.Keys == s.profiles.Keys + {id}
              && (forall other <- s.profiles | other != id :: after.profiles[other] == s.profiles[other])
              && after.profiles[id] ==
                 Profile(p.bot, p.manager, p.enabled, p.archived,
                         if id in s.profiles then s.profiles[id].createdAt else p.createdAt)
              && forall m ::
                   && (m in after.defaults <==> m in s.defaults || (m != "" && IsFit(p, m)))
                   && (m in after.defaults ==> after.defaults[m] == if m in s.defaults then s.defaults[m] else id)
  {
    assert IsRefused(s, id, p) == BotTaken(s, id, p.bot);
  }

  lemma RemovedExactly(s: Store, id: string)
    ensures var removed := Removed(s, id);
            && removed.profiles.Keys == s.profiles.Keys - {id}
            && (forall other <- removed.profiles :: removed.profiles[other] == s.profiles[other])
            && forall m ::
                 && (m in removed.defaults <==>
                       m in s.defaults && !(s.defaults[m] == id && m != "" && id in s.profiles &&
                                            s.profiles[id].manager == Some(m)))
                 && (m in removed.defaults ==> removed.defaults[m] == s.defaults[m])
  {
  }

  /** A deletion takes out the profile alone, and only its manager's default may change. */
  lemma DeleteTakesOut(upTo: Collation, s: Store, id: string)
    ensures var after := Apply(upTo, s, Delete(id));
            && after.profiles.Keys == s.profiles.Keys - {id}
            && (forall other <- after.profiles :: after.profiles[other] == s.profiles[other])
            && (forall m | m in s.defaults && s.defaults[m] != id ::
                  m in after.defaults && after.defaults[m] == s.defaults[m])
            && (forall m | id !in s.profiles || s.profiles[id].manager != Some(m) ::
                  (m in after.defaults <==> m in s.defaults) &&
                  (m in s.defaults ==> after.defaults[m] == s.defaults[m]))
  {
    RemovedExactly(s, id);
    hide Removed;
  }

  /** The operation takes the default from this profile. */
  predicate Unseats(s: Store, op: Op, manager: string, id: string) {
    match op
    case Save(saved, p) => saved == id && !IsRefused(s, id, p) && !IsFit(p, manager)
    case Delete(deleted) => deleted == id
    case SetDefault(m, chosen) => m == manager && chosen != id && HasFit(s, manager, chosen)
  }

  lemma DefaultLostExactly(upTo: Collation, s: Store, op: Op, manager: string, id: string)
    requires DefaultFor(s, manager) == Some(id)
    ensures DefaultFor(Apply(upTo, s, op), manager) == Some(id) <==> !Unseats(s, op, manager, id)
  {
    match op
    case Save(saved, p) => SaveStores(upTo, s, saved, p);
    case Delete(deleted) => DeleteTakesOut(upTo, s, deleted);
    case SetDefault(m, chosen) => SetDefaultBinds(upTo, s, m, chosen);
  }

  /** None of the operations takes the default from the profile when its turn comes. */
  ghost predicate NeverUnseats(upTo: Collation, s: Store, ops: seq<Op>, manager: string, id: string) {
    ops != [] ==>
      && NeverUnseats(upTo, s, ops[..|ops| - 1], manager, id)
      && !Unseats(ApplyAll(upTo, s, ops[..|ops| - 1]), ops[|ops| - 1], manager, id)
  }

  /** A default lasts exactly until an operation takes it away. */
  lemma {:induction false} DefaultStays(upTo: Collation, s: Store, ops: seq<Op>, manager: string, id: string)
    requires DefaultFor(s, manager) == Some(id) && NeverUnseats(upTo, s, ops, manager, id)
    ensures DefaultFor(ApplyAll(upTo, s, ops), manager) == Some(id)
  {
    hide DefaultFor, Unseats, Apply;
    if ops != [] {
      var init := ops[..|ops| - 1];
      DefaultStays(upTo, s, init, manager, id);
      DefaultLostExactly(upTo, ApplyAll(upTo, s, init), ops[|ops| - 1], manager, id);
    }
  }

  /** A choice lasts through any operations that do not take it away. */
  lemma ChoiceLasts(upTo: Collation, s: Store, manager: string, id: string, ops: seq<Op>)
    requires HasFit(s, manager, id)
    requires NeverUnseats(upTo, Apply(upTo, s, SetDefault(manager, id)), ops, manager, id)
    ensures DefaultFor(ApplyAll(upTo, Apply(upTo, s, SetDefault(manager, id)), ops), manager) == Some(id)
  {
    SetDefaultBinds(upTo, s, manager, id);
    DefaultStays(upTo, Apply(upTo, s, SetDefault(manager, id)), ops, manager, id);
  }

  /** Created before the other, or at the same time and first by id. */
  predicate ComesBefore(upTo: Collation, s: Store, a: string, b: string)
    requires a in s.profiles && b in s.profiles
  {
    var first, second := s.profiles[a].createdAt, s.profiles[b].createdAt;
    (first != second && upTo(first, second)) || (first == second && upTo(a, b))
  }

  /** The manager's profile that has been there longest, among those that are fit. */
  ghost predicate IsFirst(upTo: Collation, s: Store, manager: string, id: string) {
    && HasFit(s, manager, id)
    && forall other <- s.profiles | HasFit(s, manager, other) :: ComesBefore(upTo, s, id, other)
  }

  lemma FirstIsOldest(upTo: Collation, s: Store, manager: string, id: string)
    ensures IsOldest(upTo, s, manager, id) <==> IsFirst(upTo, s, manager, id)
  {
  }

  /** When its default profile is deleted, a manager's next default is the first of its fit profiles, if any. */
  lemma SuccessorExactly(upTo: Collation, s: Store, manager: string, id: string, next: string)
    requires IsOrder(upTo) && manager != "" && DefaultFor(s, manager) == Some(id)
    ensures var after := Apply(upTo, s, Delete(id));
            DefaultFor(after, manager) == Some(next) <==> IsFirst(upTo, after, manager, next)
  {
    var after := Apply(upTo, s, Delete(id));
    DeletedDefaultPassesToOldest(upTo, s, manager, id);
    FirstIsOldest(upTo, after, manager, next);
    if DefaultFor(after, manager) == Some(next) {
      OldestExists(upTo, after, manager, next);
    }
    hide AfterDelete;
  }
}

/**
 Agent profiles and the table that binds each manager to a default profile.

 Creation times and agent ids are text; the store sorts both with `localeCompare`, which
 is an arbitrary total order here.
 */
module ProfileStore {
  import opened Wrappers

  datatype Profile = Profile(bot: string, manager: Option<string>, enabled: bool, archived: bool, createdAt: string)

  /** `left.localeCompare(right) <= 0` */
  type Collation = (string, string) -> bool

  ghost predicate IsOrder(upTo: Collation) {
    && (forall a, b :: upTo(a, b) || upTo(b, a))
    && (forall a, b :: upTo(a, b) && upTo(b, a) ==> a == b)
    && (forall a, b, c :: upTo(a, b) && upTo(b, c) ==> upTo(a, c))
  }

  /** The two tables: profiles by agent id, and the bound agent id by manager. */
  datatype Store = Store(profiles: map<string, Profile>, defaults: map<string, string>)

  const EMPTY: Store := Store(map[], map[])

  /** A null or empty manager is treated as none. */
  predicate IsManaged(p: Profile) {
    p.manager.Some? && p.manager.value != ""
  }

  predicate Eligible(s: Store, manager: string, id: string) {
    id in s.profiles && s.profiles[id].manager == Some(manager) && s.profiles[id].enabled && !s.profiles[id].archived
  }

  /** INSERT OR IGNORE: an existing binding stays. */
  function EnsureDefault(s: Store, manager: string, id: string): Store {
    if manager in s.defaults then s else s.(defaults := s.defaults[manager := id])
  }

  // ----- save -----

  predicate BotTaken(s: Store, id: string, bot: string) {
    exists other <- s.profiles :: other != id && s.profiles[other].bot == bot
  }

  /** A stored profile keeps its creation time. */
  function Upserted(s: Store, id: string, p: Profile): Store {
    s.(profiles := s.profiles[id := if id in s.profiles then p.(createdAt := s.profiles[id].createdAt) else p])
  }

  function AfterSave(s: Store, id: string, p: Profile): Store {
    if BotTaken(s, id, p.bot) then s
    else if IsManaged(p) && p.enabled && !p.archived then EnsureDefault(Upserted(s, id, p), p.manager.value, id)
    else Upserted(s, id, p)
  }

  // ----- delete -----

  /** By creation time, then by id. */
  predicate Older(upTo: Collation, s: Store, a: string, b: string) {
    && a in s.profiles && b in s.profiles
    && var (first, second) := (s.profiles[a].createdAt, s.profiles[b].createdAt);
    if first == second then upTo(a, b) else upTo(first, second)
  }

  predicate IsOldest(upTo: Collation, s: Store, manager: string, id: string) {
    Eligible(s, manager, id) && forall other <- s.profiles :: Eligible(s, manager, other) ==> Older(upTo, s, id, other)
  }

  function Unbound(s: Store, manager: string, id: string): Store {
    if manager in s.defaults && s.defaults[manager] == id then s.(defaults := s.defaults - {manager}) else s
  }

  function Removed(s: Store, id: string): Store {
    var s1 := if id in s.profiles && IsManaged(s.profiles[id]) then Unbound(s, s.profiles[id].manager.value, id) else s;
    s1.(profiles := s1.profiles - {id})
  }

  ghost function AfterDelete(upTo: Collation, s: Store, id: string): Store {
    if id in s.profiles && IsManaged(s.profiles[id]) then
      var manager := s.profiles[id].manager.value;
      var s1 := Removed(s, id);
      if oldest :| IsOldest(upTo, s1, manager, oldest) then EnsureDefault(s1, manager, oldest) else s1
    else Removed(s, id)
  }

  // ----- the default binding -----

  function AfterSetDefault(s: Store, manager: string, id: string): Store {
    if Eligible(s, manager, id) then s.(defaults := s.defaults[manager := id]) else s
  }

  function DefaultFor(s: Store, manager: string): Option<string> {
    if manager in s.defaults && Eligible(s, manager, s.defaults[manager]) then Some(s.defaults[manager]) else None
  }

  // ----- every run -----

  datatype Op =
    | Save(id: string, profile: Profile)
    | Delete(id: string)
    | SetDefault(manager: string, id: string)

  ghost function Apply(upTo: Collation, s: Store, op: Op): Store {
    match op
    case Save(id, profile) => AfterSave(s, id, profile)
    case Delete(id) => AfterDelete(upTo, s, id)
    case SetDefault(manager, id) => AfterSetDefault(s, manager, id)
  }

  ghost function ApplyAll(upTo: Collation, s: Store, ops: seq<Op>): Store {
    if ops == [] then s else Apply(upTo, ApplyAll(upTo, s, ops[..|ops| - 1]), ops[|ops| - 1])
  }

  ghost predicate BotsDistinct(s: Store) {
    forall a, b | a in s.profiles && b in s.profiles && s.profiles[a].bot == s.profiles[b].bot :: a == b
  }

  ghost predicate ManagersBound(s: Store) {
    forall manager, id | manager != "" && Eligible(s, manager, id) :: manager in s.defaults
  }

  ghost predicate StoreOk(s: Store) {
    BotsDistinct(s) && ManagersBound(s)
  }

  lemma OlderTransitive(upTo: Collation, s: Store, a: string, b: string, c: string)
    requires IsOrder(upTo)
    requires Older(upTo, s, a, b) && Older(upTo, s, b, c)
    ensures Older(upTo, s, a, c)
  {
  }

  lemma {:induction false} OldestOf(upTo: Collation, s: Store, ids: set<string>) returns (oldest: string)
    requires IsOrder(upTo)
    requires ids != {} && ids <= s.profiles.Keys
    ensures oldest in ids && forall b <- ids :: Older(upTo, s, oldest, b)
    decreases |ids|
  {
    var a :| a in ids;
    var others := ids - {a};
    assert ids == others + {a};
    oldest := a;
    if others != {} {
      var c := OldestOf(upTo, s, others);
      if !Older(upTo, s, a, c) { oldest := c; }
      forall b <- ids ensures Older(upTo, s, oldest, b) {
        if b == a {
          assert oldest == c ==> Older(upTo, s, c, a);
        } else {
          assert b in others && Older(upTo, s, c, b);
          if oldest == a { OlderTransitive(upTo, s, a, c, b); }
        }
      }
    }
  }

  lemma OldestExists(upTo: Collation, s: Store, manager: string, id: string)
    requires IsOrder(upTo)
    requires Eligible(s, manager, id)
    ensures exists oldest :: IsOldest(upTo, s, manager, oldest)
  {
    var ids := set other <- s.profiles | Eligible(s, manager, other);
    assert id in ids;
    var oldest := OldestOf(upTo, s, ids);
    assert IsOldest(upTo, s, manager, oldest);
  }

  lemma OldestIsUnique(upTo: Collation, s: Store, manager: string, a: string, b: string)
    requires IsOrder(upTo)
    requires IsOldest(upTo, s, manager, a) && IsOldest(upTo, s, manager, b)
    ensures a == b
  {
    assert Older(upTo, s, a, b) && Older(upTo, s, b, a);
  }

  lemma DeleteKeepsOk(upTo: Collation, s: Store, id: string)
    requires IsOrder(upTo)
    requires StoreOk(s)
    ensures StoreOk(AfterDelete(upTo, s, id))
  {
    var after := AfterDelete(upTo, s, id);
    assert after.profiles == s.profiles - {id};
    forall manager, other | manager != "" && Eligible(after, manager, other) ensures manager in after.defaults {
      assert Eligible(s, manager, other);
      assert Eligible(Removed(s, id), manager, other);
      if id in s.profiles && s.profiles[id].manager == Some(manager) {
        OldestExists(upTo, Removed(s, id), manager, other);
      }
    }
  }

  lemma SaveKeepsOk(s: Store, id: string, p: Profile)
    requires StoreOk(s)
    ensures StoreOk(AfterSave(s, id, p))
  {
    var after := AfterSave(s, id, p);
    forall manager, other | manager != "" && Eligible(after, manager, other) ensures manager in after.defaults {
      if other != id || BotTaken(s, id, p.bot) { assert Eligible(s, manager, other); }
    }
  }

  /** From the empty store: one profile per bot, and a binding for every manager with an eligible profile. */
  lemma {:induction false} EveryRunKeepsStoreOk(upTo: Collation, ops: seq<Op>)
    requires IsOrder(upTo)
    ensures StoreOk(ApplyAll(upTo, EMPTY, ops))
  {
    if ops != [] {
      var init := ops[..|ops| - 1];
      EveryRunKeepsStoreOk(upTo, init);
      var s := ApplyAll(upTo, EMPTY, init);
      match ops[|ops| - 1]
      case Save(id, profile) => SaveKeepsOk(s, id, profile);
      case Delete(id) => DeleteKeepsOk(upTo, s, id);
      case SetDefault(manager, id) =>
        forall m, other | m != "" && Eligible(AfterSetDefault(s, manager, id), m, other)
          ensures m in AfterSetDefault(s, manager, id).defaults
        {
          assert Eligible(s, m, other);
        }
    }
  }

  /** Deleting a manager's bound profile makes its oldest eligible profile the default, if it has one left. */
  lemma DeletedDefaultPassesToOldest(upTo: Collation, s: Store, manager: string, id: string)
    requires IsOrder(upTo)
    requires manager != "" && id in s.profiles && s.profiles[id].manager == Some(manager)
    requires manager in s.defaults && s.defaults[manager] == id
    ensures var after := AfterDelete(upTo, s, id);
            && (forall oldest: string :: IsOldest(upTo, after, manager, oldest) ==>
                  DefaultFor(after, manager) == Some(oldest))
            && ((forall other: string :: !Eligible(after, manager, other)) ==> manager !in after.defaults)
  {
    var after, removed := AfterDelete(upTo, s, id), Removed(s, id);
    assert after.profiles == removed.profiles;
    forall m, other ensures Eligible(after, m, other) <==> Eligible(removed, m, other) {}
    forall oldest: string | IsOldest(upTo, after, manager, oldest) ensures DefaultFor(after, manager) == Some(oldest) {
      assert IsOldest(upTo, removed, manager, oldest);
      forall other | IsOldest(upTo, removed, manager, other) ensures other == oldest {
        OldestIsUnique(upTo, removed, manager, oldest, other);
      }
    }
  }

  /** Deleting any other profile leaves the manager's default as it was. */
  lemma DeleteKeepsOtherDefaults(upTo: Collation, s: Store, manager: string, id: string)
    requires StoreOk(s) && DefaultFor(s, manager).Some? && DefaultFor(s, manager) != Some(id)
    ensures DefaultFor(AfterDelete(upTo, s, id), manager) == DefaultFor(s, manager)
  {
    assert AfterDelete(upTo, s, id).profiles == s.profiles - {id};
    assert Eligible(Removed(s, id), manager, s.defaults[manager]);
  }

  /** A save never moves a default that is there; for a new binding it is the saved profile. */
  lemma SaveKeepsDefaults(s: Store, id: string, p: Profile, manager: string)
    ensures var after := AfterSave(s, id, p);
            if manager in s.defaults then manager in after.defaults && after.defaults[manager] == s.defaults[manager]
            else manager in after.defaults ==> after.defaults[manager] == id && Eligible(after, manager, id)
  {
  }

  // ----- the store itself -----

  class AgentDefinitionStore {
    const upTo: Collation
    var tables: Store

    constructor (upTo: Collation)
      ensures this.upTo == upTo && tables == EMPTY
    {
      this.upTo := upTo;
      tables := EMPTY;
    }

    /** Refuses a bot identity that another profile holds. */
    method SaveProfile(id: string, p: Profile) returns (r: Result<string>)
      modifies this
      ensures tables == AfterSave(old(tables), id, p)
      ensures r.Ok? <==> !old(BotTaken(tables, id, p.bot))
    {
      if BotTaken(tables, id, p.bot) { return Err("identity_taken"); }
      tables := Upserted(tables, id, p);
      if IsManaged(p) && p.enabled && !p.archived { tables := EnsureDefault(tables, p.manager.value, id); }
      r := Ok(id);
    }

    method SetDefaultFor(manager: string, id: string) returns (r: Result<string>)
      modifies this
      ensures tables == AfterSetDefault(old(tables), manager, id)
      ensures r.Ok? <==> old(Eligible(tables, manager, id))
    {
      if id !in tables.profiles || tables.profiles[id].manager != Some(manager) { return Err("not_found"); }
      if !tables.profiles[id].enabled || tables.profiles[id].archived { return Err("not_active"); }
      tables := tables.(defaults := tables.defaults[manager := id]);
      r := Ok(id);
    }

    method DeleteProfile(id: string) returns (deleted: bool)
      requires IsOrder(upTo)
      modifies this
      ensures tables == AfterDelete(upTo, old(tables), id)
      ensures deleted == (id in old(tables).profiles)
    {
      deleted := id in tables.profiles;
      if !deleted {
        assert tables.profiles - {id} == tables.profiles;
        return;
      }
      var existing := tables.profiles[id];
      tables := Removed(tables, id);
      if IsManaged(existing) {
        var replacement := Oldest(existing.manager.value);
        if replacement.Some? {
          forall other | IsOldest(upTo, tables, existing.manager.value, other) ensures other == replacement.value {
            OldestIsUnique(upTo, tables, existing.manager.value, other, replacement.value);
          }
          tables := EnsureDefault(tables, existing.manager.value, replacement.value);
        }
      }
    }

    /** The first eligible profile in the sorted list. */
    method Oldest(manager: string) returns (oldest: Option<string>)
      requires IsOrder(upTo)
      ensures match oldest
              case Some(id) => IsOldest(upTo, tables, manager, id)
              case None => forall id :: !IsOldest(upTo, tables, manager, id)
    {
      var left := set id <- tables.profiles | Eligible(tables, manager, id);
      ghost var all := left;
      oldest := None;
      while left != {}
        invariant left <= all
        invariant oldest.None? ==> left == all
        invariant oldest.Some? ==> oldest.value in all && forall b <- all - left :: Older(upTo, tables, oldest.value, b)
        decreases |left|
      {
        var id :| id in left;
        ghost var was := oldest;
        if oldest.None? || !Older(upTo, tables, oldest.value, id) { oldest := Some(id); }
        forall b <- all - (left - {id}) ensures Older(upTo, tables, oldest.value, b) {
          assert b == id || (was.Some? && Older(upTo, tables, was.value, b));
        }
        left := left - {id};
      }
      if oldest.Some? {
        assert forall b <- all :: b in all - left;
      } else {
        assert forall id <- tables.profiles :: Eligible(tables, manager, id) ==> id in all;
      }
    }
  }
}

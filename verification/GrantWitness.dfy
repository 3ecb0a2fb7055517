/** One signed event that decodes, and what happens to it on the way to an import. */
module GrantWitness {
  import opened AccessGrant
  import opened AgentConnect
  import opened GrantImport
  import opened GrantProcess
  import opened Json
  import opened TowerVerify
  import opened Wrappers

  // ----- the event -----

  function PackageKind(): string { "coworker_agent_connect" }

  function PayloadType(): string { "flightdeck_onboarding" }

  /** A service, workspace, app and token all at once: every identity in it is `t`. */
  function Uniform(t: string): Json {
    Obj(map[Key.DirectHttpsUrl := Str(t), Key.ServiceNpub := Str(t), Key.OwnerNpub := Str(t),
            Key.WorkspaceOwnerNpub := Str(t), Key.AppNpub := Str(t)])
  }

  /** A version 5 package that does not name the workspace service. */
  function UniformPackage(t: string): Json {
    Obj(map[Key.Kind := Str(PackageKind()), Key.Version := Num(5.0), Key.GeneratedAt := Str(t),
            Key.Service := Uniform(t), Key.Workspace := Uniform(t), Key.App := Uniform(t),
            Key.ConnectionToken := Str(t)])
  }

  /** The workspace as the payload states it, with service `w`. */
  function StatedWorkspace(t: string, w: string): Json {
    Obj(map[Key.OwnerNpub := Str(t), Key.WorkspaceServiceNpub := Str(w), Key.WorkspaceId := Str(t)])
  }

  function SignedPayload(t: string, w: string): Json {
    Obj(map[Key.Type := Str(PayloadType()), Key.IssuedAt := Str(t), Key.RecipientNpub := Str(t),
            Key.IssuedByNpub := Str(t), Key.Service := Uniform(t), Key.Workspace := StatedWorkspace(t, w),
            Key.App := Uniform(t), Key.AgentConnectPackage := UniformPackage(t)])
  }

  function SignedEvent(t: string): Event {
    Event("e", t, ACCESS_GRANT_KIND, [["p", t]], true, Some(t))
  }

  /** Libraries under which the event is signed by `t` for `t` and holds that payload. */
  function SomeLibrary(t: string, w: string): Library {
    Library((v: Json) => if v.Num? then Some(v.n) else None, v => Some(0), v => t, s => s, v => Some(t), s => true,
            k => false, s => Some(Uniform(t)), s => Some(t), s => Some(t), s => t, s => Some(SignedPayload(t, w)))
  }

  // ----- decoding it -----

  /** What decoding reads of a payload. */
  ghost predicate IsStated(p: Json, t: string, w: string) {
    && p.Obj? && RecipientOf(p) == Str(t) && IssuerOf(p) == Str(t) && GrantIdOf(p) == Undefined
    && Get(p, Key.DedupeKey) == Undefined && Get(p, Key.ExpiresAt) == Undefined
    && Get(p, Key.Action) == Str("grant") && Get(p, Key.Status) == Str("active")
    && ServiceOf(p) == Uniform(t) && WorkspaceOf(p) == StatedWorkspace(t, w) && AppOf(p) == Uniform(t)
    && PackageOf(p) == UniformPackage(t)
  }

  lemma TypeIsText()
    ensures IsTrimmedText(Str(PayloadType()))
  {
  }

  lemma PackageKindIs()
    ensures PackageKind() == "coworker_agent_connect"
  {
  }

  lemma KindIsText()
    ensures IsTrimmedText(Str(PackageKind()))
  {
  }

  lemma PayloadActs(t: string, w: string)
    ensures NormalAction(SignedPayload(t, w)) == "grant" && NormalStatus(SignedPayload(t, w)) == "active"
  {
    hide Trim, Uniform, UniformPackage, StatedWorkspace, PayloadType;
  }

  /** The payload with its action and status, before its blanks are filled in. */
  function ActedPayload(t: string, w: string): Json {
    Set(Set(SignedPayload(t, w), Key.Action, Str("grant")), Key.Status, Str("active"))
  }

  lemma PayloadActed(t: string, w: string)
    ensures WithPackage(WithAction(SignedPayload(t, w))) == ActedPayload(t, w)
  {
    PayloadActs(t, w);
    hide NormalAction, NormalStatus, Uniform, StatedWorkspace, PayloadType, PackageKind;
  }

  lemma AppAlreadyNamed(t: string)
    ensures Set(Uniform(t), Key.AppNpub, Str(t)) == Uniform(t)
    ensures Get(Uniform(t), Key.AppNpub) == Str(t) && Get(Uniform(t), Key.Namespace) == Undefined && Uniform(t).Obj?
    ensures Get(Uniform(t), Key.DirectHttpsUrl) == Str(t) && Get(Uniform(t), Key.ServiceNpub) == Str(t)
    ensures Get(Uniform(t), Key.AppPubkey) == Undefined
  {
    assert Uniform(t).fields[Key.AppNpub := Str(t)] == Uniform(t).fields;
  }

  lemma SignedReads(t: string, w: string)
    ensures var p := SignedPayload(t, w);
            && RecipientOf(p) == Str(t) && IssuerOf(p) == Str(t) && Get(p, Key.IssuedAt) == Str(t)
            && Get(p, Key.GrantId) == Undefined && Get(p, Key.Grant) == Undefined
            && Get(p, Key.DedupeKey) == Undefined && Get(p, Key.ExpiresAt) == Undefined
            && ServiceOf(p) == Uniform(t) && WorkspaceOf(p) == StatedWorkspace(t, w) && AppOf(p) == Uniform(t)
            && PackageOf(p) == UniformPackage(t)
  {
    hide Uniform, UniformPackage, StatedWorkspace, PayloadType;
  }

  /** Stating action and status leaves every other field alone. */
  lemma ActingKeeps(p: Json, action: Json, status: Json)
    requires p.Obj?
    ensures var r := Set(Set(p, Key.Action, action), Key.Status, status);
            && Get(r, Key.Action) == action && Get(r, Key.Status) == status
            && forall other :: other != Key.Action && other != Key.Status ==> Get(r, other) == Get(p, other)
  {
  }

  lemma ActedReads(t: string, w: string)
    ensures var p := ActedPayload(t, w);
            && RecipientOf(p) == Str(t) && IssuerOf(p) == Str(t) && Get(p, Key.IssuedAt) == Str(t)
            && Get(p, Key.GrantId) == Undefined && Get(p, Key.Grant) == Undefined
            && Get(p, Key.DedupeKey) == Undefined && Get(p, Key.ExpiresAt) == Undefined
            && Get(p, Key.Action) == Str("grant") && Get(p, Key.Status) == Str("active")
            && ServiceOf(p) == Uniform(t) && WorkspaceOf(p) == StatedWorkspace(t, w) && AppOf(p) == Uniform(t)
            && PackageOf(p) == UniformPackage(t)
  {
    SignedReads(t, w);
    ActingKeeps(SignedPayload(t, w), Str("grant"), Str("active"));
    hide SignedPayload, Set, Get, Uniform, UniformPackage, StatedWorkspace;
  }

  lemma FilledGrantId(payload: Json, app: Json)
    requires payload.Obj? && AppOf(payload).Obj?
    requires Get(payload, Key.GrantId) == Undefined && Get(payload, Key.Grant) == Undefined
    ensures GrantIdOf(Filled(payload, app)) == Undefined
  {
  }

  lemma FilledIsStated(t: string, w: string)
    ensures AppOf(ActedPayload(t, w)).Obj? && IsStated(Filled(ActedPayload(t, w), Str(t)), t, w)
  {
    ActedReads(t, w);
    AppAlreadyNamed(t);
    hide Filled, ActedPayload, Uniform, UniformPackage, StatedWorkspace, RecipientOf, IssuerOf, GrantIdOf;
    var p := ActedPayload(t, w);
    FilledIdentities(p, Str(t));
    FilledGrantId(p, Str(t));
    FilledApp(p, Str(t));
    FilledKeeps(p, Str(t), Key.DedupeKey);
    FilledKeeps(p, Str(t), Key.ExpiresAt);
    FilledKeeps(p, Str(t), Key.Action);
    FilledKeeps(p, Str(t), Key.Status);
    FilledKeeps(p, Str(t), Key.Service);
    FilledKeeps(p, Str(t), Key.Workspace);
    FilledKeeps(p, Str(t), Key.AgentConnectPackage);
  }

  lemma StatedIsRequired(t: string, w: string)
    requires t != "" && w != ""
    ensures HasRequiredFields(SomeLibrary(t, w), ActedPayload(t, w), Str(t))
  {
    ActedReads(t, w);
    AppAlreadyNamed(t);
    hide ActedPayload, Uniform, UniformPackage, RecipientOf, IssuerOf;
  }

  lemma PayloadIsAccessGrant(t: string, w: string)
    ensures IsAccessGrant(SignedPayload(t, w)) && Get(SignedPayload(t, w), Key.Protocol) == Undefined
    ensures AppOf(SignedPayload(t, w)) == Uniform(t) && AppOf(ActedPayload(t, w)) == Uniform(t)
    ensures Truthy(PackageOf(ActedPayload(t, w)))
  {
    TypeIsText();
    hide Trim, GetString, Uniform, StatedWorkspace, PackageKind;
  }

  lemma ParsesTo(lib: Library, parsed: Json, payload: Json, app: Json)
    requires IsAccessGrant(parsed) && Get(parsed, Key.Protocol) == Undefined
    requires payload == WithPackage(WithAction(parsed)) && EncodedApp(lib, AppOf(parsed)) == Ok(app)
    requires HasRequiredFields(lib, payload, app) && Truthy(PackageOf(payload))
    requires Get(AppOf(payload), Key.Namespace) == Undefined && AppOf(payload).Obj?
    ensures ParsePayload(lib, parsed) == Ok(Filled(payload, app))
  {
    hide HasRequiredFields, WithAction, WithPackage, EncodedApp, Filled, PackageOf, NormalAction;
  }

  lemma PayloadParses(t: string, w: string) returns (p: Json)
    requires t != "" && w != ""
    ensures ParsePayload(SomeLibrary(t, w), SignedPayload(t, w)) == Ok(p) && IsStated(p, t, w)
  {
    PayloadIsAccessGrant(t, w);
    PayloadActed(t, w);
    AppAlreadyNamed(t);
    StatedIsRequired(t, w);
    FilledIsStated(t, w);
    hide ParsePayload, IsAccessGrant, HasRequiredFields, Filled, WithAction, WithPackage, Uniform, ActedPayload,
      SignedPayload, IsStated, SomeLibrary;
    ParsesTo(SomeLibrary(t, w), SignedPayload(t, w), ActedPayload(t, w), Str(t));
    p := Filled(ActedPayload(t, w), Str(t));
  }

  lemma OneTag(event: Event, tag: seq<string>)
    requires event.tags == [tag]
    ensures forall matches: seq<string> -> bool ::
              FindTag(event.tags, matches) ==
              if matches(tag) && |tag| > 1 then Some(Trim(tag[1])) else None
  {
    hide Trim;
    assert event.tags[1..] == [];
  }

  lemma EnvelopePasses(t: string, w: string)
    requires IsTrimmedText(Str(t))
    ensures CheckEnvelope(SomeLibrary(t, w), SignedEvent(t), t) == Ok(t)
  {
    OneTag(SignedEvent(t), ["p", t]);
    hide Trim, SignedPayload, Uniform, FindTag;
    assert Trim(t) == t;
  }

  lemma NoTag(t: string, name: string)
    requires name != "p"
    ensures OptionalTag(SignedEvent(t), name) == None
  {
    OneTag(SignedEvent(t), ["p", t]);
    hide Trim, FindTag;
    assert !IsNamed(["p", t], name);
  }

  lemma NoTags(t: string)
    ensures ReadTags(SignedEvent(t)) == Tags(None, None, None, None, None, None, None, None, None, None, None)
  {
    hide OptionalTag;
    NoTag(t, "d");
    NoTag(t, "app");
    NoTag(t, "protocol");
    NoTag(t, "app_pub");
    NoTag(t, "app_npub");
    NoTag(t, "service_npub");
    NoTag(t, "workspace_service_npub");
    NoTag(t, "workspace_owner_npub");
    NoTag(t, "recipient");
    NoTag(t, "issuer");
    NoTag(t, "grant");
  }

  lemma StatedTagsAgree(t: string, w: string, p: Json)
    requires t != "" && w != "" && IsStated(p, t, w)
    ensures TagsAgree(Tags(None, None, None, None, None, None, None, None, None, None, None), p, t, t)
  {
    AppAlreadyNamed(t);
    hide Uniform, UniformPackage;
  }

  /** The grant the event decodes to. */
  ghost predicate IsDecoded(grant: Grant, t: string, w: string) {
    && grant.serviceNpub == Str(t) && grant.workspaceOwnerNpub == Str(t) && grant.appNpub == Str(t)
    && grant.workspaceServiceNpub == Str(w) && grant.issuerNpub == Str(t) && grant.recipientNpub == t
    && Get(grant.payload, Key.Action) == Str("grant") && Get(grant.payload, Key.Status) == Str("active")
    && ServiceOf(grant.payload) == Uniform(t) && WorkspaceOf(grant.payload) == StatedWorkspace(t, w)
    && AppOf(grant.payload) == Uniform(t) && PackageOf(grant.payload) == UniformPackage(t)
  }

  lemma KeyedOther(p: Json, key: Json, grantId: Json, other: Key)
    requires p.Obj? && other != Key.DedupeKey && other != Key.GrantId
    ensures Get(Set(Set(p, Key.DedupeKey, key), Key.GrantId, grantId), other) == Get(p, other)
  {
  }

  lemma KeyedStated(p: Json, key: Json, grantId: Json, t: string, w: string)
    requires IsStated(p, t, w)
    ensures var r := Set(Set(p, Key.DedupeKey, key), Key.GrantId, grantId);
            && Get(r, Key.Action) == Str("grant") && Get(r, Key.Status) == Str("active")
            && ServiceOf(r) == Uniform(t) && WorkspaceOf(r) == StatedWorkspace(t, w) && AppOf(r) == Uniform(t)
            && PackageOf(r) == UniformPackage(t)
  {
    hide Set, Get, Uniform, UniformPackage, StatedWorkspace, RecipientOf, IssuerOf, GrantIdOf;
    KeyedOther(p, key, grantId, Key.Action);
    KeyedOther(p, key, grantId, Key.Status);
    KeyedOther(p, key, grantId, Key.Service);
    KeyedOther(p, key, grantId, Key.Workspace);
    KeyedOther(p, key, grantId, Key.App);
    KeyedOther(p, key, grantId, Key.AgentConnectPackage);
  }

  lemma StatedIdentities(p: Json, t: string, w: string)
    requires IsStated(p, t, w)
    ensures Get(ServiceOf(p), Key.ServiceNpub) == Str(t) && Get(WorkspaceOf(p), Key.WorkspaceServiceNpub) == Str(w)
    ensures Get(WorkspaceOf(p), Key.OwnerNpub) == Str(t) && Get(AppOf(p), Key.AppNpub) == Str(t)
    ensures p.Obj? && IssuerOf(p) == Str(t)
  {
    AppAlreadyNamed(t);
    hide Uniform, UniformPackage;
  }

  lemma GrantOfStated(lib: Library, t: string, w: string, p: Json)
    requires IsStated(p, t, w)
    requires ReadTags(SignedEvent(t)) == Tags(None, None, None, None, None, None, None, None, None, None, None)
    ensures IsDecoded(GrantOf(lib, SignedEvent(t), p, t, t), t, w)
  {
    StatedIdentities(p, t, w);
    var grant := GrantOf(lib, SignedEvent(t), p, t, t);
    KeyedStated(p, Str(grant.dedupeKey), grant.grantId, t, w);
    hide Set, Get, IsStated, Uniform, UniformPackage, StatedWorkspace, ReadTags, AccessGrantDedupeKey, ConnectionKey,
        Text, IssuerOf, GrantIdOf, ServiceOf, WorkspaceOf, AppOf, PackageOf;
  }

  /** The event decodes for its recipient at any time, tags and all. */
  lemma EventDecodes(t: string, w: string, now: int) returns (grant: Grant)
    requires IsTrimmedText(Str(t)) && w != ""
    ensures Decode(SomeLibrary(t, w), SignedEvent(t), t, now) == Ok(grant) && IsDecoded(grant, t, w)
  {
    var p := PayloadParses(t, w);
    EnvelopePasses(t, w);
    NoTags(t);
    StatedTagsAgree(t, w, p);
    GrantOfStated(SomeLibrary(t, w), t, w, p);
    StatedIsFree(p, t, w);
    hide CheckEnvelope, ParsePayload, ReadTags, TagsAgree, GrantOf, IsDecoded, IsStated, SignedPayload;
    grant := GrantOf(SomeLibrary(t, w), SignedEvent(t), p, t, t);
  }

  lemma StatedIsFree(p: Json, t: string, w: string)
    requires IsStated(p, t, w)
    ensures p.Obj? && Get(p, Key.DedupeKey) == Undefined && Get(p, Key.ExpiresAt) == Undefined
  {
  }

  // ----- its package matches and imports -----

  ghost predicate IsUniform(value: Json, t: string) {
    && Get(value, Key.DirectHttpsUrl) == Str(t) && Get(value, Key.ServiceNpub) == Str(t)
    && Get(value, Key.OwnerNpub) == Str(t) && Get(value, Key.WorkspaceOwnerNpub) == Str(t)
    && Get(value, Key.AppNpub) == Str(t) && Get(value, Key.WorkspaceId) == Undefined
    && Get(value, Key.WorkspaceServiceNpub) == Undefined
    && Get(value, Key.Namespace) == Undefined && Get(value, Key.SchemaNamespace) == Undefined
  }

  ghost predicate IsUniformLibrary(lib: Library, t: string) {
    && lib.number(Num(5.0)) == Some(5.0) && lib.dateMs(Str(t)).Some? && lib.url(Str(t)) == Some(t)
    && lib.isHttpUrl(t) && lib.token(t).Some? && lib.token(t).value.Obj? && IsUniform(lib.token(t).value, t)
  }

  ghost predicate IsUniformPackage(package: Json, t: string) {
    && Get(package, Key.Kind) == Str(PackageKind()) && Get(package, Key.Version) == Num(5.0)
    && Get(package, Key.GeneratedAt) == Str(t) && Get(package, Key.ConnectionToken) == Str(t)
    && IsUniform(Get(package, Key.Service), t) && IsUniform(Get(package, Key.Workspace), t)
    && IsUniform(Get(package, Key.App), t)
  }

  ghost predicate IsUniformGrant(grant: Grant, t: string) {
    && GrantUrl(grant) == Str(t) && IsUniformPackage(PackageOf(grant.payload), t)
    && grant.serviceNpub == Str(t) && grant.workspaceOwnerNpub == Str(t) && grant.appNpub == Str(t)
  }

  lemma UniformIsUniform(t: string)
    ensures IsUniform(Uniform(t), t) && Uniform(t).Obj?
  {
  }

  lemma PackageIsUniform(t: string)
    ensures IsUniformPackage(UniformPackage(t), t)
  {
    UniformIsUniform(t);
    hide Uniform, IsUniform, PackageKind;
  }

  lemma LibraryIsUniform(t: string, w: string)
    ensures IsUniformLibrary(SomeLibrary(t, w), t)
  {
    UniformIsUniform(t);
    hide Uniform, IsUniform;
  }

  lemma DecodedIsUniform(grant: Grant, t: string, w: string)
    requires IsDecoded(grant, t, w)
    ensures IsUniformGrant(grant, t)
  {
    PackageIsUniform(t);
    AppAlreadyNamed(t);
    hide Uniform, UniformPackage, IsUniformPackage, StatedWorkspace;
  }

  lemma UniformMatches(lib: Library, grant: Grant, t: string)
    requires IsUniformLibrary(lib, t) && IsUniformGrant(grant, t) && IsTrimmedText(Str(t))
    ensures Matches(lib, grant)
  {
    hide PackageKind;
  }

  /** A version 5 package whose parts all say `t` validates, whatever its workspace service. */
  lemma UniformV5Imports(lib: Library, package: Json, t: string)
    requires IsUniformLibrary(lib, t) && IsTrimmedText(Str(t))
    requires Get(package, Key.Kind) == Str(PackageKind()) && Get(package, Key.Version) == Num(5.0)
    requires Get(package, Key.GeneratedAt) == Str(t) && Get(package, Key.ConnectionToken) == Str(t)
    requires PackageUrl(package) == Some(t) && Get(Get(package, Key.Service), Key.ServiceNpub) == Str(t)
    requires Get(Get(package, Key.Workspace), Key.OwnerNpub) == Str(t)
    requires Get(Get(package, Key.App), Key.AppNpub) == Str(t)
    ensures Validate(lib, package).Some?
  {
    KindIsText();
    hide GetString, Trim, StripSlashes, PackageKind;
    PackageKindIs();
    assert TokenAgrees(lib, package, lib.token(t).value, t);
  }

  lemma UniformImports(lib: Library, grant: Grant, t: string)
    requires IsUniformLibrary(lib, t) && IsUniformGrant(grant, t) && IsTrimmedText(Str(t))
    ensures Validate(lib, Scoped(lib, grant)).Some?
  {
    hide PackageKind, Validate, Scoped;
    ScopedV5Reads(lib, grant);
    ScopedV5Keeps(lib, grant, Key.Kind);
    ScopedV5Keeps(lib, grant, Key.Version);
    ScopedV5Keeps(lib, grant, Key.GeneratedAt);
    ScopedV5Keeps(lib, grant, Key.ConnectionToken);
    UniformV5Imports(lib, Scoped(lib, grant), t);
  }

  /** The event decodes, its package matches, and the rescoped package validates. */
  lemma EventPasses(t: string, w: string, now: int) returns (grant: Grant)
    requires IsTrimmedText(Str(t)) && w != ""
    ensures Decode(SomeLibrary(t, w), SignedEvent(t), t, now) == Ok(grant) && IsDecoded(grant, t, w)
    ensures Matches(SomeLibrary(t, w), grant) && Validate(SomeLibrary(t, w), Scoped(SomeLibrary(t, w), grant)).Some?
  {
    hide Decode, Matches, Validate, Scoped, IsDecoded, IsUniformLibrary, IsUniformGrant, SomeLibrary;
    grant := EventDecodes(t, w, now);
    LibraryIsUniform(t, w);
    DecodedIsUniform(grant, t, w);
    UniformMatches(SomeLibrary(t, w), grant, t);
    UniformImports(SomeLibrary(t, w), grant, t);
  }

  /** If the payload pads its workspace service, the event passes every check and is imported with another one. */
  lemma PaddedServiceIsImportedDifferently(t: string, w: string, now: int) returns (grant: Grant)
    requires IsTrimmedText(Str(t)) && w != "" && !Trimmed(w)
    ensures Decode(SomeLibrary(t, w), SignedEvent(t), t, now) == Ok(grant)
    ensures var lib := SomeLibrary(t, w);
            Matches(lib, grant) && Validate(lib, Scoped(lib, grant)).Some? &&
            Value(Validate(lib, Scoped(lib, grant)).value.workspaceServiceNpub) != grant.workspaceServiceNpub
  {
    hide Decode, Matches, Validate, Scoped, SomeLibrary, Uniform, UniformPackage, StatedWorkspace;
    grant := EventPasses(t, w, now);
    WorkspaceServiceKeptExactly(SomeLibrary(t, w), grant);
  }

  /** Such texts: one letter, and one letter after a blank. */
  lemma PaddedTexts()
    ensures IsTrimmedText(Str("t")) && " w" != "" && !Trimmed(" w")
  {
    assert IsSpace(" w"[0]);
  }

  // ----- a Tower that allows it, and one that also denies it -----

  /** An answer or a listing row that names the owner and allows access. */
  function OwnerRow(o: string): Json {
    Obj(map[Key.OwnerNpub := Str(o), Key.Allowed := Bool(true)])
  }

  lemma OwnerRowExposes(o: string, path: seq<Key>)
    requires path != []
    ensures GetString(At(OwnerRow(o), path)).Some? ==> path == [Key.OwnerNpub] && At(OwnerRow(o), path) == Str(o)
  {
    if |path| > 1 {
      NothingBelow(Get(OwnerRow(o), path[0]), path[1..]);
    } else {
      assert path == [path[0]] && At(OwnerRow(o), path) == At(Get(OwnerRow(o), path[0]), []);
    }
  }

  lemma OwnerRowMatches(o: string, paths: seq<seq<Key>>, expected: seq<Json>)
    requires (forall path <- paths :: path != []) && IsTrimmedText(Str(o))
    requires [Key.OwnerNpub] in paths ==> Str(o) in expected
    ensures ExposedValuesMatch(OwnerRow(o), paths, expected)
  {
    forall path <- paths
      ensures GetString(At(OwnerRow(o), path)).Some? ==> At(OwnerRow(o), path) == Str(o) && Str(o) in expected
    {
      OwnerRowExposes(o, path);
    }
  }

  lemma OwnerRowAllows(o: string, grant: Grant)
    requires IsTrimmedText(Str(o)) && grant.workspaceOwnerNpub == Str(o)
    ensures AllowsAccess(OwnerRow(o), grant) && RowAllows(OwnerRow(o), grant)
  {
    OwnerRowMatches(o, TOWER_PATHS, [grant.serviceNpub]);
    OwnerRowMatches(o, WORKSPACE_SERVICE_PATHS, [grant.workspaceServiceNpub]);
    OwnerRowMatches(o, OWNER_PATHS, [grant.workspaceOwnerNpub]);
    OwnerRowMatches(o, WORKSPACE_ID_PATHS, [Value(GrantWorkspaceId(grant))]);
    OwnerRowMatches(o, APP_PATHS, [WorkspaceApp(grant), grant.appNpub]);
    OwnerRowMatches(o, RECIPIENT_PATHS, [Str(grant.recipientNpub)]);
    hide ExposedValuesMatch;
  }

  /** The verify endpoint is missing, a listing names the workspace, and its `/me` is not found. */
  function SplitTower(o: string): Tower {
    Tower(Answer(404, Null), None, Answer(404, Null),
          [Answer(200, Obj(map[Key.Workspaces := Arr([OwnerRow(o)])]))])
  }

  lemma DecodedWorkspaceId(grant: Grant, t: string, w: string)
    requires IsDecoded(grant, t, w) && IsTrimmedText(Str(t))
    ensures GrantWorkspaceId(grant) == Some(t)
  {
    hide Trim, Uniform, UniformPackage;
  }

  /** A Tower whose listing and `/me` disagree confirms access to the event's grant and its revocation at once. */
  lemma SplitTowerConfirmsBoth(t: string, w: string, now: int) returns (grant: Grant)
    requires IsTrimmedText(Str(t)) && w != ""
    ensures Decode(SomeLibrary(t, w), SignedEvent(t), t, now) == Ok(grant)
    ensures Access(grant, SplitTower(t)).Some?
    ensures Revocation(grant, SplitTower(t)) == Some(Verification(true, WorkspaceNotFound, Undefined))
  {
    hide Decode, SomeLibrary, RowAllows, AllowsAccess;
    grant := EventDecodes(t, w, now);
    DecodedWorkspaceId(grant, t, w);
    OwnerRowAllows(t, grant);
    var body := SplitTower(t).listings[0].body;
    assert Rows(body) == [OwnerRow(t)] && OwnerRow(t) in Rows(body);
    assert ListingAllows(body, grant);
  }

  // ----- the event is imported -----

  /** A call for the event, with a willing Tower and manager. */
  function SomeCall(t: string, now: int): Call {
    Call(SignedEvent(t), t, t, None, now, Tower(Answer(200, OwnerRow(t)), None, Unreachable, []),
         Manager(None, false, false, None, None, false))
  }

  lemma DecodedStarts(lib: Library, call: Call, grant: Grant, t: string, w: string)
    requires IsDecoded(grant, t, w) && call.managedByNpub == t != "" && call.isAuthorizedIssuer.None?
    ensures StartDecoded(lib, call, grant, {}) == Importing(grant, ImportKey(grant))
  {
    hide Uniform, UniformPackage, StatedWorkspace, ImportKey;
  }

  lemma DecodedImports(lib: Library, call: Call, grant: Grant, key: string)
    requires Access(grant, call.tower).Some? && Matches(lib, grant) && Validate(lib, Scoped(lib, grant)).Some?
    requires call.manager.importError.None?
    ensures Finish(lib, call, Importing(grant, key)).1 == Some(key)
  {
    hide Access, Matches, Validate, Scoped, ImportReply;
  }

  /** Some call does import: the hypothesis of every result about completed imports is met. */
  lemma SomeCallImports(t: string, w: string, now: int)
    requires IsTrimmedText(Str(t)) && w != ""
    ensures var lib, call := SomeLibrary(t, w), SomeCall(t, now);
            Start(lib, call, {}).Importing? && Finish(lib, call, Start(lib, call, {})).1.Some?
  {
    hide Decode, Matches, Validate, Scoped, SomeLibrary, StartDecoded, Finish, IsDecoded, AllowsAccess;
    var lib, call := SomeLibrary(t, w), SomeCall(t, now);
    var grant := EventPasses(t, w, now);
    DecodedOwner(grant, t, w);
    OwnerRowAllows(t, grant);
    DecodedStarts(lib, call, grant, t, w);
    assert Access(grant, call.tower).Some?;
    DecodedImports(lib, call, grant, ImportKey(grant));
  }

  lemma DecodedOwner(grant: Grant, t: string, w: string)
    requires IsDecoded(grant, t, w)
    ensures grant.workspaceOwnerNpub == Str(t)
  {
  }

  /** Two overlapping calls for this very event import it twice. */
  lemma SomeEventImportedTwice(t: string, w: string, now: int)
    requires IsTrimmedText(Str(t)) && w != ""
    ensures var lib, call := SomeLibrary(t, w), SomeCall(t, now);
            var steps := [Begin(0, call)] + ([Begin(1, call)] + ([End(0)] + ([End(1)] + [])));
            IsRun(lib, GrantProcess.EMPTY, steps) && |Run(lib, GrantProcess.EMPTY, steps).imports| == 2
  {
    hide Start, Finish, Run, IsRun, SomeLibrary, SomeCall;
    SomeCallImports(t, w, now);
    OverlapImportsTwice(SomeLibrary(t, w), SomeCall(t, now));
  }
}

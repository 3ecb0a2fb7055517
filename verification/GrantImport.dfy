/** What is imported for an access grant is what the grant says, and what Tower was asked about. */
module GrantImport {
  import opened AccessGrant
  import opened AgentConnect
  import opened Json
  import opened Wrappers

  // ----- decoding: tags never override the payload -----

  /** What every parsed payload has. */
  ghost predicate Complete(payload: Json) {
    && Truthy(IssuerOf(payload)) && Truthy(RecipientOf(payload))
    && Truthy(Get(ServiceOf(payload), Key.ServiceNpub)) && Truthy(Get(WorkspaceOf(payload), Key.WorkspaceServiceNpub))
    && Truthy(Get(WorkspaceOf(payload), Key.OwnerNpub)) && Truthy(Get(AppOf(payload), Key.AppNpub))
    && Get(payload, Key.Action).Str? && IsAction(Get(payload, Key.Action).s)
    && (Get(payload, Key.Action) == Str("grant") ==> Truthy(PackageOf(payload)))
  }

  lemma FilledIdentities(payload: Json, app: Json)
    requires payload.Obj? && AppOf(payload).Obj?
    ensures RecipientOf(Filled(payload, app)) == RecipientOf(payload)
    ensures IssuerOf(Filled(payload, app)) == IssuerOf(payload)
  {
  }

  lemma FilledSays(payload: Json, app: Json)
    requires payload.Obj? && AppOf(payload).Obj?
    ensures ServiceOf(Filled(payload, app)) == ServiceOf(payload)
    ensures WorkspaceOf(Filled(payload, app)) == WorkspaceOf(payload)
    ensures PackageOf(Filled(payload, app)) == PackageOf(payload)
    ensures Get(Filled(payload, app), Key.Action) == Get(payload, Key.Action)
    ensures Get(AppOf(Filled(payload, app)), Key.AppNpub) == app
  {
    FilledApp(payload, app);
    hide Filled;
    FilledKeeps(payload, app, Key.Service);
    FilledKeeps(payload, app, Key.Workspace);
    FilledKeeps(payload, app, Key.AgentConnectPackage);
    FilledKeeps(payload, app, Key.Action);
  }

  lemma FilledIsComplete(lib: Library, payload: Json, app: Json, action: string)
    requires payload.Obj? && AppOf(payload).Obj? && HasRequiredFields(lib, payload, app)
    requires Get(payload, Key.Action) == Str(action) && IsAction(action)
    requires action == "grant" ==> Truthy(PackageOf(payload))
    ensures Complete(Filled(payload, app))
  {
    FilledIdentities(payload, app);
    FilledSays(payload, app);
  }

  lemma PackagedAction(parsed: Json)
    requires parsed.Obj?
    ensures Get(WithPackage(WithAction(parsed)), Key.Action) == Str(NormalAction(parsed))
  {
  }

  lemma ParsedIsComplete(lib: Library, parsed: Json)
    requires ParsePayload(lib, parsed).Ok?
    ensures Complete(ParsePayload(lib, parsed).value)
  {
    PackagedAction(parsed);
    FilledIsComplete(lib, WithPackage(WithAction(parsed)), EncodedApp(lib, AppOf(parsed)).value, NormalAction(parsed));
  }

  /** Every identity the grant acts on is the payload's, the issuer signed it, and the recipient is the reader. */
  ghost predicate SaysWhatPayloadSays(lib: Library, grant: Grant) {
    && grant.event.signatureValid && lib.npubOf(grant.event.pubkey) == Some(grant.signerNpub)
    && grant.issuerNpub == Str(grant.signerNpub) && IssuerOf(grant.payload) == Str(grant.signerNpub)
    && RecipientOf(grant.payload) == Str(grant.recipientNpub)
    && grant.serviceNpub == Get(ServiceOf(grant.payload), Key.ServiceNpub)
    && grant.workspaceServiceNpub == Get(WorkspaceOf(grant.payload), Key.WorkspaceServiceNpub)
    && grant.workspaceOwnerNpub == Get(WorkspaceOf(grant.payload), Key.OwnerNpub)
    && grant.appNpub == Get(AppOf(grant.payload), Key.AppNpub)
    && Get(grant.payload, Key.DedupeKey) == Str(grant.dedupeKey)
    && grant.dedupeKey == "wingman-access-grant:v1:" + grant.canonicalConnectionKey
    && Complete(grant.payload)
  }

  /** An agreeing tag adds nothing to a present payload field. */
  lemma AgreeingTag(tag: Option<string>, value: Json)
    requires Truthy(value) && Agree(TagOr(tag, value), value) && (tag.Some? ==> tag.value != "")
    ensures TagOr(tag, value) == value
  {
  }

  lemma KeyedKeeps(payload: Json, key: string, grantId: Json)
    requires payload.Obj? && Complete(payload)
    ensures var r := Set(Set(payload, Key.DedupeKey, Str(key)), Key.GrantId, grantId);
            Complete(r) && Get(r, Key.DedupeKey) == Str(key) && ServiceOf(r) == ServiceOf(payload) &&
            WorkspaceOf(r) == WorkspaceOf(payload) && AppOf(r) == AppOf(payload) &&
            RecipientOf(r) == RecipientOf(payload) && IssuerOf(r) == IssuerOf(payload)
  {
  }

  lemma GrantOfAgrees(lib: Library, event: Event, payload: Json, signer: string, recipientNpub: string)
    requires payload.Obj? && Complete(payload) && TagsAgree(ReadTags(event), payload, signer, recipientNpub)
    requires event.signatureValid && lib.npubOf(event.pubkey) == Some(signer)
    ensures SaysWhatPayloadSays(lib, GrantOf(lib, event, payload, signer, recipientNpub))
  {
    var tags, grant := ReadTags(event), GrantOf(lib, event, payload, signer, recipientNpub);
    KeyedKeeps(payload, grant.dedupeKey, grant.grantId);
    AgreeingTag(tags.serviceNpub, Get(ServiceOf(payload), Key.ServiceNpub));
    AgreeingTag(tags.workspaceServiceNpub, Get(WorkspaceOf(payload), Key.WorkspaceServiceNpub));
    AgreeingTag(tags.workspaceOwnerNpub, Get(WorkspaceOf(payload), Key.OwnerNpub));
    AgreeingTag(tags.appNpub, Get(AppOf(payload), Key.AppNpub));
    AgreeingTag(tags.issuer, IssuerOf(payload));
  }

  /** What a grant that decodes was built from. */
  lemma DecodedParts(lib: Library, event: Event, recipientNpub: string, now: int)
    returns (signer: string, payload: Json)
    requires Decode(lib, event, recipientNpub, now).Ok?
    ensures payload.Obj? && Complete(payload) && TagsAgree(ReadTags(event), payload, signer, recipientNpub)
    ensures event.signatureValid && lib.npubOf(event.pubkey) == Some(signer)
    ensures Decode(lib, event, recipientNpub, now) == Ok(GrantOf(lib, event, payload, signer, recipientNpub))
  {
    hide CheckEnvelope, TagsAgree, ReadTags, HasRequiredFields, Complete;
    signer := CheckEnvelope(lib, event, recipientNpub).value;
    var parsed := lib.parse(event.plaintext.value).value;
    payload := ParsePayload(lib, parsed).value;
    ParsedIsComplete(lib, parsed);
  }

  /** Whatever tags the event carries, a grant that decodes says what its signed payload says. */
  lemma DecodedSaysWhatPayloadSays(lib: Library, event: Event, recipientNpub: string, now: int)
    requires Decode(lib, event, recipientNpub, now).Ok?
    ensures var grant := Decode(lib, event, recipientNpub, now).value;
            SaysWhatPayloadSays(lib, grant) && grant.event == event && grant.recipientNpub == recipientNpub
  {
    var signer, payload := DecodedParts(lib, event, recipientNpub, now);
    GrantOfAgrees(lib, event, payload, signer, recipientNpub);
  }

  // ----- what is imported -----

  lemma ServiceReads(grant: Grant, service: Json)
    requires service.Obj?
    ensures Get(ScopedService(grant, service), Key.DirectHttpsUrl) == GrantUrl(grant)
  {
  }

  lemma WorkspaceReads(grant: Grant, workspace: Json)
    requires workspace.Obj?
    ensures var r := ScopedWorkspace(grant, workspace);
            Get(r, Key.OwnerNpub) == grant.workspaceOwnerNpub &&
            Get(r, Key.WorkspaceServiceNpub) == grant.workspaceServiceNpub &&
            GetString(Get(r, Key.WorkspaceId)) ==
              GetString(Else(Get(WorkspaceOf(grant.payload), Key.WorkspaceId), Get(workspace, Key.WorkspaceId)))
  {
  }

  lemma AppReads(grant: Grant, app: Json)
    requires app.Obj?
    ensures Get(ScopedApp(grant, app), Key.AppNpub) == grant.appNpub
  {
  }

  lemma WithPartsReads(package: Json, service: Json, workspace: Json, app: Json)
    requires package.Obj?
    ensures var r := WithParts(package, service, workspace, app);
            Get(r, Key.Service) == service && Get(r, Key.Workspace) == workspace && Get(r, Key.App) == app &&
            Get(r, Key.Version) == Get(package, Key.Version)
  {
  }

  function V5Service(grant: Grant): Json {
    var packaged := ObjectOrEmpty(Get(PackageOf(grant.payload), Key.Service));
    Set(ScopedService(grant, packaged), Key.ServiceNpub, grant.serviceNpub)
  }

  lemma V5ServiceReads(grant: Grant)
    ensures Get(V5Service(grant), Key.DirectHttpsUrl) == GrantUrl(grant)
    ensures Get(V5Service(grant), Key.ServiceNpub) == grant.serviceNpub
  {
    ServiceReads(grant, ObjectOrEmpty(Get(PackageOf(grant.payload), Key.Service)));
  }

  function V5Workspace(grant: Grant): Json {
    ScopedWorkspace(grant, ObjectOrEmpty(Get(PackageOf(grant.payload), Key.Workspace)))
  }

  function V5App(grant: Grant): Json {
    ScopedApp(grant, ObjectOrEmpty(Get(PackageOf(grant.payload), Key.App)))
  }

  /** The rescoped package of version 5 consists of these three parts. */
  lemma ScopedV5Parts(lib: Library, grant: Grant)
    requires !IsVersion(lib, PackageOf(grant.payload), 6.0)
    ensures var r := Scoped(lib, grant);
            !IsVersion(lib, r, 6.0) && Get(r, Key.Service) == V5Service(grant) &&
            Get(r, Key.Workspace) == V5Workspace(grant) && Get(r, Key.App) == V5App(grant)
  {
    hide ScopedService, ScopedWorkspace, ScopedApp;
    WithPartsReads(ObjectOrEmpty(PackageOf(grant.payload)), V5Service(grant), V5Workspace(grant), V5App(grant));
  }

  /** Reading the rescoped package of version 5 reads the grant. */
  lemma ScopedV5Reads(lib: Library, grant: Grant)
    requires !IsVersion(lib, PackageOf(grant.payload), 6.0)
    ensures var r, packaged := Scoped(lib, grant), Get(PackageOf(grant.payload), Key.Workspace);
            !IsVersion(lib, r, 6.0) &&
            PackageUrl(r) == GetString(GrantUrl(grant)) &&
            Get(Get(r, Key.Service), Key.ServiceNpub) == grant.serviceNpub &&
            Get(Get(r, Key.Workspace), Key.OwnerNpub) == grant.workspaceOwnerNpub &&
            Get(Get(r, Key.Workspace), Key.WorkspaceServiceNpub) == grant.workspaceServiceNpub &&
            GetString(Get(Get(r, Key.Workspace), Key.WorkspaceId)) ==
              GetString(Else(Get(WorkspaceOf(grant.payload), Key.WorkspaceId), Get(packaged, Key.WorkspaceId))) &&
            Get(Get(r, Key.App), Key.AppNpub) == grant.appNpub
  {
    ScopedV5Parts(lib, grant);
    V5ServiceReads(grant);
    WorkspaceReads(grant, ObjectOrEmpty(Get(PackageOf(grant.payload), Key.Workspace)));
    AppReads(grant, ObjectOrEmpty(Get(PackageOf(grant.payload), Key.App)));
  }

  /** Reading the rescoped package of version 6 reads the original descriptor. */
  lemma ScopedV6Reads(lib: Library, grant: Grant)
    requires IsVersion(lib, PackageOf(grant.payload), 6.0) && PackageOf(grant.payload).Obj?
    ensures var r, package := Scoped(lib, grant), PackageOf(grant.payload);
            IsVersion(lib, r, 6.0) &&
            PackageUrl(r) == GetString(GrantUrl(grant)) &&
            Get(r, Key.WorkspaceDescriptor) == Get(package, Key.WorkspaceDescriptor) &&
            Get(r, Key.Auth) == Get(package, Key.Auth)
  {
    ServiceReads(grant, ObjectOrEmpty(Get(PackageOf(grant.payload), Key.Service)));
  }

  /** The identities an import and a grant share, whatever the version. */
  ghost predicate SameIdentities(lib: Library, grant: Grant, imported: Import) {
    && Value(imported.serviceNpub) == grant.serviceNpub
    && Str(imported.workspaceOwnerNpub) == grant.workspaceOwnerNpub
    && Str(imported.sourceAppNpub) == grant.appNpub
    && imported.workspaceId == GrantWorkspaceId(grant)
    && imported.workspaceServiceNpub == GetString(grant.workspaceServiceNpub)
    && GrantUrl(grant).Str? && Some(imported.directHttpsUrl) == BackendBaseUrl(lib, Trim(GrantUrl(grant).s))
  }

  lemma EqualIsTrimmed(value: Json, right: Json)
    requires Equal(GetString(value), right)
    ensures IsTrimmedText(right) && GetString(right) == GetString(value)
  {
  }

  lemma ImportedV5(lib: Library, grant: Grant)
    requires !IsVersion(lib, PackageOf(grant.payload), 6.0)
    requires Matches(lib, grant) && Validate(lib, Scoped(lib, grant)).Some?
    ensures SameIdentities(lib, grant, Validate(lib, Scoped(lib, grant)).value)
  {
    var package := PackageOf(grant.payload);
    ScopedV5Reads(lib, grant);
    EqualIsTrimmed(Get(Get(package, Key.Service), Key.ServiceNpub), grant.serviceNpub);
    EqualIsTrimmed(Get(Get(package, Key.Workspace), Key.OwnerNpub), grant.workspaceOwnerNpub);
    EqualIsTrimmed(Get(Get(package, Key.App), Key.AppNpub), grant.appNpub);
  }

  lemma ImportedV6(lib: Library, grant: Grant)
    requires IsVersion(lib, PackageOf(grant.payload), 6.0)
    requires Matches(lib, grant) && Validate(lib, Scoped(lib, grant)).Some?
    ensures var imported := Validate(lib, Scoped(lib, grant)).value;
            SameIdentities(lib, grant, imported) && Value(imported.workspaceServiceNpub) == grant.workspaceServiceNpub
  {
    hide ParseDescriptor, Scoped;
    ScopedV6Reads(lib, grant);
  }

  /** What is imported is what was verified: owner, Tower, app, workspace id and backend URL are the grant's. */
  lemma ImportedIsVerified(lib: Library, grant: Grant)
    requires Matches(lib, grant) && Validate(lib, Scoped(lib, grant)).Some?
    ensures var imported := Validate(lib, Scoped(lib, grant)).value;
            SameIdentities(lib, grant, imported) &&
            (IsVersion(lib, PackageOf(grant.payload), 6.0) ==>
               Value(imported.workspaceServiceNpub) == grant.workspaceServiceNpub)
  {
    if IsVersion(lib, PackageOf(grant.payload), 6.0) {
      ImportedV6(lib, grant);
    } else {
      ImportedV5(lib, grant);
    }
  }

  /** The workspace service is the grant's exactly when the grant states it as trimmed text. */
  lemma WorkspaceServiceKeptExactly(lib: Library, grant: Grant)
    requires Matches(lib, grant) && Validate(lib, Scoped(lib, grant)).Some? && Truthy(grant.workspaceServiceNpub)
    ensures Value(Validate(lib, Scoped(lib, grant)).value.workspaceServiceNpub) == grant.workspaceServiceNpub <==>
            IsTrimmedText(grant.workspaceServiceNpub)
  {
    ImportedIsVerified(lib, grant);
  }

  /** From the signed event to the import: the imported identities are those of the decrypted payload. */
  lemma ImportedIsSigned(lib: Library, event: Event, recipientNpub: string, now: int)
    requires Decode(lib, event, recipientNpub, now).Ok?
    requires var grant := Decode(lib, event, recipientNpub, now).value;
             Matches(lib, grant) && Validate(lib, Scoped(lib, grant)).Some?
    ensures var grant := Decode(lib, event, recipientNpub, now).value;
            var imported := Validate(lib, Scoped(lib, grant)).value;
            IssuerOf(grant.payload) == Value(lib.npubOf(event.pubkey)) &&
            Str(imported.workspaceOwnerNpub) == Get(WorkspaceOf(grant.payload), Key.OwnerNpub) &&
            Value(imported.serviceNpub) == Get(ServiceOf(grant.payload), Key.ServiceNpub) &&
            Str(imported.sourceAppNpub) == Get(AppOf(grant.payload), Key.AppNpub) &&
            (IsTrimmedText(Get(WorkspaceOf(grant.payload), Key.WorkspaceServiceNpub)) ==>
               Value(imported.workspaceServiceNpub) == Get(WorkspaceOf(grant.payload), Key.WorkspaceServiceNpub))
  {
    var grant := Decode(lib, event, recipientNpub, now).value;
    DecodedSaysWhatPayloadSays(lib, event, recipientNpub, now);
    ImportedIsVerified(lib, grant);
  }

  lemma ScopedV5Keeps(lib: Library, grant: Grant, key: Key)
    requires !IsVersion(lib, PackageOf(grant.payload), 6.0)
    requires key == Key.Kind || key == Key.Version || key == Key.GeneratedAt || key == Key.ConnectionToken
    ensures Get(Scoped(lib, grant), key) == Get(PackageOf(grant.payload), key)
  {
    hide ScopedService, ScopedWorkspace, ScopedApp;
    var package := ObjectOrEmpty(PackageOf(grant.payload));
    WithPartsKeep(package, V5Service(grant), V5Workspace(grant), V5App(grant), key);
  }

  lemma WithPartsKeep(package: Json, service: Json, workspace: Json, app: Json, key: Key)
    requires package.Obj? && key != Key.Service && key != Key.Workspace && key != Key.App
    ensures Get(WithParts(package, service, workspace, app), key) == Get(package, key)
  {
  }
}

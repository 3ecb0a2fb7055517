/**
 When an Agent Connect package fits a grant, what the package is turned into for it, and what a package must say to be
 imported, told by the fields of package, grant and connection token.
 */
module PackageReading {
  import opened AccessGrant
  import opened AgentConnect
  import opened Json
  import opened Wrappers

  // ----- rescoping -----

  predicate IsGiven(v: Json) {
    !v.Undefined? && !v.Null?
  }

  /** The grant's own value if it is given, else the package's. */
  function Preferred(own: Json, packaged: Json): Json {
    if IsGiven(own) then own else packaged
  }

  /** The same, with no value at all as null. */
  function PreferredOrNull(own: Json, packaged: Json): Json {
    if IsGiven(own) then own else if IsGiven(packaged) then packaged else Null
  }

  /** What the service of a rescoped package says. */
  function ServiceField(grant: Grant, packaged: Json, key: Key): Json {
    var own := Get(grant.payload, Key.Service);
    if key.DirectHttpsUrl? then Get(own, key)
    else if key.RelayUrls? || key.OpenapiUrl? || key.DocsUrl? || key.HealthUrl? then
      Preferred(Get(own, key), Get(packaged, key))
    else Get(packaged, key)
  }

  function WorkspaceField(grant: Grant, packaged: Json, key: Key): Json {
    var own := Get(grant.payload, Key.Workspace);
    if key.OwnerNpub? then grant.workspaceOwnerNpub
    else if key.WorkspaceServiceNpub? then grant.workspaceServiceNpub
    else if key.WorkspaceId? || key.LabelText? || key.Name? then PreferredOrNull(Get(own, key), Get(packaged, key))
    else Get(packaged, key)
  }

  function AppField(grant: Grant, packaged: Json, key: Key): Json {
    var own := Get(grant.payload, Key.App);
    if key.AppNpub? then grant.appNpub
    else if key.AppPubkey? || key.Namespace? then Preferred(Get(own, key), Get(packaged, key))
    else Get(packaged, key)
  }

  lemma OverrideReads(target: Json, key: Key, own: Json, packaged: Json, other: Key)
    requires target.Obj?
    ensures var r := Override(target, key, own, packaged);
            r.Obj? && Get(r, other) == if other == key then Preferred(Get(own, key), Get(packaged, key))
                                       else Get(target, other)
    ensures var r := OverrideOrNull(target, key, own, packaged);
            r.Obj? && Get(r, other) == if other == key then PreferredOrNull(Get(own, key), Get(packaged, key))
                                       else Get(target, other)
  {
    GetSet(target, key, Else(Get(own, key), Get(packaged, key)), other);
    GetSet(target, key, Else(Else(Get(own, key), Get(packaged, key)), Null), other);
    hide Get, Set;
  }

  lemma ServiceScoped(grant: Grant, service: Json, key: Key)
    requires service.Obj?
    ensures Get(ScopedService(grant, service), key) == ServiceField(grant, service, key)
  {
    hide Get, Set, Override, OverrideOrNull, Preferred;
    var own := ServiceOf(grant.payload);
    var s1 := Set(service, Key.DirectHttpsUrl, GrantUrl(grant));
    GetSet(service, Key.DirectHttpsUrl, GrantUrl(grant), key);
    OverrideReads(s1, Key.RelayUrls, own, service, key);
    var s2 := Override(s1, Key.RelayUrls, own, service);
    OverrideReads(s2, Key.OpenapiUrl, own, service, key);
    var s3 := Override(s2, Key.OpenapiUrl, own, service);
    OverrideReads(s3, Key.DocsUrl, own, service, key);
    OverrideReads(Override(s3, Key.DocsUrl, own, service), Key.HealthUrl, own, service, key);
  }

  lemma WorkspaceScoped(grant: Grant, workspace: Json, key: Key)
    requires workspace.Obj?
    ensures Get(ScopedWorkspace(grant, workspace), key) == WorkspaceField(grant, workspace, key)
  {
    hide Get, Set, Override, OverrideOrNull, PreferredOrNull;
    var own := WorkspaceOf(grant.payload);
    GetSet(workspace, Key.OwnerNpub, grant.workspaceOwnerNpub, key);
    var w1 := Set(workspace, Key.OwnerNpub, grant.workspaceOwnerNpub);
    GetSet(w1, Key.WorkspaceServiceNpub, grant.workspaceServiceNpub, key);
    var w2 := Set(w1, Key.WorkspaceServiceNpub, grant.workspaceServiceNpub);
    OverrideReads(w2, Key.WorkspaceId, own, workspace, key);
    var w3 := OverrideOrNull(w2, Key.WorkspaceId, own, workspace);
    OverrideReads(w3, Key.LabelText, own, workspace, key);
    OverrideReads(OverrideOrNull(w3, Key.LabelText, own, workspace), Key.Name, own, workspace, key);
  }

  lemma AppScoped(grant: Grant, app: Json, key: Key)
    requires app.Obj?
    ensures Get(ScopedApp(grant, app), key) == AppField(grant, app, key)
  {
    hide Get, Set, Override, OverrideOrNull, Preferred;
    var own := AppOf(grant.payload);
    GetSet(app, Key.AppNpub, grant.appNpub, key);
    var a1 := Set(app, Key.AppNpub, grant.appNpub);
    OverrideReads(a1, Key.AppPubkey, own, app, key);
    OverrideReads(Override(a1, Key.AppPubkey, own, app), Key.Namespace, own, app, key);
  }

  /** One field of the rescoped package, and one field of each of its parts. */
  lemma ScopedExactly(lib: Library, grant: Grant, key: Key)
    ensures var package, scoped := Get(grant.payload, Key.AgentConnectPackage), Scoped(lib, grant);
            var service, workspace := Get(package, Key.Service), Get(package, Key.Workspace);
            var six := IsVersion(lib, ObjectOrEmpty(package), 6.0);
            && scoped.Obj?
            && Get(Get(scoped, Key.Service), key) ==
               (if key == Key.ServiceNpub && !six then grant.serviceNpub else ServiceField(grant, service, key))
            && (!six ==> Get(Get(scoped, Key.Workspace), key) == WorkspaceField(grant, workspace, key))
            && (!six ==> Get(Get(scoped, Key.App), key) == AppField(grant, Get(package, Key.App), key))
            && (key != Key.Service && (six || (key != Key.Workspace && key != Key.App)) ==>
                  Get(scoped, key) == Get(package, key))
  {
    var package := ObjectOrEmpty(PackageOf(grant.payload));
    var service := ObjectOrEmpty(Get(package, Key.Service));
    var workspace, app := ObjectOrEmpty(Get(package, Key.Workspace)), ObjectOrEmpty(Get(package, Key.App));
    ServiceScoped(grant, service, key);
    WorkspaceScoped(grant, workspace, key);
    AppScoped(grant, app, key);
    EmptyReads(PackageOf(grant.payload));
    EmptyReads(Get(package, Key.Service));
    EmptyReads(Get(package, Key.Workspace));
    EmptyReads(Get(package, Key.App));
    ScopedIsObject(grant, service);
    var scoped := ScopedService(grant, service);
    var named := Set(scoped, Key.ServiceNpub, grant.serviceNpub);
    GetSet(scoped, Key.ServiceNpub, grant.serviceNpub, key);
    SixReads(package, scoped, key);
    PartsRead(package, named, ScopedWorkspace(grant, workspace), ScopedApp(grant, app), key);
    FieldsIgnoreEmpty(grant, PackageOf(grant.payload), key);
    hide Get, Set, ScopedService, ScopedWorkspace, ScopedApp, ServiceField, WorkspaceField, AppField, ObjectOrEmpty,
        IsVersion, WithParts;
  }

  lemma EmptyReads(v: Json)
    ensures forall key :: Get(ObjectOrEmpty(v), key) == Get(v, key)
  {
  }

  lemma ScopedIsObject(grant: Grant, service: Json)
    requires service.Obj?
    ensures ScopedService(grant, service).Obj?
  {
  }

  lemma SixReads(package: Json, service: Json, key: Key)
    requires package.Obj?
    ensures var r := Set(package, Key.Service, service);
            Get(r, Key.Service) == service && (key != Key.Service ==> Get(r, key) == Get(package, key))
  {
  }

  lemma PartsRead(package: Json, service: Json, workspace: Json, app: Json, key: Key)
    requires package.Obj?
    ensures var r := WithParts(package, service, workspace, app);
            && r.Obj? && Get(r, Key.Service) == service && Get(r, Key.Workspace) == workspace
            && Get(r, Key.App) == app
            && (key != Key.Service && key != Key.Workspace && key != Key.App ==> Get(r, key) == Get(package, key))
  {
  }

  lemma FieldsIgnoreEmpty(grant: Grant, package: Json, key: Key)
    ensures forall v :: ServiceField(grant, ObjectOrEmpty(v), key) == ServiceField(grant, v, key)
    ensures forall v :: WorkspaceField(grant, ObjectOrEmpty(v), key) == WorkspaceField(grant, v, key)
    ensures forall v :: AppField(grant, ObjectOrEmpty(v), key) == AppField(grant, v, key)
  {
    forall v
      ensures ServiceField(grant, ObjectOrEmpty(v), key) == ServiceField(grant, v, key)
      ensures WorkspaceField(grant, ObjectOrEmpty(v), key) == WorkspaceField(grant, v, key)
      ensures AppField(grant, ObjectOrEmpty(v), key) == AppField(grant, v, key)
    {
      EmptyReads(v);
      hide Get, ObjectOrEmpty, Preferred, PreferredOrNull;
    }
  }

  // ----- matching -----

  /** The value is a text, and trimmed it is the expected one. */
  predicate Says(v: Json, expected: Json) {
    GetString(v).Some? && Str(GetString(v).value) == expected
  }

  predicate SaysIfAny(v: Json, expected: Json) {
    GetString(v).Some? ==> Str(GetString(v).value) == expected
  }

  /** Two values that are the same backend address. */
  predicate IsSameUrl(lib: Library, a: Json, b: Json) {
    && GetString(a).Some? && Truthy(b)
    && lib.url(Str(GetString(a).value)).Some? && lib.url(Str(GetString(a).value)).value != ""
    && lib.url(b) == lib.url(Str(GetString(a).value))
  }

  /** The object that the package's connection token stands for. */
  predicate IsToken(lib: Library, package: Json, token: Json) {
    var text := GetString(Get(package, Key.ConnectionToken));
    lib.token(if text.Some? then text.value else "") == Some(token) && token.Obj?
  }

  /** The first of two values that is a text. */
  function FirstText(a: Json, b: Json): Json {
    if GetString(a).Some? then a else b
  }

  /** A package of version 5 and its token say of Tower, owner, workspace and app what the grant says. */
  predicate FitsV5(lib: Library, grant: Grant, package: Json, token: Json) {
    var service, workspace, app := Get(package, Key.Service), Get(package, Key.Workspace), Get(package, Key.App);
    var own := grant.payload;
    var url := Get(Get(own, Key.Service), Key.DirectHttpsUrl);
    var id := Value(GetString(Get(Get(own, Key.Workspace), Key.WorkspaceId)));
    && IsSameUrl(lib, Get(service, Key.DirectHttpsUrl), url) && IsSameUrl(lib, Get(token, Key.DirectHttpsUrl), url)
    && Says(Get(service, Key.ServiceNpub), grant.serviceNpub)
    && Says(FirstText(Get(token, Key.ServiceNpub), Get(token, Key.ServerNpub)), grant.serviceNpub)
    && Says(Get(workspace, Key.OwnerNpub), grant.workspaceOwnerNpub)
    && Says(Get(token, Key.WorkspaceOwnerNpub), grant.workspaceOwnerNpub)
    && Says(Get(app, Key.AppNpub), grant.appNpub) && Says(Get(token, Key.AppNpub), grant.appNpub)
    && SaysIfAny(Get(workspace, Key.WorkspaceId), id) && SaysIfAny(Get(token, Key.WorkspaceId), id)
    && SaysIfAny(Get(workspace, Key.WorkspaceServiceNpub), grant.workspaceServiceNpub)
    && SaysIfAny(Get(token, Key.WorkspaceServiceNpub), grant.workspaceServiceNpub)
    && SaysIfAny(FirstText(Get(app, Key.Namespace), Get(app, Key.SchemaNamespace)),
                 Get(Get(own, Key.App), Key.Namespace))
  }

  /** A package of version 6 and its workspace descriptor do so. */
  predicate FitsV6(lib: Library, grant: Grant, package: Json, locator: Locator) {
    var own, stated := grant.payload, GetString(Get(Get(package, Key.Auth), Key.AppNpub));
    var url := Get(Get(own, Key.Service), Key.DirectHttpsUrl);
    var id := GetString(Get(Get(own, Key.Workspace), Key.WorkspaceId));
    && IsSameUrl(lib, Get(Get(package, Key.Service), Key.DirectHttpsUrl), url)
    && Truthy(url) && locator.towerBaseUrl != "" && lib.url(Str(locator.towerBaseUrl)).Some?
    && lib.url(Str(locator.towerBaseUrl)).value != "" && lib.url(url) == lib.url(Str(locator.towerBaseUrl))
    && grant.serviceNpub == Str(locator.towerServiceNpub) && grant.workspaceOwnerNpub == Str(locator.workspaceOwnerNpub)
    && grant.workspaceServiceNpub == Str(locator.workspaceServiceNpub) && id == Some(locator.workspaceId)
    && (stated.Some? || locator.appNpub.Some?)
    && (stated.Some? ==> grant.appNpub == Str(stated.value))
    && (locator.appNpub.Some? ==> grant.appNpub == Str(locator.appNpub.value))
  }

  lemma EqualReads(v: Json, right: Json)
    ensures Equal(GetString(v), right) <==> Says(v, right)
    ensures EqualWhenPresent(GetString(v), right) <==> SaysIfAny(v, right)
  {
  }

  lemma EitherReads(a: Json, b: Json, right: Json)
    ensures OrElse(GetString(a), GetString(b)) == GetString(FirstText(a, b))
  {
  }

  lemma UrlReads(lib: Library, v: Json, right: Json)
    ensures EqualUrl(lib, GetString(v), right) <==> IsSameUrl(lib, v, right)
  {
  }

  lemma TokenReads(lib: Library, package: Json, token: Json)
    ensures DecodeToken(lib, package) == Some(token) <==> IsToken(lib, package, token)
  {
  }

  /** A package of version 5 matches the grant exactly if it and its token fit it. */
  lemma MatchesV5Exactly(lib: Library, grant: Grant)
    requires !IsVersion(lib, PackageOf(grant.payload), 6.0)
    ensures var package := PackageOf(grant.payload);
            Matches(lib, grant) <==> exists token :: IsToken(lib, package, token) && FitsV5(lib, grant, package, token)
  {
    hide Equal, EqualWhenPresent, EqualUrl, DecodeToken, Says, SaysIfAny, IsSameUrl, IsToken, GetString, OrElse,
        FirstText, Get, IsVersion;
    var package := PackageOf(grant.payload);
    var service, workspace, app := Get(package, Key.Service), Get(package, Key.Workspace), Get(package, Key.App);
    UrlReads(lib, Get(service, Key.DirectHttpsUrl), GrantUrl(grant));
    EqualReads(Get(service, Key.ServiceNpub), grant.serviceNpub);
    EqualReads(Get(workspace, Key.OwnerNpub), grant.workspaceOwnerNpub);
    EqualReads(Get(workspace, Key.WorkspaceId), Value(GrantWorkspaceId(grant)));
    EqualReads(Get(workspace, Key.WorkspaceServiceNpub), grant.workspaceServiceNpub);
    EqualReads(Get(app, Key.AppNpub), grant.appNpub);
    EitherReads(Get(app, Key.Namespace), Get(app, Key.SchemaNamespace), Null);
    EqualReads(FirstText(Get(app, Key.Namespace), Get(app, Key.SchemaNamespace)),
               Get(AppOf(grant.payload), Key.Namespace));
    forall token ensures DecodeToken(lib, package) == Some(token) <==> IsToken(lib, package, token) {
      TokenReads(lib, package, token);
    }
    if DecodeToken(lib, package).Some? {
      var token := DecodeToken(lib, package).value;
      assert IsToken(lib, package, token);
      UrlReads(lib, Get(token, Key.DirectHttpsUrl), GrantUrl(grant));
      EitherReads(Get(token, Key.ServiceNpub), Get(token, Key.ServerNpub), Null);
      EqualReads(FirstText(Get(token, Key.ServiceNpub), Get(token, Key.ServerNpub)), grant.serviceNpub);
      EqualReads(Get(token, Key.WorkspaceOwnerNpub), grant.workspaceOwnerNpub);
      EqualReads(Get(token, Key.WorkspaceId), Value(GrantWorkspaceId(grant)));
      EqualReads(Get(token, Key.WorkspaceServiceNpub), grant.workspaceServiceNpub);
      EqualReads(Get(token, Key.AppNpub), grant.appNpub);
    }
  }

  lemma LocatorIsText(lib: Library, input: Json)
    ensures match ParseDescriptor(lib, input)
            case None => true
            case Some(d) => d.towerServiceNpub != "" && d.workspaceOwnerNpub != "" && d.appNpub != Some("")
  {
    hide Get, HasCredentialField, BackendBaseUrl;
  }

  /** One of version 6 matches it exactly if it and its descriptor fit it. */
  lemma MatchesV6Exactly(lib: Library, grant: Grant)
    requires IsVersion(lib, PackageOf(grant.payload), 6.0)
    ensures var package := PackageOf(grant.payload);
            var locator := ParseDescriptor(lib, Get(package, Key.WorkspaceDescriptor));
            Matches(lib, grant) <==> locator.Some? && FitsV6(lib, grant, package, locator.value)
  {
    var package := PackageOf(grant.payload);
    UrlReads(lib, Get(Get(package, Key.Service), Key.DirectHttpsUrl), GrantUrl(grant));
    LocatorIsText(lib, Get(package, Key.WorkspaceDescriptor));
    hide Get, IsSameUrl, IsVersion, ParseDescriptor;
  }

  // ----- reading a package -----

  /** A backend address: http or https once trimmed, and without its trailing slashes. */
  ghost predicate IsAddress(lib: Library, text: string, address: string) {
    && lib.isHttpUrl(Trim(text)) && address <= Trim(text)
    && (forall i | |address| <= i < |Trim(text)| :: Trim(text)[i] == '/')
    && (address != "" ==> address[|address| - 1] != '/')
  }

  lemma {:induction false} SlashesStripped(s: string)
    ensures var r := StripSlashes(s); r <= s && forall i | |r| <= i < |s| :: s[i] == '/'
    decreases |s|
  {
    if s != "" && s[|s| - 1] == '/' { SlashesStripped(s[..|s| - 1]); }
  }

  lemma OnlyStripped(s: string, r: string)
    requires r <= s && (forall i | |r| <= i < |s| :: s[i] == '/') && (r != "" ==> r[|r| - 1] != '/')
    ensures r == StripSlashes(s)
  {
    var t := StripSlashes(s);
    SlashesStripped(s);
    hide StripSlashes;
    assert |t| == |r| && t == s[..|t|] && r == s[..|r|];
  }

  lemma AddressExactly(lib: Library, text: string, address: string)
    ensures BackendBaseUrl(lib, text) == Some(address) <==> IsAddress(lib, text, address)
  {
    SlashesStripped(Trim(text));
    if IsAddress(lib, text, address) { OnlyStripped(Trim(text), address); }
    hide Trim, StripSlashes;
  }

  /** A field of a descriptor, in either spelling. */
  function Field(v: Json, key: Key): Option<string> {
    GetString(FirstText(Get(v, key), Get(v, Key.Camel(key))))
  }

  /** What a locator says, in its own fields and those of its identity. */
  ghost predicate Locates(lib: Library, descriptor: Json, d: Locator) {
    var identity, base := Get(descriptor, Key.Identity), Field(descriptor, Key.TowerBaseUrl);
    && Get(descriptor, Key.Type) == Str("wingman_workspace_locator") && identity.Obj?
    && (forall path :: !IsCredentialPath(lib, descriptor, path))
    && base.Some? && IsAddress(lib, base.value, d.towerBaseUrl)
    && Field(identity, Key.TowerServiceNpub) == Some(d.towerServiceNpub)
    && Field(identity, Key.WorkspaceServiceNpub) == Some(d.workspaceServiceNpub)
    && Field(identity, Key.WorkspaceOwnerNpub) == Some(d.workspaceOwnerNpub)
    && Field(identity, Key.WorkspaceId) == Some(d.workspaceId)
    && Field(identity, Key.AppNpub) == d.appNpub
    && GetString(FirstText(Get(descriptor, Key.LabelText), Get(descriptor, Key.Name))) == d.title
  }

  /** The locator itself, or the one in a descriptor field. */
  function Located(input: Json): Json {
    if Get(input, Key.Type) == Str("wingman_workspace_locator") then input else Get(input, Key.Descriptor)
  }

  lemma EitherIsField(v: Json, key: Key)
    ensures Either(v, key) == Field(v, key)
  {
    EitherReads(Get(v, key), Get(v, Key.Camel(key)), Null);
  }

  /** A descriptor parses exactly to what its locator says, and not at all if that is incomplete or has credentials. */
  lemma DescriptorExactly(lib: Library, input: Json, d: Locator)
    ensures ParseDescriptor(lib, input) == Some(d) <==> Locates(lib, Located(input), d)
  {
    hide Get, GetString, OrElse, FirstText, HasCredentialField, BackendBaseUrl, IsAddress, IsCredentialPath, Either,
        Field;
    var descriptor := Located(input);
    var identity, base := Get(descriptor, Key.Identity), Field(descriptor, Key.TowerBaseUrl);
    CredentialsExactly(lib, descriptor);
    EitherIsField(descriptor, Key.TowerBaseUrl);
    EitherIsField(identity, Key.TowerServiceNpub);
    EitherIsField(identity, Key.WorkspaceServiceNpub);
    EitherIsField(identity, Key.WorkspaceOwnerNpub);
    EitherIsField(identity, Key.WorkspaceId);
    EitherIsField(identity, Key.AppNpub);
    EitherReads(Get(descriptor, Key.LabelText), Get(descriptor, Key.Name), Null);
    if base.Some? { AddressExactly(lib, base.value, d.towerBaseUrl); }
    assert descriptor == if IsLocator(input) then input else Get(input, Key.Descriptor);
  }

  // ----- importing a package -----

  /** What both versions need. */
  ghost predicate IsPackage(lib: Library, package: Json, address: string) {
    var url, generatedAt := Get(Get(package, Key.Service), Key.DirectHttpsUrl), Get(package, Key.GeneratedAt);
    && GetString(Get(package, Key.Kind)) == Some("coworker_agent_connect")
    && GetString(generatedAt).Some? && lib.dateMs(Str(GetString(generatedAt).value)).Some?
    && GetString(url).Some? && IsAddress(lib, GetString(url).value, address)
  }

  /** Package and token agree where both say something. */
  predicate AgreeIfBoth(outer: Json, token: Json) {
    GetString(outer).Some? && GetString(token).Some? ==> GetString(outer) == GetString(token)
  }

  ghost predicate TokenFits(lib: Library, package: Json, token: Json, address: string) {
    var service, workspace, app := Get(package, Key.Service), Get(package, Key.Workspace), Get(package, Key.App);
    var url := GetString(Get(token, Key.DirectHttpsUrl));
    && (url.Some? ==> IsAddress(lib, url.value, address))
    && AgreeIfBoth(Get(service, Key.ServiceNpub), FirstText(Get(token, Key.ServiceNpub), Get(token, Key.ServerNpub)))
    && AgreeIfBoth(Get(workspace, Key.OwnerNpub), Get(token, Key.WorkspaceOwnerNpub))
    && AgreeIfBoth(Get(workspace, Key.WorkspaceId), Get(token, Key.WorkspaceId))
    && AgreeIfBoth(Get(workspace, Key.WorkspaceServiceNpub), Get(token, Key.WorkspaceServiceNpub))
    && AgreeIfBoth(Get(app, Key.AppNpub), Get(token, Key.AppNpub))
  }

  /** The import of a package of version 5. */
  ghost predicate ImportsV5(lib: Library, package: Json, address: string, imported: Import) {
    var service, workspace, app := Get(package, Key.Service), Get(package, Key.Workspace), Get(package, Key.App);
    && GetString(Get(package, Key.ConnectionToken)).Some?
    && (exists token :: IsToken(lib, package, token) && TokenFits(lib, package, token, address))
    && imported.version == 5.0 && imported.directHttpsUrl == address
    && imported.serviceNpub == GetString(Get(service, Key.ServiceNpub))
    && Some(imported.workspaceOwnerNpub) == GetString(Get(workspace, Key.OwnerNpub))
    && imported.workspaceId == GetString(Get(workspace, Key.WorkspaceId))
    && imported.workspaceServiceNpub == GetString(Get(workspace, Key.WorkspaceServiceNpub))
    && imported.workspaceTitle == GetString(FirstText(Get(workspace, Key.LabelText), Get(workspace, Key.Name)))
    && Some(imported.sourceAppNpub) == GetString(Get(app, Key.AppNpub))
    && imported.sourceAppSchemaNamespace == GetString(Get(app, Key.SchemaNamespace))
  }

  /** The import of a package of version 6 whose locator says this. */
  predicate TakesOver(d: Locator, stated: Option<string>, address: string, imported: Import) {
    && d.towerBaseUrl == address && imported.version == 6.0 && imported.directHttpsUrl == address
    && imported.serviceNpub == Some(d.towerServiceNpub) && imported.workspaceOwnerNpub == d.workspaceOwnerNpub
    && imported.workspaceId == Some(d.workspaceId) && imported.workspaceServiceNpub == Some(d.workspaceServiceNpub)
    && imported.workspaceTitle == d.title && imported.sourceAppSchemaNamespace == None
    && (stated.Some? || d.appNpub.Some?) && (stated.Some? ==> imported.sourceAppNpub == stated.value)
    && (d.appNpub.Some? ==> imported.sourceAppNpub == d.appNpub.value)
  }

  ghost predicate ImportsV6(lib: Library, package: Json, address: string, imported: Import) {
    var stated := GetString(Get(Get(package, Key.Auth), Key.AppNpub));
    var located := Located(Get(package, Key.WorkspaceDescriptor));
    && GetString(Get(package, Key.Protocol)) == Some("flightdeck_pg")
    && exists d :: Locates(lib, located, d) && TakesOver(d, stated, address, imported)
  }

  /** The package is one, and of its version this is the import. */
  ghost predicate Yields(lib: Library, package: Json, address: string, imported: Import) {
    && IsPackage(lib, package, address)
    && var version := lib.number(Get(package, Key.Version));
    || (version == Some(6.0) && ImportsV6(lib, package, address, imported))
    || (version == Some(5.0) && ImportsV5(lib, package, address, imported))
  }

  lemma AgreementReads(outer: Json, token: Json)
    ensures AgreesWithToken(GetString(outer), GetString(token)) <==> AgreeIfBoth(outer, token)
  {
  }

  lemma TokenAgreesExactly(lib: Library, package: Json, token: Json, url: string, address: string)
    requires BackendBaseUrl(lib, url) == Some(address)
    ensures TokenAgrees(lib, package, token, url) <==> TokenFits(lib, package, token, address)
  {
    hide Get, GetString, OrElse, FirstText, BackendBaseUrl, IsAddress, AgreesWithToken, AgreeIfBoth;
    var service, workspace, app := Get(package, Key.Service), Get(package, Key.Workspace), Get(package, Key.App);
    var inner := GetString(Get(token, Key.DirectHttpsUrl));
    if inner.Some? { AddressExactly(lib, inner.value, address); }
    EitherReads(Get(token, Key.ServiceNpub), Get(token, Key.ServerNpub), Null);
    AgreementReads(Get(service, Key.ServiceNpub), FirstText(Get(token, Key.ServiceNpub), Get(token, Key.ServerNpub)));
    AgreementReads(Get(workspace, Key.OwnerNpub), Get(token, Key.WorkspaceOwnerNpub));
    AgreementReads(Get(workspace, Key.WorkspaceId), Get(token, Key.WorkspaceId));
    AgreementReads(Get(workspace, Key.WorkspaceServiceNpub), Get(token, Key.WorkspaceServiceNpub));
    AgreementReads(Get(app, Key.AppNpub), Get(token, Key.AppNpub));
  }

  lemma V5Exactly(lib: Library, package: Json, url: string, address: string, imported: Import)
    requires BackendBaseUrl(lib, url) == Some(address)
    ensures ImportV5(lib, package, url, address) == Some(imported) <==> ImportsV5(lib, package, address, imported)
  {
    hide Get, GetString, OrElse, FirstText, BackendBaseUrl, DecodeToken, IsToken, TokenAgrees, TokenFits;
    forall token ensures DecodeToken(lib, package) == Some(token) <==> IsToken(lib, package, token) {
      TokenReads(lib, package, token);
    }
    if DecodeToken(lib, package).Some? {
      var token := DecodeToken(lib, package).value;
      assert IsToken(lib, package, token);
      TokenAgreesExactly(lib, package, token, url, address);
    }
    var workspace := Get(package, Key.Workspace);
    EitherReads(Get(workspace, Key.LabelText), Get(workspace, Key.Name), Null);
  }

  lemma V6Exactly(lib: Library, package: Json, url: string, address: string, imported: Import)
    ensures ImportV6(lib, package, url, address) == Some(imported) <==> ImportsV6(lib, package, address, imported)
  {
    hide Get, GetString, ParseDescriptor, Locates, Located;
    var input := Get(package, Key.WorkspaceDescriptor);
    forall d ensures ParseDescriptor(lib, input) == Some(d) <==> Locates(lib, Located(input), d) {
      DescriptorExactly(lib, input, d);
    }
    if ParseDescriptor(lib, input).Some? { assert Locates(lib, Located(input), ParseDescriptor(lib, input).value); }
  }

  /** A package is imported exactly as its version says, and not at all if anything it needs is missing. */
  lemma ValidatesExactly(lib: Library, package: Json, imported: Import)
    ensures Validate(lib, package) == Some(imported) <==>
            exists address :: Yields(lib, package, address, imported)
  {
    hide Get, GetString, BackendBaseUrl, IsAddress, ImportV5, ImportV6, ImportsV5, ImportsV6;
    var url := PackageUrl(package);
    if url.Some? {
      forall address ensures BackendBaseUrl(lib, url.value) == Some(address) <==> IsAddress(lib, url.value, address) {
        AddressExactly(lib, url.value, address);
      }
      if BackendBaseUrl(lib, url.value).Some? {
        var address := BackendBaseUrl(lib, url.value).value;
        V5Exactly(lib, package, url.value, address, imported);
        V6Exactly(lib, package, url.value, address, imported);
        if Validate(lib, package) == Some(imported) { assert Yields(lib, package, address, imported); }
      }
    }
  }
}

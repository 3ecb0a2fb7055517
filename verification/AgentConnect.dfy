/** Reading an Agent Connect package, versions 5 and 6. */
module AgentConnect {
  import opened Json
  import opened Wrappers

  // ----- the workspace descriptor of version 6 -----

  datatype Locator = Locator(
    towerBaseUrl: string,
    towerServiceNpub: string,
    workspaceServiceNpub: string,
    workspaceOwnerNpub: string,
    workspaceId: string,
    appNpub: Option<string>,
    title: Option<string>
  )

  /** Somewhere in the nested objects a key looks like a credential. */
  predicate HasCredentialField(lib: Library, value: Json) {
    value.Obj? &&
    exists key <- value.fields :: lib.isCredentialName(key) || HasCredentialField(lib, value.fields[key])
  }

  /** The keys lead from one nested object to the next; lists are not looked into. */
  predicate IsPath(value: Json, path: seq<Key>) {
    path == [] || (value.Obj? && path[0] in value.fields && IsPath(value.fields[path[0]], path[1..]))
  }

  predicate IsCredentialPath(lib: Library, value: Json, path: seq<Key>) {
    path != [] && IsPath(value, path) && lib.isCredentialName(path[|path| - 1])
  }

  /** A credential field is a path through nested objects that ends in a refused name. */
  lemma {:induction false} CredentialsExactly(lib: Library, value: Json)
    ensures HasCredentialField(lib, value) <==> exists path :: IsCredentialPath(lib, value, path)
    decreases value
  {
    if HasCredentialField(lib, value) {
      var key :| key in value.fields && (lib.isCredentialName(key) || HasCredentialField(lib, value.fields[key]));
      if lib.isCredentialName(key) {
        assert IsCredentialPath(lib, value, [key]);
      } else {
        CredentialsExactly(lib, value.fields[key]);
        var rest :| IsCredentialPath(lib, value.fields[key], rest);
        assert ([key] + rest)[1..] == rest;
        assert IsCredentialPath(lib, value, [key] + rest);
      }
    }
    if path :| IsCredentialPath(lib, value, path) {
      if |path| > 1 {
        CredentialsExactly(lib, value.fields[path[0]]);
        assert IsCredentialPath(lib, value.fields[path[0]], path[1..]);
      }
    }
  }

  /** A field under its snake-case name, else under its camel-case one. */
  function Either(value: Json, key: Key): (r: Option<string>)
    ensures r.Some? ==> r.value != "" && Trimmed(r.value)
  {
    OrElse(GetString(Get(value, key)), GetString(Get(value, Key.Camel(key))))
  }

  predicate IsLocator(value: Json) {
    Get(value, Key.Type) == Str("wingman_workspace_locator")
  }

  /** `parsePgWorkspaceDescriptor`; `None` when it throws */
  function ParseDescriptor(lib: Library, input: Json): (r: Option<Locator>)
    ensures r.Some? ==> input.Obj? && IsTrimmedText(Str(r.value.workspaceServiceNpub)) &&
                        IsTrimmedText(Str(r.value.workspaceId))
  {
    var descriptor := if IsLocator(input) then input else Get(input, Key.Descriptor);
    var identity := Get(descriptor, Key.Identity);
    if !IsLocator(descriptor) || HasCredentialField(lib, descriptor) || !identity.Obj? then None else
    var base := Either(descriptor, Key.TowerBaseUrl);
    var towerService := Either(identity, Key.TowerServiceNpub);
    var workspaceService := Either(identity, Key.WorkspaceServiceNpub);
    var owner := Either(identity, Key.WorkspaceOwnerNpub);
    var id := Either(identity, Key.WorkspaceId);
    if base.None? || towerService.None? || workspaceService.None? || owner.None? || id.None? then None else
    var baseUrl := BackendBaseUrl(lib, base.value);
    if baseUrl.None? then None else
    Some(Locator(baseUrl.value, towerService.value, workspaceService.value, owner.value, id.value,
                 Either(identity, Key.AppNpub),
                 OrElse(GetString(Get(descriptor, Key.LabelText)), GetString(Get(descriptor, Key.Name)))))
  }

  /** What parses has no path of nested objects that ends in a refused name. */
  lemma ParsedHasNoCredentials(lib: Library, input: Json, path: seq<Key>)
    requires ParseDescriptor(lib, input).Some?
    ensures var descriptor := if IsLocator(input) then input else Get(input, Key.Descriptor);
            IsLocator(descriptor) && !IsCredentialPath(lib, descriptor, path)
  {
    hide Either, BackendBaseUrl, IsPath, IsCredentialPath;
    CredentialsExactly(lib, if IsLocator(input) then input else Get(input, Key.Descriptor));
  }

  // ----- validation -----

  /** What an import is made from. */
  datatype Import = Import(
    directHttpsUrl: string,
    serviceNpub: Option<string>,
    workspaceOwnerNpub: string,
    workspaceId: Option<string>,
    workspaceServiceNpub: Option<string>,
    workspaceTitle: Option<string>,
    sourceAppNpub: string,
    sourceAppSchemaNamespace: Option<string>,
    version: real
  )

  /** `assertEqualWhenPresent` against the connection token */
  predicate AgreesWithToken(outer: Option<string>, token: Option<string>) {
    outer.Some? && token.Some? ==> outer == token
  }

  predicate UrlAgreesWithToken(lib: Library, outer: string, token: Option<string>) {
    token.Some? ==> BackendBaseUrl(lib, outer).Some? && BackendBaseUrl(lib, outer) == BackendBaseUrl(lib, token.value)
  }

  /** The object a connection token encodes; `None` when decoding throws. */
  function DecodeToken(lib: Library, package: Json): Option<Json> {
    var text := GetString(Get(package, Key.ConnectionToken));
    var decoded := lib.token(if text.Some? then text.value else "");
    if decoded.Some? && decoded.value.Obj? then decoded else None
  }

  function ServiceOfToken(token: Json): Option<string> {
    OrElse(GetString(Get(token, Key.ServiceNpub)), GetString(Get(token, Key.ServerNpub)))
  }

  function PackageUrl(package: Json): Option<string> {
    GetString(Get(Get(package, Key.Service), Key.DirectHttpsUrl))
  }

  /** The connection token contradicts nothing stated outside it. */
  predicate TokenAgrees(lib: Library, package: Json, token: Json, url: string) {
    var service, workspace, app := Get(package, Key.Service), Get(package, Key.Workspace), Get(package, Key.App);
    && UrlAgreesWithToken(lib, url, GetString(Get(token, Key.DirectHttpsUrl)))
    && AgreesWithToken(GetString(Get(service, Key.ServiceNpub)), ServiceOfToken(token))
    && AgreesWithToken(GetString(Get(workspace, Key.OwnerNpub)), GetString(Get(token, Key.WorkspaceOwnerNpub)))
    && AgreesWithToken(GetString(Get(workspace, Key.WorkspaceId)), GetString(Get(token, Key.WorkspaceId)))
    && AgreesWithToken(GetString(Get(workspace, Key.WorkspaceServiceNpub)),
                       GetString(Get(token, Key.WorkspaceServiceNpub)))
    && AgreesWithToken(GetString(Get(app, Key.AppNpub)), GetString(Get(token, Key.AppNpub)))
  }

  function ImportV5(lib: Library, package: Json, url: string, baseUrl: string): Option<Import> {
    var service, workspace, app := Get(package, Key.Service), Get(package, Key.Workspace), Get(package, Key.App);
    var owner, appNpub := GetString(Get(workspace, Key.OwnerNpub)), GetString(Get(app, Key.AppNpub));
    var token := DecodeToken(lib, package);
    if owner.None? || appNpub.None? || GetString(Get(package, Key.ConnectionToken)).None? || token.None? ||
       !TokenAgrees(lib, package, token.value, url)
    then None
    else Some(Import(
      baseUrl, GetString(Get(service, Key.ServiceNpub)), owner.value, GetString(Get(workspace, Key.WorkspaceId)),
      GetString(Get(workspace, Key.WorkspaceServiceNpub)),
      OrElse(GetString(Get(workspace, Key.LabelText)), GetString(Get(workspace, Key.Name))),
      appNpub.value, GetString(Get(app, Key.SchemaNamespace)), 5.0))
  }

  function ImportV6(lib: Library, package: Json, url: string, baseUrl: string): Option<Import> {
    var locator := ParseDescriptor(lib, Get(package, Key.WorkspaceDescriptor));
    if GetString(Get(package, Key.Protocol)) != Some("flightdeck_pg") || locator.None? then None else
    var d := locator.value;
    var authApp := GetString(Get(Get(package, Key.Auth), Key.AppNpub));
    var app := OrElse(authApp, d.appNpub);
    if app.None? || (authApp.Some? && d.appNpub.Some? && authApp != d.appNpub) || baseUrl != d.towerBaseUrl then None
    else Some(Import(baseUrl, Some(d.towerServiceNpub), d.workspaceOwnerNpub, Some(d.workspaceId),
                     Some(d.workspaceServiceNpub), d.title, app.value, None, 6.0))
  }

  predicate IsVersion(lib: Library, package: Json, version: real) {
    lib.number(Get(package, Key.Version)) == Some(version)
  }

  predicate HasGeneratedAt(lib: Library, package: Json) {
    var generatedAt := GetString(Get(package, Key.GeneratedAt));
    generatedAt.Some? && lib.dateMs(Str(generatedAt.value)).Some?
  }

  /** `validateAgentConnectPackage` on an already parsed package; `None` when it throws */
  function Validate(lib: Library, package: Json): Option<Import> {
    var url := PackageUrl(package);
    if GetString(Get(package, Key.Kind)) != Some("coworker_agent_connect") || !HasGeneratedAt(lib, package) || url.None?
    then None else
    var baseUrl := BackendBaseUrl(lib, url.value);
    if baseUrl.None? then None
    else if IsVersion(lib, package, 6.0) then ImportV6(lib, package, url.value, baseUrl.value)
    else if IsVersion(lib, package, 5.0) then ImportV5(lib, package, url.value, baseUrl.value)
    else None
  }
}

/** Decoding an access grant, matching it with its Agent Connect package, and rescoping the package to it. */
module AccessGrant {
  import opened AgentConnect
  import opened Json
  import opened Wrappers

  const ACCESS_GRANT_KIND := 33357

  /** A Nostr event, with what the signature and NIP-44 libraries make of it. */
  datatype Event = Event(
    id: string,
    pubkey: string,
    kind: int,
    tags: seq<seq<string>>,
    signatureValid: bool,
    /** the decrypted content, unless decryption throws */
    plaintext: Option<string>
  )

  datatype Grant = Grant(
    event: Event,
    payload: Json,
    recipientNpub: string,
    signerNpub: string,
    issuerNpub: Json,
    serviceNpub: Json,
    workspaceServiceNpub: Json,
    workspaceOwnerNpub: Json,
    appNpub: Json,
    grantId: Json,
    dedupeKey: string,
    canonicalConnectionKey: string
  )

  // ----- tags -----

  /** The second field of the first tag that satisfies the test. */
  function FindTag(tags: seq<seq<string>>, matches: seq<string> -> bool): (r: Option<string>)
    ensures r.Some? ==> Trimmed(r.value)
  {
    if tags == [] then None
    else if matches(tags[0]) then (if |tags[0]| > 1 then Some(Trim(tags[0][1])) else None)
    else FindTag(tags[1..], matches)
  }

  predicate IsNamed(tag: seq<string>, name: string) {
    tag != [] && tag[0] == name
  }

  /** `tag[0] === name` */
  function Named(name: string): seq<string> -> bool {
    tag => IsNamed(tag, name)
  }

  /** `tag[0] === "p" && tag[3] === "recipient"` */
  function Marked(): seq<string> -> bool {
    (tag: seq<string>) => IsNamed(tag, "p") && |tag| > 3 && tag[3] == "recipient"
  }

  function OptionalTag(event: Event, name: string): (r: Option<string>)
    ensures r.Some? ==> r.value != "" && Trimmed(r.value)
  {
    var value := FindTag(event.tags, Named(name));
    if value.Some? && value.value != "" then value else None
  }

  /** The recipient's key as tagged: the marked `p` tag, even when blank, else the first `p` tag. */
  function TaggedRecipient(event: Event): Result<string> {
    var marked := FindTag(event.tags, Marked());
    if marked.Some? then Ok(marked.value)
    else
      var p := OptionalTag(event, "p");
      if p.Some? then Ok(p.value) else Err("missing_tag_p")
  }

  datatype Tags = Tags(
    d: Option<string>,
    app: Option<string>,
    protocol: Option<string>,
    appPubkey: Option<string>,
    appNpub: Option<string>,
    serviceNpub: Option<string>,
    workspaceServiceNpub: Option<string>,
    workspaceOwnerNpub: Option<string>,
    recipient: Option<string>,
    issuer: Option<string>,
    grant: Option<string>
  )

  function ReadTags(event: Event): Tags {
    Tags(OptionalTag(event, "d"), OptionalTag(event, "app"), OptionalTag(event, "protocol"),
         OptionalTag(event, "app_pub"), OptionalTag(event, "app_npub"), OptionalTag(event, "service_npub"),
         OptionalTag(event, "workspace_service_npub"), OptionalTag(event, "workspace_owner_npub"),
         OptionalTag(event, "recipient"), OptionalTag(event, "issuer"), OptionalTag(event, "grant"))
  }

  // ----- the decrypted payload -----

  function EncodeHexToNpub(lib: Library, pubkey: Json): Result<Json> {
    match pubkey
    case Undefined | Null => Ok(Null)
    case Str(s) => Ok(Value(lib.npubOf(s)))
    case _ => Err("grant_invalid")
  }

  predicate IsAction(text: string) {
    text == "grant" || text == "revoked" || text == "deleted"
  }

  predicate IsStatus(text: string) {
    text == "active" || text == "revoked" || text == "deleted" || text == "superseded"
  }

  /** The action the payload states, else the one its status implies. */
  function NormalAction(payload: Json): (r: string)
    ensures IsAction(r)
  {
    var action, status := GetString(Get(payload, Key.Action)), GetString(Get(payload, Key.Status));
    if action.Some? && IsAction(action.value) then action.value
    else if status == Some("revoked") || status == Some("deleted") then status.value
    else "grant"
  }

  function NormalStatus(payload: Json): string {
    var status, action := GetString(Get(payload, Key.Status)), NormalAction(payload);
    if status.Some? && IsStatus(status.value) then status.value
    else if action == "grant" then "active"
    else action
  }

  function RecipientOf(payload: Json): Json {
    Else(Get(Get(payload, Key.Recipient), Key.Npub), Get(payload, Key.RecipientNpub))
  }

  function IssuerOf(payload: Json): Json {
    Else(Get(Get(payload, Key.Issuer), Key.Npub), Get(payload, Key.IssuedByNpub))
  }

  function GrantIdOf(payload: Json): Json {
    Else(Get(payload, Key.GrantId), Get(Get(payload, Key.Grant), Key.GrantId))
  }

  function ServiceOf(payload: Json): Json { Get(payload, Key.Service) }

  function WorkspaceOf(payload: Json): Json { Get(payload, Key.Workspace) }

  function AppOf(payload: Json): Json { Get(payload, Key.App) }

  function PackageOf(payload: Json): Json { Get(payload, Key.AgentConnectPackage) }

  /** The payload with its action and status normalised. */
  function WithAction(parsed: Json): (r: Json)
    requires parsed.Obj?
    ensures r.Obj? && AppOf(r) == AppOf(parsed)
  {
    Set(Set(parsed, Key.Action, Str(NormalAction(parsed))), Key.Status, Str(NormalStatus(parsed)))
  }

  lemma ActionIsText(action: string)
    requires IsAction(action)
    ensures IsTrimmedText(Str(action)) && IsStatus(if action == "grant" then "active" else action)
  {
  }

  lemma StatusIsText(status: string)
    requires IsStatus(status)
    ensures IsTrimmedText(Str(status))
  {
  }

  /** Normalising again changes nothing: what a parsed payload says, it says plainly. */
  lemma NormalisingIsStable(parsed: Json)
    requires parsed.Obj?
    ensures NormalAction(WithAction(parsed)) == NormalAction(parsed)
    ensures NormalStatus(WithAction(parsed)) == NormalStatus(parsed)
    ensures WithAction(WithAction(parsed)) == WithAction(parsed)
  {
    var action, status := NormalAction(parsed), NormalStatus(parsed);
    ActionIsText(action);
    StatusIsText(status);
    hide IsAction, IsStatus, NormalAction, IsTrimmedText, Get, Set;
    var acted := Set(parsed, Key.Action, Str(action));
    GetSet(parsed, Key.Action, Str(action), Key.Action);
    GetSet(acted, Key.Status, Str(status), Key.Action);
    GetSet(acted, Key.Status, Str(status), Key.Status);
    StatesAction(WithAction(parsed), action);
    assert NormalStatus(WithAction(parsed)) == status;
    SetAgain(parsed, Key.Action, Str(action), Key.Status, Str(status));
  }

  lemma StatesAction(parsed: Json, action: string)
    requires Get(parsed, Key.Action) == Str(action) && IsAction(action) && IsTrimmedText(Str(action))
    ensures NormalAction(parsed) == action
  {
    hide IsAction, IsTrimmedText;
  }

  lemma SetAgain(value: Json, k: Key, x: Json, l: Key, y: Json)
    requires value.Obj?
    ensures var once := Set(Set(value, k, x), l, y); k != l ==> Set(Set(once, k, x), l, y) == once
  {
    if k != l {
      var once := value.fields[k := x][l := y];
      assert once[k := x][l := y] == once;
    }
  }

  function WithPackage(payload: Json): (r: Json)
    requires payload.Obj?
    ensures r.Obj? && AppOf(r) == AppOf(payload)
  {
    var package, alias := PackageOf(payload), Get(payload, Key.AgentConnect);
    if !package.Obj? && alias.Obj? then Set(payload, Key.AgentConnectPackage, alias) else payload
  }

  function EncodedApp(lib: Library, app: Json): (r: Result<Json>)
    ensures r.Ok? && Truthy(r.value) ==> app.Obj?
  {
    var npub := Get(app, Key.AppNpub);
    if npub.Undefined? || npub.Null? then EncodeHexToNpub(lib, Get(app, Key.AppPubkey)) else Ok(npub)
  }

  /** Required by the check in src/access-grants/sbip0009.ts:291-303. */
  predicate HasRequiredFields(lib: Library, payload: Json, app: Json) {
    && Truthy(RecipientOf(payload)) && Truthy(IssuerOf(payload))
    && Truthy(Get(payload, Key.IssuedAt)) && lib.dateMs(Get(payload, Key.IssuedAt)).Some?
    && Truthy(Get(ServiceOf(payload), Key.DirectHttpsUrl)) && Truthy(Get(ServiceOf(payload), Key.ServiceNpub))
    && Truthy(Get(WorkspaceOf(payload), Key.OwnerNpub)) && Truthy(Get(WorkspaceOf(payload), Key.WorkspaceServiceNpub))
    && Truthy(app)
  }

  /** The grant id moves up when there is none at the top. */
  function WithGrantId(payload: Json): (r: Json)
    requires payload.Obj?
    ensures r.Obj?
  {
    var nested := Get(Get(payload, Key.Grant), Key.GrantId);
    if Truthy(nested) && !Truthy(Get(payload, Key.GrantId)) then Set(payload, Key.GrantId, nested) else payload
  }

  /** A party that is not given as an object is made one from its npub. */
  function WithParty(payload: Json, key: Key, npub: Json): (r: Json)
    requires payload.Obj?
    ensures r.Obj?
  {
    Set(payload, key, Else(Get(payload, key), Obj(map[Key.Npub := npub])))
  }

  /** The fields `parsePayload` fills in once its checks pass. */
  function Filled(payload: Json, app: Json): Json
    requires payload.Obj? && AppOf(payload).Obj?
  {
    var named := WithParty(WithGrantId(payload), Key.Recipient, RecipientOf(payload));
    Set(WithParty(named, Key.Issuer, IssuerOf(payload)), Key.App, Set(AppOf(payload), Key.AppNpub, app))
  }

  predicate IsNamespace(value: Json) {
    value == Str("wingman-flight-deck") || value == Str("flightdeck_pg")
  }

  predicate IsAccessGrant(parsed: Json) {
    parsed.Obj? &&
    (GetString(Get(parsed, Key.Kind)) == Some("wingman_flightdeck_access_grant") ||
     GetString(Get(parsed, Key.Type)) == Some("flightdeck_onboarding"))
  }

  /** `parsePayload` after `JSON.parse` */
  function ParsePayload(lib: Library, parsed: Json): (r: Result<Json>)
    ensures r.Ok? ==> r.value.Obj?
  {
    var protocol := Get(parsed, Key.Protocol);
    :- Check(IsAccessGrant(parsed), "payload_invalid");
    :- Check(!Truthy(protocol) || protocol == Str("onboarding"), "payload_invalid");
    var app :- EncodedApp(lib, AppOf(parsed));
    var acted := WithAction(parsed);
    var payload := WithPackage(acted);
    :- Check(HasRequiredFields(lib, payload, app), "payload_invalid");
    :- Check(NormalAction(parsed) == "grant" ==> Truthy(PackageOf(payload)), "payload_invalid");
    var namespace := Get(AppOf(payload), Key.Namespace);
    :- Check(!Truthy(namespace) || IsNamespace(namespace), "payload_invalid");
    Ok(Filled(payload, app))
  }

  /** The fields parsing may fill in or normalise. */
  predicate IsFilled(key: Key) {
    key.Action? || key.Status? || key.AgentConnectPackage? || key.GrantId? || key.Recipient? || key.Issuer? || key.App?
  }

  lemma GrantIdKeeps(payload: Json, key: Key)
    requires payload.Obj? && !key.GrantId?
    ensures Get(WithGrantId(payload), key) == Get(payload, key)
  {
  }

  lemma PartyKeeps(payload: Json, party: Key, npub: Json, key: Key)
    requires payload.Obj? && (key == party ==> Get(payload, key).Obj?)
    ensures Get(WithParty(payload, party, npub), key) == Get(payload, key)
  {
  }

  lemma FilledKeeps(payload: Json, app: Json, key: Key)
    requires payload.Obj? && AppOf(payload).Obj? && !key.GrantId? && !key.App?
    requires key.Recipient? || key.Issuer? ==> Get(payload, key).Obj?
    ensures Get(Filled(payload, app), key) == Get(payload, key)
  {
    var named := WithParty(WithGrantId(payload), Key.Recipient, RecipientOf(payload));
    var filled := WithParty(named, Key.Issuer, IssuerOf(payload));
    hide WithGrantId, WithParty, Get, Set;
    GrantIdKeeps(payload, key);
    PartyKeeps(WithGrantId(payload), Key.Recipient, RecipientOf(payload), key);
    PartyKeeps(named, Key.Issuer, IssuerOf(payload), key);
    GetSet(filled, Key.App, Set(AppOf(payload), Key.AppNpub, app), key);
  }

  lemma FilledApp(payload: Json, app: Json)
    requires payload.Obj? && AppOf(payload).Obj?
    ensures Filled(payload, app).Obj? && AppOf(Filled(payload, app)) == Set(AppOf(payload), Key.AppNpub, app)
  {
    hide WithGrantId, WithParty;
  }

  lemma NormalisedKeeps(parsed: Json, key: Key)
    requires parsed.Obj?
    ensures !key.Action? && !key.Status? && !key.AgentConnectPackage? ==>
              Get(WithPackage(WithAction(parsed)), key) == Get(parsed, key)
  {
    hide NormalAction, NormalStatus;
  }

  lemma ParsedIsFilled(lib: Library, parsed: Json)
    requires ParsePayload(lib, parsed).Ok?
    ensures parsed.Obj? && EncodedApp(lib, AppOf(parsed)).Ok? && AppOf(parsed).Obj?
    ensures ParsePayload(lib, parsed).value ==
            Filled(WithPackage(WithAction(parsed)), EncodedApp(lib, AppOf(parsed)).value)
  {
    hide NormalAction, NormalStatus, WithAction, WithPackage, Filled;
  }

  /** Everything else the payload says stays as it was signed. */
  lemma ParsingKeepsTheRest(lib: Library, parsed: Json, key: Key)
    requires ParsePayload(lib, parsed).Ok? && !IsFilled(key)
    ensures Get(ParsePayload(lib, parsed).value, key) == Get(parsed, key)
  {
    ParsedIsFilled(lib, parsed);
    hide ParsePayload, EncodedApp, WithAction, WithPackage, Filled;
    NormalisedKeeps(parsed, key);
    FilledKeeps(WithPackage(WithAction(parsed)), EncodedApp(lib, AppOf(parsed)).value, key);
  }

  /** What it states about recipient, issuer and app is not replaced either. */
  lemma ParsingKeepsWhatIsStated(lib: Library, parsed: Json, key: Key)
    requires ParsePayload(lib, parsed).Ok?
    ensures (key.Recipient? || key.Issuer?) && Get(parsed, key).Obj? ==>
              Get(ParsePayload(lib, parsed).value, key) == Get(parsed, key)
    ensures !key.AppNpub? || Get(AppOf(parsed), key).Str? ==>
              Get(AppOf(ParsePayload(lib, parsed).value), key) == Get(AppOf(parsed), key)
  {
    ParsedIsFilled(lib, parsed);
    hide ParsePayload, WithAction, WithPackage, Filled;
    var payload, app := WithPackage(WithAction(parsed)), EncodedApp(lib, AppOf(parsed)).value;
    NormalisedKeeps(parsed, key);
    if (key.Recipient? || key.Issuer?) && Get(parsed, key).Obj? { FilledKeeps(payload, app, key); }
    FilledApp(payload, app);
    GetSet(AppOf(parsed), Key.AppNpub, app, key);
  }

  // ----- decoding -----

  /** `assertEqualWhenPresent`: the operands are one and the same value, or at least one is a string. */
  predicate Agree(left: Json, right: Json) {
    Truthy(left) && Truthy(right) ==> left == right
  }

  function ConnectionKey(service: string, workspaceService: string, app: string, recipient: string): string {
    service + ":" + workspaceService + ":" + app + ":" + recipient
  }

  /** `buildAccessGrantDedupeKey` */
  function AccessGrantDedupeKey(service: string, workspaceService: string, app: string, recipient: string): string {
    "wingman-access-grant:v1:" + ConnectionKey(service, workspaceService, app, recipient)
  }

  /** `tag ?? value` */
  function TagOr(tag: Option<string>, value: Json): Json {
    if tag.Some? then Str(tag.value) else value
  }

  /** The announcement carries a readable expiry that has passed. */
  predicate Expired(lib: Library, payload: Json, now: int) {
    var at := Get(payload, Key.ExpiresAt);
    Truthy(at) && lib.dateMs(at).Some? && lib.dateMs(at).value <= now
  }

  /** The tagged recipient and the reader's npub are one key, whatever the case of its letters. */
  predicate IsTaggedFor(lib: Library, event: Event, recipientNpub: string) {
    var tagged, hex := TaggedRecipient(event), lib.hexOf(recipientNpub);
    tagged.Ok? && hex.Some? && lib.lower(tagged.value) == lib.lower(hex.value)
  }

  /** The checks before decryption: what the event says about itself; returns the signer. */
  function CheckEnvelope(lib: Library, event: Event, recipientNpub: string): (r: Result<string>)
    ensures r.Ok? ==> r.value != "" && event.signatureValid && lib.npubOf(event.pubkey) == Some(r.value)
    ensures r.Ok? ==> event.kind == ACCESS_GRANT_KIND && IsTaggedFor(lib, event, recipientNpub)
  {
    var recipientHex, signer := lib.hexOf(recipientNpub), lib.npubOf(event.pubkey);
    :- Check(event.kind == ACCESS_GRANT_KIND, "wrong_kind");
    :- Check(event.signatureValid, "signature_invalid");
    :- Check(recipientHex.Some?, "invalid_npub");
    :- Check(signer.Some? && signer.value != "", "signature_invalid");
    var tagged :- TaggedRecipient(event);
    :- Check(lib.lower(tagged) == lib.lower(recipientHex.value), "wrong_recipient");
    Ok(signer.value)
  }

  /** The cross-checks between tags and payload, which all throw `tag_payload_mismatch`. */
  predicate TagsAgree(tags: Tags, payload: Json, signer: string, recipientNpub: string) {
    && Agree(Value(tags.app), Str("wingman-flight-deck"))
    && Agree(Value(tags.protocol), Str("onboarding"))
    && Agree(Value(tags.appPubkey), Get(AppOf(payload), Key.AppPubkey))
    && Agree(Value(tags.d), Get(payload, Key.DedupeKey))
    && Agree(TagOr(tags.grant, GrantIdOf(payload)), GrantIdOf(payload))
    && Agree(TagOr(tags.recipient, RecipientOf(payload)), RecipientOf(payload))
    && Agree(TagOr(tags.issuer, IssuerOf(payload)), IssuerOf(payload))
    && TagOr(tags.issuer, IssuerOf(payload)) == Str(signer)
    && Agree(TagOr(tags.serviceNpub, Get(ServiceOf(payload), Key.ServiceNpub)),
             Get(ServiceOf(payload), Key.ServiceNpub))
    && Agree(TagOr(tags.workspaceServiceNpub, Get(WorkspaceOf(payload), Key.WorkspaceServiceNpub)),
             Get(WorkspaceOf(payload), Key.WorkspaceServiceNpub))
    && Agree(TagOr(tags.workspaceOwnerNpub, Get(WorkspaceOf(payload), Key.OwnerNpub)),
             Get(WorkspaceOf(payload), Key.OwnerNpub))
    && Agree(TagOr(tags.appNpub, Get(AppOf(payload), Key.AppNpub)), Get(AppOf(payload), Key.AppNpub))
    && RecipientOf(payload) == Str(recipientNpub) && recipientNpub != ""
  }

  /** The grant that tags and payload name together. */
  function GrantOf(lib: Library, event: Event, payload: Json, signer: string, recipientNpub: string): Grant
    requires payload.Obj?
  {
    var tags := ReadTags(event);
    var app := TagOr(tags.appNpub, Get(AppOf(payload), Key.AppNpub));
    var service := TagOr(tags.serviceNpub, Get(ServiceOf(payload), Key.ServiceNpub));
    var workspaceService := TagOr(tags.workspaceServiceNpub, Get(WorkspaceOf(payload), Key.WorkspaceServiceNpub));
    var owner := TagOr(tags.workspaceOwnerNpub, Get(WorkspaceOf(payload), Key.OwnerNpub));
    var key := AccessGrantDedupeKey(Text(lib, service), Text(lib, workspaceService), Text(lib, app), recipientNpub);
    var connection := ConnectionKey(Text(lib, service), Text(lib, workspaceService), Text(lib, app), recipientNpub);
    var grantId := Else(Else(GrantIdOf(payload), Value(tags.grant)), Str("sha256:" + lib.sha256(key)));
    Grant.Grant(event, Set(Set(payload, Key.DedupeKey, Str(key)), Key.GrantId, grantId), recipientNpub, signer,
          TagOr(tags.issuer, IssuerOf(payload)), service, workspaceService, owner, app, grantId, key, connection)
  }

  /** `decodeAccessGrantEvent` */
  function Decode(lib: Library, event: Event, recipientNpub: string, now: int): Result<Grant> {
    var signer :- CheckEnvelope(lib, event, recipientNpub);
    :- Check(event.plaintext.Some?, "decrypt_failed");
    var parsed := lib.parse(event.plaintext.value);
    :- Check(parsed.Some?, "payload_invalid");
    var payload :- ParsePayload(lib, parsed.value);
    :- Check(TagsAgree(ReadTags(event), payload, signer, recipientNpub), "tag_payload_mismatch");
    var grant := GrantOf(lib, event, payload, signer, recipientNpub);
    :- Check(Agree(Str(grant.dedupeKey), Else(Get(payload, Key.DedupeKey), Value(ReadTags(event).d))),
             "tag_payload_mismatch");
    :- Check(Get(payload, Key.Action) == Str("grant") ==> !Expired(lib, payload, now), "stale_event");
    Ok(grant)
  }

  // ----- the package against the grant -----

  /** `assertAgentConnectEqual` passes. */
  predicate Equal(left: Option<string>, right: Json) {
    left.Some? && left.value != "" && right == Str(left.value)
  }

  /** `assertAgentConnectEqualWhenPresent` passes. */
  predicate EqualWhenPresent(left: Option<string>, right: Json) {
    left.Some? && left.value != "" ==> right == Str(left.value)
  }

  /** `assertAgentConnectEqual` with `{ url: true }` passes. */
  predicate EqualUrl(lib: Library, left: Option<string>, right: Json) {
    left.Some? && left.value != "" && Truthy(right) &&
    var a := lib.url(Str(left.value)); a.Some? && a.value != "" && a == lib.url(right)
  }

  function GrantUrl(grant: Grant): Json { Get(ServiceOf(grant.payload), Key.DirectHttpsUrl) }

  /** The workspace id the grant names, if any. */
  function GrantWorkspaceId(grant: Grant): Option<string> {
    GetString(Get(WorkspaceOf(grant.payload), Key.WorkspaceId))
  }

  predicate MatchesV6(lib: Library, grant: Grant, package: Json) {
    var locator := ParseDescriptor(lib, Get(package, Key.WorkspaceDescriptor));
    var authApp := GetString(Get(Get(package, Key.Auth), Key.AppNpub));
    locator.Some? && var d := locator.value;
    && EqualUrl(lib, PackageUrl(package), GrantUrl(grant))
    && EqualUrl(lib, Some(d.towerBaseUrl), GrantUrl(grant))
    && Equal(Some(d.towerServiceNpub), grant.serviceNpub)
    && Equal(Some(d.workspaceOwnerNpub), grant.workspaceOwnerNpub)
    && EqualWhenPresent(Some(d.workspaceId), Value(GrantWorkspaceId(grant)))
    && Equal(Some(d.workspaceServiceNpub), grant.workspaceServiceNpub)
    && Equal(OrElse(authApp, d.appNpub), grant.appNpub)
    && (authApp.Some? && d.appNpub.Some? ==> authApp == d.appNpub)
  }

  predicate TokenMatches(lib: Library, grant: Grant, token: Json) {
    && EqualUrl(lib, GetString(Get(token, Key.DirectHttpsUrl)), GrantUrl(grant))
    && Equal(ServiceOfToken(token), grant.serviceNpub)
    && Equal(GetString(Get(token, Key.WorkspaceOwnerNpub)), grant.workspaceOwnerNpub)
    && EqualWhenPresent(GetString(Get(token, Key.WorkspaceId)), Value(GrantWorkspaceId(grant)))
    && EqualWhenPresent(GetString(Get(token, Key.WorkspaceServiceNpub)), grant.workspaceServiceNpub)
    && Equal(GetString(Get(token, Key.AppNpub)), grant.appNpub)
  }

  predicate MatchesV5(lib: Library, grant: Grant, package: Json) {
    var service, workspace, app := Get(package, Key.Service), Get(package, Key.Workspace), Get(package, Key.App);
    var namespace := OrElse(GetString(Get(app, Key.Namespace)), GetString(Get(app, Key.SchemaNamespace)));
    var token := DecodeToken(lib, package);
    && EqualUrl(lib, PackageUrl(package), GrantUrl(grant))
    && Equal(GetString(Get(service, Key.ServiceNpub)), grant.serviceNpub)
    && Equal(GetString(Get(workspace, Key.OwnerNpub)), grant.workspaceOwnerNpub)
    && EqualWhenPresent(GetString(Get(workspace, Key.WorkspaceId)), Value(GrantWorkspaceId(grant)))
    && EqualWhenPresent(GetString(Get(workspace, Key.WorkspaceServiceNpub)), grant.workspaceServiceNpub)
    && Equal(GetString(Get(app, Key.AppNpub)), grant.appNpub)
    && EqualWhenPresent(namespace, Get(AppOf(grant.payload), Key.Namespace))
    && token.Some? && TokenMatches(lib, grant, token.value)
  }

  /** `assertAgentConnectMatchesGrant` does not throw; it always throws `agent_connect_mismatch`. */
  predicate Matches(lib: Library, grant: Grant) {
    var package := PackageOf(grant.payload);
    if IsVersion(lib, package, 6.0) then MatchesV6(lib, grant, package) else MatchesV5(lib, grant, package)
  }

  // ----- rescoping -----

  /** `grant.payload.x ?? package.x` */
  function Override(target: Json, key: Key, own: Json, packaged: Json): Json
    requires target.Obj?
  {
    Set(target, key, Else(Get(own, key), Get(packaged, key)))
  }

  /** `grant.payload.x ?? package.x ?? null` */
  function OverrideOrNull(target: Json, key: Key, own: Json, packaged: Json): Json
    requires target.Obj?
  {
    Set(target, key, Else(Else(Get(own, key), Get(packaged, key)), Null))
  }

  function ScopedService(grant: Grant, service: Json): (r: Json)
    requires service.Obj?
  {
    var own := ServiceOf(grant.payload);
    var s1 := Set(service, Key.DirectHttpsUrl, GrantUrl(grant));
    var s2 := Override(s1, Key.RelayUrls, own, service);
    var s3 := Override(s2, Key.OpenapiUrl, own, service);
    var s4 := Override(s3, Key.DocsUrl, own, service);
    Override(s4, Key.HealthUrl, own, service)
  }

  function ScopedWorkspace(grant: Grant, workspace: Json): (r: Json)
    requires workspace.Obj?
  {
    var own := WorkspaceOf(grant.payload);
    var w1 := Set(workspace, Key.OwnerNpub, grant.workspaceOwnerNpub);
    var w2 := Set(w1, Key.WorkspaceServiceNpub, grant.workspaceServiceNpub);
    var w3 := OverrideOrNull(w2, Key.WorkspaceId, own, workspace);
    var w4 := OverrideOrNull(w3, Key.LabelText, own, workspace);
    OverrideOrNull(w4, Key.Name, own, workspace)
  }

  function ScopedApp(grant: Grant, app: Json): (r: Json)
    requires app.Obj?
  {
    var own := AppOf(grant.payload);
    var a1 := Set(app, Key.AppNpub, grant.appNpub);
    var a2 := Override(a1, Key.AppPubkey, own, app);
    Override(a2, Key.Namespace, own, app)
  }

  function WithParts(package: Json, service: Json, workspace: Json, app: Json): Json
    requires package.Obj?
  {
    Set(Set(Set(package, Key.Service, service), Key.Workspace, workspace), Key.App, app)
  }

  /** `buildGrantScopedAgentConnectPackage` */
  function Scoped(lib: Library, grant: Grant): Json {
    var package := ObjectOrEmpty(PackageOf(grant.payload));
    var service := ScopedService(grant, ObjectOrEmpty(Get(package, Key.Service)));
    if IsVersion(lib, package, 6.0) then Set(package, Key.Service, service)
    else
      WithParts(package, Set(service, Key.ServiceNpub, grant.serviceNpub),
                ScopedWorkspace(grant, ObjectOrEmpty(Get(package, Key.Workspace))),
                ScopedApp(grant, ObjectOrEmpty(Get(package, Key.App))))
  }
}

/** Asking Tower whether an access grant, or its revocation, still stands. */
module TowerVerify {
  import opened AccessGrant
  import opened Json
  import opened Wrappers

  datatype Response = Unreachable | Answer(status: int, body: Json)

  /** Tower's answers to every question either verifier may ask about one grant. */
  datatype Tower = Tower(
    verify: Response,
    /** at the grant's `me_url`, when that resolves to the service's own origin */
    grantMe: Option<Response>,
    /** at `/workspaces/{workspace id}/me` */
    workspaceMe: Response,
    /** the workspace and group listings, in the order they are asked */
    listings: seq<Response>
  )

  predicate IsOk(status: int) { 200 <= status <= 299 }

  predicate IsMissing(status: int) { status == 404 || status == 405 || status == 501 }

  predicate IsDenial(status: int) { status == 403 || status == 404 || status == 410 }

  // ----- identity matching -----

  function At(value: Json, path: seq<Key>): Json
    decreases |path|
  {
    if path == [] then value else At(Get(value, path[0]), path[1..])
  }

  /** Reading on from nothing finds nothing. */
  lemma {:induction false} NothingBelow(value: Json, path: seq<Key>)
    requires !value.Obj? && path != []
    ensures At(value, path) == Undefined
    decreases |path|
  {
    if |path| > 1 {
      NothingBelow(Undefined, path[1..]);
    }
  }

  /** Every text found along the paths is one of the expected ones; with nothing to expect, anything goes. */
  predicate ExposedValuesMatch(body: Json, paths: seq<seq<Key>>, expected: seq<Json>) {
    (forall value <- expected :: !Truthy(value)) ||
    forall path <- paths ::
      var text := GetString(At(body, path));
      text.Some? ==> Str(text.value) in expected
  }

  /** The grant's recognised app identities. */
  function WorkspaceApp(grant: Grant): Json {
    var own := GetString(Get(WorkspaceOf(grant.payload), Key.AppNpub));
    if own.Some? then Str(own.value) else grant.appNpub
  }

  // Where Tower's answers may expose each identity.

  const TOWER_PATHS: seq<seq<Key>> := [
    [Key.ServiceNpub], [Key.TowerServiceNpub], [Key.Service, Key.ServiceNpub], [Key.Workspace, Key.TowerServiceNpub],
    [Key.Identity, Key.TowerServiceNpub], [Key.Descriptor, Key.Identity, Key.TowerServiceNpub]
  ]

  const WORKSPACE_SERVICE_PATHS: seq<seq<Key>> := [
    [Key.WorkspaceServiceNpub], [Key.Workspace, Key.WorkspaceServiceNpub], [Key.Identity, Key.WorkspaceServiceNpub],
    [Key.Descriptor, Key.Identity, Key.WorkspaceServiceNpub]
  ]

  const OWNER_PATHS: seq<seq<Key>> := [
    [Key.WorkspaceOwnerNpub], [Key.OwnerNpub], [Key.Workspace, Key.OwnerNpub], [Key.Workspace, Key.WorkspaceOwnerNpub],
    [Key.Identity, Key.WorkspaceOwnerNpub], [Key.Descriptor, Key.Identity, Key.WorkspaceOwnerNpub]
  ]

  const WORKSPACE_ID_PATHS: seq<seq<Key>> := [
    [Key.WorkspaceId], [Key.V4WorkspaceId], [Key.Workspace, Key.WorkspaceId], [Key.Workspace, Key.V4WorkspaceId],
    [Key.Identity, Key.WorkspaceId], [Key.Descriptor, Key.Identity, Key.WorkspaceId]
  ]

  const APP_PATHS: seq<seq<Key>> := [
    [Key.AppNpub], [Key.Workspace, Key.AppNpub], [Key.Identity, Key.AppNpub],
    [Key.Descriptor, Key.Identity, Key.AppNpub]
  ]

  const RECIPIENT_PATHS: seq<seq<Key>> :=
    [[Key.RecipientNpub], [Key.Viewer], [Key.ViewerNpub], [Key.MemberNpub], [Key.Actor, Key.Npub]]

  /** `towerIdentityMatchesGrant` */
  predicate IdentityMatches(body: Json, grant: Grant) {
    && ExposedValuesMatch(body, TOWER_PATHS, [grant.serviceNpub])
    && ExposedValuesMatch(body, WORKSPACE_SERVICE_PATHS, [grant.workspaceServiceNpub])
    && ExposedValuesMatch(body, OWNER_PATHS, [grant.workspaceOwnerNpub])
    && ExposedValuesMatch(body, WORKSPACE_ID_PATHS, [Value(GrantWorkspaceId(grant))])
    && ExposedValuesMatch(body, APP_PATHS, [WorkspaceApp(grant), grant.appNpub])
    && ExposedValuesMatch(body, RECIPIENT_PATHS, [Str(grant.recipientNpub)])
  }

  /** `responseAllowsAccess` */
  predicate AllowsAccess(body: Json, grant: Grant) {
    && IsObject(body) && IdentityMatches(body, grant)
    && (Get(body, Key.Allowed) == Bool(true) || Get(body, Key.Active) == Bool(true) ||
        Get(body, Key.Verified) == Bool(true) || Get(body, Key.CurrentMember) == Bool(true) ||
        IsObject(Get(body, Key.Membership)))
  }

  /** A text exposed along a checked path can meet only one expected identity. */
  lemma OneIdentity(body: Json, paths: seq<seq<Key>>, key: Key, a: Json, b: Json)
    requires ExposedValuesMatch(body, paths, [a]) && ExposedValuesMatch(body, paths, [b])
    requires [key] in paths && GetString(Get(body, key)).Some? && Truthy(a) && Truthy(b)
    ensures a == b == Value(GetString(Get(body, key)))
  {
    assert At(body, [key]) == At(Get(body, key), []) == Get(body, key);
    assert Truthy([a][0]) && Truthy([b][0]);
  }

  /** One answer that names its tower, workspace service, owner and recipient vouches for one such combination only. */
  lemma AnswerVouchesForOneIdentity(body: Json, g: Grant, h: Grant)
    requires AllowsAccess(body, g) && AllowsAccess(body, h)
    requires Truthy(g.serviceNpub) && Truthy(h.serviceNpub)
    requires Truthy(g.workspaceOwnerNpub) && Truthy(h.workspaceOwnerNpub)
    requires Truthy(g.workspaceServiceNpub) && Truthy(h.workspaceServiceNpub)
    requires g.recipientNpub != "" && h.recipientNpub != ""
    requires GetString(Get(body, Key.ServiceNpub)).Some? && GetString(Get(body, Key.WorkspaceServiceNpub)).Some?
    requires GetString(Get(body, Key.WorkspaceOwnerNpub)).Some? && GetString(Get(body, Key.RecipientNpub)).Some?
    ensures g.serviceNpub == h.serviceNpub && g.workspaceServiceNpub == h.workspaceServiceNpub
    ensures g.workspaceOwnerNpub == h.workspaceOwnerNpub && g.recipientNpub == h.recipientNpub
  {
    OneIdentity(body, TOWER_PATHS, Key.ServiceNpub, g.serviceNpub, h.serviceNpub);
    OneIdentity(body, WORKSPACE_SERVICE_PATHS, Key.WorkspaceServiceNpub,
                g.workspaceServiceNpub, h.workspaceServiceNpub);
    OneIdentity(body, OWNER_PATHS, Key.WorkspaceOwnerNpub, g.workspaceOwnerNpub, h.workspaceOwnerNpub);
    OneIdentity(body, RECIPIENT_PATHS, Key.RecipientNpub, Str(g.recipientNpub), Str(h.recipientNpub));
  }

  function Rows(body: Json): seq<Json> {
    var workspaces, groups := Get(body, Key.Workspaces), Get(body, Key.Groups);
    if workspaces.Arr? then workspaces.items else if groups.Arr? then groups.items else []
  }

  predicate RowAllows(row: Json, grant: Grant) {
    && IsObject(row) && IdentityMatches(row, grant)
    && (Same(Get(row, Key.WorkspaceOwnerNpub), grant.workspaceOwnerNpub) ||
        Same(Get(row, Key.OwnerNpub), grant.workspaceOwnerNpub) ||
        Same(Get(row, Key.WorkspaceServiceNpub), grant.workspaceServiceNpub) ||
        (Truthy(grant.serviceNpub) && Same(Get(row, Key.ServiceNpub), grant.serviceNpub)))
  }

  /** `fallbackPayloadAllowsAccess` */
  predicate ListingAllows(body: Json, grant: Grant) {
    exists row <- Rows(body) :: RowAllows(row, grant)
  }

  datatype TowerResult =
    AccessActive | WorkspaceDeleted | WorkspaceNotFound | MembershipRevoked | AccessDenied | Unconfirmed

  function StatusOf(body: Json): Option<string> {
    OrElse(GetString(Get(body, Key.Status)), GetString(Get(body, Key.State)))
  }

  function ReasonOf(body: Json): Option<string> {
    OrElse(GetString(Get(body, Key.Reason)),
           OrElse(GetString(Get(body, Key.DetailCode)), GetString(Get(body, Key.Code))))
  }

  predicate SaysDeleted(status: Option<string>, reason: Option<string>) {
    status == Some("deleted") || status == Some("tombstoned") ||
    reason == Some("workspace_deleted") || reason == Some("workspace_tombstoned")
  }

  predicate SaysRevoked(status: Option<string>, reason: Option<string>) {
    status == Some("revoked") || status == Some("inactive") || reason == Some("workspace_access_revoked") ||
    reason == Some("workspace_membership_revoked") || reason == Some("not_workspace_member")
  }

  const DELETION_MARKS: set<Key> := {Key.Deleted, Key.Tombstoned}
  const MEMBERSHIP_MARKS: set<Key> := {Key.Allowed, Key.Active, Key.Verified, Key.CurrentMember, Key.Member}
  const TEXT_FIELDS: set<Key> := {Key.Status, Key.State, Key.Reason, Key.DetailCode, Key.Code}

  predicate IsMarked(body: Json, marks: set<Key>, mark: bool) {
    exists key <- marks :: Get(body, key) == Bool(mark)
  }

  /** `payloadConfirmsRevocation` */
  function ConfirmsRevocation(body: Json): (r: Option<TowerResult>)
    ensures r.Some? ==> r.value.WorkspaceDeleted? || r.value.MembershipRevoked?
  {
    if !IsObject(body) then None
    else if IsMarked(body, DELETION_MARKS, true) || SaysDeleted(StatusOf(body), ReasonOf(body)) then
      Some(WorkspaceDeleted)
    else if IsMarked(body, MEMBERSHIP_MARKS, false) || SaysRevoked(StatusOf(body), ReasonOf(body)) then
      Some(MembershipRevoked)
    else None
  }

  lemma TextsKept(body: Json, key: Key, value: Json)
    requires body.Obj? && key !in TEXT_FIELDS
    ensures StatusOf(Set(body, key, value)) == StatusOf(body) && ReasonOf(Set(body, key, value)) == ReasonOf(body)
  {
    hide GetString, Get, Set;
    GetSet(body, key, value, Key.Status);
    GetSet(body, key, value, Key.State);
    GetSet(body, key, value, Key.Reason);
    GetSet(body, key, value, Key.DetailCode);
    GetSet(body, key, value, Key.Code);
  }

  lemma MarksKept(body: Json, key: Key, value: Json, marks: set<Key>, mark: bool)
    requires body.Obj? && (key !in marks || !value.Bool? || value.b != mark)
    ensures IsMarked(Set(body, key, value), marks, mark) ==> IsMarked(body, marks, mark)
    ensures key !in marks && IsMarked(body, marks, mark) ==> IsMarked(Set(body, key, value), marks, mark)
  {
    hide Get, Set;
    forall other <- marks
      ensures Get(Set(body, key, value), other) == if other == key then value else Get(body, other)
    {
      GetSet(body, key, value, other);
    }
  }

  lemma MarkedBySet(body: Json, key: Key, marks: set<Key>, mark: bool)
    requires body.Obj? && key in marks
    ensures IsMarked(Set(body, key, Bool(mark)), marks, mark)
  {
    GetSet(body, key, Bool(mark), key);
  }

  /** A mark of deletion decides, whatever else an answer says. */
  lemma DeletionMarkDecides(body: Json, key: Key)
    requires body.Obj? && key in DELETION_MARKS
    ensures ConfirmsRevocation(Set(body, key, Bool(true))) == Some(WorkspaceDeleted)
  {
    hide StatusOf, ReasonOf, SaysDeleted, SaysRevoked, IsMarked;
    MarkedBySet(body, key, DELETION_MARKS, true);
  }

  /** A mark of lost membership confirms that, unless the answer confirms deletion anyway. */
  lemma MembershipMarkConfirms(body: Json, key: Key)
    requires body.Obj? && key in MEMBERSHIP_MARKS
    ensures ConfirmsRevocation(Set(body, key, Bool(false))) ==
            if ConfirmsRevocation(body) == Some(WorkspaceDeleted) then Some(WorkspaceDeleted)
            else Some(MembershipRevoked)
  {
    TextsKept(body, key, Bool(false));
    MarksKept(body, key, Bool(false), DELETION_MARKS, true);
    MarkedBySet(body, key, MEMBERSHIP_MARKS, false);
    hide StatusOf, ReasonOf, SaysDeleted, SaysRevoked, IsMarked;
  }

  /** Any field but these marks and texts leaves what an answer confirms as it is. */
  lemma OtherFieldsConfirmNothing(body: Json, key: Key, value: Json)
    requires body.Obj? && key !in DELETION_MARKS + MEMBERSHIP_MARKS + TEXT_FIELDS
    ensures ConfirmsRevocation(Set(body, key, value)) == ConfirmsRevocation(body)
  {
    TextsKept(body, key, value);
    MarksKept(body, key, value, DELETION_MARKS, true);
    MarksKept(body, key, value, MEMBERSHIP_MARKS, false);
    hide StatusOf, ReasonOf, SaysDeleted, SaysRevoked, IsMarked;
  }

  // ----- verifying access -----

  predicate Allows(response: Response, grant: Grant) {
    response.Answer? && IsOk(response.status) && ListingAllows(response.body, grant)
  }

  /** The first listing that names the workspace; `None` when the verifier throws. */
  function AccessByListing(grant: Grant, listings: seq<Response>): Option<Json> {
    if listings == [] || listings[0].Unreachable? then None
    else if Allows(listings[0], grant) then Some(listings[0].body)
    else AccessByListing(grant, listings[1..])
  }

  /** The verify endpoint does not exist, and the grant's `/me` does not settle the matter. */
  predicate FallsBack(tower: Tower) {
    && tower.verify.Answer? && IsMissing(tower.verify.status)
    && (tower.grantMe.Some? ==>
          tower.grantMe.value.Answer? && !IsOk(tower.grantMe.value.status) && !IsDenial(tower.grantMe.value.status))
  }

  function AccessByAnswer(grant: Grant, response: Response): Option<Json> {
    if response.Answer? && IsOk(response.status) && AllowsAccess(response.body, grant) then Some(response.body)
    else None
  }

  /** `verifyAccessGrantWithTower`; `None` when it throws */
  function Access(grant: Grant, tower: Tower): Option<Json> {
    if tower.verify.Unreachable? || !IsMissing(tower.verify.status) then AccessByAnswer(grant, tower.verify)
    else if FallsBack(tower) then AccessByListing(grant, tower.listings)
    else AccessByAnswer(grant, tower.grantMe.value)
  }

  method VerifyAccess(grant: Grant, tower: Tower) returns (verified: Option<Json>)
    ensures verified == Access(grant, tower)
  {
    match tower.verify {
      case Unreachable => return None;
      case Answer(status, body) =>
        if IsOk(status) { return if AllowsAccess(body, grant) then Some(body) else None; }
        if !IsMissing(status) { return None; }
    }
    if tower.grantMe.Some? {
      match tower.grantMe.value {
        case Unreachable => return None;
        case Answer(status, body) =>
          if IsOk(status) { return if AllowsAccess(body, grant) then Some(body) else None; }
          if IsDenial(status) { return None; }
      }
    }
    for i := 0 to |tower.listings|
      invariant Access(grant, tower) == AccessByListing(grant, tower.listings[i..])
    {
      match tower.listings[i] {
        case Unreachable => return None;
        case Answer(status, body) =>
          if IsOk(status) && ListingAllows(body, grant) { return Some(body); }
      }
    }
    return None;
  }

  // ----- verifying a revocation -----

  datatype Verification = Verification(confirmed: bool, result: TowerResult, payload: Json)

  /** One question put to Tower: an answer, no answer, or a thrown error. */
  datatype Step = Decided(verification: Verification) | Undecided(checked: seq<Json>) | Threw

  function DenialResult(status: int): TowerResult
    requires IsDenial(status)
  {
    if status == 404 then WorkspaceNotFound else if status == 410 then WorkspaceDeleted else AccessDenied
  }

  /** Asking a `/me` endpoint, or not asking at all. */
  function AskMe(grant: Grant, response: Option<Response>, checked: seq<Json>): Step {
    match response
    case None => Undecided(checked)
    case Some(Unreachable) => Threw
    case Some(Answer(status, body)) =>
      if IsOk(status) then
        if AllowsAccess(body, grant) then Decided(Verification(false, AccessActive, body))
        else if ConfirmsRevocation(body).Some?
        then Decided(Verification(true, ConfirmsRevocation(body).value, body))
        else Undecided(checked + [body])
      else if IsDenial(status) then Decided(Verification(true, DenialResult(status), Undefined))
      else Undecided(checked)
  }

  /** The verify endpoint, for a revocation. */
  function AskVerify(grant: Grant, response: Response): Step {
    match response
    case Unreachable => Threw
    case Answer(status, body) =>
      if IsOk(status) then
        if AllowsAccess(body, grant) then Decided(Verification(false, AccessActive, body))
        else if ConfirmsRevocation(body).Some?
        then Decided(Verification(true, ConfirmsRevocation(body).value, body))
        else Decided(Verification(false, Unconfirmed, body))
      else if status == 410 || status == 403 then Decided(Verification(true, DenialResult(status), Undefined))
      else if !IsMissing(status) then Decided(Verification(false, Unconfirmed, Undefined))
      else Undecided([])
  }

  /** The listings in order, with the answers seen so far. */
  function AskListings(grant: Grant, listings: seq<Response>, saw: bool, checked: seq<Json>): Option<Verification> {
    if listings == [] then
      Some(if saw then Verification(true, WorkspaceNotFound, Arr(checked))
           else Verification(false, Unconfirmed, Arr(checked)))
    else match listings[0]
      case Unreachable => None
      case Answer(status, body) =>
        if !IsOk(status) then AskListings(grant, listings[1..], saw, checked)
        else if ListingAllows(body, grant) then Some(Verification(false, AccessActive, body))
        else AskListings(grant, listings[1..], true, checked + [body])
  }

  /** The second `/me` is asked only for a grant that names its workspace. */
  function WorkspaceMe(grant: Grant, tower: Tower): Option<Response> {
    if GrantWorkspaceId(grant).Some? then Some(tower.workspaceMe) else None
  }

  function AfterGrantMe(grant: Grant, tower: Tower, checked: seq<Json>): Option<Verification> {
    match AskMe(grant, WorkspaceMe(grant, tower), checked)
    case Threw => None
    case Decided(verification) => Some(verification)
    case Undecided(seen) => AskListings(grant, tower.listings, false, seen)
  }

  function AfterVerify(grant: Grant, tower: Tower): Option<Verification> {
    match AskMe(grant, tower.grantMe, [])
    case Threw => None
    case Decided(verification) => Some(verification)
    case Undecided(checked) => AfterGrantMe(grant, tower, checked)
  }

  /** `verifyAccessGrantRevocationWithTower`; `None` when it throws */
  function Revocation(grant: Grant, tower: Tower): Option<Verification> {
    match AskVerify(grant, tower.verify)
    case Threw => None
    case Decided(verification) => Some(verification)
    case Undecided(_) => AfterVerify(grant, tower)
  }

  method VerifyRevocation(grant: Grant, tower: Tower) returns (verification: Option<Verification>)
    ensures verification == Revocation(grant, tower)
  {
    var step := AskVerify(grant, tower.verify);
    if step.Threw? { return None; }
    if step.Decided? { return Some(step.verification); }
    step := AskMe(grant, tower.grantMe, []);
    if step.Threw? { return None; }
    if step.Decided? { return Some(step.verification); }
    step := AskMe(grant, WorkspaceMe(grant, tower), step.checked);
    if step.Threw? { return None; }
    if step.Decided? { return Some(step.verification); }
    var checkedPayloads := step.checked;
    var sawWorkspaceList := false;
    for i := 0 to |tower.listings|
      invariant Revocation(grant, tower) ==
                AskListings(grant, tower.listings[i..], sawWorkspaceList, checkedPayloads)
    {
      match tower.listings[i] {
        case Unreachable => return None;
        case Answer(status, body) =>
          if IsOk(status) {
            sawWorkspaceList := true;
            checkedPayloads := checkedPayloads + [body];
            if ListingAllows(body, grant) { return Some(Verification(false, AccessActive, body)); }
          }
      }
    }
    if sawWorkspaceList { return Some(Verification(true, WorkspaceNotFound, Arr(checkedPayloads))); }
    return Some(Verification(false, Unconfirmed, Arr(checkedPayloads)));
  }

  // ----- one and the same Tower cannot confirm both -----

  /** The workspace's `/me` denies the access that a listing grants. */
  predicate Contradicts(grant: Grant, me: Response) {
    me.Answer? &&
    if IsOk(me.status) then !AllowsAccess(me.body, grant) && ConfirmsRevocation(me.body).Some? else IsDenial(me.status)
  }

  lemma {:induction false} ListingsAgree(grant: Grant, listings: seq<Response>, saw: bool, checked: seq<Json>)
    requires AccessByListing(grant, listings).Some?
    ensures AskListings(grant, listings, saw, checked) ==
            Some(Verification(false, AccessActive, AccessByListing(grant, listings).value))
  {
    if !Allows(listings[0], grant) {
      var ok := IsOk(listings[0].status);
      ListingsAgree(grant, listings[1..], saw || ok, if ok then checked + [listings[0].body] else checked);
    }
  }

  /** Access confirmed by the verify endpoint or the grant's `/me` is active access to a revocation as well. */
  lemma DirectAccessIsActive(grant: Grant, tower: Tower)
    requires Access(grant, tower).Some? && !FallsBack(tower)
    ensures Revocation(grant, tower) == Some(Verification(false, AccessActive, Access(grant, tower).value))
  {
  }

  /** Access confirmed by a listing is active access unless the workspace's own `/me` gets in the way. */
  lemma ListedAccess(grant: Grant, tower: Tower)
    requires Access(grant, tower).Some? && FallsBack(tower)
    ensures GrantWorkspaceId(grant).None? ==>
              Revocation(grant, tower) == Some(Verification(false, AccessActive, Access(grant, tower).value))
    ensures GrantWorkspaceId(grant).Some? ==>
              if tower.workspaceMe.Unreachable? then Revocation(grant, tower) == None
              else Revocation(grant, tower).Some? &&
                   (Revocation(grant, tower).value.confirmed <==> Contradicts(grant, tower.workspaceMe)) &&
                   (!Contradicts(grant, tower.workspaceMe) ==> Revocation(grant, tower).value.result == AccessActive)
  {
    var step := AskMe(grant, WorkspaceMe(grant, tower), []);
    if step.Undecided? {
      ListingsAgree(grant, tower.listings, false, step.checked);
    }
  }

  /**
   * While Tower's answers confirm access, they confirm a revocation exactly when only a listing names the workspace
   * and the `/me` of the workspace id the grant names denies it.
   */
  lemma BothConfirmedExactly(grant: Grant, tower: Tower)
    requires Access(grant, tower).Some?
    ensures (Revocation(grant, tower).Some? && Revocation(grant, tower).value.confirmed) <==>
            (FallsBack(tower) && GrantWorkspaceId(grant).Some? && Contradicts(grant, tower.workspaceMe))
  {
    if FallsBack(tower) {
      ListedAccess(grant, tower);
    } else {
      DirectAccessIsActive(grant, tower);
    }
  }

  /** Nothing but errors that deny nothing. */
  predicate Silent(response: Response) {
    response.Answer? ==> !IsOk(response.status) && !IsDenial(response.status)
  }

  lemma {:induction false} SilentListings(grant: Grant, listings: seq<Response>, checked: seq<Json>)
    requires forall r <- listings :: Silent(r)
    ensures AccessByListing(grant, listings).None?
    ensures var v := AskListings(grant, listings, false, checked); v.Some? ==> !v.value.confirmed
  {
    if listings != [] {
      assert Silent(listings[0]);
      SilentListings(grant, listings[1..], checked);
    }
  }

  /** A Tower that is down, or whose verify endpoint alone is missing, confirms neither access nor a revocation. */
  lemma SilenceConfirmsNothing(grant: Grant, tower: Tower)
    requires Silent(tower.verify) || (tower.verify.Answer? && IsMissing(tower.verify.status))
    requires (tower.grantMe.Some? ==> Silent(tower.grantMe.value)) && Silent(tower.workspaceMe)
    requires forall r <- tower.listings :: Silent(r)
    ensures Access(grant, tower).None?
    ensures Revocation(grant, tower).Some? ==> !Revocation(grant, tower).value.confirmed
  {
    SilentListings(grant, tower.listings, []);
  }
}
